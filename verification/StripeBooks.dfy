/** Conservation of money over the platform and the accounts that exist, and when it holds. Nothing
    checks the account that a payment intent is made as. */
module StripeBooks {
  import opened Wrappers
  import opened StripeStore
  import opened MapSums
  import opened Ledger
  import opened Balances
  import opened StripeOps
  import opened Checkout
  import opened StripeInvariant
  import opened StripeMoney
  import opened StripeRuns
  import opened StripeTheorems

  // ---------- where transfers and payouts can go ----------

  ghost function Known(s: Store): set<string> { {""} + s.accounts }

  /** Transfers and payouts only go to and from accounts that exist. */
  ghost predicate KnownTargets(s: Store) {
    && (forall id :: id in s.intents ==> s.intents[id].destination in Known(s))
    && (forall id :: id in s.transfers ==> s.transfers[id].destination in Known(s))
    && (forall id :: id in s.payouts ==> s.payouts[id].account in Known(s))
  }

  ghost predicate TargetsFrom(s: Store, t: Store) {
    && s.accounts <= t.accounts
    && (forall id :: id in t.intents ==> IntentTarget(s, t, id))
    && (forall id :: id in t.transfers ==> TransferTarget(s, t, id))
    && (forall id :: id in t.payouts ==> PayoutTarget(s, t, id))
  }

  ghost predicate IntentTarget(s: Store, t: Store, id: string)
    requires id in t.intents
  {
    t.intents[id].destination in Known(t) || (id in s.intents && s.intents[id].destination == t.intents[id].destination)
  }

  ghost predicate TransferTarget(s: Store, t: Store, id: string)
    requires id in t.transfers
  {
    var to := t.transfers[id].destination;
    to in Known(t) || (id in s.transfers && s.transfers[id].destination == to) ||
    exists i :: i in s.intents && s.intents[i].destination == to
  }

  ghost predicate PayoutTarget(s: Store, t: Store, id: string)
    requires id in t.payouts
  {
    t.payouts[id].account in Known(t) || (id in s.payouts && s.payouts[id].account == t.payouts[id].account)
  }

  lemma SettleTargets(s: Store, id: string, pi: Intent, captured: int, share: int, chID: string, trID: string, now: int)
    requires Settles(s, id, pi, captured, share, chID, trID)
    ensures TargetsFrom(s, Settle(s, id, pi, captured, share, chID, trID, now))
  {
  }

  lemma CaptureTargets(s: Store, op: Op)
    requires AllIntents(s) && Fresh(s, op) && Try(s, op).Done? && op.OpCapture?
    ensures TargetsFrom(s, Step(s, op))
  {
    var pi, captured, share := CaptureSettles(s, op.id, op.toCapture, op.chID, op.trID, op.now);
    SettleTargets(s, op.id, pi, captured, share, op.chID, op.trID, op.now);
  }

  lemma CompleteTargets(s: Store, op: Op)
    requires AllIntents(s) && Fresh(s, op) && Try(s, op).Done? && op.OpComplete?
    ensures TargetsFrom(s, Step(s, op))
  {
    if op.outcome == "succeed" {
      var pi, captured, share := SuccessSettles(s, op.id, op.chID, op.trID, op.now);
      SettleTargets(s, op.id, pi, captured, share, op.chID, op.trID, op.now);
    }
  }

  lemma PaidTargets(s: Store, u: Store, id: string, sess: Session, piID: string, chID: string, now: int)
    requires u == s.(coupons := u.coupons, codes := u.codes)
    ensures TargetsFrom(s, PaidStore(u, id, sess, piID, chID, now))
  {
    var t := PaidStore(u, id, sess, piID, chID, now);
    OneMoreIntent(s, t, piID, if sess.Total() == 0 then None else Some(t.intents[piID]));
  }

  lemma OneMoreIntent(s: Store, t: Store, piID: string, pi: Option<Intent>)
    requires t.accounts == s.accounts && t.transfers == s.transfers && t.payouts == s.payouts
    requires t.intents == if pi.Some? then s.intents[piID := pi.value] else s.intents
    requires pi.Some? ==> pi.value.destination == ""
    ensures TargetsFrom(s, t)
  {
    forall k | k in t.intents ensures IntentTarget(s, t, k) {
    }
  }

  lemma CheckoutTargets(s: Store, op: Op)
    requires AllCoupons(s) && AllCodes(s) && AllSessions(s) && Try(s, op).Done? && op.OpCheckout?
    ensures TargetsFrom(s, Step(s, op))
  {
    if op.outcome == "paid" {
      var sess, u := PaidSteps(s, op.id, op.typed, op.found, op.piID, op.chID, op.typedAt, op.now);
      PaidTargets(s, u, op.id, sess, op.piID, op.chID, op.now);
    } else {
      UnpaidShape(s, op.id, op.outcome, op.typed, op.found, op.piID, op.chID, op.typedAt, op.now);
    }
  }

  lemma RefundTargets(s: Store, op: Op)
    requires Try(s, op).Done? && op.OpRefund?
    ensures TargetsFrom(s, Step(s, op))
  {
  }

  lemma TransferTargets(s: Store, op: Op)
    requires Try(s, op).Done?
    requires op.OpTransfer? || op.OpReverse?
    ensures TargetsFrom(s, Step(s, op))
  {
    TransferPutTargets(s, op.trID, Step(s, op).transfers[op.trID]);
  }

  lemma TransferPutTargets(s: Store, trID: string, tr: Transfer)
    requires tr.destination in Known(s) || (trID in s.transfers && s.transfers[trID].destination == tr.destination)
    ensures TargetsFrom(s, s.(transfers := s.transfers[trID := tr]))
  {
  }

  lemma PayoutPutTargets(s: Store, poID: string, po: Payout)
    requires po.account in Known(s) || (poID in s.payouts && s.payouts[poID].account == po.account)
    ensures TargetsFrom(s, s.(payouts := s.payouts[poID := po]))
  {
  }

  lemma PayoutTargets(s: Store, op: Op)
    requires Try(s, op).Done?
    requires op.OpPayout? || op.OpPayOutBalance? || op.OpCompletePayout?
    ensures TargetsFrom(s, Step(s, op))
  {
    PayoutPutTargets(s, op.poID, Step(s, op).payouts[op.poID]);
  }

  lemma IntentTargets(s: Store, op: Op)
    requires Try(s, op).Done?
    requires op.OpAccount? || op.OpCreateIntent? || op.OpConfirm? || op.OpOpenDispute? || op.OpCloseDispute?
    ensures TargetsFrom(s, Step(s, op))
  {
  }

  lemma CatalogShape(s: Store, op: Op)
    requires Try(s, op).Done?
    requires op.OpExpire? || op.OpCoupon? || op.OpDeleteCoupon? || op.OpCode? || op.OpSetCodeActive?
    ensures var t := Step(s, op); t == s.(coupons := t.coupons, codes := t.codes, sessions := t.sessions)
  {
  }

  lemma CatalogTargets(s: Store, op: Op)
    requires Try(s, op).Done?
    requires op.OpExpire? || op.OpCoupon? || op.OpDeleteCoupon? || op.OpCode? || op.OpSetCodeActive?
    ensures TargetsFrom(s, Step(s, op))
  {
    CatalogShape(s, op);
  }

  lemma DoneTargets(s: Store, op: Op)
    requires AllIntents(s) && AllCoupons(s) && AllCodes(s) && AllSessions(s) && Fresh(s, op) && Try(s, op).Done?
    ensures TargetsFrom(s, Step(s, op))
  {
    if op.OpCapture? {
      CaptureTargets(s, op);
    } else if op.OpComplete? {
      CompleteTargets(s, op);
    } else if op.OpCheckout? {
      CheckoutTargets(s, op);
    } else if op.OpRefund? {
      RefundTargets(s, op);
    } else if op.OpTransfer? || op.OpReverse? {
      TransferTargets(s, op);
    } else if op.OpPayout? || op.OpPayOutBalance? || op.OpCompletePayout? {
      PayoutTargets(s, op);
    } else if op.OpSession? {
      SessionShape(s, op.sessionParams, op.id, op.now);
    } else if op.OpExpire? || op.OpCoupon? || op.OpDeleteCoupon? || op.OpCode? || op.OpSetCodeActive? {
      CatalogTargets(s, op);
    } else {
      IntentTargets(s, op);
    }
  }

  lemma TargetsStayKnown(s: Store, t: Store)
    requires KnownTargets(s) && TargetsFrom(s, t)
    ensures KnownTargets(t)
  {
    forall id | id in t.intents ensures t.intents[id].destination in Known(t) {
      assert IntentTarget(s, t, id);
    }
    forall id | id in t.transfers ensures t.transfers[id].destination in Known(t) {
      assert TransferTarget(s, t, id);
    }
    forall id | id in t.payouts ensures t.payouts[id].account in Known(t) {
      assert PayoutTarget(s, t, id);
    }
  }

  lemma StepTargets(s: Store, op: Op)
    requires Invariant(s) && Fresh(s, op) && KnownTargets(s)
    ensures KnownTargets(Step(s, op)) && s.accounts <= Step(s, op).accounts
  {
    if Try(s, op).Done? {
      DoneTargets(s, op);
      TargetsStayKnown(s, Step(s, op));
    }
  }

  lemma {:induction false} RunsKeepTargets(ops: seq<Op>)
    requires FreshRun(ops)
    ensures KnownTargets(Run(ops))
  {
    if ops != [] {
      RunsKeepInvariant(ops[..|ops| - 1]);
      RunsKeepTargets(ops[..|ops| - 1]);
      StepTargets(Run(ops[..|ops| - 1]), ops[|ops| - 1]);
    }
  }

  lemma {:induction false} SumSplit<K>(all: set<K>, some: set<K>, f: K -> int)
    requires some <= all
    ensures SumOver(all, f) == SumOver(some, f) + SumOver(all - some, f)
    decreases |some|
  {
    if k :| k in some {
      SumRemove(all, f, k);
      SumRemove(some, f, k);
      SumSplit(all - {k}, some - {k}, f);
      assert all - {k} - (some - {k}) == all - some;
    } else {
      assert all - some == all;
    }
  }

  // ---------- the books over the accounts that exist ----------

  /** What has flowed in lies with the platform and the accounts that exist. */
  ghost predicate Books(s: Store, cur: string) {
    TotalBalance(s, Known(s), cur) == NetInflow(s, cur)
  }

  /** What lies elsewhere. */
  ghost function Gap(s: Store, cur: string): int {
    NetInflow(s, cur) - TotalBalance(s, Known(s), cur)
  }

  ghost function Holders(s: Store): set<string> {
    Known(s) + set id | id in s.intents :: s.intents[id].account
  }

  lemma HoldersCover(s: Store, accts: set<string>)
    requires Invariant(s) && KnownTargets(s) && Holders(s) <= accts
    ensures Covers(s, accts)
  {
    forall id | id in s.charges ensures ChargeOwner(s, s.charges[id]).0 in accts {
      assert ChargeOk(s, id);
      assert s.intents[s.charges[id].intentID].account in Holders(s);
    }
    forall id | id in s.transfers ensures s.transfers[id].destination != "" {
      assert TransferOk(s, id);
    }
  }

  lemma GapIs(s: Store, accts: set<string>, cur: string)
    requires Invariant(s) && KnownTargets(s) && Holders(s) <= accts
    ensures Gap(s, cur) == TotalBalance(s, accts - Known(s), cur)
  {
    HoldersCover(s, accts);
    InvariantIsNonNegative(s);
    MoneyIsConserved(s, accts, cur);
    SumSplit(accts, Known(s), a => Balance(s, a, cur));
  }

  /** The account that the charge an operation is about was made as. */
  ghost function Maker(s: Store, op: Op): string {
    match op
    case OpCapture(id, _, _, _, _) => if id in s.intents then s.intents[id].account else ""
    case OpComplete(id, o, _, _, _) => if id in s.intents && o == "succeed" then s.intents[id].account else ""
    case OpRefund(p, _, _, _) => OwnerByID(s, RefundedCharge(s, p.chargeID, p.intentID))
    case OpOpenDispute(id, _, _) => if id in s.intents then OwnerByID(s, s.intents[id].chargeID) else ""
    case OpCloseDispute(dpID, o, _) => if dpID in s.disputes && o == "won" then
        OwnerByID(s, s.disputes[dpID].chargeID) else ""
    case _ => ""
  }

  function OwnerByID(s: Store, chID: string): string {
    if chID in s.charges then ChargeOwner(s, s.charges[chID]).0 else ""
  }

  /** What a charge leaves on the account it is made as. */
  function Kept(pi: Intent, captured: int, cur: string): int {
    On(pi.currency == cur, captured - StripeFee(captured, cur) - pi.appFee)
  }

  /** What a refund takes from it. */
  function TakenBack(s: Store, p: RefundParams, cur: string): int {
    var chID := RefundedCharge(s, p.chargeID, p.intentID);
    if chID !in s.charges then 0
    else
      var ch := s.charges[chID];
      var amount := RefundAmount(ch, p.amount);
      On(ch.currency == cur,
         amount - RefundedAppFee(Refund(amount, ch.currency, chID, p.refundAppFee, 0), ch, ChargeOwner(s, ch).1))
  }

  /** What an operation does to that account. */
  ghost function Stays(s: Store, op: Op, cur: string): int {
    match op
    case OpCapture(id, n, _, _, _) => if id in s.intents then Kept(s.intents[id], Captured(s, id, n), cur) else 0
    case OpComplete(id, _, _, _, _) => if id in s.intents then Kept(s.intents[id], s.intents[id].amount, cur) else 0
    case OpRefund(p, _, _, _) => -TakenBack(s, p, cur)
    case OpOpenDispute(id, _, _) =>
      if id in s.intents && s.intents[id].chargeID in s.charges then
        var ch := s.charges[s.intents[id].chargeID];
        On(ch.currency == cur, ch.refunded - ch.captured - DISPUTE_FEE)
      else 0
    case OpCloseDispute(dpID, _, _) =>
      if dpID in s.disputes then On(s.disputes[dpID].currency == cur, s.disputes[dpID].amount) else 0
    case _ => 0
  }

  // What an operation does to an account that does not exist: nothing, unless it is the maker.

  lemma SettledElsewhere(s: Store, id: string, pi: Intent, captured: int, share: int, chID: string, trID: string,
                         now: int, acct: string, cur: string)
    requires Settles(s, id, pi, captured, share, chID, trID) && KnownTargets(s) && acct !in Known(s)
    ensures SettledEffect(Settle(s, id, pi, captured, share, chID, trID, now), id, chID, trID, acct, cur) ==
            On(acct == pi.account, Kept(pi, captured, cur))
  {
    SettledEffectIs(s, id, pi, captured, share, chID, trID, now, acct, cur);
    assert pi.destination == s.intents[id].destination;
  }

  lemma CapturedElsewhere(s: Store, op: Op, acct: string, cur: string)
    requires AllIntents(s) && Fresh(s, op) && KnownTargets(s) && Try(s, op).Done? && acct !in Known(s)
    requires op.OpCapture? || (op.OpComplete? && op.outcome == "succeed")
    ensures Effect(s, op, acct, cur) == On(acct == Maker(s, op), Stays(s, op, cur))
  {
    if op.OpCapture? {
      var pi, captured, share := CaptureSettles(s, op.id, op.toCapture, op.chID, op.trID, op.now);
      CapturedIs(s, op.id, op.toCapture, op.chID, op.trID, op.now);
      SettledElsewhere(s, op.id, pi, captured, share, op.chID, op.trID, op.now, acct, cur);
    } else {
      var pi, captured, share := SuccessSettles(s, op.id, op.chID, op.trID, op.now);
      SettledElsewhere(s, op.id, pi, captured, share, op.chID, op.trID, op.now, acct, cur);
    }
  }

  lemma RefundedElsewhere(s: Store, op: Op, acct: string, cur: string)
    requires KnownTargets(s) && Try(s, op).Done? && acct !in Known(s) && op.OpRefund?
    ensures Effect(s, op, acct, cur) == On(acct == Maker(s, op), Stays(s, op, cur))
  {
    var p, t := op.refundParams, Step(s, op);
    var chID := RefundedCharge(s, p.chargeID, p.intentID);
    RefundShareIs(s, p, op.rfID, op.rvID, op.now, acct, cur);
    assert ReversedShare(s, p, acct, cur) == 0;
  }

  lemma RefundShareIs(s: Store, p: RefundParams, rfID: string, rvID: string, now: int, acct: string, cur: string)
    requires ApplyRefund(s, p, rfID, rvID, now).Done? && acct != ""
    ensures RefundShare(s, ApplyRefund(s, p, rfID, rvID, now).store, p, rfID, acct, cur) ==
            On(acct == OwnerByID(s, RefundedCharge(s, p.chargeID, p.intentID)), -TakenBack(s, p, cur))
  {
  }

  lemma DisputedElsewhere(s: Store, op: Op, acct: string, cur: string)
    requires AllCharges(s) && AllDisputes(s) && Fresh(s, op) && Try(s, op).Done? && acct !in Known(s)
    requires op.OpOpenDispute? || op.OpCloseDispute?
    ensures Effect(s, op, acct, cur) == On(acct == Maker(s, op), Stays(s, op, cur))
  {
    if op.OpOpenDispute? {
      OpenDisputeGrows(s, op.id, op.dpID, op.now);
      OwnerKept(s, Step(s, op), s.intents[op.id].chargeID);
    } else {
      assert DisputeOk(s, op.dpID);
      CloseDisputeGrows(s, op.dpID, op.outcome, op.now);
      OwnerKept(s, Step(s, op), s.disputes[op.dpID].chargeID);
    }
  }

  lemma EffectElsewhere(s: Store, op: Op, acct: string, cur: string)
    requires Invariant(s) && Fresh(s, op) && KnownTargets(s) && Try(s, op).Done? && acct !in Known(s)
    ensures Effect(s, op, acct, cur) == On(acct == Maker(s, op), Stays(s, op, cur))
  {
    if op.OpCapture? || (op.OpComplete? && op.outcome == "succeed") {
      CapturedElsewhere(s, op, acct, cur);
    } else if op.OpRefund? {
      RefundedElsewhere(s, op, acct, cur);
    } else if op.OpOpenDispute? || op.OpCloseDispute? {
      DisputedElsewhere(s, op, acct, cur);
    } else {
      NoEffectElsewhere(s, op, acct, cur);
    }
  }

  lemma NoEffectElsewhere(s: Store, op: Op, acct: string, cur: string)
    requires AllTransfers(s) && KnownTargets(s) && Try(s, op).Done? && acct !in Known(s)
    requires !op.OpCapture? && !op.OpRefund? && !op.OpOpenDispute? && !op.OpCloseDispute?
    requires op.OpComplete? ==> op.outcome != "succeed"
    ensures Effect(s, op, acct, cur) == 0
  {
    if op.OpTransfer? || op.OpReverse? {
      TransferredElsewhere(s, op, acct, cur);
    } else if op.OpPayout? || op.OpPayOutBalance? || op.OpCompletePayout? {
      PaidOutElsewhere(s, op, acct, cur);
    }
  }

  lemma TransferredElsewhere(s: Store, op: Op, acct: string, cur: string)
    requires AllTransfers(s) && KnownTargets(s) && Try(s, op).Done? && acct !in Known(s) &&
             (op.OpTransfer? || op.OpReverse?)
    ensures Effect(s, op, acct, cur) == 0
  {
    assert Step(s, op).transfers[op.trID].destination in Known(s);
  }

  lemma PaidOutElsewhere(s: Store, op: Op, acct: string, cur: string)
    requires KnownTargets(s) && Try(s, op).Done? && acct !in Known(s)
    requires op.OpPayout? || op.OpPayOutBalance? || op.OpCompletePayout?
    ensures Effect(s, op, acct, cur) == 0
  {
    assert Step(s, op).payouts[op.poID].account in Known(s);
  }

  // ---------- what an operation does to the books ----------

  ghost predicate SameAccounts(s: Store, op: Op) {
    Step(s, op).accounts == s.accounts + if op.OpAccount? then {op.account} else {}
  }

  lemma AccountsStay(s: Store, op: Op)
    requires AllIntents(s) && AllCoupons(s) && AllCodes(s) && AllSessions(s) && Fresh(s, op) && Try(s, op).Done?
    ensures SameAccounts(s, op)
  {
    if op.OpCheckout? {
      CheckoutAccounts(s, op);
    } else if op.OpSession? {
      SessionShape(s, op.sessionParams, op.id, op.now);
    } else if op.OpRefund? {
      RefundGrows(s, op.refundParams, op.rfID, op.rvID, op.now);
    } else if op.OpCapture? || op.OpComplete? {
      SettledAccounts(s, op);
    } else if op.OpCreateIntent? || op.OpConfirm? {
      IntentAccounts(s, op);
    } else if op.OpExpire? || op.OpCoupon? || op.OpDeleteCoupon? || op.OpCode? || op.OpSetCodeActive? {
      CatalogShape(s, op);
    } else {
      OtherAccounts(s, op);
    }
  }

  lemma CheckoutAccounts(s: Store, op: Op)
    requires Try(s, op).Done? && op.OpCheckout?
    ensures SameAccounts(s, op)
  {
    CheckoutIsApart(s, op.id, op.outcome, op.typed, op.found, op.piID, op.chID, op.typedAt, op.now);
  }

  lemma SettledAccounts(s: Store, op: Op)
    requires Try(s, op).Done? && (op.OpCapture? || op.OpComplete?)
    ensures SameAccounts(s, op)
  {
    if op.OpCapture? {
      CaptureIsApart(s, op.id, op.toCapture, op.chID, op.trID, op.now);
    } else if op.outcome == "succeed" {
      SuccessIsApart(s, op.id, op.chID, op.trID, op.now);
    } else {
      FailureIsApart(s, op.id, op.outcome, op.chID, op.trID, op.now);
    }
  }

  lemma IntentAccounts(s: Store, op: Op)
    requires Try(s, op).Done? && (op.OpCreateIntent? || op.OpConfirm?)
    ensures SameAccounts(s, op)
  {
  }

  lemma OtherAccounts(s: Store, op: Op)
    requires Try(s, op).Done?
    requires op.OpAccount? || op.OpTransfer? || op.OpReverse? || op.OpOpenDispute? || op.OpCloseDispute? ||
             op.OpPayout? ||
             op.OpPayOutBalance? || op.OpCompletePayout?
    ensures SameAccounts(s, op)
  {
  }

  lemma MakerHolds(s: Store, op: Op)
    requires AllCharges(s)
    ensures Maker(s, op) in Holders(s)
  {
    forall chID | chID in s.charges ensures OwnerByID(s, chID) in Holders(s) {
      assert ChargeOk(s, chID);
      assert s.intents[s.charges[chID].intentID].account in Holders(s);
    }
  }

  lemma HoldersGrow(s: Store, t: Store)
    requires Grows(s, t) && s.accounts <= t.accounts
    ensures Holders(s) <= Holders(t)
  {
    forall id | id in s.intents ensures s.intents[id].account in Holders(t) {
      assert t.intents[id].account == s.intents[id].account;
    }
  }

  lemma {:induction false} SumShift(keys: set<string>, f: string -> int, g: string -> int, k: string, x: int)
    requires forall a :: a in keys ==> g(a) == f(a) + On(a == k, x)
    ensures SumOver(keys, g) == SumOver(keys, f) + On(k in keys, x)
  {
    if k in keys {
      SumUpdate(keys, f, g, k);
    } else {
      SumSame(keys, f, g);
    }
  }

  /** How far an operation shifts money off the books. */
  ghost function Drift(s: Store, op: Op, cur: string): int {
    if op.OpAccount? then -On(op.account !in Known(s), Balance(s, op.account, cur))
    else On(Maker(s, op) !in Known(s), Stays(s, op, cur))
  }

  lemma StepStays(s: Store, op: Op)
    requires Invariant(s) && Fresh(s, op) && KnownTargets(s) && Try(s, op).Done?
    ensures var t := Step(s, op);
            && Invariant(t) && KnownTargets(t) && Holders(s) <= Holders(t) && Maker(s, op) in Holders(t)
            && Known(t) == Known(s) + if op.OpAccount? then {op.account} else {}
  {
    StepKeeps(s, op);
    StepTargets(s, op);
    AccountsStay(s, op);
    HoldersGrow(s, Step(s, op));
    MakerHolds(s, op);
  }

  lemma MovesElsewhere(s: Store, op: Op, acct: string, cur: string)
    requires Invariant(s) && Fresh(s, op) && KnownTargets(s) && Try(s, op).Done? && acct !in Known(s)
    ensures Balance(Step(s, op), acct, cur) == Balance(s, acct, cur) + On(acct == Maker(s, op), Stays(s, op, cur))
  {
    StepMovesMoney(s, op, acct, cur);
    EffectElsewhere(s, op, acct, cur);
  }

  lemma OldAccountsMove(s: Store, op: Op, cur: string)
    requires Invariant(s) && Fresh(s, op) && KnownTargets(s) && Try(s, op).Done? && !op.OpAccount?
    ensures Gap(Step(s, op), cur) == Gap(s, cur) + Drift(s, op, cur)
  {
    StepStays(s, op);
    forall a | a !in Known(s)
      ensures Balance(Step(s, op), a, cur) == Balance(s, a, cur) + On(a == Maker(s, op), Stays(s, op, cur))
    {
      MovesElsewhere(s, op, a, cur);
    }
    GapMoves(s, Step(s, op), Maker(s, op), Stays(s, op, cur), cur);
  }

  lemma GapMoves(s: Store, t: Store, maker: string, stays: int, cur: string)
    requires Invariant(s) && Invariant(t) && KnownTargets(s) && KnownTargets(t)
    requires Known(t) == Known(s) && Holders(s) <= Holders(t) && maker in Holders(t)
    requires forall a :: a !in Known(s) ==> Balance(t, a, cur) == Balance(s, a, cur) + On(a == maker, stays)
    ensures Gap(t, cur) == Gap(s, cur) + On(maker !in Known(s), stays)
  {
    GapIs(s, Holders(t), cur);
    GapIs(t, Holders(t), cur);
    TotalMoves(s, t, Holders(t) - Known(s), maker, stays, cur);
  }

  lemma TotalMoves(s: Store, t: Store, others: set<string>, maker: string, stays: int, cur: string)
    requires forall a :: a in others ==> Balance(t, a, cur) == Balance(s, a, cur) + On(a == maker, stays)
    ensures TotalBalance(t, others, cur) == TotalBalance(s, others, cur) + On(maker in others, stays)
  {
    SumShift(others, a => Balance(s, a, cur), a => Balance(t, a, cur), maker, stays);
  }

  lemma NewAccountMoves(s: Store, op: Op, cur: string)
    requires Invariant(s) && Fresh(s, op) && KnownTargets(s) && Try(s, op).Done? && op.OpAccount?
    ensures Gap(Step(s, op), cur) == Gap(s, cur) + Drift(s, op, cur)
  {
    var t := Step(s, op);
    StepStays(s, op);
    var accts := Holders(t);
    GapIs(s, accts, cur);
    GapIs(t, accts, cur);
    var others := accts - Known(t);
    forall a | a in others ensures Balance(t, a, cur) == Balance(s, a, cur) {
      MovesElsewhere(s, op, a, cur);
    }
    SumSame(others, a => Balance(s, a, cur), a => Balance(t, a, cur));
    OneFewer(s, accts, others, op.account, cur);
  }

  lemma OneFewer(s: Store, accts: set<string>, others: set<string>, account: string, cur: string)
    requires account in accts && others == accts - (Known(s) + {account})
    ensures TotalBalance(s, accts - Known(s), cur) ==
            TotalBalance(s, others, cur) + On(account !in Known(s), Balance(s, account, cur))
  {
    if account in Known(s) {
      assert accts - Known(s) == others;
    } else {
      SumRemove(accts - Known(s), a => Balance(s, a, cur), account);
      assert accts - Known(s) - {account} == others;
    }
  }

  /** What a caller can check beforehand: the charge is made, or was made, as the platform or as an
      account that exists, or is in another currency, or nothing would stay on its account (a charge
      whose application fee takes all that is left, a refund that hands all of itself back); and an
      account that joins does not bring money along. */
  ghost predicate KeepsBooks(s: Store, op: Op, cur: string) {
    match op
    case OpAccount(a) => a in Known(s) || Balance(s, a, cur) == 0
    case OpCapture(id, n, _, _, _) =>
      id in s.intents ==> ChargeOnBooks(s, s.intents[id], Captured(s, id, n), cur)
    case OpComplete(id, o, _, _, _) =>
      id in s.intents && o == "succeed" ==> ChargeOnBooks(s, s.intents[id], s.intents[id].amount, cur)
    case OpRefund(p, _, _, _) =>
      OwnerByID(s, RefundedCharge(s, p.chargeID, p.intentID)) in Known(s) || TakenBack(s, p, cur) == 0
    case OpOpenDispute(id, _, _) =>
      id in s.intents && s.intents[id].chargeID in s.charges ==>
        OwnerByID(s, s.intents[id].chargeID) in Known(s) || s.charges[s.intents[id].chargeID].currency != cur
    case OpCloseDispute(dpID, o, _) =>
      dpID in s.disputes && o == "won" ==>
        OwnerByID(s, s.disputes[dpID].chargeID) in Known(s) || s.disputes[dpID].currency != cur
    case _ => true
  }

  ghost predicate ChargeOnBooks(s: Store, pi: Intent, captured: int, cur: string) {
    pi.account in Known(s) || pi.currency != cur || captured - StripeFee(captured, cur) == pi.appFee
  }

  lemma DisputeDrift(s: Store, op: Op, cur: string)
    requires AllCharges(s) && AllDisputes(s) && Try(s, op).Done? && (op.OpOpenDispute? || op.OpCloseDispute?)
    ensures Drift(s, op, cur) == 0 <==> KeepsBooks(s, op, cur)
  {
    if op.OpOpenDispute? {
      assert ChargeOk(s, s.intents[op.id].chargeID);
    } else {
      assert DisputeOk(s, op.dpID);
    }
  }

  lemma ChargeDrift(s: Store, op: Op, cur: string)
    requires Try(s, op).Done? && (op.OpCapture? || op.OpComplete?)
    ensures Drift(s, op, cur) == 0 <==> KeepsBooks(s, op, cur)
  {
  }

  lemma DriftIs(s: Store, op: Op, cur: string)
    requires AllCharges(s) && AllDisputes(s) && Try(s, op).Done?
    ensures Drift(s, op, cur) == 0 <==> KeepsBooks(s, op, cur)
  {
    if op.OpOpenDispute? || op.OpCloseDispute? {
      DisputeDrift(s, op, cur);
    } else if op.OpCapture? || op.OpComplete? {
      ChargeDrift(s, op, cur);
    }
  }

  /** Books that balance over the platform and the accounts that exist still do after an operation
      if and only if it keeps the books. */
  lemma BooksKeptIff(s: Store, op: Op, cur: string)
    requires Invariant(s) && Fresh(s, op) && KnownTargets(s) && Books(s, cur) && Try(s, op).Done?
    ensures Books(Step(s, op), cur) <==> KeepsBooks(s, op, cur)
  {
    if op.OpAccount? {
      NewAccountMoves(s, op, cur);
    } else {
      OldAccountsMove(s, op, cur);
    }
    DriftIs(s, op, cur);
  }

  /** The books balance after every operation of a run. */
  ghost predicate AlwaysBooks(ops: seq<Op>, cur: string) {
    Books(Run(ops), cur) && (ops == [] || AlwaysBooks(ops[..|ops| - 1], cur))
  }

  /** Every operation of a run is refused or keeps the books. */
  ghost predicate AlwaysKeeps(ops: seq<Op>, cur: string) {
    ops == [] ||
    var before, op := Run(ops[..|ops| - 1]), ops[|ops| - 1];
    (Try(before, op).Done? ==> KeepsBooks(before, op, cur)) && AlwaysKeeps(ops[..|ops| - 1], cur)
  }

  lemma LastStep(ops: seq<Op>, cur: string)
    requires FreshRun(ops) && ops != [] && Books(Run(ops[..|ops| - 1]), cur)
    ensures var before, op := Run(ops[..|ops| - 1]), ops[|ops| - 1];
            Books(Run(ops), cur) <==> (Try(before, op).Done? ==> KeepsBooks(before, op, cur))
  {
    var before, op := ops[..|ops| - 1], ops[|ops| - 1];
    RunsKeepInvariant(before);
    RunsKeepTargets(before);
    if Try(Run(before), op).Done? {
      BooksKeptIff(Run(before), op, cur);
    }
  }

  /** Over the accounts that exist, money is conserved all through a run if and only if every
      operation that is not refused keeps the books. */
  lemma {:induction false} ConservedOverKnownAccounts(ops: seq<Op>, cur: string)
    requires FreshRun(ops)
    ensures AlwaysBooks(ops, cur) <==> AlwaysKeeps(ops, cur)
  {
    if ops == [] {
      NothingYet(cur);
    } else {
      ConservedOverKnownAccounts(ops[..|ops| - 1], cur);
      if Books(Run(ops[..|ops| - 1]), cur) {
        LastStep(ops, cur);
      }
    }
  }

  lemma NothingYet(cur: string)
    ensures Books(EmptyStore, cur)
  {
    BalanceByParts(EmptyStore, "", cur);
    SumRemove({""}, a => Balance(EmptyStore, a, cur), "");
    assert {""} - {""} == {};
    assert Known(EmptyStore) == {""};
  }

  // ---------- runs whose charges are all made as known accounts ----------

  /** What a caller can see to: every request that creates an intent is made as the platform or
      as an account that exists by then. */
  ghost predicate MadeAsKnown(ops: seq<Op>) {
    ops == [] ||
    (MadeAsKnown(ops[..|ops| - 1]) &&
     (ops[|ops| - 1].OpCreateIntent? ==> ops[|ops| - 1].intentParams.account in Known(Run(ops[..|ops| - 1]))))
  }

  ghost predicate KnownMakers(s: Store) {
    forall id :: id in s.intents ==> s.intents[id].account in Known(s)
  }

  lemma StepMakers(s: Store, op: Op)
    requires Invariant(s) && Fresh(s, op) && KnownTargets(s) && KnownMakers(s)
    requires op.OpCreateIntent? ==> op.intentParams.account in Known(s)
    ensures KnownMakers(Step(s, op))
  {
    StepKeeps(s, op);
    StepTargets(s, op);
    var t := Step(s, op);
    forall id | id in t.intents ensures t.intents[id].account in Known(t) {
      if id !in s.intents {
        NewIntent(s, op, id);
      }
    }
  }

  lemma NewIntent(s: Store, op: Op, id: string)
    requires AllIntents(s) && AllCoupons(s) && AllCodes(s) && AllSessions(s)
    requires Fresh(s, op) && id in Step(s, op).intents && id !in s.intents
    ensures Step(s, op).intents[id].account == if op.OpCreateIntent? then op.intentParams.account else ""
  {
    if op.OpCapture? {
      CapturedIntents(s, op);
    } else if op.OpComplete? {
      CompletedIntents(s, op);
    } else if op.OpConfirm? {
    } else if op.OpCheckout? {
      CheckoutIntents(s, op);
    } else if !op.OpCreateIntent? {
      SameIntents(s, op);
    }
  }

  lemma CapturedIntents(s: Store, op: Op)
    requires op.OpCapture?
    ensures Step(s, op).intents.Keys == s.intents.Keys
  {
    if Try(s, op).Done? {
      CaptureIsApart(s, op.id, op.toCapture, op.chID, op.trID, op.now);
    }
  }

  lemma CompletedIntents(s: Store, op: Op)
    requires op.OpComplete?
    ensures Step(s, op).intents.Keys == s.intents.Keys
  {
    if Try(s, op).Done? {
      if op.outcome == "succeed" {
        SuccessIsApart(s, op.id, op.chID, op.trID, op.now);
      } else {
        FailureIsApart(s, op.id, op.outcome, op.chID, op.trID, op.now);
      }
    }
  }

  lemma CheckoutIntents(s: Store, op: Op)
    requires AllCoupons(s) && AllCodes(s) && AllSessions(s) && op.OpCheckout?
    ensures forall id :: id in Step(s, op).intents ==> id in s.intents || Step(s, op).intents[id].account == ""
  {
    if Try(s, op).Done? {
      if op.outcome == "paid" {
        var sess, u := PaidSteps(s, op.id, op.typed, op.found, op.piID, op.chID, op.typedAt, op.now);
      } else {
        UnpaidShape(s, op.id, op.outcome, op.typed, op.found, op.piID, op.chID, op.typedAt, op.now);
      }
    }
  }

  lemma SameIntents(s: Store, op: Op)
    requires !op.OpCreateIntent? && !op.OpCapture? && !op.OpComplete? && !op.OpConfirm? && !op.OpCheckout?
    ensures Step(s, op).intents == s.intents
  {
    if Try(s, op).Done? {
      if op.OpSession? {
        SessionShape(s, op.sessionParams, op.id, op.now);
      } else if op.OpRefund? {
        RefundGrows(s, op.refundParams, op.rfID, op.rvID, op.now);
      } else {
        IntentsApart(s, op);
      }
    }
  }

  lemma IntentsApart(s: Store, op: Op)
    requires Try(s, op).Done? && !op.OpSession? && !op.OpRefund? && !op.OpCheckout?
    requires !op.OpCreateIntent? && !op.OpCapture? && !op.OpComplete? && !op.OpConfirm?
    ensures Step(s, op).intents == s.intents
  {
  }

  lemma {:induction false} RunsKeepMakers(ops: seq<Op>)
    requires FreshRun(ops) && MadeAsKnown(ops)
    ensures KnownMakers(Run(ops))
  {
    if ops != [] {
      var before := ops[..|ops| - 1];
      RunsKeepInvariant(before);
      RunsKeepTargets(before);
      RunsKeepMakers(before);
      StepMakers(Run(before), ops[|ops| - 1]);
    }
  }

  /** Then the platform and the accounts that exist hold everything. */
  lemma KnownAccountsHoldAll(ops: seq<Op>, cur: string)
    requires FreshRun(ops) && MadeAsKnown(ops)
    ensures TotalBalance(Run(ops), Known(Run(ops)), cur) == NetInflow(Run(ops), cur)
  {
    var s := Run(ops);
    RunsKeepInvariant(ops);
    RunsKeepTargets(ops);
    RunsKeepMakers(ops);
    forall id | id in s.transfers ensures s.transfers[id].destination != "" {
      assert TransferOk(s, id);
    }
    RunsConserveMoney(ops, Known(s), cur);
  }
}
