/** Runs of the Stripe mock: any sequence of operations from the empty store. */
module StripeRuns {
  import opened StripeStore
  import opened Ledger
  import opened Balances
  import opened StripeOps
  import opened Checkout
  import opened StripeInvariant
  import opened StripeMoney

  /** One request, with the ids and the time the mock draws for it. */
  datatype Op =
    | OpAccount(account: string)
    | OpCreateIntent(intentParams: IntentParams, id: string)
    | OpConfirm(id: string, paymentMethod: string)
    | OpCapture(id: string, toCapture: Parsed, chID: string, trID: string, now: int)
    | OpComplete(id: string, outcome: string, chID: string, trID: string, now: int)
    | OpRefund(refundParams: RefundParams, rfID: string, rvID: string, now: int)
    | OpTransfer(transferParams: TransferParams, capable: bool, trID: string, now: int)
    | OpReverse(trID: string, asked: Parsed, rvID: string, now: int)
    | OpOpenDispute(id: string, dpID: string, now: int)
    | OpCloseDispute(dpID: string, outcome: string, now: int)
    | OpPayout(asked: Parsed, currency: string, account: string, poID: string, now: int)
    | OpPayOutBalance(account: string, poID: string, now: int)
    | OpCompletePayout(poID: string, outcome: string)
    | OpCoupon(couponParams: CouponParams, id: string)
    | OpDeleteCoupon(id: string)
    | OpCode(codeParams: CodeParams, id: string)
    | OpSetCodeActive(id: string, active: bool)
    | OpSession(sessionParams: SessionParams, id: string, now: int)
    | OpExpire(id: string)
    | OpCheckout(id: string, outcome: string, typed: string, found: string, piID: string, chID: string,
                 typedAt: int, now: int)

  ghost function Try(s: Store, op: Op): Outcome {
    match op
    case OpAccount(a) => if a == "" then Refused(400) else Done(s.(accounts := s.accounts + {a}))
    case OpCreateIntent(p, id) => CreateIntent(s, p, id)
    case OpConfirm(id, pm) => ConfirmIntent(s, id, pm)
    case OpCapture(id, n, chID, trID, now) => CaptureIntent(s, id, n, chID, trID, now)
    case OpComplete(id, o, chID, trID, now) => CompleteIntent(s, id, o, chID, trID, now)
    case OpRefund(p, rfID, rvID, now) => ApplyRefund(s, p, rfID, rvID, now)
    case OpTransfer(p, capable, trID, now) => CreateTransfer(s, p, capable, trID, now)
    case OpReverse(trID, n, rvID, now) => ReverseTransfer(s, trID, n, rvID, now)
    case OpOpenDispute(id, dpID, now) => OpenDispute(s, id, dpID, now)
    case OpCloseDispute(id, o, now) => CloseDispute(s, id, o, now)
    case OpPayout(n, c, a, poID, now) => CreatePayout(s, n, c, a, poID, now)
    case OpPayOutBalance(a, poID, now) => PayOutBalance(s, a, poID, now)
    case OpCompletePayout(poID, o) => CompletePayout(s, poID, o)
    case OpCoupon(p, id) => CreateCoupon(s, p, id)
    case OpDeleteCoupon(id) => DeleteCoupon(s, id)
    case OpCode(p, id) => CreateCode(s, p, id)
    case OpSetCodeActive(id, b) => SetCodeActive(s, id, b)
    case OpSession(p, id, now) => CreateSession(s, p, id, now)
    case OpExpire(id) => ExpireSession(s, id)
    case OpCheckout(id, o, typed, found, piID, chID, typedAt, now) => CompleteCheckout(s, id, o, typed, found, piID,
        chID, typedAt, now)
  }

  /** The ids drawn for a request are new. */
  ghost predicate Fresh(s: Store, op: Op) {
    match op
    case OpCreateIntent(_, id) => id !in s.intents && id != ""
    case OpCapture(_, _, chID, trID, _) => FreshCharge(s, chID, trID)
    case OpComplete(_, _, chID, trID, _) => FreshCharge(s, chID, trID)
    case OpRefund(_, rfID, _, _) => rfID !in s.refunds
    case OpTransfer(_, _, trID, _) => trID !in s.transfers && trID != ""
    case OpOpenDispute(_, dpID, _) => dpID !in s.disputes && dpID != ""
    case OpPayout(_, _, _, poID, _) => poID !in s.payouts
    case OpPayOutBalance(_, poID, _) => poID !in s.payouts
    case OpCode(_, id) => id !in s.codes && id != ""
    case OpSession(_, id, _) => id !in s.sessions
    case OpCheckout(_, _, _, _, piID, chID, _, _) => piID !in s.intents && piID != "" &&
        chID !in s.charges && chID != ""
    case _ => true
  }

  ghost function Step(s: Store, op: Op): Store {
    var r := Try(s, op);
    if r.Done? then r.store else s
  }

  ghost function Run(ops: seq<Op>): Store {
    if ops == [] then EmptyStore else Step(Run(ops[..|ops| - 1]), ops[|ops| - 1])
  }

  ghost predicate FreshRun(ops: seq<Op>) {
    ops == [] || (FreshRun(ops[..|ops| - 1]) && Fresh(Run(ops[..|ops| - 1]), ops[|ops| - 1]))
  }

  // ---------- invariants over every run ----------

  lemma PayoutStepKeeps(s: Store, op: Op)
    requires Invariant(s) && Fresh(s, op) && Try(s, op).Done?
    requires op.OpPayout? || op.OpPayOutBalance? || op.OpCompletePayout?
    ensures Invariant(Step(s, op)) && Grows(s, Step(s, op))
  {
    if op.OpCompletePayout? {
      assert PayoutOk(s, op.poID);
    }
    PayoutsMove(s, op.poID, Step(s, op).payouts[op.poID]);
  }

  lemma PaymentStepKeeps(s: Store, op: Op)
    requires Invariant(s) && Fresh(s, op) && Try(s, op).Done?
    requires op.OpCreateIntent? || op.OpConfirm? || op.OpCapture? || op.OpComplete? || op.OpRefund? ||
             op.OpTransfer? || op.OpReverse?
    ensures Invariant(Step(s, op)) && Grows(s, Step(s, op))
  {
    match op {
      case OpCreateIntent(p, id) => CreateIntentKeeps(s, p, id);
      case OpConfirm(id, pm) => ConfirmIntentKeeps(s, id, pm);
      case OpCapture(id, n, chID, trID, now) => CaptureIntentKeeps(s, id, n, chID, trID, now);
      case OpComplete(id, o, chID, trID, now) => CompleteIntentKeeps(s, id, o, chID, trID, now);
      case OpRefund(p, rfID, rvID, now) => ApplyRefundKeeps(s, p, rfID, rvID, now);
      case OpTransfer(p, capable, trID, now) => CreateTransferKeeps(s, p, capable, trID, now);
      case OpReverse(trID, n, rvID, now) => ReverseTransferKeeps(s, trID, n, rvID, now);
    }
  }

  lemma CatalogStepKeeps(s: Store, op: Op)
    requires Invariant(s) && Fresh(s, op) && Try(s, op).Done?
    requires op.OpAccount? || op.OpCoupon? || op.OpDeleteCoupon? || op.OpCode? || op.OpSetCodeActive?
    ensures Invariant(Step(s, op)) && Grows(s, Step(s, op))
  {
    match op {
      case OpAccount(a) => AccountJoins(s, a);
      case OpCoupon(p, id) => CreateCouponKeeps(s, p, id);
      case OpDeleteCoupon(id) => DeleteCouponKeeps(s, id);
      case OpCode(p, id) => CreateCodeKeeps(s, p, id);
      case OpSetCodeActive(id, b) => SetCodeActiveKeeps(s, id, b);
    }
  }

  lemma CaseStepKeeps(s: Store, op: Op)
    requires Invariant(s) && Fresh(s, op) && Try(s, op).Done?
    requires op.OpOpenDispute? || op.OpCloseDispute? || op.OpSession? || op.OpExpire? || op.OpCheckout?
    ensures Invariant(Step(s, op)) && Grows(s, Step(s, op))
  {
    match op {
      case OpOpenDispute(id, dpID, now) => OpenDisputeKeeps(s, id, dpID, now);
      case OpCloseDispute(id, o, now) => CloseDisputeKeeps(s, id, o, now);
      case OpSession(p, id, now) => CreateSessionKeeps(s, p, id, now);
      case OpExpire(id) => ExpireSessionKeeps(s, id);
      case OpCheckout(id, o, typed, found, piID, chID, typedAt, now) =>
        CompleteCheckoutKeeps(s, id, o, typed, found, piID, chID, typedAt, now);
    }
  }

  lemma StepKeeps(s: Store, op: Op)
    requires Invariant(s) && Fresh(s, op)
    ensures Invariant(Step(s, op)) && Grows(s, Step(s, op))
  {
    if Try(s, op).Done? {
      if op.OpPayout? || op.OpPayOutBalance? || op.OpCompletePayout? {
        PayoutStepKeeps(s, op);
      } else if op.OpCreateIntent? || op.OpConfirm? || op.OpCapture? || op.OpComplete? || op.OpRefund? ||
                op.OpTransfer? || op.OpReverse? {
        PaymentStepKeeps(s, op);
      } else if op.OpOpenDispute? || op.OpCloseDispute? || op.OpSession? || op.OpExpire? || op.OpCheckout? {
        CaseStepKeeps(s, op);
      } else {
        CatalogStepKeeps(s, op);
      }
    }
  }

  /** Every store a run can reach is in order: at most one charge per intent and exactly one
      once it has succeeded, transfers where they are due, nothing given back beyond what was
      captured, redemptions within their maximum, discounts within the subtotal. */
  lemma {:induction false} RunsKeepInvariant(ops: seq<Op>)
    requires FreshRun(ops)
    ensures Invariant(Run(ops))
  {
    if ops != [] {
      RunsKeepInvariant(ops[..|ops| - 1]);
      StepKeeps(Run(ops[..|ops| - 1]), ops[|ops| - 1]);
    }
  }

  // ---------- balances kept up to date ----------

  /** What one accepted operation adds to one balance, from the objects it touches. */
  ghost function Effect(s: Store, op: Op, acct: string, cur: string): int {
    var t := Step(s, op);
    match op
    case OpCapture(id, _, chID, trID, _) => SettledEffect(t, id, chID, trID, acct, cur)
    case OpComplete(id, o, chID, trID, _) => if o == "succeed" then SettledEffect(t, id, chID, trID, acct, cur) else 0
    case OpRefund(p, rfID, _, _) => RefundEffect(s, t, p, rfID, acct, cur)
    case OpTransfer(_, _, trID, _) => TransferMoved(s, t, trID, acct, cur)
    case OpReverse(trID, _, _, _) => TransferMoved(s, t, trID, acct, cur)
    case OpOpenDispute(_, dpID, _) => DisputeEffect(t, dpID, -1, acct, cur)
    case OpCloseDispute(dpID, o, _) => if o == "won" then DisputeEffect(t, dpID, 1, acct, cur) else 0
    case OpPayout(_, _, _, poID, _) => PayoutEffect(t, poID, -1, acct, cur)
    case OpPayOutBalance(_, poID, _) => PayoutEffect(t, poID, -1, acct, cur)
    case OpCompletePayout(poID, o) => if o == "fail" then PayoutEffect(t, poID, 1, acct, cur) else 0
    case OpCheckout(_, o, _, _, _, chID, _, _) => if o == "paid" then PaidEffect(t, chID, acct, cur) else 0
    case _ => 0
  }

  /** A charge's net to its owner and its application fee to the platform; a transfer's amount
      from the platform to the destination. */
  function SettledEffect(t: Store, id: string, chID: string, trID: string, acct: string, cur: string): int {
    if id !in t.intents || chID !in t.charges || t.charges[chID].currency != cur then 0
    else
      var pi, captured := t.intents[id], t.charges[chID].captured;
      ChargeEffect(pi.account, pi.appFee, captured - StripeFee(captured, cur), acct) +
      if pi.destination != "" && trID in t.transfers then
          TransferEffect(pi.destination, t.transfers[trID].amount, acct) else 0
  }

  function PaidEffect(t: Store, chID: string, acct: string, cur: string): int {
    if chID !in t.charges then 0
    else On(acct == "" &&
            t.charges[chID].currency == cur, t.charges[chID].captured - StripeFee(t.charges[chID].captured, cur))
  }

  function TransferMoved(s: Store, t: Store, trID: string, acct: string, cur: string): int {
    if trID !in t.transfers || t.transfers[trID].currency != cur then 0
    else TransferEffect(t.transfers[trID].destination, Moved(t, trID) - Moved(s, trID), acct)
  }

  /** Opening (-1) withdraws the amount and the fee, winning (1) gives the amount back. */
  function DisputeEffect(t: Store, dpID: string, sign: int, acct: string, cur: string): int {
    if dpID !in t.disputes || t.disputes[dpID].chargeID !in t.charges || t.disputes[dpID].currency != cur then 0
    else
      var dp := t.disputes[dpID];
      On(ChargeOwner(t, t.charges[dp.chargeID]).0 == acct, sign * dp.amount - On(sign < 0, DISPUTE_FEE))
  }

  function PayoutEffect(t: Store, poID: string, sign: int, acct: string, cur: string): int {
    if poID !in t.payouts then 0
    else On(t.payouts[poID].account == acct && t.payouts[poID].currency == cur, sign * t.payouts[poID].amount)
  }

  predicate Quiet(op: Op) {
    op.OpAccount? || op.OpCreateIntent? || op.OpConfirm? || op.OpCoupon? || op.OpDeleteCoupon? || op.OpCode? ||
    op.OpSetCodeActive? || op.OpSession? || op.OpExpire?
  }

  ghost predicate SameMoney(s: Store, t: Store) {
    t.charges == s.charges && t.refunds == s.refunds && t.transfers == s.transfers &&
    t.disputes == s.disputes && t.payouts == s.payouts
  }

  lemma QuietShape(s: Store, op: Op)
    requires Quiet(op) && Try(s, op).Done?
    ensures SameMoney(s, Try(s, op).store)
  {
    match op {
      case OpAccount(_) =>
      case OpCreateIntent(_, _) =>
      case OpConfirm(_, _) =>
      case OpSession(p, id, now) => SessionShape(s, p, id, now);
      case OpExpire(_) =>
      case _ => CouponShapes(s, op);
    }
  }

  lemma SessionShape(s: Store, p: SessionParams, id: string, now: int)
    requires CreateSession(s, p, id, now).Done?
    ensures var t := CreateSession(s, p, id, now).store;
            t == s.(sessions := t.sessions)
  {
    var sess := Session(Open, Unpaid, p.items[0].currency, Subtotal(p.items), 0, [], p.allowCodes, "");
    if p.discounts != [] {
      sess := ApplyDiscount(s, sess, p.discounts[0].coupon, p.discounts[0].code, now).value;
    }
    assert CreateSession(s, p, id, now) == Done(s.(sessions := s.sessions[id := sess]));
  }

  lemma CouponShapes(s: Store, op: Op)
    requires op.OpCoupon? || op.OpDeleteCoupon? || op.OpCode? || op.OpSetCodeActive?
    requires Try(s, op).Done?
    ensures SameMoney(s, Try(s, op).store)
  {
  }

  lemma SettledEffectIs(s: Store, id: string, pi: Intent, captured: int, share: int, chID: string, trID: string,
                        now: int, acct: string, cur: string)
    requires Settles(s, id, pi, captured, share, chID, trID)
    ensures var t := Settle(s, id, pi, captured, share, chID, trID, now);
            SettledEffect(t, id, chID, trID, acct, cur) ==
              On(pi.currency == cur, ChargeEffect(pi.account, pi.appFee, captured - StripeFee(captured, cur), acct)) +
              On(pi.currency == cur && pi.destination != "", TransferEffect(pi.destination, share, acct))
  {
  }

  lemma CaptureStep(s: Store, id: string, n: Parsed, chID: string, trID: string, now: int, acct: string, cur: string)
    requires Invariant(s) && FreshCharge(s, chID, trID) && CaptureIntent(s, id, n, chID, trID, now).Done?
    ensures var t := CaptureIntent(s, id, n, chID, trID, now).store;
            Balance(t, acct, cur) == Balance(s, acct, cur) + SettledEffect(t, id, chID, trID, acct, cur)
  {
    var pi, captured, share := CaptureSettles(s, id, n, chID, trID, now);
    SettleMovesMoney(s, id, pi, captured, share, chID, trID, now, acct, cur);
    SettledEffectIs(s, id, pi, captured, share, chID, trID, now, acct, cur);
  }

  lemma SuccessStep(s: Store, id: string, chID: string, trID: string, now: int, acct: string, cur: string)
    requires Invariant(s) && FreshCharge(s, chID, trID) && CompleteIntent(s, id, "succeed", chID, trID, now).Done?
    ensures var t := CompleteIntent(s, id, "succeed", chID, trID, now).store;
            Balance(t, acct, cur) == Balance(s, acct, cur) + SettledEffect(t, id, chID, trID, acct, cur)
  {
    var pi, captured, share := SuccessSettles(s, id, chID, trID, now);
    SettleMovesMoney(s, id, pi, captured, share, chID, trID, now, acct, cur);
    SettledEffectIs(s, id, pi, captured, share, chID, trID, now, acct, cur);
  }

  lemma FailureStep(s: Store, id: string, chID: string, trID: string, now: int, acct: string, cur: string)
    requires Invariant(s) && FreshCharge(s, chID, trID) && CompleteIntent(s, id, "fail", chID, trID, now).Done?
    ensures Balance(CompleteIntent(s, id, "fail", chID, trID, now).store, acct, cur) == Balance(s, acct, cur)
  {
    CompleteIntentKeeps(s, id, "fail", chID, trID, now);
    NoMoneyMoves(s, CompleteIntent(s, id, "fail", chID, trID, now).store, acct, cur);
  }

  lemma TransferStep(s: Store, p: TransferParams, capable: bool, trID: string, now: int, acct: string, cur: string)
    requires Invariant(s) && trID !in s.transfers && CreateTransfer(s, p, capable, trID, now).Done?
    ensures var t := CreateTransfer(s, p, capable, trID, now).store;
            Balance(t, acct, cur) == Balance(s, acct, cur) + TransferMoved(s, t, trID, acct, cur)
  {
    TransferMovesMoney(s, trID, CreateTransfer(s, p, capable, trID, now).store.transfers[trID], acct, cur);
  }

  lemma ReversalStep(s: Store, trID: string, n: Parsed, rvID: string, now: int, acct: string, cur: string)
    requires Invariant(s) && ReverseTransfer(s, trID, n, rvID, now).Done?
    ensures var t := ReverseTransfer(s, trID, n, rvID, now).store;
            Balance(t, acct, cur) == Balance(s, acct, cur) + TransferMoved(s, t, trID, acct, cur)
  {
    var tr := ReversalFits(s, trID, n, rvID, now);
    TransferMovesMoney(s, trID, tr, acct, cur);
  }

  lemma OpenDisputeStep(s: Store, id: string, dpID: string, now: int, acct: string, cur: string)
    requires Invariant(s) && dpID !in s.disputes && dpID != "" && OpenDispute(s, id, dpID, now).Done?
    ensures var t := OpenDispute(s, id, dpID, now).store;
            Balance(t, acct, cur) == Balance(s, acct, cur) + DisputeEffect(t, dpID, -1, acct, cur)
  {
    var t := OpenDispute(s, id, dpID, now).store;
    OpenDisputeGrows(s, id, dpID, now);
    OpenDisputeMovesMoney(s, id, dpID, now, acct, cur);
    OwnerKept(s, t, t.disputes[dpID].chargeID);
  }

  lemma CloseDisputeStep(s: Store, dpID: string, o: string, now: int, acct: string, cur: string)
    requires Invariant(s) && CloseDispute(s, dpID, o, now).Done?
    ensures var t := CloseDispute(s, dpID, o, now).store;
            Balance(t, acct, cur) == Balance(s, acct, cur) + if o == "won" then
                DisputeEffect(t, dpID, 1, acct, cur) else 0
  {
    var t := CloseDispute(s, dpID, o, now).store;
    CloseDisputeGrows(s, dpID, o, now);
    CloseDisputeMovesMoney(s, dpID, o, now, acct, cur);
    OwnerKept(s, t, s.disputes[dpID].chargeID);
  }

  /** A payout counts once, from its creation, and not at all once it has failed. */
  lemma PayoutStep(s: Store, poID: string, po: Payout, acct: string, cur: string)
    requires Invariant(s)
    requires poID in s.payouts ==> s.payouts[poID].status.Pending? && po == s.payouts[poID].(status := po.status)
    requires po.status.CanceledPayout? ==> false
    requires poID !in s.payouts ==> po.status.Pending?
    ensures var t := s.(payouts := s.payouts[poID := po]);
            Balance(t, acct, cur) == Balance(s, acct, cur) +
              if poID !in s.payouts then PayoutEffect(t, poID, -1, acct, cur)
              else if po.status.Failed? then PayoutEffect(t, poID, 1, acct, cur) else 0
  {
    PayoutMovesMoney(s, poID, po, acct, cur);
  }

  lemma PaidEffectIs(u: Store, id: string, sess: Session, piID: string, chID: string, now: int,
                     acct: string, cur: string)
    requires chID !in u.charges
    ensures PaidEffect(PaidStore(u, id, sess, piID, chID, now), chID, acct, cur) ==
            On(acct == "" && sess.currency == cur && sess.Total() != 0, sess.Total() - StripeFee(sess.Total(), cur))
  {
  }

  lemma PaidStoreStep(s: Store, u: Store, id: string, sess: Session, piID: string, chID: string, now: int,
                      acct: string, cur: string)
    requires Invariant(s) && u == s.(coupons := u.coupons, codes := u.codes) && AllCoupons(u) && AllCodes(u)
    requires piID !in s.intents && piID != "" && chID !in s.charges && chID != ""
    ensures var t := PaidStore(u, id, sess, piID, chID, now);
            Balance(t, acct, cur) == Balance(s, acct, cur) + PaidEffect(t, chID, acct, cur)
  {
    Assemble(s, u);
    NoMoneyMoves(s, u, acct, cur);
    CheckoutMovesMoney(u, id, sess, piID, chID, now, acct, cur);
    PaidEffectIs(u, id, sess, piID, chID, now, acct, cur);
  }

  lemma CheckoutStep(s: Store, id: string, typed: string, found: string, piID: string, chID: string, typedAt: int,
                     now: int, acct: string, cur: string)
    requires Invariant(s) && piID !in s.intents && piID != "" && chID !in s.charges && chID != ""
    requires CompleteCheckout(s, id, "paid", typed, found, piID, chID, typedAt, now).Done?
    ensures var t := CompleteCheckout(s, id, "paid", typed, found, piID, chID, typedAt, now).store;
            Balance(t, acct, cur) == Balance(s, acct, cur) + PaidEffect(t, chID, acct, cur)
  {
    var sess, u := PaidSteps(s, id, typed, found, piID, chID, typedAt, now);
    PaidStoreStep(s, u, id, sess, piID, chID, now, acct, cur);
  }

  lemma UnpaidShape(s: Store, id: string, o: string, typed: string, found: string, piID: string, chID: string,
                    typedAt: int, now: int)
    requires o != "paid" && CompleteCheckout(s, id, o, typed, found, piID, chID, typedAt, now).Done?
    ensures var t := CompleteCheckout(s, id, o, typed, found, piID, chID, typedAt, now).store;
            t == s.(sessions := t.sessions)
  {
  }

  lemma OnlySessionsMove(s: Store, t: Store, acct: string, cur: string)
    requires Invariant(s) && t == s.(sessions := t.sessions)
    ensures Balance(t, acct, cur) == Balance(s, acct, cur)
  {
    NoMoneyMoves(s, t, acct, cur);
  }

  lemma UnpaidStep(s: Store, id: string, o: string, typed: string, found: string, piID: string, chID: string,
                   typedAt: int, now: int, acct: string, cur: string)
    requires Invariant(s) && o != "paid" && CompleteCheckout(s, id, o, typed, found, piID, chID, typedAt, now).Done?
    ensures Balance(CompleteCheckout(s, id, o, typed, found, piID, chID, typedAt, now).store, acct, cur) ==
            Balance(s, acct, cur)
  {
    UnpaidShape(s, id, o, typed, found, piID, chID, typedAt, now);
    OnlySessionsMove(s, CompleteCheckout(s, id, o, typed, found, piID, chID, typedAt, now).store, acct, cur);
  }

  lemma PaymentSteps(s: Store, op: Op, acct: string, cur: string)
    requires Invariant(s) && Fresh(s, op) && Try(s, op).Done?
    requires op.OpCapture? || op.OpComplete? || op.OpRefund? || op.OpCheckout?
    ensures Balance(Step(s, op), acct, cur) == Balance(s, acct, cur) + Effect(s, op, acct, cur)
  {
    match op {
      case OpCapture(id, n, chID, trID, now) => CaptureStep(s, id, n, chID, trID, now, acct, cur);
      case OpComplete(id, o, chID, trID, now) =>
        if o == "succeed" {
          SuccessStep(s, id, chID, trID, now, acct, cur);
        } else {
          FailureStep(s, id, chID, trID, now, acct, cur);
        }
      case OpRefund(p, rfID, rvID, now) => RefundMovesMoney(s, p, rfID, rvID, now, acct, cur);
      case OpCheckout(id, o, typed, found, piID, chID, typedAt, now) =>
        if o == "paid" {
          CheckoutStep(s, id, typed, found, piID, chID, typedAt, now, acct, cur);
        } else {
          UnpaidStep(s, id, o, typed, found, piID, chID, typedAt, now, acct, cur);
        }
    }
  }

  lemma OtherSteps(s: Store, op: Op, acct: string, cur: string)
    requires Invariant(s) && Fresh(s, op) && Try(s, op).Done?
    requires op.OpTransfer? || op.OpReverse? || op.OpOpenDispute? || op.OpCloseDispute?
    ensures Balance(Step(s, op), acct, cur) == Balance(s, acct, cur) + Effect(s, op, acct, cur)
  {
    match op {
      case OpTransfer(p, capable, trID, now) => TransferStep(s, p, capable, trID, now, acct, cur);
      case OpReverse(trID, n, rvID, now) => ReversalStep(s, trID, n, rvID, now, acct, cur);
      case OpOpenDispute(id, dpID, now) => OpenDisputeStep(s, id, dpID, now, acct, cur);
      case OpCloseDispute(dpID, o, now) => CloseDisputeStep(s, dpID, o, now, acct, cur);
    }
  }

  /** What an accepted payout operation writes. */
  lemma PayoutWrites(s: Store, op: Op) returns (po: Payout)
    requires AllPayouts(s) && Fresh(s, op) && Try(s, op).Done?
    requires op.OpPayout? || op.OpPayOutBalance? || op.OpCompletePayout?
    ensures Step(s, op) == s.(payouts := s.payouts[op.poID := po])
    ensures op.OpCompletePayout? ==>
      && op.poID in s.payouts && s.payouts[op.poID].status.Pending? && po == s.payouts[op.poID].(status := po.status)
      && (po.status.Paid? || po.status.Failed?) && (po.status.Failed? <==> op.outcome == "fail")
    ensures !op.OpCompletePayout? ==> op.poID !in s.payouts && po.status.Pending?
  {
    po := Step(s, op).payouts[op.poID];
  }

  lemma PayoutSteps(s: Store, op: Op, acct: string, cur: string)
    requires Invariant(s) && Fresh(s, op) && Try(s, op).Done?
    requires op.OpPayout? || op.OpPayOutBalance? || op.OpCompletePayout?
    ensures Balance(Step(s, op), acct, cur) == Balance(s, acct, cur) + Effect(s, op, acct, cur)
  {
    var po := PayoutWrites(s, op);
    PayoutStep(s, op.poID, po, acct, cur);
  }

  lemma QuietGrows(s: Store, op: Op)
    requires Invariant(s) && Fresh(s, op) && Try(s, op).Done? && Quiet(op)
    ensures Grows(s, Step(s, op)) && SameMoney(s, Step(s, op))
  {
    StepKeeps(s, op);
    QuietShape(s, op);
  }

  lemma QuietEffect(s: Store, op: Op, acct: string, cur: string)
    requires Quiet(op)
    ensures Effect(s, op, acct, cur) == 0
  {
  }

  lemma SameMoneySameBalance(s: Store, t: Store, acct: string, cur: string)
    requires Invariant(s) && Grows(s, t) && SameMoney(s, t)
    ensures Balance(t, acct, cur) == Balance(s, acct, cur)
  {
    NoMoneyMoves(s, t, acct, cur);
  }

  lemma QuietStep(s: Store, op: Op, acct: string, cur: string)
    requires Invariant(s) && Fresh(s, op) && Try(s, op).Done? && Quiet(op)
    ensures Balance(Step(s, op), acct, cur) == Balance(s, acct, cur) && Effect(s, op, acct, cur) == 0
  {
    QuietGrows(s, op);
    QuietEffect(s, op, acct, cur);
    SameMoneySameBalance(s, Step(s, op), acct, cur);
  }

  /** One operation changes the recomputed balance of every account in every currency by exactly
      its effect; a refused one changes nothing. */
  lemma StepMovesMoney(s: Store, op: Op, acct: string, cur: string)
    requires Invariant(s) && Fresh(s, op)
    ensures Balance(Step(s, op), acct, cur) ==
            Balance(s, acct, cur) + if Try(s, op).Done? then Effect(s, op, acct, cur) else 0
  {
    if Try(s, op).Done? {
      if Quiet(op) {
        QuietStep(s, op, acct, cur);
      } else if op.OpCapture? || op.OpComplete? || op.OpRefund? || op.OpCheckout? {
        PaymentSteps(s, op, acct, cur);
      } else if op.OpPayout? || op.OpPayOutBalance? || op.OpCompletePayout? {
        PayoutSteps(s, op, acct, cur);
      } else {
        OtherSteps(s, op, acct, cur);
      }
    }
  }

  /** A balance kept up to date by adding each operation's effect. */
  ghost function RunningBalance(ops: seq<Op>, acct: string, cur: string): int {
    if ops == [] then 0
    else
      var before, op := ops[..|ops| - 1], ops[|ops| - 1];
      RunningBalance(before, acct, cur) + if Try(Run(before), op).Done? then Effect(Run(before), op, acct, cur) else 0
  }

  /** The balance recomputed from the stored objects is the one kept up to date. */
  lemma {:induction false} RecomputedIsRunning(ops: seq<Op>, acct: string, cur: string)
    requires FreshRun(ops)
    ensures Balance(Run(ops), acct, cur) == RunningBalance(ops, acct, cur)
  {
    if ops == [] {
      BalanceByParts(EmptyStore, acct, cur);
    } else {
      var before := ops[..|ops| - 1];
      RecomputedIsRunning(before, acct, cur);
      RunsKeepInvariant(before);
      StepMovesMoney(Run(before), ops[|ops| - 1], acct, cur);
    }
  }
}
