/** What each request does to every balance, in figures: from the request and from what was stored
    before it, and from nothing the operations themselves compute. */
module StripeFigures {
  import opened StripeStore
  import opened Ledger
  import opened LedgerLines
  import opened Balances
  import opened StripeOps
  import opened Checkout
  import opened StripeInvariant
  import opened StripeMoney
  import opened StripeRuns
  import opened StripeLaws
  import opened StripeRequests

  // ---------- fees ----------

  /** The processing fee: nothing on nothing, and otherwise 1.5% and 20 on pounds and euros, 2.9% and
      30 on any other currency, the percentage rounded to the nearest unit, a half up. */
  lemma FeeInFigures(amount: int, currency: string)
    ensures amount <= 0 ==> StripeFee(amount, currency) == 0
    ensures amount > 0 && currency in {"gbp", "eur"} ==>
              -500 < 1000 * (StripeFee(amount, currency) - 20) - 15 * amount <= 500
    ensures amount > 0 && currency !in {"gbp", "eur"} ==>
              -500 < 1000 * (StripeFee(amount, currency) - 30) - 29 * amount <= 500
  {
  }

  /** The application fee a refund hands back: with the flag on, the refund's share of the fee, rounded
      down; all of it if all is refunded. */
  lemma FeeBackInFigures(rf: Refund, ch: Charge, appFee: int)
    requires 0 <= rf.amount <= ch.captured && ch.captured > 0 && appFee >= 0
    ensures !rf.refundAppFee ==> RefundedAppFee(rf, ch, appFee) == 0
    ensures rf.refundAppFee ==>
              appFee * rf.amount - ch.captured < RefundedAppFee(rf, ch, appFee) * ch.captured <= appFee * rf.amount
    ensures rf.refundAppFee && rf.amount == ch.captured ==> RefundedAppFee(rf, ch, appFee) == appFee
  {
    if appFee > 0 {
      assert appFee * rf.amount >= 0;
      if rf.amount == ch.captured {
        WholeShare(TruncDiv(appFee * rf.amount, ch.captured), appFee, ch.captured);
      }
    }
  }

  lemma OnceOrMore(k: int, captured: int)
    requires k >= 1 && captured > 0
    ensures k * captured >= captured
  {
    assert (k - 1) * captured >= 0;
  }

  lemma WholeShare(back: int, fee: int, captured: int)
    requires captured > 0 && fee * captured - captured < back * captured <= fee * captured
    ensures back == fee
  {
    assert (fee - back) * captured == fee * captured - back * captured;
    assert (back - fee) * captured == back * captured - fee * captured;
    if fee > back {
      OnceOrMore(fee - back, captured);
    } else if back > fee {
      OnceOrMore(back - fee, captured);
    }
  }

  // ---------- the figures ----------

  /** A charge of which `captured` is captured, made as an account or not, with or without a share to a
      destination. */
  function ChargeFigure(pi: Intent, captured: int, acct: string, cur: string): int {
    var share := if pi.destinationAmount != 0 then pi.destinationAmount
                 else if captured > pi.appFee then captured - pi.appFee else 0;
    if pi.currency != cur then 0
    else
      (if pi.account == acct then captured - StripeFee(captured, cur) else 0) +
      (if pi.account == acct && acct != "" then -pi.appFee else 0) +
      (if pi.account != "" && acct == "" then pi.appFee else 0) +
      (if pi.destination != "" && acct == "" then -share else 0) +
      (if pi.destination != "" && acct == pi.destination then share else 0)
  }

  function SettledFigure(s: Store, id: string, asked: Parsed, acct: string, cur: string): int {
    if id !in s.intents then 0
    else ChargeFigure(s.intents[id], if asked.Number? && asked.n > 0 then asked.n else s.intents[id].amount, acct, cur)
  }

  /** What a refund of `amount` does to the two who had the charge, ... */
  function RefundFigure(s: Store, chID: string, amount: int, feeToo: bool, acct: string, cur: string): int {
    if chID !in s.charges || s.charges[chID].currency != cur then 0
    else
      var ch, owner := s.charges[chID], MadeAs(s, s.charges[chID]);
      var fee := if owner != "" && feeToo && ch.captured > 0 then s.intents[ch.intentID].appFee * amount / ch.captured
                 else 0;
      (if owner == acct then fee - amount else 0) + (if owner != "" && acct == "" then -fee else 0)
  }

  /** ... and what its reversal does to the platform and to the destination. */
  function ReversalFigure(s: Store, chID: string, amount: int, acct: string, cur: string): int {
    if chID !in s.charges || s.charges[chID].transferID == "" || s.charges[chID].transferID !in s.transfers then 0
    else
      var tr := s.transfers[s.charges[chID].transferID];
      TransferFigure(tr.destination, tr.currency,
                     if amount < tr.amount - tr.reversed then -amount else tr.reversed - tr.amount, acct, cur)
  }

  /** The charge a refund is of: the one it names, or that of the intent it names. */
  function NamedCharge(s: Store, p: RefundParams): string {
    if p.chargeID != "" then p.chargeID else if p.intentID in s.intents then s.intents[p.intentID].chargeID else ""
  }

  function RefundedFigure(s: Store, p: RefundParams, acct: string, cur: string): int {
    var chID := NamedCharge(s, p);
    if chID !in s.charges then 0
    else
      var amount := if p.amount == 0 then s.charges[chID].captured - s.charges[chID].refunded else p.amount;
      RefundFigure(s, chID, amount, p.refundAppFee, acct, cur) +
      if p.reverseTransfer then ReversalFigure(s, chID, amount, acct, cur) else 0
  }

  function TransferFigure(dest: string, currency: string, amount: int, acct: string, cur: string): int {
    if currency != cur then 0 else if acct == "" then -amount else if acct == dest then amount else 0
  }

  function ReversedFigure(s: Store, trID: string, asked: Parsed, acct: string, cur: string): int {
    if trID !in s.transfers || asked.Garbage? then 0
    else
      var tr := s.transfers[trID];
      TransferFigure(tr.destination, tr.currency, if asked.n == 0 then tr.reversed - tr.amount else -asked.n, acct, cur)
  }

  /** A dispute takes what is left of the charge, and a fee of 2000. */
  function DisputeFigure(s: Store, intentID: string, acct: string, cur: string): int {
    if intentID !in s.intents || s.intents[intentID].chargeID !in s.charges then 0
    else
      var ch := s.charges[s.intents[intentID].chargeID];
      if ch.currency == cur && s.intents[intentID].account == acct then ch.refunded - ch.captured - 2000 else 0
  }

  function ClosingFigure(s: Store, dpID: string, o: string, acct: string, cur: string): int {
    if dpID !in s.disputes || s.disputes[dpID].chargeID !in s.charges || s.disputes[dpID].currency != cur || o != "won"
    then 0
    else if MadeAs(s, s.charges[s.disputes[dpID].chargeID]) == acct then s.disputes[dpID].amount else 0
  }

  function EndingFigure(s: Store, poID: string, o: string, acct: string, cur: string): int {
    if poID !in s.payouts || o != "fail" then 0
    else if s.payouts[poID].account == acct && s.payouts[poID].currency == cur then s.payouts[poID].amount else 0
  }

  /** The buyer's payment, of what the session comes to. */
  function PaymentFigure(t: Store, id: string, o: string, acct: string, cur: string): int {
    if id !in t.sessions || o != "paid" || acct != "" || t.sessions[id].currency != cur then 0
    else
      var paid := t.sessions[id].amountTotal - t.sessions[id].amountDiscount;
      if paid != 0 then paid - StripeFee(paid, cur) else 0
  }

  /** What an accepted request adds to a balance. */
  ghost function Figure(s: Store, op: Op, acct: string, cur: string): int {
    match op
    case OpCapture(id, n, _, _, _) => SettledFigure(s, id, n, acct, cur)
    case OpComplete(id, o, _, _, _) => if o == "succeed" then SettledFigure(s, id, Number(0), acct, cur) else 0
    case OpRefund(p, _, _, _) => RefundedFigure(s, p, acct, cur)
    case OpTransfer(p, _, _, _) =>
      if p.amount.Number? then TransferFigure(p.destination, p.currency, p.amount.n, acct, cur) else 0
    case OpReverse(trID, n, _, _) => ReversedFigure(s, trID, n, acct, cur)
    case OpOpenDispute(id, _, _) => DisputeFigure(s, id, acct, cur)
    case OpCloseDispute(dpID, o, _) => ClosingFigure(s, dpID, o, acct, cur)
    case OpPayout(n, c, a, _, _) => if n.Number? && a == acct && c == cur then -n.n else 0
    case OpPayOutBalance(a, _, _) => if a == acct && FirstPositive(s, a, cur) then -Balance(s, a, cur) else 0
    case OpCompletePayout(poID, o) => EndingFigure(s, poID, o, acct, cur)
    case OpCheckout(id, o, _, _, _, _, _, _) => PaymentFigure(Step(s, op), id, o, acct, cur)
    case _ => 0
  }

  // ---------- the balances move by the figures ----------

  lemma ChargeFigureIs(pi: Intent, captured: int, acct: string, cur: string)
    requires pi.appFee >= 0 && pi.destination != ""
    ensures On(pi.currency == cur, ChargeEffect(pi.account, pi.appFee, captured - StripeFee(captured, cur), acct)) +
            On(pi.currency == cur, TransferEffect(pi.destination, ShareDue(pi, captured), acct)) ==
            ChargeFigure(pi, captured, acct, cur)
  {
  }

  lemma OwnChargeFigureIs(pi: Intent, captured: int, acct: string, cur: string)
    requires pi.appFee >= 0 && pi.destination == ""
    ensures On(pi.currency == cur, ChargeEffect(pi.account, pi.appFee, captured - StripeFee(captured, cur), acct)) ==
            ChargeFigure(pi, captured, acct, cur)
  {
  }

  lemma SettleFigure(s: Store, id: string, pi: Intent, captured: int, share: int, chID: string, trID: string, now: int,
                     acct: string, cur: string)
    requires Invariant(s) && Settles(s, id, pi, captured, share, chID, trID) && share == ShareDue(pi, captured)
    ensures Balance(Settle(s, id, pi, captured, share, chID, trID, now), acct, cur) ==
            Balance(s, acct, cur) + ChargeFigure(pi, captured, acct, cur)
  {
    assert IntentOk(s, id);
    SettleMovesMoney(s, id, pi, captured, share, chID, trID, now, acct, cur);
    if pi.destination == "" {
      OwnChargeFigureIs(pi, captured, acct, cur);
    } else {
      ChargeFigureIs(pi, captured, acct, cur);
    }
  }

  lemma SameFigure(pi: Intent, p: Intent, captured: int, acct: string, cur: string)
    requires pi.currency == p.currency && pi.account == p.account && pi.appFee == p.appFee
    requires pi.destination == p.destination && pi.destinationAmount == p.destinationAmount
    ensures ChargeFigure(pi, captured, acct, cur) == ChargeFigure(p, captured, acct, cur)
  {
  }

  lemma CaptureFigures(s: Store, id: string, n: Parsed, chID: string, trID: string, now: int, acct: string, cur: string)
    requires Invariant(s) && FreshCharge(s, chID, trID) && CaptureIntent(s, id, n, chID, trID, now).Done?
    ensures Balance(CaptureIntent(s, id, n, chID, trID, now).store, acct, cur) ==
            Balance(s, acct, cur) + SettledFigure(s, id, n, acct, cur)
  {
    var pi, captured, share := CaptureSettles(s, id, n, chID, trID, now);
    SettleFigure(s, id, pi, captured, share, chID, trID, now, acct, cur);
    SameFigure(pi, s.intents[id], captured, acct, cur);
    CaptureRequest(s, id, n, chID, trID, now);
  }

  lemma SuccessFigures(s: Store, id: string, chID: string, trID: string, now: int, acct: string, cur: string)
    requires Invariant(s) && FreshCharge(s, chID, trID) && CompleteIntent(s, id, "succeed", chID, trID, now).Done?
    ensures Balance(CompleteIntent(s, id, "succeed", chID, trID, now).store, acct, cur) ==
            Balance(s, acct, cur) + SettledFigure(s, id, Number(0), acct, cur)
  {
    var pi, captured, share := SuccessSettles(s, id, chID, trID, now);
    SettleFigure(s, id, pi, captured, share, chID, trID, now, acct, cur);
    SameFigure(pi, s.intents[id], captured, acct, cur);
    OutcomeRequest(s, id, "succeed", chID, trID, now);
  }

  /** What is refunded, of which charge. */
  lemma RefundedOf(s: Store, p: RefundParams, rfID: string, rvID: string, now: int) returns (chID: string, amount: int)
    requires Invariant(s) && ApplyRefund(s, p, rfID, rvID, now).Done?
    ensures chID in s.charges && chID == RefundedCharge(s, p.chargeID, p.intentID) == NamedCharge(s, p)
    ensures amount == (if p.amount == 0 then s.charges[chID].captured - s.charges[chID].refunded else p.amount) > 0
    ensures amount == RefundAmount(s.charges[chID], p.amount)
    ensures rfID in ApplyRefund(s, p, rfID, rvID, now).store.refunds
    ensures var rf := ApplyRefund(s, p, rfID, rvID, now).store.refunds[rfID];
            rf.amount == amount && rf.refundAppFee == p.refundAppFee
    ensures ChargeOk(s, chID) && IntentOk(s, s.charges[chID].intentID)
  {
    chID := RefundedCharge(s, p.chargeID, p.intentID);
    amount := RefundAmount(s.charges[chID], p.amount);
    assert ChargeOk(s, chID);
    assert IntentOk(s, s.charges[chID].intentID);
  }

  lemma FeeFigure(s: Store, rf: Refund, chID: string)
    requires chID in s.charges && ChargeOk(s, chID) && IntentOk(s, s.charges[chID].intentID) && rf.amount > 0
    ensures var ch, owner := s.charges[chID], MadeAs(s, s.charges[chID]);
            && ChargeOwner(s, ch).0 == owner
            && RefundedAppFee(rf, ch, ChargeOwner(s, ch).1) ==
                 if owner != "" && rf.refundAppFee then s.intents[ch.intentID].appFee * rf.amount / ch.captured else 0
  {
    var fee := s.intents[s.charges[chID].intentID].appFee;
    assert fee * rf.amount >= 0;
    if fee == 0 {
      assert fee * rf.amount == 0;
    }
  }

  lemma RefundShareFigure(s: Store, t: Store, p: RefundParams, rfID: string, chID: string, amount: int, acct: string,
                          cur: string)
    requires chID in s.charges && chID == RefundedCharge(s, p.chargeID, p.intentID)
    requires ChargeOk(s, chID) && IntentOk(s, s.charges[chID].intentID)
    requires rfID in t.refunds && t.refunds[rfID].amount == amount > 0 && t.refunds[rfID].refundAppFee == p.refundAppFee
    ensures RefundShare(s, t, p, rfID, acct, cur) == RefundFigure(s, chID, amount, p.refundAppFee, acct, cur)
  {
    FeeFigure(s, t.refunds[rfID], chID);
  }

  lemma ReversedShareFigure(s: Store, p: RefundParams, chID: string, amount: int, acct: string, cur: string)
    requires AllTransfers(s) && chID in s.charges && chID == RefundedCharge(s, p.chargeID, p.intentID)
    requires amount == RefundAmount(s.charges[chID], p.amount) > 0
    ensures ReversedShare(s, p, acct, cur) ==
            if p.reverseTransfer then ReversalFigure(s, chID, amount, acct, cur) else 0
  {
    if s.charges[chID].transferID in s.transfers {
      assert TransferOk(s, s.charges[chID].transferID);
    }
  }

  lemma RefundEffectFigure(s: Store, t: Store, p: RefundParams, rfID: string, chID: string, amount: int, acct: string,
                           cur: string)
    requires AllTransfers(s) && chID in s.charges && chID == RefundedCharge(s, p.chargeID, p.intentID)
    requires ChargeOk(s, chID) && IntentOk(s, s.charges[chID].intentID)
    requires amount == RefundAmount(s.charges[chID], p.amount) > 0
    requires rfID in t.refunds && t.refunds[rfID].amount == amount && t.refunds[rfID].refundAppFee == p.refundAppFee
    ensures RefundEffect(s, t, p, rfID, acct, cur) ==
            RefundFigure(s, chID, amount, p.refundAppFee, acct, cur) +
            if p.reverseTransfer then ReversalFigure(s, chID, amount, acct, cur) else 0
  {
    RefundShareFigure(s, t, p, rfID, chID, amount, acct, cur);
    ReversedShareFigure(s, p, chID, amount, acct, cur);
  }

  lemma RefundFigures(s: Store, p: RefundParams, rfID: string, rvID: string, now: int, acct: string, cur: string)
    requires Invariant(s) && rfID !in s.refunds && ApplyRefund(s, p, rfID, rvID, now).Done?
    ensures Balance(ApplyRefund(s, p, rfID, rvID, now).store, acct, cur) ==
            Balance(s, acct, cur) + RefundedFigure(s, p, acct, cur)
  {
    var t := ApplyRefund(s, p, rfID, rvID, now).store;
    var chID, amount := RefundedOf(s, p, rfID, rvID, now);
    assert RefundEffect(s, t, p, rfID, acct, cur) == RefundedFigure(s, p, acct, cur) by {
      RefundEffectFigure(s, t, p, rfID, chID, amount, acct, cur);
      assert chID == NamedCharge(s, p);
    }
    assert Balance(t, acct, cur) == Balance(s, acct, cur) + RefundEffect(s, t, p, rfID, acct, cur) by {
      RefundMovesMoney(s, p, rfID, rvID, now, acct, cur);
    }
  }

  lemma TransferFigures(s: Store, p: TransferParams, capable: bool, trID: string, now: int, acct: string, cur: string)
    requires Invariant(s) && trID !in s.transfers && CreateTransfer(s, p, capable, trID, now).Done?
    ensures p.amount.Number? && Balance(CreateTransfer(s, p, capable, trID, now).store, acct, cur) ==
            Balance(s, acct, cur) + TransferFigure(p.destination, p.currency, p.amount.n, acct, cur)
  {
    TransferRequest(s, p, capable, trID, now);
    TransferMovesMoney(s, trID, Transfer(p.amount.n, p.currency, p.destination, p.source, now, 0, []), acct, cur);
  }

  lemma ReversalFigures(s: Store, trID: string, n: Parsed, rvID: string, now: int, acct: string, cur: string)
    requires Invariant(s) && ReverseTransfer(s, trID, n, rvID, now).Done?
    ensures Balance(ReverseTransfer(s, trID, n, rvID, now).store, acct, cur) ==
            Balance(s, acct, cur) + ReversedFigure(s, trID, n, acct, cur)
  {
    var tr := ReversalFits(s, trID, n, rvID, now);
    assert TransferOk(s, trID);
    ReversalRequest(s, trID, n, rvID, now);
    TransferMovesMoney(s, trID, tr, acct, cur);
  }

  lemma DisputeFigures(s: Store, id: string, dpID: string, now: int, acct: string, cur: string)
    requires Invariant(s) && dpID !in s.disputes && dpID != "" && OpenDispute(s, id, dpID, now).Done?
    ensures Balance(OpenDispute(s, id, dpID, now).store, acct, cur) ==
            Balance(s, acct, cur) + DisputeFigure(s, id, acct, cur)
  {
    DisputeRequest(s, id, dpID, now);
    assert IntentOk(s, id);
    OpenDisputeMovesMoney(s, id, dpID, now, acct, cur);
  }

  lemma ClosingFigures(s: Store, dpID: string, o: string, now: int, acct: string, cur: string)
    requires Invariant(s) && CloseDispute(s, dpID, o, now).Done?
    ensures Balance(CloseDispute(s, dpID, o, now).store, acct, cur) ==
            Balance(s, acct, cur) + ClosingFigure(s, dpID, o, acct, cur)
  {
    var dp := s.disputes[dpID];
    assert DisputeOk(s, dpID) && ChargeOk(s, dp.chargeID);
    assert ChargeOwner(s, s.charges[dp.chargeID]).0 == MadeAs(s, s.charges[dp.chargeID]);
    CloseDisputeMovesMoney(s, dpID, o, now, acct, cur);
  }

  lemma PayOutBalanceFigures(s: Store, a: string, poID: string, now: int, acct: string, cur: string)
    requires Invariant(s) && poID !in s.payouts && PayOutBalance(s, a, poID, now).Done?
    ensures Balance(PayOutBalance(s, a, poID, now).store, acct, cur) ==
            Balance(s, acct, cur) + if a == acct && FirstPositive(s, a, cur) then -Balance(s, a, cur) else 0
  {
    var c := PaidOut(s, a, poID, now);
    PayingOutMoves(s, a, poID, c, now, acct, cur);
    if FirstPositive(s, a, cur) {
      FirstPositiveUnique(s, a, c, cur);
    }
  }

  lemma PayoutMadeFigures(s: Store, n: Parsed, c: string, a: string, poID: string, now: int, acct: string, cur: string)
    requires Invariant(s) && poID !in s.payouts && CreatePayout(s, n, c, a, poID, now).Done?
    ensures n.Number? && Balance(CreatePayout(s, n, c, a, poID, now).store, acct, cur) ==
                         Balance(s, acct, cur) + if a == acct && c == cur then -n.n else 0
  {
    PayoutRequest(s, n, c, a, poID, now);
    var po := Payout(n.n, c, a, Pending, now);
    assert Balance(s.(payouts := s.payouts[poID := po]), acct, cur) == Balance(s, acct, cur) +
           On(a == acct && c == cur, -On(Leaves(po), n.n)) by {
      PayoutMovesMoney(s, poID, po, acct, cur);
    }
    assert CreatePayout(s, n, c, a, poID, now) == Done(s.(payouts := s.payouts[poID := po]));
  }

  lemma EndingFigures(s: Store, poID: string, o: string, acct: string, cur: string)
    requires Invariant(s) && CompletePayout(s, poID, o).Done?
    ensures Balance(CompletePayout(s, poID, o).store, acct, cur) ==
            Balance(s, acct, cur) + EndingFigure(s, poID, o, acct, cur)
  {
    var po := EndedPayout(s, poID, o);
    assert Balance(s.(payouts := s.payouts[poID := po]), acct, cur) == Balance(s, acct, cur) +
           On(po.account == acct && po.currency == cur, po.amount - On(Leaves(po), po.amount)) by {
      PayoutMovesMoney(s, poID, po, acct, cur);
    }
  }

  lemma EndedPayout(s: Store, poID: string, o: string) returns (po: Payout)
    requires CompletePayout(s, poID, o).Done?
    ensures poID in s.payouts && Leaves(s.payouts[poID]) && (Leaves(po) <==> o != "fail")
    ensures po == s.payouts[poID].(status := po.status)
    ensures CompletePayout(s, poID, o) == Done(s.(payouts := s.payouts[poID := po]))
  {
    po := s.payouts[poID].(status := if o == "paid" then Paid else Failed);
  }

  lemma PayoutFigures(s: Store, op: Op, acct: string, cur: string)
    requires Invariant(s) && Fresh(s, op) && Try(s, op).Done?
    requires op.OpPayout? || op.OpPayOutBalance? || op.OpCompletePayout?
    ensures Balance(Step(s, op), acct, cur) == Balance(s, acct, cur) + Figure(s, op, acct, cur)
  {
    match op {
      case OpPayout(n, c, a, poID, now) => PayoutMadeFigures(s, n, c, a, poID, now, acct, cur);
      case OpPayOutBalance(a, poID, now) => PayOutBalanceFigures(s, a, poID, now, acct, cur);
      case OpCompletePayout(poID, o) => EndingFigures(s, poID, o, acct, cur);
    }
  }

  lemma CheckoutFigures(s: Store, id: string, typed: string, found: string, piID: string, chID: string, typedAt: int,
                        now: int, acct: string, cur: string)
    requires Invariant(s) && piID !in s.intents && piID != "" && chID !in s.charges && chID != ""
    requires CompleteCheckout(s, id, "paid", typed, found, piID, chID, typedAt, now).Done?
    ensures var t := CompleteCheckout(s, id, "paid", typed, found, piID, chID, typedAt, now).store;
            Balance(t, acct, cur) == Balance(s, acct, cur) + PaymentFigure(t, id, "paid", acct, cur)
  {
    var sess, u := PaidSteps(s, id, typed, found, piID, chID, typedAt, now);
    PaidStoreStep(s, u, id, sess, piID, chID, now, acct, cur);
    PaidEffectIs(u, id, sess, piID, chID, now, acct, cur);
    PaidSessionIs(u, id, sess, piID, chID, now);
  }

  lemma PaymentFigures(s: Store, op: Op, acct: string, cur: string)
    requires Invariant(s) && Fresh(s, op) && Try(s, op).Done?
    requires op.OpCapture? || op.OpComplete? || op.OpCheckout?
    ensures Balance(Step(s, op), acct, cur) == Balance(s, acct, cur) + Figure(s, op, acct, cur)
  {
    match op {
      case OpCapture(id, n, chID, trID, now) => CaptureFigures(s, id, n, chID, trID, now, acct, cur);
      case OpComplete(id, o, chID, trID, now) =>
        if o == "succeed" {
          SuccessFigures(s, id, chID, trID, now, acct, cur);
        } else {
          FailureStep(s, id, chID, trID, now, acct, cur);
        }
      case OpCheckout(id, o, typed, found, piID, chID, typedAt, now) =>
        if o == "paid" {
          CheckoutFigures(s, id, typed, found, piID, chID, typedAt, now, acct, cur);
        } else {
          UnpaidStep(s, id, o, typed, found, piID, chID, typedAt, now, acct, cur);
        }
    }
  }

  lemma OtherFigures(s: Store, op: Op, acct: string, cur: string)
    requires Invariant(s) && Fresh(s, op) && Try(s, op).Done?
    requires op.OpRefund? || op.OpTransfer? || op.OpReverse? || op.OpOpenDispute? || op.OpCloseDispute?
    ensures Balance(Step(s, op), acct, cur) == Balance(s, acct, cur) + Figure(s, op, acct, cur)
  {
    match op {
      case OpRefund(p, rfID, rvID, now) => RefundFigures(s, p, rfID, rvID, now, acct, cur);
      case OpTransfer(p, capable, trID, now) => TransferFigures(s, p, capable, trID, now, acct, cur);
      case OpReverse(trID, n, rvID, now) => ReversalFigures(s, trID, n, rvID, now, acct, cur);
      case OpOpenDispute(id, dpID, now) => DisputeFigures(s, id, dpID, now, acct, cur);
      case OpCloseDispute(dpID, o, now) => ClosingFigures(s, dpID, o, now, acct, cur);
    }
  }

  lemma QuietFigure(s: Store, op: Op, acct: string, cur: string)
    requires Quiet(op)
    ensures Figure(s, op, acct, cur) == 0
  {
  }

  lemma AcceptedInFigures(s: Store, op: Op, acct: string, cur: string)
    requires Invariant(s) && Fresh(s, op) && Try(s, op).Done?
    ensures Balance(Step(s, op), acct, cur) == Balance(s, acct, cur) + Figure(s, op, acct, cur)
  {
    if Quiet(op) {
      QuietFigure(s, op, acct, cur);
      QuietStep(s, op, acct, cur);
    } else if op.OpCapture? || op.OpComplete? || op.OpCheckout? {
      PaymentFigures(s, op, acct, cur);
    } else if op.OpPayout? || op.OpPayOutBalance? || op.OpCompletePayout? {
      PayoutFigures(s, op, acct, cur);
    } else {
      OtherFigures(s, op, acct, cur);
    }
  }

  /** An accepted request changes the balance of every account in every currency by its figure, and a
      refused one changes none. */
  lemma StepInFigures(s: Store, op: Op, acct: string, cur: string)
    requires Invariant(s) && Fresh(s, op)
    ensures Balance(Step(s, op), acct, cur) ==
            Balance(s, acct, cur) + if Try(s, op).Done? then Figure(s, op, acct, cur) else 0
  {
    if Try(s, op).Done? {
      AcceptedInFigures(s, op, acct, cur);
    }
  }

  /** After any run every balance is the sum of the figures of the requests accepted. */
  ghost function SumOfFigures(ops: seq<Op>, acct: string, cur: string): int {
    if ops == [] then 0
    else
      var before, op := ops[..|ops| - 1], ops[|ops| - 1];
      SumOfFigures(before, acct, cur) + if Try(Run(before), op).Done? then Figure(Run(before), op, acct, cur) else 0
  }

  lemma {:induction false} RunInFigures(ops: seq<Op>, acct: string, cur: string)
    requires FreshRun(ops)
    ensures Balance(Run(ops), acct, cur) == SumOfFigures(ops, acct, cur)
  {
    if ops == [] {
      BalanceByParts(EmptyStore, acct, cur);
    } else {
      var before := ops[..|ops| - 1];
      RunInFigures(before, acct, cur);
      RunsKeepInvariant(before);
      StepInFigures(Run(before), ops[|ops| - 1], acct, cur);
    }
  }
}
