/** What the stored objects always agree on, whatever operations have been carried out. */
module StripeInvariant {
  import opened StripeStore
  import opened MapSums
  import opened Balances
  import opened StripeOps
  import opened Checkout

  function RefundOf(s: Store, chID: string, id: string): int {
    if id in s.refunds && s.refunds[id].chargeID == chID then s.refunds[id].amount else 0
  }

  /** What has been refunded of a charge, by the refund objects. */
  ghost function RefundedSum(s: Store, chID: string): int {
    SumOver(s.refunds.Keys, id => RefundOf(s, chID, id))
  }

  /** An intent has a charge exactly when it has succeeded, and a transfer exactly when it has
      also been given a destination. */
  predicate IntentOk(s: Store, id: string)
    requires id in s.intents
  {
    var pi := s.intents[id];
    && pi.amount > 0 && 0 <= pi.appFee <= pi.amount && pi.destinationAmount >= 0 && !pi.status.Canceled?
    && (pi.status.Succeeded? <==> pi.chargeID != "")
    && (pi.transferID != "" <==> pi.status.Succeeded? && pi.destination != "")
    && (pi.status.Succeeded? ==> pi.chargeID in s.charges && s.charges[pi.chargeID].intentID == id)
    && (pi.transferID != "" ==>
        pi.transferID in s.transfers && s.transfers[pi.transferID].destination == pi.destination &&
        s.transfers[pi.transferID].source == pi.chargeID)
  }

  /** A charge is the one charge of its intent; it never gives back more than was captured. */
  ghost predicate ChargeOk(s: Store, id: string)
    requires id in s.charges
  {
    var ch := s.charges[id];
    && id != "" && ch.intentID in s.intents && s.intents[ch.intentID].chargeID == id
    && ch.amount == s.intents[ch.intentID].amount && ch.currency == s.intents[ch.intentID].currency
    && 0 < ch.captured <= ch.amount
    && 0 <= ch.refunded <= ch.captured && (ch.fullyRefunded <==> ch.refunded == ch.captured)
    && ch.refunded == RefundedSum(s, id)
    && (ch.disputeID != "" ==> ch.disputeID in s.disputes && s.disputes[ch.disputeID].chargeID == id)
  }

  predicate RefundOk(s: Store, id: string)
    requires id in s.refunds
  {
    var rf := s.refunds[id];
    rf.amount > 0 && rf.chargeID in s.charges && s.charges[rf.chargeID].currency == rf.currency
  }

  /** A dispute is the one dispute of its charge, over all that has not been refunded. */
  predicate DisputeOk(s: Store, id: string)
    requires id in s.disputes
  {
    var dp := s.disputes[id];
    && id != "" && dp.chargeID in s.charges && s.charges[dp.chargeID].disputeID == id
    && dp.currency == s.charges[dp.chargeID].currency
    && 0 < dp.amount == s.charges[dp.chargeID].captured - s.charges[dp.chargeID].refunded
  }

  /** A transfer that draws on a charge draws on one there is. */
  predicate TransferOk(s: Store, id: string)
    requires id in s.transfers
  {
    var tr := s.transfers[id];
    && id != "" && (tr.source != "" ==> tr.source in s.charges)
    && tr.destination != "" && 0 <= tr.reversed <= tr.amount && tr.reversed == ReversedSum(tr.reversals)
  }

  predicate PayoutOk(s: Store, id: string)
    requires id in s.payouts
  {
    s.payouts[id].amount > 0
  }

  predicate CouponOk(s: Store, id: string)
    requires id in s.coupons
  {
    var c := s.coupons[id];
    CouponShape(c) && 0 <= c.timesRedeemed && (c.maxRedemptions > 0 ==> c.timesRedeemed <= c.maxRedemptions)
  }

  predicate CodeOk(s: Store, id: string)
    requires id in s.codes
  {
    var pc := s.codes[id];
    id != "" && 0 <= pc.timesRedeemed && (pc.maxRedemptions > 0 ==> pc.timesRedeemed <= pc.maxRedemptions)
  }

  /** A session's discount lies within its subtotal; it is paid by a succeeded intent over what
      is left, unless nothing is. */
  predicate SessionOk(s: Store, id: string)
    requires id in s.sessions
  {
    var sess := s.sessions[id];
    && 0 <= sess.amountDiscount <= sess.amountTotal && |sess.discounts| <= 1
    && (sess.payment.PaidUp? ==>
        sess.status.Complete? && sess.Total() > 0 && sess.intentID in s.intents &&
        s.intents[sess.intentID].status.Succeeded? && s.intents[sess.intentID].amount == sess.Total())
    && (sess.payment.NoPaymentRequired? ==> sess.status.Complete? && sess.Total() == 0)
    && (sess.payment.Unpaid? <==> !sess.status.Complete?)
    && (sess.intentID != "" <==> sess.payment.PaidUp?)
  }

  ghost predicate AllIntents(s: Store) { forall id :: id in s.intents ==> IntentOk(s, id) }
  ghost predicate AllCharges(s: Store) { forall id :: id in s.charges ==> ChargeOk(s, id) }
  ghost predicate AllRefunds(s: Store) { forall id :: id in s.refunds ==> RefundOk(s, id) }
  ghost predicate AllDisputes(s: Store) { forall id :: id in s.disputes ==> DisputeOk(s, id) }
  ghost predicate AllTransfers(s: Store) { forall id :: id in s.transfers ==> TransferOk(s, id) }
  ghost predicate AllPayouts(s: Store) { forall id :: id in s.payouts ==> PayoutOk(s, id) }
  ghost predicate AllCoupons(s: Store) { forall id :: id in s.coupons ==> CouponOk(s, id) }
  ghost predicate AllCodes(s: Store) { forall id :: id in s.codes ==> CodeOk(s, id) }
  ghost predicate AllSessions(s: Store) { forall id :: id in s.sessions ==> SessionOk(s, id) }

  ghost predicate Invariant(s: Store) {
    && AllIntents(s) && AllCharges(s) && AllRefunds(s) && AllDisputes(s) && AllTransfers(s)
    && AllPayouts(s) && AllCoupons(s) && AllCodes(s) && AllSessions(s)
  }

  // ---------- what no operation takes back ----------

  /** Objects stay, and what others rely on in them stays as it is. */
  ghost predicate Grows(s: Store, t: Store) {
    && (forall k :: k in s.intents ==> k in t.intents && IntentGrows(s.intents[k], t.intents[k]))
    && (forall k :: k in s.charges ==> k in t.charges && ChargeGrows(s.charges[k], t.charges[k]))
    && (forall k :: k in s.transfers ==> k in t.transfers && TransferGrows(s.transfers[k], t.transfers[k]))
    && (forall k :: k in s.disputes ==> k in t.disputes && t.disputes[k].chargeID == s.disputes[k].chargeID)
  }

  predicate IntentGrows(p: Intent, q: Intent) {
    && q.amount == p.amount && q.currency == p.currency && q.account == p.account && q.appFee == p.appFee
    && (p.chargeID != "" ==> q.chargeID == p.chargeID && (p.status.Succeeded? ==> q.status.Succeeded?))
  }

  predicate ChargeGrows(c: Charge, d: Charge) {
    && d.intentID == c.intentID && d.currency == c.currency && d.captured == c.captured
    && (c.disputeID != "" ==> d.disputeID == c.disputeID && d.refunded == c.refunded)
  }

  predicate TransferGrows(u: Transfer, v: Transfer) {
    v.destination == u.destination && v.source == u.source
  }

  lemma IntentsFrame(s: Store, t: Store)
    requires AllIntents(s) && Grows(s, t) && t.intents == s.intents
    ensures AllIntents(t)
  {
    forall k | k in t.intents ensures IntentOk(t, k) {
      assert IntentOk(s, k);
    }
  }

  lemma ChargesFrame(s: Store, t: Store)
    requires AllCharges(s) && Grows(s, t) && t.charges == s.charges && t.refunds == s.refunds
    ensures AllCharges(t)
  {
    forall k | k in t.charges ensures ChargeOk(t, k) {
      assert ChargeOk(s, k);
      SameRefunds(s, t, k);
    }
  }

  lemma RefundsFrame(s: Store, t: Store)
    requires AllRefunds(s) && Grows(s, t) && t.refunds == s.refunds
    ensures AllRefunds(t)
  {
    forall k | k in t.refunds ensures RefundOk(t, k) {
      assert RefundOk(s, k);
    }
  }

  lemma DisputesFrame(s: Store, t: Store)
    requires AllDisputes(s) && Grows(s, t) && t.disputes == s.disputes
    ensures AllDisputes(t)
  {
    forall k | k in t.disputes ensures DisputeOk(t, k) {
      assert DisputeOk(s, k);
    }
  }

  lemma SessionsFrame(s: Store, t: Store)
    requires AllSessions(s) && AllIntents(s) && Grows(s, t) && t.sessions == s.sessions
    ensures AllSessions(t)
  {
    forall k | k in t.sessions ensures SessionOk(t, k) {
      assert SessionOk(s, k);
      assert s.sessions[k].payment.PaidUp? ==> IntentOk(s, s.sessions[k].intentID);
    }
  }

  lemma TransfersFrame(s: Store, t: Store)
    requires AllTransfers(s) && Grows(s, t) && t.transfers == s.transfers
    ensures AllTransfers(t)
  {
    forall k | k in t.transfers ensures TransferOk(t, k) {
      assert TransferOk(s, k);
    }
  }

  /** Payouts, coupons and codes are judged by themselves. */
  lemma LonersFrame(s: Store, t: Store)
    ensures t.payouts == s.payouts && AllPayouts(s) ==> AllPayouts(t)
    ensures t.coupons == s.coupons && AllCoupons(s) ==> AllCoupons(t)
    ensures t.codes == s.codes && AllCodes(s) ==> AllCodes(t)
  {
    forall k | k in s.payouts && t.payouts == s.payouts && AllPayouts(s) ensures PayoutOk(t, k) {
      assert PayoutOk(s, k);
    }
    forall k | k in s.coupons && t.coupons == s.coupons && AllCoupons(s) ensures CouponOk(t, k) {
      assert CouponOk(s, k);
    }
    forall k | k in s.codes && t.codes == s.codes && AllCodes(s) ensures CodeOk(t, k) {
      assert CodeOk(s, k);
    }
  }

  /** Whatever an operation leaves alone stays in order. */
  lemma Frame(s: Store, t: Store)
    requires Invariant(s) && Grows(s, t)
    ensures t.intents == s.intents ==> AllIntents(t)
    ensures t.charges == s.charges && t.refunds == s.refunds ==> AllCharges(t)
    ensures t.refunds == s.refunds ==> AllRefunds(t)
    ensures t.disputes == s.disputes ==> AllDisputes(t)
    ensures t.transfers == s.transfers ==> AllTransfers(t)
    ensures t.payouts == s.payouts ==> AllPayouts(t)
    ensures t.coupons == s.coupons ==> AllCoupons(t)
    ensures t.codes == s.codes ==> AllCodes(t)
    ensures t.sessions == s.sessions ==> AllSessions(t)
  {
    if t.intents == s.intents { IntentsFrame(s, t); }
    if t.charges == s.charges && t.refunds == s.refunds { ChargesFrame(s, t); }
    if t.refunds == s.refunds { RefundsFrame(s, t); }
    if t.disputes == s.disputes { DisputesFrame(s, t); }
    if t.transfers == s.transfers { TransfersFrame(s, t); }
    if t.sessions == s.sessions { SessionsFrame(s, t); }
    LonersFrame(s, t);
  }

  /** The whole from what was left alone and what was checked anew. */
  lemma Assemble(s: Store, t: Store)
    requires Invariant(s) && Grows(s, t)
    requires t.intents == s.intents || AllIntents(t)
    requires (t.charges == s.charges && t.refunds == s.refunds) || AllCharges(t)
    requires t.refunds == s.refunds || AllRefunds(t)
    requires t.disputes == s.disputes || AllDisputes(t)
    requires t.transfers == s.transfers || AllTransfers(t)
    requires t.payouts == s.payouts || AllPayouts(t)
    requires t.coupons == s.coupons || AllCoupons(t)
    requires t.codes == s.codes || AllCodes(t)
    requires t.sessions == s.sessions || AllSessions(t)
    ensures Invariant(t)
  {
    Frame(s, t);
  }

  lemma AccountJoins(s: Store, account: string)
    requires Invariant(s)
    ensures var t := s.(accounts := s.accounts + {account}); Invariant(t) && Grows(s, t)
  {
    Assemble(s, s.(accounts := s.accounts + {account}));
  }

  // ---------- refunds per charge ----------

  lemma SameRefunds(s: Store, t: Store, chID: string)
    requires s.refunds == t.refunds
    ensures RefundedSum(s, chID) == RefundedSum(t, chID)
  {
    SumSame(s.refunds.Keys, id => RefundOf(s, chID, id), id => RefundOf(t, chID, id));
  }

  lemma OneMoreRefund(s: Store, t: Store, rfID: string, rf: Refund, chID: string)
    requires rfID !in s.refunds && t.refunds == s.refunds[rfID := rf]
    ensures RefundedSum(t, chID) == RefundedSum(s, chID) + On(rf.chargeID == chID, rf.amount)
  {
    SumInsert(s.refunds.Keys, id => RefundOf(s, chID, id), id => RefundOf(t, chID, id), rfID);
    assert t.refunds.Keys == s.refunds.Keys + {rfID};
  }

  lemma NoRefundsYet(s: Store, chID: string)
    requires chID !in s.charges && AllRefunds(s)
    ensures RefundedSum(s, chID) == 0
  {
    forall id | id in s.refunds ensures RefundOf(s, chID, id) == 0 {
      assert RefundOk(s, id);
    }
    SumZero(s.refunds.Keys, id => RefundOf(s, chID, id));
  }

  // ---------- payment intents ----------

  lemma CreatedIntents(s: Store, p: IntentParams, id: string)
    requires AllIntents(s) && id !in s.intents && id != "" && CreateIntent(s, p, id).Done?
    ensures var t := CreateIntent(s, p, id).store;
            AllIntents(t) && Grows(s, t) && t == s.(intents := t.intents)
  {
    var t := CreateIntent(s, p, id).store;
    forall k | k in t.intents ensures IntentOk(t, k) {
      assert k != id ==> IntentOk(s, k);
    }
  }

  lemma CreateIntentKeeps(s: Store, p: IntentParams, id: string)
    requires Invariant(s) && id !in s.intents && id != "" && CreateIntent(s, p, id).Done?
    ensures Invariant(CreateIntent(s, p, id).store) && Grows(s, CreateIntent(s, p, id).store)
  {
    CreatedIntents(s, p, id);
    Assemble(s, CreateIntent(s, p, id).store);
  }

  lemma MovedIntents(s: Store, id: string, pi: Intent)
    requires AllIntents(s) && id in s.intents && !s.intents[id].status.Succeeded?
    requires pi == s.intents[id].(status := pi.status, paymentMethod := pi.paymentMethod, failed := pi.failed)
    requires !pi.status.Succeeded? && !pi.status.Canceled?
    ensures var t := s.(intents := s.intents[id := pi]); AllIntents(t) && Grows(s, t)
  {
    var t := s.(intents := s.intents[id := pi]);
    assert IntentOk(s, id);
    forall k | k in t.intents ensures IntentOk(t, k) {
      assert IntentOk(s, k);
    }
  }

  /** An intent that has not succeeded and only changes in its state. */
  lemma IntentMoves(s: Store, id: string, pi: Intent)
    requires Invariant(s) && id in s.intents && !s.intents[id].status.Succeeded?
    requires pi == s.intents[id].(status := pi.status, paymentMethod := pi.paymentMethod, failed := pi.failed)
    requires !pi.status.Succeeded? && !pi.status.Canceled?
    ensures var t := s.(intents := s.intents[id := pi]); Invariant(t) && Grows(s, t)
  {
    MovedIntents(s, id, pi);
    Assemble(s, s.(intents := s.intents[id := pi]));
  }

  lemma ConfirmIntentKeeps(s: Store, id: string, pm: string)
    requires Invariant(s) && ConfirmIntent(s, id, pm).Done?
    ensures Invariant(ConfirmIntent(s, id, pm).store) && Grows(s, ConfirmIntent(s, id, pm).store)
  {
    IntentMoves(s, id, ConfirmIntent(s, id, pm).store.intents[id]);
  }

  ghost predicate FreshCharge(s: Store, chID: string, trID: string) {
    chID !in s.charges && chID != "" && trID !in s.transfers && trID != ""
  }

  /** The conditions under which an intent can be settled. */
  ghost predicate Settles(s: Store, id: string, pi: Intent, captured: int, share: int, chID: string, trID: string) {
    && id in s.intents && !s.intents[id].status.Succeeded? && FreshCharge(s, chID, trID)
    && pi == s.intents[id].(paymentMethod := pi.paymentMethod, failed := pi.failed, received := pi.received)
    && 0 < captured <= pi.amount && share >= 0
  }

  lemma SettleGrows(s: Store, id: string, pi: Intent, captured: int, share: int, chID: string, trID: string, now: int)
    requires AllIntents(s) && Settles(s, id, pi, captured, share, chID, trID)
    ensures Grows(s, Settle(s, id, pi, captured, share, chID, trID, now))
  {
    assert IntentOk(s, id);
  }

  lemma SettleIntents(s: Store, id: string, pi: Intent, captured: int, share: int, chID: string, trID: string, now: int)
    requires AllIntents(s) && Settles(s, id, pi, captured, share, chID, trID)
    ensures AllIntents(Settle(s, id, pi, captured, share, chID, trID, now))
  {
    var t := Settle(s, id, pi, captured, share, chID, trID, now);
    forall k | k in t.intents ensures IntentOk(t, k) {
      assert IntentOk(s, k);
    }
  }

  lemma SettleCharges(s: Store, id: string, pi: Intent, captured: int, share: int, chID: string, trID: string, now: int)
    requires AllIntents(s) && AllCharges(s) && AllRefunds(s) && Settles(s, id, pi, captured, share, chID, trID)
    ensures AllCharges(Settle(s, id, pi, captured, share, chID, trID, now))
  {
    var t := Settle(s, id, pi, captured, share, chID, trID, now);
    assert IntentOk(s, id);
    NoRefundsYet(s, chID);
    forall k | k in t.charges ensures ChargeOk(t, k) {
      assert k != chID ==> ChargeOk(s, k);
      SameRefunds(s, t, k);
    }
  }

  lemma SettleTransfersOk(s: Store, id: string, pi: Intent, captured: int, share: int, chID: string, trID: string,
                          now: int)
    requires AllTransfers(s) && Settles(s, id, pi, captured, share, chID, trID)
    ensures AllTransfers(Settle(s, id, pi, captured, share, chID, trID, now))
  {
    var t := Settle(s, id, pi, captured, share, chID, trID, now);
    forall k | k in t.transfers ensures TransferOk(t, k) {
      assert k in s.transfers ==> TransferOk(s, k);
    }
  }

  lemma SettleKeeps(s: Store, id: string, pi: Intent, captured: int, share: int, chID: string, trID: string, now: int)
    requires Invariant(s) && Settles(s, id, pi, captured, share, chID, trID)
    ensures var t := Settle(s, id, pi, captured, share, chID, trID, now); Invariant(t) && Grows(s, t)
  {
    SettleGrows(s, id, pi, captured, share, chID, trID, now);
    SettleIntents(s, id, pi, captured, share, chID, trID, now);
    SettleCharges(s, id, pi, captured, share, chID, trID, now);
    SettleTransfersOk(s, id, pi, captured, share, chID, trID, now);
    Assemble(s, Settle(s, id, pi, captured, share, chID, trID, now));
  }

  /** What the destination is due: the amount asked for, or else what the fee leaves. */
  function ShareDue(pi: Intent, captured: int): int {
    if pi.destinationAmount != 0 then pi.destinationAmount
    else if captured > pi.appFee then captured - pi.appFee
    else 0
  }

  /** What a capture settles. */
  lemma CaptureSettles(s: Store, id: string, toCapture: Parsed, chID: string, trID: string, now: int)
    returns (pi: Intent, captured: int, share: int)
    requires AllIntents(s) && FreshCharge(s, chID, trID) && CaptureIntent(s, id, toCapture, chID, trID, now).Done?
    ensures Settles(s, id, pi, captured, share, chID, trID)
    ensures CaptureIntent(s, id, toCapture, chID, trID, now) ==
            Done(Settle(s, id, pi, captured, share, chID, trID, now))
    ensures pi.received == captured && share == ShareDue(pi, captured)
  {
    assert IntentOk(s, id);
    var p := s.intents[id];
    captured := if toCapture.Number? && toCapture.n > 0 then toCapture.n else p.amount;
    var rest := if captured > p.appFee then captured - p.appFee else 0;
    share := if p.destinationAmount != 0 then p.destinationAmount else rest;
    pi := p.(received := captured);
  }

  lemma SuccessSettles(s: Store, id: string, chID: string, trID: string, now: int)
    returns (pi: Intent, captured: int, share: int)
    requires AllIntents(s) && FreshCharge(s, chID, trID) && CompleteIntent(s, id, "succeed", chID, trID, now).Done?
    ensures Settles(s, id, pi, captured, share, chID, trID)
    ensures CompleteIntent(s, id, "succeed", chID, trID, now) ==
            Done(Settle(s, id, pi, captured, share, chID, trID, now))
    ensures captured == pi.amount && share == ShareDue(pi, captured)
  {
    assert IntentOk(s, id);
    var p := s.intents[id];
    pi := p.(paymentMethod := if p.paymentMethod == "" then CARD else p.paymentMethod, failed := false);
    captured := p.amount;
    share := if p.destinationAmount != 0 then p.destinationAmount else p.amount - p.appFee;
  }

  lemma CaptureIntentKeeps(s: Store, id: string, toCapture: Parsed, chID: string, trID: string, now: int)
    requires Invariant(s) && FreshCharge(s, chID, trID) && CaptureIntent(s, id, toCapture, chID, trID, now).Done?
    ensures var t := CaptureIntent(s, id, toCapture, chID, trID, now).store; Invariant(t) && Grows(s, t)
  {
    var pi, captured, share := CaptureSettles(s, id, toCapture, chID, trID, now);
    SettleKeeps(s, id, pi, captured, share, chID, trID, now);
  }

  lemma CompleteIntentKeeps(s: Store, id: string, outcome: string, chID: string, trID: string, now: int)
    requires Invariant(s) && FreshCharge(s, chID, trID) && CompleteIntent(s, id, outcome, chID, trID, now).Done?
    ensures var t := CompleteIntent(s, id, outcome, chID, trID, now).store; Invariant(t) && Grows(s, t)
  {
    if outcome == "succeed" {
      var pi, captured, share := SuccessSettles(s, id, chID, trID, now);
      SettleKeeps(s, id, pi, captured, share, chID, trID, now);
    } else {
      assert IntentOk(s, id);
      IntentMoves(s, id, s.intents[id].(status := RequiresPaymentMethod, failed := true));
    }
  }

  // ---------- refunds, transfers ----------

  lemma ReverseSum(tr: Transfer, amount: int, rvID: string, now: int)
    ensures ReversedSum(Reverse(tr, amount, rvID, now).reversals) == ReversedSum(tr.reversals) + amount
  {
    var rs := Reverse(tr, amount, rvID, now).reversals;
    assert rs[..|rs| - 1] == tr.reversals;
  }

  lemma RefundCharges(s: Store, p: RefundParams, rfID: string, rvID: string, now: int)
    requires AllCharges(s) && rfID !in s.refunds && ApplyRefund(s, p, rfID, rvID, now).Done?
    ensures var t := ApplyRefund(s, p, rfID, rvID, now).store; AllCharges(t)
  {
    var t := ApplyRefund(s, p, rfID, rvID, now).store;
    forall k | k in t.charges ensures ChargeOk(t, k) {
      assert ChargeOk(s, k);
      OneMoreRefund(s, t, rfID, t.refunds[rfID], k);
    }
  }

  lemma RefundTransfers(s: Store, p: RefundParams, rfID: string, rvID: string, now: int)
    requires AllTransfers(s) && rfID !in s.refunds && ApplyRefund(s, p, rfID, rvID, now).Done?
    ensures var t := ApplyRefund(s, p, rfID, rvID, now).store; AllTransfers(t)
  {
    var t := ApplyRefund(s, p, rfID, rvID, now).store;
    var ch := s.charges[RefundedCharge(s, p.chargeID, p.intentID)];
    var back := ReversedByRefund(s, ch, p);
    if back > 0 {
      ReverseSum(s.transfers[ch.transferID], back, rvID, now);
    }
    forall k | k in t.transfers ensures TransferOk(t, k) {
      assert TransferOk(s, k);
    }
  }

  lemma RefundGrows(s: Store, p: RefundParams, rfID: string, rvID: string, now: int)
    requires ApplyRefund(s, p, rfID, rvID, now).Done?
    ensures var t := ApplyRefund(s, p, rfID, rvID, now).store;
            Grows(s, t) && t == s.(charges := t.charges, transfers := t.transfers, refunds := t.refunds)
  {
  }

  lemma RefundRefunds(s: Store, p: RefundParams, rfID: string, rvID: string, now: int)
    requires AllRefunds(s) && AllCharges(s) && rfID !in s.refunds && ApplyRefund(s, p, rfID, rvID, now).Done?
    ensures AllRefunds(ApplyRefund(s, p, rfID, rvID, now).store)
  {
    var t := ApplyRefund(s, p, rfID, rvID, now).store;
    assert ChargeOk(s, RefundedCharge(s, p.chargeID, p.intentID));
    forall k | k in t.refunds ensures RefundOk(t, k) {
      assert k in s.refunds ==> RefundOk(s, k);
    }
  }

  lemma ApplyRefundKeeps(s: Store, p: RefundParams, rfID: string, rvID: string, now: int)
    requires Invariant(s) && rfID !in s.refunds && ApplyRefund(s, p, rfID, rvID, now).Done?
    ensures var t := ApplyRefund(s, p, rfID, rvID, now).store; Invariant(t) && Grows(s, t)
  {
    RefundGrows(s, p, rfID, rvID, now);
    RefundCharges(s, p, rfID, rvID, now);
    RefundTransfers(s, p, rfID, rvID, now);
    RefundRefunds(s, p, rfID, rvID, now);
    Assemble(s, ApplyRefund(s, p, rfID, rvID, now).store);
  }

  lemma MovedTransfers(s: Store, trID: string, tr: Transfer)
    requires AllTransfers(s) && trID != "" && (tr.source != "" ==> tr.source in s.charges)
    requires tr.destination != "" && 0 <= tr.reversed <= tr.amount && tr.reversed == ReversedSum(tr.reversals)
    requires trID in s.transfers ==> TransferGrows(s.transfers[trID], tr)
    ensures var t := s.(transfers := s.transfers[trID := tr]); AllTransfers(t) && Grows(s, t)
  {
    var t := s.(transfers := s.transfers[trID := tr]);
    forall k | k in t.transfers ensures TransferOk(t, k) {
      assert k != trID ==> TransferOk(s, k);
    }
  }

  /** Adding or reversing a transfer touches nothing but transfers. */
  lemma TransfersMove(s: Store, trID: string, tr: Transfer)
    requires Invariant(s) && trID != "" && (tr.source != "" ==> tr.source in s.charges)
    requires tr.destination != "" && 0 <= tr.reversed <= tr.amount && tr.reversed == ReversedSum(tr.reversals)
    requires trID in s.transfers ==> TransferGrows(s.transfers[trID], tr)
    ensures var t := s.(transfers := s.transfers[trID := tr]); Invariant(t) && Grows(s, t)
  {
    MovedTransfers(s, trID, tr);
    Assemble(s, s.(transfers := s.transfers[trID := tr]));
  }

  lemma CreateTransferKeeps(s: Store, p: TransferParams, capable: bool, trID: string, now: int)
    requires Invariant(s) && trID !in s.transfers && trID != "" && CreateTransfer(s, p, capable, trID, now).Done?
    ensures var t := CreateTransfer(s, p, capable, trID, now).store; Invariant(t) && Grows(s, t)
  {
    TransfersMove(s, trID, Transfer(p.amount.n, p.currency, p.destination, p.source, now, 0, []));
  }

  lemma ReversalFits(s: Store, trID: string, asked: Parsed, rvID: string, now: int) returns (tr: Transfer)
    requires AllTransfers(s) && ReverseTransfer(s, trID, asked, rvID, now).Done?
    ensures ReverseTransfer(s, trID, asked, rvID, now) == Done(s.(transfers := s.transfers[trID := tr]))
    ensures trID != "" && (tr.source != "" ==> tr.source in s.charges)
    ensures TransferGrows(s.transfers[trID], tr) && tr.destination != "" && tr.currency == s.transfers[trID].currency
    ensures 0 <= tr.reversed <= tr.amount && tr.reversed == ReversedSum(tr.reversals)
  {
    assert TransferOk(s, trID);
    var was := s.transfers[trID];
    var amount := if asked.n == 0 then was.amount - was.reversed else asked.n;
    ReverseSum(was, amount, rvID, now);
    tr := Reverse(was, amount, rvID, now);
  }

  lemma ReverseTransferKeeps(s: Store, trID: string, asked: Parsed, rvID: string, now: int)
    requires Invariant(s) && ReverseTransfer(s, trID, asked, rvID, now).Done?
    ensures var t := ReverseTransfer(s, trID, asked, rvID, now).store; Invariant(t) && Grows(s, t)
  {
    var tr := ReversalFits(s, trID, asked, rvID, now);
    TransfersMove(s, trID, tr);
  }

  // ---------- disputes, payouts ----------

  lemma OpenDisputeCharges(s: Store, intentID: string, dpID: string, now: int)
    requires AllCharges(s) && dpID !in s.disputes && dpID != "" && OpenDispute(s, intentID, dpID, now).Done?
    ensures AllCharges(OpenDispute(s, intentID, dpID, now).store)
  {
    var t := OpenDispute(s, intentID, dpID, now).store;
    forall k | k in t.charges ensures ChargeOk(t, k) {
      assert ChargeOk(s, k);
      SameRefunds(s, t, k);
    }
  }

  lemma OpenDisputeDisputes(s: Store, intentID: string, dpID: string, now: int)
    requires AllDisputes(s) && dpID !in s.disputes && dpID != "" && OpenDispute(s, intentID, dpID, now).Done?
    ensures AllDisputes(OpenDispute(s, intentID, dpID, now).store)
  {
    var t := OpenDispute(s, intentID, dpID, now).store;
    forall k | k in t.disputes ensures DisputeOk(t, k) {
      assert k != dpID ==> DisputeOk(s, k);
    }
  }

  lemma OpenDisputeGrows(s: Store, intentID: string, dpID: string, now: int)
    requires dpID !in s.disputes && OpenDispute(s, intentID, dpID, now).Done?
    ensures var t := OpenDispute(s, intentID, dpID, now).store;
            Grows(s, t) && t == s.(disputes := t.disputes, charges := t.charges)
  {
  }

  lemma OpenDisputeKeeps(s: Store, intentID: string, dpID: string, now: int)
    requires Invariant(s) && dpID !in s.disputes && dpID != "" && OpenDispute(s, intentID, dpID, now).Done?
    ensures var t := OpenDispute(s, intentID, dpID, now).store; Invariant(t) && Grows(s, t)
  {
    OpenDisputeGrows(s, intentID, dpID, now);
    OpenDisputeCharges(s, intentID, dpID, now);
    OpenDisputeDisputes(s, intentID, dpID, now);
    Assemble(s, OpenDispute(s, intentID, dpID, now).store);
  }

  lemma CloseDisputeGrows(s: Store, id: string, outcome: string, now: int)
    requires AllDisputes(s) && CloseDispute(s, id, outcome, now).Done?
    ensures var t := CloseDispute(s, id, outcome, now).store;
            Grows(s, t) && AllDisputes(t) && t == s.(disputes := t.disputes)
  {
    var t := CloseDispute(s, id, outcome, now).store;
    forall k | k in t.disputes ensures DisputeOk(t, k) {
      assert DisputeOk(s, k);
    }
  }

  lemma CloseDisputeKeeps(s: Store, id: string, outcome: string, now: int)
    requires Invariant(s) && CloseDispute(s, id, outcome, now).Done?
    ensures var t := CloseDispute(s, id, outcome, now).store; Invariant(t) && Grows(s, t)
  {
    CloseDisputeGrows(s, id, outcome, now);
    Assemble(s, CloseDispute(s, id, outcome, now).store);
  }

  lemma PayoutsMove(s: Store, poID: string, po: Payout)
    requires Invariant(s) && po.amount > 0
    ensures var t := s.(payouts := s.payouts[poID := po]); Invariant(t) && Grows(s, t)
  {
    var t := s.(payouts := s.payouts[poID := po]);
    Frame(s, t);
    forall k | k in t.payouts ensures PayoutOk(t, k) {
      assert k != poID ==> PayoutOk(s, k);
    }
  }

  // ---------- coupons, codes, sessions ----------

  lemma CreatedCoupons(s: Store, p: CouponParams, id: string)
    requires AllCoupons(s) && CreateCoupon(s, p, id).Done?
    ensures var t := CreateCoupon(s, p, id).store; AllCoupons(t) && t == s.(coupons := t.coupons)
  {
    var t := CreateCoupon(s, p, id).store;
    forall k | k in t.coupons ensures CouponOk(t, k) {
      assert k != id ==> CouponOk(s, k);
    }
  }

  lemma CreateCouponKeeps(s: Store, p: CouponParams, id: string)
    requires Invariant(s) && CreateCoupon(s, p, id).Done?
    ensures var t := CreateCoupon(s, p, id).store; Invariant(t) && Grows(s, t)
  {
    CreatedCoupons(s, p, id);
    Assemble(s, CreateCoupon(s, p, id).store);
  }

  lemma DeleteCouponKeeps(s: Store, id: string)
    requires Invariant(s) && DeleteCoupon(s, id).Done?
    ensures var t := DeleteCoupon(s, id).store; Invariant(t) && Grows(s, t)
  {
    var t := DeleteCoupon(s, id).store;
    Frame(s, t);
    forall k | k in t.coupons ensures CouponOk(t, k) {
      assert CouponOk(s, k);
    }
  }

  lemma CodesMove(s: Store, id: string, pc: PromotionCode)
    requires Invariant(s) && id != "" && 0 <= pc.timesRedeemed &&
             (pc.maxRedemptions > 0 ==> pc.timesRedeemed <= pc.maxRedemptions)
    ensures var t := s.(codes := s.codes[id := pc]); Invariant(t) && Grows(s, t)
  {
    var t := s.(codes := s.codes[id := pc]);
    Frame(s, t);
    forall k | k in t.codes ensures CodeOk(t, k) {
      assert k != id ==> CodeOk(s, k);
    }
  }

  lemma CreateCodeKeeps(s: Store, p: CodeParams, id: string)
    requires Invariant(s) && id != "" && CreateCode(s, p, id).Done?
    ensures var t := CreateCode(s, p, id).store; Invariant(t) && Grows(s, t)
  {
    CodesMove(s, id, CreateCode(s, p, id).store.codes[id]);
  }

  lemma SetCodeActiveKeeps(s: Store, id: string, active: bool)
    requires Invariant(s) && SetCodeActive(s, id, active).Done?
    ensures var t := SetCodeActive(s, id, active).store; Invariant(t) && Grows(s, t)
  {
    assert CodeOk(s, id);
    CodesMove(s, id, s.codes[id].(active := active));
  }

  /** A discount that applies lies within the subtotal. */
  lemma DiscountApplies(s: Store, sess: Session, couponID: string, codeID: string, now: int)
    requires AllCoupons(s) && sess.amountTotal >= 0
    ensures var r := ApplyDiscount(s, sess, couponID, codeID, now);
            r.Some? ==>
              && r.value == sess.(discounts := r.value.discounts, amountDiscount := r.value.amountDiscount)
              && |r.value.discounts| == 1 && 0 <= r.value.amountDiscount <= sess.amountTotal
  {
    var r := ApplyDiscount(s, sess, couponID, codeID, now);
    if r.Some? {
      var coupon := r.value.discounts[0].coupon;
      assert CouponOk(s, coupon);
      DiscountWithinSubtotal(s.coupons[coupon], sess.amountTotal, sess.currency);
    }
  }

  lemma SessionsMove(s: Store, id: string, sess: Session)
    requires Invariant(s) && SessionOk(s.(sessions := s.sessions[id := sess]), id)
    ensures var t := s.(sessions := s.sessions[id := sess]); Invariant(t) && Grows(s, t)
  {
    var t := s.(sessions := s.sessions[id := sess]);
    Frame(s, t);
    forall k | k in t.sessions ensures SessionOk(t, k) {
      assert k != id ==> SessionOk(s, k);
    }
  }

  /** The session a creation adds. */
  lemma CreatedSession(s: Store, p: SessionParams, id: string, now: int) returns (sess: Session)
    requires AllCoupons(s) && CreateSession(s, p, id, now).Done?
    ensures CreateSession(s, p, id, now) == Done(s.(sessions := s.sessions[id := sess]))
    ensures sess.status.Open? && sess.payment.Unpaid? && sess.intentID == "" && sess.amountTotal == Subtotal(p.items)
    ensures 0 <= sess.amountDiscount <= sess.amountTotal && |sess.discounts| <= 1
  {
    SubtotalNonNegative(p.items);
    sess := Session(Open, Unpaid, p.items[0].currency, Subtotal(p.items), 0, [], p.allowCodes, "");
    if p.discounts != [] {
      DiscountApplies(s, sess, p.discounts[0].coupon, p.discounts[0].code, now);
      sess := ApplyDiscount(s, sess, p.discounts[0].coupon, p.discounts[0].code, now).value;
    }
  }

  lemma CreateSessionKeeps(s: Store, p: SessionParams, id: string, now: int)
    requires Invariant(s) && CreateSession(s, p, id, now).Done?
    ensures var t := CreateSession(s, p, id, now).store; Invariant(t) && Grows(s, t)
  {
    var sess := CreatedSession(s, p, id, now);
    SessionsMove(s, id, sess);
  }

  lemma ExpireSessionKeeps(s: Store, id: string)
    requires Invariant(s) && ExpireSession(s, id).Done?
    ensures var t := ExpireSession(s, id).store; Invariant(t) && Grows(s, t)
  {
    assert SessionOk(s, id);
    SessionsMove(s, id, s.sessions[id].(status := Expired, payment := Unpaid));
  }

  /** Counting one redemption keeps every counter within its maximum. */
  lemma RedeemKeeps(s: Store, ds: seq<Discount>, now: int)
    requires AllCoupons(s) && AllCodes(s) && |ds| <= 1 && Redeem(s.coupons, s.codes, ds, now).Some?
    ensures var r := Redeem(s.coupons, s.codes, ds, now).value;
            AllCoupons(s.(coupons := r.0, codes := r.1)) && AllCodes(s.(coupons := r.0, codes := r.1))
  {
    var r := Redeem(s.coupons, s.codes, ds, now).value;
    var t := s.(coupons := r.0, codes := r.1);
    if ds != [] {
      assert ds[1..] == [];
      forall k | k in t.coupons ensures CouponOk(t, k) {
        assert CouponOk(s, k);
      }
      forall k | k in t.codes ensures CodeOk(t, k) {
        assert CodeOk(s, k);
      }
    } else {
      LonersFrame(s, t);
    }
  }

  lemma PaidForKeeps(s: Store, id: string, sess: Session, piID: string, chID: string, now: int)
    requires Invariant(s) && id in s.sessions && sess.status.Open? && sess.Total() > 0
    requires 0 <= sess.amountDiscount <= sess.amountTotal && |sess.discounts| <= 1
    requires piID !in s.intents && piID != "" && chID !in s.charges && chID != ""
    ensures var t := PaidStore(s, id, sess, piID, chID, now); Invariant(t) && Grows(s, t)
  {
    var t := PaidStore(s, id, sess, piID, chID, now);
    var u := s.(intents := t.intents, charges := t.charges);
    PaidIntent(s, u, sess.Total(), sess.currency, piID, chID, now);
    SessionsMove(u, id, t.sessions[id]);
    assert u.(sessions := u.sessions[id := t.sessions[id]]) == t;
    GrowsTwice(s, u, t);
  }

  /** The intent and the charge of a paid session. */
  lemma PaidKeeps(s: Store, id: string, sess: Session, piID: string, chID: string, now: int)
    requires Invariant(s) && id in s.sessions
    requires sess.status.Open? && sess.payment.Unpaid? && sess.intentID == ""
    requires 0 <= sess.amountDiscount <= sess.amountTotal && |sess.discounts| <= 1
    requires piID !in s.intents && piID != "" && chID !in s.charges && chID != ""
    ensures var t := PaidStore(s, id, sess, piID, chID, now); Invariant(t) && Grows(s, t)
  {
    if sess.Total() == 0 {
      SessionsMove(s, id, sess.(status := Complete, payment := NoPaymentRequired, intentID := ""));
    } else {
      PaidForKeeps(s, id, sess, piID, chID, now);
    }
  }

  /** A succeeded intent and its charge, added at once. */
  predicate PaidAdded(s: Store, u: Store, amount: int, currency: string, piID: string, chID: string, now: int) {
    && piID !in s.intents && piID != "" && chID !in s.charges && chID != "" && amount > 0
    && u == s.(
         intents := s.intents[piID := Intent(amount, currency, Succeeded, false, 0, "", 0, "", CARD, chID,
                                             "", false, 0)],
         charges := s.charges[chID := Charge(amount, amount, currency, piID, CARD, now, 0, false, "", "")])
  }

  lemma PaidIntents(s: Store, u: Store, amount: int, currency: string, piID: string, chID: string, now: int)
    requires AllIntents(s) && PaidAdded(s, u, amount, currency, piID, chID, now)
    ensures AllIntents(u) && Grows(s, u)
  {
    forall k | k in u.intents ensures IntentOk(u, k) {
      assert k != piID ==> IntentOk(s, k);
    }
  }

  lemma PaidCharges(s: Store, u: Store, amount: int, currency: string, piID: string, chID: string, now: int)
    requires AllCharges(s) && AllRefunds(s) && PaidAdded(s, u, amount, currency, piID, chID, now)
    ensures AllCharges(u)
  {
    NoRefundsYet(s, chID);
    forall k | k in u.charges ensures ChargeOk(u, k) {
      assert k != chID ==> ChargeOk(s, k);
      SameRefunds(s, u, k);
    }
  }

  lemma PaidIntent(s: Store, u: Store, amount: int, currency: string, piID: string, chID: string, now: int)
    requires Invariant(s) && PaidAdded(s, u, amount, currency, piID, chID, now)
    ensures Invariant(u) && Grows(s, u)
  {
    PaidIntents(s, u, amount, currency, piID, chID, now);
    PaidCharges(s, u, amount, currency, piID, chID, now);
    Assemble(s, u);
  }

  /** A paid completion, step by step. */
  lemma PaidSteps(s: Store, id: string, typed: string, found: string, piID: string, chID: string,
                  typedAt: int, now: int)
    returns (sess: Session, u: Store)
    requires AllCoupons(s) && AllCodes(s) && AllSessions(s)
    requires CompleteCheckout(s, id, "paid", typed, found, piID, chID, typedAt, now).Done?
    ensures CompleteCheckout(s, id, "paid", typed, found, piID, chID, typedAt, now).store ==
            PaidStore(u, id, sess, piID, chID, now)
    ensures u == s.(coupons := u.coupons, codes := u.codes) && AllCoupons(u) && AllCodes(u)
    ensures sess.status.Open? && sess.payment.Unpaid? && sess.intentID == ""
    ensures 0 <= sess.amountDiscount <= sess.amountTotal && |sess.discounts| <= 1
    ensures id in s.sessions && sess.amountTotal == s.sessions[id].amountTotal
  {
    assert SessionOk(s, id);
    DiscountApplies(s, s.sessions[id], "", found, typedAt);
    sess := WithTypedCode(s, s.sessions[id], typed, found, typedAt).value;
    var r := Redeem(s.coupons, s.codes, sess.discounts, now).value;
    u := s.(coupons := r.0, codes := r.1);
    RedeemKeeps(s, sess.discounts, now);
  }

  lemma GrowsTwice(s: Store, t: Store, u: Store)
    requires Grows(s, t) && Grows(t, u)
    ensures Grows(s, u)
  {
  }

  lemma RedeemedPaidKeeps(s: Store, u: Store, id: string, sess: Session, piID: string, chID: string, now: int)
    requires Invariant(s) && u == s.(coupons := u.coupons, codes := u.codes) && AllCoupons(u) && AllCodes(u)
    requires id in s.sessions && sess.status.Open? && sess.payment.Unpaid? && sess.intentID == ""
    requires 0 <= sess.amountDiscount <= sess.amountTotal && |sess.discounts| <= 1
    requires piID !in s.intents && piID != "" && chID !in s.charges && chID != ""
    ensures var t := PaidStore(u, id, sess, piID, chID, now); Invariant(t) && Grows(s, t)
  {
    Assemble(s, u);
    PaidKeeps(u, id, sess, piID, chID, now);
    GrowsTwice(s, u, PaidStore(u, id, sess, piID, chID, now));
  }

  lemma PaidCheckoutKeeps(s: Store, id: string, typed: string, found: string, piID: string, chID: string,
                          typedAt: int, now: int)
    requires Invariant(s) && piID !in s.intents && piID != "" && chID !in s.charges && chID != ""
    requires CompleteCheckout(s, id, "paid", typed, found, piID, chID, typedAt, now).Done?
    ensures var t := CompleteCheckout(s, id, "paid", typed, found, piID, chID, typedAt, now).store;
            Invariant(t) && Grows(s, t)
  {
    var sess, u := PaidSteps(s, id, typed, found, piID, chID, typedAt, now);
    RedeemedPaidKeeps(s, u, id, sess, piID, chID, now);
  }

  lemma CompleteCheckoutKeeps(s: Store, id: string, outcome: string, typed: string, found: string,
                              piID: string, chID: string, typedAt: int, now: int)
    requires Invariant(s) && piID !in s.intents && piID != "" && chID !in s.charges && chID != ""
    requires CompleteCheckout(s, id, outcome, typed, found, piID, chID, typedAt, now).Done?
    ensures var t := CompleteCheckout(s, id, outcome, typed, found, piID, chID, typedAt, now).store;
            Invariant(t) && Grows(s, t)
  {
    if outcome == "cancelled" {
      assert SessionOk(s, id);
      SessionsMove(s, id, s.sessions[id].(status := Expired, payment := Unpaid));
    } else if outcome == "paid" {
      PaidCheckoutKeeps(s, id, typed, found, piID, chID, typedAt, now);
    }
  }
}
