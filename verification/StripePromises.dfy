/** What a caller can rely on once the mock has accepted a request, whatever else it stores. */
module StripePromises {
  import opened StripeStore
  import opened MapSums
  import opened Ledger
  import opened Balances
  import opened StripeOps
  import opened Checkout
  import opened StripeInvariant
  import opened StripeMoney
  import opened StripeLaws

  // ---------- payment intents ----------

  /** A new intent, which has no charge yet; nothing else changes. */
  ghost predicate IntentCreated(s: Store, t: Store, id: string) {
    && id in t.intents && t == s.(intents := s.intents[id := t.intents[id]])
    && var pi := t.intents[id];
       && !pi.status.Succeeded? && pi.chargeID == "" && pi.amount > 0 && 0 <= pi.appFee <= pi.amount
       && pi.destinationAmount >= 0 && (pi.destination == "" || pi.destination in s.accounts)
  }

  lemma CreateIntentPromise(s: Store, p: IntentParams, id: string)
    requires Invariant(s) && id !in s.intents && id != "" && CreateIntent(s, p, id).Done?
    ensures var t := CreateIntent(s, p, id).store; Invariant(t) && IntentCreated(s, t, id)
  {
    CreateIntentKeeps(s, p, id);
  }

  /** The intent has a payment method and waits for its capture or its outcome; no money moves. */
  ghost predicate IntentConfirmed(s: Store, t: Store, id: string) {
    && id in s.intents && id in t.intents && t == s.(intents := s.intents[id := t.intents[id]])
    && t.intents[id].paymentMethod != ""
    && (t.intents[id].status == if s.intents[id].manualCapture then RequiresCapture else Processing)
    && t.intents[id].amount == s.intents[id].amount
  }

  lemma ConfirmIntentPromise(s: Store, id: string, pm: string)
    requires Invariant(s) && ConfirmIntent(s, id, pm).Done?
    ensures var t := ConfirmIntent(s, id, pm).store; Invariant(t) && IntentConfirmed(s, t, id)
  {
    ConfirmIntentKeeps(s, id, pm);
  }

  /** The intent has succeeded with one new charge, of which a positive amount up to the intent's is
      captured, and with one new transfer exactly if it has a destination: of the amount it asks for,
      or else of what the fee leaves of the capture, and never of less than nothing. */
  ghost predicate Charged(s: Store, t: Store, id: string, chID: string, trID: string) {
    && id in s.intents && id in t.intents && t.intents[id].status.Succeeded? && t.intents[id].chargeID == chID
    && chID in t.charges && t.charges == s.charges[chID := t.charges[chID]] && chID !in s.charges
    && var pi, ch := s.intents[id], t.charges[chID];
       && ch.intentID == id && 0 < ch.captured <= ch.amount == pi.amount && ch.currency == pi.currency &&
          ch.refunded == 0
       && if pi.destination == "" then t.transfers == s.transfers
          else
            && trID in t.transfers && t.transfers == s.transfers[trID := t.transfers[trID]] && trID !in s.transfers
            && TransferOf(pi, ch, chID, t.transfers[trID])
  }

  predicate TransferOf(pi: Intent, ch: Charge, chID: string, tr: Transfer) {
    && tr.destination == pi.destination && tr.source == chID && tr.currency == pi.currency
    && tr.amount == ShareDue(pi, ch.captured) >= 0 && tr.reversed == 0
  }

  lemma SettlePromise(s: Store, id: string, pi: Intent, captured: int, share: int, chID: string, trID: string, now: int)
    requires AllIntents(s) && Settles(s, id, pi, captured, share, chID, trID)
    requires share == ShareDue(pi, captured)
    ensures Charged(s, Settle(s, id, pi, captured, share, chID, trID, now), id, chID, trID)
  {
  }

  lemma CaptureIntentPromise(s: Store, id: string, n: Parsed, chID: string, trID: string, now: int)
    requires Invariant(s) && FreshCharge(s, chID, trID) && CaptureIntent(s, id, n, chID, trID, now).Done?
    ensures var t := CaptureIntent(s, id, n, chID, trID, now).store; Invariant(t) && Charged(s, t, id, chID, trID)
  {
    var pi, captured, share := CaptureSettles(s, id, n, chID, trID, now);
    CaptureIntentKeeps(s, id, n, chID, trID, now);
    SettlePromise(s, id, pi, captured, share, chID, trID, now);
  }

  /** A failed payment leaves the intent open to another attempt, and moves no money. */
  ghost predicate PaymentFailed(s: Store, t: Store, id: string) {
    && id in s.intents &&
       t == s.(intents := s.intents[id := s.intents[id].(status := RequiresPaymentMethod, failed := true)])
  }

  lemma CompleteIntentPromise(s: Store, id: string, o: string, chID: string, trID: string, now: int)
    requires Invariant(s) && FreshCharge(s, chID, trID) && CompleteIntent(s, id, o, chID, trID, now).Done?
    ensures var t := CompleteIntent(s, id, o, chID, trID, now).store;
            Invariant(t) && if o == "succeed" then Charged(s, t, id, chID, trID) else PaymentFailed(s, t, id)
  {
    CompleteIntentKeeps(s, id, o, chID, trID, now);
    if o == "succeed" {
      var pi, captured, share := SuccessSettles(s, id, chID, trID, now);
      SettlePromise(s, id, pi, captured, share, chID, trID, now);
    }
  }

  // ---------- refunds and transfers ----------

  /** One new refund of a positive amount; all refunds of the charge together stay within what was
      captured, and no other charge changes. */
  ghost predicate ChargeRefunded(s: Store, t: Store, rfID: string) {
    && rfID in t.refunds && t.refunds == s.refunds[rfID := t.refunds[rfID]]
    && var rf := t.refunds[rfID];
       && rf.amount > 0 && rf.chargeID in s.charges && rf.chargeID in t.charges
       && t.charges == s.charges[rf.chargeID := t.charges[rf.chargeID]]
       && t.charges[rf.chargeID].refunded == s.charges[rf.chargeID].refunded + rf.amount == RefundedSum(t, rf.chargeID)
       && t.charges[rf.chargeID].refunded <= s.charges[rf.chargeID].captured
       && t.transfers.Keys == s.transfers.Keys && t.intents == s.intents && t.disputes == s.disputes &&
          t.payouts == s.payouts
  }

  lemma RefundShape(s: Store, p: RefundParams, rfID: string, rvID: string, now: int)
    requires AllCharges(s) && rfID !in s.refunds && ApplyRefund(s, p, rfID, rvID, now).Done?
    ensures var t := ApplyRefund(s, p, rfID, rvID, now).store;
            && rfID in t.refunds && t.refunds == s.refunds[rfID := t.refunds[rfID]]
            && t.refunds[rfID].chargeID in s.charges && t.refunds[rfID].amount > 0
            && t.charges.Keys == s.charges.Keys && t.transfers.Keys == s.transfers.Keys
            && t.charges == s.charges[t.refunds[rfID].chargeID := t.charges[t.refunds[rfID].chargeID]]
            && t.charges[t.refunds[rfID].chargeID].refunded ==
               s.charges[t.refunds[rfID].chargeID].refunded + t.refunds[rfID].amount
            && t.charges[t.refunds[rfID].chargeID].captured == s.charges[t.refunds[rfID].chargeID].captured
  {
    assert ChargeOk(s, RefundedCharge(s, p.chargeID, p.intentID));
  }

  lemma RefundPromise(s: Store, p: RefundParams, rfID: string, rvID: string, now: int)
    requires Invariant(s) && rfID !in s.refunds && ApplyRefund(s, p, rfID, rvID, now).Done?
    ensures var t := ApplyRefund(s, p, rfID, rvID, now).store; Invariant(t) && ChargeRefunded(s, t, rfID)
  {
    ApplyRefundKeeps(s, p, rfID, rvID, now);
    RefundShape(s, p, rfID, rvID, now);
    RefundGrows(s, p, rfID, rvID, now);
    var t := ApplyRefund(s, p, rfID, rvID, now).store;
    assert ChargeOk(t, t.refunds[rfID].chargeID);
  }

  /** One new transfer to an account that exists. It leaves neither the charge it draws on nor, if it
      draws on none, the platform below zero. */
  ghost predicate TransferMade(s: Store, t: Store, trID: string) {
    && trID in t.transfers && t == s.(transfers := s.transfers[trID := t.transfers[trID]])
    && var tr := t.transfers[trID];
       && tr.amount > 0 && tr.destination in s.accounts
       && if tr.source == "" then Balance(t, "", tr.currency) == Balance(s, "", tr.currency) - tr.amount >= 0
          else tr.source in s.charges && ChargeAvailable(t, tr.source) == ChargeAvailable(s, tr.source) - tr.amount >= 0
  }

  lemma DrawsOnCharge(s: Store, trID: string, tr: Transfer)
    requires trID !in s.transfers && tr.source in s.charges && tr.reversed == 0
    ensures ChargeAvailable(s.(transfers := s.transfers[trID := tr]), tr.source) ==
            ChargeAvailable(s, tr.source) - tr.amount
  {
    var t := s.(transfers := s.transfers[trID := tr]);
    assert t.transfers.Keys == s.transfers.Keys + {trID};
    SumInsert(s.transfers.Keys, k => DrawnFrom(s, tr.source, k), k => DrawnFrom(t, tr.source, k), trID);
  }

  lemma TransferPromise(s: Store, p: TransferParams, capable: bool, trID: string, now: int)
    requires Invariant(s) && trID !in s.transfers && trID != "" && CreateTransfer(s, p, capable, trID, now).Done?
    ensures var t := CreateTransfer(s, p, capable, trID, now).store; Invariant(t) && TransferMade(s, t, trID)
  {
    CreateTransferKeeps(s, p, capable, trID, now);
    if p.source == "" {
      TransferLeavesPlatformSolvent(s, p, capable, trID, now);
    } else {
      DrawsOnCharge(s, trID, Transfer(p.amount.n, p.currency, p.destination, p.source, now, 0, []));
    }
  }

  /** The transfer has one more reversal, of a positive amount, and is not reversed beyond itself. */
  ghost predicate TransferReversed(s: Store, t: Store, trID: string) {
    && trID in s.transfers && trID in t.transfers && t == s.(transfers := s.transfers[trID := t.transfers[trID]])
    && var was, tr := s.transfers[trID], t.transfers[trID];
       && |tr.reversals| == |was.reversals| + 1 && was.reversed < tr.reversed <= tr.amount == was.amount
       && tr.reversed == ReversedSum(tr.reversals) && tr.destination == was.destination
  }

  lemma ReversalPromise(s: Store, trID: string, asked: Parsed, rvID: string, now: int)
    requires Invariant(s) && ReverseTransfer(s, trID, asked, rvID, now).Done?
    ensures var t := ReverseTransfer(s, trID, asked, rvID, now).store; Invariant(t) && TransferReversed(s, t, trID)
  {
    ReverseTransferKeeps(s, trID, asked, rvID, now);
    var tr := ReversalFits(s, trID, asked, rvID, now);
  }

  // ---------- disputes and payouts ----------

  /** One new dispute, over all that was left of a charge that had none. */
  ghost predicate DisputeOpened(s: Store, t: Store, dpID: string) {
    && dpID in t.disputes && t.disputes == s.disputes[dpID := t.disputes[dpID]] &&
       t.disputes[dpID].status.NeedsResponse?
    && var dp := t.disputes[dpID];
       && dp.chargeID in s.charges && s.charges[dp.chargeID].disputeID == ""
       && t == s.(disputes := t.disputes,
                  charges := s.charges[dp.chargeID := s.charges[dp.chargeID].(disputeID := dpID)])
       && 0 < dp.amount == s.charges[dp.chargeID].captured - RefundedSum(s, dp.chargeID)
  }

  lemma OpenDisputePromise(s: Store, intentID: string, dpID: string, now: int)
    requires Invariant(s) && dpID !in s.disputes && dpID != "" && OpenDispute(s, intentID, dpID, now).Done?
    ensures var t := OpenDispute(s, intentID, dpID, now).store; Invariant(t) && DisputeOpened(s, t, dpID)
  {
    OpenDisputeKeeps(s, intentID, dpID, now);
    assert ChargeOk(s, s.intents[intentID].chargeID);
  }

  /** A dispute that was open has its outcome. */
  ghost predicate DisputeClosed(s: Store, t: Store, id: string, o: string) {
    && id in s.disputes && s.disputes[id].status.NeedsResponse? && id in t.disputes
    && t == s.(disputes := s.disputes[id := t.disputes[id]])
    && t.disputes[id] ==
       s.disputes[id].(status := if o == "won" then Won else Lost, closedAt := t.disputes[id].closedAt)
  }

  lemma CloseDisputePromise(s: Store, id: string, o: string, now: int)
    requires Invariant(s) && CloseDispute(s, id, o, now).Done?
    ensures var t := CloseDispute(s, id, o, now).store; Invariant(t) && DisputeClosed(s, t, id, o)
  {
    CloseDisputeKeeps(s, id, o, now);
  }

  /** One new payout of a positive amount, which the account's balance is less by. */
  ghost predicate PayoutMade(s: Store, t: Store, poID: string) {
    && poID in t.payouts && t == s.(payouts := s.payouts[poID := t.payouts[poID]])
    && var po := t.payouts[poID];
       && po.amount > 0 && po.status.Pending? && (po.account == "" || po.account in s.accounts)
       && Balance(t, po.account, po.currency) == Balance(s, po.account, po.currency) - po.amount
  }

  lemma PayoutPromise(s: Store, amount: Parsed, currency: string, account: string, poID: string, now: int)
    requires Invariant(s) && poID !in s.payouts && CreatePayout(s, amount, currency, account, poID, now).Done?
    ensures var t := CreatePayout(s, amount, currency, account, poID, now).store; Invariant(t) && PayoutMade(s, t, poID)
  {
    var po := Payout(amount.n, currency, account, Pending, now);
    PayoutsMove(s, poID, po);
    PayoutMovesMoney(s, poID, po, account, currency);
  }

  lemma PayOutBalancePromise(s: Store, acct: string, poID: string, now: int)
    requires Invariant(s) && poID !in s.payouts && PayOutBalance(s, acct, poID, now).Done?
    ensures var t := PayOutBalance(s, acct, poID, now).store;
            Invariant(t) && exists c :: FirstPositive(s, acct, c) && EmptiesOnly(s, t, acct, c)
  {
    var c := PaidOut(s, acct, poID, now);
    PayoutsMove(s, poID, Payout(Balance(s, acct, c), c, acct, Pending, now));
    PayOutEmpties(s, acct, poID, now);
  }

  /** A payout that was pending is paid, or has failed and is back on the account's balance. */
  ghost predicate PayoutEnded(s: Store, t: Store, id: string, o: string) {
    && id in s.payouts && s.payouts[id].status.Pending?
    && t == s.(payouts := s.payouts[id := s.payouts[id].(status := if o == "paid" then Paid else Failed)])
    && var po := s.payouts[id];
       Balance(t, po.account, po.currency) == Balance(s, po.account, po.currency) + if o == "paid" then 0 else po.amount
  }

  lemma PayoutEnds(s: Store, id: string, po: Payout)
    requires Invariant(s) && id in s.payouts && s.payouts[id].status.Pending?
    requires po == s.payouts[id].(status := po.status) && (po.status.Paid? || po.status.Failed?)
    ensures var t := s.(payouts := s.payouts[id := po]);
            && Invariant(t)
            && Balance(t, po.account, po.currency) ==
                 Balance(s, po.account, po.currency) + if po.status.Paid? then 0 else po.amount
  {
    assert PayoutOk(s, id);
    PayoutsMove(s, id, po);
    PayoutMovesMoney(s, id, po, po.account, po.currency);
  }

  lemma CompletePayoutPromise(s: Store, id: string, o: string)
    requires Invariant(s) && CompletePayout(s, id, o).Done?
    ensures var t := CompletePayout(s, id, o).store; Invariant(t) && PayoutEnded(s, t, id, o)
  {
    PayoutEnds(s, id, s.payouts[id].(status := if o == "paid" then Paid else Failed));
  }

  // ---------- checkout ----------

  /** One new coupon, of exactly one kind and of a possible size, and not redeemed yet. */
  ghost predicate CouponAdded(s: Store, t: Store, id: string) {
    && id !in s.coupons && id in t.coupons && t == s.(coupons := s.coupons[id := t.coupons[id]])
    && CouponShape(t.coupons[id]) && t.coupons[id].timesRedeemed == 0
  }

  lemma CouponPromise(s: Store, p: CouponParams, id: string)
    requires Invariant(s) && CreateCoupon(s, p, id).Done?
    ensures var t := CreateCoupon(s, p, id).store; Invariant(t) && CouponAdded(s, t, id)
  {
    CreateCouponKeeps(s, p, id);
  }

  /** The coupon is gone, every other coupon and everything else is as it was: sessions that hold it
      keep it, with the discount they were given. */
  ghost predicate CouponRemoved(s: Store, t: Store, id: string) {
    && id in s.coupons && id !in t.coupons
    && (forall k :: k in s.coupons && k != id ==> k in t.coupons && t.coupons[k] == s.coupons[k])
    && t == s.(coupons := t.coupons) && t.coupons.Keys < s.coupons.Keys
  }

  lemma DeleteCouponPromise(s: Store, id: string)
    requires Invariant(s) && DeleteCoupon(s, id).Done?
    ensures var t := DeleteCoupon(s, id).store; Invariant(t) && CouponRemoved(s, t, id)
  {
    DeleteCouponKeeps(s, id);
  }

  /** The code works or not as asked for; its text, coupon, deadline and counter are as they were, and
      so is everything else. Taken out of work, it clashes with no other code; put to work, with those
      that work and have its text. */
  ghost predicate CodeSwitched(s: Store, t: Store, id: string, active: bool) {
    && id in s.codes && id in t.codes && t == s.(codes := s.codes[id := t.codes[id]])
    && t.codes[id] == s.codes[id].(active := active)
    && (TextsUnique(s) ==> (TextsUnique(t) <==>
          active ==> forall j :: Matches(s, s.codes[id].code, j) && j != id ==> !s.codes[j].active))
  }

  lemma SetCodeActivePromise(s: Store, id: string, active: bool)
    requires Invariant(s) && SetCodeActive(s, id, active).Done?
    ensures var t := SetCodeActive(s, id, active).store; Invariant(t) && CodeSwitched(s, t, id, active)
  {
    SetCodeActiveKeeps(s, id, active);
    if TextsUnique(s) && active {
      ActivateKeepsTextsUnique(s, id);
    }
  }

  /** One new code for a coupon there is; if no two working codes shared a text, none do now. */
  ghost predicate CodeAdded(s: Store, t: Store, id: string) {
    && id in t.codes && t == s.(codes := s.codes[id := t.codes[id]])
    && t.codes[id].coupon in s.coupons && t.codes[id].timesRedeemed == 0 && (TextsUnique(s) ==> TextsUnique(t))
  }

  lemma CodePromise(s: Store, p: CodeParams, id: string)
    requires Invariant(s) && id !in s.codes && id != "" && CreateCode(s, p, id).Done?
    ensures var t := CreateCode(s, p, id).store; Invariant(t) && CodeAdded(s, t, id)
  {
    CreateCodeKeeps(s, p, id);
    if TextsUnique(s) {
      CreateKeepsTextsUnique(s, p, id);
    }
  }

  /** One new session, open and unpaid, with at most one discount that lies within the subtotal. */
  ghost predicate SessionOpened(s: Store, t: Store, id: string, items: seq<LineItem>) {
    && id in t.sessions && t == s.(sessions := s.sessions[id := t.sessions[id]])
    && var sess := t.sessions[id];
       && sess.status.Open? && sess.payment.Unpaid? && sess.amountTotal == Subtotal(items)
       && |sess.discounts| <= 1 && 0 <= sess.amountDiscount <= sess.amountTotal
  }

  lemma SessionPromise(s: Store, p: SessionParams, id: string, now: int)
    requires Invariant(s) && CreateSession(s, p, id, now).Done?
    ensures var t := CreateSession(s, p, id, now).store; Invariant(t) && SessionOpened(s, t, id, p.items)
  {
    var sess := CreatedSession(s, p, id, now);
    SessionOpens(s, id, sess, p.items);
  }

  lemma SessionOpens(s: Store, id: string, sess: Session, items: seq<LineItem>)
    requires Invariant(s) && sess.status.Open? && sess.payment.Unpaid? && sess.intentID == ""
    requires sess.amountTotal == Subtotal(items) && |sess.discounts| <= 1 &&
             0 <= sess.amountDiscount <= sess.amountTotal
    ensures var t := s.(sessions := s.sessions[id := sess]); Invariant(t) && SessionOpened(s, t, id, items)
  {
    SessionsMove(s, id, sess);
  }

  /** A session that was open is closed without payment. */
  ghost predicate SessionExpired(s: Store, t: Store, id: string) {
    && id in s.sessions && s.sessions[id].status.Open?
    && t == s.(sessions := s.sessions[id := s.sessions[id].(status := Expired, payment := Unpaid)])
  }

  lemma ExpirePromise(s: Store, id: string)
    requires Invariant(s) && ExpireSession(s, id).Done?
    ensures var t := ExpireSession(s, id).store; Invariant(t) && SessionExpired(s, t, id)
  {
    ExpireSessionKeeps(s, id);
  }

  /** A paid session: one redemption is counted on its coupon and on its code and on no others, and
      there is a new intent with its charge exactly if anything is left to pay. */
  ghost predicate SessionPaid(s: Store, t: Store, id: string, piID: string, chID: string) {
    && id in s.sessions && s.sessions[id].status.Open? && id in t.sessions && t.sessions[id].status.Complete?
    && (forall k :: TimesUsed(t.coupons, k) == TimesUsed(s.coupons, k) + if Uses(t.sessions[id], k) then 1 else 0)
    && (forall k :: TimesTyped(t.codes, k) ==
          TimesTyped(s.codes, k) + if k in s.codes && UsesCode(t.sessions[id], k) then 1 else 0)
    && (chID in t.charges <==> t.sessions[id].Total() > 0) && (piID in t.intents <==> chID in t.charges)
    && (chID in t.charges ==> t.charges[chID].captured == t.sessions[id].Total())
  }

  lemma CheckoutPromise(s: Store, id: string, o: string, typed: string, found: string, piID: string, chID: string,
                        typedAt: int, now: int)
    requires Invariant(s) && piID !in s.intents && piID != "" && chID !in s.charges && chID != ""
    requires CompleteCheckout(s, id, o, typed, found, piID, chID, typedAt, now).Done?
    ensures var t := CompleteCheckout(s, id, o, typed, found, piID, chID, typedAt, now).store;
            && Invariant(t)
            && (o == "paid" ==> SessionPaid(s, t, id, piID, chID))
            && (o == "cancelled" ==> SessionExpired(s, t, id)) && (o == "failed" ==> t == s)
  {
    var t := CompleteCheckout(s, id, o, typed, found, piID, chID, typedAt, now).store;
    CompleteCheckoutKeeps(s, id, o, typed, found, piID, chID, typedAt, now);
    if o == "paid" {
      PaidCheckoutCounts(s, id, typed, found, piID, chID, typedAt, now);
      assert SessionOk(t, id);
    }
  }
}
