/** When the mock accepts a request about payments, and what the objects it then stores say, in the
    terms of the request and of what was stored before. */
module StripeRequests {
  import opened StripeStore
  import opened MapSums
  import opened Ledger
  import opened StripeOps
  import opened StripeInvariant

  // ---------- payment intents ----------

  predicate IntentAdmitted(s: Store, p: IntentParams) {
    && p.amount.Number? && p.amount.n > 0 && p.currency != ""
    && p.appFee.Number? && 0 <= p.appFee.n <= p.amount.n
    && (p.destination != "" ==> p.destination in s.accounts)
  }

  /** The intent says what was asked for; a share that is no number or negative counts as none. */
  predicate IntentAsAsked(t: Store, p: IntentParams, id: string) {
    id in t.intents &&
    var pi := t.intents[id];
    && Number(pi.amount) == p.amount && pi.currency == p.currency && Number(pi.appFee) == p.appFee
    && pi.manualCapture == p.manualCapture && pi.destination == p.destination && pi.account == p.account
    && pi.paymentMethod == p.paymentMethod
    && pi.status == (if p.paymentMethod == "" then RequiresPaymentMethod else RequiresConfirmation)
    && (p.destinationAmount.Number? && p.destinationAmount.n >= 0 ==> pi.destinationAmount == p.destinationAmount.n)
    && (p.destinationAmount.Garbage? || p.destinationAmount.n < 0 ==> pi.destinationAmount == 0)
  }

  lemma IntentRequest(s: Store, p: IntentParams, id: string)
    ensures var r := CreateIntent(s, p, id);
            (r.Done? <==> IntentAdmitted(s, p)) && (r.Done? ==> IntentAsAsked(r.store, p, id))
    ensures CreateIntent(s, p, id).Done? || CreateIntent(s, p, id) == Refused(400)
  {
  }

  predicate ConfirmAdmitted(s: Store, id: string) {
    id in s.intents && (s.intents[id].status.RequiresPaymentMethod? || s.intents[id].status.RequiresConfirmation?)
  }

  /** The payment method is the one named, or else the one the intent had, or else a test card. */
  predicate ConfirmedWith(s: Store, t: Store, id: string, method0: string)
    requires id in s.intents
  {
    id in t.intents &&
    t.intents[id] == s.intents[id].(
      paymentMethod := t.intents[id].paymentMethod,
      status := if s.intents[id].manualCapture then RequiresCapture else Processing) &&
    t.intents[id].paymentMethod ==
    (if method0 != "" then method0 else if s.intents[id].paymentMethod != "" then s.intents[id].paymentMethod
     else "pm_card_visa")
  }

  lemma ConfirmRequest(s: Store, id: string, method0: string)
    ensures var r := ConfirmIntent(s, id, method0);
            && (r.Done? <==> ConfirmAdmitted(s, id))
            && (r.Done? ==> id in s.intents && ConfirmedWith(s, r.store, id, method0))
    ensures ConfirmIntent(s, id, method0).Done? ||
            ConfirmIntent(s, id, method0) == Refused(if id in s.intents then 400 else 404)
  {
  }

  predicate CaptureAdmitted(s: Store, id: string, asked: Parsed) {
    id in s.intents && s.intents[id].status.RequiresCapture? &&
    (asked.Number? ==> asked.n <= s.intents[id].amount)
  }

  /** A request that names no positive amount captures all of the intent. */
  predicate CapturedAsAsked(s: Store, t: Store, id: string, asked: Parsed, chID: string, now: int)
    requires id in s.intents
  {
    var pi := s.intents[id];
    && chID in t.charges && id in t.intents
    && var ch := t.charges[chID];
       && (asked.Number? && asked.n > 0 ==> ch.captured == asked.n)
       && (asked.Garbage? || asked.n <= 0 ==> ch.captured == pi.amount)
       && ch == Charge(pi.amount, ch.captured, pi.currency, id, pi.paymentMethod, now, 0, false, ch.transferID, "")
       && t.intents[id].received == ch.captured
  }

  lemma CaptureRequest(s: Store, id: string, asked: Parsed, chID: string, trID: string, now: int)
    requires AllIntents(s)
    ensures var r := CaptureIntent(s, id, asked, chID, trID, now);
            && (r.Done? <==> CaptureAdmitted(s, id, asked))
            && (r.Done? ==> id in s.intents && CapturedAsAsked(s, r.store, id, asked, chID, now))
    ensures CaptureIntent(s, id, asked, chID, trID, now).Done? ||
            CaptureIntent(s, id, asked, chID, trID, now) == Refused(if id in s.intents then 400 else 404)
  {
    assert id in s.intents ==> IntentOk(s, id);
  }

  predicate OutcomeAdmitted(s: Store, id: string, o: string) {
    (o == "succeed" || o == "fail") && id in s.intents && !s.intents[id].status.Succeeded? &&
    !s.intents[id].status.Canceled?
  }

  /** The dashboard's success captures all of the intent, with a test card if it has no method yet. */
  predicate SucceededInFull(s: Store, t: Store, id: string, chID: string, now: int)
    requires id in s.intents
  {
    var pi := s.intents[id];
    && chID in t.charges
    && var pm := if pi.paymentMethod == "" then "pm_card_visa" else pi.paymentMethod;
       t.charges[chID] == Charge(pi.amount, pi.amount, pi.currency, id, pm, now, 0, false,
                                 t.charges[chID].transferID, "")
  }

  lemma OutcomeRequest(s: Store, id: string, o: string, chID: string, trID: string, now: int)
    ensures var r := CompleteIntent(s, id, o, chID, trID, now);
            && (r.Done? <==> OutcomeAdmitted(s, id, o))
            && (r.Done? && o == "succeed" ==> id in s.intents && SucceededInFull(s, r.store, id, chID, now))
    ensures CompleteIntent(s, id, o, chID, trID, now).Done? ||
            CompleteIntent(s, id, o, chID, trID, now) ==
              Refused(if o != "succeed" && o != "fail" then 400 else if id in s.intents then 409 else 404)
  {
  }

  // ---------- refunds ----------

  /** The charge named, directly or as that of an intent. */
  predicate NamesCharge(s: Store, p: RefundParams, chID: string) {
    chID in s.charges &&
    (chID == p.chargeID || (p.chargeID == "" && p.intentID in s.intents && chID == s.intents[p.intentID].chargeID))
  }

  /** Refundable is an undisputed charge with something left, in a part of what is left. */
  predicate RefundAdmitted(s: Store, p: RefundParams, chID: string)
    requires chID in s.charges
  {
    var ch := s.charges[chID];
    ch.disputeID == "" && ch.captured > ch.refunded && 0 <= p.amount <= ch.captured - ch.refunded
  }

  /** What is asked for is refunded, and all that is left if nothing is asked for. */
  predicate RefundedAsAsked(s: Store, t: Store, p: RefundParams, chID: string, rfID: string, now: int)
    requires chID in s.charges
  {
    var ch := s.charges[chID];
    && rfID in t.refunds && chID in t.charges
    && (p.amount != 0 ==> t.refunds[rfID].amount == p.amount)
    && (p.amount == 0 ==> t.refunds[rfID].amount == ch.captured - ch.refunded)
    && t.refunds[rfID] == Refund(t.refunds[rfID].amount, ch.currency, chID, p.refundAppFee, now)
    && t.charges[chID] == ch.(
         refunded := ch.refunded + t.refunds[rfID].amount,
         fullyRefunded := ch.fullyRefunded || ch.refunded + t.refunds[rfID].amount == ch.captured)
  }

  /** With reverse_transfer the charge's transfer gives back the same amount, or what is left of it. */
  predicate ReversedAsAsked(s: Store, t: Store, p: RefundParams, chID: string, amount: int)
    requires chID in s.charges
  {
    var trID := s.charges[chID].transferID;
    if !p.reverseTransfer || trID == "" || trID !in s.transfers then t.transfers == s.transfers
    else
      && t.transfers == s.transfers[trID := if trID in t.transfers then t.transfers[trID] else s.transfers[trID]]
      && trID in t.transfers
      && var was, tr := s.transfers[trID], t.transfers[trID];
         && tr == was.(reversed := tr.reversed, reversals := tr.reversals)
         && (amount <= was.amount - was.reversed ==> tr.reversed == was.reversed + amount)
         && (amount > was.amount - was.reversed ==> tr.reversed == was.amount)
  }

  lemma RefundNames(s: Store, p: RefundParams)
    requires "" !in s.charges
    ensures var chID := RefundedCharge(s, p.chargeID, p.intentID);
            && (chID in s.charges ==> NamesCharge(s, p, chID))
            && forall c :: NamesCharge(s, p, c) ==> c == chID
  {
  }

  lemma RefundRequest(s: Store, p: RefundParams, rfID: string, rvID: string, now: int)
    requires "" !in s.charges && AllTransfers(s)
    ensures var r := ApplyRefund(s, p, rfID, rvID, now);
            && (r.Done? <==> exists c :: NamesCharge(s, p, c) && RefundAdmitted(s, p, c))
            && (r.Done? ==> forall c :: NamesCharge(s, p, c) ==>
                  && RefundedAsAsked(s, r.store, p, c, rfID, now)
                  && ReversedAsAsked(s, r.store, p, c, r.store.refunds[rfID].amount))
    ensures ApplyRefund(s, p, rfID, rvID, now).Done? || ApplyRefund(s, p, rfID, rvID, now) == Refused(400)
  {
    var chID := RefundedCharge(s, p.chargeID, p.intentID);
    RefundNames(s, p);
    if ApplyRefund(s, p, rfID, rvID, now).Done? {
      assert RefundAdmitted(s, p, chID);
      RefundMakes(s, p, chID, rfID, rvID, now);
    }
  }

  lemma RefundMakes(s: Store, p: RefundParams, chID: string, rfID: string, rvID: string, now: int)
    requires AllTransfers(s) && ApplyRefund(s, p, rfID, rvID, now).Done?
    requires chID == RefundedCharge(s, p.chargeID, p.intentID)
    ensures var t := ApplyRefund(s, p, rfID, rvID, now).store;
            && chID in s.charges && RefundedAsAsked(s, t, p, chID, rfID, now)
            && ReversedAsAsked(s, t, p, chID, t.refunds[rfID].amount)
  {
    var trID := s.charges[chID].transferID;
    if trID in s.transfers {
      assert TransferOk(s, trID);
      assert s.transfers[trID := s.transfers[trID]] == s.transfers;
    }
  }

  // ---------- transfers ----------

  ghost predicate TransferAdmitted(s: Store, p: TransferParams, capable: bool) {
    && p.amount.Number? && p.amount.n > 0 && p.currency != ""
    && p.destination != "" && p.destination in s.accounts && capable
    && if p.source == "" then p.amount.n <= Balance(s, "", p.currency)
       else p.source in s.charges && s.charges[p.source].currency == p.currency &&
            p.amount.n <= ChargeAvailable(s, p.source)
  }

  predicate TransferAsAsked(t: Store, p: TransferParams, trID: string, now: int) {
    p.amount.Number? && trID in t.transfers &&
    t.transfers[trID] == Transfer(p.amount.n, p.currency, p.destination, p.source, now, 0, [])
  }

  lemma TransferRequest(s: Store, p: TransferParams, capable: bool, trID: string, now: int)
    ensures var r := CreateTransfer(s, p, capable, trID, now);
            && (r.Done? <==> TransferAdmitted(s, p, capable))
            && (r.Done? ==> TransferAsAsked(r.store, p, trID, now))
    ensures CreateTransfer(s, p, capable, trID, now).Done? ||
            CreateTransfer(s, p, capable, trID, now) == Refused(400)
  {
  }

  predicate ReversalAdmitted(s: Store, trID: string, asked: Parsed) {
    asked.Number? && asked.n >= 0 && trID in s.transfers &&
    s.transfers[trID].amount > s.transfers[trID].reversed &&
    asked.n <= s.transfers[trID].amount - s.transfers[trID].reversed
  }

  /** The reversal is of what is asked for, and of all that is left if nothing is. */
  predicate ReversalAsAsked(s: Store, t: Store, trID: string, asked: Parsed, rvID: string, now: int)
    requires trID in s.transfers
  {
    asked.Number? && trID in t.transfers &&
    var was, tr := s.transfers[trID], t.transfers[trID];
    var amount := tr.reversed - was.reversed;
    && (asked.n != 0 ==> amount == asked.n) && (asked.n == 0 ==> tr.reversed == was.amount)
    && tr == was.(reversed := tr.reversed, reversals := was.reversals + [Reversal(rvID, amount, now)])
  }

  lemma ReversalRequest(s: Store, trID: string, asked: Parsed, rvID: string, now: int)
    ensures var r := ReverseTransfer(s, trID, asked, rvID, now);
            && (r.Done? <==> ReversalAdmitted(s, trID, asked))
            && (r.Done? ==> trID in s.transfers && ReversalAsAsked(s, r.store, trID, asked, rvID, now))
    ensures ReverseTransfer(s, trID, asked, rvID, now).Done? ||
            ReverseTransfer(s, trID, asked, rvID, now) ==
              Refused(if asked.Number? && asked.n >= 0 && trID !in s.transfers then 404 else 400)
  {
  }

  // ---------- disputes and payouts ----------

  predicate DisputeAdmitted(s: Store, intentID: string) {
    intentID in s.intents && s.intents[intentID].status.Succeeded? && s.intents[intentID].chargeID in s.charges &&
    var ch := s.charges[s.intents[intentID].chargeID];
    ch.disputeID == "" && ch.captured > ch.refunded
  }

  predicate DisputeAsAsked(s: Store, t: Store, intentID: string, dpID: string, now: int)
    requires intentID in s.intents && s.intents[intentID].chargeID in s.charges
  {
    var chID := s.intents[intentID].chargeID;
    var ch := s.charges[chID];
    dpID in t.disputes &&
    t.disputes[dpID] == Dispute(chID, ch.captured - ch.refunded, ch.currency, NeedsResponse, now, 0)
  }

  lemma DisputeRequest(s: Store, intentID: string, dpID: string, now: int)
    ensures var r := OpenDispute(s, intentID, dpID, now);
            && (r.Done? <==> DisputeAdmitted(s, intentID))
            && (r.Done? ==> intentID in s.intents && s.intents[intentID].chargeID in s.charges &&
                            DisputeAsAsked(s, r.store, intentID, dpID, now))
    ensures var r := OpenDispute(s, intentID, dpID, now);
            r.Done? || r == Refused(if intentID !in s.intents then 404
                                    else if s.intents[intentID].status.Succeeded? &&
                                            s.intents[intentID].chargeID in s.charges &&
                                            s.charges[s.intents[intentID].chargeID].disputeID != "" then 409
                                    else 400)
  {
  }

  predicate ClosingAdmitted(s: Store, id: string, o: string) {
    (o == "won" || o == "lost") && id in s.disputes && s.disputes[id].status.NeedsResponse?
  }

  lemma ClosingRequest(s: Store, id: string, o: string, now: int)
    ensures var r := CloseDispute(s, id, o, now);
            && (r.Done? <==> ClosingAdmitted(s, id, o))
            && (r.Done? ==>
                  && id in s.disputes && id in r.store.disputes
                  && r.store.disputes[id] ==
                     s.disputes[id].(status := if o == "won" then Won else Lost, closedAt := now))
    ensures CloseDispute(s, id, o, now).Done? ||
            CloseDispute(s, id, o, now) ==
              Refused(if o != "won" && o != "lost" then 400 else if id in s.disputes then 409 else 404)
  {
  }

  predicate PayoutAdmitted(s: Store, amount: Parsed, currency: string, account: string) {
    amount.Number? && amount.n > 0 && currency != "" && (account != "" ==> account in s.accounts)
  }

  lemma PayoutRequest(s: Store, amount: Parsed, currency: string, account: string, poID: string, now: int)
    ensures var r := CreatePayout(s, amount, currency, account, poID, now);
            && (r.Done? <==> PayoutAdmitted(s, amount, currency, account))
            && (r.Done? ==>
                  && amount.Number? && poID in r.store.payouts
                  && r.store.payouts[poID] == Payout(amount.n, currency, account, Pending, now))
    ensures var r := CreatePayout(s, amount, currency, account, poID, now);
            r.Done? || r == Refused(if amount.Number? && amount.n > 0 && currency != "" then 404 else 400)
  {
  }

  predicate EndingAdmitted(s: Store, id: string, o: string) {
    (o == "paid" || o == "fail") && id in s.payouts && s.payouts[id].status.Pending?
  }

  lemma EndingRequest(s: Store, id: string, o: string)
    ensures CompletePayout(s, id, o).Done? <==> EndingAdmitted(s, id, o)
    ensures CompletePayout(s, id, o).Done? ||
            CompletePayout(s, id, o) ==
              Refused(if o != "paid" && o != "fail" then 400 else if id in s.payouts then 409 else 404)
  {
  }

  // ---------- what is left of a charge to send on ----------

  lemma TransferDraws(s: Store, t: Store, trID: string, chID: string)
    requires trID in t.transfers && t.transfers == s.transfers[trID := t.transfers[trID]]
    requires chID in s.charges && chID in t.charges
    ensures ChargeAvailable(t, chID) - ChargeAvailable(s, chID) ==
            (t.charges[chID].captured - t.charges[chID].refunded) -
            (s.charges[chID].captured - s.charges[chID].refunded) -
            DrawnFrom(t, chID, trID) + DrawnFrom(s, chID, trID)
  {
    var f, g := k => DrawnFrom(s, chID, k), k => DrawnFrom(t, chID, k);
    if trID in s.transfers {
      assert t.transfers.Keys == s.transfers.Keys;
      SumUpdate(s.transfers.Keys, f, g, trID);
    } else {
      assert t.transfers.Keys == s.transfers.Keys + {trID};
      SumInsert(s.transfers.Keys, f, g, trID);
    }
  }

  /** A transfer takes its amount from what its charge, and no other, has left to send on. */
  lemma TransferTakes(s: Store, p: TransferParams, capable: bool, trID: string, now: int, chID: string)
    requires CreateTransfer(s, p, capable, trID, now).Done? && trID !in s.transfers && chID in s.charges
    ensures var t := CreateTransfer(s, p, capable, trID, now).store;
            chID in t.charges && ChargeAvailable(t, chID) ==
              ChargeAvailable(s, chID) - (if chID == p.source then p.amount.n else 0)
  {
    TransferDraws(s, CreateTransfer(s, p, capable, trID, now).store, trID, chID);
  }

  /** A reversal puts it back. */
  lemma ReversalRestores(s: Store, trID: string, asked: Parsed, rvID: string, now: int, chID: string)
    requires ReverseTransfer(s, trID, asked, rvID, now).Done? && chID in s.charges
    ensures var t := ReverseTransfer(s, trID, asked, rvID, now).store;
            trID in s.transfers && trID in t.transfers && chID in t.charges && ChargeAvailable(t, chID) ==
              ChargeAvailable(s, chID) +
              (if chID == s.transfers[trID].source then t.transfers[trID].reversed - s.transfers[trID].reversed else 0)
  {
    TransferDraws(s, ReverseTransfer(s, trID, asked, rvID, now).store, trID, chID);
  }

  /** A charge nothing has been transferred from has all of it left that is not refunded. */
  lemma UntouchedIsAvailable(s: Store, chID: string)
    requires chID in s.charges && forall id :: id in s.transfers ==> s.transfers[id].source != chID
    ensures ChargeAvailable(s, chID) == s.charges[chID].captured - s.charges[chID].refunded
  {
    SumZero(s.transfers.Keys, id => DrawnFrom(s, chID, id));
  }
}
