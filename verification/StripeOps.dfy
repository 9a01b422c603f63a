/** What each operation of the Stripe mock does to the store. New ids are arguments; the mock
    draws them at random, so an operation is only asked about ids not in use. */
module StripeOps {
  import opened StripeStore
  import opened MapSums
  import opened Sorting
  import opened Ledger

  datatype Parsed = Number(n: int) | Garbage

  /** The new store, or an HTTP status or a rejected promotion code, the store then being as it was. */
  datatype Outcome = Done(store: Store) | Refused(status: int) | CodeRejected

  const CARD := "pm_card_visa"

  // ---------- payment intents ----------

  datatype IntentParams = IntentParams(
    amount: Parsed,
    currency: string,
    appFee: Parsed,
    manualCapture: bool,
    destination: string,
    destinationAmount: Parsed,
    account: string,
    paymentMethod: string)

  function CreateIntent(s: Store, p: IntentParams, id: string): Outcome {
    if p.amount.Garbage? || p.amount.n <= 0 || p.currency == "" then Refused(400)
    else if p.appFee.Garbage? || p.appFee.n < 0 || p.appFee.n > p.amount.n then Refused(400)
    else if p.destination != "" && p.destination !in s.accounts then Refused(400)
    else
      var share := if p.destinationAmount.Number? && p.destinationAmount.n >= 0 then p.destinationAmount.n else 0;
      var status := if p.paymentMethod != "" then RequiresConfirmation else RequiresPaymentMethod;
      Done(s.(intents := s.intents[id := Intent(
        p.amount.n, p.currency, status, p.manualCapture, p.appFee.n, p.destination, share, p.account,
        p.paymentMethod, "", "", false, 0)]))
  }

  function ConfirmIntent(s: Store, id: string, method0: string): Outcome {
    if id !in s.intents then Refused(404)
    else if !s.intents[id].status.RequiresPaymentMethod? && !s.intents[id].status.RequiresConfirmation? then
        Refused(400)
    else
      var pi := s.intents[id];
      var pm := if method0 != "" then method0 else if pi.paymentMethod != "" then pi.paymentMethod else CARD;
      Done(s.(intents := s.intents[id := pi.(
        paymentMethod := pm, status := if pi.manualCapture then RequiresCapture else Processing)]))
  }

  /** The charge a succeeded intent gets, and the transfer to its destination, if it has one. */
  function Settle(s: Store, id: string, pi: Intent, captured: int, share: int, chID: string, trID: string,
                  now: int): Store {
    var sends := pi.destination != "";
    var sent := if sends then trID else "";
    var ch := Charge(pi.amount, captured, pi.currency, id, pi.paymentMethod, now, 0, false, sent, "");
    var tr := Transfer(share, pi.currency, pi.destination, chID, now, 0, []);
    var paid := pi.(status := Succeeded, chargeID := chID, transferID := if sends then trID else pi.transferID);
    s.(intents := s.intents[id := paid],
       charges := s.charges[chID := ch],
       transfers := if sends then s.transfers[trID := tr] else s.transfers)
  }

  function CaptureIntent(s: Store, id: string, toCapture: Parsed, chID: string, trID: string, now: int): Outcome {
    if id !in s.intents then Refused(404)
    else if !s.intents[id].status.RequiresCapture? then Refused(400)
    else
      var pi := s.intents[id];
      var partial := toCapture.Number? && toCapture.n > 0;
      if partial && toCapture.n > pi.amount then Refused(400)
      else
        var captured := if partial then toCapture.n else pi.amount;
        var rest := if captured > pi.appFee then captured - pi.appFee else 0;
        var share := if pi.destinationAmount != 0 then pi.destinationAmount else rest;
        Done(Settle(s, id, pi.(received := captured), captured, share, chID, trID, now))
  }

  /** The dashboard's outcome buttons. */
  function CompleteIntent(s: Store, id: string, outcome: string, chID: string, trID: string, now: int): Outcome {
    if outcome != "succeed" && outcome != "fail" then Refused(400)
    else if id !in s.intents then Refused(404)
    else if s.intents[id].status.Succeeded? || s.intents[id].status.Canceled? then Refused(409)
    else
      var pi := s.intents[id];
      if outcome == "succeed" then
        var paid := pi.(paymentMethod := if pi.paymentMethod == "" then CARD else pi.paymentMethod, failed := false);
        var share := if pi.destinationAmount != 0 then pi.destinationAmount else pi.amount - pi.appFee;
        Done(Settle(s, id, paid, pi.amount, share, chID, trID, now))
      else
        Done(s.(intents := s.intents[id := pi.(status := RequiresPaymentMethod, failed := true)]))
  }

  /** What a capture request takes of an intent. */
  function Captured(s: Store, id: string, asked: Parsed): int
    requires id in s.intents
  {
    if asked.Number? && asked.n > 0 then asked.n else s.intents[id].amount
  }

  lemma CapturedIs(s: Store, id: string, n: Parsed, chID: string, trID: string, now: int)
    requires CaptureIntent(s, id, n, chID, trID, now).Done?
    ensures var t := CaptureIntent(s, id, n, chID, trID, now).store;
            id in s.intents && chID in t.charges && t.charges[chID].captured == Captured(s, id, n)
  {
  }

  lemma CaptureIsApart(s: Store, id: string, n: Parsed, chID: string, trID: string, now: int)
    requires CaptureIntent(s, id, n, chID, trID, now).Done?
    ensures var t := CaptureIntent(s, id, n, chID, trID, now).store;
            t.accounts == s.accounts && t.intents.Keys == s.intents.Keys && t.sessions == s.sessions
  {
  }

  lemma SuccessIsApart(s: Store, id: string, chID: string, trID: string, now: int)
    requires CompleteIntent(s, id, "succeed", chID, trID, now).Done?
    ensures var t := CompleteIntent(s, id, "succeed", chID, trID, now).store;
            t.accounts == s.accounts && t.intents.Keys == s.intents.Keys && t.sessions == s.sessions
  {
  }

  lemma FailureIsApart(s: Store, id: string, o: string, chID: string, trID: string, now: int)
    requires o != "succeed" && CompleteIntent(s, id, o, chID, trID, now).Done?
    ensures var t := CompleteIntent(s, id, o, chID, trID, now).store;
            t.accounts == s.accounts && t.intents.Keys == s.intents.Keys && t.sessions == s.sessions
  {
  }

  // ---------- refunds and transfers ----------

  function Reverse(tr: Transfer, amount: int, rvID: string, now: int): Transfer {
    tr.(reversed := tr.reversed + amount, reversals := tr.reversals + [Reversal(rvID, amount, now)])
  }

  function Min(a: int, b: int): int { if a < b then a else b }

  /** The charge a refund names, directly or through its intent; "" when there is none. */
  function RefundedCharge(s: Store, chargeID: string, intentID: string): string {
    if chargeID != "" then if chargeID in s.charges then chargeID else ""
    else if intentID in s.intents && s.intents[intentID].chargeID in s.charges then s.intents[intentID].chargeID
    else ""
  }

  datatype RefundParams = RefundParams(chargeID: string, intentID: string, amount: int, reverseTransfer: bool,
                                       refundAppFee: bool)

  function RefundAmount(ch: Charge, asked: int): int {
    if asked == 0 then ch.captured - ch.refunded else asked
  }

  /** What a refund takes back from the destination's transfer. */
  function ReversedByRefund(s: Store, ch: Charge, p: RefundParams): int {
    if p.reverseTransfer && ch.transferID != "" && ch.transferID in s.transfers then
      var tr := s.transfers[ch.transferID];
      var most := Min(RefundAmount(ch, p.amount), tr.amount - tr.reversed);
      if most > 0 then most else 0
    else 0
  }

  function ApplyRefund(s: Store, p: RefundParams, rfID: string, rvID: string, now: int): Outcome {
    var chID := RefundedCharge(s, p.chargeID, p.intentID);
    if chID == "" || chID !in s.charges then Refused(400)
    else
      var ch := s.charges[chID];
      var left := ch.captured - ch.refunded;
      var amount := RefundAmount(ch, p.amount);
      if ch.disputeID != "" || left <= 0 || amount < 0 || amount > left then Refused(400)
      else
        var back := ReversedByRefund(s, ch, p);
        Done(s.(
          charges := s.charges[chID := ch.(
            refunded := ch.refunded + amount,
            fullyRefunded := ch.fullyRefunded || ch.refunded + amount >= ch.captured)],
          transfers := if back > 0 then
              s.transfers[ch.transferID := Reverse(s.transfers[ch.transferID], back, rvID, now)]
                       else s.transfers,
          refunds := s.refunds[rfID := Refund(amount, ch.currency, chID, p.refundAppFee, now)]))
  }

  /** What a charge has left to fund transfers. */
  ghost function ChargeAvailable(s: Store, chID: string): int
    requires chID in s.charges
  {
    s.charges[chID].captured - s.charges[chID].refunded - SumOver(s.transfers.Keys, id => DrawnFrom(s, chID, id))
  }

  function DrawnFrom(s: Store, chID: string, id: string): int {
    if id in s.transfers && s.transfers[id].source == chID then s.transfers[id].amount - s.transfers[id].reversed else 0
  }

  datatype TransferParams = TransferParams(amount: Parsed, currency: string, destination: string, source: string)

  /** `capable` says whether the destination account has transfers enabled. */
  ghost function CreateTransfer(s: Store, p: TransferParams, capable: bool, trID: string, now: int): Outcome {
    if p.amount.Garbage? || p.amount.n <= 0 || p.currency == "" || p.destination == "" then Refused(400)
    else if p.destination !in s.accounts || !capable then Refused(400)
    else if p.source != "" && p.source !in s.charges then Refused(400)
    else if p.source != "" && s.charges[p.source].currency != p.currency then Refused(400)
    else if p.source != "" && p.amount.n > ChargeAvailable(s, p.source) then Refused(400)
    else if p.source == "" && p.amount.n > Balance(s, "", p.currency) then Refused(400)
    else Done(s.(transfers := s.transfers[trID := Transfer(p.amount.n, p.currency, p.destination, p.source,
                                                           now, 0, [])]))
  }

  function ReverseTransfer(s: Store, trID: string, asked: Parsed, rvID: string, now: int): Outcome {
    if asked.Garbage? || asked.n < 0 then Refused(400)
    else if trID !in s.transfers then Refused(404)
    else
      var tr := s.transfers[trID];
      var left := tr.amount - tr.reversed;
      var amount := if asked.n == 0 then left else asked.n;
      if left <= 0 || amount > left then Refused(400)
      else Done(s.(transfers := s.transfers[trID := Reverse(tr, amount, rvID, now)]))
  }

  // ---------- disputes ----------

  function OpenDispute(s: Store, intentID: string, dpID: string, now: int): Outcome {
    if intentID !in s.intents then Refused(404)
    else if s.intents[intentID].chargeID !in s.charges || !s.intents[intentID].status.Succeeded? then Refused(400)
    else
      var chID := s.intents[intentID].chargeID;
      var ch := s.charges[chID];
      if ch.disputeID != "" then Refused(409)
      else if ch.captured - ch.refunded <= 0 then Refused(400)
      else
        Done(s.(
          disputes := s.disputes[dpID := Dispute(chID, ch.captured - ch.refunded, ch.currency, NeedsResponse, now, 0)],
          charges := s.charges[chID := ch.(disputeID := dpID)]))
  }

  function CloseDispute(s: Store, id: string, outcome: string, now: int): Outcome {
    if outcome != "won" && outcome != "lost" then Refused(400)
    else if id !in s.disputes then Refused(404)
    else if !s.disputes[id].status.NeedsResponse? then Refused(409)
    else
      Done(s.(disputes := s.disputes[id := s.disputes[id].(status := if outcome == "won" then Won
                                                           else Lost, closedAt := now)]))
  }

  // ---------- payouts ----------

  function CreatePayout(s: Store, amount: Parsed, currency: string, account: string, poID: string, now: int): Outcome {
    if amount.Garbage? || amount.n <= 0 || currency == "" then Refused(400)
    else if account != "" && account !in s.accounts then Refused(404)
    else Done(s.(payouts := s.payouts[poID := Payout(amount.n, currency, account, Pending, now)]))
  }

  /** The first currency, in sorted order, in which the account holds money. */
  ghost predicate FirstPositive(s: Store, acct: string, currency: string) {
    Balance(s, acct, currency) > 0 &&
    forall c :: Balance(s, acct, c) > 0 ==> StringLe(currency, c)
  }

  ghost function PayOutBalance(s: Store, acct: string, poID: string, now: int): Outcome {
    if acct == "" || acct !in s.accounts then Refused(404)
    else if exists c :: FirstPositive(s, acct, c) then
      var c :| FirstPositive(s, acct, c);
      Done(s.(payouts := s.payouts[poID := Payout(Balance(s, acct, c), c, acct, Pending, now)]))
    else Refused(400)
  }

  function CompletePayout(s: Store, id: string, outcome: string): Outcome {
    if outcome != "paid" && outcome != "fail" then Refused(400)
    else if id !in s.payouts then Refused(404)
    else if !s.payouts[id].status.Pending? then Refused(409)
    else Done(s.(payouts := s.payouts[id := s.payouts[id].(status := if outcome == "paid" then Paid else Failed)]))
  }
}
