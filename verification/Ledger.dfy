/** Ledgers and balances, derived from the stored objects on every read: once for the platform
    and once, separately written, for a connected account. */
module Ledger {
  import opened StripeStore
  import opened MapSums

  datatype EntryType =
    | ChargeEntry | RefundEntry | TransferEntry | TransferReversal | PaymentEntry | PaymentRefund
    | ApplicationFee | ApplicationFeeRefund | Adjustment | PayoutEntry

  datatype Entry = Entry(
    created: int,
    kind: EntryType,
    source: string,
    currency: string,
    amount: int,
    fee: int,
    failed: bool)  // a payout that failed or was canceled
  {
    /** What the entry does to the balance. */
    function Net(): int {
      if kind.PayoutEntry? && failed then 0 else amount - fee
    }
  }

  const DISPUTE_FEE := 2000

  function StripeFee(amount: int, currency: string): int {
    if amount <= 0 then 0
    else if currency == "gbp" || currency == "eur" then (amount * 15 + 500) / 1000 + 20
    else (amount * 29 + 500) / 1000 + 30
  }

  /** The connected account a charge was made as, and the application fee it owes. */
  function ChargeOwner(s: Store, ch: Charge): (string, int) {
    if ch.intentID in s.intents && s.intents[ch.intentID].account != "" then
      (s.intents[ch.intentID].account, s.intents[ch.intentID].appFee)
    else ("", 0)
  }

  /** Go's division, which truncates, on operands that are not negative here. */
  function RefundedAppFee(rf: Refund, ch: Charge, appFee: int): int {
    if !rf.refundAppFee || appFee <= 0 || ch.captured <= 0 then 0
    else TruncDiv(appFee * rf.amount, ch.captured)
  }

  function TruncDiv(a: int, b: int): int
    requires b > 0
  {
    if a >= 0 then a / b else -(-a / b)
  }

  function PayoutLine(id: string, po: Payout): Entry {
    Entry(po.created, PayoutEntry, id, po.currency, -po.amount, 0, po.status.Failed? || po.status.CanceledPayout?)
  }

  // ---------- what each object contributes ----------

  function PlatformCharge(s: Store, id: string): seq<Entry> {
    if id !in s.charges then []
    else
      var ch := s.charges[id];
      var (owner, appFee) := ChargeOwner(s, ch);
      if owner != "" then
        if appFee > 0 then [Entry(ch.created, ApplicationFee, id, ch.currency, appFee, 0, false)] else []
      else [Entry(ch.created, ChargeEntry, id, ch.currency, ch.captured, StripeFee(ch.captured, ch.currency), false)]
  }

  function PlatformRefund(s: Store, id: string): seq<Entry> {
    if id !in s.refunds || s.refunds[id].chargeID !in s.charges then []
    else
      var rf := s.refunds[id];
      var ch := s.charges[rf.chargeID];
      var (owner, appFee) := ChargeOwner(s, ch);
      if owner != "" then
        var back := RefundedAppFee(rf, ch, appFee);
        if back > 0 then [Entry(rf.created, ApplicationFeeRefund, id, rf.currency, -back, 0, false)] else []
      else [Entry(rf.created, RefundEntry, id, rf.currency, -rf.amount, 0, false)]
  }

  function PlatformReversals(tr: Transfer, n: nat): seq<Entry>
    requires n <= |tr.reversals|
  {
    if n == 0 then []
    else
      var rv := tr.reversals[n - 1];
      PlatformReversals(tr, n - 1) + [Entry(rv.created, TransferReversal, rv.id, tr.currency, rv.amount, 0, false)]
  }

  function PlatformTransfer(s: Store, id: string): seq<Entry> {
    if id !in s.transfers then []
    else
      var tr := s.transfers[id];
      [Entry(tr.created, TransferEntry, id, tr.currency, -tr.amount, 0, false)] + PlatformReversals(tr, |tr.reversals|)
  }

  function ConnectedReversals(tr: Transfer, n: nat): seq<Entry>
    requires n <= |tr.reversals|
  {
    if n == 0 then []
    else
      var rv := tr.reversals[n - 1];
      ConnectedReversals(tr, n - 1) + [Entry(rv.created, PaymentRefund, rv.id, tr.currency, -rv.amount, 0, false)]
  }

  function ConnectedTransfer(s: Store, acct: string, id: string): seq<Entry> {
    if id !in s.transfers || s.transfers[id].destination != acct then []
    else
      var tr := s.transfers[id];
      [Entry(tr.created, PaymentEntry, id, tr.currency, tr.amount, 0, false)] + ConnectedReversals(tr, |tr.reversals|)
  }

  function ConnectedCharge(s: Store, acct: string, id: string): seq<Entry> {
    if id !in s.charges || ChargeOwner(s, s.charges[id]).0 != acct then []
    else
      var ch := s.charges[id];
      [Entry(ch.created, ChargeEntry, id, ch.currency, ch.captured,
             StripeFee(ch.captured, ch.currency) + ChargeOwner(s, ch).1, false)]
  }

  function ConnectedRefund(s: Store, acct: string, id: string): seq<Entry> {
    if id !in s.refunds || s.refunds[id].chargeID !in s.charges then []
    else
      var rf := s.refunds[id];
      var ch := s.charges[rf.chargeID];
      if ChargeOwner(s, ch).0 != acct then []
      else [Entry(rf.created, RefundEntry, id, rf.currency, -rf.amount,
                  -RefundedAppFee(rf, ch, ChargeOwner(s, ch).1), false)]
  }

  function DisputeLines(s: Store, acct: string, id: string): seq<Entry> {
    if id !in s.disputes || s.disputes[id].chargeID !in s.charges then []
    else
      var dp := s.disputes[id];
      if ChargeOwner(s, s.charges[dp.chargeID]).0 != acct then []
      else
        [Entry(dp.created, Adjustment, id, dp.currency, -dp.amount, DISPUTE_FEE, false)] +
        if dp.status.Won? then [Entry(dp.closedAt, Adjustment, id, dp.currency, dp.amount, 0, false)] else []
  }

  function PayoutLines(s: Store, acct: string, id: string): seq<Entry> {
    if id !in s.payouts || s.payouts[id].account != acct then [] else [PayoutLine(id, s.payouts[id])]
  }

  // ---------- ledgers as multisets ----------

  /** What a loop over the keys appends, in whatever order the keys come. */
  ghost function Gather(keys: set<string>, lines: string -> seq<Entry>): multiset<Entry> {
    if keys == {} then multiset{}
    else
      var k :| k in keys;
      multiset(lines(k)) + Gather(keys - {k}, lines)
  }

  lemma {:induction false} GatherRemove(keys: set<string>, lines: string -> seq<Entry>, k: string)
    requires k in keys
    ensures Gather(keys, lines) == multiset(lines(k)) + Gather(keys - {k}, lines)
    decreases |keys|
  {
    var j :| j in keys && Gather(keys, lines) == multiset(lines(j)) + Gather(keys - {j}, lines);
    if j != k {
      GatherRemove(keys - {j}, lines, k);
      GatherRemove(keys - {k}, lines, j);
      assert keys - {j} - {k} == keys - {k} - {j};
    }
  }

  // The lines an object puts on the platform's ledger ("") or on a connected account's.

  function ChargeLines(s: Store, acct: string, id: string): seq<Entry> {
    if acct == "" then PlatformCharge(s, id) else ConnectedCharge(s, acct, id)
  }

  function RefundLines(s: Store, acct: string, id: string): seq<Entry> {
    if acct == "" then PlatformRefund(s, id) else ConnectedRefund(s, acct, id)
  }

  function TransferLines(s: Store, acct: string, id: string): seq<Entry> {
    if acct == "" then PlatformTransfer(s, id) else ConnectedTransfer(s, acct, id)
  }

  ghost function LedgerOf(s: Store, acct: string): multiset<Entry> {
    Gather(s.charges.Keys, id => ChargeLines(s, acct, id)) +
    Gather(s.refunds.Keys, id => RefundLines(s, acct, id)) +
    Gather(s.transfers.Keys, id => TransferLines(s, acct, id)) +
    Gather(s.disputes.Keys, id => DisputeLines(s, acct, id)) +
    Gather(s.payouts.Keys, id => PayoutLines(s, acct, id))
  }

  // ---------- balances ----------

  /** The net of a ledger in one currency. */
  ghost function NetOf(ledger: multiset<Entry>, currency: string): int {
    if ledger == multiset{} then 0
    else
      var e :| e in ledger;
      (if e.currency == currency then e.Net() else 0) + NetOf(ledger - multiset{e}, currency)
  }

  function NetLine(e: Entry, currency: string): int {
    if e.currency == currency then e.Net() else 0
  }

  lemma TakeTwo(ledger: multiset<Entry>, d: Entry, e: Entry)
    requires d in ledger && e in ledger && d != e
    ensures e in ledger - multiset{d} && d in ledger - multiset{e}
    ensures ledger - multiset{d} - multiset{e} == ledger - multiset{e} - multiset{d}
    ensures |ledger - multiset{d}| < |ledger| && |ledger - multiset{e}| < |ledger|
  {
  }

  lemma {:induction false} NetRemove(ledger: multiset<Entry>, currency: string, e: Entry)
    requires e in ledger
    ensures NetOf(ledger, currency) == NetLine(e, currency) + NetOf(ledger - multiset{e}, currency)
    decreases |ledger|
  {
    var d :| d in ledger && NetOf(ledger, currency) == NetLine(d, currency) + NetOf(ledger - multiset{d}, currency);
    if d != e {
      TakeTwo(ledger, d, e);
      NetRemove(ledger - multiset{d}, currency, e);
      NetRemove(ledger - multiset{e}, currency, d);
    }
  }

  lemma {:induction false} NetUnion(a: multiset<Entry>, b: multiset<Entry>, currency: string)
    ensures NetOf(a + b, currency) == NetOf(a, currency) + NetOf(b, currency)
    decreases |a|
  {
    if e :| e in a {
      NetRemove(a, currency, e);
      NetRemove(a + b, currency, e);
      assert a + b - multiset{e} == (a - multiset{e}) + b;
      NetUnion(a - multiset{e}, b, currency);
    } else {
      assert a + b == b;
    }
  }

  function NetSeq(lines: seq<Entry>, currency: string): int {
    if lines == [] then 0
    else NetSeq(lines[..|lines| - 1], currency) + NetLine(lines[|lines| - 1], currency)
  }

  lemma {:induction false} NetOfSeq(lines: seq<Entry>, currency: string)
    ensures NetOf(multiset(lines), currency) == NetSeq(lines, currency)
  {
    if lines != [] {
      var init, last := lines[..|lines| - 1], lines[|lines| - 1];
      assert lines == init + [last];
      NetRemove(multiset(lines), currency, last);
      assert multiset(lines) - multiset{last} == multiset(init);
      NetOfSeq(init, currency);
    }
  }

  lemma {:induction false} NetGather(keys: set<string>, lines: string -> seq<Entry>, currency: string)
    ensures NetOf(Gather(keys, lines), currency) == SumOver(keys, id => NetSeq(lines(id), currency))
    decreases |keys|
  {
    if k :| k in keys {
      GatherRemove(keys, lines, k);
      SumRemove(keys, id => NetSeq(lines(id), currency), k);
      NetUnion(multiset(lines(k)), Gather(keys - {k}, lines), currency);
      NetOfSeq(lines(k), currency);
      NetGather(keys - {k}, lines, currency);
    }
  }

  /** acct's balance in a currency, "" being the platform. */
  ghost function Balance(s: Store, acct: string, currency: string): int {
    NetOf(LedgerOf(s, acct), currency)
  }
}
