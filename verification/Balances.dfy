/** Balances added up object by object, and the conservation of money across all ledgers. */
module Balances {
  import opened StripeStore
  import opened MapSums
  import opened Ledger

  function On(condition: bool, amount: int): int {
    if condition then amount else 0
  }

  function ReversedSum(rs: seq<Reversal>): int {
    if rs == [] then 0 else ReversedSum(rs[..|rs| - 1]) + rs[|rs| - 1].amount
  }

  // ---------- what one object does to one balance ----------

  function ChargeNet(s: Store, acct: string, cur: string, id: string): int {
    if id !in s.charges || s.charges[id].currency != cur then 0
    else
      var ch := s.charges[id];
      var (owner, appFee) := ChargeOwner(s, ch);
      var net := ch.captured - StripeFee(ch.captured, cur);
      if owner == "" then On(acct == "", net)
      else On(acct == "" && appFee > 0, appFee) + On(acct == owner, net - appFee)
  }

  function RefundNet(s: Store, acct: string, cur: string, id: string): int {
    if id !in s.refunds || s.refunds[id].chargeID !in s.charges || s.refunds[id].currency != cur then 0
    else
      var rf := s.refunds[id];
      var ch := s.charges[rf.chargeID];
      var (owner, appFee) := ChargeOwner(s, ch);
      var back := RefundedAppFee(rf, ch, appFee);
      if owner == "" then On(acct == "", -rf.amount)
      else On(acct == "" && back > 0, -back) + On(acct == owner, back - rf.amount)
  }

  function TransferNet(s: Store, acct: string, cur: string, id: string): int {
    if id !in s.transfers || s.transfers[id].currency != cur then 0
    else
      var tr := s.transfers[id];
      var net := tr.amount - ReversedSum(tr.reversals);
      if acct == "" then -net else On(tr.destination == acct, net)
  }

  function DisputeNet(s: Store, acct: string, cur: string, id: string): int {
    if id !in s.disputes || s.disputes[id].chargeID !in s.charges || s.disputes[id].currency != cur then 0
    else
      var dp := s.disputes[id];
      On(ChargeOwner(s, s.charges[dp.chargeID]).0 == acct, -DISPUTE_FEE - On(!dp.status.Won?, dp.amount))
  }

  function PayoutNet(s: Store, acct: string, cur: string, id: string): int {
    if id !in s.payouts || s.payouts[id].currency != cur then 0
    else
      var po := s.payouts[id];
      On(po.account == acct && !po.status.Failed? && !po.status.CanceledPayout?, -po.amount)
  }

  // ---------- the parts of a balance ----------

  ghost function ChargePart(s: Store, acct: string, cur: string): int {
    SumOver(s.charges.Keys, id => ChargeNet(s, acct, cur, id))
  }

  ghost function RefundPart(s: Store, acct: string, cur: string): int {
    SumOver(s.refunds.Keys, id => RefundNet(s, acct, cur, id))
  }

  ghost function TransferPart(s: Store, acct: string, cur: string): int {
    SumOver(s.transfers.Keys, id => TransferNet(s, acct, cur, id))
  }

  ghost function DisputePart(s: Store, acct: string, cur: string): int {
    SumOver(s.disputes.Keys, id => DisputeNet(s, acct, cur, id))
  }

  ghost function PayoutPart(s: Store, acct: string, cur: string): int {
    SumOver(s.payouts.Keys, id => PayoutNet(s, acct, cur, id))
  }

  lemma NetOne(e: Entry, cur: string)
    ensures NetSeq([e], cur) == NetLine(e, cur)
  {
    assert [e][..0] == [];
  }

  lemma NetTwo(d: Entry, e: Entry, cur: string)
    ensures NetSeq([d] + [e], cur) == NetLine(d, cur) + NetLine(e, cur)
  {
    assert ([d] + [e])[..1] == [d];
    NetOne(d, cur);
  }

  lemma {:induction false} NetPrepend(d: Entry, lines: seq<Entry>, cur: string)
    ensures NetSeq([d] + lines, cur) == NetLine(d, cur) + NetSeq(lines, cur)
  {
    if lines == [] {
      NetOne(d, cur);
      assert [d] + lines == [d];
    } else {
      assert ([d] + lines)[..|lines|] == [d] + lines[..|lines| - 1];
      NetPrepend(d, lines[..|lines| - 1], cur);
    }
  }

  lemma NetAppend(lines: seq<Entry>, e: Entry, cur: string)
    ensures NetSeq(lines + [e], cur) == NetSeq(lines, cur) + NetLine(e, cur)
  {
    assert (lines + [e])[..|lines|] == lines;
  }

  lemma ReversedStep(rs: seq<Reversal>, n: nat)
    requires 0 < n <= |rs|
    ensures ReversedSum(rs[..n]) == ReversedSum(rs[..n - 1]) + rs[n - 1].amount
  {
    assert rs[..n][..n - 1] == rs[..n - 1];
  }

  lemma {:induction false} NetPlatformReversals(tr: Transfer, n: nat, cur: string)
    requires n <= |tr.reversals|
    ensures NetSeq(PlatformReversals(tr, n), cur) == On(tr.currency == cur, ReversedSum(tr.reversals[..n]))
  {
    if n > 0 {
      NetPlatformReversals(tr, n - 1, cur);
      ReversedStep(tr.reversals, n);
      var rv := tr.reversals[n - 1];
      NetAppend(PlatformReversals(tr, n - 1),
                Entry(rv.created, TransferReversal, rv.id, tr.currency, rv.amount, 0, false), cur);
    }
  }

  lemma {:induction false} NetConnectedReversals(tr: Transfer, n: nat, cur: string)
    requires n <= |tr.reversals|
    ensures NetSeq(ConnectedReversals(tr, n), cur) == On(tr.currency == cur, -ReversedSum(tr.reversals[..n]))
  {
    if n > 0 {
      NetConnectedReversals(tr, n - 1, cur);
      ReversedStep(tr.reversals, n);
      var rv := tr.reversals[n - 1];
      NetAppend(ConnectedReversals(tr, n - 1),
                Entry(rv.created, PaymentRefund, rv.id, tr.currency, -rv.amount, 0, false), cur);
    }
  }

  lemma ChargeLinesNet(s: Store, acct: string, cur: string, id: string)
    ensures NetSeq(ChargeLines(s, acct, id), cur) == ChargeNet(s, acct, cur, id)
  {
    var lines := ChargeLines(s, acct, id);
    if lines != [] {
      assert lines == [lines[0]];
      NetOne(lines[0], cur);
    }
  }

  lemma RefundLinesNet(s: Store, acct: string, cur: string, id: string)
    ensures NetSeq(RefundLines(s, acct, id), cur) == RefundNet(s, acct, cur, id)
  {
    var lines := RefundLines(s, acct, id);
    if lines != [] {
      assert lines == [lines[0]];
      NetOne(lines[0], cur);
    }
  }

  lemma TransferWithReversals(tr: Transfer, id: string, cur: string)
    ensures NetSeq([Entry(tr.created, TransferEntry, id, tr.currency, -tr.amount, 0, false)] +
                   PlatformReversals(tr, |tr.reversals|), cur) ==
            On(tr.currency == cur, ReversedSum(tr.reversals) - tr.amount)
    ensures NetSeq([Entry(tr.created, PaymentEntry, id, tr.currency, tr.amount, 0, false)] +
                   ConnectedReversals(tr, |tr.reversals|), cur) ==
            On(tr.currency == cur, tr.amount - ReversedSum(tr.reversals))
  {
    NetPlatformReversals(tr, |tr.reversals|, cur);
    NetConnectedReversals(tr, |tr.reversals|, cur);
    assert tr.reversals[..|tr.reversals|] == tr.reversals;
    NetPrepend(Entry(tr.created, TransferEntry, id, tr.currency, -tr.amount, 0, false),
               PlatformReversals(tr, |tr.reversals|), cur);
    NetPrepend(Entry(tr.created, PaymentEntry, id, tr.currency, tr.amount, 0, false),
               ConnectedReversals(tr, |tr.reversals|), cur);
  }

  lemma TransferLinesNet(s: Store, acct: string, cur: string, id: string)
    ensures NetSeq(TransferLines(s, acct, id), cur) == TransferNet(s, acct, cur, id)
  {
    if id in s.transfers {
      TransferWithReversals(s.transfers[id], id, cur);
    }
  }

  lemma DisputeLinesNet(s: Store, acct: string, cur: string, id: string)
    ensures NetSeq(DisputeLines(s, acct, id), cur) == DisputeNet(s, acct, cur, id)
  {
    if id in s.disputes {
      var dp := s.disputes[id];
      var out := Entry(dp.created, Adjustment, id, dp.currency, -dp.amount, DISPUTE_FEE, false);
      var back := Entry(dp.closedAt, Adjustment, id, dp.currency, dp.amount, 0, false);
      NetOne(out, cur);
      NetTwo(out, back, cur);
      assert [out] + [] == [out];
    }
  }

  lemma PayoutLinesNet(s: Store, acct: string, cur: string, id: string)
    ensures NetSeq(PayoutLines(s, acct, id), cur) == PayoutNet(s, acct, cur, id)
  {
    if id in s.payouts {
      NetOne(PayoutLine(id, s.payouts[id]), cur);
    }
  }

  /** Both folds, read object by object. */
  lemma BalanceByParts(s: Store, acct: string, cur: string)
    ensures Balance(s, acct, cur) == ChargePart(s, acct, cur) + RefundPart(s, acct, cur) +
                                     TransferPart(s, acct, cur) + DisputePart(s, acct, cur) + PayoutPart(s, acct, cur)
  {
    var chs, rfs := (id: string) => ChargeLines(s, acct, id), (id: string) => RefundLines(s, acct, id);
    var trs, dps := (id: string) => TransferLines(s, acct, id), (id: string) => DisputeLines(s, acct, id);
    var pos := (id: string) => PayoutLines(s, acct, id);
    var c, r, t := Gather(s.charges.Keys, chs), Gather(s.refunds.Keys, rfs), Gather(s.transfers.Keys, trs);
    var d, p := Gather(s.disputes.Keys, dps), Gather(s.payouts.Keys, pos);
    NetUnion(c + r + t + d, p, cur);
    NetUnion(c + r + t, d, cur);
    NetUnion(c + r, t, cur);
    NetUnion(c, r, cur);
    forall id { ChargeLinesNet(s, acct, cur, id); }
    NetPart(s.charges.Keys, chs, id => ChargeNet(s, acct, cur, id), cur);
    forall id { RefundLinesNet(s, acct, cur, id); }
    NetPart(s.refunds.Keys, rfs, id => RefundNet(s, acct, cur, id), cur);
    forall id { TransferLinesNet(s, acct, cur, id); }
    NetPart(s.transfers.Keys, trs, id => TransferNet(s, acct, cur, id), cur);
    forall id { DisputeLinesNet(s, acct, cur, id); }
    NetPart(s.disputes.Keys, dps, id => DisputeNet(s, acct, cur, id), cur);
    forall id { PayoutLinesNet(s, acct, cur, id); }
    NetPart(s.payouts.Keys, pos, id => PayoutNet(s, acct, cur, id), cur);
  }

  lemma NetPart(keys: set<string>, lines: string -> seq<Entry>, net: string -> int, cur: string)
    requires forall id :: id in keys ==> NetSeq(lines(id), cur) == net(id)
    ensures NetOf(Gather(keys, lines), cur) == SumOver(keys, net)
  {
    NetGather(keys, lines, cur);
    SumSame(keys, id => NetSeq(lines(id), cur), net);
  }

  // ---------- conservation ----------

  /** The accounts that any stored object puts money on or takes it from. */
  ghost predicate Covers(s: Store, accts: set<string>) {
    && "" in accts
    && (forall id :: id in s.charges ==> ChargeOwner(s, s.charges[id]).0 in accts)
    && (forall id :: id in s.transfers ==> s.transfers[id].destination in accts && s.transfers[id].destination != "")
    && (forall id :: id in s.payouts ==> s.payouts[id].account in accts)
  }

  /** What every write to the store upholds: no fee and no refund is negative. */
  ghost predicate NonNegative(s: Store) {
    && (forall id :: id in s.intents ==> s.intents[id].appFee >= 0)
    && (forall id :: id in s.refunds ==> s.refunds[id].amount >= 0)
  }

  // What each object moves across the border of the system.

  function ChargeIn(s: Store, cur: string, id: string): int {
    if id in s.charges && s.charges[id].currency == cur then
      s.charges[id].captured - StripeFee(s.charges[id].captured, cur)
    else 0
  }

  function RefundOut(s: Store, cur: string, id: string): int {
    if id in s.refunds && s.refunds[id].chargeID in s.charges && s.refunds[id].currency == cur then
      -s.refunds[id].amount
    else 0
  }

  function DisputeOut(s: Store, cur: string, id: string): int {
    if id in s.disputes && s.disputes[id].chargeID in s.charges && s.disputes[id].currency == cur then
      -DISPUTE_FEE - On(!s.disputes[id].status.Won?, s.disputes[id].amount)
    else 0
  }

  function PayoutOut(s: Store, cur: string, id: string): int {
    if id in s.payouts && s.payouts[id].currency == cur then
      On(!s.payouts[id].status.Failed? && !s.payouts[id].status.CanceledPayout?, -s.payouts[id].amount)
    else 0
  }

  /** Captured charges less processing fees, refunds, disputes with their fees (won ones give
      the money back but not the fee) and payouts that did not fail. */
  ghost function NetInflow(s: Store, cur: string): int {
    SumOver(s.charges.Keys, id => ChargeIn(s, cur, id)) +
    SumOver(s.refunds.Keys, id => RefundOut(s, cur, id)) +
    SumOver(s.disputes.Keys, id => DisputeOut(s, cur, id)) +
    SumOver(s.payouts.Keys, id => PayoutOut(s, cur, id))
  }

  ghost function TotalBalance(s: Store, accts: set<string>, cur: string): int {
    SumOver(accts, a => Balance(s, a, cur))
  }

  lemma ChargeAcross(s: Store, accts: set<string>, cur: string, id: string)
    requires Covers(s, accts) && NonNegative(s) && id in s.charges
    ensures SumOver(accts, a => ChargeNet(s, a, cur, id)) == ChargeIn(s, cur, id)
  {
    SumOfTwo(accts, a => ChargeNet(s, a, cur, id), "", ChargeOwner(s, s.charges[id]).0);
  }

  /** What owning a charge means: it stands on the owner's ledger and on no other; a connected owner's
      application fee stands on the platform's; and what the two get comes to the charge less the
      processing fee. */
  lemma OwnerBearsCharge(s: Store, acct: string, cur: string, id: string)
    requires id in s.charges && ChargeOwner(s, s.charges[id]).1 >= 0
    ensures var (owner, fee) := ChargeOwner(s, s.charges[id]);
            && ((exists e :: e in ChargeLines(s, acct, id) && e.kind.ChargeEntry?) <==> acct == owner)
            && ((exists e :: e in ChargeLines(s, acct, id) && e.kind.ApplicationFee?) <==>
                  acct == "" && owner != "" && fee > 0)
            && (acct != owner && acct != "" ==> ChargeLines(s, acct, id) == [])
            && NetSeq(ChargeLines(s, owner, id), cur) +
                 (if owner == "" then 0 else NetSeq(ChargeLines(s, "", id), cur)) == ChargeIn(s, cur, id)
  {
    var (owner, fee) := ChargeOwner(s, s.charges[id]);
    ChargeLinesNet(s, owner, cur, id);
    ChargeLinesNet(s, "", cur, id);
    var lines := ChargeLines(s, acct, id);
    if lines != [] {
      assert lines[0] in lines;
    }
  }

  lemma RefundedFeeNonNegative(rf: Refund, ch: Charge, appFee: int)
    requires rf.amount >= 0
    ensures RefundedAppFee(rf, ch, appFee) >= 0
  {
    if rf.refundAppFee && appFee > 0 && ch.captured > 0 {
      assert appFee * rf.amount >= 0;
    }
  }

  lemma RefundAcross(s: Store, accts: set<string>, cur: string, id: string)
    requires Covers(s, accts) && NonNegative(s) && id in s.refunds
    ensures SumOver(accts, a => RefundNet(s, a, cur, id)) == RefundOut(s, cur, id)
  {
    if s.refunds[id].chargeID in s.charges {
      var ch := s.charges[s.refunds[id].chargeID];
      RefundedFeeNonNegative(s.refunds[id], ch, ChargeOwner(s, ch).1);
      SumOfTwo(accts, a => RefundNet(s, a, cur, id), "", ChargeOwner(s, ch).0);
    } else {
      SumZero(accts, a => RefundNet(s, a, cur, id));
    }
  }

  lemma TransferAcross(s: Store, accts: set<string>, cur: string, id: string)
    requires Covers(s, accts) && id in s.transfers
    ensures SumOver(accts, a => TransferNet(s, a, cur, id)) == 0
  {
    SumOfTwo(accts, a => TransferNet(s, a, cur, id), "", s.transfers[id].destination);
  }

  lemma DisputeAcross(s: Store, accts: set<string>, cur: string, id: string)
    requires Covers(s, accts) && id in s.disputes
    ensures SumOver(accts, a => DisputeNet(s, a, cur, id)) == DisputeOut(s, cur, id)
  {
    if s.disputes[id].chargeID in s.charges {
      var owner := ChargeOwner(s, s.charges[s.disputes[id].chargeID]).0;
      SumOfTwo(accts, a => DisputeNet(s, a, cur, id), owner, owner);
    } else {
      SumZero(accts, a => DisputeNet(s, a, cur, id));
    }
  }

  lemma PayoutAcross(s: Store, accts: set<string>, cur: string, id: string)
    requires Covers(s, accts) && id in s.payouts
    ensures SumOver(accts, a => PayoutNet(s, a, cur, id)) == PayoutOut(s, cur, id)
  {
    SumOfTwo(accts, a => PayoutNet(s, a, cur, id), s.payouts[id].account, s.payouts[id].account);
  }

  /** Money is conserved: the platform's balance and those of all accounts that hold any come to
      what has flowed in, per currency. Transfers, reversals, application fees and their refunds
      cancel between the two separately written folds. */
  lemma MoneyIsConserved(s: Store, accts: set<string>, cur: string)
    requires Covers(s, accts) && NonNegative(s)
    ensures TotalBalance(s, accts, cur) == NetInflow(s, cur)
  {
    var c, r, t := a => ChargePart(s, a, cur), a => RefundPart(s, a, cur), a => TransferPart(s, a, cur);
    var d, p := a => DisputePart(s, a, cur), a => PayoutPart(s, a, cur);
    forall a { BalanceByParts(s, a, cur); }
    SumOfFive(accts, c, r, t, d, p, a => Balance(s, a, cur));
    ChargesAcross(s, accts, cur);
    RefundsAcross(s, accts, cur);
    TransfersAcross(s, accts, cur);
    DisputesAcross(s, accts, cur);
    PayoutsAcross(s, accts, cur);
  }

  lemma SumOfFive(keys: set<string>, c: string -> int, r: string -> int, t: string -> int, d: string -> int,
                  p: string -> int, all: string -> int)
    requires forall a :: a in keys ==> all(a) == c(a) + r(a) + t(a) + d(a) + p(a)
    ensures SumOver(keys, all) == SumOver(keys, c) + SumOver(keys, r) + SumOver(keys, t) + SumOver(keys, d) +
            SumOver(keys, p)
  {
    SumPlus(keys, c, r, a => c(a) + r(a));
    SumPlus(keys, a => c(a) + r(a), t, a => c(a) + r(a) + t(a));
    SumPlus(keys, a => c(a) + r(a) + t(a), d, a => c(a) + r(a) + t(a) + d(a));
    SumPlus(keys, a => c(a) + r(a) + t(a) + d(a), p, all);
  }

  lemma ChargesAcross(s: Store, accts: set<string>, cur: string)
    requires Covers(s, accts) && NonNegative(s)
    ensures SumOver(accts, a => ChargePart(s, a, cur)) == SumOver(s.charges.Keys, id => ChargeIn(s, cur, id))
  {
    var net := (a: string, id: string) => ChargeNet(s, a, cur, id);
    forall a ensures ChargePart(s, a, cur) == RowSum(s.charges.Keys, net, a) {
      RowSumIs(s.charges.Keys, net, a, id => ChargeNet(s, a, cur, id));
    }
    forall id | id in s.charges ensures ColumnSum(accts, net, id) == ChargeIn(s, cur, id) {
      ChargeAcross(s, accts, cur, id);
      ColumnSumIs(accts, net, id, a => ChargeNet(s, a, cur, id));
    }
    RowsAndColumns(accts, s.charges.Keys, net, a => ChargePart(s, a, cur), id => ChargeIn(s, cur, id));
  }

  lemma RefundsAcross(s: Store, accts: set<string>, cur: string)
    requires Covers(s, accts) && NonNegative(s)
    ensures SumOver(accts, a => RefundPart(s, a, cur)) == SumOver(s.refunds.Keys, id => RefundOut(s, cur, id))
  {
    var net := (a: string, id: string) => RefundNet(s, a, cur, id);
    forall a ensures RefundPart(s, a, cur) == RowSum(s.refunds.Keys, net, a) {
      RowSumIs(s.refunds.Keys, net, a, id => RefundNet(s, a, cur, id));
    }
    forall id | id in s.refunds ensures ColumnSum(accts, net, id) == RefundOut(s, cur, id) {
      RefundAcross(s, accts, cur, id);
      ColumnSumIs(accts, net, id, a => RefundNet(s, a, cur, id));
    }
    RowsAndColumns(accts, s.refunds.Keys, net, a => RefundPart(s, a, cur), id => RefundOut(s, cur, id));
  }

  lemma TransfersAcross(s: Store, accts: set<string>, cur: string)
    requires Covers(s, accts)
    ensures SumOver(accts, a => TransferPart(s, a, cur)) == 0
  {
    var net := (a: string, id: string) => TransferNet(s, a, cur, id);
    forall a ensures TransferPart(s, a, cur) == RowSum(s.transfers.Keys, net, a) {
      RowSumIs(s.transfers.Keys, net, a, id => TransferNet(s, a, cur, id));
    }
    forall id | id in s.transfers ensures ColumnSum(accts, net, id) == 0 {
      TransferAcross(s, accts, cur, id);
      ColumnSumIs(accts, net, id, a => TransferNet(s, a, cur, id));
    }
    RowsAndColumns(accts, s.transfers.Keys, net, a => TransferPart(s, a, cur), id => 0);
    SumZero(s.transfers.Keys, id => 0);
  }

  lemma DisputesAcross(s: Store, accts: set<string>, cur: string)
    requires Covers(s, accts)
    ensures SumOver(accts, a => DisputePart(s, a, cur)) == SumOver(s.disputes.Keys, id => DisputeOut(s, cur, id))
  {
    var net := (a: string, id: string) => DisputeNet(s, a, cur, id);
    forall a ensures DisputePart(s, a, cur) == RowSum(s.disputes.Keys, net, a) {
      RowSumIs(s.disputes.Keys, net, a, id => DisputeNet(s, a, cur, id));
    }
    forall id | id in s.disputes ensures ColumnSum(accts, net, id) == DisputeOut(s, cur, id) {
      DisputeAcross(s, accts, cur, id);
      ColumnSumIs(accts, net, id, a => DisputeNet(s, a, cur, id));
    }
    RowsAndColumns(accts, s.disputes.Keys, net, a => DisputePart(s, a, cur), id => DisputeOut(s, cur, id));
  }

  lemma PayoutsAcross(s: Store, accts: set<string>, cur: string)
    requires Covers(s, accts)
    ensures SumOver(accts, a => PayoutPart(s, a, cur)) == SumOver(s.payouts.Keys, id => PayoutOut(s, cur, id))
  {
    var net := (a: string, id: string) => PayoutNet(s, a, cur, id);
    forall a ensures PayoutPart(s, a, cur) == RowSum(s.payouts.Keys, net, a) {
      RowSumIs(s.payouts.Keys, net, a, id => PayoutNet(s, a, cur, id));
    }
    forall id | id in s.payouts ensures ColumnSum(accts, net, id) == PayoutOut(s, cur, id) {
      PayoutAcross(s, accts, cur, id);
      ColumnSumIs(accts, net, id, a => PayoutNet(s, a, cur, id));
    }
    RowsAndColumns(accts, s.payouts.Keys, net, a => PayoutPart(s, a, cur), id => PayoutOut(s, cur, id));
  }
}
