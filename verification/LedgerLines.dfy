/** Which lines stand on which ledger, for the platform and for connected accounts alike. */
module LedgerLines {
  import opened StripeStore
  import opened Ledger

  /** The account a charge was made as, "" for the platform, and the application fee taken for it. */
  function MadeAs(s: Store, ch: Charge): string {
    if ch.intentID in s.intents then s.intents[ch.intentID].account else ""
  }

  function FeeTaken(s: Store, ch: Charge): int {
    if ch.intentID in s.intents && s.intents[ch.intentID].account != "" then s.intents[ch.intentID].appFee else 0
  }

  /** A charge stands where it was made, with the fees it bears; the application fee of one made as an
      account stands on the platform's. */
  ghost predicate ChargeShows(s: Store, acct: string, id: string, e: Entry) {
    id in s.charges &&
    var ch := s.charges[id];
    || (MadeAs(s, ch) == acct && e == Entry(ch.created, ChargeEntry, id, ch.currency, ch.captured,
                                            StripeFee(ch.captured, ch.currency) + FeeTaken(s, ch), false))
    || (acct == "" && MadeAs(s, ch) != "" && FeeTaken(s, ch) > 0 &&
        e == Entry(ch.created, ApplicationFee, id, ch.currency, FeeTaken(s, ch), 0, false))
  }

  /** A refund stands where its charge does; the fee it hands back comes from the platform. */
  ghost predicate RefundShows(s: Store, acct: string, id: string, e: Entry) {
    id in s.refunds && s.refunds[id].chargeID in s.charges &&
    var rf := s.refunds[id];
    var ch := s.charges[rf.chargeID];
    var back := RefundedAppFee(rf, ch, FeeTaken(s, ch));
    || (MadeAs(s, ch) == acct && e == Entry(rf.created, RefundEntry, id, rf.currency, -rf.amount, -back, false))
    || (acct == "" && MadeAs(s, ch) != "" && back > 0 &&
        e == Entry(rf.created, ApplicationFeeRefund, id, rf.currency, -back, 0, false))
  }

  /** A transfer and its reversals stand on the platform's ledger and, with the signs reversed, on the
      destination's. */
  ghost predicate TransferShows(s: Store, acct: string, id: string, e: Entry) {
    id in s.transfers && (acct == "" || s.transfers[id].destination == acct) &&
    var tr := s.transfers[id];
    || e == (if acct == "" then Entry(tr.created, TransferEntry, id, tr.currency, -tr.amount, 0, false)
             else Entry(tr.created, PaymentEntry, id, tr.currency, tr.amount, 0, false))
    || exists rv :: rv in tr.reversals &&
         e == if acct == "" then Entry(rv.created, TransferReversal, rv.id, tr.currency, rv.amount, 0, false)
              else Entry(rv.created, PaymentRefund, rv.id, tr.currency, -rv.amount, 0, false)
  }

  /** A dispute stands where its charge does: the withdrawal with its fee, and what is won back. */
  ghost predicate DisputeShows(s: Store, acct: string, id: string, e: Entry) {
    id in s.disputes && s.disputes[id].chargeID in s.charges && MadeAs(s, s.charges[s.disputes[id].chargeID]) == acct &&
    var dp := s.disputes[id];
    || e == Entry(dp.created, Adjustment, id, dp.currency, -dp.amount, 2000, false)
    || (dp.status.Won? && e == Entry(dp.closedAt, Adjustment, id, dp.currency, dp.amount, 0, false))
  }

  ghost predicate PayoutShows(s: Store, acct: string, id: string, e: Entry) {
    id in s.payouts && s.payouts[id].account == acct &&
    var po := s.payouts[id];
    e == Entry(po.created, PayoutEntry, id, po.currency, -po.amount, 0, po.status.Failed? || po.status.CanceledPayout?)
  }

  lemma {:induction false} GatherHas(keys: set<string>, lines: string -> seq<Entry>, e: Entry)
    ensures e in Gather(keys, lines) <==> exists k :: k in keys && e in lines(k)
    decreases |keys|
  {
    if k :| k in keys {
      GatherRemove(keys, lines, k);
      GatherHas(keys - {k}, lines, e);
      assert e in multiset(lines(k)) <==> e in lines(k);
    }
  }

  lemma ChargeLinesShow(s: Store, acct: string, id: string, e: Entry)
    requires id in s.charges
    ensures e in ChargeLines(s, acct, id) <==> ChargeShows(s, acct, id, e)
  {
  }

  lemma RefundLinesShow(s: Store, acct: string, id: string, e: Entry)
    requires id in s.refunds
    ensures e in RefundLines(s, acct, id) <==> RefundShows(s, acct, id, e)
  {
  }

  function PlatformLine(tr: Transfer, rv: Reversal): Entry {
    Entry(rv.created, TransferReversal, rv.id, tr.currency, rv.amount, 0, false)
  }

  function ConnectedLine(tr: Transfer, rv: Reversal): Entry {
    Entry(rv.created, PaymentRefund, rv.id, tr.currency, -rv.amount, 0, false)
  }

  lemma {:induction false} PlatformReversalsHave(tr: Transfer, n: nat, e: Entry)
    requires n <= |tr.reversals|
    ensures e in PlatformReversals(tr, n) <==> exists k :: 0 <= k < n && e == PlatformLine(tr, tr.reversals[k])
  {
    if n > 0 {
      PlatformReversalsHave(tr, n - 1, e);
    }
  }

  lemma {:induction false} ConnectedReversalsHave(tr: Transfer, n: nat, e: Entry)
    requires n <= |tr.reversals|
    ensures e in ConnectedReversals(tr, n) <==> exists k :: 0 <= k < n && e == ConnectedLine(tr, tr.reversals[k])
  {
    if n > 0 {
      ConnectedReversalsHave(tr, n - 1, e);
    }
  }

  lemma TransferLinesShow(s: Store, acct: string, id: string, e: Entry)
    requires id in s.transfers
    ensures e in TransferLines(s, acct, id) <==> TransferShows(s, acct, id, e)
  {
    var tr := s.transfers[id];
    PlatformReversalsHave(tr, |tr.reversals|, e);
    ConnectedReversalsHave(tr, |tr.reversals|, e);
  }

  lemma DisputeLinesShow(s: Store, acct: string, id: string, e: Entry)
    requires id in s.disputes
    ensures e in DisputeLines(s, acct, id) <==> DisputeShows(s, acct, id, e)
  {
  }

  lemma PayoutLinesShow(s: Store, acct: string, id: string, e: Entry)
    requires id in s.payouts
    ensures e in PayoutLines(s, acct, id) <==> PayoutShows(s, acct, id, e)
  {
  }

  lemma ChargesShow(s: Store, acct: string, e: Entry)
    ensures e in Gather(s.charges.Keys, id => ChargeLines(s, acct, id)) <==> exists id :: ChargeShows(s, acct, id, e)
  {
    GatherHas(s.charges.Keys, id => ChargeLines(s, acct, id), e);
    forall id | id in s.charges { ChargeLinesShow(s, acct, id, e); }
  }

  lemma RefundsShow(s: Store, acct: string, e: Entry)
    ensures e in Gather(s.refunds.Keys, id => RefundLines(s, acct, id)) <==> exists id :: RefundShows(s, acct, id, e)
  {
    GatherHas(s.refunds.Keys, id => RefundLines(s, acct, id), e);
    forall id | id in s.refunds { RefundLinesShow(s, acct, id, e); }
  }

  lemma TransfersShow(s: Store, acct: string, e: Entry)
    ensures e in Gather(s.transfers.Keys, id => TransferLines(s, acct, id)) <==>
      exists id :: TransferShows(s, acct, id, e)
  {
    GatherHas(s.transfers.Keys, id => TransferLines(s, acct, id), e);
    forall id | id in s.transfers { TransferLinesShow(s, acct, id, e); }
  }

  lemma DisputesShow(s: Store, acct: string, e: Entry)
    ensures e in Gather(s.disputes.Keys, id => DisputeLines(s, acct, id)) <==> exists id :: DisputeShows(s, acct, id, e)
  {
    GatherHas(s.disputes.Keys, id => DisputeLines(s, acct, id), e);
    forall id | id in s.disputes { DisputeLinesShow(s, acct, id, e); }
  }

  lemma PayoutsShow(s: Store, acct: string, e: Entry)
    ensures e in Gather(s.payouts.Keys, id => PayoutLines(s, acct, id)) <==> exists id :: PayoutShows(s, acct, id, e)
  {
    GatherHas(s.payouts.Keys, id => PayoutLines(s, acct, id), e);
    forall id | id in s.payouts { PayoutLinesShow(s, acct, id, e); }
  }

  /** The line that a ledger shows for an object of the store. */
  ghost predicate Shows(s: Store, acct: string, id: string, e: Entry) {
    || ChargeShows(s, acct, id, e) || RefundShows(s, acct, id, e) || TransferShows(s, acct, id, e)
    || DisputeShows(s, acct, id, e) || PayoutShows(s, acct, id, e)
  }

  /** A ledger, the platform's or a connected account's, consists of exactly these lines. */
  lemma LedgerShows(s: Store, acct: string, e: Entry)
    ensures e in LedgerOf(s, acct) <==> exists id :: Shows(s, acct, id, e)
  {
    ChargesShow(s, acct, e);
    RefundsShow(s, acct, e);
    TransfersShow(s, acct, e);
    DisputesShow(s, acct, e);
    PayoutsShow(s, acct, e);
    if id :| ChargeShows(s, acct, id, e) {
      assert Shows(s, acct, id, e);
    }
    if id :| RefundShows(s, acct, id, e) {
      assert Shows(s, acct, id, e);
    }
    if id :| TransferShows(s, acct, id, e) {
      assert Shows(s, acct, id, e);
    }
    if id :| DisputeShows(s, acct, id, e) {
      assert Shows(s, acct, id, e);
    }
    if id :| PayoutShows(s, acct, id, e) {
      assert Shows(s, acct, id, e);
    }
  }
}
