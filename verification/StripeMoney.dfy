/** What each operation does to each balance, and that the balances recomputed from the stored
    objects are those kept up to date operation by operation. */
module StripeMoney {
  import opened StripeStore
  import opened MapSums
  import opened Ledger
  import opened Balances
  import opened StripeOps
  import opened Checkout
  import opened StripeInvariant

  // ---------- the parts of a balance under change ----------

  lemma OwnerKept(s: Store, t: Store, id: string)
    requires AllCharges(s) && Grows(s, t) && id in s.charges
    ensures ChargeOwner(t, t.charges[id]) == ChargeOwner(s, s.charges[id])
  {
    assert ChargeOk(s, id);
  }

  lemma ChargeNetKept(s: Store, t: Store, acct: string, cur: string)
    requires AllCharges(s) && Grows(s, t)
    ensures forall id :: id in s.charges ==> ChargeNet(s, acct, cur, id) == ChargeNet(t, acct, cur, id)
  {
    forall id | id in s.charges ensures ChargeNet(s, acct, cur, id) == ChargeNet(t, acct, cur, id) {
      OwnerKept(s, t, id);
    }
  }

  /** At most one new charge, k. */
  lemma ChargesMove(s: Store, t: Store, acct: string, cur: string, k: string)
    requires AllCharges(s) && Grows(s, t)
    requires t.charges.Keys == s.charges.Keys + {k} || t.charges.Keys == s.charges.Keys
    ensures ChargePart(t, acct, cur) == ChargePart(s, acct, cur) +
            On(t.charges.Keys != s.charges.Keys, ChargeNet(t, acct, cur, k))
  {
    ChargeNetKept(s, t, acct, cur);
    if t.charges.Keys == s.charges.Keys {
      SumSame(s.charges.Keys, id => ChargeNet(s, acct, cur, id), id => ChargeNet(t, acct, cur, id));
    } else {
      SumInsert(s.charges.Keys, id => ChargeNet(s, acct, cur, id), id => ChargeNet(t, acct, cur, id), k);
    }
  }

  lemma RefundNetKept(s: Store, t: Store, acct: string, cur: string)
    requires AllCharges(s) && AllRefunds(s) && Grows(s, t)
    requires forall id :: id in s.refunds ==> id in t.refunds && t.refunds[id] == s.refunds[id]
    ensures forall id :: id in s.refunds ==> RefundNet(s, acct, cur, id) == RefundNet(t, acct, cur, id)
  {
    forall id | id in s.refunds ensures RefundNet(s, acct, cur, id) == RefundNet(t, acct, cur, id) {
      OneRefundKept(s, t, acct, cur, id);
    }
  }

  lemma OneRefundKept(s: Store, t: Store, acct: string, cur: string, id: string)
    requires AllCharges(s) && AllRefunds(s) && Grows(s, t)
    requires id in s.refunds && id in t.refunds && t.refunds[id] == s.refunds[id]
    ensures RefundNet(s, acct, cur, id) == RefundNet(t, acct, cur, id)
  {
    assert RefundOk(s, id);
    OwnerKept(s, t, s.refunds[id].chargeID);
    FeeKept(s.refunds[id], s.charges[s.refunds[id].chargeID], t.charges[s.refunds[id].chargeID]);
  }

  lemma FeeKept(rf: Refund, c: Charge, d: Charge)
    requires ChargeGrows(c, d)
    ensures forall appFee :: RefundedAppFee(rf, c, appFee) == RefundedAppFee(rf, d, appFee)
  {
  }

  lemma RefundsKept(s: Store, t: Store, acct: string, cur: string)
    requires AllCharges(s) && AllRefunds(s) && Grows(s, t) && t.refunds == s.refunds
    ensures RefundPart(t, acct, cur) == RefundPart(s, acct, cur)
  {
    RefundNetKept(s, t, acct, cur);
    SumSame(s.refunds.Keys, id => RefundNet(s, acct, cur, id), id => RefundNet(t, acct, cur, id));
  }

  lemma RefundAdded(s: Store, t: Store, acct: string, cur: string, k: string)
    requires AllCharges(s) && AllRefunds(s) && Grows(s, t)
    requires k !in s.refunds && k in t.refunds && t.refunds == s.refunds[k := t.refunds[k]]
    ensures RefundPart(t, acct, cur) == RefundPart(s, acct, cur) + RefundNet(t, acct, cur, k)
  {
    RefundNetKept(s, t, acct, cur);
    assert t.refunds.Keys == s.refunds.Keys + {k};
    SumInsert(s.refunds.Keys, id => RefundNet(s, acct, cur, id), id => RefundNet(t, acct, cur, id), k);
  }

  /** A transfer put in place of the one there was, if there was one. */
  lemma TransferPut(s: Store, t: Store, acct: string, cur: string, k: string)
    requires k in t.transfers && t.transfers == s.transfers[k := t.transfers[k]]
    ensures TransferPart(t, acct, cur) ==
            TransferPart(s, acct, cur) - TransferNet(s, acct, cur, k) + TransferNet(t, acct, cur, k)
  {
    if k in s.transfers {
      assert t.transfers.Keys == s.transfers.Keys;
      SumUpdate(s.transfers.Keys, id => TransferNet(s, acct, cur, id), id => TransferNet(t, acct, cur, id), k);
    } else {
      assert t.transfers.Keys == s.transfers.Keys + {k};
      SumInsert(s.transfers.Keys, id => TransferNet(s, acct, cur, id), id => TransferNet(t, acct, cur, id), k);
    }
  }

  lemma TransfersKept(s: Store, t: Store, acct: string, cur: string)
    requires t.transfers == s.transfers
    ensures TransferPart(t, acct, cur) == TransferPart(s, acct, cur)
  {
    SumSame(s.transfers.Keys, id => TransferNet(s, acct, cur, id), id => TransferNet(t, acct, cur, id));
  }

  lemma DisputeNetKept(s: Store, t: Store, acct: string, cur: string, id: string)
    requires AllCharges(s) && AllDisputes(s) && Grows(s, t) && id in s.disputes && t.disputes[id] == s.disputes[id]
    ensures DisputeNet(s, acct, cur, id) == DisputeNet(t, acct, cur, id)
  {
    assert DisputeOk(s, id);
    OwnerKept(s, t, s.disputes[id].chargeID);
  }

  lemma DisputesKept(s: Store, t: Store, acct: string, cur: string)
    requires AllCharges(s) && AllDisputes(s) && Grows(s, t) && t.disputes == s.disputes
    ensures DisputePart(t, acct, cur) == DisputePart(s, acct, cur)
  {
    forall id | id in s.disputes { DisputeNetKept(s, t, acct, cur, id); }
    SumSame(s.disputes.Keys, id => DisputeNet(s, acct, cur, id), id => DisputeNet(t, acct, cur, id));
  }

  lemma DisputePut(s: Store, t: Store, acct: string, cur: string, k: string)
    requires AllCharges(s) && AllDisputes(s) && Grows(s, t)
    requires k in t.disputes && t.disputes == s.disputes[k := t.disputes[k]]
    ensures DisputePart(t, acct, cur) ==
            DisputePart(s, acct, cur) - DisputeNet(s, acct, cur, k) + DisputeNet(t, acct, cur, k)
  {
    forall id | id in s.disputes && id != k { DisputeNetKept(s, t, acct, cur, id); }
    if k in s.disputes {
      assert t.disputes.Keys == s.disputes.Keys;
      SumUpdate(s.disputes.Keys, id => DisputeNet(s, acct, cur, id), id => DisputeNet(t, acct, cur, id), k);
    } else {
      assert t.disputes.Keys == s.disputes.Keys + {k};
      SumInsert(s.disputes.Keys, id => DisputeNet(s, acct, cur, id), id => DisputeNet(t, acct, cur, id), k);
    }
  }

  lemma PayoutsKept(s: Store, t: Store, acct: string, cur: string)
    requires t.payouts == s.payouts
    ensures PayoutPart(t, acct, cur) == PayoutPart(s, acct, cur)
  {
    SumSame(s.payouts.Keys, id => PayoutNet(s, acct, cur, id), id => PayoutNet(t, acct, cur, id));
  }

  lemma PayoutPut(s: Store, t: Store, acct: string, cur: string, k: string)
    requires k in t.payouts && t.payouts == s.payouts[k := t.payouts[k]]
    ensures PayoutPart(t, acct, cur) == PayoutPart(s, acct, cur) - PayoutNet(s, acct, cur, k) +
            PayoutNet(t, acct, cur, k)
  {
    if k in s.payouts {
      assert t.payouts.Keys == s.payouts.Keys;
      SumUpdate(s.payouts.Keys, id => PayoutNet(s, acct, cur, id), id => PayoutNet(t, acct, cur, id), k);
    } else {
      assert t.payouts.Keys == s.payouts.Keys + {k};
      SumInsert(s.payouts.Keys, id => PayoutNet(s, acct, cur, id), id => PayoutNet(t, acct, cur, id), k);
    }
  }

  lemma BalanceMoves(s: Store, t: Store, acct: string, cur: string, c: int, r: int, tr: int, d: int, p: int)
    requires ChargePart(t, acct, cur) == ChargePart(s, acct, cur) + c
    requires RefundPart(t, acct, cur) == RefundPart(s, acct, cur) + r
    requires TransferPart(t, acct, cur) == TransferPart(s, acct, cur) + tr
    requires DisputePart(t, acct, cur) == DisputePart(s, acct, cur) + d
    requires PayoutPart(t, acct, cur) == PayoutPart(s, acct, cur) + p
    ensures Balance(t, acct, cur) == Balance(s, acct, cur) + c + r + tr + d + p
  {
    BalanceByParts(s, acct, cur);
    BalanceByParts(t, acct, cur);
  }

  /** Nothing that money hangs on changes. */
  lemma NoMoneyMoves(s: Store, t: Store, acct: string, cur: string)
    requires Invariant(s) && Grows(s, t) && t.charges.Keys == s.charges.Keys
    requires t.refunds == s.refunds && t.transfers == s.transfers && t.disputes == s.disputes && t.payouts == s.payouts
    ensures Balance(t, acct, cur) == Balance(s, acct, cur)
  {
    ChargesMove(s, t, acct, cur, "");
    RefundsKept(s, t, acct, cur);
    TransfersKept(s, t, acct, cur);
    DisputesKept(s, t, acct, cur);
    PayoutsKept(s, t, acct, cur);
    BalanceMoves(s, t, acct, cur, 0, 0, 0, 0, 0);
  }

  // ---------- effects ----------

  /** A charge that nets `net` and owes `appFee`, made as `account`. */
  function ChargeEffect(account: string, appFee: int, net: int, acct: string): int {
    if account == "" then On(acct == "", net) else On(acct == "", appFee) + On(acct == account, net - appFee)
  }

  /** `amount` from the platform to `dest`. */
  function TransferEffect(dest: string, amount: int, acct: string): int {
    On(acct == "", -amount) + On(acct == dest, amount)
  }

  lemma SettleCharges(s: Store, id: string, pi: Intent, captured: int, share: int, chID: string, trID: string, now: int,
                      acct: string, cur: string)
    requires AllIntents(s) && AllCharges(s) && Settles(s, id, pi, captured, share, chID, trID)
    ensures var t := Settle(s, id, pi, captured, share, chID, trID, now);
            ChargePart(t, acct, cur) == ChargePart(s, acct, cur) +
              On(pi.currency == cur, ChargeEffect(pi.account, pi.appFee, captured - StripeFee(captured, cur), acct))
  {
    var t := Settle(s, id, pi, captured, share, chID, trID, now);
    SettleGrows(s, id, pi, captured, share, chID, trID, now);
    SettledCharge(s, id, pi, captured, share, chID, trID, now, acct, cur);
    ChargesMove(s, t, acct, cur, chID);
  }

  lemma SettledCharge(s: Store, id: string, pi: Intent, captured: int, share: int, chID: string, trID: string,
                      now: int, acct: string, cur: string)
    requires AllIntents(s) && Settles(s, id, pi, captured, share, chID, trID)
    ensures var t := Settle(s, id, pi, captured, share, chID, trID, now);
            && t.charges.Keys == s.charges.Keys + {chID} && t.charges.Keys != s.charges.Keys
            && ChargeNet(t, acct, cur, chID) ==
                 On(pi.currency == cur, ChargeEffect(pi.account, pi.appFee, captured - StripeFee(captured, cur), acct))
  {
    assert IntentOk(s, id);
    assert chID in Settle(s, id, pi, captured, share, chID, trID, now).charges.Keys;
  }

  lemma SettleTransfers(s: Store, id: string, pi: Intent, captured: int, share: int, chID: string, trID: string,
                        now: int, acct: string, cur: string)
    requires AllIntents(s) && Settles(s, id, pi, captured, share, chID, trID)
    ensures var t := Settle(s, id, pi, captured, share, chID, trID, now);
            TransferPart(t, acct, cur) == TransferPart(s, acct, cur) +
              On(pi.currency == cur && pi.destination != "", TransferEffect(pi.destination, share, acct))
  {
    var t := Settle(s, id, pi, captured, share, chID, trID, now);
    assert IntentOk(s, id);
    if pi.destination != "" {
      assert t.transfers == s.transfers[trID := t.transfers[trID]];
      TransferPut(s, t, acct, cur, trID);
    } else {
      TransfersKept(s, t, acct, cur);
    }
  }

  /** A settled intent credits its charge to the account it was made as, less the processing fee
      and the application fee, which goes to the platform, and transfers the destination's share. */
  lemma SettleMovesMoney(s: Store, id: string, pi: Intent, captured: int, share: int, chID: string, trID: string,
                         now: int, acct: string, cur: string)
    requires Invariant(s) && Settles(s, id, pi, captured, share, chID, trID)
    ensures var t := Settle(s, id, pi, captured, share, chID, trID, now);
            Balance(t, acct, cur) == Balance(s, acct, cur) +
              On(pi.currency == cur, ChargeEffect(pi.account, pi.appFee, captured - StripeFee(captured, cur), acct)) +
              On(pi.currency == cur && pi.destination != "", TransferEffect(pi.destination, share, acct))
  {
    var t := Settle(s, id, pi, captured, share, chID, trID, now);
    SettleGrows(s, id, pi, captured, share, chID, trID, now);
    SettleCharges(s, id, pi, captured, share, chID, trID, now, acct, cur);
    SettleTransfers(s, id, pi, captured, share, chID, trID, now, acct, cur);
    RefundsKept(s, t, acct, cur);
    DisputesKept(s, t, acct, cur);
    PayoutsKept(s, t, acct, cur);
    BalanceMoves(s, t, acct, cur, ChargePart(t, acct, cur) - ChargePart(s, acct, cur), 0,
                 TransferPart(t, acct, cur) - TransferPart(s, acct, cur), 0, 0);
  }

  /** A refund takes its amount from the charge's owner; the application fee it hands back comes
      from the platform. */
  function RefundShare(s: Store, t: Store, p: RefundParams, rfID: string, acct: string, cur: string): int {
    var chID := RefundedCharge(s, p.chargeID, p.intentID);
    if chID !in s.charges || rfID !in t.refunds then 0
    else
      var ch, rf := s.charges[chID], t.refunds[rfID];
      var (owner, appFee) := ChargeOwner(s, ch);
      On(ch.currency == cur, ChargeEffect(owner, -RefundedAppFee(rf, ch, appFee), -rf.amount, acct))
  }

  /** What it reverses comes from the transfer's destination. */
  function ReversedShare(s: Store, p: RefundParams, acct: string, cur: string): int {
    var chID := RefundedCharge(s, p.chargeID, p.intentID);
    if chID !in s.charges then 0
    else
      var ch := s.charges[chID];
      var back := ReversedByRefund(s, ch, p);
      if back > 0 && s.transfers[ch.transferID].currency == cur
      then TransferEffect(s.transfers[ch.transferID].destination, -back, acct) else 0
  }

  function RefundEffect(s: Store, t: Store, p: RefundParams, rfID: string, acct: string, cur: string): int {
    RefundShare(s, t, p, rfID, acct, cur) + ReversedShare(s, p, acct, cur)
  }

  lemma RefundRefundPart(s: Store, p: RefundParams, rfID: string, rvID: string, now: int, acct: string, cur: string)
    requires AllCharges(s) && AllRefunds(s) && rfID !in s.refunds && ApplyRefund(s, p, rfID, rvID, now).Done?
    ensures var t := ApplyRefund(s, p, rfID, rvID, now).store;
            RefundPart(t, acct, cur) == RefundPart(s, acct, cur) + RefundShare(s, t, p, rfID, acct, cur)
  {
    var t := ApplyRefund(s, p, rfID, rvID, now).store;
    var chID := RefundedCharge(s, p.chargeID, p.intentID);
    assert ChargeOk(s, chID);
    RefundGrows(s, p, rfID, rvID, now);
    RefundAdded(s, t, acct, cur, rfID);
    OwnerKept(s, t, chID);
    RefundedFeeNonNegative(t.refunds[rfID], s.charges[chID], ChargeOwner(s, s.charges[chID]).1);
  }

  lemma RefundOtherParts(s: Store, t: Store, acct: string, cur: string)
    requires Invariant(s) && Grows(s, t)
    requires t == s.(charges := t.charges, transfers := t.transfers, refunds := t.refunds)
    requires t.charges.Keys == s.charges.Keys
    ensures Balance(t, acct, cur) == Balance(s, acct, cur) +
              (RefundPart(t, acct, cur) - RefundPart(s, acct, cur)) +
              (TransferPart(t, acct, cur) - TransferPart(s, acct, cur))
  {
    ChargesMove(s, t, acct, cur, "");
    DisputesKept(s, t, acct, cur);
    PayoutsKept(s, t, acct, cur);
    BalanceMoves(s, t, acct, cur, 0, RefundPart(t, acct, cur) - RefundPart(s, acct, cur),
                 TransferPart(t, acct, cur) - TransferPart(s, acct, cur), 0, 0);
  }

  lemma RefundMovesMoney(s: Store, p: RefundParams, rfID: string, rvID: string, now: int, acct: string, cur: string)
    requires Invariant(s) && rfID !in s.refunds && ApplyRefund(s, p, rfID, rvID, now).Done?
    ensures var t := ApplyRefund(s, p, rfID, rvID, now).store;
            Balance(t, acct, cur) == Balance(s, acct, cur) + RefundEffect(s, t, p, rfID, acct, cur)
  {
    RefundGrows(s, p, rfID, rvID, now);
    RefundRefundPart(s, p, rfID, rvID, now, acct, cur);
    RefundedTransfer(s, p, rfID, rvID, now, acct, cur);
    RefundParts(s, ApplyRefund(s, p, rfID, rvID, now).store, p, rfID, acct, cur);
  }

  lemma RefundParts(s: Store, t: Store, p: RefundParams, rfID: string, acct: string, cur: string)
    requires Invariant(s) && Grows(s, t) && t.charges.Keys == s.charges.Keys
    requires t == s.(charges := t.charges, transfers := t.transfers, refunds := t.refunds)
    requires RefundPart(t, acct, cur) == RefundPart(s, acct, cur) + RefundShare(s, t, p, rfID, acct, cur)
    requires TransferPart(t, acct, cur) == TransferPart(s, acct, cur) + ReversedShare(s, p, acct, cur)
    ensures Balance(t, acct, cur) == Balance(s, acct, cur) + RefundEffect(s, t, p, rfID, acct, cur)
  {
    RefundOtherParts(s, t, acct, cur);
  }

  lemma RefundedTransfer(s: Store, p: RefundParams, rfID: string, rvID: string, now: int, acct: string, cur: string)
    requires AllTransfers(s) && ApplyRefund(s, p, rfID, rvID, now).Done?
    ensures TransferPart(ApplyRefund(s, p, rfID, rvID, now).store, acct, cur) ==
            TransferPart(s, acct, cur) + ReversedShare(s, p, acct, cur)
  {
    var t := ApplyRefund(s, p, rfID, rvID, now).store;
    var ch := s.charges[RefundedCharge(s, p.chargeID, p.intentID)];
    var back := ReversedByRefund(s, ch, p);
    if back > 0 {
      assert TransferOk(s, ch.transferID);
      ReverseSum(s.transfers[ch.transferID], back, rvID, now);
      assert t.transfers == s.transfers[ch.transferID := t.transfers[ch.transferID]];
      TransferPut(s, t, acct, cur, ch.transferID);
    } else {
      TransfersKept(s, t, acct, cur);
    }
  }

  lemma OnlyTransfersMove(s: Store, t: Store, acct: string, cur: string)
    requires Invariant(s) && Grows(s, t) && t == s.(transfers := t.transfers)
    ensures Balance(t, acct, cur) == Balance(s, acct, cur) + (TransferPart(t, acct, cur) - TransferPart(s, acct, cur))
  {
    RefundsKept(s, t, acct, cur);
    RefundOtherParts(s, t, acct, cur);
  }

  lemma OnlyDisputesMove(s: Store, t: Store, acct: string, cur: string)
    requires Invariant(s) && Grows(s, t) && t == s.(disputes := t.disputes, charges := t.charges)
    requires t.charges.Keys == s.charges.Keys
    ensures Balance(t, acct, cur) == Balance(s, acct, cur) + (DisputePart(t, acct, cur) - DisputePart(s, acct, cur))
  {
    ChargesMove(s, t, acct, cur, "");
    RefundsKept(s, t, acct, cur);
    TransfersKept(s, t, acct, cur);
    PayoutsKept(s, t, acct, cur);
    BalanceMoves(s, t, acct, cur, 0, 0, 0, DisputePart(t, acct, cur) - DisputePart(s, acct, cur), 0);
  }

  lemma OnlyPayoutsMove(s: Store, t: Store, acct: string, cur: string)
    requires Invariant(s) && Grows(s, t) && t == s.(payouts := t.payouts)
    ensures Balance(t, acct, cur) == Balance(s, acct, cur) + (PayoutPart(t, acct, cur) - PayoutPart(s, acct, cur))
  {
    ChargesMove(s, t, acct, cur, "");
    RefundsKept(s, t, acct, cur);
    TransfersKept(s, t, acct, cur);
    DisputesKept(s, t, acct, cur);
    BalanceMoves(s, t, acct, cur, 0, 0, 0, 0, PayoutPart(t, acct, cur) - PayoutPart(s, acct, cur));
  }

  function Moved(s: Store, trID: string): int {
    if trID in s.transfers then s.transfers[trID].amount - ReversedSum(s.transfers[trID].reversals) else 0
  }

  /** Transfers and their reversals move money between the platform and one account. */
  lemma TransferMovesMoney(s: Store, trID: string, tr: Transfer, acct: string, cur: string)
    requires Invariant(s) && tr.destination != ""
    requires trID in s.transfers ==> TransferGrows(s.transfers[trID], tr) && tr.currency == s.transfers[trID].currency
    ensures var t := s.(transfers := s.transfers[trID := tr]);
            Balance(t, acct, cur) == Balance(s, acct, cur) +
              On(tr.currency == cur, TransferEffect(tr.destination, Moved(t, trID) - Moved(s, trID), acct))
  {
    var t := s.(transfers := s.transfers[trID := tr]);
    TransferPartMoves(s, t, trID, acct, cur);
    assert Balance(t, acct, cur) ==
           Balance(s, acct, cur) + (TransferPart(t, acct, cur) - TransferPart(s, acct, cur)) by {
      OnlyTransfersMove(s, t, acct, cur);
    }
  }

  lemma TransferPartMoves(s: Store, t: Store, trID: string, acct: string, cur: string)
    requires trID in t.transfers && t.transfers == s.transfers[trID := t.transfers[trID]]
    requires t.transfers[trID].destination != ""
    requires trID in s.transfers ==>
      TransferGrows(s.transfers[trID], t.transfers[trID]) && t.transfers[trID].currency == s.transfers[trID].currency
    ensures var tr := t.transfers[trID];
            TransferPart(t, acct, cur) == TransferPart(s, acct, cur) +
              On(tr.currency == cur, TransferEffect(tr.destination, Moved(t, trID) - Moved(s, trID), acct))
  {
    TransferPut(s, t, acct, cur, trID);
  }

  lemma OpenDisputeMovesMoney(s: Store, intentID: string, dpID: string, now: int, acct: string, cur: string)
    requires Invariant(s) && dpID !in s.disputes && OpenDispute(s, intentID, dpID, now).Done?
    ensures var t := OpenDispute(s, intentID, dpID, now).store;
            var dp := t.disputes[dpID];
            Balance(t, acct, cur) == Balance(s, acct, cur) +
              On(dp.currency == cur && ChargeOwner(s, s.charges[dp.chargeID]).0 == acct, -dp.amount - DISPUTE_FEE)
  {
    var t := OpenDispute(s, intentID, dpID, now).store;
    OpenDisputeGrows(s, intentID, dpID, now);
    OnlyDisputesMove(s, t, acct, cur);
    OwnerKept(s, t, t.disputes[dpID].chargeID);
    DisputePut(s, t, acct, cur, dpID);
  }

  lemma CloseDisputePart(s: Store, id: string, outcome: string, now: int, acct: string, cur: string)
    requires AllCharges(s) && AllDisputes(s) && CloseDispute(s, id, outcome, now).Done?
    ensures var dp := s.disputes[id];
            dp.chargeID in s.charges &&
            DisputePart(CloseDispute(s, id, outcome, now).store, acct, cur) == DisputePart(s, acct, cur) +
              On(outcome == "won" && dp.currency == cur && ChargeOwner(s, s.charges[dp.chargeID]).0 == acct, dp.amount)
  {
    var t := CloseDispute(s, id, outcome, now).store;
    assert DisputeOk(s, id);
    CloseDisputeGrows(s, id, outcome, now);
    OwnerKept(s, t, s.disputes[id].chargeID);
    DisputePut(s, t, acct, cur, id);
  }

  lemma CloseDisputeMovesMoney(s: Store, id: string, outcome: string, now: int, acct: string, cur: string)
    requires Invariant(s) && CloseDispute(s, id, outcome, now).Done?
    ensures var dp := s.disputes[id];
            dp.chargeID in s.charges &&
            Balance(CloseDispute(s, id, outcome, now).store, acct, cur) == Balance(s, acct, cur) +
              On(outcome == "won" && dp.currency == cur && ChargeOwner(s, s.charges[dp.chargeID]).0 == acct, dp.amount)
  {
    CloseDisputeGrows(s, id, outcome, now);
    CloseDisputePart(s, id, outcome, now, acct, cur);
    OnlyDisputesMove(s, CloseDispute(s, id, outcome, now).store, acct, cur);
  }

  predicate Leaves(po: Payout) { !po.status.Failed? && !po.status.CanceledPayout? }

  lemma PayoutMovesMoney(s: Store, poID: string, po: Payout, acct: string, cur: string)
    requires Invariant(s)
    requires poID in s.payouts ==> po == s.payouts[poID].(status := po.status)
    ensures var was := On(poID in s.payouts && Leaves(s.payouts[poID]), po.amount);
            Balance(s.(payouts := s.payouts[poID := po]), acct, cur) == Balance(s, acct, cur) +
              On(po.account == acct && po.currency == cur, was - On(Leaves(po), po.amount))
  {
    var t := s.(payouts := s.payouts[poID := po]);
    PayoutPartMoves(s, t, poID, acct, cur);
    assert Balance(t, acct, cur) ==
           Balance(s, acct, cur) + (PayoutPart(t, acct, cur) - PayoutPart(s, acct, cur)) by {
      OnlyPayoutsMove(s, t, acct, cur);
    }
  }

  lemma PayoutPartMoves(s: Store, t: Store, poID: string, acct: string, cur: string)
    requires poID in t.payouts && t.payouts == s.payouts[poID := t.payouts[poID]]
    requires poID in s.payouts ==> t.payouts[poID] == s.payouts[poID].(status := t.payouts[poID].status)
    ensures var po := t.payouts[poID];
            PayoutPart(t, acct, cur) == PayoutPart(s, acct, cur) + On(po.account == acct && po.currency == cur,
              On(poID in s.payouts && Leaves(s.payouts[poID]), po.amount) - On(Leaves(po), po.amount))
  {
    PayoutPut(s, t, acct, cur, poID);
  }

  lemma OneMoreCharge(s: Store, t: Store, chID: string, acct: string, cur: string)
    requires Invariant(s) && Grows(s, t) && t.charges.Keys == s.charges.Keys + {chID} && chID !in s.charges
    requires t.refunds == s.refunds && t.transfers == s.transfers && t.disputes == s.disputes && t.payouts == s.payouts
    ensures Balance(t, acct, cur) == Balance(s, acct, cur) + ChargeNet(t, acct, cur, chID)
  {
    ChargesMove(s, t, acct, cur, chID);
    RefundsKept(s, t, acct, cur);
    TransfersKept(s, t, acct, cur);
    DisputesKept(s, t, acct, cur);
    PayoutsKept(s, t, acct, cur);
    BalanceMoves(s, t, acct, cur, ChargeNet(t, acct, cur, chID), 0, 0, 0, 0);
  }

  /** A paid checkout credits the platform with its total, less the processing fee. */
  lemma CheckoutMovesMoney(s: Store, id: string, sess: Session, piID: string, chID: string, now: int,
                           acct: string, cur: string)
    requires Invariant(s) && piID !in s.intents && piID != "" && chID !in s.charges && chID != ""
    ensures Balance(PaidStore(s, id, sess, piID, chID, now), acct, cur) == Balance(s, acct, cur) +
              On(acct == "" && sess.currency == cur && sess.Total() != 0, sess.Total() - StripeFee(sess.Total(), cur))
  {
    var t := PaidStore(s, id, sess, piID, chID, now);
    if sess.Total() == 0 {
      NoMoneyMoves(s, t, acct, cur);
    } else {
      PaidShape(s, id, sess, piID, chID, now, acct, cur);
      OneMoreCharge(s, t, chID, acct, cur);
    }
  }

  lemma PaidShape(s: Store, id: string, sess: Session, piID: string, chID: string, now: int, acct: string, cur: string)
    requires sess.Total() != 0 && piID !in s.intents && chID !in s.charges
    ensures var t := PaidStore(s, id, sess, piID, chID, now);
            && Grows(s, t) && t.charges.Keys == s.charges.Keys + {chID}
            && ChargeNet(t, acct, cur, chID) ==
                 On(acct == "" && sess.currency == cur, sess.Total() - StripeFee(sess.Total(), cur))
  {
  }
}
