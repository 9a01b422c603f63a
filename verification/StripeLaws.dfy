/** What operations on disputes, payouts, transfers, refunds, sessions and codes come to when one
    follows another. */
module StripeLaws {
  import opened AsciiCase
  import opened StripeStore
  import opened MapSums
  import opened Sorting
  import opened Ledger
  import opened Balances
  import opened StripeOps
  import opened Checkout
  import opened StripeInvariant
  import opened StripeMoney
  import opened StripeRuns

  // ---------- disputes ----------

  lemma OpenedDispute(s: Store, intentID: string, dpID: string, now: int)
    requires OpenDispute(s, intentID, dpID, now).Done?
    ensures var t := OpenDispute(s, intentID, dpID, now).store;
            && s.intents[intentID].chargeID in s.charges
            && dpID in t.disputes && t.disputes[dpID].status.NeedsResponse?
            && t.disputes[dpID].chargeID == s.intents[intentID].chargeID
            && t.disputes[dpID].currency == s.charges[s.intents[intentID].chargeID].currency
            && t.disputes[dpID].amount ==
               s.charges[s.intents[intentID].chargeID].captured - s.charges[s.intents[intentID].chargeID].refunded
  {
  }

  /** A dispute that is won costs the account the charge was made as exactly the fee of 2000; one
      that is lost costs it all that was left of the charge as well. */
  lemma DisputeCosts(s: Store, intentID: string, dpID: string, start: int, outcome: string, closed: int,
                     acct: string, cur: string)
    requires Invariant(s) && dpID !in s.disputes && dpID != "" && OpenDispute(s, intentID, dpID, start).Done?
    requires outcome == "won" || outcome == "lost"
    ensures var t := OpenDispute(s, intentID, dpID, start).store;
            var r := CloseDispute(t, dpID, outcome, closed);
            var ch := s.charges[s.intents[intentID].chargeID];
            && r.Done?
            && Balance(r.store, acct, cur) == Balance(s, acct, cur) -
                 On(ChargeOwner(s, ch).0 == acct && ch.currency == cur,
                    2000 + On(outcome == "lost", ch.captured - ch.refunded))
  {
    var t := OpenDispute(s, intentID, dpID, start).store;
    OpenedDispute(s, intentID, dpID, start);
    OpenDisputeKeeps(s, intentID, dpID, start);
    OpenDisputeMovesMoney(s, intentID, dpID, start, acct, cur);
    CloseDisputeMovesMoney(t, dpID, outcome, closed, acct, cur);
    OwnerKept(s, t, s.intents[intentID].chargeID);
  }

  // ---------- payouts ----------

  /** A payout that fails costs nothing, whether it was asked for by amount or was of the whole
      balance: every balance is what it was before the payout. */
  lemma FailedPayoutCostsNothing(s: Store, poID: string, po: Payout, acct: string, cur: string)
    requires Invariant(s) && poID !in s.payouts && po.status.Pending? && po.amount > 0
    ensures var t := s.(payouts := s.payouts[poID := po]);
            var r := CompletePayout(t, poID, "fail");
            r.Done? && Balance(r.store, acct, cur) == Balance(s, acct, cur)
  {
    var t := s.(payouts := s.payouts[poID := po]);
    PayoutsMove(s, poID, po);
    PayoutMovesMoney(s, poID, po, acct, cur);
    PayoutMovesMoney(t, poID, po.(status := Failed), acct, cur);
  }

  /** Currencies that occur on a ledger. */
  ghost function Currencies(ledger: multiset<Entry>): set<string> {
    set e | e in ledger :: e.currency
  }

  lemma {:induction false} NetOutside(ledger: multiset<Entry>, cur: string)
    requires cur !in Currencies(ledger)
    ensures NetOf(ledger, cur) == 0
    decreases |ledger|
  {
    if e :| e in ledger {
      NetRemove(ledger, cur, e);
      assert Currencies(ledger - multiset{e}) <= Currencies(ledger);
      NetOutside(ledger - multiset{e}, cur);
    }
  }

  lemma {:induction false} LeastString(names: set<string>) returns (least: string)
    requires names != {}
    ensures least in names && forall n :: n in names ==> StringLe(least, n)
    decreases |names|
  {
    least :| least in names;
    if names != {least} {
      var first := least;
      assert names == {first} + (names - {first});
      var other := LeastString(names - {first});
      StringTotal(first, other);
      StringTotal(first, first);
      if !StringLe(first, other) {
        least := other;
      }
      forall n | n in names - {first} ensures StringLe(least, n) {
        if least == first {
          StringTransitive(first, other, n);
        }
      }
    } else {
      StringTotal(least, least);
    }
  }

  /** There is a first currency held exactly when there is any. */
  lemma FirstPositiveExists(s: Store, acct: string, cur: string)
    requires Balance(s, acct, cur) > 0
    ensures exists c :: FirstPositive(s, acct, c)
  {
    var held := set c | c in Currencies(LedgerOf(s, acct)) && Balance(s, acct, c) > 0;
    forall c | Balance(s, acct, c) > 0 ensures c in held {
      if c !in Currencies(LedgerOf(s, acct)) {
        NetOutside(LedgerOf(s, acct), c);
      }
    }
    var least := LeastString(held);
    assert FirstPositive(s, acct, least);
  }

  lemma FirstPositiveUnique(s: Store, acct: string, c: string, d: string)
    requires FirstPositive(s, acct, c) && FirstPositive(s, acct, d)
    ensures c == d
  {
    StringTotal(c, d);
  }

  /** Paying out a balance is refused only for accounts unknown or holding nothing; otherwise it
      leaves nothing in the first currency held and touches no other balance of any account. */
  lemma PayOutEmpties(s: Store, acct: string, poID: string, now: int)
    requires Invariant(s) && poID !in s.payouts
    ensures var r := PayOutBalance(s, acct, poID, now);
            && (r.Done? <==> acct != "" && acct in s.accounts && exists c :: Balance(s, acct, c) > 0)
            && (r.Done? ==> exists c :: FirstPositive(s, acct, c) && EmptiesOnly(s, r.store, acct, c))
  {
    if acct != "" && acct in s.accounts {
      if c0 :| Balance(s, acct, c0) > 0 {
        FirstPositiveExists(s, acct, c0);
      }
    }
    var r := PayOutBalance(s, acct, poID, now);
    if r.Done? {
      var c := PaidOut(s, acct, poID, now);
      PayingOutEmpties(s, acct, poID, c, now);
    }
  }

  lemma PaidOut(s: Store, acct: string, poID: string, now: int) returns (c: string)
    requires PayOutBalance(s, acct, poID, now).Done?
    ensures FirstPositive(s, acct, c)
    ensures PayOutBalance(s, acct, poID, now) ==
            Done(s.(payouts := s.payouts[poID := Payout(Balance(s, acct, c), c, acct, Pending, now)]))
  {
    c := PayOutBalance(s, acct, poID, now).store.payouts[poID].currency;
  }

  lemma PayingOutMoves(s: Store, acct: string, poID: string, c: string, now: int, a: string, d: string)
    requires Invariant(s) && poID !in s.payouts
    ensures Balance(s.(payouts := s.payouts[poID := Payout(Balance(s, acct, c), c, acct, Pending, now)]), a, d) ==
            if a == acct && d == c then 0 else Balance(s, a, d)
  {
    PayoutMovesMoney(s, poID, Payout(Balance(s, acct, c), c, acct, Pending, now), a, d);
  }

  lemma PayingOutEmpties(s: Store, acct: string, poID: string, c: string, now: int)
    requires Invariant(s) && poID !in s.payouts
    ensures EmptiesOnly(s,
                        s.(payouts := s.payouts[poID := Payout(Balance(s, acct, c), c, acct, Pending, now)]), acct, c)
  {
    forall a, d {
      PayingOutMoves(s, acct, poID, c, now, a, d);
    }
  }

  ghost predicate EmptiesOnly(s: Store, t: Store, acct: string, cur: string) {
    forall a, c :: Balance(t, a, c) == if a == acct && c == cur then 0 else Balance(s, a, c)
  }

  // ---------- transfers ----------

  /** A transfer that draws on no charge never takes the platform below zero. */
  lemma TransferLeavesPlatformSolvent(s: Store, p: TransferParams, capable: bool, trID: string, now: int)
    requires Invariant(s) && trID !in s.transfers && p.source == "" && CreateTransfer(s, p, capable, trID, now).Done?
    ensures Balance(CreateTransfer(s, p, capable, trID, now).store, "", p.currency) ==
            Balance(s, "", p.currency) - p.amount.n >= 0
  {
    TransferMovesMoney(s, trID, Transfer(p.amount.n, p.currency, p.destination, p.source, now, 0, []), "", p.currency);
  }

  lemma FullReversal(t: Store, trID: string, rvID: string, now: int)
    requires trID in t.transfers && t.transfers[trID].reversals == [] && t.transfers[trID].reversed == 0
    requires t.transfers[trID].amount > 0
    ensures var tr := t.transfers[trID];
            ReverseTransfer(t, trID, Number(0), rvID, now) ==
                Done(t.(transfers := t.transfers[trID := Reverse(tr, tr.amount, rvID, now)]))
    ensures Moved(ReverseTransfer(t, trID, Number(0), rvID, now).store, trID) == 0
  {
    ReverseSum(t.transfers[trID], t.transfers[trID].amount, rvID, now);
  }

  lemma NothingMoreToReverse(t: Store, trID: string, n: Parsed, rvID: string, now: int)
    requires trID in t.transfers && t.transfers[trID].amount == t.transfers[trID].reversed
    ensures ReverseTransfer(t, trID, n, rvID, now).Refused?
  {
  }

  lemma Forth(s: Store, trID: string, tr: Transfer, acct: string, cur: string)
    requires Invariant(s) && trID !in s.transfers && trID != "" && (tr.source != "" ==> tr.source in s.charges)
    requires tr.destination != "" && tr.amount > 0 && tr.reversed == 0 && tr.reversals == []
    ensures var t := s.(transfers := s.transfers[trID := tr]);
            && Invariant(t)
            && Balance(t, acct, cur) == Balance(s, acct, cur) +
                 On(tr.currency == cur, TransferEffect(tr.destination, tr.amount, acct))
  {
    TransfersMove(s, trID, tr);
    TransferMovesMoney(s, trID, tr, acct, cur);
  }

  lemma Back(t: Store, trID: string, rvID: string, now: int, acct: string, cur: string)
    requires Invariant(t) && trID in t.transfers
    requires t.transfers[trID].reversed == 0 && t.transfers[trID].reversals == []
    ensures var tr := t.transfers[trID];
            Balance(t.(transfers := t.transfers[trID := Reverse(tr, tr.amount, rvID, now)]), acct, cur) ==
            Balance(t, acct, cur) + On(tr.currency == cur, TransferEffect(tr.destination, -tr.amount, acct))
  {
    var tr := t.transfers[trID];
    assert TransferOk(t, trID);
    ReverseSum(tr, tr.amount, rvID, now);
    TransferMovesMoney(t, trID, Reverse(tr, tr.amount, rvID, now), acct, cur);
  }

  /** Transfer and full reversal leave every balance where it was, and nothing further to reverse. */
  lemma ReversalUndoesTransfer(s: Store, p: TransferParams, capable: bool, trID: string, rvID: string, now: int,
                               later: int, again: Parsed, acct: string, cur: string)
    requires Invariant(s) && trID !in s.transfers && trID != "" && CreateTransfer(s, p, capable, trID, now).Done?
    ensures var t := CreateTransfer(s, p, capable, trID, now).store;
            var r := ReverseTransfer(t, trID, Number(0), rvID, later);
            && r.Done? && Balance(r.store, acct, cur) == Balance(s, acct, cur)
            && ReverseTransfer(r.store, trID, again, rvID, later).Refused?
  {
    UndoneTransfer(s, trID, Transfer(p.amount.n, p.currency, p.destination, p.source, now, 0, []), rvID, later,
                   again, acct, cur);
  }

  lemma UndoneTransfer(s: Store, trID: string, tr: Transfer, rvID: string, later: int, again: Parsed,
                       acct: string, cur: string)
    requires Invariant(s) && trID !in s.transfers && trID != "" && (tr.source != "" ==> tr.source in s.charges)
    requires tr.destination != "" && tr.amount > 0
    requires tr.reversed == 0 && tr.reversals == []
    ensures var r := ReverseTransfer(s.(transfers := s.transfers[trID := tr]), trID, Number(0), rvID, later);
            && r.Done? && Balance(r.store, acct, cur) == Balance(s, acct, cur)
            && ReverseTransfer(r.store, trID, again, rvID, later).Refused?
  {
    var t := s.(transfers := s.transfers[trID := tr]);
    var back := t.(transfers := t.transfers[trID := Reverse(tr, tr.amount, rvID, later)]);
    FullReversal(t, trID, rvID, later);
    NothingMoreToReverse(back, trID, again, rvID, later);
    assert Balance(back, acct, cur) == Balance(s, acct, cur) by {
      Forth(s, trID, tr, acct, cur);
      Back(t, trID, rvID, later, acct, cur);
    }
  }

  // ---------- what a settlement sends on ----------

  lemma NothingDrawnYet(s: Store, chID: string)
    requires AllTransfers(s) && chID !in s.charges && chID != ""
    ensures SumOver(s.transfers.Keys, id => DrawnFrom(s, chID, id)) == 0
  {
    forall id | id in s.transfers ensures DrawnFrom(s, chID, id) == 0 {
      assert TransferOk(s, id);
    }
    SumZero(s.transfers.Keys, id => DrawnFrom(s, chID, id));
  }

  lemma DrawsShare(s: Store, id: string, pi: Intent, captured: int, share: int, chID: string, trID: string, now: int)
    requires AllTransfers(s) && Settles(s, id, pi, captured, share, chID, trID) && pi.destination != ""
    ensures var t := Settle(s, id, pi, captured, share, chID, trID, now);
            chID in t.charges && ChargeAvailable(t, chID) == captured - share
  {
    var t := Settle(s, id, pi, captured, share, chID, trID, now);
    NothingDrawnYet(s, chID);
    assert t.transfers.Keys == s.transfers.Keys + {trID};
    SumInsert(s.transfers.Keys, k => DrawnFrom(s, chID, k), k => DrawnFrom(t, chID, k), trID);
  }

  /** A charge of which more was sent on than captured, and what that comes to: its rest available
      for transfers is negative, and the platform pays the difference. */
  ghost predicate SentOn(s: Store, t: Store, pi: Intent, captured: int, share: int, chID: string, trID: string) {
    && chID in t.charges && t.charges[chID].captured == captured
    && trID in t.transfers && t.transfers[trID].amount == share && t.transfers[trID].source == chID
    && ChargeAvailable(t, chID) == captured - share
    && Balance(t, "", pi.currency) == Balance(s, "", pi.currency) +
         (if pi.account == "" then captured - StripeFee(captured, pi.currency) else pi.appFee) - share
  }

  lemma SettleSendsOn(s: Store, id: string, pi: Intent, captured: int, share: int, chID: string, trID: string, now: int)
    requires Invariant(s) && Settles(s, id, pi, captured, share, chID, trID) && pi.destination != ""
    ensures SentOn(s, Settle(s, id, pi, captured, share, chID, trID, now), pi, captured, share, chID, trID)
  {
    DrawsShare(s, id, pi, captured, share, chID, trID, now);
    SettleMovesMoney(s, id, pi, captured, share, chID, trID, now, "", pi.currency);
  }

  /** A capture sends on what transfer_data.amount asks for, or else the capture less the fee, and
      overdraws its charge if and only if more is asked for than the request captures. */
  lemma ShareWithinCapture(s: Store, id: string, n: Parsed, chID: string, trID: string, now: int)
    requires Invariant(s) && FreshCharge(s, chID, trID) && CaptureIntent(s, id, n, chID, trID, now).Done?
    requires s.intents[id].destination != ""
    ensures var t := CaptureIntent(s, id, n, chID, trID, now).store;
            && trID in t.transfers
            && SentOn(s, t, s.intents[id], Captured(s, id, n), t.transfers[trID].amount, chID, trID)
            && (ChargeAvailable(t, chID) < 0 <==> s.intents[id].destinationAmount > Captured(s, id, n))
  {
    assert IntentOk(s, id);
    var pi, captured, share := CaptureSettles(s, id, n, chID, trID, now);
    SettleSendsOn(s, id, pi, captured, share, chID, trID, now);
    CapturedIs(s, id, n, chID, trID, now);
  }

  /** The same when the dashboard completes an intent, which captures all of it. */
  lemma ShareWithinAmount(s: Store, id: string, chID: string, trID: string, now: int)
    requires Invariant(s) && FreshCharge(s, chID, trID) && CompleteIntent(s, id, "succeed", chID, trID, now).Done?
    requires s.intents[id].destination != ""
    ensures var t := CompleteIntent(s, id, "succeed", chID, trID, now).store;
            trID in t.transfers &&
            SentOn(s, t, s.intents[id], s.intents[id].amount, t.transfers[trID].amount, chID, trID)
    ensures ChargeAvailable(CompleteIntent(s, id, "succeed", chID, trID, now).store, chID) < 0 <==>
            s.intents[id].destinationAmount > s.intents[id].amount
  {
    assert IntentOk(s, id);
    var pi, captured, share := SuccessSettles(s, id, chID, trID, now);
    SettleSendsOn(s, id, pi, captured, share, chID, trID, now);
  }

  // ---------- refunds ----------

  function FeeBack(s: Store, chID: string, id: string): int {
    if id in s.refunds && s.refunds[id].chargeID == chID && chID in s.charges then
      RefundedAppFee(s.refunds[id], s.charges[chID], ChargeOwner(s, s.charges[chID]).1)
    else 0
  }

  lemma FeeShare(appFee: int, amount: int, captured: int)
    requires appFee >= 0 && amount >= 0 && captured > 0
    ensures TruncDiv(appFee * amount, captured) * captured <= appFee * amount
  {
    assert appFee * amount >= 0;
  }

  lemma TimesStep(a: int, b: int, c: int, d: int, m: int, n: int)
    requires a * m <= n * b && c * m <= n * d
    ensures (a + c) * m <= n * (b + d)
  {
  }

  lemma {:induction false} SumTimes<K>(keys: set<K>, f: K -> int, g: K -> int, m: int, n: int)
    requires forall k :: k in keys ==> AtMostTimes(f(k), g(k), m, n)
    ensures AtMostTimes(SumOver(keys, f), SumOver(keys, g), m, n)
    decreases |keys|
  {
    if k :| k in keys {
      SumRemove(keys, f, k);
      SumRemove(keys, g, k);
      SumTimes(keys - {k}, f, g, m, n);
      TimesStep(f(k), g(k), SumOver(keys - {k}, f), SumOver(keys - {k}, g), m, n);
    }
  }

  predicate AtMostTimes(a: int, b: int, m: int, n: int) { a * m <= n * b }

  lemma CancelFactor(a: int, fee: int, refunded: int, captured: int)
    requires a * captured <= fee * refunded && 0 <= refunded <= captured && captured > 0 && fee >= 0
    ensures a <= fee
  {
    assert fee * refunded <= fee * captured;
    assert (fee - a) * captured >= 0;
  }

  lemma FeeBackOfOne(s: Store, chID: string, id: string)
    requires AllRefunds(s) && chID in s.charges && s.charges[chID].captured > 0 && id in s.refunds
    requires ChargeOwner(s, s.charges[chID]).1 >= 0
    ensures 0 <= FeeBack(s, chID, id)
    ensures AtMostTimes(FeeBack(s, chID, id), RefundOf(s, chID, id), s.charges[chID].captured,
                        ChargeOwner(s, s.charges[chID]).1)
  {
    var fee := ChargeOwner(s, s.charges[chID]).1;
    assert RefundOk(s, id);
    RefundedFeeNonNegative(s.refunds[id], s.charges[chID], fee);
    FeeShare(fee, s.refunds[id].amount, s.charges[chID].captured);
    assert 0 <= fee * s.refunds[id].amount;
  }

  /** However a charge is refunded, in as many parts as there may be, the application fee that
      is handed back never exceeds the one that was taken. */
  lemma FeesBackWithinFee(s: Store, chID: string)
    requires Invariant(s) && chID in s.charges
    ensures 0 <= SumOver(s.refunds.Keys, id => FeeBack(s, chID, id)) <= ChargeOwner(s, s.charges[chID]).1
  {
    var ch := s.charges[chID];
    var fee := ChargeOwner(s, ch).1;
    assert ChargeOk(s, chID);
    assert IntentOk(s, ch.intentID);
    forall id | id in s.refunds {
      FeeBackOfOne(s, chID, id);
    }
    SumNonNegative(s.refunds.Keys, id => FeeBack(s, chID, id));
    SumTimes(s.refunds.Keys, id => FeeBack(s, chID, id), id => RefundOf(s, chID, id), ch.captured, fee);
    CancelFactor(SumOver(s.refunds.Keys, id => FeeBack(s, chID, id)), fee, ch.refunded, ch.captured);
  }

  function Disputed(s: Store, chID: string): int {
    if chID in s.charges && s.charges[chID].disputeID in s.disputes then
        s.disputes[s.charges[chID].disputeID].amount else 0
  }

  /** What buyers get back for a charge, by refunds and by its dispute, never exceeds what was
      captured; once disputed it is all of it, and nothing more can be refunded. */
  lemma NothingGivenBackTwice(s: Store, chID: string, p: RefundParams, rfID: string, rvID: string, now: int)
    requires Invariant(s) && chID in s.charges
    ensures RefundedSum(s, chID) + Disputed(s, chID) <= s.charges[chID].captured
    ensures Disputed(s, chID) > 0 ==> RefundedSum(s, chID) + Disputed(s, chID) == s.charges[chID].captured
    ensures Disputed(s, chID) > 0 && p.chargeID == chID ==> ApplyRefund(s, p, rfID, rvID, now).Refused?
  {
    assert ChargeOk(s, chID);
    if s.charges[chID].disputeID in s.disputes {
      assert DisputeOk(s, s.charges[chID].disputeID);
    }
  }

  // ---------- sessions ----------

  lemma CapturedSessions(s: Store, id: string, n: Parsed, chID: string, trID: string, now: int)
    requires CaptureIntent(s, id, n, chID, trID, now).Done?
    ensures CaptureIntent(s, id, n, chID, trID, now).store.sessions == s.sessions
  {
  }

  lemma OtherSessions(s: Store, op: Op)
    requires Try(s, op).Done? && !op.OpCheckout? && !op.OpSession? && !op.OpCapture? && !op.OpComplete?
    requires !op.OpRefund? && !op.OpExpire?
    ensures Step(s, op).sessions == s.sessions
  {
  }

  lemma ClosedStep(s: Store, op: Op, id: string)
    requires Fresh(s, op) && id in s.sessions && !s.sessions[id].status.Open?
    ensures id in Step(s, op).sessions && Step(s, op).sessions[id] == s.sessions[id]
  {
    if Try(s, op).Done? {
      if op.OpCheckout? {
        ClosedCheckout(s, op.id, op.outcome, op.typed, op.found, op.piID, op.chID, op.typedAt, op.now, id);
      } else if op.OpSession? {
        var sess := SessionAdded(s, op.sessionParams, op.id, op.now);
      } else if op.OpCapture? {
        CapturedSessions(s, op.id, op.toCapture, op.chID, op.trID, op.now);
      } else if op.OpComplete? {
        CompletedSessions(s, op.id, op.outcome, op.chID, op.trID, op.now);
      } else if op.OpRefund? {
        RefundGrows(s, op.refundParams, op.rfID, op.rvID, op.now);
      } else if op.OpExpire? {
      } else {
        OtherSessions(s, op);
      }
    }
  }

  lemma PaidSessions(s: Store, u: Store, id: string, sess: Session, piID: string, chID: string, now: int)
    returns (after: Session)
    requires u == s.(coupons := u.coupons, codes := u.codes)
    ensures PaidStore(u, id, sess, piID, chID, now).sessions == s.sessions[id := after]
  {
    if sess.Total() == 0 {
      after := sess.(status := Complete, payment := NoPaymentRequired, intentID := "");
    } else {
      after := sess.(status := Complete, payment := PaidUp, intentID := piID);
    }
  }

  lemma CheckoutSessions(s: Store, id: string, o: string, typed: string, found: string, piID: string, chID: string,
                         typedAt: int, now: int)
    returns (sess: Session)
    requires CompleteCheckout(s, id, o, typed, found, piID, chID, typedAt, now).Done?
    ensures id in s.sessions && s.sessions[id].status.Open?
    ensures CompleteCheckout(s, id, o, typed, found, piID, chID, typedAt, now).store.sessions == s.sessions[id := sess]
  {
    sess := s.sessions[id];
    if o == "paid" {
      var paid := WithTypedCode(s, sess, typed, found, typedAt).value;
      var r := Redeem(s.coupons, s.codes, paid.discounts, now).value;
      sess := PaidSessions(s, s.(coupons := r.0, codes := r.1), id, paid, piID, chID, now);
    } else if o == "cancelled" {
      sess := sess.(status := Expired, payment := Unpaid);
    } else {
      assert s.sessions[id := sess] == s.sessions;
    }
  }

  lemma ClosedCheckout(s: Store, id: string, o: string, typed: string, found: string, piID: string, chID: string,
                       typedAt: int, now: int, k: string)
    requires CompleteCheckout(s, id, o, typed, found, piID, chID, typedAt, now).Done?
    requires k in s.sessions && !s.sessions[k].status.Open?
    ensures var t := CompleteCheckout(s, id, o, typed, found, piID, chID, typedAt, now).store;
            k in t.sessions && t.sessions[k] == s.sessions[k]
  {
    var sess := CheckoutSessions(s, id, o, typed, found, piID, chID, typedAt, now);
  }

  lemma SessionAdded(s: Store, p: SessionParams, id: string, now: int) returns (sess: Session)
    requires CreateSession(s, p, id, now).Done?
    ensures CreateSession(s, p, id, now) == Done(s.(sessions := s.sessions[id := sess]))
  {
    sess := Session(Open, Unpaid, p.items[0].currency, Subtotal(p.items), 0, [], p.allowCodes, "");
    if p.discounts != [] {
      sess := ApplyDiscount(s, sess, p.discounts[0].coupon, p.discounts[0].code, now).value;
    }
  }

  lemma CompletedSessions(s: Store, id: string, o: string, chID: string, trID: string, now: int)
    requires CompleteIntent(s, id, o, chID, trID, now).Done?
    ensures CompleteIntent(s, id, o, chID, trID, now).store.sessions == s.sessions
  {
  }

  /** A session that has left `open` never changes again, so it leaves `open` at most once and is
      paid for at most once. */
  lemma {:induction false} ClosedForGood(ops: seq<Op>, n: nat, id: string)
    requires FreshRun(ops) && n <= |ops|
    requires id in Run(ops[..n]).sessions && !Run(ops[..n]).sessions[id].status.Open?
    ensures id in Run(ops).sessions && Run(ops).sessions[id] == Run(ops[..n]).sessions[id]
  {
    if n == |ops| {
      assert ops[..n] == ops;
    } else {
      var before := ops[..|ops| - 1];
      assert before[..n] == ops[..n];
      ClosedForGood(before, n, id);
      ClosedStep(Run(before), ops[|ops| - 1], id);
    }
  }

  function TimesUsed(coupons: map<string, Coupon>, id: string): int {
    if id in coupons then coupons[id].timesRedeemed else 0
  }

  function TimesTyped(codes: map<string, PromotionCode>, id: string): int {
    if id in codes then codes[id].timesRedeemed else 0
  }

  predicate Uses(sess: Session, coupon: string) {
    exists i :: 0 <= i < |sess.discounts| && sess.discounts[i].coupon == coupon
  }

  predicate UsesCode(sess: Session, code: string) {
    exists i :: 0 <= i < |sess.discounts| && sess.discounts[i].code == code
  }

  lemma RedeemedOnce(s: Store, sess: Session, now: int)
    requires |sess.discounts| <= 1 && Redeem(s.coupons, s.codes, sess.discounts, now).Some?
    ensures var (coupons, codes) := Redeem(s.coupons, s.codes, sess.discounts, now).value;
            && (forall k :: TimesUsed(coupons, k) == TimesUsed(s.coupons, k) + if Uses(sess, k) then 1 else 0)
            && (forall k :: TimesTyped(codes, k) ==
                  TimesTyped(s.codes, k) + if k in s.codes && UsesCode(sess, k) then 1 else 0)
  {
    if sess.discounts != [] {
      assert sess.discounts[1..] == [];
    }
  }

  lemma PaidSession(s: Store, id: string, typed: string, found: string, piID: string, chID: string,
                    typedAt: int, now: int)
    returns (sess: Session)
    requires AllCoupons(s) && AllSessions(s)
    requires CompleteCheckout(s, id, "paid", typed, found, piID, chID, typedAt, now).Done?
    ensures |sess.discounts| <= 1 && Redeem(s.coupons, s.codes, sess.discounts, now).Some?
    ensures var (coupons, codes) := Redeem(s.coupons, s.codes, sess.discounts, now).value;
            CompleteCheckout(s, id, "paid", typed, found, piID, chID, typedAt, now).store ==
            PaidStore(s.(coupons := coupons, codes := codes), id, sess, piID, chID, now)
  {
    assert SessionOk(s, id);
    DiscountApplies(s, s.sessions[id], "", found, typedAt);
    sess := WithTypedCode(s, s.sessions[id], typed, found, typedAt).value;
  }

  /** A paid session counts one redemption on its coupon and on its code and on no others, and
      creates an intent and a charge, over what is left to pay, only if there is anything left. */
  lemma PaidCheckoutCounts(s: Store, id: string, typed: string, found: string, piID: string, chID: string,
                           typedAt: int, now: int)
    requires Invariant(s) && piID !in s.intents && chID !in s.charges
    requires CompleteCheckout(s, id, "paid", typed, found, piID, chID, typedAt, now).Done?
    ensures var t := CompleteCheckout(s, id, "paid", typed, found, piID, chID, typedAt, now).store;
            && id in t.sessions && t.sessions[id].status.Complete?
            && (forall k :: TimesUsed(t.coupons, k) ==
                  TimesUsed(s.coupons, k) + if Uses(t.sessions[id], k) then 1 else 0)
            && (forall k :: TimesTyped(t.codes, k) ==
                  TimesTyped(s.codes, k) + if k in s.codes && UsesCode(t.sessions[id], k) then 1 else 0)
            && (chID in t.charges <==> t.sessions[id].Total() != 0) && (piID in t.intents <==> chID in t.charges)
            && (chID in t.charges ==> t.charges[chID].captured == t.sessions[id].Total())
  {
    var sess := PaidSession(s, id, typed, found, piID, chID, typedAt, now);
    var r := Redeem(s.coupons, s.codes, sess.discounts, now).value;
    RedeemedOnce(s, sess, now);
    PaidStoreIs(s.(coupons := r.0, codes := r.1), id, sess, piID, chID, now);
    SameUses(CompleteCheckout(s, id, "paid", typed, found, piID, chID, typedAt, now).store.sessions[id], sess);
  }

  lemma SameUses(a: Session, b: Session)
    requires a.discounts == b.discounts
    ensures forall k :: Uses(a, k) <==> Uses(b, k)
    ensures forall k :: UsesCode(a, k) <==> UsesCode(b, k)
  {
  }

  lemma PaidStoreIs(s: Store, id: string, sess: Session, piID: string, chID: string, now: int)
    requires piID !in s.intents && chID !in s.charges
    ensures var t := PaidStore(s, id, sess, piID, chID, now);
            && t.coupons == s.coupons && t.codes == s.codes
            && id in t.sessions && t.sessions[id].status.Complete? && t.sessions[id].discounts == sess.discounts
            && t.sessions[id].Total() == sess.Total()
            && (chID in t.charges <==> sess.Total() != 0) && (piID in t.intents <==> sess.Total() != 0)
            && (chID in t.charges ==> t.charges[chID].captured == sess.Total())
  {
    if sess.Total() == 0 {
      assert PaidStore(s, id, sess, piID, chID, now).charges == s.charges;
    }
  }

  /** An open session that still holds a deleted coupon is refused at payment. */
  lemma DeletedCouponRefusesPayment(s: Store, c: string, id: string, piID: string, chID: string, typedAt: int, now: int)
    requires Invariant(s) && DeleteCoupon(s, c).Done? && id in s.sessions && s.sessions[id].status.Open?
    requires Uses(s.sessions[id], c)
    ensures CompleteCheckout(DeleteCoupon(s, c).store, id, "paid", "", "", piID, chID, typedAt, now).CodeRejected?
  {
    assert SessionOk(s, id);
    var i :| 0 <= i < |s.sessions[id].discounts| && s.sessions[id].discounts[i].coupon == c;
    assert i == 0;
  }

  /** A code that applies when it is typed fails redemption later exactly if a deadline, the coupon's or
      its own, has been passed in between; at the deadline itself it still works. */
  lemma RejectedOnlyPastDeadline(s: Store, sess: Session, code: string, typedAt: int, now: int)
    requires typedAt <= now && code != "" && ApplyDiscount(s, sess, "", code, typedAt).Some?
    ensures Redeem(s.coupons, s.codes, ApplyDiscount(s, sess, "", code, typedAt).value.discounts, now).None? <==>
            || (s.codes[code].expiresAt != 0 && s.codes[code].expiresAt < now)
            || (s.coupons[s.codes[code].coupon].redeemBy != 0 && s.coupons[s.codes[code].coupon].redeemBy < now)
  {
    var ds := ApplyDiscount(s, sess, "", code, typedAt).value.discounts;
    assert ds == [Discount(s.codes[code].coupon, code)] && ds[1..] == [];
  }

  // ---------- promotion codes ----------

  /** No two codes that work share their text. */
  ghost predicate TextsUnique(s: Store) {
    forall i, j :: i in s.codes && j in s.codes && i != j && s.codes[i].active && s.codes[j].active ==>
      !EqualFold(s.codes[i].code, s.codes[j].code)
  }

  /** Creating a code never puts a second one with the same text to work. */
  lemma CreateKeepsTextsUnique(s: Store, p: CodeParams, id: string)
    requires TextsUnique(s) && id !in s.codes && CreateCode(s, p, id).Done?
    ensures TextsUnique(CreateCode(s, p, id).store)
  {
    var t := CreateCode(s, p, id).store;
    forall j | j in s.codes && s.codes[j].active
      ensures !EqualFold(s.codes[j].code, p.code) && !EqualFold(p.code, s.codes[j].code)
    {
      assert !Matches(s, p.code, j);
    }
  }

  /** Putting a code back to work does so if and only if no other working code has its text:
      nothing checks. */
  lemma ActivateKeepsTextsUnique(s: Store, id: string)
    requires TextsUnique(s) && id in s.codes
    ensures TextsUnique(SetCodeActive(s, id, true).store) <==>
            forall j :: Matches(s, s.codes[id].code, j) && j != id ==> !s.codes[j].active
  {
    var t := SetCodeActive(s, id, true).store;
    if TextsUnique(t) {
      forall j | Matches(s, s.codes[id].code, j) && j != id ensures !s.codes[j].active {
        assert t.codes[j] == s.codes[j] && t.codes[id].active;
        assert EqualFold(t.codes[j].code, t.codes[id].code);
      }
    } else {
      var i, j :| i in t.codes && j in t.codes && i != j && t.codes[i].active && t.codes[j].active &&
        EqualFold(t.codes[i].code, t.codes[j].code);
      var k := if i == id then j else i;
      assert Matches(s, s.codes[id].code, k) && s.codes[k].active;
    }
  }
}
