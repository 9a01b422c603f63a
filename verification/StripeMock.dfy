/** The Stripe mock itself: an object whose maps the operations update in place. Every operation
    leaves the stored objects as its specification on the store's value says, and every refusal
    leaves them untouched. */
module StripeMock {
  import opened AsciiCase
  import opened Wrappers
  import opened StripeStore
  import opened MapSums
  import opened Sorting
  import opened Ledger
  import opened Balances
  import opened StripeOps
  import opened Checkout
  import opened StripeInvariant
  import opened StripeLaws
  import opened StripePromises
  import opened StripeRequests
  import opened CheckoutRequests

  /** Newest first, ties broken by the source's id, the greater one first. */
  predicate NewestFirst(d: Entry, e: Entry) {
    d.created > e.created || (d.created == e.created && StringLe(e.source, d.source))
  }

  lemma NewestFirstIsPreorder()
    ensures TotalPreorder(NewestFirst)
  {
    forall d, e ensures NewestFirst(d, e) || NewestFirst(e, d) {
      StringTotal(d.source, e.source);
    }
    forall d, e, f | NewestFirst(d, e) && NewestFirst(e, f) ensures NewestFirst(d, f) {
      if d.created == f.created {
        StringTransitive(f.source, e.source, d.source);
      }
    }
  }

  lemma GatherGrow(keys: set<string>, lines: string -> seq<Entry>, k: string)
    requires k !in keys
    ensures Gather(keys + {k}, lines) == Gather(keys, lines) + multiset(lines(k))
  {
    GatherRemove(keys + {k}, lines, k);
    assert keys + {k} - {k} == keys;
  }

  /** What one turn of a ledger loop has to add: the lines of the object at hand. */
  lemma Turn(out: seq<Entry>, more: seq<Entry>, all: set<string>, rest: set<string>,
             lines: string -> seq<Entry>, k: string)
    requires k in rest && rest <= all && multiset(out) == Gather(all - rest, lines) && more == lines(k)
    ensures multiset(out + more) == Gather(all - (rest - {k}), lines)
  {
    GatherGrow(all - rest, lines, k);
    assert all - (rest - {k}) == (all - rest) + {k};
  }

  /** One loop of a ledger: it appends the lines of every object, whatever order their keys come in. */
  method Collect(keys: set<string>, lines: string -> seq<Entry>) returns (out: seq<Entry>)
    ensures multiset(out) == Gather(keys, lines)
  {
    out := [];
    var rest := keys;
    while rest != {}
      invariant rest <= keys && multiset(out) == Gather(keys - rest, lines)
    {
      var id :| id in rest;
      Turn(out, lines(id), keys, rest, lines, id);
      out := out + lines(id);
      rest := rest - {id};
    }
    assert keys - rest == keys;
  }

  /** What a Go map of numbers answers. */
  function AmountIn(m: map<string, int>, k: string): int {
    if k in m then m[k] else 0
  }

  /** balanceOf: a ledger added up per currency. */
  method BalanceOf(entries: seq<Entry>) returns (out: map<string, int>)
    ensures forall c :: AmountIn(out, c) == NetSeq(entries, c)
  {
    out := map[];
    for i := 0 to |entries|
      invariant forall c :: AmountIn(out, c) == NetSeq(entries[..i], c)
    {
      var e := entries[i];
      forall c ensures NetSeq(entries[..i + 1], c) == NetSeq(entries[..i], c) + NetLine(e, c) {
        assert entries[..i + 1] == entries[..i] + [e];
        NetAppend(entries[..i], e, c);
      }
      out := out[e.currency := AmountIn(out, e.currency) + e.Net()];
    }
    assert entries[..|entries|] == entries;
  }

  /** slices.Sorted(maps.Keys(m)). */
  method SortedKeys(keys: set<string>) returns (names: seq<string>)
    ensures SortedBy(StringLe, names) && forall c :: c in names <==> c in keys
  {
    var rest := keys;
    var some: seq<string> := [];
    while rest != {}
      invariant rest <= keys && forall c :: c in some <==> c in keys - rest
    {
      var c :| c in rest;
      some := some + [c];
      rest := rest - {c};
    }
    names := StableSort(StringLe, some);
    StringPreorder();
    SortIsSorted(StringLe, some);
    forall c ensures c in names <==> c in some {
      assert c in names <==> c in multiset(names);
      assert c in some <==> c in multiset(some);
    }
  }

  datatype Reply = Ok | Error(status: int) | BadCode

  /** The reply and the new contents are those of the outcome; anything but success changes nothing. */
  ghost predicate Answers(o: Outcome, before: Store, after: Store, reply: Reply) {
    match o
    case Done(t) => reply == Ok && after == t
    case Refused(status) => reply == Error(status) && after == before
    case CodeRejected => reply == BadCode && after == before
  }

  /** The currency paid out is the first one the account holds. */
  lemma PaysOut(s: Store, acct: string, c: string, poID: string, now: int)
    requires acct != "" && acct in s.accounts && FirstPositive(s, acct, c)
    ensures PayOutBalance(s, acct, poID, now) ==
            Done(s.(payouts := s.payouts[poID := Payout(Balance(s, acct, c), c, acct, Pending, now)]))
  {
    var d :| FirstPositive(s, acct, d) && PayOutBalance(s, acct, poID, now) ==
      Done(s.(payouts := s.payouts[poID := Payout(Balance(s, acct, d), d, acct, Pending, now)]));
    FirstPositiveUnique(s, acct, c, d);
  }

  lemma FirstHeld(s: Store, acct: string, bal: map<string, int>, currency: string)
    requires forall c :: AmountIn(bal, c) == Balance(s, acct, c)
    requires currency in bal && bal[currency] > 0
    requires forall c :: c in bal && bal[c] > 0 ==> StringLe(currency, c)
    ensures FirstPositive(s, acct, currency) && bal[currency] == Balance(s, acct, currency)
  {
    assert AmountIn(bal, currency) == Balance(s, acct, currency);
    forall c | Balance(s, acct, c) > 0 ensures StringLe(currency, c) {
      assert AmountIn(bal, c) > 0;
    }
  }

  /** The first key, in sorted order, with a positive amount. */
  method FirstPositiveKey(bal: map<string, int>) returns (first: Option<string>)
    ensures first.None? ==> forall c :: c in bal ==> bal[c] <= 0
    ensures first.Some? ==> first.value in bal && bal[first.value] > 0
    ensures first.Some? ==> forall c :: c in bal && bal[c] > 0 ==> StringLe(first.value, c)
  {
    var names := SortedKeys(bal.Keys);
    for i := 0 to |names|
      invariant forall k :: 0 <= k < i ==> names[k] in bal && bal[names[k]] <= 0
    {
      assert names[i] in names;
      var amount := bal[names[i]];
      if amount > 0 {
        forall c | c in bal && bal[c] > 0 ensures StringLe(names[i], c) {
          var j :| 0 <= j < |names| && names[j] == c;
          StringTotal(c, c);
        }
        return Some(names[i]);
      }
    }
    forall c | c in bal ensures bal[c] <= 0 {
      assert c in names;
    }
    return None;
  }

  /** What one turn of a sum over a map's keys has to take off. */
  lemma SumTurn(all: set<string>, rest: set<string>, f: string -> int, k: string)
    requires k in rest && rest <= all
    ensures SumOver(all - (rest - {k}), f) == SumOver(all - rest, f) + f(k)
  {
    SumRemove(all - (rest - {k}), f, k);
    assert all - (rest - {k}) - {k} == all - rest;
  }

  lemma PaidStoreOverwrites(s: Store, t: Store, id: string, sess: Session, piID: string, chID: string, now: int)
    requires t == s.(sessions := s.sessions[id := sess])
    ensures PaidStore(t, id, sess, piID, chID, now) == PaidStore(s, id, sess, piID, chID, now)
  {
    MapTwice(s.sessions, id, sess, sess.(status := Complete, payment := NoPaymentRequired, intentID := ""));
    MapTwice(s.sessions, id, sess, sess.(status := Complete, payment := PaidUp, intentID := piID));
  }

  /** Whether it is rolled back or paid, nothing is left of the session having held the typed code. */
  lemma TypedIsFinal(s: Store, t: Store, id: string, sess: Session, typed: string, discounts: seq<Discount>,
                     amount: int, piID: string, chID: string, now: int)
    requires id in s.sessions && t == s.(sessions := s.sessions[id := sess])
    requires discounts == s.sessions[id].discounts && amount == s.sessions[id].amountDiscount
    requires typed == "" ==> sess == s.sessions[id]
    requires sess == s.sessions[id].(discounts := sess.discounts, amountDiscount := sess.amountDiscount)
    ensures s == if typed == "" then t
                 else t.(sessions := t.sessions[id := sess.(discounts := discounts, amountDiscount := amount)])
    ensures forall cs, pcs :: PaidStore(t.(coupons := cs, codes := pcs), id, sess, piID, chID, now) ==
                              PaidStore(s.(coupons := cs, codes := pcs), id, sess, piID, chID, now)
  {
    MapTwice(s.sessions, id, sess, s.sessions[id]);
    assert s.sessions[id := s.sessions[id]] == s.sessions;
    forall cs, pcs ensures PaidStore(t.(coupons := cs, codes := pcs), id, sess, piID, chID, now) ==
                           PaidStore(s.(coupons := cs, codes := pcs), id, sess, piID, chID, now)
    {
      PaidStoreOverwrites(s.(coupons := cs, codes := pcs), t.(coupons := cs, codes := pcs), id, sess, piID, chID, now);
    }
  }

  lemma MapTwice<V>(m: map<string, V>, k: string, v: V, w: V)
    ensures m[k := v][k := w] == m[k := w]
  {
  }

  /** What the locked parts of the operations below ask of the stored objects. */
  lemma InvariantSuffices(s: Store)
    requires Invariant(s)
    ensures "" !in s.charges && "" !in s.codes && forall id :: id in s.sessions ==> |s.sessions[id].discounts| <= 1
  {
    forall id | id in s.charges ensures id != "" {
      assert ChargeOk(s, id);
    }
    forall id | id in s.codes ensures id != "" {
      assert CodeOk(s, id);
    }
    forall id | id in s.sessions ensures |s.sessions[id].discounts| <= 1 {
      assert SessionOk(s, id);
    }
  }

  /** Every method that changes the store keeps what it agrees on, answers as its operation on the
      store's value does, and says what an accepted request has come to. Where the two would be long
      to check together, the part that runs under the lock is a method of its own. */
  class StripeMock {
    var accounts: set<string>
    var intents: map<string, Intent>
    var charges: map<string, Charge>
    var transfers: map<string, Transfer>
    var refunds: map<string, Refund>
    var disputes: map<string, Dispute>
    var payouts: map<string, Payout>
    var sessions: map<string, Session>
    var coupons: map<string, Coupon>
    var codes: map<string, PromotionCode>

    function Contents(): Store
      reads this
    {
      Store(accounts, intents, charges, transfers, refunds, disputes, payouts, sessions, coupons, codes)
    }

    ghost predicate Valid()
      reads this
    {
      Invariant(Contents())
    }

    constructor ()
      ensures Valid() && Contents() == EmptyStore
    {
      accounts, intents, charges, transfers, refunds := {}, map[], map[], map[], map[];
      disputes, payouts, sessions, coupons, codes := map[], map[], map[], map[], map[];
    }

    // ---------- ledgers ----------

    /** The platform's ledger, newest first. */
    method PlatformLedger() returns (out: seq<Entry>)
      ensures multiset(out) == LedgerOf(Contents(), "")
      ensures forall i, j :: 0 <= i < j < |out| ==>
                out[i].created >= out[j].created &&
                (out[i].created == out[j].created ==> StringLe(out[j].source, out[i].source))
    {
      var s := Contents();
      var chs := Collect(charges.Keys, id => ChargeLines(s, "", id));
      var rfs := Collect(refunds.Keys, id => RefundLines(s, "", id));
      var trs := Collect(transfers.Keys, id => TransferLines(s, "", id));
      var dps := Collect(disputes.Keys, id => DisputeLines(s, "", id));
      var pos := Collect(payouts.Keys, id => PayoutLines(s, "", id));
      out := StableSort(NewestFirst, chs + rfs + trs + dps + pos);
      NewestFirstIsPreorder();
      SortIsSorted(NewestFirst, chs + rfs + trs + dps + pos);
    }

    /** A connected account's ledger, newest first. */
    method ConnectedLedger(acct: string) returns (out: seq<Entry>)
      requires acct != ""
      ensures multiset(out) == LedgerOf(Contents(), acct)
      ensures forall i, j :: 0 <= i < j < |out| ==>
                out[i].created >= out[j].created &&
                (out[i].created == out[j].created ==> StringLe(out[j].source, out[i].source))
    {
      var s := Contents();
      var trs := Collect(transfers.Keys, id => TransferLines(s, acct, id));
      var chs := Collect(charges.Keys, id => ChargeLines(s, acct, id));
      var rfs := Collect(refunds.Keys, id => RefundLines(s, acct, id));
      var dps := Collect(disputes.Keys, id => DisputeLines(s, acct, id));
      var pos := Collect(payouts.Keys, id => PayoutLines(s, acct, id));
      out := StableSort(NewestFirst, trs + chs + rfs + dps + pos);
      NewestFirstIsPreorder();
      SortIsSorted(NewestFirst, trs + chs + rfs + dps + pos);
    }

    method PlatformBalance() returns (bal: map<string, int>)
      ensures forall c :: AmountIn(bal, c) == Balance(Contents(), "", c)
    {
      var entries := PlatformLedger();
      bal := BalanceOf(entries);
      forall c ensures AmountIn(bal, c) == Balance(Contents(), "", c) {
        NetOfSeq(entries, c);
      }
    }

    method ConnectedBalance(acct: string) returns (bal: map<string, int>)
      requires acct != ""
      ensures forall c :: AmountIn(bal, c) == Balance(Contents(), acct, c)
    {
      var entries := ConnectedLedger(acct);
      bal := BalanceOf(entries);
      forall c ensures AmountIn(bal, c) == Balance(Contents(), acct, c) {
        NetOfSeq(entries, c);
      }
    }

    // ---------- payment intents ----------

    method CreatePaymentIntentLocked(p: IntentParams, id: string) returns (reply: Reply)
      modifies this
      ensures Answers(CreateIntent(old(Contents()), p, id), old(Contents()), Contents(), reply)
    {
      if p.amount.Garbage? || p.amount.n <= 0 {
        return Error(400);
      }
      if p.currency == "" || p.appFee.Garbage? {
        return Error(400);
      }
      var share := 0;
      if p.destinationAmount.Number? && p.destinationAmount.n >= 0 {
        share := p.destinationAmount.n;
      }
      if p.appFee.n < 0 || p.appFee.n > p.amount.n {
        return Error(400);
      }
      var status := RequiresPaymentMethod;
      if p.paymentMethod != "" {
        status := RequiresConfirmation;
      }
      if p.destination != "" && p.destination !in accounts {
        return Error(400);
      }
      intents := intents[id := Intent(p.amount.n, p.currency, status, p.manualCapture, p.appFee.n, p.destination, share,
                                      p.account, p.paymentMethod, "", "", false, 0)];
      return Ok;
    }

    method CreatePaymentIntent(p: IntentParams, id: string) returns (reply: Reply)
      requires Valid() && id !in intents && id != ""
      modifies this
      ensures Valid()
      ensures Answers(CreateIntent(old(Contents()), p, id), old(Contents()), Contents(), reply)
      ensures reply.Ok? ==> IntentCreated(old(Contents()), Contents(), id)
      ensures reply.Ok? <==> IntentAdmitted(old(Contents()), p)
      ensures reply.Ok? ==> IntentAsAsked(Contents(), p, id)
    {
      IntentRequest(Contents(), p, id);
      reply := CreatePaymentIntentLocked(p, id);
      if reply.Ok? {
        CreateIntentPromise(old(Contents()), p, id);
      }
    }

    method ConfirmPaymentIntentLocked(id: string, method0: string) returns (reply: Reply)
      modifies this
      ensures Answers(ConfirmIntent(old(Contents()), id, method0), old(Contents()), Contents(), reply)
    {
      if id !in intents {
        return Error(404);
      }
      var pi := intents[id];
      if pi.status != RequiresPaymentMethod && pi.status != RequiresConfirmation {
        return Error(400);
      }
      if method0 != "" {
        pi := pi.(paymentMethod := method0);
      }
      if pi.paymentMethod == "" {
        pi := pi.(paymentMethod := CARD);
      }
      if pi.manualCapture {
        pi := pi.(status := RequiresCapture);
      } else {
        pi := pi.(status := Processing);
      }
      intents := intents[id := pi];
      return Ok;
    }

    method ConfirmPaymentIntent(id: string, method0: string) returns (reply: Reply)
      requires Valid()
      modifies this
      ensures Valid()
      ensures Answers(ConfirmIntent(old(Contents()), id, method0), old(Contents()), Contents(), reply)
      ensures reply.Ok? ==> IntentConfirmed(old(Contents()), Contents(), id)
      ensures reply.Ok? <==> ConfirmAdmitted(old(Contents()), id)
      ensures reply.Ok? ==> ConfirmedWith(old(Contents()), Contents(), id, method0)
    {
      ConfirmRequest(Contents(), id, method0);
      reply := ConfirmPaymentIntentLocked(id, method0);
      if reply.Ok? {
        ConfirmIntentPromise(old(Contents()), id, method0);
      }
    }

    /** Stores a settled intent with its charge, and with the transfer to its destination, if it has one:
        of the amount it asks for, or else of the rest. */
    method StoreSettled(id: string, pi0: Intent, captured: int, rest: int, chID: string, trID: string, now: int)
      modifies this
      ensures var share := if pi0.destinationAmount != 0 then pi0.destinationAmount else rest;
              Contents() == Settle(old(Contents()), id, pi0, captured, share, chID, trID, now)
    {
      var pi := pi0.(status := Succeeded, chargeID := chID);
      var ch := Charge(pi.amount, captured, pi.currency, id, pi.paymentMethod, now, 0, false, "", "");
      if pi.destination != "" {
        var amount := pi.destinationAmount;
        if amount == 0 {
          amount := rest;
        }
        transfers := transfers[trID := Transfer(amount, pi.currency, pi.destination, chID, now, 0, [])];
        pi := pi.(transferID := trID);
        ch := ch.(transferID := trID);
      }
      charges := charges[chID := ch];
      intents := intents[id := pi];
    }

    method CapturePaymentIntentLocked(id: string, toCapture: Parsed, chID: string, trID: string, now: int)
      returns (reply: Reply)
      modifies this
      ensures Answers(CaptureIntent(old(Contents()), id, toCapture, chID, trID, now), old(Contents()),
                      Contents(), reply)
    {
      if id !in intents {
        return Error(404);
      }
      var pi := intents[id];
      if pi.status != RequiresCapture {
        return Error(400);
      }
      var captured := pi.amount;
      if toCapture.Number? && toCapture.n > 0 {
        if toCapture.n > pi.amount {
          return Error(400);
        }
        captured := toCapture.n;
      }
      var rest := if captured - pi.appFee > 0 then captured - pi.appFee else 0;
      StoreSettled(id, pi.(received := captured), captured, rest, chID, trID, now);
      return Ok;
    }

    method CapturePaymentIntent(id: string, toCapture: Parsed, chID: string, trID: string, now: int)
      returns (reply: Reply)
      requires Valid() && FreshCharge(Contents(), chID, trID)
      modifies this
      ensures Valid()
      ensures Answers(CaptureIntent(old(Contents()), id, toCapture, chID, trID, now), old(Contents()),
                      Contents(), reply)
      ensures reply.Ok? ==> Charged(old(Contents()), Contents(), id, chID, trID)
      ensures reply.Ok? <==> CaptureAdmitted(old(Contents()), id, toCapture)
      ensures reply.Ok? ==> CapturedAsAsked(old(Contents()), Contents(), id, toCapture, chID, now)
    {
      CaptureRequest(Contents(), id, toCapture, chID, trID, now);
      reply := CapturePaymentIntentLocked(id, toCapture, chID, trID, now);
      if reply.Ok? {
        CaptureIntentPromise(old(Contents()), id, toCapture, chID, trID, now);
      }
    }

    method CompletePaymentIntentLocked(id: string, outcome: string, chID: string, trID: string, now: int)
      returns (reply: Reply)
      modifies this
      ensures Answers(CompleteIntent(old(Contents()), id, outcome, chID, trID, now), old(Contents()), Contents(), reply)
    {
      if outcome != "succeed" && outcome != "fail" {
        return Error(400);
      }
      if id !in intents {
        return Error(404);
      }
      var pi := intents[id];
      if pi.status == Succeeded || pi.status == Canceled {
        return Error(409);
      }
      if outcome == "succeed" && pi.paymentMethod == "" {
        pi := pi.(paymentMethod := CARD);
      }
      if outcome == "succeed" {
        StoreSettled(id, pi.(failed := false), pi.amount, pi.amount - pi.appFee, chID, trID, now);
      } else {
        intents := intents[id := pi.(status := RequiresPaymentMethod, failed := true)];
      }
      return Ok;
    }

    method CompletePaymentIntent(id: string, outcome: string, chID: string, trID: string, now: int)
      returns (reply: Reply)
      requires Valid() && FreshCharge(Contents(), chID, trID)
      modifies this
      ensures Valid()
      ensures Answers(CompleteIntent(old(Contents()), id, outcome, chID, trID, now), old(Contents()), Contents(), reply)
      ensures reply.Ok? && outcome == "succeed" ==> Charged(old(Contents()), Contents(), id, chID, trID)
      ensures reply.Ok? && outcome == "fail" ==> PaymentFailed(old(Contents()), Contents(), id)
      ensures reply.Ok? <==> OutcomeAdmitted(old(Contents()), id, outcome)
      ensures reply.Ok? && outcome == "succeed" ==> SucceededInFull(old(Contents()), Contents(), id, chID, now)
    {
      OutcomeRequest(Contents(), id, outcome, chID, trID, now);
      reply := CompletePaymentIntentLocked(id, outcome, chID, trID, now);
      if reply.Ok? {
        CompleteIntentPromise(old(Contents()), id, outcome, chID, trID, now);
      }
    }

    // ---------- refunds and transfers ----------

    method ChargeToRefund(p: RefundParams) returns (chID: string)
      requires "" !in charges
      ensures chID == RefundedCharge(Contents(), p.chargeID, p.intentID)
    {
      if p.chargeID != "" {
        return if p.chargeID in charges then p.chargeID else "";
      }
      if p.intentID !in intents || intents[p.intentID].chargeID !in charges {
        return "";
      }
      return intents[p.intentID].chargeID;
    }

    /** Reverses as much of a transfer as a refund of `amount` calls for, if it is there. */
    method ReverseForRefund(trID: string, amount: int, rvID: string, now: int)
      modifies this`transfers
      ensures transfers == if trID in old(transfers) &&
              Min(amount, old(transfers)[trID].amount - old(transfers)[trID].reversed) > 0
                           then old(transfers)[trID := Reverse(old(transfers)[trID],
                             Min(amount, old(transfers)[trID].amount - old(transfers)[trID].reversed), rvID, now)]
                           else old(transfers)
    {
      if trID in transfers {
        var tr := transfers[trID];
        var back := Min(amount, tr.amount - tr.reversed);
        if back > 0 {
          tr := tr.(reversed := tr.reversed + back);
          tr := tr.(reversals := tr.reversals + [Reversal(rvID, back, now)]);
          transfers := transfers[trID := tr];
        }
      }
    }

    method RefundChargeLocked(p: RefundParams, rfID: string, rvID: string, now: int) returns (reply: Reply)
      requires "" !in charges
      modifies this
      ensures Answers(ApplyRefund(old(Contents()), p, rfID, rvID, now), old(Contents()), Contents(), reply)
    {
      var chID := ChargeToRefund(p);
      if chID == "" {
        return Error(400);
      }
      var ch := charges[chID];
      if ch.disputeID != "" {
        return Error(400);
      }
      var left := ch.captured - ch.refunded;
      if left <= 0 {
        return Error(400);
      }
      var amount := p.amount;
      if amount == 0 {
        amount := left;
      }
      if amount < 0 || amount > left {
        return Error(400);
      }
      ch := ch.(refunded := ch.refunded + amount);
      if ch.refunded >= ch.captured {
        ch := ch.(fullyRefunded := true);
      }
      charges := charges[chID := ch];
      if p.reverseTransfer && ch.transferID != "" {
        ReverseForRefund(ch.transferID, amount, rvID, now);
      }
      refunds := refunds[rfID := Refund(amount, ch.currency, chID, p.refundAppFee, now)];
      return Ok;
    }

    method RefundCharge(p: RefundParams, rfID: string, rvID: string, now: int) returns (reply: Reply)
      requires Valid() && rfID !in refunds
      modifies this
      ensures Valid()
      ensures Answers(ApplyRefund(old(Contents()), p, rfID, rvID, now), old(Contents()), Contents(), reply)
      ensures reply.Ok? ==> ChargeRefunded(old(Contents()), Contents(), rfID)
      ensures reply.Ok? <==> exists c :: NamesCharge(old(Contents()), p, c) && RefundAdmitted(old(Contents()), p, c)
      ensures reply.Ok? ==> forall c :: NamesCharge(old(Contents()), p, c) ==>
                && RefundedAsAsked(old(Contents()), Contents(), p, c, rfID, now)
                && ReversedAsAsked(old(Contents()), Contents(), p, c, refunds[rfID].amount)
    {
      RefundRequest(Contents(), p, rfID, rvID, now);
      InvariantSuffices(Contents());
      reply := RefundChargeLocked(p, rfID, rvID, now);
      if reply.Ok? {
        RefundPromise(old(Contents()), p, rfID, rvID, now);
      }
    }

    method Available(chID: string) returns (left: int)
      requires chID in charges
      ensures left == ChargeAvailable(Contents(), chID)
    {
      ghost var s := Contents();
      ghost var drawn := (id: string) => DrawnFrom(s, chID, id);
      left := charges[chID].captured - charges[chID].refunded;
      var rest := transfers.Keys;
      while rest != {}
        invariant rest <= transfers.Keys
        invariant left == charges[chID].captured - charges[chID].refunded - SumOver(transfers.Keys - rest, drawn)
      {
        var id :| id in rest;
        var tr := transfers[id];
        if tr.source == chID {
          left := left - (tr.amount - tr.reversed);
        }
        SumTurn(transfers.Keys, rest, drawn, id);
        rest := rest - {id};
      }
      assert transfers.Keys - rest == transfers.Keys;
    }

    method TransferFundsLocked(p: TransferParams, capable: bool, trID: string, now: int) returns (reply: Reply)
      modifies this
      ensures Answers(CreateTransfer(old(Contents()), p, capable, trID, now), old(Contents()), Contents(), reply)
    {
      if p.amount.Garbage? || p.amount.n <= 0 || p.currency == "" || p.destination == "" {
        return Error(400);
      }
      if p.destination !in accounts || !capable {
        return Error(400);
      }
      if p.source != "" {
        if p.source !in charges {
          return Error(400);
        }
        if charges[p.source].currency != p.currency {
          return Error(400);
        }
        var left := Available(p.source);
        if p.amount.n > left {
          return Error(400);
        }
      } else {
        var have := PlatformBalance();
        if p.amount.n > AmountIn(have, p.currency) {
          return Error(400);
        }
      }
      transfers := transfers[trID := Transfer(p.amount.n, p.currency, p.destination, p.source, now, 0, [])];
      return Ok;
    }

    method TransferFunds(p: TransferParams, capable: bool, trID: string, now: int) returns (reply: Reply)
      requires Valid() && trID !in transfers && trID != ""
      modifies this
      ensures Valid()
      ensures Answers(CreateTransfer(old(Contents()), p, capable, trID, now), old(Contents()), Contents(), reply)
      ensures reply.Ok? ==> TransferMade(old(Contents()), Contents(), trID)
      ensures reply.Ok? <==> TransferAdmitted(old(Contents()), p, capable)
      ensures reply.Ok? ==> TransferAsAsked(Contents(), p, trID, now)
    {
      TransferRequest(Contents(), p, capable, trID, now);
      reply := TransferFundsLocked(p, capable, trID, now);
      if reply.Ok? {
        TransferPromise(old(Contents()), p, capable, trID, now);
      }
    }

    method ReverseFundsLocked(trID: string, asked: Parsed, rvID: string, now: int) returns (reply: Reply)
      modifies this
      ensures Answers(ReverseTransfer(old(Contents()), trID, asked, rvID, now), old(Contents()), Contents(), reply)
    {
      if asked.Garbage? || asked.n < 0 {
        return Error(400);
      }
      if trID !in transfers {
        return Error(404);
      }
      var tr := transfers[trID];
      var left := tr.amount - tr.reversed;
      var amount := asked.n;
      if amount == 0 {
        amount := left;
      }
      if left <= 0 || amount > left {
        return Error(400);
      }
      tr := tr.(reversed := tr.reversed + amount);
      tr := tr.(reversals := tr.reversals + [Reversal(rvID, amount, now)]);
      transfers := transfers[trID := tr];
      return Ok;
    }

    method ReverseFunds(trID: string, asked: Parsed, rvID: string, now: int) returns (reply: Reply)
      requires Valid()
      modifies this
      ensures Valid()
      ensures Answers(ReverseTransfer(old(Contents()), trID, asked, rvID, now), old(Contents()), Contents(), reply)
      ensures reply.Ok? ==> TransferReversed(old(Contents()), Contents(), trID)
      ensures reply.Ok? <==> ReversalAdmitted(old(Contents()), trID, asked)
      ensures reply.Ok? ==> ReversalAsAsked(old(Contents()), Contents(), trID, asked, rvID, now)
    {
      ReversalRequest(Contents(), trID, asked, rvID, now);
      reply := ReverseFundsLocked(trID, asked, rvID, now);
      if reply.Ok? {
        ReversalPromise(old(Contents()), trID, asked, rvID, now);
      }
    }

    // ---------- disputes and payouts ----------

    method RaiseDisputeLocked(intentID: string, dpID: string, now: int) returns (reply: Reply)
      modifies this
      ensures Answers(OpenDispute(old(Contents()), intentID, dpID, now), old(Contents()), Contents(), reply)
    {
      if intentID !in intents {
        return Error(404);
      }
      var pi := intents[intentID];
      if pi.chargeID !in charges || pi.status != Succeeded {
        return Error(400);
      }
      var ch := charges[pi.chargeID];
      if ch.disputeID != "" {
        return Error(409);
      }
      if ch.captured - ch.refunded <= 0 {
        return Error(400);
      }
      disputes := disputes[dpID := Dispute(pi.chargeID, ch.captured - ch.refunded, ch.currency, NeedsResponse, now, 0)];
      charges := charges[pi.chargeID := ch.(disputeID := dpID)];
      return Ok;
    }

    method RaiseDispute(intentID: string, dpID: string, now: int) returns (reply: Reply)
      requires Valid() && dpID !in disputes && dpID != ""
      modifies this
      ensures Valid()
      ensures Answers(OpenDispute(old(Contents()), intentID, dpID, now), old(Contents()), Contents(), reply)
      ensures reply.Ok? ==> DisputeOpened(old(Contents()), Contents(), dpID)
      ensures reply.Ok? <==> DisputeAdmitted(old(Contents()), intentID)
      ensures reply.Ok? ==> DisputeAsAsked(old(Contents()), Contents(), intentID, dpID, now)
    {
      DisputeRequest(Contents(), intentID, dpID, now);
      reply := RaiseDisputeLocked(intentID, dpID, now);
      if reply.Ok? {
        OpenDisputePromise(old(Contents()), intentID, dpID, now);
      }
    }

    method SettleDispute(id: string, outcome: string, now: int) returns (reply: Reply)
      requires Valid()
      modifies this
      ensures Valid()
      ensures Answers(CloseDispute(old(Contents()), id, outcome, now), old(Contents()), Contents(), reply)
      ensures reply.Ok? ==> DisputeClosed(old(Contents()), Contents(), id, outcome)
      ensures reply.Ok? <==> ClosingAdmitted(old(Contents()), id, outcome)
    {
      ClosingRequest(Contents(), id, outcome, now);
      if outcome != "won" && outcome != "lost" {
        return Error(400);
      }
      if id !in disputes {
        return Error(404);
      }
      var dp := disputes[id];
      if dp.status != NeedsResponse {
        return Error(409);
      }
      dp := dp.(status := if outcome == "won" then Won else Lost);
      dp := dp.(closedAt := now);
      disputes := disputes[id := dp];
      CloseDisputePromise(old(Contents()), id, outcome, now);
      return Ok;
    }

    method PayoutAccountBalanceLocked(acct: string, poID: string, now: int) returns (reply: Reply)
      modifies this
      ensures Answers(PayOutBalance(old(Contents()), acct, poID, now), old(Contents()), Contents(), reply)
    {
      ghost var s := Contents();
      if acct == "" || acct !in accounts {
        return Error(404);
      }
      var bal := ConnectedBalance(acct);
      var currency := FirstPositiveKey(bal);
      if currency.None? {
        forall c ensures Balance(s, acct, c) <= 0 {
          assert AmountIn(bal, c) == Balance(s, acct, c);
        }
        return Error(400);
      }
      var po := Payout(bal[currency.value], currency.value, acct, Pending, now);
      assert PayOutBalance(s, acct, poID, now) == Done(s.(payouts := s.payouts[poID := po])) by {
        FirstHeld(s, acct, bal, currency.value);
        PaysOut(s, acct, currency.value, poID, now);
      }
      payouts := payouts[poID := po];
      return Ok;
    }

    method PayoutAccountBalance(acct: string, poID: string, now: int) returns (reply: Reply)
      requires Valid() && poID !in payouts
      modifies this
      ensures Valid()
      ensures Answers(PayOutBalance(old(Contents()), acct, poID, now), old(Contents()), Contents(), reply)
      ensures reply.Ok? ==>
        exists c :: FirstPositive(old(Contents()), acct, c) && EmptiesOnly(old(Contents()), Contents(), acct, c)
      ensures reply.Ok? <==> acct != "" && acct in old(accounts) && exists c :: Balance(old(Contents()), acct, c) > 0
    {
      PayOutEmpties(Contents(), acct, poID, now);
      reply := PayoutAccountBalanceLocked(acct, poID, now);
      if reply.Ok? {
        PayOutBalancePromise(old(Contents()), acct, poID, now);
      }
    }

    method AddPayoutLocked(amount: Parsed, currency: string, account: string, poID: string, now: int)
      returns (reply: Reply)
      modifies this
      ensures Answers(CreatePayout(old(Contents()), amount, currency, account, poID, now), old(Contents()),
                      Contents(), reply)
    {
      if amount.Garbage? || amount.n <= 0 || currency == "" {
        return Error(400);
      }
      if account != "" && account !in accounts {
        return Error(404);
      }
      payouts := payouts[poID := Payout(amount.n, currency, account, Pending, now)];
      return Ok;
    }

    method AddPayout(amount: Parsed, currency: string, account: string, poID: string, now: int) returns (reply: Reply)
      requires Valid() && poID !in payouts
      modifies this
      ensures Valid()
      ensures Answers(CreatePayout(old(Contents()), amount, currency, account, poID, now), old(Contents()),
                      Contents(), reply)
      ensures reply.Ok? ==> PayoutMade(old(Contents()), Contents(), poID)
      ensures reply.Ok? <==> PayoutAdmitted(old(Contents()), amount, currency, account)
      ensures reply.Ok? ==> amount.Number? && poID in payouts &&
                            payouts[poID] == Payout(amount.n, currency, account, Pending, now)
    {
      PayoutRequest(Contents(), amount, currency, account, poID, now);
      reply := AddPayoutLocked(amount, currency, account, poID, now);
      if reply.Ok? {
        PayoutPromise(old(Contents()), amount, currency, account, poID, now);
      }
    }

    method CompletePayoutAsLocked(id: string, outcome: string) returns (reply: Reply)
      modifies this
      ensures Answers(CompletePayout(old(Contents()), id, outcome), old(Contents()), Contents(), reply)
    {
      if outcome != "paid" && outcome != "fail" {
        return Error(400);
      }
      if id !in payouts {
        return Error(404);
      }
      var po := payouts[id];
      if po.status == Paid || po.status == Failed || po.status == CanceledPayout {
        return Error(409);
      }
      payouts := payouts[id := po.(status := if outcome == "paid" then Paid else Failed)];
      return Ok;
    }

    method CompletePayoutAs(id: string, outcome: string) returns (reply: Reply)
      requires Valid()
      modifies this
      ensures Valid()
      ensures Answers(CompletePayout(old(Contents()), id, outcome), old(Contents()), Contents(), reply)
      ensures reply.Ok? ==> PayoutEnded(old(Contents()), Contents(), id, outcome)
      ensures reply.Ok? <==> EndingAdmitted(old(Contents()), id, outcome)
    {
      EndingRequest(Contents(), id, outcome);
      reply := CompletePayoutAsLocked(id, outcome);
      if reply.Ok? {
        CompletePayoutPromise(old(Contents()), id, outcome);
      }
    }

    // ---------- checkout ----------

    /** The code with this text, an active one if there is any. The codes come in any order. */
    method FindPromotionCode(text: string) returns (found: string)
      requires "" !in codes
      ensures found != "" ==> Finds(Contents(), text, found)
      ensures found == "" ==> forall id :: !Matches(Contents(), text, id)
    {
      found := "";
      var rest := codes.Keys;
      while rest != {}
        invariant rest <= codes.Keys
        invariant found == "" ==> forall id :: id in codes.Keys - rest ==> !Matches(Contents(), text, id)
        invariant found != "" ==> Matches(Contents(), text, found)
        invariant found != "" && !codes[found].active ==>
          forall id :: id in codes.Keys - rest && Matches(Contents(), text, id) ==> !codes[id].active
      {
        var id :| id in rest;
        if EqualFold(codes[id].code, text) && (found == "" || codes[id].active) {
          found := id;
        }
        rest := rest - {id};
      }
    }

    method AddCoupon(p: CouponParams, id: string) returns (reply: Reply)
      requires Valid()
      modifies this
      ensures Valid()
      ensures Answers(CreateCoupon(old(Contents()), p, id), old(Contents()), Contents(), reply)
      ensures reply.Ok? ==> CouponAdded(old(Contents()), Contents(), id)
      ensures reply.Ok? <==> CouponAdmitted(old(Contents()), p, id)
      ensures reply.Ok? ==> CouponAsAsked(Contents(), p, id)
    {
      CouponRequest(Contents(), p, id);
      var percent := 0.0;
      if p.percentOff.Some? {
        if p.percentOff.value <= 0.0 || p.percentOff.value > 100.0 {
          return Error(400);
        }
        percent := p.percentOff.value;
      }
      if !NonNegativeNumber(p.amountOff) {
        return Error(400);
      }
      if percent > 0.0 && p.amountOff.n > 0 {
        return Error(400);
      }
      if percent == 0.0 && p.amountOff.n == 0 {
        return Error(400);
      }
      if p.amountOff.n > 0 && p.currency == "" {
        return Error(400);
      }
      if !NonNegativeNumber(p.maxRedemptions) || !NonNegativeNumber(p.redeemBy) {
        return Error(400);
      }
      if id in coupons {
        return Error(400);
      }
      coupons := coupons[id := Coupon(percent, p.amountOff.n, p.currency, p.maxRedemptions.n, 0, p.redeemBy.n)];
      CouponPromise(old(Contents()), p, id);
      return Ok;
    }

    method RemoveCoupon(id: string) returns (reply: Reply)
      requires Valid()
      modifies this
      ensures Valid()
      ensures Answers(DeleteCoupon(old(Contents()), id), old(Contents()), Contents(), reply)
      ensures reply.Ok? ==> CouponRemoved(old(Contents()), Contents(), id)
      ensures reply.Ok? <==> id in old(coupons)
    {
      if id !in coupons {
        return Error(404);
      }
      coupons := coupons - {id};
      DeleteCouponPromise(old(Contents()), id);
      return Ok;
    }

    method AddPromotionCodeLocked(p: CodeParams, id: string) returns (reply: Reply)
      requires "" !in codes
      modifies this
      ensures Answers(CreateCode(old(Contents()), p, id), old(Contents()), Contents(), reply)
    {
      if p.coupon == "" || !NonNegativeNumber(p.maxRedemptions) || !NonNegativeNumber(p.expiresAt) {
        return Error(400);
      }
      if p.coupon !in coupons {
        return Error(400);
      }
      var dup := FindPromotionCode(p.code);
      if dup != "" && codes[dup].active {
        assert Matches(Contents(), p.code, dup);
        return Error(400);
      }
      codes := codes[id := PromotionCode(p.code, p.coupon, p.active, p.maxRedemptions.n, 0, p.expiresAt.n)];
      return Ok;
    }

    method AddPromotionCode(p: CodeParams, id: string) returns (reply: Reply)
      requires Valid() && id !in codes && id != ""
      modifies this
      ensures Valid()
      ensures Answers(CreateCode(old(Contents()), p, id), old(Contents()), Contents(), reply)
      ensures reply.Ok? ==> CodeAdded(old(Contents()), Contents(), id)
      ensures reply.Ok? <==> CodeAdmitted(old(Contents()), p)
      ensures reply.Ok? ==> CodeAsAsked(Contents(), p, id)
    {
      InvariantSuffices(Contents());
      CodeRequest(Contents(), p, id);
      reply := AddPromotionCodeLocked(p, id);
      if reply.Ok? {
        CodePromise(old(Contents()), p, id);
      }
    }

    method UpdatePromotionCode(id: string, active: bool) returns (reply: Reply)
      requires Valid()
      modifies this
      ensures Valid()
      ensures Answers(SetCodeActive(old(Contents()), id, active), old(Contents()), Contents(), reply)
      ensures reply.Ok? ==> CodeSwitched(old(Contents()), Contents(), id, active)
      ensures reply.Ok? <==> id in old(codes)
    {
      if id !in codes {
        return Error(404);
      }
      codes := codes[id := codes[id].(active := active)];
      SetCodeActivePromise(old(Contents()), id, active);
      return Ok;
    }

    /** applyDiscount, the discounted session being returned. `code` is what a buyer typed,
        `found` what it was found to be. */
    method DiscountSession(sess0: Session, couponID: string, promoID: string, code: string, now: int)
      returns (ok: bool, sess: Session, ghost found: string)
      requires "" !in codes && (code != "" ==> promoID == "")
      ensures code == "" ==> found == promoID
      ensures code != "" && found != "" ==> Finds(Contents(), code, found)
      ensures code != "" && found == "" ==> !ok && forall k :: !Matches(Contents(), code, k)
      ensures code == "" || found != "" ==>
                match ApplyDiscount(Contents(), sess0, couponID, found, now)
                case None => !ok
                case Some(discounted) => ok && sess == discounted
    {
      sess := sess0;
      var pc := promoID;
      found := promoID;
      if code != "" {
        pc := FindPromotionCode(code);
        found := pc;
        if pc == "" {
          return false, sess, found;
        }
      } else if promoID != "" && promoID !in codes {
        return false, sess, found;
      }
      var coupon, promo := couponID, promoID;
      if pc != "" {
        if !CodeValid(codes[pc], now) {
          return false, sess, found;
        }
        coupon, promo := codes[pc].coupon, pc;
      }
      if coupon !in coupons || !CouponValid(coupons[coupon], now) {
        return false, sess, found;
      }
      var discount := DiscountFor(coupons[coupon], sess.amountTotal, sess.currency);
      if discount.None? {
        return false, sess, found;
      }
      sess := sess.(discounts := [Discount(coupon, promo)]);
      sess := sess.(amountDiscount := discount.value);
      return true, sess, found;
    }

    /** redeemDiscount. A refusal on a later discount would leave the earlier ones counted; with
        at most one discount, which is all a session can have, it leaves everything as it was. */
    method RedeemDiscounts(ds: seq<Discount>, now: int) returns (ok: bool)
      modifies this`coupons, this`codes
      ensures ok ==> Redeem(old(coupons), old(codes), ds, now) == Some((coupons, codes))
      ensures !ok ==> Redeem(old(coupons), old(codes), ds, now) == None
      ensures !ok && |ds| <= 1 ==> coupons == old(coupons) && codes == old(codes)
    {
      for i := 0 to |ds|
        invariant Redeem(coupons, codes, ds[i..], now) == Redeem(old(coupons), old(codes), ds, now)
        invariant i == 0 ==> coupons == old(coupons) && codes == old(codes)
      {
        var d := ds[i];
        assert ds[i..][0] == d && ds[i..][1..] == ds[i + 1..];
        if d.coupon !in coupons {
          return false;
        }
        if d.code in codes && !CodeValid(codes[d.code], now) {
          return false;
        }
        if !CouponValid(coupons[d.coupon], now) {
          return false;
        }
        coupons := coupons[d.coupon := coupons[d.coupon].(timesRedeemed := coupons[d.coupon].timesRedeemed + 1)];
        if d.code in codes {
          codes := codes[d.code := codes[d.code].(timesRedeemed := codes[d.code].timesRedeemed + 1)];
        }
      }
      return true;
    }

    /** validateLineItems: one currency, none recurring; and what the items come to. */
    method ValidateLineItems(items: seq<LineItem>) returns (ok: bool, currency: string, total: int)
      requires items != [] && forall i :: 0 <= i < |items| ==> items[i].unitAmount >= 0 && items[i].currency != ""
      ensures ok <==> ItemsOk(items)
      ensures ok ==> currency == items[0].currency && total == Subtotal(items)
    {
      currency, total := "", 0;
      for i := 0 to |items|
        invariant total == Subtotal(items[..i]) && currency == if i == 0 then "" else items[0].currency
        invariant forall k :: 0 <= k < i ==> !items[k].recurring && items[k].currency == items[0].currency
      {
        var li := items[i];
        if li.recurring {
          return false, currency, total;
        }
        if currency == "" {
          currency := li.currency;
        } else if currency != li.currency {
          return false, currency, total;
        }
        assert items[..i + 1][..i] == items[..i];
        total := total + li.unitAmount * Quantity(li);
      }
      assert items[..|items|] == items;
      return true, currency, total;
    }

    method CreateCheckoutSessionLocked(p: SessionParams, id: string, now: int) returns (reply: Reply)
      requires "" !in codes
      modifies this
      ensures Answers(CreateSession(old(Contents()), p, id, now), old(Contents()), Contents(), reply)
    {
      if |p.discounts| > 1 || (p.discounts != [] && p.allowCodes) {
        return Error(400);
      }
      if p.discounts != [] && (p.discounts[0].coupon == "") == (p.discounts[0].code == "") {
        return Error(400);
      }
      var fit := p.items != [];
      for i := 0 to |p.items|
        invariant fit <==> p.items != [] && forall k :: 0 <= k < i ==>
          p.items[k].unitAmount >= 0 && p.items[k].currency != ""
      {
        fit := fit && p.items[i].unitAmount >= 0 && p.items[i].currency != "";
      }
      if !fit {
        return Error(400);
      }
      var ok, currency, total := ValidateLineItems(p.items);
      if !ok {
        return Error(400);
      }
      var sess := Session(Open, Unpaid, currency, total, 0, [], p.allowCodes, "");
      if p.discounts != [] {
        var applies, discounted, found := DiscountSession(sess, p.discounts[0].coupon, p.discounts[0].code, "", now);
        if !applies {
          return Error(400);
        }
        sess := discounted;
      }
      sessions := sessions[id := sess];
      return Ok;
    }

    method CreateCheckoutSession(p: SessionParams, id: string, now: int) returns (reply: Reply)
      requires Valid()
      modifies this
      ensures Valid()
      ensures Answers(CreateSession(old(Contents()), p, id, now), old(Contents()), Contents(), reply)
      ensures reply.Ok? ==> SessionOpened(old(Contents()), Contents(), id, p.items)
      ensures reply.Ok? <==> SessionAdmitted(old(Contents()), p, now)
      ensures reply.Ok? ==> SessionAsAsked(old(Contents()), Contents(), p, id)
    {
      InvariantSuffices(Contents());
      SessionRequest(Contents(), p, id, now);
      reply := CreateCheckoutSessionLocked(p, id, now);
      if reply.Ok? {
        SessionPromise(old(Contents()), p, id, now);
      }
    }

    method ExpireCheckoutSessionLocked(id: string) returns (reply: Reply)
      modifies this
      ensures Answers(ExpireSession(old(Contents()), id), old(Contents()), Contents(), reply)
    {
      if id !in sessions {
        return Error(404);
      }
      if sessions[id].status != Open {
        return Error(409);
      }
      sessions := sessions[id := sessions[id].(status := Expired)];
      sessions := sessions[id := sessions[id].(payment := Unpaid)];
      return Ok;
    }

    method ExpireCheckoutSession(id: string) returns (reply: Reply)
      requires Valid()
      modifies this
      ensures Valid()
      ensures Answers(ExpireSession(old(Contents()), id), old(Contents()), Contents(), reply)
      ensures reply.Ok? ==> SessionExpired(old(Contents()), Contents(), id)
      ensures reply.Ok? <==> id in old(sessions) && old(sessions)[id].status.Open?
    {
      reply := ExpireCheckoutSessionLocked(id);
      if reply.Ok? {
        ExpirePromise(old(Contents()), id);
      }
    }

    /** Settles a session as paid: for free, or with an intent and its charge. */
    method Pay(id: string, piID: string, chID: string, now: int)
      requires id in sessions
      modifies this
      ensures Contents() == PaidStore(old(Contents()), id, old(sessions)[id], piID, chID, now)
    {
      sessions := sessions[id := sessions[id].(status := Complete, payment := PaidUp)];
      var sess := sessions[id];
      if sess.Total() == 0 {
        sessions := sessions[id := sess.(payment := NoPaymentRequired, intentID := "")];
      } else {
        sessions := sessions[id := sess.(intentID := piID)];
        charges := charges[chID := Charge(sess.Total(), sess.Total(), sess.currency, piID, CARD, now, 0,
                                          false, "", "")];
        intents := intents[piID := Intent(sess.Total(), sess.currency, Succeeded, false, 0, "", 0, "", CARD, chID,
                                          "", false, 0)];
      }
    }

    /** Redeems the discount of a session that is being paid, and settles it. A code that applied when
        it was typed but cannot be redeemed any more is rolled back. */
    method RedeemAndPay(id: string, typed: string, discountsBefore: seq<Discount>, amountBefore: int, piID: string,
                        chID: string, now: int)
      returns (reply: Reply)
      requires id in sessions && |sessions[id].discounts| <= 1
      modifies this
      ensures var s, sess := old(Contents()), old(sessions)[id];
              var back := sess.(discounts := discountsBefore, amountDiscount := amountBefore);
              match Redeem(s.coupons, s.codes, sess.discounts, now)
              case None =>
                reply == BadCode && Contents() == if typed == "" then s else s.(sessions := s.sessions[id := back])
              case Some((cs, pcs)) =>
                reply == Ok && Contents() == PaidStore(s.(coupons := cs, codes := pcs), id, sess, piID, chID, now)
    {
      var ok := RedeemDiscounts(sessions[id].discounts, now);
      if !ok {
        if typed != "" {
          sessions := sessions[id := sessions[id].(discounts := discountsBefore, amountDiscount := amountBefore)];
        }
        return BadCode;
      }
      Pay(id, piID, chID, now);
      return Ok;
    }

    method CompleteSessionLocked(id: string, outcome: string, typed: string, piID: string, chID: string,
                                 typedAt: int, now: int)
      returns (reply: Reply, ghost found: string)
      requires "" !in codes && (id in sessions ==> |sessions[id].discounts| <= 1)
      modifies this
      ensures found != "" ==> typed != "" && Finds(old(Contents()), typed, found)
      ensures outcome == "paid" && typed != "" && found == "" && id in old(sessions) &&
              old(sessions)[id].status.Open? && old(sessions)[id].allowCodes ==>
                forall k :: !Matches(old(Contents()), typed, k)
      ensures Answers(CompleteCheckout(old(Contents()), id, outcome, typed, found, piID, chID, typedAt, now),
                      old(Contents()), Contents(), reply)
    {
      found := "";
      if outcome != "paid" && outcome != "failed" && outcome != "cancelled" {
        return Error(400), found;
      }
      if id !in sessions {
        return Error(404), found;
      }
      if sessions[id].status != Open {
        return Error(409), found;
      }
      if outcome == "failed" {
        return Ok, found;
      }
      if outcome == "cancelled" {
        sessions := sessions[id := sessions[id].(status := Expired, payment := Unpaid)];
        return Ok, found;
      }
      var discountsBefore, amountBefore := sessions[id].discounts, sessions[id].amountDiscount;
      if typed != "" {
        if !sessions[id].allowCodes {
          return BadCode, found;
        }
        var applies, sess;
        applies, sess, found := DiscountSession(sessions[id], "", "", typed, typedAt);
        if !applies {
          return BadCode, found;
        }
        sessions := sessions[id := sess];
      }
      assert WithTypedCode(old(Contents()), old(sessions)[id], typed, found, typedAt) == Some(sessions[id]);
      ghost var sess := sessions[id];
      TypedIsFinal(old(Contents()), Contents(), id, sess, typed, discountsBefore, amountBefore, piID, chID, now);
      reply := RedeemAndPay(id, typed, discountsBefore, amountBefore, piID, chID, now);
    }

    method CompleteSession(id: string, outcome: string, typed: string, piID: string, chID: string,
                           typedAt: int, now: int)
      returns (reply: Reply, ghost found: string)
      requires Valid() && piID !in intents && piID != "" && chID !in charges && chID != ""
      modifies this
      ensures Valid()
      ensures found != "" ==> typed != "" && Finds(old(Contents()), typed, found)
      ensures outcome == "paid" && typed != "" && found == "" && id in old(sessions) &&
              old(sessions)[id].status.Open? && old(sessions)[id].allowCodes ==>
                forall k :: !Matches(old(Contents()), typed, k)
      ensures Answers(CompleteCheckout(old(Contents()), id, outcome, typed, found, piID, chID, typedAt, now),
                      old(Contents()), Contents(), reply)
      ensures reply.Ok? && outcome == "paid" ==> SessionPaid(old(Contents()), Contents(), id, piID, chID)
      ensures reply.Ok? && outcome == "cancelled" ==> SessionExpired(old(Contents()), Contents(), id)
      ensures !reply.Ok? || outcome == "failed" ==> Contents() == old(Contents())
      ensures reply.Ok? && outcome == "paid" ==>
                PaidAsAsked(old(Contents()), Contents(), id, typed, found, piID, chID, typedAt, now)
    {
      InvariantSuffices(Contents());
      reply, found := CompleteSessionLocked(id, outcome, typed, piID, chID, typedAt, now);
      if reply.Ok? {
        CheckoutPromise(old(Contents()), id, outcome, typed, found, piID, chID, typedAt, now);
        if outcome == "paid" {
          PaymentRequest(old(Contents()), id, typed, found, piID, chID, typedAt, now);
        }
      }
    }
  }
}
