/** When the mock accepts a request about coupons, promotion codes and checkout sessions, what a
    discount comes to, and what the objects it then stores say. */
module CheckoutRequests {
  import opened AsciiCase
  import opened StripeStore
  import opened StripeOps
  import opened Checkout
  import opened StripeInvariant

  // ---------- what a coupon takes off ----------

  /** A percentage is rounded to the nearest unit, a half up; an amount is taken off as far as there is
      something to take it off, in its own currency only. */
  predicate TakesOff(c: Coupon, subtotal: int, currency: string, off: int) {
    if c.percentOff > 0.0 then -50.0 < 100.0 * off as real - subtotal as real * c.percentOff <= 50.0
    else
      && c.currency == currency
      && (c.amountOff <= subtotal ==> off == c.amountOff) && (c.amountOff > subtotal ==> off == subtotal)
  }

  lemma RoundIsNearest(x: real)
    requires x >= 0.0
    ensures -50.0 < 100.0 * Round(x / 100.0) as real - x <= 50.0
  {
    var r := Round(x / 100.0) as real;
    assert x / 100.0 - 0.5 < r <= x / 100.0 + 0.5;
  }

  lemma PercentNonNegative(subtotal: int, percent: real)
    requires subtotal >= 0 && percent > 0.0
    ensures subtotal as real * percent >= 0.0
  {
  }

  lemma DiscountInFigures(c: Coupon, subtotal: int, currency: string)
    requires subtotal >= 0
    ensures var r := DiscountFor(c, subtotal, currency);
            && (r.Some? <==> c.percentOff > 0.0 || c.currency == currency)
            && (r.Some? ==> TakesOff(c, subtotal, currency, r.value))
  {
    if c.percentOff > 0.0 {
      PercentNonNegative(subtotal, c.percentOff);
      RoundIsNearest(subtotal as real * c.percentOff);
    }
  }

  /** A limit of 0 is none; a deadline is met up to its own instant. */
  predicate WithinLimits(max: int, redeemed: int, deadline: int, now: int) {
    (max <= 0 || redeemed < max) && (deadline == 0 || now <= deadline)
  }

  predicate CouponWorks(s: Store, id: string, now: int) {
    id in s.coupons &&
    WithinLimits(s.coupons[id].maxRedemptions, s.coupons[id].timesRedeemed, s.coupons[id].redeemBy, now)
  }

  predicate CodeWorks(s: Store, id: string, now: int) {
    id in s.codes && s.codes[id].active &&
    WithinLimits(s.codes[id].maxRedemptions, s.codes[id].timesRedeemed, s.codes[id].expiresAt, now)
  }

  /** A coupon, directly or behind a code, that may be applied to a session in this currency. */
  predicate Applies(s: Store, coupon: string, code: string, currency: string, now: int) {
    && (code != "" ==> CodeWorks(s, code, now) && s.codes[code].coupon == coupon)
    && CouponWorks(s, coupon, now) && (s.coupons[coupon].percentOff > 0.0 || s.coupons[coupon].currency == currency)
  }

  /** The session with that discount and no other. */
  predicate Discounted(s: Store, was: Session, sess: Session, coupon: string, code: string) {
    && coupon in s.coupons && sess == was.(discounts := [Discount(coupon, code)], amountDiscount := sess.amountDiscount)
    && TakesOff(s.coupons[coupon], was.amountTotal, was.currency, sess.amountDiscount)
  }

  lemma DiscountRequest(s: Store, sess: Session, couponID: string, codeID: string, now: int)
    requires sess.amountTotal >= 0
    ensures var r := ApplyDiscount(s, sess, couponID, codeID, now);
            var coupon := if codeID != "" && codeID in s.codes then s.codes[codeID].coupon else couponID;
            && (r.Some? <==> Applies(s, coupon, codeID, sess.currency, now))
            && (r.Some? ==> Discounted(s, sess, r.value, coupon, codeID))
  {
    var coupon := if codeID != "" && codeID in s.codes then s.codes[codeID].coupon else couponID;
    if coupon in s.coupons {
      DiscountInFigures(s.coupons[coupon], sess.amountTotal, sess.currency);
    }
  }

  // ---------- coupons and codes ----------

  /** A coupon is of exactly one kind, of a possible size, and its id is free. */
  predicate CouponAdmitted(s: Store, p: CouponParams, id: string) {
    && (p.percentOff.Some? ==> 0.0 < p.percentOff.value <= 100.0)
    && p.amountOff.Number? && p.amountOff.n >= 0 && (p.percentOff.Some? <==> p.amountOff.n == 0)
    && (p.amountOff.n > 0 ==> p.currency != "")
    && p.maxRedemptions.Number? && p.maxRedemptions.n >= 0 && p.redeemBy.Number? && p.redeemBy.n >= 0
    && id !in s.coupons
  }

  predicate CouponAsAsked(t: Store, p: CouponParams, id: string) {
    && p.amountOff.Number? && p.maxRedemptions.Number? && p.redeemBy.Number? && id in t.coupons
    && t.coupons[id] == Coupon(t.coupons[id].percentOff, p.amountOff.n, p.currency, p.maxRedemptions.n, 0, p.redeemBy.n)
    && (p.percentOff.Some? ==> t.coupons[id].percentOff == p.percentOff.value)
    && (p.percentOff.None? ==> t.coupons[id].percentOff == 0.0)
  }

  lemma CouponRequest(s: Store, p: CouponParams, id: string)
    ensures var r := CreateCoupon(s, p, id);
            (r.Done? <==> CouponAdmitted(s, p, id)) && (r.Done? ==> CouponAsAsked(r.store, p, id))
    ensures CreateCoupon(s, p, id).Done? || CreateCoupon(s, p, id) == Refused(400)
  {
  }

  /** A scan for a text comes up with a code that has it, and with a working one if there is any. */
  lemma FindsText(s: Store, text: string, id: string)
    ensures Finds(s, text, id) <==>
            id in s.codes && SameText(s.codes[id].code, text) &&
            (s.codes[id].active || forall j :: j in s.codes && SameText(s.codes[j].code, text) ==> !s.codes[j].active)
  {
    forall j | j in s.codes ensures Matches(s, text, j) <==> SameText(s.codes[j].code, text) {
      TextsFold(s.codes[j].code, text);
    }
  }

  /** The coupon exists and no working code has the text. */
  predicate CodeAdmitted(s: Store, p: CodeParams) {
    && p.coupon != "" && p.coupon in s.coupons
    && p.maxRedemptions.Number? && p.maxRedemptions.n >= 0 && p.expiresAt.Number? && p.expiresAt.n >= 0
    && forall j :: j in s.codes && s.codes[j].active ==> !SameText(s.codes[j].code, p.code)
  }

  predicate CodeAsAsked(t: Store, p: CodeParams, id: string) {
    && p.maxRedemptions.Number? && p.expiresAt.Number? && id in t.codes
    && t.codes[id] == PromotionCode(p.code, p.coupon, p.active, p.maxRedemptions.n, 0, p.expiresAt.n)
  }

  lemma CodeRequest(s: Store, p: CodeParams, id: string)
    ensures var r := CreateCode(s, p, id);
            (r.Done? <==> CodeAdmitted(s, p)) && (r.Done? ==> CodeAsAsked(r.store, p, id))
    ensures CreateCode(s, p, id).Done? || CreateCode(s, p, id) == Refused(400)
  {
    forall j | j in s.codes ensures Matches(s, p.code, j) <==> SameText(s.codes[j].code, p.code) {
      TextsFold(s.codes[j].code, p.code);
    }
  }

  // ---------- sessions ----------

  /** The subtotal adds up the items, each its unit amount as often as its quantity says, and once if
      that says nothing. */
  lemma {:induction false} SubtotalAdds(items: seq<LineItem>, more: seq<LineItem>)
    ensures Subtotal(items + more) == Subtotal(items) + Subtotal(more)
  {
    if more == [] {
      assert items + more == items;
    } else {
      var n := |more| - 1;
      assert (items + more)[..|items| + n] == items + more[..n];
      SubtotalAdds(items, more[..n]);
    }
  }

  lemma SubtotalOfOne(li: LineItem)
    ensures Subtotal([]) == 0
    ensures li.quantity > 0 ==> Subtotal([li]) == li.unitAmount * li.quantity
    ensures li.quantity <= 0 ==> Subtotal([li]) == li.unitAmount
  {
    assert [li][..0] == [];
  }

  predicate ItemsAdmitted(items: seq<LineItem>) {
    items != [] && forall i :: 0 <= i < |items| ==>
      items[i].unitAmount >= 0 && items[i].currency == items[0].currency != "" && !items[i].recurring
  }

  /** The coupon a discount names, directly or by its code. */
  function NamedCoupon(s: Store, d: Discount): string {
    if d.code != "" && d.code in s.codes then s.codes[d.code].coupon else d.coupon
  }

  /** Items of one currency, at most one discount, which applies, and not both a discount and codes to
      be typed. */
  predicate SessionAdmitted(s: Store, p: SessionParams, now: int) {
    && ItemsAdmitted(p.items) && |p.discounts| <= 1
    && (p.discounts != [] ==>
          var d := p.discounts[0];
          && !p.allowCodes && (d.coupon == "" <==> d.code != "")
          && Applies(s, NamedCoupon(s, d), d.code, p.items[0].currency, now))
  }

  predicate SessionAsAsked(s: Store, t: Store, p: SessionParams, id: string)
    requires p.items != []
  {
    var plain := Session(Open, Unpaid, p.items[0].currency, Subtotal(p.items), 0, [], p.allowCodes, "");
    id in t.sessions &&
    if p.discounts == [] then t.sessions[id] == plain
    else Discounted(s, plain, t.sessions[id], NamedCoupon(s, p.discounts[0]), p.discounts[0].code)
  }

  lemma SessionRequest(s: Store, p: SessionParams, id: string, now: int)
    ensures var r := CreateSession(s, p, id, now);
            && (r.Done? <==> SessionAdmitted(s, p, now))
            && (r.Done? ==> p.items != [] && SessionAsAsked(s, r.store, p, id))
    ensures CreateSession(s, p, id, now).Done? || CreateSession(s, p, id, now) == Refused(400)
  {
    if ItemsOk(p.items) && p.discounts != [] {
      SubtotalNonNegative(p.items);
      var sess := Session(Open, Unpaid, p.items[0].currency, Subtotal(p.items), 0, [], p.allowCodes, "");
      DiscountRequest(s, sess, p.discounts[0].coupon, p.discounts[0].code, now);
    }
  }

  // ---------- payment ----------

  /** A discount that may still be redeemed; a code that is gone does not stand in the way. */
  predicate Redeemable(s: Store, d: Discount, now: int) {
    CouponWorks(s, d.coupon, now) && (d.code in s.codes ==> CodeWorks(s, d.code, now))
  }

  lemma RedeemRequest(s: Store, ds: seq<Discount>, now: int)
    requires |ds| <= 1
    ensures Redeem(s.coupons, s.codes, ds, now).Some? <==> forall i :: 0 <= i < |ds| ==> Redeemable(s, ds[i], now)
  {
    if ds != [] {
      assert ds[1..] == [];
    }
  }

  /** The session as it is paid: with what it had, or with the code that has been typed. */
  predicate Presented(s: Store, was: Session, sess: Session, typed: string, found: string, now: int) {
    if typed == "" then sess == was
    else
      && was.allowCodes && found != "" && found in s.codes
      && Applies(s, s.codes[found].coupon, found, was.currency, now)
      && Discounted(s, was, sess, s.codes[found].coupon, found)
  }

  lemma TypedRequest(s: Store, was: Session, typed: string, found: string, now: int)
    requires was.amountTotal >= 0
    ensures var r := WithTypedCode(s, was, typed, found, now);
            && (r.Some? ==> Presented(s, was, r.value, typed, found, now))
            && (r.None? ==> typed != "" && (!was.allowCodes || found !in s.codes || found == "" ||
                                            !Applies(s, s.codes[found].coupon, found, was.currency, now)))
  {
    if typed != "" && found != "" {
      DiscountRequest(s, was, "", found, now);
    }
  }

  /** What a paid session comes to: it is settled over what its discount leaves of its subtotal, for
      free if that is nothing, and otherwise by a succeeded intent of the platform with one charge. */
  predicate PaidFor(s: Store, t: Store, id: string, sess: Session, piID: string, chID: string, now: int) {
    var rest := sess.amountTotal - sess.amountDiscount;
    id in t.sessions &&
    if rest == 0 then
      && t.charges == s.charges && t.intents == s.intents
      && t.sessions[id] == sess.(status := Complete, payment := NoPaymentRequired, intentID := "")
    else
      && t.charges == s.charges[chID := Charge(rest, rest, sess.currency, piID, "pm_card_visa", now, 0, false, "", "")]
      && t.intents == s.intents[piID := Intent(rest, sess.currency, Succeeded, false, 0, "", 0, "", "pm_card_visa",
                                               chID, "", false, 0)]
      && t.sessions[id] == sess.(status := Complete, payment := PaidUp, intentID := piID)
  }

  lemma PaidStoreRequest(s: Store, u: Store, id: string, sess: Session, piID: string, chID: string, now: int)
    requires u == s.(coupons := u.coupons, codes := u.codes)
    ensures PaidFor(s, PaidStore(u, id, sess, piID, chID, now), id, sess, piID, chID, now)
  {
    if sess.Total() == 0 {
    } else {
    }
  }

  /** The presented session's discounts are redeemable at payment, and it is paid for. */
  ghost predicate PaidAsAsked(s: Store, t: Store, id: string, typed: string, found: string, piID: string, chID: string,
                              typedAt: int, now: int) {
    id in s.sessions && s.sessions[id].status.Open? && exists sess: Session ::
      && Presented(s, s.sessions[id], sess, typed, found, typedAt)
      && (forall i :: 0 <= i < |sess.discounts| ==> Redeemable(s, sess.discounts[i], now))
      && PaidFor(s, t, id, sess, piID, chID, now)
  }

  lemma PaymentRequest(s: Store, id: string, typed: string, found: string, piID: string, chID: string, typedAt: int,
                       now: int)
    requires AllSessions(s) && AllCoupons(s)
    requires CompleteCheckout(s, id, "paid", typed, found, piID, chID, typedAt, now).Done?
    ensures var t := CompleteCheckout(s, id, "paid", typed, found, piID, chID, typedAt, now).store;
            PaidAsAsked(s, t, id, typed, found, piID, chID, typedAt, now)
  {
    assert SessionOk(s, id);
    var was := s.sessions[id];
    TypedRequest(s, was, typed, found, typedAt);
    var sess := WithTypedCode(s, was, typed, found, typedAt).value;
    RedeemRequest(s, sess.discounts, now);
    var r := Redeem(s.coupons, s.codes, sess.discounts, now).value;
    PaidStoreRequest(s, s.(coupons := r.0, codes := r.1), id, sess, piID, chID, now);
  }

  /** A payment of an open session is rejected only because the typed code does not apply, or because a
      discount cannot be redeemed any more. */
  lemma RejectionRequest(s: Store, id: string, typed: string, found: string, piID: string, chID: string, typedAt: int,
                         now: int)
    requires AllSessions(s) && id in s.sessions && s.sessions[id].status.Open?
    ensures CompleteCheckout(s, id, "paid", typed, found, piID, chID, typedAt, now).CodeRejected? <==>
            || (typed != "" && (!s.sessions[id].allowCodes || found !in s.codes || found == "" ||
                                !Applies(s, s.codes[found].coupon, found, s.sessions[id].currency, typedAt)))
            || exists d :: d in (if typed == "" || found !in s.codes then s.sessions[id].discounts
                                 else [Discount(s.codes[found].coupon, found)]) && !Redeemable(s, d, now)
  {
    assert SessionOk(s, id);
    var was := s.sessions[id];
    TypedRequest(s, was, typed, found, typedAt);
    if WithTypedCode(s, was, typed, found, typedAt).Some? {
      var sess := WithTypedCode(s, was, typed, found, typedAt).value;
      RedeemRequest(s, sess.discounts, now);
    }
  }

  /** The dashboard's outcome: one that is none is refused, as is a session that is not there or not open
      any more; a declined card changes nothing, and cancelling closes the session unpaid. */
  lemma OutcomesOfCheckout(s: Store, id: string, o: string, typed: string, found: string, piID: string, chID: string,
                           typedAt: int, now: int)
    ensures var r := CompleteCheckout(s, id, o, typed, found, piID, chID, typedAt, now);
            && (o !in {"paid", "failed", "cancelled"} ==> r == Refused(400))
            && (o in {"paid", "failed", "cancelled"} && id !in s.sessions ==> r == Refused(404))
            && (o in {"paid", "failed", "cancelled"} && id in s.sessions ==>
                  && (!s.sessions[id].status.Open? ==> r == Refused(409))
                  && (s.sessions[id].status.Open? ==> !r.Refused? && (r.CodeRejected? ==> o == "paid"))
                  && (s.sessions[id].status.Open? && o == "failed" ==> r == Done(s))
                  && (s.sessions[id].status.Open? && o == "cancelled" ==> r == ExpireSession(s, id)))
    ensures id !in s.sessions ==> ExpireSession(s, id) == Refused(404)
    ensures id in s.sessions && !s.sessions[id].status.Open? ==> ExpireSession(s, id) == Refused(409)
    ensures id in s.sessions && s.sessions[id].status.Open? ==>
              ExpireSession(s, id) ==
                Done(s.(sessions := s.sessions[id := s.sessions[id].(status := Expired, payment := Unpaid)]))
  {
  }
}
