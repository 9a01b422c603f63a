/** Coupons, promotion codes and checkout sessions (mode=payment). */
module Checkout {
  import opened AsciiCase
  import opened Wrappers
  import opened StripeStore
  import opened StripeOps

  // ---------- coupons and codes ----------

  predicate Exhausted(max: int, redeemed: int) { max > 0 && redeemed >= max }

  predicate Past(deadline: int, now: int) { deadline != 0 && now > deadline }

  predicate CouponValid(c: Coupon, now: int) {
    !Past(c.redeemBy, now) && !Exhausted(c.maxRedemptions, c.timesRedeemed)
  }

  predicate CodeValid(pc: PromotionCode, now: int) {
    pc.active && !Past(pc.expiresAt, now) && !Exhausted(pc.maxRedemptions, pc.timesRedeemed)
  }

  /** math.Round on what is not negative here; the percentage is exact. */
  function Round(x: real): int {
    if x >= 0.0 then (x + 0.5).Floor else -((0.5 - x).Floor)
  }

  function DiscountFor(c: Coupon, subtotal: int, currency: string): Option<int> {
    if c.percentOff > 0.0 then Some(Round(subtotal as real * c.percentOff / 100.0))
    else if c.currency != currency then None
    else Some(if c.amountOff < subtotal then c.amountOff else subtotal)
  }

  /** percent_off is absent or a number; one that does not parse is refused like one out of range. */
  datatype CouponParams = CouponParams(
    percentOff: Option<real>,
    amountOff: Parsed,
    currency: string,
    maxRedemptions: Parsed,
    redeemBy: Parsed)

  function PercentOff(p: CouponParams): real { if p.percentOff.Some? then p.percentOff.value else 0.0 }

  predicate NonNegativeNumber(p: Parsed) { p.Number? && p.n >= 0 }

  function CreateCoupon(s: Store, p: CouponParams, id: string): Outcome {
    if p.percentOff.Some? && (p.percentOff.value <= 0.0 || p.percentOff.value > 100.0) then Refused(400)
    else if !NonNegativeNumber(p.amountOff) || p.percentOff.Some? == (p.amountOff.n > 0) then Refused(400)
    else if p.amountOff.n > 0 && p.currency == "" then Refused(400)
    else if !NonNegativeNumber(p.maxRedemptions) || !NonNegativeNumber(p.redeemBy) then Refused(400)
    else if id in s.coupons then Refused(400)
    else
      Done(s.(coupons := s.coupons[id := Coupon(
        PercentOff(p), p.amountOff.n, p.currency, p.maxRedemptions.n, 0, p.redeemBy.n)]))
  }

  function DeleteCoupon(s: Store, id: string): Outcome {
    if id !in s.coupons then Refused(404) else Done(s.(coupons := s.coupons - {id}))
  }

  predicate Matches(s: Store, text: string, id: string) {
    id in s.codes && EqualFold(s.codes[id].code, text)
  }

  /** What a scan of the codes in random order can come up with: a match, and an active one if
      any match is active. */
  ghost predicate Finds(s: Store, text: string, id: string) {
    Matches(s, text, id) && (s.codes[id].active || forall j :: Matches(s, text, j) ==> !s.codes[j].active)
  }

  datatype CodeParams = CodeParams(code: string, coupon: string, active: bool, maxRedemptions: Parsed,
                                   expiresAt: Parsed)

  ghost function CreateCode(s: Store, p: CodeParams, id: string): Outcome {
    if p.coupon == "" || !NonNegativeNumber(p.maxRedemptions) || !NonNegativeNumber(p.expiresAt) then Refused(400)
    else if p.coupon !in s.coupons then Refused(400)
    else if exists j :: Matches(s, p.code, j) && s.codes[j].active then Refused(400)
    else
      Done(s.(codes := s.codes[id := PromotionCode(
        p.code, p.coupon, p.active, p.maxRedemptions.n, 0, p.expiresAt.n)]))
  }

  function SetCodeActive(s: Store, id: string, active: bool): Outcome {
    if id !in s.codes then Refused(404) else Done(s.(codes := s.codes[id := s.codes[id].(active := active)]))
  }

  // ---------- sessions ----------

  /** applyDiscount, the code, if any, being resolved to its id. */
  function ApplyDiscount(s: Store, sess: Session, couponID: string, codeID: string, now: int): Option<Session> {
    if codeID != "" && (codeID !in s.codes || !CodeValid(s.codes[codeID], now)) then None
    else
      var coupon := if codeID != "" then s.codes[codeID].coupon else couponID;
      if coupon !in s.coupons || !CouponValid(s.coupons[coupon], now) then None
      else
        match DiscountFor(s.coupons[coupon], sess.amountTotal, sess.currency)
        case None => None
        case Some(off) => Some(sess.(discounts := [Discount(coupon, codeID)], amountDiscount := off))
  }

  /** redeemDiscount, one discount after the other. */
  function Redeem(coupons: map<string, Coupon>, codes: map<string, PromotionCode>, ds: seq<Discount>, now: int)
    : Option<(map<string, Coupon>, map<string, PromotionCode>)>
  {
    if ds == [] then Some((coupons, codes))
    else
      var d := ds[0];
      if d.coupon !in coupons then None
      else if d.code in codes && !CodeValid(codes[d.code], now) then None
      else if !CouponValid(coupons[d.coupon], now) then None
      else
        var c := coupons[d.coupon];
        var pc := if d.code in codes then codes[d.code] else PromotionCode("", "", false, 0, 0, 0);
        Redeem(coupons[d.coupon := c.(timesRedeemed := c.timesRedeemed + 1)],
               if d.code in codes then codes[d.code := pc.(timesRedeemed := pc.timesRedeemed + 1)] else codes,
               ds[1..], now)
  }

  function Quantity(li: LineItem): int {
    if li.quantity <= 0 then 1 else li.quantity
  }

  function Subtotal(items: seq<LineItem>): int {
    if items == [] then 0
    else Subtotal(items[..|items| - 1]) + items[|items| - 1].unitAmount * Quantity(items[|items| - 1])
  }

  /** The checks on single items and across them. */
  predicate ItemsOk(items: seq<LineItem>) {
    && items != []
    && (forall i :: 0 <= i < |items| ==> items[i].unitAmount >= 0 && items[i].currency != "" && !items[i].recurring)
    && (forall i :: 0 <= i < |items| ==> items[i].currency == items[0].currency)
  }

  datatype SessionParams = SessionParams(items: seq<LineItem>, discounts: seq<Discount>, allowCodes: bool)

  function CreateSession(s: Store, p: SessionParams, id: string, now: int): Outcome {
    if |p.discounts| > 1 || (p.discounts != [] && p.allowCodes) then Refused(400)
    else if p.discounts != [] && (p.discounts[0].coupon == "") == (p.discounts[0].code == "") then Refused(400)
    else if !ItemsOk(p.items) then Refused(400)
    else
      var sess := Session(Open, Unpaid, p.items[0].currency, Subtotal(p.items), 0, [], p.allowCodes, "");
      if p.discounts == [] then Done(s.(sessions := s.sessions[id := sess]))
      else
        match ApplyDiscount(s, sess, p.discounts[0].coupon, p.discounts[0].code, now)
        case None => Refused(400)
        case Some(discounted) => Done(s.(sessions := s.sessions[id := discounted]))
  }

  function ExpireSession(s: Store, id: string): Outcome {
    if id !in s.sessions then Refused(404)
    else if !s.sessions[id].status.Open? then Refused(409)
    else Done(s.(sessions := s.sessions[id := s.sessions[id].(status := Expired, payment := Unpaid)]))
  }

  /** The session a typed code leads to, or None when the code does not apply. `found` is what
      the scan for the code came up with, "" for nothing. */
  function WithTypedCode(s: Store, sess: Session, typed: string, found: string, now: int): Option<Session> {
    if typed == "" then Some(sess)
    else if !sess.allowCodes || found == "" then None
    else ApplyDiscount(s, sess, "", found, now)
  }

  /** A completed session: free, or paid by a succeeded intent with one charge. */
  function PaidStore(s: Store, id: string, sess: Session, piID: string, chID: string, now: int): Store {
    if sess.Total() == 0 then
      s.(sessions := s.sessions[id := sess.(status := Complete, payment := NoPaymentRequired, intentID := "")])
    else
      s.(sessions := s.sessions[id := sess.(status := Complete, payment := PaidUp, intentID := piID)],
         intents := s.intents[piID := Intent(
           sess.Total(), sess.currency, Succeeded, false, 0, "", 0, "", CARD, chID, "", false, 0)],
         charges := s.charges[chID := Charge(
           sess.Total(), sess.Total(), sess.currency, piID, CARD, now, 0, false, "", "")])
  }

  function CompleteCheckout(s: Store, id: string, outcome: string, typed: string, found: string,
                            piID: string, chID: string, typedAt: int, now: int): Outcome {
    if outcome != "paid" && outcome != "failed" && outcome != "cancelled" then Refused(400)
    else if id !in s.sessions then Refused(404)
    else if !s.sessions[id].status.Open? then Refused(409)
    else if outcome == "failed" then Done(s)
    else if outcome == "cancelled" then
      Done(s.(sessions := s.sessions[id := s.sessions[id].(status := Expired, payment := Unpaid)]))
    else
      match WithTypedCode(s, s.sessions[id], typed, found, typedAt)
      case None => CodeRejected
      case Some(sess) =>
        match Redeem(s.coupons, s.codes, sess.discounts, now)
        case None => CodeRejected
        case Some((coupons, codes)) =>
          Done(PaidStore(s.(coupons := coupons, codes := codes), id, sess, piID, chID, now))
  }

  lemma PaidIsApart(s: Store, id: string, sess: Session, piID: string, chID: string, now: int)
    ensures PaidStore(s, id, sess, piID, chID, now).accounts == s.accounts
  {
    if sess.Total() == 0 {
    } else {
    }
  }

  lemma PaidSessionIs(u: Store, id: string, sess: Session, piID: string, chID: string, now: int)
    ensures var t := PaidStore(u, id, sess, piID, chID, now);
            && id in t.sessions && t.sessions[id].currency == sess.currency
            && t.sessions[id].amountTotal == sess.amountTotal && t.sessions[id].amountDiscount == sess.amountDiscount
  {
    if sess.Total() == 0 {
    } else {
    }
  }

  lemma CheckoutIsApart(s: Store, id: string, o: string, typed: string, found: string, piID: string, chID: string,
                        typedAt: int, now: int)
    requires CompleteCheckout(s, id, o, typed, found, piID, chID, typedAt, now).Done?
    ensures CompleteCheckout(s, id, o, typed, found, piID, chID, typedAt, now).store.accounts == s.accounts
  {
    if o == "paid" {
      var sess := WithTypedCode(s, s.sessions[id], typed, found, typedAt).value;
      var (coupons, codes) := Redeem(s.coupons, s.codes, sess.discounts, now).value;
      PaidIsApart(s.(coupons := coupons, codes := codes), id, sess, piID, chID, now);
    }
  }

  // ---------- what discounts come to ----------

  /** What creation admits: one kind of discount, of a possible size. */
  predicate CouponShape(c: Coupon) {
    if c.percentOff > 0.0 then c.percentOff <= 100.0 && c.amountOff == 0
    else c.percentOff == 0.0 && c.amountOff > 0 && c.currency != ""
  }

  /** A discount never goes below nothing nor above the subtotal. */
  lemma DiscountWithinSubtotal(c: Coupon, subtotal: int, currency: string)
    requires CouponShape(c) && subtotal >= 0
    ensures var off := DiscountFor(c, subtotal, currency);
            off.Some? ==> 0 <= off.value <= subtotal
  {
    if c.percentOff > 0.0 {
      ShareOf(subtotal as real, c.percentOff);
      RoundBetween(subtotal as real * c.percentOff / 100.0, subtotal);
    }
  }

  lemma RoundBetween(x: real, n: int)
    requires 0.0 <= x <= n as real
    ensures 0 <= Round(x) <= n
  {
  }

  lemma ShareOf(whole: real, percent: real)
    requires whole >= 0.0 && 0.0 < percent <= 100.0
    ensures 0.0 <= whole * percent / 100.0 <= whole
  {
    assert whole * percent <= whole * 100.0;
  }

  lemma {:induction false} SubtotalNonNegative(items: seq<LineItem>)
    requires forall i :: 0 <= i < |items| ==> items[i].unitAmount >= 0
    ensures Subtotal(items) >= 0
  {
    if items != [] {
      SubtotalNonNegative(items[..|items| - 1]);
      assert items[|items| - 1].unitAmount * Quantity(items[|items| - 1]) >= 0;
    }
  }
}
