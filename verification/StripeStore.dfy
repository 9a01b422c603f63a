/** The objects the Stripe mock stores. Instants and amounts are unbounded integers; an instant
    of 0 stands for Go's zero time, and ids are opaque strings. */
module StripeStore {

  datatype IntentStatus =
    | RequiresPaymentMethod | RequiresConfirmation | RequiresCapture | Processing | Succeeded | Canceled

  datatype Intent = Intent(
    amount: int,
    currency: string,
    status: IntentStatus,
    manualCapture: bool,
    appFee: int,
    destination: string,        // transfer_data[destination], "" for none
    destinationAmount: int,     // transfer_data[amount], 0 for the default
    account: string,            // the connected account the request was made as, "" for the platform
    paymentMethod: string,
    chargeID: string,
    transferID: string,
    failed: bool,
    received: int)

  datatype Charge = Charge(
    amount: int,
    captured: int,
    currency: string,
    intentID: string,
    paymentMethod: string,
    created: int,
    refunded: int,
    fullyRefunded: bool,
    transferID: string,
    disputeID: string)

  datatype Reversal = Reversal(id: string, amount: int, created: int)

  datatype Transfer = Transfer(
    amount: int,
    currency: string,
    destination: string,
    source: string,
    created: int,
    reversed: int,
    reversals: seq<Reversal>)

  datatype Refund = Refund(
    amount: int,
    currency: string,
    chargeID: string,
    refundAppFee: bool,
    created: int)

  datatype DisputeStatus = NeedsResponse | Won | Lost

  datatype Dispute = Dispute(
    chargeID: string,
    amount: int,
    currency: string,
    status: DisputeStatus,
    created: int,
    closedAt: int)

  datatype PayoutStatus = Pending | Paid | Failed | CanceledPayout

  datatype Payout = Payout(amount: int, currency: string, account: string, status: PayoutStatus, created: int)

  // ---------- checkout ----------

  datatype LineItem = LineItem(unitAmount: int, quantity: int, currency: string, recurring: bool)

  datatype Discount = Discount(coupon: string, code: string)

  datatype SessionStatus = Open | Complete | Expired
  datatype PaymentStatus = Unpaid | PaidUp | NoPaymentRequired

  datatype Session = Session(
    status: SessionStatus,
    payment: PaymentStatus,
    currency: string,
    amountTotal: int,
    amountDiscount: int,
    discounts: seq<Discount>,
    allowCodes: bool,
    intentID: string)
  {
    /** What the buyer pays. */
    function Total(): int { amountTotal - amountDiscount }
  }

  /** Exactly one of percentOff and amountOff is set. A maximum or a deadline of 0 means none. */
  datatype Coupon = Coupon(
    percentOff: real,
    amountOff: int,
    currency: string,
    maxRedemptions: int,
    timesRedeemed: int,
    redeemBy: int)

  datatype PromotionCode = PromotionCode(
    code: string,
    coupon: string,
    active: bool,
    maxRedemptions: int,
    timesRedeemed: int,
    expiresAt: int)

  /** Everything the mock stores. */
  datatype Store = Store(
    accounts: set<string>,
    intents: map<string, Intent>,
    charges: map<string, Charge>,
    transfers: map<string, Transfer>,
    refunds: map<string, Refund>,
    disputes: map<string, Dispute>,
    payouts: map<string, Payout>,
    sessions: map<string, Session>,
    coupons: map<string, Coupon>,
    codes: map<string, PromotionCode>)

  const EmptyStore := Store({}, map[], map[], map[], map[], map[], map[], map[], map[], map[])
}
