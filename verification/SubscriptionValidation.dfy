/**
 * The subscription vocabulary and its form validators
 * (common/src/types/subscription.ts): the `SubscriptionStatus` and
 * `PaymentMethod` enums, and the `subscriptionValidation`,
 * `paymentMethodValidation` and `couponValidation` field checks.  Each check
 * returns the message of the failed rule, or `None` when the value passes.
 */
module SubscriptionValidation {
  import opened Wrappers
  import opened Text

  datatype SubscriptionStatus = Active | Inactive | Cancelled | Expired | PastDue | Trialing

  function SubscriptionStatusString(s: SubscriptionStatus): string {
    match s
    case Active => "active"
    case Inactive => "inactive"
    case Cancelled => "cancelled"
    case Expired => "expired"
    case PastDue => "past_due"
    case Trialing => "trialing"
  }

  function ParseSubscriptionStatus(s: string): (r: Option<SubscriptionStatus>)
    ensures r.Some? ==> SubscriptionStatusString(r.value) == s
    ensures r.None? ==> forall st: SubscriptionStatus :: SubscriptionStatusString(st) != s
  {
    if s == "active" then Some(Active)
    else if s == "inactive" then Some(Inactive)
    else if s == "cancelled" then Some(Cancelled)
    else if s == "expired" then Some(Expired)
    else if s == "past_due" then Some(PastDue)
    else if s == "trialing" then Some(Trialing)
    else None
  }

  /** Every status survives the trip through its string value. */
  lemma SubscriptionStatusRoundTrip(st: SubscriptionStatus)
    ensures ParseSubscriptionStatus(SubscriptionStatusString(st)) == Some(st)
  {
  }

  datatype PaymentMethod = Stripe | Razorpay | PayPal | ApplePay | GooglePay

  function PaymentMethodString(m: PaymentMethod): string {
    match m
    case Stripe => "stripe"
    case Razorpay => "razorpay"
    case PayPal => "paypal"
    case ApplePay => "apple_pay"
    case GooglePay => "google_pay"
  }

  function ParsePaymentMethod(s: string): (r: Option<PaymentMethod>)
    ensures r.Some? ==> PaymentMethodString(r.value) == s
    ensures r.None? ==> forall m: PaymentMethod :: PaymentMethodString(m) != s
  {
    if s == "stripe" then Some(Stripe)
    else if s == "razorpay" then Some(Razorpay)
    else if s == "paypal" then Some(PayPal)
    else if s == "apple_pay" then Some(ApplePay)
    else if s == "google_pay" then Some(GooglePay)
    else None
  }

  /** Every payment method survives the trip through its string value. */
  lemma PaymentMethodRoundTrip(m: PaymentMethod)
    ensures ParsePaymentMethod(PaymentMethodString(m)) == Some(m)
  {
  }

  /** `Object.values(PaymentMethod)`, in declaration order. */
  const PaymentMethodValues: seq<string> := ["stripe", "razorpay", "paypal", "apple_pay", "google_pay"]

  const PlanIdRequiredMessage := "Plan ID is required"
  const CurrencyLengthMessage := "Currency must be 3 characters"
  const InvalidPaymentMethodMessage := "Invalid payment method"
  const CouponCodeRequiredMessage := "Coupon code is required"

  /**
   * `!value || value.length < 1`: for a string both disjuncts say "empty".
   * Shared by `subscriptionValidation.planId` and `couponValidation.planId`.
   */
  function PlanId(value: string): (r: Option<string>)
    ensures r.None? <==> Utf16Length(value) >= 1
    ensures r.Some? ==> r.value == PlanIdRequiredMessage
  {
    if value == "" || Utf16Length(value) < 1 then Some(PlanIdRequiredMessage) else None
  }

  /** `subscriptionValidation.currency`: exactly three code units. */
  function Currency(value: string): (r: Option<string>)
    ensures r.None? <==> Utf16Length(value) == 3
    ensures r.Some? ==> r.value == CurrencyLengthMessage
  {
    if value == "" || Utf16Length(value) != 3 then Some(CurrencyLengthMessage) else None
  }

  /** `subscriptionValidation.couponCode`: optional, and never rejected. */
  function SubscriptionCouponCode(value: Option<string>): (r: Option<string>)
    ensures r.None?
  {
    None
  }

  /** `paymentMethodValidation.paymentMethod`: membership in the enum's values. */
  function PaymentMethodField(value: string): (r: Option<string>)
    ensures r.None? <==> ParsePaymentMethod(value).Some?
    ensures r.Some? ==> r.value == InvalidPaymentMethodMessage
  {
    if value !in PaymentMethodValues then Some(InvalidPaymentMethodMessage) else None
  }

  /** `couponValidation.couponCode`: required. */
  function CouponCode(value: string): (r: Option<string>)
    ensures r.None? <==> Utf16Length(value) >= 1
    ensures r.Some? ==> r.value == CouponCodeRequiredMessage
  {
    if value == "" || Utf16Length(value) < 1 then Some(CouponCodeRequiredMessage) else None
  }

  /** The required-string checks accept exactly the non-empty strings. */
  lemma RequiredMeansNonEmpty(value: string)
    ensures PlanId(value).None? <==> value != ""
    ensures CouponCode(value).None? <==> value != ""
  {
  }

  /**
   * The currency rule counts UTF-16 code units, not characters: an ISO 4217
   * code such as `USD` passes, and so does one letter followed by a
   * character outside the Basic Multilingual Plane, while three such
   * characters do not.
   */
  lemma CurrencyCountsCodeUnits()
    ensures Currency("USD").None?
    ensures Currency("a\U{1F4B0}").None?
    ensures Currency("\U{1F4B0}\U{1F4B0}\U{1F4B0}").Some?
  {
    assert Utf16Length("a\U{1F4B0}") == 3;
    assert Utf16Length("\U{1F4B0}\U{1F4B0}\U{1F4B0}") == 6;
  }

  /** The payment-method check accepts exactly the string values of the five methods. */
  lemma PaymentMethodFieldAcceptsEnum(m: PaymentMethod, value: string)
    ensures PaymentMethodField(PaymentMethodString(m)).None?
    ensures PaymentMethodField(value).None? ==> exists k :: PaymentMethodString(k) == value
  {
  }
}
