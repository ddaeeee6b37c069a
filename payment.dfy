/** frontend/src/Pages/Payment.jsx: the card validators and handleSubmit,
    which checks the card form, looks the user up, checks the stock of the
    cart it was given and posts a bank-paid order. */
module Payment {
  import opened Common
  import opened Checkout
  import OrderController

  // ---- the validators ----

  /** validateCardNumber: `/^\d{16}$/`. */
  predicate ValidCardNumber(s: string)
    ensures ValidCardNumber(s) ==> |s| == 16
  {
    DigitsExactly(s, 16)
  }

  /** validateCVC: `/^\d{3}$/`. */
  predicate ValidCvc(s: string)
    ensures ValidCvc(s) ==> |s| == 3
  {
    DigitsExactly(s, 3)
  }

  /** `(0[1-9]|1[0-2])` on two characters. */
  predicate MonthPattern(a: char, b: char) { (a == '0' && '1' <= b <= '9') || (a == '1' && '0' <= b <= '2') }

  /** validateExpiry: `/^(0[1-9]|1[0-2])\/\d{2}$/`. */
  predicate ValidExpiry(s: string)
    ensures ValidExpiry(s) ==> |s| == 5 && s[2] == '/'
  {
    |s| == 5 && MonthPattern(s[0], s[1]) && s[2] == '/' && DigitsExactly(s[3..], 2)
  }

  lemma TwoDigitValue(t: string)
    requires DigitsExactly(t, 2)
    ensures DigitsValue(t) == (t[0] as int - '0' as int) * 10 + (t[1] as int - '0' as int)
  {
    assert t[..1][..0] == [];
    assert DigitsValue(t[..1]) == t[0] as int - '0' as int;
  }

  /** The expiry pattern accepts exactly "MM/YY": two digits naming a month
      from 1 to 12, a slash and two digits, nothing else. */
  lemma ValidExpiryIsMonthSlashYear(s: string)
    ensures ValidExpiry(s) <==>
      && |s| == 5 && s[2] == '/' && DigitsExactly(s[..2], 2) && DigitsExactly(s[3..], 2)
      && 1 <= DigitsValue(s[..2]) <= 12
  {
    if |s| == 5 && DigitsExactly(s[..2], 2) {
      TwoDigitValue(s[..2]);
    }
  }

  /** Two-digit zero-padded decimal. */
  function TwoDigits(n: nat): (r: string)
    requires n < 100
    ensures DigitsExactly(r, 2) && DigitsValue(r) == n
  {
    var r := [DigitChar(n / 10), DigitChar(n % 10)];
    TwoDigitValue(r);
    r
  }

  /** Every month of every two-digit year is accepted when written MM/YY. */
  lemma EveryMonthAccepted(month: nat, year: nat)
    requires 1 <= month <= 12 && year < 100
    ensures ValidExpiry(TwoDigits(month) + "/" + TwoDigits(year))
  {
    var s := TwoDigits(month) + "/" + TwoDigits(year);
    assert s[..2] == TwoDigits(month) && s[3..] == TwoDigits(year);
    ValidExpiryIsMonthSlashYear(s);
  }

  /** The form's own placeholder, with spaces around the slash, is refused. */
  lemma PlaceholderRejected()
    ensures !ValidExpiry("03 / 25")
  {
  }

  // ---- handleSubmit ----

  datatype CardForm = CardForm(cardholderName: string, cardNumber: string, expiry: string, cvc: string)

  /** billingDetails from the navigation state: absent (the default `{}`
      applies), null, or the checkout form. */
  datatype Billing = BillingAbsent | BillingNull | BillingGiven(form: BillingForm)

  const FillAll: string := "Please fill in all fields."
  const BadCard: string := "Please enter a valid card number."
  const BadExpiry: string := "Please enter a valid expiry date in MM / YY format."
  const BadCvc: string := "Please enter a valid 3-digit CVC."

  predicate MissingCardField(c: CardForm) {
    c.cardholderName == "" || c.cardNumber == "" || c.expiry == "" || c.cvc == ""
  }

  /** The four card checks in their order; None when all pass. */
  function CardAlert(c: CardForm): (r: Option<string>)
    ensures r.None? <==> !MissingCardField(c) && ValidCardNumber(c.cardNumber) && ValidExpiry(c.expiry) && ValidCvc(c.cvc)
    ensures MissingCardField(c) ==> r == Some(FillAll)
    ensures !MissingCardField(c) && !ValidCardNumber(c.cardNumber) ==> r == Some(BadCard)
    ensures !MissingCardField(c) && ValidCardNumber(c.cardNumber) && !ValidExpiry(c.expiry) ==> r == Some(BadExpiry)
    ensures !MissingCardField(c) && ValidCardNumber(c.cardNumber) && ValidExpiry(c.expiry) && !ValidCvc(c.cvc) ==>
      r == Some(BadCvc)
  {
    if MissingCardField(c) then Some(FillAll)
    else if !ValidCardNumber(c.cardNumber) then Some(BadCard)
    else if !ValidExpiry(c.expiry) then Some(BadExpiry)
    else if !ValidCvc(c.cvc) then Some(BadCvc)
    else None
  }

  /** `billingDetails ? `${street}, ${apartment}, ${city}` : 'N/A'`; the
      fields of the empty default object print as "undefined". */
  function BillingAddress(b: Billing): string {
    match b
    case BillingAbsent => "undefined, undefined, undefined"
    case BillingNull => "N/A"
    case BillingGiven(f) => AddressLine(f.streetAddress, f.apartment, f.city)
  }

  /** `billingDetails?.field || 'N/A'`. */
  function BillingField(b: Billing, field: BillingForm -> string): (r: string)
    ensures r != ""
    ensures b.BillingGiven? && field(b.form) != "" ==> r == field(b.form)
  {
    if b.BillingGiven? && field(b.form) != "" then field(b.form) else "N/A"
  }

  function PhoneOf(f: BillingForm): string { f.phoneNumber }

  function EmailOf(f: BillingForm): string { f.email }

  /** The order handleSubmit posts: the items as given, the cardholder's
      name, the billing address and contacts with their 'N/A' fallbacks,
      and always 'bank'. `total` stands for calculateTotal(). */
  function PaymentPayload(userId: int, items: seq<CheckoutItem>, total: int, c: CardForm, b: Billing)
    : (req: OrderController.OrderRequest)
    ensures LinesFromItems(req, items)
    ensures req.name == Some(c.cardholderName) && req.paymentMethod == Some("bank")
    ensures req.address == Some(BillingAddress(b))
  {
    OrderController.OrderRequest(
      Some(userId), ItemTitles(items), ItemQuantities(items), Some(total), Some(c.cardholderName),
      Some(BillingAddress(b)), Some(BillingField(b, PhoneOf)), Some(BillingField(b, EmailOf)), Some("bank"), None)
  }

  /** handleSubmit: the card checks, then the user lookup, then the stock
      loop (in that order, unlike the checkout page), then the order. */
  method HandleSubmit(c: CardForm, me: MeReply, items: seq<CheckoutItem>, b: Billing, total: int)
    returns (outcome: CheckoutOutcome)
    ensures CardAlert(c).Some? ==> outcome == Alert(CardAlert(c).value)
    ensures CardAlert(c).None? && me.Unauthorized? ==> outcome == SessionExpired
    ensures CardAlert(c).None? && me.MeFailed? ==> outcome == NothingSent
    ensures CardAlert(c).None? && me.Me? && FirstBlocked(items).Some? ==>
      outcome == Alert(StockAlert(items[FirstBlocked(items).value]))
    ensures outcome.PostOrder? <==> CardAlert(c).None? && me.Me? && FirstBlocked(items).None?
    ensures outcome.PostOrder? ==> outcome.order == PaymentPayload(me.id, items, total, c, b)
  {
    var alert := CardAlert(c);
    if alert.Some? {
      return Alert(alert.value);
    }
    var userId;
    match me {
      case Unauthorized => return SessionExpired;
      case MeFailed => return NothingSent;
      case Me(id) => userId := id;
    }
    var blocked := StockCheck(items);
    if blocked.Some? {
      return Alert(StockAlert(items[blocked.value]));
    }
    return PostOrder(PaymentPayload(userId, items, total, c, b));
  }

  /** A bank order the page sends passes the server's required-field check
      whenever the user id and the total are not 0: the name is checked
      here, and the address, phone and email are never empty. */
  lemma PaymentOrderPassesServerCheck(userId: int, items: seq<CheckoutItem>, total: int, c: CardForm, b: Billing)
    requires CardAlert(c).None? && userId != 0 && total != 0
    ensures !OrderController.MissingRequired(PaymentPayload(userId, items, total, c, b))
  {
    if b.BillingGiven? {
      assert |AddressLine(b.form.streetAddress, b.form.apartment, b.form.city)| >= 4;
    }
  }
}
