/** frontend/src/Pages/Checkout.jsx: the validators of the billing form and
    handleCheckout, the chain of checks that runs before an order is posted
    (cash on delivery) or the payment page is opened (bank payment). The
    login state and the reply of GET /api/auth/me are inputs. */
module Checkout {
  import opened Common
  import OrderController

  // ---- the validators ----

  /** `/^\d{n}$/.test(s)`: exactly n ASCII digits. */
  predicate DigitsExactly(s: string, n: nat) { |s| == n && AllDigits(s) }

  /** `/^\d{10}$/`. */
  predicate ValidPhone(s: string)
    ensures ValidPhone(s) ==> |s| == 10
  {
    DigitsExactly(s, 10)
  }

  /** `[^\s@]+` over s[i..j]: at least one character, none of them white
      space or '@'. */
  predicate Block(s: string, i: int, j: int)
    requires 0 <= i <= j <= |s|
  {
    i < j && forall k :: i <= k < j ==> !IsJsSpace(s[k]) && s[k] != '@'
  }

  /** `/^[^\s@]+@[^\s@]+\.[^\s@]+$/.test(s)`: s splits into a block, '@', a
      block, '.', a block. */
  predicate ValidEmail(s: string)
    ensures ValidEmail(s) ==> |s| >= 5 && '@' in s && '.' in s
  {
    exists at, dot :: 0 < at && at + 1 < dot && dot + 1 < |s|
      && Block(s, 0, at) && s[at] == '@' && Block(s, at + 1, dot) && s[dot] == '.' && Block(s, dot + 1, |s|)
  }

  /** The accepted emails in words: no white space, exactly one '@' with
      something before it, and after it a '.' that is neither the first nor
      the last character of the part after the '@'. */
  predicate EmailShape(s: string) {
    && (forall k :: 0 <= k < |s| ==> !IsJsSpace(s[k]))
    && (exists at ::
          && 0 < at < |s| && s[at] == '@'
          && (forall k :: 0 <= k < |s| && k != at ==> s[k] != '@')
          && (exists dot :: at + 1 < dot < |s| - 1 && s[dot] == '.'))
  }

  lemma EmailRegexGivesShape(s: string, at: int, dot: int)
    requires 0 < at && at + 1 < dot && dot + 1 < |s|
    requires Block(s, 0, at) && s[at] == '@' && Block(s, at + 1, dot) && s[dot] == '.' && Block(s, dot + 1, |s|)
    ensures EmailShape(s)
  {
    assert !IsJsSpace('@') && !IsJsSpace('.');
    assert forall k :: 0 <= k < |s| ==> !IsJsSpace(s[k]) by {
      forall k | 0 <= k < |s| ensures !IsJsSpace(s[k]) {
        if k == at || k == dot {
        } else if k < at {
          assert 0 <= k < at;
        } else if k < dot {
          assert at + 1 <= k < dot;
        } else {
          assert dot + 1 <= k < |s|;
        }
      }
    }
    assert forall k :: 0 <= k < |s| && k != at ==> s[k] != '@';
  }

  lemma EmailShapeGivesRegex(s: string, at: int, dot: int)
    requires forall k :: 0 <= k < |s| ==> !IsJsSpace(s[k])
    requires 0 < at < |s| && s[at] == '@' && forall k :: 0 <= k < |s| && k != at ==> s[k] != '@'
    requires at + 1 < dot < |s| - 1 && s[dot] == '.'
    ensures ValidEmail(s)
  {
    assert Block(s, 0, at) && Block(s, at + 1, dot) && Block(s, dot + 1, |s|);
  }

  /** The email pattern accepts exactly the strings of that shape. */
  lemma ValidEmailIsShape(s: string)
    ensures ValidEmail(s) <==> EmailShape(s)
  {
    if ValidEmail(s) {
      var at, dot :| 0 < at && at + 1 < dot && dot + 1 < |s|
        && Block(s, 0, at) && s[at] == '@' && Block(s, at + 1, dot) && s[dot] == '.' && Block(s, dot + 1, |s|);
      EmailRegexGivesShape(s, at, dot);
    }
    if EmailShape(s) {
      var at :| 0 < at < |s| && s[at] == '@'
        && (forall k :: 0 <= k < |s| && k != at ==> s[k] != '@')
        && (exists dot :: at + 1 < dot < |s| - 1 && s[dot] == '.');
      var dot :| at + 1 < dot < |s| - 1 && s[dot] == '.';
      EmailShapeGivesRegex(s, at, dot);
    }
  }

  // ---- the cart items ----

  /** A cart item as the page holds it. The rows of GET /api/cart and the
      single item ProductDetail passes carry no availableQuantity; then the
      field is undefined (None here). */
  datatype CheckoutItem = CheckoutItem(title: string, quantity: int, availableQuantity: Option<int>)

  /** `item.quantity > item.availableQuantity`: a comparison with undefined
      is false, so an item without a stock figure never blocks. */
  predicate Blocks(item: CheckoutItem) {
    item.availableQuantity.Some? && item.quantity > item.availableQuantity.value
  }

  /** The first item that blocks the order, if any. */
  function FirstBlocked(items: seq<CheckoutItem>): (r: Option<nat>)
    ensures r.None? <==> forall j :: 0 <= j < |items| ==> !Blocks(items[j])
    ensures r.Some? ==> r.value < |items| && Blocks(items[r.value]) && forall j :: 0 <= j < r.value ==> !Blocks(items[j])
  {
    if |items| == 0 then None
    else if Blocks(items[0]) then Some(0)
    else
      var rest := FirstBlocked(items[1..]);
      assert forall j :: 0 < j < |items| ==> items[j] == items[1..][j - 1];
      if rest.None? then None else Some(rest.value + 1)
  }

  /** The `for (const item of cartItems)` stock loop: the index of the first
      blocking item, where the page alerts and returns. */
  method StockCheck(items: seq<CheckoutItem>) returns (blocked: Option<nat>)
    ensures blocked == FirstBlocked(items)
  {
    for i := 0 to |items|
      invariant forall j :: 0 <= j < i ==> !Blocks(items[j])
    {
      if Blocks(items[i]) {
        return Some(i);
      }
    }
    return None;
  }

  function StockAlert(item: CheckoutItem): string
    requires item.availableQuantity.Some?
  {
    "Insufficient stock for " + item.title + ". Available: " + IntToDecimal(item.availableQuantity.value)
  }

  // ---- handleCheckout ----

  /** The billing form. With a saved delivery detail selected the form is
      that row, whose apartment may be NULL. */
  datatype BillingForm = BillingForm(fullName: string, streetAddress: string, apartment: Option<string>,
                                     city: string, phoneNumber: string, email: string)

  /** `${apartment}` in a template literal: a NULL apartment prints "null". */
  function TemplateText(v: Option<string>): string {
    if v.Some? then v.value else "null"
  }

  /** `${streetAddress}, ${apartment}, ${city}`. */
  function AddressLine(street: string, apartment: Option<string>, city: string): string {
    street + ", " + TemplateText(apartment) + ", " + city
  }

  /** The reply of GET /api/auth/me: the user's id, a 401, or any other
      failure. */
  datatype MeReply = Me(id: int) | Unauthorized | MeFailed

  /** What the handler ends with: the login page, an alert, the order
      posted, the payment page, or nothing (a failed lookup is only logged). */
  datatype CheckoutOutcome =
    | LoginRequired
    | Alert(message: string)
    | SessionExpired
    | PostOrder(order: OrderController.OrderRequest)
    | OpenPayment
    | NothingSent

  const FillRequired: string := "Please fill in all required fields."
  const BadPhone: string := "Please enter a valid 10-digit phone number."
  const BadEmail: string := "Please enter a valid email address."

  /** The apartment is the one optional field. */
  predicate MissingBilling(f: BillingForm) {
    f.fullName == "" || f.streetAddress == "" || f.city == "" || f.phoneNumber == "" || f.email == ""
  }

  /** The four form checks in their order; None when all pass. */
  function FormAlert(f: BillingForm): (r: Option<string>)
    ensures r.None? <==> !MissingBilling(f) && ValidPhone(f.phoneNumber) && ValidEmail(f.email)
    ensures MissingBilling(f) ==> r == Some(FillRequired)
    ensures !MissingBilling(f) && !ValidPhone(f.phoneNumber) ==> r == Some(BadPhone)
    ensures !MissingBilling(f) && ValidPhone(f.phoneNumber) && !ValidEmail(f.email) ==> r == Some(BadEmail)
  {
    if MissingBilling(f) then Some(FillRequired)
    else if !ValidPhone(f.phoneNumber) then Some(BadPhone)
    else if !ValidEmail(f.email) then Some(BadEmail)
    else None
  }

  /** `cartItems.map(item => item.title)`. */
  function ItemTitles(items: seq<CheckoutItem>): OrderController.TitleArg {
    OrderController.ManyTitles(seq(|items|, i requires 0 <= i < |items| => items[i].title))
  }

  /** `cartItems.map(item => item.quantity)`. */
  function ItemQuantities(items: seq<CheckoutItem>): OrderController.QuantityArg {
    OrderController.ManyQuantities(seq(|items|, i requires 0 <= i < |items| => OrderController.Number(items[i].quantity)))
  }

  /** Both lists are arrays as long as the cart, and position i of each
      comes from item i. */
  predicate LinesFromItems(req: OrderController.OrderRequest, items: seq<CheckoutItem>) {
    && req.productTitle.ManyTitles? && req.quantity.ManyQuantities?
    && |req.productTitle.titles| == |items| == |req.quantity.quantities|
    && forall i :: 0 <= i < |items| ==>
         req.productTitle.titles[i] == items[i].title && req.quantity.quantities[i] == OrderController.Number(items[i].quantity)
  }

  /** The body of POST /api/orders/add, field by field from the form and the
      items: the i-th title and the i-th quantity come from the i-th item.
      `total` stands for calculateTotal(). */
  function CheckoutPayload(userId: int, items: seq<CheckoutItem>, total: int, f: BillingForm, paymentMethod: string)
    : (req: OrderController.OrderRequest)
    ensures LinesFromItems(req, items)
    ensures req.address == Some(AddressLine(f.streetAddress, f.apartment, f.city))
  {
    OrderController.OrderRequest(
      Some(userId), ItemTitles(items), ItemQuantities(items), Some(total), Some(f.fullName), Some(AddressLine(f.streetAddress, f.apartment, f.city)),
      Some(f.phoneNumber), Some(f.email), Some(paymentMethod), None)
  }

  /** handleCheckout: login, the form checks, the stock loop, then by payment
      method either the user lookup and the order (cash on delivery), or the
      payment page. */
  method HandleCheckout(authenticated: bool, f: BillingForm, items: seq<CheckoutItem>, paymentMethod: string,
                        me: MeReply, total: int) returns (outcome: CheckoutOutcome)
    ensures outcome == LoginRequired <==> !authenticated
    ensures authenticated && FormAlert(f).Some? ==> outcome == Alert(FormAlert(f).value)
    ensures authenticated && FormAlert(f).None? && FirstBlocked(items).Some? ==>
      outcome == Alert(StockAlert(items[FirstBlocked(items).value]))
    ensures outcome.PostOrder? <==>
      authenticated && FormAlert(f).None? && FirstBlocked(items).None? && paymentMethod == "cod" && me.Me?
    ensures outcome.PostOrder? ==> outcome.order == CheckoutPayload(me.id, items, total, f, "cod")
    ensures outcome == SessionExpired <==>
      authenticated && FormAlert(f).None? && FirstBlocked(items).None? && paymentMethod == "cod" && me.Unauthorized?
    ensures outcome == OpenPayment <==>
      authenticated && FormAlert(f).None? && FirstBlocked(items).None? && paymentMethod == "bank"
    ensures outcome == NothingSent <==>
      && authenticated && FormAlert(f).None? && FirstBlocked(items).None?
      && ((paymentMethod == "cod" && me.MeFailed?) || (paymentMethod != "cod" && paymentMethod != "bank"))
  {
    if !authenticated {
      return LoginRequired;
    }
    var alert := FormAlert(f);
    if alert.Some? {
      return Alert(alert.value);
    }
    var blocked := StockCheck(items);
    if blocked.Some? {
      return Alert(StockAlert(items[blocked.value]));
    }
    if paymentMethod == "cod" {
      match me {
        case Unauthorized => return SessionExpired;
        case MeFailed => return NothingSent;
        case Me(userId) => return PostOrder(CheckoutPayload(userId, items, total, f, paymentMethod));
      }
    } else if paymentMethod == "bank" {
      return OpenPayment;
    }
    return NothingSent;
  }

  /** A cash-on-delivery order the page sends passes the server's
      required-field check whenever the user id and the total are not 0:
      the page's own checks cover every other field addOrder requires. */
  lemma CheckoutOrderPassesServerCheck(userId: int, items: seq<CheckoutItem>, total: int, f: BillingForm)
    requires FormAlert(f).None? && userId != 0 && total != 0
    ensures !OrderController.MissingRequired(CheckoutPayload(userId, items, total, f, "cod"))
  {
  }
}
