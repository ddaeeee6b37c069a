/** backend/controllers/orderController.js: the request handlers in front of
    the order engine. addOrder validates the body, checks the stock of every
    line (one lookup per line, all of them issued, in line order) and only
    then creates the order; updateOrderStatusA and markOrderAsReceived wrap
    the two receive transitions; getUserOrderHistory filters a query result.
    Each handler's reply is a status code and a body. */
module OrderController {
  import opened Common
  import opened Schema
  import opened LineItems
  import opened OrderModel

  /** A numeric field of the request body; 0 is falsy as well. */
  predicate FalsyNumber(v: Option<int>) { v.None? || v.value == 0 }

  /** product_title as the body carries it: one value or an array. */
  datatype TitleArg = OneTitle(title: Option<string>) | ManyTitles(titles: seq<string>)

  /** One quantity as the JSON body carries it: absent (undefined), null,
      or a number. */
  datatype QuantityValue = Undefined | Null | Number(n: int)

  /** quantity as the body carries it: one value or an array. */
  datatype QuantityArg = OneQuantity(quantity: QuantityValue) | ManyQuantities(quantities: seq<QuantityValue>)

  /** `availableQuantity < qty` in JavaScript: undefined converts to NaN,
      so the comparison is false; null converts to 0. */
  predicate BelowQuantity(avail: int, q: QuantityValue) {
    match q
    case Undefined => false
    case Null => avail < 0
    case Number(n) => avail < n
  }

  /** What `join(', ')` writes for an entry: undefined and null both become
      the empty text (None), a number its decimal. */
  function JoinedQuantity(q: QuantityValue): (r: Option<int>)
    ensures r.Some? <==> q.Number?
    ensures r.Some? ==> r.value == q.n
  {
    if q.Number? then Some(q.n) else None
  }

  function JoinedQuantities(qs: seq<QuantityValue>): (r: seq<Option<int>>)
    ensures |r| == |qs| && forall k :: 0 <= k < |qs| ==> r[k] == JoinedQuantity(qs[k])
  {
    seq(|qs|, k requires 0 <= k < |qs| => JoinedQuantity(qs[k]))
  }

  /** The body of POST /orders. Money is in integer cents. */
  datatype OrderRequest = OrderRequest(
    userId: Option<int>, productTitle: TitleArg, quantity: QuantityArg, total: Option<int>,
    name: Option<string>, address: Option<string>, phone: Option<string>, email: Option<string>,
    paymentMethod: Option<string>, receivedToSupplier: Option<FlagValue>)

  /** An array is never falsy, even an empty one. */
  predicate FalsyTitle(t: TitleArg) { t.OneTitle? && FalsyText(t.title) }

  /** The required-field check of addOrder; quantity and the flag are not in it. */
  predicate MissingRequired(req: OrderRequest) {
    || FalsyNumber(req.userId) || FalsyTitle(req.productTitle) || FalsyNumber(req.total)
    || FalsyText(req.name) || FalsyText(req.address) || FalsyText(req.phone)
    || FalsyText(req.email) || FalsyText(req.paymentMethod)
  }

  /** `Array.isArray(product_title) ? product_title : [product_title]`. */
  function Titles(t: TitleArg): (ts: seq<string>)
    requires !FalsyTitle(t)
    ensures t.OneTitle? ==> ts == [t.title.value]
    ensures t.ManyTitles? ==> ts == t.titles
  {
    match t
    case OneTitle(v) => [v.value]
    case ManyTitles(ts) => ts
  }

  /** `Array.isArray(quantity) ? quantity : [quantity]`. */
  function Quantities(q: QuantityArg): (qs: seq<QuantityValue>)
    ensures q.OneQuantity? ==> qs == [q.quantity]
    ensures q.ManyQuantities? ==> qs == q.quantities
  {
    match q
    case OneQuantity(v) => [v]
    case ManyQuantities(qs) => qs
  }

  /** `quantities[index]`: undefined past the end. */
  function QuantityFor(qs: seq<QuantityValue>, i: nat): (q: QuantityValue)
    ensures i < |qs| ==> q == qs[i]
    ensures i >= |qs| ==> q == Undefined
  {
    if i < |qs| then qs[i] else Undefined
  }

  /** The first product row with this title, as `results[0]` of the lookup. */
  function FindProduct(ps: seq<Product>, title: string): (r: Option<nat>)
    ensures r.Some? ==> r.value < |ps| && ps[r.value].title == title
    ensures r.Some? ==> forall k :: 0 <= k < r.value ==> ps[k].title != title
    ensures r.None? <==> forall k :: 0 <= k < |ps| ==> ps[k].title != title
  {
    if |ps| == 0 then None
    else if ps[0].title == title then Some(0)
    else match FindProduct(ps[1..], title)
      case None => None
      case Some(k) => Some(k + 1)
  }

  /** One entry of `stockIssues`. */
  datatype StockIssue = StockIssue(title: string, requestedQuantity: QuantityValue, availableQuantity: int)

  /** The check of one line: short when no product has the title, or when
      the first one's stock is below the requested quantity as JavaScript
      compares them. An undefined quantity compares false, so such a line is
      never short unless its title is unknown; a null one is short exactly
      when the stock is negative. The record carries the stock found, or 0. */
  function Shortfall(ps: seq<Product>, title: string, qty: QuantityValue): (r: Option<StockIssue>)
    ensures var f := FindProduct(ps, title);
      r.Some? <==> f.None? || BelowQuantity(ps[f.value].availableQuantity, qty)
    ensures var f := FindProduct(ps, title);
      f.Some? && qty == Null ==> (r.Some? <==> ps[f.value].availableQuantity < 0)
    ensures r.Some? ==> r.value.title == title && r.value.requestedQuantity == qty
    ensures r.Some? ==>
      r.value.availableQuantity == (if FindProduct(ps, title).Some? then ps[FindProduct(ps, title).value].availableQuantity else 0)
  {
    match FindProduct(ps, title)
    case None => Some(StockIssue(title, qty, 0))
    case Some(j) =>
      if BelowQuantity(ps[j].availableQuantity, qty)
      then Some(StockIssue(title, qty, ps[j].availableQuantity))
      else None
  }

  /** The issues of the lines, in line order. */
  function StockIssues(ps: seq<Product>, ts: seq<string>, qs: seq<QuantityValue>): (issues: seq<StockIssue>)
    ensures |issues| <= |ts|
    decreases |ts|
  {
    if |ts| == 0 then []
    else
      var n := |ts| - 1;
      StockIssues(ps, ts[..n], qs)
        + (match Shortfall(ps, ts[n], QuantityFor(qs, n)) case None => [] case Some(s) => [s])
  }

  /** Every line is checked and every shortfall is reported: the list holds
      the record of each short line and only records of short lines, and it
      is empty exactly when no line is short. */
  lemma StockIssuesComplete(ps: seq<Product>, ts: seq<string>, qs: seq<QuantityValue>)
    ensures var issues := StockIssues(ps, ts, qs);
      && |issues| <= |ts|
      && (forall r :: r in issues ==> r.title in ts && Shortfall(ps, r.title, r.requestedQuantity) == Some(r))
      && (forall i :: 0 <= i < |ts| && Shortfall(ps, ts[i], QuantityFor(qs, i)).Some? ==>
            Shortfall(ps, ts[i], QuantityFor(qs, i)).value in issues)
      && (issues == [] <==> forall i :: 0 <= i < |ts| ==> Shortfall(ps, ts[i], QuantityFor(qs, i)).None?)
  {
    IssuesSound(ps, ts, qs);
    IssuesCover(ps, ts, qs);
    IssuesEmpty(ps, ts, qs);
  }

  lemma {:induction false} IssuesSound(ps: seq<Product>, ts: seq<string>, qs: seq<QuantityValue>)
    ensures |StockIssues(ps, ts, qs)| <= |ts|
    ensures forall r :: r in StockIssues(ps, ts, qs) ==>
      r.title in ts && Shortfall(ps, r.title, r.requestedQuantity) == Some(r)
  {
    if |ts| > 0 {
      var n := |ts| - 1;
      IssuesSound(ps, ts[..n], qs);
      var front := StockIssues(ps, ts[..n], qs);
      forall r | r in StockIssues(ps, ts, qs)
        ensures r.title in ts && Shortfall(ps, r.title, r.requestedQuantity) == Some(r)
      {
        if r in front {
          var k :| 0 <= k < n && ts[..n][k] == r.title;
          assert ts[k] == r.title;
        } else {
          assert r.title == ts[n];
        }
      }
    }
  }

  lemma {:induction false} IssuesCover(ps: seq<Product>, ts: seq<string>, qs: seq<QuantityValue>)
    ensures forall i :: 0 <= i < |ts| && Shortfall(ps, ts[i], QuantityFor(qs, i)).Some? ==>
      Shortfall(ps, ts[i], QuantityFor(qs, i)).value in StockIssues(ps, ts, qs)
  {
    if |ts| > 0 {
      var n := |ts| - 1;
      IssuesCover(ps, ts[..n], qs);
      assert forall i :: 0 <= i < n ==> ts[..n][i] == ts[i];
    }
  }

  lemma {:induction false} IssuesEmpty(ps: seq<Product>, ts: seq<string>, qs: seq<QuantityValue>)
    ensures StockIssues(ps, ts, qs) == [] <==> forall i :: 0 <= i < |ts| ==> Shortfall(ps, ts[i], QuantityFor(qs, i)).None?
  {
    if |ts| > 0 {
      var n := |ts| - 1;
      IssuesEmpty(ps, ts[..n], qs);
      assert forall i :: 0 <= i < n ==> ts[..n][i] == ts[i];
    }
  }

  /** The lookups addOrder sends, one per line, in line order. */
  function StockLookups(ts: seq<string>): (r: seq<Statement>)
    ensures |r| == |ts| && forall k :: 0 <= k < |ts| ==> r[k] == SelectStock(ts[k])
  {
    seq(|ts|, k requires 0 <= k < |ts| => SelectStock(ts[k]))
  }

  /** Some lookup among the first n failed: Promise.all then rejects. */
  predicate LookupFailed(lookupFails: set<nat>, n: nat) {
    exists i :: 0 <= i < n && i in lookupFails
  }

  /** `receivedToSupplier || 0`. */
  function FlagOrZero(v: Option<FlagValue>): (f: FlagValue)
    ensures Truthy(f) <==> v.Some? && Truthy(v.value)
    ensures Truthy(f) ==> f == v.value
  {
    if v.Some? && Truthy(v.value) then v.value else FNum(0)
  }

  /** The orderDetails handed to createOrder: the wrapped lists, the other
      fields as they came. */
  function Details(req: OrderRequest, ts: seq<string>, qs: seq<QuantityValue>): (d: OrderDetails)
    requires !MissingRequired(req)
    ensures d.titles == TitleList(ts) && d.quantities == QuantityList(JoinedQuantities(qs))
    ensures d.userId == req.userId.value && d.total == req.total.value
    ensures d.receivedToSupplier == FlagOrZero(req.receivedToSupplier)
  {
    OrderDetails(req.userId.value, TitleList(ts), QuantityList(JoinedQuantities(qs)), req.total.value,
                 req.name.value, req.address.value, req.phone.value, req.email.value,
                 req.paymentMethod.value, FlagOrZero(req.receivedToSupplier))
  }

  datatype AddOrderReply =
    | MissingFields
    | AvailabilityCheckFailed
    | InsufficientStock(stockIssues: seq<StockIssue>)
    | CreateFailed
    | Created(orderId: string)

  /** The HTTP status of each reply. */
  function AddOrderStatus(r: AddOrderReply): (code: nat)
    ensures code == 201 <==> r.Created?
    ensures code == 400 <==> r.MissingFields? || r.InsufficientStock?
  {
    match r
    case MissingFields => 400
    case AvailabilityCheckFailed => 500
    case InsufficientStock(_) => 400
    case CreateFailed => 500
    case Created(_) => 201
  }

  /** The `error` or `message` text of each reply. */
  function AddOrderText(r: AddOrderReply): string {
    match r
    case MissingFields => "Missing required fields"
    case AvailabilityCheckFailed => "Failed to check product availability"
    case InsufficientStock(_) => "Insufficient stock"
    case CreateFailed => "Failed to create order"
    case Created(_) => "Order created successfully"
  }

  /** What one addOrder call does: the orders table after it, the
      statements it sends, and the reply. */
  datatype AddOrderEffect = AddOrderEffect(orders: seq<Order>, statements: seq<Statement>, reply: AddOrderReply)

  function AddOrderSpec(ps: seq<Product>, os: seq<Order>, us: seq<User>, req: OrderRequest,
                        lookupFails: set<nat>, fraction: seq<int>, now: Timestamp, storeFails: bool): (e: AddOrderEffect)
    requires forall k :: 0 <= k < |fraction| ==> 0 <= fraction[k] < 36
    ensures !e.reply.Created? ==> e.orders == os
    ensures e.reply.Created? ==> |e.orders| == |os| + 1 && e.orders[..|os|] == os && e.orders[|os|].id == e.reply.orderId
    ensures e.reply.InsufficientStock? ==> e.reply.stockIssues != []
  {
    if MissingRequired(req) then AddOrderEffect(os, [], MissingFields)
    else
      var ts := Titles(req.productTitle);
      var qs := Quantities(req.quantity);
      if LookupFailed(lookupFails, |ts|) then AddOrderEffect(os, StockLookups(ts), AvailabilityCheckFailed)
      else
        var issues := StockIssues(ps, ts, qs);
        if issues != [] then AddOrderEffect(os, StockLookups(ts), InsufficientStock(issues))
        else
          var o := NewOrderRow(GenerateOrderId(fraction), Details(req, ts, qs), now);
          if InsertRejected(os, us, o, BoundFlag(Details(req, ts, qs)), storeFails)
          then AddOrderEffect(os, StockLookups(ts) + [InsertOrder(o.id)], CreateFailed)
          else AddOrderEffect(os + [o], StockLookups(ts) + [InsertOrder(o.id)], Created(o.id))
  }

  /** The stock check of addOrder: one lookup per line, in line order, every
      one of them sent; the shortfalls are collected until the end. */
  method CheckAvailability(db: Database, ts: seq<string>, qs: seq<QuantityValue>, lookupFails: set<nat>)
    returns (failed: bool, stockIssues: seq<StockIssue>)
    modifies db`log
    ensures db.log == old(db.log) + StockLookups(ts)
    ensures failed == LookupFailed(lookupFails, |ts|)
    ensures !failed ==> stockIssues == StockIssues(db.products, ts, qs)
  {
    failed := false;
    stockIssues := [];
    var i := 0;
    while i < |ts|
      invariant 0 <= i <= |ts|
      invariant db.log == old(db.log) + StockLookups(ts[..i])
      invariant failed == LookupFailed(lookupFails, i)
      invariant !failed ==> stockIssues == StockIssues(db.products, ts[..i], qs)
    {
      db.log := db.log + [SelectStock(ts[i])];
      if i in lookupFails {
        failed := true;
      } else {
        match Shortfall(db.products, ts[i], QuantityFor(qs, i))
        case None =>
        case Some(s) => stockIssues := stockIssues + [s];
      }
      assert ts[..i + 1][..i] == ts[..i];
      assert StockLookups(ts[..i + 1]) == StockLookups(ts[..i]) + [SelectStock(ts[i])];
      i := i + 1;
    }
    assert ts[..i] == ts;
  }

  /** addOrder: the required fields, then the stock check of every line,
      then createOrder with the wrapped lists and the flag `|| 0`. The
      products table is only read. */
  method AddOrder(db: Database, req: OrderRequest, lookupFails: set<nat>,
                  fraction: seq<int>, now: Timestamp, storeFails: bool)
    returns (reply: AddOrderReply)
    requires OrdersValid(db.orders, db.users)
    requires forall k :: 0 <= k < |fraction| ==> 0 <= fraction[k] < 36
    modifies db`orders, db`log
    ensures OrdersValid(db.orders, db.users)
    ensures var e := AddOrderSpec(old(db.products), old(db.orders), db.users, req, lookupFails, fraction, now, storeFails);
      db.orders == e.orders && db.log == old(db.log) + e.statements && reply == e.reply
  {
    if MissingRequired(req) {
      return MissingFields;
    }
    var productTitles := Titles(req.productTitle);
    var quantities := Quantities(req.quantity);
    var failed, stockIssues := CheckAvailability(db, productTitles, quantities, lookupFails);
    if failed {
      return AvailabilityCheckFailed;
    }
    if |stockIssues| > 0 {
      return InsufficientStock(stockIssues);
    }
    var r := CreateOrder(db, Details(req, productTitles, quantities), fraction, now, storeFails);
    AppendAssoc(old(db.log), StockLookups(productTitles), [InsertOrder(GenerateOrderId(fraction))]);
    if r.Err? {
      return CreateFailed;
    }
    return Created(r.value);
  }

  // ---- what addOrder guarantees ----

  /** A missing required field is answered with 400 before any statement:
      no lookup, no insert. */
  lemma MissingFieldSendsNothing(ps: seq<Product>, os: seq<Order>, us: seq<User>, req: OrderRequest,
                                 lookupFails: set<nat>, fraction: seq<int>, now: Timestamp, storeFails: bool)
    requires forall k :: 0 <= k < |fraction| ==> 0 <= fraction[k] < 36
    requires MissingRequired(req)
    ensures var e := AddOrderSpec(ps, os, us, req, lookupFails, fraction, now, storeFails);
      e.reply == MissingFields && AddOrderStatus(e.reply) == 400 && e.statements == [] && e.orders == os
  {
  }

  /** With the required fields present, every line is looked up, in line
      order, before anything else; any shortfall is answered with the
      complete list of them and no order is inserted. */
  lemma ShortfallBlocksOrder(ps: seq<Product>, os: seq<Order>, us: seq<User>, req: OrderRequest,
                             lookupFails: set<nat>, fraction: seq<int>, now: Timestamp, storeFails: bool, i: nat)
    requires forall k :: 0 <= k < |fraction| ==> 0 <= fraction[k] < 36
    requires !MissingRequired(req) && !LookupFailed(lookupFails, |Titles(req.productTitle)|)
    requires i < |Titles(req.productTitle)|
    requires Shortfall(ps, Titles(req.productTitle)[i], QuantityFor(Quantities(req.quantity), i)).Some?
    ensures var ts := Titles(req.productTitle);
      var e := AddOrderSpec(ps, os, us, req, lookupFails, fraction, now, storeFails);
      && e.reply == InsufficientStock(StockIssues(ps, ts, Quantities(req.quantity)))
      && Shortfall(ps, ts[i], QuantityFor(Quantities(req.quantity), i)).value in e.reply.stockIssues
      && AddOrderStatus(e.reply) == 400
      && e.orders == os && e.statements == StockLookups(ts)
  {
    StockIssuesComplete(ps, Titles(req.productTitle), Quantities(req.quantity));
  }

  /** An order is created only when no line is short and every lookup
      succeeded; it is then created with the same title and quantity lists,
      paired by index, and the flag `receivedToSupplier || 0`. */
  lemma CreatedOnlyWithoutShortfall(ps: seq<Product>, os: seq<Order>, us: seq<User>, req: OrderRequest,
                                    lookupFails: set<nat>, fraction: seq<int>, now: Timestamp, storeFails: bool)
    requires forall k :: 0 <= k < |fraction| ==> 0 <= fraction[k] < 36
    requires AddOrderSpec(ps, os, us, req, lookupFails, fraction, now, storeFails).reply.Created?
    ensures !MissingRequired(req)
    ensures var ts := Titles(req.productTitle);
      var qs := Quantities(req.quantity);
      && !LookupFailed(lookupFails, |ts|)
      && (forall i :: 0 <= i < |ts| ==> Shortfall(ps, ts[i], QuantityFor(qs, i)).None?)
      && AddOrderSpec(ps, os, us, req, lookupFails, fraction, now, storeFails).orders
         == os + [NewOrderRow(GenerateOrderId(fraction), Details(req, ts, qs), now)]
  {
    StockIssuesComplete(ps, Titles(req.productTitle), Quantities(req.quantity));
  }

  /** A failed lookup is answered with 500 and no order is inserted, whatever
      the other lines' stock. */
  lemma LookupFailureBlocksOrder(ps: seq<Product>, os: seq<Order>, us: seq<User>, req: OrderRequest,
                                 lookupFails: set<nat>, fraction: seq<int>, now: Timestamp, storeFails: bool)
    requires forall k :: 0 <= k < |fraction| ==> 0 <= fraction[k] < 36
    requires !MissingRequired(req) && LookupFailed(lookupFails, |Titles(req.productTitle)|)
    ensures var e := AddOrderSpec(ps, os, us, req, lookupFails, fraction, now, storeFails);
      e.reply == AvailabilityCheckFailed && AddOrderStatus(e.reply) == 500 && e.orders == os
  {
  }

  /** The wrapping of a single title: a scalar title and quantity become a
      one-line order. */
  lemma ScalarFieldsWrap(req: OrderRequest)
    requires !MissingRequired(req) && req.productTitle.OneTitle? && req.quantity.OneQuantity?
    ensures Titles(req.productTitle) == [req.productTitle.title.value]
    ensures QuantityFor(Quantities(req.quantity), 0) == req.quantity.quantity
  {
  }

  // ---- the receive endpoints ----

  /** The body of PUT /orders/status; None stands for null or undefined. */
  datatype StatusRequest = StatusRequest(orderId: Option<string>, receivedToSupplier: Option<FlagValue>)

  /** A status code and the `message` or `error` text of the reply. */
  datatype Reply = Reply(status: nat, text: string)

  /** The text of a receive error: the model's own message, or the driver's
      (`driverMessage`) for a store error. */
  function ErrorText(e: ReceiveError, driverMessage: string): (m: string)
    ensures e.StoreError? ==> m == driverMessage
    ensures !e.StoreError? ==> m == ErrorMessage(e).value
  {
    match ErrorMessage(e)
    case None => driverMessage
    case Some(m) => m
  }

  /** updateOrderStatusA: `orderId == null || receivedToSupplier == null` is
      answered with 400 and nothing sent; `false` and 0 are accepted. */
  method UpdateOrderStatusA(db: Database, req: StatusRequest, faults: ReceiveFaults, driverMessage: string)
    returns (reply: Reply)
    modifies db`products, db`orders, db`log
    ensures req.orderId.None? || req.receivedToSupplier.None? ==>
      reply == Reply(400, "Missing required fields") && db.log == old(db.log)
      && db.products == old(db.products) && db.orders == old(db.orders)
    ensures req.orderId.Some? && req.receivedToSupplier.Some? ==>
      var e := Receive(old(db.products), old(db.orders), req.orderId.value, req.receivedToSupplier.value, faults, Supplier);
      && db.products == e.products && db.orders == e.orders && db.log == old(db.log) + e.statements
      && reply == (if e.result.Ok? then Reply(200, "Order status updated successfully")
                   else Reply(500, "Failed to update order status: " + ErrorText(e.result.error, driverMessage)))
  {
    if req.orderId.None? || req.receivedToSupplier.None? {
      return Reply(400, "Missing required fields");
    }
    var r := UpdateReceivedToSupplier(db, req.orderId.value, req.receivedToSupplier.value, faults);
    if r.Err? {
      return Reply(500, "Failed to update order status: " + ErrorText(r.error, driverMessage));
    }
    return Reply(200, "Order status updated successfully");
  }

  /** The reply of markOrderAsReceived, with the affectedRows it reports. */
  datatype MarkReply = MarkFailed(error: string) | Marked(affectedRows: nat)

  /** markOrderAsReceived: updateOrderStatus with the number 1. */
  method MarkOrderAsReceived(db: Database, orderId: string, faults: ReceiveFaults, driverMessage: string)
    returns (reply: MarkReply)
    modifies db`products, db`orders, db`log
    ensures var e := Receive(old(db.products), old(db.orders), orderId, FNum(1), faults, Customer);
      && db.products == e.products && db.orders == e.orders && db.log == old(db.log) + e.statements
      && reply == (if e.result.Ok? then Marked(AffectedRows(e.result.value))
                   else MarkFailed("Failed to mark order as received: " + ErrorText(e.result.error, driverMessage)))
  {
    var r := UpdateOrderStatus(db, orderId, FNum(1), faults);
    if r.Err? {
      return MarkFailed("Failed to mark order as received: " + ErrorText(r.error, driverMessage));
    }
    return Marked(AffectedRows(r.value));
  }

  /** A successful mark always reports one affected row: the guard that
      would report 0 never fires. */
  lemma MarkReportsOneRow(ps: seq<Product>, os: seq<Order>, orderId: string, faults: ReceiveFaults)
    ensures var r := Receive(ps, os, orderId, FNum(1), faults, Customer).result;
      r.Ok? ==> AffectedRows(r.value) == 1
  {
    AlreadyReceivedGuardNeverFires(ps, os, orderId, FNum(1), faults);
  }

  // ---- order history ----

  /** getUserOrderHistory: the user's previous orders, then
      `filter(order => order.receivedToSupplier)` on them. */
  function UserOrderHistory(os: seq<Order>, userId: int): (r: seq<Order>)
    ensures forall o :: o in r <==> o in os && o.userId == userId && o.receivedToSupplier == 1
  {
    var previous := GetUserPreviousOrders(os, userId);
    FilterMembers(previous, (o: Order) => o.receivedToSupplier != 0);
    Filter(previous, (o: Order) => o.receivedToSupplier != 0)
  }

  /** The truthiness filter of the controller removes nothing: the query
      already kept only rows whose flag is 1. */
  lemma {:induction false} HistoryFilterKeepsAll(os: seq<Order>, userId: int)
    ensures UserOrderHistory(os, userId) == GetUserPreviousOrders(os, userId)
  {
    var previous := GetUserPreviousOrders(os, userId);
    FilterAllKept(previous, (o: Order) => o.receivedToSupplier != 0);
  }

  lemma {:induction false} FilterAllKept(s: seq<Order>, p: Order -> bool)
    requires forall k :: 0 <= k < |s| ==> s[k].receivedToSupplier == 1
    requires forall o: Order :: o.receivedToSupplier == 1 ==> p(o)
    ensures Filter(s, p) == s
  {
    if |s| > 0 {
      FilterAllKept(s[1..], p);
      assert s == [s[0]] + s[1..];
    }
  }

  // ---- cancelOrder and the delivery-detail handlers ----

  /** cancelOrder: deleteOrder, answered with a fixed text either way. */
  method CancelOrder(db: Database, orderId: string, storeFails: bool) returns (reply: Reply)
    requires OrdersValid(db.orders, db.users)
    modifies db`orders
    ensures OrdersValid(db.orders, db.users)
    ensures storeFails ==> reply == Reply(500, "Failed to cancel order") && db.orders == old(db.orders)
    ensures !storeFails ==>
      reply == Reply(200, "Order cancelled successfully") && db.orders == RemoveOrder(old(db.orders), orderId)
  {
    var r := DeleteOrder(db, orderId, storeFails);
    if r.Err? {
      return Reply(500, "Failed to cancel order");
    }
    return Reply(200, "Order cancelled successfully");
  }

  /** The check of addDeliveryDetailController: every field but the
      apartment must be truthy. */
  predicate AddressMissing(b: AddressBody) {
    FalsyText(b.fullName) || FalsyText(b.streetAddress) || FalsyText(b.city)
    || FalsyText(b.phoneNumber) || FalsyText(b.email)
  }

  /** The reply of addDeliveryDetailController: an error, or 201 with the new
      row as it was inserted. */
  datatype AddAddressReply = AddressRefused(reply: Reply) | AddressCreated(detail: DeliveryDetail)

  /** addDeliveryDetailController: a falsy required field is answered with
      400 before the insert; a refused insert with 500; otherwise 201 with
      the new id and the bound values, owned by the signed-in user. */
  method AddDeliveryDetailController(db: Database, userId: int, b: AddressBody, storeFails: bool)
    returns (reply: AddAddressReply)
    requires DeliveryValid(db.deliveryDetails, db.nextDeliveryId, db.users)
    modifies db`deliveryDetails, db`nextDeliveryId
    ensures DeliveryValid(db.deliveryDetails, db.nextDeliveryId, db.users)
    ensures reply.AddressRefused? ==>
      db.deliveryDetails == old(db.deliveryDetails) && db.nextDeliveryId == old(db.nextDeliveryId)
    ensures AddressMissing(b) ==> reply == AddressRefused(Reply(400, "Missing required fields"))
    ensures !AddressMissing(b) && (storeFails || !AddressFits(b) || userId !in UserIds(db.users)) ==>
      reply == AddressRefused(Reply(500, "Failed to add delivery detail"))
    ensures !AddressMissing(b) && !storeFails && AddressFits(b) && userId in UserIds(db.users) ==>
      && NotNullBound(b)
      && reply == AddressCreated(AddressRow(old(db.nextDeliveryId), userId, b))
      && db.deliveryDetails == old(db.deliveryDetails) + [reply.detail]
  {
    if AddressMissing(b) {
      return AddressRefused(Reply(400, "Missing required fields"));
    }
    var r := AddDeliveryDetail(db, userId, b, storeFails);
    if r.Err? {
      return AddressRefused(Reply(500, "Failed to add delivery detail"));
    }
    return AddressCreated(AddressRow(r.value, userId, b));
  }

  /** updateDeliveryDetailController: the body goes to the update unchecked,
      so when a row has that id, a body without one of the NOT NULL fields or
      with a value wider than its column is answered with 500 and changes
      nothing; with no such row the answer is 200. */
  method UpdateDeliveryDetailController(db: Database, id: int, b: AddressBody, storeFails: bool)
    returns (reply: Reply)
    requires DeliveryValid(db.deliveryDetails, db.nextDeliveryId, db.users)
    modifies db`deliveryDetails
    ensures DeliveryValid(db.deliveryDetails, db.nextDeliveryId, db.users)
    ensures storeFails || (AddressMatches(old(db.deliveryDetails), id) && (!NotNullBound(b) || !AddressFits(b))) ==>
      reply == Reply(500, "Failed to update delivery detail") && db.deliveryDetails == old(db.deliveryDetails)
    ensures !storeFails && !AddressMatches(old(db.deliveryDetails), id) && (!NotNullBound(b) || !AddressFits(b)) ==>
      reply == Reply(200, "Delivery detail updated successfully") && db.deliveryDetails == old(db.deliveryDetails)
    ensures !storeFails && NotNullBound(b) && AddressFits(b) ==>
      reply == Reply(200, "Delivery detail updated successfully")
      && db.deliveryDetails == UpdateAddress(old(db.deliveryDetails), id, b)
  {
    var r := UpdateDeliveryDetail(db, id, b, storeFails);
    if r.Err? {
      return Reply(500, "Failed to update delivery detail");
    }
    return Reply(200, "Delivery detail updated successfully");
  }

  /** deleteDeliveryDetailController: 200 whether or not a row had that id. */
  method DeleteDeliveryDetailController(db: Database, id: int, storeFails: bool) returns (reply: Reply)
    requires DeliveryValid(db.deliveryDetails, db.nextDeliveryId, db.users)
    modifies db`deliveryDetails
    ensures DeliveryValid(db.deliveryDetails, db.nextDeliveryId, db.users)
    ensures storeFails ==>
      reply == Reply(500, "Failed to delete delivery detail") && db.deliveryDetails == old(db.deliveryDetails)
    ensures !storeFails ==>
      reply == Reply(200, "Delivery detail deleted successfully")
      && db.deliveryDetails == RemoveAddress(old(db.deliveryDetails), id)
  {
    var r := DeleteDeliveryDetail(db, id, storeFails);
    if r.Err? {
      return Reply(500, "Failed to delete delivery detail");
    }
    return Reply(200, "Delivery detail deleted successfully");
  }
}
