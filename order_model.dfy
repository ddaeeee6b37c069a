/** backend/models/Order.js: order creation, the two receive transitions that
    decrement stock line by line, the order queries, order deletion and the
    delivery-detail table. The queries on one connection run one after the
    other, so the callbacks of the source become a sequential loop in list
    order, and each statement sent is appended to `db.log`. */
module OrderModel {
  import opened Common
  import opened Schema
  import opened LineItems

  /** A string MySQL reads as an integer: an optional sign, then one or
      more decimal digits. */
  predicate IntegerText(s: string) {
    || (|s| >= 1 && AllDigits(s))
    || (|s| >= 2 && (s[0] == '-' || s[0] == '+') && AllDigits(s[1..]))
  }

  /** The integer a string bound into an integer column stands for; None
      when strict mode refuses the string ("Incorrect integer value"). */
  function TextColumnValue(s: string): (v: Option<int>)
    ensures v.Some? <==> IntegerText(s)
  {
    if |s| >= 1 && AllDigits(s) then Some(DigitsValue(s))
    else if |s| >= 2 && s[0] == '-' && AllDigits(s[1..]) then Some(-(DigitsValue(s[1..]) as int))
    else if |s| >= 2 && s[0] == '+' && AllDigits(s[1..]) then Some(DigitsValue(s[1..]))
    else None
  }

  /** The text JavaScript writes for an integer is read back as it. */
  lemma TextColumnOfDecimal(n: int)
    ensures TextColumnValue(IntToDecimal(n)) == Some(n)
  {
    if n < 0 {
      assert IntToDecimal(n) == "-" + NatToDecimal(-n);
      TextColumnOfMinus(NatToDecimal(-n));
      DecimalValue(-n);
    } else {
      assert IntToDecimal(n) == NatToDecimal(n);
      DecimalValue(n);
    }
  }

  lemma TextColumnOfMinus(d: string)
    requires |d| >= 1 && AllDigits(d)
    ensures TextColumnValue("-" + d) == Some(-(DigitsValue(d) as int))
  {
    var t := "-" + d;
    assert !IsAsciiDigit(t[0]);
    assert t[1..] == d;
  }

  /** What the BOOLEAN (TINYINT) column is given for the flag: booleans as 1
      and 0, numbers as they are, strings as the integer they spell; None
      when strict mode refuses the value. */
  function ColumnValue(f: FlagValue): (v: Option<int>)
    ensures !f.FStr? ==> v.Some? && (Truthy(f) <==> v.value != 0)
    ensures f.FStr? ==> (v.Some? <==> IntegerText(f.s))
  {
    match f
    case FBool(b) => Some(if b then 1 else 0)
    case FNum(n) => Some(n)
    case FStr(s) => TextColumnValue(s)
  }

  /** The column can hold the flag: strict mode refuses a string that is no
      integer and a value outside TINYINT. */
  predicate FlagFits(f: FlagValue) {
    ColumnValue(f).Some? && InTinyInt(ColumnValue(f).value)
  }

  /** The string "0" is truthy in JavaScript but stores 0, and a word such as
      "yes" is truthy but cannot be stored at all. */
  lemma StringFlagExamples()
    ensures Truthy(FStr("0")) && ColumnValue(FStr("0")) == Some(0)
    ensures Truthy(FStr("yes")) && !FlagFits(FStr("yes"))
  {
    assert AllDigits("0") by { assert IsAsciiDigit("0"[0]); }
    assert DigitsValue("0") == DigitsValue("0"[..0]) * 10 + 0;
    assert !IsAsciiDigit("yes"[0]);
  }

  /** Which single statements fail, given as the oracle for the store. */
  datatype ReceiveFaults = ReceiveFaults(lookupFails: bool, failingItems: set<nat>, flagWriteFails: bool)

  datatype ReceiveError =
    | StoreError
    | OrderNotFound
    | QuantitiesFailed(titles: seq<string>)
    | StatusUpdatedQuantitiesFailed(titles: seq<string>)

  /** The message text of each error the model file builds itself; a store
      error carries the driver's own message, which is not modelled (None). */
  function ErrorMessage(e: ReceiveError): (m: Option<string>)
    ensures m.None? <==> e.StoreError?
  {
    match e
    case StoreError => None
    case OrderNotFound => Some("Order not found")
    case QuantitiesFailed(ts) => Some("Failed to update quantities for: " + JoinWith(ts, ", "))
    case StatusUpdatedQuantitiesFailed(ts) =>
      Some("Order status updated, but failed to update quantities for: " + JoinWith(ts, ", "))
  }

  datatype StatusOutcome = Updated | AlreadyMarked

  /** The `affectedRows` of the result: the flag UPDATE matches the one row
      with that id; the short-circuit result says 0. */
  function AffectedRows(s: StatusOutcome): nat {
    match s
    case Updated => 1
    case AlreadyMarked => 0
  }


  /** The first row with this id (`SELECT ... WHERE id = ?`, `orderResults[0]`). */
  function FindOrder(os: seq<Order>, id: string): (r: Option<nat>)
    ensures r.Some? ==> r.value < |os| && os[r.value].id == id
    ensures r.Some? ==> forall k :: 0 <= k < r.value ==> os[k].id != id
    ensures r.None? ==> id !in OrderIds(os)
  {
    if |os| == 0 then None
    else if os[0].id == id then Some(0)
    else match FindOrder(os[1..], id)
      case None => None
      case Some(k) => Some(k + 1)
  }

  // ---- the stock decrement ----

  /** `UPDATE products SET availableQuantity = availableQuantity - ? WHERE title = ?`. */
  function Decrement(ps: seq<Product>, title: string, amount: int): (r: seq<Product>)
    ensures |r| == |ps|
  {
    seq(|ps|, j requires 0 <= j < |ps| =>
      if ps[j].title == title then ps[j].(availableQuantity := ps[j].availableQuantity - amount) else ps[j])
  }

  /** The products table after the decrements of `items`, in order, the
      items at the failing positions having had no effect. */
  function StockAfter(ps: seq<Product>, items: seq<LineItem>, failing: set<nat>): seq<Product>
    decreases |items|
  {
    if |items| == 0 then ps
    else
      var k := |items| - 1;
      var before := StockAfter(ps, items[..k], failing);
      if k in failing then before else Decrement(before, items[k].title, items[k].quantity)
  }

  /** Strict MySQL refuses a decrement statement, and then changes no row,
      when it would take the stock of some row with that title outside INT. */
  predicate DecrementRefused(ps: seq<Product>, title: string, amount: int) {
    exists j :: 0 <= j < |ps| && ps[j].title == title && !InInt(ps[j].availableQuantity - amount)
  }

  /** The positions whose decrement fails: those the oracle fails, and those
      that strict mode refuses on the stock left by the earlier decrements. */
  function FailingItems(ps: seq<Product>, items: seq<LineItem>, oracle: set<nat>): (f: set<nat>)
    ensures forall i :: i in f ==> i < |items|
    decreases |items|
  {
    if |items| == 0 then {}
    else
      var k := |items| - 1;
      var earlier := FailingItems(ps, items[..k], oracle);
      if k in oracle || DecrementRefused(StockAfter(ps, items[..k], earlier), items[k].title, items[k].quantity)
      then earlier + {k}
      else earlier
  }

  /** The products table after the decrements of `items`, each either
      applied or failed as the store decides. */
  function StockAfterReceive(ps: seq<Product>, items: seq<LineItem>, oracle: set<nat>): seq<Product> {
    StockAfter(ps, items, FailingItems(ps, items, oracle))
  }

  /** The titles whose decrement failed, in item order. */
  function FailedTitlesReceive(ps: seq<Product>, items: seq<LineItem>, oracle: set<nat>): seq<string> {
    FailedTitles(items, FailingItems(ps, items, oracle))
  }

  /** Only the positions of the items themselves matter to the outcome. */
  lemma {:induction false} SameFailingPrefix(ps: seq<Product>, items: seq<LineItem>, f: set<nat>, g: set<nat>)
    requires forall i :: 0 <= i < |items| ==> (i in f <==> i in g)
    ensures StockAfter(ps, items, f) == StockAfter(ps, items, g)
    ensures FailedTitles(items, f) == FailedTitles(items, g)
  {
    if |items| > 0 { SameFailingPrefix(ps, items[..|items| - 1], f, g); }
  }

  /** One more item: it fails exactly when the oracle fails it or the stock
      left by the earlier items makes strict mode refuse it, and otherwise
      its decrement is applied to that stock. */
  lemma FailingStep(ps: seq<Product>, items: seq<LineItem>, oracle: set<nat>, i: nat)
    requires i < |items|
    ensures var before := StockAfterReceive(ps, items[..i], oracle);
      var fails := i in oracle || DecrementRefused(before, items[i].title, items[i].quantity);
      && StockAfterReceive(ps, items[..i + 1], oracle)
         == (if fails then before else Decrement(before, items[i].title, items[i].quantity))
      && FailedTitlesReceive(ps, items[..i + 1], oracle)
         == FailedTitlesReceive(ps, items[..i], oracle) + (if fails then [items[i].title] else [])
  {
    var p := items[..i + 1];
    assert p[..i] == items[..i];
    assert p[i] == items[i];
    SameFailingPrefix(ps, items[..i], FailingItems(ps, p, oracle), FailingItems(ps, items[..i], oracle));
  }

  /** Exactly the oracle's positions and the refused ones fail. */
  lemma {:induction false} FailingItemsExact(ps: seq<Product>, items: seq<LineItem>, oracle: set<nat>, i: nat)
    requires i < |items|
    ensures i in FailingItems(ps, items, oracle)
        <==> i in oracle || DecrementRefused(StockAfterReceive(ps, items[..i], oracle), items[i].title, items[i].quantity)
  {
    var k := |items| - 1;
    if i < k {
      FailingItemsExact(ps, items[..k], oracle, i);
      assert items[..k][..i] == items[..i];
    } else {
      assert items[..k] == items[..i];
    }
  }

  /** Every stock in the INT range stays in it: a decrement that would take a
      row out is refused, and a row it does not name keeps its stock. */
  lemma {:induction false} StockStaysInInt(ps: seq<Product>, items: seq<LineItem>, oracle: set<nat>)
    requires forall j :: 0 <= j < |ps| ==> InInt(ps[j].availableQuantity)
    ensures |StockAfterReceive(ps, items, oracle)| == |ps|
    ensures forall j :: 0 <= j < |ps| ==> InInt(StockAfterReceive(ps, items, oracle)[j].availableQuantity)
  {
    if |items| > 0 {
      var k := |items| - 1;
      StockStaysInInt(ps, items[..k], oracle);
      FailingStep(ps, items, oracle, k);
      assert items[..k + 1] == items;
    }
  }

  /** The decrement that would take the lowest INT stock below the range is
      refused: the stock stays and the title is reported as failed. */
  lemma DecrementBelowIntRefused()
    ensures var p := Product(1, "X", "Peripherals", 100, 150, -0x8000_0000, "Acme", None, None, None, None);
      && StockAfterReceive([p], [LineItem("X", 1)], {}) == [p]
      && FailedTitlesReceive([p], [LineItem("X", 1)], {}) == ["X"]
  {
    var p := Product(1, "X", "Peripherals", 100, 150, -0x8000_0000, "Acme", None, None, None, None);
    var items := [LineItem("X", 1)];
    assert items[..0] == [];
    assert DecrementRefused([p], "X", 1) by { assert [p][0].title == "X"; }
    FailingStep([p], items, {}, 0);
    assert items[..1] == items;
  }

  /** The total that the succeeding items naming `title` take off. */
  function DecrementedBy(items: seq<LineItem>, failing: set<nat>, title: string): int
    decreases |items|
  {
    if |items| == 0 then 0
    else
      var k := |items| - 1;
      DecrementedBy(items[..k], failing, title)
        + (if k !in failing && items[k].title == title then items[k].quantity else 0)
  }

  /** The titles of the failing items, in item order. */
  function FailedTitles(items: seq<LineItem>, failing: set<nat>): seq<string>
    decreases |items|
  {
    if |items| == 0 then []
    else
      var k := |items| - 1;
      FailedTitles(items[..k], failing) + (if k in failing then [items[k].title] else [])
  }

  function DecrementStatements(items: seq<LineItem>): (r: seq<Statement>)
    ensures |r| == |items|
    ensures forall k :: 0 <= k < |items| ==> r[k] == DecrementStock(items[k].title, items[k].quantity)
  {
    seq(|items|, k requires 0 <= k < |items| => DecrementStock(items[k].title, items[k].quantity))
  }

  /** Every product row keeps its place and all its columns except the stock,
      which goes down by exactly the quantities of the succeeding items that
      name its title: a title matching no product changes nothing, a title
      listed twice is taken off twice, and nothing keeps the stock from
      going below zero. */
  lemma {:induction false} StockAfterAt(ps: seq<Product>, items: seq<LineItem>, failing: set<nat>, j: nat)
    requires j < |ps|
    ensures |StockAfter(ps, items, failing)| == |ps|
    ensures StockAfter(ps, items, failing)[j]
         == ps[j].(availableQuantity := ps[j].availableQuantity - DecrementedBy(items, failing, ps[j].title))
  {
    if |items| > 0 {
      StockAfterAt(ps, items[..|items| - 1], failing, j);
      StockAfterLength(ps, items[..|items| - 1], failing);
    }
  }

  lemma {:induction false} StockAfterLength(ps: seq<Product>, items: seq<LineItem>, failing: set<nat>)
    ensures |StockAfter(ps, items, failing)| == |ps|
  {
    if |items| > 0 { StockAfterLength(ps, items[..|items| - 1], failing); }
  }

  /** A title that no item names is never decremented. */
  lemma {:induction false} UnnamedTitleUntouched(items: seq<LineItem>, failing: set<nat>, title: string)
    requires forall k :: 0 <= k < |items| ==> items[k].title != title
    ensures DecrementedBy(items, failing, title) == 0
  {
    if |items| > 0 { UnnamedTitleUntouched(items[..|items| - 1], failing, title); }
  }

  /** With every decrement failing, no stock changes. */
  lemma {:induction false} AllFailingLeavesStock(ps: seq<Product>, items: seq<LineItem>, failing: set<nat>)
    requires forall k :: 0 <= k < |items| ==> k in failing
    ensures StockAfter(ps, items, failing) == ps
  {
    if |items| > 0 { AllFailingLeavesStock(ps, items[..|items| - 1], failing); }
  }

  /** A failure is reported for an item exactly when it is at a failing position. */
  lemma {:induction false} FailedTitlesEmpty(items: seq<LineItem>, failing: set<nat>)
    ensures FailedTitles(items, failing) == [] <==> forall k :: 0 <= k < |items| ==> k !in failing
  {
    if |items| > 0 {
      FailedTitlesEmpty(items[..|items| - 1], failing);
      assert forall k :: 0 <= k < |items| - 1 ==> items[..|items| - 1][k] == items[k];
    }
  }

  /** A concrete witness of StockAfterAt: a product with stock 4 and an
      order listing it twice, for 2 and 3; both decrements happen and the
      stock ends at -1. */
  lemma DuplicateTitleGoesNegative()
    ensures var p := Product(1, "Mouse", "Peripherals", 100, 150, 4, "Acme", None, None, None, None);
      var after := StockAfter([p], [LineItem("Mouse", 2), LineItem("Mouse", 3)], {});
      |after| == 1 && after[0].availableQuantity == -1
  {
    var p := Product(1, "Mouse", "Peripherals", 100, 150, 4, "Acme", None, None, None, None);
    var items := [LineItem("Mouse", 2), LineItem("Mouse", 3)];
    StockAfterAt([p], items, {}, 0);
    assert items[..1][..0] == [];
    assert DecrementedBy(items[..1], {}, "Mouse") == 2;
  }

  lemma SameIdsSameTable(ps: seq<Product>, qs: seq<Product>, next: int)
    requires |ps| == |qs| && forall j :: 0 <= j < |ps| ==> qs[j].id == ps[j].id
    ensures ProductIds(qs) == ProductIds(ps)
    ensures ProductsValid(ps, next) ==> ProductsValid(qs, next)
  {
    assert forall x :: x in ProductIds(ps) ==> x in ProductIds(qs) by {
      forall x | x in ProductIds(ps) ensures x in ProductIds(qs) {
        var j :| 0 <= j < |ps| && ps[j].id == x;
        assert qs[j].id == x;
      }
    }
  }

  lemma StockAfterKeepsIds(ps: seq<Product>, items: seq<LineItem>, failing: set<nat>, next: int)
    ensures ProductIds(StockAfter(ps, items, failing)) == ProductIds(ps)
    ensures ProductsValid(ps, next) ==> ProductsValid(StockAfter(ps, items, failing), next)
  {
    var qs := StockAfter(ps, items, failing);
    StockAfterLength(ps, items, failing);
    forall j | 0 <= j < |ps| ensures qs[j].id == ps[j].id {
      StockAfterAt(ps, items, failing, j);
    }
    SameIdsSameTable(ps, qs, next);
  }

  /** The decrement loop shared by both receive transitions: one relative
      UPDATE per item, in item order, each failure (from the oracle, or a
      result outside INT) recorded and skipped. */
  method DecrementItems(db: Database, items: seq<LineItem>, oracle: set<nat>) returns (updateErrors: seq<string>)
    modifies db`products, db`log
    ensures db.products == StockAfterReceive(old(db.products), items, oracle)
    ensures db.log == old(db.log) + DecrementStatements(items)
    ensures updateErrors == FailedTitlesReceive(old(db.products), items, oracle)
  {
    updateErrors := [];
    var updatedCount := 0;
    while updatedCount < |items|
      invariant 0 <= updatedCount <= |items|
      invariant db.products == StockAfterReceive(old(db.products), items[..updatedCount], oracle)
      invariant db.log == old(db.log) + DecrementStatements(items[..updatedCount])
      invariant updateErrors == FailedTitlesReceive(old(db.products), items[..updatedCount], oracle)
    {
      var item := items[updatedCount];
      FailingStep(old(db.products), items, oracle, updatedCount);
      db.log := db.log + [DecrementStock(item.title, item.quantity)];
      if updatedCount in oracle || DecrementRefused(db.products, item.title, item.quantity) {
        updateErrors := updateErrors + [item.title];
      } else {
        db.products := Decrement(db.products, item.title, item.quantity);
      }
      assert items[..updatedCount + 1][..updatedCount] == items[..updatedCount];
      assert DecrementStatements(items[..updatedCount + 1])
          == DecrementStatements(items[..updatedCount]) + [DecrementStock(item.title, item.quantity)];
      updatedCount := updatedCount + 1;
    }
    assert items[..updatedCount] == items;
  }

  /** The items updateReceivedToSupplier decrements: all of them for a
      truthy flag, none otherwise. */
  function ReceiveItems(o: Order, flag: FlagValue): (items: seq<LineItem>)
    ensures Truthy(flag) ==> |items| == CountChar(o.productTitle, ',') + 1
    ensures !Truthy(flag) ==> items == []
  {
    ItemCount(o.productTitle, o.quantity);
    if Truthy(flag) then ParseOrderItems(o.productTitle, o.quantity) else []
  }

  /** The items updateOrderStatus decrements: all of them only for the
      number 1 (strict equality), so `true` marks the order without moving
      stock. */
  function StatusItems(o: Order, flag: FlagValue): (items: seq<LineItem>)
    ensures flag == FNum(1) ==> |items| == CountChar(o.productTitle, ',') + 1
    ensures flag != FNum(1) ==> items == []
  {
    ItemCount(o.productTitle, o.quantity);
    if flag == FNum(1) then ParseOrderItems(o.productTitle, o.quantity) else []
  }

  /** The orders table after the flag UPDATE: row k carries the new column
      value, unless the statement failed or the value cannot be stored. */
  function FlagWritten(os: seq<Order>, k: nat, flag: FlagValue, fails: bool): (r: seq<Order>)
    requires k < |os|
    ensures |r| == |os|
    ensures forall j :: 0 <= j < |os| && (j != k || fails || ColumnValue(flag).None?) ==> r[j] == os[j]
    ensures !fails && ColumnValue(flag).Some? ==> r[k] == os[k].(receivedToSupplier := ColumnValue(flag).value)
  {
    if fails || ColumnValue(flag).None? then os
    else os[k := os[k].(receivedToSupplier := ColumnValue(flag).value)]
  }

  /** The flag UPDATE fails on a store failure, and in strict mode on a
      value the TINYINT column cannot hold. */
  predicate FlagWriteFails(faults: ReceiveFaults, flag: FlagValue) {
    faults.flagWriteFails || !FlagFits(flag)
  }

  /** What the caller is told once the flag statement has run: the flag
      failure wins, then the list of titles whose decrement failed, under the
      wording of the transition. */
  function Outcome(failed: seq<string>, flagWriteFails: bool, t: Transition): (r: Result<StatusOutcome, ReceiveError>)
    ensures r.Ok? <==> !flagWriteFails && failed == []
    ensures r.Ok? ==> r.value == Updated
    ensures flagWriteFails ==> r == Err(StoreError)
    ensures !flagWriteFails && failed != [] ==>
      r.Err? && (r.error.QuantitiesFailed? || r.error.StatusUpdatedQuantitiesFailed?) && r.error.titles == failed
  {
    if flagWriteFails then Err(StoreError)
    else if failed != [] then
      (match t
       case Supplier => Err(QuantitiesFailed(failed))
       case Customer => Err(StatusUpdatedQuantitiesFailed(failed)))
    else Ok(Updated)
  }

  lemma SetFlagKeepsValid(os: seq<Order>, k: nat, v: int, us: seq<User>)
    requires k < |os| && OrdersValid(os, us)
    ensures OrdersValid(os[k := os[k].(receivedToSupplier := v)], us)
  {
  }

  /** The tail both receive transitions share: the decrements of `items`,
      then the flag UPDATE on row k, sent whatever the decrements did. */
  method DecrementThenWriteFlag(db: Database, orderId: string, k: nat, flag: FlagValue,
                                items: seq<LineItem>, faults: ReceiveFaults)
    returns (updateErrors: seq<string>)
    requires k < |db.orders|
    modifies db`products, db`orders, db`log
    ensures db.products == StockAfterReceive(old(db.products), items, faults.failingItems)
    ensures db.log == old(db.log) + DecrementStatements(items) + [WriteReceivedFlag(orderId, flag)]
    ensures db.orders == FlagWritten(old(db.orders), k, flag, FlagWriteFails(faults, flag))
    ensures updateErrors == FailedTitlesReceive(old(db.products), items, faults.failingItems)
  {
    updateErrors := DecrementItems(db, items, faults.failingItems);
    db.log := db.log + [WriteReceivedFlag(orderId, flag)];
    if !FlagWriteFails(faults, flag) {
      db.orders := FlagWritten(db.orders, k, flag, false);
    }
  }

  /** The row that updateOrderStatus fetches: `SELECT product_title, quantity`. */
  datatype ItemsRow = ItemsRow(productTitle: string, quantity: string)

  function ProjectItems(o: Order): ItemsRow { ItemsRow(o.productTitle, o.quantity) }

  /** Reading `receivedToSupplier` off the fetched row: the column was not
      selected, so the value is undefined (None). */
  function FetchedReceivedFlag(row: ItemsRow): Option<int> { None }

  /** JavaScript's `value == 1` for a column value that may be undefined. */
  predicate LooseEqualsOne(v: Option<int>) { v.Some? && v.value == 1 }

  /** The two receive transitions: updateReceivedToSupplier (the supplier
      side, used by the admin endpoint) and updateOrderStatus (the customer
      side, used when a customer marks an order received). */
  datatype Transition = Supplier | Customer

  /** The "already marked as received" short-circuit: only updateOrderStatus
      has it, and it reads the flag off the fetched projection. */
  predicate GuardFires(o: Order, t: Transition) {
    t == Customer && LooseEqualsOne(FetchedReceivedFlag(ProjectItems(o)))
  }

  /** The items a transition decrements for flag `flag`. */
  function ItemsFor(o: Order, flag: FlagValue, t: Transition): seq<LineItem> {
    match t
    case Supplier => ReceiveItems(o, flag)
    case Customer => StatusItems(o, flag)
  }

  /** Everything one receive call does: the products and orders tables after
      it, the statements it sends in order, and what it reports. */
  datatype ReceiveEffect = ReceiveEffect(
    products: seq<Product>, orders: seq<Order>, statements: seq<Statement>,
    result: Result<StatusOutcome, ReceiveError>)

  function Receive(ps: seq<Product>, os: seq<Order>, orderId: string, flag: FlagValue,
                   faults: ReceiveFaults, t: Transition): (e: ReceiveEffect)
    ensures |e.statements| >= 1 && e.statements[0] == SelectOrder(orderId)
    ensures e.result == Err(OrderNotFound) ==> e.products == ps && e.orders == os && |e.statements| == 1
  {
    if faults.lookupFails then ReceiveEffect(ps, os, [SelectOrder(orderId)], Err(StoreError))
    else match FindOrder(os, orderId)
      case None => ReceiveEffect(ps, os, [SelectOrder(orderId)], Err(OrderNotFound))
      case Some(k) =>
        if GuardFires(os[k], t) then ReceiveEffect(ps, os, [SelectOrder(orderId)], Ok(AlreadyMarked))
        else
          var items := ItemsFor(os[k], flag, t);
          var flagFails := FlagWriteFails(faults, flag);
          ReceiveEffect(
            StockAfterReceive(ps, items, faults.failingItems),
            FlagWritten(os, k, flag, flagFails),
            [SelectOrder(orderId)] + DecrementStatements(items) + [WriteReceivedFlag(orderId, flag)],
            Outcome(FailedTitlesReceive(ps, items, faults.failingItems), flagFails, t))
  }

  /** Receive when nothing past the lookup runs. */
  lemma ReceiveStopsAtLookup(ps: seq<Product>, os: seq<Order>, orderId: string, flag: FlagValue,
                             faults: ReceiveFaults, t: Transition)
    requires faults.lookupFails || FindOrder(os, orderId).None?
    ensures Receive(ps, os, orderId, flag, faults, t)
         == ReceiveEffect(ps, os, [SelectOrder(orderId)],
                          if faults.lookupFails then Err(StoreError) else Err(OrderNotFound))
  {
  }

  /** Receive for a found order that the guard lets through. */
  lemma ReceiveFound(ps: seq<Product>, os: seq<Order>, orderId: string, flag: FlagValue,
                     faults: ReceiveFaults, t: Transition, k: nat)
    requires !faults.lookupFails && FindOrder(os, orderId) == Some(k) && !GuardFires(os[k], t)
    ensures var items := ItemsFor(os[k], flag, t);
      Receive(ps, os, orderId, flag, faults, t)
      == ReceiveEffect(StockAfterReceive(ps, items, faults.failingItems), FlagWritten(os, k, flag, FlagWriteFails(faults, flag)),
                       [SelectOrder(orderId)] + DecrementStatements(items) + [WriteReceivedFlag(orderId, flag)],
                       Outcome(FailedTitlesReceive(ps, items, faults.failingItems), FlagWriteFails(faults, flag), t))
  {
  }

  lemma LogAppend(l: seq<Statement>, a: Statement, ds: seq<Statement>, w: Statement)
    ensures l + [a] + ds + [w] == l + ([a] + ds + [w])
  {
  }

  /** updateReceivedToSupplier(orderId, receivedToSupplier): the lookup, then
      for a truthy flag one decrement per parsed item, then the flag UPDATE,
      then the report of the failed titles. */
  method UpdateReceivedToSupplier(db: Database, orderId: string, flag: FlagValue, faults: ReceiveFaults)
    returns (r: Result<StatusOutcome, ReceiveError>)
    modifies db`products, db`orders, db`log
    ensures var e := Receive(old(db.products), old(db.orders), orderId, flag, faults, Supplier);
      db.products == e.products && db.orders == e.orders
      && db.log == old(db.log) + e.statements && r == e.result
  {
    db.log := db.log + [SelectOrder(orderId)];
    if faults.lookupFails {
      ReceiveStopsAtLookup(old(db.products), old(db.orders), orderId, flag, faults, Supplier);
      return Err(StoreError);
    }
    var found := FindOrder(db.orders, orderId);
    if found.None? {
      ReceiveStopsAtLookup(old(db.products), old(db.orders), orderId, flag, faults, Supplier);
      return Err(OrderNotFound);
    }
    var k := found.value;
    var items := ItemsFor(db.orders[k], flag, Supplier);
    ReceiveFound(db.products, db.orders, orderId, flag, faults, Supplier, k);
    LogAppend(old(db.log), SelectOrder(orderId), DecrementStatements(items), WriteReceivedFlag(orderId, flag));
    var updateErrors := DecrementThenWriteFlag(db, orderId, k, flag, items, faults);
    r := Outcome(updateErrors, FlagWriteFails(faults, flag), Supplier);
  }

  /** updateOrderStatus(orderId, receivedToSupplier): like the supplier side,
      but with a guard on the fetched row, a decrement only for the number 1
      (`=== 1`), and its own wording for decrement failures. */
  method UpdateOrderStatus(db: Database, orderId: string, flag: FlagValue, faults: ReceiveFaults)
    returns (r: Result<StatusOutcome, ReceiveError>)
    modifies db`products, db`orders, db`log
    ensures var e := Receive(old(db.products), old(db.orders), orderId, flag, faults, Customer);
      db.products == e.products && db.orders == e.orders
      && db.log == old(db.log) + e.statements && r == e.result
  {
    db.log := db.log + [SelectOrder(orderId)];
    if faults.lookupFails {
      ReceiveStopsAtLookup(old(db.products), old(db.orders), orderId, flag, faults, Customer);
      return Err(StoreError);
    }
    var found := FindOrder(db.orders, orderId);
    if found.None? {
      ReceiveStopsAtLookup(old(db.products), old(db.orders), orderId, flag, faults, Customer);
      return Err(OrderNotFound);
    }
    var order := db.orders[found.value];
    var fetched := ProjectItems(order);
    if LooseEqualsOne(FetchedReceivedFlag(fetched)) {
      return Ok(AlreadyMarked);
    }
    var k := found.value;
    var items := ItemsFor(db.orders[k], flag, Customer);
    ReceiveFound(db.products, db.orders, orderId, flag, faults, Customer, k);
    LogAppend(old(db.log), SelectOrder(orderId), DecrementStatements(items), WriteReceivedFlag(orderId, flag));
    var updateErrors := DecrementThenWriteFlag(db, orderId, k, flag, items, faults);
    r := Outcome(updateErrors, FlagWriteFails(faults, flag), Customer);
  }

  // ---- what a receive call guarantees ----

  /** An unknown order id (or a failed lookup) sends only the lookup and
      changes no product and no order. */
  lemma UnknownOrderChangesNothing(ps: seq<Product>, os: seq<Order>, orderId: string, flag: FlagValue,
                                   faults: ReceiveFaults, t: Transition)
    requires faults.lookupFails || orderId !in OrderIds(os)
    ensures var e := Receive(ps, os, orderId, flag, faults, t);
      e.products == ps && e.orders == os && e.statements == [SelectOrder(orderId)]
      && e.result == (if faults.lookupFails then Err(StoreError) else Err(OrderNotFound))
  {
  }

  /** The guard of updateOrderStatus never fires: the row it inspects does
      not carry the column it reads, so a found order always reaches the
      decrement step and never reports "already marked". */
  lemma AlreadyReceivedGuardNeverFires(ps: seq<Product>, os: seq<Order>, orderId: string, flag: FlagValue,
                                       faults: ReceiveFaults)
    ensures Receive(ps, os, orderId, flag, faults, Customer).result != Ok(AlreadyMarked)
    ensures forall o :: !GuardFires(o, Customer)
  {
  }

  /** For a found order, every product keeps its columns except the stock,
      which drops by what the succeeding decrements of its title take off
      (nothing for a title that no item names). */
  lemma FoundOrderStock(ps: seq<Product>, os: seq<Order>, orderId: string, flag: FlagValue,
                        faults: ReceiveFaults, t: Transition, j: nat)
    requires !faults.lookupFails && FindOrder(os, orderId).Some? && j < |ps|
    ensures var k := FindOrder(os, orderId).value;
      var items := ItemsFor(os[k], flag, t);
      var e := Receive(ps, os, orderId, flag, faults, t);
      && |e.products| == |ps|
      && e.products[j] == ps[j].(availableQuantity := ps[j].availableQuantity
                                   - DecrementedBy(items, FailingItems(ps, items, faults.failingItems), ps[j].title))
  {
    var k := FindOrder(os, orderId).value;
    var items := ItemsFor(os[k], flag, t);
    ReceiveFound(ps, os, orderId, flag, faults, t, k);
    StockAfterAt(ps, items, FailingItems(ps, items, faults.failingItems), j);
  }

  /** For a found order, the statements are the lookup, one decrement per
      item in item order, and the flag UPDATE last. */
  lemma FoundOrderStatements(ps: seq<Product>, os: seq<Order>, orderId: string, flag: FlagValue,
                             faults: ReceiveFaults, t: Transition)
    requires !faults.lookupFails && FindOrder(os, orderId).Some?
    ensures var k := FindOrder(os, orderId).value;
      var items := ItemsFor(os[k], flag, t);
      var e := Receive(ps, os, orderId, flag, faults, t);
      && |e.statements| == |items| + 2
      && e.statements[0] == SelectOrder(orderId)
      && (forall i :: 0 <= i < |items| ==> e.statements[i + 1] == DecrementStock(items[i].title, items[i].quantity))
      && e.statements[|items| + 1] == WriteReceivedFlag(orderId, flag)
  {
    var k := FindOrder(os, orderId).value;
    ReceiveFound(ps, os, orderId, flag, faults, t, k);
    StatementLayout(orderId, ItemsFor(os[k], flag, t), flag);
  }

  lemma StatementLayout(orderId: string, items: seq<LineItem>, flag: FlagValue)
    ensures var st := [SelectOrder(orderId)] + DecrementStatements(items) + [WriteReceivedFlag(orderId, flag)];
      && |st| == |items| + 2
      && st[0] == SelectOrder(orderId)
      && (forall i :: 0 <= i < |items| ==> st[i + 1] == DecrementStock(items[i].title, items[i].quantity))
      && st[|items| + 1] == WriteReceivedFlag(orderId, flag)
  {
    var ds := DecrementStatements(items);
    var st := [SelectOrder(orderId)] + ds + [WriteReceivedFlag(orderId, flag)];
    forall i | 0 <= i < |items| ensures st[i + 1] == DecrementStock(items[i].title, items[i].quantity) {
      assert st[i + 1] == ds[i];
    }
  }

  /** For a found order, the flag is written unless that UPDATE itself
      fails, however many decrements failed, and the call succeeds exactly
      when neither the flag nor any decrement failed. */
  lemma FoundOrderFlagAndResult(ps: seq<Product>, os: seq<Order>, orderId: string, flag: FlagValue,
                                faults: ReceiveFaults, t: Transition)
    requires !faults.lookupFails && FindOrder(os, orderId).Some?
    ensures var k := FindOrder(os, orderId).value;
      var items := ItemsFor(os[k], flag, t);
      var e := Receive(ps, os, orderId, flag, faults, t);
      && (!FlagWriteFails(faults, flag) ==> e.orders[k].receivedToSupplier == ColumnValue(flag).value)
      && (FlagWriteFails(faults, flag) ==> e.orders == os)
      && (e.result.Ok? <==> !FlagWriteFails(faults, flag) && FailedTitlesReceive(ps, items, faults.failingItems) == [])
  {
    var k := FindOrder(os, orderId).value;
    ReceiveFound(ps, os, orderId, flag, faults, t, k);
  }

  /** A falsy flag on the supplier side, and any flag other than the number
      1 on the customer side, moves no stock: only the lookup and the flag
      UPDATE are sent. */
  lemma NoDecrementWithoutReceiveFlag(ps: seq<Product>, os: seq<Order>, orderId: string, flag: FlagValue,
                                      faults: ReceiveFaults, t: Transition)
    requires !faults.lookupFails && FindOrder(os, orderId).Some?
    requires if t == Supplier then !Truthy(flag) else flag != FNum(1)
    ensures var e := Receive(ps, os, orderId, flag, faults, t);
      e.products == ps
      && e.statements == [SelectOrder(orderId), WriteReceivedFlag(orderId, flag)]
  {
    assert DecrementStatements([]) == [];
  }

  /** Marking an order with the string "0" on the supplier side decrements
      every item, since the string is truthy, and then stores 0, so the
      order stays among the open ones; the string "yes" decrements every
      item too, and then its flag write is refused and the order is unchanged. */
  lemma StringFlagReceive(ps: seq<Product>, os: seq<Order>, orderId: string, faults: ReceiveFaults, k: nat)
    requires !faults.lookupFails && FindOrder(os, orderId) == Some(k) && !faults.flagWriteFails
    ensures var items := ParseOrderItems(os[k].productTitle, os[k].quantity);
      var e := Receive(ps, os, orderId, FStr("0"), faults, Supplier);
      && e.products == StockAfterReceive(ps, items, faults.failingItems)
      && e.orders[k].receivedToSupplier == 0
      && e.orders[k] in GetAllOrders(e.orders)
    ensures var items := ParseOrderItems(os[k].productTitle, os[k].quantity);
      var e := Receive(ps, os, orderId, FStr("yes"), faults, Supplier);
      && e.products == StockAfterReceive(ps, items, faults.failingItems)
      && e.orders == os && e.result == Err(StoreError)
  {
    StringFlagExamples();
    ReceiveFound(ps, os, orderId, FStr("0"), faults, Supplier, k);
    ReceiveFound(ps, os, orderId, FStr("yes"), faults, Supplier, k);
  }

  /** A receive call keeps the table invariants: product ids (and with them
      every cart row's product reference) stay as they were, and the order
      ids stay unique. */
  lemma ReceiveKeepsInvariants(ps: seq<Product>, os: seq<Order>, cs: seq<CartRow>, us: seq<User>,
                               nextProduct: int, nextCart: int, orderId: string, flag: FlagValue,
                               faults: ReceiveFaults, t: Transition)
    ensures var e := Receive(ps, os, orderId, flag, faults, t);
      && ProductIds(e.products) == ProductIds(ps)
      && (ProductsValid(ps, nextProduct) ==> ProductsValid(e.products, nextProduct))
      && (CartsValid(cs, nextCart, ps, us) ==> CartsValid(cs, nextCart, e.products, us))
      && (OrdersValid(os, us) ==> OrdersValid(e.orders, us))
  {
    if !faults.lookupFails && FindOrder(os, orderId).Some? {
      var k := FindOrder(os, orderId).value;
      if !GuardFires(os[k], t) {
        var items := ItemsFor(os[k], flag, t);
        StockAfterKeepsIds(ps, items, FailingItems(ps, items, faults.failingItems), nextProduct);
        if OrdersValid(os, us) && !FlagWriteFails(faults, flag) {
          SetFlagKeepsValid(os, k, ColumnValue(flag).value, us);
        }
      }
    }
  }

  /** Marking an order received twice on the customer side decrements its
      items twice: the flag written by the first call does not stop the
      second. Each call takes off what its own succeeding decrements take,
      so with no decrement failing the loss is twice the order's quantity. */
  lemma RepeatedReceiveDecrementsTwice(ps: seq<Product>, os: seq<Order>, orderId: string, faults: ReceiveFaults, j: nat)
    requires !faults.lookupFails && FindOrder(os, orderId).Some?
    requires j < |ps|
    ensures var first := Receive(ps, os, orderId, FNum(1), faults, Customer);
      var second := Receive(first.products, first.orders, orderId, FNum(1), faults, Customer);
      var items := StatusItems(os[FindOrder(os, orderId).value], FNum(1));
      var f1 := FailingItems(ps, items, faults.failingItems);
      var f2 := FailingItems(first.products, items, faults.failingItems);
      && |second.products| == |ps|
      && second.products[j].availableQuantity
         == ps[j].availableQuantity - DecrementedBy(items, f1, ps[j].title) - DecrementedBy(items, f2, ps[j].title)
      && (f1 == {} && f2 == {} ==>
            second.products[j].availableQuantity == ps[j].availableQuantity - 2 * DecrementedBy(items, {}, ps[j].title))
  {
    var k := FindOrder(os, orderId).value;
    var items := StatusItems(os[k], FNum(1));
    ReceiveTwiceStock(ps, os, orderId, faults, k);
    var f1 := FailingItems(ps, items, faults.failingItems);
    var mid := StockAfter(ps, items, f1);
    var f2 := FailingItems(mid, items, faults.failingItems);
    StockAfterAt(ps, items, f1, j);
    StockAfterAt(mid, items, f2, j);
  }

  /** The second customer-side receive finds the same row with the same
      items, so both calls run the same decrements, the second on the stock
      the first left. */
  lemma ReceiveTwiceStock(ps: seq<Product>, os: seq<Order>, orderId: string, faults: ReceiveFaults, k: nat)
    requires !faults.lookupFails && FindOrder(os, orderId) == Some(k)
    ensures var first := Receive(ps, os, orderId, FNum(1), faults, Customer);
      var items := StatusItems(os[k], FNum(1));
      && first.products == StockAfterReceive(ps, items, faults.failingItems)
      && Receive(first.products, first.orders, orderId, FNum(1), faults, Customer).products
         == StockAfterReceive(first.products, items, faults.failingItems)
  {
    AlreadyReceivedGuardNeverFires(ps, os, orderId, FNum(1), faults);
    ReceiveFound(ps, os, orderId, FNum(1), faults, Customer, k);
    var first := Receive(ps, os, orderId, FNum(1), faults, Customer);
    var items := StatusItems(os[k], FNum(1));
    FlagWrittenFinds(os, orderId, k, FNum(1), FlagWriteFails(faults, FNum(1)));
    assert StatusItems(first.orders[k], FNum(1)) == items;
    ReceiveFound(first.products, first.orders, orderId, FNum(1), faults, Customer, k);
  }

  /** Writing the flag keeps every id in place, so the lookup finds the same row. */
  lemma FlagWrittenFinds(os: seq<Order>, orderId: string, k: nat, flag: FlagValue, fails: bool)
    requires FindOrder(os, orderId) == Some(k)
    ensures FindOrder(FlagWritten(os, k, flag, fails), orderId) == Some(k)
    ensures FlagWritten(os, k, flag, fails)[k].productTitle == os[k].productTitle
    ensures FlagWritten(os, k, flag, fails)[k].quantity == os[k].quantity
  {
    var ws := FlagWritten(os, k, flag, fails);
    FindOrderSameIds(os, ws, orderId);
  }

  lemma {:induction false} FindOrderSameIds(os: seq<Order>, ws: seq<Order>, id: string)
    requires |os| == |ws| && forall j :: 0 <= j < |os| ==> ws[j].id == os[j].id
    ensures FindOrder(ws, id) == FindOrder(os, id)
  {
    if |os| > 0 {
      assert forall j :: 0 <= j < |os| - 1 ==> ws[1..][j].id == os[1..][j].id;
      FindOrderSameIds(os[1..], ws[1..], id);
    }
  }

  // ---- creation ----

  /** product_title as createOrder receives it: a list of titles, or one
      value passed through as it is. */
  datatype TitleField = TitleList(titles: seq<string>) | TitleText(text: string)

  /** quantity as createOrder receives it: a list of numbers (None for an
      undefined or null entry), or one value passed through as it is. */
  datatype QuantityField = QuantityList(quantities: seq<Option<int>>) | QuantityRaw(text: string)

  /** The title column: a list is joined with ", ", a scalar is stored unchanged. */
  function TitleColumn(f: TitleField): (col: string)
    ensures f.TitleText? ==> col == f.text
    ensures f.TitleList? ==> col == EncodeTitles(f.titles)
  {
    match f
    case TitleList(ts) => EncodeTitles(ts)
    case TitleText(t) => t
  }

  /** The quantity column: a list is joined with ", ", a scalar is stored unchanged. */
  function QuantityColumn(f: QuantityField): (col: string)
    ensures f.QuantityRaw? ==> col == f.text
    ensures f.QuantityList? ==> col == EncodeQuantities(f.quantities)
  {
    match f
    case QuantityList(qs) => EncodeQuantities(qs)
    case QuantityRaw(t) => t
  }

  /** The fields createOrder receives. Money is in integer cents. */
  datatype OrderDetails = OrderDetails(
    userId: int, titles: TitleField, quantities: QuantityField, total: int,
    name: string, address: string, phone: string, email: string, paymentMethod: string,
    receivedToSupplier: FlagValue)

  /** `receivedToSupplier || false`: a truthy flag is bound as it is, any
      other as false. */
  function BoundFlag(d: OrderDetails): (f: FlagValue)
    ensures Truthy(f) == Truthy(d.receivedToSupplier)
    ensures Truthy(f) ==> f == d.receivedToSupplier
    ensures !Truthy(f) ==> f == FBool(false)
  {
    if Truthy(d.receivedToSupplier) then d.receivedToSupplier else FBool(false)
  }

  /** The row createOrder inserts under `id` at time `now`. Its flag column
      is what MySQL makes of the bound flag; a flag it refuses rejects the
      insert (InsertRejected), and the row then carries a 0 that is never
      stored. */
  function NewOrderRow(id: string, d: OrderDetails, now: Timestamp): (o: Order)
    ensures o.id == id && o.userId == d.userId && o.total == d.total && o.createdAt == now
    ensures o.productTitle == TitleColumn(d.titles) && o.quantity == QuantityColumn(d.quantities)
    ensures o.name == d.name && o.address == d.address && o.phone == d.phone
    ensures o.email == d.email && o.paymentMethod == d.paymentMethod
    ensures ColumnValue(BoundFlag(d)).Some? ==> o.receivedToSupplier == ColumnValue(BoundFlag(d)).value
    ensures !d.receivedToSupplier.FStr? ==> ((o.receivedToSupplier != 0) == Truthy(d.receivedToSupplier))
  {
    Order(id, d.userId, TitleColumn(d.titles), QuantityColumn(d.quantities), d.total,
          d.name, d.address, d.phone, d.email, d.paymentMethod, OrZero(ColumnValue(BoundFlag(d))), now)
  }

  /** createOrder with the string "0": the flag is truthy, so `|| false`
      binds the string, which the column stores as 0; the order is created
      open, not received. */
  lemma ZeroTextOrderCreatedOpen(id: string, d: OrderDetails, now: Timestamp)
    requires d.receivedToSupplier == FStr("0")
    ensures FlagFits(BoundFlag(d))
    ensures NewOrderRow(id, d, now).receivedToSupplier == 0
  {
    StringFlagExamples();
  }

  /** An order whose lines were written as lists by createOrder reads back,
      through parseOrderItems, as those lines. */
  lemma CreatedOrderReadsBack(id: string, d: OrderDetails, now: Timestamp, qs: seq<int>)
    requires d.titles.TitleList? && d.quantities == QuantityList(Present(qs))
    requires |d.titles.titles| == |qs| >= 1
    requires forall k :: 0 <= k < |qs| ==> EncodableTitle(d.titles.titles[k])
    ensures var o := NewOrderRow(id, d, now);
      ParseOrderItems(o.productTitle, o.quantity) == Pair(d.titles.titles, qs)
  {
    RoundTrip(d.titles.titles, qs);
  }

  /** The INSERT's own reasons to fail in strict mode: the primary key
      already taken, the user missing (foreign key), a column over its
      declared width (product_title 255, quantity 225, name 255, phone 20,
      email 100, payment_method 50), a total outside DECIMAL(10,2), a bound
      flag the TINYINT column cannot hold, or a store failure. */
  predicate InsertRejected(os: seq<Order>, us: seq<User>, o: Order, flag: FlagValue, storeFails: bool) {
    || o.id in OrderIds(os)
    || o.userId !in UserIds(us)
    || |o.productTitle| > 255
    || |o.quantity| > 225
    || |o.name| > 255
    || |o.phone| > 20
    || |o.email| > 100
    || |o.paymentMethod| > 50
    || !InDecimal(o.total)
    || !FlagFits(flag)
    || storeFails
  }

  /** createOrder: generate an id from the random digits, serialise the
      lines, insert one row. The id is not checked beforehand: a collision is
      only caught by the primary key. */
  method CreateOrder(db: Database, d: OrderDetails, fraction: seq<int>, now: Timestamp, storeFails: bool)
    returns (r: Result<string, ReceiveError>)
    requires OrdersValid(db.orders, db.users)
    requires forall k :: 0 <= k < |fraction| ==> 0 <= fraction[k] < 36
    modifies db`orders, db`log
    ensures OrdersValid(db.orders, db.users)
    ensures db.log == old(db.log) + [InsertOrder(GenerateOrderId(fraction))]
    ensures var o := NewOrderRow(GenerateOrderId(fraction), d, now);
      InsertRejected(old(db.orders), db.users, o, BoundFlag(d), storeFails) ==>
        r == Err(StoreError) && db.orders == old(db.orders)
    ensures var o := NewOrderRow(GenerateOrderId(fraction), d, now);
      !InsertRejected(old(db.orders), db.users, o, BoundFlag(d), storeFails) ==>
        r == Ok(o.id) && db.orders == old(db.orders) + [o]
  {
    var orderId := GenerateOrderId(fraction);
    var row := NewOrderRow(orderId, d, now);
    db.log := db.log + [InsertOrder(orderId)];
    if InsertRejected(db.orders, db.users, row, BoundFlag(d), storeFails) {
      return Err(StoreError);
    }
    assert forall k :: 0 <= k < |db.orders| ==> db.orders[k].id != orderId;
    db.orders := db.orders + [row];
    return Ok(orderId);
  }

  // ---- queries ----

  /** getAllOrders: `WHERE receivedToSupplier = FALSE`. */
  function GetAllOrders(os: seq<Order>): (r: seq<Order>)
    ensures forall o :: o in r <==> o in os && o.receivedToSupplier == 0
  {
    FilterMembers(os, (o: Order) => o.receivedToSupplier == 0);
    Filter(os, (o: Order) => o.receivedToSupplier == 0)
  }

  /** getAllReceivedOrders: `WHERE receivedToSupplier = TRUE`. */
  function GetAllReceivedOrders(os: seq<Order>): (r: seq<Order>)
    ensures forall o :: o in r <==> o in os && o.receivedToSupplier == 1
  {
    FilterMembers(os, (o: Order) => o.receivedToSupplier == 1);
    Filter(os, (o: Order) => o.receivedToSupplier == 1)
  }

  /** getUserOrders: every order of the user, whatever its flag. */
  function GetUserOrders(os: seq<Order>, userId: int): (r: seq<Order>)
    ensures forall o :: o in r <==> o in os && o.userId == userId
  {
    FilterMembers(os, (o: Order) => o.userId == userId);
    Filter(os, (o: Order) => o.userId == userId)
  }

  /** getUserPreviousOrders: the user's orders whose flag is TRUE. */
  function GetUserPreviousOrders(os: seq<Order>, userId: int): (r: seq<Order>)
    ensures forall o :: o in r <==> o in os && o.userId == userId && o.receivedToSupplier == 1
  {
    FilterMembers(os, (o: Order) => o.userId == userId && o.receivedToSupplier == 1);
    Filter(os, (o: Order) => o.userId == userId && o.receivedToSupplier == 1)
  }

  /** When every stored flag is 0 or 1, the undelivered and the received
      lists split the orders table between them: together they hold every
      row exactly once. */
  lemma {:induction false} FlagQueriesPartition(os: seq<Order>)
    requires forall k :: 0 <= k < |os| ==> os[k].receivedToSupplier == 0 || os[k].receivedToSupplier == 1
    ensures |GetAllOrders(os)| + |GetAllReceivedOrders(os)| == |os|
    ensures multiset(GetAllOrders(os)) + multiset(GetAllReceivedOrders(os)) == multiset(os)
  {
    if |os| > 0 {
      FlagQueriesPartition(os[1..]);
      assert os == [os[0]] + os[1..];
    }
  }

  /** A flag written as another number (the update endpoint accepts any
      non-null value) hides the order from both lists. */
  lemma OtherFlagValueIsInNeitherList(os: seq<Order>, k: nat)
    requires k < |os| && os[k].receivedToSupplier == 2
    ensures os[k] !in GetAllOrders(os) && os[k] !in GetAllReceivedOrders(os)
  {
  }

  /** `DELETE FROM orders WHERE id = ?`. */
  function RemoveOrder(os: seq<Order>, id: string): (r: seq<Order>)
    ensures forall o :: o in r <==> o in os && o.id != id
  {
    FilterMembers(os, (o: Order) => o.id != id);
    Filter(os, (o: Order) => o.id != id)
  }

  /** With unique ids the delete takes away one row when the id exists and
      none otherwise. */
  lemma {:induction false} RemoveOrderCount(os: seq<Order>, id: string)
    requires forall i, j :: 0 <= i < j < |os| ==> os[i].id != os[j].id
    ensures |RemoveOrder(os, id)| == if id in OrderIds(os) then |os| - 1 else |os|
  {
    if |os| > 0 {
      var tail := os[1..];
      UniqueIdsTail(os);
      RemoveOrderCount(tail, id);
      OrderIdsCons(os);
      assert RemoveOrder(os, id) == (if os[0].id != id then [os[0]] else []) + RemoveOrder(tail, id);
    }
  }

  lemma UniqueIdsTail(os: seq<Order>)
    requires |os| > 0 && forall i, j :: 0 <= i < j < |os| ==> os[i].id != os[j].id
    ensures forall i, j :: 0 <= i < j < |os[1..]| ==> os[1..][i].id != os[1..][j].id
    ensures os[0].id !in OrderIds(os[1..])
  {
    var tail := os[1..];
    forall i, j | 0 <= i < j < |tail| ensures tail[i].id != tail[j].id {
      assert tail[i] == os[i + 1] && tail[j] == os[j + 1];
    }
    forall k | 0 <= k < |tail| ensures tail[k].id != os[0].id {
      assert tail[k] == os[k + 1];
    }
  }

  lemma OrderIdsCons(os: seq<Order>)
    requires |os| > 0
    ensures OrderIds(os) == {os[0].id} + OrderIds(os[1..])
  {
    var tail := os[1..];
    forall x | x in OrderIds(os) ensures x in {os[0].id} + OrderIds(tail) {
      var k :| 0 <= k < |os| && os[k].id == x;
      if k > 0 { assert tail[k - 1].id == x; }
    }
    forall x | x in OrderIds(tail) ensures x in OrderIds(os) {
      var k :| 0 <= k < |tail| && tail[k].id == x;
      assert os[k + 1].id == x;
    }
  }


  lemma RemoveOrderKeepsValid(os: seq<Order>, id: string, us: seq<User>)
    requires OrdersValid(os, us)
    ensures OrdersValid(RemoveOrder(os, id), us)
  {
    FilterSubsequence(os, (o: Order) => o.id != id);
    var r := RemoveOrder(os, id);
    var idx := FilterIndices(os, (o: Order) => o.id != id);
    forall i, j | 0 <= i < j < |r| ensures r[i].id != r[j].id {
      assert r[i] == os[idx[i]] && r[j] == os[idx[j]];
    }
  }

  /** deleteOrder: removes the order row; no product's stock moves (the
      frame holds the products table). A failing statement changes nothing. */
  method DeleteOrder(db: Database, orderId: string, storeFails: bool) returns (r: Result<(), WriteError>)
    requires OrdersValid(db.orders, db.users)
    modifies db`orders
    ensures OrdersValid(db.orders, db.users)
    ensures storeFails ==> r == Err(StoreFailed) && db.orders == old(db.orders)
    ensures !storeFails ==> r == Ok(()) && db.orders == RemoveOrder(old(db.orders), orderId)
  {
    if storeFails {
      return Err(StoreFailed);
    }
    RemoveOrderKeepsValid(db.orders, orderId, db.users);
    db.orders := RemoveOrder(db.orders, orderId);
    return Ok(());
  }

  // ---- delivery details ----

  /** getDeliveryDetailsFromDB: the user's saved addresses. */
  function GetDeliveryDetails(ds: seq<DeliveryDetail>, userId: int): (r: seq<DeliveryDetail>)
    ensures forall d :: d in r <==> d in ds && d.userId == userId
  {
    FilterMembers(ds, (d: DeliveryDetail) => d.userId == userId);
    Filter(ds, (d: DeliveryDetail) => d.userId == userId)
  }

  /** getDeliveryDetailById: `results[0]`, undefined (None) when absent. */
  function GetDeliveryDetailById(ds: seq<DeliveryDetail>, id: int): (r: Option<DeliveryDetail>)
    ensures r.Some? ==> r.value in ds && r.value.id == id
    ensures r.None? ==> forall k :: 0 <= k < |ds| ==> ds[k].id != id
  {
    if |ds| == 0 then None
    else if ds[0].id == id then Some(ds[0])
    else GetDeliveryDetailById(ds[1..], id)
  }

  /** The six address values the delivery-detail functions bind, as the
      request body carries them: an absent field is bound as NULL (None). */
  datatype AddressBody = AddressBody(
    fullName: Option<string>, streetAddress: Option<string>, apartment: Option<string>,
    city: Option<string>, phoneNumber: Option<string>, email: Option<string>)

  /** Every NOT NULL column of delivery_details gets a value; only the
      apartment may be NULL. */
  predicate NotNullBound(b: AddressBody) {
    b.fullName.Some? && b.streetAddress.Some? && b.city.Some? && b.phoneNumber.Some? && b.email.Some?
  }

  /** Every bound value fits its column: fullName, streetAddress, apartment
      and city VARCHAR(255), phoneNumber VARCHAR(20), email VARCHAR(100). */
  predicate AddressFits(b: AddressBody) {
    && FitsNullable(b.fullName, 255) && FitsNullable(b.streetAddress, 255)
    && FitsNullable(b.apartment, 255) && FitsNullable(b.city, 255)
    && FitsNullable(b.phoneNumber, 20) && FitsNullable(b.email, 100)
  }

  /** Some row has that id: the rows an UPDATE or DELETE by id writes. */
  predicate AddressMatches(ds: seq<DeliveryDetail>, id: int) {
    exists k :: 0 <= k < |ds| && ds[k].id == id
  }

  function AddressRow(id: int, userId: int, b: AddressBody): DeliveryDetail
    requires NotNullBound(b)
  {
    DeliveryDetail(id, userId, b.fullName.value, b.streetAddress.value, b.apartment,
                   b.city.value, b.phoneNumber.value, b.email.value)
  }

  /** addDeliveryDetail: one INSERT. A NULL in a NOT NULL column is refused,
      so is a value wider than its column and an unknown user (the foreign
      key); a refused insert changes nothing. */
  method AddDeliveryDetail(db: Database, userId: int, b: AddressBody, storeFails: bool)
    returns (r: Result<int, WriteError>)
    requires DeliveryValid(db.deliveryDetails, db.nextDeliveryId, db.users)
    modifies db`deliveryDetails, db`nextDeliveryId
    ensures DeliveryValid(db.deliveryDetails, db.nextDeliveryId, db.users)
    ensures r.Err? ==> db.deliveryDetails == old(db.deliveryDetails) && db.nextDeliveryId == old(db.nextDeliveryId)
    ensures storeFails ==> r == Err(StoreFailed)
    ensures !storeFails && !NotNullBound(b) ==> r == Err(NullColumn)
    ensures !storeFails && NotNullBound(b) && !AddressFits(b) ==> r == Err(DataTooLong)
    ensures !storeFails && NotNullBound(b) && AddressFits(b) && userId !in UserIds(db.users) ==>
      r == Err(ForeignKeyViolation)
    ensures !storeFails && NotNullBound(b) && AddressFits(b) && userId in UserIds(db.users) ==>
      && r == Ok(old(db.nextDeliveryId))
      && db.deliveryDetails == old(db.deliveryDetails) + [AddressRow(old(db.nextDeliveryId), userId, b)]
  {
    if storeFails {
      return Err(StoreFailed);
    }
    if !NotNullBound(b) {
      return Err(NullColumn);
    }
    if !AddressFits(b) {
      return Err(DataTooLong);
    }
    if userId !in UserIds(db.users) {
      return Err(ForeignKeyViolation);
    }
    var id := db.nextDeliveryId;
    db.deliveryDetails := db.deliveryDetails + [AddressRow(id, userId, b)];
    db.nextDeliveryId := id + 1;
    return Ok(id);
  }

  /** updateDeliveryDetail: the six address columns of the row with that id,
      whoever owns it; user and id stay. */
  function UpdateAddress(ds: seq<DeliveryDetail>, id: int, b: AddressBody): (r: seq<DeliveryDetail>)
    requires NotNullBound(b)
    ensures |r| == |ds|
    ensures forall k :: 0 <= k < |ds| ==> r[k].id == ds[k].id && r[k].userId == ds[k].userId
    ensures forall k :: 0 <= k < |ds| && ds[k].id != id ==> r[k] == ds[k]
    ensures forall k :: 0 <= k < |ds| && ds[k].id == id ==>
      Some(r[k].fullName) == b.fullName && Some(r[k].streetAddress) == b.streetAddress
      && r[k].apartment == b.apartment && Some(r[k].city) == b.city
      && Some(r[k].phoneNumber) == b.phoneNumber && Some(r[k].email) == b.email
  {
    seq(|ds|, k requires 0 <= k < |ds| => if ds[k].id == id then AddressRow(id, ds[k].userId, b) else ds[k])
  }

  /** The update binds the body unchecked. MySQL checks the values as it
      writes each matching row, so a NULL in a NOT NULL column or a value
      wider than its column fails the statement only when some row has that
      id; with no such row the statement succeeds and changes nothing. A
      failed statement changes nothing. */
  method UpdateDeliveryDetail(db: Database, id: int, b: AddressBody, storeFails: bool)
    returns (r: Result<(), WriteError>)
    requires DeliveryValid(db.deliveryDetails, db.nextDeliveryId, db.users)
    modifies db`deliveryDetails
    ensures DeliveryValid(db.deliveryDetails, db.nextDeliveryId, db.users)
    ensures storeFails ==> r == Err(StoreFailed) && db.deliveryDetails == old(db.deliveryDetails)
    ensures !storeFails && (!NotNullBound(b) || !AddressFits(b)) && !AddressMatches(old(db.deliveryDetails), id) ==>
      r == Ok(()) && db.deliveryDetails == old(db.deliveryDetails)
    ensures !storeFails && AddressMatches(old(db.deliveryDetails), id) && !NotNullBound(b) ==>
      r == Err(NullColumn) && db.deliveryDetails == old(db.deliveryDetails)
    ensures !storeFails && AddressMatches(old(db.deliveryDetails), id) && NotNullBound(b) && !AddressFits(b) ==>
      r == Err(DataTooLong) && db.deliveryDetails == old(db.deliveryDetails)
    ensures !storeFails && NotNullBound(b) && AddressFits(b) ==>
      r == Ok(()) && db.deliveryDetails == UpdateAddress(old(db.deliveryDetails), id, b)
  {
    if storeFails {
      return Err(StoreFailed);
    }
    if !NotNullBound(b) || !AddressFits(b) {
      if !AddressMatches(db.deliveryDetails, id) {
        return Ok(());
      }
      return if !NotNullBound(b) then Err(NullColumn) else Err(DataTooLong);
    }
    db.deliveryDetails := UpdateAddress(db.deliveryDetails, id, b);
    return Ok(());
  }

  /** deleteDeliveryDetail: `DELETE FROM delivery_details WHERE id = ?`. */
  function RemoveAddress(ds: seq<DeliveryDetail>, id: int): (r: seq<DeliveryDetail>)
    ensures forall d :: d in r <==> d in ds && d.id != id
  {
    FilterMembers(ds, (d: DeliveryDetail) => d.id != id);
    Filter(ds, (d: DeliveryDetail) => d.id != id)
  }

  method DeleteDeliveryDetail(db: Database, id: int, storeFails: bool) returns (r: Result<(), WriteError>)
    requires DeliveryValid(db.deliveryDetails, db.nextDeliveryId, db.users)
    modifies db`deliveryDetails
    ensures DeliveryValid(db.deliveryDetails, db.nextDeliveryId, db.users)
    ensures storeFails ==> r == Err(StoreFailed) && db.deliveryDetails == old(db.deliveryDetails)
    ensures !storeFails ==> r == Ok(()) && db.deliveryDetails == RemoveAddress(old(db.deliveryDetails), id)
  {
    if storeFails {
      return Err(StoreFailed);
    }
    var p := (d: DeliveryDetail) => d.id != id;
    FilterSubsequence(db.deliveryDetails, p);
    var rest := RemoveAddress(db.deliveryDetails, id);
    var idx := FilterIndices(db.deliveryDetails, p);
    forall i, j | 0 <= i < j < |rest| ensures rest[i].id != rest[j].id {
      assert rest[i] == db.deliveryDetails[idx[i]] && rest[j] == db.deliveryDetails[idx[j]];
    }
    db.deliveryDetails := rest;
    return Ok(());
  }
}
