/** The products table operations of backend/models/Product.js: the
    COALESCE update, the two-statement delete that clears the carts first,
    the lookup by id, the "other products" query and the grouping of the
    catalogue by category. */
module ProductModel {
  import opened Common
  import opened Schema

  // ---- getProductById ----

  /** The columns getProductById selects: every column but supplyPrice. */
  datatype ProductDetail = ProductDetail(
    id: int, title: string, category: string, retailPrice: int, availableQuantity: int, supplier: string,
    image1: Option<Image>, image2: Option<Image>, image3: Option<Image>, image4: Option<Image>)

  function DetailOf(p: Product): ProductDetail {
    ProductDetail(p.id, p.title, p.category, p.retailPrice, p.availableQuantity, p.supplier,
                  p.image1, p.image2, p.image3, p.image4)
  }

  /** `results[0] || null`: the first row with that id, or None. */
  function ProductById(ps: seq<Product>, id: int): (r: Option<ProductDetail>)
    ensures r.None? <==> id !in ProductIds(ps)
    ensures r.Some? ==> exists k :: 0 <= k < |ps| && ps[k].id == id && r.value == DetailOf(ps[k])
  {
    if |ps| == 0 then None
    else if ps[0].id == id then Some(DetailOf(ps[0]))
    else
      var rest := ProductById(ps[1..], id);
      assert ProductIds(ps) == {ps[0].id} + ProductIds(ps[1..]) by {
        assert forall k :: 0 < k < |ps| ==> ps[k] == ps[1..][k - 1];
      }
      if rest.Some? then
        var k :| 0 <= k < |ps[1..]| && ps[1..][k].id == id && rest.value == DetailOf(ps[1..][k]);
        assert ps[k + 1] == ps[1..][k];
        rest
      else rest
  }

  /** Ids are unique, so the row found is the row with that id. */
  lemma ProductByIdIsTheRow(ps: seq<Product>, next: int, k: nat)
    requires ProductsValid(ps, next)
    requires k < |ps|
    ensures ProductById(ps, ps[k].id) == Some(DetailOf(ps[k]))
  {
    assert ps[k].id in ProductIds(ps);
    var j :| 0 <= j < |ps| && ps[j].id == ps[k].id && ProductById(ps, ps[k].id).value == DetailOf(ps[j]);
    assert j == k;
  }

  // ---- updateProduct ----

  /** The values updateProduct binds; an image slot without a new image is
      SQL NULL. */
  datatype ProductUpdate = ProductUpdate(
    title: string, category: string, supplyPrice: int, retailPrice: int, availableQuantity: int,
    supplier: string, image1: Option<Image>, image2: Option<Image>, image3: Option<Image>, image4: Option<Image>)

  /** The values as updateProduct receives them. A NOT NULL column whose
      value is missing (undefined, or NaN after the controller's parseFloat
      or parseInt) is None: the statement is then refused. */
  datatype ProductBody = ProductBody(
    title: Option<string>, category: Option<string>, supplyPrice: Option<int>, retailPrice: Option<int>,
    availableQuantity: Option<int>, supplier: Option<string>,
    image1: Option<Image>, image2: Option<Image>, image3: Option<Image>, image4: Option<Image>)

  /** The update the statement performs, or None when it would write NULL
      into one of the six NOT NULL columns. */
  function BoundUpdate(b: ProductBody): (r: Option<ProductUpdate>)
    ensures r.None? <==>
      b.title.None? || b.category.None? || b.supplyPrice.None? || b.retailPrice.None?
      || b.availableQuantity.None? || b.supplier.None?
    ensures r.Some? ==>
      && Some(r.value.title) == b.title && Some(r.value.category) == b.category
      && Some(r.value.supplyPrice) == b.supplyPrice && Some(r.value.retailPrice) == b.retailPrice
      && Some(r.value.availableQuantity) == b.availableQuantity && Some(r.value.supplier) == b.supplier
      && r.value.image1 == b.image1 && r.value.image2 == b.image2
      && r.value.image3 == b.image3 && r.value.image4 == b.image4
  {
    if b.title.None? || b.category.None? || b.supplyPrice.None? || b.retailPrice.None?
       || b.availableQuantity.None? || b.supplier.None?
    then None
    else Some(ProductUpdate(b.title.value, b.category.value, b.supplyPrice.value, b.retailPrice.value,
                            b.availableQuantity.value, b.supplier.value, b.image1, b.image2, b.image3, b.image4))
  }

  /** `COALESCE(?, imageN)`. */
  function Coalesce(given: Option<Image>, stored: Option<Image>): Option<Image> {
    if given.Some? then given else stored
  }

  function Updated(p: Product, u: ProductUpdate): Product {
    Product(p.id, u.title, u.category, u.supplyPrice, u.retailPrice, u.availableQuantity, u.supplier,
            Coalesce(u.image1, p.image1), Coalesce(u.image2, p.image2),
            Coalesce(u.image3, p.image3), Coalesce(u.image4, p.image4))
  }

  /** `UPDATE products SET ... WHERE id = ?`. */
  function UpdateProductRows(ps: seq<Product>, id: int, u: ProductUpdate): (r: seq<Product>)
    ensures |r| == |ps|
    ensures forall k :: 0 <= k < |ps| ==> r[k].id == ps[k].id && (ps[k].id != id ==> r[k] == ps[k])
  {
    seq(|ps|, k requires 0 <= k < |ps| => if ps[k].id == id then Updated(ps[k], u) else ps[k])
  }

  /** The row with that id takes the six scalar columns; each image slot
      takes the new image when there is one and keeps the stored one when
      there is none; every other row is untouched. */
  lemma UpdateProductExact(ps: seq<Product>, id: int, u: ProductUpdate, k: nat)
    requires k < |ps|
    ensures var r := UpdateProductRows(ps, id, u)[k];
      if ps[k].id == id then
        && r.id == id && r.title == u.title && r.category == u.category
        && r.supplyPrice == u.supplyPrice && r.retailPrice == u.retailPrice
        && r.availableQuantity == u.availableQuantity && r.supplier == u.supplier
        && r.image1 == (if u.image1 == None then ps[k].image1 else u.image1)
        && r.image2 == (if u.image2 == None then ps[k].image2 else u.image2)
        && r.image3 == (if u.image3 == None then ps[k].image3 else u.image3)
        && r.image4 == (if u.image4 == None then ps[k].image4 else u.image4)
      else r == ps[k]
  {
  }

  /** An update never changes which ids exist. */
  lemma UpdateKeepsIds(ps: seq<Product>, id: int, u: ProductUpdate)
    ensures ProductIds(UpdateProductRows(ps, id, u)) == ProductIds(ps)
  {
    var r := UpdateProductRows(ps, id, u);
    assert forall k :: 0 <= k < |ps| ==> r[k].id == ps[k].id;
  }

  /** The rows that match `WHERE id = ?`, which is what affectedRows counts. */
  function MatchingRows(ps: seq<Product>, id: int): nat {
    |Filter(ps, (p: Product) => p.id == id)|
  }

  lemma {:induction false} MatchingRowsOfUniqueIds(ps: seq<Product>, next: int, id: int)
    requires ProductsValid(ps, next)
    ensures MatchingRows(ps, id) == if id in ProductIds(ps) then 1 else 0
  {
    if |ps| > 0 {
      assert ProductsValid(ps[1..], next) by {
        assert forall k :: 0 <= k < |ps| - 1 ==> ps[1..][k] == ps[k + 1];
      }
      MatchingRowsOfUniqueIds(ps[1..], next, id);
      assert ProductIds(ps) == {ps[0].id} + ProductIds(ps[1..]) by {
        assert forall k :: 0 < k < |ps| ==> ps[k] == ps[1..][k - 1];
      }
      if ps[0].id == id {
        assert id !in ProductIds(ps[1..]) by {
          forall k | 0 <= k < |ps[1..]| ensures ps[1..][k].id != id {
            assert ps[1..][k] == ps[k + 1];
          }
        }
      }
    }
  }

  /** Why strict MySQL refuses the bound values of the six scalar columns,
      checked in the order of the SET list: title and category VARCHAR(255),
      the prices DECIMAL(10,2), availableQuantity INT, supplier VARCHAR(255).
      None when every value fits. */
  function UpdateRefusal(u: ProductUpdate): (e: Option<WriteError>)
    ensures e.None? <==>
      && FitsVarchar(u.title, 255) && FitsVarchar(u.category, 255) && FitsVarchar(u.supplier, 255)
      && InDecimal(u.supplyPrice) && InDecimal(u.retailPrice) && InInt(u.availableQuantity)
    ensures e.Some? ==> e.value == DataTooLong || e.value == OutOfRange
  {
    if !FitsVarchar(u.title, 255) || !FitsVarchar(u.category, 255) then Some(DataTooLong)
    else if !InDecimal(u.supplyPrice) || !InDecimal(u.retailPrice) || !InInt(u.availableQuantity) then Some(OutOfRange)
    else if !FitsVarchar(u.supplier, 255) then Some(DataTooLong)
    else None
  }

  /** The bound values are refused: a NULL in a NOT NULL column, or a value
      that does not fit its column. */
  predicate UpdateRefused(b: ProductBody) {
    BoundUpdate(b).None? || UpdateRefusal(BoundUpdate(b).value).Some?
  }

  /** updateProduct: one UPDATE; a refused statement rejects the promise
      and changes nothing. MySQL checks the values as it writes the matching
      row, so with no row of that id nothing is refused and 0 rows are
      reported. The count is the matched rows. */
  method UpdateProduct(db: Database, productId: int, b: ProductBody, storeFails: bool)
    returns (r: Result<nat, WriteError>)
    requires ProductsValid(db.products, db.nextProductId)
    requires CartsValid(db.carts, db.nextCartId, db.products, db.users)
    modifies db`products
    ensures ProductsValid(db.products, db.nextProductId)
    ensures CartsValid(db.carts, db.nextCartId, db.products, db.users)
    ensures storeFails ==> r == Err(StoreFailed) && db.products == old(db.products)
    ensures !storeFails && UpdateRefused(b) && productId !in ProductIds(old(db.products)) ==>
      r == Ok(0) && db.products == old(db.products)
    ensures !storeFails && productId in ProductIds(old(db.products)) && BoundUpdate(b).None? ==>
      r == Err(NullColumn) && db.products == old(db.products)
    ensures !storeFails && productId in ProductIds(old(db.products)) && BoundUpdate(b).Some?
            && UpdateRefusal(BoundUpdate(b).value).Some? ==>
      r == Err(UpdateRefusal(BoundUpdate(b).value).value) && db.products == old(db.products)
    ensures !storeFails && !UpdateRefused(b) ==>
      && db.products == UpdateProductRows(old(db.products), productId, BoundUpdate(b).value)
      && r == Ok(if productId in ProductIds(old(db.products)) then 1 else 0)
  {
    if storeFails {
      return Err(StoreFailed);
    }
    if UpdateRefused(b) {
      if productId !in ProductIds(db.products) {
        return Ok(0);
      }
      return if BoundUpdate(b).None? then Err(NullColumn) else Err(UpdateRefusal(BoundUpdate(b).value).value);
    }
    var u := BoundUpdate(b).value;
    MatchingRowsOfUniqueIds(db.products, db.nextProductId, productId);
    r := Ok(MatchingRows(db.products, productId));
    UpdateKeepsIds(db.products, productId, u);
    db.products := UpdateProductRows(db.products, productId, u);
  }

  // ---- deleteProduct ----

  /** `DELETE FROM carts WHERE product_id = ?`. */
  function RemoveProductFromCarts(cs: seq<CartRow>, productId: int): (r: seq<CartRow>)
    ensures forall c :: c in r <==> c in cs && c.productId != productId
  {
    FilterMembers(cs, (c: CartRow) => c.productId != productId);
    Filter(cs, (c: CartRow) => c.productId != productId)
  }

  /** `DELETE FROM products WHERE id = ?`. */
  function RemoveProductRow(ps: seq<Product>, id: int): (r: seq<Product>)
    ensures forall p :: p in r <==> p in ps && p.id != id
  {
    FilterMembers(ps, (p: Product) => p.id != id);
    Filter(ps, (p: Product) => p.id != id)
  }

  lemma RemoveProductIds(ps: seq<Product>, id: int)
    ensures ProductIds(RemoveProductRow(ps, id)) == ProductIds(ps) - {id}
  {
    var r := RemoveProductRow(ps, id);
    forall x | x in ProductIds(r) ensures x in ProductIds(ps) - {id} {
      var k :| 0 <= k < |r| && r[k].id == x;
      assert r[k] in r;
      var j :| 0 <= j < |ps| && ps[j] == r[k];
    }
    forall x | x in ProductIds(ps) - {id} ensures x in ProductIds(r) {
      var k :| 0 <= k < |ps| && ps[k].id == x;
      assert ps[k] in r;
      var j :| 0 <= j < |r| && r[j] == ps[k];
    }
  }

  lemma {:induction false} RemoveProductKeepsValid(ps: seq<Product>, next: int, id: int)
    requires ProductsValid(ps, next)
    ensures ProductsValid(RemoveProductRow(ps, id), next)
  {
    var r := RemoveProductRow(ps, id);
    var p := (p: Product) => p.id != id;
    FilterSubsequence(ps, p);
    var idx := FilterIndices(ps, p);
    forall i, j | 0 <= i < j < |r| ensures r[i].id != r[j].id {
      assert r[i] == ps[idx[i]] && r[j] == ps[idx[j]];
    }
    forall i | 0 <= i < |r| ensures r[i].id < next {
      assert r[i] == ps[idx[i]];
    }
  }

  lemma {:induction false} RemoveFromCartsKeepsValid(cs: seq<CartRow>, next: int, ps: seq<Product>,
                                                     us: seq<User>, productId: int)
    requires CartsValid(cs, next, ps, us)
    ensures CartsValid(RemoveProductFromCarts(cs, productId), next, RemoveProductRow(ps, productId), us)
  {
    var r := RemoveProductFromCarts(cs, productId);
    var p := (c: CartRow) => c.productId != productId;
    FilterSubsequence(cs, p);
    var idx := FilterIndices(cs, p);
    RemoveProductIds(ps, productId);
    forall i, j | 0 <= i < j < |r|
      ensures r[i].id != r[j].id && (r[i].userId, r[i].productId) != (r[j].userId, r[j].productId)
    {
      assert r[i] == cs[idx[i]] && r[j] == cs[idx[j]];
    }
    forall i | 0 <= i < |r|
      ensures r[i].id < next && r[i].productId in ProductIds(RemoveProductRow(ps, productId))
      ensures r[i].userId in UserIds(us)
    {
      assert r[i] == cs[idx[i]];
    }
  }

  /** deleteProduct: the cart rows of the product go first; when that
      statement fails nothing changes. Then the product row, unless that
      second statement fails, in which case the carts stay cleared and the
      product stays. The count is the deleted product rows. */
  method DeleteProduct(db: Database, productId: int, cartDeleteFails: bool, productDeleteFails: bool)
    returns (r: Result<nat, WriteError>)
    requires ProductsValid(db.products, db.nextProductId)
    requires CartsValid(db.carts, db.nextCartId, db.products, db.users)
    modifies db`carts, db`products
    ensures ProductsValid(db.products, db.nextProductId)
    ensures CartsValid(db.carts, db.nextCartId, db.products, db.users)
    ensures cartDeleteFails ==>
      r == Err(StoreFailed) && db.carts == old(db.carts) && db.products == old(db.products)
    ensures !cartDeleteFails ==> db.carts == RemoveProductFromCarts(old(db.carts), productId)
    ensures !cartDeleteFails && productDeleteFails ==> r == Err(StoreFailed) && db.products == old(db.products)
    ensures !cartDeleteFails && !productDeleteFails ==>
      && db.products == RemoveProductRow(old(db.products), productId)
      && r == Ok(if productId in ProductIds(old(db.products)) then 1 else 0)
  {
    if cartDeleteFails {
      return Err(StoreFailed);
    }
    RemoveFromCartsKeepsValid(db.carts, db.nextCartId, db.products, db.users, productId);
    var removedCarts := RemoveProductFromCarts(db.carts, productId);
    db.carts := removedCarts;
    if productDeleteFails {
      assert CartsValid(db.carts, db.nextCartId, db.products, db.users) by {
        RemoveProductIds(db.products, productId);
      }
      return Err(StoreFailed);
    }
    MatchingRowsOfUniqueIds(db.products, db.nextProductId, productId);
    RemoveProductKeepsValid(db.products, db.nextProductId, productId);
    r := Ok(MatchingRows(db.products, productId));
    db.products := RemoveProductRow(db.products, productId);
  }

  /** After deleteProduct no cart row references the product, whichever way
      the second statement went. */
  lemma DeletedProductLeavesNoCartRow(cs: seq<CartRow>, productId: int)
    ensures forall k :: 0 <= k < |RemoveProductFromCarts(cs, productId)| ==>
      RemoveProductFromCarts(cs, productId)[k].productId != productId
  {
  }

  // ---- getOtherProducts ----

  /** The columns getOtherProducts and the category listing select. */
  datatype ProductSummary = ProductSummary(id: int, title: string, category: string, retailPrice: int, image1: Option<Image>)

  function SummaryOf(p: Product): ProductSummary {
    ProductSummary(p.id, p.title, p.category, p.retailPrice, p.image1)
  }

  /** `WHERE id != ? ORDER BY RAND() LIMIT ?`, the shuffle given as the table
      in the order RAND() put it. A negative limit is a syntax error. */
  function OtherProducts(shuffled: seq<Product>, excludeId: int, limit: int): (r: Result<seq<ProductSummary>, string>)
    ensures r.Ok? ==> |r.value| <= limit && |r.value| <= |shuffled|
  {
    if limit < 0 then Err("ER_PARSE_ERROR")
    else
      var kept := Filter(shuffled, (p: Product) => p.id != excludeId);
      var n := Min(limit, |kept|);
      Ok(seq(n, k requires 0 <= k < n => SummaryOf(kept[k])))
  }

  /** The excluded id never comes back, at most `limit` rows do, and fewer
      only when the table has no more other products. */
  lemma OtherProductsBounds(shuffled: seq<Product>, excludeId: int, limit: int)
    ensures limit < 0 <==> OtherProducts(shuffled, excludeId, limit).Err?
    ensures OtherProducts(shuffled, excludeId, limit).Ok? ==>
      var rows := OtherProducts(shuffled, excludeId, limit).value;
      var others := Filter(shuffled, (p: Product) => p.id != excludeId);
      && |rows| == Min(limit, |others|)
      && (forall k :: 0 <= k < |rows| ==> rows[k].id != excludeId)
      && (forall k :: 0 <= k < |rows| ==> exists j :: 0 <= j < |shuffled| && rows[k] == SummaryOf(shuffled[j]))
  {
    if limit >= 0 {
      var p := (p: Product) => p.id != excludeId;
      FilterMembers(shuffled, p);
      var others := Filter(shuffled, p);
      var rows := OtherProducts(shuffled, excludeId, limit).value;
      forall k | 0 <= k < |rows|
        ensures rows[k].id != excludeId
        ensures exists j :: 0 <= j < |shuffled| && rows[k] == SummaryOf(shuffled[j])
      {
        assert rows[k] == SummaryOf(others[k]);
        assert others[k] in others;
      }
    }
  }

  // ---- getProductsGroupedByCategory ----

  datatype CategoryItem = CategoryItem(id: int, title: string, retailPrice: int, image1: Option<Image>)

  datatype CategoryGroup = CategoryGroup(category: string, products: seq<CategoryItem>)

  /** The object pushed for a product; a falsy image (NULL or empty) becomes
      null. */
  function ItemOf(p: Product): CategoryItem {
    CategoryItem(p.id, p.title, p.retailPrice, if p.image1 == Some("") then None else p.image1)
  }

  /** The position of the group already holding category c, if any. */
  function GroupIndex(groups: seq<CategoryGroup>, c: string): (r: Option<nat>)
    ensures r.Some? ==> r.value < |groups| && groups[r.value].category == c
    ensures r.None? ==> forall k :: 0 <= k < |groups| ==> groups[k].category != c
  {
    if |groups| == 0 then None
    else if groups[0].category == c then Some(0)
    else
      match GroupIndex(groups[1..], c)
      case None => None
      case Some(k) => Some(k + 1)
  }

  /** One step of the reduce: push the product onto its category's list,
      creating the list the first time the category is seen. */
  function AddToGroup(groups: seq<CategoryGroup>, p: Product): (r: seq<CategoryGroup>)
    ensures |r| == |groups| || |r| == |groups| + 1
  {
    match GroupIndex(groups, p.category)
    case Some(k) => groups[k := groups[k].(products := groups[k].products + [ItemOf(p)])]
    case None => groups + [CategoryGroup(p.category, [ItemOf(p)])]
  }

  /** The reduce over the query's rows, the groups in the order their
      categories first appear. */
  function Grouped(rows: seq<Product>): seq<CategoryGroup> {
    if |rows| == 0 then [] else AddToGroup(Grouped(rows[..|rows| - 1]), rows[|rows| - 1])
  }

  /** Reference definition: the items of category c, in row order. */
  function ItemsIn(rows: seq<Product>, c: string): seq<CategoryItem> {
    if |rows| == 0 then []
    else ItemsIn(rows[..|rows| - 1], c) + (if rows[|rows| - 1].category == c then [ItemOf(rows[|rows| - 1])] else [])
  }

  function Categories(rows: seq<Product>): set<string> {
    set k | 0 <= k < |rows| :: rows[k].category
  }

  function GroupCategories(groups: seq<CategoryGroup>): set<string> {
    set k | 0 <= k < |groups| :: groups[k].category
  }

  predicate DistinctCategories(groups: seq<CategoryGroup>) {
    forall i, j :: 0 <= i < j < |groups| ==> groups[i].category != groups[j].category
  }

  lemma AddToGroupDistinct(groups: seq<CategoryGroup>, p: Product)
    requires DistinctCategories(groups)
    ensures DistinctCategories(AddToGroup(groups, p))
    ensures GroupCategories(AddToGroup(groups, p)) == GroupCategories(groups) + {p.category}
  {
    var r := AddToGroup(groups, p);
    match GroupIndex(groups, p.category)
    case Some(k) =>
      assert |r| == |groups|;
      assert forall j :: 0 <= j < |r| ==> r[j].category == groups[j].category;
      assert groups[k].category in GroupCategories(groups);
    case None =>
      assert forall j :: 0 <= j < |groups| ==> r[j] == groups[j];
      assert r[|groups|].category == p.category;
  }

  /** Every category of the rows has exactly one group, and there is no other
      group. */
  lemma {:induction false} GroupedCategories(rows: seq<Product>)
    ensures DistinctCategories(Grouped(rows))
    ensures GroupCategories(Grouped(rows)) == Categories(rows)
  {
    if |rows| > 0 {
      var front := rows[..|rows| - 1];
      GroupedCategories(front);
      AddToGroupDistinct(Grouped(front), rows[|rows| - 1]);
      CategoriesSnoc(rows);
    }
  }

  lemma CategoriesSnoc(rows: seq<Product>)
    requires |rows| > 0
    ensures Categories(rows) == Categories(rows[..|rows| - 1]) + {rows[|rows| - 1].category}
  {
    var front := rows[..|rows| - 1];
    assert forall k :: 0 <= k < |front| ==> front[k] == rows[k];
  }

  /** Grouping step by step agrees with the reference definition of a
      group's items. */
  predicate GroupsHoldItems(groups: seq<CategoryGroup>, rows: seq<Product>) {
    forall k :: 0 <= k < |groups| ==> groups[k].products == ItemsIn(rows, groups[k].category)
  }

  lemma {:induction false} AddToGroupItems(groups: seq<CategoryGroup>, rows: seq<Product>, p: Product)
    requires GroupsHoldItems(groups, rows)
    requires DistinctCategories(groups)
    requires GroupCategories(groups) == Categories(rows)
    ensures GroupsHoldItems(AddToGroup(groups, p), rows + [p])
  {
    var all := rows + [p];
    assert all[..|all| - 1] == rows;
    var r := AddToGroup(groups, p);
    match GroupIndex(groups, p.category)
    case Some(i) =>
      forall k | 0 <= k < |r| ensures r[k].products == ItemsIn(all, r[k].category) {
        assert ItemsIn(all, r[k].category)
            == ItemsIn(rows, r[k].category) + (if p.category == r[k].category then [ItemOf(p)] else []);
      }
    case None =>
      assert ItemsIn(rows, p.category) == [] by {
        assert p.category !in Categories(rows);
        NoItemsOutside(rows, p.category);
      }
      forall k | 0 <= k < |r| ensures r[k].products == ItemsIn(all, r[k].category) {
        assert ItemsIn(all, r[k].category)
            == ItemsIn(rows, r[k].category) + (if p.category == r[k].category then [ItemOf(p)] else []);
      }
  }

  lemma {:induction false} NoItemsOutside(rows: seq<Product>, c: string)
    requires c !in Categories(rows)
    ensures ItemsIn(rows, c) == []
  {
    if |rows| > 0 {
      var front := rows[..|rows| - 1];
      CategoriesSnoc(rows);
      NoItemsOutside(front, c);
    }
  }

  /** Each group lists exactly the products of its own category, in the
      query's row order. */
  lemma {:induction false} GroupedItems(rows: seq<Product>)
    ensures GroupsHoldItems(Grouped(rows), rows)
  {
    if |rows| > 0 {
      var front := rows[..|rows| - 1];
      GroupedItems(front);
      GroupedCategories(front);
      AddToGroupItems(Grouped(front), front, rows[|rows| - 1]);
      assert front + [rows[|rows| - 1]] == rows;
    }
  }

  // ---- Object.keys order ----

  /** A canonical array index ("0", or digits without a leading zero, below
      2^32 - 1): Object.keys lists such keys first, in numeric order, and
      every other key in insertion order. */
  predicate IsArrayIndex(s: string) {
    |s| >= 1 && AllDigits(s) && (s[0] != '0' || |s| == 1) && DigitsValue(s) < 0xFFFF_FFFF
  }

  function IndexValue(g: CategoryGroup): nat {
    if IsArrayIndex(g.category) then DigitsValue(g.category) else 0
  }

  function InsertByIndex(g: CategoryGroup, gs: seq<CategoryGroup>): seq<CategoryGroup> {
    if |gs| == 0 || IndexValue(g) <= IndexValue(gs[0]) then [g] + gs
    else [gs[0]] + InsertByIndex(g, gs[1..])
  }

  function SortByIndex(gs: seq<CategoryGroup>): seq<CategoryGroup> {
    if |gs| == 0 then [] else InsertByIndex(gs[0], SortByIndex(gs[1..]))
  }

  predicate NamedByIndex(g: CategoryGroup) { IsArrayIndex(g.category) }

  predicate NamedOtherwise(g: CategoryGroup) { !IsArrayIndex(g.category) }

  function ObjectKeysOrder(groups: seq<CategoryGroup>): seq<CategoryGroup> {
    SortByIndex(Filter(groups, NamedByIndex)) + Filter(groups, NamedOtherwise)
  }

  predicate IndexAscending(gs: seq<CategoryGroup>) {
    forall i, j :: 0 <= i < j < |gs| ==> IndexValue(gs[i]) <= IndexValue(gs[j])
  }

  predicate IndexAtLeast(gs: seq<CategoryGroup>, bound: nat) {
    forall i :: 0 <= i < |gs| ==> bound <= IndexValue(gs[i])
  }

  lemma {:induction false} InsertByIndexPermutes(g: CategoryGroup, gs: seq<CategoryGroup>)
    ensures multiset(InsertByIndex(g, gs)) == multiset(gs) + multiset{g}
  {
    if |gs| > 0 && IndexValue(g) > IndexValue(gs[0]) {
      InsertByIndexPermutes(g, gs[1..]);
      assert gs == [gs[0]] + gs[1..];
    }
  }

  lemma {:induction false} InsertByIndexBounded(g: CategoryGroup, gs: seq<CategoryGroup>, bound: nat)
    requires IndexAtLeast(gs, bound) && bound <= IndexValue(g)
    ensures IndexAtLeast(InsertByIndex(g, gs), bound)
  {
    if |gs| > 0 && IndexValue(g) > IndexValue(gs[0]) {
      InsertByIndexBounded(g, gs[1..], bound);
    }
  }

  lemma {:induction false} InsertByIndexSorted(g: CategoryGroup, gs: seq<CategoryGroup>)
    requires IndexAscending(gs)
    ensures IndexAscending(InsertByIndex(g, gs))
  {
    if |gs| > 0 && IndexValue(g) > IndexValue(gs[0]) {
      var tail := gs[1..];
      InsertByIndexSorted(g, tail);
      InsertByIndexBounded(g, tail, IndexValue(gs[0]));
      var ins := InsertByIndex(g, tail);
      var res := [gs[0]] + ins;
      forall i, j | 0 <= i < j < |res| ensures IndexValue(res[i]) <= IndexValue(res[j]) {
        if i == 0 {
          assert res[j] == ins[j - 1];
        } else {
          assert res[i] == ins[i - 1] && res[j] == ins[j - 1];
        }
      }
    }
  }

  lemma {:induction false} SortByIndexCorrect(gs: seq<CategoryGroup>)
    ensures multiset(SortByIndex(gs)) == multiset(gs)
    ensures IndexAscending(SortByIndex(gs))
  {
    if |gs| > 0 {
      SortByIndexCorrect(gs[1..]);
      InsertByIndexPermutes(gs[0], SortByIndex(gs[1..]));
      InsertByIndexSorted(gs[0], SortByIndex(gs[1..]));
      assert gs == [gs[0]] + gs[1..];
    }
  }

  /** The key order lists the same groups, the numeric-index categories
      first and ascending, then the others in the order of first appearance. */
  lemma KeysOrderIsPermutation(groups: seq<CategoryGroup>)
    ensures multiset(ObjectKeysOrder(groups)) == multiset(groups)
  {
    SortByIndexCorrect(Filter(groups, NamedByIndex));
    FilterPartition(groups);
  }

  lemma KeysOrderLayout(groups: seq<CategoryGroup>)
    ensures var n := |Filter(groups, NamedByIndex)|;
      var keys := ObjectKeysOrder(groups);
      && n <= |keys|
      && IndexAscending(keys[..n])
      && (forall k :: 0 <= k < n ==> IsArrayIndex(keys[k].category))
      && keys[n..] == Filter(groups, NamedOtherwise)
  {
    var front := Filter(groups, NamedByIndex);
    SortByIndexCorrect(front);
    var sorted := SortByIndex(front);
    assert |sorted| == |front| by {
      assert |multiset(sorted)| == |multiset(front)|;
    }
    forall k | 0 <= k < |front| ensures IsArrayIndex(sorted[k].category) {
      assert sorted[k] in multiset(front);
    }
    var keys := ObjectKeysOrder(groups);
    assert keys[..|front|] == sorted;
    assert keys[|front|..] == Filter(groups, NamedOtherwise);
  }

  /** Splitting the groups by the two predicates keeps every group once. */
  lemma {:induction false} FilterPartition(gs: seq<CategoryGroup>)
    ensures multiset(Filter(gs, NamedByIndex)) + multiset(Filter(gs, NamedOtherwise)) == multiset(gs)
  {
    if |gs| > 0 {
      var g, rest := gs[0], gs[1..];
      FilterPartition(rest);
      assert gs == [g] + rest;
      assert multiset(gs) == multiset{g} + multiset(rest);
      if IsArrayIndex(g.category) {
        assert Filter(gs, NamedByIndex) == [g] + Filter(rest, NamedByIndex);
        assert Filter(gs, NamedOtherwise) == Filter(rest, NamedOtherwise);
        assert multiset(Filter(gs, NamedByIndex)) == multiset{g} + multiset(Filter(rest, NamedByIndex));
      } else {
        assert Filter(gs, NamedOtherwise) == [g] + Filter(rest, NamedOtherwise);
        assert Filter(gs, NamedByIndex) == Filter(rest, NamedByIndex);
        assert multiset(Filter(gs, NamedOtherwise)) == multiset{g} + multiset(Filter(rest, NamedOtherwise));
      }
    }
  }

  // ---- the handler ----

  datatype GroupError = QueryFailed | ProductNotFound | UncaughtTypeError

  /** The names every plain object inherits from Object.prototype: for
      them `acc[category]` is already a truthy non-array, and `.push`
      throws. */
  predicate InheritedName(s: string) {
    s in {"constructor", "__proto__", "__defineGetter__", "__defineSetter__", "__lookupGetter__",
          "__lookupSetter__", "hasOwnProperty", "isPrototypeOf", "propertyIsEnumerable",
          "toLocaleString", "toString", "valueOf"}
  }

  /** getProductsGroupedByCategory as written, over the rows of `ORDER BY
      category, id`: a failed query and an empty table reject; a category
      named like a member of Object.prototype makes the reduce throw inside
      the query callback; otherwise the groups in Object.keys order. */
  function GroupedByCategoryAsWritten(rows: seq<Product>, queryFails: bool): (r: Result<seq<CategoryGroup>, GroupError>)
    ensures r.Ok? || r.error != UncaughtTypeError ==> r == GroupedByCategory(rows, queryFails)
    ensures r == Err(UncaughtTypeError) <==>
      !queryFails && exists k :: 0 <= k < |rows| && InheritedName(rows[k].category)
  {
    if queryFails then Err(QueryFailed)
    else if |rows| == 0 then Err(ProductNotFound)
    else if exists k :: 0 <= k < |rows| && InheritedName(rows[k].category) then Err(UncaughtTypeError)
    else Ok(ObjectKeysOrder(Grouped(rows)))
  }

  /** A single product in the category "constructor" takes the listing down. */
  lemma ConstructorCategoryThrows(p: Product)
    requires p.category == "constructor"
    ensures GroupedByCategoryAsWritten([p], false) == Err(UncaughtTypeError)
  {
    assert InheritedName([p][0].category);
  }

  /** The listing as evidently intended: every category is a group of its
      own, whatever its name. */
  function GroupedByCategory(rows: seq<Product>, queryFails: bool): (r: Result<seq<CategoryGroup>, GroupError>)
    ensures r.Err? <==> queryFails || |rows| == 0
    ensures r.Err? ==> r.error == if queryFails then QueryFailed else ProductNotFound
  {
    if queryFails then Err(QueryFailed)
    else if |rows| == 0 then Err(ProductNotFound)
    else Ok(ObjectKeysOrder(Grouped(rows)))
  }

  /** Every product appears in exactly one group, the group of its own
      category, and each group lists its category's products in row order. */
  lemma GroupingExact(rows: seq<Product>)
    requires |rows| > 0
    ensures var gs := GroupedByCategory(rows, false).value;
      && DistinctCategories(gs)
      && GroupCategories(gs) == Categories(rows)
      && GroupsHoldItems(gs, rows)
  {
    var groups := Grouped(rows);
    GroupedCategories(rows);
    GroupedItems(rows);
    KeysOrderIsPermutation(groups);
    PermutedKeepsDistinct(groups, ObjectKeysOrder(groups));
    PermutedKeepsCategories(groups, ObjectKeysOrder(groups));
    PermutedKeepsItems(groups, ObjectKeysOrder(groups), rows);
  }

  lemma PermutedKeepsDistinct(groups: seq<CategoryGroup>, gs: seq<CategoryGroup>)
    requires DistinctCategories(groups) && multiset(gs) == multiset(groups)
    ensures DistinctCategories(gs)
  {
    DistinctHasNoDuplicates(groups);
    forall i, j | 0 <= i < j < |gs| ensures gs[i].category != gs[j].category {
      DistinctPositions(gs, i, j);
      assert gs[i] in multiset(groups) && gs[j] in multiset(groups);
      var a :| 0 <= a < |groups| && groups[a] == gs[i];
      var b :| 0 <= b < |groups| && groups[b] == gs[j];
    }
  }

  lemma PermutedKeepsCategories(groups: seq<CategoryGroup>, gs: seq<CategoryGroup>)
    requires multiset(gs) == multiset(groups)
    ensures GroupCategories(gs) == GroupCategories(groups)
  {
    forall c | c in GroupCategories(groups) ensures c in GroupCategories(gs) {
      var a :| 0 <= a < |groups| && groups[a].category == c;
      assert groups[a] in multiset(gs);
      var k :| 0 <= k < |gs| && gs[k] == groups[a];
    }
    forall c | c in GroupCategories(gs) ensures c in GroupCategories(groups) {
      var a :| 0 <= a < |gs| && gs[a].category == c;
      assert gs[a] in multiset(groups);
      var k :| 0 <= k < |groups| && groups[k] == gs[a];
    }
  }

  lemma PermutedKeepsItems(groups: seq<CategoryGroup>, gs: seq<CategoryGroup>, rows: seq<Product>)
    requires GroupsHoldItems(groups, rows) && multiset(gs) == multiset(groups)
    ensures GroupsHoldItems(gs, rows)
  {
    forall k | 0 <= k < |gs| ensures gs[k].products == ItemsIn(rows, gs[k].category) {
      assert gs[k] in multiset(groups);
      var a :| 0 <= a < |groups| && groups[a] == gs[k];
    }
  }

  ghost predicate NoDuplicates<T(!new)>(s: seq<T>) {
    forall x :: multiset(s)[x] <= 1
  }

  lemma {:induction false} DistinctHasNoDuplicates(groups: seq<CategoryGroup>)
    requires DistinctCategories(groups)
    ensures NoDuplicates(groups)
  {
    if |groups| > 0 {
      var tail := groups[1..];
      assert DistinctCategories(tail) by {
        assert forall k :: 0 <= k < |tail| ==> tail[k] == groups[k + 1];
      }
      DistinctHasNoDuplicates(tail);
      assert groups == [groups[0]] + tail;
      assert groups[0] !in multiset(tail) by {
        forall k | 0 <= k < |tail| ensures tail[k] != groups[0] {
          assert tail[k].category != groups[0].category;
        }
      }
      forall x ensures multiset(groups)[x] <= 1 {
        assert multiset(groups)[x] == multiset([groups[0]])[x] + multiset(tail)[x];
      }
    }
  }

  /** A sequence with no duplicate has different elements at two positions. */
  lemma DistinctPositions<T(!new)>(s: seq<T>, i: nat, j: nat)
    requires NoDuplicates(s)
    requires i < j < |s|
    ensures s[i] != s[j]
  {
    if s[i] == s[j] {
      TwoPositions(s, i, j);
    }
  }

  lemma TwoPositions<T>(s: seq<T>, i: nat, j: nat)
    requires i < j < |s| && s[i] == s[j]
    ensures multiset(s)[s[i]] >= 2
  {
    assert s == s[..i] + [s[i]] + s[i + 1..j] + [s[j]] + s[j + 1..];
  }
}
