/** The carts table of backend/models/Cart.js: the upsert on the pair
    (user, product), the update and delete by cart id, the delete by user,
    and the join with the products table that lists a user's cart. */
module CartModel {
  import opened Common
  import opened Schema
  import opened ProductModel

  predicate HoldsPair(c: CartRow, userId: int, productId: int) {
    c.userId == userId && c.productId == productId
  }

  /** The first row holding the pair (user, product). */
  function FindPair(cs: seq<CartRow>, userId: int, productId: int): (r: Option<nat>)
    ensures r.Some? ==> r.value < |cs| && HoldsPair(cs[r.value], userId, productId)
    ensures r.Some? ==> forall j :: 0 <= j < r.value ==> !HoldsPair(cs[j], userId, productId)
    ensures r.None? ==> forall j :: 0 <= j < |cs| ==> !HoldsPair(cs[j], userId, productId)
  {
    if |cs| == 0 then None
    else if cs[0].userId == userId && cs[0].productId == productId then Some(0)
    else
      match FindPair(cs[1..], userId, productId)
      case None => None
      case Some(k) => Some(k + 1)
  }

  /** The cart read as a map from (user, product) to quantity. */
  function QuantityOf(cs: seq<CartRow>, userId: int, productId: int): Option<int> {
    match FindPair(cs, userId, productId)
    case Some(k) => Some(cs[k].quantity)
    case None => None
  }

  /** `INSERT INTO carts ... ON DUPLICATE KEY UPDATE quantity = quantity +
      VALUES(quantity)`: the unique key (user_id, product_id) decides
      between adding to the row that holds the pair and appending a row
      with the next AUTO_INCREMENT id. */
  function Upsert(cs: seq<CartRow>, nextId: int, userId: int, productId: int, quantity: int): (r: seq<CartRow>)
    ensures FindPair(cs, userId, productId).Some? ==> |r| == |cs|
    ensures FindPair(cs, userId, productId).None? ==>
      r == cs + [CartRow(nextId, userId, productId, quantity)]
  {
    match FindPair(cs, userId, productId)
    case Some(k) => cs[k := cs[k].(quantity := cs[k].quantity + quantity)]
    case None => cs + [CartRow(nextId, userId, productId, quantity)]
  }

  /** Read as a map, the upsert adds the quantity to the pair's old
      quantity (none counting as 0) and leaves every other pair as it was. */
  lemma UpsertQuantity(cs: seq<CartRow>, nextId: int, userId: int, productId: int, quantity: int,
                       otherUser: int, otherProduct: int)
    ensures QuantityOf(Upsert(cs, nextId, userId, productId, quantity), otherUser, otherProduct)
         == if (otherUser, otherProduct) == (userId, productId)
            then Some(OrZero(QuantityOf(cs, userId, productId)) + quantity)
            else QuantityOf(cs, otherUser, otherProduct)
  {
    var r := Upsert(cs, nextId, userId, productId, quantity);
    SamePairsSameFind(cs, r, otherUser, otherProduct);
  }

  /** Rows with the same pairs at the same positions, followed by at most
      one more row: the first match of a pair is found at the same place,
      unless only the extra row holds it. */
  lemma SamePairsSameFind(cs: seq<CartRow>, r: seq<CartRow>, userId: int, productId: int)
    requires |r| == |cs| || |r| == |cs| + 1
    requires forall j :: 0 <= j < |cs| ==> r[j].userId == cs[j].userId && r[j].productId == cs[j].productId
    ensures FindPair(cs, userId, productId).Some? ==> FindPair(r, userId, productId) == FindPair(cs, userId, productId)
    ensures FindPair(cs, userId, productId).None? && |r| == |cs| ==> FindPair(r, userId, productId).None?
    ensures FindPair(cs, userId, productId).None? && |r| == |cs| + 1 ==>
      FindPair(r, userId, productId) == if HoldsPair(r[|cs|], userId, productId) then Some(|cs|) else None
  {
    var a := FindPair(cs, userId, productId);
    var b := FindPair(r, userId, productId);
    if b.Some? && b.value < |cs| {
      assert HoldsPair(cs[b.value], userId, productId);
      assert a.Some? && a.value <= b.value;
    }
    if a.Some? {
      assert HoldsPair(r[a.value], userId, productId);
      assert b.Some? && b.value <= a.value;
    }
  }

  /** The upsert keeps the pair unique, the ids unique and below the
      counter, and every row pointing at an existing user and product. */
  lemma UpsertKeepsValid(cs: seq<CartRow>, next: int, ps: seq<Product>, us: seq<User>,
                         userId: int, productId: int, quantity: int)
    requires CartsValid(cs, next, ps, us)
    requires userId in UserIds(us) && productId in ProductIds(ps)
    ensures CartsValid(Upsert(cs, next, userId, productId, quantity), next + 1, ps, us)
  {
    var r := Upsert(cs, next, userId, productId, quantity);
    match FindPair(cs, userId, productId)
    case Some(k) =>
      assert forall j :: 0 <= j < |cs| ==>
        r[j].id == cs[j].id && r[j].userId == cs[j].userId && r[j].productId == cs[j].productId;
    case None =>
      assert forall j :: 0 <= j < |cs| ==> r[j] == cs[j];
  }

  /** The quantity the upsert stores for the pair: the new quantity for a
      new pair, the sum for a pair already in the cart. */
  function UpsertedQuantity(cs: seq<CartRow>, userId: int, productId: int, quantity: int): (q: int)
    ensures QuantityOf(cs, userId, productId).None? ==> q == quantity
  {
    OrZero(QuantityOf(cs, userId, productId)) + quantity
  }

  /** addToCart: the bound values are checked against NOT NULL (user_id,
      product_id and quantity; the user id comes from the token, the product
      id and the quantity from the request body), the quantity against the
      INT range, then the foreign keys, and on a duplicate pair the sum is
      checked against the INT range again. */
  method AddToCart(db: Database, userId: Option<int>, productId: Option<int>, quantity: Option<int>, storeFails: bool)
    returns (r: Result<(), WriteError>)
    requires CartsValid(db.carts, db.nextCartId, db.products, db.users)
    modifies db`carts, db`nextCartId
    ensures CartsValid(db.carts, db.nextCartId, db.products, db.users)
    ensures storeFails ==> r == Err(StoreFailed) && db.carts == old(db.carts)
    ensures !storeFails && (userId.None? || productId.None? || quantity.None?) ==>
      r == Err(NullColumn) && db.carts == old(db.carts)
    ensures !storeFails && userId.Some? && productId.Some? && quantity.Some? && !InInt(quantity.value) ==>
      r == Err(OutOfRange) && db.carts == old(db.carts)
    ensures !storeFails && userId.Some? && productId.Some? && quantity.Some? && InInt(quantity.value)
            && (userId.value !in UserIds(db.users) || productId.value !in ProductIds(db.products)) ==>
      r == Err(ForeignKeyViolation) && db.carts == old(db.carts)
    ensures !storeFails && userId.Some? && productId.Some? && quantity.Some? && InInt(quantity.value)
            && userId.value in UserIds(db.users) && productId.value in ProductIds(db.products)
            && !InInt(UpsertedQuantity(old(db.carts), userId.value, productId.value, quantity.value)) ==>
      r == Err(OutOfRange) && db.carts == old(db.carts)
    ensures !storeFails && userId.Some? && productId.Some? && quantity.Some?
            && InInt(UpsertedQuantity(old(db.carts), userId.value, productId.value, quantity.value))
            && InInt(quantity.value) && userId.value in UserIds(db.users) && productId.value in ProductIds(db.products) ==>
      r == Ok(()) && db.carts == Upsert(old(db.carts), old(db.nextCartId), userId.value, productId.value, quantity.value)
  {
    if storeFails {
      return Err(StoreFailed);
    }
    if userId.None? || productId.None? || quantity.None? {
      return Err(NullColumn);
    }
    var u, p, q := userId.value, productId.value, quantity.value;
    if !InInt(q) {
      return Err(OutOfRange);
    }
    if u !in UserIds(db.users) || p !in ProductIds(db.products) {
      return Err(ForeignKeyViolation);
    }
    if !InInt(UpsertedQuantity(db.carts, u, p, q)) {
      return Err(OutOfRange);
    }
    UpsertKeepsValid(db.carts, db.nextCartId, db.products, db.users, u, p, q);
    db.carts := Upsert(db.carts, db.nextCartId, u, p, q);
    db.nextCartId := db.nextCartId + 1;
    return Ok(());
  }

  // ---- updateCartItem ----

  /** `UPDATE carts SET quantity = ? WHERE id = ?`. */
  function SetCartQuantity(cs: seq<CartRow>, cartId: int, quantity: int): (r: seq<CartRow>)
    ensures |r| == |cs|
  {
    seq(|cs|, k requires 0 <= k < |cs| => if cs[k].id == cartId then cs[k].(quantity := quantity) else cs[k])
  }

  /** Only the quantity of the row with that id changes, whoever owns it;
      every other row, and every other column, stays. */
  lemma SetCartQuantityExact(cs: seq<CartRow>, cartId: int, quantity: int, k: nat)
    requires k < |cs|
    ensures var r := SetCartQuantity(cs, cartId, quantity)[k];
      && r.id == cs[k].id && r.userId == cs[k].userId && r.productId == cs[k].productId
      && r.quantity == if cs[k].id == cartId then quantity else cs[k].quantity
  {
  }

  lemma SetCartQuantityKeepsValid(cs: seq<CartRow>, next: int, ps: seq<Product>, us: seq<User>, cartId: int, quantity: int)
    requires CartsValid(cs, next, ps, us)
    ensures CartsValid(SetCartQuantity(cs, cartId, quantity), next, ps, us)
  {
    var r := SetCartQuantity(cs, cartId, quantity);
    assert forall j :: 0 <= j < |cs| ==>
      r[j].id == cs[j].id && r[j].userId == cs[j].userId && r[j].productId == cs[j].productId;
  }

  /** The rows `WHERE id = ?` matches, which is what affectedRows counts. */
  function RowsWithId(cs: seq<CartRow>, cartId: int): nat {
    |Filter(cs, (c: CartRow) => c.id == cartId)|
  }

  lemma {:induction false} RowsWithUniqueId(cs: seq<CartRow>, next: int, ps: seq<Product>, us: seq<User>, cartId: int)
    requires CartsValid(cs, next, ps, us)
    ensures RowsWithId(cs, cartId) == if CartMatches(cs, cartId) then 1 else 0
  {
    if |cs| > 0 {
      var tail := cs[1..];
      assert CartsValid(tail, next, ps, us) by {
        assert forall k :: 0 <= k < |tail| ==> tail[k] == cs[k + 1];
      }
      RowsWithUniqueId(tail, next, ps, us, cartId);
      if cs[0].id == cartId {
        assert forall k :: 0 <= k < |tail| ==> tail[k].id != cartId by {
          assert forall k :: 0 <= k < |tail| ==> tail[k] == cs[k + 1];
        }
      } else {
        assert (exists k :: 0 <= k < |cs| && cs[k].id == cartId) <==> (exists k :: 0 <= k < |tail| && tail[k].id == cartId) by {
          assert forall k :: 0 < k < |cs| ==> cs[k] == tail[k - 1];
        }
      }
    }
  }

  /** Some row has that id: the row the UPDATE writes. MySQL checks the
      bound quantity as it writes a row, so with no such row a NULL or an
      out-of-range quantity is not refused. */
  predicate CartMatches(cs: seq<CartRow>, cartId: int) {
    exists k :: 0 <= k < |cs| && cs[k].id == cartId
  }

  method UpdateCartItem(db: Database, cartId: int, quantity: Option<int>, storeFails: bool)
    returns (r: Result<nat, WriteError>)
    requires CartsValid(db.carts, db.nextCartId, db.products, db.users)
    modifies db`carts
    ensures CartsValid(db.carts, db.nextCartId, db.products, db.users)
    ensures storeFails ==> r == Err(StoreFailed) && db.carts == old(db.carts)
    ensures !storeFails && (quantity.None? || !InInt(quantity.value)) && !CartMatches(old(db.carts), cartId) ==>
      r == Ok(0) && db.carts == old(db.carts)
    ensures !storeFails && CartMatches(old(db.carts), cartId) && quantity.None? ==>
      r == Err(NullColumn) && db.carts == old(db.carts)
    ensures !storeFails && CartMatches(old(db.carts), cartId) && quantity.Some? && !InInt(quantity.value) ==>
      r == Err(OutOfRange) && db.carts == old(db.carts)
    ensures !storeFails && quantity.Some? && InInt(quantity.value) ==>
      && db.carts == SetCartQuantity(old(db.carts), cartId, quantity.value)
      && r == Ok(if CartMatches(old(db.carts), cartId) then 1 else 0)
  {
    if storeFails {
      return Err(StoreFailed);
    }
    if quantity.None? || !InInt(quantity.value) {
      if !CartMatches(db.carts, cartId) {
        return Ok(0);
      }
      return if quantity.None? then Err(NullColumn) else Err(OutOfRange);
    }
    RowsWithUniqueId(db.carts, db.nextCartId, db.products, db.users, cartId);
    r := Ok(RowsWithId(db.carts, cartId));
    SetCartQuantityKeepsValid(db.carts, db.nextCartId, db.products, db.users, cartId, quantity.value);
    db.carts := SetCartQuantity(db.carts, cartId, quantity.value);
  }

  // ---- deleteCartItem and emptyCart ----

  /** A DELETE keeps a subsequence of the rows, so the table constraints
      still hold. */
  lemma {:induction false} FilterKeepsCartsValid(cs: seq<CartRow>, next: int, ps: seq<Product>, us: seq<User>,
                                                 keep: CartRow -> bool)
    requires CartsValid(cs, next, ps, us)
    ensures CartsValid(Filter(cs, keep), next, ps, us)
  {
    var r := Filter(cs, keep);
    FilterSubsequence(cs, keep);
    var idx := FilterIndices(cs, keep);
    forall i, j | 0 <= i < j < |r|
      ensures r[i].id != r[j].id && (r[i].userId, r[i].productId) != (r[j].userId, r[j].productId)
    {
      assert r[i] == cs[idx[i]] && r[j] == cs[idx[j]];
    }
    forall i | 0 <= i < |r|
      ensures r[i].id < next && r[i].productId in ProductIds(ps) && r[i].userId in UserIds(us)
    {
      assert r[i] == cs[idx[i]];
    }
  }

  /** `DELETE FROM carts WHERE id = ?`. */
  function RemoveCartRow(cs: seq<CartRow>, cartId: int): (r: seq<CartRow>)
    ensures forall c :: c in r <==> c in cs && c.id != cartId
  {
    FilterMembers(cs, (c: CartRow) => c.id != cartId);
    Filter(cs, (c: CartRow) => c.id != cartId)
  }

  method DeleteCartItem(db: Database, cartId: int, storeFails: bool) returns (r: Result<(), WriteError>)
    requires CartsValid(db.carts, db.nextCartId, db.products, db.users)
    modifies db`carts
    ensures CartsValid(db.carts, db.nextCartId, db.products, db.users)
    ensures storeFails ==> r == Err(StoreFailed) && db.carts == old(db.carts)
    ensures !storeFails ==> r == Ok(()) && db.carts == RemoveCartRow(old(db.carts), cartId)
  {
    if storeFails {
      return Err(StoreFailed);
    }
    FilterKeepsCartsValid(db.carts, db.nextCartId, db.products, db.users, (c: CartRow) => c.id != cartId);
    db.carts := RemoveCartRow(db.carts, cartId);
    return Ok(());
  }

  /** `DELETE FROM carts WHERE user_id = ?`. */
  function RemoveUserRows(cs: seq<CartRow>, userId: int): (r: seq<CartRow>)
    ensures forall c :: c in r <==> c in cs && c.userId != userId
  {
    FilterMembers(cs, (c: CartRow) => c.userId != userId);
    Filter(cs, (c: CartRow) => c.userId != userId)
  }

  method EmptyCart(db: Database, userId: int, storeFails: bool) returns (r: Result<(), WriteError>)
    requires CartsValid(db.carts, db.nextCartId, db.products, db.users)
    modifies db`carts
    ensures CartsValid(db.carts, db.nextCartId, db.products, db.users)
    ensures storeFails ==> r == Err(StoreFailed) && db.carts == old(db.carts)
    ensures !storeFails ==> r == Ok(()) && db.carts == RemoveUserRows(old(db.carts), userId)
  {
    if storeFails {
      return Err(StoreFailed);
    }
    FilterKeepsCartsValid(db.carts, db.nextCartId, db.products, db.users, (c: CartRow) => c.userId != userId);
    db.carts := RemoveUserRows(db.carts, userId);
    return Ok(());
  }

  // ---- getCartItems ----

  /** One row of the join: the cart row's id, product and quantity, the
      product's title, price and first image, and quantity times price. */
  datatype CartItem = CartItem(
    id: int, productId: int, title: string, price: int, image: Option<Image>, quantity: int, totalPrice: int)

  /** `JOIN products AS p ON c.product_id = p.id` for one cart row. */
  function ItemFor(c: CartRow, ps: seq<Product>): (r: Option<CartItem>)
    ensures r.None? <==> c.productId !in ProductIds(ps)
  {
    match ProductById(ps, c.productId)
    case None => None
    case Some(p) => Some(CartItem(c.id, c.productId, p.title, p.retailPrice, p.image1, c.quantity, c.quantity * p.retailPrice))
  }

  /** `WHERE c.user_id = ?`, rows in table order. */
  function CartItems(cs: seq<CartRow>, ps: seq<Product>, userId: int): (items: seq<CartItem>)
    ensures |items| <= |cs|
  {
    if |cs| == 0 then []
    else (if cs[0].userId == userId && ItemFor(cs[0], ps).Some? then [ItemFor(cs[0], ps).value] else [])
         + CartItems(cs[1..], ps, userId)
  }

  /** Every listed item belongs to one of the user's cart rows, names an
      existing product at its retail price, and is priced at quantity times
      that price; every cart row of the user whose product exists is listed. */
  lemma {:induction false} CartItemsExact(cs: seq<CartRow>, ps: seq<Product>, userId: int)
    ensures forall it :: it in CartItems(cs, ps, userId) ==>
      && it.totalPrice == it.quantity * it.price
      && (exists k :: 0 <= k < |cs| && cs[k].userId == userId && it.id == cs[k].id
            && it.productId == cs[k].productId && it.quantity == cs[k].quantity)
      && (exists j :: 0 <= j < |ps| && ps[j].id == it.productId && ps[j].title == it.title && ps[j].retailPrice == it.price)
    ensures forall k :: 0 <= k < |cs| && cs[k].userId == userId && cs[k].productId in ProductIds(ps) ==>
      ItemFor(cs[k], ps).value in CartItems(cs, ps, userId)
  {
    if |cs| > 0 {
      CartItemsExact(cs[1..], ps, userId);
      var rest := CartItems(cs[1..], ps, userId);
      forall it | it in CartItems(cs, ps, userId)
        ensures exists k :: 0 <= k < |cs| && cs[k].userId == userId && it.id == cs[k].id &&
                            it.productId == cs[k].productId && it.quantity == cs[k].quantity
        ensures it.totalPrice == it.quantity * it.price
        ensures exists j :: 0 <= j < |ps| && ps[j].id == it.productId && ps[j].title == it.title && ps[j].retailPrice == it.price
      {
        if it in rest {
          var k :| 0 <= k < |cs[1..]| && cs[1..][k].userId == userId && it.id == cs[1..][k].id
            && it.productId == cs[1..][k].productId && it.quantity == cs[1..][k].quantity;
          assert cs[k + 1] == cs[1..][k];
        } else {
          var d := ProductById(ps, cs[0].productId).value;
          var j :| 0 <= j < |ps| && ps[j].id == cs[0].productId && d == DetailOf(ps[j]);
          assert ps[j].title == it.title && ps[j].retailPrice == it.price;
        }
      }
      forall k | 0 < k < |cs| && cs[k].userId == userId && cs[k].productId in ProductIds(ps)
        ensures ItemFor(cs[k], ps).value in CartItems(cs, ps, userId)
      {
        assert cs[1..][k - 1] == cs[k];
      }
    }
  }

  /** After emptyCart the user's cart lists nothing. */
  lemma {:induction false} EmptiedCartListsNothing(cs: seq<CartRow>, ps: seq<Product>, userId: int)
    ensures CartItems(RemoveUserRows(cs, userId), ps, userId) == []
  {
    NoRowsNoItems(RemoveUserRows(cs, userId), ps, userId);
  }

  lemma {:induction false} NoRowsNoItems(cs: seq<CartRow>, ps: seq<Product>, userId: int)
    requires forall c :: c in cs ==> c.userId != userId
    ensures CartItems(cs, ps, userId) == []
  {
    if |cs| > 0 {
      assert cs[0] in cs;
      assert forall c :: c in cs[1..] ==> c in cs;
      NoRowsNoItems(cs[1..], ps, userId);
    }
  }
}
