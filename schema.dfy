/** The MySQL schema that every model file shares, as row datatypes, and the
    database itself as one object whose tables the model methods update in
    place. The table constraints of the schema (primary keys, the unique
    email, the unique (user, product) cart pair, the CHAR(6) order id and the
    foreign keys) are carried as the invariant `Valid`. Money columns are
    DECIMAL(10,2) and are held as integer cents. */
module Schema {
  import opened Common

  type Image = string

  datatype Product = Product(
    id: int, title: string, category: string,
    supplyPrice: int, retailPrice: int, availableQuantity: int, supplier: string,
    image1: Option<Image>, image2: Option<Image>, image3: Option<Image>, image4: Option<Image>)

  /** The creation timestamp of an order, reduced to what the sales report reads. */
  datatype Timestamp = Timestamp(year: int, month: int)

  /** An orders row. The line items are two comma-joined strings; the
      receivedToSupplier column is a MySQL BOOLEAN, that is a TINYINT, so it
      holds an integer (TRUE is 1, FALSE is 0). */
  datatype Order = Order(
    id: string, userId: int, productTitle: string, quantity: string, total: int,
    name: string, address: string, phone: string, email: string, paymentMethod: string,
    receivedToSupplier: int, createdAt: Timestamp)

  datatype CartRow = CartRow(id: int, userId: int, productId: int, quantity: int)

  datatype User = User(id: int, email: string, passwordHash: string, role: string, isBlocked: bool)

  datatype Slide = Slide(id: int, icon: string, title: string, description: string, image: Image, alt: Option<string>)

  datatype DeliveryDetail = DeliveryDetail(
    id: int, userId: int, fullName: string, streetAddress: string, apartment: Option<string>,
    city: string, phoneNumber: string, email: string)

  /** A receivedToSupplier value as a request body carries it: a JSON
      boolean, an integer or a string. */
  datatype FlagValue = FBool(b: bool) | FNum(n: int) | FStr(s: string)

  /** JavaScript truthiness of the flag. */
  predicate Truthy(f: FlagValue) {
    match f
    case FBool(b) => b
    case FNum(n) => n != 0
    case FStr(s) => s != ""
  }

  /** The statements the order engine sends over the single connection, in
      the order it sends them. */
  datatype Statement =
    | SelectOrder(orderId: string)
    | DecrementStock(title: string, amount: int)
    | WriteReceivedFlag(orderId: string, value: FlagValue)
    | SelectStock(title: string)
    | InsertOrder(orderId: string)

  /** Why MySQL, in strict mode, refuses a single write: a NULL bound into a
      NOT NULL column, a string longer than its VARCHAR width, a number
      outside its column's range, a value a unique key already holds, a
      foreign key without its parent row, or a failure of the store itself
      (the connection, the server), given as an oracle input. */
  datatype WriteError = NullColumn | DataTooLong | OutOfRange | DuplicateKey | ForeignKeyViolation | StoreFailed

  /** A string that fits a VARCHAR(width) column. */
  predicate FitsVarchar(s: string, width: nat) { |s| <= width }

  /** An optional string that fits a nullable VARCHAR(width) column. */
  predicate FitsNullable(s: Option<string>, width: nat) { s.None? || |s.value| <= width }

  /** A value of an INT column. */
  predicate InInt(n: int) { -0x8000_0000 <= n <= 0x7fff_ffff }

  /** A value of a TINYINT (BOOLEAN) column. */
  predicate InTinyInt(n: int) { -128 <= n <= 127 }

  /** An amount in cents that a DECIMAL(10,2) column holds: at most ten
      digits, two of them after the point. */
  predicate InDecimal(cents: int) { -9999999999 <= cents <= 9999999999 }

  function ProductIds(ps: seq<Product>): set<int> { set k | 0 <= k < |ps| :: ps[k].id }

  function UserIds(us: seq<User>): set<int> { set k | 0 <= k < |us| :: us[k].id }

  function OrderIds(os: seq<Order>): set<string> { set k | 0 <= k < |os| :: os[k].id }

  ghost predicate ProductsValid(ps: seq<Product>, next: int) {
    && (forall i, j :: 0 <= i < j < |ps| ==> ps[i].id != ps[j].id)
    && (forall i :: 0 <= i < |ps| ==> ps[i].id < next)
  }

  ghost predicate UsersValid(us: seq<User>, next: int) {
    && (forall i, j :: 0 <= i < j < |us| ==> us[i].id != us[j].id && us[i].email != us[j].email)
    && (forall i :: 0 <= i < |us| ==> us[i].id < next)
  }

  ghost predicate CartsValid(cs: seq<CartRow>, next: int, ps: seq<Product>, us: seq<User>) {
    && (forall i, j :: 0 <= i < j < |cs| ==>
          cs[i].id != cs[j].id && (cs[i].userId, cs[i].productId) != (cs[j].userId, cs[j].productId))
    && (forall i :: 0 <= i < |cs| ==> cs[i].id < next)
    && (forall i :: 0 <= i < |cs| ==> cs[i].productId in ProductIds(ps) && cs[i].userId in UserIds(us))
  }

  ghost predicate OrdersValid(os: seq<Order>, us: seq<User>) {
    && (forall i, j :: 0 <= i < j < |os| ==> os[i].id != os[j].id)
    && (forall i :: 0 <= i < |os| ==> |os[i].id| <= 6 && os[i].userId in UserIds(us))
  }

  ghost predicate SlidesValid(ss: seq<Slide>, next: int) {
    && (forall i, j :: 0 <= i < j < |ss| ==> ss[i].id != ss[j].id)
    && (forall i :: 0 <= i < |ss| ==> ss[i].id < next)
  }

  ghost predicate DeliveryValid(ds: seq<DeliveryDetail>, next: int, us: seq<User>) {
    && (forall i, j :: 0 <= i < j < |ds| ==> ds[i].id != ds[j].id)
    && (forall i :: 0 <= i < |ds| ==> ds[i].id < next && ds[i].userId in UserIds(us))
  }

  /** The shop's database: one table per field, rows in storage order, plus
      the AUTO_INCREMENT counters and the order engine's statement log. */
  class Database {
    var products: seq<Product>
    var orders: seq<Order>
    var carts: seq<CartRow>
    var users: seq<User>
    var slides: seq<Slide>
    var deliveryDetails: seq<DeliveryDetail>
    var nextProductId: int
    var nextCartId: int
    var nextUserId: int
    var nextSlideId: int
    var nextDeliveryId: int
    var log: seq<Statement>

    ghost predicate Valid()
      reads this`products, this`orders, this`carts, this`users, this`slides, this`deliveryDetails
      reads this`nextProductId, this`nextCartId, this`nextUserId, this`nextSlideId, this`nextDeliveryId
    {
      && ProductsValid(products, nextProductId)
      && UsersValid(users, nextUserId)
      && CartsValid(carts, nextCartId, products, users)
      && OrdersValid(orders, users)
      && SlidesValid(slides, nextSlideId)
      && DeliveryValid(deliveryDetails, nextDeliveryId, users)
    }

    /** A freshly created schema: every table empty, every counter at 1. */
    constructor ()
      ensures Valid()
      ensures products == [] && orders == [] && carts == [] && users == []
      ensures slides == [] && deliveryDetails == [] && log == []
      ensures nextProductId == 1 && nextCartId == 1 && nextUserId == 1
      ensures nextSlideId == 1 && nextDeliveryId == 1
    {
      products, orders, carts, users, slides, deliveryDetails := [], [], [], [], [], [];
      nextProductId, nextCartId, nextUserId, nextSlideId, nextDeliveryId := 1, 1, 1, 1, 1;
      log := [];
    }
  }
}
