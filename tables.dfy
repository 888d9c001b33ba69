/** The rows of the shop's tables (products, orders, order_items, cart_items, users), the
    HTTP reply shape shared by the route handlers, and the store that holds every table.
    Money is integer cents throughout. */
module Tables {
  import opened Query

  type UserId = int
  type ProductId = int
  type OrderId = nat

  /** A products row: the six editable columns plus updated_at. */
  datatype Product = Product(
    name: string, description: string, price: int, stock: int,
    category: string, imageUrl: string, updatedAt: int)

  datatype OrderStatus = Pending | Completed | Cancelled

  /** An orders row. */
  datatype Order = Order(
    id: OrderId, userId: UserId, totalAmount: int, shippingAddress: string,
    status: OrderStatus, createdAt: int)

  /** An order_items row: the price is the one captured when the order was placed. */
  datatype OrderLine = OrderLine(orderId: OrderId, productId: ProductId, quantity: int, price: int)

  /** A cart_items row; (userId, productId) identifies it for every cart route. */
  datatype CartRow = CartRow(id: nat, userId: UserId, productId: ProductId, quantity: int, createdAt: int)

  /** A users row, with the columns the admin routes read. */
  datatype User = User(email: string, firstName: string, lastName: string, isAdmin: bool)

  /** What a route handler answers: a status with a JSON value, or a status with `{ error }`. */
  datatype Reply<T> = Ok(status: nat, value: T) | Err(status: nat, message: string)

  /** The `{ message, <row> }` body of a write that reports the row `RETURNING *` produced. */
  datatype Notice<T> = Notice(message: string, row: T)

  function OrderKey(o: Order): OrderId { o.id }
  function OrderCreatedAt(o: Order): int { o.createdAt }
  function CartKey(row: CartRow): (UserId, ProductId) { (row.userId, row.productId) }
  function CartRowId(row: CartRow): nat { row.id }
  function LineAmount(line: OrderLine): int { line.price * line.quantity }

  /** WHERE order_items.order_id = id */
  function IsLineOf(id: OrderId): OrderLine -> bool { (line: OrderLine) => line.orderId == id }

  function LinesOf(lines: seq<OrderLine>, id: OrderId): seq<OrderLine> { Filter(lines, IsLineOf(id)) }

  function LineSum(lines: seq<OrderLine>): int { Sum(lines, LineAmount) }

  /** Every order's total is the sum of its lines' price times quantity. */
  predicate TotalsMatchLines(orders: seq<Order>, lines: seq<OrderLine>)
  {
    forall i :: 0 <= i < |orders| ==> LineSum(LinesOf(lines, orders[i].id)) == orders[i].totalAmount
  }

  /** WHERE user_id <> u: the rows `DELETE FROM cart_items WHERE user_id = u` leaves. */
  function NotOwnedBy(u: UserId): CartRow -> bool { (row: CartRow) => row.userId != u }

  /** The cart table after every row of user `u` is deleted. */
  function WithoutUser(rows: seq<CartRow>, u: UserId): (r: seq<CartRow>)
    ensures forall row :: row in r <==> row in rows && row.userId != u
  {
    Filter(rows, NotOwnedBy(u))
  }

  /** Deleting one user's cart keeps the other rows in their order and keeps the
      (user, product) key unique. */
  lemma WithoutUserKeepsOthers(rows: seq<CartRow>, u: UserId)
    requires Distinct(rows, CartKey)
    ensures Distinct(WithoutUser(rows, u), CartKey)
    ensures forall a, b :: rows == a + b ==> WithoutUser(rows, u) == WithoutUser(a, u) + WithoutUser(b, u)
  {
    FilterDistinct(rows, NotOwnedBy(u), CartKey);
    forall a, b | rows == a + b
      ensures WithoutUser(rows, u) == WithoutUser(a, u) + WithoutUser(b, u)
    {
      FilterAppend(a, b, NotOwnedBy(u));
    }
  }

  /** The keys are unique, the id sequences are ahead of every id issued, every line
      belongs to an issued order and every order's total matches its lines. */
  ghost predicate TablesValid(orders: seq<Order>, lines: seq<OrderLine>, cartRows: seq<CartRow>,
                              nextOrderId: OrderId, nextCartRowId: nat)
  {
    && Distinct(orders, OrderKey)
    && (forall i :: 0 <= i < |orders| ==> orders[i].id < nextOrderId)
    && (forall i :: 0 <= i < |lines| ==> lines[i].orderId < nextOrderId)
    && TotalsMatchLines(orders, lines)
    && CartValid(cartRows, nextCartRowId)
  }

  /** The cart part of the store invariant: (user, product) and the row id are both keys,
      and the id sequence is ahead of every row. */
  ghost predicate CartValid(rows: seq<CartRow>, nextId: nat)
  {
    && Distinct(rows, CartKey)
    && Distinct(rows, CartRowId)
    && (forall i :: 0 <= i < |rows| ==> rows[i].id < nextId)
  }

  /** Deleting one user's cart keeps the cart invariant. */
  lemma WithoutUserKeepsValid(rows: seq<CartRow>, u: UserId, nextId: nat)
    requires CartValid(rows, nextId)
    ensures CartValid(WithoutUser(rows, u), nextId)
  {
    WithoutUserKeepsOthers(rows, u);
    FilterDistinct(rows, NotOwnedBy(u), CartRowId);
    var left := WithoutUser(rows, u);
    forall i | 0 <= i < |left| ensures left[i].id < nextId {
      assert left[i] in rows;
    }
  }

  /** The relational store: every table the core reads or writes, and the two id sequences. */
  class Database {
    var products: map<ProductId, Product>
    var orders: seq<Order>
    var orderLines: seq<OrderLine>
    var cartRows: seq<CartRow>
    var users: map<UserId, User>
    var nextOrderId: OrderId
    var nextCartRowId: nat

    ghost predicate Valid()
      reads this
    {
      TablesValid(orders, orderLines, cartRows, nextOrderId, nextCartRowId)
    }

    constructor (products: map<ProductId, Product>, users: map<UserId, User>)
      ensures Valid()
      ensures this.products == products && this.users == users
      ensures orders == [] && orderLines == [] && cartRows == []
    {
      this.products := products;
      this.users := users;
      orders, orderLines, cartRows := [], [], [];
      nextOrderId, nextCartRowId := 1, 1;
    }
  }
}
