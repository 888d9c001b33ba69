/** The admin routes (server/admin.js): order-status updates, product edits and deletes,
    and the dashboard's aggregates over the orders table. */
module Admin {
  import opened Query
  import opened Tables

  /** How a status is written in the orders.status column and in request bodies. */
  function StatusName(st: OrderStatus): string
  {
    match st
    case Pending => "pending"
    case Completed => "completed"
    case Cancelled => "cancelled"
  }

  /** The status whitelist: only the three known names are accepted. A missing `status`
      field is `None`. */
  function ParseStatus(s: Option<string>): (r: Option<OrderStatus>)
    ensures r.Some? <==> s.Some? && s.value in ["pending", "completed", "cancelled"]
    ensures r.Some? ==> StatusName(r.value) == s.value
  {
    if s == Some("pending") then Some(Pending)
    else if s == Some("completed") then Some(Completed)
    else if s == Some("cancelled") then Some(Cancelled)
    else None
  }

  /** Every status survives being written out and read back. */
  lemma ParseStatusName(st: OrderStatus)
    ensures ParseStatus(Some(StatusName(st))) == Some(st)
  {
  }

  /** `WHERE id = $1` on the orders table. */
  function FindOrder(orders: seq<Order>, id: int): (r: Option<nat>)
    ensures r.Some? ==> r.value < |orders| && orders[r.value].id == id
    ensures r.None? ==> forall i :: 0 <= i < |orders| ==> orders[i].id != id
  {
    if orders == [] then None
    else if orders[0].id == id then Some(0)
    else
      match FindOrder(orders[1..], id)
      case Some(k) => Some(k + 1)
      case None => None
  }

  /** A status change keeps every key, id and total, so the store invariant holds on. */
  lemma StatusChangeKeepsValid(orders: seq<Order>, lines: seq<OrderLine>, cartRows: seq<CartRow>,
                               nextOrderId: OrderId, nextCartRowId: nat, k: nat, st: OrderStatus)
    requires TablesValid(orders, lines, cartRows, nextOrderId, nextCartRowId) && k < |orders|
    ensures TablesValid(orders[k := orders[k].(status := st)], lines, cartRows, nextOrderId, nextCartRowId)
  {
    var orders' := orders[k := orders[k].(status := st)];
    assert forall i :: 0 <= i < |orders| ==>
             OrderKey(orders'[i]) == OrderKey(orders[i]) && orders'[i].totalAmount == orders[i].totalAmount;
  }

  /** `PUT /api/admin/orders/:id/status`. */
  method UpdateOrderStatus(db: Database, id: int, status: Option<string>) returns (r: Reply<Notice<Order>>)
    requires db.Valid()
    modifies db`orders
    ensures db.Valid()
    ensures r.Err? ==> unchanged(db)
    ensures ParseStatus(status).None? ==> r == Err(400, "Invalid status")
    ensures ParseStatus(status).Some? ==>
              match FindOrder(old(db.orders), id)
              case None => r == Err(404, "Order not found")
              case Some(k) =>
                && db.orders == old(db.orders)[k := old(db.orders)[k].(status := ParseStatus(status).value)]
                && r == Ok(200, Notice("Order status updated", db.orders[k]))
  {
    var st := ParseStatus(status);
    if st.None? {
      return Err(400, "Invalid status");
    }
    var found := FindOrder(db.orders, id);
    if found.None? {
      return Err(404, "Order not found");
    }
    var k := found.value;
    StatusChangeKeepsValid(db.orders, db.orderLines, db.cartRows, db.nextOrderId, db.nextCartRowId, k, st.value);
    db.orders := db.orders[k := db.orders[k].(status := st.value)];
    r := Ok(200, Notice("Order status updated", db.orders[k]));
  }

  /** `DELETE /api/admin/products/:id`. */
  method DeleteProduct(db: Database, id: ProductId) returns (r: Reply<Notice<Product>>)
    modifies db`products
    ensures id !in old(db.products) ==> r == Err(404, "Product not found") && unchanged(db)
    ensures id in old(db.products) ==>
              && db.products == old(db.products) - {id}
              && r == Ok(200, Notice("Product deleted successfully", old(db.products)[id]))
  {
    if id !in db.products {
      return Err(404, "Product not found");
    }
    r := Ok(200, Notice("Product deleted successfully", db.products[id]));
    db.products := db.products - {id};
  }

  /** The six columns `PUT /api/admin/products/:id` overwrites. */
  datatype ProductEdit = ProductEdit(
    name: string, description: string, price: int, stock: int, category: string, imageUrl: string)

  /** The editable columns of a row. */
  function EditOf(p: Product): ProductEdit
  {
    ProductEdit(p.name, p.description, p.price, p.stock, p.category, p.imageUrl)
  }

  /** The row an edit leaves: every editable column as sent, updated_at the clock. */
  function ApplyEdit(e: ProductEdit, now: int): (r: Product)
    ensures EditOf(r) == e && r.updatedAt == now
  {
    Product(e.name, e.description, e.price, e.stock, e.category, e.imageUrl, now)
  }

  /** `PUT /api/admin/products/:id`; `now` is CURRENT_TIMESTAMP. */
  method UpdateProduct(db: Database, id: ProductId, e: ProductEdit, now: int) returns (r: Reply<Notice<Product>>)
    modifies db`products
    ensures id !in old(db.products) ==> r == Err(404, "Product not found") && unchanged(db)
    ensures id in old(db.products) ==>
              && db.products == old(db.products)[id := ApplyEdit(e, now)]
              && r == Ok(200, Notice("Product updated successfully", ApplyEdit(e, now)))
  {
    if id !in db.products {
      return Err(404, "Product not found");
    }
    db.products := db.products[id := ApplyEdit(e, now)];
    r := Ok(200, Notice("Product updated successfully", ApplyEdit(e, now)));
  }

  function HasStatus(st: OrderStatus): Order -> bool { (o: Order) => o.status == st }

  function TotalAmount(o: Order): int { o.totalAmount }

  /** `SUM(total_amount) WHERE status = 'completed'`, with the empty sum (SQL NULL) read as 0. */
  function Revenue(orders: seq<Order>): (r: int)
    ensures r == Sum(orders, Where(HasStatus(Completed), TotalAmount))
  {
    SumFilter(orders, HasStatus(Completed), TotalAmount);
    Sum(Filter(orders, HasStatus(Completed)), TotalAmount)
  }

  /** `COUNT(*) WHERE status = 'pending'`. */
  function PendingCount(orders: seq<Order>): (r: nat)
    ensures r <= |orders|
  {
    |Filter(orders, HasStatus(Pending))|
  }

  /** No completed order, no revenue. */
  lemma RevenueWithoutCompleted(orders: seq<Order>)
    requires forall i :: 0 <= i < |orders| ==> orders[i].status != Completed
    ensures Revenue(orders) == 0
  {
    FilterKeepsNone(orders, HasStatus(Completed));
  }

  /** With non-negative totals, revenue lies between 0 and the total of all orders. */
  lemma {:induction false} RevenueBounded(orders: seq<Order>)
    requires forall i :: 0 <= i < |orders| ==> orders[i].totalAmount >= 0
    ensures 0 <= Revenue(orders) <= Sum(orders, TotalAmount)
  {
    SumPartition(orders, HasStatus(Completed), (o: Order) => o.status != Completed, TotalAmount);
    NonNegativeSum(Filter(orders, HasStatus(Completed)));
    NonNegativeSum(Filter(orders, (o: Order) => o.status != Completed));
  }

  lemma {:induction false} NonNegativeSum(orders: seq<Order>)
    requires forall o :: o in orders ==> o.totalAmount >= 0
    ensures Sum(orders, TotalAmount) >= 0
  {
    if orders != [] {
      assert orders[0] in orders;
      assert forall o :: o in orders[1..] ==> o in orders;
      NonNegativeSum(orders[1..]);
    }
  }

  /** What a status update at `k` does to the revenue: the order's amount leaves the
      revenue if it was completed and enters it if it becomes completed. */
  lemma RevenueAfterStatusChange(orders: seq<Order>, k: nat, st: OrderStatus)
    requires k < |orders|
    ensures Revenue(orders[k := orders[k].(status := st)]) ==
              Revenue(orders)
              - (if orders[k].status == Completed then orders[k].totalAmount else 0)
              + (if st == Completed then orders[k].totalAmount else 0)
  {
    FilterReplace(orders, k, orders[k].(status := st), HasStatus(Completed), TotalAmount);
  }

  /** What a status update at `k` does to the pending count. */
  lemma PendingAfterStatusChange(orders: seq<Order>, k: nat, st: OrderStatus)
    requires k < |orders|
    ensures PendingCount(orders[k := orders[k].(status := st)]) ==
              PendingCount(orders)
              - (if orders[k].status == Pending then 1 else 0)
              + (if st == Pending then 1 else 0)
  {
    FilterReplace(orders, k, orders[k].(status := st), HasStatus(Pending), TotalAmount);
  }

  /** A row of the dashboard's recent-orders list: the order joined with its customer. */
  datatype RecentOrder = RecentOrder(
    id: OrderId, totalAmount: int, status: OrderStatus, createdAt: int,
    firstName: string, lastName: string, email: string)

  function RecentCreatedAt(r: RecentOrder): int { r.createdAt }

  function OrderUserId(o: Order): UserId { o.userId }

  /** `orders o JOIN users u ON o.user_id = u.id`: an order whose user is gone is dropped. */
  function JoinUsers(orders: seq<Order>, users: map<UserId, User>): (r: seq<RecentOrder>)
    ensures |r| <= |orders|
    ensures forall x :: x in r <==>
              exists o :: o in orders && o.userId in users && x == Recent(o, users[o.userId])
  {
    InnerJoin(orders, users, OrderUserId, Recent)
  }

  /** The join goes order by order: each order whose user exists yields one row, in place. */
  lemma JoinUsersAppend(a: seq<Order>, b: seq<Order>, users: map<UserId, User>)
    ensures JoinUsers(a + b, users) == JoinUsers(a, users) + JoinUsers(b, users)
    ensures |a| == 1 ==>
              JoinUsers(a, users) == if a[0].userId in users then [Recent(a[0], users[a[0].userId])] else []
  {
    InnerJoinAppend(a, b, users, OrderUserId, Recent);
  }

  function Recent(o: Order, u: User): RecentOrder
  {
    RecentOrder(o.id, o.totalAmount, o.status, o.createdAt, u.firstName, u.lastName, u.email)
  }

  /** `ORDER BY o.created_at DESC LIMIT 5`: at most five joined rows, newest first, and no
      joined row left out is newer than one kept. */
  function RecentOrders(orders: seq<Order>, users: map<UserId, User>): (r: seq<RecentOrder>)
    ensures |r| == if |JoinUsers(orders, users)| < 5 then |JoinUsers(orders, users)| else 5
    ensures SortedDesc(r, RecentCreatedAt)
    ensures forall x :: x in r ==> x in JoinUsers(orders, users)
    ensures multiset(r) <= multiset(JoinUsers(orders, users))
    ensures forall y, x :: y in multiset(JoinUsers(orders, users)) - multiset(r) && x in r ==>
              y.createdAt <= x.createdAt
  {
    var joined := JoinUsers(orders, users);
    var sorted := SortDesc(joined, RecentCreatedAt);
    var r := Limit(sorted, 5);
    LimitKeepsLargest(joined, RecentCreatedAt, 5);
    LimitOfSorted(sorted, RecentCreatedAt, 5);
    SameRows(sorted, joined);
    r
  }

  /** The JSON `GET /api/admin/dashboard` answers. */
  datatype DashboardStats = DashboardStats(
    totalUsers: nat, totalProducts: nat, totalOrders: nat, totalRevenue: int,
    pendingOrders: nat, recentOrders: seq<RecentOrder>)

  /** `GET /api/admin/dashboard`: the counts, the completed revenue, the pending count and
      the five newest orders, all read from one state of the store. */
  function Dashboard(db: Database): (r: DashboardStats)
    reads db
    ensures r.totalUsers == |db.users| && r.totalProducts == |db.products| && r.totalOrders == |db.orders|
    ensures r.totalRevenue == Revenue(db.orders) && r.pendingOrders == PendingCount(db.orders)
    ensures r.recentOrders == RecentOrders(db.orders, db.users)
    ensures r.pendingOrders <= r.totalOrders
    ensures |r.recentOrders| <= 5 && |r.recentOrders| <= r.totalOrders
    ensures SortedDesc(r.recentOrders, RecentCreatedAt)
  {
    var recent := RecentOrders(db.orders, db.users);
    DashboardStats(|db.users|, |db.products|, |db.orders|, Revenue(db.orders),
                   PendingCount(db.orders), recent)
  }
}
