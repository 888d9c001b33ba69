/** Order placement and order history (server/orders.js).

    `POST /create` turns a checkout list into one pending order plus one order line per
    item, decrements each referenced product's stock in list order, and empties the
    caller's cart, all inside one transaction: any failure rolls every table back.
    `GET /` and `GET /:id` are read-only lookups filtered by the caller's user id. */
module Orders {
  import opened Query
  import opened Tables

  /** The product reference the client sends with each checkout line (price in cents). */
  datatype ItemProduct = ItemProduct(id: ProductId, name: string, price: int)

  datatype CheckoutItem = CheckoutItem(product: ItemProduct, quantity: int)

  datatype OrderError = EmptyCart | InsufficientStock(productName: string) | StorageFailure

  /** The `order` object of the 201 reply; `items` is the number of checkout lines. */
  datatype OrderSummary = OrderSummary(
    id: OrderId, totalAmount: int, status: OrderStatus, createdAt: int, items: nat)

  function ErrorMessage(e: OrderError): string
  {
    match e
    case EmptyCart => "Cart is empty"
    case InsufficientStock(name) => "Insufficient stock for " + name
    case StorageFailure => "storage failure"
  }

  function ItemAmount(item: CheckoutItem): int { item.product.price * item.quantity }

  /** The order total, `items.reduce((sum, item) => sum + price * quantity, 0)`: the
      client's price times quantity, summed over the items. */
  function Total(items: seq<CheckoutItem>): (r: int)
    ensures r == Sum(items, ItemAmount)
  {
    ReduceIsSum(items, ItemAmount, 0);
    Reduce(items, ItemAmount, 0)
  }

  function LineFor(orderId: OrderId, item: CheckoutItem): OrderLine
  {
    OrderLine(orderId, item.product.id, item.quantity, item.product.price)
  }

  /** The order_items rows the loop inserts: one per item, in list order. */
  function LinesFor(orderId: OrderId, items: seq<CheckoutItem>): (r: seq<OrderLine>)
    ensures |r| == |items|
    ensures forall i :: 0 <= i < |items| ==>
              && r[i].orderId == orderId && r[i].productId == items[i].product.id
              && r[i].quantity == items[i].quantity && r[i].price == items[i].product.price
  {
    if items == [] then []
    else LinesFor(orderId, items[..|items| - 1]) + [LineFor(orderId, items[|items| - 1])]
  }

  /** The order lines add up to the order total. */
  lemma {:induction false} LinesForTotal(orderId: OrderId, items: seq<CheckoutItem>)
    ensures LineSum(LinesFor(orderId, items)) == Total(items)
  {
    if items != [] {
      var init, last := items[..|items| - 1], items[|items| - 1];
      LinesForTotal(orderId, init);
      SumAppend(LinesFor(orderId, init), [LineFor(orderId, last)], LineAmount);
      assert items == init + [last];
      SumAppend(init, [last], ItemAmount);
    }
  }

  /** Total quantity of product `pid` over the items (a product may be listed twice). */
  function Ordered(items: seq<CheckoutItem>, pid: ProductId): int
  {
    if items == [] then 0
    else
      var last := items[|items| - 1];
      Ordered(items[..|items| - 1], pid) + (if last.product.id == pid then last.quantity else 0)
  }

  /** One turn of the loop: `UPDATE products SET stock_quantity = stock_quantity - q
      RETURNING stock_quantity`, then the negative-stock check. A missing product row
      leaves `rows[0]` undefined and the handler aborts. */
  function DecrementOne(products: map<ProductId, Product>, item: CheckoutItem)
    : (r: Result<map<ProductId, Product>, OrderError>)
    ensures item.product.id !in products ==> r == Failure(StorageFailure)
    ensures item.product.id in products ==>
              (r.Success? <==> products[item.product.id].stock >= item.quantity)
    ensures item.product.id in products && r.Failure? ==> r.error == InsufficientStock(item.product.name)
    ensures r.Success? ==>
              && r.value.Keys == products.Keys
              && r.value[item.product.id] ==
                   products[item.product.id].(stock := products[item.product.id].stock - item.quantity)
              && forall pid :: pid in products && pid != item.product.id ==> r.value[pid] == products[pid]
  {
    var id := item.product.id;
    if id !in products then Failure(StorageFailure)
    else
      var left := products[id].stock - item.quantity;
      if left < 0 then Failure(InsufficientStock(item.product.name))
      else Success(products[id := products[id].(stock := left)])
  }

  /** The products table after the whole loop, or the error that aborted it. */
  function Decrement(products: map<ProductId, Product>, items: seq<CheckoutItem>)
    : (r: Result<map<ProductId, Product>, OrderError>)
    ensures r.Success? ==> r.value.Keys == products.Keys
    ensures r.Failure? ==> r.error != EmptyCart
  {
    if items == [] then Success(products)
    else
      match Decrement(products, items[..|items| - 1])
      case Failure(e) => Failure(e)
      case Success(p) => DecrementOne(p, items[|items| - 1])
  }

  /** Item `k` finds its product and leaves it a non-negative stock, counting every
      earlier item for the same product. */
  predicate StepOk(products: map<ProductId, Product>, items: seq<CheckoutItem>, k: nat)
    requires k < |items|
  {
    var id := items[k].product.id;
    id in products && products[id].stock - Ordered(items[..k + 1], id) >= 0
  }

  /** On success each product's stock drops by the total quantity ordered for it, and
      nothing else in the products table changes. */
  lemma {:induction false} DecrementStock(products: map<ProductId, Product>, items: seq<CheckoutItem>)
    requires Decrement(products, items).Success?
    ensures var after := Decrement(products, items).value;
            && after.Keys == products.Keys
            && forall pid :: pid in products ==>
                 after[pid] == products[pid].(stock := products[pid].stock - Ordered(items, pid))
  {
    if items != [] {
      var init := items[..|items| - 1];
      DecrementStock(products, init);
    }
  }

  lemma StepOkPrefix(products: map<ProductId, Product>, items: seq<CheckoutItem>, n: nat, k: nat)
    requires k < n <= |items|
    ensures StepOk(products, items[..n], k) == StepOk(products, items, k)
  {
    assert items[..n][..k + 1] == items[..k + 1];
  }

  /** The loop gets through every item exactly when every item passes its check. */
  lemma {:induction false} DecrementSucceedsIff(products: map<ProductId, Product>, items: seq<CheckoutItem>)
    ensures Decrement(products, items).Success? <==>
              forall k :: 0 <= k < |items| ==> StepOk(products, items, k)
  {
    if items != [] {
      var n := |items| - 1;
      var init := items[..n];
      DecrementSucceedsIff(products, init);
      forall k | 0 <= k < n ensures StepOk(products, init, k) == StepOk(products, items, k) {
        StepOkPrefix(products, items, n, k);
      }
      assert items[..n + 1] == items;
      if Decrement(products, init).Success? {
        DecrementStock(products, init);
        var id := items[n].product.id;
        assert Ordered(items, id) == Ordered(init, id) + items[n].quantity;
        assert StepOk(products, items, n) <==>
               DecrementOne(Decrement(products, init).value, items[n]).Success?;
      }
    }
  }

  /** The first item that fails its check decides the error: a missing product is a
      storage failure, a shortfall names the item's product. */
  lemma {:induction false} DecrementFailsAtFirst(products: map<ProductId, Product>, items: seq<CheckoutItem>, k: nat)
    requires k < |items| && !StepOk(products, items, k)
    requires forall j :: 0 <= j < k ==> StepOk(products, items, j)
    ensures Decrement(products, items) ==
              Failure(if items[k].product.id in products then InsufficientStock(items[k].product.name)
                      else StorageFailure)
  {
    var n := |items| - 1;
    var init := items[..n];
    forall j | 0 <= j < n ensures StepOk(products, init, j) == StepOk(products, items, j) {
      StepOkPrefix(products, items, n, j);
    }
    if k == n {
      DecrementSucceedsIff(products, init);
      DecrementStock(products, init);
      assert items[..k + 1] == items;
    } else {
      DecrementFailsAtFirst(products, init, k);
    }
  }

  /** Once a prefix of the loop has failed, the whole loop fails with the same error. */
  lemma {:induction false} DecrementFailurePersists(products: map<ProductId, Product>, items: seq<CheckoutItem>, n: nat)
    requires n <= |items|
    requires Decrement(products, items[..n]).Failure?
    ensures Decrement(products, items) == Decrement(products, items[..n])
    decreases |items| - n
  {
    if n < |items| {
      assert items[..n + 1][..n] == items[..n];
      DecrementFailurePersists(products, items, n + 1);
    } else {
      assert items[..n] == items;
    }
  }

  /** Appending a new order together with its lines keeps every order's total equal to
      the sum of its lines. */
  lemma AppendedOrderKeepsTotals(orders: seq<Order>, lines: seq<OrderLine>, o: Order, items: seq<CheckoutItem>)
    requires TotalsMatchLines(orders, lines)
    requires forall i :: 0 <= i < |orders| ==> orders[i].id < o.id
    requires forall i :: 0 <= i < |lines| ==> lines[i].orderId < o.id
    requires o.totalAmount == Total(items)
    ensures TotalsMatchLines(orders + [o], lines + LinesFor(o.id, items))
  {
    var added := LinesFor(o.id, items);
    var all := orders + [o];
    forall i | 0 <= i < |all|
      ensures LineSum(LinesOf(lines + added, all[i].id)) == all[i].totalAmount
    {
      var id := all[i].id;
      FilterAppend(lines, added, IsLineOf(id));
      if i == |orders| {
        FilterKeepsNone(lines, IsLineOf(id));
        FilterKeepsAll(added, IsLineOf(id));
        LinesForTotal(o.id, items);
        assert LinesOf(lines + added, id) == added;
      } else {
        FilterKeepsNone(added, IsLineOf(id));
        assert LinesOf(lines + added, id) == LinesOf(lines, id);
      }
    }
  }

  /** The tables the committed transaction leaves are as consistent as those it began with. */
  lemma CommitKeepsValid(orders: seq<Order>, lines: seq<OrderLine>, cartRows: seq<CartRow>,
                         nextOrderId: OrderId, nextCartRowId: nat,
                         o: Order, items: seq<CheckoutItem>, u: UserId)
    requires TablesValid(orders, lines, cartRows, nextOrderId, nextCartRowId)
    requires o.id == nextOrderId && o.totalAmount == Total(items)
    ensures TablesValid(orders + [o], lines + LinesFor(o.id, items), WithoutUser(cartRows, u),
                        nextOrderId + 1, nextCartRowId)
  {
    WithoutUserKeepsValid(cartRows, u, nextCartRowId);
    AppendedOrderKeepsTotals(orders, lines, o, items);
    var orders', lines' := orders + [o], lines + LinesFor(o.id, items);
    assert Distinct(orders', OrderKey) by {
      forall i, j | 0 <= i < j < |orders'| ensures OrderKey(orders'[i]) != OrderKey(orders'[j]) {
        assert orders'[i] == orders[i];
        if j < |orders| {
          assert orders'[j] == orders[j];
        }
      }
    }
    forall i | 0 <= i < |lines'| ensures lines'[i].orderId < nextOrderId + 1 {
      if i >= |lines| {
        assert lines'[i] == LinesFor(o.id, items)[i - |lines|];
      }
    }
  }

  /** One more item extends the inserted lines by its line and runs one more decrement. */
  lemma LoopStep(products0: map<ProductId, Product>, products: map<ProductId, Product>,
                 orderId: OrderId, items: seq<CheckoutItem>, i: nat)
    requires i < |items| && Decrement(products0, items[..i]) == Success(products)
    ensures LinesFor(orderId, items[..i + 1]) == LinesFor(orderId, items[..i]) + [LineFor(orderId, items[i])]
    ensures Decrement(products0, items[..i + 1]) == DecrementOne(products, items[i])
  {
    assert items[..i + 1][..i] == items[..i] && items[..i + 1][i] == items[i];
  }

  /** The loop of `POST /create`: for each item in list order, insert its order line,
      decrement its product's stock and stop at the first failed check. */
  method InsertLinesAndDecrement(db: Database, orderId: OrderId, items: seq<CheckoutItem>)
    returns (failure: Option<OrderError>)
    modifies db`products, db`orderLines
    ensures match Decrement(old(db.products), items)
            case Failure(e) => failure == Some(e)
            case Success(after) =>
              && failure == None
              && db.products == after
              && db.orderLines == old(db.orderLines) + LinesFor(orderId, items)
  {
    var i := 0;
    while i < |items|
      invariant 0 <= i <= |items|
      invariant db.orderLines == old(db.orderLines) + LinesFor(orderId, items[..i])
      invariant Decrement(old(db.products), items[..i]) == Success(db.products)
    {
      var item, before := items[i], db.products;
      LoopStep(old(db.products), before, orderId, items, i);
      db.orderLines := db.orderLines + [LineFor(orderId, item)];
      if item.product.id !in db.products {
        DecrementFailurePersists(old(db.products), items, i + 1);
        assert Decrement(old(db.products), items) == Failure(StorageFailure);
        return Some(StorageFailure);
      }
      var p := db.products[item.product.id];
      db.products := db.products[item.product.id := p.(stock := p.stock - item.quantity)];
      if db.products[item.product.id].stock < 0 {
        DecrementFailurePersists(old(db.products), items, i + 1);
        assert Decrement(old(db.products), items) == Failure(InsufficientStock(item.product.name));
        return Some(InsufficientStock(item.product.name));
      }
      assert DecrementOne(before, item) == Success(db.products);
      i := i + 1;
    }
    assert items[..|items|] == items;
    failure := None;
  }

  /** `POST /api/orders/create`. Every failure, the empty cart included, is answered 500
      with the error's message after ROLLBACK has restored every table. */
  method PlaceOrder(db: Database, userId: UserId, shippingAddress: string,
                    items: Option<seq<CheckoutItem>>, now: int)
    returns (r: Reply<Notice<OrderSummary>>)
    requires db.Valid()
    modifies db`products, db`orders, db`orderLines, db`cartRows, db`nextOrderId
    ensures db.Valid()
    ensures r.Err? ==> r.status == 500 && unchanged(db)
    ensures items.None? || items.value == [] ==> r == Err(500, "Cart is empty")
    ensures items.Some? && items.value != [] ==>
              match Decrement(old(db.products), items.value)
              case Failure(e) => r == Err(500, ErrorMessage(e))
              case Success(after) =>
                var id := old(db.nextOrderId);
                var total := Total(items.value);
                && r == Ok(201, Notice("Order created successfully",
                                       OrderSummary(id, total, Pending, now, |items.value|)))
                && db.products == after
                && db.orders == old(db.orders) + [Order(id, userId, total, shippingAddress, Pending, now)]
                && db.orderLines == old(db.orderLines) + LinesFor(id, items.value)
                && db.cartRows == WithoutUser(old(db.cartRows), userId)
                && db.nextOrderId == id + 1
  {
    // BEGIN: what ROLLBACK restores.
    var products0, orders0, lines0, cart0, next0 :=
      db.products, db.orders, db.orderLines, db.cartRows, db.nextOrderId;

    if items.None? || |items.value| == 0 {
      return Err(500, ErrorMessage(EmptyCart));
    }
    var list := items.value;
    var total := Total(list);

    // INSERT INTO orders ... 'pending' RETURNING *
    var orderId := db.nextOrderId;
    var order := Order(orderId, userId, total, shippingAddress, Pending, now);
    db.orders := db.orders + [order];
    db.nextOrderId := db.nextOrderId + 1;

    var failure := InsertLinesAndDecrement(db, orderId, list);
    assert failure.Some? <==> Decrement(products0, list).Failure?;
    if failure.Some? {
      // ROLLBACK
      db.products, db.orders, db.orderLines, db.cartRows, db.nextOrderId :=
        products0, orders0, lines0, cart0, next0;
      return Err(500, ErrorMessage(failure.value));
    }

    // DELETE FROM cart_items WHERE user_id = userId, then COMMIT.
    assert db.products == Decrement(products0, list).value;
    db.cartRows := WithoutUser(db.cartRows, userId);
    CommitKeepsValid(orders0, lines0, cart0, next0, db.nextCartRowId, order, list, userId);
    r := Ok(201, Notice("Order created successfully", OrderSummary(orderId, total, Pending, now, |list|)));
  }

  /** One order item as the history routes show it (order_items JOIN products). */
  datatype LineView = LineView(quantity: int, price: int, name: string, description: string, imageUrl: string)

  datatype OrderView = OrderView(order: Order, items: seq<LineView>)

  function ViewOf(line: OrderLine, product: Product): LineView
  {
    LineView(line.quantity, line.price, product.name, product.description, product.imageUrl)
  }

  /** The inner join of order lines with products: a line whose product row is gone is
      not shown. */
  function LineProductId(line: OrderLine): ProductId { line.productId }

  /** The inner join of order lines with products: a line whose product row is gone is
      not shown, and every other line is shown once, in place (`Query.InnerJoinAppend`). */
  function JoinProducts(lines: seq<OrderLine>, products: map<ProductId, Product>): (r: seq<LineView>)
    ensures |r| <= |lines|
    ensures forall line :: line in lines && line.productId in products ==>
              ViewOf(line, products[line.productId]) in r
    ensures forall v :: v in r ==>
              exists line :: line in lines && line.productId in products && v == ViewOf(line, products[line.productId])
  {
    InnerJoin(lines, products, LineProductId, ViewOf)
  }

  /** The join goes line by line: a line is shown once if its product exists and not at
      all otherwise, so two identical lines are shown twice, in place. */
  lemma JoinProductsAppend(a: seq<OrderLine>, b: seq<OrderLine>, products: map<ProductId, Product>)
    ensures JoinProducts(a + b, products) == JoinProducts(a, products) + JoinProducts(b, products)
    ensures |a| == 1 ==>
              JoinProducts(a, products) ==
              if a[0].productId in products then [ViewOf(a[0], products[a[0].productId])] else []
  {
    InnerJoinAppend(a, b, products, LineProductId, ViewOf);
  }

  function ItemsOf(db: Database, id: OrderId): seq<LineView>
    reads db
  {
    JoinProducts(LinesOf(db.orderLines, id), db.products)
  }

  function PlacedBy(u: UserId): Order -> bool { (o: Order) => o.userId == u }

  /** The orders a list of views shows, in list order. */
  function OrdersOf(views: seq<OrderView>): (r: seq<Order>)
    ensures |r| == |views| && forall i :: 0 <= i < |views| ==> r[i] == views[i].order
  {
    if views == [] then [] else [views[0].order] + OrdersOf(views[1..])
  }

  function Views(db: Database, orders: seq<Order>): (r: seq<OrderView>)
    reads db
    ensures |r| == |orders|
    ensures forall i :: 0 <= i < |orders| ==> r[i] == OrderView(orders[i], ItemsOf(db, orders[i].id))
    ensures OrdersOf(r) == orders
  {
    if orders == [] then []
    else
      var rest := Views(db, orders[1..]);
      var r := [OrderView(orders[0], ItemsOf(db, orders[0].id))] + rest;
      assert r[1..] == rest && OrdersOf(r) == [orders[0]] + OrdersOf(rest);
      assert orders == [orders[0]] + orders[1..];
      r
  }

  /** `GET /api/orders`: every order of the caller and no other, newest first, each with
      its items. */
  function ListOrders(db: Database, u: UserId): (r: seq<OrderView>)
    reads db
    ensures forall o :: o in OrdersOf(r) <==> o in db.orders && o.userId == u
    ensures multiset(OrdersOf(r)) == multiset(Filter(db.orders, PlacedBy(u)))
    ensures SortedDesc(OrdersOf(r), OrderCreatedAt)
    ensures forall i :: 0 <= i < |r| ==> r[i].items == ItemsOf(db, r[i].order.id)
  {
    var mine := Filter(db.orders, PlacedBy(u));
    var sorted := SortDesc(mine, OrderCreatedAt);
    SameRows(sorted, mine);
    Views(db, sorted)
  }

  function IsOrder(u: UserId, id: OrderId): Order -> bool { (o: Order) => o.id == id && o.userId == u }

  /** `GET /api/orders/:id`: 404 unless the order exists and belongs to the caller. */
  function GetOrder(db: Database, u: UserId, id: OrderId): (r: Reply<OrderView>)
    reads db
    ensures r.Ok? <==> exists o :: o in db.orders && o.id == id && o.userId == u
    ensures r.Ok? ==> && r.status == 200 && r.value.order in db.orders
                      && r.value.order.id == id && r.value.order.userId == u
                      && r.value.items == ItemsOf(db, id)
    ensures r.Err? ==> r == Err(404, "Order not found")
  {
    var found := Filter(db.orders, IsOrder(u, id));
    if found == [] then Err(404, "Order not found")
    else
      assert found[0] in found;
      Ok(200, OrderView(found[0], ItemsOf(db, id)))
  }
}
