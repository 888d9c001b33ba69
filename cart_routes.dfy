/** The cart routes of the server (server/cart.js): an upsert-style cart_items table keyed
    by (user, product), read and written one row at a time, plus a per-user clear.

    The table is a sequence of rows whose (user, product) keys are unique; `Lookup` reads
    it as the map from key to row that every route relies on, and the `...Effect` lemmas
    say what each write does to that map. */
module CartRoutes {
  import opened Query
  import opened Tables

  /** `SELECT ... WHERE user_id = u AND product_id = p`: the position of the row. */
  function FindRow(rows: seq<CartRow>, u: UserId, p: ProductId): (r: Option<nat>)
    ensures r.Some? ==> r.value < |rows| && CartKey(rows[r.value]) == (u, p)
    ensures r.None? ==> forall i :: 0 <= i < |rows| ==> CartKey(rows[i]) != (u, p)
  {
    if rows == [] then None
    else if CartKey(rows[0]) == (u, p) then Some(0)
    else
      match FindRow(rows[1..], u, p)
      case Some(k) => Some(k + 1)
      case None => None
  }

  /** The row of key (u, p), if there is one. */
  function Lookup(rows: seq<CartRow>, u: UserId, p: ProductId): Option<CartRow>
  {
    match FindRow(rows, u, p)
    case Some(k) => Some(rows[k])
    case None => None
  }

  /** With unique keys, the row at position `j` is the one its key finds. */
  lemma LookupAt(rows: seq<CartRow>, j: nat)
    requires Distinct(rows, CartKey) && j < |rows|
    ensures FindRow(rows, rows[j].userId, rows[j].productId) == Some(j)
    ensures Lookup(rows, rows[j].userId, rows[j].productId) == Some(rows[j])
  {
    var k := FindRow(rows, rows[j].userId, rows[j].productId).value;
    if k != j {
      assert false;
    }
  }

  /** JavaScript falsiness of a request field: missing, null or 0. */
  predicate Falsy(v: Option<int>)
  {
    v.None? || v.value == 0
  }

  /** The table after `/add`: the quantity of an existing row grows by `q`, otherwise a
      row with quantity `q` is appended. */
  function Upsert(rows: seq<CartRow>, u: UserId, p: ProductId, q: int, id: nat, now: int): (r: seq<CartRow>)
    ensures |r| == |rows| + (if FindRow(rows, u, p).None? then 1 else 0)
    ensures forall i :: 0 <= i < |rows| ==> r[i].(quantity := rows[i].quantity) == rows[i]
    ensures forall i :: 0 <= i < |rows| && CartKey(rows[i]) != (u, p) ==> r[i] == rows[i]
    ensures FindRow(rows, u, p).None? ==> r[|rows|] == CartRow(id, u, p, q, now)
  {
    match FindRow(rows, u, p)
    case Some(k) => rows[k := rows[k].(quantity := rows[k].quantity + q)]
    case None => rows + [CartRow(id, u, p, q, now)]
  }

  /** The table after `DELETE ... RETURNING *` of the row at `k`. */
  function RemoveRow(rows: seq<CartRow>, k: nat): (r: seq<CartRow>)
    requires k < |rows|
    ensures |r| == |rows| - 1
    ensures multiset(r) == multiset(rows) - multiset{rows[k]}
  {
    assert rows == rows[..k] + [rows[k]] + rows[k + 1..];
    rows[..k] + rows[k + 1..]
  }

  /** Replacing one row by a row with the same key changes only that key's row. */
  lemma ReplaceEffect(rows: seq<CartRow>, k: nat, x: CartRow)
    requires Distinct(rows, CartKey) && k < |rows| && CartKey(x) == CartKey(rows[k])
    ensures Distinct(rows[k := x], CartKey)
    ensures forall u, p :: Lookup(rows[k := x], u, p) ==
              if (u, p) == CartKey(x) then Some(x) else Lookup(rows, u, p)
  {
    var rows' := rows[k := x];
    assert Distinct(rows', CartKey) by {
      forall i, j | 0 <= i < j < |rows'| ensures CartKey(rows'[i]) != CartKey(rows'[j]) {
        assert CartKey(rows'[i]) == CartKey(rows[i]) && CartKey(rows'[j]) == CartKey(rows[j]);
      }
    }
    forall u, p ensures Lookup(rows', u, p) == if (u, p) == CartKey(x) then Some(x) else Lookup(rows, u, p) {
      match FindRow(rows', u, p)
      case Some(j) =>
        LookupAt(rows', j);
        if j != k {
          LookupAt(rows, j);
        }
      case None =>
        assert forall i :: 0 <= i < |rows| ==> CartKey(rows[i]) != (u, p) by {
          forall i | 0 <= i < |rows| ensures CartKey(rows[i]) != (u, p) {
            assert CartKey(rows[i]) == CartKey(rows'[i]);
          }
        }
    }
  }

  /** Appending a row whose key is absent adds exactly that key. */
  lemma AppendEffect(rows: seq<CartRow>, x: CartRow)
    requires Distinct(rows, CartKey) && FindRow(rows, x.userId, x.productId).None?
    ensures Distinct(rows + [x], CartKey)
    ensures forall u, p :: Lookup(rows + [x], u, p) ==
              if (u, p) == CartKey(x) then Some(x) else Lookup(rows, u, p)
  {
    var rows' := rows + [x];
    forall u, p ensures Lookup(rows', u, p) == if (u, p) == CartKey(x) then Some(x) else Lookup(rows, u, p) {
      match FindRow(rows', u, p)
      case Some(j) =>
        LookupAt(rows', j);
        if j < |rows| {
          LookupAt(rows, j);
        }
      case None =>
        assert rows'[|rows|] == x;
        assert forall i :: 0 <= i < |rows| ==> rows[i] == rows'[i];
    }
  }

  /** `/add` on well-formed input: the key's row gains `q` units, or appears with `q`
      units, and no other key's row changes; the key stays unique. */
  lemma UpsertEffect(rows: seq<CartRow>, u: UserId, p: ProductId, q: int, id: nat, now: int)
    requires Distinct(rows, CartKey)
    ensures Distinct(Upsert(rows, u, p, q, id, now), CartKey)
    ensures Lookup(Upsert(rows, u, p, q, id, now), u, p) ==
              Some(match Lookup(rows, u, p)
                   case Some(row) => row.(quantity := row.quantity + q)
                   case None => CartRow(id, u, p, q, now))
    ensures forall u', p' :: (u', p') != (u, p) ==>
              Lookup(Upsert(rows, u, p, q, id, now), u', p') == Lookup(rows, u', p')
  {
    var rows' := Upsert(rows, u, p, q, id, now);
    match FindRow(rows, u, p)
    case Some(k) =>
      var x := rows[k].(quantity := rows[k].quantity + q);
      assert rows' == rows[k := x] && CartKey(x) == (u, p);
      ReplaceEffect(rows, k, x);
      forall u', p' | (u', p') != (u, p) ensures Lookup(rows', u', p') == Lookup(rows, u', p') {
        assert Lookup(rows[k := x], u', p') == Lookup(rows, u', p');
      }
    case None =>
      var x := CartRow(id, u, p, q, now);
      assert rows' == rows + [x];
      AppendEffect(rows, x);
      forall u', p' | (u', p') != (u, p) ensures Lookup(rows', u', p') == Lookup(rows, u', p') {
        assert Lookup(rows + [x], u', p') == Lookup(rows, u', p');
      }
  }

  /** `/update`: the key's row takes quantity `q`; nothing else changes. */
  lemma SetQuantityEffect(rows: seq<CartRow>, k: nat, q: int)
    requires Distinct(rows, CartKey) && k < |rows|
    ensures Distinct(rows[k := rows[k].(quantity := q)], CartKey)
    ensures Lookup(rows[k := rows[k].(quantity := q)], rows[k].userId, rows[k].productId) ==
              Some(rows[k].(quantity := q))
    ensures forall u, p :: (u, p) != CartKey(rows[k]) ==>
              Lookup(rows[k := rows[k].(quantity := q)], u, p) == Lookup(rows, u, p)
  {
    ReplaceEffect(rows, k, rows[k].(quantity := q));
  }

  /** Deleting one row never makes two remaining rows share a key. */
  lemma RemoveRowDistinct<K>(rows: seq<CartRow>, k: nat, key: CartRow -> K)
    requires Distinct(rows, key) && k < |rows|
    ensures Distinct(RemoveRow(rows, k), key)
    ensures forall i :: 0 <= i < |RemoveRow(rows, k)| ==>
              RemoveRow(rows, k)[i] == if i < k then rows[i] else rows[i + 1]
  {
    var rows' := RemoveRow(rows, k);
    assert forall i :: 0 <= i < |rows'| ==> rows'[i] == if i < k then rows[i] else rows[i + 1];
    forall i, j | 0 <= i < j < |rows'| ensures key(rows'[i]) != key(rows'[j]) {
      var i', j' := if i < k then i else i + 1, if j < k then j else j + 1;
      assert rows'[i] == rows[i'] && rows'[j] == rows[j'] && i' < j';
    }
  }

  /** `/remove`: the key's row is gone and every other key keeps its row. */
  lemma RemoveRowEffect(rows: seq<CartRow>, k: nat)
    requires Distinct(rows, CartKey) && k < |rows|
    ensures Distinct(RemoveRow(rows, k), CartKey)
    ensures Lookup(RemoveRow(rows, k), rows[k].userId, rows[k].productId) == None
    ensures forall u, p :: (u, p) != CartKey(rows[k]) ==>
              Lookup(RemoveRow(rows, k), u, p) == Lookup(rows, u, p)
  {
    var rows' := RemoveRow(rows, k);
    RemoveRowDistinct(rows, k, CartKey);
    forall u, p ensures Lookup(rows', u, p) == if (u, p) == CartKey(rows[k]) then None else Lookup(rows, u, p) {
      match FindRow(rows', u, p)
      case Some(j) =>
        LookupAt(rows', j);
        var j' := if j < k then j else j + 1;
        LookupAt(rows, j');
        assert j' != k;
      case None =>
        if (u, p) != CartKey(rows[k]) {
          forall i | 0 <= i < |rows| ensures CartKey(rows[i]) != (u, p) {
            if i < k {
              assert rows[i] == rows'[i];
            } else if i > k {
              assert rows[i] == rows'[i - 1];
            }
          }
        }
    }
  }

  /** `/clear` (and the cart step of checkout): the user's rows are all gone and every
      other user's rows are untouched. */
  lemma WithoutUserEffect(rows: seq<CartRow>, u: UserId)
    requires Distinct(rows, CartKey)
    ensures forall p :: Lookup(WithoutUser(rows, u), u, p) == None
    ensures forall u', p :: u' != u ==> Lookup(WithoutUser(rows, u), u', p) == Lookup(rows, u', p)
  {
    var rows' := WithoutUser(rows, u);
    WithoutUserKeepsOthers(rows, u);
    forall u', p ensures Lookup(rows', u', p) == if u' == u then None else Lookup(rows, u', p) {
      match FindRow(rows', u', p)
      case Some(j) =>
        assert rows'[j] in rows';
        var i :| 0 <= i < |rows| && rows[i] == rows'[j];
        LookupAt(rows', j);
        LookupAt(rows, i);
      case None =>
        if u' != u {
          forall i | 0 <= i < |rows| ensures CartKey(rows[i]) != (u', p) {
            assert rows[i] in rows;
          }
        }
    }
  }

  lemma RemoveRowKeepsValid(rows: seq<CartRow>, k: nat, nextId: nat)
    requires CartValid(rows, nextId) && k < |rows|
    ensures CartValid(RemoveRow(rows, k), nextId)
  {
    RemoveRowDistinct(rows, k, CartKey);
    RemoveRowDistinct(rows, k, CartRowId);
  }

  lemma UpsertKeepsValid(rows: seq<CartRow>, u: UserId, p: ProductId, q: int, nextId: nat, now: int)
    requires CartValid(rows, nextId)
    ensures CartValid(Upsert(rows, u, p, q, nextId, now), nextId + 1)
  {
    UpsertEffect(rows, u, p, q, nextId, now);
    var rows' := Upsert(rows, u, p, q, nextId, now);
    match FindRow(rows, u, p)
    case Some(k) =>
      assert forall i :: 0 <= i < |rows| ==> CartRowId(rows'[i]) == CartRowId(rows[i]);
    case None =>
      assert forall i :: 0 <= i < |rows| ==> rows'[i] == rows[i];
  }

  /** `POST /api/cart/add`. */
  method AddItem(db: Database, u: UserId, productId: Option<int>, quantity: Option<int>, now: int)
    returns (r: Reply<CartRow>)
    requires db.Valid()
    modifies db`cartRows, db`nextCartRowId
    ensures db.Valid()
    ensures Falsy(productId) || Falsy(quantity) ==>
              r == Err(400, "Product ID and quantity required") && unchanged(db)
    ensures !Falsy(productId) && !Falsy(quantity) ==>
              var p, existed := productId.value, Lookup(old(db.cartRows), u, productId.value).Some?;
              && db.cartRows == Upsert(old(db.cartRows), u, p, quantity.value, old(db.nextCartRowId), now)
              && db.nextCartRowId == old(db.nextCartRowId) + (if existed then 0 else 1)
              && r.Ok? && r.status == (if existed then 200 else 201)
              && Lookup(db.cartRows, u, p) == Some(r.value)
  {
    if Falsy(productId) || Falsy(quantity) {
      return Err(400, "Product ID and quantity required");
    }
    var p, q := productId.value, quantity.value;
    UpsertKeepsValid(db.cartRows, u, p, q, db.nextCartRowId, now);
    UpsertEffect(db.cartRows, u, p, q, db.nextCartRowId, now);
    var existing := FindRow(db.cartRows, u, p);
    var row;
    if existing.Some? {
      var k := existing.value;
      row := db.cartRows[k].(quantity := db.cartRows[k].quantity + q);
      db.cartRows := db.cartRows[k := row];
      r := Ok(200, row);
    } else {
      row := CartRow(db.nextCartRowId, u, p, q, now);
      db.cartRows := db.cartRows + [row];
      db.nextCartRowId := db.nextCartRowId + 1;
      r := Ok(201, row);
    }
  }

  /** `PUT /api/cart/update/:productId`. */
  method UpdateItem(db: Database, u: UserId, p: ProductId, quantity: int) returns (r: Reply<CartRow>)
    requires db.Valid()
    modifies db`cartRows
    ensures db.Valid()
    ensures r.Err? ==> unchanged(db)
    ensures quantity < 1 ==> r == Err(400, "Quantity must be at least 1")
    ensures quantity >= 1 ==>
              match FindRow(old(db.cartRows), u, p)
              case None => r == Err(404, "Cart item not found")
              case Some(k) =>
                && db.cartRows == old(db.cartRows)[k := old(db.cartRows)[k].(quantity := quantity)]
                && r == Ok(200, db.cartRows[k])
  {
    if quantity < 1 {
      return Err(400, "Quantity must be at least 1");
    }
    var found := FindRow(db.cartRows, u, p);
    if found.None? {
      return Err(404, "Cart item not found");
    }
    var k := found.value;
    var rows := db.cartRows;
    SetQuantityEffect(rows, k, quantity);
    assert forall i :: 0 <= i < |rows| ==> CartRowId(rows[k := rows[k].(quantity := quantity)][i]) == CartRowId(rows[i]);
    db.cartRows := rows[k := rows[k].(quantity := quantity)];
    r := Ok(200, db.cartRows[k]);
  }

  /** `DELETE /api/cart/remove/:productId`. */
  method RemoveItem(db: Database, u: UserId, p: ProductId) returns (r: Reply<Notice<CartRow>>)
    requires db.Valid()
    modifies db`cartRows
    ensures db.Valid()
    ensures match FindRow(old(db.cartRows), u, p)
            case None => r == Err(404, "Cart item not found") && unchanged(db)
            case Some(k) =>
              && db.cartRows == RemoveRow(old(db.cartRows), k)
              && r == Ok(200, Notice("Item removed from cart", old(db.cartRows)[k]))
  {
    var found := FindRow(db.cartRows, u, p);
    if found.None? {
      return Err(404, "Cart item not found");
    }
    var k := found.value;
    var rows := db.cartRows;
    RemoveRowKeepsValid(rows, k, db.nextCartRowId);
    db.cartRows := RemoveRow(rows, k);
    r := Ok(200, Notice("Item removed from cart", rows[k]));
  }

  /** `DELETE /api/cart/clear`. */
  method ClearCart(db: Database, u: UserId) returns (r: Reply<string>)
    requires db.Valid()
    modifies db`cartRows
    ensures db.Valid()
    ensures db.cartRows == WithoutUser(old(db.cartRows), u)
    ensures r == Ok(200, "Cart cleared successfully")
  {
    WithoutUserKeepsValid(db.cartRows, u, db.nextCartRowId);
    db.cartRows := WithoutUser(db.cartRows, u);
    r := Ok(200, "Cart cleared successfully");
  }

  /** A row of `GET /api/cart`: the cart row joined with its product. */
  datatype CartView = CartView(row: CartRow, product: Product)

  function ViewCreatedAt(v: CartView): int { v.row.createdAt }

  function OwnedBy(u: UserId): CartRow -> bool { (row: CartRow) => row.userId == u }

  function RowProductId(row: CartRow): ProductId { row.productId }

  function ViewRow(row: CartRow, product: Product): CartView { CartView(row, product) }

  /** cart_items JOIN products: a row whose product is gone is not shown. */
  function JoinProducts(rows: seq<CartRow>, products: map<ProductId, Product>): (r: seq<CartView>)
    ensures |r| <= |rows|
    ensures forall v :: v in r ==> v.row in rows && v.row.productId in products && v.product == products[v.row.productId]
    ensures forall row :: row in rows && row.productId in products ==> CartView(row, products[row.productId]) in r
  {
    InnerJoin(rows, products, RowProductId, ViewRow)
  }

  /** The join goes row by row: each row with a product is shown once, in place. */
  lemma JoinProductsAppend(a: seq<CartRow>, b: seq<CartRow>, products: map<ProductId, Product>)
    ensures JoinProducts(a + b, products) == JoinProducts(a, products) + JoinProducts(b, products)
    ensures |a| == 1 ==>
              JoinProducts(a, products) ==
              if a[0].productId in products then [CartView(a[0], products[a[0].productId])] else []
  {
    InnerJoinAppend(a, b, products, RowProductId, ViewRow);
  }

  /** `GET /api/cart`: the caller's rows and no other, each with its product, newest first. */
  function ListCart(db: Database, u: UserId): (r: seq<CartView>)
    reads db
    ensures forall v :: v in r ==>
              v.row in db.cartRows && v.row.userId == u &&
              v.row.productId in db.products && v.product == db.products[v.row.productId]
    ensures forall row :: row in db.cartRows && row.userId == u && row.productId in db.products ==>
              CartView(row, db.products[row.productId]) in r
    ensures SortedDesc(r, ViewCreatedAt)
    ensures multiset(r) == multiset(JoinProducts(Filter(db.cartRows, OwnedBy(u)), db.products))
  {
    var joined := JoinProducts(Filter(db.cartRows, OwnedBy(u)), db.products);
    var r := SortDesc(joined, ViewCreatedAt);
    SameRows(r, joined);
    r
  }
}
