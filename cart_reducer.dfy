/** The browser-side cart (client/src/context/CartContext.jsx): a list of
    `{ product, quantity }` entries that every operation replaces with a new list built
    by `find`, `map`, `filter` or spread; the count and the total are folds over it. */
module CartReducer {
  import opened Query

  /** The product object the client keeps in an entry (price in cents). */
  datatype CatalogProduct = CatalogProduct(id: int, name: string, price: int)

  datatype CartEntry = CartEntry(product: CatalogProduct, quantity: int)

  function EntryId(e: CartEntry): int { e.product.id }
  function Quantity(e: CartEntry): int { e.quantity }
  function UnitPrice(e: CartEntry): int { e.product.price }
  function Subtotal(e: CartEntry): int { e.product.price * e.quantity }

  function HasId(id: int): CartEntry -> bool { (e: CartEntry) => e.product.id == id }
  function LacksId(id: int): CartEntry -> bool { (e: CartEntry) => e.product.id != id }

  predicate InCart(cart: seq<CartEntry>, id: int)
  {
    exists i :: 0 <= i < |cart| && cart[i].product.id == id
  }

  /** `cart.find(item => item.product.id === id)`: the first entry with that id. */
  function Find(cart: seq<CartEntry>, id: int): (r: Option<CartEntry>)
    ensures r.Some? <==> InCart(cart, id)
    ensures r.Some? ==> r.value in cart && r.value.product.id == id
  {
    if cart == [] then None
    else if cart[0].product.id == id then Some(cart[0])
    else
      var r := Find(cart[1..], id);
      assert InCart(cart, id) ==> InCart(cart[1..], id) by {
        if InCart(cart, id) {
          var i :| 0 <= i < |cart| && cart[i].product.id == id;
          assert cart[1..][i - 1] == cart[i];
        }
      }
      assert InCart(cart[1..], id) ==> InCart(cart, id) by {
        if InCart(cart[1..], id) {
          var i :| 0 <= i < |cart[1..]| && cart[1..][i].product.id == id;
          assert cart[i + 1] == cart[1..][i];
        }
      }
      r
  }

  /** The `map` of addToCart: every entry with the id gets one more unit. */
  function Bumped(cart: seq<CartEntry>, id: int): (r: seq<CartEntry>)
    ensures |r| == |cart|
    ensures forall i :: 0 <= i < |cart| ==>
              r[i].product == cart[i].product &&
              r[i].quantity == cart[i].quantity + (if cart[i].product.id == id then 1 else 0)
  {
    if cart == [] then []
    else
      var e := cart[0];
      [if e.product.id == id then e.(quantity := e.quantity + 1) else e] + Bumped(cart[1..], id)
  }

  /** The `map` of updateQuantity: every entry with the id gets quantity `q`. */
  function WithQuantity(cart: seq<CartEntry>, id: int, q: int): (r: seq<CartEntry>)
    ensures |r| == |cart|
    ensures forall i :: 0 <= i < |cart| ==>
              r[i].product == cart[i].product &&
              r[i].quantity == if cart[i].product.id == id then q else cart[i].quantity
  {
    if cart == [] then []
    else
      var e := cart[0];
      [if e.product.id == id then e.(quantity := q) else e] + WithQuantity(cart[1..], id, q)
  }

  /** addToCart: a product already in the cart gets one more unit in place; a new one is
      appended with quantity 1. Either way the product is in the cart afterwards. */
  function AddToCart(cart: seq<CartEntry>, product: CatalogProduct): (r: seq<CartEntry>)
    ensures InCart(r, product.id)
    ensures !InCart(cart, product.id) ==> r == cart + [CartEntry(product, 1)]
    ensures InCart(cart, product.id) ==>
              && |r| == |cart|
              && forall i :: 0 <= i < |cart| ==>
                   r[i].product == cart[i].product &&
                   r[i].quantity == cart[i].quantity + (if cart[i].product.id == product.id then 1 else 0)
  {
    if Find(cart, product.id).Some? then
      var r := Bumped(cart, product.id);
      assert InCart(r, product.id) by {
        var i :| 0 <= i < |cart| && cart[i].product.id == product.id;
        assert r[i].product.id == product.id;
      }
      r
    else
      var r := cart + [CartEntry(product, 1)];
      assert r[|cart|].product.id == product.id;
      r
  }

  /** removeFromCart: exactly the entries with the id are dropped. */
  function RemoveFromCart(cart: seq<CartEntry>, id: int): (r: seq<CartEntry>)
    ensures !InCart(r, id)
    ensures forall e :: e in r <==> e in cart && e.product.id != id
  {
    var r := Filter(cart, LacksId(id));
    assert !InCart(r, id) by {
      forall i | 0 <= i < |r| ensures r[i].product.id != id {
        assert r[i] in r;
      }
    }
    r
  }

  /** updateQuantity: a quantity of 0 or less removes the product; a positive one
      replaces the quantity of the product's entry and touches nothing else. */
  function UpdateQuantity(cart: seq<CartEntry>, id: int, q: int): (r: seq<CartEntry>)
    ensures q <= 0 ==> r == RemoveFromCart(cart, id)
    ensures q > 0 ==>
              && |r| == |cart|
              && forall i :: 0 <= i < |cart| ==>
                   r[i].product == cart[i].product &&
                   r[i].quantity == if cart[i].product.id == id then q else cart[i].quantity
    ensures q > 0 && !InCart(cart, id) ==> r == cart
  {
    if q <= 0 then RemoveFromCart(cart, id)
    else
      var r := WithQuantity(cart, id, q);
      assert !InCart(cart, id) ==> r == cart by {
        if !InCart(cart, id) {
          assert forall i :: 0 <= i < |cart| ==> r[i] == cart[i];
        }
      }
      r
  }

  /** clearCart */
  function ClearCart(): (r: seq<CartEntry>)
    ensures r == [] && CartCount(r) == 0 && CartTotal(r) == 0
  {
    []
  }

  /** getCartCount, `reduce((total, item) => total + item.quantity, 0)`: the number of
      units, not of entries. */
  function CartCount(cart: seq<CartEntry>): (r: int)
    ensures r == Sum(cart, Quantity)
  {
    ReduceIsSum(cart, Quantity, 0);
    Reduce(cart, Quantity, 0)
  }

  /** getCartTotal, `reduce((total, item) => total + price * quantity, 0)`, in cents. */
  function CartTotal(cart: seq<CartEntry>): (r: int)
    ensures r == Sum(cart, Subtotal)
  {
    ReduceIsSum(cart, Subtotal, 0);
    Reduce(cart, Subtotal, 0)
  }

  /** Adding, removing and updating keep the product ids of the cart pairwise distinct. */
  lemma OperationsKeepIdsDistinct(cart: seq<CartEntry>, product: CatalogProduct, id: int, q: int)
    requires Distinct(cart, EntryId)
    ensures Distinct(AddToCart(cart, product), EntryId)
    ensures Distinct(RemoveFromCart(cart, id), EntryId)
    ensures Distinct(UpdateQuantity(cart, id, q), EntryId)
  {
    FilterDistinct(cart, LacksId(id), EntryId);
    var added := AddToCart(cart, product);
    if !InCart(cart, product.id) {
      assert forall i :: 0 <= i < |cart| ==> added[i] == cart[i];
    }
  }

  /** With distinct ids, the entries carrying one id are exactly the one `find` returns. */
  lemma {:induction false} OnlyEntry(cart: seq<CartEntry>, id: int)
    requires Distinct(cart, EntryId)
    ensures Filter(cart, HasId(id)) == match Find(cart, id) case Some(e) => [e] case None => []
  {
    if cart != [] {
      var rest := cart[1..];
      assert Distinct(rest, EntryId) by {
        forall i, j | 0 <= i < j < |rest| ensures EntryId(rest[i]) != EntryId(rest[j]) {
          assert rest[i] == cart[i + 1] && rest[j] == cart[j + 1];
        }
      }
      if cart[0].product.id == id {
        forall e | e in rest ensures !HasId(id)(e) {
          var j :| 0 <= j < |rest| && rest[j] == e;
          assert cart[j + 1] == e;
        }
        FilterKeepsNone(rest, HasId(id));
      } else {
        OnlyEntry(rest, id);
      }
    }
  }

  lemma SumCons<T>(x: T, s: seq<T>, f: T -> int)
    ensures Sum([x] + s, f) == f(x) + Sum(s, f)
  {
    assert ([x] + s)[1..] == s;
  }

  /** Bumping every entry with the id adds, per such entry, one unit and one unit price. */
  lemma BumpedSums(cart: seq<CartEntry>, id: int)
    ensures CartCount(Bumped(cart, id)) == CartCount(cart) + |Filter(cart, HasId(id))|
    ensures CartTotal(Bumped(cart, id)) == CartTotal(cart) + Sum(Filter(cart, HasId(id)), UnitPrice)
  {
    BumpedCount(cart, id);
    BumpedTotal(cart, id);
  }

  lemma {:induction false} BumpedCount(cart: seq<CartEntry>, id: int)
    ensures CartCount(Bumped(cart, id)) == CartCount(cart) + |Filter(cart, HasId(id))|
  {
    if cart != [] {
      var e, rest := cart[0], cart[1..];
      var e' := if e.product.id == id then e.(quantity := e.quantity + 1) else e;
      var head := if e.product.id == id then [e] else [];
      calc {
        CartCount(Bumped(cart, id));
        { assert Bumped(cart, id) == [e'] + Bumped(rest, id); SumCons(e', Bumped(rest, id), Quantity); }
        e'.quantity + CartCount(Bumped(rest, id));
        { BumpedCount(rest, id); }
        e.quantity + |head| + CartCount(rest) + |Filter(rest, HasId(id))|;
        { assert cart == [e] + rest; SumCons(e, rest, Quantity); }
        CartCount(cart) + |head| + |Filter(rest, HasId(id))|;
        { assert cart == [e] + rest; FilterCons(e, rest, HasId(id)); }
        CartCount(cart) + |Filter(cart, HasId(id))|;
      }
    }
  }

  lemma {:induction false} BumpedTotal(cart: seq<CartEntry>, id: int)
    ensures CartTotal(Bumped(cart, id)) == CartTotal(cart) + Sum(Filter(cart, HasId(id)), UnitPrice)
  {
    if cart != [] {
      var e, rest := cart[0], cart[1..];
      var e' := if e.product.id == id then e.(quantity := e.quantity + 1) else e;
      var head := if e.product.id == id then [e] else [];
      var extra := if e.product.id == id then UnitPrice(e) else 0;
      calc {
        CartTotal(Bumped(cart, id));
        { assert Bumped(cart, id) == [e'] + Bumped(rest, id); SumCons(e', Bumped(rest, id), Subtotal); }
        Subtotal(e') + CartTotal(Bumped(rest, id));
        { BumpedTotal(rest, id); BumpSubtotal(e, id); }
        Subtotal(e) + extra + CartTotal(rest) + Sum(Filter(rest, HasId(id)), UnitPrice);
        { assert cart == [e] + rest; SumCons(e, rest, Subtotal); }
        CartTotal(cart) + extra + Sum(Filter(rest, HasId(id)), UnitPrice);
        { assert Sum(head, UnitPrice) == extra; SumAppend(head, Filter(rest, HasId(id)), UnitPrice); }
        CartTotal(cart) + Sum(head + Filter(rest, HasId(id)), UnitPrice);
        { assert cart == [e] + rest; FilterCons(e, rest, HasId(id)); }
        CartTotal(cart) + Sum(Filter(cart, HasId(id)), UnitPrice);
      }
    }
  }

  /** One more unit adds one unit price to an entry's subtotal. */
  lemma BumpSubtotal(e: CartEntry, id: int)
    ensures Subtotal(if e.product.id == id then e.(quantity := e.quantity + 1) else e) ==
              Subtotal(e) + (if e.product.id == id then UnitPrice(e) else 0)
  {
    assert e.product.price * (e.quantity + 1) == e.product.price * e.quantity + e.product.price;
  }

  /** Adding a product raises the count by one, and the total by the price of the entry
      that receives the unit: the price already in the cart when the product is there, the
      new product's price otherwise. */
  lemma AddToCartSums(cart: seq<CartEntry>, product: CatalogProduct)
    requires Distinct(cart, EntryId)
    ensures CartCount(AddToCart(cart, product)) == CartCount(cart) + 1
    ensures CartTotal(AddToCart(cart, product)) == CartTotal(cart) +
              match Find(cart, product.id) case Some(e) => e.product.price case None => product.price
  {
    match Find(cart, product.id)
    case Some(e) =>
      OnlyEntry(cart, product.id);
      BumpedSums(cart, product.id);
      assert Sum([e], UnitPrice) == e.product.price;
    case None =>
      SumAppend(cart, [CartEntry(product, 1)], Quantity);
      SumAppend(cart, [CartEntry(product, 1)], Subtotal);
  }

  /** Removing a product takes its units out of the count and its subtotal out of the
      total; a product not in the cart changes nothing. */
  lemma RemoveFromCartSums(cart: seq<CartEntry>, id: int)
    ensures CartCount(RemoveFromCart(cart, id)) == CartCount(cart) - Sum(Filter(cart, HasId(id)), Quantity)
    ensures CartTotal(RemoveFromCart(cart, id)) == CartTotal(cart) - Sum(Filter(cart, HasId(id)), Subtotal)
    ensures !InCart(cart, id) ==> RemoveFromCart(cart, id) == cart
  {
    SumPartition(cart, HasId(id), LacksId(id), Quantity);
    SumPartition(cart, HasId(id), LacksId(id), Subtotal);
    if !InCart(cart, id) {
      forall e | e in cart ensures LacksId(id)(e) {
        var i :| 0 <= i < |cart| && cart[i] == e;
      }
      FilterKeepsAll(cart, LacksId(id));
    }
  }

  /** Removal keeps the relative order of the entries left: removing from a concatenation
      is removing from each part. */
  lemma RemoveFromCartKeepsOrder(a: seq<CartEntry>, b: seq<CartEntry>, id: int)
    ensures RemoveFromCart(a + b, id) == RemoveFromCart(a, id) + RemoveFromCart(b, id)
  {
    FilterAppend(a, b, LacksId(id));
  }

  /** Setting a positive quantity replaces that product's units in the count. */
  lemma {:induction false} WithQuantityCount(cart: seq<CartEntry>, id: int, q: int)
    requires Distinct(cart, EntryId)
    ensures CartCount(WithQuantity(cart, id, q)) ==
              match Find(cart, id) case Some(e) => CartCount(cart) - e.quantity + q case None => CartCount(cart)
  {
    if cart != [] {
      var e := cart[0];
      var rest := cart[1..];
      assert Distinct(rest, EntryId) by {
        forall i, j | 0 <= i < j < |rest| ensures EntryId(rest[i]) != EntryId(rest[j]) {
          assert rest[i] == cart[i + 1] && rest[j] == cart[j + 1];
        }
      }
      WithQuantityCount(rest, id, q);
      assert cart == [e] + rest;
      SumCons(e, rest, Quantity);
      SumCons(if e.product.id == id then e.(quantity := q) else e, WithQuantity(rest, id, q), Quantity);
      if e.product.id == id {
        assert !InCart(rest, id) by {
          forall i | 0 <= i < |rest| ensures rest[i].product.id != id {
            assert rest[i] == cart[i + 1];
          }
        }
      }
    }
  }

  /** updateQuantity with a positive quantity: the count moves from the old quantity of
      the product to the new one. */
  lemma UpdateQuantityCount(cart: seq<CartEntry>, id: int, q: int)
    requires Distinct(cart, EntryId) && q > 0
    ensures CartCount(UpdateQuantity(cart, id, q)) ==
              match Find(cart, id) case Some(e) => CartCount(cart) - e.quantity + q case None => CartCount(cart)
  {
    WithQuantityCount(cart, id, q);
  }
}
