/**
 * The session cart of store/cart_views.py.
 *
 * The cart is a Python dict stored in the session under the key 'cart'. A dict
 * remembers insertion order, so the model keeps the entries as a sequence of
 * lines with distinct product ids; `ToMap` is the dictionary such a sequence
 * stands for. Assigning an existing key keeps its position, a new key goes
 * last, and deleting a key leaves the others in order.
 */
module CartViews {
  import opened Wrappers
  import opened Models

  /** The snapshot taken when a product is first added, and the quantity asked for. */
  datatype CartEntry = CartEntry(name: string, slug: string, price: Cents, quantity: int)

  /** One key of the cart dict (the product id) with its entry. */
  datatype Line = Line(id: ProductId, entry: CartEntry)

  type Cart = seq<Line>

  /** Dict keys are unique. */
  predicate Distinct(c: Cart)
  {
    forall i, j :: 0 <= i < j < |c| ==> c[i].id != c[j].id
  }

  /** The dictionary the lines stand for. */
  function ToMap(c: Cart): map<ProductId, CartEntry>
  {
    if c == [] then map[] else ToMap(c[..|c| - 1])[c[|c| - 1].id := c[|c| - 1].entry]
  }

  /** The keys of the dictionary are the ids of the lines. */
  lemma {:induction false} ToMapKeys(c: Cart)
    ensures forall id :: id in ToMap(c) <==> exists l :: l in c && l.id == id
  {
    if c != [] {
      ToMapKeys(c[..|c| - 1]);
      assert forall l :: l in c <==> l in c[..|c| - 1] || l == c[|c| - 1];
    }
  }

  lemma {:induction false} ToMapAt(c: Cart, i: int)
    requires Distinct(c) && 0 <= i < |c|
    ensures c[i].id in ToMap(c) && ToMap(c)[c[i].id] == c[i].entry
  {
    if i < |c| - 1 {
      ToMapAt(c[..|c| - 1], i);
    }
  }

  /** Removing the last line of a dict leaves a dict none of whose keys is the last one's. */
  lemma DistinctInit(c: Cart)
    requires Distinct(c) && c != []
    ensures Distinct(c[..|c| - 1])
    ensures forall l :: l in c[..|c| - 1] ==> l.id != c[|c| - 1].id
  {
    forall l | l in c[..|c| - 1] ensures l.id != c[|c| - 1].id {
      var k :| 0 <= k < |c| - 1 && c[..|c| - 1][k] == l;
      assert c[k] == l;
    }
  }

  lemma DistinctSnoc(a: Cart, l: Line)
    requires Distinct(a)
    requires forall x :: x in a ==> x.id != l.id
    ensures Distinct(a + [l])
  {
    forall i, j | 0 <= i < j < |a + [l]| ensures (a + [l])[i].id != (a + [l])[j].id {
      if j == |a| {
        assert a[i] in a;
      }
    }
  }

  /** Assignment `cart[id] = e` when the key is already there: the line keeps its place. */
  function Replace(c: Cart, id: ProductId, e: CartEntry): (r: Cart)
    ensures |r| == |c|
    ensures forall i :: 0 <= i < |c| ==> r[i] == if c[i].id == id then Line(id, e) else c[i]
  {
    if c == [] then []
    else Replace(c[..|c| - 1], id, e) + [if c[|c| - 1].id == id then Line(id, e) else c[|c| - 1]]
  }

  lemma {:induction false} ReplaceToMap(c: Cart, id: ProductId, e: CartEntry)
    ensures ToMap(Replace(c, id, e)) == if id in ToMap(c) then ToMap(c)[id := e] else ToMap(c)
  {
    if c != [] {
      var init := c[..|c| - 1];
      var last := c[|c| - 1];
      var r := Replace(c, id, e);
      ReplaceToMap(init, id, e);
      assert r[..|r| - 1] == Replace(init, id, e);
      assert ToMap(c) == ToMap(init)[last.id := last.entry];
      if last.id == id {
        assert ToMap(r) == ToMap(Replace(init, id, e))[id := e];
      } else {
        assert ToMap(r) == ToMap(Replace(init, id, e))[last.id := last.entry];
        assert id in ToMap(c) <==> id in ToMap(init);
      }
    }
  }

  /** Dict assignment `cart[id] = e`: a present key is updated in place, a new key is appended. */
  function Put(c: Cart, id: ProductId, e: CartEntry): (r: Cart)
    ensures ToMap(r) == ToMap(c)[id := e]
    ensures Distinct(c) ==> Distinct(r)
    ensures id !in ToMap(c) ==> r == c + [Line(id, e)]
    ensures id in ToMap(c) ==> |r| == |c| && forall i :: 0 <= i < |c| && c[i].id != id ==> r[i] == c[i]
  {
    if id in ToMap(c) then
      ReplaceToMap(c, id, e);
      Replace(c, id, e)
    else
      var r := c + [Line(id, e)];
      assert r[..|r| - 1] == c;
      assert Distinct(c) ==> Distinct(r) by {
        if Distinct(c) {
          ToMapKeys(c);
          DistinctSnoc(c, Line(id, e));
        }
      }
      r
  }

  /** `del cart[id]`: the key goes, the other lines keep their order. */
  function Delete(c: Cart, id: ProductId): (r: Cart)
    ensures |r| <= |c|
  {
    if c == [] then []
    else Delete(c[..|c| - 1], id) + (if c[|c| - 1].id == id then [] else [c[|c| - 1]])
  }

  /** Splitting a non-empty cart into its first lines and its last line. */
  lemma SplitLast(c: Cart)
    requires c != []
    ensures c == c[..|c| - 1] + [c[|c| - 1]]
    ensures forall l :: l in c <==> l in c[..|c| - 1] || l == c[|c| - 1]
    ensures ToMap(c) == ToMap(c[..|c| - 1])[c[|c| - 1].id := c[|c| - 1].entry]
  {
    var init, last := c[..|c| - 1], c[|c| - 1];
    assert c == init + [last] by {
      assert forall k :: 0 <= k < |init| ==> c[k] == init[k];
    }
  }

  lemma {:induction false} DeleteMembers(c: Cart, id: ProductId)
    ensures forall l :: l in Delete(c, id) <==> l in c && l.id != id
  {
    if c != [] {
      SplitLast(c);
      DeleteMembers(c[..|c| - 1], id);
    }
  }

  lemma {:induction false} DeleteToMap(c: Cart, id: ProductId)
    ensures ToMap(Delete(c, id)) == ToMap(c) - {id}
  {
    if c != [] {
      var init := c[..|c| - 1];
      var last := c[|c| - 1];
      SplitLast(c);
      DeleteToMap(init, id);
      if last.id != id {
        var r := Delete(init, id) + [last];
        assert r[..|r| - 1] == Delete(init, id);
        assert ToMap(r) == ToMap(Delete(init, id))[last.id := last.entry];
        assert ToMap(r) == ToMap(c) - {id} by {
          forall k ensures (k in ToMap(r)) == (k in ToMap(c) - {id}) {}
          forall k | k in ToMap(r) ensures ToMap(r)[k] == (ToMap(c) - {id})[k] {}
        }
      } else {
        assert Delete(c, id) == Delete(init, id);
        assert ToMap(c) - {id} == ToMap(init) - {id};
      }
    }
  }

  lemma {:induction false} DeleteShorter(c: Cart, id: ProductId)
    requires id in ToMap(c)
    ensures |Delete(c, id)| < |c|
  {
    var init := c[..|c| - 1];
    SplitLast(c);
    if c[|c| - 1].id != id {
      DeleteShorter(init, id);
    }
  }

  lemma DeleteDistinct(c: Cart, id: ProductId)
    requires Distinct(c)
    ensures Distinct(Delete(c, id))
  {
    if c != [] {
      var init := c[..|c| - 1];
      var last := c[|c| - 1];
      DistinctInit(c);
      DeleteDistinct(init, id);
      DeleteMembers(init, id);
      if last.id != id {
        DistinctSnoc(Delete(init, id), last);
      }
    }
  }

  /** Deleting a key that occurs exactly once, at a known place, splices it out. */
  lemma {:induction false} DeleteOnly(a: Cart, l: Line, b: Cart)
    requires forall x :: x in a ==> x.id != l.id
    requires forall x :: x in b ==> x.id != l.id
    ensures Delete(a + [l] + b, l.id) == a + b
    decreases |b|
  {
    if b == [] {
      assert a + [l] + b == a + [l];
      assert (a + [l])[..|a|] == a;
      DeleteAbsent(a, l.id);
    } else {
      var c := a + [l] + b;
      assert c[..|c| - 1] == a + [l] + b[..|b| - 1];
      DeleteOnly(a, l, b[..|b| - 1]);
      assert (a + b[..|b| - 1]) + [b[|b| - 1]] == a + b;
    }
  }

  lemma {:induction false} DeleteAbsent(c: Cart, id: ProductId)
    requires forall x :: x in c ==> x.id != id
    ensures Delete(c, id) == c
  {
    if c != [] {
      DeleteAbsent(c[..|c| - 1], id);
      assert c[..|c| - 1] + [c[|c| - 1]] == c;
    }
  }

  /** Every line's product still exists in the catalog. */
  predicate AllPresent(c: Cart, catalog: Catalog)
  {
    forall k :: 0 <= k < |c| ==> c[k].id in catalog
  }

  /** The lines whose product still exists in the catalog, in cart order. */
  function DropMissing(c: Cart, catalog: Catalog): (r: Cart)
    ensures forall k :: 0 <= k < |r| ==> r[k].id in catalog
  {
    if c == [] then []
    else
      var d := DropMissing(c[..|c| - 1], catalog);
      if c[|c| - 1].id in catalog then
        assert c[..|c| - 1] + [c[|c| - 1]] == c;
        d + [c[|c| - 1]]
      else d
  }

  lemma {:induction false} DropMissingMembers(c: Cart, catalog: Catalog)
    ensures forall l :: l in DropMissing(c, catalog) <==> l in c && l.id in catalog
  {
    if c != [] {
      SplitLast(c);
      DropMissingMembers(c[..|c| - 1], catalog);
    }
  }

  lemma {:induction false} DropMissingDistinct(c: Cart, catalog: Catalog)
    requires Distinct(c)
    ensures Distinct(DropMissing(c, catalog))
  {
    if c != [] {
      var init := c[..|c| - 1];
      DistinctInit(c);
      DropMissingDistinct(init, catalog);
      DropMissingMembers(init, catalog);
      if c[|c| - 1].id in catalog {
        DistinctSnoc(DropMissing(init, catalog), c[|c| - 1]);
      }
    }
  }

  /** The sum of the quantities of the lines. */
  function LinesQuantity(c: Cart): (n: int)
    ensures (forall k :: 0 <= k < |c| ==> c[k].entry.quantity >= 0) ==> n >= 0
  {
    if c == [] then 0 else LinesQuantity(c[..|c| - 1]) + c[|c| - 1].entry.quantity
  }

  // ---------------------------------------------------------------------------
  // The session

  /** What the session holds under 'cart': nothing, a dict, or some other value. */
  datatype SessionCart = NoCart | Dict(lines: Cart) | NotADict

  class Session {
    var cart: SessionCart

    ghost predicate Valid()
      reads this
    {
      cart.Dict? ==> Distinct(cart.lines)
    }
  }

  /** get_cart: the stored dict, or an empty cart when the key is absent or holds a non-dict. */
  function GetCart(stored: SessionCart): (c: Cart)
    ensures stored.Dict? ==> c == stored.lines
    ensures !stored.Dict? ==> c == []
    ensures ToMap(c) != map[] ==> stored.Dict?
  {
    if stored.Dict? then stored.lines else []
  }

  /** `int(request.POST.get('quantity', 1))`: the posted quantity, 1 when none was posted. */
  function RequestedQuantity(posted: Option<int>): (q: int)
    ensures posted.None? ==> q == 1
    ensures posted.Some? ==> q == posted.value
  {
    if posted.Some? then posted.value else 1
  }

  // ---------------------------------------------------------------------------
  // add_to_cart

  /** get_object_or_404(Product, slug=slug, available=True). */
  method FindAvailableBySlug(catalog: Catalog, slug: string) returns (found: Option<ProductId>)
    ensures found.Some? ==> found.value in catalog && catalog[found.value].slug == slug
                            && catalog[found.value].available
    ensures found.None? ==> forall id :: id in catalog ==> catalog[id].slug != slug || !catalog[id].available
  {
    var rest := catalog.Keys;
    while rest != {}
      invariant rest <= catalog.Keys
      invariant forall id :: id in catalog && id !in rest ==> catalog[id].slug != slug || !catalog[id].available
    {
      var id :| id in rest;
      if catalog[id].slug == slug && catalog[id].available {
        return Some(id);
      }
      rest := rest - {id};
    }
    return None;
  }

  /** Changing the quantity of a present key; the snapshot and every other entry stay. */
  function SetQuantity(c: Cart, id: ProductId, quantity: int): (r: Cart)
    requires id in ToMap(c)
    ensures ToMap(r).Keys == ToMap(c).Keys
    ensures ToMap(r)[id].quantity == quantity
    ensures ToMap(r)[id].name == ToMap(c)[id].name && ToMap(r)[id].slug == ToMap(c)[id].slug
            && ToMap(r)[id].price == ToMap(c)[id].price
    ensures forall k :: k in ToMap(c) && k != id ==> ToMap(r)[k] == ToMap(c)[k]
    ensures |r| == |c| && (Distinct(c) ==> Distinct(r))
  {
    Put(c, id, ToMap(c)[id].(quantity := quantity))
  }

  /** The cart after add_to_cart accepted product `id` (found as `p`) with the posted quantity. */
  function AddLine(c: Cart, id: ProductId, p: Product, quantity: int): (r: Cart)
    requires Distinct(c)
    ensures Distinct(r)
    ensures ToMap(r).Keys == ToMap(c).Keys + {id}
    ensures id in ToMap(c) ==> |r| == |c|
    ensures id in ToMap(c) ==> ToMap(r)[id] == ToMap(c)[id].(quantity := ToMap(c)[id].quantity + quantity)
    ensures id !in ToMap(c) ==> r == c + [Line(id, CartEntry(p.name, p.slug, p.price, quantity))]
    ensures id !in ToMap(c) ==> ToMap(r)[id] == CartEntry(p.name, p.slug, p.price, quantity)
    ensures forall k :: k in ToMap(c) && k != id ==> ToMap(r)[k] == ToMap(c)[k]
  {
    if id in ToMap(c) then SetQuantity(c, id, ToMap(c)[id].quantity + quantity)
    else Put(c, id, CartEntry(p.name, p.slug, p.price, quantity))
  }

  datatype AddOutcome = ProductNotFound | AddedNew(id: ProductId) | QuantityIncreased(id: ProductId)

  /** add_to_cart: look the product up by slug among available products and add it. */
  method AddToCart(session: Session, catalog: Catalog, slug: string, posted: Option<int>)
    returns (outcome: AddOutcome)
    requires session.Valid()
    modifies session
    ensures session.Valid()
    ensures outcome == ProductNotFound <==>
              forall id :: id in catalog ==> catalog[id].slug != slug || !catalog[id].available
    ensures outcome == ProductNotFound ==> session.cart == old(session.cart)
    ensures !outcome.ProductNotFound? ==>
              && outcome.id in catalog && catalog[outcome.id].slug == slug && catalog[outcome.id].available
              && (outcome.QuantityIncreased? <==> outcome.id in ToMap(GetCart(old(session.cart))))
              && session.cart == Dict(AddLine(GetCart(old(session.cart)), outcome.id, catalog[outcome.id],
                                              RequestedQuantity(posted)))
  {
    var found := FindAvailableBySlug(catalog, slug);
    if found.None? {
      return ProductNotFound;
    }
    var id := found.value;
    var cart := GetCart(session.cart);
    if id in ToMap(cart) {
      outcome := QuantityIncreased(id);
    } else {
      outcome := AddedNew(id);
    }
    cart := AddLine(cart, id, catalog[id], RequestedQuantity(posted));
    session.cart := Dict(cart);
  }

  // ---------------------------------------------------------------------------
  // update_cart, remove_from_cart, clear_cart

  datatype UpdateOutcome = NotPosted | NotInCart | QuantitySet | LineRemoved
                         | OnlyAvailable(stock: int) | UpdateProductMissing

  /** update_cart: set a line's quantity against live stock, or remove it for a quantity <= 0. */
  method UpdateCart(session: Session, catalog: Catalog, isPost: bool, id: ProductId, posted: Option<int>)
    returns (outcome: UpdateOutcome)
    requires session.Valid()
    modifies session
    ensures session.Valid()
    ensures !isPost ==> outcome == NotPosted && session.cart == old(session.cart)
    ensures isPost ==>
      var c := GetCart(old(session.cart));
      var q := RequestedQuantity(posted);
      && (id !in ToMap(c) ==> outcome == NotInCart && session.cart == old(session.cart))
      && (id in ToMap(c) && q <= 0 ==> outcome == LineRemoved && session.cart == Dict(Delete(c, id)))
      && (id in ToMap(c) && q > 0 && id !in catalog ==>
            outcome == UpdateProductMissing && session.cart == old(session.cart))
      && (id in ToMap(c) && q > 0 && id in catalog && q <= catalog[id].stock ==>
            outcome == QuantitySet && session.cart == Dict(SetQuantity(c, id, q)))
      && (id in ToMap(c) && q > 0 && id in catalog && q > catalog[id].stock ==>
            outcome == OnlyAvailable(catalog[id].stock) && session.cart == old(session.cart))
  {
    if !isPost {
      return NotPosted;
    }
    var cart := GetCart(session.cart);
    if id !in ToMap(cart) {
      return NotInCart;
    }
    var q := RequestedQuantity(posted);
    if q > 0 {
      if id in catalog {
        if q <= catalog[id].stock {
          cart := SetQuantity(cart, id, q);
          outcome := QuantitySet;
        } else {
          outcome := OnlyAvailable(catalog[id].stock);
        }
      } else {
        outcome := UpdateProductMissing;
      }
    } else {
      DeleteDistinct(cart, id);
      cart := Delete(cart, id);
      outcome := LineRemoved;
    }
    session.cart := Dict(cart);
  }

  /** remove_from_cart: delete the key if present, otherwise leave the session alone. */
  method RemoveFromCart(session: Session, id: ProductId) returns (removed: bool)
    requires session.Valid()
    modifies session
    ensures session.Valid()
    ensures removed <==> id in ToMap(GetCart(old(session.cart)))
    ensures removed ==> session.cart == Dict(Delete(GetCart(old(session.cart)), id))
    ensures !removed ==> session.cart == old(session.cart)
  {
    var cart := GetCart(session.cart);
    removed := id in ToMap(cart);
    if removed {
      DeleteDistinct(cart, id);
      session.cart := Dict(Delete(cart, id));
    }
  }

  /** clear_cart: drop the 'cart' key from the session if it is there. */
  method ClearCart(session: Session) returns (cleared: bool)
    modifies session
    ensures session.Valid()
    ensures cleared <==> !old(session.cart).NoCart?
    ensures session.cart == NoCart && GetCart(session.cart) == []
  {
    cleared := !session.cart.NoCart?;
    if cleared {
      session.cart := NoCart;
    }
  }

  // ---------------------------------------------------------------------------
  // The cart page

  /** One row of the cart page: the cart's snapshot, its line total and the live product state. */
  datatype CartItem = CartItem(id: ProductId, entry: CartEntry, itemTotal: Cents, available: bool, stock: int)

  datatype CartPage = CartPage(items: seq<CartItem>, totalPrice: Cents, cartCount: int, shippingNeeded: Cents)

  /** `Decimal(item['price']) * item['quantity']`. */
  function LineTotal(e: CartEntry): Cents
  {
    e.price * e.quantity
  }

  function Listed(l: Line, catalog: Catalog): CartItem
    requires l.id in catalog
  {
    CartItem(l.id, l.entry, LineTotal(l.entry), catalog[l.id].available, catalog[l.id].stock)
  }

  /** The rows the cart page lists for c: one per purchasable line, in cart order. */
  function PageRows(c: Cart, catalog: Catalog): (items: seq<CartItem>)
    ensures |items| <= |c|
  {
    if c == [] then []
    else
      var last := c[|c| - 1];
      PageRows(c[..|c| - 1], catalog) + (if Purchasable(catalog, last.id) then [Listed(last, catalog)] else [])
  }

  /** Each row is a purchasable line of the cart, and each purchasable line has its row. */
  lemma {:induction false} PageRowsMembers(c: Cart, catalog: Catalog)
    ensures forall item :: item in PageRows(c, catalog) ==>
              && Line(item.id, item.entry) in c && Purchasable(catalog, item.id)
              && item == Listed(Line(item.id, item.entry), catalog)
    ensures forall l :: l in c && Purchasable(catalog, l.id) ==> Listed(l, catalog) in PageRows(c, catalog)
  {
    if c != [] {
      SplitLast(c);
      PageRowsMembers(c[..|c| - 1], catalog);
    }
  }

  /** The sum of the rows' item totals. */
  function ItemTotals(items: seq<CartItem>): Cents
  {
    if items == [] then 0 else ItemTotals(items[..|items| - 1]) + items[|items| - 1].itemTotal
  }

  /** The sum of the rows' quantities. */
  function ItemQuantities(items: seq<CartItem>): int
  {
    if items == [] then 0 else ItemQuantities(items[..|items| - 1]) + items[|items| - 1].entry.quantity
  }

  /** max(0, 50.00 - total): how much more buys free shipping. */
  function ShippingNeeded(total: Cents): (r: Cents)
    ensures r >= 0
    ensures r == 0 <==> total >= FreeShippingThreshold
    ensures r > 0 ==> total + r == FreeShippingThreshold
  {
    if FreeShippingThreshold - total > 0 then FreeShippingThreshold - total else 0
  }

  /** What the cart page shows for a cart. */
  function CartPageOf(c: Cart, catalog: Catalog): (page: CartPage)
    ensures forall item :: item in page.items ==>
              && Line(item.id, item.entry) in c && Purchasable(catalog, item.id)
              && item.itemTotal == LineTotal(item.entry)
              && item.stock == catalog[item.id].stock && item.available
    ensures forall l :: l in c && Purchasable(catalog, l.id) ==> Listed(l, catalog) in page.items
    ensures page.totalPrice == ItemTotals(page.items)
    ensures page.cartCount == ItemQuantities(page.items)
    ensures page.shippingNeeded == ShippingNeeded(page.totalPrice)
  {
    var items := PageRows(c, catalog);
    PageRowsMembers(c, catalog);
    CartPage(items, ItemTotals(items), ItemQuantities(items), ShippingNeeded(ItemTotals(items)))
  }

  /** In a dict, the key at position i occurs nowhere before or after it. */
  lemma DistinctAround(c: Cart, i: nat)
    requires Distinct(c) && i < |c|
    ensures forall x :: x in c[..i] ==> x.id != c[i].id
    ensures forall x :: x in c[i + 1..] ==> x.id != c[i].id
  {
    forall x | x in c[..i] ensures x.id != c[i].id {
      var k :| 0 <= k < i && c[..i][k] == x;
    }
    forall x | x in c[i + 1..] ensures x.id != c[i].id {
      var k :| 0 <= k < |c| - i - 1 && c[i + 1..][k] == x;
      assert c[i + 1 + k] == x;
    }
  }

  /** One more line walked by the cart view: deleting a line whose product is gone. */
  lemma DropStep(c: Cart, i: nat, catalog: Catalog)
    requires Distinct(c) && i < |c|
    ensures DropMissing(c[..i + 1], catalog) ==
              DropMissing(c[..i], catalog) + (if c[i].id in catalog then [c[i]] else [])
    ensures c[i].id in catalog ==>
              DropMissing(c[..i], catalog) + c[i..] == DropMissing(c[..i + 1], catalog) + c[i + 1..]
    ensures c[i].id !in catalog ==>
              Delete(DropMissing(c[..i], catalog) + c[i..], c[i].id) == DropMissing(c[..i + 1], catalog) + c[i + 1..]
  {
    assert c[..i + 1][..i] == c[..i];
    assert c[..i + 1][i] == c[i];
    var l := c[i];
    assert c[i..] == [l] + c[i + 1..];
    if l.id !in catalog {
      var d := DropMissing(c[..i], catalog);
      DistinctAround(c, i);
      DropMissingMembers(c[..i], catalog);
      DeleteOnly(d, l, c[i + 1..]);
      assert c[i..] == [l] + c[i + 1..];
      assert d + [l] + c[i + 1..] == d + c[i..];
    }
  }

  /**
   * What the cart page's loop has gathered after some of the lines: the rows
   * it has listed, their running total, and whether it has deleted anything.
   */
  datatype Walk = Walk(items: seq<CartItem>, total: Cents, deleted: bool)

  /** The cart page's loop body on one line, apart from its effect on the dict. */
  function WalkLine(w: Walk, l: Line, catalog: Catalog): Walk
  {
    if l.id !in catalog then Walk(w.items, w.total, true)
    else if Purchasable(catalog, l.id) then
      Walk(w.items + [Listed(l, catalog)], w.total + LineTotal(l.entry), w.deleted)
    else w
  }

  /** The cart page's loop over the first i lines of the dict c. */
  function WalkPrefix(c: Cart, i: nat, catalog: Catalog): Walk
    requires i <= |c|
  {
    if i == 0 then Walk([], 0, false) else WalkLine(WalkPrefix(c, i - 1, catalog), c[i - 1], catalog)
  }

  /** The dict c as the cart page's loop leaves it after its first i lines. */
  function LiveAfter(c: Cart, i: nat, catalog: Catalog): Cart
    requires i <= |c|
  {
    if i == 0 then c
    else if c[i - 1].id in catalog then LiveAfter(c, i - 1, catalog)
    else Delete(LiveAfter(c, i - 1, catalog), c[i - 1].id)
  }

  /** After i lines the loop has listed and totalled exactly the purchasable lines among them. */
  lemma {:induction false} WalkListsRows(c: Cart, i: nat, catalog: Catalog)
    requires i <= |c|
    ensures WalkPrefix(c, i, catalog).items == PageRows(c[..i], catalog)
    ensures WalkPrefix(c, i, catalog).total == ItemTotals(WalkPrefix(c, i, catalog).items)
  {
    if i > 0 {
      var w := WalkPrefix(c, i - 1, catalog);
      WalkListsRows(c, i - 1, catalog);
      assert c[..i][..i - 1] == c[..i - 1];
      if Purchasable(catalog, c[i - 1].id) {
        var items := w.items + [Listed(c[i - 1], catalog)];
        assert items[..|items| - 1] == w.items;
      }
    }
  }

  /** After i lines the loop has deleted from the dict exactly the lines among them whose product is gone. */
  lemma {:induction false} WalkDropsMissing(c: Cart, i: nat, catalog: Catalog)
    requires Distinct(c) && i <= |c|
    ensures LiveAfter(c, i, catalog) == DropMissing(c[..i], catalog) + c[i..]
  {
    if i > 0 {
      WalkDropsMissing(c, i - 1, catalog);
      DropStep(c, i - 1, catalog);
    }
  }

  /** The loop notes a deletion exactly when one of the lines walked has lost its product. */
  lemma {:induction false} WalkNotesDeletion(c: Cart, i: nat, catalog: Catalog)
    requires i <= |c|
    ensures WalkPrefix(c, i, catalog).deleted <==> !AllPresent(c[..i], catalog)
  {
    if i > 0 {
      WalkNotesDeletion(c, i - 1, catalog);
      assert forall k :: 0 <= k < i - 1 ==> c[..i][k] == c[..i - 1][k];
      assert c[..i][i - 1] == c[i - 1];
    }
  }

  /**
   * cart, with its one fault corrected: the loop walks a copy of the dict's
   * items, so deleting an entry whose product is gone no longer breaks it.
   * Only entries whose product no longer exists are dropped from the session;
   * unavailable or sold-out products are hidden but kept.
   */
  method ViewCart(session: Session, catalog: Catalog) returns (page: CartPage)
    requires session.Valid()
    modifies session
    ensures session.Valid()
    ensures page == CartPageOf(GetCart(old(session.cart)), catalog)
    ensures var c := GetCart(old(session.cart));
            session.cart == if AllPresent(c, catalog) then old(session.cart)
                            else Dict(DropMissing(c, catalog))
  {
    var c := GetCart(session.cart);
    var live := c;
    var items: seq<CartItem> := [];
    var total: Cents := 0;
    var deleted := false;
    for i := 0 to |c|
      invariant Walk(items, total, deleted) == WalkPrefix(c, i, catalog)
      invariant live == LiveAfter(c, i, catalog)
    {
      var l := c[i];
      if l.id in catalog {
        var p := catalog[l.id];
        if p.available && p.stock > 0 {
          var itemTotal := LineTotal(l.entry);
          total := total + itemTotal;
          items := items + [CartItem(l.id, l.entry, itemTotal, p.available, p.stock)];
        }
      } else {
        live := Delete(live, l.id);
        deleted := true;
      }
    }
    assert Distinct(c);
    WalkListsRows(c, |c|, catalog);
    WalkDropsMissing(c, |c|, catalog);
    WalkNotesDeletion(c, |c|, catalog);
    assert c[..|c|] == c;
    if deleted {
      DropMissingDistinct(c, catalog);
      session.cart := Dict(live);
    }
    page := CartPage(items, total, ItemQuantities(items), ShippingNeeded(total));
  }

  // ---------------------------------------------------------------------------
  // The cart page as the source has it

  datatype ViewResult = Rendered(page: CartPage) | ServerError

  /**
   * `for product_id, item in cart.items()` with `del cart[product_id]` in its
   * body, step by step: CPython's dict iterator compares the dict's size with
   * the size it started from each time it is asked for the next item (the
   * final StopIteration included) and raises RuntimeError when they differ.
   * `live` is the dict as the body has left it; the result says whether the
   * loop ends normally.
   */
  function IterationFinishes(c: Cart, i: nat, live: Cart, catalog: Catalog): (finishes: bool)
    requires i <= |c|
    ensures finishes ==> |live| == |c|
    decreases |c| - i
  {
    if |live| != |c| then false
    else if i == |c| then true
    else IterationFinishes(c, i + 1, if c[i].id in catalog then live else Delete(live, c[i].id), catalog)
  }

  /**
   * The cart view as written: a RuntimeError becomes a 500 response, and
   * Django's session middleware does not save the session of a 5xx response,
   * so the deletion the loop made is never stored.
   */
  function ViewCartAsWritten(stored: SessionCart, catalog: Catalog): (r: (ViewResult, SessionCart))
    ensures r.1 == stored
    ensures r.0.Rendered? ==> r.0.page == CartPageOf(GetCart(stored), catalog)
  {
    var c := GetCart(stored);
    if IterationFinishes(c, 0, c, catalog) then (Rendered(CartPageOf(c, catalog)), stored)
    else (ServerError, stored)
  }

  lemma {:induction false} IterationFinishesExactly(c: Cart, i: nat, catalog: Catalog)
    requires i <= |c|
    ensures IterationFinishes(c, i, c, catalog) <==> forall j :: i <= j < |c| ==> c[j].id in catalog
    decreases |c| - i
  {
    if i < |c| {
      if c[i].id in catalog {
        IterationFinishesExactly(c, i + 1, catalog);
      } else {
        ToMapKeys(c);
        assert c[i] in c;
        DeleteShorter(c, c[i].id);
        assert !IterationFinishes(c, i + 1, Delete(c, c[i].id), catalog);
      }
    }
  }

  /**
   * A cart holding any product that has since been deleted from the catalog
   * makes the cart page fail, and the session keeps the stale entry, so every
   * later visit fails the same way.
   */
  lemma StaleEntryBreaksCartView(stored: SessionCart, catalog: Catalog)
    ensures ViewCartAsWritten(stored, catalog).1 == stored
    ensures ViewCartAsWritten(stored, catalog).0 == ServerError <==>
              exists l :: l in GetCart(stored) && l.id !in catalog
    ensures ViewCartAsWritten(stored, catalog).0.Rendered? ==>
              ViewCartAsWritten(stored, catalog).0.page == CartPageOf(GetCart(stored), catalog)
  {
    var c := GetCart(stored);
    IterationFinishesExactly(c, 0, catalog);
    if exists l :: l in c && l.id !in catalog {
      var l :| l in c && l.id !in catalog;
      var j :| 0 <= j < |c| && c[j] == l;
    }
  }

  /** After the corrected view, no entry of the stored cart refers to a deleted product. */
  lemma {:induction false} ViewCartDropsEveryStaleEntry(c: Cart, catalog: Catalog)
    ensures forall l :: l in DropMissing(c, catalog) ==> l.id in catalog
    ensures forall l :: l in DropMissing(c, catalog) ==> l in c
    ensures forall id :: id in ToMap(DropMissing(c, catalog)) <==> id in ToMap(c) && id in catalog
  {
    var d := DropMissing(c, catalog);
    DropMissingMembers(c, catalog);
    ToMapKeys(c);
    ToMapKeys(d);
    forall id ensures id in ToMap(d) <==> id in ToMap(c) && id in catalog {
      if id in ToMap(c) && id in catalog {
        var l :| l in c && l.id == id;
        assert l in d;
      }
      if id in ToMap(d) {
        var l :| l in d && l.id == id;
        assert l in c;
      }
    }
  }

  /** No line is dropped exactly when every product is still there. */
  lemma {:induction false} AllPresentDropsNothing(c: Cart, catalog: Catalog)
    ensures |DropMissing(c, catalog)| <= |c|
    ensures AllPresent(c, catalog) <==> DropMissing(c, catalog) == c
  {
    if c != [] {
      var init := c[..|c| - 1];
      AllPresentDropsNothing(init, catalog);
      assert forall k :: 0 <= k < |init| ==> init[k] == c[k];
      if c[|c| - 1].id in catalog {
        assert c == init + [c[|c| - 1]];
        if DropMissing(c, catalog) == c {
          assert DropMissing(init, catalog) == (DropMissing(init, catalog) + [c[|c| - 1]])[..|init|];
        }
      }
    }
  }
}
