/**
 * Checkout, order confirmation and order history of store/checkout_views.py.
 *
 * Checkout turns the purchasable part of the session cart into a pending
 * order. It walks the items one by one: for each it reloads the product,
 * refuses when the stock is below the quantity, records an order item at the
 * price the cart remembered and lowers the stock. Nothing wraps the walk in a
 * database transaction, so a refusal part-way deletes the order but keeps the
 * stock already taken for earlier items.
 */
module CheckoutViews {
  import opened Wrappers
  import opened Models
  import opened CartViews

  // ---------------------------------------------------------------------------
  // get_cart_items

  /** One entry of get_cart_items: the product, the cart's quantity and the cart's price. */
  datatype CheckoutItem = CheckoutItem(product: ProductId, quantity: int, price: Cents)

  function ItemOf(l: Line): CheckoutItem
  {
    CheckoutItem(l.id, l.entry.quantity, l.entry.price)
  }

  /** The items checkout works on: the cart lines whose product is purchasable, in cart order. */
  function CartItems(c: Cart, catalog: Catalog): (items: seq<CheckoutItem>)
    ensures |items| <= |c|
    ensures forall k :: 0 <= k < |items| ==> Purchasable(catalog, items[k].product)
  {
    if c == [] then []
    else
      var last := c[|c| - 1];
      CartItems(c[..|c| - 1], catalog) + (if Purchasable(catalog, last.id) then [ItemOf(last)] else [])
  }

  /** Each item comes from a purchasable cart line, and each purchasable cart line gives an item. */
  lemma {:induction false} CartItemsMembers(c: Cart, catalog: Catalog)
    ensures forall item :: item in CartItems(c, catalog) ==>
              exists l :: l in c && Purchasable(catalog, l.id) && ItemOf(l) == item
    ensures forall l :: l in c && Purchasable(catalog, l.id) ==> ItemOf(l) in CartItems(c, catalog)
  {
    if c != [] {
      SplitLast(c);
      CartItemsMembers(c[..|c| - 1], catalog);
      var last := c[|c| - 1];
      forall item | item in CartItems(c, catalog)
        ensures exists l :: l in c && Purchasable(catalog, l.id) && ItemOf(l) == item
      {
        if item !in CartItems(c[..|c| - 1], catalog) {
          assert ItemOf(last) == item;
        }
      }
    }
  }

  /** No two checkout items name the same product. */
  predicate DistinctProducts(items: seq<CheckoutItem>)
  {
    forall i, j :: 0 <= i < j < |items| ==> items[i].product != items[j].product
  }

  /** The products the items name. */
  function ProductsOf(items: seq<CheckoutItem>): set<ProductId>
  {
    set k | 0 <= k < |items| :: items[k].product
  }

  /** The cart is a dict, so its checkout items name each product at most once. */
  lemma {:induction false} CartItemsDistinct(c: Cart, catalog: Catalog)
    requires Distinct(c)
    ensures DistinctProducts(CartItems(c, catalog))
    ensures ProductsOf(CartItems(c, catalog)) <= ToMap(c).Keys
  {
    if c != [] {
      var init := c[..|c| - 1];
      var last := c[|c| - 1];
      DistinctInit(c);
      CartItemsDistinct(init, catalog);
      ToMapKeys(c);
      ToMapKeys(init);
      var items := CartItems(init, catalog);
      assert ProductsOf(items) <= ToMap(c).Keys by {
        SplitLast(c);
      }
      if Purchasable(catalog, last.id) {
        var all := items + [ItemOf(last)];
        assert last.id !in ToMap(init) by {
          forall l | l in init ensures l.id != last.id {
            var k :| 0 <= k < |init| && init[k] == l;
            assert c[k] == l;
          }
        }
        forall i, j | 0 <= i < j < |all| ensures all[i].product != all[j].product {
          if j == |all| - 1 {
            assert all[i].product in ProductsOf(items);
          }
        }
        assert ProductsOf(all) == ProductsOf(items) + {last.id} by {
          forall id | id in ProductsOf(all) ensures id in ProductsOf(items) + {last.id} {
            var k :| 0 <= k < |all| && all[k].product == id;
            if k < |items| {
              assert items[k].product == id;
            }
          }
          forall id | id in ProductsOf(items) ensures id in ProductsOf(all) {
            var k :| 0 <= k < |items| && items[k].product == id;
            assert all[k].product == id;
          }
          assert all[|all| - 1].product == last.id;
        }
        assert last in c by { SplitLast(c); }
      }
    }
  }

  /** get_cart_items: a loop over the session cart that keeps the purchasable lines. */
  method GetCartItems(session: Session, catalog: Catalog) returns (items: seq<CheckoutItem>)
    ensures items == CartItems(GetCart(session.cart), catalog)
  {
    var c := GetCart(session.cart);
    items := [];
    for i := 0 to |c|
      invariant items == CartItems(c[..i], catalog)
    {
      assert c[..i + 1][..i] == c[..i];
      var l := c[i];
      if l.id in catalog {
        var p := catalog[l.id];
        if p.available && p.stock > 0 {
          items := items + [CheckoutItem(l.id, l.entry.quantity, l.entry.price)];
        }
      }
    }
    assert c[..|c|] == c;
  }

  // ---------------------------------------------------------------------------
  // Totals

  /** Flat shipping below the free-shipping threshold (5.99). */
  const FlatShipping: Cents := 599

  /** `sum(price * quantity)` over the checkout items, at the cart's prices. */
  function ItemsTotal(items: seq<CheckoutItem>): (t: Cents)
    ensures (forall k :: 0 <= k < |items| ==> items[k].price >= 0 && items[k].quantity >= 0) ==> t >= 0
  {
    if items == [] then 0
    else ItemsTotal(items[..|items| - 1]) + items[|items| - 1].price * items[|items| - 1].quantity
  }

  /** Shipping is free from 50.00 up and 5.99 below. */
  function ShippingCost(total: Cents): (r: Cents)
    ensures r == 0 <==> total >= FreeShippingThreshold
    ensures r == 0 || r == FlatShipping
  {
    if total >= FreeShippingThreshold then 0 else FlatShipping
  }

  /** What the customer pays: the items and, below the threshold, flat shipping. */
  function FinalTotal(total: Cents): (r: Cents)
    ensures total <= r <= total + FlatShipping
    ensures r == total <==> total >= FreeShippingThreshold
    ensures total < FreeShippingThreshold ==> r == total + FlatShipping
  {
    total + ShippingCost(total)
  }

  /** The cart page's "spend this much more" hint is zero exactly when checkout charges no shipping. */
  lemma ShippingAgreesWithCartPage(total: Cents)
    ensures ShippingCost(total) == 0 <==> ShippingNeeded(total) == 0
    ensures ShippingCost(total) > 0 ==> total + ShippingNeeded(total) == FreeShippingThreshold
  {
  }

  lemma ItemsTotalSnoc(items: seq<CheckoutItem>, x: CheckoutItem)
    ensures ItemsTotal(items + [x]) == ItemsTotal(items) + x.price * x.quantity
  {
    assert (items + [x])[..|items|] == items;
  }

  lemma CartItemsSnoc(c: Cart, l: Line, catalog: Catalog)
    ensures CartItems(c + [l], catalog) ==
              CartItems(c, catalog) + (if Purchasable(catalog, l.id) then [ItemOf(l)] else [])
  {
    assert (c + [l])[..|c|] == c;
  }

  lemma ItemTotalsSnoc(items: seq<CartItem>, x: CartItem)
    ensures ItemTotals(items + [x]) == ItemTotals(items) + x.itemTotal
  {
    assert (items + [x])[..|items|] == items;
  }

  /** Checkout charges for the same items, at the same prices, as the cart page shows. */
  lemma {:induction false} CheckoutTotalIsCartTotal(c: Cart, catalog: Catalog)
    ensures ItemsTotal(CartItems(c, catalog)) == CartPageOf(c, catalog).totalPrice
  {
    CheckoutTotalIsRowsTotal(c, catalog);
  }

  lemma {:induction false} CheckoutTotalIsRowsTotal(c: Cart, catalog: Catalog)
    ensures ItemsTotal(CartItems(c, catalog)) == ItemTotals(PageRows(c, catalog))
  {
    if c != [] {
      var init, last := c[..|c| - 1], c[|c| - 1];
      CheckoutTotalIsRowsTotal(init, catalog);
      if Purchasable(catalog, last.id) {
        ItemsTotalSnoc(CartItems(init, catalog), ItemOf(last));
        ItemTotalsSnoc(PageRows(init, catalog), Listed(last, catalog));
        assert Listed(last, catalog).itemTotal == ItemOf(last).price * ItemOf(last).quantity;
      } else {
        assert CartItems(c, catalog) == CartItems(init, catalog);
        assert PageRows(c, catalog) == PageRows(init, catalog);
      }
    }
  }

  // ---------------------------------------------------------------------------
  // Placing the items, as the source does it

  /** Why the loop over the items stopped early, and at which item. */
  datatype Stop =
    | OutOfStock(at: nat, name: string, available: int)  // stock below the quantity
    | Vanished(at: nat)                                   // the product row no longer exists

  /** The catalog, the order items recorded so far and, if it stopped, why. */
  datatype Placement = Placement(products: Catalog, placed: seq<OrderItem>, stop: Option<Stop>)

  /** The order item checkout records for an item: the cart's price, not the live one. */
  function Recorded(item: CheckoutItem): OrderItem
  {
    OrderItem(item.product, item.price, item.quantity)
  }

  /** The loop body of checkout on the item at position `at`. */
  function PlaceItem(p: Placement, item: CheckoutItem, at: nat): (r: Placement)
    ensures p.stop.Some? ==> r == p
    ensures r.products.Keys == p.products.Keys
  {
    if p.stop.Some? then p
    else if item.product !in p.products then p.(stop := Some(Vanished(at)))
    else
      var product := p.products[item.product];
      if product.stock < item.quantity then p.(stop := Some(OutOfStock(at, product.name, product.stock)))
      else Placement(p.products[item.product := product.(stock := product.stock - item.quantity)],
                     p.placed + [Recorded(item)], None)
  }

  /**
   * One item walked: a stop leaves the catalog and the order items as they
   * were; otherwise the product was there with enough stock, the item is
   * recorded and exactly its quantity is taken from that product.
   */
  lemma PlaceItemCases(p: Placement, item: CheckoutItem, at: nat)
    requires p.stop.None?
    ensures var r := PlaceItem(p, item, at);
            r.stop.Some? ==> r.products == p.products && r.placed == p.placed && r.stop.value.at == at
    ensures var r := PlaceItem(p, item, at);
            r.stop.None? ==>
              && item.product in p.products && p.products[item.product].stock >= item.quantity
              && r.placed == p.placed + [Recorded(item)]
              && r.products == p.products[item.product := p.products[item.product].(stock := p.products[item.product].stock - item.quantity)]
  {
  }

  /** The loop of checkout over the items, without a transaction around it. */
  function Place(products: Catalog, items: seq<CheckoutItem>): (p: Placement)
    ensures p.products.Keys == products.Keys
    ensures p.stop.Some? ==> p.stop.value.at < |items| && |p.placed| == p.stop.value.at
    ensures p.stop.None? ==> |p.placed| == |items|
  {
    if items == [] then Placement(products, [], None)
    else PlaceItem(Place(products, items[..|items| - 1]), items[|items| - 1], |items| - 1)
  }

  /** Every recorded order item carries the product, the cart's price and the cart's quantity. */
  lemma {:induction false} PlaceRecordsSnapshot(products: Catalog, items: seq<CheckoutItem>)
    ensures var p := Place(products, items);
            forall k :: 0 <= k < |p.placed| ==> p.placed[k] == Recorded(items[k])
  {
    if items != [] {
      var init := items[..|items| - 1];
      PlaceRecordsSnapshot(products, init);
      var q := Place(products, init);
      var p := Place(products, items);
      forall k | 0 <= k < |p.placed| ensures p.placed[k] == Recorded(items[k]) {
        if k < |q.placed| {
          assert p.placed[k] == q.placed[k];
        }
      }
    }
  }

  /** Stock is only lowered after checking it covers the quantity, so it never goes below zero. */
  lemma {:induction false} PlaceKeepsStockNonNegative(products: Catalog, items: seq<CheckoutItem>)
    requires StockNonNegative(products)
    ensures StockNonNegative(Place(products, items).products)
  {
    if items != [] {
      PlaceKeepsStockNonNegative(products, items[..|items| - 1]);
    }
  }

  /** The order item totals add up to the checkout total. */
  lemma {:induction false} PlacedTotal(products: Catalog, items: seq<CheckoutItem>)
    requires Place(products, items).stop.None?
    ensures OrderItemsTotal(Place(products, items).placed) == ItemsTotal(items)
  {
    if items != [] {
      var init, last := items[..|items| - 1], items[|items| - 1];
      var q := Place(products, init);
      PlacedTotal(products, init);
      assert (q.placed + [Recorded(last)])[..|q.placed|] == q.placed;
    }
  }

  /**
   * With each product named once, a complete walk lowers each named product's
   * stock by exactly its quantity, and changes nothing else in the catalog.
   */
  lemma {:induction false} PlaceDecrementsExactly(products: Catalog, items: seq<CheckoutItem>)
    requires DistinctProducts(items)
    requires Place(products, items).stop.None?
    ensures var after := Place(products, items).products;
            forall k :: 0 <= k < |items| ==>
              && items[k].product in products
              && after[items[k].product] == products[items[k].product].(stock := products[items[k].product].stock - items[k].quantity)
    ensures var after := Place(products, items).products;
            forall id :: id in products && id !in ProductsOf(items) ==> after[id] == products[id]
  {
    if items != [] {
      var init, last := items[..|items| - 1], items[|items| - 1];
      assert DistinctProducts(init);
      PlaceDecrementsExactly(products, init);
      var before := Place(products, init).products;
      var after := Place(products, items).products;
      LastNotEarlier(items);
      assert before[last.product] == products[last.product];
      forall id | id in products && id !in ProductsOf(items) ensures after[id] == products[id] {
        assert items[|items| - 1].product in ProductsOf(items);
        forall k | 0 <= k < |init| ensures init[k].product != id {
          assert init[k] == items[k];
        }
      }
      forall k | 0 <= k < |items|
        ensures && items[k].product in products
                && after[items[k].product] == products[items[k].product].(stock := products[items[k].product].stock - items[k].quantity)
      {
        if k < |init| {
          assert items[k] == init[k];
          assert items[k].product != last.product;
        }
      }
    }
  }

  /** In items naming each product once, the last item's product is not named earlier. */
  lemma LastNotEarlier(items: seq<CheckoutItem>)
    requires DistinctProducts(items) && items != []
    ensures DistinctProducts(items[..|items| - 1])
    ensures items[|items| - 1].product !in ProductsOf(items[..|items| - 1])
  {
    var init := items[..|items| - 1];
    forall k | 0 <= k < |init| ensures init[k].product != items[|items| - 1].product {
      assert init[k] == items[k];
    }
  }

  /**
   * When the walk stops at item `at`, the catalog is the one the first `at`
   * items left behind: their stock stays taken although the order goes away.
   */
  lemma {:induction false} PlaceKeepsEarlierDecrements(products: Catalog, items: seq<CheckoutItem>)
    requires Place(products, items).stop.Some?
    ensures var p := Place(products, items);
            var done := Place(products, items[..p.stop.value.at]);
            done.stop.None? && p.products == done.products && p.placed == done.placed
  {
    var p := Place(products, items);
    var init := items[..|items| - 1];
    var q := Place(products, init);
    if q.stop.Some? {
      assert p == q;
      PlaceKeepsEarlierDecrements(products, init);
      assert init[..q.stop.value.at] == items[..q.stop.value.at];
    } else {
      assert p.stop.value.at == |items| - 1;
      assert p.products == q.products && p.placed == q.placed;
    }
  }

  lemma PlaceSnoc(products: Catalog, items: seq<CheckoutItem>, x: CheckoutItem)
    ensures Place(products, items + [x]) == PlaceItem(Place(products, items), x, |items|)
  {
    assert (items + [x])[..|items|] == items;
  }

  /** One more item walked. */
  lemma PlaceStep(products: Catalog, items: seq<CheckoutItem>, i: nat)
    requires i < |items|
    ensures Place(products, items[..i + 1]) == PlaceItem(Place(products, items[..i]), items[i], i)
  {
    assert items[..i + 1][..i] == items[..i];
  }

  /** A walk that has stopped stays stopped: later items change nothing. */
  lemma {:induction false} PlaceAfterStop(products: Catalog, items: seq<CheckoutItem>, i: nat)
    requires i < |items| && Place(products, items[..i + 1]).stop.Some?
    ensures Place(products, items) == Place(products, items[..i + 1])
    decreases |items|
  {
    if |items| > i + 1 {
      var init := items[..|items| - 1];
      assert init[..i + 1] == items[..i + 1];
      PlaceAfterStop(products, init, i);
      assert Place(products, init).stop.Some?;
      assert Place(products, items) == Place(products, init);
    } else {
      assert items[..i + 1] == items;
    }
  }

  /**
   * A product vanishes mid-walk only if it was missing when the walk began:
   * the walk itself never removes a product. Checkout's items come from the
   * catalog it walks, so in a sequential run the walk never meets a vanished
   * product.
   */
  lemma NoVanishedProduct(products: Catalog, items: seq<CheckoutItem>)
    requires forall k :: 0 <= k < |items| ==> items[k].product in products
    ensures Place(products, items).stop.None? || Place(products, items).stop.value.OutOfStock?
  {
  }

  /**
   * A two-item cart whose second product is short: checkout refuses and
   * deletes the order, yet the first product's stock stays lowered.
   */
  lemma StockLeaksOnShortfall(a: Product, b: Product)
    requires a.stock >= 1 && b.stock == 1
    ensures var products := map[1 := a, 2 := b];
            var p := Place(products, [CheckoutItem(1, 1, a.price), CheckoutItem(2, 2, b.price)]);
            && p.stop == Some(OutOfStock(1, b.name, 1))
            && p.products[1].stock == a.stock - 1
  {
    var products := map[1 := a, 2 := b];
    var items := [CheckoutItem(1, 1, a.price), CheckoutItem(2, 2, b.price)];
    var first := items[..1];
    assert first[..0] == [] && first[0] == items[0] && |first| == 1;
    assert Place(products, first[..0]) == Placement(products, [], None);
    var p1 := Place(products, first);
    assert p1 == PlaceItem(Placement(products, [], None), items[0], 0);
    assert p1.stop.None? && p1.products == products[1 := a.(stock := a.stock - 1)];
    assert p1.products[2] == b;
    assert items[..|items| - 1] == first;
    assert Place(products, items) == PlaceItem(p1, items[1], 1);
  }

  // ---------------------------------------------------------------------------
  // Placing the items atomically

  /** The first item whose product is missing or short, judged against the stock before the walk. */
  function FirstShortfall(products: Catalog, items: seq<CheckoutItem>): (s: Option<Stop>)
    ensures s.Some? ==> s.value.at < |items|
  {
    if items == [] then None
    else
      var earlier := FirstShortfall(products, items[..|items| - 1]);
      var last := items[|items| - 1];
      if earlier.Some? then earlier
      else if last.product !in products then Some(Vanished(|items| - 1))
      else if products[last.product].stock < last.quantity then
        Some(OutOfStock(|items| - 1, products[last.product].name, products[last.product].stock))
      else None
  }

  /** Every item's stock taken, without checking. */
  function TakeAll(products: Catalog, items: seq<CheckoutItem>): Catalog
  {
    if items == [] then products
    else
      var m := TakeAll(products, items[..|items| - 1]);
      var last := items[|items| - 1];
      if last.product in m then m[last.product := m[last.product].(stock := m[last.product].stock - last.quantity)]
      else m
  }

  /** An order item for every checkout item. */
  function RecordAll(items: seq<CheckoutItem>): (r: seq<OrderItem>)
    ensures |r| == |items|
    ensures forall k :: 0 <= k < |items| ==> r[k] == Recorded(items[k])
  {
    if items == [] then [] else RecordAll(items[..|items| - 1]) + [Recorded(items[|items| - 1])]
  }

  /**
   * checkout's walk with its evident intent: check every item first, and
   * only when all are covered take the stock, so a refusal changes nothing.
   */
  function PlaceAtomically(products: Catalog, items: seq<CheckoutItem>): (p: Placement)
    ensures p.stop.Some? ==> p.products == products && p.placed == []
    ensures p.stop.None? ==> |p.placed| == |items|
  {
    var s := FirstShortfall(products, items);
    if s.Some? then Placement(products, [], s) else Placement(TakeAll(products, items), RecordAll(items), None)
  }

  /** A walk that never stops takes every item's stock and records every item. */
  lemma {:induction false} CompleteWalkTakesAll(products: Catalog, items: seq<CheckoutItem>)
    requires Place(products, items).stop.None?
    ensures Place(products, items).products == TakeAll(products, items)
    ensures Place(products, items).placed == RecordAll(items)
  {
    if items != [] {
      CompleteWalkTakesAll(products, items[..|items| - 1]);
    }
  }

  /**
   * With each product named once, checking first finds exactly the item the
   * walk stops at; when there is none both leave the same catalog and order
   * items, and when there is one the atomic version leaves the catalog as it
   * was while the walk does not.
   */
  lemma AtomicPlaceAgrees(products: Catalog, items: seq<CheckoutItem>)
    requires DistinctProducts(items)
    ensures PlaceAtomically(products, items).stop == Place(products, items).stop
    ensures Place(products, items).stop.None? ==> PlaceAtomically(products, items) == Place(products, items)
    ensures Place(products, items).stop.Some? ==> PlaceAtomically(products, items).products == products
  {
    SameStop(products, items);
    if Place(products, items).stop.None? {
      CompleteWalkTakesAll(products, items);
    }
  }

  lemma {:induction false} SameStop(products: Catalog, items: seq<CheckoutItem>)
    requires DistinctProducts(items)
    ensures FirstShortfall(products, items) == Place(products, items).stop
  {
    if items != [] {
      var init, last := items[..|items| - 1], items[|items| - 1];
      assert DistinctProducts(init);
      SameStop(products, init);
      var q := Place(products, init);
      if q.stop.None? {
        LastNotEarlier(items);
        PlaceDecrementsExactly(products, init);
      }
    }
  }

  // ---------------------------------------------------------------------------
  // The checkout view

  datatype CheckoutError =
    | NotEnoughStock(name: string, available: int)  // "Only N items available for NAME"
    | ProcessingError                              // any other exception

  datatype CheckoutOutcome =
    | LoginRequired                                          // the login_required redirect
    | EmptyCart                                              // redirect back to the cart
    | Form(total: Cents, shipping: Cents, finalTotal: Cents, error: Option<CheckoutError>)
    | Placed(order: OrderId)                                 // redirect to the confirmation page

  /** The order checkout creates, before any item is added. */
  function NewOrder(user: UserId, contact: Contact, now: nat): (o: Order)
    ensures o.owner == user && o.status == Pending && !o.paid && o.items == []
  {
    Order(user, contact, Pending, false, now, [])
  }

  /** The checkout page shown again with the totals and, after a failed POST, an error. */
  function FormOf(items: seq<CheckoutItem>, error: Option<CheckoutError>): (r: CheckoutOutcome)
    ensures r.Form? && r.total == ItemsTotal(items) && r.error == error
    ensures r.finalTotal == r.total + r.shipping
    ensures r.shipping == 0 <==> r.total >= FreeShippingThreshold
  {
    var total := ItemsTotal(items);
    Form(total, ShippingCost(total), FinalTotal(total), error)
  }

  /**
   * The loop of checkout's POST path over the items: reload each product,
   * stop at a shortfall or at a product row that has disappeared, otherwise
   * record the order item and lower the stock. Returns the catalog as the
   * saves left it, the recorded order items and why the loop stopped, if it
   * did.
   */
  method PlaceLoop(catalog: Catalog, items: seq<CheckoutItem>)
    returns (products: Catalog, placed: seq<OrderItem>, stop: Option<Stop>)
    ensures Placement(products, placed, stop) == Place(catalog, items)
  {
    products, placed, stop := catalog, [], None;
    var i := 0;
    while i < |items| && stop.None?
      invariant i <= |items|
      invariant Place(catalog, items[..i]) == Placement(products, placed, stop)
      invariant stop.Some? ==> i > 0 && stop.value.at == i - 1
    {
      PlaceStep(catalog, items, i);
      var item := items[i];
      if item.product !in products {
        // Product.DoesNotExist, caught by the generic handler
        stop := Some(Vanished(i));
      } else {
        var product := products[item.product];
        if product.stock < item.quantity {
          stop := Some(OutOfStock(i, product.name, product.stock));
        } else {
          placed := placed + [Recorded(item)];
          products := products[item.product := product.(stock := product.stock - item.quantity)];
        }
      }
      i := i + 1;
    }
    if stop.Some? {
      PlaceAfterStop(catalog, items, i - 1);
    } else {
      assert items[..i] == items;
    }
  }

  /**
   * The POST path's loop over the items, for the order `id` just created:
   * reload each product, refuse a shortfall by deleting the order, otherwise
   * record the order item and save the lowered stock. A product row that has
   * disappeared ends the loop through the generic error handler, which keeps
   * the order.
   */
  method PlaceOrderItems(db: Database, id: OrderId, order: Order, items: seq<CheckoutItem>,
                         ghost before: map<OrderId, Order>)
    returns (stop: Option<Stop>)
    requires id !in before && db.orders == before[id := order] && order.items == []
    modifies db
    ensures var p := Place(old(db.products), items);
            && stop == p.stop
            && db.products == p.products
            && db.nextOrderId == old(db.nextOrderId) && db.wishlist == old(db.wishlist)
            && db.orders == if stop.Some? && stop.value.OutOfStock? then before
                            else before[id := order.(items := p.placed)]
  {
    var placed: seq<OrderItem>;
    var products: Catalog;
    products, placed, stop := PlaceLoop(db.products, items);
    db.products := products;
    if stop.Some? && stop.value.OutOfStock? {
      db.orders := db.orders - {id};
      assert db.orders == before;
    } else {
      db.orders := db.orders[id := order.(items := placed)];
      assert db.orders == before[id := order.(items := placed)];
    }
  }

  /**
   * checkout. `user` is the logged-in user (None for an anonymous request),
   * `contact` the posted form fields and `now` the creation time the order
   * receives.
   */
  method Checkout(db: Database, session: Session, user: Option<UserId>, isPost: bool,
                  contact: Contact, now: nat)
    returns (outcome: CheckoutOutcome)
    requires db.Valid() && session.Valid()
    modifies db, session
    ensures db.Valid() && session.Valid()
    ensures db.wishlist == old(db.wishlist)
    ensures user.None? ==>
              outcome == LoginRequired && unchanged(db) && unchanged(session)
    ensures user.Some? && CartItems(GetCart(old(session.cart)), old(db.products)) == [] ==>
              outcome == EmptyCart && unchanged(db) && unchanged(session)
    ensures var items := CartItems(GetCart(old(session.cart)), old(db.products));
            user.Some? && items != [] && !isPost ==>
              outcome == FormOf(items, None) && unchanged(db) && unchanged(session)
    ensures var items := CartItems(GetCart(old(session.cart)), old(db.products));
            user.Some? && items != [] && isPost ==>
              var p := Place(old(db.products), items);
              var id := old(db.nextOrderId);
              var order := NewOrder(user.value, contact, now).(items := p.placed);
              && db.products == p.products
              && db.nextOrderId == id + 1
              && (p.stop.None? ==>
                    && outcome == Placed(id)
                    && db.orders == old(db.orders)[id := order]
                    && session.cart == Dict([]))
              && (p.stop.Some? && p.stop.value.OutOfStock? ==>
                    && outcome == FormOf(items, Some(NotEnoughStock(p.stop.value.name, p.stop.value.available)))
                    && db.orders == old(db.orders)
                    && session.cart == old(session.cart))
              && (p.stop.Some? && p.stop.value.Vanished? ==>
                    && outcome == FormOf(items, Some(ProcessingError))
                    && db.orders == old(db.orders)[id := order]
                    && session.cart == old(session.cart))
  {
    if user.None? {
      return LoginRequired;
    }
    var items := GetCartItems(session, db.products);
    if items == [] {
      return EmptyCart;
    }
    var total := ItemsTotal(items);
    var shipping := ShippingCost(total);
    var finalTotal := FinalTotal(total);
    if !isPost {
      return Form(total, shipping, finalTotal, None);
    }
    // The login_required decorator has already turned anonymous requests
    // away, so the view's own authentication check never fires here.
    PlaceKeepsStockNonNegative(db.products, items);
    var id := db.nextOrderId;
    db.nextOrderId := id + 1;
    var order := NewOrder(user.value, contact, now);
    db.orders := db.orders[id := order];
    var stop := PlaceOrderItems(db, id, order, items, old(db.orders));
    if stop.None? {
      session.cart := Dict([]);
      return Placed(id);
    } else if stop.value.OutOfStock? {
      return Form(total, shipping, finalTotal, Some(NotEnoughStock(stop.value.name, stop.value.available)));
    } else {
      return Form(total, shipping, finalTotal, Some(ProcessingError));
    }
  }

  /**
   * The test scenario of the repository: headphones at 199.99 once and a
   * T-shirt at 29.99 twice, both in stock. The total is 259.97, shipping is
   * free, and checkout records both items at those prices and takes the
   * stock.
   */
  lemma WorkedExample(catalog: Catalog)
    requires Purchasable(catalog, 1) && Purchasable(catalog, 3) && catalog[3].stock >= 2
    ensures var cart := [Line(1, CartEntry("Wireless Headphones", "wireless-headphones", 19999, 1)),
                         Line(3, CartEntry("Cotton T-Shirt", "cotton-t-shirt", 2999, 2))];
            var items := CartItems(cart, catalog);
            var p := Place(catalog, items);
            && ItemsTotal(items) == 25997
            && ShippingCost(ItemsTotal(items)) == 0 && FinalTotal(ItemsTotal(items)) == 25997
            && p.stop.None?
            && p.placed == [OrderItem(1, 19999, 1), OrderItem(3, 2999, 2)]
            && p.products[1].stock == catalog[1].stock - 1 && p.products[3].stock == catalog[3].stock - 2
  {
    var l1 := Line(1, CartEntry("Wireless Headphones", "wireless-headphones", 19999, 1));
    var l3 := Line(3, CartEntry("Cotton T-Shirt", "cotton-t-shirt", 2999, 2));
    var i1, i3 := CheckoutItem(1, 1, 19999), CheckoutItem(3, 2, 2999);
    CartItemsSnoc([], l1, catalog);
    CartItemsSnoc([l1], l3, catalog);
    assert [l1] + [l3] == [l1, l3];
    assert CartItems([l1, l3], catalog) == [i1, i3];
    ItemsTotalSnoc([], i1);
    ItemsTotalSnoc([i1], i3);
    assert [i1] + [i3] == [i1, i3];
    PlaceSnoc(catalog, [], i1);
    PlaceSnoc(catalog, [i1], i3);
    var p1 := Place(catalog, [i1]);
    assert p1.stop.None? && p1.placed == [OrderItem(1, 19999, 1)];
    assert p1.products == catalog[1 := catalog[1].(stock := catalog[1].stock - 1)];
  }

  // ---------------------------------------------------------------------------
  // order_confirmation and order_history

  /** get_object_or_404(Order, id=order_id, user=request.user). */
  function OrderConfirmation(orders: map<OrderId, Order>, user: UserId, id: OrderId): (r: Option<Order>)
    ensures r.Some? <==> id in orders && orders[id].owner == user
    ensures r.Some? ==> r.value == orders[id]
  {
    if id in orders && orders[id].owner == user then Some(orders[id]) else None
  }

  /** Newest first: creation times never increase along the list, and no order appears twice. */
  ghost predicate NewestFirst(history: seq<OrderId>, orders: map<OrderId, Order>)
  {
    && (forall k :: 0 <= k < |history| ==> history[k] in orders)
    && (forall i, j :: 0 <= i < j < |history| ==> orders[history[i]].createdAt >= orders[history[j]].createdAt)
    && (forall i, j :: 0 <= i < j < |history| ==> history[i] != history[j])
  }

  /** An order no older than any in a newest-first list can go in front of it. */
  lemma PrependNewest(x: OrderId, h: seq<OrderId>, orders: map<OrderId, Order>)
    requires x in orders && NewestFirst(h, orders)
    requires forall y :: y in h ==> y != x && orders[y].createdAt <= orders[x].createdAt
    ensures NewestFirst([x] + h, orders)
  {
    var r := [x] + h;
    forall i, j | 0 <= i < j < |r|
      ensures orders[r[i]].createdAt >= orders[r[j]].createdAt && r[i] != r[j]
    {
      assert r[j] == h[j - 1];
      if i > 0 {
        assert r[i] == h[i - 1];
      }
    }
  }

  /** The head of a newest-first list is the newest, and the rest is newest-first too. */
  lemma HeadIsNewest(h: seq<OrderId>, orders: map<OrderId, Order>)
    requires NewestFirst(h, orders) && h != []
    ensures NewestFirst(h[1..], orders)
    ensures forall y :: y in h[1..] ==> y != h[0] && orders[y].createdAt <= orders[h[0]].createdAt
    ensures forall x :: x in h <==> x == h[0] || x in h[1..]
  {
    assert h == [h[0]] + h[1..];
    forall y | y in h[1..] ensures y != h[0] && orders[y].createdAt <= orders[h[0]].createdAt {
      var k :| 0 <= k < |h| - 1 && h[1..][k] == y;
      assert h[k + 1] == y;
    }
  }

  /** `id` placed after every order at least as new and before every older one. */
  ghost function InsertNewest(history: seq<OrderId>, id: OrderId, orders: map<OrderId, Order>): (r: seq<OrderId>)
    requires id in orders && id !in history && NewestFirst(history, orders)
    ensures forall x :: x in r <==> x in history || x == id
    ensures NewestFirst(r, orders)
    decreases |history|
  {
    if history == [] then [id]
    else
      HeadIsNewest(history, orders);
      if orders[history[0]].createdAt < orders[id].createdAt then
        PrependNewest(id, history, orders);
        [id] + history
      else
        var rest := InsertNewest(history[1..], id, orders);
        PrependNewest(history[0], rest, orders);
        [history[0]] + rest
  }

  /** The orders in `ids`, newest first. */
  ghost function Newest(ids: set<OrderId>, orders: map<OrderId, Order>): (r: seq<OrderId>)
    requires ids <= orders.Keys
    ensures forall x :: x in r <==> x in ids
    ensures NewestFirst(r, orders)
    decreases ids
  {
    if ids == {} then []
    else
      var id :| id in ids;
      InsertNewest(Newest(ids - {id}, orders), id, orders)
  }

  /** order_history: exactly the user's orders, each once, newest first. */
  ghost function OrderHistory(orders: map<OrderId, Order>, user: UserId): (r: seq<OrderId>)
    ensures forall id :: id in r <==> id in orders && orders[id].owner == user
    ensures NewestFirst(r, orders)
  {
    Newest((set id | id in orders && orders[id].owner == user), orders)
  }
}
