/**
 * The `cart_count` context processor: the badge number every page shows,
 * the sum of the quantities of all entries of the session cart.
 */
module ContextProcessors {
  import opened Models
  import opened CartViews

  /**
   * cart_count. Reads the session cart (a non-dict value counts as an empty
   * cart) and adds up the entries' quantities; the session is only read.
   */
  method CartCount(session: Session) returns (count: int)
    ensures count == LinesQuantity(GetCart(session.cart))
    ensures !session.cart.Dict? ==> count == 0
  {
    var cart := GetCart(session.cart);
    count := 0;
    for i := 0 to |cart|
      invariant count == LinesQuantity(cart[..i])
    {
      assert cart[..i + 1][..i] == cart[..i];
      count := count + cart[i].entry.quantity;
    }
    assert cart[..|cart|] == cart;
  }

  /** The lines the cart page hides: those whose product is gone, unavailable or out of stock. */
  function Hidden(c: Cart, catalog: Catalog): (r: Cart)
    ensures |r| <= |c|
  {
    if c == [] then []
    else
      var last := c[|c| - 1];
      Hidden(c[..|c| - 1], catalog) + (if Purchasable(catalog, last.id) then [] else [last])
  }

  lemma {:induction false} HiddenMembers(c: Cart, catalog: Catalog)
    ensures forall l :: l in Hidden(c, catalog) <==> l in c && !Purchasable(catalog, l.id)
  {
    if c != [] {
      SplitLast(c);
      HiddenMembers(c[..|c| - 1], catalog);
    }
  }

  /** Each line is either listed as a row or hidden, so its quantity is counted in exactly one of the two. */
  lemma {:induction false} RowsAndHiddenSplitCount(c: Cart, catalog: Catalog)
    ensures LinesQuantity(c) == ItemQuantities(PageRows(c, catalog)) + LinesQuantity(Hidden(c, catalog))
  {
    if c != [] {
      var init, last := c[..|c| - 1], c[|c| - 1];
      RowsAndHiddenSplitCount(init, catalog);
      var rows := PageRows(init, catalog);
      var hidden := Hidden(init, catalog);
      assert LinesQuantity(c) == LinesQuantity(init) + last.entry.quantity;
      if Purchasable(catalog, last.id) {
        var rows' := rows + [Listed(last, catalog)];
        assert PageRows(c, catalog) == rows';
        assert hidden + [] == hidden;
        assert Hidden(c, catalog) == hidden;
        assert rows'[..|rows'| - 1] == rows;
      } else {
        assert rows + [] == rows;
        assert PageRows(c, catalog) == rows;
        assert Hidden(c, catalog) == hidden + [last];
        LinesQuantitySnoc(hidden, last);
      }
    }
  }

  /**
   * The badge counts every entry, hidden or not: it is the cart page's count
   * of the listed rows plus the quantities of the hidden lines.
   */
  lemma CountIncludesHidden(c: Cart, catalog: Catalog)
    ensures LinesQuantity(c) == CartPageOf(c, catalog).cartCount + LinesQuantity(Hidden(c, catalog))
  {
    RowsAndHiddenSplitCount(c, catalog);
  }

  lemma {:induction false} NothingHidden(c: Cart, catalog: Catalog)
    requires forall l :: l in c ==> Purchasable(catalog, l.id)
    ensures Hidden(c, catalog) == []
  {
    if c != [] {
      SplitLast(c);
      NothingHidden(c[..|c| - 1], catalog);
    }
  }

  /** So the badge and the cart page agree when every line is purchasable. */
  lemma CountMatchesPageWhenNothingHidden(c: Cart, catalog: Catalog)
    requires forall l :: l in c ==> Purchasable(catalog, l.id)
    ensures LinesQuantity(c) == CartPageOf(c, catalog).cartCount
  {
    CountIncludesHidden(c, catalog);
    NothingHidden(c, catalog);
  }

  /** Appending a line raises the count by its quantity. */
  lemma LinesQuantitySnoc(c: Cart, l: Line)
    ensures LinesQuantity(c + [l]) == LinesQuantity(c) + l.entry.quantity
  {
    assert (c + [l])[..|c + [l]| - 1] == c;
  }

  /** The count after `cart[id] = e` on a present key: the old entry's quantity out, the new one's in. */
  lemma {:induction false} LinesQuantityReplace(c: Cart, id: ProductId, e: CartEntry)
    requires Distinct(c)
    ensures id in ToMap(c) ==> LinesQuantity(Replace(c, id, e)) == LinesQuantity(c) - ToMap(c)[id].quantity + e.quantity
    ensures id !in ToMap(c) ==> LinesQuantity(Replace(c, id, e)) == LinesQuantity(c)
  {
    if c != [] {
      var init, last := c[..|c| - 1], c[|c| - 1];
      var r := Replace(c, id, e);
      DistinctInit(c);
      LinesQuantityReplace(init, id, e);
      assert r[..|r| - 1] == Replace(init, id, e);
      if last.id == id {
        ToMapKeys(init);
        assert id !in ToMap(init);
      }
    }
  }

  /** The count after `del cart[id]`: the deleted entry's quantity less. */
  lemma {:induction false} LinesQuantityDelete(c: Cart, id: ProductId)
    requires Distinct(c)
    ensures id in ToMap(c) ==> LinesQuantity(Delete(c, id)) == LinesQuantity(c) - ToMap(c)[id].quantity
    ensures id !in ToMap(c) ==> LinesQuantity(Delete(c, id)) == LinesQuantity(c)
  {
    if c != [] {
      var init, last := c[..|c| - 1], c[|c| - 1];
      DistinctInit(c);
      LinesQuantityDelete(init, id);
      if last.id == id {
        DeleteAbsent(init, id);
        assert init + [] == init;
        assert Delete(c, id) == init;
        assert LinesQuantity(c) == LinesQuantity(init) + last.entry.quantity;
        assert ToMap(c)[id] == last.entry;
      } else {
        LinesQuantitySnoc(Delete(init, id), last);
      }
    }
  }

  /** add_to_cart raises the badge by exactly the posted quantity. */
  lemma AddLineCount(c: Cart, id: ProductId, p: Product, quantity: int)
    requires Distinct(c)
    ensures LinesQuantity(AddLine(c, id, p, quantity)) == LinesQuantity(c) + quantity
  {
    if id in ToMap(c) {
      LinesQuantityReplace(c, id, ToMap(c)[id].(quantity := ToMap(c)[id].quantity + quantity));
    } else {
      LinesQuantitySnoc(c, Line(id, CartEntry(p.name, p.slug, p.price, quantity)));
    }
  }

  /** update_cart setting a present entry to q moves the badge by q minus the old quantity. */
  lemma SetQuantityCount(c: Cart, id: ProductId, quantity: int)
    requires Distinct(c) && id in ToMap(c)
    ensures LinesQuantity(SetQuantity(c, id, quantity)) == LinesQuantity(c) - ToMap(c)[id].quantity + quantity
  {
    LinesQuantityReplace(c, id, ToMap(c)[id].(quantity := quantity));
  }
}
