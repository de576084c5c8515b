/**
 * The values derived from the cart: the subtotal that `renderCart` accumulates
 * in its loop, the item count it shows, and the total `checkout` recomputes.
 * All three visit the keys in `Object.keys` order and look every key up in
 * the catalogue; a key with no product makes the script fail there, so each
 * requires the cart's keys to be stocked.
 */
module CartTotals {

  import opened Wrappers
  import opened PropertyKeys
  import opened KeyedSums
  import opened Catalogue
  import opened CartStore

  /** Each cart line's total, price × quantity, keyed by product. */
  function LineTotals(catalog: seq<Product>, items: Items): (w: Items)
    requires Stocked(catalog, items.Keys)
    ensures w.Keys == items.Keys
    ensures forall id :: id in w ==> w[id] == PriceOf(catalog, id) * items[id]
  {
    map id | id in items :: PriceOf(catalog, id) * items[id]
  }

  /** The subtotal: Σ price × quantity over the cart's entries; 0 for an empty cart, never negative while quantities are positive. */
  function Subtotal(catalog: seq<Product>, items: Items): (t: int)
    requires Stocked(catalog, items.Keys)
    ensures items == map[] ==> t == 0
    ensures AllPositive(items) ==> t >= 0
  {
    if AllPositive(items) then SubtotalNonNegative(catalog, items); KeySum(LineTotals(catalog, items))
    else KeySum(LineTotals(catalog, items))
  }

  /** No line total is negative while quantities are positive, so neither is their sum. */
  lemma SubtotalNonNegative(catalog: seq<Product>, items: Items)
    requires Stocked(catalog, items.Keys)
    requires AllPositive(items)
    ensures KeySum(LineTotals(catalog, items)) >= 0
  {
    var w := LineTotals(catalog, items);
    forall k | k in w ensures w[k] >= 0 {
      MulNonNegative(PriceOf(catalog, k), items[k]);
    }
    SeqSumNonNegative(w, OwnKeys(w.Keys));
  }

  /** Proof helper: the sign step of `SubtotalNonNegative`, kept apart so the solver sees it in a small context. */
  lemma MulNonNegative(a: nat, b: int)
    requires b >= 1
    ensures a * b >= 0
  {
  }

  /** The reducer of the displayed count, `(s, i) => s + cart[i]`, folded from `s` over `ids`. */
  function CountFrom(items: Items, ids: seq<ProductId>, s: int): (n: int)
    requires forall id :: id in ids ==> id in items
    ensures n == s + SeqSum(items, ids)
  {
    if ids == [] then s
    else
      assert ids[0] in ids;
      CountFrom(items, ids[1..], s + items[ids[0]])
  }

  /** The count shown on the cart badge: `ids.reduce((s, i) => s + cart[i], 0)`; it is Σ quantity. */
  function ItemCount(items: Items): (n: int)
    ensures n == KeySum(items)
  {
    CountFrom(items, OwnKeys(items.Keys), 0)
  }

  /**
   * The reducer of `checkout`'s total, `s + p.price * cart[id]` where `p` is
   * the product found for `id`, folded from `s` over `ids`. (`Object.keys`
   * gives string keys there; `x.id == id` compares them loosely, so the
   * lookup finds the same product as the numeric key would.)
   */
  function CheckoutFrom(catalog: seq<Product>, items: Items, ids: seq<ProductId>, s: int): (t: int)
    requires Stocked(catalog, items.Keys)
    requires forall id :: id in ids ==> id in items
    ensures t == s + SeqSum(LineTotals(catalog, items), ids)
  {
    if ids == [] then s
    else
      assert ids[0] in ids;
      var p := Find(catalog, ids[0]).value;
      CheckoutFrom(catalog, items, ids[1..], s + p.price * items[ids[0]])
  }

  /** The total `checkout` shows and charges; it always equals the subtotal the cart panel shows. */
  function CheckoutTotal(catalog: seq<Product>, items: Items): (t: int)
    requires Stocked(catalog, items.Keys)
    ensures t == Subtotal(catalog, items)
  {
    CheckoutFrom(catalog, items, OwnKeys(items.Keys), 0)
  }

  /** The line total of a cart entry is its product's price times its quantity. */
  lemma LineTotalOf(catalog: seq<Product>, items: Items, id: ProductId)
    requires Stocked(catalog, items.Keys) && id in items
    ensures Find(catalog, id).Some?
    ensures Weight(LineTotals(catalog, items), id) == Find(catalog, id).value.price * items[id]
  {
  }

  /**
   * The arithmetic of `renderCart`: one pass over the keys in `Object.keys`
   * order adding up `prod.price * qty`, then the item count.
   */
  method RenderTotals(catalog: seq<Product>, items: Items) returns (total: int, count: int)
    requires Stocked(catalog, items.Keys)
    ensures total == Subtotal(catalog, items)
    ensures count == KeySum(items)
  {
    var ids := OwnKeys(items.Keys);
    ghost var lines := LineTotals(catalog, items);
    total := 0;
    for i := 0 to |ids|
      invariant total == SeqSum(lines, ids[..i])
    {
      var id := ids[i];
      LineTotalOf(catalog, items, id);
      var prod := Find(catalog, id).value;
      var qty := items[id];
      total := total + prod.price * qty;
      SeqSumStep(lines, ids, i);
    }
    assert ids[..|ids|] == ids;
    count := ItemCount(items);
  }

  /** Summing the lines in any order that visits every entry once (insertion order, say) gives the subtotal. */
  lemma SubtotalAnyOrder(catalog: seq<Product>, items: Items, ids: seq<ProductId>)
    requires Stocked(catalog, items.Keys)
    requires Distinct(ids) && forall id :: id in ids <==> id in items
    ensures SeqSum(LineTotals(catalog, items), ids) == Subtotal(catalog, items)
  {
    KeySumAnyOrder(LineTotals(catalog, items), ids);
  }

  /** A change of one entry moves the subtotal by exactly the change of that entry's line total. */
  lemma SubtotalAfterChange(catalog: seq<Product>, items: Items, items': Items, id: ProductId)
    requires Stocked(catalog, items.Keys) && Stocked(catalog, items'.Keys)
    requires SameExcept(items, items', id)
    ensures Subtotal(catalog, items') ==
            Subtotal(catalog, items)
            - Weight(LineTotals(catalog, items), id)
            + Weight(LineTotals(catalog, items'), id)
  {
    KeySumUpdate(LineTotals(catalog, items), LineTotals(catalog, items'), id);
  }

  /** `addToCart(id)` raises the subtotal by the product's price and the count by one. */
  lemma AddToCartTotals(catalog: seq<Product>, items: Items, id: ProductId)
    requires Stocked(catalog, items.Keys) && Find(catalog, id).Some?
    ensures Stocked(catalog, Added(items, id).Keys)
    ensures Subtotal(catalog, Added(items, id)) == Subtotal(catalog, items) + PriceOf(catalog, id)
    ensures ItemCount(Added(items, id)) == ItemCount(items) + 1
  {
    var items' := Added(items, id);
    StockedAfterChange(catalog, items, items', id);
    var price, q := PriceOf(catalog, id), Weight(items, id);
    assert Weight(items', id) == q + 1;
    assert Subtotal(catalog, items') == Subtotal(catalog, items) + price by {
      SubtotalAtKey(catalog, items, items', id);
      MulSucc(price, q);
    }
    assert ItemCount(items') == ItemCount(items) + 1 by {
      KeySumUpdate(items, items', id);
    }
  }

  /** A change at one key moves the subtotal from that product's price × old quantity to its price × new quantity. */
  lemma SubtotalAtKey(catalog: seq<Product>, items: Items, items': Items, id: ProductId)
    requires Stocked(catalog, items.Keys) && Stocked(catalog, items'.Keys) && Find(catalog, id).Some?
    requires SameExcept(items, items', id)
    ensures Subtotal(catalog, items') ==
            Subtotal(catalog, items)
            - PriceOf(catalog, id) * Weight(items, id)
            + PriceOf(catalog, id) * Weight(items', id)
  {
    SubtotalAfterChange(catalog, items, items', id);
    LineWeight(catalog, items, id);
    LineWeight(catalog, items', id);
  }


  /** A change at a stocked product keeps every key of the cart stocked. */
  lemma StockedAfterChange(catalog: seq<Product>, items: Items, items': Items, id: ProductId)
    requires Stocked(catalog, items.Keys) && Find(catalog, id).Some?
    requires SameExcept(items, items', id)
    ensures Stocked(catalog, items'.Keys)
  {
    forall k | k in items'.Keys ensures Find(catalog, k).Some? {
      assert k == id || k in items.Keys;
    }
  }

  /** The line total of any stocked product: price times quantity, 0 when it is not in the cart. */
  lemma LineWeight(catalog: seq<Product>, items: Items, id: ProductId)
    requires Stocked(catalog, items.Keys) && Find(catalog, id).Some?
    ensures Weight(LineTotals(catalog, items), id) == PriceOf(catalog, id) * Weight(items, id)
  {
    if id !in items {
      MulSucc(PriceOf(catalog, id), 0);
    }
  }

  /** Proof helper: the two multiplication steps the totals lemmas need, kept apart so the solver sees them in a small context. */
  lemma MulSucc(p: int, q: int)
    ensures p * (q + 1) == p * q + p
    ensures p * 0 == 0
  {
  }

  /** `setQty(id, qty)` replaces the line's total by `price × qty`, or by nothing when `qty <= 0`. */
  lemma SetQtyTotals(catalog: seq<Product>, items: Items, id: ProductId, qty: int)
    requires Stocked(catalog, items.Keys) && Find(catalog, id).Some?
    ensures Stocked(catalog, WithQty(items, id, qty).Keys)
    ensures Subtotal(catalog, WithQty(items, id, qty)) ==
            Subtotal(catalog, items)
            - PriceOf(catalog, id) * Weight(items, id)
            + (if qty > 0 then PriceOf(catalog, id) * qty else 0)
    ensures ItemCount(WithQty(items, id, qty)) ==
            ItemCount(items) - Weight(items, id) + (if qty > 0 then qty else 0)
  {
    var items' := WithQty(items, id, qty);
    StockedAfterChange(catalog, items, items', id);
    assert Subtotal(catalog, items') ==
           Subtotal(catalog, items)
           - PriceOf(catalog, id) * Weight(items, id)
           + (if qty > 0 then PriceOf(catalog, id) * qty else 0) by {
      SubtotalAfterChange(catalog, items, items', id);
      LineWeight(catalog, items, id);
      LineWeight(catalog, items', id);
      MulSucc(PriceOf(catalog, id), 0);
    }
    assert ItemCount(items') == ItemCount(items) - Weight(items, id) + (if qty > 0 then qty else 0) by {
      KeySumUpdate(items, items', id);
    }
  }

  /** `removeItem(id)` takes the line's total out of the subtotal and its quantity out of the count. */
  lemma RemoveItemTotals(catalog: seq<Product>, items: Items, id: ProductId)
    requires Stocked(catalog, items.Keys)
    ensures Stocked(catalog, Removed(items, id).Keys)
    ensures Subtotal(catalog, Removed(items, id)) ==
            Subtotal(catalog, items) - Weight(LineTotals(catalog, items), id)
    ensures ItemCount(Removed(items, id)) == ItemCount(items) - Weight(items, id)
  {
    var items' := Removed(items, id);
    assert Stocked(catalog, items'.Keys);
    assert Subtotal(catalog, items') == Subtotal(catalog, items) - Weight(LineTotals(catalog, items), id) by {
      SubtotalAfterChange(catalog, items, items', id);
    }
    assert ItemCount(items') == ItemCount(items) - Weight(items, id) by {
      KeySumUpdate(items, items', id);
    }
  }

  /** `clearCart` empties the cart, so the subtotal and the count both drop to 0. */
  lemma ClearCartTotals(catalog: seq<Product>)
    ensures Subtotal(catalog, map[]) == 0
    ensures ItemCount(map[]) == 0
  {
  }

  /** With every quantity at least 1, the badge shows at least the number of lines, and 0 exactly for an empty cart. */
  lemma ItemCountZeroIffEmpty(items: Items)
    requires AllPositive(items)
    ensures ItemCount(items) >= |items|
    ensures ItemCount(items) == 0 <==> items == map[]
  {
    KeySumPositive(items);
  }

  /** Two tees at 399 and one pair of runners at 2499: subtotal 3297 paise, three items. */
  lemma SummaryExample()
    ensures Subtotal([Products[0], Products[2]], map[1 := 2, 3 := 1]) == 3297
    ensures ItemCount(map[1 := 2, 3 := 1]) == 3
  {
    var catalog := [Products[0], Products[2]];
    var items: Items := map[1 := 2, 3 := 1];
    assert items.Keys == {1, 3};
    OwnKeysOfTwo(1, 3);
    assert Subtotal(catalog, items) == 3297 by {
      assert Find(catalog, 1) == Some(Products[0]);
      assert Find(catalog, 3) == Some(Products[2]);
      var lines := LineTotals(catalog, items);
      assert lines[1] == 798 && lines[3] == 2499;
      assert SeqSum(lines, [1, 3]) == 798 + SeqSum(lines, [3]);
    }
    assert ItemCount(items) == 3 by {
      assert SeqSum(items, [1, 3]) == 2 + SeqSum(items, [3]);
    }
  }
}
