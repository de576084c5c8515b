/**
 * The cart: a map from product identifier to quantity that the script changes
 * in place (`addToCart`, `setQty`, `removeItem`, `clearCart`, and the -/+
 * buttons of each cart line), and writes to storage after every change.
 */
module CartStore {

  import opened Wrappers
  import opened KeyedSums
  import opened Catalogue

  /** The cart's contents: product identifier to quantity. */
  type Items = map<ProductId, int>

  /** The cart invariant: no key holds a quantity of 0 or less. */
  predicate AllPositive(items: Items)
  {
    forall id :: id in items ==> items[id] >= 1
  }

  /** `addToCart(id)`: `cart[id] = (cart[id] || 0) + 1`. */
  function Added(items: Items, id: ProductId): (r: Items)
    ensures id in r && r[id] == (if id in items then items[id] + 1 else 1)
    ensures SameExcept(items, r, id)
    ensures r.Keys == items.Keys + {id}
  {
    items[id := Weight(items, id) + 1]
  }

  /** `setQty(id, qty)`: delete the key when `qty <= 0`, otherwise store exactly `qty`. */
  function WithQty(items: Items, id: ProductId, qty: int): (r: Items)
    ensures qty <= 0 ==> id !in r
    ensures qty > 0 ==> id in r && r[id] == qty
    ensures SameExcept(items, r, id)
  {
    if qty <= 0 then items - {id} else items[id := qty]
  }

  /** `removeItem(id)`: `delete cart[id]`, which does nothing when the key is absent. */
  function Removed(items: Items, id: ProductId): (r: Items)
    ensures id !in r
    ensures SameExcept(items, r, id)
    ensures r.Keys == items.Keys - {id}
    ensures id !in items ==> r == items
  {
    items - {id}
  }

  /** Each of the four operations keeps the cart invariant; `setQty` can never store a quantity below 1. */
  lemma OperationsKeepPositive(items: Items, id: ProductId, qty: int)
    requires AllPositive(items)
    ensures AllPositive(Added(items, id))
    ensures AllPositive(WithQty(items, id, qty))
    ensures AllPositive(Removed(items, id))
    ensures AllPositive(map[])
  {
  }

  /** The - button on a line with quantity 1 removes the line instead of storing 0. */
  lemma DecrementFromOneRemoves(items: Items, id: ProductId)
    requires id in items && items[id] == 1
    ensures WithQty(items, id, items[id] - 1) == Removed(items, id)
  {
  }

  /** Adding the same product twice to an empty cart gives quantity 2. */
  lemma AddTwiceFromEmpty(id: ProductId)
    ensures Added(Added(map[], id), id) == map[id := 2]
  {
  }

  /** `+` then `-` on a line gives back the cart it started from. */
  lemma IncrementThenDecrement(items: Items, id: ProductId)
    requires AllPositive(items) && id in items
    ensures WithQty(WithQty(items, id, items[id] + 1), id, items[id]) == items
  {
  }

  /**
   * The global `cart` object. `saved` stands for the snapshot in `localStorage`;
   * every operation ends with `saveCart()`, so the snapshot always equals the cart.
   */
  class Cart {
    var items: Items
    ghost var saved: Items

    /** The storage snapshot equals the cart. */
    ghost predicate Persisted()
      reads this
    {
      saved == items
    }

    /**
     * Page load: the cart is the parsed stored object, or empty when nothing
     * is stored (`localStorage.getItem(CART_KEY) || '{}'`).
     */
    constructor Load(stored: Option<Items>)
      ensures items == (if stored.Some? then stored.value else map[])
      ensures Persisted()
    {
      items := if stored.Some? then stored.value else map[];
      saved := items;
    }

    method AddToCart(id: ProductId)
      modifies this
      ensures items == Added(old(items), id)
      ensures AllPositive(old(items)) ==> AllPositive(items)
      ensures Persisted()
    {
      items := items[id := Weight(items, id) + 1];
      saved := items;
    }

    method SetQty(id: ProductId, qty: int)
      modifies this
      ensures items == WithQty(old(items), id, qty)
      ensures AllPositive(old(items)) ==> AllPositive(items)
      ensures Persisted()
    {
      if qty <= 0 {
        items := items - {id};
      } else {
        items := items[id := qty];
      }
      saved := items;
    }

    method ClearCart()
      modifies this
      ensures items == map[]
      ensures Persisted()
    {
      items := map[];
      saved := items;
    }

    method RemoveItem(id: ProductId)
      modifies this
      ensures items == Removed(old(items), id)
      ensures AllPositive(old(items)) ==> AllPositive(items)
      ensures Persisted()
    {
      items := items - {id};
      saved := items;
    }

    /** The + button of a cart line: `setQty(id, cart[id] + 1)`. Lines are only shown for keys in the cart. */
    method Increment(id: ProductId)
      requires id in items
      modifies this
      ensures items == WithQty(old(items), id, old(items)[id] + 1)
      ensures AllPositive(old(items)) ==> items == old(items)[id := old(items)[id] + 1] && AllPositive(items)
      ensures Persisted()
    {
      SetQty(id, items[id] + 1);
    }

    /** The - button of a cart line: `setQty(id, cart[id] - 1)`; from 1 it removes the line. */
    method Decrement(id: ProductId)
      requires id in items
      modifies this
      ensures old(items)[id] <= 1 ==> items == old(items) - {id}
      ensures old(items)[id] > 1 ==> items == old(items)[id := old(items)[id] - 1]
      ensures AllPositive(old(items)) ==> AllPositive(items)
      ensures Persisted()
    {
      SetQty(id, items[id] - 1);
    }
  }
}
