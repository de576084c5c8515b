/**
 * `checkout()`: nothing happens on an empty cart; otherwise the total is
 * shown and, once a non-empty name is entered, the order is confirmed and
 * the cart cleared. The dialogs are outside the model: the answer to the
 * name prompt is a parameter, `None` for a cancelled prompt.
 */
module Checkout {

  import opened Wrappers
  import opened Catalogue
  import opened CartStore
  import opened CartTotals

  /** What the user is told: the empty-cart notice, nothing (prompt cancelled or left empty), or the order confirmation. */
  datatype Outcome = EmptyCart | Cancelled(total: int) | Placed(name: string, total: int)

  method Checkout(cart: Cart, catalog: seq<Product>, name: Option<string>) returns (outcome: Outcome)
    requires Stocked(catalog, cart.items.Keys)
    modifies cart
    ensures old(cart.items) == map[] ==> outcome == EmptyCart && unchanged(cart)
    ensures old(cart.items) != map[] && (name.None? || name.value == "") ==>
              outcome == Cancelled(Subtotal(catalog, old(cart.items))) && unchanged(cart)
    ensures old(cart.items) != map[] && name.Some? && name.value != "" ==>
              outcome == Placed(name.value, Subtotal(catalog, old(cart.items)))
              && cart.items == map[] && cart.Persisted()
  {
    if cart.items == map[] {
      return EmptyCart;
    }
    var total := CheckoutTotal(catalog, cart.items);
    if name.Some? && name.value != "" {
      cart.ClearCart();
      outcome := Placed(name.value, total);
    } else {
      outcome := Cancelled(total);
    }
  }
}
