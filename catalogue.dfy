/** The fixed product catalogue and the lookup `products.find(p => p.id === id)`. */
module Catalogue {

  import opened Wrappers
  import opened PropertyKeys

  /** Product identifiers are small positive integers, so they are array-index keys of `cart`. */
  type ProductId = ArrayIndex

  /** A catalogue entry; `price` is in paise, so all arithmetic is on integers. */
  datatype Product = Product(id: ProductId, title: string, price: nat, desc: string)

  /** The six products the script ships with, in catalogue order. */
  const Products: seq<Product> := [
    Product(1, "Classic White Tee", 399, "Comfort cotton t-shirt"),
    Product(2, "Blue Denim Jeans", 1299, "Slim fit"),
    Product(3, "Sneaker Run", 2499, "Lightweight runners"),
    Product(4, "Leather Wallet", 799, "Bifold, premium"),
    Product(5, "Sports Cap", 299, "Breathable"),
    Product(6, "Backpack 20L", 1499, "Water-resistant")
  ]

  /** No two catalogue entries share an identifier. */
  predicate UniqueIds(catalog: seq<Product>)
  {
    forall i, j :: 0 <= i < j < |catalog| ==> catalog[i].id != catalog[j].id
  }

  /** `catalog.find(p => p.id === id)`: the first product with identifier `id`, or `None` (`undefined`). */
  function Find(catalog: seq<Product>, id: ProductId): (r: Option<Product>)
    ensures r.Some? ==> r.value.id == id
  {
    if catalog == [] then None
    else if catalog[0].id == id then Some(catalog[0])
    else Find(catalog[1..], id)
  }

  /**
   * The lookup fails exactly when no product carries the identifier, and
   * otherwise yields the entry at the first position that carries it.
   */
  lemma {:induction false} FindFirst(catalog: seq<Product>, id: ProductId)
    ensures Find(catalog, id).None? <==> forall i :: 0 <= i < |catalog| ==> catalog[i].id != id
    ensures Find(catalog, id).Some? ==>
              exists i :: 0 <= i < |catalog| && catalog[i] == Find(catalog, id).value
                          && forall j :: 0 <= j < i ==> catalog[j].id != id
  {
    if catalog != [] && catalog[0].id != id {
      var tail := catalog[1..];
      FindFirst(tail, id);
      assert forall i :: 1 <= i < |catalog| ==> catalog[i] == tail[i - 1];
      if Find(tail, id).Some? {
        var i :| 0 <= i < |tail| && tail[i] == Find(tail, id).value
                 && forall j :: 0 <= j < i ==> tail[j].id != id;
        assert catalog[i + 1] == Find(catalog, id).value;
        assert forall j :: 0 <= j < i + 1 ==> catalog[j].id != id by {
          forall j | 0 <= j < i + 1 ensures catalog[j].id != id {
            if j > 0 {
              assert catalog[j] == tail[j - 1];
            }
          }
        }
      }
    }
  }

  /** Every identifier in `ids` names a catalogue product, so the script's lookup cannot yield `undefined`. */
  predicate Stocked(catalog: seq<Product>, ids: set<ProductId>)
  {
    forall id :: id in ids ==> Find(catalog, id).Some?
  }

  /** The price of a product that is in the catalogue. */
  function PriceOf(catalog: seq<Product>, id: ProductId): nat
    requires Find(catalog, id).Some?
  {
    Find(catalog, id).value.price
  }

  lemma ShippedCatalogueHasUniqueIds()
    ensures UniqueIds(Products)
  {
  }

  /** With unique identifiers the lookup returns the one entry that carries the identifier. */
  lemma FindUnique(catalog: seq<Product>, i: nat)
    requires UniqueIds(catalog) && i < |catalog|
    ensures Find(catalog, catalog[i].id) == Some(catalog[i])
  {
    FindFirst(catalog, catalog[i].id);
  }
}
