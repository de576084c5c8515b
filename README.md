# Storefront cart and catalogue view — a Dafny model

The storefront is one browser script (`script.js`). It shows a fixed catalogue of six
products and keeps a shopping cart: a plain object that maps product ids to quantities.
Every change to the cart is written to `localStorage`. This project models the logic in
that script:

- **Cart store** (`CartStore`). `addToCart`, `setQty`, `removeItem` and `clearCart`, plus
  the −/+ buttons of each cart line, are methods of a `Cart` class. The class holds the
  cart as a `map<ProductId, int>` field and keeps a ghost snapshot of what storage holds.
  Each method is specified by a pure function on maps (`Added`, `WithQty`, `Removed`). The
  function's contract says which key changed and that no other key did.
- **Key order** (`PropertyKeys`). `Object.keys` lists keys that are array indices in
  ascending numeric order (section 10.1.11.1 of ECMA-262, OrdinaryOwnPropertyKeys). It does
  not list them in insertion order. `OwnKeys` models this order and the model proves that
  it is unique.
- **Totals** (`KeyedSums`, `CartTotals`). `renderCart` adds up `price * qty` in a loop and
  computes the item count with a `reduce`. `checkout` computes the total again with a
  `reduce`. All three are proved equal to one reference definition: the sum of the
  per-key amounts over the cart. The model also proves that this sum does not depend on
  the order of the keys, and how each cart operation (add, setQty, remove, clear) changes it.
- **Catalogue view** (`Search`). `getFiltered` trims and lower-cases the query, then keeps
  the products whose title or description contains it. It can then sort them by price with
  a stable sort.
- **Checkout** (`Checkout`). An empty cart gives the empty-cart notice. An empty or
  cancelled name changes nothing. A non-empty name confirms the order and clears the cart.

The dialogs are not part of the model. The answer to the name prompt is an
`Option<string>` parameter, and the stored cart read at page load is an `Option` map.

Two points where the code's behaviour is easy to misread:

- The cart summary lists its lines in `Object.keys` order, which is ascending id order,
  not insertion order. `SubtotalAnyOrder` shows that the subtotal is the same in any order.
- A stored cart that does not parse is not loaded as empty. script.js:13 calls
  `JSON.parse` without a `try`, so the script stops. The model does not claim a
  fail-open load.

## Model

| member | source | states |
|---|---|---|
| `CartStore.Added` | script.js:47 | `id` ends up with its old quantity + 1, the old quantity read through `Weight`, the script's `cart[id] \|\| 0` (so 1 if `id` was absent); every other key keeps its presence and quantity |
| `CartStore.WithQty` | script.js:52-54 | `qty <= 0` deletes `id`; otherwise `id` holds exactly `qty`, inserted if absent; no other key changes |
| `CartStore.Removed` | script.js:63-64 | `id` is absent afterwards, no other key changes, and removing an absent key returns the same map |
| `CartStore.OperationsKeepPositive` | script.js:46-66 | if every quantity is ≥ 1 before, it is still ≥ 1 after add, setQty (with any qty), remove and clear |
| `CartStore.DecrementFromOneRemoves` | script.js:101 | the − button on a quantity of 1 removes the line rather than storing 0 |
| `CartStore.AddTwiceFromEmpty` | script.js:46-48 | adding the same id twice to an empty cart gives quantity 2 |
| `CartStore.IncrementThenDecrement` | script.js:100-101 | + followed by − on a cart line gives back the original cart |
| `CartStore.Cart.Load` | script.js:12-13 | the cart is the stored object, or empty when nothing is stored; storage and cart agree |
| `CartStore.Cart.AddToCart` | script.js:46-50 | new cart = `Added(old cart, id)`; positivity is kept; the cart is saved |
| `CartStore.Cart.SetQty` | script.js:52-56 | new cart = `WithQty(old cart, id, qty)`; positivity is kept; the cart is saved |
| `CartStore.Cart.ClearCart` | script.js:58-61 | the cart is empty and saved, whatever it held before, so clearing twice also leaves it empty |
| `CartStore.Cart.RemoveItem` | script.js:63-66 | new cart = `Removed(old cart, id)`; positivity is kept; the cart is saved |
| `CartStore.Cart.Increment` | script.js:100 | `setQty(id, cart[id] + 1)`: with positive quantities, `id`'s quantity goes up by one |
| `CartStore.Cart.Decrement` | script.js:101 | `setQty(id, cart[id] - 1)`: a quantity above 1 goes down by one; a quantity of 1 removes the key |
| `PropertyKeys.OwnKeys` | script.js:71 | `Object.keys`: every key exactly once, strictly ascending |
| `PropertyKeys.AscendingUnique` | script.js:71 | there is only one ascending listing of a key set, so `OwnKeys` is the key order |
| `KeyedSums.SeqSumPermutation` | script.js:104 | summing per-key amounts gives the same total in any visiting order |
| `KeyedSums.KeySumUpdate` | script.js:104-107 | changing one key moves the sum over all keys by exactly that key's change |
| `KeyedSums.KeySumPositive` | script.js:107 | with quantities ≥ 1, the sum is at least the number of keys, and 0 exactly for the empty map |
| `Catalogue.Find` | script.js:77 | `products.find` returns only a product with the requested id |
| `Catalogue.FindFirst` | script.js:77 | the lookup fails exactly when no product has the id; otherwise it returns the first one that does |
| `Catalogue.FindUnique` | script.js:2-9 | with unique ids, looking up any catalogue entry's id returns that entry |
| `Catalogue.ShippedCatalogueHasUniqueIds` | script.js:2-9 | the six shipped products (the constant `Catalogue.Products`, field for field as the script lists them) have distinct ids |
| `CartTotals.Subtotal` | script.js:72-104 | the reference subtotal: the sum of `LineTotals`, one price × quantity per cart key as at script.js:85 and 104; it is 0 for an empty cart and never negative while quantities are ≥ 1 (`RenderTotals` and `CheckoutTotal` are proved equal to it) |
| `CartTotals.CountFrom` | script.js:107 | the count reducer folded from `s` gives `s` + the sum of the visited quantities |
| `CartTotals.ItemCount` | script.js:107 | the cart badge count equals Σ quantity over the cart |
| `CartTotals.CheckoutFrom` | script.js:134-137 | the checkout reducer folded from `s` gives `s` + the sum of the visited line totals |
| `CartTotals.CheckoutTotal` | script.js:134-137 | the checkout total equals the subtotal the cart panel shows |
| `CartTotals.RenderTotals` | script.js:71-107 | `renderCart`'s loop gives the subtotal Σ price × qty and the count Σ qty, provided every key is in the catalogue |
| `CartTotals.SubtotalAnyOrder` | script.js:71-104 | visiting the cart lines in any order that covers each one once, such as insertion order, gives the same subtotal |
| `CartTotals.SubtotalAfterChange` | script.js:104 | a change at one key moves the subtotal by exactly the change in that line's total |
| `CartTotals.SubtotalAtKey` | script.js:104 | a change at one key replaces that product's price × old quantity by its price × new quantity in the subtotal |
| `CartTotals.AddToCartTotals` | script.js:47 | `addToCart` raises the subtotal by the product's price and the count by 1 |
| `CartTotals.SetQtyTotals` | script.js:52-54 | `setQty` replaces the line's price × old quantity with price × `qty`, or with nothing when `qty <= 0`; the count changes the same way |
| `CartTotals.RemoveItemTotals` | script.js:63-64 | `removeItem` takes the line's total out of the subtotal and its quantity out of the count |
| `CartTotals.ClearCartTotals` | script.js:58-61 | after `clearCart` the subtotal and the count are both 0 |
| `CartTotals.ItemCountZeroIffEmpty` | script.js:107 | with quantities ≥ 1, the count is at least the number of lines, and it is 0 exactly when the cart is empty |
| `CartTotals.SummaryExample` | script.js:72-107 | two items at 399 plus one at 2499 give subtotal 3297 and count 3 |
| `Search.TrimStart` | script.js:116 | removes exactly the leading white space: the result is a suffix, everything cut is white space, and the result does not start with white space |
| `Search.TrimEnd` | script.js:116 | removes exactly the trailing white space, in the same sense |
| `Search.Trim` | script.js:116 | `trim()`: no longer than its input, and neither end of the result is white space; `TrimIsSlice` shows it is exactly the input with the white space at both ends cut |
| `Search.TrimIsSlice` | script.js:116 | `trim()` leaves a slice of the input; everything cut at both ends is white space, and the slice neither starts nor ends with white space |
| `Search.TrimEmptyIffBlank` | script.js:116 | the trimmed query is empty exactly when the input is all white space |
| `Search.ToLower` | script.js:116-117 | every character is lower-cased in place, and the length is kept |
| `Search.ToLowerIdempotent` | script.js:116-117 | a lower-cased string has no upper-case letters, and lower-casing it again changes nothing |
| `Search.Contains` | script.js:117 | `includes`: the empty query is contained in every string; `ContainsIffOccurs` gives its full meaning |
| `Search.ContainsIffOccurs` | script.js:117 | `includes` holds exactly when the query occurs at some position; the empty query occurs everywhere |
| `Search.Query` | script.js:116 | the query is the trimmed, lower-cased search text: no longer than the text, and empty exactly when the text is all white space |
| `Search.Matches` | script.js:117 | the filter's test: the lower-cased title or description contains the query, so the empty query matches every product |
| `Search.Filter` | script.js:117 | a product is in the result exactly when it is in the catalogue and matches the query, and the result is no longer than the catalogue |
| `Search.FilterIsSubsequence` | script.js:117 | the filtered list keeps the catalogue's order; it is a subsequence of the catalogue |
| `Search.FilterEmptyQuery` | script.js:117 | an empty query returns the whole catalogue in catalogue order |
| `Search.Insert` | script.js:119-120 | inserting into a sorted list keeps it sorted and adds exactly the one element |
| `Search.SortByPrice` | script.js:119-120 | the result is ordered by price and is a permutation of the input |
| `Search.InsertKeepsTies` | script.js:119-120 | an inserted product goes before every product of the same price, and the other products keep their order |
| `Search.SortKeepsTies` | script.js:119-120 | the sort is stable: products of each price keep their relative order |
| `Search.SortByPriceKeeps` | script.js:119-120 | sorting keeps the same set of products and the order within each price |
| `Search.GetFiltered` | script.js:115-122 | returns exactly the matching catalogue products. `price-asc` gives non-decreasing prices, `price-desc` non-increasing; ties keep catalogue order; any other sort value returns the filtered list itself, in catalogue order |
| `Search.BlankSearchListsCatalogue` | script.js:115-122 | a search box holding only white space, with no price sort chosen, lists the whole catalogue in catalogue order |
| `Checkout.Checkout` | script.js:128-143 | an empty cart gives `EmptyCart` (the notice at script.js:131) and no change. Otherwise an empty or cancelled name gives `Cancelled` with the total and changes nothing, and a non-empty name gives `Placed` (the confirmation at script.js:140) at the subtotal and clears the cart; `Checkout.Outcome` is the datatype of these three results |

## Left out

- DOM rendering, templating and event wiring are not modelled: `renderProducts`, the
  `innerHTML` parts of `renderCart`, and the listeners at script.js:124-125 and
  script.js:146-150. This is presentation. The `confirm()` that guards the clear button is
  part of this wiring; its effect is `ClearCart`.
- `formatINR` is not modelled. It formats money with `toLocaleString`, which is a
  presentation concern and a library call. The `flashCount` animation and the
  `alert`/`prompt`/`confirm` dialogs are not modelled either; the prompt's answer is a
  parameter.
- `localStorage` and JSON are not modelled. Storage is a ghost snapshot that every
  mutation sets equal to the cart. Serialising, parsing, and a parse error at load (which
  the script does not catch) are not modelled. The loaded object is a parameter.
- `CartStore.Cart.Load`: quantities read from storage are not validated. "Every quantity
  is ≥ 1" is therefore a premise of each operation's positivity clause, not a class
  invariant.
- `CartStore.Cart.Increment` and `CartStore.Cart.Decrement` require `id` to be in the cart.
  The buttons are only rendered for cart lines, and the list is re-rendered after every
  change. On an absent key, the script would store `NaN`.
- `CartTotals.RenderTotals`, `CartTotals.CheckoutTotal` and `Checkout.Checkout` require
  every cart key to be in the catalogue. On an unknown id, `products.find` returns `undefined` and the script
  throws. That crash is not modelled.
- Numbers: JavaScript numbers are doubles, and the model uses unbounded integers. They
  agree while totals stay below 2^53 paise.
- Product ids are array-index integers (0 ≤ id < 2^32 − 1), as all catalogue ids are.
  `Object.keys` lists larger or non-integer keys in insertion order; that case is not
  modelled.
- `Search.ToLower` maps only ASCII `A`–`Z`. Full Unicode case mapping is not modelled.
  `trim` strips the full ECMA-262 white space and line terminator set.
- `Search.SortByPrice` is an insertion sort. The engine's own algorithm is not modelled.
  Any stable sort by price gives the same list, because sorted and stable together fix the
  order.
