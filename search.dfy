/**
 * `getFiltered`: the catalogue entries whose title or description contains
 * the trimmed, lower-cased search text, optionally ordered by price with a
 * stable sort. It works on copies, so the catalogue itself never changes.
 */
module Search {

  import opened Catalogue

  // ---- String.prototype.trim ----

  /** The WhiteSpace and LineTerminator code points that `trim` strips (sections 12.2 and 12.3 of ECMA-262). */
  predicate IsTrimmable(c: char)
  {
    || c == '\t' || c == '\U{000B}' || c == '\U{000C}' || c == ' ' || c == '\U{00A0}' || c == '\U{FEFF}'
    || c == '\n' || c == '\r' || c == '\U{2028}' || c == '\U{2029}'
    || c == '\U{1680}' || ('\U{2000}' <= c <= '\U{200A}') || c == '\U{202F}' || c == '\U{205F}' || c == '\U{3000}'
  }

  /** `s` with its leading white space removed. */
  function TrimStart(s: string): (r: string)
    ensures |r| <= |s| && r == s[|s| - |r|..]
    ensures forall i :: 0 <= i < |s| - |r| ==> IsTrimmable(s[i])
    ensures r != [] ==> !IsTrimmable(r[0])
  {
    if s != [] && IsTrimmable(s[0]) then TrimStart(s[1..]) else s
  }

  /** `s` with its trailing white space removed. */
  function TrimEnd(s: string): (r: string)
    ensures |r| <= |s| && r == s[..|r|]
    ensures forall i :: |r| <= i < |s| ==> IsTrimmable(s[i])
    ensures r != [] ==> !IsTrimmable(r[|r| - 1])
  {
    if s != [] && IsTrimmable(s[|s| - 1]) then TrimEnd(s[..|s| - 1]) else s
  }

  /** `s.trim()`: no longer than `s`, and neither end of the result is white space (`TrimIsSlice` says which slice it is). */
  function Trim(s: string): (r: string)
    ensures |r| <= |s|
    ensures r != [] ==> !IsTrimmable(r[0]) && !IsTrimmable(r[|r| - 1])
  {
    TrimEnd(TrimStart(s))
  }

  /** How many characters `trim` cuts from the front of `s`. */
  function TrimOffset(s: string): nat
  {
    |s| - |TrimStart(s)|
  }

  /**
   * `trim` removes exactly the white space at both ends: what is left is the
   * slice of `s` from `TrimOffset(s)`, everything cut off is white space, and
   * the slice neither starts nor ends with white space.
   */
  lemma TrimIsSlice(s: string)
    ensures TrimOffset(s) + |Trim(s)| <= |s|
    ensures Trim(s) == s[TrimOffset(s)..TrimOffset(s) + |Trim(s)|]
    ensures forall k :: 0 <= k < TrimOffset(s) ==> IsTrimmable(s[k])
    ensures forall k :: TrimOffset(s) + |Trim(s)| <= k < |s| ==> IsTrimmable(s[k])
    ensures Trim(s) != [] ==> !IsTrimmable(Trim(s)[0]) && !IsTrimmable(Trim(s)[|Trim(s)| - 1])
  {
    var t, r := TrimStart(s), Trim(s);
    assert r == TrimEnd(t);
    assert TrimOffset(s) == |s| - |t|;
    TrailingCut(s, t, r);
  }

  /**
   * Cutting white space off the end of a suffix `t` of `s` leaves a slice of
   * `s`, and everything after that slice is white space.
   */
  lemma TrailingCut(s: string, t: string, r: string)
    requires |t| <= |s| && t == s[|s| - |t|..]
    requires |r| <= |t| && r == t[..|r|]
    requires forall j :: |r| <= j < |t| ==> IsTrimmable(t[j])
    ensures r == s[|s| - |t|..|s| - |t| + |r|]
    ensures forall k :: |s| - |t| + |r| <= k < |s| ==> IsTrimmable(s[k])
  {
    var i := |s| - |t|;
    forall k | i + |r| <= k < |s| ensures IsTrimmable(s[k]) {
      assert s[k] == t[k - i];
    }
  }

  /** A string of nothing but white space trims to the empty string, and only such a string does. */
  lemma TrimEmptyIffBlank(s: string)
    ensures Trim(s) == [] <==> forall k :: 0 <= k < |s| ==> IsTrimmable(s[k])
  {
    var t := TrimStart(s);
    if Trim(s) != [] && t != [] {
      assert s[|s| - |t|] == t[0];
    }
  }

  // ---- String.prototype.toLowerCase, ASCII letters only ----

  function LowerChar(c: char): char
  {
    if 'A' <= c <= 'Z' then (c as int + 32) as char else c
  }

  /** `s.toLowerCase()` on the ASCII letters: every `A`-`Z` becomes `a`-`z`, every other character stays. */
  function ToLower(s: string): (r: string)
    ensures |r| == |s|
    ensures forall i :: 0 <= i < |s| ==> r[i] == LowerChar(s[i])
  {
    if s == [] then [] else [LowerChar(s[0])] + ToLower(s[1..])
  }

  /** Lower-casing leaves no upper-case letter and does nothing the second time. */
  lemma ToLowerIdempotent(s: string)
    ensures forall i :: 0 <= i < |ToLower(s)| ==> !('A' <= ToLower(s)[i] <= 'Z')
    ensures ToLower(ToLower(s)) == ToLower(s)
  {
  }

  // ---- String.prototype.includes ----

  /** `q` occurs in `s` starting at position `i`. */
  predicate OccursAt(s: string, q: string, i: nat)
  {
    i + |q| <= |s| && s[i..i + |q|] == q
  }

  /** `s.includes(q)`: try every starting position from the left. */
  function Contains(s: string, q: string): (r: bool)
    ensures q == [] ==> r
    decreases |s|
  {
    if |q| > |s| then false
    else if s[..|q|] == q then true
    else Contains(s[1..], q)
  }

  /** `includes` holds exactly when the query occurs at some position; the empty query occurs everywhere. */
  lemma {:induction false} ContainsIffOccurs(s: string, q: string)
    ensures Contains(s, q) <==> exists i: nat :: OccursAt(s, q, i)
    decreases |s|
  {
    if |q| > |s| {
      assert forall i: nat :: !OccursAt(s, q, i);
    } else if s[..|q|] == q {
      assert OccursAt(s, q, 0);
    } else {
      ContainsIffOccurs(s[1..], q);
      if exists i: nat :: OccursAt(s, q, i) {
        var i: nat :| OccursAt(s, q, i);
        assert i != 0;
        OccursShiftDown(s, q, i);
      }
      if exists i: nat :: OccursAt(s[1..], q, i) {
        var i: nat :| OccursAt(s[1..], q, i);
        OccursShiftUp(s, q, i);
      }
    }
  }

  /** An occurrence past the first position is an occurrence in the tail, one position earlier. */
  lemma OccursShiftDown(s: string, q: string, i: nat)
    requires i > 0 && OccursAt(s, q, i)
    ensures OccursAt(s[1..], q, i - 1)
  {
    assert s[1..][i - 1..i - 1 + |q|] == s[i..i + |q|];
  }

  /** An occurrence in the tail is an occurrence in the whole string, one position later. */
  lemma OccursShiftUp(s: string, q: string, i: nat)
    requires s != [] && OccursAt(s[1..], q, i)
    ensures OccursAt(s, q, i + 1)
  {
    assert s[1..][i..i + |q|] == s[i + 1..i + 1 + |q|];
  }

  // ---- The filter ----

  /** The search text as `getFiltered` uses it: `searchInput.value.trim().toLowerCase()`. */
  function Query(searchText: string): (q: string)
    ensures |q| <= |searchText|
    ensures q == [] <==> forall k :: 0 <= k < |searchText| ==> IsTrimmable(searchText[k])
  {
    TrimEmptyIffBlank(searchText);
    ToLower(Trim(searchText))
  }

  /** The filter's test: the lower-cased title or the lower-cased description contains the query; the empty query matches every product. */
  predicate Matches(p: Product, q: string)
    ensures q == [] ==> Matches(p, q)
  {
    Contains(ToLower(p.title), q) || Contains(ToLower(p.desc), q)
  }

  /** `products.filter(p => ...)`: the matching products, in catalogue order. */
  function Filter(products: seq<Product>, q: string): (r: seq<Product>)
    ensures |r| <= |products|
    ensures forall p :: p in r <==> p in products && Matches(p, q)
  {
    if products == [] then []
    else if Matches(products[0], q) then [products[0]] + Filter(products[1..], q)
    else Filter(products[1..], q)
  }

  /** `r` is `s` with some elements deleted, the rest in their original order. */
  ghost predicate IsSubsequence<T>(r: seq<T>, s: seq<T>)
    decreases |s|
  {
    r == [] || (s != [] && ((r[0] == s[0] && IsSubsequence(r[1..], s[1..])) || IsSubsequence(r, s[1..])))
  }

  /** The filter keeps catalogue order: its result is a subsequence of the catalogue. */
  lemma {:induction false} FilterIsSubsequence(products: seq<Product>, q: string)
    ensures IsSubsequence(Filter(products, q), products)
  {
    if products != [] {
      FilterIsSubsequence(products[1..], q);
      var r := Filter(products, q);
      if Matches(products[0], q) {
        assert r[0] == products[0] && r[1..] == Filter(products[1..], q);
      }
    }
  }

  /** An empty query matches every product, so the whole catalogue comes back in catalogue order. */
  lemma {:induction false} FilterEmptyQuery(products: seq<Product>)
    ensures Filter(products, []) == products
  {
    if products != [] {
      ContainsIffOccurs(ToLower(products[0].title), []);
      assert OccursAt(ToLower(products[0].title), [], 0);
      FilterEmptyQuery(products[1..]);
      assert products == [products[0]] + products[1..];
    }
  }

  // ---- The stable sort by price ----

  /** The sort key: the price for `price-asc`, the negated price for `price-desc`. */
  function Rank(p: Product, descending: bool): int
  {
    if descending then -(p.price as int) else p.price
  }

  predicate SortedBy(s: seq<Product>, descending: bool)
  {
    forall i, j :: 0 <= i < j < |s| ==> Rank(s[i], descending) <= Rank(s[j], descending)
  }

  /** The products of `s` with price `v`, in the order of `s`. */
  function WithPrice(s: seq<Product>, v: int): (r: seq<Product>)
    ensures forall p :: p in r <==> p in s && p.price == v
  {
    if s == [] then []
    else if s[0].price == v then [s[0]] + WithPrice(s[1..], v)
    else WithPrice(s[1..], v)
  }

  /** Puts `x` before the first element that does not sort strictly before it. */
  function Insert(x: Product, s: seq<Product>, descending: bool): (r: seq<Product>)
    requires SortedBy(s, descending)
    ensures SortedBy(r, descending)
    ensures multiset(r) == multiset(s) + multiset{x}
  {
    if s == [] then [x]
    else if Rank(x, descending) <= Rank(s[0], descending) then
      assert multiset([x] + s) == multiset(s) + multiset{x};
      [x] + s
    else
      var t := Insert(x, s[1..], descending);
      InsertAfterHead(x, s, t, descending);
      [s[0]] + t
  }

  /** The step of `Insert` that keeps the head of `s` in front. */
  lemma InsertAfterHead(x: Product, s: seq<Product>, t: seq<Product>, descending: bool)
    requires s != [] && SortedBy(s, descending) && Rank(s[0], descending) < Rank(x, descending)
    requires SortedBy(t, descending) && multiset(t) == multiset(s[1..]) + multiset{x}
    ensures SortedBy([s[0]] + t, descending)
    ensures multiset([s[0]] + t) == multiset(s) + multiset{x}
  {
    assert s == [s[0]] + s[1..];
    forall j | 0 <= j < |t| ensures Rank(s[0], descending) <= Rank(t[j], descending) {
      assert t[j] in multiset(t);
      if t[j] != x {
        assert t[j] in multiset(s[1..]);
        var k :| 0 <= k < |s[1..]| && s[1..][k] == t[j];
        assert s[k + 1] == t[j];
      }
    }
    var r := [s[0]] + t;
    forall i, j | 0 <= i < j < |r| ensures Rank(r[i], descending) <= Rank(r[j], descending) {
      assert r[j] == t[j - 1];
      if i > 0 {
        assert r[i] == t[i - 1];
      }
    }
  }

  /**
   * `list.slice().sort(cmp)` with `cmp` comparing prices: an insertion sort
   * that keeps products of equal price in their original order, as
   * `Array.prototype.sort` must since ECMAScript 2019.
   */
  function SortByPrice(s: seq<Product>, descending: bool): (r: seq<Product>)
    ensures SortedBy(r, descending)
    ensures multiset(r) == multiset(s)
  {
    if s == [] then []
    else
      assert s == [s[0]] + s[1..];
      Insert(s[0], SortByPrice(s[1..], descending), descending)
  }

  /** Inserting `x` places it ahead of every element of the same price. */
  lemma {:induction false} InsertKeepsTies(x: Product, s: seq<Product>, descending: bool, v: int)
    requires SortedBy(s, descending)
    ensures WithPrice(Insert(x, s, descending), v) ==
            if x.price == v then [x] + WithPrice(s, v) else WithPrice(s, v)
  {
    if s == [] || Rank(x, descending) <= Rank(s[0], descending) {
      assert ([x] + s)[1..] == s;
    } else {
      InsertKeepsTies(x, s[1..], descending, v);
      var t := Insert(x, s[1..], descending);
      assert ([s[0]] + t)[1..] == t;
      assert x.price == v ==> s[0].price != v;
      assert WithPrice(s, v) == if s[0].price == v then [s[0]] + WithPrice(s[1..], v) else WithPrice(s[1..], v);
    }
  }

  /** The sort is stable: the products of any one price keep their relative order. */
  lemma {:induction false} SortKeepsTies(s: seq<Product>, descending: bool, v: int)
    ensures WithPrice(SortByPrice(s, descending), v) == WithPrice(s, v)
  {
    if s != [] {
      SortKeepsTies(s[1..], descending, v);
      InsertKeepsTies(s[0], SortByPrice(s[1..], descending), descending, v);
    }
  }

  // ---- getFiltered ----

  /** Sorting by price keeps the same products, and the products of each price in the same order. */
  lemma SortByPriceKeeps(list: seq<Product>, descending: bool)
    ensures forall p :: p in SortByPrice(list, descending) <==> p in list
    ensures forall v :: WithPrice(SortByPrice(list, descending), v) == WithPrice(list, v)
  {
    var r := SortByPrice(list, descending);
    forall p ensures p in r <==> p in list {
      assert p in r <==> p in multiset(r);
      assert p in list <==> p in multiset(list);
    }
    forall v ensures WithPrice(r, v) == WithPrice(list, v) {
      SortKeepsTies(list, descending, v);
    }
  }

  /** `getFiltered()`, with the search box's text and the sort selector's value as parameters. */
  function GetFiltered(products: seq<Product>, searchText: string, sortValue: string): (r: seq<Product>)
    ensures forall p :: p in r <==> p in products && Matches(p, Query(searchText))
    ensures multiset(r) == multiset(Filter(products, Query(searchText)))
    ensures sortValue == "price-asc" ==> forall i, j :: 0 <= i < j < |r| ==> r[i].price <= r[j].price
    ensures sortValue == "price-desc" ==> forall i, j :: 0 <= i < j < |r| ==> r[i].price >= r[j].price
    ensures forall v :: WithPrice(r, v) == WithPrice(Filter(products, Query(searchText)), v)
    ensures sortValue != "price-asc" && sortValue != "price-desc" ==> IsSubsequence(r, products)
    ensures sortValue != "price-asc" && sortValue != "price-desc" ==> r == Filter(products, Query(searchText))
  {
    var list := Filter(products, Query(searchText));
    FilterIsSubsequence(products, Query(searchText));
    if sortValue == "price-asc" then
      SortByPriceKeeps(list, false);
      SortByPrice(list, false)
    else if sortValue == "price-desc" then
      SortByPriceKeeps(list, true);
      SortByPrice(list, true)
    else
      list
  }

  /** A search box holding only white space, with no price sort chosen, lists the whole catalogue in catalogue order. */
  lemma BlankSearchListsCatalogue(products: seq<Product>, searchText: string, sortValue: string)
    requires forall k :: 0 <= k < |searchText| ==> IsTrimmable(searchText[k])
    requires sortValue != "price-asc" && sortValue != "price-desc"
    ensures GetFiltered(products, searchText, sortValue) == products
  {
    assert Query(searchText) == [];
    FilterEmptyQuery(products);
  }
}
