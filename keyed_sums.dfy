/**
 * Sums of per-key amounts over the keys of a map (`cart` in the script),
 * in the order `Object.keys` gives and in any other order.
 */
module KeyedSums {

  import opened PropertyKeys

  /** The amount stored under `k`, or 0 when `k` is absent: the script's `(cart[id] || 0)`. */
  function Weight(w: map<ArrayIndex, int>, k: ArrayIndex): int
  {
    if k in w then w[k] else 0
  }

  /** `m'` differs from `m` at most at key `k`. */
  ghost predicate SameExcept(m: map<ArrayIndex, int>, m': map<ArrayIndex, int>, k: ArrayIndex)
  {
    && (forall j :: j in m && j != k ==> j in m' && m'[j] == m[j])
    && (forall j :: j in m' && j != k ==> j in m)
  }

  /** The sum of the amounts of the listed keys, left to right. */
  function SeqSum(w: map<ArrayIndex, int>, ids: seq<ArrayIndex>): int
  {
    if ids == [] then 0 else Weight(w, ids[0]) + SeqSum(w, ids[1..])
  }

  /** The sum over every key of the map: Σ w[k] for k in w. */
  function KeySum(w: map<ArrayIndex, int>): int
  {
    SeqSum(w, OwnKeys(w.Keys))
  }

  lemma {:induction false} SeqSumAppend(w: map<ArrayIndex, int>, a: seq<ArrayIndex>, b: seq<ArrayIndex>)
    ensures SeqSum(w, a + b) == SeqSum(w, a) + SeqSum(w, b)
  {
    if a == [] {
      assert a + b == b;
    } else {
      assert (a + b)[1..] == a[1..] + b;
      SeqSumAppend(w, a[1..], b);
    }
  }

  /** Extending a prefix of the visit by one key adds that key's amount. */
  lemma SeqSumStep(w: map<ArrayIndex, int>, ids: seq<ArrayIndex>, i: nat)
    requires i < |ids|
    ensures SeqSum(w, ids[..i + 1]) == SeqSum(w, ids[..i]) + Weight(w, ids[i])
  {
    SeqSumAppend(w, ids[..i], [ids[i]]);
    assert ids[..i + 1] == ids[..i] + [ids[i]];
  }

  /** The sum does not depend on the order in which the keys are visited. */
  lemma {:induction false} SeqSumPermutation(w: map<ArrayIndex, int>, a: seq<ArrayIndex>, b: seq<ArrayIndex>)
    requires multiset(a) == multiset(b)
    ensures SeqSum(w, a) == SeqSum(w, b)
  {
    if a == [] {
      assert |b| == |multiset(b)| == 0;
    } else {
      var x := a[0];
      assert x in multiset(b);
      var i :| 0 <= i < |b| && b[i] == x;
      var rest := b[..i] + b[i + 1..];
      RemoveMatched(a, b, i);
      SeqSumRemoveAt(w, b, i);
      SeqSumPermutation(w, a[1..], rest);
    }
  }

  /** Taking the first element out of `a` and the same element out of its permutation `b` leaves permutations. */
  lemma RemoveMatched(a: seq<ArrayIndex>, b: seq<ArrayIndex>, i: nat)
    requires multiset(a) == multiset(b)
    requires a != [] && i < |b| && b[i] == a[0]
    ensures multiset(a[1..]) == multiset(b[..i] + b[i + 1..])
  {
    var x := a[0];
    assert b == b[..i] + [x] + b[i + 1..];
    assert a == [x] + a[1..];
    assert multiset(b) == multiset(b[..i]) + multiset{x} + multiset(b[i + 1..]);
    assert multiset(a) == multiset{x} + multiset(a[1..]);
    MultisetCancel(multiset(a[1..]), multiset(b[..i]), multiset(b[i + 1..]), x);
  }

  /** The sum is the amount of the element at `i` plus the sum of the others. */
  lemma SeqSumRemoveAt(w: map<ArrayIndex, int>, b: seq<ArrayIndex>, i: nat)
    requires i < |b|
    ensures SeqSum(w, b) == Weight(w, b[i]) + SeqSum(w, b[..i] + b[i + 1..])
  {
    var x := b[i];
    assert b == b[..i] + ([x] + b[i + 1..]);
    SeqSumAppend(w, b[..i], [x] + b[i + 1..]);
    SeqSumAppend(w, [x], b[i + 1..]);
    SeqSumAppend(w, b[..i], b[i + 1..]);
  }

  lemma MultisetCancel(p: multiset<ArrayIndex>, q1: multiset<ArrayIndex>, q2: multiset<ArrayIndex>, x: ArrayIndex)
    requires multiset{x} + p == q1 + multiset{x} + q2
    ensures p == q1 + q2
  {
    forall y ensures p[y] == (q1 + q2)[y] {
      assert (multiset{x} + p)[y] == (q1 + multiset{x} + q2)[y];
    }
  }

  /** Only the amounts of the listed keys matter. */
  lemma {:induction false} SeqSumAgree(w: map<ArrayIndex, int>, w': map<ArrayIndex, int>, ids: seq<ArrayIndex>)
    requires forall k :: k in ids ==> Weight(w, k) == Weight(w', k)
    ensures SeqSum(w, ids) == SeqSum(w', ids)
  {
    if ids != [] {
      assert ids[0] in ids;
      SeqSumAgree(w, w', ids[1..]);
    }
  }

  /** Visiting every key of the map once, in any order, gives the same sum as `Object.keys` order. */
  lemma KeySumAnyOrder(w: map<ArrayIndex, int>, ids: seq<ArrayIndex>)
    requires Distinct(ids)
    requires forall k :: k in ids <==> k in w
    ensures SeqSum(w, ids) == KeySum(w)
  {
    var keys := OwnKeys(w.Keys);
    AscendingIsDistinct(keys);
    SameKeysSameMultiset(ids, keys);
    SeqSumPermutation(w, ids, keys);
  }

  /** The sum over all keys is the amount of `k` plus the sum over the other keys. */
  lemma KeySumSplit(w: map<ArrayIndex, int>, k: ArrayIndex)
    ensures KeySum(w) == Weight(w, k) + SeqSum(w, OwnKeys(w.Keys - {k}))
  {
    var rest := OwnKeys(w.Keys - {k});
    if k in w {
      AscendingIsDistinct(rest);
      ConsDistinct(k, rest);
      KeySumAnyOrder(w, [k] + rest);
      assert ([k] + rest)[1..] == rest;
    } else {
      assert w.Keys - {k} == w.Keys;
    }
  }

  lemma ConsDistinct(k: ArrayIndex, rest: seq<ArrayIndex>)
    requires k !in rest && Distinct(rest)
    ensures Distinct([k] + rest)
  {
    forall i, j | 0 <= i < j < |[k] + rest| ensures ([k] + rest)[i] != ([k] + rest)[j] {
      assert ([k] + rest)[j] == rest[j - 1];
      if i > 0 {
        assert ([k] + rest)[i] == rest[i - 1];
      }
    }
  }

  /**
   * Changing the map at one key changes the sum over all keys by exactly the
   * change of that key's amount.
   */
  lemma KeySumUpdate(w: map<ArrayIndex, int>, w': map<ArrayIndex, int>, k: ArrayIndex)
    requires SameExcept(w, w', k)
    ensures KeySum(w') == KeySum(w) - Weight(w, k) + Weight(w', k)
  {
    assert w.Keys - {k} == w'.Keys - {k};
    var rest := OwnKeys(w.Keys - {k});
    KeySumSplit(w, k);
    KeySumSplit(w', k);
    forall j | j in rest ensures Weight(w, j) == Weight(w', j) {
      assert j in w && j != k;
    }
    SeqSumAgree(w, w', rest);
  }

  /** With every amount at least 1, each key adds at least 1. */
  lemma {:induction false} SeqSumAtLeastLength(w: map<ArrayIndex, int>, ids: seq<ArrayIndex>)
    requires forall k :: k in ids ==> k in w && w[k] >= 1
    ensures SeqSum(w, ids) >= |ids|
  {
    if ids != [] {
      assert ids[0] in ids;
      SeqSumAtLeastLength(w, ids[1..]);
    }
  }

  /** With no negative amount, the sum is not negative. */
  lemma {:induction false} SeqSumNonNegative(w: map<ArrayIndex, int>, ids: seq<ArrayIndex>)
    requires forall k :: k in ids ==> k in w && w[k] >= 0
    ensures SeqSum(w, ids) >= 0
  {
    if ids != [] {
      assert ids[0] in ids;
      SeqSumNonNegative(w, ids[1..]);
    }
  }

  /** With every amount at least 1, the sum is at least the number of keys, so it is 0 exactly for the empty map. */
  lemma KeySumPositive(w: map<ArrayIndex, int>)
    requires forall k :: k in w ==> w[k] >= 1
    ensures KeySum(w) >= |w|
    ensures KeySum(w) == 0 <==> w == map[]
  {
    SeqSumAtLeastLength(w, OwnKeys(w.Keys));
    if w != map[] {
      var k :| k in w;
      assert k in w.Keys;
      assert |w.Keys| >= 1;
    }
  }
}
