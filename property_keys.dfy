/**
 * The order in which `Object.keys` lists the keys of a plain object whose keys
 * are all array indices: ascending numeric order (OrdinaryOwnPropertyKeys,
 * section 10.1.11.1 of ECMA-262), not insertion order.
 */
module PropertyKeys {

  /** An integer that ECMA-262 treats as an array index: 0 <= k < 2^32 - 1. */
  type ArrayIndex = k: int | 0 <= k < 0xFFFF_FFFF

  /** Strictly increasing. */
  predicate Ascending(ids: seq<int>)
  {
    forall i, j :: 0 <= i < j < |ids| ==> ids[i] < ids[j]
  }

  /** No element occurs twice. */
  predicate Distinct(ids: seq<int>)
  {
    forall i, j :: 0 <= i < j < |ids| ==> ids[i] != ids[j]
  }

  /** A least element of a finite non-empty set of keys, found by removing elements one at a time. */
  ghost function LeastOf(ks: set<ArrayIndex>): (k: ArrayIndex)
    requires ks != {}
    ensures k in ks && forall j :: j in ks ==> k <= j
    decreases |ks|
  {
    var x :| x in ks;
    if ks == {x} then x
    else
      var y := LeastOf(ks - {x});
      assert forall j :: j in ks ==> j == x || j in ks - {x};
      if x < y then x else y
  }

  /** The least key of a non-empty set. */
  function Least(ks: set<ArrayIndex>): (k: ArrayIndex)
    requires ks != {}
    ensures k in ks && forall j :: j in ks ==> k <= j
  {
    assert LeastOf(ks) in ks;
    var k :| k in ks && forall j :: j in ks ==> k <= j;
    k
  }

  /** The keys of an object, as `Object.keys` lists them: each key once, ascending. */
  function OwnKeys(ks: set<ArrayIndex>): (ids: seq<ArrayIndex>)
    ensures |ids| == |ks|
    ensures forall k :: k in ids <==> k in ks
    ensures Ascending(ids)
    decreases |ks|
  {
    if ks == {} then []
    else
      var k := Least(ks);
      [k] + OwnKeys(ks - {k})
  }

  lemma AscendingIsDistinct(ids: seq<int>)
    requires Ascending(ids)
    ensures Distinct(ids)
  {
  }

  /** In a sequence without repetitions every element occurs exactly once. */
  lemma {:induction false} DistinctOccurrences(ids: seq<ArrayIndex>, k: ArrayIndex)
    requires Distinct(ids)
    ensures multiset(ids)[k] == if k in ids then 1 else 0
  {
    if ids != [] {
      assert ids == [ids[0]] + ids[1..];
      assert Distinct(ids[1..]) by {
        forall i, j | 0 <= i < j < |ids[1..]| ensures ids[1..][i] != ids[1..][j] {
          assert ids[1..][i] == ids[i + 1] && ids[1..][j] == ids[j + 1];
        }
      }
      DistinctOccurrences(ids[1..], k);
      assert ids[0] !in ids[1..] by {
        forall i | 0 <= i < |ids[1..]| ensures ids[1..][i] != ids[0] {
          assert ids[1..][i] == ids[i + 1];
        }
      }
      assert multiset(ids) == multiset{ids[0]} + multiset(ids[1..]);
    }
  }

  /** Two enumerations without repetitions of the same keys are permutations of each other. */
  lemma SameKeysSameMultiset(a: seq<ArrayIndex>, b: seq<ArrayIndex>)
    requires Distinct(a) && Distinct(b)
    requires forall k :: k in a <==> k in b
    ensures multiset(a) == multiset(b)
  {
    forall k: ArrayIndex ensures multiset(a)[k] == multiset(b)[k] {
      DistinctOccurrences(a, k);
      DistinctOccurrences(b, k);
    }
  }

  /** An ascending enumeration of a key set is unique: it is the one `OwnKeys` gives. */
  lemma {:induction false} AscendingUnique(a: seq<ArrayIndex>, b: seq<ArrayIndex>)
    requires Ascending(a) && Ascending(b)
    requires forall k :: k in a <==> k in b
    ensures a == b
  {
    AscendingIsDistinct(a);
    AscendingIsDistinct(b);
    SameKeysSameMultiset(a, b);
    assert |a| == |multiset(a)| == |multiset(b)| == |b|;
    if a != [] {
      assert a[0] == b[0] by {
        assert a[0] in b && b[0] in a;
      }
      assert forall k :: k in a[1..] <==> k in b[1..] by {
        forall k ensures k in a[1..] <==> k in b[1..] {
          assert k in a[1..] <==> k in a && k != a[0];
          assert k in b[1..] <==> k in b && k != b[0];
        }
      }
      AscendingUnique(a[1..], b[1..]);
      assert a == [a[0]] + a[1..] && b == [b[0]] + b[1..];
    }
  }

  /** `Object.keys` of an object with two keys lists the smaller first. */
  lemma OwnKeysOfTwo(a: ArrayIndex, b: ArrayIndex)
    requires a < b
    ensures OwnKeys({a, b}) == [a, b]
  {
    AscendingUnique(OwnKeys({a, b}), [a, b]);
  }
}
