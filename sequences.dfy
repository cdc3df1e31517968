/** Facts about lists that several parts of the application rely on: that a list is
    another with elements left out, and that no two elements share a key. */
module Sequences {

  /** `a` is `b` with some elements left out: `idx` gives, in increasing order, the
      position in `b` of each element of `a`. */
  predicate EmbedsAt<T(==)>(a: seq<T>, b: seq<T>, idx: seq<int>) {
    |idx| == |a|
    && (forall k :: 0 <= k < |idx| ==> 0 <= idx[k] < |b| && a[k] == b[idx[k]])
    && (forall k, l :: 0 <= k < l < |idx| ==> idx[k] < idx[l])
  }

  ghost predicate IsSubsequence<T>(a: seq<T>, b: seq<T>) {
    exists idx :: EmbedsAt(a, b, idx)
  }

  /** No two elements have the same key. */
  predicate Unique<T, K(==)>(s: seq<T>, key: T -> K) {
    forall i, j :: 0 <= i < j < |s| ==> key(s[i]) != key(s[j])
  }

  function Keys<T(==), K>(s: seq<T>, key: T -> K): set<K> {
    set x | x in s :: key(x)
  }

  /** In a list without repeated keys, the last element's key is not among the
      keys before it. */
  lemma LastKeyFresh<T, K>(s: seq<T>, key: T -> K)
    requires Unique(s, key) && |s| > 0
    ensures key(s[|s| - 1]) !in Keys(s[..|s| - 1], key)
  {
    var p, x := s[..|s| - 1], s[|s| - 1];
    forall y | y in p ensures key(y) != key(x) {
      var k :| 0 <= k < |p| && p[k] == y;
      assert s[k] == y;
    }
  }

  /** Appending an element adds its key to the keys. */
  lemma KeysSnoc<T, K>(p: seq<T>, x: T, key: T -> K)
    ensures Keys(p + [x], key) == Keys(p, key) + {key(x)}
  {
    var r := p + [x];
    forall y | y in r ensures y in p || y == x {
      var k :| 0 <= k < |r| && r[k] == y;
      if k < |p| { assert p[k] == y; }
    }
    forall y | y in p ensures y in r {
      var k :| 0 <= k < |p| && p[k] == y;
      assert r[k] == y;
    }
    assert x in r by { assert r[|p|] == x; }
  }
}
