/** The one sort the application uses, in two places: `Array.prototype.sort` (a
    stable sort) with a comparator `(a, b) => key(b) - key(a)`, which puts the
    largest key first and keeps elements with equal keys in their input order. */
module Sorting {

  /** No element has a larger key than an element before it. */
  predicate IsDescending<T>(s: seq<T>, key: T -> real) {
    forall i, j :: 0 <= i < j < |s| ==> key(s[i]) >= key(s[j])
  }

  /** Puts `x` after every element whose key is at least `key(x)`. */
  function Insert<T>(x: T, s: seq<T>, key: T -> real): seq<T> {
    if s == [] || key(s[|s| - 1]) >= key(x) then s + [x]
    else Insert(x, s[..|s| - 1], key) + [s[|s| - 1]]
  }

  /** A stable sort by descending key (insertion sort, last element inserted last). */
  function SortDesc<T>(s: seq<T>, key: T -> real): seq<T> {
    if s == [] then [] else Insert(s[|s| - 1], SortDesc(s[..|s| - 1], key), key)
  }

  /** The elements whose key is `v`, in their order. */
  function WithKey<T>(s: seq<T>, key: T -> real, v: real): seq<T> {
    if s == [] then []
    else WithKey(s[..|s| - 1], key, v) + (if key(s[|s| - 1]) == v then [s[|s| - 1]] else [])
  }

  function Project<T, U>(s: seq<T>, f: T -> U): seq<U> {
    if s == [] then [] else Project(s[..|s| - 1], f) + [f(s[|s| - 1])]
  }

  function SumKeys<T>(s: seq<T>, key: T -> real): real {
    if s == [] then 0.0 else SumKeys(s[..|s| - 1], key) + key(s[|s| - 1])
  }

  // ---------------------------------------------------------------------------
  // Insertion

  lemma {:induction false} InsertElements<T>(x: T, s: seq<T>, key: T -> real)
    ensures multiset(Insert(x, s, key)) == multiset(s) + multiset{x}
    ensures |Insert(x, s, key)| == |s| + 1
  {
    if s != [] && key(s[|s| - 1]) < key(x) {
      var p, y := s[..|s| - 1], s[|s| - 1];
      InsertElements(x, p, key);
      assert s == p + [y];
    }
  }

  lemma {:induction false} InsertDescending<T>(x: T, s: seq<T>, key: T -> real)
    requires IsDescending(s, key)
    ensures IsDescending(Insert(x, s, key), key)
  {
    if s != [] && key(s[|s| - 1]) < key(x) {
      var p, y := s[..|s| - 1], s[|s| - 1];
      InsertDescending(x, p, key);
      InsertElements(x, p, key);
      var r := Insert(x, p, key);
      forall i | 0 <= i < |r| ensures key(r[i]) >= key(y) {
        assert r[i] in multiset(p) + multiset{x};
        if r[i] in multiset(p) {
          var k :| 0 <= k < |p| && p[k] == r[i];
          assert s[k] == p[k];
        }
      }
    }
  }

  lemma {:induction false} InsertWithKey<T>(x: T, s: seq<T>, key: T -> real, v: real)
    requires IsDescending(s, key)
    ensures WithKey(Insert(x, s, key), key, v) == WithKey(s, key, v) + (if key(x) == v then [x] else [])
  {
    if s == [] || key(s[|s| - 1]) >= key(x) {
      assert Insert(x, s, key)[..|s|] == s;
    } else {
      var p, y := s[..|s| - 1], s[|s| - 1];
      InsertWithKey(x, p, key, v);
      var r := Insert(x, p, key);
      assert (r + [y])[..|r|] == r;
      assert s[..|s| - 1] == p;
      if key(y) == v {
        assert key(x) != v;
      }
    }
  }

  lemma {:induction false} InsertProject<T, U>(x: T, s: seq<T>, key: T -> real, f: T -> U)
    ensures multiset(Project(Insert(x, s, key), f)) == multiset(Project(s, f)) + multiset{f(x)}
  {
    if s == [] || key(s[|s| - 1]) >= key(x) {
      assert Insert(x, s, key)[..|s|] == s;
    } else {
      var p, y := s[..|s| - 1], s[|s| - 1];
      InsertProject(x, p, key, f);
      var r := Insert(x, p, key);
      assert (r + [y])[..|r|] == r;
    }
  }

  lemma {:induction false} InsertSumKeys<T>(x: T, s: seq<T>, key: T -> real, f: T -> real)
    ensures SumKeys(Insert(x, s, key), f) == SumKeys(s, f) + f(x)
  {
    if s == [] || key(s[|s| - 1]) >= key(x) {
      assert Insert(x, s, key)[..|s|] == s;
    } else {
      var p, y := s[..|s| - 1], s[|s| - 1];
      InsertSumKeys(x, p, key, f);
      var r := Insert(x, p, key);
      assert (r + [y])[..|r|] == r;
    }
  }

  // ---------------------------------------------------------------------------
  // The sort

  /** The sort returns the same elements, as many times each. */
  lemma {:induction false} SortPermutation<T>(s: seq<T>, key: T -> real)
    ensures multiset(SortDesc(s, key)) == multiset(s)
    ensures |SortDesc(s, key)| == |s|
  {
    if s != [] {
      var p := s[..|s| - 1];
      SortPermutation(p, key);
      InsertElements(s[|s| - 1], SortDesc(p, key), key);
      assert s == p + [s[|s| - 1]];
    }
  }

  /** The sort puts the largest key first. */
  lemma {:induction false} SortDescending<T>(s: seq<T>, key: T -> real)
    ensures IsDescending(SortDesc(s, key), key)
  {
    if s != [] {
      SortDescending(s[..|s| - 1], key);
      InsertDescending(s[|s| - 1], SortDesc(s[..|s| - 1], key), key);
    }
  }

  /** The sort is stable: elements with equal keys keep their input order. */
  lemma {:induction false} SortStable<T>(s: seq<T>, key: T -> real, v: real)
    ensures WithKey(SortDesc(s, key), key, v) == WithKey(s, key, v)
  {
    if s != [] {
      var p := s[..|s| - 1];
      SortStable(p, key, v);
      SortDescending(p, key);
      InsertWithKey(s[|s| - 1], SortDesc(p, key), key, v);
    }
  }

  /** Whatever is read off the elements, the sorted list carries the same values. */
  lemma {:induction false} SortProject<T, U>(s: seq<T>, key: T -> real, f: T -> U)
    ensures multiset(Project(SortDesc(s, key), f)) == multiset(Project(s, f))
  {
    if s != [] {
      var p := s[..|s| - 1];
      SortProject(p, key, f);
      InsertProject(s[|s| - 1], SortDesc(p, key), key, f);
    }
  }

  /** Sorting does not change the sum of any number read off the elements, the
      sort key included. */
  lemma {:induction false} SortSumKeys<T>(s: seq<T>, key: T -> real, f: T -> real)
    ensures SumKeys(SortDesc(s, key), f) == SumKeys(s, f)
  {
    if s != [] {
      var p := s[..|s| - 1];
      SortSumKeys(p, key, f);
      InsertSumKeys(s[|s| - 1], SortDesc(p, key), key, f);
    }
  }

  lemma {:induction false} ProjectIndex<T, U>(s: seq<T>, f: T -> U)
    ensures |Project(s, f)| == |s|
    ensures forall i :: 0 <= i < |s| ==> Project(s, f)[i] == f(s[i])
  {
    if s != [] {
      ProjectIndex(s[..|s| - 1], f);
    }
  }
}
