/** Sequence combinators shared by the pipeline: `filter`, `slice(0, n)` and
    the counts built from them, each kept in the left-to-right order of
    JavaScript's array methods. */
module Seqs {

  /** The elements of `s` that satisfy `p`, in order (`Array.prototype.filter`). */
  function Filter<T>(s: seq<T>, p: T -> bool): (r: seq<T>)
    ensures |r| <= |s|
    ensures forall i :: 0 <= i < |r| ==> p(r[i])
  {
    if s == [] then []
    else Filter(s[..|s| - 1], p) + (if p(s[|s| - 1]) then [s[|s| - 1]] else [])
  }

  /** How many elements of `s` satisfy `p` (`filter(p).length`). */
  function Count<T>(s: seq<T>, p: T -> bool): nat {
    |Filter(s, p)|
  }

  /** The first `n` elements, or all of them when there are fewer (`slice(0, n)`). */
  function Take<T>(s: seq<T>, n: nat): (r: seq<T>)
    ensures |r| == if |s| < n then |s| else n
    ensures r == s[..|r|]
  {
    if |s| <= n then s else s[..n]
  }

  lemma {:induction false} FilterAppend<T>(a: seq<T>, b: seq<T>, p: T -> bool)
    ensures Filter(a + b, p) == Filter(a, p) + Filter(b, p)
    decreases |b|
  {
    if b == [] {
      assert a + b == a;
    } else {
      var b' := b[..|b| - 1];
      assert (a + b)[..|a + b| - 1] == a + b';
      FilterAppend(a, b', p);
    }
  }

  lemma FilterSingle<T>(x: T, p: T -> bool)
    ensures Filter([x], p) == if p(x) then [x] else []
  {
    assert [x][..0] == [];
  }

  /** Every element that `Filter` keeps occurs in the input. */
  lemma {:induction false} FilterFrom<T>(s: seq<T>, p: T -> bool, i: nat)
    requires i < |Filter(s, p)|
    ensures exists j :: 0 <= j < |s| && s[j] == Filter(s, p)[i]
    decreases |s|
  {
    var s' := s[..|s| - 1];
    if i < |Filter(s', p)| {
      FilterFrom(s', p, i);
      var j :| 0 <= j < |s'| && s'[j] == Filter(s', p)[i];
      assert s[j] == s'[j];
    } else {
      assert Filter(s, p)[i] == s[|s| - 1];
    }
  }

  /** Nothing that satisfies `p` is dropped: `Filter` keeps every such element. */
  lemma {:induction false} FilterKeeps<T>(s: seq<T>, p: T -> bool, j: nat)
    requires j < |s| && p(s[j])
    ensures exists i :: 0 <= i < |Filter(s, p)| && Filter(s, p)[i] == s[j]
    decreases |s|
  {
    var s' := s[..|s| - 1];
    if j < |s'| {
      FilterKeeps(s', p, j);
      var i :| 0 <= i < |Filter(s', p)| && Filter(s', p)[i] == s'[j];
      assert Filter(s, p)[i] == Filter(s', p)[i];
    } else {
      assert Filter(s, p)[|Filter(s', p)|] == s[j];
    }
  }

  /** When no element satisfies `p`, nothing is kept. */
  lemma {:induction false} FilterNone<T>(s: seq<T>, p: T -> bool)
    requires forall i :: 0 <= i < |s| ==> !p(s[i])
    ensures Filter(s, p) == []
    decreases |s|
  {
    if s != [] {
      FilterNone(s[..|s| - 1], p);
    }
  }

  /** When every element satisfies `p`, everything is kept. */
  lemma {:induction false} FilterAll<T>(s: seq<T>, p: T -> bool)
    requires forall i :: 0 <= i < |s| ==> p(s[i])
    ensures Filter(s, p) == s
    decreases |s|
  {
    if s != [] {
      FilterAll(s[..|s| - 1], p);
      assert s[..|s| - 1] + [s[|s| - 1]] == s;
    }
  }

  /** Two tests that agree on every element keep the same elements. */
  lemma {:induction false} FilterAgrees<T>(s: seq<T>, p: T -> bool, p': T -> bool)
    requires forall i :: 0 <= i < |s| ==> p(s[i]) == p'(s[i])
    ensures Filter(s, p) == Filter(s, p')
    decreases |s|
  {
    if s != [] {
      FilterAgrees(s[..|s| - 1], p, p');
    }
  }

  /** No two elements of `r` share a key. */
  predicate DistinctKeys<T, K(==)>(r: seq<T>, key: T -> K) {
    forall m, m' :: 0 <= m < m' < |r| ==> key(r[m]) != key(r[m'])
  }

  function Itself<T>(x: T): T {
    x
  }

  lemma DistinctKeysAppend<T, K>(r: seq<T>, x: T, key: T -> K)
    requires DistinctKeys(r, key)
    requires forall m :: 0 <= m < |r| ==> key(r[m]) != key(x)
    ensures DistinctKeys(r + [x], key)
  {
    var r' := r + [x];
    forall m, m' | 0 <= m < m' < |r'| ensures key(r'[m]) != key(r'[m']) {
      if m' < |r| {
        assert r'[m] == r[m] && r'[m'] == r[m'];
      }
    }
  }

  /** Dropping the last element keeps the keys distinct, and the dropped
      key is not among the rest. */
  lemma DistinctKeysInit<T, K>(r: seq<T>, key: T -> K)
    requires r != [] && DistinctKeys(r, key)
    ensures DistinctKeys(r[..|r| - 1], key)
    ensures forall m :: 0 <= m < |r| - 1 ==> key(r[m]) != key(r[|r| - 1])
  {
  }

  /** The sum of `f` over the elements of `s`. */
  function SumOf<T>(s: seq<T>, f: T -> int): int {
    if s == [] then 0 else SumOf(s[..|s| - 1], f) + f(s[|s| - 1])
  }

  /** When `f` is never negative, a prefix sums to no more than the whole. */
  lemma {:induction false} SumOfPrefix<T>(s: seq<T>, f: T -> int, n: nat)
    requires n <= |s|
    requires forall i :: 0 <= i < |s| ==> f(s[i]) >= 0
    ensures SumOf(s[..n], f) <= SumOf(s, f)
    decreases |s|
  {
    if n < |s| {
      var s' := s[..|s| - 1];
      assert s'[..n] == s[..n];
      SumOfPrefix(s', f, n);
    } else {
      assert s[..n] == s;
    }
  }
}
