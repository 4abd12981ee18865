/** The stable sort behind every `sort((a, b) => key(b) - key(a))` call of the
    pipeline. `Array.prototype.sort` is stable (ECMAScript 2019 onwards), so for
    a comparator of that shape its result is the unique arrangement that orders
    keys from largest to smallest and keeps equal keys in input order; the
    model computes it by insertion sort, and an ascending sort uses the negated
    key. */
module StableSort {
  import opened Seqs

  /** Keys never increase from left to right. */
  predicate SortedDesc<T>(s: seq<T>, key: T -> int) {
    forall i, j :: 0 <= i < j < |s| ==> key(s[i]) >= key(s[j])
  }

  /** The elements whose key is `k`, in order: the part a stable sort must not reorder. */
  function WithKey<T>(s: seq<T>, key: T -> int, k: int): seq<T> {
    if s == [] then []
    else WithKey(s[..|s| - 1], key, k) + (if key(s[|s| - 1]) == k then [s[|s| - 1]] else [])
  }

  /** Inserts `x` into the sorted prefix `t` after every element whose key is not below its own. */
  function Insert<T>(t: seq<T>, x: T, key: T -> int): seq<T>
    decreases |t|
  {
    if t == [] || key(t[|t| - 1]) >= key(x) then t + [x]
    else Insert(t[..|t| - 1], x, key) + [t[|t| - 1]]
  }

  /** Insertion sort, taking the input from left to right. */
  function SortDesc<T>(s: seq<T>, key: T -> int): seq<T> {
    if s == [] then [] else Insert(SortDesc(s[..|s| - 1], key), s[|s| - 1], key)
  }

  lemma {:induction false} InsertLength<T>(t: seq<T>, x: T, key: T -> int)
    ensures |Insert(t, x, key)| == |t| + 1
    ensures multiset(Insert(t, x, key)) == multiset(t) + multiset{x}
    decreases |t|
  {
    if !(t == [] || key(t[|t| - 1]) >= key(x)) {
      var t', last := t[..|t| - 1], t[|t| - 1];
      InsertLength(t', x, key);
      assert t == t' + [last];
    }
  }

  lemma {:induction false} InsertCount<T>(t: seq<T>, x: T, key: T -> int, p: T -> bool)
    ensures Count(Insert(t, x, key), p) == Count(t, p) + (if p(x) then 1 else 0)
    decreases |t|
  {
    if t == [] || key(t[|t| - 1]) >= key(x) {
      FilterAppend(t, [x], p);
      FilterSingle(x, p);
    } else {
      var t', last := t[..|t| - 1], t[|t| - 1];
      InsertCount(t', x, key, p);
      FilterAppend(Insert(t', x, key), [last], p);
      FilterSingle(last, p);
      FilterAppend(t', [last], p);
      assert t == t' + [last];
    }
  }

  lemma {:induction false} InsertBounded<T>(t: seq<T>, x: T, key: T -> int, b: int)
    requires forall i :: 0 <= i < |t| ==> key(t[i]) >= b
    requires key(x) >= b
    ensures forall i :: 0 <= i < |Insert(t, x, key)| ==> key(Insert(t, x, key)[i]) >= b
    decreases |t|
  {
    if !(t == [] || key(t[|t| - 1]) >= key(x)) {
      InsertBounded(t[..|t| - 1], x, key, b);
    }
  }

  lemma {:induction false} InsertSorted<T>(t: seq<T>, x: T, key: T -> int)
    requires SortedDesc(t, key)
    ensures SortedDesc(Insert(t, x, key), key)
    decreases |t|
  {
    if t == [] || key(t[|t| - 1]) >= key(x) {
      var r := t + [x];
      forall i, j | 0 <= i < j < |r| ensures key(r[i]) >= key(r[j]) {
        if j == |t| && i < |t| - 1 {
          assert key(t[i]) >= key(t[|t| - 1]);
        }
      }
    } else {
      var t', last := t[..|t| - 1], t[|t| - 1];
      forall i | 0 <= i < |t'| ensures key(t'[i]) >= key(last) {
        assert key(t[i]) >= key(t[|t| - 1]);
      }
      assert SortedDesc(t', key) by {
        forall i, j | 0 <= i < j < |t'| ensures key(t'[i]) >= key(t'[j]) {
          assert key(t[i]) >= key(t[j]);
        }
      }
      InsertSorted(t', x, key);
      InsertBounded(t', x, key, key(last));
      var r' := Insert(t', x, key);
      var r := r' + [last];
      assert Insert(t, x, key) == r;
      forall i, j | 0 <= i < j < |r| ensures key(r[i]) >= key(r[j]) {
        if j < |r'| {
          assert key(r'[i]) >= key(r'[j]);
        } else {
          assert key(r'[i]) >= key(last);
        }
      }
    }
  }

  lemma {:induction false} WithKeyAppend<T>(a: seq<T>, b: seq<T>, key: T -> int, k: int)
    ensures WithKey(a + b, key, k) == WithKey(a, key, k) + WithKey(b, key, k)
    decreases |b|
  {
    if b == [] {
      assert a + b == a;
    } else {
      var b' := b[..|b| - 1];
      assert (a + b)[..|a + b| - 1] == a + b';
      WithKeyAppend(a, b', key, k);
    }
  }

  lemma WithKeySingle<T>(x: T, key: T -> int, k: int)
    ensures WithKey([x], key, k) == if key(x) == k then [x] else []
  {
    assert [x][..0] == [];
  }

  /** `x` lands after every element of `t` that shares its key. */
  lemma {:induction false} InsertWithKey<T>(t: seq<T>, x: T, key: T -> int, k: int)
    ensures WithKey(Insert(t, x, key), key, k) == WithKey(t, key, k) + (if key(x) == k then [x] else [])
    decreases |t|
  {
    WithKeySingle(x, key, k);
    if t == [] || key(t[|t| - 1]) >= key(x) {
      WithKeyAppend(t, [x], key, k);
    } else {
      InsertWithKey(t[..|t| - 1], x, key, k);
      InsertWithKeyPast(t, x, key, k);
    }
  }

  /** The step of `InsertWithKey` where `x` moves past the last element of
      `t`: that element has a smaller key, so at most one of the two has key `k`. */
  lemma InsertWithKeyPast<T>(t: seq<T>, x: T, key: T -> int, k: int)
    requires t != [] && key(t[|t| - 1]) < key(x)
    requires WithKey(Insert(t[..|t| - 1], x, key), key, k)
      == WithKey(t[..|t| - 1], key, k) + (if key(x) == k then [x] else [])
    ensures WithKey(Insert(t, x, key), key, k) == WithKey(t, key, k) + (if key(x) == k then [x] else [])
  {
    var t', last := t[..|t| - 1], t[|t| - 1];
    var r' := Insert(t', x, key);
    assert Insert(t, x, key) == r' + [last];
    assert t == t' + [last];
    WithKeyAppend(r', [last], key, k);
    WithKeySingle(last, key, k);
    WithKeyAppend(t', [last], key, k);
  }

  /** The sort orders keys from largest to smallest. */
  lemma {:induction false} SortDescSorted<T>(s: seq<T>, key: T -> int)
    ensures SortedDesc(SortDesc(s, key), key)
    decreases |s|
  {
    if s != [] {
      SortDescSorted(s[..|s| - 1], key);
      InsertSorted(SortDesc(s[..|s| - 1], key), s[|s| - 1], key);
    }
  }

  /** The sort is a permutation: same length, same multiset, and every
      predicate holds of as many elements after it as before it. */
  lemma {:induction false} SortDescPermutes<T>(s: seq<T>, key: T -> int, p: T -> bool)
    ensures |SortDesc(s, key)| == |s|
    ensures multiset(SortDesc(s, key)) == multiset(s)
    ensures Count(SortDesc(s, key), p) == Count(s, p)
    decreases |s|
  {
    if s != [] {
      var s', x := s[..|s| - 1], s[|s| - 1];
      assert s == s' + [x];
      SortDescPermutes(s', key, p);
      InsertLength(SortDesc(s', key), x, key);
      InsertCount(SortDesc(s', key), x, key, p);
      FilterAppend(s', [x], p);
      FilterSingle(x, p);
      calc {
        multiset(SortDesc(s, key));
        multiset(SortDesc(s', key)) + multiset{x};
        multiset(s') + multiset{x};
        multiset(s' + [x]);
      }
    }
  }

  /** The sort is stable: the elements sharing a key keep their input order. */
  lemma {:induction false} SortDescStable<T>(s: seq<T>, key: T -> int, k: int)
    ensures WithKey(SortDesc(s, key), key, k) == WithKey(s, key, k)
    decreases |s|
  {
    if s != [] {
      var s', x := s[..|s| - 1], s[|s| - 1];
      SortDescStable(s', key, k);
      InsertWithKey(SortDesc(s', key), x, key, k);
    }
  }

  /** Inserting adds the element's share to any sum over the sequence. */
  lemma {:induction false} InsertSumOf<T>(t: seq<T>, x: T, key: T -> int, f: T -> int)
    ensures SumOf(Insert(t, x, key), f) == SumOf(t, f) + f(x)
    decreases |t|
  {
    if t == [] || key(t[|t| - 1]) >= key(x) {
      assert (t + [x])[..|t|] == t;
    } else {
      var t', last := t[..|t| - 1], t[|t| - 1];
      InsertSumOf(t', x, key, f);
      var r := Insert(t', x, key) + [last];
      assert r[..|r| - 1] == Insert(t', x, key);
    }
  }

  /** Sorting does not change a sum over the sequence. */
  lemma {:induction false} SortDescSumOf<T>(s: seq<T>, key: T -> int, f: T -> int)
    ensures SumOf(SortDesc(s, key), f) == SumOf(s, f)
    decreases |s|
  {
    if s != [] {
      var s', x := s[..|s| - 1], s[|s| - 1];
      SortDescSumOf(s', key, f);
      InsertSumOf(SortDesc(s', key), x, key, f);
    }
  }

  /** Inserting an element whose name no element of `t` has keeps names distinct. */
  lemma {:induction false} InsertDistinct<T, K>(t: seq<T>, x: T, key: T -> int, name: T -> K)
    requires DistinctKeys(t, name)
    requires forall m :: 0 <= m < |t| ==> name(t[m]) != name(x)
    ensures DistinctKeys(Insert(t, x, key), name)
    decreases |t|
  {
    if t == [] || key(t[|t| - 1]) >= key(x) {
      DistinctKeysAppend(t, x, name);
    } else {
      var t', last := t[..|t| - 1], t[|t| - 1];
      InsertDistinct(t', x, key, name);
      InsertLength(t', x, key);
      var r' := Insert(t', x, key);
      forall m | 0 <= m < |r'| ensures name(r'[m]) != name(last) {
        assert r'[m] in multiset(r');
        if r'[m] != x {
          assert r'[m] in multiset(t');
          var j :| 0 <= j < |t'| && t'[j] == r'[m];
          assert t[j] == t'[j];
        }
      }
      DistinctKeysAppend(r', last, name);
    }
  }

  /** Sorting keeps names distinct. */
  lemma {:induction false} SortDescDistinct<T, K>(s: seq<T>, key: T -> int, name: T -> K)
    requires DistinctKeys(s, name)
    ensures DistinctKeys(SortDesc(s, key), name)
    decreases |s|
  {
    if s != [] {
      var s', x := s[..|s| - 1], s[|s| - 1];
      assert DistinctKeys(s', name) by {
        forall m, m' | 0 <= m < m' < |s'| ensures name(s'[m]) != name(s'[m']) {
          assert s'[m] == s[m] && s'[m'] == s[m'];
        }
      }
      SortDescDistinct(s', key, name);
      SortDescPermutes(s', key, _ => true);
      var t := SortDesc(s', key);
      forall m | 0 <= m < |t| ensures name(t[m]) != name(x) {
        assert t[m] in multiset(t);
        var j :| 0 <= j < |s'| && s'[j] == t[m];
        assert s[j] == s'[j];
      }
      InsertDistinct(t, x, key, name);
    }
  }

  /** When every element has key `k`, `WithKey` keeps them all. */
  lemma {:induction false} WithKeyAll<T>(s: seq<T>, key: T -> int, k: int)
    requires forall i :: 0 <= i < |s| ==> key(s[i]) == k
    ensures WithKey(s, key, k) == s
    decreases |s|
  {
    if s != [] {
      WithKeyAll(s[..|s| - 1], key, k);
    }
  }

  /** The elements of a prefix sharing a key are a prefix of all the
      elements sharing that key. */
  lemma {:induction false} WithKeyPrefix<T>(s: seq<T>, key: T -> int, k: int, n: nat)
    requires n <= |s|
    ensures |WithKey(s[..n], key, k)| <= |WithKey(s, key, k)|
    ensures WithKey(s[..n], key, k) == WithKey(s, key, k)[..|WithKey(s[..n], key, k)|]
    decreases |s|
  {
    if n == |s| {
      assert s[..n] == s;
    } else {
      var s' := s[..|s| - 1];
      assert s'[..n] == s[..n];
      WithKeyPrefix(s', key, k, n);
    }
  }

  /** `Insert` places `x` at position `j` when every element from `j` on has
      a smaller key and the element before `j`, if any, does not. */
  lemma {:induction false} InsertAt<T>(t: seq<T>, x: T, key: T -> int, j: nat)
    requires j <= |t|
    requires forall m :: j <= m < |t| ==> key(t[m]) < key(x)
    requires j == 0 || key(t[j - 1]) >= key(x)
    ensures Insert(t, x, key) == t[..j] + [x] + t[j..]
    decreases |t|
  {
    if j == |t| {
      assert t[..j] == t && t[j..] == [];
    } else {
      var t' := t[..|t| - 1];
      assert forall m :: j <= m < |t'| ==> t'[m] == t[m];
      assert j == 0 || t'[j - 1] == t[j - 1];
      InsertAt(t', x, key, j);
      assert t'[..j] == t[..j];
      assert t[j..] == t'[j..] + [t[|t| - 1]];
    }
  }

  /** Shifts the elements at the end of `a[..i]` whose key is smaller than
      that of `x` one place to the right, and returns the position `j` they
      leave free: the position where `Insert` puts `x`. */
  method MakeRoom<T>(a: array<T>, i: nat, x: T, key: T -> int) returns (j: nat)
    requires i < a.Length
    modifies a
    ensures j <= i
    ensures forall m :: 0 <= m < j ==> a[m] == old(a[m])
    ensures forall m :: j < m <= i ==> a[m] == old(a[m - 1])
    ensures forall m :: i < m < a.Length ==> a[m] == old(a[m])
    ensures Insert(old(a[..i]), x, key) == old(a[..i])[..j] + [x] + old(a[..i])[j..]
  {
    ghost var t := a[..i];
    j := i;
    while j > 0 && key(a[j - 1]) < key(x)
      invariant 0 <= j <= i
      invariant forall m :: 0 <= m < j ==> a[m] == t[m]
      invariant forall m :: j < m <= i ==> a[m] == t[m - 1]
      invariant forall m :: i < m < a.Length ==> a[m] == old(a[m])
      invariant forall m :: j <= m < i ==> key(t[m]) < key(x)
    {
      a[j] := a[j - 1];
      j := j - 1;
    }
    InsertAt(t, x, key, j);
  }

  /** Moves `a[i]` leftwards into the sorted prefix `a[..i]`, shifting the
      elements with a smaller key one place to the right. */
  method InsertInPlace<T>(a: array<T>, i: nat, key: T -> int)
    requires i < a.Length
    modifies a
    ensures a[..i + 1] == Insert(old(a[..i]), old(a[i]), key)
    ensures a[i + 1..] == old(a[i + 1..])
  {
    ghost var t := a[..i];
    var x := a[i];
    var j := MakeRoom(a, i, x, key);
    a[j] := x;
    assert a[..i + 1] == t[..j] + [x] + t[j..] by {
      forall m | 0 <= m <= i ensures a[..i + 1][m] == (t[..j] + [x] + t[j..])[m] {
        if m > j {
          assert (t[..j] + [x] + t[j..])[m] == t[m - 1];
        }
      }
    }
  }

  /** In-place insertion sort of an array, the effect of `a.sort((x, y) => key(y) - key(x))`. */
  method SortInPlace<T>(a: array<T>, key: T -> int)
    modifies a
    ensures a[..] == SortDesc(old(a[..]), key)
  {
    ghost var input := a[..];
    var i := 0;
    while i < a.Length
      invariant 0 <= i <= a.Length
      invariant a[..i] == SortDesc(input[..i], key)
      invariant a[i..] == input[i..]
    {
      InsertInPlace(a, i, key);
      assert input[..i + 1][..i] == input[..i];
      assert input[i] == old(a[..])[i];
      i := i + 1;
    }
    assert input[..a.Length] == input;
  }
}
