/** First-occurrence deduplication by a string key, as written in the source with
    `filter((x, index, self) => index === self.findIndex(t => key(t) === key(x)))`:
    the element at `index` survives exactly when no earlier element has its key. */
module FirstSeen {
  import opened Seqs

  /** No element before position `i` has the key of `s[i]`. */
  predicate IsFirst<T>(s: seq<T>, i: nat, key: T -> string)
    requires i < |s|
  {
    forall j :: 0 <= j < i ==> key(s[j]) != key(s[i])
  }

  /** The elements of `s` that are the first with their key, in input order. */
  function FirstOccurrences<T>(s: seq<T>, key: T -> string): (r: seq<T>)
    ensures |r| <= |s|
  {
    if s == [] then []
    else FirstOccurrences(s[..|s| - 1], key) + (if IsFirst(s, |s| - 1, key) then [s[|s| - 1]] else [])
  }

  /** The positions of `s` that `FirstOccurrences` keeps, in increasing order. */
  ghost function FirstIndices<T>(s: seq<T>, key: T -> string): seq<nat> {
    if s == [] then []
    else FirstIndices(s[..|s| - 1], key) + (if IsFirst(s, |s| - 1, key) then [|s| - 1] else [])
  }

  /** `r` is the subsequence of `s` at the increasing positions `idx`. */
  ghost predicate Picks<T>(r: seq<T>, s: seq<T>, idx: seq<nat>) {
    && |idx| == |r|
    && (forall m :: 0 <= m < |idx| ==> idx[m] < |s| && r[m] == s[idx[m]])
    && (forall m, m' :: 0 <= m < m' < |idx| ==> idx[m] < idx[m'])
  }

  lemma IsFirstPrefix<T>(s: seq<T>, n: nat, i: nat, key: T -> string)
    requires i < n <= |s|
    ensures IsFirst(s[..n], i, key) == IsFirst(s, i, key)
  {
    assert forall j :: 0 <= j <= i ==> s[..n][j] == s[j];
  }

  /** The result is the input at the positions `FirstIndices`, which increase. */
  lemma {:induction false} FirstOccurrencesPicks<T>(s: seq<T>, key: T -> string)
    ensures Picks(FirstOccurrences(s, key), s, FirstIndices(s, key))
    decreases |s|
  {
    if s != [] {
      var s' := s[..|s| - 1];
      FirstOccurrencesPicks(s', key);
      var idx' := FirstIndices(s', key);
      assert forall m :: 0 <= m < |idx'| ==> s'[idx'[m]] == s[idx'[m]];
    }
  }

  /** Each position in `FirstIndices` holds the first element with its key. */
  lemma {:induction false} FirstIndicesAreFirst<T>(s: seq<T>, key: T -> string)
    ensures forall m :: 0 <= m < |FirstIndices(s, key)| ==>
      FirstIndices(s, key)[m] < |s| && IsFirst(s, FirstIndices(s, key)[m], key)
    decreases |s|
  {
    if s != [] {
      var s' := s[..|s| - 1];
      FirstIndicesAreFirst(s', key);
      var idx' := FirstIndices(s', key);
      forall m | 0 <= m < |idx'| ensures IsFirst(s, idx'[m], key) {
        IsFirstPrefix(s, |s| - 1, idx'[m], key);
      }
    }
  }

  /** Every position holding the first element with its key is in `FirstIndices`. */
  lemma {:induction false} FirstIndicesComplete<T>(s: seq<T>, key: T -> string)
    ensures forall i :: 0 <= i < |s| && IsFirst(s, i, key) ==> i in FirstIndices(s, key)
    decreases |s|
  {
    if s != [] {
      var s' := s[..|s| - 1];
      FirstIndicesComplete(s', key);
      forall i | 0 <= i < |s| - 1 && IsFirst(s, i, key) ensures i in FirstIndices(s, key) {
        IsFirstPrefix(s, |s| - 1, i, key);
        assert i in FirstIndices(s', key);
      }
    }
  }

  /** No two kept elements share a key. */
  lemma {:induction false} FirstOccurrencesDistinct<T>(s: seq<T>, key: T -> string)
    ensures DistinctKeys(FirstOccurrences(s, key), key)
    decreases |s|
  {
    if s != [] {
      var s', x := s[..|s| - 1], s[|s| - 1];
      FirstOccurrencesDistinct(s', key);
      if IsFirst(s, |s| - 1, key) {
        FirstOccurrencesPicks(s', key);
        var r', idx' := FirstOccurrences(s', key), FirstIndices(s', key);
        forall m | 0 <= m < |r'| ensures key(r'[m]) != key(x) {
          assert r'[m] == s'[idx'[m]] == s[idx'[m]];
        }
        DistinctKeysAppend(r', x, key);
      }
    }
  }

  /** Every key of the input is the key of some kept element. */
  lemma {:induction false} FirstOccurrencesCovers<T>(s: seq<T>, key: T -> string, i: nat)
    requires i < |s|
    ensures exists m :: 0 <= m < |FirstOccurrences(s, key)| && key(FirstOccurrences(s, key)[m]) == key(s[i])
    decreases |s|
  {
    var s', r := s[..|s| - 1], FirstOccurrences(s, key);
    var r' := FirstOccurrences(s', key);
    if i == |s| - 1 && IsFirst(s, i, key) {
      assert key(r[|r'|]) == key(s[i]);
    } else {
      var i' := if i < |s| - 1 then i else var j :| 0 <= j < i && key(s[j]) == key(s[i]); j;
      FirstOccurrencesCovers(s', key, i');
      var m :| 0 <= m < |r'| && key(r'[m]) == key(s'[i']);
      assert r[m] == r'[m];
    }
  }
}
