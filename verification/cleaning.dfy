/** The cleaning half of the CSV `complete` callback: deduplicate the parsed
    rows by repository name, keeping the first, then normalise every kept
    row. JavaScript's `Number(text)` is the parameter `parse`, whose `None`
    is NaN. */
module Cleaning {
  import opened Wrappers
  import opened Types
  import opened FirstSeen

  function RepoName(row: RawRow): string {
    row.repositories
  }

  /** `Number(text) || 0`: the parsed count, or 0 where the parse is NaN. */
  function CountOrZero(parse: string -> Option<int>, text: string): int {
    parse(text).GetOr(0)
  }

  /** The per-row `map`: sentinel "NULL" language becomes "Unknown", sentinel
      "NULL" contributors becomes 0 (any other text is parsed with no fallback,
      so it may stay NaN), and the four counts fall back to 0. */
  function Normalise(parse: string -> Option<int>, row: RawRow): Repo {
    Repo(
      row.repositories,
      CountOrZero(parse, row.starsCount),
      CountOrZero(parse, row.forksCount),
      CountOrZero(parse, row.issuesCount),
      CountOrZero(parse, row.pullRequests),
      if row.contributors == "NULL" then Some(0) else parse(row.contributors),
      if row.language == "NULL" then "Unknown" else row.language)
  }

  /** The rows that are the first with their repository name. */
  function Dedup(raw: seq<RawRow>): seq<RawRow> {
    FirstOccurrences(raw, RepoName)
  }

  function Clean(parse: string -> Option<int>, raw: seq<RawRow>): (cleaned: seq<Repo>)
    ensures |cleaned| <= |raw|
  {
    var kept := Dedup(raw);
    seq(|kept|, i requires 0 <= i < |kept| => Normalise(parse, kept[i]))
  }

  /** Cleaned repository names are pairwise distinct. */
  lemma CleanNamesDistinct(parse: string -> Option<int>, raw: seq<RawRow>)
    ensures var cleaned := Clean(parse, raw);
      forall m, m' :: 0 <= m < m' < |cleaned| ==> cleaned[m].repositories != cleaned[m'].repositories
  {
    FirstOccurrencesDistinct(raw, RepoName);
    var kept, cleaned := Dedup(raw), Clean(parse, raw);
    forall m, m' | 0 <= m < m' < |cleaned| ensures cleaned[m].repositories != cleaned[m'].repositories {
      assert |kept| == |cleaned|;
      assert RepoName(FirstOccurrences(raw, RepoName)[m]) != RepoName(FirstOccurrences(raw, RepoName)[m']);
      assert cleaned[m].repositories == kept[m].repositories;
    }
  }

  /** Every repository name of the input survives cleaning. */
  lemma CleanKeepsEveryName(parse: string -> Option<int>, raw: seq<RawRow>, i: nat)
    requires i < |raw|
    ensures exists m :: 0 <= m < |Clean(parse, raw)| && Clean(parse, raw)[m].repositories == raw[i].repositories
  {
    FirstOccurrencesCovers(raw, RepoName, i);
    var m :| 0 <= m < |Dedup(raw)| && RepoName(Dedup(raw)[m]) == RepoName(raw[i]);
    assert Clean(parse, raw)[m].repositories == raw[i].repositories;
  }

  /** Cleaning keeps exactly the first row of each repository name, in input
      order, and normalises it: the row at position `m` of the output comes
      from input position `FirstIndices(raw, RepoName)[m]`, those positions
      increase, each is the first with its name, and none is missed. */
  lemma CleanKeepsFirstRows(parse: string -> Option<int>, raw: seq<RawRow>)
    ensures var cleaned, idx := Clean(parse, raw), FirstIndices(raw, RepoName);
      && |idx| == |cleaned|
      && (forall m, m' :: 0 <= m < m' < |idx| ==> idx[m] < idx[m'])
      && (forall m :: 0 <= m < |idx| ==>
            idx[m] < |raw| && IsFirst(raw, idx[m], RepoName) && cleaned[m] == Normalise(parse, raw[idx[m]]))
      && (forall i :: 0 <= i < |raw| && IsFirst(raw, i, RepoName) ==> i in idx)
  {
    FirstOccurrencesPicks(raw, RepoName);
    FirstIndicesAreFirst(raw, RepoName);
    FirstIndicesComplete(raw, RepoName);
  }

  /** What normalisation does to each field of a kept row. */
  lemma NormaliseFields(parse: string -> Option<int>, row: RawRow)
    ensures var r := Normalise(parse, row);
      && r.repositories == row.repositories
      && r.language != "NULL"
      && (row.language == "NULL" ==> r.language == "Unknown")
      && (row.language != "NULL" ==> r.language == row.language)
      && (row.contributors == "NULL" ==> r.contributors == Some(0))
      && (row.contributors != "NULL" ==> r.contributors == parse(row.contributors))
      && (forall v :: parse(row.starsCount) == Some(v) ==> r.starsCount == v)
      && (parse(row.starsCount) == None ==> r.starsCount == 0)
      && (forall v :: parse(row.forksCount) == Some(v) ==> r.forksCount == v)
      && (parse(row.forksCount) == None ==> r.forksCount == 0)
      && (forall v :: parse(row.issuesCount) == Some(v) ==> r.issuesCount == v)
      && (parse(row.issuesCount) == None ==> r.issuesCount == 0)
      && (forall v :: parse(row.pullRequests) == Some(v) ==> r.pullRequests == v)
      && (parse(row.pullRequests) == None ==> r.pullRequests == 0)
  {
  }

  /** No cleaned row carries the language sentinel. */
  lemma CleanHasNoLanguageSentinel(parse: string -> Option<int>, raw: seq<RawRow>)
    ensures forall m :: 0 <= m < |Clean(parse, raw)| ==> Clean(parse, raw)[m].language != "NULL"
  {
  }
}
