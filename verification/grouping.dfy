/** The language statistics of the analysis. The source folds the cleaned
    rows into a JavaScript object keyed by language whose values count the
    rows and total their stars, lists the object's entries, turns each into
    a count and a mean, sorts by count from largest to smallest and keeps
    ten. The object is modelled by the order in which its keys were added
    together with a map from key to tally. */
module Grouping {
  import opened Seqs
  import opened StableSort
  import opened NumberText
  import opened Types
  import opened FirstSeen
  import opened Statistics

  /** The value the fold keeps for one language: `{ repositories, stars_count }`. */
  datatype Tally = Tally(repositories: nat, starsCount: int)

  function LanguageOf(row: Repo): string {
    row.language
  }

  function HasLanguage(l: string): Repo -> bool {
    (row: Repo) => row.language == l
  }

  /** A row whose language is one of `ls`. */
  function LanguageIn(ls: seq<string>): Repo -> bool {
    (row: Repo) => row.language in ls
  }

  /** The `language` column of `rows`, in row order. */
  function LanguageColumn(rows: seq<Repo>): (column: seq<string>)
    ensures |column| == |rows|
  {
    seq(|rows|, i requires 0 <= i < |rows| => rows[i].language)
  }

  /** The languages of `rows`, each once, in the order the fold first meets
      them: the order in which it adds keys to the object. */
  function LanguagesSeen(rows: seq<Repo>): seq<string> {
    if rows == [] then []
    else
      var seen := LanguagesSeen(rows[..|rows| - 1]);
      var l := rows[|rows| - 1].language;
      if l in seen then seen else seen + [l]
  }

  /** The tally of language `l` over `rows`: how many rows have it, and
      their star total. */
  function TallyOf(rows: seq<Repo>, l: string): Tally {
    var group := Filter(rows, HasLanguage(l));
    Tally(|group|, Sum(Stars(group)))
  }

  /** The `reduce` callback: the row's language gets the tally
      `{ repositories: 0, stars_count: 0 }` if it has none yet, which then
      counts the row and adds its stars. */
  function AddRow(acc: map<string, Tally>, row: Repo): (acc': map<string, Tally>)
    ensures acc'.Keys == acc.Keys + {row.language}
  {
    var t := if row.language in acc then acc[row.language] else Tally(0, 0);
    acc[row.language := Tally(t.repositories + 1, t.starsCount + row.starsCount)]
  }

  /** The object the fold builds, starting from `{}`. */
  function TallyMap(rows: seq<Repo>): map<string, Tally> {
    if rows == [] then map[] else AddRow(TallyMap(rows[..|rows| - 1]), rows[|rows| - 1])
  }

  /** A language is listed exactly when some row has it. */
  lemma {:induction false} LanguagesSeenMembers(rows: seq<Repo>, l: string)
    ensures l in LanguagesSeen(rows) <==> exists i :: 0 <= i < |rows| && rows[i].language == l
    decreases |rows|
  {
    if rows != [] {
      var rows' := rows[..|rows| - 1];
      LanguagesSeenMembers(rows', l);
      assert forall i :: 0 <= i < |rows'| ==> rows'[i] == rows[i];
    }
  }

  /** No language is listed twice. */
  lemma {:induction false} LanguagesSeenDistinct(rows: seq<Repo>)
    ensures DistinctKeys(LanguagesSeen(rows), Itself)
    decreases |rows|
  {
    if rows != [] {
      var seen, l := LanguagesSeen(rows[..|rows| - 1]), rows[|rows| - 1].language;
      LanguagesSeenDistinct(rows[..|rows| - 1]);
      if l !in seen {
        DistinctKeysAppend(seen, l, Itself);
      }
    }
  }

  /** The listed languages are those of the rows that are the first with
      their language, in row order. */
  lemma {:induction false} LanguagesSeenFirstSeen(rows: seq<Repo>)
    ensures LanguagesSeen(rows) == LanguageColumn(FirstOccurrences(rows, LanguageOf))
    decreases |rows|
  {
    if rows != [] {
      var rows', x := rows[..|rows| - 1], rows[|rows| - 1];
      LanguagesSeenFirstSeen(rows');
      LanguagesSeenMembers(rows', x.language);
      assert forall j :: 0 <= j < |rows'| ==> rows'[j] == rows[j];
      assert IsFirst(rows, |rows| - 1, LanguageOf) <==> x.language !in LanguagesSeen(rows');
      var f' := FirstOccurrences(rows', LanguageOf);
      if x.language !in LanguagesSeen(rows') {
        assert LanguageColumn(f' + [x]) == LanguageColumn(f') + [x.language];
      }
    }
  }

  /** Adding a row adds one to its language's count and its stars to that
      language's total, and leaves the other languages alone. */
  lemma TallyStep(rows: seq<Repo>, r: Repo, l: string)
    ensures TallyOf(rows + [r], l) ==
      if r.language == l
      then Tally(TallyOf(rows, l).repositories + 1, TallyOf(rows, l).starsCount + r.starsCount)
      else TallyOf(rows, l)
  {
    var s := rows + [r];
    assert s[..|s| - 1] == rows;
    var g := Filter(rows, HasLanguage(l));
    if r.language == l {
      assert Filter(s, HasLanguage(l)) == g + [r];
      var c := Stars(g + [r]);
      assert c[..|c| - 1] == Stars(g) && c[|c| - 1] == r.starsCount;
    } else {
      assert Filter(s, HasLanguage(l)) == g;
    }
  }

  /** A language no row has tallies to nothing. */
  lemma TallyAbsent(rows: seq<Repo>, l: string)
    requires l !in LanguagesSeen(rows)
    ensures TallyOf(rows, l) == Tally(0, 0)
  {
    LanguagesSeenMembers(rows, l);
    FilterNone(rows, HasLanguage(l));
  }

  /** `acc` holds one tally per language of `rows`, each that language's own. */
  ghost predicate TalliesOf(acc: map<string, Tally>, rows: seq<Repo>) {
    && (forall l :: l in acc <==> l in LanguagesSeen(rows))
    && (forall l :: l in acc ==> acc[l] == TallyOf(rows, l))
  }

  /** One step of the fold keeps the object exact. */
  lemma TalliesStep(acc: map<string, Tally>, rows: seq<Repo>, r: Repo)
    requires TalliesOf(acc, rows)
    ensures TalliesOf(AddRow(acc, r), rows + [r])
  {
    var acc' := AddRow(acc, r);
    if r.language !in acc {
      TallyAbsent(rows, r.language);
    }
    SeenStep(rows, r);
    forall l | l in acc'
      ensures acc'[l] == TallyOf(rows + [r], l)
    {
      TallyStep(rows, r, l);
    }
  }

  /** The fold adds the row's language to the keys when it is new. */
  lemma SeenStep(rows: seq<Repo>, r: Repo)
    ensures var seen := LanguagesSeen(rows);
      LanguagesSeen(rows + [r]) == if r.language in seen then seen else seen + [r.language]
  {
    assert (rows + [r])[..|rows|] == rows;
  }

  /** The object the fold builds has a key for exactly the languages that
      occur, and each key's tally counts that language's rows and totals
      their stars. */
  lemma {:induction false} TallyMapTallies(rows: seq<Repo>)
    ensures TalliesOf(TallyMap(rows), rows)
    decreases |rows|
  {
    if rows != [] {
      var rows', r := rows[..|rows| - 1], rows[|rows| - 1];
      assert rows' + [r] == rows;
      TallyMapTallies(rows');
      TalliesStep(TallyMap(rows'), rows', r);
      assert TallyMap(rows) == AddRow(TallyMap(rows'), r);
    }
  }

  /** The fold over a longer prefix: one more call of the callback. */
  lemma PrefixStep(rows: seq<Repo>, i: nat)
    requires i < |rows|
    ensures TallyMap(rows[..i + 1]) == AddRow(TallyMap(rows[..i]), rows[i])
    ensures var seen := LanguagesSeen(rows[..i]);
      LanguagesSeen(rows[..i + 1]) == if rows[i].language in seen then seen else seen + [rows[i].language]
  {
    assert rows[..i + 1][..i] == rows[..i];
  }

  /** The `reduce` over the cleaned rows, starting from `{}`. `keys` is the
      order in which the object gained its keys. */
  method GroupByLanguage(rows: seq<Repo>) returns (keys: seq<string>, acc: map<string, Tally>)
    ensures keys == LanguagesSeen(rows)
    ensures acc == TallyMap(rows)
  {
    keys, acc := [], map[];
    for i := 0 to |rows|
      invariant keys == LanguagesSeen(rows[..i])
      invariant acc == TallyMap(rows[..i])
    {
      var row := rows[i];
      PrefixStep(rows, i);
      var t := if row.language in acc then acc[row.language] else Tally(0, 0);
      acc := acc[row.language := Tally(t.repositories + 1, t.starsCount + row.starsCount)];
      if row.language !in keys {
        keys := keys + [row.language];
      }
    }
    assert rows[..|rows|] == rows;
  }

  /** `2^32 - 1`, one more than the largest array index. */
  const ArrayIndexBound: nat := 4294967295

  /** A key that is an array index: the canonical decimal text, without
      leading zeros, of an integer below `2^32 - 1`. */
  predicate IsArrayIndex(key: string) {
    && key != []
    && AllDigits(key)
    && (key[0] == '0' ==> |key| == 1)
    && DigitsValue(key) < ArrayIndexBound
  }

  /** Array-index keys rank above all others, smaller indices higher; all
      other keys share rank 0. */
  function EntryRank(key: string): int {
    if IsArrayIndex(key) then ArrayIndexBound - DigitsValue(key) else 0
  }

  /** The key order of `Object.entries` for an object that gained its keys
      in the order `keys`: the array-index keys in ascending numeric order,
      then the other keys in the order they were added. */
  function Entries(keys: seq<string>): (entries: seq<string>)
    ensures |entries| == |keys|
  {
    SortDescPermutes(keys, EntryRank, _ => true);
    SortDesc(keys, EntryRank)
  }

  /** `Object.entries` lists every key once, array indices first and
      ascending, and the other keys in the order they were added. */
  lemma EntriesOrder(keys: seq<string>)
    ensures multiset(Entries(keys)) == multiset(keys)
    ensures forall i, j :: 0 <= i < j < |Entries(keys)| && IsArrayIndex(Entries(keys)[j]) ==>
      IsArrayIndex(Entries(keys)[i]) && DigitsValue(Entries(keys)[i]) <= DigitsValue(Entries(keys)[j])
    ensures WithKey(Entries(keys), EntryRank, 0) == WithKey(keys, EntryRank, 0)
  {
    SortDescPermutes(keys, EntryRank, _ => true);
    SortDescSorted(keys, EntryRank);
    SortDescStable(keys, EntryRank, 0);
  }

  /** Every entry is a key of the object the fold builds. */
  lemma EntriesOfSeen(rows: seq<Repo>)
    ensures forall l :: l in Entries(LanguagesSeen(rows)) ==> l in LanguagesSeen(rows) && l in TallyMap(rows)
  {
    var keys := LanguagesSeen(rows);
    TallyMapTallies(rows);
    SortDescPermutes(keys, EntryRank, _ => true);
    forall l | l in Entries(keys) ensures l in keys {
      assert l in multiset(Entries(keys));
    }
  }

  /** With no array-index key, `Object.entries` keeps the insertion order. */
  lemma EntriesPlain(keys: seq<string>)
    requires forall i :: 0 <= i < |keys| ==> !IsArrayIndex(keys[i])
    ensures Entries(keys) == keys
  {
    SortDescPermutes(keys, EntryRank, _ => true);
    var es := Entries(keys);
    forall i | 0 <= i < |es| ensures EntryRank(es[i]) == 0 {
      assert es[i] in multiset(keys);
    }
    WithKeyAll(keys, EntryRank, 0);
    WithKeyAll(es, EntryRank, 0);
    SortDescStable(keys, EntryRank, 0);
  }

  /** `stars_count / repositories`; never reached with a zero count. */
  function MeanStars(t: Tally): real {
    if t.repositories == 0 then 0.0 else t.starsCount as real / t.repositories as real
  }

  function Repositories(stat: LanguageStat): int {
    stat.repositories
  }

  function StatLanguage(stat: LanguageStat): string {
    stat.language
  }

  /** The `map` over the entries: each key with its count and mean stars. */
  function Summaries(keys: seq<string>, acc: map<string, Tally>): (stats: seq<LanguageStat>)
    requires forall l :: l in keys ==> l in acc
    ensures |stats| == |keys|
  {
    seq(|keys|, i requires 0 <= i < |keys| =>
      LanguageStat(keys[i], acc[keys[i]].repositories, MeanStars(acc[keys[i]])))
  }

  /** How many languages the statistics keep. */
  const TopLanguages: nat := 10

  /** `sort((a, b) => b.repositories - a.repositories).slice(0, 10)`. */
  function Ranked(stats: seq<LanguageStat>): seq<LanguageStat> {
    Take(SortDesc(stats, Repositories), TopLanguages)
  }

  /** The entries of the object the fold builds, each with its count and
      mean stars, in `Object.entries` order. */
  function EntrySummaries(rows: seq<Repo>): (stats: seq<LanguageStat>)
    ensures |stats| == |LanguagesSeen(rows)|
  {
    EntriesOfSeen(rows);
    Summaries(Entries(LanguagesSeen(rows)), TallyMap(rows))
  }

  /** `language_stats`: the ten most used languages with their counts and
      mean stars. */
  function LanguageStats(rows: seq<Repo>): seq<LanguageStat> {
    Ranked(EntrySummaries(rows))
  }

  /** The statistics before truncation, sorted by count. */
  function AllLanguageStats(rows: seq<Repo>): (stats: seq<LanguageStat>)
    ensures |stats| == |LanguagesSeen(rows)|
  {
    SortDescPermutes(EntrySummaries(rows), Repositories, _ => true);
    SortDesc(EntrySummaries(rows), Repositories)
  }

  /** The entry at position `k`: a language of the rows with its own tally. */
  lemma EntrySummaryAt(rows: seq<Repo>, k: nat)
    requires k < |EntrySummaries(rows)|
    ensures var stat := EntrySummaries(rows)[k]; var t := TallyOf(rows, stat.language);
      && stat.language == Entries(LanguagesSeen(rows))[k]
      && stat.language in LanguagesSeen(rows)
      && stat.repositories == t.repositories && stat.meanStars == MeanStars(t)
  {
    EntriesOfSeen(rows);
    TallyMapTallies(rows);
    assert Entries(LanguagesSeen(rows))[k] in Entries(LanguagesSeen(rows));
  }

  /** Every statistic is a language of the rows, listed with its own tally. */
  lemma AllLanguageStatsFrom(rows: seq<Repo>, i: nat)
    requires i < |AllLanguageStats(rows)|
    ensures AllLanguageStats(rows)[i].language in LanguagesSeen(rows)
    ensures var stat := AllLanguageStats(rows)[i]; var t := TallyOf(rows, stat.language);
      stat.repositories == t.repositories && stat.meanStars == MeanStars(t)
  {
    var summaries := EntrySummaries(rows);
    SortDescPermutes(summaries, Repositories, _ => true);
    var full := AllLanguageStats(rows);
    assert full[i] in multiset(summaries);
    var k :| 0 <= k < |summaries| && summaries[k] == full[i];
    EntrySummaryAt(rows, k);
  }

  lemma LanguageStatsPrefix(rows: seq<Repo>)
    ensures LanguageStats(rows) == Take(AllLanguageStats(rows), TopLanguages)
  {
  }

  lemma KeptStat(rows: seq<Repo>, i: nat)
    ensures i < |AllLanguageStats(rows)| && i < TopLanguages ==> LanguageStats(rows)[i] == AllLanguageStats(rows)[i]
  {
  }

  /** At most ten entries (fewer only when there are fewer languages),
      ordered by count from largest to smallest. */
  lemma LanguageStatsShape(rows: seq<Repo>)
    ensures |LanguageStats(rows)| == if |LanguagesSeen(rows)| < TopLanguages then |LanguagesSeen(rows)| else TopLanguages
    ensures SortedDesc(LanguageStats(rows), Repositories)
  {
    SortDescSorted(EntrySummaries(rows), Repositories);
    LanguageStatsPrefix(rows);
    var full, top := AllLanguageStats(rows), LanguageStats(rows);
    forall i, j | 0 <= i < j < |top| ensures top[i].repositories >= top[j].repositories {
      assert top[i] == full[i] && top[j] == full[j];
    }
  }

  /** No language has two entries. */
  lemma LanguageStatsDistinct(rows: seq<Repo>)
    ensures DistinctKeys(LanguageStats(rows), StatLanguage)
  {
    var keys := LanguagesSeen(rows);
    var es, summaries := Entries(keys), EntrySummaries(rows);
    LanguagesSeenDistinct(rows);
    SortDescDistinct(keys, EntryRank, Itself);
    assert DistinctKeys(summaries, StatLanguage) by {
      forall m, m' | 0 <= m < m' < |summaries| ensures summaries[m].language != summaries[m'].language {
        EntrySummaryAt(rows, m);
        EntrySummaryAt(rows, m');
        assert Itself(es[m]) != Itself(es[m']);
      }
    }
    SortDescDistinct(summaries, Repositories, StatLanguage);
    var full, top := AllLanguageStats(rows), LanguageStats(rows);
    LanguageStatsPrefix(rows);
    forall m, m' | 0 <= m < m' < |top| ensures StatLanguage(top[m]) != StatLanguage(top[m']) {
      assert top[m] == full[m] && top[m'] == full[m'];
    }
  }

  /** Each entry counts the rows with its language, at least one, and its
      mean is their star total over that count. */
  lemma LanguageStatsCounts(rows: seq<Repo>, i: nat)
    requires i < |LanguageStats(rows)|
    ensures var stat := LanguageStats(rows)[i]; var group := Filter(rows, HasLanguage(stat.language));
      && stat.repositories == |group| > 0
      && stat.meanStars == Sum(Stars(group)) as real / |group| as real
  {
    LanguageStatsPrefix(rows);
    var stat := LanguageStats(rows)[i];
    assert stat == AllLanguageStats(rows)[i];
    AllLanguageStatsFrom(rows, i);
    LanguagesSeenMembers(rows, stat.language);
    var j :| 0 <= j < |rows| && rows[j].language == stat.language;
    FilterKeeps(rows, HasLanguage(stat.language), j);
  }

  /** A language left out of the ten has no more rows than the last entry kept. */
  lemma LanguageStatsTop(rows: seq<Repo>, l: string)
    requires l in LanguagesSeen(rows)
    requires forall i :: 0 <= i < |LanguageStats(rows)| ==> LanguageStats(rows)[i].language != l
    ensures |LanguageStats(rows)| == TopLanguages
    ensures Count(rows, HasLanguage(l)) <= LanguageStats(rows)[TopLanguages - 1].repositories
  {
    var keys := LanguagesSeen(rows);
    var es, summaries := Entries(keys), EntrySummaries(rows);
    SortDescPermutes(keys, EntryRank, _ => true);
    SortDescPermutes(summaries, Repositories, _ => true);
    SortDescSorted(summaries, Repositories);
    LanguageStatsPrefix(rows);
    var full, top := AllLanguageStats(rows), LanguageStats(rows);
    assert l in multiset(es);
    var k :| 0 <= k < |es| && es[k] == l;
    EntrySummaryAt(rows, k);
    assert summaries[k] in multiset(full);
    var k' :| 0 <= k' < |full| && full[k'] == summaries[k];
    KeptStat(rows, k');
    assert k' >= TopLanguages;
    KeptStat(rows, TopLanguages - 1);
  }

  /** Entries with equal counts keep the `Object.entries` order. */
  lemma AllLanguageStatsStable(rows: seq<Repo>, k: int)
    ensures WithKey(AllLanguageStats(rows), Repositories, k) == WithKey(EntrySummaries(rows), Repositories, k)
  {
    SortDescStable(EntrySummaries(rows), Repositories, k);
  }

  /** The rows whose language is one of the distinct languages `ls` number
      the sum of the rows per language. */
  lemma {:induction false} CountLanguageIn(rows: seq<Repo>, ls: seq<string>, l: string)
    requires l !in ls
    ensures Count(rows, LanguageIn(ls + [l])) == Count(rows, LanguageIn(ls)) + Count(rows, HasLanguage(l))
    decreases |rows|
  {
    if rows != [] {
      CountLanguageIn(rows[..|rows| - 1], ls, l);
    }
  }

  lemma {:induction false} SummariesTotal(rows: seq<Repo>, ls: seq<string>, acc: map<string, Tally>)
    requires DistinctKeys(ls, Itself)
    requires forall l :: l in ls ==> l in acc && acc[l].repositories == Count(rows, HasLanguage(l))
    ensures SumOf(Summaries(ls, acc), Repositories) == Count(rows, LanguageIn(ls))
    decreases |ls|
  {
    if ls == [] {
      FilterNone(rows, LanguageIn(ls));
    } else {
      var ls', l := ls[..|ls| - 1], ls[|ls| - 1];
      DistinctKeysInit(ls, Itself);
      assert l !in ls' by {
        forall m | 0 <= m < |ls'| ensures ls'[m] != l {
          assert Itself(ls[m]) != Itself(l);
        }
      }
      SummariesTotal(rows, ls', acc);
      var s := Summaries(ls, acc);
      assert s[..|s| - 1] == Summaries(ls', acc);
      CountLanguageIn(rows, ls', l);
      assert ls == ls' + [l];
    }
  }

  /** The kept counts add up to at most the number of rows. */
  lemma LanguageStatsTotal(rows: seq<Repo>)
    ensures SumOf(LanguageStats(rows), Repositories) <= |rows|
  {
    var keys := LanguagesSeen(rows);
    var es := Entries(keys);
    LanguagesSeenDistinct(rows);
    SortDescDistinct(keys, EntryRank, Itself);
    EntriesOfSeen(rows);
    TallyMapTallies(rows);
    SummariesTotal(rows, es, TallyMap(rows));
    SortDescSumOf(EntrySummaries(rows), Repositories, Repositories);
    var full := AllLanguageStats(rows);
    LanguageStatsPrefix(rows);
    SumOfPrefix(full, Repositories, |LanguageStats(rows)|);
  }
}
