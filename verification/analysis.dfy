/** The analysis half of the CSV `complete` callback: from the cleaned rows
    it computes the summary statistics, the language statistics, the three
    activity buckets, the contribution opportunities, the top contributors
    and the issue ranking. The issue ranking sorts the cleaned array itself,
    so the array that is stored as the cleaned data afterwards is ordered by
    issue count; everything computed before that sort sees the rows in
    their original order. */
module Analysis {
  import opened Seqs
  import opened StableSort
  import opened Types
  import opened Statistics
  import opened Grouping

  /** `stats`: mean stars, upper median of issues, variance of issues (whose
      square root is `std_issues`), the z-score outlier count of issues and
      the stars-forks correlation. */
  function StatsOf(rows: seq<Repo>): Stats {
    Stats(
      Mean(Stars(rows)),
      Median(Issues(rows)),
      Variance(Issues(rows)),
      Outliers(Issues(rows)),
      PearsonOf(Stars(rows), Forks(rows)))
  }

  /** With no rows every statistic falls back to 0. */
  lemma StatsOfEmpty()
    ensures StatsOf([]) == Stats(0.0, 0, 0.0, 0, Zero)
  {
    assert Issues([]) == [];
  }

  // Activity levels

  const LowName := "Low (<50 issues)"
  const MediumName := "Medium (50-100 issues)"
  const HighName := "High (>100 issues)"

  predicate IsLow(row: Repo) {
    row.issuesCount < 50
  }

  predicate IsMedium(row: Repo) {
    50 <= row.issuesCount <= 100
  }

  predicate IsHigh(row: Repo) {
    row.issuesCount > 100
  }

  /** `activity_levels`: the rows counted in three issue-count buckets. */
  function ActivityLevels(rows: seq<Repo>): seq<ActivityLevel> {
    [ ActivityLevel(LowName, Count(rows, IsLow)),
      ActivityLevel(MediumName, Count(rows, IsMedium)),
      ActivityLevel(HighName, Count(rows, IsHigh)) ]
  }

  /** Every row falls in exactly one bucket, so the three counts, listed
      Low, Medium, High, add up to the number of rows. */
  lemma {:induction false} ActivityLevelsPartition(rows: seq<Repo>)
    ensures |ActivityLevels(rows)| == 3
    ensures ActivityLevels(rows)[0].name == LowName
    ensures ActivityLevels(rows)[1].name == MediumName
    ensures ActivityLevels(rows)[2].name == HighName
    ensures ActivityLevels(rows)[0].count + ActivityLevels(rows)[1].count + ActivityLevels(rows)[2].count == |rows|
    decreases |rows|
  {
    if rows != [] {
      ActivityLevelsPartition(rows[..|rows| - 1]);
    }
  }

  // Contribution opportunities

  /** Many open issues and few pull requests. */
  predicate IsContribOp(row: Repo) {
    row.issuesCount > 50 && row.pullRequests < 10
  }

  const ContribOpsLimit: nat := 5

  /** `contrib_ops`: the first five rows, in row order, that are opportunities. */
  function ContribOps(rows: seq<Repo>): seq<Repo> {
    Take(Filter(rows, IsContribOp), ContribOpsLimit)
  }

  /** At most five rows, each an opportunity and each a row of the input, in
      the order of the rows: the opportunities that come first. */
  lemma ContribOpsSound(rows: seq<Repo>)
    ensures |ContribOps(rows)| <= ContribOpsLimit
    ensures forall i :: 0 <= i < |ContribOps(rows)| ==> IsContribOp(ContribOps(rows)[i])
    ensures forall i :: 0 <= i < |ContribOps(rows)| ==> ContribOps(rows)[i] in rows
    ensures ContribOps(rows) == Filter(rows, IsContribOp)[..|ContribOps(rows)|]
  {
    var ops := ContribOps(rows);
    forall i | 0 <= i < |ops| ensures ops[i] in rows {
      FilterFrom(rows, IsContribOp, i);
    }
  }

  /** An opportunity preceded by fewer than five others is listed, at the
      position given by how many precede it. */
  lemma ContribOpsComplete(rows: seq<Repo>, j: nat)
    requires j < |rows| && IsContribOp(rows[j])
    requires Count(rows[..j], IsContribOp) < ContribOpsLimit
    ensures Count(rows[..j], IsContribOp) < |ContribOps(rows)|
    ensures ContribOps(rows)[Count(rows[..j], IsContribOp)] == rows[j]
  {
    assert rows == rows[..j] + ([rows[j]] + rows[j + 1..]);
    FilterAppend(rows[..j], [rows[j]] + rows[j + 1..], IsContribOp);
    FilterAppend([rows[j]], rows[j + 1..], IsContribOp);
    FilterSingle(rows[j], IsContribOp);
  }

  /** With five opportunities or fewer, all of them are listed. */
  lemma ContribOpsAll(rows: seq<Repo>)
    requires Count(rows, IsContribOp) <= ContribOpsLimit
    ensures ContribOps(rows) == Filter(rows, IsContribOp)
  {
  }

  // Top contributors

  /** The sort key of `b.contributors - a.contributors`, with NaN ranked as 0. */
  function ContributorsRank(row: Repo): int {
    row.contributors.GetOr(0)
  }

  function ContributorOf(row: Repo): Contributor {
    Contributor(row.repositories, row.contributors)
  }

  const TopContributorsLimit: nat := 10

  /** The rows behind `top_contributors`: a sorted copy, cut to ten. */
  function TopContributorRows(rows: seq<Repo>): seq<Repo> {
    Take(SortDesc(rows, ContributorsRank), TopContributorsLimit)
  }

  /** `top_contributors`: name and contributor count of the ten rows with
      the most contributors. */
  function TopContributors(rows: seq<Repo>): (top: seq<Contributor>)
    ensures |top| == |TopContributorRows(rows)|
  {
    var kept := TopContributorRows(rows);
    seq(|kept|, i requires 0 <= i < |kept| => ContributorOf(kept[i]))
  }

  /** Ten entries, or all rows when there are fewer, with contributor
      counts that never increase. */
  lemma TopContributorsShape(rows: seq<Repo>)
    ensures |TopContributors(rows)| == if |rows| < TopContributorsLimit then |rows| else TopContributorsLimit
    ensures forall i, j :: 0 <= i < j < |TopContributors(rows)| ==>
      TopContributors(rows)[i].contributors.GetOr(0) >= TopContributors(rows)[j].contributors.GetOr(0)
  {
    var full := SortDesc(rows, ContributorsRank);
    SortDescPermutes(rows, ContributorsRank, _ => true);
    SortDescSorted(rows, ContributorsRank);
    var top := TopContributors(rows);
    forall i, j | 0 <= i < j < |top| ensures top[i].contributors.GetOr(0) >= top[j].contributors.GetOr(0) {
      KeptContributor(rows, i);
      KeptContributor(rows, j);
    }
  }

  /** Each entry is the name and contributor count of a row. */
  lemma TopContributorsFrom(rows: seq<Repo>, i: nat)
    requires i < |TopContributors(rows)|
    ensures exists k :: 0 <= k < |rows| && TopContributors(rows)[i] == ContributorOf(rows[k])
  {
    var full := SortDesc(rows, ContributorsRank);
    SortDescPermutes(rows, ContributorsRank, _ => true);
    KeptContributor(rows, i);
    assert full[i] in multiset(rows);
    var k :| 0 <= k < |rows| && rows[k] == full[i];
  }

  /** A row whose projection is not listed has no more contributors than
      the last entry, and all ten places are taken. */
  lemma TopContributorsComplete(rows: seq<Repo>, k: nat)
    requires k < |rows|
    requires ContributorOf(rows[k]) !in TopContributors(rows)
    ensures |TopContributors(rows)| == TopContributorsLimit
    ensures ContributorsRank(rows[k]) <= TopContributors(rows)[TopContributorsLimit - 1].contributors.GetOr(0)
  {
    var full := SortDesc(rows, ContributorsRank);
    SortDescPermutes(rows, ContributorsRank, _ => true);
    SortDescSorted(rows, ContributorsRank);
    var kept, top := TopContributorRows(rows), TopContributors(rows);
    assert rows[k] in multiset(full);
    var p :| 0 <= p < |full| && full[p] == rows[k];
    KeptContributor(rows, p);
    assert p >= TopContributorsLimit;
    KeptContributor(rows, TopContributorsLimit - 1);
  }

  lemma KeptContributor(rows: seq<Repo>, p: nat)
    ensures p < |SortDesc(rows, ContributorsRank)| && p < TopContributorsLimit ==>
      TopContributors(rows)[p] == ContributorOf(SortDesc(rows, ContributorsRank)[p])
  {
  }

  /** Rows with equal contributor counts are listed in row order: they are
      the first ones of their count. */
  lemma TopContributorsStable(rows: seq<Repo>, c: int)
    ensures |WithKey(TopContributorRows(rows), ContributorsRank, c)| <= |WithKey(rows, ContributorsRank, c)|
    ensures WithKey(TopContributorRows(rows), ContributorsRank, c) ==
      WithKey(rows, ContributorsRank, c)[..|WithKey(TopContributorRows(rows), ContributorsRank, c)|]
  {
    var full := SortDesc(rows, ContributorsRank);
    SortDescStable(rows, ContributorsRank, c);
    WithKeyPrefix(full, ContributorsRank, c, |TopContributorRows(rows)|);
  }

  // Issue trends

  function IssuesOf(row: Repo): int {
    row.issuesCount
  }

  const IssueTrendsLimit: nat := 20

  /** `.map((row, index) => ({ rank: index + 1, issues_count })).slice(0, 20)`
      over rows already sorted by issues. */
  function IssueTrends(sorted: seq<Repo>): seq<IssueTrend> {
    var ranked := seq(|sorted|, i requires 0 <= i < |sorted| => IssueTrend(i + 1, sorted[i].issuesCount));
    Take(ranked, IssueTrendsLimit)
  }

  /** The row has more than `v` issues. */
  function MoreIssuesThan(v: int): Repo -> bool {
    (row: Repo) => row.issuesCount > v
  }

  /** The row has at least `v` issues. */
  function AtLeastIssues(v: int): Repo -> bool {
    (row: Repo) => row.issuesCount >= v
  }

  /** Twenty entries, or one per row when there are fewer, ranked 1, 2, ...
      with issue counts that never increase. */
  lemma IssueTrendsShape(rows: seq<Repo>)
    ensures var trends := IssueTrends(SortDesc(rows, IssuesOf));
      && |trends| == (if |rows| < IssueTrendsLimit then |rows| else IssueTrendsLimit)
      && (forall i :: 0 <= i < |trends| ==> trends[i].rank == i + 1)
      && (forall i, j :: 0 <= i < j < |trends| ==> trends[i].issuesCount >= trends[j].issuesCount)
  {
    var sorted := SortDesc(rows, IssuesOf);
    SortDescPermutes(rows, IssuesOf, _ => true);
    SortDescSorted(rows, IssuesOf);
    var trends := IssueTrends(sorted);
    forall i, j | 0 <= i < j < |trends| ensures trends[i].issuesCount >= trends[j].issuesCount {
      assert IssuesOf(sorted[i]) >= IssuesOf(sorted[j]);
    }
  }

  /** The entry of rank `i + 1` holds the issue count of some row, fewer
      than `i + 1` rows have more issues, and at least `i + 1` rows have
      that many or more: it is the `(i + 1)`-th largest issue count. */
  lemma IssueTrendsRank(rows: seq<Repo>, i: nat)
    requires i < |IssueTrends(SortDesc(rows, IssuesOf))|
    ensures var v := IssueTrends(SortDesc(rows, IssuesOf))[i].issuesCount;
      && (exists k :: 0 <= k < |rows| && rows[k].issuesCount == v)
      && Count(rows, MoreIssuesThan(v)) <= i
      && Count(rows, AtLeastIssues(v)) >= i + 1
  {
    var sorted := SortDesc(rows, IssuesOf);
    SortDescPermutes(rows, IssuesOf, MoreIssuesThan(sorted[i].issuesCount));
    SortDescSorted(rows, IssuesOf);
    var v := sorted[i].issuesCount;
    assert IssueTrends(sorted)[i].issuesCount == v;
    assert sorted[i] in multiset(rows);
    var more := MoreIssuesThan(v);
    var lo, hi := sorted[..i], sorted[i..];
    assert sorted == lo + hi;
    FilterAppend(lo, hi, more);
    forall m | 0 <= m < |hi| ensures !more(hi[m]) {
      assert hi[m] == sorted[i + m];
      assert IssuesOf(sorted[i]) >= IssuesOf(sorted[i + m]) || m == 0;
    }
    FilterNone(hi, more);
    IssueTrendsAtLeast(rows, i);
  }

  /** The rows up to rank `i + 1` all have at least the issues of that rank. */
  lemma IssueTrendsAtLeast(rows: seq<Repo>, i: nat)
    requires i < |SortDesc(rows, IssuesOf)|
    ensures Count(rows, AtLeastIssues(SortDesc(rows, IssuesOf)[i].issuesCount)) >= i + 1
  {
    var sorted := SortDesc(rows, IssuesOf);
    var v := sorted[i].issuesCount;
    var atLeast := AtLeastIssues(v);
    SortDescPermutes(rows, IssuesOf, atLeast);
    SortDescSorted(rows, IssuesOf);
    var lo, hi := sorted[..i + 1], sorted[i + 1..];
    assert sorted == lo + hi;
    FilterAppend(lo, hi, atLeast);
    forall m | 0 <= m < |lo| ensures atLeast(lo[m]) {
      assert lo[m] == sorted[m];
      assert IssuesOf(sorted[m]) >= IssuesOf(sorted[i]) || m == i;
    }
    FilterAll(lo, atLeast);
  }

  // The whole analysis

  /** The `AnalysisData` the callback stores for cleaned rows `rows`: every
      part but the last two sees the rows in their own order; the stored
      cleaned data and the issue ranking see them sorted by issues. */
  function AnalysisOf(rows: seq<Repo>): AnalysisData {
    var sorted := SortDesc(rows, IssuesOf);
    AnalysisData(
      StatsOf(rows),
      LanguageStats(rows),
      ActivityLevels(rows),
      ContribOps(rows),
      sorted,
      TopContributors(rows),
      IssueTrends(sorted))
  }

  /** The analysis part of the callback, on the array `cleaned`. The issue
      ranking sorts `cleaned` in place, so afterwards the array is ordered by
      issue count, and the analysis stores that reordered array. */
  method Analyze(cleaned: array<Repo>) returns (analysis: AnalysisData)
    modifies cleaned
    ensures cleaned[..] == SortDesc(old(cleaned[..]), IssuesOf)
    ensures analysis == AnalysisOf(old(cleaned[..]))
    ensures analysis.cleanedData == cleaned[..]
  {
    var rows := cleaned[..];
    var stats := StatsOf(rows);
    var keys, acc := GroupByLanguage(rows);
    EntriesOfSeen(rows);
    var languageStats := Ranked(Summaries(Entries(keys), acc));
    var activityLevels := ActivityLevels(rows);
    var contribOps := ContribOps(rows);
    var topContributors := TopContributors(rows);
    SortInPlace(cleaned, IssuesOf);
    var issueTrends := IssueTrends(cleaned[..]);
    analysis := AnalysisData(stats, languageStats, activityLevels, contribOps,
      cleaned[..], topContributors, issueTrends);
  }
}
