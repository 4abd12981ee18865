/** The records of the pipeline: a parsed CSV row, the cleaned repository
    record (`GitHubRepo`) and the analysis result (`AnalysisData`). */
module Types {
  import opened Wrappers

  /** One row as the CSV parser delivers it: every column is text. */
  datatype RawRow = RawRow(
    repositories: string,
    starsCount: string,
    forksCount: string,
    issuesCount: string,
    pullRequests: string,
    contributors: string,
    language: string)

  /** A cleaned repository record. The four counts are always numbers;
      `contributors` is `None` where the JavaScript value is NaN. */
  datatype Repo = Repo(
    repositories: string,
    starsCount: int,
    forksCount: int,
    issuesCount: int,
    pullRequests: int,
    contributors: Option<int>,
    language: string)

  /** The `stars_count` column of the cleaned rows, in row order. */
  function Stars(rows: seq<Repo>): (column: seq<int>)
    ensures |column| == |rows|
  {
    seq(|rows|, i requires 0 <= i < |rows| => rows[i].starsCount)
  }

  /** The `forks_count` column of the cleaned rows, in row order. */
  function Forks(rows: seq<Repo>): (column: seq<int>)
    ensures |column| == |rows|
  {
    seq(|rows|, i requires 0 <= i < |rows| => rows[i].forksCount)
  }

  /** The `issues_count` column of the cleaned rows, in row order. */
  function Issues(rows: seq<Repo>): (column: seq<int>)
    ensures |column| == |rows|
  {
    seq(|rows|, i requires 0 <= i < |rows| => rows[i].issuesCount)
  }

  /** The Pearson coefficient `numerator / sqrt(sxx * syy)`, kept unevaluated
      because the model has no square root; `Zero` is the fallback taken
      when that denominator is 0. The three sums are taken over deviations
      scaled by the row count, which keeps them integers; the scale factor
      cancels in the ratio. */
  datatype Correlation = Zero | Pearson(numerator: int, sxx: int, syy: int)

  /** The summary statistics. `varIssues` is the population variance of the
      issue counts: the source's `std_issues` is its square root. */
  datatype Stats = Stats(
    meanStars: real,
    medianIssues: int,
    varIssues: real,
    outliers: nat,
    corrStarsForks: Correlation)

  /** One language: how many repositories use it and their mean star count. */
  datatype LanguageStat = LanguageStat(language: string, repositories: nat, meanStars: real)

  datatype ActivityLevel = ActivityLevel(name: string, count: nat)

  /** The projection of a repository shown in the top-contributors chart. */
  datatype Contributor = Contributor(repositories: string, contributors: Option<int>)

  datatype IssueTrend = IssueTrend(rank: nat, issuesCount: int)

  datatype AnalysisData = AnalysisData(
    stats: Stats,
    languageStats: seq<LanguageStat>,
    activityLevels: seq<ActivityLevel>,
    contribOps: seq<Repo>,
    cleanedData: seq<Repo>,
    topContributors: seq<Contributor>,
    issueTrends: seq<IssueTrend>)
}
