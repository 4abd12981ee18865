# GitHub repository dataset analysis: a Dafny model

The application loads a CSV file that describes GitHub repositories. The columns are:
- the repository name;
- star, fork, issue and pull-request counts;
- the contributor count;
- the primary language.

The CSV parser's `complete` callback does two things:

1. **Cleaning.** It keeps the first row of each repository name. It then normalises every row:
   - the sentinel language `"NULL"` becomes `"Unknown"`;
   - the sentinel contributor count `"NULL"` becomes 0, and any other contributor text goes through `Number`;
   - the four counts become `Number(text) || 0`.
2. **Analysis.** From the cleaned rows it derives:
   - the summary statistics: mean stars, upper median of issues, standard deviation of issues, z-score outliers, and the stars–forks Pearson correlation;
   - the ten most used languages, with their mean stars;
   - three issue-activity buckets;
   - the first five contribution opportunities;
   - the ten repositories with the most contributors;
   - the top twenty issue counts by rank.

The data view can download the cleaned rows as CSV text.

The model follows the source module by module:

| file | module | what it holds |
|---|---|---|
| `wrappers.dfy` | `Wrappers` | `Option`, standing for a JavaScript `NaN` where one can occur |
| `number_text.dfy` | `NumberText` | How `${n}` prints an integer, and `Number(text)` on decimal text |
| `seqs.dfy` | `Seqs` | `filter`, `filter(...).length`, `slice(0, n)`, sums |
| `first_seen.dfy` | `FirstSeen` | The `findIndex` first-occurrence filter |
| `stable_sort.dfy` | `StableSort` | The stable sort used by every `sort` call, as a function and as an in-place array method |
| `types.dfy` | `Types` | The raw row, the cleaned row and the analysis records |
| `cleaning.dfy` | `Cleaning` | The deduplicating filter and the per-row `map` |
| `statistics.dfy` | `Statistics` | Mean, median, variance, outliers, correlation |
| `grouping.dfy` | `Grouping` | The language `reduce`, `Object.entries` and the top-ten language table |
| `analysis.dfy` | `Analysis` | The other analysis parts and the `Analyze` method |
| `pipeline.dfy` | `Pipeline` | The whole callback, from parsed rows to the stored raw rows, cleaned data and analysis |
| `csv.dfy` | `Csv` | The download: header, one line per row, `join('\n')`; and reading the lines back |

`Number(text)` is a parameter of the cleaning, `parse: string -> Option<int>`, where `None` is `NaN`. `NumberText.ParseDecimal` is one such parser, defined for decimal integers.

Two behaviours of the code are easy to miss, and the model keeps both:
- **Contributor count.** Only the four counts fall back to 0. The contributor count goes through `Number` without `|| 0` (`src/App.tsx:33`), so unparsable text stays `NaN`. The model keeps it as `None`, and the download prints it as `NaN`.
- **Sort in place.** The issue ranking sorts the cleaned array in place (`src/App.tsx:96`). That same array is then stored as the cleaned data and as `cleaned_data` (`src/App.tsx:101`, `src/App.tsx:107`), so the stored cleaned data is ordered by issue count. Everything computed before the sort sees the original order.

## Model

| member | source | states |
|---|---|---|
| `FirstSeen.FirstOccurrences` | src/App.tsx:29 | The `findIndex` filter: the elements whose key occurs at no earlier position, in input order; never more elements than the input |
| `FirstSeen.FirstOccurrencesPicks` | src/App.tsx:29 | The first-occurrence filter yields the input at strictly increasing positions |
| `FirstSeen.FirstIndicesAreFirst` | src/App.tsx:29 | Each kept position holds the first element with its key (`index === findIndex(...)`) |
| `FirstSeen.FirstIndicesComplete` | src/App.tsx:29 | Every position that is first with its key is kept |
| `FirstSeen.FirstOccurrencesDistinct` | src/App.tsx:29 | No two kept elements share a key |
| `FirstSeen.FirstOccurrencesCovers` | src/App.tsx:29 | Every key of the input is the key of some kept element |
| `Cleaning.Normalise` | src/App.tsx:30-38 | The per-row `map`: the name as is; language `"NULL"` read as `"Unknown"`; contributors `"NULL"` read as 0, any other text as `Number(text)`, which may be NaN; each of the four counts as `Number(text) || 0` |
| `Cleaning.Clean` | src/App.tsx:28-38 | The cleaned rows: the first row of each repository name, in input order, each normalised; never more rows than the input |
| `Cleaning.CleanNamesDistinct` | src/App.tsx:28-38 | Cleaned repository names are pairwise distinct |
| `Cleaning.CleanKeepsEveryName` | src/App.tsx:28-38 | Every input repository name occurs among the cleaned rows |
| `Cleaning.CleanKeepsFirstRows` | src/App.tsx:28-38 | Cleaning keeps exactly the first row of each name, in input order, and normalises it |
| `Cleaning.NormaliseFields` | src/App.tsx:30-38 | Name kept; `"NULL"` language becomes `"Unknown"`, other languages kept; `"NULL"` contributors become 0, others are the parse; each count is its parse, or 0 when the parse is NaN |
| `Cleaning.CleanHasNoLanguageSentinel` | src/App.tsx:32 | No cleaned row has language `"NULL"` |
| `Statistics.Mean` | src/App.tsx:44 | `sum / length || 0`: the exact mean, and 0 for no values (the `|| 0` catches the `NaN` of `0 / 0`) |
| `Statistics.Median` | src/App.tsx:45-46 | The element at index `floor(n / 2)` of the ascending sort (the upper median), and 0 for no values |
| `Statistics.Variance` | src/App.tsx:47-50 | The square of `std_issues`: the sum of squared deviations from the mean over `n` (population, not sample), and 0 for no values |
| `Statistics.IsOutlier` | src/App.tsx:51-52 | The z-score test on a scaled deviation `d = n * (x - mean)` with `q = n^3` times the variance: `n * d^2 > 4 * q` when `q > 0`, and `|d| > 2 * n` (the divisor `std || 1` is 1) when `q = 0` |
| `Statistics.Outliers` | src/App.tsx:51-52 | The number of values that pass `IsOutlier` |
| `Statistics.PearsonOf` | src/App.tsx:53-59 | `Zero` when the product of the two sums of squares is 0, which is when `denominator !== 0` fails; otherwise the unevaluated ratio `numerator / sqrt(sxx * syy)` with all three parts scaled by powers of `n` that cancel |
| `Statistics.DevScalesDeviation` | src/App.tsx:44 | For nonempty input the scaled deviation `n*x - sum` is `n` times the distance from the mean (`sum / length`) |
| `Statistics.MeanConstant` | src/App.tsx:44 | The mean of equal values is that value |
| `Statistics.SortAscendingFacts` | src/App.tsx:45 | The ascending sort of the issue counts is ordered and a permutation, and it preserves every count |
| `Statistics.MedianIsValue` | src/App.tsx:45-46 | For nonempty input the median is one of the values |
| `Statistics.MedianBelow` | src/App.tsx:45-46 | At most `floor(n/2)` values lie below the upper median |
| `Statistics.MedianAbove` | src/App.tsx:45-46 | At most `floor((n-1)/2)` values lie above the upper median |
| `Statistics.MedianOfTwo` | src/App.tsx:45-46 | With two values the median is the larger one, not their average |
| `Statistics.SqDevZeroIff` | src/App.tsx:47-50 | Squared deviations sum to 0 exactly when every deviation is 0 |
| `Statistics.AtMeanIffConstant` | src/App.tsx:47-50 | Every value sits at the mean exactly when all values are equal |
| `Statistics.SumSquaresZeroIff` | src/App.tsx:47-50 | The sum of squared deviations is non-negative, and 0 exactly for constant input |
| `Statistics.VarianceZeroIffConstant` | src/App.tsx:47-50 | The population variance (`std_issues` squared) is non-negative, and 0 exactly when all issue counts are equal |
| `Statistics.VarianceIsPopulationVariance` | src/App.tsx:47-50 | `Variance` equals the textbook population variance, the squared distances from the mean summed and divided by `n` |
| `Statistics.VarianceExample` | src/App.tsx:47-50 | The variance of 0 and 2 is 1, where a sample variance would give 2 |
| `Statistics.ZScoreTest` | src/App.tsx:51-52 | For `D = d / n` and `V = q / n^3`, the integer test is `D^2 > 4 * V` when `V > 0`, and `|D| > 2` when `V = 0` |
| `Statistics.OutlierIsZScore` | src/App.tsx:51-52 | For a nonempty column, `IsOutlier` on a value's scaled deviation holds exactly when the value's squared distance from the mean exceeds four times the population variance or, with no variance, its distance exceeds 2 |
| `Statistics.OutliersAreZScores` | src/App.tsx:51-52 | `Outliers` counts exactly the values that pass that test on the reals |
| `Statistics.OutliersExample` | src/App.tsx:51-52 | Among five zeros and a ten there is one outlier; among four zeros and a ten, where the ten lies exactly two deviations out, there is none |
| `Statistics.OutlierMass` | src/App.tsx:51-52 | Outliers times four times the sum of squares is at most `n` times the squared deviations |
| `Statistics.OutliersAtMostQuarter` | src/App.tsx:51-52 | At most a quarter of the rows are z-score outliers (Chebyshev); with constant issues, including the divisor-1 fallback, there are none |
| `Statistics.CrossExpands` | src/App.tsx:53-58 | The sum of squares of `a*dy - b*dx` is non-negative and expands into the three deviation sums |
| `Statistics.CauchySchwarz` | src/App.tsx:54-58 | The squared numerator is at most the product under the square root |
| `Statistics.CorrelationZeroIff` | src/App.tsx:53-59 | The correlation falls back to 0 exactly when stars or forks are constant |
| `Statistics.CorrelationBounded` | src/App.tsx:53-59 | When the ratio is taken, its denominator is positive and its square is at most 1 |
| `Analysis.StatsOf` | src/App.tsx:44-59 | The summary statistics: mean stars, median issues, issue variance, outlier count, and the stars–forks correlation |
| `Analysis.StatsOfEmpty` | src/App.tsx:44-59 | With no rows, every statistic is 0 |
| `Grouping.TallyMap` | src/App.tsx:63-68 | The `reduce` result: the callback `AddRow` folded over the rows from the empty object |
| `Grouping.AddRow` | src/App.tsx:63-67 | The `reduce` callback gives the object exactly one new key, the row's language, when it has none |
| `Grouping.TallyStep` | src/App.tsx:64-66 | One more row adds 1 to its own language's count and its stars to that language's total, and leaves other languages alone |
| `Grouping.TallyAbsent` | src/App.tsx:64 | A language no row has tallies to `{0, 0}`, the value the callback starts from |
| `Grouping.TalliesStep` | src/App.tsx:63-67 | One call of the callback keeps the object exact: one key per language seen, each holding that language's count and star total |
| `Grouping.TallyMapTallies` | src/App.tsx:63-68 | The fold's result has a key for exactly the languages that occur; each value counts that language's rows and totals their stars |
| `Grouping.LanguagesSeenMembers` | src/App.tsx:63-68 | A language is a key exactly when some row has it |
| `Grouping.LanguagesSeenDistinct` | src/App.tsx:63-68 | No key is listed twice |
| `Grouping.LanguagesSeenFirstSeen` | src/App.tsx:63-68 | The key order is the languages of the rows that are first with their language, in row order |
| `Grouping.GroupByLanguage` | src/App.tsx:63-68 | The loop over the rows builds the fold's object and its key insertion order |
| `Grouping.Entries` | src/App.tsx:62 | `Object.entries` key order: array-index keys by ascending value, then the other keys in insertion order |
| `Grouping.EntriesOrder` | src/App.tsx:62 | `Object.entries` lists every key once, with array-index keys first in ascending numeric order; the other keys keep insertion order |
| `Grouping.EntriesPlain` | src/App.tsx:62 | Without array-index keys, `Object.entries` is the insertion order |
| `Grouping.EntriesOfSeen` | src/App.tsx:62-68 | Every entry is a language of the rows and a key of the object |
| `Grouping.EntrySummaryAt` | src/App.tsx:70-74 | Each mapped entry is its language with that language's count and `stars / repositories` |
| `Grouping.AllLanguageStatsFrom` | src/App.tsx:62-75 | Each sorted entry is a language of the rows with its own count and mean |
| `Grouping.AllLanguageStatsStable` | src/App.tsx:75 | Entries with equal counts keep their `Object.entries` order |
| `Grouping.LanguageStats` | src/App.tsx:62-76 | The language table: each entry of the object mapped to its language, count and mean stars, stably sorted by count from largest, and cut to ten |
| `Grouping.LanguageStatsShape` | src/App.tsx:62-76 | Ten entries, or one per language when there are fewer, in non-increasing count order |
| `Grouping.LanguageStatsDistinct` | src/App.tsx:62-76 | No language has two entries |
| `Grouping.LanguageStatsCounts` | src/App.tsx:62-76 | Each entry's count is the positive number of rows with its language, and its mean is their star total over that number |
| `Grouping.LanguageStatsTop` | src/App.tsx:75-76 | A language left out means the table is full, and that language has no more rows than the tenth entry |
| `Grouping.SummariesTotal` | src/App.tsx:70-74 | Over distinct languages, the mapped counts sum to the number of rows with one of them |
| `Grouping.LanguageStatsTotal` | src/App.tsx:62-76 | The table's counts add up to at most the number of rows |
| `Analysis.ActivityLevels` | src/App.tsx:79-83 | The three buckets, with the rows under 50 issues, from 50 to 100, and over 100 |
| `Analysis.ActivityLevelsPartition` | src/App.tsx:79-83 | Three buckets named Low, Medium, High, in that order, whose counts add up to the number of rows |
| `Analysis.ContribOps` | src/App.tsx:86 | The first five rows with more than 50 issues and fewer than 10 pull requests |
| `Analysis.ContribOpsSound` | src/App.tsx:86 | At most five entries; each has more than 50 issues and fewer than 10 pull requests and is a row; they are the first matches in row order |
| `Analysis.ContribOpsComplete` | src/App.tsx:86 | A matching row preceded by fewer than five matches is listed at the position equal to that number |
| `Analysis.ContribOpsAll` | src/App.tsx:86 | With at most five matches, all of them are listed |
| `Analysis.TopContributors` | src/App.tsx:89-92 | The name and contributor count of the first ten rows of a stable sort of a copy by contributors, from most |
| `Analysis.TopContributorsShape` | src/App.tsx:89-92 | Ten entries, or one per row when there are fewer, with non-increasing contributor counts |
| `Analysis.TopContributorsFrom` | src/App.tsx:89-92 | Each entry is the name and contributor count of some row |
| `Analysis.TopContributorsComplete` | src/App.tsx:89-92 | A row that is not listed means the list is full, and that row has no more contributors than the tenth entry |
| `Analysis.TopContributorsStable` | src/App.tsx:89-91 | Rows with equal contributor counts are listed in row order, as a prefix of all such rows |
| `Analysis.IssueTrends` | src/App.tsx:95-98 | Given the rows sorted by issues, the first twenty, each as its rank from 1 and its issue count |
| `Analysis.IssueTrendsShape` | src/App.tsx:95-98 | Twenty entries, or one per row when there are fewer; ranked 1, 2, …; issue counts non-increasing |
| `Analysis.IssueTrendsRank` | src/App.tsx:95-98 | The entry of rank `i + 1` holds some row's issue count; at most `i` rows have more issues, and at least `i + 1` rows have that many or more, so it is the `(i + 1)`-th largest count |
| `Analysis.IssueTrendsAtLeast` | src/App.tsx:95-98 | The first `i + 1` rows of the issue sort all have at least the issues of rank `i + 1` |
| `Analysis.AnalysisOf` | src/App.tsx:44-98 | The whole analysis of the cleaned rows in their original order; its issue trends and stored cleaned data come from the rows sorted by issues |
| `Analysis.Analyze` | src/App.tsx:44-110 | Sorts the cleaned array in place by issues and returns the analysis of the rows in their original order; the stored cleaned data is the sorted array |
| `Pipeline.Complete` | src/App.tsx:25-110 | The callback: the stored raw data is the parsed rows unchanged, the stored cleaned data is the cleaned rows sorted by issues, and the analysis is that of the cleaned rows |
| `StableSort.SortDesc` | src/App.tsx:96 | The stable sort by a key from largest to smallest, as insertion sort; the sorts at lines 45, 75 and 91 use it too (line 45 with the negated key) |
| `StableSort.SortDescSorted` | src/App.tsx:96 | `sort((a, b) => key(b) - key(a))` orders keys from largest to smallest |
| `StableSort.SortDescPermutes` | src/App.tsx:96 | The sort keeps the length, the multiset of elements, and the count of elements satisfying any predicate |
| `StableSort.SortDescStable` | src/App.tsx:96 | The sort is stable: elements with equal keys keep their order |
| `StableSort.SortDescSumOf` | src/App.tsx:75 | Sorting does not change a sum over the elements |
| `StableSort.SortDescDistinct` | src/App.tsx:75 | Sorting keeps distinct names distinct |
| `StableSort.WithKeyPrefix` | src/App.tsx:91 | The equal-key elements of a prefix are a prefix of all the equal-key elements |
| `StableSort.InsertSorted` | src/App.tsx:96 | Inserting into a sorted prefix keeps it sorted |
| `StableSort.InsertWithKey` | src/App.tsx:96 | The inserted element lands after every element that shares its key |
| `StableSort.MakeRoom` | src/App.tsx:96 | Shifts the larger part of the prefix one place right and returns where the element goes |
| `StableSort.InsertInPlace` | src/App.tsx:96 | Moves `a[i]` into the sorted prefix, giving the functional insertion, with the rest of the array unchanged |
| `StableSort.SortInPlace` | src/App.tsx:96 | The in-place array sort leaves exactly the functional stable sort of the old contents |
| `NumberText.IntToText` | src/components/DataView.tsx:17 | How `${n}` prints an integer: a minus sign for negatives, then the decimal digits without leading zeros |
| `NumberText.ParseDecimal` | src/App.tsx:34-37 | `Number(text)` on decimal-integer text: 0 for the empty text, an optional minus sign then digits, otherwise NaN |
| `NumberText.DigitsRoundTrip` | src/components/DataView.tsx:17 | The decimal digits of `n` read back as `n` |
| `NumberText.IntToTextRoundTrip` | src/components/DataView.tsx:17 | `Number(`${n}`)` is `n` for every integer |
| `NumberText.NaNRoundTrip` | src/components/DataView.tsx:17 | `Number("NaN")` is NaN again |
| `Csv.SplitNoSep` | src/components/DataView.tsx:19 | Text without the separator splits into itself |
| `Csv.SplitAppendSep` | src/components/DataView.tsx:19 | Splitting around a separator splits each side on its own |
| `Csv.SplitJoin` | src/components/DataView.tsx:19 | `split` undoes `join` when no part holds the separator |
| `Csv.SplitCount` | src/components/DataView.tsx:19 | Splitting gives one more piece than there are separators |
| `Csv.JoinSeparators` | src/components/DataView.tsx:19 | A join holds at least one separator between each pair of neighbouring parts, plus those inside any part |
| `Csv.JoinAvoids` | src/components/DataView.tsx:19 | A joined text holds no character that is absent from every part and is not the separator |
| `Csv.NumberTextPlain` | src/components/DataView.tsx:17 | A printed number holds no comma or newline |
| `Csv.FieldsPlain` | src/components/DataView.tsx:17 | When name and language have no separator, no field does |
| `Csv.Line` | src/components/DataView.tsx:16-18 | One row's line: its seven fields joined with commas, in header order, with no quoting |
| `Csv.LineFields` | src/components/DataView.tsx:16-18 | A line splits on commas into exactly the row's seven fields, in header order |
| `Csv.LineWithComma` | src/components/DataView.tsx:16-18 | A comma in the name or the language makes the line split into more than seven fields |
| `Csv.LinePlain` | src/components/DataView.tsx:16-18 | A line holds no newline when the row's name and language hold none; commas are allowed |
| `Csv.HeaderPlain` | src/components/DataView.tsx:15 | The header is one line |
| `Csv.HeaderColumns` | src/components/DataView.tsx:15 | The header splits into the seven column names, in field order |
| `Csv.ToCsv` | src/components/DataView.tsx:15-19 | The download: the header line, then one line per row, joined with newlines and no trailing newline |
| `Csv.ToCsvEmpty` | src/components/DataView.tsx:19 | With no rows the download is the header alone |
| `Csv.ToCsvLines` | src/components/DataView.tsx:15-19 | When no name or language holds a newline, the download splits on newlines into the header, then one line per row in order |
| `Csv.ToCsvRoundTrip` | src/components/DataView.tsx:15-19 | Reading line `i + 1` of the download back gives row `i` |

## Left out

- The CSV file download and its parsing by `Papa.parse`, including header handling, quoting and the parser's error callback. The model starts from the rows the parser delivers, as records of text fields. A row with missing columns is not modelled.
- `console.log`, the React state setters and the loading and error flags. `Pipeline.Complete` returns the three stored values (raw rows, cleaned data, analysis) instead of calling `setRawData`, `setCleanedData` and `setAnalysis`.
- The other views, charts and the Python server. The `Blob` and object-URL download in `src/components/DataView.tsx:20-26` is left out; the model stops at the CSV text.
- Floating point. Counts are unbounded integers. Means are exact rationals, and IEEE rounding is not modelled.
- `StatsOf`: holds the variance of the issue counts where the source holds its square root, `std_issues`. The model has no square root. The outlier test `|x - mean| / std > 2` is proved equal to its squared form, `(x - mean)^2 > 4 * variance`, on the exact reals (`OutlierIsZScore`). The correlation is kept unevaluated as `Pearson(numerator, sxx, syy)`; its bound and its zero case are proved on the squared parts.
- `Number(text)` is a parameter. Only its decimal-integer instance `ParseDecimal` is defined; fractional and exponent text, and the printing of non-integers, are not modelled.
- `ContributorsRank`: ranks a row whose contributor count is `NaN` as if it had 0 contributors. In the source the comparator then returns `NaN`, which the sort treats as "equal" inconsistently, so the engine's order for such rows is implementation-defined.
- `TopContributors`: states its order under that ranking, so a `NaN` count counts as 0.
- Keys such as `"constructor"` or `"__proto__"` are not modelled. In the source these names are inherited from `Object.prototype` and would make `acc[row.language] || {...}` misbehave. The model treats the accumulator as a plain map.
- `Grouping.MeanStars`: the branch for a zero count cannot be reached from the fold, because every key has at least one row. It returns 0.
