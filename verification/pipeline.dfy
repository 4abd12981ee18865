/** The whole CSV `complete` callback: the parsed rows are kept as they are, cleaned into a
    fresh array, the array is analysed, and the array, by then sorted by
    issue count, is what is kept as the cleaned data. */
module Pipeline {
  import opened Wrappers
  import opened Types
  import opened StableSort
  import opened Cleaning
  import opened Analysis

  /** From the parser's rows to the three stored values: the raw rows as
      parsed, the cleaned data and the analysis. */
  method Complete(parse: string -> Option<int>, data: seq<RawRow>)
    returns (rawData: seq<RawRow>, cleanedData: seq<Repo>, analysis: AnalysisData)
    ensures rawData == data
    ensures cleanedData == SortDesc(Clean(parse, data), IssuesOf)
    ensures analysis == AnalysisOf(Clean(parse, data))
    ensures analysis.cleanedData == cleanedData
  {
    var rows := Clean(parse, data);
    var cleaned := new Repo[|rows|](i requires 0 <= i < |rows| => rows[i]);
    assert cleaned[..] == rows;
    analysis := Analyze(cleaned);
    rawData, cleanedData := data, cleaned[..];
  }
}
