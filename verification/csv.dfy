/** The cleaned-data download: a header line, then one line per cleaned row
    with its seven fields joined by commas, all lines joined by newlines.
    Fields are written as they are, with no quoting or escaping, so the text
    splits back into the rows exactly when no name or language holds a comma
    or a newline. */
module Csv {
  import opened Wrappers
  import opened Seqs
  import opened Types
  import opened NumberText

  /** The column names, in the order the lines list the fields. */
  const Columns: seq<string> :=
    ["repositories", "stars_count", "forks_count", "issues_count", "pull_requests", "contributors", "language"]

  /** The first line of the download. */
  const Header: string :=
    "repositories" + "," + "stars_count" + "," + "forks_count" + "," + "issues_count" + ","
    + "pull_requests" + "," + "contributors" + "," + "language"

  /** `parts.join(sep)`: the parts with one `sep` between neighbours. */
  function Join(parts: seq<string>, sep: char): string {
    if |parts| == 0 then ""
    else if |parts| == 1 then parts[0]
    else Join(parts[..|parts| - 1], sep) + [sep] + parts[|parts| - 1]
  }

  /** `s.split(sep)`: the pieces between the separators; the empty string
      is one empty piece. */
  function Split(s: string, sep: char): (pieces: seq<string>)
    ensures |pieces| >= 1
  {
    if s == [] then [""] else Push(Split(s[..|s| - 1], sep), s[|s| - 1], sep)
  }

  /** One more character either starts a new piece or extends the last one. */
  function Push(pieces: seq<string>, c: char, sep: char): (pieces': seq<string>)
    requires |pieces| >= 1
    ensures |pieces'| >= 1
  {
    if c == sep then pieces + [""] else pieces[..|pieces| - 1] + [pieces[|pieces| - 1] + [c]]
  }

  /** The seven fields of a row as the template literal prints them, in
      the header's column order. */
  function Fields(row: Repo): seq<string> {
    [ row.repositories,
      IntToText(row.starsCount),
      IntToText(row.forksCount),
      IntToText(row.issuesCount),
      IntToText(row.pullRequests),
      NumberToText(row.contributors),
      row.language ]
  }

  function Line(row: Repo): string {
    Join(Fields(row), ',')
  }

  function Lines(rows: seq<Repo>): (lines: seq<string>)
    ensures |lines| == |rows|
  {
    seq(|rows|, i requires 0 <= i < |rows| => Line(rows[i]))
  }

  /** `[headers, ...rows].join('\n')`. */
  function ToCsv(rows: seq<Repo>): string {
    Join([Header] + Lines(rows), '\n')
  }

  /** Reads a line of the download back into a row; `None` when the line
      does not split into seven fields or a count is not a number. */
  function ReadLine(line: string): Option<Repo> {
    var f := Split(line, ',');
    if |f| != 7 then None
    else
      var stars, forks, issues, pulls := ParseDecimal(f[1]), ParseDecimal(f[2]), ParseDecimal(f[3]), ParseDecimal(f[4]);
      if stars.None? || forks.None? || issues.None? || pulls.None? then None
      else Some(Repo(f[0], stars.value, forks.value, issues.value, pulls.value, ParseDecimal(f[5]), f[6]))
  }

  /** The text fields of a row hold no newline. */
  predicate OneLine(row: Repo) {
    '\n' !in row.repositories && '\n' !in row.language
  }

  /** The text fields of a row hold neither separator. */
  predicate Plain(row: Repo) {
    OneLine(row) && ',' !in row.repositories && ',' !in row.language
  }

  function IsChar(c: char): char -> bool {
    (x: char) => x == c
  }

  /** Text without the separator is one piece. */
  lemma {:induction false} SplitNoSep(s: string, sep: char)
    requires sep !in s
    ensures Split(s, sep) == [s]
    decreases |s|
  {
    if s != [] {
      SplitNoSep(s[..|s| - 1], sep);
      assert s[..|s| - 1] + [s[|s| - 1]] == s;
    }
  }

  lemma SplitSnoc(s: string, c: char, sep: char)
    ensures Split(s + [c], sep) == Push(Split(s, sep), c, sep)
  {
    assert (s + [c])[..|s|] == s;
  }

  /** Pushing onto a split only touches its last piece. */
  lemma PushAppend(p: seq<string>, q: seq<string>, c: char, sep: char)
    requires |q| >= 1
    ensures Push(p + q, c, sep) == p + Push(q, c, sep)
  {
    if c == sep {
      assert p + q + [""] == p + (q + [""]);
    } else {
      var pq := p + q;
      assert pq[..|pq| - 1] == p + q[..|q| - 1];
    }
  }

  /** Splitting around a separator splits each side on its own. */
  lemma {:induction false} SplitAppendSep(a: string, b: string, sep: char)
    ensures Split(a + [sep] + b, sep) == Split(a, sep) + Split(b, sep)
    decreases |b|
  {
    if b == [] {
      SplitSnoc(a, sep, sep);
      assert a + [sep] + b == a + [sep];
    } else {
      var b', c := b[..|b| - 1], b[|b| - 1];
      var s' := a + [sep] + b';
      assert a + [sep] + b == s' + [c];
      assert b == b' + [c];
      SplitAppendSep(a, b', sep);
      SplitSnoc(s', c, sep);
      SplitSnoc(b', c, sep);
      PushAppend(Split(a, sep), Split(b', sep), c, sep);
    }
  }

  /** `split` undoes `join` when no part holds the separator. */
  lemma {:induction false} SplitJoin(parts: seq<string>, sep: char)
    requires |parts| >= 1
    requires forall i :: 0 <= i < |parts| ==> sep !in parts[i]
    ensures Split(Join(parts, sep), sep) == parts
    decreases |parts|
  {
    if |parts| == 1 {
      SplitNoSep(parts[0], sep);
    } else {
      var parts', last := parts[..|parts| - 1], parts[|parts| - 1];
      SplitJoin(parts', sep);
      SplitAppendSep(Join(parts', sep), last, sep);
      SplitNoSep(last, sep);
      assert parts == parts' + [last];
    }
  }

  /** There is one more piece than there are separators. */
  lemma {:induction false} SplitCount(s: string, sep: char)
    ensures |Split(s, sep)| == 1 + Count(s, IsChar(sep))
    decreases |s|
  {
    if s != [] {
      SplitCount(s[..|s| - 1], sep);
    }
  }

  /** A joined text holds one separator between each pair of neighbours,
      besides those inside the parts. */
  lemma {:induction false} JoinSeparators(parts: seq<string>, sep: char, i: nat)
    requires i < |parts|
    ensures Count(Join(parts, sep), IsChar(sep)) >= |parts| - 1 + Count(parts[i], IsChar(sep))
    decreases |parts|
  {
    if |parts| > 1 {
      var parts', last := parts[..|parts| - 1], parts[|parts| - 1];
      var j := if i < |parts'| then i else 0;
      JoinSeparators(parts', sep, j);
      CountAroundSep(Join(parts', sep), last, sep);
      if i < |parts'| {
        assert parts'[i] == parts[i];
      }
    }
  }

  /** Joining two texts around a separator adds their separators and one more. */
  lemma CountAroundSep(a: string, b: string, sep: char)
    ensures Count(a + [sep] + b, IsChar(sep)) == Count(a, IsChar(sep)) + 1 + Count(b, IsChar(sep))
  {
    FilterAppend(a + [sep], b, IsChar(sep));
    FilterAppend(a, [sep], IsChar(sep));
    FilterSingle(sep, IsChar(sep));
  }

  /** The printed text of a number holds neither separator. */
  lemma NumberTextPlain(x: Option<int>)
    ensures ',' !in NumberToText(x) && '\n' !in NumberToText(x)
  {
    match x
    case Some(n) =>
      var t := IntToText(n);
      assert forall i :: 0 <= i < |t| ==> t[i] != ',' && t[i] != '\n';
    case None =>
  }

  lemma FieldsPlain(row: Repo, sep: char)
    requires sep == ',' || sep == '\n'
    requires sep !in row.repositories && sep !in row.language
    ensures forall i :: 0 <= i < |Fields(row)| ==> sep !in Fields(row)[i]
  {
    NumberTextPlain(Some(row.starsCount));
    NumberTextPlain(Some(row.forksCount));
    NumberTextPlain(Some(row.issuesCount));
    NumberTextPlain(Some(row.pullRequests));
    NumberTextPlain(row.contributors);
  }

  /** A line splits on commas into exactly the row's seven fields, in the
      header's column order. */
  lemma LineFields(row: Repo)
    requires ',' !in row.repositories && ',' !in row.language
    ensures Split(Line(row), ',') == Fields(row)
    ensures |Split(Line(row), ',')| == 7
  {
    NumberTextPlain(Some(row.starsCount));
    NumberTextPlain(Some(row.forksCount));
    NumberTextPlain(Some(row.issuesCount));
    NumberTextPlain(Some(row.pullRequests));
    NumberTextPlain(row.contributors);
    SplitJoin(Fields(row), ',');
  }

  /** A name or language holding a comma splits the line into more than
      seven pieces. */
  lemma LineWithComma(row: Repo)
    requires ',' in row.repositories || ',' in row.language
    ensures |Split(Line(row), ',')| > 7
  {
    var fields := Fields(row);
    var i := if ',' in row.repositories then 0 else 6;
    var j :| 0 <= j < |fields[i]| && fields[i][j] == ',';
    FilterKeeps(fields[i], IsChar(','), j);
    JoinSeparators(fields, ',', i);
    SplitCount(Line(row), ',');
  }

  /** A character that is not the separator and is in no part is not in
      the joined text. */
  lemma {:induction false} JoinAvoids(parts: seq<string>, sep: char, c: char)
    requires c != sep
    requires forall i :: 0 <= i < |parts| ==> c !in parts[i]
    ensures c !in Join(parts, sep)
    decreases |parts|
  {
    if |parts| > 1 {
      JoinAvoids(parts[..|parts| - 1], sep, c);
    }
  }

  /** A line of a row whose texts hold no newline holds no newline. */
  lemma LinePlain(row: Repo)
    requires OneLine(row)
    ensures '\n' !in Line(row)
  {
    FieldsPlain(row, '\n');
    JoinAvoids(Fields(row), ',', '\n');
  }

  lemma HeaderPlain()
    ensures '\n' !in Header
  {
    assert '\n' !in "repositories" && '\n' !in "stars_count" && '\n' !in "forks_count";
    assert '\n' !in "issues_count" && '\n' !in "pull_requests" && '\n' !in "contributors";
    assert '\n' !in "language" && '\n' !in ",";
  }

  /** The header splits on commas into the seven column names. */
  lemma HeaderColumns()
    ensures Split(Header, ',') == Columns
  {
    assert ',' !in "repositories" && ',' !in "stars_count" && ',' !in "forks_count";
    assert ',' !in "issues_count" && ',' !in "pull_requests" && ',' !in "contributors";
    assert ',' !in "language";
    assert Join(Columns, ',') == Header by {
      var c := Columns;
      var h1 := "repositories";
      assert Join(c[..1], ',') == h1;
      var h2 := h1 + "," + "stars_count";
      assert Join(c[..2], ',') == h2 by { assert c[..2][..1] == c[..1]; }
      var h3 := h2 + "," + "forks_count";
      assert Join(c[..3], ',') == h3 by { assert c[..3][..2] == c[..2]; }
      var h4 := h3 + "," + "issues_count";
      assert Join(c[..4], ',') == h4 by { assert c[..4][..3] == c[..3]; }
      var h5 := h4 + "," + "pull_requests";
      assert Join(c[..5], ',') == h5 by { assert c[..5][..4] == c[..4]; }
      var h6 := h5 + "," + "contributors";
      assert Join(c[..6], ',') == h6 by { assert c[..6][..5] == c[..5]; }
      var h7 := h6 + "," + "language";
      assert Join(c[..7], ',') == h7 by { assert c[..7][..6] == c[..6]; }
      assert c[..7] == c;
    }
    SplitJoin(Columns, ',');
  }

  /** With no rows the download is the header alone. */
  lemma ToCsvEmpty()
    ensures ToCsv([]) == Header
  {
    assert [Header] + Lines([]) == [Header];
  }

  /** The download has one line per row after the header, in row order,
      and no trailing newline. */
  lemma ToCsvLines(rows: seq<Repo>)
    requires forall i :: 0 <= i < |rows| ==> OneLine(rows[i])
    ensures Split(ToCsv(rows), '\n') == [Header] + Lines(rows)
    ensures |Split(ToCsv(rows), '\n')| == |rows| + 1
    ensures Split(ToCsv(rows), '\n')[0] == Header
  {
    var lines := [Header] + Lines(rows);
    forall i | 0 <= i < |lines| ensures '\n' !in lines[i] {
      if i > 0 {
        assert lines[i] == Line(rows[i - 1]);
        LinePlain(rows[i - 1]);
      } else {
        HeaderPlain();
      }
    }
    SplitJoin(lines, '\n');
  }

  /** Reading the download back gives every row again, in order. */
  lemma ToCsvRoundTrip(rows: seq<Repo>, i: nat)
    requires forall i :: 0 <= i < |rows| ==> Plain(rows[i])
    requires i < |rows|
    ensures i + 1 < |Split(ToCsv(rows), '\n')|
    ensures ReadLine(Split(ToCsv(rows), '\n')[i + 1]) == Some(rows[i])
  {
    ToCsvLines(rows);
    var row := rows[i];
    assert Split(ToCsv(rows), '\n')[i + 1] == Line(row);
    LineFields(row);
    IntToTextRoundTrip(row.starsCount);
    IntToTextRoundTrip(row.forksCount);
    IntToTextRoundTrip(row.issuesCount);
    IntToTextRoundTrip(row.pullRequests);
    match row.contributors
    case Some(n) => IntToTextRoundTrip(n);
    case None => NaNRoundTrip();
  }
}
