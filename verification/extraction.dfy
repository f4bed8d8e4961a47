/**
 * Raw table extraction from the quoted lines found in a contribution report.
 *
 * A matched line looks like "c0","c1",...,"cn" with optional blanks around the
 * commas. Every closing-quote/comma/opening-quote separator is replaced by a
 * token, the outer quotes are stripped, the text is split on the token and each
 * cell has its newlines turned into spaces and is trimmed. The rows are then
 * padded with None up to the widest row, under the headers Columna_0, Columna_1...
 */
module Extraction {
  import opened Common
  import opened Text

  /** The column separator token substituted into a line before splitting. */
  const Token: string := "||SEP||"

  predicate AllSpace(s: string) {
    forall i :: 0 <= i < |s| ==> IsSpace(s[i])
  }

  /** The length of the run of whitespace at the start of s (what `\s*` matches greedily). */
  function SpaceRun(s: string): (k: nat)
    ensures k <= |s| && AllSpace(s[..k])
    ensures k < |s| ==> !IsSpace(s[k])
  {
    if s != [] && IsSpace(s[0]) then
      var k := 1 + SpaceRun(s[1..]);
      assert s[..k] == [s[0]] + s[1..][..k - 1];
      k
    else 0
  }

  /**
   * The length of a match of the separator pattern (quote, blanks, comma,
   * blanks, quote) at the very start of s; 0 when there is none. Neither a comma
   * nor a quote is whitespace, so the greedy blank runs never need to backtrack.
   */
  function SeparatorMatch(s: string): (n: nat)
    ensures n == 0 || (3 <= n <= |s| && s[0] == '"' && s[n - 1] == '"')
  {
    if s == [] || s[0] != '"' then 0
    else
      var k1 := SpaceRun(s[1..]);
      if 1 + k1 < |s| && s[1 + k1] == ',' then
        var k2 := SpaceRun(s[2 + k1..]);
        if 2 + k1 + k2 < |s| && s[2 + k1 + k2] == '"' then 3 + k1 + k2 else 0
      else 0
  }

  /** Replacing every separator by the token, scanning left to right without overlaps. */
  function SubstituteSeparators(s: string): string
    decreases |s|
  {
    if s == [] then []
    else
      var n := SeparatorMatch(s);
      if n > 0 then Token + SubstituteSeparators(s[n..]) else [s[0]] + SubstituteSeparators(s[1..])
  }

  function DropLeadingQuotes(s: string): string {
    if s != [] && s[0] == '"' then DropLeadingQuotes(s[1..]) else s
  }

  function DropTrailingQuotes(s: string): string {
    if s != [] && s[|s| - 1] == '"' then DropTrailingQuotes(s[..|s| - 1]) else s
  }

  /** Stripping quote characters from both ends of a text. */
  function StripQuotes(s: string): string {
    DropTrailingQuotes(DropLeadingQuotes(s))
  }

  /** Splitting on every (leftmost, non-overlapping) occurrence of the token. */
  function SplitOnToken(s: string): (parts: seq<string>)
    ensures |parts| >= 1
    decreases |s|
  {
    if |s| >= |Token| && s[..|Token|] == Token then [[]] + SplitOnToken(s[|Token|..])
    else if s == [] then [[]]
    else
      var rest := SplitOnToken(s[1..]);
      [[s[0]] + rest[0]] + rest[1..]
  }

  /** A cell as stored: newlines become spaces, surrounding whitespace is dropped. */
  function CleanCell(c: string): string {
    Trim(NewlinesToSpaces(c))
  }

  /** A stored cell holds no newline and neither starts nor ends with whitespace. */
  lemma CleanCellShape(c: string)
    ensures '\n' !in CleanCell(c)
    ensures CleanCell(c) != [] ==> !IsSpace(CleanCell(c)[0]) && !IsSpace(CleanCell(c)[|CleanCell(c)| - 1])
  {
    var t := NewlinesToSpaces(c);
    var i, j := TrimSpec(t);
    forall k | i <= k < j ensures t[k] != '\n' { }
  }


  function CleanCells(cells: seq<string>): seq<string> {
    seq(|cells|, i requires 0 <= i < |cells| => CleanCell(cells[i]))
  }

  /** The cells of one matched line. */
  function SplitLine(line: string): (cells: seq<string>)
    ensures |cells| >= 1
  {
    CleanCells(SplitOnToken(StripQuotes(SubstituteSeparators(line))))
  }

  // ---------------------------------------------------------------------------
  // The shape of a matched line, and what splitting it gives back.

  /** The blanks before and after one separating comma. */
  datatype Gap = Gap(before: string, after: string)

  predicate ValidGap(g: Gap) {
    AllSpace(g.before) && AllSpace(g.after)
  }

  function GapText(g: Gap): string {
    g.before + [','] + g.after
  }

  /** A text that is nothing but a comma with blanks around it. */
  ghost predicate IsGapText(c: string) {
    exists g: Gap :: ValidGap(g) && c == GapText(g)
  }

  /** Everything after the opening quote of the first cell: contents, quotes and separators. */
  function QuotedTail(cells: seq<string>, gaps: seq<Gap>): string
    requires |cells| == |gaps| + 1
    decreases |gaps|
  {
    if gaps == [] then cells[0] + ['"']
    else cells[0] + ['"'] + GapText(gaps[0]) + ['"'] + QuotedTail(cells[1..], gaps[1..])
  }

  /** The line "c0" g0 "c1" g1 ... "cn" where each gap is a comma with optional blanks. */
  function QuotedLine(cells: seq<string>, gaps: seq<Gap>): string
    requires |cells| == |gaps| + 1
  {
    ['"'] + QuotedTail(cells, gaps)
  }

  function JoinWithToken(cells: seq<string>): string
    requires |cells| >= 1
  {
    if |cells| == 1 then cells[0] else cells[0] + Token + JoinWithToken(cells[1..])
  }

  /** The contents of a cell as the report prints them: no quote and no bar character. */
  predicate PlainCell(c: string) {
    '"' !in c && '|' !in c
  }

  lemma {:induction false} SubstitutePlain(c: string, rest: string)
    requires '"' !in c
    ensures SubstituteSeparators(c + rest) == c + SubstituteSeparators(rest)
  {
    if c != [] {
      assert (c + rest)[0] == c[0];
      assert (c + rest)[1..] == c[1..] + rest;
      SubstitutePlain(c[1..], rest);
      assert c == [c[0]] + c[1..];
    } else {
      assert c + rest == rest;
    }
  }

  lemma SpaceRunBefore(w: string, x: char, rest: string)
    requires AllSpace(w) && !IsSpace(x)
    ensures SpaceRun(w + [x] + rest) == |w|
  {
    if w != [] {
      assert (w + [x] + rest)[1..] == w[1..] + [x] + rest;
      SpaceRunBefore(w[1..], x, rest);
    }
  }

  lemma SeparatorMatchGap(g: Gap, rest: string)
    requires ValidGap(g)
    ensures SeparatorMatch(['"'] + GapText(g) + ['"'] + rest) == |GapText(g)| + 2
  {
    var s := ['"'] + GapText(g) + ['"'] + rest;
    var k1 := |g.before|;
    assert s[1..] == g.before + [','] + (g.after + ['"'] + rest);
    SpaceRunBefore(g.before, ',', g.after + ['"'] + rest);
    assert s[1 + k1] == ',';
    assert s[2 + k1..] == g.after + ['"'] + rest;
    SpaceRunBefore(g.after, '"', rest);
  }

  lemma SubstituteSeparatorAt(g: Gap, tail: string)
    requires ValidGap(g)
    ensures SubstituteSeparators(['"'] + GapText(g) + ['"'] + tail) == Token + SubstituteSeparators(tail)
  {
    var s := ['"'] + GapText(g) + ['"'] + tail;
    SeparatorMatchGap(g, tail);
    assert s[|GapText(g)| + 2..] == tail;
  }

  /** One cell, its closing quote and the separator after it become the cell and the token. */
  lemma SubstituteCell(c: string, g: Gap, tail: string)
    requires '"' !in c && ValidGap(g)
    ensures SubstituteSeparators(c + (['"'] + GapText(g) + ['"'] + tail))
            == c + Token + SubstituteSeparators(tail)
  {
    SubstitutePlain(c, ['"'] + GapText(g) + ['"'] + tail);
    SubstituteSeparatorAt(g, tail);
  }

  lemma {:induction false} SubstituteTail(cells: seq<string>, gaps: seq<Gap>)
    requires |cells| == |gaps| + 1
    requires forall i :: 0 <= i < |cells| ==> '"' !in cells[i]
    requires forall i :: 0 <= i < |gaps| ==> ValidGap(gaps[i])
    ensures SubstituteSeparators(QuotedTail(cells, gaps)) == JoinWithToken(cells) + ['"']
    decreases |gaps|
  {
    if gaps == [] {
      SubstitutePlain(cells[0], ['"']);
      assert SubstituteSeparators(['"']) == ['"'];
    } else {
      var tail := QuotedTail(cells[1..], gaps[1..]);
      assert QuotedTail(cells, gaps) == cells[0] + (['"'] + GapText(gaps[0]) + ['"'] + tail);
      SubstituteCell(cells[0], gaps[0], tail);
      SubstituteTail(cells[1..], gaps[1..]);
      assert JoinWithToken(cells) == cells[0] + Token + JoinWithToken(cells[1..]);
    }
  }

  lemma {:induction false} SpaceRunStops(a: string, x: char, b: string)
    requires !IsSpace(x)
    ensures SpaceRun(a + [x] + b) <= |a|
  {
    if a != [] {
      assert (a + [x] + b)[1..] == a[1..] + [x] + b;
      SpaceRunStops(a[1..], x, b);
    } else {
      assert (a + [x] + b)[0] == x;
    }
  }

  lemma GapFromRuns(c: string, k: nat)
    requires k < |c| && c[k] == ',' && AllSpace(c[..k]) && AllSpace(c[k + 1..])
    ensures IsGapText(c)
  {
    var g := Gap(c[..k], c[k + 1..]);
    assert c == GapText(g);
  }

  /** A separator matched at the opening quote of the first cell makes that cell a lone comma. */
  lemma FirstCellMatch(c: string, rest: string)
    requires '"' !in c
    ensures SeparatorMatch(['"'] + c + ['"'] + rest) > 0 ==> IsGapText(c)
  {
    var s := ['"'] + c + ['"'] + rest;
    if SeparatorMatch(s) > 0 {
      var k1 := SpaceRun(s[1..]);
      var k2 := SpaceRun(s[2 + k1..]);
      assert s[1 + k1] == ',' && s[2 + k1 + k2] == '"';
      assert s[1..] == c + ['"'] + rest;
      assert k1 < |c| by {
        SpaceRunStops(c, '"', rest);
        assert s[1 + |c|] == '"';
      }
      assert s[1..][..k1] == c[..k1];
      assert s[2 + k1..] == c[k1 + 1..] + ['"'] + rest;
      assert 2 + k1 + k2 == |c| + 1 by {
        SpaceRunStops(c[k1 + 1..], '"', rest);
        forall j | 1 <= j <= |c| ensures s[j] != '"' {
          assert s[j] == c[j - 1];
        }
      }
      assert s[2 + k1..][..k2] == c[k1 + 1..];
      GapFromRuns(c, k1);
    }
  }


  lemma StripQuotesAround(x: string)
    requires '"' !in x
    ensures StripQuotes(['"'] + x + ['"']) == x
  {
    var s := ['"'] + x + ['"'];
    assert s[1..] == x + ['"'];
    if x == [] {
      assert s[1..][1..] == [];
      assert DropLeadingQuotes(s) == DropLeadingQuotes(s[1..]) == DropLeadingQuotes([]);
    } else {
      assert (x + ['"'])[0] == x[0];
      assert DropLeadingQuotes(s) == x + ['"'];
      assert (x + ['"'])[..|x|] == x;
      assert x[|x| - 1] in x;
      assert DropTrailingQuotes(x) == x;
      assert DropTrailingQuotes(x + ['"']) == DropTrailingQuotes(x);
    }
  }

  lemma {:induction false} SplitPlain(c: string, rest: string)
    requires '|' !in c
    ensures SplitOnToken(c + rest)
            == [c + SplitOnToken(rest)[0]] + SplitOnToken(rest)[1..]
  {
    var parts := SplitOnToken(rest);
    if c == [] {
      assert c + rest == rest;
      assert c + parts[0] == parts[0];
      assert [parts[0]] + parts[1..] == parts;
    } else {
      var s := c + rest;
      assert s[0] == c[0] && s[0] != '|';
      assert |s| < |Token| || s[..|Token|][0] != Token[0];
      assert s[1..] == c[1..] + rest;
      SplitPlain(c[1..], rest);
      var r := SplitOnToken(s[1..]);
      assert r == [c[1..] + parts[0]] + parts[1..];
      assert SplitOnToken(s) == [[s[0]] + r[0]] + r[1..];
      assert [s[0]] + r[0] == c + parts[0];
      assert r[1..] == parts[1..];
    }
  }

  lemma {:induction false} SplitJoin(cells: seq<string>)
    requires |cells| >= 1
    requires forall i :: 0 <= i < |cells| ==> '|' !in cells[i]
    ensures SplitOnToken(JoinWithToken(cells)) == cells
    decreases |cells|
  {
    if |cells| == 1 {
      SplitPlain(cells[0], []);
      assert cells[0] + [] == cells[0];
      assert SplitOnToken([]) == [[]];
      assert cells == [cells[0]];
    } else {
      var rest := Token + JoinWithToken(cells[1..]);
      SplitPlain(cells[0], rest);
      assert rest[..|Token|] == Token;
      assert rest[|Token|..] == JoinWithToken(cells[1..]);
      SplitJoin(cells[1..]);
      assert SplitOnToken(rest) == [[]] + cells[1..];
      assert JoinWithToken(cells) == cells[0] + rest;
      assert cells[0] + [] == cells[0];
      assert cells == [cells[0]] + cells[1..];
    }
  }

  lemma {:induction false} JoinPlain(cells: seq<string>)
    requires |cells| >= 1
    requires forall i :: 0 <= i < |cells| ==> '"' !in cells[i]
    ensures '"' !in JoinWithToken(cells)
    decreases |cells|
  {
    if |cells| > 1 {
      JoinPlain(cells[1..]);
    }
  }

  /** No separator starts at the opening quote of a line whose first cell is not a lone comma. */
  lemma LineStart(cells: seq<string>, gaps: seq<Gap>)
    requires |cells| == |gaps| + 1
    requires '"' !in cells[0] && !IsGapText(cells[0])
    ensures SeparatorMatch(QuotedLine(cells, gaps)) == 0
  {
    var line := QuotedLine(cells, gaps);
    var rest := line[|cells[0]| + 2..];
    if gaps == [] {
      assert line == ['"'] + cells[0] + ['"'] + [];
    } else {
      assert line == ['"'] + cells[0] + ['"'] + (GapText(gaps[0]) + ['"'] + QuotedTail(cells[1..], gaps[1..]));
    }
    assert line == ['"'] + cells[0] + ['"'] + rest;
    FirstCellMatch(cells[0], rest);
  }

  /** After an opening quote that starts no separator, the substitution goes on with the rest. */
  lemma SubstituteAfterQuote(t: string)
    requires SeparatorMatch(['"'] + t) == 0
    ensures SubstituteSeparators(['"'] + t) == ['"'] + SubstituteSeparators(t)
  {
    assert (['"'] + t)[1..] == t;
  }


  lemma SubstituteLine(cells: seq<string>, gaps: seq<Gap>)
    requires |cells| == |gaps| + 1
    requires forall i :: 0 <= i < |cells| ==> '"' !in cells[i]
    requires forall i :: 0 <= i < |gaps| ==> ValidGap(gaps[i])
    requires SeparatorMatch(QuotedLine(cells, gaps)) == 0
    ensures SubstituteSeparators(QuotedLine(cells, gaps)) == ['"'] + JoinWithToken(cells) + ['"']
  {
    var tail := QuotedTail(cells, gaps);
    SubstituteAfterQuote(tail);
    SubstituteTail(cells, gaps);
  }





  /**
   * Splitting a quoted line gives back its cells, cleaned: every separator is a
   * cell boundary and the outer quotes are gone. The first cell must not itself
   * be a lone comma, which the substitution would take for a separator.
   */
  lemma SplitQuotedLine(cells: seq<string>, gaps: seq<Gap>)
    requires |cells| == |gaps| + 1
    requires forall i :: 0 <= i < |cells| ==> PlainCell(cells[i])
    requires forall i :: 0 <= i < |gaps| ==> ValidGap(gaps[i])
    requires !IsGapText(cells[0])
    ensures SplitLine(QuotedLine(cells, gaps)) == CleanCells(cells)
    ensures |SplitLine(QuotedLine(cells, gaps))| == |gaps| + 1
  {
    assert forall i :: 0 <= i < |cells| ==> '"' !in cells[i] && '|' !in cells[i];
    LineStart(cells, gaps);
    SubstituteLine(cells, gaps);
    JoinPlain(cells);
    StripQuotesAround(JoinWithToken(cells));
    SplitJoin(cells);
  }

  // ---------------------------------------------------------------------------
  // The raw table.

  /** A grid of optional cells under its headers (an empty table has neither). */
  datatype RawTable = RawTable(header: seq<string>, rows: seq<seq<Option<string>>>)

  function SplitLines(lines: seq<string>): (r: seq<seq<string>>)
    ensures |r| == |lines|
    ensures forall i :: 0 <= i < |lines| ==> r[i] == SplitLine(lines[i])
  {
    if lines == [] then [] else SplitLines(lines[..|lines| - 1]) + [SplitLine(lines[|lines| - 1])]
  }

  /** The largest number of cells in a row (0 for no rows). */
  function MaxWidth(rows: seq<seq<string>>): (w: nat)
    ensures forall i :: 0 <= i < |rows| ==> |rows[i]| <= w
    ensures rows != [] ==> exists i :: 0 <= i < |rows| && |rows[i]| == w
    ensures rows == [] ==> w == 0
  {
    if rows == [] then 0
    else
      var w := MaxWidth(rows[..|rows| - 1]);
      var last := |rows[|rows| - 1]|;
      if last > w then last else w
  }

  function ColumnName(j: nat): string {
    "Columna_" + NatToString(j)
  }

  function Header(width: nat): (h: seq<string>)
    ensures |h| == width
    ensures forall j :: 0 <= j < width ==> h[j] == ColumnName(j)
  {
    if width == 0 then [] else Header(width - 1) + [ColumnName(width - 1)]
  }

  function Present(cells: seq<string>): (r: seq<Option<string>>)
    ensures |r| == |cells|
    ensures forall j :: 0 <= j < |cells| ==> r[j] == Some(cells[j])
  {
    if cells == [] then [] else [Some(cells[0])] + Present(cells[1..])
  }

  function Missing(n: nat): (r: seq<Option<string>>)
    ensures |r| == n
    ensures forall j :: 0 <= j < n ==> r[j] == None
  {
    if n == 0 then [] else [None] + Missing(n - 1)
  }

  /** A table row that holds the cells of a line, then None up to the width. */
  predicate PaddedFrom(row: seq<Option<string>>, cells: seq<string>, width: nat) {
    && |row| == width
    && |cells| <= width
    && (forall j :: 0 <= j < |cells| ==> row[j] == Some(cells[j]))
    && (forall j :: |cells| <= j < width ==> row[j] == None)
  }

  /** A row padded with None up to the table width. */
  function PadRow(cells: seq<string>, width: nat): (row: seq<Option<string>>)
    requires |cells| <= width
    ensures PaddedFrom(row, cells, width)
  {
    var p, m := Present(cells), Missing(width - |cells|);
    assert forall j :: |cells| <= j < width ==> (p + m)[j] == m[j - |cells|];
    p + m
  }

  function PadRows(rows: seq<seq<string>>, width: nat): (r: seq<seq<Option<string>>>)
    requires forall i :: 0 <= i < |rows| ==> |rows[i]| <= width
    ensures |r| == |rows|
    ensures forall i :: 0 <= i < |rows| ==> PaddedFrom(r[i], rows[i], width)
  {
    if rows == [] then [] else [PadRow(rows[0], width)] + PadRows(rows[1..], width)
  }


  /**
   * Splits every matched line into its cells, then builds the rectangular table:
   * no rows means an empty table; otherwise every row keeps its cells as a
   * prefix and is padded with None to the width of the widest row.
   */
  method ExtractRawTable(matches: seq<string>) returns (t: RawTable)
    ensures matches == [] ==> t == RawTable([], [])
    ensures |t.rows| == |matches|
    ensures forall j :: 0 <= j < |t.header| ==> t.header[j] == ColumnName(j)
    ensures matches != [] ==> exists i :: 0 <= i < |matches| && |SplitLine(matches[i])| == |t.header|
    ensures forall i :: 0 <= i < |matches| ==> PaddedFrom(t.rows[i], SplitLine(matches[i]), |t.header|)
  {
    var rows: seq<seq<string>> := [];
    for i := 0 to |matches|
      invariant rows == SplitLines(matches[..i])
    {
      assert matches[..i + 1] == matches[..i] + [matches[i]];
      SplitLinesAppend(matches[..i], matches[i]);
      rows := rows + [SplitLine(matches[i])];
    }
    assert matches[..|matches|] == matches;
    if rows == [] {
      return RawTable([], []);
    }
    var width := MaxWidth(rows);
    t := RawTable(Header(width), PadRows(rows, width));
  }

  lemma SplitLinesAppend(lines: seq<string>, line: string)
    ensures SplitLines(lines + [line]) == SplitLines(lines) + [SplitLine(line)]
  {
    assert (lines + [line])[..|lines|] == lines;
  }

}
