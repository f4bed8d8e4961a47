/**
 * Turning the raw table into contribution records.
 *
 * The user picks four columns (start date, end date, wage, weeks). A row is kept
 * only when both date cells hold a DD/MM/YYYY pattern that is a real calendar
 * day, both amounts parse, and the weeks lie in (0, 54]; weeks above 54 are
 * zeroed, which drops the row. The kept records are sorted by start date.
 */
module Normalization {
  import opened Common
  import opened Text
  import opened Amounts
  import opened Extraction

  /** One cleaned contribution row. */
  datatype Contribution = Contribution(desde: Date, hasta: Date, ibc: real, semanas: real)

  /** The positions of the four columns the user chose in the raw table. */
  datatype Selection = Selection(desde: nat, hasta: nat, ibc: nat, semanas: nat)

  /** Weeks above this value are taken for a misread day count or wage. */
  const MaxWeeks: real := 54.0

  /** The text of a cell; a padding cell prints as "None". */
  function CellText(cell: Option<string>): string {
    match cell
    case None => "None"
    case Some(s) => s
  }

  // ---------------------------------------------------------------------------
  // Dates.

  /** Two digits, a slash, two digits, a slash, four digits, starting at k. */
  predicate DatePatternAt(s: string, k: nat) {
    && k + 10 <= |s|
    && AllDigits(s[k..k + 2]) && s[k + 2] == '/'
    && AllDigits(s[k + 3..k + 5]) && s[k + 5] == '/'
    && AllDigits(s[k + 6..k + 10])
  }

  /** The leftmost position at or after `from` where the date pattern occurs. */
  function FindDatePattern(s: string, from: nat): (k: Option<nat>)
    ensures k.Some? ==> from <= k.value && DatePatternAt(s, k.value)
    ensures k.Some? ==> forall j :: from <= j < k.value ==> !DatePatternAt(s, j)
    ensures k.None? ==> forall j :: from <= j ==> !DatePatternAt(s, j)
    decreases |s| - from
  {
    if from + 10 > |s| then None
    else if DatePatternAt(s, from) then Some(from)
    else FindDatePattern(s, from + 1)
  }

  /** The first pandas Timestamp day (1677-09-22) and the last (2262-04-11). */
  predicate InTimestampRange(d: Date) {
    DateLe(Date(1677, 9, 22), d) && DateLe(d, Date(2262, 4, 11))
  }

  /**
   * Day-first reading of the fields a/b/y: day a of month b, unless b cannot be
   * a month, in which case a is the month and b the day.
   */
  function DayFirst(a: nat, b: nat, y: nat): Date {
    if b <= 12 then Date(y, b, a) else Date(y, a, b)
  }

  /** A date cell: the leftmost DD/MM/YYYY read day-first; None when absent or not a real day. */
  function ParseDateCell(s: string): (r: Option<Date>)
    ensures r.Some? ==> ValidDate(r.value) && InTimestampRange(r.value)
    ensures FindDatePattern(s, 0).None? ==> r.None?
  {
    match FindDatePattern(s, 0)
    case None => None
    case Some(k) =>
      var d := DayFirst(DigitsValue(s[k..k + 2]), DigitsValue(s[k + 3..k + 5]), DigitsValue(s[k + 6..k + 10]));
      if ValidDate(d) && InTimestampRange(d) then Some(d) else None
  }

  // ---------------------------------------------------------------------------
  // Rows.

  /** The record made from one raw row, or None when the row is skipped. */
  function CleanRow(row: seq<Option<string>>, sel: Selection): (r: Option<Contribution>)
    ensures r.Some? ==> ValidDate(r.value.desde) && ValidDate(r.value.hasta)
    ensures r.Some? ==> 0.0 < r.value.semanas <= MaxWeeks && r.value.ibc >= 0.0
  {
    if sel.desde >= |row| || sel.hasta >= |row| || sel.ibc >= |row| || sel.semanas >= |row| then None
    else
      var desde := ParseDateCell(CellText(row[sel.desde]));
      var hasta := ParseDateCell(CellText(row[sel.hasta]));
      var ibc := ParseIbc(CellText(row[sel.ibc]));
      var weeks := ParseWeeks(CellText(row[sel.semanas]));
      if desde.None? || hasta.None? || ibc.None? || weeks.None? then None
      else
        var semanas := if weeks.value > MaxWeeks then 0.0 else weeks.value;
        if semanas > 0.0 then Some(Contribution(desde.value, hasta.value, ibc.value, semanas)) else None
  }

  /** The records of the rows that survive cleaning, in table order. */
  function Kept(rows: seq<seq<Option<string>>>, sel: Selection): (r: seq<Contribution>)
    ensures |r| <= |rows|
  {
    if rows == [] then []
    else
      var init := Kept(rows[..|rows| - 1], sel);
      match CleanRow(rows[|rows| - 1], sel)
      case None => init
      case Some(c) => init + [c]
  }

  // ---------------------------------------------------------------------------
  // Ordering by start date.

  predicate SortedByStart(xs: seq<Contribution>) {
    forall i, j :: 0 <= i < j < |xs| ==> DateLe(xs[i].desde, xs[j].desde)
  }

  /** Inserting a record before the first one that starts later. */
  function Insert(c: Contribution, xs: seq<Contribution>): (r: seq<Contribution>)
    ensures multiset(r) == multiset(xs) + multiset{c}
  {
    if xs == [] then [c]
    else if DateLe(c.desde, xs[0].desde) then [c] + xs
    else
      assert xs == [xs[0]] + xs[1..];
      [xs[0]] + Insert(c, xs[1..])
  }

  lemma {:induction false} InsertSorted(c: Contribution, xs: seq<Contribution>)
    requires SortedByStart(xs)
    ensures SortedByStart(Insert(c, xs))
  {
    if xs != [] && !DateLe(c.desde, xs[0].desde) {
      var rest := Insert(c, xs[1..]);
      InsertSorted(c, xs[1..]);
      forall j | 0 <= j < |rest| ensures DateLe(xs[0].desde, rest[j].desde) {
        assert rest[j] in multiset(rest);
        if rest[j] != c {
          assert rest[j] in multiset(xs[1..]);
          var k :| 0 <= k < |xs[1..]| && xs[1..][k] == rest[j];
          assert xs[k + 1] == rest[j];
        }
      }
    }
  }

  /** The records ordered by start date (any order among equal start dates). */
  function SortByStart(xs: seq<Contribution>): (r: seq<Contribution>)
    ensures SortedByStart(r)
    ensures multiset(r) == multiset(xs)
  {
    if xs == [] then []
    else
      assert xs == xs[..|xs| - 1] + [xs[|xs| - 1]];
      InsertSorted(xs[|xs| - 1], SortByStart(xs[..|xs| - 1]));
      Insert(xs[|xs| - 1], SortByStart(xs[..|xs| - 1]))
  }

  /**
   * The cleaned table: every raw row is cleaned in order, skipped rows are left
   * out, and the records are sorted by start date.
   */
  method CleanAndStandardize(table: RawTable, sel: Selection) returns (datos: seq<Contribution>)
    ensures SortedByStart(datos)
    ensures multiset(datos) == multiset(Kept(table.rows, sel))
    ensures forall c :: c in datos ==> 0.0 < c.semanas <= MaxWeeks && c.ibc >= 0.0
    ensures forall c :: c in datos ==> ValidDate(c.desde) && ValidDate(c.hasta)
  {
    var kept: seq<Contribution> := [];
    for i := 0 to |table.rows|
      invariant kept == Kept(table.rows[..i], sel)
    {
      assert table.rows[..i + 1][..i] == table.rows[..i];
      match CleanRow(table.rows[i], sel) {
        case None =>
        case Some(c) => kept := kept + [c];
      }
    }
    assert table.rows[..|table.rows|] == table.rows;
    datos := SortByStart(kept);
    forall c | c in datos ensures c in kept {
      assert c in multiset(datos);
    }
    KeptShape(table.rows, sel);
  }

  /** Every kept record has weeks in (0, 54], a non-negative wage and real dates. */
  lemma {:induction false} KeptShape(rows: seq<seq<Option<string>>>, sel: Selection)
    ensures forall c :: c in Kept(rows, sel) ==> 0.0 < c.semanas <= MaxWeeks && c.ibc >= 0.0
    ensures forall c :: c in Kept(rows, sel) ==> ValidDate(c.desde) && ValidDate(c.hasta)
  {
    if rows != [] {
      KeptShape(rows[..|rows| - 1], sel);
    }
  }

  // ---------------------------------------------------------------------------
  // What the date reading does with dates written out as DD/MM/YYYY.

  /** Four digits with leading zeros. */
  function Pad4(k: nat): (s: string)
    requires k < 10000
    ensures |s| == 4 && AllDigits(s)
  {
    [DigitChar(k / 1000)] + Pad3(k % 1000)
  }

  lemma Pad4Value(k: nat)
    requires k < 10000
    ensures DigitsValue(Pad4(k)) == k
  {
    var h := [DigitChar(k / 1000)];
    assert h[..0] == [];
    assert DigitsValue(h) == k / 1000;
    DigitsValueAppend(h, Pad3(k % 1000));
    Pad3Value(k % 1000);
    assert Pow10(3) == 1000;
  }

  /** The text a/b/y with two-digit a and b and a four-digit year. */
  function DateText(a: nat, b: nat, y: nat): string
    requires a < 100 && b < 100 && y < 10000
  {
    Pad2(a) + ['/'] + Pad2(b) + ['/'] + Pad4(y)
  }

  /** A date in day-first form, as contribution reports print it. */
  function FormatDate(d: Date): string
    requires ValidDate(d) && 0 <= d.year < 10000
  {
    DateText(d.day, d.month, d.year)
  }

  lemma DateTextPattern(a: nat, b: nat, y: nat)
    requires a < 100 && b < 100 && y < 10000
    ensures DatePatternAt(DateText(a, b, y), 0)
    ensures DigitsValue(DateText(a, b, y)[0..2]) == a
    ensures DigitsValue(DateText(a, b, y)[3..5]) == b
    ensures DigitsValue(DateText(a, b, y)[6..10]) == y
  {
    var s := DateText(a, b, y);
    assert s[0..2] == Pad2(a);
    assert s[3..5] == Pad2(b);
    assert s[6..10] == Pad4(y);
    Pad2Value(a);
    Pad2Value(b);
    Pad4Value(y);
  }

  /** Reading a/b/y gives the day-first date when it is a real day in the Timestamp range, else None. */
  lemma ParseDateText(a: nat, b: nat, y: nat)
    requires a < 100 && b < 100 && y < 10000
    ensures ParseDateCell(DateText(a, b, y))
            == (var d := DayFirst(a, b, y); if ValidDate(d) && InTimestampRange(d) then Some(d) else None)
  {
    DateTextPattern(a, b, y);
  }

  /** Writing a date day-first and reading it back gives the same date. */
  lemma DateRoundTrip(d: Date)
    requires ValidDate(d) && InTimestampRange(d)
    ensures ParseDateCell(FormatDate(d)) == Some(d)
  {
    ParseDateText(d.day, d.month, d.year);
  }

  /** When the second field cannot be a month, the first one is read as the month. */
  lemma MonthFirstFallback(m: nat, dd: nat, y: nat)
    requires 1 <= m <= 12 < dd < 100 && y < 10000
    requires ValidDate(Date(y, m, dd)) && InTimestampRange(Date(y, m, dd))
    ensures ParseDateCell(DateText(m, dd, y)) == Some(Date(y, m, dd))
  {
    ParseDateText(m, dd, y);
  }

  /** A day that does not exist in its month ("31/02/2020") makes the cell unreadable. */
  lemma ImpossibleDayRejected(a: nat, b: nat, y: nat)
    requires 1 <= b <= 12 && a < 100 && y < 10000 && !ValidDate(Date(y, b, a))
    ensures ParseDateCell(DateText(a, b, y)) == None
  {
    ParseDateText(a, b, y);
  }

  /** A date outside the Timestamp range ("01/01/1600") makes the cell unreadable. */
  lemma OutOfRangeRejected(d: Date)
    requires ValidDate(d) && 0 <= d.year < 10000 && !InTimestampRange(d)
    ensures ParseDateCell(FormatDate(d)) == None
  {
    ParseDateText(d.day, d.month, d.year);
  }

  /**
   * A row is kept exactly when the four chosen columns exist, both date cells
   * read as dates, both amounts parse and the weeks lie in (0, 54].
   */
  lemma CleanRowKept(row: seq<Option<string>>, sel: Selection, c: Contribution)
    ensures CleanRow(row, sel) == Some(c) <==>
              && sel.desde < |row| && sel.hasta < |row| && sel.ibc < |row| && sel.semanas < |row|
              && ParseDateCell(CellText(row[sel.desde])) == Some(c.desde)
              && ParseDateCell(CellText(row[sel.hasta])) == Some(c.hasta)
              && ParseIbc(CellText(row[sel.ibc])) == Some(c.ibc)
              && ParseWeeks(CellText(row[sel.semanas])) == Some(c.semanas)
              && 0.0 < c.semanas <= MaxWeeks
  {
  }

  /** A weeks cell above 54 drops the row, whatever the other cells hold. */
  lemma TooManyWeeksDropped(row: seq<Option<string>>, sel: Selection, w: real)
    requires sel.semanas < |row| && ParseWeeks(CellText(row[sel.semanas])) == Some(w) && w > MaxWeeks
    ensures CleanRow(row, sel) == None
  {
  }

  /** A wage cell that float() rejects drops the row instead of counting as zero. */
  lemma BadWageDropped(row: seq<Option<string>>, sel: Selection)
    requires sel.ibc < |row| && ParseIbc(CellText(row[sel.ibc])).None?
    ensures CleanRow(row, sel) == None
  {
  }
}
