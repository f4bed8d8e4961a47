/** Values shared by every stage of the pension pipeline. */
module Common {

  datatype Option<+T> = None | Some(value: T)

  /** A calendar day (a timestamp at midnight). */
  datatype Date = Date(year: int, month: int, day: int)

  predicate IsLeapYear(y: int) {
    (y % 4 == 0 && y % 100 != 0) || y % 400 == 0
  }

  function DaysInMonth(y: int, m: int): (n: int)
    requires 1 <= m <= 12
    ensures 28 <= n <= 31
  {
    if m == 2 then (if IsLeapYear(y) then 29 else 28)
    else if m == 4 || m == 6 || m == 9 || m == 11 then 30
    else 31
  }

  /** The day exists in the proleptic Gregorian calendar. */
  predicate ValidDate(d: Date) {
    1 <= d.month <= 12 && 1 <= d.day <= DaysInMonth(d.year, d.month)
  }

  /** Chronological order on dates: year, then month, then day. */
  predicate DateLe(a: Date, b: Date) {
    a.year < b.year || (a.year == b.year && (a.month < b.month || (a.month == b.month && a.day <= b.day)))
  }

  function MinDate(a: Date, b: Date): (r: Date)
    ensures DateLe(r, a) && DateLe(r, b) && (r == a || r == b)
  {
    if DateLe(a, b) then a else b
  }

  function MaxDate(a: Date, b: Date): (r: Date)
    ensures DateLe(a, r) && DateLe(b, r) && (r == a || r == b)
  {
    if DateLe(a, b) then b else a
  }

  function MaxReal(a: real, b: real): (r: real)
    ensures r >= a && r >= b && (r == a || r == b)
  {
    if a >= b then a else b
  }

  function SumReals(xs: seq<real>): real {
    if xs == [] then 0.0 else SumReals(xs[..|xs| - 1]) + xs[|xs| - 1]
  }

  /** The arithmetic mean of a non-empty column; 0.0 for an empty one. */
  function Mean(xs: seq<real>): real {
    if xs == [] then 0.0 else SumReals(xs) / (|xs| as real)
  }

  lemma {:induction false} SumRealsBounds(xs: seq<real>, lo: real, hi: real)
    requires forall i :: 0 <= i < |xs| ==> lo <= xs[i] <= hi
    ensures (|xs| as real) * lo <= SumReals(xs) <= (|xs| as real) * hi
  {
    if xs != [] {
      SumRealsBounds(xs[..|xs| - 1], lo, hi);
    }
  }

  lemma {:induction false} SumRealsMonotone(xs: seq<real>, ys: seq<real>)
    requires |xs| == |ys|
    requires forall i :: 0 <= i < |xs| ==> xs[i] <= ys[i]
    ensures SumReals(xs) <= SumReals(ys)
  {
    if xs != [] {
      SumRealsMonotone(xs[..|xs| - 1], ys[..|ys| - 1]);
    }
  }

  /** Every element between lo and hi keeps the mean between lo and hi. */
  lemma MeanBounds(xs: seq<real>, lo: real, hi: real)
    requires xs != []
    requires forall i :: 0 <= i < |xs| ==> lo <= xs[i] <= hi
    ensures lo <= Mean(xs) <= hi
  {
    SumRealsBounds(xs, lo, hi);
    var n := |xs| as real;
    assert n * lo <= SumReals(xs) <= n * hi;
    assert lo == (n * lo) / n;
    assert hi == (n * hi) / n;
  }

  /** The mean is monotone, element by element. */
  lemma MeanMonotone(xs: seq<real>, ys: seq<real>)
    requires |xs| == |ys|
    requires forall i :: 0 <= i < |xs| ==> xs[i] <= ys[i]
    ensures Mean(xs) <= Mean(ys)
  {
    SumRealsMonotone(xs, ys);
  }
}
