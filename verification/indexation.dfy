/**
 * Year-by-year compounding of annual consumer-price inflation, over a table
 * of rates (in percent) for the years 1967 to 2026.
 */
module Indexation {
  import opened Common

  const FirstYear: int := 1967
  const LastYear: int := 2026

  /** A table of yearly rates, looked up like a dictionary keyed by year. */
  type CpiTable = int -> Option<real>

  /** The table holds exactly the years FirstYear to LastYear, each with a positive rate. */
  ghost predicate IsCpiTable(t: CpiTable) {
    forall y :: (t(y).Some? <==> InTable(y)) && (t(y).Some? ==> t(y).value > 0.0)
  }

  predicate AllPositive(rates: seq<real>) {
    forall i :: 0 <= i < |rates| ==> rates[i] > 0.0
  }

  predicate InTable(y: int) {
    FirstYear <= y <= LastYear
  }

  /** The growth of one year, 1 + rate/100; a year the table lacks contributes 1. */
  function Growth(t: CpiTable, y: int): real {
    match t(y)
    case Some(rate) => 1.0 + rate / 100.0
    case None => 1.0
  }

  /** The product of the growth of the years lo, lo + 1, ..., hi - 1 (1.0 when hi <= lo). */
  function Compound(t: CpiTable, lo: int, hi: int): real
    decreases hi - lo
  {
    if hi <= lo then 1.0 else Compound(t, lo, hi - 1) * Growth(t, hi - 1)
  }

  lemma GrowthAboveOne(t: CpiTable, y: int)
    requires IsCpiTable(t)
    ensures Growth(t, y) >= 1.0
    ensures InTable(y) ==> Growth(t, y) > 1.0
  {
    assert t(y).Some? <==> InTable(y);
  }

  /** With positive rates, compounding never shrinks a value. */
  lemma {:induction false} CompoundAtLeastOne(t: CpiTable, lo: int, hi: int)
    requires IsCpiTable(t)
    ensures Compound(t, lo, hi) >= 1.0
    decreases hi - lo
  {
    if hi > lo {
      CompoundAtLeastOne(t, lo, hi - 1);
      GrowthAboveOne(t, hi - 1);
      GrowBy(Compound(t, lo, hi - 1), Growth(t, hi - 1));
    }
  }

  lemma GrowBy(x: real, g: real)
    requires x >= 1.0 && g >= 1.0
    ensures x * g >= x && x * g >= 1.0
  {
  }

  lemma ProductAtLeast(a: real, b: real, c: real)
    requires a >= 1.0 && b >= 1.0 && c == a * b
    ensures a <= c
  {
    GrowBy(a, b);
  }

  /** Compounding over consecutive ranges multiplies. */
  lemma {:induction false} CompoundSplit(t: CpiTable, lo: int, mid: int, hi: int)
    requires lo <= mid <= hi
    ensures Compound(t, lo, hi) == Compound(t, lo, mid) * Compound(t, mid, hi)
    decreases hi - mid
  {
    if hi > mid {
      CompoundSplit(t, lo, mid, hi - 1);
      Associate(Compound(t, lo, mid), Compound(t, mid, hi - 1), Growth(t, hi - 1));
    }
  }

  lemma Associate(a: real, b: real, c: real)
    ensures (a * b) * c == a * (b * c)
  {
  }

  /** One loop step: the product so far, times the growth of the entry for hi, is the next product. */
  lemma CompoundNext(t: CpiTable, lo: int, hi: int, value: real, entry: Option<real>)
    requires lo <= hi && value == Compound(t, lo, hi) && entry == t(hi)
    ensures entry.Some? ==> value * (1.0 + entry.value / 100.0) == Compound(t, lo, hi + 1)
    ensures entry.None? ==> value == Compound(t, lo, hi + 1)
  {
  }

  /** Extending the range upwards never lowers the product. */
  lemma {:induction false} CompoundMonotone(t: CpiTable, lo: int, hi: int, hi': int)
    requires IsCpiTable(t)
    requires hi <= hi'
    ensures Compound(t, lo, hi) <= Compound(t, lo, hi')
    decreases hi' - hi
  {
    if hi < hi' {
      CompoundMonotone(t, lo, hi, hi' - 1);
      if lo < hi' {
        CompoundAtLeastOne(t, lo, hi' - 1);
        GrowthAboveOne(t, hi' - 1);
        ProductAtLeast(Compound(t, lo, hi' - 1), Growth(t, hi' - 1), Compound(t, lo, hi'));
      }
    }
  }

  /** Over a non-empty range of table years the product is strictly above 1. */
  lemma {:induction false} CompoundAboveOne(t: CpiTable, lo: int, hi: int)
    requires IsCpiTable(t)
    requires lo < hi && InTable(hi - 1)
    ensures Compound(t, lo, hi) > 1.0
  {
    CompoundAtLeastOne(t, lo, hi - 1);
    GrowthAboveOne(t, hi - 1);
    var x, g := Compound(t, lo, hi - 1), Growth(t, hi - 1);
    assert x * g >= g by {
      GrowBy(g, x);
    }
  }

  /** Years past the table add nothing: compounding stops at LastYear. */
  lemma {:induction false} CompoundPastTable(t: CpiTable, lo: int, hi: int)
    requires IsCpiTable(t)
    requires hi > LastYear + 1
    ensures Compound(t, lo, hi) == Compound(t, lo, LastYear + 1)
    decreases hi
  {
    assert t(hi - 1).None?;
    if hi - 1 > LastYear + 1 {
      CompoundPastTable(t, lo, hi - 1);
    }
  }

  // ---------------------------------------------------------------------------
  // A running index: 100 compounded year by year from FirstYear.

  /** The running index at the end of year y: 100 compounded over FirstYear..y. */
  function RunningIndex(t: CpiTable, y: int): real {
    100.0 * Compound(t, FirstYear, y + 1)
  }

  /** One more year multiplies the running index by that year's growth. */
  lemma RunningIndexStep(t: CpiTable, y: int)
    requires y >= FirstYear
    ensures RunningIndex(t, y) == RunningIndex(t, y - 1) * Growth(t, y)
  {
    var a, g := Compound(t, FirstYear, y), Growth(t, y);
    assert Compound(t, FirstYear, y + 1) == a * g;
    Associate(100.0, a, g);
  }

  /**
   * The same step, for a value already known to be the previous index and the
   * table entry looked up for year y.
   */
  lemma RunningIndexNext(t: CpiTable, y: int, index: real, entry: Option<real>)
    requires y >= FirstYear && index == RunningIndex(t, y - 1) && entry == t(y)
    ensures entry.Some? ==> index * (1.0 + entry.value / 100.0) == RunningIndex(t, y)
    ensures entry.None? ==> index == RunningIndex(t, y)
  {
    RunningIndexStep(t, y);
  }

  lemma RunningIndexAbove100(t: CpiTable, y: int)
    requires IsCpiTable(t)
    ensures RunningIndex(t, y) >= 100.0
    ensures y >= FirstYear ==> RunningIndex(t, y) > 100.0
  {
    CompoundAtLeastOne(t, FirstYear, y + 1);
    if y >= FirstYear {
      if y <= LastYear {
        CompoundAboveOne(t, FirstYear, y + 1);
      } else {
        CompoundPastTable(t, FirstYear, y + 1);
        CompoundAboveOne(t, FirstYear, LastYear + 1);
      }
    }
  }

  /** The ratio of two running indexes is the growth of the years between them. */
  lemma RunningIndexRatio(t: CpiTable, s: int, e: int)
    requires IsCpiTable(t)
    requires FirstYear <= s <= e
    ensures RunningIndex(t, s) > 0.0
    ensures RunningIndex(t, e) / RunningIndex(t, s) == Compound(t, s + 1, e + 1)
  {
    CompoundSplit(t, FirstYear, s + 1, e + 1);
    RunningIndexAbove100(t, s);
    var a, b := Compound(t, FirstYear, s + 1), Compound(t, s + 1, e + 1);
    assert RunningIndex(t, e) == 100.0 * (a * b);
    assert RunningIndex(t, s) == 100.0 * a;
    RatioCancel(a, b);
  }

  lemma RatioCancel(a: real, b: real)
    requires a > 0.0
    ensures (100.0 * (a * b)) / (100.0 * a) == b
  {
    assert 100.0 * (a * b) == b * (100.0 * a);
  }
}
