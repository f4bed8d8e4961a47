/**
 * The simultaneity rule: contributions that start in the same calendar month
 * are merged into one, adding their wages, keeping the largest week count, the
 * earliest start and the latest end.
 */
module Consolidation {
  import opened Common
  import opened Normalization

  /** A calendar month (a pandas monthly Period). */
  datatype Period = Period(year: int, month: int)

  function PeriodOf(d: Date): Period {
    Period(d.year, d.month)
  }

  predicate PeriodLt(p: Period, q: Period) {
    p.year < q.year || (p.year == q.year && p.month < q.month)
  }

  /** The month a contribution is filed under: the month of its start date. */
  function Month(c: Contribution): Period {
    PeriodOf(c.desde)
  }

  /** The distinct months present in a table. */
  function Months(xs: seq<Contribution>): set<Period> {
    set i | 0 <= i < |xs| :: Month(xs[i])
  }

  /** Months strictly increasing down the table: every month appears once, in order. */
  predicate StrictlyMonthly(xs: seq<Contribution>) {
    forall i, j :: 0 <= i < j < |xs| ==> PeriodLt(Month(xs[i]), Month(xs[j]))
  }

  /** The rows of month p, in table order. */
  function InPeriod(xs: seq<Contribution>, p: Period): seq<Contribution> {
    if xs == [] then []
    else if Month(xs[0]) == p then [xs[0]] + InPeriod(xs[1..], p)
    else InPeriod(xs[1..], p)
  }

  /** The rows of every other month, in table order. */
  function OutsidePeriod(xs: seq<Contribution>, p: Period): seq<Contribution> {
    if xs == [] then []
    else if Month(xs[0]) == p then OutsidePeriod(xs[1..], p)
    else [xs[0]] + OutsidePeriod(xs[1..], p)
  }

  /** The earliest month of a non-empty table. */
  function EarliestMonth(xs: seq<Contribution>): Period
    requires xs != []
  {
    if |xs| == 1 then Month(xs[0])
    else
      var rest := EarliestMonth(xs[1..]);
      if PeriodLt(rest, Month(xs[0])) then rest else Month(xs[0])
  }

  // ---------------------------------------------------------------------------
  // The aggregates of one group.

  function TotalIbc(xs: seq<Contribution>): real {
    if xs == [] then 0.0 else xs[0].ibc + TotalIbc(xs[1..])
  }

  function TotalWeeks(xs: seq<Contribution>): real {
    if xs == [] then 0.0 else xs[0].semanas + TotalWeeks(xs[1..])
  }

  function MaxSemanas(g: seq<Contribution>): real
    requires g != []
  {
    if |g| == 1 then g[0].semanas else MaxReal(g[0].semanas, MaxSemanas(g[1..]))
  }

  function MinDesde(g: seq<Contribution>): Date
    requires g != []
  {
    if |g| == 1 then g[0].desde else MinDate(g[0].desde, MinDesde(g[1..]))
  }

  function MaxHasta(g: seq<Contribution>): Date
    requires g != []
  {
    if |g| == 1 then g[0].hasta else MaxDate(g[0].hasta, MaxHasta(g[1..]))
  }

  /** One consolidated row: IBC summed, weeks maximised, start minimised, end maximised. */
  function Aggregate(g: seq<Contribution>): Contribution
    requires g != []
  {
    Contribution(MinDesde(g), MaxHasta(g), TotalIbc(g), MaxSemanas(g))
  }

  /**
   * groupby('Periodo').agg(...).sort_values('Periodo'): one row per month, the
   * earliest month first. The Periodo column is not kept; it is the month of
   * each row's start date (ConsolidateMonths).
   */
  function Consolidate(xs: seq<Contribution>): (r: seq<Contribution>)
    ensures |r| <= |xs|
    ensures r == [] <==> xs == []
    decreases |xs|
  {
    if xs == [] then []
    else
      var p := EarliestMonth(xs);
      EarliestMonthSpec(xs);
      InPeriodSpec(xs, p);
      OutsideShrinks(xs, p);
      [Aggregate(InPeriod(xs, p))] + Consolidate(OutsidePeriod(xs, p))
  }

  // ---------------------------------------------------------------------------
  // Facts about the pieces.

  lemma {:induction false} EarliestMonthSpec(xs: seq<Contribution>)
    requires xs != []
    ensures EarliestMonth(xs) in Months(xs)
    ensures forall q :: q in Months(xs) ==> !PeriodLt(q, EarliestMonth(xs))
  {
    if |xs| > 1 {
      EarliestMonthSpec(xs[1..]);
      MonthsCons(xs);
    } else {
      assert Months(xs) == {Month(xs[0])};
    }
  }

  lemma MonthsCons(xs: seq<Contribution>)
    requires xs != []
    ensures Months(xs) == {Month(xs[0])} + Months(xs[1..])
  {
    forall q | q in Months(xs) ensures q in {Month(xs[0])} + Months(xs[1..]) {
      var i :| 0 <= i < |xs| && Month(xs[i]) == q;
      if i > 0 {
        assert xs[1..][i - 1] == xs[i];
      }
    }
    forall q | q in Months(xs[1..]) ensures q in Months(xs) {
      var i :| 0 <= i < |xs[1..]| && Month(xs[1..][i]) == q;
      assert xs[i + 1] == xs[1..][i];
    }
  }

  lemma {:induction false} OutsideShrinks(xs: seq<Contribution>, p: Period)
    requires p in Months(xs)
    ensures |OutsidePeriod(xs, p)| < |xs|
  {
    OutsideLength(xs[1..], p);
    MonthsCons(xs);
    if Month(xs[0]) != p {
      OutsideShrinks(xs[1..], p);
    }
  }

  lemma {:induction false} OutsideLength(xs: seq<Contribution>, p: Period)
    ensures |OutsidePeriod(xs, p)| <= |xs|
  {
    if xs != [] {
      OutsideLength(xs[1..], p);
    }
  }

  /** Every row of a group belongs to its month, and comes from the table. */
  lemma {:induction false} InPeriodSpec(xs: seq<Contribution>, p: Period)
    ensures forall c :: c in InPeriod(xs, p) ==> Month(c) == p && c in xs
    ensures InPeriod(xs, p) == [] <==> p !in Months(xs)
  {
    if xs != [] {
      InPeriodSpec(xs[1..], p);
      MonthsCons(xs);
    }
  }

  /** Removing a month leaves exactly the other months, each row taken from the table. */
  lemma {:induction false} OutsidePeriodSpec(xs: seq<Contribution>, p: Period)
    ensures Months(OutsidePeriod(xs, p)) == Months(xs) - {p}
    ensures forall c :: c in OutsidePeriod(xs, p) ==> c in xs
  {
    if xs == [] {
    } else {
      var rest := OutsidePeriod(xs[1..], p);
      OutsidePeriodSpec(xs[1..], p);
      MonthsCons(xs);
      if Month(xs[0]) != p {
        MonthsCons([xs[0]] + rest);
        assert ([xs[0]] + rest)[1..] == rest;
      }
    }
  }

  /** Selecting another month after removing p selects the same rows. */
  lemma {:induction false} InPeriodOutside(xs: seq<Contribution>, p: Period, q: Period)
    requires p != q
    ensures InPeriod(OutsidePeriod(xs, p), q) == InPeriod(xs, q)
  {
    if xs != [] {
      InPeriodOutside(xs[1..], p, q);
      if Month(xs[0]) != p {
        assert ([xs[0]] + OutsidePeriod(xs[1..], p))[1..] == OutsidePeriod(xs[1..], p);
      }
    }
  }

  /** A month and the rest split the table's total wage. */
  lemma {:induction false} TotalIbcSplit(xs: seq<Contribution>, p: Period)
    ensures TotalIbc(xs) == TotalIbc(InPeriod(xs, p)) + TotalIbc(OutsidePeriod(xs, p))
  {
    if xs != [] {
      TotalIbcSplit(xs[1..], p);
      if Month(xs[0]) == p {
        assert ([xs[0]] + InPeriod(xs[1..], p))[1..] == InPeriod(xs[1..], p);
      } else {
        assert ([xs[0]] + OutsidePeriod(xs[1..], p))[1..] == OutsidePeriod(xs[1..], p);
      }
    }
  }

  lemma {:induction false} TotalWeeksSplit(xs: seq<Contribution>, p: Period)
    ensures TotalWeeks(xs) == TotalWeeks(InPeriod(xs, p)) + TotalWeeks(OutsidePeriod(xs, p))
  {
    if xs != [] {
      TotalWeeksSplit(xs[1..], p);
      if Month(xs[0]) == p {
        assert ([xs[0]] + InPeriod(xs[1..], p))[1..] == InPeriod(xs[1..], p);
      } else {
        assert ([xs[0]] + OutsidePeriod(xs[1..], p))[1..] == OutsidePeriod(xs[1..], p);
      }
    }
  }

  /** The merged start is the earliest start of the group, and is one of them. */
  lemma {:induction false} MinDesdeSpec(g: seq<Contribution>)
    requires g != []
    ensures forall c :: c in g ==> DateLe(MinDesde(g), c.desde)
    ensures exists c :: c in g && c.desde == MinDesde(g)
  {
    if |g| > 1 {
      MinDesdeSpec(g[1..]);
      assert g == [g[0]] + g[1..];
      var c :| c in g[1..] && c.desde == MinDesde(g[1..]);
      assert c in g;
      assert g[0] in g;
    } else {
      assert g[0] in g;
    }
  }

  /** The merged end is the latest end of the group, and is one of them. */
  lemma {:induction false} MaxHastaSpec(g: seq<Contribution>)
    requires g != []
    ensures forall c :: c in g ==> DateLe(c.hasta, MaxHasta(g))
    ensures exists c :: c in g && c.hasta == MaxHasta(g)
  {
    if |g| > 1 {
      MaxHastaSpec(g[1..]);
      assert g == [g[0]] + g[1..];
      var c :| c in g[1..] && c.hasta == MaxHasta(g[1..]);
      assert c in g;
      assert g[0] in g;
    } else {
      assert g[0] in g;
    }
  }

  /** The merged weeks are the largest week count of the group, and are one of them. */
  lemma {:induction false} MaxSemanasSpec(g: seq<Contribution>)
    requires g != []
    ensures forall c :: c in g ==> c.semanas <= MaxSemanas(g)
    ensures exists c :: c in g && c.semanas == MaxSemanas(g)
  {
    if |g| > 1 {
      MaxSemanasSpec(g[1..]);
      assert g == [g[0]] + g[1..];
      var c :| c in g[1..] && c.semanas == MaxSemanas(g[1..]);
      assert c in g;
      assert g[0] in g;
    } else {
      assert g[0] in g;
    }
  }

  /** With no negative weeks, the largest count is at most their sum. */
  lemma {:induction false} MaxSemanasAtMostTotal(g: seq<Contribution>)
    requires g != []
    requires forall c :: c in g ==> c.semanas >= 0.0
    ensures MaxSemanas(g) <= TotalWeeks(g)
  {
    if |g| > 1 {
      assert g[1..][0] in g;
      forall c | c in g[1..] ensures c.semanas >= 0.0 {
        assert c in g;
      }
      MaxSemanasAtMostTotal(g[1..]);
      TotalWeeksNonNegative(g[1..]);
    }
  }

  lemma {:induction false} TotalWeeksNonNegative(xs: seq<Contribution>)
    requires forall c :: c in xs ==> c.semanas >= 0.0
    ensures TotalWeeks(xs) >= 0.0
  {
    if xs != [] {
      assert forall c :: c in xs[1..] ==> c in xs;
      TotalWeeksNonNegative(xs[1..]);
    }
  }

  /** The merged row of a month is filed under that month. */
  lemma AggregateMonth(g: seq<Contribution>, p: Period)
    requires g != []
    requires forall c :: c in g ==> Month(c) == p
    ensures Month(Aggregate(g)) == p
  {
    MinDesdeSpec(g);
  }

  // ---------------------------------------------------------------------------
  // Properties of the consolidated table.

  /** The consolidated table has exactly the months of the input. */
  lemma {:induction false} ConsolidateMonths(xs: seq<Contribution>)
    ensures Months(Consolidate(xs)) == Months(xs)
    decreases |xs|
  {
    if xs != [] {
      var p := EarliestMonth(xs);
      EarliestMonthSpec(xs);
      OutsideShrinks(xs, p);
      var g := InPeriod(xs, p);
      InPeriodSpec(xs, p);
      AggregateMonth(g, p);
      OutsidePeriodSpec(xs, p);
      ConsolidateMonths(OutsidePeriod(xs, p));
      MonthsCons(Consolidate(xs));
      assert Consolidate(xs)[1..] == Consolidate(OutsidePeriod(xs, p));
    }
  }

  /** One row per month, in ascending month order. */
  lemma {:induction false} ConsolidateStrictlyMonthly(xs: seq<Contribution>)
    ensures StrictlyMonthly(Consolidate(xs))
    decreases |xs|
  {
    if xs != [] {
      var p := EarliestMonth(xs);
      EarliestMonthSpec(xs);
      OutsideShrinks(xs, p);
      var g := InPeriod(xs, p);
      InPeriodSpec(xs, p);
      AggregateMonth(g, p);
      var rest := OutsidePeriod(xs, p);
      OutsidePeriodSpec(xs, p);
      ConsolidateStrictlyMonthly(rest);
      ConsolidateMonths(rest);
      var r := Consolidate(xs);
      assert r == [Aggregate(g)] + Consolidate(rest);
      forall j | 0 < j < |r| ensures PeriodLt(p, Month(r[j])) {
        assert r[j] == Consolidate(rest)[j - 1];
        assert Month(r[j]) in Months(Consolidate(rest));
      }
    }
  }

  /** Each consolidated row is the aggregate of its month's rows. */
  lemma {:induction false} ConsolidateRows(xs: seq<Contribution>)
    ensures forall i :: 0 <= i < |Consolidate(xs)| ==>
              InPeriod(xs, Month(Consolidate(xs)[i])) != [] &&
              Consolidate(xs)[i] == Aggregate(InPeriod(xs, Month(Consolidate(xs)[i])))
    decreases |xs|
  {
    if xs != [] {
      var p := EarliestMonth(xs);
      EarliestMonthSpec(xs);
      OutsideShrinks(xs, p);
      var g := InPeriod(xs, p);
      InPeriodSpec(xs, p);
      AggregateMonth(g, p);
      var rest := OutsidePeriod(xs, p);
      OutsidePeriodSpec(xs, p);
      ConsolidateRows(rest);
      ConsolidateMonths(rest);
      var r := Consolidate(xs);
      assert r == [Aggregate(g)] + Consolidate(rest);
      forall i | 0 < i < |r|
        ensures InPeriod(xs, Month(r[i])) != [] && r[i] == Aggregate(InPeriod(xs, Month(r[i])))
      {
        assert r[i] == Consolidate(rest)[i - 1];
        assert Month(r[i]) in Months(Consolidate(rest));
        InPeriodOutside(xs, p, Month(r[i]));
      }
    }
  }

  /** Merging never loses or creates wage: the total IBC is preserved. */
  lemma {:induction false} ConsolidateTotalIbc(xs: seq<Contribution>)
    ensures TotalIbc(Consolidate(xs)) == TotalIbc(xs)
    decreases |xs|
  {
    if xs != [] {
      var p := EarliestMonth(xs);
      EarliestMonthSpec(xs);
      OutsideShrinks(xs, p);
      TotalIbcSplit(xs, p);
      ConsolidateTotalIbc(OutsidePeriod(xs, p));
      assert Consolidate(xs)[1..] == Consolidate(OutsidePeriod(xs, p));
    }
  }

  /** Concurrent contributions are not double counted: the weeks can only shrink. */
  lemma {:induction false} ConsolidateTotalWeeks(xs: seq<Contribution>)
    requires forall c :: c in xs ==> c.semanas >= 0.0
    ensures TotalWeeks(Consolidate(xs)) <= TotalWeeks(xs)
    decreases |xs|
  {
    if xs != [] {
      var p := EarliestMonth(xs);
      EarliestMonthSpec(xs);
      OutsideShrinks(xs, p);
      var g := InPeriod(xs, p);
      InPeriodSpec(xs, p);
      OutsidePeriodSpec(xs, p);
      TotalWeeksSplit(xs, p);
      MaxSemanasAtMostTotal(g);
      ConsolidateTotalWeeks(OutsidePeriod(xs, p));
      assert Consolidate(xs)[1..] == Consolidate(OutsidePeriod(xs, p));
    }
  }

  /** Records as cleaning emits them: real days, weeks in (0, 54], no negative wage. */
  predicate WellFormed(c: Contribution) {
    ValidDate(c.desde) && ValidDate(c.hasta) && 0.0 < c.semanas <= MaxWeeks && c.ibc >= 0.0
  }

  lemma {:induction false} TotalIbcNonNegative(xs: seq<Contribution>)
    requires forall c :: c in xs ==> c.ibc >= 0.0
    ensures TotalIbc(xs) >= 0.0
  {
    if xs != [] {
      assert forall c :: c in xs[1..] ==> c in xs;
      TotalIbcNonNegative(xs[1..]);
    }
  }

  /** Consolidating cleaned records gives cleaned records. */
  lemma {:induction false} ConsolidateWellFormed(xs: seq<Contribution>)
    requires forall c :: c in xs ==> WellFormed(c)
    ensures forall c :: c in Consolidate(xs) ==> WellFormed(c)
    decreases |xs|
  {
    if xs != [] {
      var p := EarliestMonth(xs);
      EarliestMonthSpec(xs);
      OutsideShrinks(xs, p);
      var g := InPeriod(xs, p);
      InPeriodSpec(xs, p);
      OutsidePeriodSpec(xs, p);
      MinDesdeSpec(g);
      MaxHastaSpec(g);
      MaxSemanasSpec(g);
      TotalIbcNonNegative(g);
      ConsolidateWellFormed(OutsidePeriod(xs, p));
      assert Consolidate(xs) == [Aggregate(g)] + Consolidate(OutsidePeriod(xs, p));
    }
  }

  /** A table with one row per month, in order, is left as it is. */
  lemma {:induction false} ConsolidateMonthlyUnchanged(xs: seq<Contribution>)
    requires StrictlyMonthly(xs)
    ensures Consolidate(xs) == xs
  {
    if xs != [] {
      var p := Month(xs[0]);
      var tail := xs[1..];
      assert forall i :: 0 <= i < |tail| ==> PeriodLt(p, Month(tail[i])) by {
        forall i | 0 <= i < |tail| ensures PeriodLt(p, Month(tail[i])) {
          assert tail[i] == xs[i + 1];
        }
      }
      EarliestMonthSpec(xs);
      MonthsCons(xs);
      assert EarliestMonth(xs) == p by {
        forall q | q in Months(tail) ensures PeriodLt(p, q) {
          var i :| 0 <= i < |tail| && Month(tail[i]) == q;
        }
      }
      OnlyOtherMonths(tail, p);
      assert xs == [xs[0]] + tail;
      assert InPeriod(xs, p) == [xs[0]];
      assert OutsidePeriod(xs, p) == tail;
      assert StrictlyMonthly(tail) by {
        forall i, j | 0 <= i < j < |tail| ensures PeriodLt(Month(tail[i]), Month(tail[j])) {
          assert tail[i] == xs[i + 1] && tail[j] == xs[j + 1];
        }
      }
      ConsolidateMonthlyUnchanged(tail);
      assert [xs[0]][1..] == [];
      assert TotalIbc([xs[0]]) == xs[0].ibc;
      assert Aggregate([xs[0]]) == xs[0];
      assert Consolidate(xs) == [Aggregate(InPeriod(xs, p))] + Consolidate(OutsidePeriod(xs, p));
    }
  }

  lemma {:induction false} OnlyOtherMonths(xs: seq<Contribution>, p: Period)
    requires forall i :: 0 <= i < |xs| ==> PeriodLt(p, Month(xs[i]))
    ensures InPeriod(xs, p) == [] && OutsidePeriod(xs, p) == xs
  {
    if xs != [] {
      assert PeriodLt(p, Month(xs[0]));
      OnlyOtherMonths(xs[1..], p);
      assert xs == [xs[0]] + xs[1..];
    }
  }

  /** Re-applying the rule to its own output changes nothing. */
  lemma ConsolidateIdempotent(xs: seq<Contribution>)
    ensures Consolidate(Consolidate(xs)) == Consolidate(xs)
  {
    ConsolidateStrictlyMonthly(xs);
    ConsolidateMonthlyUnchanged(Consolidate(xs));
  }
}
