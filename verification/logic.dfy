/**
 * The pension liquidator: CPI indexation of historical wages, the indexed
 * average wage (IBL), the Ley 797 de 2003 replacement rate and the
 * transition-regime check.
 */
module Logic {
  import opened Common
  import opened Normalization
  import opened Consolidation
  import opened Indexation
  import Utils

  /** The liquidator's CPI table, in percent: 1967-1986. */
  const LogicRates1: seq<real> := [
    8.3, 6.8, 7.7, 6.7, 11.6, 13.6, 20.3, 24.3, 23.3, 20.5,
    33.7, 17.8, 24.8, 26.5, 27.5, 24.5, 19.8, 16.3, 24.0, 18.9
  ]
  /** 1987-2006 */
  const LogicRates2: seq<real> := [
    23.3, 28.1, 25.8, 29.1, 30.4, 27.0, 22.6, 22.6, 19.5, 21.6,
    17.7, 16.7, 9.2, 8.8, 7.7, 7.0, 6.5, 5.5, 4.9, 4.5
  ]
  /** 2007-2026 */
  const LogicRates3: seq<real> := [
    5.7, 7.7, 2.0, 3.2, 3.7, 2.4, 1.9, 3.7, 6.8, 5.8,
    4.1, 3.2, 3.8, 1.6, 5.6, 13.1, 9.3, 5.0, 4.0, 3.5
  ]
  const LogicRates: seq<real> := LogicRates1 + LogicRates2 + LogicRates3

  /** ipc_historico[y], or None when y is not a key. */
  function LogicCpi(y: int): Option<real> {
    if InTable(y) && y - FirstYear < |LogicRates| then Some(LogicRates[y - FirstYear]) else None
  }

  /** The table's keys run from 1967 to 2026 and every rate is positive. */
  lemma LogicCpiIsTable()
    ensures IsCpiTable(LogicCpi)
  {
    assert |LogicRates1| == 20 && AllPositive(LogicRates1);
    assert |LogicRates2| == 20 && AllPositive(LogicRates2);
    assert |LogicRates3| == 20 && AllPositive(LogicRates3);
    assert |LogicRates| == LastYear - FirstYear + 1 && AllPositive(LogicRates);
  }

  /** The minimum wage this file uses (about 2025). */
  const Smmlv: real := 1423500.0

  /** The transition regime asks for 750 weeks by 1 April 1994. */
  const TransitionCutoff: Date := Date(1994, 4, 1)
  const TransitionWeeks: real := 750.0

  // ---------------------------------------------------------------------------
  // IBL.

  /** One row of the indexation detail table. */
  datatype Detail = Detail(desde: Date, hasta: Date, ibcHistorico: real, factorIpc: real,
                           ibcActualizado: real, semanas: real)

  /** DateOffset(years=10) backwards: the same day ten years earlier, clipped to the month's length. */
  function TenYearsBefore(d: Date): (r: Date)
    ensures r.year == d.year - 10 && r.month == d.month && DateLe(r, d)
    ensures ValidDate(d) ==> ValidDate(r) && r.day <= d.day
    ensures ValidDate(d) && d.day <= DaysInMonth(d.year - 10, d.month) ==> r.day == d.day
  {
    var y := d.year - 10;
    var last := if 1 <= d.month <= 12 then DaysInMonth(y, d.month) else 31;
    Date(y, d.month, if d.day > last then last else d.day)
  }

  /** The rows that end on or after the cut-off. */
  function EndingFrom(rows: seq<Contribution>, corte: Date): (r: seq<Contribution>)
    ensures |r| <= |rows|
    ensures forall i :: 0 <= i < |r| ==> r[i] in rows && DateLe(corte, r[i].hasta)
  {
    if rows == [] then []
    else if DateLe(corte, rows[0].hasta) then [rows[0]] + EndingFrom(rows[1..], corte)
    else EndingFrom(rows[1..], corte)
  }

  /** The rows the average runs over: all of them, or, for "ultimos_10", the last ten years. */
  function Window(rows: seq<Contribution>, metodo: string): (w: seq<Contribution>)
    ensures |w| <= |rows|
    ensures forall i :: 0 <= i < |w| ==> w[i] in rows
    ensures metodo != "ultimos_10" ==> w == rows
  {
    if metodo == "ultimos_10" && rows != [] then EndingFrom(rows, TenYearsBefore(MaxHasta(rows)))
    else rows
  }

  /** A wage at or below zero counts as zero. */
  function NonNegative(x: real): real {
    if x <= 0.0 then 0.0 else x
  }

  function UpdatedColumn(ds: seq<Detail>): seq<real> {
    seq(|ds|, i requires 0 <= i < |ds| => ds[i].ibcActualizado)
  }

  function HistoricColumn(ds: seq<Detail>): seq<real> {
    seq(|ds|, i requires 0 <= i < |ds| => ds[i].ibcHistorico)
  }

  // ---------------------------------------------------------------------------
  // Replacement rate.

  /** The detail dictionary of the rate computation. */
  datatype RateDetail = RateDetail(rInicial: real, semanasMinimas: int, semanasExtra: real,
                                   puntosAdicionales: real, tasaFinal: real)

  /** Monthly pension, rate in percent, and the detail (None for the empty dictionary). */
  datatype Liquidation = Liquidation(mesada: real, tasa: real, detalle: Option<RateDetail>)

  /** The weeks required for a pension in a given year. */
  function MinimumWeeks(genero: string, anioPension: int): (n: int)
    ensures 1000 <= n <= 1300
    ensures genero != "Femenino" ==> n == 1300
  {
    if genero == "Femenino" then
      if anioPension < 2026 then 1300
      else if anioPension == 2026 then 1250
      else
        var diff := anioPension - 2026;
        if 1000 > 1250 - 25 * diff then 1000 else 1250 - 25 * diff
    else 1300
  }

  /** 1.5 points for each full 50 weeks above the minimum. */
  function BonusPoints(semanasExtra: real): real
    requires semanasExtra >= 0.0
  {
    ((semanasExtra / 50.0).Floor as real) * 1.5
  }

  /** The bonus rate from the weeks: never negative, and non-decreasing in the weeks. */
  function WeeksBonus(semanas: real, minimas: int): (b: real)
    ensures b >= 0.0
    ensures semanas < minimas as real + 50.0 ==> b == 0.0
  {
    if semanas > minimas as real then BonusPoints(semanas - minimas as real) else 0.0
  }

  /** Line 117's adjustment: a negative rate paid at the minimum wage becomes the rate that pays it. */
  function MinimumPensionRate(ibl: real, tasa: real, mesada: real): (r: real)
    requires ibl > 0.0
    ensures tasa >= 0.0 || mesada != Smmlv ==> r == tasa
    ensures tasa < 0.0 && mesada == Smmlv ==> r > 0.0 && ibl * (r / 100.0) == Smmlv
  {
    if tasa < 0.0 && mesada == Smmlv then (Smmlv / ibl) * 100.0 else tasa
  }

  /** The rate clamped to the legal range [0, 80]. */
  function LegalRate(tasa: real): (r: real)
    ensures 0.0 <= r <= 80.0
    ensures 0.0 <= tasa <= 80.0 ==> r == tasa
    ensures tasa < 0.0 ==> r == 0.0
    ensures tasa > 80.0 ==> r == 80.0
  {
    var t := if tasa < 0.0 then 0.0 else tasa;
    if t > 80.0 then 80.0 else t
  }

  /** The pension floor: never below one minimum wage. */
  function FloorAtMinimumWage(mesada: real): (r: real)
    ensures r >= Smmlv && r >= mesada && (r == mesada || r == Smmlv)
  {
    if mesada < Smmlv then Smmlv else mesada
  }

  // ---------------------------------------------------------------------------
  // Transition regime.

  /** The weeks of the rows that ended by the cut-off (Hasta <= cutoff). */
  function WeeksUpTo(rows: seq<Contribution>, cutoff: Date): real {
    if rows == [] then 0.0
    else (if DateLe(rows[0].hasta, cutoff) then rows[0].semanas else 0.0) + WeeksUpTo(rows[1..], cutoff)
  }

  // ---------------------------------------------------------------------------

  /**
   * A contribution history, the worker's gender and the valuation date (the
   * clock reading the original takes at construction).
   */
  class LiquidadorPension {
    const historia: seq<Contribution>
    const genero: string
    const fechaActual: Date
    const ipcHistorico: CpiTable

    /** The CPI table holds the years 1967 to 2026, each with a positive rate. */
    ghost predicate Valid() {
      IsCpiTable(ipcHistorico)
    }

    constructor(historia: seq<Contribution>, genero: string, fechaActual: Date)
      ensures this.historia == historia && this.genero == genero && this.fechaActual == fechaActual
      ensures ipcHistorico == LogicCpi && Valid()
    {
      this.historia := historia;
      this.genero := genero;
      this.fechaActual := fechaActual;
      this.ipcHistorico := LogicCpi;
      LogicCpiIsTable();
    }

    /** The factor from startYear to endYear: growth of the years max(start, 1967) .. min(end, 2026) - 1. */
    function CpiGrowth(startYear: int, endYear: int): (g: real)
      ensures startYear >= endYear || endYear <= FirstYear || startYear >= LastYear ==> g == 1.0
    {
      Compound(ipcHistorico, if startYear < FirstYear then FirstYear else startYear,
                             if endYear > LastYear then LastYear else endYear)
    }

    /** The detail row of one contribution. */
    function DetailOf(c: Contribution): Detail {
      var factor := CpiGrowth(c.hasta.year, fechaActual.year);
      Detail(c.desde, c.hasta, NonNegative(c.ibc), factor, NonNegative(c.ibc) * factor, c.semanas)
    }

    function Details(rows: seq<Contribution>): seq<Detail> {
      seq(|rows|, i requires 0 <= i < |rows| => DetailOf(rows[i]))
    }

    /** obtener_factor_ipc: multiplies (1 + CPI/100) over the clamped range of years. */
    method IndexFactor(fechaInicio: Date, fechaFin: Date) returns (factor: real)
      requires Valid()
      ensures factor == CpiGrowth(fechaInicio.year, fechaFin.year)
      ensures factor >= 1.0
    {
      var anioInicio := fechaInicio.year;
      var anioFin := fechaFin.year;
      if anioInicio < FirstYear {
        anioInicio := FirstYear;
      }
      if anioFin > LastYear {
        anioFin := LastYear;
      }
      factor := 1.0;
      var anio := anioInicio;
      while anio < anioFin
        invariant anioInicio <= anio && (anio <= anioFin || anio == anioInicio)
        invariant factor == Compound(ipcHistorico, anioInicio, anio)
        decreases anioFin - anio
      {
        var entry := ipcHistorico(anio);
        CompoundNext(ipcHistorico, anioInicio, anio, factor, entry);
        if entry.Some? {
          factor := factor * (1.0 + entry.value / 100.0);
        }
        anio := anio + 1;
      }
      CpiGrowthAtLeastOne(this, fechaInicio.year, fechaFin.year);
    }

    /**
     * calcular_ibl_indexado: the mean of the indexed wages over the chosen
     * window, with one detail row per contribution in it.
     */
    method IndexedIbl(metodo: string) returns (ibl: real, detalles: seq<Detail>)
      requires Valid()
      ensures detalles == Details(Window(historia, metodo))
      ensures ibl == Mean(UpdatedColumn(detalles))
    {
      if historia == [] {
        return 0.0, [];
      }
      var filas := Window(historia, metodo);
      detalles := [];
      for i := 0 to |filas|
        invariant |detalles| == i
        invariant forall k :: 0 <= k < i ==> detalles[k] == DetailOf(filas[k])
      {
        var row := filas[i];
        var ibcHist := row.ibc;
        if ibcHist <= 0.0 {
          ibcHist := 0.0;
        }
        var factor := IndexFactor(row.hasta, fechaActual);
        var ibcAct := ibcHist * factor;
        detalles := detalles + [Detail(row.desde, row.hasta, ibcHist, factor, ibcAct, row.semanas)];
      }
      assert detalles == Details(filas);
      if detalles == [] {
        return 0.0, [];
      }
      ibl := Mean(UpdatedColumn(detalles));
    }

    /** calcular_tasa_reemplazo_797: r = 65.5 - 0.5 s, plus the week bonus, clamped, with the pension floor. */
    function ReplacementRate(ibl: real, semanas: real, anioPension: int): (r: Liquidation)
      ensures ibl <= 0.0 ==> r == Liquidation(0.0, 0.0, None)
      ensures ibl > 0.0 ==> 0.0 <= r.tasa <= 80.0 && r.mesada >= Smmlv
      ensures ibl > 0.0 ==> r.detalle.Some? && r.detalle.value.tasaFinal == r.tasa
    {
      if ibl <= 0.0 then Liquidation(0.0, 0.0, None)
      else
        var rInicial := 65.5 - 0.5 * (ibl / Smmlv);
        var minimas := MinimumWeeks(genero, anioPension);
        var extra := if semanas > minimas as real then semanas - minimas as real else 0.0;
        var puntos := WeeksBonus(semanas, minimas);
        var tasa := LegalRate(rInicial + puntos);
        var mesada := FloorAtMinimumWage(ibl * (tasa / 100.0));
        var tasaFinal := MinimumPensionRate(ibl, tasa, mesada);
        Liquidation(mesada, tasaFinal, Some(RateDetail(rInicial, minimas, extra, puntos, tasaFinal)))
    }

    /** verificar_regimen_transicion: at least 750 weeks in rows that ended by 1 April 1994. */
    predicate TransitionRegime()
      ensures TransitionRegime() ==>
                exists i :: 0 <= i < |historia| && DateLe(historia[i].hasta, TransitionCutoff) && historia[i].semanas > 0.0
    {
      WeeksUpToWitness(historia, TransitionCutoff);
      WeeksUpTo(historia, TransitionCutoff) >= TransitionWeeks
    }
  }

  // ---------------------------------------------------------------------------
  // Properties of the CPI factor.

  /** Indexing never deflates: the factor is at least 1. */
  lemma CpiGrowthAtLeastOne(l: LiquidadorPension, startYear: int, endYear: int)
    requires l.Valid()
    ensures l.CpiGrowth(startYear, endYear) >= 1.0
  {
    CompoundAtLeastOne(l.ipcHistorico, if startYear < FirstYear then FirstYear else startYear,
                                       if endYear > LastYear then LastYear else endYear);
  }

  /** A later valuation year never lowers the factor. */
  lemma CpiGrowthMonotone(l: LiquidadorPension, startYear: int, endYear: int, endYear': int)
    requires l.Valid() && endYear <= endYear'
    ensures l.CpiGrowth(startYear, endYear) <= l.CpiGrowth(startYear, endYear')
  {
    CompoundMonotone(l.ipcHistorico, if startYear < FirstYear then FirstYear else startYear,
                     if endYear > LastYear then LastYear else endYear,
                     if endYear' > LastYear then LastYear else endYear');
  }

  /** The factor is 1 when the clamped range is empty; past 2026 the end year no longer matters. */
  lemma CpiGrowthClamps(l: LiquidadorPension, startYear: int, endYear: int)
    ensures startYear >= endYear || startYear >= LastYear ==> l.CpiGrowth(startYear, endYear) == 1.0
    ensures endYear >= LastYear ==> l.CpiGrowth(startYear, endYear) == l.CpiGrowth(startYear, LastYear)
  {
  }

  /** Within the table the factor over a span is the product of the factors of its two parts. */
  lemma CpiGrowthSplit(l: LiquidadorPension, a: int, b: int, c: int)
    requires FirstYear <= a <= b <= c <= LastYear
    ensures l.CpiGrowth(a, c) == l.CpiGrowth(a, b) * l.CpiGrowth(b, c)
  {
    CompoundSplit(l.ipcHistorico, a, b, c);
  }

  // ---------------------------------------------------------------------------
  // Properties of the average.

  lemma {:induction false} EndingFromSpec(rows: seq<Contribution>, corte: Date)
    ensures forall c :: c in EndingFrom(rows, corte) <==> c in rows && DateLe(corte, c.hasta)
    ensures forall c :: multiset(EndingFrom(rows, corte))[c] == if DateLe(corte, c.hasta) then multiset(rows)[c] else 0
  {
    if rows != [] {
      EndingFromSpec(rows[1..], corte);
      assert rows == [rows[0]] + rows[1..];
    }
  }

  /**
   * "ultimos_10" keeps exactly the rows ending no earlier than ten years before
   * the latest end, each as many times as the history holds it, and never
   * empties a non-empty history; any other method keeps every row.
   */
  lemma WindowSpec(rows: seq<Contribution>, metodo: string)
    ensures metodo != "ultimos_10" ==> Window(rows, metodo) == rows
    ensures metodo == "ultimos_10" && rows != [] ==>
              Window(rows, metodo) != [] &&
              forall c :: c in Window(rows, metodo) <==> c in rows && DateLe(TenYearsBefore(MaxHasta(rows)), c.hasta)
    ensures metodo == "ultimos_10" && rows != [] ==>
              forall c :: multiset(Window(rows, metodo))[c] ==
                if DateLe(TenYearsBefore(MaxHasta(rows)), c.hasta) then multiset(rows)[c] else 0
  {
    if metodo == "ultimos_10" && rows != [] {
      var corte := TenYearsBefore(MaxHasta(rows));
      EndingFromSpec(rows, corte);
      MaxHastaSpec(rows);
      var c :| c in rows && c.hasta == MaxHasta(rows);
      assert c in EndingFrom(rows, corte);
    }
  }

  /** Every detail row carries a non-negative historical wage and a factor of at least 1. */
  lemma DetailsShape(l: LiquidadorPension, rows: seq<Contribution>)
    requires l.Valid()
    ensures |l.Details(rows)| == |rows|
    ensures forall i :: 0 <= i < |rows| ==>
              var d := l.Details(rows)[i];
              d.ibcHistorico >= 0.0 && d.factorIpc >= 1.0 && d.ibcActualizado >= d.ibcHistorico &&
              d.desde == rows[i].desde && d.hasta == rows[i].hasta && d.semanas == rows[i].semanas
  {
    forall i | 0 <= i < |rows|
      ensures l.Details(rows)[i].factorIpc >= 1.0
      ensures l.Details(rows)[i].ibcActualizado >= l.Details(rows)[i].ibcHistorico
    {
      CpiGrowthAtLeastOne(l, rows[i].hasta.year, l.fechaActual.year);
      ScaleUp(NonNegative(rows[i].ibc), l.CpiGrowth(rows[i].hasta.year, l.fechaActual.year));
    }
  }

  lemma ScaleUp(h: real, f: real)
    requires h >= 0.0 && f >= 1.0
    ensures h * f >= h
  {
  }

  /** Indexation never lowers the average: the IBL is at least the mean historical wage, which is at least 0. */
  lemma IblAtLeastHistoricMean(l: LiquidadorPension, rows: seq<Contribution>)
    requires l.Valid()
    ensures Mean(UpdatedColumn(l.Details(rows))) >= Mean(HistoricColumn(l.Details(rows)))
    ensures Mean(HistoricColumn(l.Details(rows))) >= 0.0
  {
    var ds := l.Details(rows);
    DetailsShape(l, rows);
    MeanMonotone(HistoricColumn(ds), UpdatedColumn(ds));
    if ds != [] {
      MeanBounds(HistoricColumn(ds), 0.0, MaxOf(HistoricColumn(ds)));
    }
  }

  /** The largest element of a non-empty column. */
  function MaxOf(xs: seq<real>): (m: real)
    requires xs != []
    ensures forall i :: 0 <= i < |xs| ==> xs[i] <= m
  {
    if |xs| == 1 then xs[0] else MaxReal(xs[|xs| - 1], MaxOf(xs[..|xs| - 1]))
  }

  // ---------------------------------------------------------------------------
  // Properties of the replacement rate.

  /** The threshold lies in [1000, 1300]: 1300 for men, the women's schedule otherwise. */
  lemma MinimumWeeksSpec(genero: string, anioPension: int)
    ensures 1000 <= MinimumWeeks(genero, anioPension) <= 1300
    ensures genero != "Femenino" ==> MinimumWeeks(genero, anioPension) == 1300
    ensures genero == "Femenino" ==> MinimumWeeks(genero, anioPension) == Utils.SemanasMinimasMujeres(anioPension)
  {
  }

  /** The minimum-pension adjustment of line 117 never applies: the rate is the clamped formula. */
  lemma MinimumPensionRateNeverApplies(l: LiquidadorPension, ibl: real, semanas: real, anioPension: int)
    requires ibl > 0.0
    ensures var r := l.ReplacementRate(ibl, semanas, anioPension);
            var d := r.detalle.value;
            r.detalle.Some? && r.tasa == LegalRate(d.rInicial + d.puntosAdicionales)
  {
  }

  /** The pension is the larger of the rate applied to the IBL and one minimum wage. */
  lemma MesadaIsFlooredShare(l: LiquidadorPension, ibl: real, semanas: real, anioPension: int)
    requires ibl > 0.0
    ensures var r := l.ReplacementRate(ibl, semanas, anioPension);
            r.mesada >= ibl * (r.tasa / 100.0) && r.mesada >= Smmlv &&
            (r.mesada == Smmlv || r.mesada == ibl * (r.tasa / 100.0))
  {
  }

  lemma FloorMonotone(x: real, y: real)
    requires x <= y
    ensures (x / 50.0).Floor <= (y / 50.0).Floor
  {
  }

  lemma LegalRateMonotone(x: real, y: real)
    requires x <= y
    ensures LegalRate(x) <= LegalRate(y)
  {
  }

  lemma WeeksBonusMonotone(s1: real, s2: real, minimas: int)
    requires s1 <= s2
    ensures WeeksBonus(s1, minimas) <= WeeksBonus(s2, minimas)
  {
    if s1 > minimas as real {
      FloorMonotone(s1 - minimas as real, s2 - minimas as real);
    }
  }

  /** More weeks never lower the rate nor the pension. */
  lemma ReplacementRateMonotoneInWeeks(l: LiquidadorPension, ibl: real, s1: real, s2: real, anioPension: int)
    requires s1 <= s2
    ensures l.ReplacementRate(ibl, s1, anioPension).tasa <= l.ReplacementRate(ibl, s2, anioPension).tasa
    ensures l.ReplacementRate(ibl, s1, anioPension).mesada <= l.ReplacementRate(ibl, s2, anioPension).mesada
  {
    if ibl > 0.0 {
      var minimas := MinimumWeeks(l.genero, anioPension);
      var r0 := 65.5 - 0.5 * (ibl / Smmlv);
      var t1 := ReplacementRateParts(l, ibl, s1, anioPension);
      var t2 := ReplacementRateParts(l, ibl, s2, anioPension);
      WeeksBonusMonotone(s1, s2, minimas);
      LegalRateMonotone(r0 + WeeksBonus(s1, minimas), r0 + WeeksBonus(s2, minimas));
      ShareMonotone(ibl, t1, t2);
    }
  }

  /** For a positive IBL: the rate is the clamped base rate plus the bonus, and the pension is that share, floored. */
  lemma ReplacementRateParts(l: LiquidadorPension, ibl: real, semanas: real, anioPension: int) returns (tasa: real)
    requires ibl > 0.0
    ensures tasa == LegalRate(65.5 - 0.5 * (ibl / Smmlv) + WeeksBonus(semanas, MinimumWeeks(l.genero, anioPension)))
    ensures l.ReplacementRate(ibl, semanas, anioPension).tasa == tasa
    ensures l.ReplacementRate(ibl, semanas, anioPension).mesada == FloorAtMinimumWage(ibl * (tasa / 100.0))
  {
    tasa := LegalRate(65.5 - 0.5 * (ibl / Smmlv) + WeeksBonus(semanas, MinimumWeeks(l.genero, anioPension)));
  }

  lemma ShareMonotone(ibl: real, t1: real, t2: real)
    requires ibl > 0.0 && t1 <= t2
    ensures ibl * (t1 / 100.0) <= ibl * (t2 / 100.0)
    ensures FloorAtMinimumWage(ibl * (t1 / 100.0)) <= FloorAtMinimumWage(ibl * (t2 / 100.0))
  {
    assert t1 / 100.0 <= t2 / 100.0;
  }

  /** A higher IBL never raises the rate (the base rate falls by 0.5 point per minimum wage). */
  lemma ReplacementRateFallsWithIbl(l: LiquidadorPension, ibl1: real, ibl2: real, semanas: real, anioPension: int)
    requires 0.0 < ibl1 <= ibl2
    ensures l.ReplacementRate(ibl2, semanas, anioPension).tasa <= l.ReplacementRate(ibl1, semanas, anioPension).tasa
  {
    var minimas := MinimumWeeks(l.genero, anioPension);
    var b := WeeksBonus(semanas, minimas);
    assert ibl1 / Smmlv <= ibl2 / Smmlv;
    LegalRateMonotone(65.5 - 0.5 * (ibl2 / Smmlv) + b, 65.5 - 0.5 * (ibl1 / Smmlv) + b);
  }

  /** Each full 50 weeks above the minimum adds exactly 1.5 points. */
  lemma BonusPerFiftyWeeks(k: nat, f: real)
    requires 0.0 <= f < 50.0
    ensures BonusPoints(50.0 * k as real + f) == 1.5 * k as real
  {
    var x := 50.0 * k as real + f;
    assert x / 50.0 == k as real + f / 50.0;
    assert 0.0 <= f / 50.0 < 1.0;
    assert (x / 50.0).Floor == k;
  }

  /** A man with an IBL of one minimum wage and exactly 1300 weeks gets 65% of it, floored to the minimum wage. */
  lemma ReplacementRateAtMinimumWage(l: LiquidadorPension, anioPension: int)
    requires l.genero == "Masculino"
    ensures l.ReplacementRate(Smmlv, 1300.0, anioPension) ==
              Liquidation(Smmlv, 65.0, Some(RateDetail(65.0, 1300, 0.0, 0.0, 65.0)))
  {
  }

  /** Ten minimum wages and 100 extra weeks: 60.5 + 3 = 63.5%, above the floor. */
  lemma ReplacementRateTenMinimumWages(l: LiquidadorPension, anioPension: int)
    requires l.genero == "Masculino"
    ensures l.ReplacementRate(10.0 * Smmlv, 1400.0, anioPension).tasa == 63.5
    ensures l.ReplacementRate(10.0 * Smmlv, 1400.0, anioPension).mesada == 6.35 * Smmlv
  {
    BonusPerFiftyWeeks(2, 0.0);
  }

  // ---------------------------------------------------------------------------
  // Properties of the transition check.

  /** The weeks of a table split over a concatenation. */
  lemma {:induction false} WeeksUpToAppend(a: seq<Contribution>, b: seq<Contribution>, cutoff: Date)
    ensures WeeksUpTo(a + b, cutoff) == WeeksUpTo(a, cutoff) + WeeksUpTo(b, cutoff)
  {
    if a == [] {
      assert a + b == b;
    } else {
      WeeksUpToAppend(a[1..], b, cutoff);
      assert (a + b)[1..] == a[1..] + b;
    }
  }

  /** Weeks counted before the cut-off come from some row that ended by then with positive weeks. */
  lemma {:induction false} WeeksUpToWitness(rows: seq<Contribution>, cutoff: Date)
    ensures WeeksUpTo(rows, cutoff) > 0.0 ==>
              exists i :: 0 <= i < |rows| && DateLe(rows[i].hasta, cutoff) && rows[i].semanas > 0.0
  {
    if rows != [] && WeeksUpTo(rows, cutoff) > 0.0 {
      if !(DateLe(rows[0].hasta, cutoff) && rows[0].semanas > 0.0) {
        WeeksUpToWitness(rows[1..], cutoff);
        var i :| 0 <= i < |rows[1..]| && DateLe(rows[1..][i].hasta, cutoff) && rows[1..][i].semanas > 0.0;
        assert rows[i + 1] == rows[1..][i];
      }
    }
  }

  /** Rows that ended after the cut-off do not count. */
  lemma {:induction false} WeeksUpToIgnoresLaterRows(rows: seq<Contribution>, cutoff: Date)
    requires forall c :: c in rows ==> !DateLe(c.hasta, cutoff)
    ensures WeeksUpTo(rows, cutoff) == 0.0
  {
    if rows != [] {
      assert forall c :: c in rows[1..] ==> c in rows;
      WeeksUpToIgnoresLaterRows(rows[1..], cutoff);
    }
  }

  /** Adding contributions with no negative weeks never takes the regime away. */
  lemma TransitionRegimeMonotone(l1: LiquidadorPension, l2: LiquidadorPension, extra: seq<Contribution>)
    requires l2.historia == l1.historia + extra
    requires forall c :: c in extra ==> c.semanas >= 0.0
    ensures l1.TransitionRegime() ==> l2.TransitionRegime()
  {
    WeeksUpToAppend(l1.historia, extra, TransitionCutoff);
    WeeksUpToNonNegative(extra, TransitionCutoff);
  }

  lemma {:induction false} WeeksUpToNonNegative(rows: seq<Contribution>, cutoff: Date)
    requires forall c :: c in rows ==> c.semanas >= 0.0
    ensures WeeksUpTo(rows, cutoff) >= 0.0
  {
    if rows != [] {
      assert forall c :: c in rows[1..] ==> c in rows;
      WeeksUpToNonNegative(rows[1..], cutoff);
    }
  }

  /** Contributions that ended after 1 April 1994 never decide the regime. */
  lemma TransitionRegimeIgnoresLaterRows(l1: LiquidadorPension, l2: LiquidadorPension, later: seq<Contribution>)
    requires l2.historia == l1.historia + later
    requires forall c :: c in later ==> !DateLe(c.hasta, TransitionCutoff)
    ensures l1.TransitionRegime() <==> l2.TransitionRegime()
  {
    WeeksUpToAppend(l1.historia, later, TransitionCutoff);
    WeeksUpToIgnoresLaterRows(later, TransitionCutoff);
  }
}
