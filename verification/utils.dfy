/**
 * The stand-alone helpers: a cumulative CPI index read as a ratio of running
 * index values, and the women's minimum-weeks schedule.
 */
module Utils {
  import opened Common
  import opened Indexation

  /** The second CPI table, in percent: 1967-1986 (the first four years are rough values). */
  const UtilsRates1: seq<real> := [
    50.0, 50.0, 50.0, 50.0, 12.0, 13.0, 23.0, 25.0, 17.0, 25.0,
    29.0, 19.0, 29.0, 25.85, 26.36, 24.03, 16.64, 18.28, 22.45, 20.95
  ]
  /** 1987-2006 */
  const UtilsRates2: seq<real> := [
    24.02, 28.12, 26.12, 32.36, 26.82, 25.13, 22.60, 22.60, 19.46, 21.63,
    17.68, 16.70, 9.23, 8.75, 7.65, 6.99, 6.49, 5.50, 4.85, 4.48
  ]
  /** 2007-2026 */
  const UtilsRates3: seq<real> := [
    5.69, 7.67, 2.00, 3.17, 3.73, 2.44, 1.94, 3.66, 6.77, 5.75,
    4.09, 3.18, 3.80, 1.61, 5.62, 13.12, 9.28, 5.00, 4.00, 3.50
  ]
  const UtilsRates: seq<real> := UtilsRates1 + UtilsRates2 + UtilsRates3

  /** IPC_HISTORICO[y], or None when y is not a key. */
  function UtilsCpi(y: int): Option<real> {
    if InTable(y) && y - FirstYear < |UtilsRates| then Some(UtilsRates[y - FirstYear]) else None
  }

  /** The table's keys run from 1967 to 2026 and every rate is positive. */
  lemma UtilsCpiIsTable()
    ensures IsCpiTable(UtilsCpi)
  {
    assert |UtilsRates1| == 20 && AllPositive(UtilsRates1);
    assert |UtilsRates2| == 20 && AllPositive(UtilsRates2);
    assert |UtilsRates3| == 20 && AllPositive(UtilsRates3);
    assert |UtilsRates| == LastYear - FirstYear + 1 && AllPositive(UtilsRates);
  }

  lemma UtilsCpiKeys(y: int)
    ensures UtilsCpi(y).Some? <==> InTable(y)
  {
    UtilsCpiIsTable();
  }

  lemma UtilsIndexPositive(y: int)
    ensures RunningIndex(UtilsCpi, y) >= 100.0
  {
    UtilsCpiIsTable();
    RunningIndexAbove100(UtilsCpi, y);
  }

  /** The start year after clamping to the first table year. */
  function ClampedStart(startYear: int): int {
    if startYear < FirstYear then FirstYear else startYear
  }

  /**
   * What the loop computes in closed form: 1.0 when the start year is never
   * visited; otherwise the index captured at the end year (still 100 when the
   * end year lies past the table) over the index at the start year.
   */
  function AccumulatedFactor(startYear: int, endYear: int): real {
    var s := ClampedStart(startYear);
    if s > endYear || s > LastYear then 1.0
    else
      UtilsCpiIsTable();
      RunningIndexAbove100(UtilsCpi, s);
      (if endYear <= LastYear then RunningIndex(UtilsCpi, endYear) else 100.0) / RunningIndex(UtilsCpi, s)
  }

  /**
   * obtener_ipc_acumulado: walks the years from 1967 to the end year,
   * compounding a running index from 100 and capturing it at the start year and
   * at the end year.
   */
  method AccumulatedIndex(startYear: int, endYear: int) returns (factor: real)
    ensures factor == AccumulatedFactor(startYear, endYear)
  {
    var inicio := ClampedStart(startYear);
    var ipcBase := 100.0;
    var indiceInicial := 100.0;
    var indiceFinal := 100.0;
    var foundInicio := false;
    var anio := FirstYear;
    while anio <= endYear
      invariant FirstYear <= anio && (anio <= endYear + 1 || anio == FirstYear)
      invariant ipcBase == RunningIndex(UtilsCpi, anio - 1)
      invariant foundInicio <==> inicio < anio && inicio <= LastYear
      invariant foundInicio ==> indiceInicial == RunningIndex(UtilsCpi, inicio)
      invariant indiceFinal == if endYear < anio && endYear <= LastYear then RunningIndex(UtilsCpi, endYear) else 100.0
      decreases endYear - anio
    {
      var entry := UtilsCpi(anio);
      UtilsCpiKeys(anio);
      RunningIndexNext(UtilsCpi, anio, ipcBase, entry);
      if entry.Some? {
        ipcBase := ipcBase * (1.0 + entry.value / 100.0);
        if anio == inicio {
          indiceInicial := ipcBase;
          foundInicio := true;
        }
        if anio == endYear {
          indiceFinal := ipcBase;
        }
      }
      anio := anio + 1;
    }
    if !foundInicio {
      return 1.0;
    }
    UtilsIndexPositive(inicio);
    factor := indiceFinal / indiceInicial;
  }

  /** Within the table the factor is the growth of the years after the start, up to the end. */
  lemma AccumulatedWithinTable(startYear: int, endYear: int)
    requires FirstYear <= startYear <= endYear <= LastYear
    ensures AccumulatedFactor(startYear, endYear) == Compound(UtilsCpi, startYear + 1, endYear + 1)
  {
    UtilsCpiIsTable();
    RunningIndexRatio(UtilsCpi, startYear, endYear);
  }

  /** Within the table the factor is 1 exactly when start and end coincide, and above 1 otherwise. */
  lemma AccumulatedOneIff(startYear: int, endYear: int)
    requires FirstYear <= startYear <= endYear <= LastYear
    ensures AccumulatedFactor(startYear, endYear) >= 1.0
    ensures AccumulatedFactor(startYear, endYear) == 1.0 <==> startYear == endYear
  {
    AccumulatedWithinTable(startYear, endYear);
    UtilsCpiIsTable();
    CompoundAtLeastOne(UtilsCpi, startYear + 1, endYear + 1);
    if startYear < endYear {
      CompoundAboveOne(UtilsCpi, startYear + 1, endYear + 1);
    }
  }

  /** A start year before 1967 counts as 1967. */
  lemma AccumulatedClampsStart(startYear: int, endYear: int)
    requires startYear < FirstYear
    ensures AccumulatedFactor(startYear, endYear) == AccumulatedFactor(FirstYear, endYear)
  {
  }

  /** A start year after the end year, or after the table, gives 1.0. */
  lemma AccumulatedStartNotReached(startYear: int, endYear: int)
    requires startYear > endYear || startYear > LastYear
    ensures AccumulatedFactor(startYear, endYear) == 1.0
  {
  }

  /** An end year after the table leaves the final index at 100: the factor is 100 / index(start). */
  lemma AccumulatedPastTable(startYear: int, endYear: int)
    requires FirstYear <= startYear <= LastYear < endYear
    ensures RunningIndex(UtilsCpi, startYear) > 100.0
    ensures AccumulatedFactor(startYear, endYear) == 100.0 / RunningIndex(UtilsCpi, startYear)
    ensures AccumulatedFactor(startYear, endYear) < 1.0
  {
    UtilsCpiIsTable();
    RunningIndexAbove100(UtilsCpi, startYear);
  }

  /**
   * The evidently intended reading of the factor: the end year clamped to the
   * table as well, as the other CPI factor does.
   */
  function AccumulatedFactorClamped(startYear: int, endYear: int): real {
    AccumulatedFactor(startYear, if endYear > LastYear then LastYear else endYear)
  }

  /** With the end year clamped, indexing never deflates a wage. */
  lemma AccumulatedClampedAtLeastOne(startYear: int, endYear: int)
    ensures AccumulatedFactorClamped(startYear, endYear) >= 1.0
  {
    var s := ClampedStart(startYear);
    var e := if endYear > LastYear then LastYear else endYear;
    if s <= e && s <= LastYear {
      AccumulatedOneIff(s, e);
    }
  }

  /** Past the table the clamped factor is the full growth from the start year to 2026. */
  lemma AccumulatedClampedPastTable(startYear: int, endYear: int)
    requires FirstYear <= startYear <= LastYear < endYear
    ensures AccumulatedFactorClamped(startYear, endYear) == AccumulatedFactor(startYear, LastYear)
    ensures AccumulatedFactorClamped(startYear, endYear) >= 1.0
  {
    AccumulatedOneIff(startYear, LastYear);
  }

  // ---------------------------------------------------------------------------

  /** calcular_semanas_minimas_mujeres: 1300, then 1250 in 2026, then 25 fewer per year down to 1000. */
  function SemanasMinimasMujeres(anio: int): (semanas: int)
    ensures 1000 <= semanas <= 1300
  {
    if anio < 2026 then 1300
    else if anio == 2026 then 1250
    else
      var semanas := 1250 - 25 * (anio - 2026);
      if semanas > 1000 then semanas else 1000
  }

  /** The schedule never rises from one year to a later one. */
  lemma SemanasMinimasNonIncreasing(a: int, b: int)
    requires a <= b
    ensures SemanasMinimasMujeres(b) <= SemanasMinimasMujeres(a)
  {
  }

  /** From 2036 on the schedule rests at its floor of 1000 weeks. */
  lemma SemanasMinimasFloor(anio: int)
    ensures SemanasMinimasMujeres(anio) == 1000 <==> anio >= 2036
  {
  }
}
