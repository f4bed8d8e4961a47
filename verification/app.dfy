/**
 * The contribution-base improvement simulator: every reported IBC is raised
 * by 20%, 30% and 50%, clamped between a floor proportional to the days
 * worked and a ceiling of 25 minimum wages, and the means of the scenarios
 * are compared with the mean of the original IBC.
 */
module App {
  import opened Common
  import opened Text
  import Amounts

  /** The 2026 minimum wage this simulator uses. */
  const Smmlv2026: real := 1750905.0
  /** The contribution ceiling: 25 minimum wages. */
  const TopeMax: real := Smmlv2026 * 25.0
  /** The minimum wage per day of a 30-day month. */
  const ValorDiaMin: real := Smmlv2026 / 30.0

  /** A table cell as it arrives: a number, some text, or nothing. */
  datatype Cell = Num(value: real) | Text(text: string) | Null

  /** A data frame: column names and rows of cells. */
  datatype Frame = Frame(columns: seq<string>, rows: seq<seq<Cell>>)

  /** Every row has one cell per column. */
  predicate WellFormed(f: Frame) {
    forall i :: 0 <= i < |f.rows| ==> |f.rows[i]| == |f.columns|
  }

  /** The reported IBC is column G and the days column L. */
  const IbcColumn: nat := 6
  const DaysColumn: nat := 11

  /** One scenario: its column name and its multiplier. */
  datatype Scenario = Scenario(nombre: string, multiplicador: real)

  const Scenarios: seq<Scenario> :=
    [Scenario("Escenario_20", 1.2), Scenario("Escenario_30", 1.3), Scenario("Escenario_50", 1.5)]

  // ---------------------------------------------------------------------------
  // The legal caps.

  /**
   * aplicar_topes: at least the proportional minimum wage for the days, at
   * most 25 minimum wages. The result never exceeds the ceiling; it is at
   * least the proportional floor whenever the floor is below the ceiling; and
   * it is the value itself, the floor or the ceiling.
   */
  function ApplyCaps(valorIbc: real, dias: real): (r: real)
    ensures r <= TopeMax
    ensures ValorDiaMin * dias <= TopeMax ==> r >= ValorDiaMin * dias
    ensures r == valorIbc || r == ValorDiaMin * dias || r == TopeMax
  {
    var minimoProporcional := ValorDiaMin * dias;
    var nuevo := if valorIbc >= minimoProporcional then valorIbc else minimoProporcional;
    if nuevo <= TopeMax then nuevo else TopeMax
  }

  /** The ceiling is 43,772,625 and a full month's floor is exactly one minimum wage. */
  lemma CapConstants()
    ensures TopeMax == 43772625.0
    ensures ValorDiaMin * 30.0 == Smmlv2026
  {
  }

  /** A value between the floor and the ceiling passes unchanged. */
  lemma ApplyCapsWithin(valorIbc: real, dias: real)
    requires ValorDiaMin * dias <= valorIbc <= TopeMax
    ensures ApplyCaps(valorIbc, dias) == valorIbc
  {
  }

  /** With 30 days the floor is one minimum wage: an IBC below it is raised to 1,750,905. */
  lemma ApplyCapsFullMonth(valorIbc: real)
    ensures valorIbc <= Smmlv2026 ==> ApplyCaps(valorIbc, 30.0) == Smmlv2026
    ensures ApplyCaps(valorIbc, 30.0) >= Smmlv2026
  {
  }

  /** Capping twice changes nothing. */
  lemma ApplyCapsIdempotent(valorIbc: real, dias: real)
    ensures ApplyCaps(ApplyCaps(valorIbc, dias), dias) == ApplyCaps(valorIbc, dias)
  {
  }

  /** A larger IBC never gives a smaller capped value. */
  lemma ApplyCapsMonotone(v1: real, v2: real, dias: real)
    requires v1 <= v2
    ensures ApplyCaps(v1, dias) <= ApplyCaps(v2, dias)
  {
  }

  // ---------------------------------------------------------------------------
  // Cleaning the two numeric columns.

  /** pd.to_numeric with errors='coerce': numbers stay, plain decimal text is read, everything else is missing. */
  function ToNumeric(c: Cell): (r: Option<real>)
    ensures c.Num? ==> r == Some(c.value)
    ensures c.Null? ==> r == None
    ensures c.Text? && r.Some? ==> Amounts.AllDecimalChars(c.text) && r.value >= 0.0
  {
    match c
    case Num(x) => Some(x)
    case Text(s) => if Amounts.AllDecimalChars(s) then Amounts.ParseDecimal(s) else None
    case Null => None
  }

  /**
   * to_numeric followed by fillna(default): a number is kept; an empty cell or
   * non-numeric text takes the default; digit text reads as its value.
   */
  function Coerce(c: Cell, default: real): (r: real)
    ensures c.Num? ==> r == c.value
    ensures c.Null? ==> r == default
    ensures c.Text? && !Amounts.AllDecimalChars(c.text) ==> r == default
    ensures c.Text? && c.text != [] && AllDigits(c.text) ==> r == DigitsValue(c.text) as real
  {
    match ToNumeric(c)
    case Some(x) => x
    case None => default
  }

  /** The IBC of a row after cleaning: missing becomes 0. */
  function IbcOf(row: seq<Cell>): real
    requires |row| > DaysColumn
  {
    Coerce(row[IbcColumn], 0.0)
  }

  /** The days of a row after cleaning: missing becomes 30. */
  function DaysOf(row: seq<Cell>): real
    requires |row| > DaysColumn
  {
    Coerce(row[DaysColumn], 30.0)
  }

  /** The row with both numeric columns replaced by their cleaned numbers. */
  function CleanRow(row: seq<Cell>): seq<Cell>
    requires |row| > DaysColumn
  {
    row[IbcColumn := Num(IbcOf(row))][DaysColumn := Num(DaysOf(row))]
  }

  /** The capped value of a row under one multiplier. */
  function ScenarioValue(row: seq<Cell>, multiplicador: real): real
    requires |row| > DaysColumn
  {
    ApplyCaps(IbcOf(row) * multiplicador, DaysOf(row))
  }

  /** The cells of the first k scenario columns of a row. */
  function ScenarioCells(row: seq<Cell>, k: nat): seq<Cell>
    requires |row| > DaysColumn && k <= |Scenarios|
  {
    seq(k, j requires 0 <= j < k => Num(ScenarioValue(row, Scenarios[j].multiplicador)))
  }

  function ScenarioNames(k: nat): seq<string>
    requires k <= |Scenarios|
  {
    seq(k, j requires 0 <= j < k => Scenarios[j].nombre)
  }

  /** The frame the simulator returns: cleaned columns and the three scenario columns appended. */
  function SimulatedFrame(f: Frame): (r: Frame)
    requires WellFormed(f) && |f.columns| > DaysColumn
    ensures WellFormed(r) && |r.rows| == |f.rows|
    ensures r.columns == f.columns + ["Escenario_20", "Escenario_30", "Escenario_50"]
  {
    Frame(f.columns + ScenarioNames(|Scenarios|),
          seq(|f.rows|, i requires 0 <= i < |f.rows| => CleanRow(f.rows[i]) + ScenarioCells(f.rows[i], |Scenarios|)))
  }

  // ---------------------------------------------------------------------------
  // The summary.

  datatype ScenarioSummary = ScenarioSummary(nombre: string, promedio: real, incremento: Option<real>)

  /** The mean original IBC and, per scenario, its mean and its percent change against the original. */
  datatype Summary = Summary(original: real, escenarios: seq<ScenarioSummary>)

  /** The cleaned IBC column. */
  function IbcValues(f: Frame): seq<real>
    requires WellFormed(f) && |f.columns| > DaysColumn
  {
    seq(|f.rows|, i requires 0 <= i < |f.rows| => IbcOf(f.rows[i]))
  }

  /** One scenario column. */
  function ScenarioValues(f: Frame, multiplicador: real): seq<real>
    requires WellFormed(f) && |f.columns| > DaysColumn
  {
    seq(|f.rows|, i requires 0 <= i < |f.rows| => ScenarioValue(f.rows[i], multiplicador))
  }

  /** ((promedio / original) - 1) * 100; None for the division by a zero mean. */
  function PercentChange(promedio: real, original: real): Option<real> {
    if original == 0.0 then None else Some((promedio / original - 1.0) * 100.0)
  }

  function ScenarioSummaryOf(f: Frame, s: Scenario): ScenarioSummary
    requires WellFormed(f) && |f.columns| > DaysColumn
  {
    var promedio := Mean(ScenarioValues(f, s.multiplicador));
    ScenarioSummary(s.nombre, promedio, PercentChange(promedio, Mean(IbcValues(f))))
  }

  function SummaryOf(f: Frame): (r: Summary)
    requires WellFormed(f) && |f.columns| > DaysColumn
    ensures |r.escenarios| == |Scenarios|
    ensures forall k :: 0 <= k < |Scenarios| ==> r.escenarios[k].nombre == Scenarios[k].nombre
    ensures forall k :: 0 <= k < |Scenarios| ==> (r.escenarios[k].incremento.None? <==> r.original == 0.0)
  {
    Summary(Mean(IbcValues(f)),
            seq(|Scenarios|, k requires 0 <= k < |Scenarios| => ScenarioSummaryOf(f, Scenarios[k])))
  }

  /** The numbers in column j of a table whose column j holds numbers. */
  function NumericColumn(rows: seq<seq<Cell>>, j: nat): seq<real>
    requires forall i :: 0 <= i < |rows| ==> j < |rows[i]| && rows[i][j].Num?
  {
    seq(|rows|, i requires 0 <= i < |rows| => rows[i][j].value)
  }

  // ---------------------------------------------------------------------------
  // The simulator.

  /**
   * simulador_mejora_pensional: cleans the IBC and days columns of a copy of
   * the frame, adds one capped column per scenario, and summarises the means.
   */
  method SimulateImprovement(input: Frame) returns (df: Frame, resumen: Summary)
    requires WellFormed(input) && |input.columns| > DaysColumn
    ensures df == SimulatedFrame(input)
    ensures resumen == SummaryOf(input)
  {
    var rows := CleanNumericColumns(input.rows);
    var columns;
    columns, rows := AddScenarioColumns(input, rows);
    df := Frame(columns, rows);
    resumen := Summarize(input, rows);
  }

  /** The two to_numeric/fillna assignments, one column after the other. */
  method CleanNumericColumns(input: seq<seq<Cell>>) returns (rows: seq<seq<Cell>>)
    requires forall i :: 0 <= i < |input| ==> |input[i]| > DaysColumn
    ensures |rows| == |input|
    ensures forall r :: 0 <= r < |rows| ==> rows[r] == CleanRow(input[r])
  {
    rows := input;
    for i := 0 to |rows|
      invariant |rows| == |input|
      invariant forall r :: 0 <= r < i ==> rows[r] == input[r][IbcColumn := Num(IbcOf(input[r]))]
      invariant forall r :: i <= r < |rows| ==> rows[r] == input[r]
    {
      rows := rows[i := rows[i][IbcColumn := Num(Coerce(rows[i][IbcColumn], 0.0))]];
    }
    for i := 0 to |rows|
      invariant |rows| == |input|
      invariant forall r :: 0 <= r < i ==> rows[r] == CleanRow(input[r])
      invariant forall r :: i <= r < |rows| ==> rows[r] == input[r][IbcColumn := Num(IbcOf(input[r]))]
    {
      rows := rows[i := rows[i][DaysColumn := Num(Coerce(rows[i][DaysColumn], 30.0))]];
    }
  }

  /** The scenario loop: each scenario appends one column of capped, raised IBCs. */
  method AddScenarioColumns(input: Frame, cleaned: seq<seq<Cell>>) returns (columns: seq<string>, rows: seq<seq<Cell>>)
    requires WellFormed(input) && |input.columns| > DaysColumn
    requires |cleaned| == |input.rows|
    requires forall r :: 0 <= r < |cleaned| ==> cleaned[r] == CleanRow(input.rows[r])
    ensures Frame(columns, rows) == SimulatedFrame(input)
  {
    rows := cleaned;
    columns := input.columns;
    for k := 0 to |Scenarios|
      invariant |rows| == |input.rows|
      invariant columns == input.columns + ScenarioNames(k)
      invariant forall r :: 0 <= r < |rows| ==> rows[r] == CleanRow(input.rows[r]) + ScenarioCells(input.rows[r], k)
    {
      rows := AppendScenarioColumn(input, rows, k);
      columns := columns + [Scenarios[k].nombre];
    }
  }

  /** One scenario: df[nombre] = IBC * multiplier, then the caps applied row by row. */
  method AppendScenarioColumn(input: Frame, current: seq<seq<Cell>>, k: nat) returns (rows: seq<seq<Cell>>)
    requires WellFormed(input) && |input.columns| > DaysColumn && k < |Scenarios|
    requires |current| == |input.rows|
    requires forall r :: 0 <= r < |current| ==> current[r] == CleanRow(input.rows[r]) + ScenarioCells(input.rows[r], k)
    ensures |rows| == |input.rows|
    ensures forall r :: 0 <= r < |rows| ==> rows[r] == CleanRow(input.rows[r]) + ScenarioCells(input.rows[r], k + 1)
  {
    rows := current;
    var multiplicador := Scenarios[k].multiplicador;
    for i := 0 to |rows|
      invariant |rows| == |input.rows|
      invariant forall r :: 0 <= r < i ==> rows[r] == CleanRow(input.rows[r]) + ScenarioCells(input.rows[r], k + 1)
      invariant forall r :: i <= r < |rows| ==> rows[r] == current[r]
    {
      var row := rows[i];
      AppendScenario(input.rows[i], k, row);
      var valor := row[IbcColumn].value * multiplicador;
      var nuevo := ApplyCaps(valor, row[DaysColumn].value);
      rows := rows[i := row + [Num(nuevo)]];
      assert rows[i] == CleanRow(input.rows[i]) + ScenarioCells(input.rows[i], k + 1);
    }
  }

  /** The summary: the mean of the original IBC, then each scenario's mean and percent change. */
  method Summarize(input: Frame, rows: seq<seq<Cell>>) returns (resumen: Summary)
    requires WellFormed(input) && |input.columns| > DaysColumn
    requires rows == SimulatedFrame(input).rows
    ensures resumen == SummaryOf(input)
  {
    ColumnsOfSimulated(input, rows);
    var original := Mean(NumericColumn(rows, IbcColumn));
    var escenarios: seq<ScenarioSummary> := [];
    for k := 0 to |Scenarios|
      invariant |escenarios| == k
      invariant forall j :: 0 <= j < k ==> escenarios[j] == ScenarioSummaryOf(input, Scenarios[j])
    {
      var promedio := Mean(NumericColumn(rows, |input.columns| + k));
      var dif := PercentChange(promedio, original);
      escenarios := escenarios + [ScenarioSummary(Scenarios[k].nombre, promedio, dif)];
    }
    resumen := Summary(original, escenarios);
  }

  /** One scenario step on a row that already holds k scenario cells. */
  lemma AppendScenario(row: seq<Cell>, k: nat, cur: seq<Cell>)
    requires |row| > DaysColumn && k < |Scenarios|
    requires cur == CleanRow(row) + ScenarioCells(row, k)
    ensures cur[IbcColumn] == Num(IbcOf(row)) && cur[DaysColumn] == Num(DaysOf(row))
    ensures cur + [Num(ApplyCaps(cur[IbcColumn].value * Scenarios[k].multiplicador, cur[DaysColumn].value))] ==
            CleanRow(row) + ScenarioCells(row, k + 1)
  {
    var next := CleanRow(row) + ScenarioCells(row, k + 1);
    var cell := Num(ApplyCaps(cur[IbcColumn].value * Scenarios[k].multiplicador, cur[DaysColumn].value));
    assert |cur + [cell]| == |next|;
    forall j | 0 <= j < |next|
      ensures (cur + [cell])[j] == next[j]
    {
    }
  }

  /** The numeric columns of the simulated rows are the cleaned IBC and the scenario values. */
  lemma ColumnsOfSimulated(f: Frame, rows: seq<seq<Cell>>)
    requires WellFormed(f) && |f.columns| > DaysColumn
    requires rows == SimulatedFrame(f).rows
    ensures forall i :: 0 <= i < |rows| ==> IbcColumn < |rows[i]| && rows[i][IbcColumn].Num?
    ensures NumericColumn(rows, IbcColumn) == IbcValues(f)
    ensures forall k :: 0 <= k < |Scenarios| ==>
              (forall i :: 0 <= i < |rows| ==> |f.columns| + k < |rows[i]| && rows[i][|f.columns| + k].Num?) &&
              NumericColumn(rows, |f.columns| + k) == ScenarioValues(f, Scenarios[k].multiplicador)
  {
    forall k | 0 <= k < |Scenarios|
      ensures (forall i :: 0 <= i < |rows| ==> |f.columns| + k < |rows[i]| && rows[i][|f.columns| + k].Num?) &&
              NumericColumn(rows, |f.columns| + k) == ScenarioValues(f, Scenarios[k].multiplicador)
    {
      forall i | 0 <= i < |rows|
        ensures |f.columns| + k < |rows[i]| && rows[i][|f.columns| + k] == Num(ScenarioValue(f.rows[i], Scenarios[k].multiplicador))
      {
      }
    }
  }

  // ---------------------------------------------------------------------------
  // Properties of the simulation.

  /**
   * The returned frame keeps every original column except the two cleaned
   * ones, holds the cleaned numbers in those, and appends one capped value per
   * scenario.
   */
  lemma SimulatedFrameSpec(f: Frame)
    requires WellFormed(f) && |f.columns| > DaysColumn
    ensures var g := SimulatedFrame(f);
            WellFormed(g) && g.columns[..|f.columns|] == f.columns && |g.rows| == |f.rows| &&
            forall i :: 0 <= i < |f.rows| ==>
              |g.rows[i]| == |f.rows[i]| + 3 &&
              (forall j :: 0 <= j < |f.rows[i]| && j != IbcColumn && j != DaysColumn ==> g.rows[i][j] == f.rows[i][j]) &&
              g.rows[i][IbcColumn] == Num(IbcOf(f.rows[i])) && g.rows[i][DaysColumn] == Num(DaysOf(f.rows[i])) &&
              (forall k :: 0 <= k < 3 ==>
                 g.rows[i][|f.columns| + k] == Num(ApplyCaps(IbcOf(f.rows[i]) * Scenarios[k].multiplicador, DaysOf(f.rows[i]))))
  {
    var g := SimulatedFrame(f);
    assert (f.columns + ScenarioNames(3))[..|f.columns|] == f.columns;
    forall i | 0 <= i < |f.rows|
      ensures |g.rows[i]| == |f.rows[i]| + 3
      ensures forall j :: 0 <= j < |f.rows[i]| && j != IbcColumn && j != DaysColumn ==> g.rows[i][j] == f.rows[i][j]
      ensures g.rows[i][IbcColumn] == Num(IbcOf(f.rows[i])) && g.rows[i][DaysColumn] == Num(DaysOf(f.rows[i]))
      ensures forall k :: 0 <= k < 3 ==>
                g.rows[i][|f.columns| + k] == Num(ApplyCaps(IbcOf(f.rows[i]) * Scenarios[k].multiplicador, DaysOf(f.rows[i])))
    {
      assert g.rows[i] == CleanRow(f.rows[i]) + ScenarioCells(f.rows[i], 3);
      SimulatedRow(f.rows[i]);
    }
  }

  /** One row of the returned frame: the cleaned row followed by its three capped values. */
  lemma SimulatedRow(row: seq<Cell>)
    requires |row| > DaysColumn
    ensures var s, n := CleanRow(row) + ScenarioCells(row, 3), |row|;
            |s| == n + 3 &&
            (forall j :: 0 <= j < n && j != IbcColumn && j != DaysColumn ==> s[j] == row[j]) &&
            s[IbcColumn] == Num(IbcOf(row)) && s[DaysColumn] == Num(DaysOf(row)) &&
            forall k :: 0 <= k < 3 ==> s[n + k] == Num(ApplyCaps(IbcOf(row) * Scenarios[k].multiplicador, DaysOf(row)))
  {
    var c, t := CleanRow(row), ScenarioCells(row, 3);
    var s, n := c + t, |row|;
    assert |c| == n && |t| == 3;
    forall j | 0 <= j < n && j != IbcColumn && j != DaysColumn
      ensures s[j] == row[j]
    {
      assert s[j] == c[j];
    }
    assert s[IbcColumn] == c[IbcColumn] && s[DaysColumn] == c[DaysColumn];
    forall k | 0 <= k < 3
      ensures s[n + k] == Num(ApplyCaps(IbcOf(row) * Scenarios[k].multiplicador, DaysOf(row)))
    {
      assert s[n + k] == t[k];
    }
  }

  /** Every scenario value lies under the ceiling; with a non-negative IBC, 20% <= 30% <= 50%. */
  lemma ScenarioValuesOrdered(row: seq<Cell>)
    requires |row| > DaysColumn
    ensures ScenarioValue(row, 1.2) <= TopeMax && ScenarioValue(row, 1.3) <= TopeMax && ScenarioValue(row, 1.5) <= TopeMax
    ensures IbcOf(row) >= 0.0 ==> ScenarioValue(row, 1.2) <= ScenarioValue(row, 1.3) <= ScenarioValue(row, 1.5)
  {
    var v := IbcOf(row);
    if v >= 0.0 {
      assert v * 1.2 <= v * 1.3 <= v * 1.5;
      ApplyCapsMonotone(v * 1.2, v * 1.3, DaysOf(row));
      ApplyCapsMonotone(v * 1.3, v * 1.5, DaysOf(row));
    }
  }

  /** Each scenario mean is at most the ceiling; with non-negative IBCs the means are ordered 20% <= 30% <= 50%. */
  lemma ScenarioMeansOrdered(f: Frame)
    requires WellFormed(f) && |f.columns| > DaysColumn
    ensures forall k :: 0 <= k < 3 ==> SummaryOf(f).escenarios[k].promedio <= TopeMax
    ensures (forall i :: 0 <= i < |f.rows| ==> IbcOf(f.rows[i]) >= 0.0) ==>
              SummaryOf(f).escenarios[0].promedio <= SummaryOf(f).escenarios[1].promedio <= SummaryOf(f).escenarios[2].promedio
  {
    var s20, s30, s50 := ScenarioValues(f, 1.2), ScenarioValues(f, 1.3), ScenarioValues(f, 1.5);
    forall i | 0 <= i < |f.rows|
      ensures s20[i] <= TopeMax && s30[i] <= TopeMax && s50[i] <= TopeMax
      ensures IbcOf(f.rows[i]) >= 0.0 ==> s20[i] <= s30[i] <= s50[i]
    {
      ScenarioValuesOrdered(f.rows[i]);
    }
    MeanAtMost(s20, TopeMax);
    MeanAtMost(s30, TopeMax);
    MeanAtMost(s50, TopeMax);
    if forall i :: 0 <= i < |f.rows| ==> IbcOf(f.rows[i]) >= 0.0 {
      MeanMonotone(s20, s30);
      MeanMonotone(s30, s50);
    }
  }

  /** A column bounded above by a non-negative hi has its mean bounded by hi. */
  lemma MeanAtMost(xs: seq<real>, hi: real)
    requires hi >= 0.0
    requires forall i :: 0 <= i < |xs| ==> xs[i] <= hi
    ensures Mean(xs) <= hi
  {
    var top := seq(|xs|, i requires 0 <= i < |xs| => hi);
    MeanMonotone(xs, top);
    if xs != [] {
      MeanBounds(top, hi, hi);
    }
  }

  /** Scaling every element scales the sum. */
  lemma {:induction false} SumRealsScale(xs: seq<real>, m: real)
    ensures SumReals(Scaled(xs, m)) == m * SumReals(xs)
  {
    if xs != [] {
      var n := |xs| - 1;
      var ys, init := Scaled(xs, m), xs[..n];
      SumRealsScale(init, m);
      var zs := Scaled(init, m);
      ScaledPrefix(xs, m, n);
      assert ys[..n] == zs;
      assert SumReals(ys) == SumReals(zs) + xs[n] * m;
      assert SumReals(xs) == SumReals(init) + xs[n];
      Distribute(m, SumReals(init), xs[n]);
    }
  }

  /** Scaling commutes with taking a prefix. */
  lemma ScaledPrefix(xs: seq<real>, m: real, n: nat)
    requires n <= |xs|
    ensures Scaled(xs, m)[..n] == Scaled(xs[..n], m)
  {
    var ys, zs := Scaled(xs, m)[..n], Scaled(xs[..n], m);
    forall j | 0 <= j < n
      ensures ys[j] == zs[j]
    {
    }
  }

  lemma Distribute(m: real, a: real, b: real)
    ensures m * a + b * m == m * (a + b)
  {
  }

  /** Every IBC of f, multiplied by m, lies between its floor and the ceiling. */
  predicate NoCapBinds(f: Frame, m: real)
    requires WellFormed(f) && |f.columns| > DaysColumn
  {
    forall i :: 0 <= i < |f.rows| ==> ValorDiaMin * DaysOf(f.rows[i]) <= IbcOf(f.rows[i]) * m <= TopeMax
  }

  /**
   * When no cap binds in a scenario (every raised IBC lies between its floor
   * and the ceiling), the scenario mean is the original mean times the
   * multiplier, and the reported increase is exactly (multiplier - 1) * 100:
   * 20, 30 or 50 percent.
   */
  lemma UncappedIncrement(f: Frame, k: nat)
    requires WellFormed(f) && |f.columns| > DaysColumn && k < 3
    requires NoCapBinds(f, Scenarios[k].multiplicador)
    ensures SummaryOf(f).escenarios[k].promedio == Scenarios[k].multiplicador * SummaryOf(f).original
    ensures SummaryOf(f).original != 0.0 ==>
              SummaryOf(f).escenarios[k].incremento == Some((Scenarios[k].multiplicador - 1.0) * 100.0)
  {
    var m := Scenarios[k].multiplicador;
    UncappedMean(f, m);
    SummaryEntry(f, k);
  }

  /** The same, for any multiplier: the column mean scales and the increase follows. */
  lemma UncappedMean(f: Frame, m: real)
    requires WellFormed(f) && |f.columns| > DaysColumn
    requires NoCapBinds(f, m)
    ensures Mean(ScenarioValues(f, m)) == m * Mean(IbcValues(f))
    ensures Mean(IbcValues(f)) != 0.0 ==>
              PercentChange(Mean(ScenarioValues(f, m)), Mean(IbcValues(f))) == Some((m - 1.0) * 100.0)
  {
    var xs, ys := IbcValues(f), ScenarioValues(f, m);
    UncappedColumn(f, m);
    MeanScale(xs, m);
    var o := Mean(xs);
    assert Mean(ys) == m * o;
    PercentOfMultiple(m, o);
  }

  /** The parts of the summary, one scenario at a time. */
  lemma SummaryEntry(f: Frame, k: nat)
    requires WellFormed(f) && |f.columns| > DaysColumn && k < |Scenarios|
    ensures SummaryOf(f).original == Mean(IbcValues(f))
    ensures SummaryOf(f).escenarios[k].promedio == Mean(ScenarioValues(f, Scenarios[k].multiplicador))
    ensures SummaryOf(f).escenarios[k].incremento ==
            PercentChange(Mean(ScenarioValues(f, Scenarios[k].multiplicador)), Mean(IbcValues(f)))
  {
  }

  /** A mean m times the original is reported as an increase of (m - 1) * 100 percent. */
  lemma PercentOfMultiple(m: real, o: real)
    ensures o != 0.0 ==> PercentChange(m * o, o) == Some((m - 1.0) * 100.0)
  {
    if o != 0.0 {
      assert (m * o) / o == m;
    }
  }

  /** With no cap binding, the scenario column is the IBC column times the multiplier. */
  lemma UncappedColumn(f: Frame, m: real)
    requires WellFormed(f) && |f.columns| > DaysColumn
    requires NoCapBinds(f, m)
    ensures ScenarioValues(f, m) == Scaled(IbcValues(f), m)
  {
    var xs, ys := IbcValues(f), ScenarioValues(f, m);
    assert |ys| == |Scaled(xs, m)|;
    forall i | 0 <= i < |xs|
      ensures ys[i] == Scaled(xs, m)[i]
    {
      UncappedValue(f.rows[i], m);
    }
  }

  /** One row with no cap binding: the raised IBC is kept as it is. */
  lemma UncappedValue(row: seq<Cell>, m: real)
    requires |row| > DaysColumn
    requires ValorDiaMin * DaysOf(row) <= IbcOf(row) * m <= TopeMax
    ensures ScenarioValue(row, m) == IbcOf(row) * m
  {
    ApplyCapsWithin(IbcOf(row) * m, DaysOf(row));
  }

  function Scaled(xs: seq<real>, m: real): seq<real> {
    seq(|xs|, i requires 0 <= i < |xs| => xs[i] * m)
  }

  /** Scaling every element scales the mean. */
  lemma MeanScale(xs: seq<real>, m: real)
    ensures Mean(Scaled(xs, m)) == m * Mean(xs)
  {
    SumRealsScale(xs, m);
    if xs != [] {
      var n := |xs| as real;
      assert (m * SumReals(xs)) / n == m * (SumReals(xs) / n);
    }
  }

  // ---------------------------------------------------------------------------
  // The four-row example frame.

  function DemoRow(periodo: string, ibc: real, dias: real): seq<Cell> {
    [Text(periodo), Num(0.0), Num(0.0), Num(0.0), Num(0.0), Num(0.0),
     Num(ibc), Num(0.0), Num(0.0), Num(0.0), Num(0.0), Num(dias)]
  }

  const DemoFrame: Frame :=
    Frame(["Periodo", "A", "B", "C", "D", "E", "IBC_Reportado", "H", "I", "J", "K", "Dias"],
          [DemoRow("2025-01", 1800000.0, 30.0), DemoRow("2025-02", 2500000.0, 15.0),
           DemoRow("2025-03", 1750905.0, 30.0), DemoRow("2025-04", 45000000.0, 30.0)])

  /**
   * In the example the 45,000,000 IBC raised by 20% is capped at 43,772,625,
   * and the cap makes the "20%" scenario's mean fall below the original mean.
   */
  lemma DemoTwentyPercent()
    ensures WellFormed(DemoFrame) && |DemoFrame.columns| > DaysColumn
    ensures ScenarioValue(DemoFrame.rows[3], 1.2) == 43772625.0
    ensures ScenarioValue(DemoFrame.rows[1], 1.2) == 3000000.0
    ensures SummaryOf(DemoFrame).original == 12762726.25
    ensures SummaryOf(DemoFrame).escenarios[0].promedio == 12758427.75
    ensures SummaryOf(DemoFrame).escenarios[0].promedio < SummaryOf(DemoFrame).original
  {
    DemoColumns();
    SumRealsFour(1800000.0, 2500000.0, 1750905.0, 45000000.0);
    SumRealsFour(2160000.0, 3000000.0, 2101086.0, 43772625.0);
    SummaryEntry(DemoFrame, 0);
  }

  /** The cleaned IBC column of the example and its "20%" column. */
  lemma DemoColumns()
    ensures WellFormed(DemoFrame) && |DemoFrame.columns| > DaysColumn
    ensures IbcValues(DemoFrame) == [1800000.0, 2500000.0, 1750905.0, 45000000.0]
    ensures ScenarioValues(DemoFrame, 1.2) == [2160000.0, 3000000.0, 2101086.0, 43772625.0]
    ensures ScenarioValue(DemoFrame.rows[3], 1.2) == 43772625.0
    ensures ScenarioValue(DemoFrame.rows[1], 1.2) == 3000000.0
  {
    var f := DemoFrame;
    assert ScenarioValue(f.rows[0], 1.2) == 2160000.0;
    assert ScenarioValue(f.rows[1], 1.2) == 3000000.0;
    assert ScenarioValue(f.rows[2], 1.2) == 2101086.0;
    assert ScenarioValue(f.rows[3], 1.2) == 43772625.0;
  }

  lemma SumRealsFour(a: real, b: real, c: real, d: real)
    ensures SumReals([a, b, c, d]) == a + b + c + d
  {
    assert [a, b, c, d][..3] == [a, b, c];
    assert [a, b, c][..2] == [a, b];
    assert [a, b][..1] == [a];
    assert [a][..0] == [];
    assert SumReals([a]) == a;
    assert SumReals([a, b]) == a + b;
    assert SumReals([a, b, c]) == a + b + c;
  }
}
