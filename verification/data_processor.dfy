/** `DataProcessor` (core/data_processor.py): turning the rows of a preset
    table into the inputs of the projection engine. Covered here are the
    level-code parser, the checks and NaN filling `load_preset_from_csv`
    applies to an already-parsed table, the current headcount metrics, and
    the reshaping of rows into level-keyed parameter maps.
 */
module DataProcessor {
  import opened Common
  import opened Predictor
  import opened Forecast

  // ---------------------------------------------------------------- cells

  /** One cell of the parsed table: a string, a number, or NaN. */
  datatype Cell = Text(text: string) | Number(x: real) | Missing

  // ---------------------------------------------------------------- level codes

  predicate IsDigit(c: char) {
    '0' <= c <= '9'
  }

  predicate AllDigits(s: string) {
    forall i :: 0 <= i < |s| ==> IsDigit(s[i])
  }

  function DigitValue(c: char): (d: nat)
    requires IsDigit(c)
    ensures d <= 9
  {
    c as int - '0' as int
  }

  function DigitChar(d: nat): (c: char)
    requires d <= 9
    ensures IsDigit(c) && DigitValue(c) == d
  {
    ('0' as int + d) as char
  }

  /** A digit-only parse: the value of a non-empty string of ASCII digits,
      and `None` for every other string. */
  function ParseNat(s: string): (r: Option<nat>)
    ensures r.Some? <==> |s| > 0 && AllDigits(s)
    decreases |s|
  {
    if |s| == 0 || !IsDigit(s[|s| - 1]) then None
    else if |s| == 1 then Some(DigitValue(s[0]))
    else
      var prefix := ParseNat(s[..|s| - 1]);
      assert AllDigits(s) ==> AllDigits(s[..|s| - 1]);
      if prefix.None? then None else Some(10 * prefix.value + DigitValue(s[|s| - 1]))
  }

  /** The decimal digits of `n`, without leading zeros (`str(n)`). */
  function Show(n: nat): (s: string)
    ensures |s| > 0 && AllDigits(s)
    ensures s[0] == '0' ==> n == 0
    decreases n
  {
    if n < 10 then [DigitChar(n)] else Show(n / 10) + [DigitChar(n % 10)]
  }

  /** Parsing the decimal digits of a number gives the number back. */
  lemma {:induction false} ParseShow(n: nat)
    ensures ParseNat(Show(n)) == Some(n)
    decreases n
  {
    if n >= 10 {
      ParseShow(n / 10);
      var s := Show(n);
      assert s[..|s| - 1] == Show(n / 10);
    }
  }

  /** A digit string without a leading zero is the decimal form of the
      number it parses to. */
  lemma {:induction false} ShowParse(s: string)
    requires |s| > 0 && AllDigits(s)
    requires |s| > 1 ==> s[0] != '0'
    ensures ParseNat(s).Some? && Show(ParseNat(s).value) == s
    ensures |s| > 1 ==> ParseNat(s).value >= 10
    decreases |s|
  {
    if |s| > 1 {
      var t := s[..|s| - 1];
      assert AllDigits(t) && t[0] == s[0];
      ShowParse(t);
      var v := ParseNat(t).value;
      assert v >= 1;
      var n := ParseNat(s).value;
      assert n == 10 * v + DigitValue(s[|s| - 1]);
      assert n / 10 == v && n % 10 == DigitValue(s[|s| - 1]);
      assert Show(n) == Show(v) + [DigitChar(n % 10)];
    }
  }

  /** Why a level value was rejected. */
  datatype LevelError =
    | NotALevelCode             // not a string, or not starting with "L"
    | NotANumber                // `int(...)` of the suffix raises
    | LevelOutOfRange(n: int)   // the suffix parses to a number outside 1..7

  predicate IsLevelCode(v: Cell) {
    v.Text? && |v.text| > 0 && v.text[0] == 'L'
  }

  /** `normalize_level`: "L<n>" with n in 1..7 becomes n; anything else is
      rejected with the reason. */
  function NormalizeLevel(v: Cell): (r: Result<int, LevelError>)
    ensures r.Ok? ==> MinLevel <= r.value <= MaxLevel
    ensures r.Ok? ==> IsLevelCode(v) && ParseNat(v.text[1..]) == Some(r.value)
    ensures r == Err(NotALevelCode) <==> !IsLevelCode(v)
    ensures r == Err(NotANumber) <==> IsLevelCode(v) && (|v.text| == 1 || !AllDigits(v.text[1..]))
    ensures r.Err? && r.error.LevelOutOfRange? ==>
              IsLevelCode(v) && ParseNat(v.text[1..]) == Some(r.error.n) && !(MinLevel <= r.error.n <= MaxLevel)
  {
    if !IsLevelCode(v) then Err(NotALevelCode)
    else
      var n := ParseNat(v.text[1..]);
      if n.None? then Err(NotANumber)
      else if MinLevel <= n.value <= MaxLevel then Ok(n.value)
      else Err(LevelOutOfRange(n.value))
  }

  /** "L1" .. "L7" are accepted as levels 1 .. 7, and "L<n>" for any other
      number n is rejected as out of range. */
  lemma NormalizeLevelCode(n: nat)
    ensures NormalizeLevel(Text("L" + Show(n))) ==
              if MinLevel <= n <= MaxLevel then Ok(n) else Err(LevelOutOfRange(n))
  {
    assert ("L" + Show(n))[1..] == Show(n);
    ParseShow(n);
  }

  /** Every accepted level value is the code of its level, up to leading
      zeros in the number. */
  lemma NormalizeLevelAccepts(v: Cell)
    requires NormalizeLevel(v).Ok?
    requires |v.text| > 2 ==> v.text[1] != '0'
    ensures v == Text("L" + Show(NormalizeLevel(v).value))
  {
    var digits := v.text[1..];
    ShowParse(digits);
    assert v.text == "L" + digits;
  }

  // ---------------------------------------------------------------- loading

  /** The thirteen columns a preset table must have. */
  const RequiredColumns: seq<string> := [
    "level", "campus_employee", "social_employee",
    "campus_age", "social_age", "campus_leaving_age",
    "social_leaving_age", "social_new_hire_age",
    "campus_promotion_rate", "social_promotion_rate",
    "campus_attrition_rate", "social_attrition_rate",
    "hiring_ratio"]

  /** Headcount columns: NaN becomes 0, values are cast to `int`. */
  const IntegerColumns: seq<string> := ["campus_employee", "social_employee"]

  /** Age and rate columns: NaN becomes 0.0. */
  const FloatColumns: seq<string> := [
    "campus_age", "social_age", "campus_leaving_age",
    "social_leaving_age", "social_new_hire_age",
    "campus_promotion_rate", "social_promotion_rate",
    "campus_attrition_rate", "social_attrition_rate",
    "hiring_ratio"]

  /** The required columns are the level column followed by the integer
      and the float columns. */
  lemma RequiredColumnsPartition()
    ensures RequiredColumns == ["level"] + IntegerColumns + FloatColumns
  {
  }

  /** The names in `required` that are not among `columns`. */
  function Absent(required: seq<string>, columns: seq<string>): (missing: seq<string>)
    ensures |missing| <= |required|
    ensures forall c :: c in missing <==> c in required && c !in columns
    ensures missing == [] <==> forall c :: c in required ==> c in columns
  {
    if |required| == 0 then []
    else (if required[0] in columns then [] else [required[0]]) + Absent(required[1..], columns)
  }

  /** `[col for col in REQUIRED_COLUMNS if col not in df.columns]`. */
  function MissingColumns(columns: seq<string>): (missing: seq<string>)
    ensures forall c :: c in missing <==> c in RequiredColumns && c !in columns
  {
    Absent(RequiredColumns, columns)
  }

  /** A parsed table: its header and one map from column name to cell per
      row. A row without an entry for a column reads as NaN there, as
      `read_csv` fills short rows. */
  datatype Table = Table(columns: seq<string>, rows: seq<map<string, Cell>>)

  function CellAt(row: map<string, Cell>, column: string): Cell {
    if column in row then row[column] else Missing
  }

  /** numpy's cast of a float to `int`, which truncates towards zero. */
  function TruncateToInt(x: real): (n: int)
    ensures x >= 0.0 ==> n as real <= x < n as real + 1.0
    ensures x < 0.0 ==> n as real - 1.0 < x <= n as real
  {
    if x >= 0.0 then x.Floor else -((-x).Floor)
  }

  /** `fillna(0).astype(int)` on one cell; `None` where the cast raises. */
  function FillInteger(c: Cell): Option<int> {
    match c
    case Missing => Some(0)
    case Number(x) => Some(TruncateToInt(x))
    case Text(_) => None
  }

  /** `fillna(0.0).astype(float)` on one cell; `None` where the cast raises. */
  function FillReal(c: Cell): Option<real> {
    match c
    case Missing => Some(0.0)
    case Number(x) => Some(x)
    case Text(_) => None
  }

  /** One loaded row. */
  datatype Row = Row(
    level: int,
    campusEmployee: int,
    socialEmployee: int,
    campusAge: real,
    socialAge: real,
    campusLeavingAge: real,
    socialLeavingAge: real,
    socialNewHireAge: real,
    campusPromotionRate: real,
    socialPromotionRate: real,
    campusAttritionRate: real,
    socialAttritionRate: real,
    hiringRatio: real)

  /** Why loading a table fails. */
  datatype LoadError =
    | MissingRequiredColumns(names: seq<string>)
    | InvalidLevel(reason: LevelError)
    | NonNumeric

  /** No cell of a numeric column holds a string. */
  predicate NumericRow(row: map<string, Cell>) {
    && !CellAt(row, "campus_employee").Text?
    && !CellAt(row, "social_employee").Text?
    && !CellAt(row, "campus_age").Text?
    && !CellAt(row, "social_age").Text?
    && !CellAt(row, "campus_leaving_age").Text?
    && !CellAt(row, "social_leaving_age").Text?
    && !CellAt(row, "social_new_hire_age").Text?
    && !CellAt(row, "campus_promotion_rate").Text?
    && !CellAt(row, "social_promotion_rate").Text?
    && !CellAt(row, "campus_attrition_rate").Text?
    && !CellAt(row, "social_attrition_rate").Text?
    && !CellAt(row, "hiring_ratio").Text?
  }

  /** A headcount cell was filled into `n`: NaN as 0, a number truncated. */
  predicate FilledInteger(c: Cell, n: int) {
    || (c.Missing? && n == 0)
    || (c.Number? && n == TruncateToInt(c.x))
  }

  /** An age or rate cell was filled into `x`: NaN as 0.0, a number as is. */
  predicate FilledReal(c: Cell, x: real) {
    || (c.Missing? && x == 0.0)
    || (c.Number? && x == c.x)
  }

  /** `r` is what loading makes of the cells of `row`. */
  predicate LoadedFrom(row: map<string, Cell>, r: Row) {
    && NormalizeLevel(CellAt(row, "level")) == Ok(r.level)
    && FilledInteger(CellAt(row, "campus_employee"), r.campusEmployee)
    && FilledInteger(CellAt(row, "social_employee"), r.socialEmployee)
    && FilledReal(CellAt(row, "campus_age"), r.campusAge)
    && FilledReal(CellAt(row, "social_age"), r.socialAge)
    && FilledReal(CellAt(row, "campus_leaving_age"), r.campusLeavingAge)
    && FilledReal(CellAt(row, "social_leaving_age"), r.socialLeavingAge)
    && FilledReal(CellAt(row, "social_new_hire_age"), r.socialNewHireAge)
    && FilledReal(CellAt(row, "campus_promotion_rate"), r.campusPromotionRate)
    && FilledReal(CellAt(row, "social_promotion_rate"), r.socialPromotionRate)
    && FilledReal(CellAt(row, "campus_attrition_rate"), r.campusAttritionRate)
    && FilledReal(CellAt(row, "social_attrition_rate"), r.socialAttritionRate)
    && FilledReal(CellAt(row, "hiring_ratio"), r.hiringRatio)
  }

  /** `df['level'].apply(normalize_level)`: the first row whose level is
      rejected stops the conversion. */
  function NormalizeLevels(rows: seq<map<string, Cell>>): (r: Result<seq<int>, LevelError>)
    ensures r.Ok? <==> forall i :: 0 <= i < |rows| ==> NormalizeLevel(CellAt(rows[i], "level")).Ok?
    ensures r.Ok? ==> |r.value| == |rows|
    ensures r.Ok? ==> forall i :: 0 <= i < |rows| ==> NormalizeLevel(CellAt(rows[i], "level")) == Ok(r.value[i])
    ensures r.Err? ==> exists i :: 0 <= i < |rows| && NormalizeLevel(CellAt(rows[i], "level")) == Err(r.error)
                                 && forall j :: 0 <= j < i ==> NormalizeLevel(CellAt(rows[j], "level")).Ok?
  {
    if |rows| == 0 then Ok([])
    else
      var first := NormalizeLevel(CellAt(rows[0], "level"));
      if first.Err? then Err(first.error)
      else
        var rest := NormalizeLevels(rows[1..]);
        if rest.Err? then
          ghost var i :| 0 <= i < |rows[1..]| && NormalizeLevel(CellAt(rows[1..][i], "level")) == Err(rest.error)
                         && forall j :: 0 <= j < i ==> NormalizeLevel(CellAt(rows[1..][j], "level")).Ok?;
          assert NormalizeLevel(CellAt(rows[i + 1], "level")) == Err(rest.error);
          assert forall j :: 0 <= j < i + 1 ==> NormalizeLevel(CellAt(rows[j], "level")).Ok? by {
            forall j | 0 <= j < i + 1
              ensures NormalizeLevel(CellAt(rows[j], "level")).Ok?
            {
              if j > 0 { assert rows[j] == rows[1..][j - 1]; }
            }
          }
          Err(rest.error)
        else
          Ok([first.value] + rest.value)
  }

  function LoadRow(row: map<string, Cell>, level: int): (r: Row)
    requires NumericRow(row)
    requires NormalizeLevel(CellAt(row, "level")) == Ok(level)
    ensures LoadedFrom(row, r)
  {
    Row(level,
        FillInteger(CellAt(row, "campus_employee")).value,
        FillInteger(CellAt(row, "social_employee")).value,
        FillReal(CellAt(row, "campus_age")).value,
        FillReal(CellAt(row, "social_age")).value,
        FillReal(CellAt(row, "campus_leaving_age")).value,
        FillReal(CellAt(row, "social_leaving_age")).value,
        FillReal(CellAt(row, "social_new_hire_age")).value,
        FillReal(CellAt(row, "campus_promotion_rate")).value,
        FillReal(CellAt(row, "social_promotion_rate")).value,
        FillReal(CellAt(row, "campus_attrition_rate")).value,
        FillReal(CellAt(row, "social_attrition_rate")).value,
        FillReal(CellAt(row, "hiring_ratio")).value)
  }

  /** The checks of `load_preset_from_csv` on a parsed table: all required
      columns present, every level a valid code, every numeric cell a number
      or NaN; the loaded rows hold the levels as numbers and NaN filled with
      zero. */
  function LoadPreset(t: Table): (r: Result<seq<Row>, LoadError>)
    ensures r.Ok? <==>
              && (forall c :: c in RequiredColumns ==> c in t.columns)
              && (forall i :: 0 <= i < |t.rows| ==> NormalizeLevel(CellAt(t.rows[i], "level")).Ok?)
              && (forall i :: 0 <= i < |t.rows| ==> NumericRow(t.rows[i]))
    ensures r.Ok? ==> |r.value| == |t.rows|
    ensures r.Ok? ==> forall i :: 0 <= i < |t.rows| ==> LoadedFrom(t.rows[i], r.value[i])
    ensures (r.Err? && r.error.MissingRequiredColumns?) <==> exists c :: c in RequiredColumns && c !in t.columns
    ensures r.Err? && r.error.MissingRequiredColumns? ==>
              forall c :: c in r.error.names <==> c in RequiredColumns && c !in t.columns
  {
    var missing := MissingColumns(t.columns);
    if missing != [] then Err(MissingRequiredColumns(missing))
    else
      var levels := NormalizeLevels(t.rows);
      if levels.Err? then Err(InvalidLevel(levels.error))
      else if exists i :: 0 <= i < |t.rows| && !NumericRow(t.rows[i]) then Err(NonNumeric)
      else Ok(seq(|t.rows|, i requires 0 <= i < |t.rows| => LoadRow(t.rows[i], levels.value[i])))
  }

  /** Which check fails first: the missing columns are reported before any
      level, the first row with a rejected level is reported before any
      non-numeric cell. */
  lemma LoadPresetErrorOrder(t: Table, i: nat)
    requires forall c :: c in RequiredColumns ==> c in t.columns
    requires i < |t.rows|
    ensures NormalizeLevel(CellAt(t.rows[i], "level")).Err? &&
            (forall j :: 0 <= j < i ==> NormalizeLevel(CellAt(t.rows[j], "level")).Ok?) ==>
              LoadPreset(t) == Err(InvalidLevel(NormalizeLevel(CellAt(t.rows[i], "level")).error))
    ensures (forall j :: 0 <= j < |t.rows| ==> NormalizeLevel(CellAt(t.rows[j], "level")).Ok?) &&
            !NumericRow(t.rows[i]) ==>
              LoadPreset(t) == Err(NonNumeric)
  {
    var levels := NormalizeLevels(t.rows);
    if levels.Err? {
      var k :| 0 <= k < |t.rows| && NormalizeLevel(CellAt(t.rows[k], "level")) == Err(levels.error)
               && forall j :: 0 <= j < k ==> NormalizeLevel(CellAt(t.rows[j], "level")).Ok?;
      if NormalizeLevel(CellAt(t.rows[i], "level")).Err? &&
         (forall j :: 0 <= j < i ==> NormalizeLevel(CellAt(t.rows[j], "level")).Ok?) {
        assert k == i;
      }
    }
  }

  // ---------------------------------------------------------------- current metrics

  /** `calculate_current_metrics`' result. */
  datatype Metrics = Metrics(
    currentTotal: int,
    averageLevel: real,
    averageAge: real,
    campusRatio: real)

  function CampusCounts(rows: seq<Row>): (c: seq<int>)
    ensures |c| == |rows|
  {
    seq(|rows|, i requires 0 <= i < |rows| => rows[i].campusEmployee)
  }

  function SocialCounts(rows: seq<Row>): (c: seq<int>)
    ensures |c| == |rows|
  {
    seq(|rows|, i requires 0 <= i < |rows| => rows[i].socialEmployee)
  }

  /** `campus_employee + social_employee` per row. */
  function RowTotals(rows: seq<Row>): (c: seq<int>)
    ensures |c| == |rows|
  {
    seq(|rows|, i requires 0 <= i < |rows| => rows[i].campusEmployee + rows[i].socialEmployee)
  }

  /** `level * (campus_employee + social_employee)` per row. */
  function WeightedLevels(rows: seq<Row>): (c: seq<int>)
    ensures |c| == |rows|
  {
    seq(|rows|, i requires 0 <= i < |rows| => rows[i].level * (rows[i].campusEmployee + rows[i].socialEmployee))
  }

  /** `campus_employee * campus_age + social_employee * social_age` per row. */
  function RowAgeMasses(rows: seq<Row>): (c: seq<real>)
    ensures |c| == |rows|
  {
    seq(|rows|, i requires 0 <= i < |rows| =>
      rows[i].campusEmployee as real * rows[i].campusAge + rows[i].socialEmployee as real * rows[i].socialAge)
  }

  /** `calculate_current_metrics`: total headcount, headcount-weighted mean
      level, mean age and campus share. The means are 0.0 when the total is
      zero; the campus share is 0.0 unless the total is positive. */
  function CalculateCurrentMetrics(rows: seq<Row>): (m: Metrics)
    ensures m.currentTotal == Sum(CampusCounts(rows)) + Sum(SocialCounts(rows))
    ensures m.currentTotal == 0 ==> m.averageLevel == 0.0 && m.averageAge == 0.0 && m.campusRatio == 0.0
    ensures m.currentTotal != 0 ==> m.averageLevel * m.currentTotal as real == Sum(WeightedLevels(rows)) as real
    ensures m.currentTotal != 0 ==> m.averageAge * m.currentTotal as real == SumReal(RowAgeMasses(rows))
    ensures m.currentTotal > 0 ==> m.campusRatio * m.currentTotal as real == Sum(CampusCounts(rows)) as real
    ensures m.currentTotal < 0 ==> m.campusRatio == 0.0
  {
    var total := Sum(RowTotals(rows));
    SumAdd(CampusCounts(rows), SocialCounts(rows), RowTotals(rows));
    Metrics(
      total,
      Ratio(Sum(WeightedLevels(rows)) as real, total),
      Ratio(SumReal(RowAgeMasses(rows)), total),
      if total > 0 then Ratio(Sum(CampusCounts(rows)) as real, total) else 0.0)
  }

  /** Levels in 1..7 and non-negative headcounts. Loading guarantees the
      levels but accepts negative headcounts, so the non-negativity is a
      hypothesis of the bound lemmas below, not a property of loading. */
  predicate Populated(rows: seq<Row>) {
    forall i :: 0 <= i < |rows| ==>
      MinLevel <= rows[i].level <= MaxLevel && rows[i].campusEmployee >= 0 && rows[i].socialEmployee >= 0
  }

  /** With non-negative headcounts and a positive total, the mean level lies
      in 1..7 and the campus share in [0, 1]. */
  lemma MetricsWithinBounds(rows: seq<Row>)
    requires Populated(rows)
    requires CalculateCurrentMetrics(rows).currentTotal > 0
    ensures var m := CalculateCurrentMetrics(rows);
            && MinLevel as real <= m.averageLevel <= MaxLevel as real
            && 0.0 <= m.campusRatio <= 1.0
  {
    var m := CalculateCurrentMetrics(rows);
    var totals := RowTotals(rows);
    var top := seq(|rows|, i requires 0 <= i < |rows| => LevelCount * totals[i]);
    forall i | 0 <= i < |rows|
      ensures totals[i] <= WeightedLevels(rows)[i] <= top[i]
    {
      LevelTimes(rows[i].level, totals[i]);
    }
    SumMonotone(totals, WeightedLevels(rows));
    SumMonotone(WeightedLevels(rows), top);
    SumScale(totals, top, LevelCount);
    SumAdd(CampusCounts(rows), SocialCounts(rows), totals);
    RatioBounds(Sum(WeightedLevels(rows)), m.currentTotal, MinLevel, MaxLevel);
    SumNonNegative(CampusCounts(rows));
    SumNonNegative(SocialCounts(rows));
    RatioBounds(Sum(CampusCounts(rows)), m.currentTotal, 0, 1);
  }

  /** When every employee has the same age, the mean age is that age. */
  lemma UniformAgeIsAverage(rows: seq<Row>, age: real)
    requires forall i :: 0 <= i < |rows| ==> rows[i].campusAge == age && rows[i].socialAge == age
    requires CalculateCurrentMetrics(rows).currentTotal != 0
    ensures CalculateCurrentMetrics(rows).averageAge == age
  {
    var m := CalculateCurrentMetrics(rows);
    var totals := RowTotals(rows);
    var asReal := seq(|rows|, i requires 0 <= i < |rows| => totals[i] as real);
    SumAsReal(totals, asReal);
    SumRealScale(asReal, RowAgeMasses(rows), age);
    assert SumReal(RowAgeMasses(rows)) == age * m.currentTotal as real;
  }

  // ---------------------------------------------------------------- prediction parameters

  /** The levels that occur in the rows. */
  function Levels(rows: seq<Row>): set<int>
    decreases |rows|
  {
    if |rows| == 0 then {} else Levels(rows[..|rows| - 1]) + {rows[|rows| - 1].level}
  }

  /** Some row has level `l`. */
  predicate HasLevel(rows: seq<Row>, l: int) {
    exists i :: 0 <= i < |rows| && rows[i].level == l
  }

  /** A level occurs in the rows exactly when some row has it. */
  lemma {:induction false} LevelsOccur(rows: seq<Row>, l: int)
    ensures l in Levels(rows) <==> HasLevel(rows, l)
    decreases |rows|
  {
    if |rows| > 0 {
      var n := |rows| - 1;
      LevelsOccur(rows[..n], l);
      if HasLevel(rows, l) {
        var i :| 0 <= i < |rows| && rows[i].level == l;
        if i < n {
          assert rows[..n][i].level == l;
        }
      }
    }
  }

  /** No later row has the level of row `i`. */
  predicate LastOfLevel(rows: seq<Row>, i: int) {
    0 <= i < |rows| && forall j :: i < j < |rows| ==> rows[j].level != rows[i].level
  }

  /** `df.set_index('level')[column].to_dict()`: one entry per level, a
      later row overwriting an earlier one with the same level. */
  function ByLevel<T>(rows: seq<Row>, column: Row -> T): (m: map<int, T>)
    ensures m.Keys == Levels(rows)
    decreases |rows|
  {
    if |rows| == 0 then map[]
    else ByLevel(rows[..|rows| - 1], column)[rows[|rows| - 1].level := column(rows[|rows| - 1])]
  }

  /** The entry of a level is the value in the last row with that level. */
  lemma {:induction false} ByLevelLast<T>(rows: seq<Row>, column: Row -> T, i: int)
    requires LastOfLevel(rows, i)
    ensures rows[i].level in ByLevel(rows, column)
    ensures ByLevel(rows, column)[rows[i].level] == column(rows[i])
    decreases |rows|
  {
    var n := |rows| - 1;
    var before := rows[..n];
    assert ByLevel(rows, column) == ByLevel(before, column)[rows[n].level := column(rows[n])];
    if i < n {
      assert before[i] == rows[i];
      assert LastOfLevel(before, i);
      ByLevelLast(before, column, i);
    }
  }

  /** The parameter dictionary `prepare_prediction_params` returns. */
  datatype PredictionParams = PredictionParams(
    campusEmployees: map<int, int>,
    socialEmployees: map<int, int>,
    campusAges: map<int, real>,
    socialAges: map<int, real>,
    campusLeavingAges: map<int, real>,
    socialLeavingAges: map<int, real>,
    socialNewHireAges: map<int, real>,
    campusNewHireAge: real,
    campusPromotionRates: map<int, real>,
    socialPromotionRates: map<int, real>,
    campusAttritionRates: map<int, real>,
    socialAttritionRates: map<int, real>,
    hiringRatios: map<int, real>,
    campusRatio: real,
    targetTotal: int)

  /** Every level-keyed map of `p` is keyed by exactly `levels`. */
  predicate KeyedBy(p: PredictionParams, levels: set<int>) {
    && p.campusEmployees.Keys == levels && p.socialEmployees.Keys == levels
    && p.campusAges.Keys == levels && p.socialAges.Keys == levels
    && p.campusLeavingAges.Keys == levels && p.socialLeavingAges.Keys == levels
    && p.socialNewHireAges.Keys == levels
    && p.campusPromotionRates.Keys == levels && p.socialPromotionRates.Keys == levels
    && p.campusAttritionRates.Keys == levels && p.socialAttritionRates.Keys == levels
    && p.hiringRatios.Keys == levels
  }

  /** Every level-keyed map of `p` holds row `r`'s value at `r.level`. */
  predicate HoldsRow(p: PredictionParams, r: Row)
  {
    && r.level in p.campusEmployees && p.campusEmployees[r.level] == r.campusEmployee
    && r.level in p.socialEmployees && p.socialEmployees[r.level] == r.socialEmployee
    && r.level in p.campusAges && p.campusAges[r.level] == r.campusAge
    && r.level in p.socialAges && p.socialAges[r.level] == r.socialAge
    && r.level in p.campusLeavingAges && p.campusLeavingAges[r.level] == r.campusLeavingAge
    && r.level in p.socialLeavingAges && p.socialLeavingAges[r.level] == r.socialLeavingAge
    && r.level in p.socialNewHireAges && p.socialNewHireAges[r.level] == r.socialNewHireAge
    && r.level in p.campusPromotionRates && p.campusPromotionRates[r.level] == r.campusPromotionRate
    && r.level in p.socialPromotionRates && p.socialPromotionRates[r.level] == r.socialPromotionRate
    && r.level in p.campusAttritionRates && p.campusAttritionRates[r.level] == r.campusAttritionRate
    && r.level in p.socialAttritionRates && p.socialAttritionRates[r.level] == r.socialAttritionRate
    && r.level in p.hiringRatios && p.hiringRatios[r.level] == r.hiringRatio
  }

  /** `prepare_prediction_params(df, campus_ratio, campus_new_hire_age,
      target_total)`: every column as a level-keyed map (the last row of a
      level wins), the three scalars passed through. */
  function PrepareParams(rows: seq<Row>, campusRatio: real, campusNewHireAge: real, targetTotal: int)
    : (p: PredictionParams)
    ensures p.campusRatio == campusRatio
    ensures p.campusNewHireAge == campusNewHireAge
    ensures p.targetTotal == targetTotal
    ensures KeyedBy(p, Levels(rows))
  {
    PredictionParams(
      ByLevel(rows, (r: Row) => r.campusEmployee),
      ByLevel(rows, (r: Row) => r.socialEmployee),
      ByLevel(rows, (r: Row) => r.campusAge),
      ByLevel(rows, (r: Row) => r.socialAge),
      ByLevel(rows, (r: Row) => r.campusLeavingAge),
      ByLevel(rows, (r: Row) => r.socialLeavingAge),
      ByLevel(rows, (r: Row) => r.socialNewHireAge),
      campusNewHireAge,
      ByLevel(rows, (r: Row) => r.campusPromotionRate),
      ByLevel(rows, (r: Row) => r.socialPromotionRate),
      ByLevel(rows, (r: Row) => r.campusAttritionRate),
      ByLevel(rows, (r: Row) => r.socialAttritionRate),
      ByLevel(rows, (r: Row) => r.hiringRatio),
      campusRatio,
      targetTotal)
  }

  /** Each level-keyed map holds, at a level, the value in the last row of
      that level. */
  lemma PrepareParamsAtLevel(rows: seq<Row>, campusRatio: real, campusNewHireAge: real, targetTotal: int, i: int)
    requires LastOfLevel(rows, i)
    ensures HoldsRow(PrepareParams(rows, campusRatio, campusNewHireAge, targetTotal), rows[i])
  {
    ByLevelLast(rows, (r: Row) => r.campusEmployee, i);
    ByLevelLast(rows, (r: Row) => r.socialEmployee, i);
    ByLevelLast(rows, (r: Row) => r.campusAge, i);
    ByLevelLast(rows, (r: Row) => r.socialAge, i);
    ByLevelLast(rows, (r: Row) => r.campusLeavingAge, i);
    ByLevelLast(rows, (r: Row) => r.socialLeavingAge, i);
    ByLevelLast(rows, (r: Row) => r.socialNewHireAge, i);
    ByLevelLast(rows, (r: Row) => r.campusPromotionRate, i);
    ByLevelLast(rows, (r: Row) => r.socialPromotionRate, i);
    ByLevelLast(rows, (r: Row) => r.campusAttritionRate, i);
    ByLevelLast(rows, (r: Row) => r.socialAttritionRate, i);
    ByLevelLast(rows, (r: Row) => r.hiringRatio, i);
  }

  // ---------------------------------------------------------------- into the engine

  /** The engine reads every level-keyed map at the levels 1..7 only. */
  predicate CoversLevels<T>(m: map<int, T>) {
    forall l :: MinLevel <= l <= MaxLevel ==> l in m
  }

  /** `v` lists the entries of `m` at levels 1..7. */
  predicate VectorOf<T(==)>(v: seq<T>, m: map<int, T>) {
    IsLevelVector(v) && forall i :: 0 <= i < LevelCount ==> i + 1 in m && v[i] == m[i + 1]
  }

  function LevelVector<T(==)>(m: map<int, T>): (v: seq<T>)
    requires CoversLevels(m)
    ensures VectorOf(v, m)
  {
    seq(LevelCount, i requires 0 <= i < LevelCount => m[i + 1])
  }

  predicate Complete(p: PredictionParams) {
    && CoversLevels(p.campusEmployees) && CoversLevels(p.socialEmployees)
    && CoversLevels(p.campusAges) && CoversLevels(p.socialAges)
    && CoversLevels(p.campusLeavingAges) && CoversLevels(p.socialLeavingAges)
    && CoversLevels(p.socialNewHireAges)
    && CoversLevels(p.campusPromotionRates) && CoversLevels(p.socialPromotionRates)
    && CoversLevels(p.campusAttritionRates) && CoversLevels(p.socialAttritionRates)
    && CoversLevels(p.hiringRatios)
  }

  /** The parameter dictionary as the engine reads it: every map as a level
      vector, the scalars unchanged; `None` when some map lacks a level, where
      the engine's lookup raises `KeyError`. */
  function ForecastInput(p: PredictionParams): (r: Option<InitialParams>)
    ensures r.Some? <==> Complete(p)
    ensures r.Some? ==> r.value.Valid()
    ensures r.Some? ==>
              && VectorOf(r.value.campusEmployees, p.campusEmployees)
              && VectorOf(r.value.socialEmployees, p.socialEmployees)
              && VectorOf(r.value.campusAges, p.campusAges)
              && VectorOf(r.value.socialAges, p.socialAges)
    ensures r.Some? ==>
              var q := r.value.policy;
              && VectorOf(q.campusLeavingAges, p.campusLeavingAges)
              && VectorOf(q.socialLeavingAges, p.socialLeavingAges)
              && VectorOf(q.socialNewHireAges, p.socialNewHireAges)
              && VectorOf(q.campusPromotionRates, p.campusPromotionRates)
              && VectorOf(q.socialPromotionRates, p.socialPromotionRates)
              && VectorOf(q.campusAttritionRates, p.campusAttritionRates)
              && VectorOf(q.socialAttritionRates, p.socialAttritionRates)
              && VectorOf(q.hiringRatios, p.hiringRatios)
              && q.campusNewHireAge == p.campusNewHireAge
              && q.campusRatio == p.campusRatio
              && q.targetTotal == p.targetTotal
  {
    if !Complete(p) then None
    else
      Some(InitialParams(
        LevelVector(p.campusEmployees),
        LevelVector(p.socialEmployees),
        LevelVector(p.campusAges),
        LevelVector(p.socialAges),
        Policy(
          LevelVector(p.campusLeavingAges),
          LevelVector(p.socialLeavingAges),
          LevelVector(p.socialNewHireAges),
          p.campusNewHireAge,
          LevelVector(p.campusPromotionRates),
          LevelVector(p.socialPromotionRates),
          LevelVector(p.campusAttritionRates),
          LevelVector(p.socialAttritionRates),
          LevelVector(p.hiringRatios),
          p.campusRatio,
          p.targetTotal)))
  }

  /** Why a forecast from a parameter dictionary fails. */
  datatype ForecastError = MissingLevel

  /** `predict_multiple_years(params, forecast_years)` on the dictionary
      `prepare_prediction_params` builds: no year is run (and no map read)
      when the horizon is not positive; otherwise a map without some level
      makes the first year fail. */
  function ForecastFromParams(p: PredictionParams, years: int): (r: Result<seq<YearRecord>, ForecastError>)
    ensures years <= 0 ==> r == Ok([])
    ensures years > 0 ==> (r.Ok? <==> Complete(p))
    ensures r.Ok? ==> |r.value| == if years > 0 then years else 0
  {
    if years <= 0 then Ok([])
    else
      var input := ForecastInput(p);
      if input.None? then Err(MissingLevel) else Ok(PredictMultipleYears(input.value, years))
  }

  /** The set holds every level 1..7. */
  predicate AllLevelsIn(levels: set<int>) {
    forall l :: MinLevel <= l <= MaxLevel ==> l in levels
  }

  /** Every level 1..7 has a row. */
  predicate EveryLevelHasRow(rows: seq<Row>) {
    forall l :: MinLevel <= l <= MaxLevel ==> HasLevel(rows, l)
  }

  /** The rows cover levels 1..7 exactly when every level has a row. */
  lemma LevelsComplete(rows: seq<Row>)
    ensures AllLevelsIn(Levels(rows)) <==> EveryLevelHasRow(rows)
  {
    forall l | MinLevel <= l <= MaxLevel
      ensures l in Levels(rows) <==> HasLevel(rows, l)
    {
      LevelsOccur(rows, l);
    }
  }

  lemma KeyedComplete(p: PredictionParams, levels: set<int>)
    requires KeyedBy(p, levels)
    ensures Complete(p) <==> AllLevelsIn(levels)
  {
  }

  /** Parameters prepared from rows reach the engine exactly when every level
      1..7 has a row. */
  lemma PreparedParamsComplete(rows: seq<Row>, campusRatio: real, campusNewHireAge: real, targetTotal: int)
    ensures Complete(PrepareParams(rows, campusRatio, campusNewHireAge, targetTotal)) <==>
              EveryLevelHasRow(rows)
  {
    KeyedComplete(PrepareParams(rows, campusRatio, campusNewHireAge, targetTotal), Levels(rows));
    LevelsComplete(rows);
  }
}
