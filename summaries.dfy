/**
 * The two tables built from the daily and monthly data: the date-by-date
 * monthly-sold table of `get_sales_history_by_date` and the "YYYY-MM" month
 * summary of `generate_monthly_summary`.
 */
module Summaries {
  import opened Wrappers
  import opened Text
  import opened KeepaTime
  import opened SalesTiers
  import opened Decoders
  import opened Frames
  import opened Aggregates

  // ---------------------------------------------------------------------------
  // get_sales_history_by_date.

  /** One row of the table, in column order Date, Min Sales, Max Sales, Avg Sales. */
  datatype SalesRow = SalesRow(date: Stamp, minSales: int, maxSales: real, avgSales: int)

  /** The row of one (time, units) pair: the tier ceiling and `int(0.9·Min + 0.1·Max)`. */
  function SalesRowOf(p: (int, int)): SalesRow {
    var mx := ApplySalesTiers(p.1);
    SalesRow(ConvertTime(p.0), p.1, mx, TruncInt(0.9 * p.1 as real + 0.1 * mx))
  }

  /** The pairs whose minimum is not the -1 "no estimate" marker. */
  function Estimated(ps: seq<(int, int)>): (r: seq<(int, int)>)
    ensures |r| <= |ps|
    ensures forall k :: 0 <= k < |r| ==> r[k].1 != -1
  {
    if |ps| == 0 then []
    else (if ps[0].1 != -1 then [ps[0]] else []) + Estimated(ps[1..])
  }

  lemma {:induction false} EstimatedKeepsExactly(ps: seq<(int, int)>, p: (int, int))
    ensures p in Estimated(ps) <==> p in ps && p.1 != -1
  {
    if |ps| > 0 {
      EstimatedKeepsExactly(ps[1..], p);
      assert ps == [ps[0]] + ps[1..];
    }
  }

  /**
   * The table of `get_sales_history_by_date` for a product whose price history
   * exists; `[]` stands for the empty DataFrame.
   */
  function HistoryByDate(monthlySold: Option<seq<int>>): (rows: seq<SalesRow>)
    ensures monthlySold.None? || |monthlySold.value| == 0 ==> rows == []
    ensures monthlySold.Some? ==> |rows| == |Estimated(Pairs(monthlySold.value))|
  {
    if monthlySold.None? || |monthlySold.value| == 0 then []
    else
      var kept := Estimated(Pairs(monthlySold.value));
      seq(|kept|, k requires 0 <= k < |kept| => SalesRowOf(kept[k]))
  }

  /**
   * The table holds, in order, one row per (time, units) pair of the flat
   * array whose units are not -1: the time decoded, the units as minimum, the
   * tier ceiling as maximum; a row exists for a pair exactly when it is kept.
   */
  lemma HistoryByDateRows(ms: seq<int>, p: (int, int))
    ensures var rows := HistoryByDate(Some(ms));
      (forall k :: 0 <= k < |rows| ==>
        rows[k].minSales != -1 && rows[k].maxSales == ApplySalesTiers(rows[k].minSales))
      && (p in Pairs(ms) && p.1 != -1 ==> SalesRowOf(p) in rows)
      && (forall k :: 0 <= k < |rows| ==> exists q :: q in Pairs(ms) && q.1 != -1 && rows[k] == SalesRowOf(q))
  {
    var rows := HistoryByDate(Some(ms));
    var kept := Estimated(Pairs(ms));
    EstimatedKeepsExactly(Pairs(ms), p);
    if |ms| > 0 {
      if p in Pairs(ms) && p.1 != -1 {
        var k :| 0 <= k < |kept| && kept[k] == p;
        assert rows[k] == SalesRowOf(p);
      }
      forall k | 0 <= k < |rows| ensures exists q :: q in Pairs(ms) && q.1 != -1 && rows[k] == SalesRowOf(q) {
        EstimatedKeepsExactly(Pairs(ms), kept[k]);
        assert rows[k] == SalesRowOf(kept[k]);
      }
    } else {
      assert Pairs(ms) == [];
    }
  }

  /** Only "no estimate" entries: the table comes out empty. */
  lemma HistoryByDateAllMissing(ms: seq<int>)
    requires forall k :: 0 <= k < |ms| / 2 ==> ms[2 * k + 1] == -1
    ensures HistoryByDate(Some(ms)) == []
  {
    EstimatedNone(Pairs(ms));
  }

  lemma {:induction false} EstimatedNone(ps: seq<(int, int)>)
    requires forall k :: 0 <= k < |ps| ==> ps[k].1 == -1
    ensures Estimated(ps) == []
  {
    if |ps| > 0 {
      EstimatedNone(ps[1..]);
    }
  }

  /** For a non-negative minimum the average lies between the minimum and the tier ceiling. */
  lemma AverageBetweenMinAndMax(p: (int, int))
    requires p.1 >= 0
    ensures var row := SalesRowOf(p);
      row.minSales <= row.avgSales && row.avgSales as real <= row.maxSales
  {
    var mn := p.1 as real;
    var mx := ApplySalesTiers(p.1);
    CeilingAtLeastFloor(p.1);
    var a := 0.9 * mn + 0.1 * mx;
    assert mn <= a <= mx;
  }

  // ---------------------------------------------------------------------------
  // generate_monthly_summary.

  /** `str(year) + "-" + str(month).zfill(2)`. */
  function MonthLabel(d: Date): string
    requires d.year >= 0 && 1 <= d.month
  {
    NatText(d.year) + "-" + ZFill(NatText(d.month), 2)
  }

  lemma ZFillDigits(s: string, w: nat)
    requires forall i :: 0 <= i < |s| ==> '0' <= s[i] <= '9'
    ensures '-' !in ZFill(s, w)
    ensures ParseNat(ZFill(s, w)) == ParseNat(s)
  {
    var r := ZFill(s, w);
    var n := |r| - |s|;
    forall i | 0 <= i < |r| ensures '0' <= r[i] <= '9' {
      if i >= n {
        assert r[i] == r[n..][i - n];
      }
    }
    ParseNatZFill(s, w);
  }

  /** A label reads back as its year and its month. */
  lemma MonthLabelParses(d: Date)
    requires d.year >= 0 && 1 <= d.month
    ensures var parts := Split(MonthLabel(d), '-');
      |parts| == 2 && ParseNat(parts[0]) == d.year && ParseNat(parts[1]) == d.month
  {
    var y := NatText(d.year);
    var m := ZFill(NatText(d.month), 2);
    ZFillDigits(NatText(d.month), 2);
    assert '-' !in y;
    assert MonthLabel(d) == y + ['-'] + m;
    SplitPrefix(y, m, '-');
    SplitNoSep(m, '-');
    ParseNatText(d.year);
    ParseNatText(d.month);
  }

  /** Two dates share a label exactly when they share year and month. */
  lemma MonthLabelInjective(a: Date, b: Date)
    requires a.year >= 0 && 1 <= a.month && b.year >= 0 && 1 <= b.month
    ensures MonthLabel(a) == MonthLabel(b) <==> a.year == b.year && a.month == b.month
  {
    MonthLabelParses(a);
    MonthLabelParses(b);
  }

  /** The month of a day number as one increasing number (days before 1970 do not occur). */
  function MonthKey(day: int): int {
    MonthNumber(Civil(if day < 0 then 0 else day))
  }

  /** The label of a day's month. */
  function LabelOf(day: int): string {
    MonthLabel(Civil(if day < 0 then 0 else day))
  }

  /** Grouping by the month number is grouping by the "YYYY-MM" label. */
  lemma MonthKeyIsLabel(d1: int, d2: int)
    ensures MonthKey(d1) == MonthKey(d2) <==> LabelOf(d1) == LabelOf(d2)
  {
    var a := Civil(if d1 < 0 then 0 else d1);
    var b := Civil(if d2 < 0 then 0 else d2);
    MonthLabelInjective(a, b);
  }

  lemma MonthKeyMonotone(rows: seq<Rec>)
    requires Sorted(rows)
    ensures Monotone(rows, MonthKey)
  {
    forall i, j | 0 <= i <= j < |rows| ensures MonthKey(rows[i].t) <= MonthKey(rows[j].t) {
      var a := if rows[i].t < 0 then 0 else rows[i].t;
      var b := if rows[j].t < 0 then 0 else rows[j].t;
      CivilMonotone(a, b);
    }
  }

  const SummaryAggs: map<Column, Agg> :=
    map[FinalPrice := Mean, FullPrice := Mean, SalesMax := Sum, SalesMin := Sum, BSR := Mean]

  /** `round(2)` on the prices, `round(0)` on BSR and the sales sums; a null stays null. */
  function SummaryCell(c: Column, o: Option<real>): Option<real> {
    if c == FinalPrice || c == FullPrice then MapOpt(o, Round2) else MapOpt(o, Round0)
  }

  /** The two columns rounded to cents, and the three rounded to whole numbers. */
  const PriceColumns: set<Column> := {FinalPrice, FullPrice}
  const WholeColumns: set<Column> := {BSR, SalesMax, SalesMin}

  /** `summary[cs] = summary[cs].round(...)` for columns `cs` that are all present. */
  function RoundColumns(x: Table, cs: set<Column>): (y: Table)
    ensures y.cols == x.cols && |y.rows| == |x.rows|
    ensures forall i {:trigger y.rows[i]} :: 0 <= i < |x.rows| ==>
      (y.rows[i].t == x.rows[i].t && y.rows[i].v.Keys == x.rows[i].v.Keys
       && forall c :: Cell(y.rows[i], c) == if c in cs then SummaryCell(c, Cell(x.rows[i], c)) else Cell(x.rows[i], c))
  {
    Table(x.cols, seq(|x.rows|, i requires 0 <= i < |x.rows| =>
      Rec(x.rows[i].t, map c | c in x.rows[i].v.Keys :: if c in cs then SummaryCell(c, x.rows[i].v[c]) else x.rows[i].v[c])))
  }

  /** The daily rows dated on or after 2020-01-01. */
  function From2020(rows: seq<Rec>): (r: seq<Rec>)
    ensures forall k :: 0 <= k < |r| ==> r[k].t >= Day2020
  {
    if |rows| == 0 then []
    else (if rows[0].t >= Day2020 then [rows[0]] else []) + From2020(rows[1..])
  }

  lemma {:induction false} From2020Exactly(rows: seq<Rec>, r: Rec)
    ensures r in From2020(rows) <==> r in rows && r.t >= Day2020
  {
    if |rows| > 0 {
      From2020Exactly(rows[1..], r);
      assert rows == [rows[0]] + rows[1..];
    }
  }

  /** The summary reads a day exactly when it is a daily row whose calendar year is 2020 or later. */
  lemma From2020ByYear(rows: seq<Rec>, r: Rec)
    requires r.t >= 0
    ensures r in From2020(rows) <==> r in rows && Civil(r.t).year >= 2020
  {
    From2020Exactly(rows, r);
    From2020IsYear(r.t);
  }

  lemma {:induction false} From2020Sorted(rows: seq<Rec>)
    requires Sorted(rows)
    ensures Sorted(From2020(rows))
  {
    if |rows| > 0 {
      From2020Sorted(rows[1..]);
      var rest := From2020(rows[1..]);
      forall k | 0 <= k < |rest| ensures rest[k].t > rows[0].t {
        From2020Exactly(rows[1..], rest[k]);
        var m :| 0 <= m < |rows[1..]| && rows[1..][m] == rest[k];
        assert rows[m + 1] == rest[k];
      }
    }
  }

  /**
   * How `generate_monthly_summary` ends once it computes the month keys:
   * `pivot_table` raises `KeyError` before `self.summary` is set when the daily
   * pivot lacks one of the five columns; a column selection of the rounding
   * raises `KeyError` after `self.summary` was set when the month pivot dropped
   * one of the columns it selects (the prices may be rounded by then); or the
   * rounded summary is stored.
   */
  datatype SummaryOutcome = MissingInput | Raised(partial: Table) | Summarized(summary: Table)

  /** `summary.pivot_table(...)` on the daily rows from 2020 on, keyed by month. */
  function SummaryPivot(daily: Table): (p: Table)
    ensures p.cols <= SummaryAggs.Keys
  {
    PivotTable(Table(daily.cols, From2020(daily.rows)), MonthKey, SummaryAggs)
  }

  /** `self.summary` after `generate_monthly_summary`, or where that raises. */
  function MonthlySummary(daily: Table): SummaryOutcome {
    if !(SummaryAggs.Keys <= daily.cols) then MissingInput
    else
      var p := SummaryPivot(daily);
      if !(PriceColumns <= p.cols) then Raised(p)
      else
        if !(WholeColumns <= p.cols) then Raised(RoundColumns(p, PriceColumns))
        else Summarized(Rounded(p))
  }

  /** The days of 2020 or later that carry the label of month key `k`. */
  function DaysOfMonth(daily: Table, k: int): seq<Rec> {
    WithKey(From2020(daily.rows), MonthKey, k)
  }

  lemma SummaryAggsHasSum()
    ensures HasSum(SummaryAggs)
  {
    assert SummaryAggs[SalesMin] == Sum;
  }

  /** One row of the month pivot per month, in increasing order, each cell the month's reduction. */
  lemma SummaryPivotIsGroupBy(daily: Table)
    requires WellFormed(daily)
    ensures WellFormed(SummaryPivot(daily))
    ensures var p := SummaryPivot(daily);
      forall i, c :: 0 <= i < |p.rows| && c in SummaryAggs ==>
        Cell(p.rows[i], c) == Aggregate(SummaryAggs[c], ColumnOf(DaysOfMonth(daily, p.rows[i].t), c))
  {
    From2020Sorted(daily.rows);
    MonthKeyMonotone(From2020(daily.rows));
    SummaryAggsHasSum();
    PivotTableIsGroupBy(Table(daily.cols, From2020(daily.rows)), MonthKey, SummaryAggs);
  }

  /**
   * What a summary row means: one row per month, in increasing order; each
   * cell is the mean of the prices and BSR, or the sum of the sales, over
   * exactly the days of 2020 or later in that month, rounded; and the
   * summary has all five columns.
   */
  lemma MonthlySummaryIsGroupBy(daily: Table)
    requires WellFormed(daily)
    ensures MonthlySummary(daily).Summarized? ==>
      var s := MonthlySummary(daily).summary;
      WellFormed(s) && s.cols == SummaryAggs.Keys
      && forall i, c :: 0 <= i < |s.rows| && c in SummaryAggs ==>
        Cell(s.rows[i], c) == SummaryCell(c, Aggregate(SummaryAggs[c], ColumnOf(DaysOfMonth(daily, s.rows[i].t), c)))
  {
    if MonthlySummary(daily).Summarized? {
      SummaryPivotIsGroupBy(daily);
      var p := SummaryPivot(daily);
      assert MonthlySummary(daily).summary == Rounded(p);
      RoundedMeaning(p);
    }
  }

  /** Both roundings, prices to cents, then BSR and sales to whole numbers. */
  function Rounded(x: Table): Table {
    RoundColumns(RoundColumns(x, PriceColumns), WholeColumns)
  }

  /** Rounding keeps the rows and columns and rounds each of the five columns by its rule. */
  lemma RoundedMeaning(x: Table)
    requires WellFormed(x)
    ensures WellFormed(Rounded(x)) && Rounded(x).cols == x.cols && |Rounded(x).rows| == |x.rows|
    ensures forall i, c :: 0 <= i < |x.rows| && c in SummaryAggs ==>
      Rounded(x).rows[i].t == x.rows[i].t && Cell(Rounded(x).rows[i], c) == SummaryCell(c, Cell(x.rows[i], c))
  {
    forall i, c | 0 <= i < |x.rows| && c in SummaryAggs
      ensures Rounded(x).rows[i].t == x.rows[i].t && Cell(Rounded(x).rows[i], c) == SummaryCell(c, Cell(x.rows[i], c))
    {
      RoundedCell(x, i, c);
    }
  }

  lemma RoundedCell(x: Table, i: int, c: Column)
    requires 0 <= i < |x.rows| && c in SummaryAggs
    ensures Rounded(x).rows[i].t == x.rows[i].t && Cell(Rounded(x).rows[i], c) == SummaryCell(c, Cell(x.rows[i], c))
  {
    var r := RoundColumns(x, PriceColumns);
    var y := RoundColumns(r, WholeColumns);
    assert y == Rounded(x);
    if c in PriceColumns {
      assert Cell(r.rows[i], c) == SummaryCell(c, Cell(x.rows[i], c));
      assert c !in WholeColumns;
      assert Cell(y.rows[i], c) == Cell(r.rows[i], c);
    } else {
      assert Cell(r.rows[i], c) == Cell(x.rows[i], c);
      assert c in WholeColumns;
      assert Cell(y.rows[i], c) == SummaryCell(c, Cell(r.rows[i], c));
    }
  }

  /** The days from 2020 on have a value in column `c`. */
  ghost predicate PresentFrom2020(daily: Table, c: Column) {
    AnyPresent(From2020(daily.rows), c)
  }

  /** A column of the month pivot is kept exactly when some day from 2020 on fills it (a summed one: when there is such a day). */
  lemma SummaryPivotColumns(daily: Table, c: Column)
    requires c in SummaryAggs
    ensures c in SummaryPivot(daily).cols <==>
      if c in {SalesMax, SalesMin} then |From2020(daily.rows)| > 0 else PresentFrom2020(daily, c)
  {
    SummaryAggsHasSum();
    PivotKeepsColumn(Table(daily.cols, From2020(daily.rows)), MonthKey, SummaryAggs, c);
  }

  /**
   * When the summary is stored: the daily pivot has the five columns, and
   * the days from 2020 on carry a final price, a full price and a BSR
   * somewhere. A missing column of the daily pivot raises before anything
   * is stored.
   */
  lemma MonthlySummaryOutcome(daily: Table)
    ensures MonthlySummary(daily).MissingInput? <==> !(SummaryAggs.Keys <= daily.cols)
    ensures MonthlySummary(daily).Summarized? <==>
      (SummaryAggs.Keys <= daily.cols
       && PresentFrom2020(daily, FinalPrice) && PresentFrom2020(daily, FullPrice) && PresentFrom2020(daily, BSR))
  {
    if SummaryAggs.Keys <= daily.cols {
      SummaryKeepsAll(daily);
      SummaryColumnsPresent(daily);
    }
  }

  lemma SummaryKeepsAll(daily: Table)
    ensures var p := SummaryPivot(daily);
      (PriceColumns <= p.cols && WholeColumns <= p.cols) <==>
      (FinalPrice in p.cols && FullPrice in p.cols && BSR in p.cols && SalesMax in p.cols && SalesMin in p.cols)
  {
  }

  /** The month pivot keeps all five columns exactly when the days from 2020 on fill the three mean columns somewhere. */
  lemma SummaryColumnsPresent(daily: Table)
    ensures var p := SummaryPivot(daily);
      (FinalPrice in p.cols && FullPrice in p.cols && BSR in p.cols && SalesMax in p.cols && SalesMin in p.cols) <==>
      (PresentFrom2020(daily, FinalPrice) && PresentFrom2020(daily, FullPrice) && PresentFrom2020(daily, BSR))
  {
    SummaryPivotColumns(daily, FinalPrice);
    SummaryPivotColumns(daily, FullPrice);
    SummaryPivotColumns(daily, BSR);
    SummaryPivotColumns(daily, SalesMax);
    SummaryPivotColumns(daily, SalesMin);
    if PresentFrom2020(daily, BSR) {
      assert |From2020(daily.rows)| > 0;
    }
  }

  /**
   * What is stored when a rounding selection raises: the month pivot, its
   * prices rounded exactly when both price columns survived the pivot.
   */
  lemma MonthlySummaryRaised(daily: Table)
    requires MonthlySummary(daily).Raised?
    ensures var p := SummaryPivot(daily);
      MonthlySummary(daily).partial == if PriceColumns <= p.cols then RoundColumns(p, PriceColumns) else p
  {
  }

  /** The days grouped under a month all lie in it: they carry its label and are not before 2020. */
  lemma MonthGroupHasOneLabel(daily: Table, k: int, r: Rec, q: Rec)
    requires r in DaysOfMonth(daily, k) && q in DaysOfMonth(daily, k)
    ensures LabelOf(r.t) == LabelOf(q.t) && r.t >= Day2020 && q.t >= Day2020
  {
    MonthKeyIsLabel(r.t, q.t);
    WithKeyMember(From2020(daily.rows), k, r);
    WithKeyMember(From2020(daily.rows), k, q);
  }

  lemma {:induction false} WithKeyMember(rows: seq<Rec>, k: int, r: Rec)
    requires r in WithKey(rows, MonthKey, k)
    ensures r in rows && MonthKey(r.t) == k
  {
    if |rows| > 0 && r in WithKey(rows[1..], MonthKey, k) {
      WithKeyMember(rows[1..], k, r);
    }
  }

  /** Sales and BSR come out as whole numbers. */
  lemma SummaryWholeNumbers(c: Column, o: Option<real>)
    requires c == SalesMin || c == SalesMax || c == BSR
    requires SummaryCell(c, o).Some?
    ensures SummaryCell(c, o).value == SummaryCell(c, o).value.Floor as real
  {
  }

  // ---------------------------------------------------------------------------
  // The month key as written: `.month.astype(str).zfill(2)` on an Index.

  /** The two kinds of value the expression handles: a string and an Index of strings. */
  datatype PyValue = Str(s: string) | StrIndex(items: seq<string>)

  /** Attribute lookup of `zfill`: strings have it, a pandas Index does not. */
  function CallZFill(v: PyValue, w: nat): Result<PyValue> {
    match v
    case Str(s) => Success(Str(ZFill(s, w)))
    case StrIndex(_) => Failure("AttributeError: 'Index' object has no attribute 'zfill'")
  }

  /** `a + b` on strings and Indexes of strings: broadcast, element by element. */
  function Add(a: PyValue, b: PyValue): PyValue {
    match (a, b)
    case (Str(x), Str(y)) => Str(x + y)
    case (StrIndex(xs), Str(y)) => StrIndex(seq(|xs|, k requires 0 <= k < |xs| => xs[k] + y))
    case (Str(x), StrIndex(ys)) => StrIndex(seq(|ys|, k requires 0 <= k < |ys| => x + ys[k]))
    case (StrIndex(xs), StrIndex(ys)) =>
      var n := if |xs| <= |ys| then |xs| else |ys|;
      StrIndex(seq(n, k requires 0 <= k < n => xs[k] + ys[k]))
  }

  /** The years and months of some day numbers, as Indexes of decimal strings. */
  function YearTexts(days: seq<int>): PyValue {
    StrIndex(seq(|days|, k requires 0 <= k < |days| => NatText(Civil(if days[k] < 0 then 0 else days[k]).year)))
  }

  function MonthTexts(days: seq<int>): PyValue {
    StrIndex(seq(|days|, k requires 0 <= k < |days| => NatText(Civil(if days[k] < 0 then 0 else days[k]).month)))
  }

  /** `year.astype(str) + "-" + month.astype(str).zfill(2)`, evaluated left to right. */
  function MonthLabelsAsWritten(days: seq<int>): Result<PyValue> {
    var left := Add(YearTexts(days), Str("-"));
    match CallZFill(MonthTexts(days), 2)
    case Failure(e) => Failure(e)
    case Success(z) => Success(Add(left, z))
  }

  /** Every call raises, whatever the days, even for an empty summary. */
  lemma MonthLabelsAsWrittenRaise(days: seq<int>)
    ensures MonthLabelsAsWritten(days).Failure?
  {
  }

  /** `.str.zfill(w)`: the string method applied to each element of an Index. */
  function CallStrZFill(v: PyValue, w: nat): Result<PyValue> {
    match v
    case Str(_) => Failure("AttributeError: 'str' object has no attribute 'str'")
    case StrIndex(xs) => Success(StrIndex(seq(|xs|, k requires 0 <= k < |xs| => ZFill(xs[k], w))))
  }

  /** The intended expression, `month.astype(str).str.zfill(2)`. */
  function MonthLabelsIntended(days: seq<int>): Result<PyValue> {
    var left := Add(YearTexts(days), Str("-"));
    match CallStrZFill(MonthTexts(days), 2)
    case Failure(e) => Failure(e)
    case Success(z) => Success(Add(left, z))
  }

  /** The intended labels, padded element by element. */
  function MonthLabels(days: seq<int>): (r: seq<string>)
    ensures |r| == |days|
    ensures forall k :: 0 <= k < |days| ==> r[k] == LabelOf(days[k])
  {
    seq(|days|, k requires 0 <= k < |days| => LabelOf(days[k]))
  }

  /** The intended expression never raises and yields the labels the summary groups by. */
  lemma MonthLabelsIntendedAreLabels(days: seq<int>)
    ensures MonthLabelsIntended(days) == Success(StrIndex(MonthLabels(days)))
  {
    var r := MonthLabelsIntended(days);
    assert r.Success? && r.value.StrIndex?;
    assert r.value.items == MonthLabels(days);
  }

  /** The intended labels are two-digit months that read back as the day's year and month. */
  lemma MonthLabelsCorrect(days: seq<int>, k: int)
    requires 0 <= k < |days| && days[k] >= 0
    ensures var parts := Split(MonthLabels(days)[k], '-');
      |parts| == 2 && |parts[1]| == 2
      && ParseNat(parts[0]) == Civil(days[k]).year && ParseNat(parts[1]) == Civil(days[k]).month
  {
    var d := Civil(days[k]);
    MonthLabelParses(d);
    var y := NatText(d.year);
    var m := ZFill(NatText(d.month), 2);
    ZFillDigits(NatText(d.month), 2);
    assert MonthLabel(d) == y + ['-'] + m;
    SplitPrefix(y, m, '-');
    SplitNoSep(m, '-');
    assert d.month < 10 ==> NatText(d.month) == [DigitChar(d.month)];
  }
}
