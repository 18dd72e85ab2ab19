/**
 * The daily pivot of `generate_daily_sales` and the trailing-window totals of
 * `get_last_days`.
 */
module DailySales {
  import opened Wrappers
  import opened Frames
  import opened KeepaTime
  import opened Aggregates

  /** The reductions of the daily pivot, column by column. */
  const DailyAggs: map<Column, Agg> :=
    map[FullPrice := Mean, PctOff := Min, DollarOff := Min, SnsPct := Min, SnsDollar := Min,
        LD := Max, FinalPrice := Mean, SalesMin := Sum, SalesMax := Sum, BSR := Min]

  /** The grid's dates never go back along a sorted table. */
  lemma DayOfMonotone(rows: seq<Rec>)
    requires Sorted(rows)
    ensures Monotone(rows, DayOf)
  {
    forall i, j | 0 <= i <= j < |rows| ensures DayOf(rows[i].t) <= DayOf(rows[j].t) {
      assert rows[i].t <= rows[j].t;
    }
  }

  /** `if c not in pivot.columns: pivot[c] = NaN`. */
  function EnsureColumn(x: Table, c: Column): (y: Table)
    ensures y.cols == x.cols + {c} && |y.rows| == |x.rows|
    ensures forall i {:trigger y.rows[i]} :: 0 <= i < |x.rows| ==>
      (y.rows[i].t == x.rows[i].t
       && y.rows[i].v.Keys == (if c in x.cols then x.rows[i].v.Keys else x.rows[i].v.Keys + {c}))
  {
    if c in x.cols then x
    else Table(x.cols + {c}, seq(|x.rows|, i requires 0 <= i < |x.rows| => Rec(x.rows[i].t, x.rows[i].v[c := None])))
  }

  /** The three columns `generate_daily_sales` adds back when the pivot dropped them. */
  function EnsureColumns(x: Table): (y: Table)
    ensures y.cols == x.cols + {FullPrice, SalesMin, SalesMax} && |y.rows| == |x.rows|
  {
    EnsureColumn(EnsureColumn(EnsureColumn(x, FullPrice), SalesMin), SalesMax)
  }

  /**
   * A column that is missing is added as all-null, which is what reading the
   * missing column gave already: the table stays well formed and no cell changes.
   */
  lemma EnsureColumnMeaning(x: Table, c: Column)
    requires WellFormed(x)
    ensures WellFormed(EnsureColumn(x, c))
    ensures c in x.cols ==> EnsureColumn(x, c) == x
    ensures forall i, d :: 0 <= i < |x.rows| ==>
      EnsureColumn(x, c).rows[i].t == x.rows[i].t && Cell(EnsureColumn(x, c).rows[i], d) == Cell(x.rows[i], d)
  {
  }

  lemma EnsureColumnsMeaning(x: Table)
    requires WellFormed(x)
    ensures WellFormed(EnsureColumns(x))
    ensures forall i, d :: 0 <= i < |x.rows| ==>
      EnsureColumns(x).rows[i].t == x.rows[i].t && Cell(EnsureColumns(x).rows[i], d) == Cell(x.rows[i], d)
  {
    EnsureColumnMeaning(x, FullPrice);
    EnsureColumnMeaning(EnsureColumn(x, FullPrice), SalesMin);
    EnsureColumnMeaning(EnsureColumn(EnsureColumn(x, FullPrice), SalesMin), SalesMax);
  }

  /** `_format_numbers`: prices rounded to cents, sales sums truncated to whole units. */
  function FormatCell(c: Column, o: Option<real>): Option<real> {
    match o
    case None => None
    case Some(v) =>
      if c == FullPrice || c == FinalPrice || c == LD then Some(Round2(v))
      else if c == SalesMin || c == SalesMax then Some(TruncInt(v) as real)
      else o
  }

  /** `replace(0, NaN)` on one cell. */
  function ZeroAsMissing(o: Option<real>): Option<real> {
    if o == Some(0.0) then None else o
  }

  function FormatRow(r: Rec): (f: Rec)
    ensures f.t == r.t && f.v.Keys == r.v.Keys
    ensures forall c :: Cell(f, c) == FormatCell(c, Cell(r, c))
  {
    Rec(r.t, map c | c in r.v.Keys :: FormatCell(c, r.v[c]))
  }

  function FormatNumbers(x: Table): (y: Table)
    ensures y.cols == x.cols && |y.rows| == |x.rows|
    ensures forall i :: 0 <= i < |x.rows| ==> y.rows[i] == FormatRow(x.rows[i])
  {
    Table(x.cols, seq(|x.rows|, i requires 0 <= i < |x.rows| => FormatRow(x.rows[i])))
  }

  /** `pivot_table(..., aggfunc=DailyAggs)` on the minute grid, keyed by date. */
  function DailyTable(g: Table): Table {
    PivotTable(g, DayOf, DailyAggs)
  }

  /**
   * `self.pivot` at the end of `generate_daily_sales`: the day-by-day pivot of
   * the dense minute history, with the full price and the two sales columns
   * added back if the pivot dropped them, formatted, with zeros turned into
   * nulls. Its columns are some of the reduced ones, and always those three.
   */
  function DailyPivot(g: Table): (p: Table)
    ensures {FullPrice, SalesMin, SalesMax} <= p.cols <= DailyAggs.Keys
  {
    var q := EnsureColumns(DailyTable(g));
    Replace(FormatNumbers(q), q.cols, Some(0.0), None)
  }

  /** The minutes of the grid that fall on day `d`. */
  function MinutesOf(g: Table, d: int): seq<Rec> {
    WithKey(g.rows, DayOf, d)
  }

  lemma DailyAggsHasSum()
    ensures HasSum(DailyAggs)
  {
    assert DailyAggs[SalesMin] == Sum;
  }

  /**
   * The rows of the daily pivot are those of the group-by, one per date, and
   * every row has exactly the table's columns, whatever the grid.
   */
  lemma DailyPivotShape(g: Table)
    ensures var p := DailyPivot(g);
      |p.rows| == |Pivot(g, DayOf, DailyAggs).rows|
      && (forall i :: 0 <= i < |p.rows| ==> p.rows[i].t == Pivot(g, DayOf, DailyAggs).rows[i].t)
      && Shaped(p.rows, p.cols)
  {
    DailyAggsHasSum();
    PivotRowsKept(g, DayOf, DailyAggs);
    var y := DailyTable(g);
    var y1 := EnsureColumn(y, FullPrice);
    var y2 := EnsureColumn(y1, SalesMin);
    var q := EnsureColumn(y2, SalesMax);
    assert q == EnsureColumns(y);
    assert Shaped(q.rows, q.cols);
  }

  /**
   * What a daily row means: one row per date, in increasing order, and each
   * cell of a reduced column is its column's reduction (mean, min, max or
   * sum, skipping nulls) over exactly the minutes of that date, formatted,
   * with a zero shown as null. A column the pivot dropped reads as null, and
   * so does its reduction.
   */
  lemma DailyPivotIsGroupBy(g: Table)
    requires WellFormed(g)
    ensures WellFormed(DailyPivot(g)) && |DailyPivot(g).rows| == |Pivot(g, DayOf, DailyAggs).rows|
    ensures var p := DailyPivot(g);
      forall i, c :: 0 <= i < |p.rows| && c in DailyAggs ==>
        Cell(p.rows[i], c) == ZeroAsMissing(FormatCell(c, Aggregate(DailyAggs[c], ColumnOf(MinutesOf(g, p.rows[i].t), c))))
  {
    DailyPivotWellFormed(g);
    var p := DailyPivot(g);
    forall i, c | 0 <= i < |p.rows| && c in DailyAggs
      ensures Cell(p.rows[i], c) == ZeroAsMissing(FormatCell(c, Aggregate(DailyAggs[c], ColumnOf(MinutesOf(g, p.rows[i].t), c))))
    {
      DailyPivotCell(g, i, c);
    }
  }

  lemma DailyPivotWellFormed(g: Table)
    requires WellFormed(g)
    ensures WellFormed(DailyPivot(g)) && |DailyPivot(g).rows| == |Pivot(g, DayOf, DailyAggs).rows|
  {
    DayOfMonotone(g.rows);
    DailyAggsHasSum();
    PivotTableIsGroupBy(g, DayOf, DailyAggs);
    var q := EnsureColumns(DailyTable(g));
    EnsureColumnsMeaning(DailyTable(g));
    ReplaceWellFormed(FormatNumbers(q), q.cols, Some(0.0), None);
  }

  /** A cell of the daily pivot is the formatted cell of the pivot table, a zero shown as null. */
  lemma DailyPivotFormatted(g: Table, i: int, c: Column)
    requires 0 <= i < |DailyPivot(g).rows|
    ensures Cell(DailyPivot(g).rows[i], c) == ZeroAsMissing(FormatCell(c, Cell(EnsureColumns(DailyTable(g)).rows[i], c)))
  {
    var q := EnsureColumns(DailyTable(g));
    var fq := FormatNumbers(q);
    assert fq.rows[i] == FormatRow(q.rows[i]);
    if c in fq.rows[i].v {
      ReplaceCell(fq, q.cols, Some(0.0), None, i, c);
      DailyPivotShape(g);
    }
  }

  /** One cell of the daily pivot: the formatted reduction over its date's minutes. */
  lemma DailyPivotCell(g: Table, i: int, c: Column)
    requires WellFormed(g) && 0 <= i < |DailyPivot(g).rows|
    ensures Cell(DailyPivot(g).rows[i], c) ==
      ZeroAsMissing(FormatCell(c, if c in DailyAggs then Aggregate(DailyAggs[c], ColumnOf(MinutesOf(g, DailyPivot(g).rows[i].t), c)) else None))
  {
    DayOfMonotone(g.rows);
    DailyAggsHasSum();
    PivotTableIsGroupBy(g, DayOf, DailyAggs);
    EnsureColumnsMeaning(DailyTable(g));
    DailyPivotFormatted(g, i, c);
    DailyPivotShape(g);
  }

  /**
   * Which columns the daily pivot has: the three added back always, any
   * other reduced column exactly when some minute of the grid has a value in
   * it (`pivot_table` drops the columns that are null throughout).
   */
  lemma DailyPivotColumns(g: Table, c: Column)
    requires c in DailyAggs
    ensures c in DailyPivot(g).cols <==>
      c in {FullPrice, SalesMin, SalesMax} || AnyPresent(g.rows, c)
  {
    DailyPivotMember(g, c);
    if c !in {FullPrice, SalesMin, SalesMax} {
      DailySumColumns(c);
      DailyTableKeeps(g, c);
    }
  }

  lemma DailyTableKeeps(g: Table, c: Column)
    requires c in DailyAggs && DailyAggs[c] != Sum
    ensures c in DailyTable(g).cols <==> AnyPresent(g.rows, c)
  {
    DailyAggsHasSum();
    PivotKeepsColumn(g, DayOf, DailyAggs, c);
  }

  lemma DailyPivotMember(g: Table, c: Column)
    ensures c in DailyPivot(g).cols <==> c in {FullPrice, SalesMin, SalesMax} || c in DailyTable(g).cols
  {
    assert DailyPivot(g).cols == DailyTable(g).cols + {FullPrice, SalesMin, SalesMax};
  }

  lemma DailySumColumns(c: Column)
    requires c in DailyAggs
    ensures DailyAggs[c] == Sum <==> c == SalesMin || c == SalesMax
  {
  }

  /** On an empty grid only the three added-back columns are left, with no rows. */
  lemma EmptyGridPivot(g: Table)
    requires |g.rows| == 0
    ensures DailyPivot(g).cols == {FullPrice, SalesMin, SalesMax} && |DailyPivot(g).rows| == 0
  {
    forall c | c in DailyPivot(g).cols ensures c in {FullPrice, SalesMin, SalesMax} {
      DailyPivotColumns(g, c);
    }
    DailyPivotShape(g);
    assert Runs(g.rows, DayOf) == [];
  }

  /** Zeros in the finished pivot become null: no cell shows a zero. */
  lemma DailyPivotHasNoZero(g: Table, i: int, c: Column)
    requires 0 <= i < |DailyPivot(g).rows|
    ensures Cell(DailyPivot(g).rows[i], c) != Some(0.0)
  {
    DailyPivotFormatted(g, i, c);
  }

  /** Sales sums are whole numbers of units once formatted. */
  lemma DailySalesAreWhole(g: Table, i: int, c: Column)
    requires c == SalesMin || c == SalesMax
    requires 0 <= i < |DailyPivot(g).rows| && Cell(DailyPivot(g).rows[i], c).Some?
    ensures var v := Cell(DailyPivot(g).rows[i], c).value; v == v.Floor as real
  {
    DailyPivotFormatted(g, i, c);
  }

  // ---------------------------------------------------------------------------
  // get_last_days.

  /** The pivot rows dated on or after day `since`. */
  function Since(rows: seq<Rec>, since: int): (r: seq<Rec>)
    ensures |r| <= |rows|
    ensures forall k :: 0 <= k < |r| ==> r[k].t >= since && r[k] in rows
  {
    if |rows| == 0 then []
    else (if rows[0].t >= since then [rows[0]] else []) + Since(rows[1..], since)
  }

  lemma {:induction false} SinceKeepsExactly(rows: seq<Rec>, since: int, r: Rec)
    ensures r in Since(rows, since) <==> r in rows && r.t >= since
  {
    if |rows| > 0 {
      SinceKeepsExactly(rows[1..], since, r);
      assert rows == [rows[0]] + rows[1..];
    }
  }

  lemma {:induction false} SinceAll(rows: seq<Rec>, since: int)
    requires forall k :: 0 <= k < |rows| ==> rows[k].t >= since
    ensures Since(rows, since) == rows
  {
    if |rows| > 0 {
      SinceAll(rows[1..], since);
    }
  }

  lemma {:induction false} SinceWellFormed(rows: seq<Rec>, cols: set<Column>, since: int)
    requires Sorted(rows) && Shaped(rows, cols)
    ensures Sorted(Since(rows, since)) && Shaped(Since(rows, since), cols)
  {
    if |rows| > 0 {
      SinceWellFormed(rows[1..], cols, since);
      var rest := Since(rows[1..], since);
      forall k | 0 <= k < |rest| ensures rest[k].t > rows[0].t {
        var m :| 0 <= m < |rows[1..]| && rows[1..][m] == rest[k];
        assert rows[m + 1] == rest[k];
      }
    }
  }

  /** The window's totals: `min_sales`, `max_sales`, `avg_sales`, `full_price` and the mean final price. */
  datatype Totals = Totals(minSales: int, maxSales: int, avgSales: real, fullPrice: Option<real>, meanFinal: Option<real>)

  function WindowTotals(w: seq<Rec>): Totals {
    var lo := TruncInt(SumSome(ColumnOf(w, SalesMin)));
    var hi := TruncInt(SumSome(ColumnOf(w, SalesMax)));
    Totals(lo, hi, (lo + hi) as real / 2.0, MeanSome(ColumnOf(w, FullPrice)), MeanSome(ColumnOf(w, FinalPrice)))
  }

  /**
   * The average of the window is the midpoint of its two sales totals, each
   * total is the truncated sum of the window's daily sums, and the mean final
   * price lies between the window's lowest and highest final price.
   */
  lemma WindowTotalsMeaning(w: seq<Rec>)
    ensures var s := WindowTotals(w);
      s.avgSales * 2.0 == (s.minSales + s.maxSales) as real
      && (s.minSales <= s.maxSales ==> s.minSales as real <= s.avgSales <= s.maxSales as real)
      && (s.meanFinal.Some? <==> MinSome(ColumnOf(w, FinalPrice)).Some?)
      && (s.meanFinal.Some? ==>
            (MinSome(ColumnOf(w, FinalPrice)).Some? && MaxSome(ColumnOf(w, FinalPrice)).Some? &&
             MinSome(ColumnOf(w, FinalPrice)).value <= s.meanFinal.value <= MaxSome(ColumnOf(w, FinalPrice)).value))
  {
    MeanBetweenMinAndMax(ColumnOf(w, FinalPrice));
  }

  /** Larger daily sales give larger window totals. */
  lemma WindowTotalsMonotone(w: seq<Rec>)
    requires forall k :: 0 <= k < |w| ==> Cell(w[k], SalesMin).GetOr(0.0) <= Cell(w[k], SalesMax).GetOr(0.0)
    ensures WindowTotals(w).minSales <= WindowTotals(w).maxSales
  {
    SumSomeMonotone(ColumnOf(w, SalesMin), ColumnOf(w, SalesMax));
    TruncMonotone(SumSome(ColumnOf(w, SalesMin)), SumSome(ColumnOf(w, SalesMax)));
  }

  lemma TruncMonotone(a: real, b: real)
    requires a <= b
    ensures TruncInt(a) <= TruncInt(b)
  {
  }

  /** The first day the window keeps: the date of `today − days`. */
  function WindowDay(today: int, days: int): int {
    DayOf(today - days * MinutesPerDay)
  }

  lemma WindowDayOfStart(today: int, days: int)
    ensures DayOf(WindowStart(today, days)) == WindowDay(today, days)
  {
    var m := WindowStart(today, days);
    var d := WindowDay(today, days);
    assert d * MinutesPerDay <= m;
    assert m < (d + 1) * MinutesPerDay;
  }

  /** Every date of the daily pivot is the date of one of the grid's minutes. */
  lemma PivotDatesFromGrid(g: Table, since: int)
    requires forall k :: 0 <= k < |g.rows| ==> DayOf(g.rows[k].t) >= since
    ensures forall i :: 0 <= i < |DailyPivot(g).rows| ==> DailyPivot(g).rows[i].t >= since
  {
    var runs := Runs(g.rows, DayOf);
    var q := Pivot(g, DayOf, DailyAggs);
    DailyPivotShape(g);
    forall i | 0 <= i < |q.rows| ensures q.rows[i].t >= since {
      ConcatHas(runs, i, 0);
    }
  }

  /**
   * The grid starts at midnight of the window's first day, so filtering the
   * pivot by that day keeps every row: the window is the whole pivot.
   */
  lemma WindowIsWholePivot(g: Table, today: int, days: int)
    requires forall k :: 0 <= k < |g.rows| ==> g.rows[k].t >= WindowStart(today, days)
    ensures Since(DailyPivot(g).rows, WindowDay(today, days)) == DailyPivot(g).rows
  {
    var d := WindowDay(today, days);
    WindowDayOfStart(today, days);
    forall k | 0 <= k < |g.rows| ensures DayOf(g.rows[k].t) >= d {
      assert g.rows[k].t >= d * MinutesPerDay;
    }
    PivotDatesFromGrid(g, d);
    SinceAll(DailyPivot(g).rows, d);
  }
}
