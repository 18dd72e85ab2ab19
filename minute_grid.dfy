/**
 * `generate_daily_sales` up to the daily pivot: per-minute sales rates, the
 * one-row-per-minute grid from midnight of the window's first day to the
 * latest event, the nulling of blocked prices, and the "short history"
 * that keeps only the grid rows where something changes.
 */
module MinuteGrid {
  import opened Wrappers
  import opened Frames
  import opened Aggregates

  /** Minutes in the 30-day month of the monthly-sold estimates (60 · 24 · 30). */
  const MinutesPerMonth: real := 43200.0

  function PerMinute(units: real): real {
    units / MinutesPerMonth
  }

  /** A row with its monthly estimates spread over the minutes of a month. */
  function RatedRow(row: Rec): Rec {
    Rec(row.t, row.v[SalesMin := MapOpt(Cell(row, SoldMin), PerMinute)][SalesMax := MapOpt(Cell(row, SoldMax), PerMinute)])
  }

  /** `sales min = monthlySoldMin / 43200`, `sales max = monthlySoldMax / 43200`. */
  function WithSalesRates(x: Table): (y: Table)
    ensures y.cols == x.cols + {SalesMin, SalesMax} && |y.rows| == |x.rows|
    ensures forall i :: 0 <= i < |x.rows| ==> y.rows[i] == RatedRow(x.rows[i])
  {
    Table(x.cols + {SalesMin, SalesMax}, seq(|x.rows|, i requires 0 <= i < |x.rows| => RatedRow(x.rows[i])))
  }

  /** A month's units spread evenly: 43200 minutes of the rate give the month's units back. */
  lemma RatesRecoverMonthlyUnits(row: Rec)
    requires Cell(row, SoldMin).Some? && Cell(row, SoldMax).Some?
    ensures Cell(RatedRow(row), SalesMin).value * MinutesPerMonth == Cell(row, SoldMin).value
    ensures Cell(RatedRow(row), SalesMax).value * MinutesPerMonth == Cell(row, SoldMax).value
  {
  }

  lemma WithSalesRatesWellFormed(x: Table)
    requires WellFormed(x)
    ensures WellFormed(WithSalesRates(x))
  {
    var y := WithSalesRates(x);
    forall i | 0 <= i < |y.rows| ensures y.rows[i].v.Keys == y.cols {
      assert y.rows[i] == RatedRow(x.rows[i]);
    }
  }

  // ---------------------------------------------------------------------------
  // The minute grid.

  /** `pd.DataFrame(index=pd.date_range(start, end, freq="min"))`: one empty row per minute. */
  function Skeleton(start: int, end: int): (x: Table)
    ensures x.cols == {} && |x.rows| == (if end >= start then end - start + 1 else 0)
    ensures forall i :: 0 <= i < |x.rows| ==> x.rows[i] == Rec(start + i, map[])
  {
    var n := if end >= start then end - start + 1 else 0;
    Table({}, seq(n, i requires 0 <= i < n => Rec(start + i, map[])))
  }

  /** The rows whose times lie on the grid `[start, end]`: the ones a left join keeps. */
  function Between(rows: seq<Rec>, start: int, end: int): (r: seq<Rec>)
    ensures forall k :: 0 <= k < |r| ==> start <= r[k].t <= end
  {
    if |rows| == 0 then []
    else (if start <= rows[0].t <= end then [rows[0]] else []) + Between(rows[1..], start, end)
  }

  lemma {:induction false} BetweenWellFormed(rows: seq<Rec>, cols: set<Column>, start: int, end: int)
    requires Sorted(rows) && Shaped(rows, cols)
    ensures Sorted(Between(rows, start, end)) && Shaped(Between(rows, start, end), cols)
    ensures forall k :: 0 <= k < |Between(rows, start, end)| ==>
      |rows| > 0 && Between(rows, start, end)[k].t >= rows[0].t
    decreases |rows|
  {
    if |rows| > 0 {
      BetweenWellFormed(rows[1..], cols, start, end);
      var b := Between(rows[1..], start, end);
      forall k | 0 <= k < |b| ensures b[k].t > rows[0].t {
        assert b[k].t >= rows[1].t;
      }
    }
  }

  /** The last time of a sorted table: `index.max()`. */
  function LatestTime(x: Table): int
    requires |x.rows| > 0
  {
    x.rows[|x.rows| - 1].t
  }

  /** The events that land on the grid starting at `start`, as a table. */
  function OnGrid(x: Table, start: int): Table
    requires |x.rows| > 0
  {
    Table(x.cols, Between(x.rows, start, LatestTime(x)))
  }

  /** `merge(lifetime_df, history, how="left").ffill()`. */
  function Minutely(x: Table, start: int): (g: Table)
    requires |x.rows| > 0
    ensures g.cols == x.cols
  {
    FFill(Merge(Skeleton(start, LatestTime(x)), OnGrid(x, start)))
  }

  lemma SkeletonCovers(x: Table, start: int)
    requires |x.rows| > 0
    ensures Covers(Skeleton(start, LatestTime(x)).rows, OnGrid(x, start).rows)
  {
    var s := Skeleton(start, LatestTime(x)).rows;
    var b := OnGrid(x, start).rows;
    forall j | 0 <= j < |b| ensures HasTime(s, b[j].t) {
      var k := b[j].t - start;
      assert s[k].t == b[j].t;
    }
  }

  /**
   * The grid has exactly one row per minute, from `start` to the latest event
   * (none when that event is earlier), and is well formed with the history's columns.
   */
  lemma GridIsEveryMinute(x: Table, start: int)
    requires WellFormed(x) && |x.rows| > 0
    ensures var g := Minutely(x, start); var end := LatestTime(x);
      |g.rows| == (if end >= start then end - start + 1 else 0)
      && (forall i :: 0 <= i < |g.rows| ==> g.rows[i].t == start + i)
      && WellFormed(g)
  {
    var s := Skeleton(start, LatestTime(x));
    var b := OnGrid(x, start);
    BetweenWellFormed(x.rows, x.cols, start, LatestTime(x));
    SkeletonCovers(x, start);
    MergeRowsKeepsLeftIndex(s.rows, b.rows, s.cols, b.cols);
    MergeWellFormed(s, b);
    FFillWellFormed(Merge(s, b));
  }

  /**
   * Each grid cell is the latest event at or before its minute among the
   * events on the grid: events before `start` never reach it.
   */
  lemma GridCellIsLatest(x: Table, start: int, i: int, c: Column)
    requires WellFormed(x) && |x.rows| > 0 && c in x.cols
    requires 0 <= i < |Minutely(x, start).rows|
    ensures Cell(Minutely(x, start).rows[i], c) == LatestUpTo(OnGrid(x, start).rows, c, start + i)
  {
    var s := Skeleton(start, LatestTime(x));
    var b := OnGrid(x, start);
    GridIsEveryMinute(x, start);
    BetweenWellFormed(x.rows, x.cols, start, LatestTime(x));
    MergeFillLatestRight(s, b, c, i);
  }

  // ---------------------------------------------------------------------------
  // Blocked product: a -1 full price nulls the final price, then is nulled itself.

  function NullFinalIfBlocked(row: Rec): Rec {
    if Cell(row, FullPrice) == Some(-1.0) then Rec(row.t, row.v[FinalPrice := None]) else row
  }

  /** `loc[full price == -1, "final price"] = NaN`, then `full price.replace(-1, NaN)`. */
  function NullBlocked(x: Table): (y: Table)
    ensures y.cols == x.cols && |y.rows| == |x.rows|
  {
    var z := Table(x.cols, seq(|x.rows|, i requires 0 <= i < |x.rows| => NullFinalIfBlocked(x.rows[i])));
    Replace(z, {FullPrice}, Some(-1.0), None)
  }

  /**
   * A row whose full price was -1 ends with neither a full nor a final price;
   * every other row keeps its cells; no full price is -1 afterwards.
   */
  lemma NullBlockedMeaning(x: Table, i: int)
    requires WellFormed(x) && FullPrice in x.cols && FinalPrice in x.cols && 0 <= i < |x.rows|
    ensures var row := NullBlocked(x).rows[i];
      row.t == x.rows[i].t && row.v.Keys == x.rows[i].v.Keys
      && (Cell(x.rows[i], FullPrice) == Some(-1.0) ==>
            Cell(row, FullPrice).None? && Cell(row, FinalPrice).None?)
      && (Cell(x.rows[i], FullPrice) != Some(-1.0) ==> row == x.rows[i])
      && Cell(row, FullPrice) != Some(-1.0)
  {
  }

  lemma NullBlockedWellFormed(x: Table)
    requires WellFormed(x) && FinalPrice in x.cols
    ensures WellFormed(NullBlocked(x))
  {
    var z := Table(x.cols, seq(|x.rows|, i requires 0 <= i < |x.rows| => NullFinalIfBlocked(x.rows[i])));
    ReplaceWellFormed(z, {FullPrice}, Some(-1.0), None);
  }

  /** The dense per-minute history the daily pivot aggregates. */
  function DenseHistory(x: Table, start: int): (g: Table)
    requires |x.rows| > 0
    ensures g.cols == x.cols && |g.rows| == |Minutely(x, start).rows|
  {
    NullBlocked(Minutely(x, start))
  }

  // ---------------------------------------------------------------------------
  // The short history: the grid rows where the row sums change.

  /** The columns in the order the table adds them. */
  const ColumnOrder: seq<Column> :=
    [FullPrice, PctOff, DollarOff, SnsPct, SnsDollar, LD, BSR, FinalPrice, SoldMin, SoldMax, SalesMin, SalesMax]

  /** `sum(axis=1)`: the sum of a row's present cells. */
  function RowSum(r: Rec): real {
    SumSome(seq(|ColumnOrder|, k requires 0 <= k < |ColumnOrder| => Cell(r, ColumnOrder[k])))
  }

  /** The sum of row `i`, and 0 for the missing neighbours of the first and last rows. */
  function SumAt(rows: seq<Rec>, i: int): real {
    if 0 <= i < |rows| then RowSum(rows[i]) else 0.0
  }

  /** `(sum1 - sum2) + (sum1 - sum3) != 0`: the row differs from the mean of its neighbours. */
  predicate Changes(rows: seq<Rec>, i: int) {
    (SumAt(rows, i) - SumAt(rows, i + 1)) + (SumAt(rows, i) - SumAt(rows, i - 1)) != 0.0
  }

  /** `Changes` at every row. */
  function ChangeFlags(rows: seq<Rec>): (f: seq<bool>)
    ensures |f| == |rows| && forall i :: 0 <= i < |rows| ==> f[i] == Changes(rows, i)
  {
    seq(|rows|, i requires 0 <= i < |rows| => Changes(rows, i))
  }

  /** The rows from `k` on whose flag is set, in order. */
  function KeptFrom(rows: seq<Rec>, keep: seq<bool>, k: nat): seq<Rec>
    requires |keep| == |rows|
    decreases |rows| - k
  {
    if k >= |rows| then []
    else
      var rest := KeptFrom(rows, keep, k + 1);
      if keep[k] then [rows[k]] + rest else rest
  }

  /** Every kept row is a row from `k` on whose flag is set. */
  lemma {:induction false} KeptFromIsKept(rows: seq<Rec>, keep: seq<bool>, k: nat, j: int)
    requires |keep| == |rows| && 0 <= j < |KeptFrom(rows, keep, k)|
    ensures exists i :: k <= i < |rows| && KeptFrom(rows, keep, k)[j] == rows[i] && keep[i]
    decreases |rows| - k
  {
    var rest := KeptFrom(rows, keep, k + 1);
    if keep[k] {
      if j > 0 {
        assert KeptFrom(rows, keep, k)[j] == rest[j - 1];
        KeptFromIsKept(rows, keep, k + 1, j - 1);
      }
    } else {
      KeptFromIsKept(rows, keep, k + 1, j);
    }
  }

  function Collapse(x: Table): (y: Table)
    ensures y.cols == x.cols
  {
    Table(x.cols, KeptFrom(x.rows, ChangeFlags(x.rows), 0))
  }

  lemma {:induction false} KeptFromComplete(rows: seq<Rec>, keep: seq<bool>, k: nat, i: int)
    requires |keep| == |rows| && k <= i < |rows| && keep[i]
    ensures rows[i] in KeptFrom(rows, keep, k)
    decreases i - k
  {
    if k < i {
      KeptFromComplete(rows, keep, k + 1, i);
    }
  }

  lemma {:induction false} KeptFromSorted(rows: seq<Rec>, keep: seq<bool>, cols: set<Column>, k: nat)
    requires |keep| == |rows| && Sorted(rows) && Shaped(rows, cols)
    ensures Sorted(KeptFrom(rows, keep, k)) && Shaped(KeptFrom(rows, keep, k), cols)
    ensures k < |rows| ==> forall j :: 0 <= j < |KeptFrom(rows, keep, k)| ==> rows[k].t <= KeptFrom(rows, keep, k)[j].t
    decreases |rows| - k
  {
    if k < |rows| {
      KeptFromSorted(rows, keep, cols, k + 1);
      var rest := KeptFrom(rows, keep, k + 1);
      assert forall j :: 0 <= j < |rest| ==> rows[k].t < rest[j].t by {
        if k + 1 < |rows| {
          assert rows[k].t < rows[k + 1].t;
        }
      }
      if keep[k] {
        var r := [rows[k]] + rest;
        forall a, b | 0 <= a < b < |r| ensures r[a].t < r[b].t {
          assert r[b] == rest[b - 1];
          if a > 0 {
            assert r[a] == rest[a - 1];
          }
        }
        forall j | 0 <= j < |r| ensures r[j].v.Keys == cols {
          if j > 0 {
            assert r[j] == rest[j - 1];
          }
        }
      }
    }
  }

  /**
   * The short history keeps exactly the grid rows whose sum differs from the
   * mean of its neighbours' sums (a missing neighbour counting as 0), in order.
   */
  lemma CollapseKeepsChangingRows(x: Table)
    requires WellFormed(x)
    ensures WellFormed(Collapse(x))
    ensures forall i :: 0 <= i < |x.rows| ==> (x.rows[i] in Collapse(x).rows <==> Changes(x.rows, i))
  {
    var keep := ChangeFlags(x.rows);
    KeptFromSorted(x.rows, keep, x.cols, 0);
    forall i | 0 <= i < |x.rows|
      ensures x.rows[i] in Collapse(x).rows <==> keep[i]
    {
      KeptInOrder(x.rows, keep, i);
    }
  }

  /** In a sorted table a row is kept exactly when its flag is set. */
  lemma KeptInOrder(rows: seq<Rec>, keep: seq<bool>, i: int)
    requires |keep| == |rows| && Sorted(rows) && 0 <= i < |rows|
    ensures rows[i] in KeptFrom(rows, keep, 0) <==> keep[i]
  {
    if keep[i] {
      KeptFromComplete(rows, keep, 0, i);
    }
    if rows[i] in KeptFrom(rows, keep, 0) {
      var r := KeptFrom(rows, keep, 0);
      var j :| 0 <= j < |r| && r[j] == rows[i];
      KeptFromIsKept(rows, keep, 0, j);
      var i' :| 0 <= i' < |rows| && r[j] == rows[i'] && keep[i'];
      assert rows[i'].t == rows[i].t;
    }
  }

  /**
   * What the test misses: a row between two neighbours whose sums lie on a
   * straight line is dropped although its sum differs from both.
   */
  lemma CollapseDropsSteadyChange(rows: seq<Rec>, i: int)
    requires 0 < i < |rows| - 1
    requires SumAt(rows, i) - SumAt(rows, i - 1) == SumAt(rows, i + 1) - SumAt(rows, i)
    ensures !Changes(rows, i)
  {
  }
}
