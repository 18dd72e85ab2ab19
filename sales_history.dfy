/**
 * The stages that turn one product record into its event-level sales
 * history: the price series, then the coupons, lightning deals, sales rank
 * and monthly-sold estimates, each outer-merged on the time index and
 * forward-filled, with the effective price computed after the rank merge.
 */
module SalesHistory {
  import opened Wrappers
  import opened Frames
  import opened KeepaTime
  import opened SalesTiers
  import opened Decoders
  import opened Records
  import opened Pricing

  const CouponCols: set<Column> := {PctOff, DollarOff, SnsPct, SnsDollar}

  /** A decoded client series as a one-column table, each value passed through `f`. */
  function PointsTable(ps: seq<Point>, c: Column, f: Option<real> -> Option<real>): (x: Table)
    ensures x.cols == {c} && |x.rows| == |ps|
    ensures forall i :: 0 <= i < |ps| ==> x.rows[i].t == ps[i].t && Cell(x.rows[i], c) == f(ps[i].value)
  {
    Table({c}, seq(|ps|, i requires 0 <= i < |ps| => Rec(ps[i].t, map[c := f(ps[i].value)])))
  }

  lemma PointsTableWellFormed(ps: seq<Point>, c: Column, f: Option<real> -> Option<real>)
    requires PointsSorted(ps)
    ensures WellFormed(PointsTable(ps, c, f))
  {
  }

  // ---------------------------------------------------------------------------
  // pull_sales: the "new" price series, NaN filled with -1 (no offer).

  function NoOfferAsMinusOne(v: Option<real>): Option<real> {
    Some(v.GetOr(-1.0))
  }

  function SalesTable(r: Record): (x: Table)
    ensures x.cols == {FullPrice} && |x.rows| == |NewPrice(r)|
  {
    PointsTable(NewPrice(r), FullPrice, NoOfferAsMinusOne)
  }

  /** `sales.index[-1]`: the time of the last price observation. */
  function LastSalesDate(r: Record): int
    requires HasSales(r)
  {
    NewPrice(r)[|NewPrice(r)| - 1].t
  }

  // ---------------------------------------------------------------------------
  // pull_coupons.

  /** One coupon row: each code split into its percentage and money parts. */
  function CouponRow(t: int, code: int, snsCode: int): Rec {
    Rec(t, map[PctOff := Some(SplitCode(code).0), DollarOff := Some(SplitCode(code).1),
               SnsPct := Some(SplitCode(snsCode).0), SnsDollar := Some(SplitCode(snsCode).1)])
  }

  /**
   * The coupon table: one row per (time, code, SNS code) triplet at the
   * decoded time, or, without a coupon history, one all-zero row at `last`.
   */
  function CouponTable(r: Record, last: int): (x: Table)
    requires Present(r.couponHistory) ==> |r.couponHistory.value| % 3 == 0
    ensures x.cols == CouponCols
    ensures Present(r.couponHistory) ==> |x.rows| == |r.couponHistory.value| / 3
    ensures !Present(r.couponHistory) ==> x.rows == [CouponRow(last, 0, 0)]
  {
    if Present(r.couponHistory) then
      var tr := Triplets(r.couponHistory.value);
      Table(CouponCols, seq(|tr|, i requires 0 <= i < |tr| => CouponRow(UnixMinute(tr[i].0), tr[i].1, tr[i].2)))
    else
      Table(CouponCols, [CouponRow(last, 0, 0)])
  }

  /**
   * Row `i` of a decoded coupon history is triplet `i` of the array: its time
   * decoded, % off and $ off recombining to the discount code, and likewise
   * for the subscribe-and-save code.
   */
  lemma CouponRowsDecodeTriplets(r: Record, last: int, i: int)
    requires Present(r.couponHistory) && |r.couponHistory.value| % 3 == 0
    requires 0 <= i < |r.couponHistory.value| / 3
    ensures var row := CouponTable(r, last).rows[i];
      var cs := r.couponHistory.value;
      row.t == UnixMinute(cs[3 * i])
      && Cell(row, PctOff).value + 100.0 * Cell(row, DollarOff).value == cs[3 * i + 1] as real
      && Cell(row, SnsPct).value + 100.0 * Cell(row, SnsDollar).value == cs[3 * i + 2] as real
      && Cell(row, PctOff).value <= 0.0 <= Cell(row, DollarOff).value
      && Cell(row, SnsPct).value <= 0.0 <= Cell(row, SnsDollar).value
  {
  }

  lemma CouponTableWellFormed(r: Record, last: int)
    requires WellFormedRecord(r)
    ensures WellFormed(CouponTable(r, last))
  {
    if Present(r.couponHistory) {
      var x := CouponTable(r, last);
      var ts := TripletTimes(r.couponHistory.value);
      assert forall i :: 0 <= i < |x.rows| ==> x.rows[i].t == UnixMinute(ts[i]);
    }
  }

  /** `merge(sales, coupon_history, how="outer").ffill()`. */
  function CouponStage(sales: Table, r: Record, last: int): (x: Table)
    requires Present(r.couponHistory) ==> |r.couponHistory.value| % 3 == 0
    ensures x.cols == sales.cols + CouponCols && |x.rows| >= |sales.rows|
  {
    FFill(Merge(sales, CouponTable(r, last)))
  }

  function AfterCoupons(r: Record): (x: Table)
    requires HasSales(r) && WellFormedRecord(r)
    ensures x.cols == {FullPrice} + CouponCols && |x.rows| > 0
  {
    CouponStage(SalesTable(r), r, LastSalesDate(r))
  }

  // ---------------------------------------------------------------------------
  // pull_lds.

  function NoDealAsZero(v: Option<real>): Option<real> {
    Some(v.GetOr(0.0))
  }

  /** The lightning-deal series with NaN as 0, or one 0 row at `last`. */
  function LdTable(r: Record, last: int): (x: Table)
    ensures x.cols == {LD}
  {
    match r.lightningDeal
    case None => Table({LD}, [Rec(last, map[LD := Some(0.0)])])
    case Some(ps) => PointsTable(ps, LD, NoDealAsZero)
  }

  /** Merge, forward fill, then `fillna(0)` over every column. */
  function DealStage(prev: Table, r: Record, last: int): (x: Table)
    ensures x.cols == prev.cols + {LD} && |x.rows| >= |prev.rows|
  {
    var m := FFill(Merge(prev, LdTable(r, last)));
    Replace(m, m.cols, None, Some(0.0))
  }

  function AfterLds(r: Record): (x: Table)
    requires HasSales(r) && WellFormedRecord(r)
    ensures x.cols == {FullPrice} + CouponCols + {LD} && |x.rows| > 0
  {
    DealStage(AfterCoupons(r), r, LastSalesDate(r))
  }

  // ---------------------------------------------------------------------------
  // pull_bsr and the effective price.

  function UnrankedAsMissing(v: Option<real>): Option<real> {
    if v == Some(-1.0) then None else v
  }

  /** The sales-rank series with -1 as NaN, or one NaN row at `last`. */
  function BsrTable(r: Record, last: int): (x: Table)
    ensures x.cols == {BSR}
  {
    match r.salesRank
    case None => Table({BSR}, [Rec(last, map[BSR := None])])
    case Some(ps) => PointsTable(ps, BSR, UnrankedAsMissing)
  }

  /** The "final price" cell a row gets: the discount formula, overridden by a deal. */
  function FinalPriceCell(row: Rec): Option<real> {
    WithDeal(FinalPriceOf(Cell(row, FullPrice), Cell(row, PctOff), Cell(row, DollarOff),
                          Cell(row, SnsPct), Cell(row, SnsDollar)),
             Cell(row, LD))
  }

  function WithFinalPrice(x: Table): (y: Table)
    ensures y.cols == x.cols + {FinalPrice} && |y.rows| == |x.rows|
    ensures forall i :: 0 <= i < |x.rows| ==>
      y.rows[i].t == x.rows[i].t && y.rows[i].v.Keys == x.rows[i].v.Keys + {FinalPrice}
      && Cell(y.rows[i], FinalPrice) == FinalPriceCell(x.rows[i])
      && forall c :: c != FinalPrice ==> Cell(y.rows[i], c) == Cell(x.rows[i], c)
  {
    Table(x.cols + {FinalPrice}, seq(|x.rows|, i requires 0 <= i < |x.rows| =>
      Rec(x.rows[i].t, x.rows[i].v[FinalPrice := FinalPriceCell(x.rows[i])])))
  }

  /** Merge the ranks, forward fill, then compute the final price. */
  function RankStage(prev: Table, r: Record, last: int): (x: Table)
    ensures x.cols == prev.cols + {BSR, FinalPrice} && |x.rows| >= |prev.rows|
  {
    WithFinalPrice(FFill(Merge(prev, BsrTable(r, last))))
  }

  function AfterBsr(r: Record): (x: Table)
    requires HasSales(r) && WellFormedRecord(r)
    ensures x.cols == {FullPrice} + CouponCols + {LD, BSR, FinalPrice} && |x.rows| > 0
  {
    RankStage(AfterLds(r), r, LastSalesDate(r))
  }

  // ---------------------------------------------------------------------------
  // pull_monthly_sold.

  /** `replace(-1, 0)`. */
  function UnknownAsZero(x: real): real {
    if x == -1.0 then 0.0 else x
  }

  /** One monthly-sold row: the reported floor and the tier ceiling, -1 read as 0. */
  function MonthlyRow(t: int, units: int): Rec {
    Rec(t, map[SoldMin := Some(UnknownAsZero(units as real)), SoldMax := Some(UnknownAsZero(ApplySalesTiers(units)))])
  }

  /** The monthly-sold table: one row per (time, units) pair, or a -1 row at `last`. */
  function MonthlyTable(r: Record, last: int): (x: Table)
    requires Present(r.monthlySoldHistory) ==> |r.monthlySoldHistory.value| % 2 == 0
    ensures x.cols == {SoldMin, SoldMax}
    ensures Present(r.monthlySoldHistory) ==> |x.rows| == |r.monthlySoldHistory.value| / 2
    ensures !Present(r.monthlySoldHistory) ==> x.rows == [MonthlyRow(last, -1)]
  {
    if Present(r.monthlySoldHistory) then
      var pr := Pairs(r.monthlySoldHistory.value);
      Table({SoldMin, SoldMax}, seq(|pr|, i requires 0 <= i < |pr| => MonthlyRow(UnixMinute(pr[i].0), pr[i].1)))
    else
      Table({SoldMin, SoldMax}, [MonthlyRow(last, -1)])
  }

  /** A reported floor of at least -1 gives 0 <= min <= max, and a missing history gives 0 and 0. */
  lemma MonthlyRowBounds(t: int, units: int)
    requires units >= -1
    ensures var row := MonthlyRow(t, units);
      0.0 <= Cell(row, SoldMin).value <= Cell(row, SoldMax).value
    ensures units == -1 ==> Cell(MonthlyRow(t, units), SoldMin) == Some(0.0) == Cell(MonthlyRow(t, units), SoldMax)
  {
    if units >= 0 {
      CeilingAtLeastFloor(units);
    }
  }

  lemma MonthlyTableWellFormed(r: Record, last: int)
    requires WellFormedRecord(r)
    ensures WellFormed(MonthlyTable(r, last))
  {
    if Present(r.monthlySoldHistory) {
      var x := MonthlyTable(r, last);
      var ts := PairTimes(r.monthlySoldHistory.value);
      assert forall i :: 0 <= i < |x.rows| ==> x.rows[i].t == UnixMinute(ts[i]);
    }
  }

  function MonthlyStage(prev: Table, r: Record, last: int): (x: Table)
    requires Present(r.monthlySoldHistory) ==> |r.monthlySoldHistory.value| % 2 == 0
    ensures x.cols == prev.cols + {SoldMin, SoldMax} && |x.rows| >= |prev.rows|
  {
    FFill(Merge(prev, MonthlyTable(r, last)))
  }

  /** `sales_history_monthly`: the full event-level history of the record. */
  function AfterMonthly(r: Record): (x: Table)
    requires HasSales(r) && WellFormedRecord(r)
    ensures x.cols == {FullPrice} + CouponCols + {LD, BSR, FinalPrice, SoldMin, SoldMax} && |x.rows| > 0
  {
    MonthlyStage(AfterBsr(r), r, LastSalesDate(r))
  }

  // ---------------------------------------------------------------------------
  // What each stage means.

  lemma SalesTableWellFormed(r: Record)
    requires WellFormedRecord(r)
    ensures WellFormed(SalesTable(r))
  {
    PointsTableWellFormed(NewPrice(r), FullPrice, NoOfferAsMinusOne);
  }

  lemma LdTableWellFormed(r: Record, last: int)
    requires WellFormedRecord(r)
    ensures WellFormed(LdTable(r, last))
  {
    if r.lightningDeal.Some? {
      PointsTableWellFormed(r.lightningDeal.value, LD, NoDealAsZero);
    }
  }

  lemma BsrTableWellFormed(r: Record, last: int)
    requires WellFormedRecord(r)
    ensures WellFormed(BsrTable(r, last))
  {
    if r.salesRank.Some? {
      PointsTableWellFormed(r.salesRank.value, BSR, UnrankedAsMissing);
    }
  }

  /** Merging a well-formed table into another and forward filling keeps it well formed. */
  lemma MergeFillWellFormed(x: Table, y: Table)
    requires WellFormed(x) && WellFormed(y)
    ensures WellFormed(FFill(Merge(x, y)))
  {
    MergeWellFormed(x, y);
    FFillWellFormed(Merge(x, y));
  }

  lemma CouponStageWellFormed(sales: Table, r: Record, last: int)
    requires WellFormedRecord(r) && WellFormed(sales)
    ensures WellFormed(CouponStage(sales, r, last))
  {
    CouponTableWellFormed(r, last);
    MergeFillWellFormed(sales, CouponTable(r, last));
  }

  lemma DealStageWellFormed(prev: Table, r: Record, last: int)
    requires WellFormedRecord(r) && WellFormed(prev)
    ensures WellFormed(DealStage(prev, r, last))
  {
    LdTableWellFormed(r, last);
    MergeFillWellFormed(prev, LdTable(r, last));
    var m := FFill(Merge(prev, LdTable(r, last)));
    ReplaceWellFormed(m, m.cols, None, Some(0.0));
  }

  lemma RankStageWellFormed(prev: Table, r: Record, last: int)
    requires WellFormedRecord(r) && WellFormed(prev)
    ensures WellFormed(RankStage(prev, r, last))
  {
    BsrTableWellFormed(r, last);
    MergeFillWellFormed(prev, BsrTable(r, last));
    var m := FFill(Merge(prev, BsrTable(r, last)));
    assert WellFormed(WithFinalPrice(m));
  }

  lemma MonthlyStageWellFormed(prev: Table, r: Record, last: int)
    requires WellFormedRecord(r) && WellFormed(prev)
    ensures WellFormed(MonthlyStage(prev, r, last))
  {
    MonthlyTableWellFormed(r, last);
    MergeFillWellFormed(prev, MonthlyTable(r, last));
  }

  /** Every stage of the record's history is well formed: sorted, unique times, full rows. */
  lemma HistoryWellFormed(r: Record)
    requires HasSales(r) && WellFormedRecord(r)
    ensures WellFormed(AfterCoupons(r)) && WellFormed(AfterLds(r)) && WellFormed(AfterBsr(r))
    ensures WellFormed(AfterMonthly(r))
  {
    var last := LastSalesDate(r);
    SalesTableWellFormed(r);
    CouponStageWellFormed(SalesTable(r), r, last);
    DealStageWellFormed(AfterCoupons(r), r, last);
    RankStageWellFormed(AfterLds(r), r, last);
    MonthlyStageWellFormed(AfterBsr(r), r, last);
  }

  /**
   * After the coupon merge, each row holds the latest observation of the
   * previous table and the latest coupon observation at or before its time.
   */
  lemma CouponsAreLatest(sales: Table, r: Record, last: int, i: int)
    requires WellFormedRecord(r) && WellFormed(sales) && sales.cols !! CouponCols
    requires 0 <= i < |CouponStage(sales, r, last).rows|
    ensures var row := CouponStage(sales, r, last).rows[i];
      (forall c :: c in sales.cols ==> Cell(row, c) == LatestUpTo(sales.rows, c, row.t))
      && forall c :: c in CouponCols ==> Cell(row, c) == LatestUpTo(CouponTable(r, last).rows, c, row.t)
  {
    CouponTableWellFormed(r, last);
    forall c | c in sales.cols
      ensures Cell(CouponStage(sales, r, last).rows[i], c) == LatestUpTo(sales.rows, c, CouponStage(sales, r, last).rows[i].t)
    {
      MergeFillLatestLeft(sales, CouponTable(r, last), c, i);
    }
    forall c | c in CouponCols
      ensures Cell(CouponStage(sales, r, last).rows[i], c) == LatestUpTo(CouponTable(r, last).rows, c, CouponStage(sales, r, last).rows[i].t)
    {
      MergeFillLatestRight(sales, CouponTable(r, last), c, i);
    }
  }

  /**
   * After the lightning-deal merge, the deal column holds the latest deal
   * observation at or before the row's time, 0 where there is none yet, and
   * no cell of any column is missing.
   */
  lemma DealsAreLatestOrZero(prev: Table, r: Record, last: int, i: int)
    requires WellFormedRecord(r) && WellFormed(prev) && LD !in prev.cols
    requires 0 <= i < |DealStage(prev, r, last).rows|
    ensures var row := DealStage(prev, r, last).rows[i];
      Cell(row, LD) == Some(LatestUpTo(LdTable(r, last).rows, LD, row.t).GetOr(0.0))
      && forall c :: c in prev.cols + {LD} ==> Cell(row, c).Some?
  {
    LdTableWellFormed(r, last);
    var m := FFill(Merge(prev, LdTable(r, last)));
    MergeFillWellFormed(prev, LdTable(r, last));
    MergeFillLatestRight(prev, LdTable(r, last), LD, i);
    forall c | c in m.cols ensures Cell(DealStage(prev, r, last).rows[i], c).Some? {
      FillNoneFills(m, 0.0, i, c);
    }
  }

  /**
   * After the rank merge, the rank column holds the latest rank at or before
   * the row's time, and the final price is the discount formula over the
   * row's cells unless a deal is running.
   */
  lemma RankAndPriceAtRow(prev: Table, r: Record, last: int, i: int)
    requires WellFormedRecord(r) && WellFormed(prev) && BSR !in prev.cols && FinalPrice !in prev.cols
    requires 0 <= i < |RankStage(prev, r, last).rows|
    ensures var row := RankStage(prev, r, last).rows[i];
      Cell(row, BSR) == LatestUpTo(BsrTable(r, last).rows, BSR, row.t)
      && Cell(row, FinalPrice) ==
           WithDeal(FinalPriceOf(Cell(row, FullPrice), Cell(row, PctOff), Cell(row, DollarOff),
                                 Cell(row, SnsPct), Cell(row, SnsDollar)), Cell(row, LD))
  {
    BsrTableWellFormed(r, last);
    MergeFillLatestRight(prev, BsrTable(r, last), BSR, i);
  }

  /** After the monthly merge, the sold columns hold the latest monthly report at or before the row's time. */
  lemma MonthlyIsLatest(prev: Table, r: Record, last: int, i: int)
    requires WellFormedRecord(r) && WellFormed(prev) && SoldMin !in prev.cols && SoldMax !in prev.cols
    requires 0 <= i < |MonthlyStage(prev, r, last).rows|
    ensures var row := MonthlyStage(prev, r, last).rows[i];
      Cell(row, SoldMin) == LatestUpTo(MonthlyTable(r, last).rows, SoldMin, row.t)
      && Cell(row, SoldMax) == LatestUpTo(MonthlyTable(r, last).rows, SoldMax, row.t)
  {
    MonthlyTableWellFormed(r, last);
    MergeFillLatestRight(prev, MonthlyTable(r, last), SoldMin, i);
    MergeFillLatestRight(prev, MonthlyTable(r, last), SoldMax, i);
  }

  /** The history's index is every time some series reports, once, in order. */
  lemma HistoryIndex(r: Record)
    requires HasSales(r) && WellFormedRecord(r)
    ensures var last := LastSalesDate(r);
      Times(AfterMonthly(r).rows) ==
        Times(SalesTable(r).rows) + Times(CouponTable(r, last).rows) + Times(LdTable(r, last).rows)
        + Times(BsrTable(r, last).rows) + Times(MonthlyTable(r, last).rows)
  {
    var last := LastSalesDate(r);
    StageTimes(SalesTable(r), CouponTable(r, last));
    var c := AfterCoupons(r);
    var m := FFill(Merge(c, LdTable(r, last)));
    StageTimes(c, LdTable(r, last));
    SameIndexTimes(m.rows, AfterLds(r).rows);
    var b := FFill(Merge(AfterLds(r), BsrTable(r, last)));
    StageTimes(AfterLds(r), BsrTable(r, last));
    SameIndexTimes(b.rows, AfterBsr(r).rows);
    StageTimes(AfterBsr(r), MonthlyTable(r, last));
  }

  lemma StageTimes(x: Table, y: Table)
    ensures Times(FFill(Merge(x, y)).rows) == Times(x.rows) + Times(y.rows)
  {
    MergeRowsTimes(x.rows, y.rows, x.cols, y.cols);
    FFillTimes(Merge(x, y));
  }
}
