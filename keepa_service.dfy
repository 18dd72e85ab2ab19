/**
 * `KeepaProduct`: one product's sales history, rebuilt stage by stage from
 * the record the Keepa client returns. Each stage re-runs the stages before
 * it (`pull_coupons` calls `pull_sales`, and so on up to
 * `generate_daily_sales`) and the methods set the fields the Python object
 * sets. Members that only the older copy of the class has (the comparisons,
 * `extract_from_products`, `get_variations`, `generate_monthly_summary`) are
 * methods of the same class.
 */
module KeepaService {
  import opened Wrappers
  import opened Frames
  import opened KeepaTime
  import opened Aggregates
  import opened Records
  import opened SalesHistory
  import opened MinuteGrid
  import opened DailySales
  import opened Summaries

  ghost predicate AllWellFormed(rs: seq<Record>) {
    forall k :: 0 <= k < |rs| ==> WellFormedRecord(rs[k])
  }

  lemma FetchedWellFormed(reply: Reply)
    requires WellFormedReply(reply)
    ensures AllWellFormed(Fetched(reply)) && |Fetched(reply)| >= 0
  {
    EmptyRecordWellFormed();
  }

  // ---------------------------------------------------------------------------
  // The tables the pipeline builds, as functions of the record and "today".

  /** The dense per-minute history of `generate_daily_sales(days)`, for the record of a product that exists. */
  function DenseOf(r: Record, today: int, days: int): (g: Table)
    requires HasSales(r) && WellFormedRecord(r)
  {
    DenseHistory(WithSalesRates(AfterMonthly(r)), WindowStart(today, days))
  }

  /** The pivot rows `get_last_days(days)` keeps. */
  function LastDaysOf(r: Record, today: int, days: int): seq<Rec>
    requires HasSales(r) && WellFormedRecord(r)
  {
    Since(DailyPivot(DenseOf(r, today, days)).rows, WindowDay(today, days))
  }

  /** The dense history is well formed and every minute of it lies in the window. */
  lemma DenseWellFormed(r: Record, today: int, days: int)
    requires HasSales(r) && WellFormedRecord(r)
    ensures WellFormed(DenseOf(r, today, days))
    ensures forall k :: 0 <= k < |DenseOf(r, today, days).rows| ==>
      DenseOf(r, today, days).rows[k].t == WindowStart(today, days) + k
  {
    HistoryWellFormed(r);
    var x := WithSalesRates(AfterMonthly(r));
    var start := WindowStart(today, days);
    WithSalesRatesWellFormed(AfterMonthly(r));
    GridIsEveryMinute(x, start);
    NullBlockedWellFormed(Minutely(x, start));
    forall k | 0 <= k < |DenseOf(r, today, days).rows|
      ensures DenseOf(r, today, days).rows[k].t == start + k
    {
      NullBlockedMeaning(Minutely(x, start), k);
    }
  }

  /**
   * The grid starts at midnight of the first day of the window, so the
   * window `get_last_days` cuts out of the daily pivot is the whole pivot.
   */
  lemma LastDaysIsWholePivot(r: Record, today: int, days: int)
    requires HasSales(r) && WellFormedRecord(r)
    ensures LastDaysOf(r, today, days) == DailyPivot(DenseOf(r, today, days)).rows
  {
    DenseWellFormed(r, today, days);
    WindowIsWholePivot(DenseOf(r, today, days), today, days);
  }

  // ---------------------------------------------------------------------------
  // extract_from_products and get_variations.

  /** The records whose "asin" is `asin`, in their original order. */
  function Matching(products: seq<Record>, asin: string): (r: seq<Record>)
    ensures |r| <= |products|
    ensures forall k :: 0 <= k < |r| ==> r[k].asin == Some(asin)
  {
    if |products| == 0 then []
    else (if products[0].asin == Some(asin) then [products[0]] else []) + Matching(products[1..], asin)
  }

  lemma {:induction false} MatchingExactly(products: seq<Record>, asin: string, p: Record)
    ensures p in Matching(products, asin) <==> p in products && p.asin == Some(asin)
  {
    if |products| > 0 {
      MatchingExactly(products[1..], asin, p);
      assert products == [products[0]] + products[1..];
    }
  }

  /** Filtering keeps the order: it distributes over concatenation. */
  lemma {:induction false} MatchingAppend(xs: seq<Record>, ys: seq<Record>, asin: string)
    ensures Matching(xs + ys, asin) == Matching(xs, asin) + Matching(ys, asin)
  {
    if |xs| > 0 {
      MatchingAppend(xs[1..], ys, asin);
      assert (xs + ys)[1..] == xs[1..] + ys;
    } else {
      assert xs + ys == ys;
    }
  }

  /** The ASINs of the variations: `[x["asin"] for x in variations]` as a set. */
  function VariationAsins(vs: seq<Variation>): (s: set<string>)
    ensures forall k :: 0 <= k < |vs| ==> vs[k].asin in s
    ensures forall a :: a in s ==> exists k :: 0 <= k < |vs| && vs[k].asin == a
  {
    set k | 0 <= k < |vs| :: vs[k].asin
  }

  /** `[t["attributes"] for t in variations if t["asin"] == asin][0]`, or `None` where that raises. */
  function OwnAttributes(vs: seq<Variation>, asin: string): (r: Option<seq<Attribute>>)
    ensures r.Some? <==> exists k :: 0 <= k < |vs| && vs[k].asin == asin
    ensures r.Some? ==> exists k :: (0 <= k < |vs| && vs[k].asin == asin && r.value == vs[k].attributes
      && forall j :: 0 <= j < k ==> vs[j].asin != asin)
  {
    if |vs| == 0 then None
    else if vs[0].asin == asin then Some(vs[0].attributes)
    else
      var r := OwnAttributes(vs[1..], asin);
      if r.Some? then
        assert forall j :: 1 <= j <= |vs[1..]| ==> vs[1..][j - 1] == vs[j];
        r
      else r
  }

  /** `{x["dimension"]: x["value"] for x in attributes}`: a later entry overrides an earlier one. */
  function Theme(attrs: seq<Attribute>): (m: map<string, string>)
    ensures m.Keys == set k | 0 <= k < |attrs| :: attrs[k].dimension
  {
    if |attrs| == 0 then map[]
    else
      var last := attrs[|attrs| - 1];
      var init := Theme(attrs[..|attrs| - 1]);
      assert forall k :: 0 <= k < |attrs| - 1 ==> attrs[..|attrs| - 1][k] == attrs[k];
      init[last.dimension := last.value]
  }

  /** Each dimension maps to the value of its last entry in the attribute list. */
  lemma {:induction false} ThemeIsLastEntry(attrs: seq<Attribute>, k: int)
    requires 0 <= k < |attrs|
    requires forall j :: k < j < |attrs| ==> attrs[j].dimension != attrs[k].dimension
    ensures Theme(attrs)[attrs[k].dimension] == attrs[k].value
  {
    if k < |attrs| - 1 {
      var init := attrs[..|attrs| - 1];
      assert init[k] == attrs[k];
      forall j | k < j < |init| ensures init[j].dimension != init[k].dimension {
        assert init[j] == attrs[j];
      }
      ThemeIsLastEntry(init, k);
    }
  }

  // ---------------------------------------------------------------------------
  // The state of a product and what each stage of the pipeline makes of it.

  /** The instance attributes of a `KeepaProduct` that its methods change. */
  datatype Product = Product(
    data: seq<Record>, productExists: bool,
    title: Option<string>, brand: Option<string>, parent: Option<string>, lastSalesDate: Option<int>,
    salesHistoryMonthly: Option<Table>, shortHistory: Option<Table>, pivot: Option<Table>,
    lastDays: Option<Table>, minSales: Option<int>, maxSales: Option<int>, avgSales: Option<real>,
    fullPrice: Option<real>, avgPrice: Option<real>,
    variations: set<string>, variationThemeDict: Option<seq<Attribute>>,
    variationTheme: Option<map<string, string>>, summary: Option<Table>)

  /** A fresh object: `data` is `None`, `avg_price` is 0 and every other attribute is unset. */
  const Initial: Product :=
    Product([], false, None, None, None, None, None, None, None, None, None, None, None, None, Some(0.0),
            {}, None, None, None)

  /** The records, those held and those the client would return, are well formed. */
  ghost predicate Loadable(p: Product, reply: Reply) {
    WellFormedReply(reply) && AllWellFormed(p.data)
  }

  /**
   * The records are well formed, and a product marked existing has, once
   * `query()` has loaded its data, a priced first record: exactly the states
   * in which `pull_coupons` does not merge a missing price table.
   */
  ghost predicate Good(p: Product, reply: Reply) {
    Loadable(p, reply) && (p.productExists ==> |Loaded(p.data, reply)| > 0 && HasSales(Loaded(p.data, reply)[0]))
  }

  /** What `query()` leaves in `data`: the reply, fetched only when there is no data yet. */
  function Loaded(d: seq<Record>, reply: Reply): (r: seq<Record>)
    ensures |d| > 0 ==> r == d
    ensures |d| == 0 ==> r == Fetched(reply)
  {
    if |d| == 0 then Fetched(reply) else d
  }

  /** The attributes `pull_sales` leaves alone. */
  ghost predicate TablesUnchanged(p: Product, q: Product) {
    q.salesHistoryMonthly == p.salesHistoryMonthly && q.shortHistory == p.shortHistory && q.pivot == p.pivot
    && q.lastDays == p.lastDays && q.minSales == p.minSales && q.maxSales == p.maxSales
    && q.avgSales == p.avgSales && q.fullPrice == p.fullPrice && q.avgPrice == p.avgPrice
    && q.variations == p.variations && q.variationThemeDict == p.variationThemeDict
    && q.variationTheme == p.variationTheme && q.summary == p.summary
  }

  /**
   * `pull_sales`: loads the data, takes the names from the first record and,
   * when its price series is not empty, marks the product existing and
   * returns that series as a table. Nothing ever clears `exists`: a product
   * marked existing whose first record has no price series (after
   * `extract_from_products` replaced the data) stays marked, and no series
   * is returned.
   */
  function PullSalesStep(p: Product, reply: Reply): (r: (Product, Option<Table>))
    requires Loadable(p, reply)
    ensures Loadable(r.0, reply) && r.0.data == Loaded(p.data, reply) && TablesUnchanged(p, r.0)
    ensures var priced := |r.0.data| > 0 && HasSales(r.0.data[0]);
      r.0.productExists == (p.productExists || priced)
      && (priced ==> r.1 == Some(SalesTable(r.0.data[0])) && r.0.lastSalesDate == Some(LastSalesDate(r.0.data[0])))
      && (!priced ==> r.1.None? && r.0.lastSalesDate == p.lastSalesDate)
    ensures Good(p, reply) ==> Good(r.0, reply) && (r.0.productExists <==> |r.0.data| > 0 && HasSales(r.0.data[0]))
    ensures if |r.0.data| > 0 && r.0.data[0] != EmptyRecord
      then r.0.title == r.0.data[0].title && r.0.brand == r.0.data[0].brand && r.0.parent == r.0.data[0].parentAsin
      else r.0.title == p.title && r.0.brand == p.brand && r.0.parent == p.parent
  {
    FetchedWellFormed(reply);
    var q := p.(data := Loaded(p.data, reply));
    if |q.data| == 0 || q.data[0] == EmptyRecord then
      EmptyRecordWellFormed();
      (q, None)
    else
      var d := q.data[0];
      var named := q.(title := d.title, brand := d.brand, parent := d.parentAsin);
      if !HasSales(d) then (named, None)
      else (named.(productExists := true, lastSalesDate := Some(LastSalesDate(d))), Some(SalesTable(d)))
  }

  /** `pull_coupons`: the price history joined with the coupon history. */
  function PullCouponsStep(p: Product, reply: Reply): (r: (Product, Option<Table>))
    requires Good(p, reply)
    ensures r.0 == PullSalesStep(p, reply).0
    ensures r.0.productExists ==> r.1 == Some(AfterCoupons(r.0.data[0]))
    ensures !r.0.productExists ==> r.1.None?
  {
    var s := PullSalesStep(p, reply);
    var q := s.0;
    if !q.productExists then (q, None)
    else (q, Some(CouponStage(s.1.value, q.data[0], q.lastSalesDate.value)))
  }

  /** `pull_lds`: then the lightning deals, with the gaps before the first deal filled with 0. */
  function PullLdsStep(p: Product, reply: Reply): (r: (Product, Option<Table>))
    requires Good(p, reply)
    ensures r.0 == PullSalesStep(p, reply).0
    ensures r.0.productExists ==> r.1 == Some(AfterLds(r.0.data[0]))
    ensures !r.0.productExists ==> r.1.None?
  {
    var s := PullCouponsStep(p, reply);
    var q := s.0;
    if !q.productExists then (q, None)
    else (q, Some(DealStage(s.1.value, q.data[0], q.lastSalesDate.value)))
  }

  /** `pull_bsr`: then the sales rank, and the final price of every row. */
  function PullBsrStep(p: Product, reply: Reply): (r: (Product, Option<Table>))
    requires Good(p, reply)
    ensures r.0 == PullSalesStep(p, reply).0
    ensures r.0.productExists ==> r.1 == Some(AfterBsr(r.0.data[0]))
    ensures !r.0.productExists ==> r.1.None?
  {
    var s := PullLdsStep(p, reply);
    var q := s.0;
    if !q.productExists then (q, None)
    else (q, Some(RankStage(s.1.value, q.data[0], q.lastSalesDate.value)))
  }

  /** `pull_monthly_sold`: then the monthly-sold estimates, also kept in `sales_history_monthly`. */
  function PullMonthlySoldStep(p: Product, reply: Reply): (r: (Product, Option<Table>))
    requires Good(p, reply)
    ensures Good(r.0, reply) && (r.0.productExists <==> |r.0.data| > 0 && HasSales(r.0.data[0]))
    ensures r.0.productExists ==> (r.1 == Some(AfterMonthly(r.0.data[0]))
      && r.0 == PullSalesStep(p, reply).0.(salesHistoryMonthly := r.1))
    ensures !r.0.productExists ==> r.1.None? && r.0 == PullSalesStep(p, reply).0
  {
    var s := PullBsrStep(p, reply);
    var q := s.0;
    if !q.productExists then (q, None)
    else
      var x := Some(MonthlyStage(s.1.value, q.data[0], q.lastSalesDate.value));
      (q.(salesHistoryMonthly := x), x)
  }

  /**
   * `generate_daily_sales(days)`: the dense minute history from midnight of
   * (today - days), its collapsed "short history", and the daily pivot. For a
   * product that does not exist the short history is the `None` the last
   * stage returned and the pivot is left as it was.
   */
  function GenerateDailySalesStep(p: Product, reply: Reply, days: int, today: int): (q: Product)
    requires Good(p, reply)
    ensures Good(q, reply)
    ensures q.data == Loaded(p.data, reply) && q.productExists == PullSalesStep(p, reply).0.productExists
    ensures q.productExists ==> (q.salesHistoryMonthly == Some(AfterMonthly(q.data[0]))
      && q.shortHistory == Some(Collapse(DenseOf(q.data[0], today, days)))
      && q.pivot == Some(DailyPivot(DenseOf(q.data[0], today, days))))
    ensures !q.productExists ==> (q.shortHistory.None? && q.pivot == p.pivot
      && q.salesHistoryMonthly == p.salesHistoryMonthly)
  {
    var s := PullMonthlySoldStep(p, reply);
    var q := s.0.(shortHistory := s.1);
    if !q.productExists then q
    else
      var g := DenseHistory(WithSalesRates(s.1.value), WindowStart(today, days));
      q.(shortHistory := Some(Collapse(g)), pivot := Some(DailyPivot(g)))
  }

  /**
   * `get_last_days(days)`: the pivot rows dated on or after (today - days)
   * and their totals; `avg_price` changes only when the pivot has a final
   * price column.
   */
  function GetLastDaysStep(p: Product, reply: Reply, days: int, today: int): (q: Product)
    requires Good(p, reply)
    ensures Good(q, reply)
    ensures q.data == Loaded(p.data, reply)
    ensures q.productExists ==> q.pivot == Some(DailyPivot(DenseOf(q.data[0], today, days)))
    ensures q.productExists ==>
      var pv := DailyPivot(DenseOf(q.data[0], today, days));
      var w := LastDaysOf(q.data[0], today, days);
      var s := WindowTotals(w);
      q.lastDays == Some(Table(pv.cols, w))
      && q.minSales == Some(s.minSales) && q.maxSales == Some(s.maxSales) && q.avgSales == Some(s.avgSales)
      && q.fullPrice == s.fullPrice && q.avgPrice == (if FinalPrice in pv.cols then s.meanFinal else p.avgPrice)
    ensures !q.productExists ==> (q.lastDays == p.lastDays && q.minSales == p.minSales && q.maxSales == p.maxSales
      && q.avgSales == p.avgSales && q.fullPrice == p.fullPrice && q.avgPrice == p.avgPrice)
  {
    var q := GenerateDailySalesStep(p, reply, days, today);
    if !q.productExists then q
    else
      var pv := q.pivot.value;
      var w := Since(pv.rows, WindowDay(today, days));
      var s := WindowTotals(w);
      q.(lastDays := Some(Table(pv.cols, w)), minSales := Some(s.minSales), maxSales := Some(s.maxSales),
         avgSales := Some(s.avgSales), fullPrice := s.fullPrice,
         avgPrice := if FinalPrice in pv.cols then s.meanFinal else q.avgPrice)
  }

  /** The `summary` attribute once the summary step ended as `o`. */
  function StoredSummary(o: SummaryOutcome, before: Option<Table>): Option<Table> {
    match o
    case MissingInput => before
    case Raised(t) => Some(t)
    case Summarized(t) => Some(t)
  }

  /**
   * `generate_monthly_summary`, with the month key computed as intended
   * (see `Summaries.MonthLabelsAsWritten` for the expression as written):
   * the daily sales are generated over the initial window only when there
   * is no data yet. The flag is false where the source raises `KeyError`
   * (see `Summaries.SummaryOutcome`), after what was set by then.
   */
  function GenerateMonthlySummaryStep(p: Product, reply: Reply, initialDays: int, today: int): (r: (Product, bool))
    requires Loadable(p, reply) && (|p.data| == 0 ==> Good(p, reply))
    ensures Loadable(r.0, reply) && (Good(p, reply) ==> Good(r.0, reply))
    ensures var q := if |p.data| == 0 then GenerateDailySalesStep(p, reply, initialDays, today) else p;
      if |q.data| > 0 && q.pivot.Some? then
        var o := MonthlySummary(q.pivot.value);
        r.0 == q.(summary := StoredSummary(o, p.summary)) && (r.1 <==> o.Summarized?)
      else r.0 == q && r.1
    ensures |p.data| > 0 ==> r.0.data == p.data && r.0.pivot == p.pivot && r.0.productExists == p.productExists
  {
    var q := if |p.data| == 0 then GenerateDailySalesStep(p, reply, initialDays, today) else p;
    SummaryStage(q, p.summary)
  }

  /** With no data yet, an existing product's pivot is the daily pivot of its first record over the initial window. */
  lemma MonthlySummaryStepPivot(p: Product, reply: Reply, initialDays: int, today: int)
    requires Good(p, reply) && |p.data| == 0
    ensures var r := GenerateMonthlySummaryStep(p, reply, initialDays, today);
      r.0.productExists ==> r.0.pivot == Some(DailyPivot(DenseOf(r.0.data[0], today, initialDays)))
  {
  }

  /** The summary part of `generate_monthly_summary`, on the product once it holds data. */
  function SummaryStage(q: Product, before: Option<Table>): (r: (Product, bool))
    ensures r.0.data == q.data && r.0.pivot == q.pivot && r.0.productExists == q.productExists
  {
    if |q.data| > 0 && q.pivot.Some? then
      var o := MonthlySummary(q.pivot.value);
      (q.(summary := StoredSummary(o, before)), o.Summarized?)
    else (q, true)
  }

  /**
   * On the pivot `generate_daily_sales` builds, the second `pivot_table`
   * raises exactly when no minute of the window has a final price, or none
   * has a sales rank: the other three columns are always there.
   */
  lemma SummaryOfDailyPivot(g: Table)
    ensures MonthlySummary(DailyPivot(g)).MissingInput? <==>
      !AnyPresent(g.rows, FinalPrice) || !AnyPresent(g.rows, BSR)
  {
    MonthlySummaryOutcome(DailyPivot(g));
    DailyPivotColumns(g, FinalPrice);
    DailyPivotColumns(g, BSR);
  }

  /**
   * `get_variations`: every variation's ASIN joins `variations`, and the
   * theme comes from the attributes of this ASIN's own variation. The flag
   * is false where the source raises `IndexError` (no variation is this
   * ASIN), after the ASINs were added.
   */
  function GetVariationsStep(p: Product, reply: Reply, asin: string): (r: (Product, bool))
    ensures r.0 == p.(data := r.0.data, variations := r.0.variations,
                      variationThemeDict := r.0.variationThemeDict, variationTheme := r.0.variationTheme)
    ensures r.0.data == Loaded(p.data, reply)
    ensures var d := r.0.data;
      if |d| > 0 && d[0].variations.Some? && |d[0].variations.value| > 0 then
        var vs := d[0].variations.value;
        r.0.variations == p.variations + VariationAsins(vs)
        && (r.1 <==> OwnAttributes(vs, asin).Some?)
        && (r.1 ==> r.0.variationThemeDict == OwnAttributes(vs, asin)
                    && r.0.variationTheme == Some(Theme(OwnAttributes(vs, asin).value)))
        && (!r.1 ==> r.0.variationThemeDict == p.variationThemeDict && r.0.variationTheme == p.variationTheme)
      else
        r.1 && r.0.variations == p.variations
        && r.0.variationThemeDict == p.variationThemeDict && r.0.variationTheme == p.variationTheme
  {
    var q := p.(data := Loaded(p.data, reply));
    if |q.data| > 0 && q.data[0].variations.Some? && |q.data[0].variations.value| > 0 then
      var vs := q.data[0].variations.value;
      var withAsins := q.(variations := q.variations + VariationAsins(vs));
      var own := OwnAttributes(vs, asin);
      if own.None? then (withAsins, false)
      else (withAsins.(variationThemeDict := own, variationTheme := Some(Theme(own.value))), true)
    else (q, true)
  }

  // ---------------------------------------------------------------------------
  // What the pipeline promises across calls.

  /**
   * `avg_price` is the window's mean final price when some minute of the
   * window has a final price, and keeps its earlier value otherwise.
   */
  lemma AvgPriceNeedsFinalPrice(p: Product, reply: Reply, days: int, today: int)
    requires Good(p, reply)
    ensures var q := GetLastDaysStep(p, reply, days, today);
      q.productExists ==>
        q.avgPrice == if AnyPresent(DenseOf(q.data[0], today, days).rows, FinalPrice)
          then WindowTotals(LastDaysOf(q.data[0], today, days)).meanFinal
          else p.avgPrice
  {
    var q := GetLastDaysStep(p, reply, days, today);
    if q.productExists {
      DailyPivotColumns(DenseOf(q.data[0], today, days), FinalPrice);
    }
  }

  /** The product exists exactly when the first record's price series is not empty, whatever stage ran. */
  lemma ExistsIffPriced(p: Product, reply: Reply, days: int, today: int)
    requires Good(p, reply)
    ensures var q := GetLastDaysStep(p, reply, days, today);
      q.productExists <==> |q.data| > 0 && HasSales(q.data[0])
  {
  }

  /** Running `pull_sales` again changes nothing: the data is not fetched twice. */
  lemma PullSalesIdempotent(p: Product, reply: Reply)
    requires Good(p, reply)
    ensures PullSalesStep(PullSalesStep(p, reply).0, reply).0 == PullSalesStep(p, reply).0
  {
  }

  /** `generate_daily_sales` over the same window twice gives the same state as once. */
  lemma GenerateDailySalesIdempotent(p: Product, reply: Reply, days: int, today: int)
    requires Good(p, reply)
    ensures var q := GenerateDailySalesStep(p, reply, days, today);
      GenerateDailySalesStep(q, reply, days, today) == q
  {
  }

  // ---------------------------------------------------------------------------
  // The product.

  class KeepaProduct {
    const asin: string
    const domain: string
    /** What the Keepa client's `query` returns for this product; `query()` stores it. */
    const reply: Reply
    const initialDays: int

    /** `self.data`; the empty list also stands for `None`: both are falsy. */
    var data: seq<Record>
    var productExists: bool
    var title: Option<string>
    var brand: Option<string>
    var parent: Option<string>
    var lastSalesDate: Option<int>
    var salesHistoryMonthly: Option<Table>
    var shortHistory: Option<Table>
    var pivot: Option<Table>
    var lastDays: Option<Table>
    var minSales: Option<int>
    var maxSales: Option<int>
    var avgSales: Option<real>
    /** `None` both before `get_last_days` and for a NaN mean. */
    var fullPrice: Option<real>
    /** 0 at first; `None` for a NaN mean. */
    var avgPrice: Option<real>
    var variations: set<string>
    var variationThemeDict: Option<seq<Attribute>>
    var variationTheme: Option<map<string, string>>
    var summary: Option<Table>

    /** The attributes, as one value. */
    function State(): Product
      reads this
    {
      Product(data, productExists, title, brand, parent, lastSalesDate, salesHistoryMonthly, shortHistory,
              pivot, lastDays, minSales, maxSales, avgSales, fullPrice, avgPrice, variations,
              variationThemeDict, variationTheme, summary)
    }

    /** The records are well formed. */
    ghost predicate Valid()
      reads this`data
    {
      WellFormedReply(reply) && AllWellFormed(data)
    }

    /** A product marked existing has, once its data is loaded, a priced first record (see `Good`). */
    ghost predicate Consistent()
      reads this`productExists, this`data
    {
      productExists ==> |Loaded(data, reply)| > 0 && HasSales(Loaded(data, reply)[0])
    }

    constructor(asin: string, domain: string, reply: Reply)
      requires WellFormedReply(reply)
      ensures Valid() && Consistent()
      ensures this.asin == asin && this.domain == domain && this.reply == reply && initialDays == 360
      ensures State() == Initial
    {
      this.asin := asin;
      this.domain := domain;
      this.reply := reply;
      initialDays := 360;
      data := [];
      productExists := false;
      title, brand, parent, lastSalesDate := None, None, None, None;
      salesHistoryMonthly, shortHistory, pivot, lastDays, summary := None, None, None, None, None;
      minSales, maxSales, avgSales, fullPrice, avgPrice := None, None, None, None, Some(0.0);
      variations, variationThemeDict, variationTheme := {}, None, None;
    }

    /** Sets every attribute to the given state, a few attributes at a time. */
    method Store(s: Product)
      modifies this
      ensures State() == s
    {
      StoreRecords(s);
      StoreTotals(s);
    }

    method StoreRecords(s: Product)
      modifies this`data, this`productExists, this`title, this`brand, this`parent, this`lastSalesDate, this`salesHistoryMonthly, this`shortHistory, this`pivot, this`lastDays
      ensures data == s.data && productExists == s.productExists && title == s.title && brand == s.brand && parent == s.parent && lastSalesDate == s.lastSalesDate && salesHistoryMonthly == s.salesHistoryMonthly && shortHistory == s.shortHistory && pivot == s.pivot && lastDays == s.lastDays
    {
      data, productExists, title, brand, parent, lastSalesDate, salesHistoryMonthly, shortHistory, pivot, lastDays := s.data, s.productExists, s.title, s.brand, s.parent, s.lastSalesDate, s.salesHistoryMonthly, s.shortHistory, s.pivot, s.lastDays;
    }

    method StoreTotals(s: Product)
      modifies this`minSales, this`maxSales, this`avgSales, this`fullPrice, this`avgPrice, this`variations, this`variationThemeDict, this`variationTheme, this`summary
      ensures minSales == s.minSales && maxSales == s.maxSales && avgSales == s.avgSales && fullPrice == s.fullPrice && avgPrice == s.avgPrice && variations == s.variations && variationThemeDict == s.variationThemeDict && variationTheme == s.variationTheme && summary == s.summary
    {
      minSales, maxSales, avgSales, fullPrice, avgPrice, variations, variationThemeDict, variationTheme, summary := s.minSales, s.maxSales, s.avgSales, s.fullPrice, s.avgPrice, s.variations, s.variationThemeDict, s.variationTheme, s.summary;
    }

    /** `query()`: fetches the record only when there is no data yet; `exists` is left alone. */
    method Query()
      requires Valid()
      modifies this`data
      ensures Valid()
      ensures data == Loaded(old(data), reply)
    {
      if |data| == 0 {
        FetchedWellFormed(reply);
        data := Fetched(reply);
      }
    }

    method PullSales() returns (sales: Option<Table>)
      requires Valid()
      modifies this
      ensures Valid() && (old(Consistent()) ==> Consistent())
      ensures (State(), sales) == PullSalesStep(old(State()), reply)
    {
      var r := PullSalesStep(State(), reply);
      Store(r.0);
      sales := r.1;
    }

    method PullCoupons() returns (x: Option<Table>)
      requires Valid() && Consistent()
      modifies this
      ensures Valid() && Consistent()
      ensures (State(), x) == PullCouponsStep(old(State()), reply)
    {
      var r := PullCouponsStep(State(), reply);
      Store(r.0);
      x := r.1;
    }

    method PullLds() returns (x: Option<Table>)
      requires Valid() && Consistent()
      modifies this
      ensures Valid() && Consistent()
      ensures (State(), x) == PullLdsStep(old(State()), reply)
    {
      var r := PullLdsStep(State(), reply);
      Store(r.0);
      x := r.1;
    }

    method PullBsr() returns (x: Option<Table>)
      requires Valid() && Consistent()
      modifies this
      ensures Valid() && Consistent()
      ensures (State(), x) == PullBsrStep(old(State()), reply)
    {
      var r := PullBsrStep(State(), reply);
      Store(r.0);
      x := r.1;
    }

    method PullMonthlySold() returns (x: Option<Table>)
      requires Valid() && Consistent()
      modifies this
      ensures Valid() && Consistent()
      ensures (State(), x) == PullMonthlySoldStep(old(State()), reply)
    {
      var r := PullMonthlySoldStep(State(), reply);
      Store(r.0);
      x := r.1;
    }

    method GenerateDailySales(days: int, today: int)
      requires Valid() && Consistent()
      modifies this
      ensures Valid() && Consistent()
      ensures State() == GenerateDailySalesStep(old(State()), reply, days, today)
    {
      Store(GenerateDailySalesStep(State(), reply, days, today));
    }

    method GetLastDays(days: int, today: int)
      requires Valid() && Consistent()
      modifies this
      ensures Valid() && Consistent()
      ensures State() == GetLastDaysStep(old(State()), reply, days, today)
    {
      Store(GetLastDaysStep(State(), reply, days, today));
    }

    method GenerateMonthlySummary(today: int) returns (ok: bool)
      requires Valid() && (|data| == 0 ==> Consistent())
      modifies this
      ensures Valid() && (old(Consistent()) ==> Consistent())
      ensures (State(), ok) == GenerateMonthlySummaryStep(old(State()), reply, initialDays, today)
    {
      var r := GenerateMonthlySummaryStep(State(), reply, initialDays, today);
      Store(r.0);
      ok := r.1;
    }

    /** `get_sales_history_by_date`: the monthly-sold estimates as a dated table, `[]` for the empty frame. */
    method GetSalesHistoryByDate() returns (rows: seq<SalesRow>)
      requires Valid() && (productExists ==> |Loaded(data, reply)| > 0)
      modifies this`data
      ensures Valid() && (old(Consistent()) ==> Consistent()) && data == Loaded(old(data), reply)
      ensures rows == if productExists then HistoryByDate(data[0].monthlySoldHistory) else []
    {
      if |data| == 0 {
        Query();
      }
      if !productExists {
        return [];
      }
      rows := HistoryByDate(data[0].monthlySoldHistory);
    }

    // The comparison operators of the older copy: products compare by `max_sales`.

    predicate Lt(other: KeepaProduct)
      reads this, other
      requires maxSales.Some? && other.maxSales.Some?
    {
      maxSales.value < other.maxSales.value
    }

    predicate Le(other: KeepaProduct)
      reads this, other
      requires maxSales.Some? && other.maxSales.Some?
    {
      maxSales.value <= other.maxSales.value
    }

    predicate Gt(other: KeepaProduct)
      reads this, other
      requires maxSales.Some? && other.maxSales.Some?
    {
      maxSales.value > other.maxSales.value
    }

    predicate Ge(other: KeepaProduct)
      reads this, other
      requires maxSales.Some? && other.maxSales.Some?
    {
      maxSales.value >= other.maxSales.value
    }

    predicate Eq(other: KeepaProduct)
      reads this, other
      requires maxSales.Some? && other.maxSales.Some?
    {
      maxSales.value == other.maxSales.value
    }

    /** `extract_from_products`: the data becomes the records of this ASIN. */
    method ExtractFromProducts(products: seq<Record>)
      requires Valid()
      requires forall k :: 0 <= k < |products| ==> products[k].asin.Some? && WellFormedRecord(products[k])
      modifies this`data
      ensures Valid() && data == Matching(products, asin)
      ensures !productExists ==> Consistent()
    {
      data := Matching(products, asin);
      forall k | 0 <= k < |data| ensures WellFormedRecord(data[k]) {
        MatchingExactly(products, asin, data[k]);
      }
    }

    method GetVariations() returns (ok: bool)
      requires Valid()
      modifies this
      ensures Valid() && (old(Consistent()) ==> Consistent())
      ensures (State(), ok) == GetVariationsStep(old(State()), reply, asin)
    {
      FetchedWellFormed(reply);
      var r := GetVariationsStep(State(), reply, asin);
      Store(r.0);
      ok := r.1;
    }
  }

  // ---------------------------------------------------------------------------
  // The comparisons order products by `max_sales` alone.

  /** The five operators agree with each other: a total preorder by `max_sales`. */
  lemma ComparisonsAgree(a: KeepaProduct, b: KeepaProduct)
    requires a.maxSales.Some? && b.maxSales.Some?
    ensures a.Lt(b) <==> b.Gt(a)
    ensures a.Le(b) <==> b.Ge(a)
    ensures a.Le(b) <==> a.Lt(b) || a.Eq(b)
    ensures a.Ge(b) <==> a.Gt(b) || a.Eq(b)
    ensures a.Eq(b) <==> b.Eq(a)
    ensures a.Lt(b) || a.Eq(b) || a.Gt(b)
    ensures !(a.Lt(b) && a.Ge(b)) && !(a.Gt(b) && a.Le(b))
  {
  }

  lemma ComparisonsTransitive(a: KeepaProduct, b: KeepaProduct, c: KeepaProduct)
    requires a.maxSales.Some? && b.maxSales.Some? && c.maxSales.Some?
    ensures a.Le(b) && b.Le(c) ==> a.Le(c)
    ensures a.Lt(b) && b.Le(c) ==> a.Lt(c)
    ensures a.Eq(b) && b.Eq(c) ==> a.Eq(c)
  {
  }

  /** Two products with the same `max_sales` are equal whatever else differs. */
  lemma EqualityIsMaxSalesOnly(a: KeepaProduct, b: KeepaProduct)
    requires a.maxSales.Some? && b.maxSales.Some?
    ensures a.Eq(b) <==> a.maxSales == b.maxSales
  {
  }
}
