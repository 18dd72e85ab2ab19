# Keepa sales estimator: a verified model

This project models the core of a Streamlit app that estimates an Amazon
product's sales from Keepa data. The core is the `KeepaProduct` class. It
takes the product record that the Keepa client returns and rebuilds an
event-level sales history from it:

- the "new" price;
- the coupons, split into percentage and money parts;
- lightning deals;
- the sales rank;
- the effective ("final") price;
- the monthly-sold estimates, widened into a minimum and a maximum by a table of tiers.

From that history it builds:

- a per-minute grid;
- a collapsed "short history" that keeps only the minutes where something changes;
- a daily pivot;
- the totals of a trailing window: minimum, maximum and average sales, and mean prices;
- a monthly "YYYY-MM" summary;
- a date-by-date table of the monthly-sold estimates.

Two smaller parts are modelled too:

- the ASIN argument check of `KeepaService.get_product_info`;
- `get_product_details`, which summarises several products: current price, coupon discount and monthly sales.

The source has two copies of the class:

- `services/keepa_service.py` is the working pipeline.
- `sales_estimator_tab.py` is an older copy. It adds the comparison operators, `extract_from_products`, `get_variations` and `generate_monthly_summary`.

Both are modelled by the one class `KeepaService.KeepaProduct`. For the pipeline stages where the older copy raises, the working copy is the reference.

How the model maps the source:

- **Tables.** A pandas DataFrame is a `Frames.Table`: a set of columns and rows sorted by an integer index (Unix minute or day number). Each cell is an `Option<real>`, where `None` is NaN.
  - An outer merge is `Frames.MergeRows`, a sorted outer join.
  - `ffill` is `Frames.FFill`.
  - `pivot_table` with one index key is `Aggregates.PivotTable`: the groups' reductions (`Aggregates.Pivot`), then pandas' default `dropna=True`, which drops the rows and then the columns that hold no value.
  - pandas' null-skipping `sum`, `mean`, `min` and `max` are `Aggregates.SumSome`, `MeanSome`, `MinSome` and `MaxSome`.
- **The object.** The instance attributes that the methods change are gathered in the value `KeepaService.Product`.
  - Each pipeline method is a pure step function over that value, such as `PullSalesStep`.
  - The class method stores the step's result in its fields, so its `ensures` ties the new state to the step of the old state.
  - Each step re-runs the steps before it, as the Python methods do.
- **Time.** The wall clock (`pd.to_datetime("today")`) is the parameter `today`, a Unix minute. The Keepa client's reply is the constant `reply` of the object.

## Model

| member | source | states |
|---|---|---|
| Asins.Cleaned | services/keepa_service.py:25 | every kept piece is non-empty and neither starts nor ends with white space; there are never more pieces than went in |
| Asins.CleanedExactly | services/keepa_service.py:25 | an ASIN comes out exactly when it is the stripped text of some piece that is not blank |
| Asins.CleanedAppend | services/keepa_service.py:25 | clean-up keeps the order of the pieces: it distributes over concatenation |
| Asins.CleanedOne | services/keepa_service.py:25 | one piece is kept, stripped, exactly when it is not blank |
| Asins.CleanedCons | services/keepa_service.py:25 | clean-up of a list is that of its first piece followed by that of the rest |
| Asins.SplitAsinsExample | services/keepa_service.py:25 | `"A , B"` gives the ASINs `A` and `B`, in that order |
| Asins.PrepareAsins | services/keepa_service.py:22-27 | a missing API key is the "key not provided" error; a string is split on commas, stripped, and blank pieces dropped; an empty result is the "ASIN parameter is empty" error; success is never an empty list; a list passes through unchanged |
| Asins.CleanedPieces | services/keepa_service.py:25 | no cleaned piece contains a comma |
| Asins.SplitAsinsClean | services/keepa_service.py:25 | every ASIN of a string is non-empty, comma-free and has no surrounding white space |
| Asins.CleanedClean | services/keepa_service.py:25 | clean pieces pass through clean-up unchanged |
| Asins.JoinedListRoundTrip | services/keepa_service.py:24-27 | joining clean ASINs with commas and splitting again gives the list back, so the string and list forms of the argument give the same result |
| Asins.BlankPiecesVanish | services/keepa_service.py:25-27 | a string of commas and blanks gives no ASIN |
| Text.Split | services/keepa_service.py:25 | `str.split` returns at least one piece and no piece holds the separator |
| Text.JoinSplit | services/keepa_service.py:25 | joining the pieces of a split gives the text back |
| Text.SplitJoin | services/keepa_service.py:25 | splitting a join of separator-free pieces gives the pieces back |
| Text.Strip | services/keepa_service.py:25 | `str.strip` gives the contiguous piece of the input that starts where the leading white space ends, with only white space after it, and neither end of it is white space |
| Text.StripClean | services/keepa_service.py:25 | a string without surrounding white space is unchanged by `strip` |
| Text.NatText | sales_estimator_tab.py:389-391 | `str(n)` is a non-empty string of decimal digits |
| Text.ParseNatText | sales_estimator_tab.py:389-391 | reading `str(n)` back as decimal gives `n` |
| Text.NatTextInjective | sales_estimator_tab.py:389-391 | distinct numbers have distinct decimal texts |
| Text.ZFill | sales_estimator_tab.py:391 | `zfill(w)` is as wide as the larger of `w` and the text, ends with the text and is padded with '0' |
| Text.ParseNatZFill | sales_estimator_tab.py:391 | zero padding does not change a decimal value |
| KeepaTime.ConvertTime | services/keepa_service.py:127-133 | Keepa time 0 is "unknown"; any other time `t` is the instant `(t + 21564000) * 60000` ms |
| KeepaTime.ConvertTimeStrictlyIncreasing | services/keepa_service.py:127-133 | decoding is strictly increasing on real times, with exactly 60000 ms per Keepa minute |
| KeepaTime.ConvertTimeInjective | services/keepa_service.py:127-133 | distinct real Keepa times decode to distinct instants |
| KeepaTime.DayOf | services/keepa_service.py:330 | the date of a minute is the day that contains it |
| KeepaTime.WindowStart | services/keepa_service.py:298-299 | the grid starts at midnight of the day `today - days` falls on |
| KeepaTime.Civil | sales_estimator_tab.py:389-391 | the calendar date of a day number is a valid Gregorian date from 1970 on whose day number (days since 1970-01-01) is that day |
| KeepaTime.CivilOfDayNumber | sales_estimator_tab.py:389-391 | every valid date from 1970 on is the date of its own day number, so day numbers and dates correspond one to one |
| KeepaTime.Day2020IsNewYear | sales_estimator_tab.py:387 | day 18262 is 2020-01-01 and the day before it is 2019-12-31 |
| KeepaTime.From2020IsYear | sales_estimator_tab.py:387 | a day is on or after 2020-01-01 exactly when its calendar year is 2020 or later |
| KeepaTime.CivilMonotone | sales_estimator_tab.py:388-395 | later days never fall in earlier months |
| SalesTiers.ApplySalesTiers | services/keepa_service.py:135-139 | -1 gives 0; a floor in the table gives its ceiling; any other value gives 1.3 times itself |
| SalesTiers.TableCeilingsAbove | services/keepa_service.py:50-82 | every non-negative floor of the table maps to a strictly larger ceiling |
| SalesTiers.CeilingAtLeastFloor | services/keepa_service.py:135-139 | the estimated ceiling is never below a non-negative floor, and is strictly above a positive one |
| SalesTiers.TableIsBucketChain | services/keepa_service.py:50-82 | each floor's ceiling is the next floor; the last ceiling is 150000; -1 maps to 0 |
| Decoders.Triplets | services/keepa_service.py:173-181 | `coupons[::3]`, `[1::3]` and `[2::3]` zipped: triplet `i` is elements `3i`, `3i+1` and `3i+2` |
| Decoders.FlattenTriplets | services/keepa_service.py:173-181 | reading triplets loses nothing: flattening them gives the array back |
| Decoders.TripletsFlatten | services/keepa_service.py:173-181 | every triplet sequence is read back from its flattening |
| Decoders.Pairs | services/keepa_service.py:264-265 | `[::2]` zipped with `[1::2]`: pair `i` is elements `2i` and `2i+1`; an odd element at the end is unpaired |
| Decoders.FlattenPairs | services/keepa_service.py:264-265 | for an even-length array, reading pairs loses nothing |
| Decoders.FlattenPairsOdd | services/keepa_service.py:264-265 | for an odd-length array, only the final unpaired element is lost |
| Decoders.PairsFlatten | services/keepa_service.py:264-265 | every pair sequence is read back from its flattening |
| Decoders.SplitCode | services/keepa_service.py:174-187 | a code's "% off" part is never positive and its "$ off" part is never negative; at most one is non-zero; together they rebuild the code (`pct + 100 * dollars`) |
| Decoders.SplitCodeInjective | services/keepa_service.py:174-187 | distinct codes have distinct parts |
| Records.Fetched | services/keepa_service.py:119-125 | `query()` stores the client's records, or `[{}]` when the client raised |
| Records.EmptyRecordWellFormed | services/keepa_service.py:125 | the `{}` stand-in record is well formed and has no price history |
| Frames.Pad | services/keepa_service.py:201-203 | a padded row has exactly the missing columns added |
| Frames.MergeRows | services/keepa_service.py:201-203 | the outer join has at least as many rows as either side |
| Frames.MergeRowsSorted | services/keepa_service.py:201-203 | the merged index is sorted and unique |
| Frames.MergeRowsShaped | services/keepa_service.py:201-203 | every merged row has the columns of both sides |
| Frames.MergeRowsTimes | services/keepa_service.py:201-203 | the merged index is exactly the union of the two indexes |
| Frames.MergeWellFormed | services/keepa_service.py:201-203 | merging two well-formed tables with disjoint columns gives a well-formed table |
| Frames.MergeRowsKeepsLeftIndex | services/keepa_service.py:305-311 | merging rows whose times all occur on the left keeps the left index row for row, as a left join does |
| Frames.FFill | services/keepa_service.py:203 | `ffill` keeps the columns, the index and every row's column set |
| Frames.FFillWellFormed | services/keepa_service.py:203 | forward fill keeps a table well formed |
| Frames.FFillTimes | services/keepa_service.py:203 | forward fill keeps the set of times |
| Frames.PrefixIsUpTo | services/keepa_service.py:203 | in a sorted table, the rows up to row `i` are exactly the rows at or before its time |
| Frames.UpToMerge | services/keepa_service.py:201-203 | cutting a merge at a time is the merge of the two sides cut at that time |
| Frames.MergeLastSomeRight | services/keepa_service.py:201-203 | a merge does not change the last observation of a column only the right side has |
| Frames.MergeLastSomeLeft | services/keepa_service.py:201-203 | a merge does not change the last observation of a column only the left side has |
| Frames.MergeFillLatestRight | services/keepa_service.py:201-203 | after merge and `ffill`, each right-hand column holds that table's latest observation at or before the row's time |
| Frames.MergeFillLatestLeft | services/keepa_service.py:201-203 | the same for the left-hand columns |
| Frames.Replace | services/keepa_service.py:218 | `replace`/`fillna` keeps the columns, the index and every row's column set |
| Frames.ReplaceCell | services/keepa_service.py:218 | a replaced cell equal to `from` becomes `to`; every other cell is unchanged |
| Frames.ReplaceWellFormed | services/keepa_service.py:218 | replacement keeps a table well formed |
| Frames.FillNoneFills | services/keepa_service.py:218 | after `fillna(v)` no cell is missing, and present cells are unchanged |
| Aggregates.MinSomeIsMinimum | services/keepa_service.py:347-355 | the null-skipping min is present exactly when some value is; it is below every value and is one of them |
| Aggregates.MaxSomeIsMaximum | services/keepa_service.py:351 | the null-skipping max is present exactly when some value is; it is above every value and is one of them |
| Aggregates.SumSomeBounds | services/keepa_service.py:353-354 | a sum of present values each within `[lo, hi]` lies within count·lo and count·hi |
| Aggregates.CountSomeZero | services/keepa_service.py:346 | there are no present values exactly when the count is 0 |
| Aggregates.MeanWithin | services/keepa_service.py:346 | the mean of present values within `[lo, hi]` is present and within `[lo, hi]` |
| Aggregates.MeanBetweenMinAndMax | services/keepa_service.py:346-355 | mean, min and max are missing together, and the mean lies between the min and the max |
| Aggregates.SumSomeAppend | services/keepa_service.py:353-354 | the sum of a concatenation is the sum of the sums |
| Aggregates.SumSomeMonotone | services/keepa_service.py:395-396 | pointwise smaller present values give a smaller sum |
| Aggregates.RoundHalfEven | services/keepa_service.py:108 | rounding to an integer moves the value by at most 0.5, and a tie goes to the even neighbour |
| Aggregates.Round2 | services/keepa_service.py:108 | `round(x, 2)` is a whole number of cents within half a cent of `x`, and an exact half cent goes to the even number of cents |
| Aggregates.Round0 | sales_estimator_tab.py:407-409 | `round(x, 0)` is a whole number within 0.5 of `x`, and an exact half goes to the even neighbour (so the mean rank 1500.5 becomes 1500) |
| Aggregates.Round0HalfToEven | sales_estimator_tab.py:407-409 | the month mean of the daily ranks 1500 and 1501 rounds to 1500 |
| Aggregates.TruncInt | services/keepa_service.py:395-396 | `int(x)` truncates toward zero |
| Aggregates.Round2NonPositive | sales_estimator_tab.py:463 | rounding a non-positive amount to cents never makes it positive |
| Aggregates.TruncIntWhole | services/keepa_service.py:112 | `int()` of a whole number is that number |
| Aggregates.Runs | services/keepa_service.py:331-357 | the runs of equal keys are non-empty, consecutive runs have different keys, and concatenating them gives the rows back |
| Aggregates.RunsAreGroups | services/keepa_service.py:331-357 | for a key that grows along the rows, the run keys strictly increase and each run holds exactly the rows with its key |
| Aggregates.RunsCoverKeys | services/keepa_service.py:331-357 | every row's key is the key of some run |
| Aggregates.PivotIsGroupBy | services/keepa_service.py:331-357 | before `dropna`, the grouping is well formed with one row per key in increasing order; each cell is its column's reduction over exactly the rows with that key |
| Aggregates.PivotTable | services/keepa_service.py:331-357 | `pivot_table` keeps only columns of its aggregation map |
| Aggregates.PivotTableIsGroupBy | services/keepa_service.py:331-357 | with a sum among the reductions no row is dropped: one row per key in increasing order, each cell (a dropped column reading as null) its column's reduction over exactly the rows with that key |
| Aggregates.PivotTableColumns | services/keepa_service.py:331-357 | a column is kept exactly when it is aggregated and its reduction is present for some group |
| Aggregates.PivotKeepsColumn | services/keepa_service.py:331-357 | read off the input: a summed column is kept exactly when there is a row, any other column exactly when some row has a value in it |
| Aggregates.DropEmptyColumnsLosesNothing | services/keepa_service.py:331-357 | dropping the all-null columns keeps the table well formed and changes no cell's reading |
| Aggregates.DropEmptyRowsKeepsExactly | services/keepa_service.py:331-357 | a row survives `dropna` exactly when it is a row holding some value |
| Aggregates.AggregateSome | services/keepa_service.py:331-357 | a reduction is present exactly when it is a sum or some value is present |
| Pricing.FinalPriceOf | services/keepa_service.py:245-253 | the final-price formula is present exactly when all five inputs are |
| Pricing.DealOverrides | services/keepa_service.py:255 | a running deal (not 0) replaces the price; a 0 deal keeps the formula; a NaN deal makes the price NaN |
| Pricing.PercentAfterMoney | services/keepa_service.py:245-253 | $100 with 10 % off and $5 off costs $85.50: money discounts come first |
| Pricing.TenPercentCoupon | services/keepa_service.py:245-253 | $50 with a 10 % coupon costs $45.00 |
| Pricing.DiscountedBounds | services/keepa_service.py:245-253 | with admissible discounts the final price lies between 0 and the price less the money discounts |
| Pricing.DiscountedMonotone | services/keepa_service.py:245-253 | a deeper percentage discount gives a lower price |
| SalesHistory.PointsTable | services/keepa_service.py:158 | a decoded client series becomes a one-column table, row for row |
| SalesHistory.SalesTable | services/keepa_service.py:158-163 | the price table has only "full price" and one row per price point |
| SalesHistory.CouponTable | services/keepa_service.py:171-199 | one row per coupon triplet; without a coupon history, one all-zero row at the last sales date |
| SalesHistory.CouponRowsDecodeTriplets | services/keepa_service.py:171-193 | coupon row `i` is triplet `i`: its time decoded, and its parts rebuilding the discount code and the SNS code |
| SalesHistory.CouponStage | services/keepa_service.py:201-203 | the coupon merge adds the coupon columns and keeps every price row |
| SalesHistory.CouponsAreLatest | services/keepa_service.py:201-203 | after the coupon merge, each row holds the latest price and the latest coupon observation at or before its time |
| SalesHistory.LdTable | services/keepa_service.py:210-219 | the deal table has only the "LD" column |
| SalesHistory.DealStage | services/keepa_service.py:221-225 | the deal merge adds "LD" and keeps every earlier row |
| SalesHistory.DealsAreLatestOrZero | services/keepa_service.py:221-225 | after the deal merge, "LD" is the latest deal at or before the row's time, or 0; no cell of any column is missing |
| SalesHistory.BsrTable | services/keepa_service.py:232-241 | the rank table has only the "BSR" column |
| SalesHistory.WithFinalPrice | services/keepa_service.py:245-255 | every row gets a "final price": the discount formula, overridden by a running deal |
| SalesHistory.RankStage | services/keepa_service.py:242-256 | the rank merge adds "BSR" and "final price" and keeps every earlier row |
| SalesHistory.RankAndPriceAtRow | services/keepa_service.py:242-255 | after the rank merge, "BSR" is the latest rank at or before the row's time, and "final price" is the formula over the row's cells unless a deal runs |
| SalesHistory.MonthlyTable | services/keepa_service.py:262-276 | one row per (time, units) pair; without a history, one row at the last sales date whose -1 reads as 0 |
| SalesHistory.MonthlyRowBounds | services/keepa_service.py:273-276 | a reported floor of at least -1 gives 0 <= min <= max, and a missing estimate gives 0 and 0 |
| SalesHistory.MonthlyStage | services/keepa_service.py:278-284 | the monthly merge adds the two sold columns and keeps every earlier row |
| SalesHistory.MonthlyIsLatest | services/keepa_service.py:278-284 | after the monthly merge, the sold columns hold the latest monthly report at or before the row's time |
| SalesHistory.AfterMonthly | services/keepa_service.py:258-285 | the full history has exactly the ten columns of the pipeline and at least one row |
| SalesHistory.HistoryWellFormed | services/keepa_service.py:167-285 | every stage of the history is sorted, has unique times and full rows |
| SalesHistory.HistoryIndex | services/keepa_service.py:167-285 | the history's index is exactly the times some series reports, plus the last sales date |
| MinuteGrid.WithSalesRates | services/keepa_service.py:291-296 | "sales min" and "sales max" are the monthly estimates divided by 43200 minutes |
| MinuteGrid.RatesRecoverMonthlyUnits | services/keepa_service.py:291-296 | 43200 minutes at the rate give the month's units back |
| MinuteGrid.Skeleton | services/keepa_service.py:298-304 | `date_range(start, end, freq="min")` has one empty row per minute from start to end |
| MinuteGrid.Between | services/keepa_service.py:305-311 | the events a left join keeps are those whose times lie on the grid |
| MinuteGrid.GridIsEveryMinute | services/keepa_service.py:298-311 | the grid has exactly one row per minute from the window start to the latest event, and is well formed |
| MinuteGrid.GridCellIsLatest | services/keepa_service.py:305-311 | each grid cell is the latest event at or before its minute among the events on the grid |
| MinuteGrid.NullBlocked | services/keepa_service.py:312-314 | nulling blocked prices keeps the columns and the index |
| MinuteGrid.NullBlockedMeaning | services/keepa_service.py:312-314 | a row whose full price was -1 ends with no full and no final price; other rows keep their cells |
| MinuteGrid.DenseHistory | services/keepa_service.py:298-314 | the dense history has the history's columns and one row per grid minute |
| MinuteGrid.ChangeFlags | services/keepa_service.py:318-326 | flag `i` is the row-change test at row `i` |
| MinuteGrid.Collapse | services/keepa_service.py:316-328 | the short history keeps the grid's columns |
| MinuteGrid.CollapseKeepsChangingRows | services/keepa_service.py:316-328 | the short history is well formed and keeps a grid row exactly when `(sum − next) + (sum − prev) ≠ 0`, a missing neighbour counting 0 |
| MinuteGrid.KeptInOrder | services/keepa_service.py:326-328 | in a sorted table a row is kept exactly when its flag is set |
| MinuteGrid.CollapseDropsSteadyChange | services/keepa_service.py:323-326 | a row between neighbours whose sums lie on a straight line is dropped, although its sum differs from both |
| DailySales.EnsureColumn | services/keepa_service.py:358-363 | adding a column leaves the rows' index alone |
| DailySales.EnsureColumnMeaning | services/keepa_service.py:358-363 | a missing column is added as all-null, so the table stays well formed and no cell reads differently; a present column is left alone |
| DailySales.FormatNumbers | services/keepa_service.py:106-117 | formatting is row by row: prices rounded to cents, sales sums truncated to whole units |
| DailySales.DailyPivot | services/keepa_service.py:330-382 | the daily pivot always has the full price and the two sales columns, and only aggregated columns |
| DailySales.DailyPivotColumns | services/keepa_service.py:331-363 | an aggregated column is in the daily pivot exactly when it is one of the three added back or some minute of the grid has a value in it |
| DailySales.EmptyGridPivot | services/keepa_service.py:331-363 | an empty grid gives a pivot with no rows and only the three added-back columns |
| DailySales.DailyPivotShape | services/keepa_service.py:331-382 | the daily pivot has one row per group of the grid, with the group's date, and every row has exactly the table's columns |
| DailySales.DailyPivotIsGroupBy | services/keepa_service.py:330-382 | one row per date in increasing order; each cell of an aggregated column (a dropped one reading as null) is its column's mean, min, max or sum over exactly that date's minutes, formatted, with a zero shown as null |
| DailySales.DailyPivotHasNoZero | services/keepa_service.py:382 | no cell of the finished pivot is 0 |
| DailySales.DailySalesAreWhole | services/keepa_service.py:111-114 | the daily sales sums are whole numbers |
| DailySales.Since | services/keepa_service.py:390-393 | the window keeps only pivot rows dated on or after its first day |
| DailySales.SinceKeepsExactly | services/keepa_service.py:390-393 | a row is in the window exactly when it is a pivot row dated on or after the first day |
| DailySales.SinceWellFormed | services/keepa_service.py:390-393 | the window is sorted and has the pivot's columns |
| DailySales.WindowTotalsMeaning | services/keepa_service.py:395-400 | `avg_sales` is the midpoint of the two totals; each total is the truncated sum of the daily sums; the mean final price is present exactly when some final price is, and lies between the lowest and highest |
| DailySales.WindowTotalsMonotone | services/keepa_service.py:395-396 | daily minima below the daily maxima give `min_sales <= max_sales` |
| DailySales.WindowDayOfStart | services/keepa_service.py:390-393 | the grid's first minute falls on the window's first day |
| DailySales.WindowIsWholePivot | services/keepa_service.py:384-393 | since the grid starts at midnight of the first day, the window keeps every pivot row |
| Summaries.Estimated | services/keepa_service.py:423 | the kept pairs never have -1 units |
| Summaries.EstimatedKeepsExactly | services/keepa_service.py:423 | a pair is kept exactly when it is a pair of the array with units other than -1 |
| Summaries.HistoryByDate | services/keepa_service.py:411-430 | no history gives the empty table; otherwise one row per kept pair |
| Summaries.HistoryByDateRows | services/keepa_service.py:415-430 | every row has a real minimum and the tier ceiling as maximum; a row exists for a pair exactly when the pair is kept |
| Summaries.HistoryByDateAllMissing | services/keepa_service.py:423-425 | a history of only -1 estimates gives the empty table |
| Summaries.AverageBetweenMinAndMax | services/keepa_service.py:428 | `int(0.9·min + 0.1·max)` lies between the minimum and the ceiling |
| Summaries.MonthLabelParses | sales_estimator_tab.py:388-392 | a "YYYY-MM" label splits on '-' into the year and the month |
| Summaries.MonthLabelInjective | sales_estimator_tab.py:388-392 | two dates share a label exactly when they share year and month |
| Summaries.MonthKeyIsLabel | sales_estimator_tab.py:388-395 | grouping by the month number is grouping by the label |
| Summaries.From2020 | sales_estimator_tab.py:387 | the summary reads only days from 2020-01-01 on |
| Summaries.From2020Exactly | sales_estimator_tab.py:387 | a day is read exactly when it is a daily row dated 2020-01-01 or later |
| Summaries.From2020ByYear | sales_estimator_tab.py:387 | the summary reads a daily row exactly when its date falls in 2020 or later |
| Summaries.From2020Sorted | sales_estimator_tab.py:387 | the filtered days stay sorted |
| Summaries.MonthlySummaryIsGroupBy | sales_estimator_tab.py:385-409 | a stored summary has the five columns and one row per month in increasing order; prices and BSR are means and sales are sums over exactly the month's days from 2020 on, rounded |
| Summaries.MonthlySummaryOutcome | sales_estimator_tab.py:393-409 | `pivot_table` raises exactly when the daily pivot lacks one of the five columns; the summary is stored whole exactly when, besides, the days from 2020 on have some final price, full price and BSR |
| Summaries.MonthlySummaryRaised | sales_estimator_tab.py:393-409 | when a rounding selection raises, the month pivot is left stored, its prices rounded exactly when both price columns survived |
| Summaries.SummaryPivot | sales_estimator_tab.py:393-403 | the month pivot keeps only the five aggregated columns |
| Summaries.SummaryPivotIsGroupBy | sales_estimator_tab.py:385-403 | the month pivot is well formed and each cell is its column's reduction over exactly the month's days from 2020 on |
| Summaries.SummaryPivotColumns | sales_estimator_tab.py:393-403 | a summed column survives the month pivot exactly when there is a day from 2020 on, a mean column exactly when such a day has a value in it |
| Summaries.RoundedMeaning | sales_estimator_tab.py:404-409 | rounding keeps rows and columns, prices to cents and BSR and sales to whole numbers |
| Summaries.MonthGroupHasOneLabel | sales_estimator_tab.py:388-395 | the days grouped under a month carry its label and are not before 2020 |
| Summaries.SummaryWholeNumbers | sales_estimator_tab.py:407-409 | BSR and the sales sums come out as whole numbers |
| Summaries.MonthLabelsAsWrittenRaise | sales_estimator_tab.py:388-392 | the key expression as written raises for every input, even an empty summary |
| Summaries.MonthLabels | sales_estimator_tab.py:388-392 | the intended labels are the "YYYY-MM" labels of the days, element by element |
| Summaries.MonthLabelsIntendedAreLabels | sales_estimator_tab.py:388-392 | with `.str.zfill(2)` the expression never raises and yields the labels the summary groups by |
| Summaries.MonthLabelsCorrect | sales_estimator_tab.py:388-392 | the intended labels have a two-digit month and read back as the day's year and month |
| KeepaService.DenseWellFormed | services/keepa_service.py:287-314 | the dense history is well formed and its row `k` is minute `start + k` |
| KeepaService.LastDaysIsWholePivot | services/keepa_service.py:384-393 | the window `get_last_days` cuts is the whole daily pivot built for the same `days` |
| KeepaService.Matching | sales_estimator_tab.py:107-108 | the filter keeps only records of this ASIN and never adds any |
| KeepaService.MatchingExactly | sales_estimator_tab.py:107-108 | a record is kept exactly when it is a product with this ASIN |
| KeepaService.MatchingAppend | sales_estimator_tab.py:107-108 | filtering keeps the order: it distributes over concatenation |
| KeepaService.VariationAsins | sales_estimator_tab.py:132 | the set holds exactly the variations' ASINs |
| KeepaService.OwnAttributes | sales_estimator_tab.py:133-137 | the attributes exist exactly when some variation is this ASIN; they are those of the first such variation |
| KeepaService.Theme | sales_estimator_tab.py:138-140 | the theme's keys are exactly the attributes' dimensions |
| KeepaService.ThemeIsLastEntry | sales_estimator_tab.py:138-140 | each dimension maps to the value of its last entry |
| KeepaService.Loaded | services/keepa_service.py:119-125 | data already held is kept; otherwise the fetched records are stored |
| KeepaService.PullSalesStep | services/keepa_service.py:141-165 | loads the data; takes title, brand and parent from a non-empty first record; a non-empty price series marks the product existing, returns the price table and sets the last sales date; `exists` is never cleared, so for a consistent product it holds exactly when the series is non-empty; no history table changes |
| KeepaService.PullCouponsStep | services/keepa_service.py:167-204 | the state is that of `pull_sales`; an existing product gets its coupon-merged history; otherwise nothing is returned |
| KeepaService.PullLdsStep | services/keepa_service.py:206-226 | the state is that of `pull_sales`; an existing product gets its deal-merged history |
| KeepaService.PullBsrStep | services/keepa_service.py:228-256 | the state is that of `pull_sales`; an existing product gets its rank-merged, priced history |
| KeepaService.PullMonthlySoldStep | services/keepa_service.py:258-285 | an existing product gets the full history, also stored in `sales_history_monthly`; nothing else changes beyond `pull_sales` |
| KeepaService.GenerateDailySalesStep | services/keepa_service.py:287-382 | for an existing product: the full history, the collapsed short history and the daily pivot of the dense history from (today − days); otherwise the short history is `None` and the pivot is unchanged |
| KeepaService.GetLastDaysStep | services/keepa_service.py:384-400 | an existing product's window is the pivot rows from (today − days) on; min, max, average sales and full price are that window's totals, and the average price is too when the pivot has a final-price column and is otherwise kept; a product that does not exist keeps them all |
| KeepaService.AvgPriceNeedsFinalPrice | services/keepa_service.py:358-400 | `avg_price` becomes the window's mean final price exactly when some minute of the grid has a final price, and keeps its earlier value otherwise |
| KeepaService.GenerateMonthlySummaryStep | sales_estimator_tab.py:382-409 | daily sales over the initial window are generated only when there is no data; with data and a pivot, the stored summary is what the month pivot left before it raised (unchanged when its own `pivot_table` raises) or the rounded summary, and the flag is set exactly in the latter case; with data present it runs on any well-formed state |
| KeepaService.SummaryOfDailyPivot | sales_estimator_tab.py:393-403 | on a pivot `generate_daily_sales` built, the month `pivot_table` raises exactly when no minute had a final price or none had a sales rank |
| KeepaService.GetVariationsStep | sales_estimator_tab.py:124-140 | with a variation list, every variation's ASIN joins `variations`, and the theme is set from this ASIN's attributes exactly when some variation is this ASIN (the failing case is the `IndexError`); without one, nothing but the data changes |
| KeepaService.ExistsIffPriced | services/keepa_service.py:384-387 | after `get_last_days`, the product exists exactly when the first record has a price series |
| KeepaService.PullSalesIdempotent | services/keepa_service.py:141-165 | running `pull_sales` again changes nothing |
| KeepaService.GenerateDailySalesIdempotent | services/keepa_service.py:287-382 | generating the daily sales twice over the same window gives the state of one run |
| KeepaService.KeepaProduct.constructor | services/keepa_service.py:84-98 | a fresh product: no data, not existing, `avg_price` 0, no variations, initial window 360 days |
| KeepaService.KeepaProduct.Query | services/keepa_service.py:119-125 | fetches only when there is no data, storing the reply or `[{}]` |
| KeepaService.KeepaProduct.PullSales | services/keepa_service.py:141-165 | the new state and the result are `PullSalesStep` of the old state; well-formed records stay so, and a consistent product stays consistent |
| KeepaService.KeepaProduct.PullCoupons | services/keepa_service.py:167-204 | the new state and the result are `PullCouponsStep` of the old state |
| KeepaService.KeepaProduct.PullLds | services/keepa_service.py:206-226 | the new state and the result are `PullLdsStep` of the old state |
| KeepaService.KeepaProduct.PullBsr | services/keepa_service.py:228-256 | the new state and the result are `PullBsrStep` of the old state |
| KeepaService.KeepaProduct.PullMonthlySold | services/keepa_service.py:258-285 | the new state and the result are `PullMonthlySoldStep` of the old state |
| KeepaService.KeepaProduct.GenerateDailySales | services/keepa_service.py:287-382 | the new state is `GenerateDailySalesStep` of the old state |
| KeepaService.KeepaProduct.GetLastDays | services/keepa_service.py:384-400 | the new state is `GetLastDaysStep` of the old state |
| KeepaService.MonthlySummaryStepPivot | sales_estimator_tab.py:382-384 | with no data yet, a product that exists ends with the daily pivot of its first record over the initial window |
| KeepaService.KeepaProduct.GenerateMonthlySummary | sales_estimator_tab.py:382-409 | the new state is `GenerateMonthlySummaryStep` of the old state, over the initial window |
| KeepaService.KeepaProduct.GetSalesHistoryByDate | services/keepa_service.py:402-430 | loads the data if there is none; the table of an existing product's monthly-sold history, and the empty table for a product not marked existing |
| KeepaService.KeepaProduct.ExtractFromProducts | sales_estimator_tab.py:107-108 | the data becomes exactly the records with this ASIN, in order; a product not marked existing stays consistent |
| KeepaService.KeepaProduct.GetVariations | sales_estimator_tab.py:124-140 | the new state and the flag are `GetVariationsStep` of the old state; a consistent product stays consistent |
| KeepaService.ComparisonsAgree | sales_estimator_tab.py:66-79 | the five operators agree: `<` is the converse of `>`, `<=` is `<` or `==`, and any two products compare |
| KeepaService.ComparisonsTransitive | sales_estimator_tab.py:66-79 | `<=`, `<` and `==` are transitive |
| KeepaService.EqualityIsMaxSalesOnly | sales_estimator_tab.py:78-79 | two products are equal exactly when their `max_sales` are, whatever else differs |
| ProductDetails.LastPrice | sales_estimator_tab.py:457 | `dropna().iloc[-1]` exists exactly when some price is present; it is a present price with no present price after it |
| ProductDetails.DetailsOf | sales_estimator_tab.py:450-483 | an item copies brand and title and takes the last present price as its full price |
| ProductDetails.GetProductDetails | sales_estimator_tab.py:449-484 | the loop builds the dictionary of `DetailsMap` over all products |
| ProductDetails.DetailsMapKeys | sales_estimator_tab.py:449-452 | the dictionary has an entry for every product's ASIN and for nothing else |
| ProductDetails.DetailsMapLastWins | sales_estimator_tab.py:449-483 | the entry of an ASIN describes the last product with that ASIN |
| ProductDetails.NoCouponNoDiscount | sales_estimator_tab.py:458-460 | without a coupon (absent or empty), the discount is 0 |
| ProductDetails.DiscountIsSaving | sales_estimator_tab.py:458-465 | with a non-negative price, a non-zero first code gives a discount that is never positive; a percentage saves at most the price, to the cent; a money coupon saves exactly its cents; a first code of 0 leaves the coupon list in place |
| ProductDetails.PercentOffBounds | sales_estimator_tab.py:462-463 | `round(price·pct/100, 2)` of at most 100 % lies in `[−price − 0.005, 0]` |
| ProductDetails.TenPercentOfTwenty | sales_estimator_tab.py:462-463 | a 10 % coupon on $20.00 saves $2.00 |
| ProductDetails.CentsCoupon | sales_estimator_tab.py:464-465 | a coupon of 150 cents saves $1.50 |
| ProductDetails.MonthlySalesDefault | sales_estimator_tab.py:467-469 | absent monthly sales read as 0; a present figure is copied |

## Left out

- The network and caching. The HTTP request and streamlit caching of `get_product_info` (services/keepa_service.py:29-43) are not modelled; only its argument check is.
- The Keepa client. `query()` reads the constant `reply` of the object instead of calling the client. `get_products`, `get_tokens` and the token wait with `time.sleep` in `get_product_details` are calls into the client and the clock. So `GetProductDetails` takes the fetched records as its input.
- The wall clock is the parameter `today`.
- The "Not found" branch of `pull_sales` (services/keepa_service.py:144-145). `data` is modelled as a list of records, and no code in the core stores that string.
- Text built only for display:
  - the image URL (services/keepa_service.py:151-155, sales_estimator_tab.py:471-474);
  - the "image", "bulletpoints" and "description" entries of `get_product_details`;
  - `__str__`;
  - the "asin" column that `get_last_days` adds to `last_days`.
- The display-only post-processing of `short_history` (services/keepa_service.py:365-380). This is the "coupon" column and the LD and full-price nulling, and nothing downstream reads it. The model's short history is the collapsed grid.
- `self.data` being `None` versus `[]`: both are the empty sequence, because both are falsy and the code only tests falsiness.
- Floating point: prices and rates are exact reals. NaN is `None`, and `round`, `astype(int)` and `int()` are explicit helpers.
- The older copy's crashing stages. In sales_estimator_tab.py, `l.rename` (line 216) raises `NameError` and `pd.to_to_datetime` (line 297) raises `AttributeError`. From `pull_lds` on, those stages are modelled after the working copy instead.
- Records.WellFormedRecord: the model assumes the Keepa client returns records of a regular shape, and the pipeline requires it. It does not model what pandas does with other shapes:
  - a coupon array whose length is not a multiple of 3 (a length of 1 or 2 builds one all-NaN row);
  - a monthly-sold array of odd length (a length of 1 builds one all-NaN row);
  - unsorted or repeated times (the merges sort the index, and a repeated time gives one row per match), or a zero Keepa time.
- ProductDetails.GetProductDetails: requires every product to have a `df_NEW` series with a present price, because `.dropna().iloc[-1]` raises otherwise.
- KeepaService.KeepaProduct.ExtractFromProducts: requires every product to have an "asin" key, because `x["asin"]` raises otherwise.
- KeepaService.KeepaProduct.Lt, Le, Gt, Ge and Eq: require `max_sales` to be set on both products. `__init__` (sales_estimator_tab.py:52-64) never sets it, so comparing a product before `get_last_days` raises `AttributeError` (sales_estimator_tab.py:66-79).
- KeepaService.KeepaProduct.PullCoupons, PullLds, PullBsr, PullMonthlySold, GenerateDailySales and GetLastDays: require that a product marked existing has a priced first record once `query()` has loaded its data. The loaded data is the data held, or the client's reply when nothing is held. This is exactly the case in which `pull_coupons` does not raise. Otherwise `pull_sales` returns `None` while `exists` stays true, for instance after `extract_from_products` kept only an unpriced record, and `pull_coupons` then merges `None` and raises (services/keepa_service.py:201-203). That failure is not modelled. An existing product whose data is empty, for instance after `extract_from_products` matched nothing, is covered: it re-queries (services/keepa_service.py:119-125, 142-143), and the requirement is on the reply.
- KeepaService.KeepaProduct.GenerateMonthlySummary: requires the same only when there is no data yet, because only then does it run `generate_daily_sales` (sales_estimator_tab.py:383-384).
- KeepaService.KeepaProduct.GetSalesHistoryByDate: requires only that a product marked existing has some record once its data is loaded. Otherwise `self.data[0]` raises `IndexError` (services/keepa_service.py:406-410).
- The state-changing pipeline is a pure step function over `KeepaService.Product`, which the class stores into its fields. The in-place column assignments on DataFrames are new table values, so DataFrame aliasing between `short_history`, `sales_history_monthly` and the locals is not modelled.
- Secrets, configuration, the LLM service, the UI and the Netlify placeholder are outside the core.

## Findings

| source | as written | input that shows it | evidently intended | confidence | as-written member | corrected member |
|---|---|---|---|---|---|---|
| sales_estimator_tab.py:391 | `pd.to_datetime(summary.index).month.astype(str).zfill(2)` calls `zfill` on a pandas `Index`, which has no such method, so `generate_monthly_summary` raises `AttributeError` whenever it gets past its guard | any product with data and a pivot, even one whose pivot has no day from 2020 on | `.str.zfill(2)`, padding each month to two digits | high; not executed | Summaries.MonthLabelsAsWrittenRaise | Summaries.MonthLabelsIntendedAreLabels |
