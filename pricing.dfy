/**
 * The effective price of the sales history: money discounts first, then
 * percentage discounts (stored as negative percentages), and a running
 * lightning deal replacing the result.
 */
module Pricing {
  import opened Wrappers

  /** `(full − $off − SNS$) · (1 + %off/100) · (1 + SNS%/100)` on present values. */
  function Discounted(full: real, pct: real, dollar: real, snsPct: real, snsDollar: real): real {
    (full - dollar - snsDollar) * (1.0 + pct / 100.0) * (1.0 + snsPct / 100.0)
  }

  /** The same formula on cells: a missing (NaN) input makes the price missing. */
  function FinalPriceOf(full: Option<real>, pct: Option<real>, dollar: Option<real>,
                        snsPct: Option<real>, snsDollar: Option<real>): (r: Option<real>)
    ensures r.Some? <==> full.Some? && pct.Some? && dollar.Some? && snsPct.Some? && snsDollar.Some?
  {
    if full.Some? && pct.Some? && dollar.Some? && snsPct.Some? && snsDollar.Some? then
      Some(Discounted(full.value, pct.value, dollar.value, snsPct.value, snsDollar.value))
    else None
  }

  /**
   * `loc[LD != 0, "final price"] = LD`: every row whose deal cell is not 0 takes
   * the deal cell, and a missing deal counts as "not 0".
   */
  function WithDeal(price: Option<real>, ld: Option<real>): Option<real> {
    if ld != Some(0.0) then ld else price
  }

  /** A running deal decides the price; with no deal (0) the formula does; NaN stays NaN. */
  lemma DealOverrides(price: Option<real>, ld: Option<real>)
    ensures ld.Some? && ld.value != 0.0 ==> WithDeal(price, ld) == ld
    ensures ld == Some(0.0) ==> WithDeal(price, ld) == price
    ensures ld.None? ==> WithDeal(price, ld).None?
  {
  }

  /** 100 with 10 % off and $5 off costs 85.50. */
  lemma PercentAfterMoney()
    ensures Discounted(100.0, -10.0, 5.0, 0.0, 0.0) == 85.5
  {
  }

  /** 50 with a 10 % coupon costs 45.00. */
  lemma TenPercentCoupon()
    ensures FinalPriceOf(Some(50.0), Some(-10.0), Some(0.0), Some(0.0), Some(0.0)) == Some(45.0)
  {
  }

  /**
   * Discounts never raise the price: with non-negative money discounts that
   * do not exceed the price and percentages in [-100, 0], the result lies
   * between 0 and the price less the money discounts.
   */
  lemma DiscountedBounds(full: real, pct: real, dollar: real, snsPct: real, snsDollar: real)
    requires 0.0 <= dollar && 0.0 <= snsDollar && dollar + snsDollar <= full
    requires -100.0 <= pct <= 0.0 && -100.0 <= snsPct <= 0.0
    ensures 0.0 <= Discounted(full, pct, dollar, snsPct, snsDollar) <= full - dollar - snsDollar
  {
    var base := full - dollar - snsDollar;
    var a := 1.0 + pct / 100.0;
    var b := 1.0 + snsPct / 100.0;
    assert 0.0 <= a <= 1.0 && 0.0 <= b <= 1.0;
    ScaleDown(base, a);
    ScaleDown(base * a, b);
    assert Discounted(full, pct, dollar, snsPct, snsDollar) == (base * a) * b;
  }

  lemma ScaleDown(x: real, f: real)
    requires 0.0 <= x && 0.0 <= f <= 1.0
    ensures 0.0 <= x * f <= x
  {
    assert x * (1.0 - f) >= 0.0;
  }

  /** Deeper percentage discounts give a lower price. */
  lemma DiscountedMonotone(full: real, pct1: real, pct2: real, dollar: real, snsPct: real, snsDollar: real)
    requires full - dollar - snsDollar >= 0.0 && snsPct >= -100.0
    requires pct1 <= pct2
    ensures Discounted(full, pct1, dollar, snsPct, snsDollar) <= Discounted(full, pct2, dollar, snsPct, snsDollar)
  {
    var base := full - dollar - snsDollar;
    var b := 1.0 + snsPct / 100.0;
    assert base * (1.0 + pct1 / 100.0) <= base * (1.0 + pct2 / 100.0);
    assert b >= 0.0;
    assert (base * (1.0 + pct1 / 100.0)) * b <= (base * (1.0 + pct2 / 100.0)) * b;
  }
}
