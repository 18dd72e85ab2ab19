/**
 * `get_product_details`: one summary per fetched product, keyed by ASIN,
 * with the current price, the current coupon turned into a discount and the
 * monthly sales estimate. The Keepa client call and the token wait before it
 * are outside the model: the fetched records are the input.
 */
module ProductDetails {
  import opened Wrappers
  import opened Records
  import opened Aggregates
  import opened Pricing

  /**
   * The "discount" entry: an amount of money (negative for a saving), or the
   * raw coupon list, which the source leaves in place when its first code is 0.
   */
  datatype Discount = Amount(amount: real) | Codes(codes: seq<int>)

  /** The entries of one item that the model keeps. */
  datatype Details = Details(
    brand: Option<string>,
    title: Option<string>,
    fullPrice: real,
    discount: Discount,
    monthlySales: int)

  /** Some point of the series carries a price (`dropna()` leaves a row). */
  ghost predicate AnyPriced(ps: seq<Point>) {
    exists i :: 0 <= i < |ps| && ps[i].value.Some?
  }

  /**
   * The record has a `df_NEW` series with a price in it: without one,
   * `.dropna().iloc[-1]` (or the `.get` on a missing frame) raises.
   */
  ghost predicate Priced(r: Record) {
    r.newPrice.Some? && AnyPriced(r.newPrice.value)
  }

  /** `df.dropna().iloc[-1].values[0]`: the last value that is not NaN. */
  function LastPrice(ps: seq<Point>): (r: Option<real>)
    ensures r.Some? <==> AnyPriced(ps)
    ensures r.Some? ==> exists i :: 0 <= i < |ps| && ps[i].value == r
                                  && forall j :: i < j < |ps| ==> ps[j].value.None?
  {
    if |ps| == 0 then None
    else if ps[|ps| - 1].value.Some? then ps[|ps| - 1].value
    else
      var init := ps[..|ps| - 1];
      var r := LastPrice(init);
      assert forall i :: 0 <= i < |init| ==> init[i] == ps[i];
      if r.Some? then
        var i :| 0 <= i < |init| && init[i].value == r
                 && forall j :: i < j < |init| ==> init[j].value.None?;
        assert ps[i].value == r && forall j :: i < j < |ps| ==> ps[j].value.None?;
        r
      else r
  }

  /** `round(price * pct / 100, 2)`: a percentage of the price, to the cent. */
  function PercentOff(price: real, pct: int): real {
    Round2(price * pct as real / 100.0)
  }

  /**
   * The coupon rule: no coupon (absent or empty) is a discount of 0; a
   * negative first code is a percentage of the price, rounded to cents; a
   * positive one is an amount in cents, turned into a negative dollar amount;
   * a first code of 0 leaves the coupon list as it was.
   */
  function CouponDiscount(price: real, coupon: Option<seq<int>>): Discount {
    if !Present(coupon) then Amount(0.0)
    else
      var c := coupon.value[0];
      if c < 0 then Amount(PercentOff(price, c))
      else if c > 0 then Amount(-(c as real) / 100.0)
      else Codes(coupon.value)
  }

  /** `monthlySold`, with 0 when it is absent (or 0). */
  function MonthlySales(sold: Option<int>): int {
    if sold.Some? then sold.value else 0
  }

  /** The summary of one product. */
  function DetailsOf(r: Record): (d: Details)
    requires Priced(r)
    ensures d.brand == r.brand && d.title == r.title
    ensures Some(d.fullPrice) == LastPrice(r.newPrice.value)
  {
    var price := LastPrice(r.newPrice.value).value;
    Details(r.brand, r.title, price, CouponDiscount(price, r.coupon), MonthlySales(r.monthlySold))
  }

  /** The `items` dictionary after the products so far: a later ASIN overwrites an earlier one. */
  ghost function DetailsMap(ps: seq<Record>): map<Option<string>, Details>
    requires forall i :: 0 <= i < |ps| ==> Priced(ps[i])
  {
    if |ps| == 0 then map[]
    else DetailsMap(ps[..|ps| - 1])[ps[|ps| - 1].asin := DetailsOf(ps[|ps| - 1])]
  }

  /** The loop over the fetched products, one item entry per product. */
  method GetProductDetails(products: seq<Record>) returns (items: map<Option<string>, Details>)
    requires forall i :: 0 <= i < |products| ==> Priced(products[i])
    ensures items == DetailsMap(products)
  {
    items := map[];
    var i := 0;
    while i < |products|
      invariant 0 <= i <= |products|
      invariant items == DetailsMap(products[..i])
    {
      var p := products[i];
      var price := LastPrice(p.newPrice.value).value;
      var coupon: Discount;
      if !Present(p.coupon) {
        coupon := Amount(0.0);
      } else if p.coupon.value[0] < 0 {
        coupon := Amount(PercentOff(price, p.coupon.value[0]));
      } else if p.coupon.value[0] > 0 {
        coupon := Amount(-(p.coupon.value[0] as real) / 100.0);
      } else {
        coupon := Codes(p.coupon.value);
      }
      assert coupon == CouponDiscount(price, p.coupon);
      var sales := if p.monthlySold.Some? then p.monthlySold.value else 0;
      assert Details(p.brand, p.title, price, coupon, sales) == DetailsOf(p);
      items := items[p.asin := Details(p.brand, p.title, price, coupon, sales)];
      assert products[..i + 1][..i] == products[..i];
      assert products[..i + 1][i] == p;
      i := i + 1;
    }
    assert products[..i] == products;
  }

  /** Every fetched product's ASIN has an entry, and nothing else does. */
  lemma {:induction false} DetailsMapKeys(ps: seq<Record>)
    requires forall i :: 0 <= i < |ps| ==> Priced(ps[i])
    ensures DetailsMap(ps).Keys == set i | 0 <= i < |ps| :: ps[i].asin
  {
    if |ps| > 0 {
      var init := ps[..|ps| - 1];
      DetailsMapKeys(init);
      assert forall i :: 0 <= i < |init| ==> init[i] == ps[i];
      var s := set i | 0 <= i < |ps| :: ps[i].asin;
      var s0 := set i | 0 <= i < |init| :: init[i].asin;
      assert s == s0 + {ps[|ps| - 1].asin} by {
        forall k | k in s ensures k in s0 + {ps[|ps| - 1].asin} {
          var i :| 0 <= i < |ps| && ps[i].asin == k;
          if i < |init| { assert init[i].asin == k; }
        }
      }
    }
  }

  /** The entry of an ASIN describes the LAST product with that ASIN. */
  lemma {:induction false} DetailsMapLastWins(ps: seq<Record>, i: int)
    requires forall j :: 0 <= j < |ps| ==> Priced(ps[j])
    requires 0 <= i < |ps|
    requires forall j :: i < j < |ps| ==> ps[j].asin != ps[i].asin
    ensures ps[i].asin in DetailsMap(ps)
    ensures DetailsMap(ps)[ps[i].asin] == DetailsOf(ps[i])
  {
    if i < |ps| - 1 {
      var init := ps[..|ps| - 1];
      assert forall j :: 0 <= j < |init| ==> init[j] == ps[j];
      DetailsMapLastWins(init, i);
    }
  }

  /** Without a coupon the discount is 0, whatever the price. */
  lemma NoCouponNoDiscount(r: Record)
    requires Priced(r)
    requires r.coupon.None? || r.coupon == Some([])
    ensures DetailsOf(r).discount == Amount(0.0)
  {
  }

  /**
   * The discount is never a surcharge: with a non-negative price, a
   * percentage coupon (first code in [-100, 0)) saves at most the price, to
   * the cent, and a money coupon saves exactly its cents.
   */
  lemma {:induction false} DiscountIsSaving(price: real, coupon: seq<int>)
    requires 0.0 <= price && |coupon| > 0
    requires -100 <= coupon[0]
    ensures coupon[0] != 0 ==> CouponDiscount(price, Some(coupon)).Amount?
    ensures coupon[0] != 0 ==> CouponDiscount(price, Some(coupon)).amount <= 0.0
    ensures coupon[0] < 0 ==> -price - 0.005 <= CouponDiscount(price, Some(coupon)).amount
    ensures coupon[0] > 0 ==> CouponDiscount(price, Some(coupon)).amount * 100.0 == -(coupon[0] as real)
    ensures coupon[0] == 0 ==> CouponDiscount(price, Some(coupon)) == Codes(coupon)
  {
    if coupon[0] < 0 {
      PercentOffBounds(price, coupon[0]);
    }
  }

  /** A percentage of at most 100 of a non-negative price lies in [-price, 0], to the cent. */
  lemma PercentOffBounds(price: real, pct: int)
    requires 0.0 <= price && -100 <= pct < 0
    ensures -price - 0.005 <= PercentOff(price, pct) <= 0.0
  {
    var x := price * pct as real / 100.0;
    var f := -(pct as real) / 100.0;
    assert 0.0 <= f <= 1.0;
    ScaleDown(price, f);
    assert x == -(price * f);
    assert -price <= x;
    Round2NonPositive(x);
    var r := Round2(x);
    assert x - 0.005 <= r;
    assert PercentOff(price, pct) == r;
  }

  /** A percentage coupon of 10 on a price of 20.00 saves 2.00. */
  lemma TenPercentOfTwenty()
    ensures CouponDiscount(20.0, Some([-10])) == Amount(-2.0)
  {
    assert 20.0 * (-10) as real / 100.0 == -2.0;
    assert RoundHalfEven(-200.0) == -200;
  }

  /** A money coupon of 150 cents saves 1.50. */
  lemma CentsCoupon()
    ensures CouponDiscount(20.0, Some([150, 7])) == Amount(-1.5)
  {
  }

  /** Absent monthly sales read as 0; a present figure is copied. */
  lemma MonthlySalesDefault(r: Record)
    requires Priced(r)
    ensures r.monthlySold.None? ==> DetailsOf(r).monthlySales == 0
    ensures r.monthlySold.Some? ==> DetailsOf(r).monthlySales == r.monthlySold.value
  {
  }
}
