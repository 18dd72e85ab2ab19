/**
 * The product record the Keepa client returns, reduced to the keys the core
 * reads. A key that may be absent is an `Option`; the client's decoded
 * series (`data["df_NEW"]`, `data["df_LIGHTNING_DEAL"]`, `data["df_SALES"]`)
 * are lists of points indexed by Unix minute, with `None` for NaN.
 */
module Records {
  import opened Wrappers
  import opened Decoders

  datatype Point = Point(t: int, value: Option<real>)

  /** One entry of a variation's "attributes" list. */
  datatype Attribute = Attribute(dimension: string, value: string)

  /** One entry of the "variations" list. */
  datatype Variation = Variation(asin: string, attributes: seq<Attribute>)

  datatype Record = Record(
    asin: Option<string>,
    title: Option<string>,
    brand: Option<string>,
    parentAsin: Option<string>,
    newPrice: Option<seq<Point>>,          // data["df_NEW"]
    lightningDeal: Option<seq<Point>>,     // data["df_LIGHTNING_DEAL"]
    salesRank: Option<seq<Point>>,         // data["df_SALES"]
    couponHistory: Option<seq<int>>,       // flat (time, code, SNS code) triplets
    monthlySoldHistory: Option<seq<int>>,  // flat (time, units) pairs
    variations: Option<seq<Variation>>,
    coupon: Option<seq<int>>,              // current coupon codes
    monthlySold: Option<int>)

  /** The `{}` that stands in for a record when the client raised. */
  const EmptyRecord: Record :=
    Record(None, None, None, None, None, None, None, None, None, None, None, None)

  /** The price series, empty when absent (`.get("df_NEW", pd.DataFrame())`). */
  function NewPrice(r: Record): seq<Point> {
    if r.newPrice.Some? then r.newPrice.value else []
  }

  /** The record has price history: the product exists for the model. */
  predicate HasSales(r: Record) {
    |NewPrice(r)| > 0
  }

  /** Falsy in Python: missing or empty; both make the pipeline skip a series. */
  predicate Present(xs: Option<seq<int>>) {
    xs.Some? && |xs.value| > 0
  }

  ghost predicate PointsSorted(ps: seq<Point>) {
    forall i, j :: 0 <= i < j < |ps| ==> ps[i].t < ps[j].t
  }

  ghost predicate SeriesSorted(s: Option<seq<Point>>) {
    s.Some? ==> PointsSorted(s.value)
  }

  /** Keepa times that decode to distinct, increasing instants (0 decodes to "unknown"). */
  ghost predicate KeepaTimesValid(ts: seq<int>) {
    (forall i :: 0 <= i < |ts| ==> ts[i] != 0)
    && (forall i, j :: 0 <= i < j < |ts| ==> ts[i] < ts[j])
  }

  function TripletTimes(cs: seq<int>): (ts: seq<int>)
    requires |cs| % 3 == 0
    ensures |ts| == |cs| / 3
  {
    var tr := Triplets(cs);
    seq(|tr|, i requires 0 <= i < |tr| => tr[i].0)
  }

  function PairTimes(ms: seq<int>): (ts: seq<int>)
    ensures |ts| == |ms| / 2
  {
    var pr := Pairs(ms);
    seq(|pr|, i requires 0 <= i < |pr| => pr[i].0)
  }

  /**
   * What the pipeline needs of a record to run without raising: the coupon
   * array splits into whole triplets and the monthly array into whole pairs
   * (pandas rejects an index whose length differs from the data's), and all
   * times are valid and increasing.
   */
  ghost predicate WellFormedRecord(r: Record) {
    SeriesSorted(r.newPrice) && SeriesSorted(r.lightningDeal) && SeriesSorted(r.salesRank)
    && (Present(r.couponHistory) ==>
          |r.couponHistory.value| % 3 == 0 && KeepaTimesValid(TripletTimes(r.couponHistory.value)))
    && (Present(r.monthlySoldHistory) ==>
          |r.monthlySoldHistory.value| % 2 == 0 && KeepaTimesValid(PairTimes(r.monthlySoldHistory.value)))
  }

  /** What the Keepa client's query returns, or that it raised. */
  datatype Reply = Records(records: seq<Record>) | Raised

  /** The data `query()` stores: the client's records, or `[{}]` when it raised. */
  function Fetched(reply: Reply): (data: seq<Record>)
    ensures reply.Raised? ==> data == [EmptyRecord]
    ensures reply.Records? ==> data == reply.records
  {
    match reply
    case Records(rs) => rs
    case Raised => [EmptyRecord]
  }

  ghost predicate WellFormedReply(reply: Reply) {
    reply.Records? ==> forall i :: 0 <= i < |reply.records| ==> WellFormedRecord(reply.records[i])
  }

  lemma EmptyRecordWellFormed()
    ensures WellFormedRecord(EmptyRecord)
    ensures !HasSales(EmptyRecord)
  {
  }
}
