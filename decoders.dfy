/**
 * Decoding of Keepa's flat integer arrays: the coupon history is read as
 * (time, discount code, subscribe-and-save code) triplets, the monthly-sold
 * history as (time, units) pairs, and each discount code is split into its
 * percentage and money parts.
 */
module Decoders {

  // ---------------------------------------------------------------------------
  // Triplets: `xs[::3]`, `xs[1::3]`, `xs[2::3]` zipped together.

  function Triplets(xs: seq<int>): (r: seq<(int, int, int)>)
    requires |xs| % 3 == 0
    ensures 3 * |r| == |xs| && |r| == |xs| / 3
    ensures forall i :: 0 <= i < |r| ==> r[i] == (xs[3 * i], xs[3 * i + 1], xs[3 * i + 2])
  {
    if |xs| < 3 then []
    else
      var rest := Triplets(xs[3..]);
      var r := [(xs[0], xs[1], xs[2])] + rest;
      assert forall i :: 1 <= i < |r| ==> r[i] == rest[i - 1];
      r
  }

  function Flatten3(ts: seq<(int, int, int)>): (xs: seq<int>)
    ensures |xs| == 3 * |ts|
  {
    if |ts| == 0 then [] else [ts[0].0, ts[0].1, ts[0].2] + Flatten3(ts[1..])
  }

  /** Reading triplets loses nothing: flattening them gives the array back. */
  lemma {:induction false} FlattenTriplets(xs: seq<int>)
    requires |xs| % 3 == 0
    ensures Flatten3(Triplets(xs)) == xs
    decreases |xs|
  {
    if |xs| > 0 {
      FlattenTriplets(xs[3..]);
      assert xs == xs[..3] + xs[3..];
    }
  }

  /** And every sequence of triplets is read back from its flattening. */
  lemma {:induction false} TripletsFlatten(ts: seq<(int, int, int)>)
    ensures Triplets(Flatten3(ts)) == ts
  {
    if |ts| > 0 {
      TripletsFlatten(ts[1..]);
      assert Flatten3(ts)[3..] == Flatten3(ts[1..]);
    }
  }

  // ---------------------------------------------------------------------------
  // Pairs: `xs[::2]` zipped with `xs[1::2]` (zip stops at the shorter one).

  function Pairs(xs: seq<int>): (r: seq<(int, int)>)
    ensures (|xs| == 2 * |r| || |xs| == 2 * |r| + 1) && |r| == |xs| / 2
    ensures forall i :: 0 <= i < |r| ==> r[i] == (xs[2 * i], xs[2 * i + 1])
  {
    if |xs| < 2 then []
    else
      var rest := Pairs(xs[2..]);
      var r := [(xs[0], xs[1])] + rest;
      assert forall i :: 1 <= i < |r| ==> r[i] == rest[i - 1];
      r
  }

  function Flatten2(ps: seq<(int, int)>): (xs: seq<int>)
    ensures |xs| == 2 * |ps|
  {
    if |ps| == 0 then [] else [ps[0].0, ps[0].1] + Flatten2(ps[1..])
  }

  /** For an even-length array, reading pairs loses nothing. */
  lemma {:induction false} FlattenPairs(xs: seq<int>)
    requires |xs| % 2 == 0
    ensures Flatten2(Pairs(xs)) == xs
    decreases |xs|
  {
    if |xs| > 0 {
      FlattenPairs(xs[2..]);
      assert xs == xs[..2] + xs[2..];
    }
  }

  /** For an odd-length array, only the final unpaired time is lost. */
  lemma {:induction false} FlattenPairsOdd(xs: seq<int>)
    requires |xs| % 2 == 1
    ensures Flatten2(Pairs(xs)) == xs[..|xs| - 1]
  {
    FlattenPairs(xs[..|xs| - 1]);
    PairsDropLast(xs);
  }

  lemma {:induction false} PairsDropLast(xs: seq<int>)
    requires |xs| % 2 == 1
    ensures Pairs(xs) == Pairs(xs[..|xs| - 1])
    decreases |xs|
  {
    if |xs| > 1 {
      PairsDropLast(xs[2..]);
      assert xs[..|xs| - 1][2..] == xs[2..][..|xs| - 3];
    }
  }

  lemma {:induction false} PairsFlatten(ps: seq<(int, int)>)
    ensures Pairs(Flatten2(ps)) == ps
  {
    if |ps| > 0 {
      PairsFlatten(ps[1..]);
      assert Flatten2(ps)[2..] == Flatten2(ps[1..]);
    }
  }

  // ---------------------------------------------------------------------------
  // Discount codes: a negative code is a percentage off, a positive one an
  // amount off in cents.

  /**
   * The "% off" and "$ off" parts of one code. The percentage is never
   * positive, the amount never negative, at most one of them is non-zero,
   * and together they give the code back.
   */
  function SplitCode(code: int): (r: (real, real))
    ensures r.0 <= 0.0 <= r.1
    ensures r.0 == 0.0 || r.1 == 0.0
    ensures code as real == r.0 + 100.0 * r.1
  {
    (if code < 0 then code as real else 0.0, if code > 0 then code as real / 100.0 else 0.0)
  }

  /** Distinct codes have distinct parts. */
  lemma SplitCodeInjective(a: int, b: int)
    requires SplitCode(a) == SplitCode(b)
    ensures a == b
  {
  }
}
