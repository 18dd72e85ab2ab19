/**
 * The reductions pandas applies when aggregating a column: sum, mean, min and
 * max that skip missing values, rounding, integer truncation, and grouping of
 * a sorted table by a key of its index (pivot_table with one index key).
 */
module Aggregates {
  import opened Wrappers
  import opened Frames

  // ---------------------------------------------------------------------------
  // Reductions that skip missing values.

  /** pandas `sum`: the sum of the present values; 0 when there are none. */
  function SumSome(xs: seq<Option<real>>): real {
    if |xs| == 0 then 0.0 else SumSome(xs[..|xs| - 1]) + xs[|xs| - 1].GetOr(0.0)
  }

  function CountSome(xs: seq<Option<real>>): nat {
    if |xs| == 0 then 0 else CountSome(xs[..|xs| - 1]) + (if xs[|xs| - 1].Some? then 1 else 0)
  }

  /** pandas `mean`: the mean of the present values; missing when there are none. */
  function MeanSome(xs: seq<Option<real>>): Option<real> {
    if CountSome(xs) == 0 then None else Some(SumSome(xs) / CountSome(xs) as real)
  }

  /** pandas `min`: the least present value; missing when there are none. */
  function MinSome(xs: seq<Option<real>>): Option<real> {
    if |xs| == 0 then None
    else
      var m := MinSome(xs[..|xs| - 1]);
      var x := xs[|xs| - 1];
      if x.None? then m
      else if m.None? || x.value < m.value then x
      else m
  }

  /** pandas `max`: the greatest present value; missing when there are none. */
  function MaxSome(xs: seq<Option<real>>): Option<real> {
    if |xs| == 0 then None
    else
      var m := MaxSome(xs[..|xs| - 1]);
      var x := xs[|xs| - 1];
      if x.None? then m
      else if m.None? || x.value > m.value then x
      else m
  }

  ghost predicate HasSome(xs: seq<Option<real>>) {
    exists i :: 0 <= i < |xs| && xs[i].Some?
  }

  /** The minimum is present exactly when some value is, is below every value and is one of them. */
  lemma {:induction false} MinSomeIsMinimum(xs: seq<Option<real>>)
    ensures MinSome(xs).Some? <==> HasSome(xs)
    ensures forall i :: 0 <= i < |xs| && xs[i].Some? ==> MinSome(xs).value <= xs[i].value
    ensures MinSome(xs).Some? ==> exists i :: 0 <= i < |xs| && xs[i] == MinSome(xs)
  {
    if |xs| > 0 {
      var p := xs[..|xs| - 1];
      MinSomeIsMinimum(p);
      assert forall i :: 0 <= i < |p| ==> xs[i] == p[i];
      if MinSome(p).Some? {
        var i :| 0 <= i < |p| && p[i] == MinSome(p);
        assert xs[i] == MinSome(p);
      }
    }
  }

  /** The maximum is present exactly when some value is, is above every value and is one of them. */
  lemma {:induction false} MaxSomeIsMaximum(xs: seq<Option<real>>)
    ensures MaxSome(xs).Some? <==> HasSome(xs)
    ensures forall i :: 0 <= i < |xs| && xs[i].Some? ==> MaxSome(xs).value >= xs[i].value
    ensures MaxSome(xs).Some? ==> exists i :: 0 <= i < |xs| && xs[i] == MaxSome(xs)
  {
    if |xs| > 0 {
      var p := xs[..|xs| - 1];
      MaxSomeIsMaximum(p);
      assert forall i :: 0 <= i < |p| ==> xs[i] == p[i];
      if MaxSome(p).Some? {
        var i :| 0 <= i < |p| && p[i] == MaxSome(p);
        assert xs[i] == MaxSome(p);
      }
    }
  }

  lemma {:induction false} SumSomeBounds(xs: seq<Option<real>>, lo: real, hi: real)
    requires forall i :: 0 <= i < |xs| && xs[i].Some? ==> lo <= xs[i].value <= hi
    ensures CountSome(xs) as real * lo <= SumSome(xs) <= CountSome(xs) as real * hi
  {
    if |xs| > 0 {
      var p := xs[..|xs| - 1];
      assert forall i :: 0 <= i < |p| ==> xs[i] == p[i];
      SumSomeBounds(p, lo, hi);
      var n := CountSome(p) as real;
      var s := SumSome(p);
      if xs[|xs| - 1].Some? {
        var v := xs[|xs| - 1].value;
        assert lo <= v <= hi;
        assert SumSome(xs) == s + v;
        assert CountSome(xs) as real == n + 1.0;
        assert (n + 1.0) * lo == n * lo + lo;
        assert (n + 1.0) * hi == n * hi + hi;
      } else {
        assert SumSome(xs) == s && CountSome(xs) as real == n;
      }
    }
  }

  lemma {:induction false} CountSomeZero(xs: seq<Option<real>>)
    ensures CountSome(xs) == 0 <==> !HasSome(xs)
  {
    if |xs| > 0 {
      var p := xs[..|xs| - 1];
      assert forall i :: 0 <= i < |p| ==> xs[i] == p[i];
      CountSomeZero(p);
      if HasSome(xs) && !xs[|xs| - 1].Some? {
        var i :| 0 <= i < |xs| && xs[i].Some?;
        assert p[i].Some?;
      }
    }
  }

  lemma DivBetween(s: real, n: real, lo: real, hi: real)
    requires n > 0.0 && n * lo <= s <= n * hi
    ensures lo <= s / n <= hi
  {
    assert (s / n) * n == s;
  }

  lemma MeanWithin(xs: seq<Option<real>>, lo: real, hi: real)
    requires CountSome(xs) > 0
    requires forall i :: 0 <= i < |xs| && xs[i].Some? ==> lo <= xs[i].value <= hi
    ensures MeanSome(xs).Some? && lo <= MeanSome(xs).value <= hi
  {
    SumSomeBounds(xs, lo, hi);
    DivBetween(SumSome(xs), CountSome(xs) as real, lo, hi);
  }

  /** The mean lies between the minimum and the maximum, and all three are missing together. */
  lemma MeanBetweenMinAndMax(xs: seq<Option<real>>)
    ensures MeanSome(xs).Some? <==> MinSome(xs).Some?
    ensures MinSome(xs).Some? <==> MaxSome(xs).Some?
    ensures MeanSome(xs).Some? ==> MinSome(xs).value <= MeanSome(xs).value <= MaxSome(xs).value
  {
    MinSomeIsMinimum(xs);
    MaxSomeIsMaximum(xs);
    CountSomeZero(xs);
    if HasSome(xs) {
      MeanWithin(xs, MinSome(xs).value, MaxSome(xs).value);
    }
  }

  /** Summing two pieces separately gives the sum of the whole. */
  lemma {:induction false} SumSomeAppend(xs: seq<Option<real>>, ys: seq<Option<real>>)
    ensures SumSome(xs + ys) == SumSome(xs) + SumSome(ys)
    decreases |ys|
  {
    if |ys| == 0 {
      assert xs + ys == xs;
    } else {
      var ys' := ys[..|ys| - 1];
      assert (xs + ys)[..|xs + ys| - 1] == xs + ys';
      assert (xs + ys)[|xs + ys| - 1] == ys[|ys| - 1];
      SumSomeAppend(xs, ys');
    }
  }

  /** pandas `sum` is monotone: pointwise smaller present values give a smaller sum. */
  lemma {:induction false} SumSomeMonotone(xs: seq<Option<real>>, ys: seq<Option<real>>)
    requires |xs| == |ys|
    requires forall i :: 0 <= i < |xs| ==> xs[i].GetOr(0.0) <= ys[i].GetOr(0.0)
    ensures SumSome(xs) <= SumSome(ys)
  {
    if |xs| > 0 {
      var n := |xs| - 1;
      assert forall i :: 0 <= i < n ==> xs[..n][i] == xs[i] && ys[..n][i] == ys[i];
      SumSomeMonotone(xs[..n], ys[..n]);
    }
  }

  // ---------------------------------------------------------------------------
  // Rounding and truncation.

  /** Python's `round`/numpy's `round` to an integer: halves go to the even neighbour. */
  function RoundHalfEven(x: real): (r: int)
    ensures x - 0.5 <= r as real <= x + 0.5
    ensures r as real == x + 0.5 ==> r % 2 == 0
    ensures r as real == x - 0.5 ==> r % 2 == 0
  {
    var f := x.Floor;
    var frac := x - f as real;
    if frac < 0.5 then f
    else if frac > 0.5 then f + 1
    else if f % 2 == 0 then f else f + 1
  }

  /** `round(x, 2)`: the nearest whole number of cents, a half cent going to the even neighbour. */
  function Round2(x: real): (r: real)
    ensures x - 0.005 <= r <= x + 0.005
    ensures r * 100.0 == (r * 100.0).Floor as real
    ensures r * 100.0 == x * 100.0 + 0.5 ==> (r * 100.0).Floor % 2 == 0
    ensures r * 100.0 == x * 100.0 - 0.5 ==> (r * 100.0).Floor % 2 == 0
  {
    var cents := RoundHalfEven(x * 100.0);
    var r := cents as real / 100.0;
    assert r * 100.0 == cents as real;
    assert (r * 100.0).Floor == cents;
    r
  }

  /** `round(x, 0)`: the nearest whole number, a half going to the even neighbour. */
  function Round0(x: real): (r: real)
    ensures x - 0.5 <= r <= x + 0.5
    ensures r == r.Floor as real
    ensures r == x + 0.5 ==> r.Floor % 2 == 0
    ensures r == x - 0.5 ==> r.Floor % 2 == 0
  {
    RoundHalfEven(x) as real
  }

  /** The mean of the ranks 1500 and 1501 rounds down to the even 1500. */
  lemma Round0HalfToEven()
    ensures Round0((1500.0 + 1501.0) / 2.0) == 1500.0
  {
  }

  /** Python's `int(x)`: truncation toward zero. */
  function TruncInt(x: real): (r: int)
    ensures x >= 0.0 ==> 0 <= r && r as real <= x < r as real + 1.0
    ensures x < 0.0 ==> r <= 0 && r as real - 1.0 < x <= r as real
  {
    if x >= 0.0 then x.Floor else -((-x).Floor)
  }

  /** Rounding a non-positive amount to cents never makes it positive. */
  lemma Round2NonPositive(x: real)
    requires x <= 0.0
    ensures Round2(x) <= 0.0
  {
    var r := RoundHalfEven(x * 100.0);
    assert r as real <= 0.5;
  }

  /** `int()` of a whole number is that number. */
  lemma TruncIntWhole(n: int)
    ensures TruncInt(n as real) == n
  {
  }

  function MapOpt(o: Option<real>, f: real -> real): Option<real> {
    match o
    case None => None
    case Some(x) => Some(f(x))
  }

  // ---------------------------------------------------------------------------
  // Grouping a sorted table by a key of its index.

  /** The key of a row, through a key function on the index. */
  function KeyOf(r: Rec, key: int -> int): int {
    key(r.t)
  }

  /** The key grows (weakly) along the rows. */
  ghost predicate Monotone(rows: seq<Rec>, key: int -> int) {
    forall i, j :: 0 <= i <= j < |rows| ==> KeyOf(rows[i], key) <= KeyOf(rows[j], key)
  }

  function Concat(runs: seq<seq<Rec>>): seq<Rec> {
    if |runs| == 0 then [] else runs[0] + Concat(runs[1..])
  }

  /** The maximal runs of consecutive rows that share a key. */
  function Runs(rows: seq<Rec>, key: int -> int): (runs: seq<seq<Rec>>)
    ensures forall i :: 0 <= i < |runs| ==> |runs[i]| > 0
    ensures |rows| > 0 ==> |runs| > 0 && runs[0][0] == rows[0]
    ensures forall i, j :: 0 <= i < |runs| && 0 <= j < |runs[i]| ==> KeyOf(runs[i][j], key) == KeyOf(runs[i][0], key)
    ensures forall i :: 0 <= i < |runs| - 1 ==> KeyOf(runs[i][0], key) != KeyOf(runs[i + 1][0], key)
    ensures Concat(runs) == rows
  {
    if |rows| == 0 then []
    else
      var r := Runs(rows[1..], key);
      if |r| > 0 && KeyOf(r[0][0], key) == KeyOf(rows[0], key) then
        assert rows == [rows[0]] + rows[1..];
        [[rows[0]] + r[0]] + r[1..]
      else
        assert rows == [rows[0]] + rows[1..];
        [[rows[0]]] + r
  }

  /** The rows with key `k`, in order. */
  function WithKey(rows: seq<Rec>, key: int -> int, k: int): seq<Rec> {
    if |rows| == 0 then []
    else (if KeyOf(rows[0], key) == k then [rows[0]] else []) + WithKey(rows[1..], key, k)
  }

  function RunKey(run: seq<Rec>, key: int -> int): int
    requires |run| > 0
  {
    KeyOf(run[0], key)
  }

  lemma {:induction false} WithKeyBelow(rows: seq<Rec>, key: int -> int, k: int)
    requires Monotone(rows, key) && |rows| > 0 && k < KeyOf(rows[0], key)
    ensures WithKey(rows, key, k) == []
    decreases |rows|
  {
    if |rows| > 1 {
      WithKeyBelow(rows[1..], key, k);
    }
  }

  /** The keys of the runs strictly increase. */
  ghost predicate KeysIncrease(runs: seq<seq<Rec>>, key: int -> int)
    requires forall i :: 0 <= i < |runs| ==> |runs[i]| > 0
  {
    forall i, j :: 0 <= i < j < |runs| ==> RunKey(runs[i], key) < RunKey(runs[j], key)
  }

  /** Each run holds exactly the rows that have its key. */
  ghost predicate RunsMatch(rows: seq<Rec>, runs: seq<seq<Rec>>, key: int -> int)
    requires forall i :: 0 <= i < |runs| ==> |runs[i]| > 0
  {
    forall i :: 0 <= i < |runs| ==> runs[i] == WithKey(rows, key, RunKey(runs[i], key))
  }

  /**
   * For a key that grows along the rows, the runs are the groups: their keys
   * strictly increase, and run `i` holds exactly the rows with its key.
   */
  lemma {:induction false} RunsAreGroups(rows: seq<Rec>, key: int -> int)
    requires Monotone(rows, key)
    ensures KeysIncrease(Runs(rows, key), key)
    ensures RunsMatch(rows, Runs(rows, key), key)
    decreases |rows|
  {
    if |rows| > 0 {
      var s := rows[1..];
      assert Monotone(s, key) by {
        forall i, j | 0 <= i <= j < |s| ensures KeyOf(s[i], key) <= KeyOf(s[j], key) {
          assert s[i] == rows[i + 1] && s[j] == rows[j + 1];
        }
      }
      RunsAreGroups(s, key);
      var r := Runs(s, key);
      if |r| > 0 && KeyOf(r[0][0], key) == KeyOf(rows[0], key) {
        RunsGroupsJoined(rows, key);
      } else {
        RunsGroupsStarted(rows, key);
      }
    }
  }

  /** The step of `RunsAreGroups` where the first row joins the first run of the rest. */
  lemma RunsGroupsJoined(rows: seq<Rec>, key: int -> int)
    requires Monotone(rows, key) && |rows| > 0
    requires KeysIncrease(Runs(rows[1..], key), key) && RunsMatch(rows[1..], Runs(rows[1..], key), key)
    requires var r := Runs(rows[1..], key); |r| > 0 && KeyOf(r[0][0], key) == KeyOf(rows[0], key)
    ensures KeysIncrease(Runs(rows, key), key)
    ensures RunsMatch(rows, Runs(rows, key), key)
  {
    var s := rows[1..];
    var x := rows[0];
    var r := Runs(s, key);
    var runs := Runs(rows, key);
    assert WithKey(rows, key, KeyOf(x, key)) == [x] + WithKey(s, key, KeyOf(x, key));
    assert runs == [[x] + r[0]] + r[1..];
    forall i | 0 <= i < |runs|
      ensures runs[i] == WithKey(rows, key, RunKey(runs[i], key))
    {
      if i > 0 {
        assert runs[i] == r[i];
        assert RunKey(r[0], key) < RunKey(r[i], key);
      }
    }
    forall i, j | 0 <= i < j < |runs|
      ensures RunKey(runs[i], key) < RunKey(runs[j], key)
    {
      assert runs[j] == r[j];
      if i > 0 { assert runs[i] == r[i]; }
    }
  }

  /** The step of `RunsAreGroups` where the first row starts a run of its own. */
  lemma RunsGroupsStarted(rows: seq<Rec>, key: int -> int)
    requires Monotone(rows, key) && |rows| > 0
    requires KeysIncrease(Runs(rows[1..], key), key) && RunsMatch(rows[1..], Runs(rows[1..], key), key)
    requires var r := Runs(rows[1..], key); !(|r| > 0 && KeyOf(r[0][0], key) == KeyOf(rows[0], key))
    ensures KeysIncrease(Runs(rows, key), key)
    ensures RunsMatch(rows, Runs(rows, key), key)
  {
    var s := rows[1..];
    var r := Runs(s, key);
    assert Runs(rows, key) == [[rows[0]]] + r;
    if |s| > 0 {
      assert KeyOf(rows[0], key) < RunKey(r[0], key) by { assert s[0] == rows[1]; }
    }
    StartedIncrease(rows[0], r, key);
    StartedMatch(rows, key);
  }

  lemma StartedIncrease(x: Rec, r: seq<seq<Rec>>, key: int -> int)
    requires forall i :: 0 <= i < |r| ==> |r[i]| > 0
    requires KeysIncrease(r, key)
    requires |r| > 0 ==> KeyOf(x, key) < RunKey(r[0], key)
    ensures KeysIncrease([[x]] + r, key)
  {
    var runs := [[x]] + r;
    forall i, j | 0 <= i < j < |runs|
      ensures RunKey(runs[i], key) < RunKey(runs[j], key)
    {
      assert runs[j] == r[j - 1];
      if i > 0 { assert runs[i] == r[i - 1]; }
      if j > 1 { assert RunKey(r[0], key) < RunKey(r[j - 1], key); }
    }
  }

  lemma StartedMatch(rows: seq<Rec>, key: int -> int)
    requires Monotone(rows, key) && |rows| > 0
    requires KeysIncrease(Runs(rows[1..], key), key) && RunsMatch(rows[1..], Runs(rows[1..], key), key)
    requires var r := Runs(rows[1..], key); !(|r| > 0 && KeyOf(r[0][0], key) == KeyOf(rows[0], key))
    requires Runs(rows, key) == [[rows[0]]] + Runs(rows[1..], key)
    ensures RunsMatch(rows, Runs(rows, key), key)
  {
    var s := rows[1..];
    var x := rows[0];
    var r := Runs(s, key);
    var runs := Runs(rows, key);
    assert WithKey(rows, key, KeyOf(x, key)) == [x] + WithKey(s, key, KeyOf(x, key));
    if |s| > 0 {
      assert KeyOf(x, key) < KeyOf(s[0], key) by { assert s[0] == rows[1]; }
      assert Monotone(s, key) by {
        forall i, j | 0 <= i <= j < |s| ensures KeyOf(s[i], key) <= KeyOf(s[j], key) {
          assert s[i] == rows[i + 1] && s[j] == rows[j + 1];
        }
      }
      WithKeyBelow(s, key, KeyOf(x, key));
    }
    forall i | 0 <= i < |runs|
      ensures runs[i] == WithKey(rows, key, RunKey(runs[i], key))
    {
      if i > 0 {
        assert runs[i] == r[i - 1];
        if i > 1 {
          assert RunKey(r[0], key) < RunKey(r[i - 1], key);
        }
      }
    }
  }

  ghost predicate HasRun(runs: seq<seq<Rec>>, key: int -> int, k: int)
    requires forall i :: 0 <= i < |runs| ==> |runs[i]| > 0
  {
    exists i :: 0 <= i < |runs| && RunKey(runs[i], key) == k
  }

  /** Every row's key is the key of some run. */
  lemma {:induction false} RunsCoverKeys(rows: seq<Rec>, key: int -> int, j: int)
    requires 0 <= j < |rows|
    ensures HasRun(Runs(rows, key), key, KeyOf(rows[j], key))
    decreases |rows|
  {
    var runs := Runs(rows, key);
    var r := Runs(rows[1..], key);
    var merged := |r| > 0 && KeyOf(r[0][0], key) == KeyOf(rows[0], key);
    if j == 0 {
      assert runs[0][0] == rows[0];
      assert 0 < |runs| && RunKey(runs[0], key) == KeyOf(rows[j], key);
    } else {
      RunsCoverKeys(rows[1..], key, j - 1);
      assert rows[1..][j - 1] == rows[j];
      var i :| 0 <= i < |r| && RunKey(r[i], key) == KeyOf(rows[j], key);
      if merged {
        if i == 0 {
          assert RunKey(runs[0], key) == KeyOf(rows[j], key);
        } else {
          assert runs[i] == r[i];
        }
      } else {
        assert runs[i + 1] == r[i];
      }
    }
  }

  // ---------------------------------------------------------------------------
  // pivot_table(index=key, aggfunc={column: kind}).

  datatype Agg = Mean | Min | Max | Sum

  function Aggregate(kind: Agg, xs: seq<Option<real>>): Option<real> {
    match kind
    case Mean => MeanSome(xs)
    case Min => MinSome(xs)
    case Max => MaxSome(xs)
    case Sum => Some(SumSome(xs))
  }

  /** The cells of column `c`, top to bottom. */
  function ColumnOf(rows: seq<Rec>, c: Column): (xs: seq<Option<real>>)
    ensures |xs| == |rows| && forall j {:trigger xs[j]} :: 0 <= j < |rows| ==> xs[j] == Cell(rows[j], c)
  {
    seq(|rows|, j requires 0 <= j < |rows| => Cell(rows[j], c))
  }

  /** One row per key: the key as index and, for each aggregated column, its reduction over the group. */
  function Pivot(x: Table, key: int -> int, aggs: map<Column, Agg>): (y: Table)
    ensures y.cols == aggs.Keys
  {
    var runs := Runs(x.rows, key);
    Table(aggs.Keys, seq(|runs|, i requires 0 <= i < |runs| =>
      Rec(RunKey(runs[i], key), map c | c in aggs.Keys :: Aggregate(aggs[c], ColumnOf(runs[i], c)))))
  }

  /**
   * What a pivot row means: for a key that grows along the rows, the pivot is
   * well formed (one row per key, in increasing order), and each of its cells is
   * the column's reduction over exactly the rows that have the row's key.
   */
  lemma PivotIsGroupBy(x: Table, key: int -> int, aggs: map<Column, Agg>)
    requires Monotone(x.rows, key)
    ensures WellFormed(Pivot(x, key, aggs))
    ensures var p := Pivot(x, key, aggs);
      forall i, c :: 0 <= i < |p.rows| && c in aggs ==>
        Cell(p.rows[i], c) == Aggregate(aggs[c], ColumnOf(WithKey(x.rows, key, p.rows[i].t), c))
  {
    RunsAreGroups(x.rows, key);
    var runs := Runs(x.rows, key);
    var p := Pivot(x, key, aggs);
    assert forall i :: 0 <= i < |p.rows| ==> p.rows[i].t == RunKey(runs[i], key);
  }

  /** The reduction is present exactly when some value is, except a sum, which is always present (0 for none). */
  lemma AggregateSome(kind: Agg, xs: seq<Option<real>>)
    ensures Aggregate(kind, xs).Some? <==> kind == Sum || HasSome(xs)
  {
    MinSomeIsMinimum(xs);
    MaxSomeIsMaximum(xs);
    CountSomeZero(xs);
  }

  // ---------------------------------------------------------------------------
  // dropna=True: the rows, then the columns, that hold no value are dropped.

  /** Some cell of column `c` holds a value. */
  function AnyPresent(rows: seq<Rec>, c: Column): (b: bool)
    ensures b <==> exists i :: 0 <= i < |rows| && Cell(rows[i], c).Some?
  {
    if |rows| == 0 then false
    else
      assert forall i :: 1 <= i < |rows| ==> rows[1..][i - 1] == rows[i];
      Cell(rows[0], c).Some? || AnyPresent(rows[1..], c)
  }

  /** Some cell of the row holds a value. */
  predicate RowHasValue(r: Rec) {
    exists c :: c in r.v && r.v[c].Some?
  }

  /** `dropna(how="all")`: the rows in which no cell holds a value are dropped. */
  function DropEmptyRows(rows: seq<Rec>): (r: seq<Rec>)
    ensures |r| <= |rows|
    ensures forall k :: 0 <= k < |r| ==> RowHasValue(r[k])
  {
    if |rows| == 0 then []
    else (if RowHasValue(rows[0]) then [rows[0]] else []) + DropEmptyRows(rows[1..])
  }

  lemma {:induction false} DropEmptyRowsKeepsExactly(rows: seq<Rec>, r: Rec)
    ensures r in DropEmptyRows(rows) <==> r in rows && RowHasValue(r)
  {
    if |rows| > 0 {
      DropEmptyRowsKeepsExactly(rows[1..], r);
      assert rows == [rows[0]] + rows[1..];
    }
  }

  /** When every row holds a value, no row is dropped. */
  lemma {:induction false} DropEmptyRowsNone(rows: seq<Rec>)
    requires forall k :: 0 <= k < |rows| ==> RowHasValue(rows[k])
    ensures DropEmptyRows(rows) == rows
  {
    if |rows| > 0 {
      DropEmptyRowsNone(rows[1..]);
      assert rows == [rows[0]] + rows[1..];
    }
  }

  /** `dropna(how="all", axis=1)`: the columns in which no cell holds a value are dropped. */
  function DropEmptyColumns(x: Table): (y: Table)
    ensures y.cols == set c | c in x.cols && AnyPresent(x.rows, c)
    ensures |y.rows| == |x.rows|
    ensures forall i {:trigger y.rows[i]} :: 0 <= i < |x.rows| ==> y.rows[i].t == x.rows[i].t && y.rows[i].v.Keys == y.cols
  {
    var keep := set c | c in x.cols && AnyPresent(x.rows, c);
    Table(keep, seq(|x.rows|, i requires 0 <= i < |x.rows| => Rec(x.rows[i].t, map c | c in keep :: Cell(x.rows[i], c))))
  }

  /**
   * Dropping the empty columns loses no value: every cell reads as before,
   * the dropped ones as missing, which they were; the table stays well formed.
   */
  lemma DropEmptyColumnsLosesNothing(x: Table)
    requires WellFormed(x)
    ensures WellFormed(DropEmptyColumns(x))
    ensures forall i, c :: 0 <= i < |x.rows| ==> Cell(DropEmptyColumns(x).rows[i], c) == Cell(x.rows[i], c)
  {
    var y := DropEmptyColumns(x);
    forall i, c | 0 <= i < |x.rows| ensures Cell(y.rows[i], c) == Cell(x.rows[i], c) {
      if Cell(x.rows[i], c).Some? {
        assert c in x.rows[i].v;
        assert c in y.cols by { assert AnyPresent(x.rows, c); }
      }
    }
  }

  /** The reductions include a sum. */
  ghost predicate HasSum(aggs: map<Column, Agg>) {
    exists c :: c in aggs && aggs[c] == Sum
  }

  /**
   * `pivot_table(index=key, aggfunc=aggs)` with its default `dropna=True`: the
   * groups' reductions, without the rows and then the columns that hold no value.
   */
  function PivotTable(x: Table, key: int -> int, aggs: map<Column, Agg>): (y: Table)
    ensures y.cols <= aggs.Keys
  {
    var p := Pivot(x, key, aggs);
    DropEmptyColumns(Table(p.cols, DropEmptyRows(p.rows)))
  }

  /** With a sum among the reductions every pivot row holds a value, so no row is dropped. */
  lemma PivotRowsKept(x: Table, key: int -> int, aggs: map<Column, Agg>)
    requires HasSum(aggs)
    ensures DropEmptyRows(Pivot(x, key, aggs).rows) == Pivot(x, key, aggs).rows
  {
    var p := Pivot(x, key, aggs);
    var s :| s in aggs && aggs[s] == Sum;
    forall k | 0 <= k < |p.rows| ensures RowHasValue(p.rows[k]) {
      assert s in p.rows[k].v && p.rows[k].v[s].Some?;
    }
    DropEmptyRowsNone(p.rows);
  }

  /**
   * What a `pivot_table` row means, for a key that grows along the rows and
   * reductions that include a sum: one row per key, in increasing order, and
   * each cell (a dropped column reading as missing) is the column's reduction
   * over exactly the rows with that key.
   */
  lemma PivotTableIsGroupBy(x: Table, key: int -> int, aggs: map<Column, Agg>)
    requires Monotone(x.rows, key) && HasSum(aggs)
    ensures var y := PivotTable(x, key, aggs);
      WellFormed(y) && |y.rows| == |Pivot(x, key, aggs).rows|
      && (forall i :: 0 <= i < |y.rows| ==> y.rows[i].t == Pivot(x, key, aggs).rows[i].t)
    ensures var y := PivotTable(x, key, aggs);
      forall i, c :: 0 <= i < |y.rows| && c in aggs ==>
        Cell(y.rows[i], c) == Aggregate(aggs[c], ColumnOf(WithKey(x.rows, key, y.rows[i].t), c))
  {
    PivotIsGroupBy(x, key, aggs);
    PivotRowsKept(x, key, aggs);
    DropEmptyColumnsLosesNothing(Pivot(x, key, aggs));
  }

  /** The reduction of column `c` over some group is present. */
  ghost predicate SomeGroupPresent(x: Table, key: int -> int, aggs: map<Column, Agg>, c: Column)
    requires c in aggs
  {
    var runs := Runs(x.rows, key);
    exists i :: 0 <= i < |runs| && Aggregate(aggs[c], ColumnOf(runs[i], c)).Some?
  }

  /** A column of the pivot is kept exactly when the reduction of one of its groups is present. */
  lemma PivotTableColumns(x: Table, key: int -> int, aggs: map<Column, Agg>, c: Column)
    requires HasSum(aggs)
    ensures c in PivotTable(x, key, aggs).cols <==> c in aggs && SomeGroupPresent(x, key, aggs, c)
  {
    PivotRowsKept(x, key, aggs);
    var p := Pivot(x, key, aggs);
    assert PivotTable(x, key, aggs) == DropEmptyColumns(p);
    var runs := Runs(x.rows, key);
    if c in aggs {
      if AnyPresent(p.rows, c) {
        var i :| 0 <= i < |p.rows| && Cell(p.rows[i], c).Some?;
        PivotCell(x, key, aggs, i, c);
        assert SomeGroupPresent(x, key, aggs, c);
      }
      if SomeGroupPresent(x, key, aggs, c) {
        var i :| 0 <= i < |runs| && Aggregate(aggs[c], ColumnOf(runs[i], c)).Some?;
        PivotCell(x, key, aggs, i, c);
        assert AnyPresent(p.rows, c);
      }
    }
  }

  /** One cell of `Pivot`: the column's reduction over the `i`-th group. */
  lemma PivotCell(x: Table, key: int -> int, aggs: map<Column, Agg>, i: int, c: Column)
    requires 0 <= i < |Runs(x.rows, key)| && c in aggs
    ensures |Pivot(x, key, aggs).rows| == |Runs(x.rows, key)|
    ensures Cell(Pivot(x, key, aggs).rows[i], c) == Aggregate(aggs[c], ColumnOf(Runs(x.rows, key)[i], c))
  {
  }

  lemma {:induction false} ConcatHas(runs: seq<seq<Rec>>, i: int, j: int)
    requires 0 <= i < |runs| && 0 <= j < |runs[i]|
    ensures runs[i][j] in Concat(runs)
  {
    if i > 0 {
      ConcatHas(runs[1..], i - 1, j);
    }
  }

  lemma {:induction false} ConcatMember(runs: seq<seq<Rec>>, r: Rec)
    requires r in Concat(runs)
    ensures exists i, m :: 0 <= i < |runs| && 0 <= m < |runs[i]| && runs[i][m] == r
  {
    if r in runs[0] {
      var m :| 0 <= m < |runs[0]| && runs[0][m] == r;
    } else {
      ConcatMember(runs[1..], r);
      var i, m :| 0 <= i < |runs[1..]| && 0 <= m < |runs[1..][i]| && runs[1..][i][m] == r;
      assert runs[i + 1][m] == r;
    }
  }

  /**
   * The columns `pivot_table` keeps, read off the input rows: a summed column
   * is kept when there is any row, any other column when some row has a value in it.
   */
  lemma PivotKeepsColumn(x: Table, key: int -> int, aggs: map<Column, Agg>, c: Column)
    requires HasSum(aggs) && c in aggs
    ensures c in PivotTable(x, key, aggs).cols <==>
      if aggs[c] == Sum then |x.rows| > 0 else AnyPresent(x.rows, c)
  {
    PivotTableColumns(x, key, aggs, c);
    if aggs[c] == Sum {
      SummedGroupPresent(x, key, aggs, c);
    } else {
      GroupPresentIffRow(x, key, aggs, c);
    }
  }

  lemma SummedGroupPresent(x: Table, key: int -> int, aggs: map<Column, Agg>, c: Column)
    requires c in aggs && aggs[c] == Sum
    ensures SomeGroupPresent(x, key, aggs, c) <==> |x.rows| > 0
  {
    var runs := Runs(x.rows, key);
    if |runs| > 0 {
      assert Concat(runs) == runs[0] + Concat(runs[1..]);
      assert Aggregate(aggs[c], ColumnOf(runs[0], c)).Some?;
    }
  }

  lemma GroupPresentIffRow(x: Table, key: int -> int, aggs: map<Column, Agg>, c: Column)
    requires c in aggs && aggs[c] != Sum
    ensures SomeGroupPresent(x, key, aggs, c) <==> AnyPresent(x.rows, c)
  {
    var runs := Runs(x.rows, key);
    if SomeGroupPresent(x, key, aggs, c) {
      var i :| 0 <= i < |runs| && Aggregate(aggs[c], ColumnOf(runs[i], c)).Some?;
      AggregateSome(aggs[c], ColumnOf(runs[i], c));
      var m :| 0 <= m < |runs[i]| && ColumnOf(runs[i], c)[m].Some?;
      ConcatHas(runs, i, m);
      var j :| 0 <= j < |x.rows| && x.rows[j] == runs[i][m];
      assert Cell(x.rows[j], c).Some?;
    }
    if exists j :: 0 <= j < |x.rows| && Cell(x.rows[j], c).Some? {
      var j :| 0 <= j < |x.rows| && Cell(x.rows[j], c).Some?;
      ConcatMember(runs, x.rows[j]);
      var i, m :| 0 <= i < |runs| && 0 <= m < |runs[i]| && runs[i][m] == x.rows[j];
      assert ColumnOf(runs[i], c)[m].Some?;
      AggregateSome(aggs[c], ColumnOf(runs[i], c));
    }
  }
}
