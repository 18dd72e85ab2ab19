/**
 * Time-indexed tables, the model of the pandas DataFrames of the pipeline:
 * a set of named columns and rows sorted by a Unix-minute (or day) index,
 * each cell a real or missing (NaN). The operations are the ones the pipeline
 * applies: outer merge on the index, forward fill, and value replacement.
 */
module Frames {
  import opened Wrappers

  /** The columns of the reconstructed history. */
  datatype Column =
    | FullPrice    // "full price"
    | PctOff       // "% off"
    | DollarOff    // "$ off"
    | SnsPct       // "SNS %"
    | SnsDollar    // "SNS $"
    | LD           // "LD", the lightning-deal price
    | BSR          // "BSR", the sales rank
    | FinalPrice   // "final price"
    | SoldMin      // "monthlySoldMin"
    | SoldMax      // "monthlySoldMax"
    | SalesMin     // "sales min"
    | SalesMax     // "sales max"

  type Row = map<Column, Option<real>>

  /** One row: its index `t` and its cells. */
  datatype Rec = Rec(t: int, v: Row)

  datatype Table = Table(cols: set<Column>, rows: seq<Rec>)

  /** A cell, missing when the column is absent. */
  function Cell(r: Rec, c: Column): Option<real> {
    if c in r.v then r.v[c] else None
  }

  /** The index is strictly increasing (unique and sorted). */
  ghost predicate Sorted(rows: seq<Rec>) {
    forall i, j :: 0 <= i < j < |rows| ==> rows[i].t < rows[j].t
  }

  /** Every row has exactly the columns `cols`. */
  ghost predicate Shaped(rows: seq<Rec>, cols: set<Column>) {
    forall i :: 0 <= i < |rows| ==> rows[i].v.Keys == cols
  }

  ghost predicate WellFormed(x: Table) {
    Sorted(x.rows) && Shaped(x.rows, x.cols)
  }

  /** The set of index values of some rows. */
  function Times(rows: seq<Rec>): set<int> {
    if |rows| == 0 then {} else {rows[0].t} + Times(rows[1..])
  }

  // ---------------------------------------------------------------------------
  // Outer merge on the index (pd.merge(how="outer", left_index=True, right_index=True)).

  /** A row extended with missing cells for the columns `cs` it lacks. */
  function Pad(v: Row, cs: set<Column>): (r: Row)
    ensures r.Keys == v.Keys + cs
  {
    map c | c in v.Keys + cs :: if c in v then v[c] else None
  }

  /**
   * The sorted outer join of two sorted row sequences that have the columns
   * `ca` and `cb`: a time present on one side only gets missing cells for the
   * other side's columns; a time present on both sides gets both rows' cells.
   */
  function MergeRows(a: seq<Rec>, b: seq<Rec>, ca: set<Column>, cb: set<Column>): (m: seq<Rec>)
    ensures |m| >= |a| && |m| >= |b|
    decreases |a| + |b|
  {
    if |a| == 0 && |b| == 0 then []
    else if |b| == 0 || (|a| > 0 && a[0].t < b[0].t) then
      [Rec(a[0].t, Pad(a[0].v, cb))] + MergeRows(a[1..], b, ca, cb)
    else if |a| == 0 || b[0].t < a[0].t then
      [Rec(b[0].t, Pad(b[0].v, ca))] + MergeRows(a, b[1..], ca, cb)
    else
      [Rec(a[0].t, a[0].v + b[0].v)] + MergeRows(a[1..], b[1..], ca, cb)
  }

  function Merge(x: Table, y: Table): (m: Table)
    ensures |m.rows| >= |x.rows| && |m.rows| >= |y.rows|
  {
    Table(x.cols + y.cols, MergeRows(x.rows, y.rows, x.cols, y.cols))
  }

  ghost predicate AllFrom(rows: seq<Rec>, lo: int) {
    forall k :: 0 <= k < |rows| ==> rows[k].t >= lo
  }

  lemma {:induction false} MergeRowsLowerBound(a: seq<Rec>, b: seq<Rec>, ca: set<Column>, cb: set<Column>, lo: int)
    requires AllFrom(a, lo) && AllFrom(b, lo)
    ensures AllFrom(MergeRows(a, b, ca, cb), lo)
    decreases |a| + |b|
  {
    var m := MergeRows(a, b, ca, cb);
    if |a| == 0 && |b| == 0 {
    } else if |b| == 0 || (|a| > 0 && a[0].t < b[0].t) {
      MergeRowsLowerBound(a[1..], b, ca, cb, lo);
      assert m == [m[0]] + MergeRows(a[1..], b, ca, cb);
    } else if |a| == 0 || b[0].t < a[0].t {
      MergeRowsLowerBound(a, b[1..], ca, cb, lo);
      assert m == [m[0]] + MergeRows(a, b[1..], ca, cb);
    } else {
      MergeRowsLowerBound(a[1..], b[1..], ca, cb, lo);
      assert m == [m[0]] + MergeRows(a[1..], b[1..], ca, cb);
    }
  }

  /** The merged index is sorted and unique. */
  lemma {:induction false} MergeRowsSorted(a: seq<Rec>, b: seq<Rec>, ca: set<Column>, cb: set<Column>)
    requires Sorted(a) && Sorted(b)
    ensures Sorted(MergeRows(a, b, ca, cb))
    decreases |a| + |b|
  {
    var m := MergeRows(a, b, ca, cb);
    if |a| == 0 && |b| == 0 {
    } else if |b| == 0 || (|a| > 0 && a[0].t < b[0].t) {
      MergeRowsSorted(a[1..], b, ca, cb);
      MergeRowsLowerBound(a[1..], b, ca, cb, a[0].t + 1);
      assert m == [m[0]] + MergeRows(a[1..], b, ca, cb);
    } else if |a| == 0 || b[0].t < a[0].t {
      MergeRowsSorted(a, b[1..], ca, cb);
      MergeRowsLowerBound(a, b[1..], ca, cb, b[0].t + 1);
      assert m == [m[0]] + MergeRows(a, b[1..], ca, cb);
    } else {
      MergeRowsSorted(a[1..], b[1..], ca, cb);
      MergeRowsLowerBound(a[1..], b[1..], ca, cb, a[0].t + 1);
      assert m == [m[0]] + MergeRows(a[1..], b[1..], ca, cb);
    }
  }

  /** Every merged row has the columns of both sides. */
  lemma {:induction false} MergeRowsShaped(a: seq<Rec>, b: seq<Rec>, ca: set<Column>, cb: set<Column>)
    requires Shaped(a, ca) && Shaped(b, cb)
    ensures Shaped(MergeRows(a, b, ca, cb), ca + cb)
    decreases |a| + |b|
  {
    if |a| == 0 && |b| == 0 {
    } else if |b| == 0 || (|a| > 0 && a[0].t < b[0].t) {
      MergeRowsShaped(a[1..], b, ca, cb);
    } else if |a| == 0 || b[0].t < a[0].t {
      MergeRowsShaped(a, b[1..], ca, cb);
    } else {
      MergeRowsShaped(a[1..], b[1..], ca, cb);
    }
  }

  /** The merged index is the union of the two indexes. */
  lemma {:induction false} MergeRowsTimes(a: seq<Rec>, b: seq<Rec>, ca: set<Column>, cb: set<Column>)
    ensures Times(MergeRows(a, b, ca, cb)) == Times(a) + Times(b)
    decreases |a| + |b|
  {
    var m := MergeRows(a, b, ca, cb);
    if |a| == 0 && |b| == 0 {
    } else if |b| == 0 || (|a| > 0 && a[0].t < b[0].t) {
      MergeRowsTimes(a[1..], b, ca, cb);
      assert m[1..] == MergeRows(a[1..], b, ca, cb);
    } else if |a| == 0 || b[0].t < a[0].t {
      MergeRowsTimes(a, b[1..], ca, cb);
      assert m[1..] == MergeRows(a, b[1..], ca, cb);
    } else {
      MergeRowsTimes(a[1..], b[1..], ca, cb);
      assert m[1..] == MergeRows(a[1..], b[1..], ca, cb);
    }
  }

  /** Merging two well-formed tables with disjoint columns gives a well-formed table. */
  lemma MergeWellFormed(x: Table, y: Table)
    requires WellFormed(x) && WellFormed(y)
    ensures WellFormed(Merge(x, y))
    ensures Times(Merge(x, y).rows) == Times(x.rows) + Times(y.rows)
  {
    MergeRowsSorted(x.rows, y.rows, x.cols, y.cols);
    MergeRowsShaped(x.rows, y.rows, x.cols, y.cols);
    MergeRowsTimes(x.rows, y.rows, x.cols, y.cols);
  }

  /** Every time of `b` is a time of `a`. */
  ghost predicate Covers(a: seq<Rec>, b: seq<Rec>) {
    forall j :: 0 <= j < |b| ==> HasTime(a, b[j].t)
  }

  ghost predicate HasTime(a: seq<Rec>, t: int) {
    exists k :: 0 <= k < |a| && a[k].t == t
  }

  /**
   * Merging rows whose times all occur on the left keeps the left index:
   * the left join of pandas, computed as an outer merge.
   */
  lemma CoversBothTails(a: seq<Rec>, b: seq<Rec>)
    requires Sorted(a) && Sorted(b) && Covers(a, b) && |a| > 0 && |b| > 0 && a[0].t == b[0].t
    ensures Covers(a[1..], b[1..])
  {
    var a', b' := a[1..], b[1..];
    forall j | 0 <= j < |b'| ensures HasTime(a', b'[j].t) {
      assert b'[j] == b[j + 1];
      var k2 :| 0 <= k2 < |a| && a[k2].t == b[j + 1].t;
      assert b[j + 1].t > b[0].t;
      assert k2 > 0;
      assert a'[k2 - 1].t == b'[j].t;
    }
  }

  lemma CoversLeftTail(a: seq<Rec>, b: seq<Rec>)
    requires Sorted(a) && Sorted(b) && Covers(a, b) && |a| > 0 && (|b| > 0 ==> a[0].t < b[0].t)
    ensures Covers(a[1..], b)
  {
    forall j | 0 <= j < |b| ensures HasTime(a[1..], b[j].t) {
      var k2 :| 0 <= k2 < |a| && a[k2].t == b[j].t;
      assert b[j].t >= b[0].t;
      assert k2 > 0;
      assert a[1..][k2 - 1].t == b[j].t;
    }
  }

  /**
   * Merging rows whose times all occur on the left keeps the left index:
   * the left join of pandas, computed as an outer merge.
   */
  lemma {:induction false} MergeRowsKeepsLeftIndex(a: seq<Rec>, b: seq<Rec>, ca: set<Column>, cb: set<Column>)
    requires Sorted(a) && Sorted(b) && Covers(a, b)
    ensures |MergeRows(a, b, ca, cb)| == |a|
    ensures forall i :: 0 <= i < |a| ==> MergeRows(a, b, ca, cb)[i].t == a[i].t
    decreases |a| + |b|
  {
    if |a| > 0 {
      var k := 0;
      if |b| > 0 {
        assert HasTime(a, b[0].t);
        k :| 0 <= k < |a| && a[k].t == b[0].t;
      }
      var m := MergeRows(a, b, ca, cb);
      if |b| > 0 && k == 0 {
        CoversBothTails(a, b);
        MergeRowsKeepsLeftIndex(a[1..], b[1..], ca, cb);
        assert m == [m[0]] + MergeRows(a[1..], b[1..], ca, cb);
      } else {
        if |b| > 0 {
          assert a[0].t < a[k].t;
        }
        CoversLeftTail(a, b);
        MergeRowsKeepsLeftIndex(a[1..], b, ca, cb);
        assert m == [m[0]] + MergeRows(a[1..], b, ca, cb);
      }
    }
  }

  // ---------------------------------------------------------------------------
  // Forward fill (DataFrame.ffill()).

  /** The last present value of column `c` among `rows`, or missing if there is none. */
  function LastSome(rows: seq<Rec>, c: Column): Option<real> {
    if |rows| == 0 then None
    else
      var rest := LastSome(rows[1..], c);
      if rest.Some? then rest else Cell(rows[0], c)
  }

  /** Every missing cell takes the last present value above it in its column. */
  function FFill(x: Table): (y: Table)
    ensures y.cols == x.cols && |y.rows| == |x.rows|
    ensures forall i {:trigger y.rows[i]} :: 0 <= i < |x.rows| ==> y.rows[i].t == x.rows[i].t && y.rows[i].v.Keys == x.rows[i].v.Keys
  {
    Table(x.cols, seq(|x.rows|, i requires 0 <= i < |x.rows| =>
      Rec(x.rows[i].t, map c | c in x.rows[i].v.Keys :: LastSome(x.rows[..i + 1], c))))
  }

  lemma FFillWellFormed(x: Table)
    requires WellFormed(x)
    ensures WellFormed(FFill(x))
  {
  }

  /** Two row sequences with the same index have the same set of times. */
  lemma {:induction false} SameIndexTimes(a: seq<Rec>, b: seq<Rec>)
    requires |a| == |b| && forall i :: 0 <= i < |a| ==> a[i].t == b[i].t
    ensures Times(a) == Times(b)
  {
    if |a| > 0 {
      SameIndexTimes(a[1..], b[1..]);
    }
  }

  lemma FFillTimes(x: Table)
    ensures Times(FFill(x).rows) == Times(x.rows)
  {
    SameIndexTimes(FFill(x).rows, x.rows);
  }

  /** The rows at or before time `t`. */
  function UpTo(rows: seq<Rec>, t: int): seq<Rec> {
    if |rows| == 0 then []
    else (if rows[0].t <= t then [rows[0]] else []) + UpTo(rows[1..], t)
  }

  /** The latest observation of column `c` at or before time `t`. */
  function LatestUpTo(rows: seq<Rec>, c: Column, t: int): Option<real> {
    LastSome(UpTo(rows, t), c)
  }

  lemma {:induction false} UpToAfterAll(rows: seq<Rec>, t: int)
    requires Sorted(rows) && |rows| > 0 && rows[0].t > t
    ensures UpTo(rows, t) == []
    decreases |rows|
  {
    if |rows| > 1 {
      UpToAfterAll(rows[1..], t);
    }
  }

  lemma {:induction false} UpToShaped(rows: seq<Rec>, cols: set<Column>, t: int)
    requires Shaped(rows, cols)
    ensures Shaped(UpTo(rows, t), cols)
    decreases |rows|
  {
    if |rows| > 0 {
      UpToShaped(rows[1..], cols, t);
    }
  }

  /** In a sorted sequence, the rows up to row `i` are exactly the rows at or before its time. */
  lemma {:induction false} PrefixIsUpTo(rows: seq<Rec>, i: int)
    requires Sorted(rows) && 0 <= i < |rows|
    ensures rows[..i + 1] == UpTo(rows, rows[i].t)
    decreases |rows|
  {
    if i == 0 {
      if |rows| > 1 {
        UpToAfterAll(rows[1..], rows[0].t);
      }
    } else {
      PrefixIsUpTo(rows[1..], i - 1);
      assert rows[..i + 1] == [rows[0]] + rows[1..][..i];
    }
  }

  /** Cutting a merge at time `t` is merging the two sides cut at `t`. */
  lemma {:induction false} UpToMerge(a: seq<Rec>, b: seq<Rec>, ca: set<Column>, cb: set<Column>, t: int)
    requires Sorted(a) && Sorted(b)
    ensures UpTo(MergeRows(a, b, ca, cb), t) == MergeRows(UpTo(a, t), UpTo(b, t), ca, cb)
    decreases |a| + |b|
  {
    var ua, ub := UpTo(a, t), UpTo(b, t);
    if |a| == 0 && |b| == 0 {
    } else if |b| == 0 || (|a| > 0 && a[0].t < b[0].t) {
      UpToMerge(a[1..], b, ca, cb, t);
      if a[0].t > t {
        UpToAfterAll(a, t);
        if |b| > 0 { UpToAfterAll(b, t); }
      } else {
        assert ua == [a[0]] + UpTo(a[1..], t);
        if |b| > 0 && b[0].t > t { UpToAfterAll(b, t); }
      }
    } else if |a| == 0 || b[0].t < a[0].t {
      UpToMerge(a, b[1..], ca, cb, t);
      if b[0].t > t {
        UpToAfterAll(b, t);
        if |a| > 0 { UpToAfterAll(a, t); }
      } else {
        assert ub == [b[0]] + UpTo(b[1..], t);
        if |a| > 0 && a[0].t > t { UpToAfterAll(a, t); }
      }
    } else {
      UpToMerge(a[1..], b[1..], ca, cb, t);
      if a[0].t > t {
        UpToAfterAll(a, t);
        UpToAfterAll(b, t);
      } else {
        assert ua == [a[0]] + UpTo(a[1..], t);
        assert ub == [b[0]] + UpTo(b[1..], t);
      }
    }
  }

  lemma LastSomeCons(h: Rec, rest: seq<Rec>, c: Column)
    ensures LastSome([h] + rest, c) == if LastSome(rest, c).Some? then LastSome(rest, c) else Cell(h, c)
  {
    assert ([h] + rest)[1..] == rest;
  }

  lemma ShapedTail(rows: seq<Rec>, cols: set<Column>)
    requires Shaped(rows, cols) && |rows| > 0
    ensures Shaped(rows[1..], cols)
  {
    forall i | 0 <= i < |rows[1..]| ensures rows[1..][i].v.Keys == cols {
      assert rows[1..][i] == rows[i + 1];
    }
  }

  lemma CellPad(t: int, v: Row, cs: set<Column>, c: Column)
    ensures Cell(Rec(t, Pad(v, cs)), c) == if c in v then v[c] else None
  {
  }

  lemma CellUnion(t: int, v: Row, w: Row, c: Column)
    ensures c !in w ==> Cell(Rec(t, v + w), c) == Cell(Rec(t, v), c)
    ensures c !in v ==> Cell(Rec(t, v + w), c) == Cell(Rec(t, w), c)
  {
  }

  /** The first merged row, as `MergeRows` builds it. */
  lemma MergeRowsHead(a: seq<Rec>, b: seq<Rec>, ca: set<Column>, cb: set<Column>)
    requires |a| > 0 || |b| > 0
    ensures var m := MergeRows(a, b, ca, cb);
      if |b| == 0 || (|a| > 0 && a[0].t < b[0].t) then
        m == [Rec(a[0].t, Pad(a[0].v, cb))] + MergeRows(a[1..], b, ca, cb)
      else if |a| == 0 || b[0].t < a[0].t then
        m == [Rec(b[0].t, Pad(b[0].v, ca))] + MergeRows(a, b[1..], ca, cb)
      else
        m == [Rec(a[0].t, a[0].v + b[0].v)] + MergeRows(a[1..], b[1..], ca, cb)
  {
  }

  /** A merge does not change the observations of a column that only the right side has. */
  lemma {:induction false} MergeLastSomeRight(a: seq<Rec>, b: seq<Rec>, ca: set<Column>, cb: set<Column>, c: Column)
    requires Shaped(a, ca) && c !in ca
    ensures LastSome(MergeRows(a, b, ca, cb), c) == LastSome(b, c)
    decreases |a| + |b|
  {
    if |a| == 0 && |b| == 0 {
    } else {
      MergeRowsHead(a, b, ca, cb);
      if |a| > 0 {
        ShapedTail(a, ca);
        assert c !in a[0].v;
      }
      if |b| > 0 {
        LastSomeCons(b[0], b[1..], c);
        assert b == [b[0]] + b[1..];
      }
      if |b| == 0 || (|a| > 0 && a[0].t < b[0].t) {
        MergeLastSomeRight(a[1..], b, ca, cb, c);
        LastSomeCons(Rec(a[0].t, Pad(a[0].v, cb)), MergeRows(a[1..], b, ca, cb), c);
        CellPad(a[0].t, a[0].v, cb, c);
      } else if |a| == 0 || b[0].t < a[0].t {
        MergeLastSomeRight(a, b[1..], ca, cb, c);
        LastSomeCons(Rec(b[0].t, Pad(b[0].v, ca)), MergeRows(a, b[1..], ca, cb), c);
        CellPad(b[0].t, b[0].v, ca, c);
      } else {
        MergeLastSomeRight(a[1..], b[1..], ca, cb, c);
        LastSomeCons(Rec(a[0].t, a[0].v + b[0].v), MergeRows(a[1..], b[1..], ca, cb), c);
        CellUnion(a[0].t, a[0].v, b[0].v, c);
      }
    }
  }

  /** A merge does not change the observations of a column that only the left side has. */
  lemma {:induction false} MergeLastSomeLeft(a: seq<Rec>, b: seq<Rec>, ca: set<Column>, cb: set<Column>, c: Column)
    requires Shaped(b, cb) && c !in cb
    ensures LastSome(MergeRows(a, b, ca, cb), c) == LastSome(a, c)
    decreases |a| + |b|
  {
    if |a| == 0 && |b| == 0 {
    } else {
      MergeRowsHead(a, b, ca, cb);
      if |b| > 0 {
        ShapedTail(b, cb);
        assert c !in b[0].v;
      }
      if |a| > 0 {
        LastSomeCons(a[0], a[1..], c);
        assert a == [a[0]] + a[1..];
      }
      if |b| == 0 || (|a| > 0 && a[0].t < b[0].t) {
        MergeLastSomeLeft(a[1..], b, ca, cb, c);
        LastSomeCons(Rec(a[0].t, Pad(a[0].v, cb)), MergeRows(a[1..], b, ca, cb), c);
        CellPad(a[0].t, a[0].v, cb, c);
      } else if |a| == 0 || b[0].t < a[0].t {
        MergeLastSomeLeft(a, b[1..], ca, cb, c);
        LastSomeCons(Rec(b[0].t, Pad(b[0].v, ca)), MergeRows(a, b[1..], ca, cb), c);
        CellPad(b[0].t, b[0].v, ca, c);
      } else {
        MergeLastSomeLeft(a[1..], b[1..], ca, cb, c);
        LastSomeCons(Rec(a[0].t, a[0].v + b[0].v), MergeRows(a[1..], b[1..], ca, cb), c);
        CellUnion(a[0].t, a[0].v, b[0].v, c);
      }
    }
  }

  /**
   * Outer merge followed by forward fill: in every row, each column of the
   * right-hand table holds that table's latest observation at or before the row's time.
   */
  lemma MergeFillLatestRight(x: Table, y: Table, c: Column, i: int)
    requires WellFormed(x) && WellFormed(y) && x.cols !! y.cols && c in y.cols
    requires 0 <= i < |Merge(x, y).rows|
    ensures Cell(FFill(Merge(x, y)).rows[i], c) == LatestUpTo(y.rows, c, Merge(x, y).rows[i].t)
  {
    var m := Merge(x, y).rows;
    MergeWellFormed(x, y);
    var t := m[i].t;
    PrefixIsUpTo(m, i);
    UpToMerge(x.rows, y.rows, x.cols, y.cols, t);
    UpToShaped(x.rows, x.cols, t);
    MergeLastSomeRight(UpTo(x.rows, t), UpTo(y.rows, t), x.cols, y.cols, c);
  }

  /** The same for the columns of the left-hand table. */
  lemma MergeFillLatestLeft(x: Table, y: Table, c: Column, i: int)
    requires WellFormed(x) && WellFormed(y) && x.cols !! y.cols && c in x.cols
    requires 0 <= i < |Merge(x, y).rows|
    ensures Cell(FFill(Merge(x, y)).rows[i], c) == LatestUpTo(x.rows, c, Merge(x, y).rows[i].t)
  {
    var m := Merge(x, y).rows;
    MergeWellFormed(x, y);
    var t := m[i].t;
    PrefixIsUpTo(m, i);
    UpToMerge(x.rows, y.rows, x.cols, y.cols, t);
    UpToShaped(y.rows, y.cols, t);
    MergeLastSomeLeft(UpTo(x.rows, t), UpTo(y.rows, t), x.cols, y.cols, c);
  }

  // ---------------------------------------------------------------------------
  // Value replacement: fillna(v) and replace(a, b) on some columns.

  /** Cells of the columns `cs` equal to `from` become `to`; nothing else changes. */
  function Replace(x: Table, cs: set<Column>, from: Option<real>, to: Option<real>): (y: Table)
    ensures y.cols == x.cols && |y.rows| == |x.rows|
    ensures forall i {:trigger y.rows[i]} :: 0 <= i < |x.rows| ==> y.rows[i].t == x.rows[i].t && y.rows[i].v.Keys == x.rows[i].v.Keys
  {
    Table(x.cols, seq(|x.rows|, i requires 0 <= i < |x.rows| =>
      Rec(x.rows[i].t, map c | c in x.rows[i].v.Keys ::
        if c in cs && x.rows[i].v[c] == from then to else x.rows[i].v[c])))
  }

  /** One cell after `Replace`. */
  lemma ReplaceCell(x: Table, cs: set<Column>, from: Option<real>, to: Option<real>, i: int, c: Column)
    requires 0 <= i < |x.rows| && c in x.rows[i].v
    ensures var y := Replace(x, cs, from, to);
      y.rows[i].t == x.rows[i].t
      && Cell(y.rows[i], c) == if c in cs && Cell(x.rows[i], c) == from then to else Cell(x.rows[i], c)
  {
  }

  lemma ReplaceWellFormed(x: Table, cs: set<Column>, from: Option<real>, to: Option<real>)
    requires WellFormed(x)
    ensures WellFormed(Replace(x, cs, from, to))
  {
  }

  /** After `fillna(v)` no cell of the table is missing. */
  lemma FillNoneFills(x: Table, v: real, i: int, c: Column)
    requires WellFormed(x) && 0 <= i < |x.rows| && c in x.cols
    ensures Cell(Replace(x, x.cols, None, Some(v)).rows[i], c).Some?
    ensures Cell(x.rows[i], c).Some? ==> Cell(Replace(x, x.cols, None, Some(v)).rows[i], c) == Cell(x.rows[i], c)
  {
  }
}
