/** Interquartile-range capping of one numeric column
    (`OutlierHandler.cap_iqr` in data_preprocessor/outliers.py). */
module Outliers {
  import opened Cells
  import opened Seqs
  import opened Stats
  import opened Frame

  /** The quartiles of a column and the bounds derived from them. */
  datatype Fence = Fence(q1: real, q3: real, lower: real, upper: real)

  /** Q1 and Q3 of the values `xs` under the linear rule, and the bounds
      Q1 - 1.5 * IQR and Q3 + 1.5 * IQR. */
  function IqrFence(xs: seq<real>): (f: Fence)
    requires |xs| > 0
    ensures f.lower <= f.q1 <= f.q3 <= f.upper
    ensures Sort(xs)[0] <= f.q1 && f.q3 <= Sort(xs)[|xs| - 1]
    ensures f.q3 - f.lower == f.upper - f.q1 == 2.5 * (f.q3 - f.q1)
  {
    var s := Sort(xs);
    var q1, q3 := Quantile(s, 0.25), Quantile(s, 0.75);
    QuantileMonotone(s, 0.25, 0.75);
    var iqr := q3 - q1;
    Fence(q1, q3, q1 - 1.5 * iqr, q3 + 1.5 * iqr)
  }

  /** The mask `df[column] < x`: false on missing cells. */
  function BelowMask(col: seq<Value>, x: real): (m: seq<bool>)
    ensures |m| == |col|
  {
    seq(|col|, i requires 0 <= i < |col| => Below(col[i], x))
  }

  /** The mask `df[column] > x`: false on missing cells. */
  function AboveMask(col: seq<Value>, x: real): (m: seq<bool>)
    ensures |m| == |col|
  {
    seq(|col|, i requires 0 <= i < |col| => Above(col[i], x))
  }

  /** The column after the two masked assignments of cap_iqr: first every cell
      below `lo` becomes `lo`, then, on the result, every cell above `hi` becomes `hi`. */
  function CappedColumn(col: seq<Value>, lo: real, hi: real): (r: seq<Value>)
    ensures |r| == |col|
    ensures lo <= hi ==> forall i :: 0 <= i < |col| ==> r[i] == Clamp(col[i], lo, hi)
  {
    var c := Overwrite(col, BelowMask(col, lo), Number(lo));
    Overwrite(c, AboveMask(c, hi), Number(hi))
  }

  /** One cell clamped into [lo, hi]: the reference definition of capping. */
  function Clamp(v: Value, lo: real, hi: real): (w: Value)
    ensures !IsNumeric(v) ==> w == v
    ensures lo <= hi && IsNumeric(v) ==> IsNumeric(w) && lo <= Num(w) <= hi
    ensures Below(v, lo) ==> w == Number(lo)
    ensures lo <= hi && Above(v, hi) ==> w == Number(hi)
    ensures IsNumeric(v) && lo <= Num(v) <= hi ==> w == v
  {
    if Below(v, lo) then Number(lo) else if Above(v, hi) then Number(hi) else v
  }

  /** After capping, every present cell lies in [lo, hi], values below `lo` are
      exactly `lo`, values above `hi` exactly `hi`, and all other cells, missing
      ones included, are unchanged. */
  lemma CappedCells(col: seq<Value>, lo: real, hi: real)
    requires lo <= hi
    ensures var r := CappedColumn(col, lo, hi);
      forall i :: 0 <= i < |col| ==>
        && (IsNumeric(col[i]) ==> IsNumeric(r[i]) && lo <= Num(r[i]) <= hi)
        && (Below(col[i], lo) ==> r[i] == Number(lo))
        && (Above(col[i], hi) ==> r[i] == Number(hi))
        && (!Below(col[i], lo) && !Above(col[i], hi) ==> r[i] == col[i])
  {
  }

  /** Capping keeps the order of any two present cells. */
  lemma CappedMonotone(col: seq<Value>, lo: real, hi: real, a: nat, b: nat)
    requires lo <= hi && a < |col| && b < |col|
    requires IsNumeric(col[a]) && IsNumeric(col[b]) && Num(col[a]) <= Num(col[b])
    ensures var r := CappedColumn(col, lo, hi);
      IsNumeric(r[a]) && IsNumeric(r[b]) && Num(r[a]) <= Num(r[b])
  {
  }

  /** Capping twice with the same bounds is capping once. */
  lemma CappedIdempotent(col: seq<Value>, lo: real, hi: real)
    requires lo <= hi
    ensures CappedColumn(CappedColumn(col, lo, hi), lo, hi) == CappedColumn(col, lo, hi)
  {
    var r := CappedColumn(col, lo, hi);
  }

  /** cap_iqr on the table value. The quantiles of a column with a text, category or
      timestamp cell are not taken (pandas raises); a column without present values
      has NaN bounds, both masks are empty and nothing changes. */
  function CappedIqr(t: Table, column: string): (r: Result<Table>)
    requires t.Valid()
    ensures column !in t.columns ==> r == Err(ColumnNotFound(column))
    ensures r.Ok? ==> r.value.Valid() && r.value.columns == t.columns && r.value.dtypes == t.dtypes
    ensures r.Ok? ==> |r.value.rows| == |t.rows|
  {
    match t.Find(column)
    case None => Err(ColumnNotFound(column))
    case Some(j) =>
      var col := t.Column(j);
      if !t.NumericColumn(j) then Err(NotNumeric(column))
      else if Numbers(col) == [] then Ok(t)
      else
        var f := IqrFence(Numbers(col));
        Ok(t.SetColumn(j, CappedColumn(col, f.lower, f.upper), t.dtypes[j]))
  }

  /** cap_iqr fails exactly on an unknown column, a categorical column or a non-numeric cell; on success
      only the named column changes, each of its cells clamped into the bounds
      computed from its present values, and the header, dtypes and row count stay. */
  lemma CappedIqrFacts(t: Table, column: string)
    requires t.Valid()
    ensures CappedIqr(t, column).Err? <==>
      column !in t.columns || !t.NumericColumn(IndexOf(t.columns, column))
    ensures CappedIqr(t, column).Ok? ==>
      var r, j := CappedIqr(t, column).value, IndexOf(t.columns, column);
      var col := t.Column(j);
      && r.columns == t.columns && r.dtypes == t.dtypes && |r.rows| == |t.rows|
      && (forall i, k :: 0 <= i < |t.rows| && 0 <= k < |t.columns| && k != j ==> r.rows[i][k] == t.rows[i][k])
      && (Numbers(col) == [] ==> r == t)
      && (Numbers(col) != [] ==>
            var f := IqrFence(Numbers(col));
            forall i :: 0 <= i < |t.rows| ==> r.rows[i][j] == Clamp(t.rows[i][j], f.lower, f.upper))
  {
    if column in t.columns {
      var j := IndexOf(t.columns, column);
      var col := t.Column(j);
      assert t.Find(column) == Some(j);
      if t.NumericColumn(j) && Numbers(col) != [] {
        var f := IqrFence(Numbers(col));
        var r := CappedIqr(t, column).value;
        assert t.dtypes[j := t.dtypes[j]] == t.dtypes;
        forall i | 0 <= i < |t.rows|
          ensures r.rows[i][j] == Clamp(t.rows[i][j], f.lower, f.upper)
        {
          assert r.rows[i][j] == r.Column(j)[i];
        }
      }
    }
  }

  /** Holds the shared DataFrame (outliers.py:3-5). */
  class OutlierHandler {
    const df: DataFrame

    constructor (df: DataFrame)
      ensures this.df == df
    {
      this.df := df;
    }

    /** cap_iqr: computes the bounds, then overwrites the cells below and above them
        in the shared object itself. */
    method CapIqr(column: string) returns (err: Option<Error>)
      requires df.Valid()
      modifies df
      ensures df.Valid()
      ensures CappedIqr(old(df.View()), column) == if err.Some? then Err(err.value) else Ok(df.View())
      ensures err.Some? ==> df.View() == old(df.View())
    {
      var t := df.View();
      var found := t.Find(column);
      if found.None? {
        return Some(ColumnNotFound(column));
      }
      var j := found.value;
      var col := t.Column(j);
      if !t.NumericColumn(j) {
        return Some(NotNumeric(column));
      }
      var xs := Numbers(col);
      if xs == [] {
        return None;
      }
      var f := IqrFence(xs);
      df.AssignWhere(j, BelowMask(col, f.lower), Number(f.lower));
      var c := df.View().Column(j);
      assert c == Overwrite(col, BelowMask(col, f.lower), Number(f.lower));
      df.AssignWhere(j, AboveMask(c, f.upper), Number(f.upper));
      SetColumnTwice(t, j, c, CappedColumn(col, f.lower, f.upper), t.dtypes[j]);
      return None;
    }
  }

  lemma SetColumnTwice(t: Table, j: nat, a: seq<Value>, b: seq<Value>, d: DType)
    requires t.Valid() && j < |t.columns| && |a| == |b| == |t.rows|
    ensures t.SetColumn(j, a, d).SetColumn(j, b, d) == t.SetColumn(j, b, d)
  {
    var u, v := t.SetColumn(j, a, d).SetColumn(j, b, d), t.SetColumn(j, b, d);
    forall i | 0 <= i < |t.rows|
      ensures u.rows[i] == v.rows[i]
    {
      assert u.rows[i][j] == u.Column(j)[i] && v.rows[i][j] == v.Column(j)[i];
    }
  }
}

module OutlierExamples {
  import opened Cells
  import opened Stats
  import opened Frame
  import opened Outliers

  function SpikeTable(): Table
  {
    Table(["x"], [Int64], [[Number(10.0)], [Number(12.0)], [Number(11.0)], [Number(13.0)], [Number(1000.0)]])
  }

  lemma SpikeColumn()
    ensures SpikeTable().Valid()
    ensures SpikeTable().Find("x") == Some(0)
    ensures SpikeTable().Column(0) == [Number(10.0), Number(12.0), Number(11.0), Number(13.0), Number(1000.0)]
  {
    var t := SpikeTable();
    assert t.Valid();
    assert t.Column(0)[4] == Number(1000.0);
  }

  lemma SpikeNumbers()
    ensures NumericOrNull([Number(10.0), Number(12.0), Number(11.0), Number(13.0), Number(1000.0)])
    ensures Numbers([Number(10.0), Number(12.0), Number(11.0), Number(13.0), Number(1000.0)]) == [10.0, 12.0, 11.0, 13.0, 1000.0]
  {
    var col := [Number(10.0), Number(12.0), Number(11.0), Number(13.0), Number(1000.0)];
    assert col[..4] == [Number(10.0), Number(12.0), Number(11.0), Number(13.0)];
    assert col[..4][..3] == [Number(10.0), Number(12.0), Number(11.0)];
    assert col[..4][..3][..2] == [Number(10.0), Number(12.0)];
    assert col[..4][..3][..2][..1] == [Number(10.0)];
    assert col[..4][..3][..2][..1][..0] == [];
    assert Numbers([Number(10.0)]) == [10.0];
    assert Numbers([Number(10.0), Number(12.0)]) == [10.0, 12.0];
    assert Numbers([Number(10.0), Number(12.0), Number(11.0)]) == [10.0, 12.0, 11.0];
    assert Numbers([Number(10.0), Number(12.0), Number(11.0), Number(13.0)]) == [10.0, 12.0, 11.0, 13.0];
  }

  lemma SpikeSorted()
    ensures Sort([10.0, 12.0, 11.0, 13.0, 1000.0]) == [10.0, 11.0, 12.0, 13.0, 1000.0]
  {
    var xs, s := [10.0, 12.0, 11.0, 13.0, 1000.0], [10.0, 11.0, 12.0, 13.0, 1000.0];
    assert multiset(xs) == multiset(s);
    SortOf(xs, s);
  }

  /** The quartiles of [10, 12, 11, 13, 1000] are 11 and 13, so the bounds are 8 and 16. */
  lemma SpikeFence()
    ensures IqrFence([10.0, 12.0, 11.0, 13.0, 1000.0]) == Fence(11.0, 13.0, 8.0, 16.0)
  {
    SpikeSorted();
    SpikeQuartiles([10.0, 11.0, 12.0, 13.0, 1000.0]);
  }

  lemma SpikePositions()
    ensures Position(5, 0.25) == 1.0 && Position(5, 0.75) == 3.0
    ensures (1.0).Floor == 1 && (3.0).Floor == 3
  {
  }

  lemma SpikeQuartiles(s: seq<real>)
    requires s == [10.0, 11.0, 12.0, 13.0, 1000.0]
    ensures Sorted(s) && Quantile(s, 0.25) == 11.0 && Quantile(s, 0.75) == 13.0
  {
    SpikePositions();
    assert Interpolate(s, 1.0) == 11.0;
    assert Interpolate(s, 3.0) == 13.0;
  }

  lemma SpikeCapped()
    ensures CappedColumn([Number(10.0), Number(12.0), Number(11.0), Number(13.0), Number(1000.0)], 8.0, 16.0)
         == [Number(10.0), Number(12.0), Number(11.0), Number(13.0), Number(16.0)]
  {
    var col := [Number(10.0), Number(12.0), Number(11.0), Number(13.0), Number(1000.0)];
    var c := CappedColumn(col, 8.0, 16.0);
    assert c[0] == Number(10.0) && c[1] == Number(12.0) && c[2] == Number(11.0) && c[3] == Number(13.0);
    assert c[4] == Number(16.0);
  }

  lemma SpikeWritten()
    ensures SpikeTable().Valid()
    ensures SpikeTable().SetColumn(0, [Number(10.0), Number(12.0), Number(11.0), Number(13.0), Number(16.0)], Int64)
         == Table(["x"], [Int64], [[Number(10.0)], [Number(12.0)], [Number(11.0)], [Number(13.0)], [Number(16.0)]])
  {
    SpikeColumn();
    var r := SpikeTable().SetColumn(0, [Number(10.0), Number(12.0), Number(11.0), Number(13.0), Number(16.0)], Int64);
    assert r.rows[0] == [Number(10.0)] && r.rows[1] == [Number(12.0)] && r.rows[2] == [Number(11.0)];
    assert r.rows[3] == [Number(13.0)] && r.rows[4] == [Number(16.0)];
    assert r.rows == [[Number(10.0)], [Number(12.0)], [Number(11.0)], [Number(13.0)], [Number(16.0)]];
  }

  /** cap_iqr on [10, 12, 11, 13, 1000] replaces 1000 by the upper bound 16 and keeps the rest. */
  lemma SpikeExample()
    ensures CappedIqr(SpikeTable(), "x")
         == Ok(Table(["x"], [Int64], [[Number(10.0)], [Number(12.0)], [Number(11.0)], [Number(13.0)], [Number(16.0)]]))
  {
    SpikeColumn();
    SpikeNumbers();
    SpikeFence();
    SpikeCapped();
    SpikeWritten();
  }

  /** A one-column table named "x". */
  function Single(cells: seq<Value>, d: DType): Table
  {
    Table(["x"], [d], seq(|cells|, i requires 0 <= i < |cells| => [cells[i]]))
  }

  lemma SingleFacts(cells: seq<Value>, d: DType)
    ensures Single(cells, d).Valid() && Single(cells, d).Find("x") == Some(0)
    ensures Single(cells, d).Column(0) == cells
    ensures forall c :: |c| == |cells| ==> Single(cells, d).SetColumn(0, c, d) == Single(c, d)
  {
    var t := Single(cells, d);
    forall c | |c| == |cells|
      ensures t.SetColumn(0, c, d) == Single(c, d)
    {
      var r := t.SetColumn(0, c, d);
      forall i | 0 <= i < |cells|
        ensures r.rows[i] == [c[i]]
      {
        assert r.rows[i][0] == r.Column(0)[i];
      }
    }
  }

  lemma PlateauNumbersBefore()
    ensures NumericOrNull([Number(0.0), Number(100.0), Number(100.0), Number(100.0)])
    ensures Numbers([Number(0.0), Number(100.0), Number(100.0), Number(100.0)]) == [0.0, 100.0, 100.0, 100.0]
  {
    var a := [Number(0.0), Number(100.0), Number(100.0), Number(100.0)];
    assert a[..3] == [Number(0.0), Number(100.0), Number(100.0)];
    assert a[..3][..2] == [Number(0.0), Number(100.0)];
    assert a[..3][..2][..1] == [Number(0.0)];
    assert a[..3][..2][..1][..0] == [];
    assert Numbers([Number(0.0)]) == [0.0];
    assert Numbers([Number(0.0), Number(100.0)]) == [0.0, 100.0];
    assert Numbers(a[..3]) == [0.0, 100.0, 100.0];
  }

  lemma PlateauNumbersAfter()
    ensures NumericOrNull([Number(37.5), Number(100.0), Number(100.0), Number(100.0)])
    ensures Numbers([Number(37.5), Number(100.0), Number(100.0), Number(100.0)]) == [37.5, 100.0, 100.0, 100.0]
  {
    var b := [Number(37.5), Number(100.0), Number(100.0), Number(100.0)];
    assert b[..3] == [Number(37.5), Number(100.0), Number(100.0)];
    assert b[..3][..2] == [Number(37.5), Number(100.0)];
    assert b[..3][..2][..1] == [Number(37.5)];
    assert b[..3][..2][..1][..0] == [];
    assert Numbers([Number(37.5)]) == [37.5];
    assert Numbers([Number(37.5), Number(100.0)]) == [37.5, 100.0];
    assert Numbers(b[..3]) == [37.5, 100.0, 100.0];
  }

  lemma PlateauPositions()
    ensures Position(4, 0.25) == 0.75 && Position(4, 0.75) == 2.25
    ensures (0.75).Floor == 0 && (2.25).Floor == 2
  {
  }

  lemma PlateauFirstQuartiles(a: seq<real>)
    requires a == [0.0, 100.0, 100.0, 100.0]
    ensures Sorted(a) && Interpolate(a, 0.75) == 75.0 && Interpolate(a, 2.25) == 100.0
  {
    PlateauPositions();
  }

  lemma PlateauSecondQuartiles(b: seq<real>)
    requires b == [37.5, 100.0, 100.0, 100.0]
    ensures Sorted(b) && Interpolate(b, 0.75) == 84.375 && Interpolate(b, 2.25) == 100.0
  {
    PlateauPositions();
  }

  lemma PlateauFirstFence()
    ensures IqrFence([0.0, 100.0, 100.0, 100.0]) == Fence(75.0, 100.0, 37.5, 137.5)
  {
    var a := [0.0, 100.0, 100.0, 100.0];
    PlateauFirstQuartiles(a);
    SortOf(a, a);
    PlateauPositions();
  }

  lemma PlateauSecondFence()
    ensures IqrFence([37.5, 100.0, 100.0, 100.0]).lower == 60.9375
  {
    var b := [37.5, 100.0, 100.0, 100.0];
    PlateauSecondQuartiles(b);
    SortOf(b, b);
    PlateauPositions();
  }

  lemma PlateauCapped()
    ensures CappedColumn([Number(0.0), Number(100.0), Number(100.0), Number(100.0)], 37.5, 137.5)
         == [Number(37.5), Number(100.0), Number(100.0), Number(100.0)]
    ensures forall hi :: 60.9375 <= hi ==>
      CappedColumn([Number(37.5), Number(100.0), Number(100.0), Number(100.0)], 60.9375, hi)[0] == Number(60.9375)
  {
    var a := [Number(0.0), Number(100.0), Number(100.0), Number(100.0)];
    var c := CappedColumn(a, 37.5, 137.5);
    assert c[0] == Number(37.5) && c[1] == Number(100.0) && c[2] == Number(100.0) && c[3] == Number(100.0);
    forall hi | 60.9375 <= hi
      ensures CappedColumn(c, 60.9375, hi)[0] == Number(60.9375)
    {
    }
  }

  /** Capping with bounds recomputed from the capped column is not idempotent: on
      [0, 100, 100, 100] a second cap_iqr raises the first cell again, from 37.5 to 60.9375. */
  lemma CapIqrNotIdempotent()
    ensures var once := Single([Number(37.5), Number(100.0), Number(100.0), Number(100.0)], Float64);
      && once.Valid()
      && CappedIqr(Single([Number(0.0), Number(100.0), Number(100.0), Number(100.0)], Float64), "x") == Ok(once)
      && CappedIqr(once, "x").Ok?
      && CappedIqr(once, "x").value.rows[0][0] == Number(60.9375)
  {
    var a, b := [Number(0.0), Number(100.0), Number(100.0), Number(100.0)], [Number(37.5), Number(100.0), Number(100.0), Number(100.0)];
    SingleFacts(a, Float64);
    SingleFacts(b, Float64);
    PlateauNumbersBefore();
    PlateauNumbersAfter();
    assert Single(a, Float64).NumericColumn(0) && Single(b, Float64).NumericColumn(0);
    PlateauFirstFence();
    PlateauSecondFence();
    PlateauCapped();
    var f := IqrFence([37.5, 100.0, 100.0, 100.0]);
    var r := Single(b, Float64).SetColumn(0, CappedColumn(b, f.lower, f.upper), Float64);
    assert r.rows[0][0] == r.Column(0)[0];
  }
}
