/** Null reporting and per-column null handling
    (`MissingValuesHandler` in data_preprocessor/missing.py). */
module Missing {
  import opened Cells
  import opened Seqs
  import opened Stats
  import opened Frame

  /** Number of missing cells (pandas `isnull().sum()` for one column). */
  function NullCount(col: seq<Value>): (n: nat)
    ensures n <= |col|
  {
    if col == [] then 0
    else NullCount(col[..|col| - 1]) + (if col[|col| - 1].Null? then 1 else 0)
  }

  lemma {:induction false} NullCountIsMultiplicity(col: seq<Value>)
    ensures NullCount(col) == multiset(col)[Null]
  {
    if col != [] {
      var n := |col| - 1;
      assert col == col[..n] + [col[n]];
      NullCountIsMultiplicity(col[..n]);
    }
  }

  lemma RatioWithin(c: nat, n: nat)
    requires c <= n && n > 0
    ensures 0.0 <= c as real / n as real * 100.0 <= 100.0
  {
    assert c as real / n as real <= 1.0;
  }

  /** One line of the check_nulls report. */
  datatype NullStat = NullStat(column: string, nullCount: nat, nullRatio: real)

  lemma NullStatsFacts(t: Table)
    requires t.Valid() && |t.rows| > 0
    ensures forall j :: 0 <= j < |t.columns| ==>
      && NullCount(t.Column(j)) == multiset(t.Column(j))[Null]
      && 0.0 <= NullCount(t.Column(j)) as real / |t.rows| as real * 100.0 <= 100.0
  {
    forall j | 0 <= j < |t.columns|
      ensures NullCount(t.Column(j)) == multiset(t.Column(j))[Null]
      ensures 0.0 <= NullCount(t.Column(j)) as real / |t.rows| as real * 100.0 <= 100.0
    {
      NullCountIsMultiplicity(t.Column(j));
      RatioWithin(NullCount(t.Column(j)), |t.rows|);
    }
  }

  /** check_nulls: per column, in column order, the number of missing cells and
      their share of the rows in percent. A table without rows would divide by
      zero (a NaN ratio in pandas), hence the precondition. */
  function NullReport(t: Table): (r: seq<NullStat>)
    requires t.Valid() && |t.rows| > 0
    ensures |r| == |t.columns|
    ensures forall j :: 0 <= j < |r| ==>
      && r[j].column == t.columns[j]
      && r[j].nullCount == multiset(t.Column(j))[Null]
      && r[j].nullRatio == r[j].nullCount as real / |t.rows| as real * 100.0
      && 0.0 <= r[j].nullRatio <= 100.0
  {
    NullStatsFacts(t);
    seq(|t.columns|, j requires 0 <= j < |t.columns| =>
      var c := NullCount(t.Column(j));
      NullStat(t.columns[j], c, c as real / |t.rows| as real * 100.0))
  }

  /** The mask of rows whose cell is present (pandas `notna()`). */
  function Present(col: seq<Value>): seq<bool>
  {
    seq(|col|, i requires 0 <= i < |col| => !col[i].Null?)
  }

  /** Present and missing cells together make up the column. */
  lemma {:induction false} PresentCount(col: seq<Value>)
    ensures CountTrue(Present(col)) + NullCount(col) == |col|
  {
    if col != [] {
      var n := |col| - 1;
      assert Present(col)[..n] == Present(col[..n]);
      PresentCount(col[..n]);
    }
  }

  /** `dropna(subset=[name])` for the column at position `j`: the header stays, one row
      goes for every missing cell of the column, and no kept row is missing it. */
  function DropNulls(t: Table, j: nat): (r: Table)
    requires t.Valid() && j < |t.columns|
    ensures r.Valid() && r.columns == t.columns && r.dtypes == t.dtypes
    ensures |r.rows| + NullCount(t.Column(j)) == |t.rows|
    ensures forall i :: 0 <= i < |r.rows| ==> !r.rows[i][j].Null?
  {
    var mask := Present(t.Column(j));
    PresentCount(t.Column(j));
    FilterPicks(t.rows, mask);
    var idx := TrueIndices(mask);
    assert forall k :: 0 <= k < |idx| ==> idx[k] in idx && mask[idx[k]];
    t.SelectRows(mask)
  }

  /** `col.fillna(v)`. */
  function FillNa(col: seq<Value>, v: Value): seq<Value>
  {
    seq(|col|, i requires 0 <= i < |col| => if col[i].Null? then v else col[i])
  }

  /** A present fill value leaves no missing cell; a missing one leaves the count. */
  lemma {:induction false} FillNaNullCount(col: seq<Value>, v: Value)
    ensures NullCount(FillNa(col, v)) == if v.Null? then NullCount(col) else 0
  {
    if col != [] {
      var n := |col| - 1;
      assert FillNa(col, v)[..n] == FillNa(col[..n], v);
      FillNaNullCount(col[..n], v);
    }
  }

  /** `df[name] = df[name].fillna(v)` for the column at position `j`. */
  function Filled(t: Table, j: nat, v: Value): (r: Table)
    requires t.Valid() && j < |t.columns|
    ensures r.Valid() && r.columns == t.columns && r.dtypes == t.dtypes && |r.rows| == |t.rows|
    ensures NullCount(r.Column(j)) == if v.Null? then NullCount(t.Column(j)) else 0
  {
    FillNaNullCount(t.Column(j), v);
    assert t.dtypes[j := t.dtypes[j]] == t.dtypes;
    t.SetColumn(j, FillNa(t.Column(j), v), t.dtypes[j])
  }

  /** `mode()[0]` among `cands`, counting occurrences in `vals`: a most frequent
      candidate, and the smallest one (in pandas' sort order) when several tie. */
  function ModeAmong(cands: seq<Value>, vals: seq<Value>): (m: Value)
    requires |cands| > 0
    ensures m in cands
    ensures forall v :: v in cands ==>
      multiset(vals)[v] <= multiset(vals)[m] && (multiset(vals)[v] == multiset(vals)[m] ==> Le(m, v))
  {
    if |cands| == 1 then
      LeTotal(cands[0], cands[0]);
      cands[0]
    else
      var c, b := cands[0], ModeAmong(cands[1..], vals);
      ModeStep(c, b, cands, vals);
      if multiset(vals)[c] > multiset(vals)[b] || (multiset(vals)[c] == multiset(vals)[b] && Le(c, b)) then c else b
  }

  lemma ModeStep(c: Value, b: Value, cands: seq<Value>, vals: seq<Value>)
    requires |cands| > 1 && c == cands[0]
    requires forall v :: v in cands[1..] ==>
      multiset(vals)[v] <= multiset(vals)[b] && (multiset(vals)[v] == multiset(vals)[b] ==> Le(b, v))
    ensures var m := if multiset(vals)[c] > multiset(vals)[b] || (multiset(vals)[c] == multiset(vals)[b] && Le(c, b)) then c else b;
      forall v :: v in cands ==>
        multiset(vals)[v] <= multiset(vals)[m] && (multiset(vals)[v] == multiset(vals)[m] ==> Le(m, v))
  {
    var nc, nb := multiset(vals)[c], multiset(vals)[b];
    assert cands == [c] + cands[1..];
    LeTotal(c, b);
    LeTotal(c, c);
    forall v | v in cands[1..]
      ensures nc > nb || (nc == nb && Le(c, b)) ==>
        multiset(vals)[v] <= nc && (multiset(vals)[v] == nc ==> Le(c, v))
    {
      if (nc > nb || (nc == nb && Le(c, b))) && multiset(vals)[v] == nc {
        LeTransitive(c, b, v);
      }
    }
  }

  /** pandas `mode()[0]` of the present values of a column. */
  function Mode(vals: seq<Value>): (m: Value)
    requires |vals| > 0
    ensures m in vals
    ensures forall v :: v in vals ==>
      multiset(vals)[v] <= multiset(vals)[m] && (multiset(vals)[v] == multiset(vals)[m] ==> Le(m, v))
  {
    ModeAmong(vals, vals)
  }

  predicate IsStrategy(strategy: string)
  {
    strategy == "drop" || strategy == "mean" || strategy == "median" || strategy == "mode"
  }

  /** handle_nulls on the table value: the column is looked up first, then the
      strategy string is dispatched. mean and median of a column without present
      values are NaN, and filling with NaN leaves the column as it is. */
  function HandledNulls(t: Table, column: string, strategy: string): (r: Result<Table>)
    requires t.Valid()
    ensures r.Ok? ==> r.value.Valid()
    ensures column !in t.columns ==> r == Err(ColumnNotFound(column))
  {
    match t.Find(column)
    case None => Err(ColumnNotFound(column))
    case Some(j) =>
      var col := t.Column(j);
      if strategy == "drop" then Ok(DropNulls(t, j))
      else if strategy == "mean" then
        if !t.NumericColumn(j) then Err(NotNumeric(column))
        else if Numbers(col) == [] then Ok(t)
        else Ok(Filled(t, j, Number(Mean(Numbers(col)))))
      else if strategy == "median" then
        if !t.NumericColumn(j) then Err(NotNumeric(column))
        else if Numbers(col) == [] then Ok(t)
        else Ok(Filled(t, j, Number(Median(Sort(Numbers(col))))))
      else if strategy == "mode" then
        if NonNull(col) == [] then Err(NoMode(column))
        else Ok(Filled(t, j, Mode(NonNull(col))))
      else Err(InvalidStrategy(strategy))
  }

  /** On a known column the call fails exactly when the strategy is unknown, mean or
      median meet a categorical column or a non-numeric cell, or mode finds no present value. */
  lemma HandledNullsErrors(t: Table, column: string, strategy: string)
    requires t.Valid() && column in t.columns
    ensures var col := t.Column(IndexOf(t.columns, column));
      HandledNulls(t, column, strategy).Err? <==>
        || !IsStrategy(strategy)
        || ((strategy == "mean" || strategy == "median") && !t.NumericColumn(IndexOf(t.columns, column)))
        || (strategy == "mode" && AllMissing(col))
    ensures !IsStrategy(strategy) ==> HandledNulls(t, column, strategy) == Err(InvalidStrategy(strategy))
  {
    var j := IndexOf(t.columns, column);
    assert t.Find(column) == Some(j);
    var col := t.Column(j);
    if strategy == "mode" {
      NonNullEmpty(col);
    }
  }

  /** Every strategy but drop rewrites only the named column and keeps its dtype. */
  lemma HandledNullsInPlace(t: Table, column: string, strategy: string)
    requires t.Valid() && column in t.columns && strategy != "drop"
    requires HandledNulls(t, column, strategy).Ok?
    ensures var r, j := HandledNulls(t, column, strategy).value, IndexOf(t.columns, column);
      r == t.SetColumn(j, r.Column(j), t.dtypes[j])
  {
    var j := IndexOf(t.columns, column);
    assert t.Find(column) == Some(j);
    var r := HandledNulls(t, column, strategy).value;
    if r == t {
      assert t.dtypes[j := t.dtypes[j]] == t.dtypes;
      assert forall i :: 0 <= i < |t.rows| ==> t.rows[i][j := t.Column(j)[i]] == t.rows[i];
    }
  }

  /** drop keeps exactly the rows whose cell in the column is present, in table
      order and with all their cells. */
  lemma DropNullsExact(t: Table, j: nat)
    requires t.Valid() && j < |t.columns|
    ensures var r, idx := DropNulls(t, j), TrueIndices(Present(t.Column(j)));
      && r.columns == t.columns && r.dtypes == t.dtypes
      && |idx| == |r.rows|
      && (forall k :: 0 <= k < |idx| ==> idx[k] < |t.rows| && r.rows[k] == t.rows[idx[k]])
      && (forall a, b :: 0 <= a < b < |idx| ==> idx[a] < idx[b])
      && (forall i :: 0 <= i < |t.rows| ==> (i in idx <==> !t.rows[i][j].Null?))
  {
    FilterPicks(t.rows, Present(t.Column(j)));
  }

  /** Filling replaces only the missing cells of the column: present cells, the other
      columns and the row count stay; a present fill value leaves no missing cell. */
  lemma FilledOnlyNulls(t: Table, j: nat, v: Value)
    requires t.Valid() && j < |t.columns|
    ensures var r := Filled(t, j, v);
      && r.columns == t.columns && r.dtypes == t.dtypes && |r.rows| == |t.rows|
      && (forall i, k :: 0 <= i < |t.rows| && 0 <= k < |t.columns| ==>
            r.rows[i][k] == if k == j && t.rows[i][j].Null? then v else t.rows[i][k])
      && (!v.Null? ==> forall i :: 0 <= i < |r.rows| ==> !r.rows[i][j].Null?)
  {
    var r := Filled(t, j, v);
    forall i, k | 0 <= i < |t.rows| && 0 <= k < |t.columns|
      ensures r.rows[i][k] == if k == j && t.rows[i][j].Null? then v else t.rows[i][k]
    {
      if k == j {
        assert r.rows[i][j] == r.Column(j)[i];
      }
    }
    assert t.dtypes[j := t.dtypes[j]] == t.dtypes;
  }

  /** Every present mean, median or mode fill succeeds on a column with a present value,
      and no missing cell is left in it. */
  lemma FillLeavesNoNulls(t: Table, column: string, strategy: string)
    requires t.Valid() && column in t.columns
    requires strategy == "mean" || strategy == "median" || strategy == "mode"
    requires HandledNulls(t, column, strategy).Ok?
    requires exists i :: 0 <= i < |t.rows| && !t.rows[i][IndexOf(t.columns, column)].Null?
    ensures var r, j := HandledNulls(t, column, strategy).value, IndexOf(t.columns, column);
      && r.columns == t.columns && |r.rows| == |t.rows|
      && forall i :: 0 <= i < |r.rows| ==> !r.rows[i][j].Null?
  {
    var j := IndexOf(t.columns, column);
    assert t.Find(column) == Some(j);
    var col := t.Column(j);
    var i :| 0 <= i < |t.rows| && !t.rows[i][j].Null?;
    assert !col[i].Null?;
    NonNullEmpty(col);
    var r := HandledNulls(t, column, strategy).value;
    if strategy == "mean" {
      assert Numbers(col) != [];
      assert r == Filled(t, j, Number(Mean(Numbers(col))));
      FilledOnlyNulls(t, j, Number(Mean(Numbers(col))));
    } else if strategy == "median" {
      assert Numbers(col) != [];
      assert r == Filled(t, j, Number(Median(Sort(Numbers(col)))));
      FilledOnlyNulls(t, j, Number(Median(Sort(Numbers(col)))));
    } else {
      var m := Mode(NonNull(col));
      NonNullMembers(col);
      assert !m.Null?;
      assert r == Filled(t, j, m);
      FilledOnlyNulls(t, j, m);
    }
  }

  function ScoreTable(): Table
  {
    Table(["score"], [Float64], [[Number(1.0)], [Number(2.0)], [Null], [Number(4.0)]])
  }

  lemma ScoreColumn()
    ensures ScoreTable().Valid()
    ensures ScoreTable().Find("score") == Some(0)
    ensures ScoreTable().Column(0) == [Number(1.0), Number(2.0), Null, Number(4.0)]
  {
    var t := ScoreTable();
    assert t.Valid();
    assert t.Column(0)[2] == Null;
  }

  lemma ScoreNumbers()
    ensures Numbers([Number(1.0), Number(2.0), Null, Number(4.0)]) == [1.0, 2.0, 4.0]
    ensures Mean([1.0, 2.0, 4.0]) == 7.0 / 3.0
  {
    var col := [Number(1.0), Number(2.0), Null, Number(4.0)];
    assert col[..3] == [Number(1.0), Number(2.0), Null];
    assert col[..3][..2] == [Number(1.0), Number(2.0)];
    assert col[..3][..2][..1] == [Number(1.0)];
    assert col[..3][..2][..1][..0] == [];
    assert Numbers([Number(1.0)]) == [1.0];
    assert Numbers([Number(1.0), Number(2.0)]) == [1.0, 2.0];
    assert Numbers(col[..3]) == [1.0, 2.0];
    var s := [1.0, 2.0, 4.0];
    assert s[..2] == [1.0, 2.0];
    assert s[..2][..1] == [1.0];
    assert s[..2][..1][..0] == [];
    assert Sum([1.0]) == 1.0;
    assert Sum([1.0, 2.0]) == 3.0;
    assert Sum(s) == 7.0;
  }

  lemma ScoreFilled()
    ensures ScoreTable().Valid()
    ensures Filled(ScoreTable(), 0, Number(7.0 / 3.0))
         == Table(["score"], [Float64], [[Number(1.0)], [Number(2.0)], [Number(7.0 / 3.0)], [Number(4.0)]])
  {
    ScoreColumn();
    var t, v := ScoreTable(), Number(7.0 / 3.0);
    var f := FillNa(t.Column(0), v);
    assert f == [Number(1.0), Number(2.0), v, Number(4.0)];
    var r := t.SetColumn(0, f, Float64);
    assert r.rows[0] == [Number(1.0)] && r.rows[1] == [Number(2.0)];
    assert r.rows[2] == [v] && r.rows[3] == [Number(4.0)];
    assert r.rows == [[Number(1.0)], [Number(2.0)], [v], [Number(4.0)]];
  }

  /** A categorical column is refused by mean and median even when its cells are numbers,
      and mode still fills it. */
  lemma CategoricalExample()
    ensures var t := Table(["c"], [Categorical], [[Number(1.0)], [Null]]);
      && HandledNulls(t, "c", "mean") == Err(NotNumeric("c"))
      && HandledNulls(t, "c", "median") == Err(NotNumeric("c"))
      && HandledNulls(t, "c", "mode").Ok?
  {
    var t := Table(["c"], [Categorical], [[Number(1.0)], [Null]]);
    assert t.Find("c") == Some(0);
    assert t.Column(0) == [Number(1.0), Null];
    NonNullMembers(t.Column(0));
    assert Number(1.0) in NonNull(t.Column(0));
  }

  /** Column `score` = [1, 2, null, 4]: mean fills the missing cell with 7/3. */
  lemma ScoreMeanExample()
    ensures HandledNulls(ScoreTable(), "score", "mean")
         == Ok(Table(["score"], [Float64], [[Number(1.0)], [Number(2.0)], [Number(7.0 / 3.0)], [Number(4.0)]]))
  {
    ScoreColumn();
    ScoreNumbers();
    ScoreFilled();
    var col := ScoreTable().Column(0);
    assert NumericOrNull(col);
  }

  lemma ScoreFilter()
    ensures Filter([[Number(1.0)], [Number(2.0)], [Null], [Number(4.0)]], [true, true, false, true])
         == [[Number(1.0)], [Number(2.0)], [Number(4.0)]]
  {
    var rows: seq<Row>, mask := [[Number(1.0)], [Number(2.0)], [Null], [Number(4.0)]], [true, true, false, true];
    assert rows[..3] == [[Number(1.0)], [Number(2.0)], [Null]] && mask[..3] == [true, true, false];
    assert rows[..3][..2] == [[Number(1.0)], [Number(2.0)]] && mask[..3][..2] == [true, true];
    assert rows[..3][..2][..1] == [[Number(1.0)]] && mask[..3][..2][..1] == [true];
    assert rows[..3][..2][..1][..0] == [] && mask[..3][..2][..1][..0] == [];
    assert Filter(rows[..3][..2][..1], mask[..3][..2][..1]) == [[Number(1.0)]];
    assert Filter(rows[..3][..2], mask[..3][..2]) == [[Number(1.0)], [Number(2.0)]];
    assert Filter(rows[..3], mask[..3]) == [[Number(1.0)], [Number(2.0)]];
  }

  /** Column `score` = [1, 2, null, 4]: drop leaves the three rows with a score. */
  lemma ScoreDropExample()
    ensures HandledNulls(ScoreTable(), "score", "drop")
         == Ok(Table(["score"], [Float64], [[Number(1.0)], [Number(2.0)], [Number(4.0)]]))
  {
    ScoreColumn();
    ScoreFilter();
    var t := ScoreTable();
    assert Present(t.Column(0)) == [true, true, false, true];
  }

  /** Holds the DataFrame it was given; drop rebinds the field to a new object (missing.py:1-5). */
  class MissingValuesHandler {
    var df: DataFrame

    constructor (df: DataFrame)
      ensures this.df == df
    {
      this.df := df;
    }

    /** check_nulls over the table this handler currently holds. */
    function CheckNulls(): (r: seq<NullStat>)
      reads this, df
      requires df.Valid() && |df.rows| > 0
      ensures |r| == |df.columns|
      ensures forall j :: 0 <= j < |r| ==>
        && r[j].column == df.columns[j]
        && r[j].nullCount == multiset(df.View().Column(j))[Null]
        && r[j].nullRatio == r[j].nullCount as real / |df.rows| as real * 100.0
        && 0.0 <= r[j].nullRatio <= 100.0
    {
      NullReport(df.View())
    }

    /** handle_nulls: an error leaves everything as it was; drop binds `df` to a new
        object and leaves the old one untouched; mean, median and mode write the
        column of the held object in place. */
    method HandleNulls(column: string, strategy: string) returns (err: Option<Error>)
      requires df.Valid()
      modifies this, df
      ensures df.Valid()
      ensures HandledNulls(old(df.View()), column, strategy) == if err.Some? then Err(err.value) else Ok(df.View())
      ensures err.Some? ==> df == old(df) && df.View() == old(df.View())
      ensures err.None? && strategy == "drop" ==> fresh(df) && old(df).View() == old(df.View())
      ensures err.None? && strategy != "drop" ==> df == old(df)
    {
      var t := df.View();
      var r := HandledNulls(t, column, strategy);
      if r.Err? {
        return Some(r.error);
      }
      var j := t.Find(column).value;
      if strategy == "drop" {
        df := new DataFrame(r.value);
      } else {
        HandledNullsInPlace(t, column, strategy);
        df.AssignColumn(j, r.value.Column(j), t.dtypes[j]);
      }
      return None;
    }
  }
}
