/** Listing, looking up and converting column types
    (`DataTypeHandler` in data_preprocessor/datatypes.py). */
module Dtypes {
  import opened Cells
  import opened Seqs
  import opened Frame

  /** One entry of a `select_dtypes(include=...)` filter: a dtype, or "number",
      which stands for every numeric dtype. */
  datatype Selector = Exactly(dtype: DType) | AnyNumber

  predicate Selects(filter: seq<Selector>, d: DType)
  {
    Exactly(d) in filter || (AnyNumber in filter && (d == Int64 || d == Float64))
  }

  /** The result of check_dtypes: every column with its dtype, or the names of the selected columns. */
  datatype Listing = AllTypes(types: seq<(string, DType)>) | Names(names: seq<string>)

  /** `df.dtypes`: each column with its dtype, in column order. */
  function TypeList(t: Table): (r: seq<(string, DType)>)
    requires t.Valid()
    ensures |r| == |t.columns|
    ensures forall j :: 0 <= j < |r| ==> r[j] == (t.columns[j], t.dtypes[j])
  {
    seq(|t.columns|, j requires 0 <= j < |t.columns| => (t.columns[j], t.dtypes[j]))
  }

  /** The mask of columns whose dtype the filter selects. */
  function SelectMask(dtypes: seq<DType>, filter: seq<Selector>): (m: seq<bool>)
    ensures |m| == |dtypes|
    ensures forall j :: 0 <= j < |dtypes| ==> (m[j] <==> Selects(filter, dtypes[j]))
  {
    seq(|dtypes|, j requires 0 <= j < |dtypes| => Selects(filter, dtypes[j]))
  }

  /** check_dtypes: no filter lists every dtype; a filter lists the names of the
      selected columns (pandas rejects an empty selection). */
  function CheckDtypes(t: Table, filter: Option<seq<Selector>>): (r: Result<Listing>)
    requires t.Valid()
    ensures r.Err? <==> filter == Some([])
    ensures filter.None? ==> r == Ok(AllTypes(TypeList(t)))
    ensures r.Ok? && filter.Some? ==> r.value.Names? && |r.value.names| <= |t.columns|
  {
    match filter
    case None => Ok(AllTypes(TypeList(t)))
    case Some(f) =>
      if f == [] then Err(EmptySelection)
      else Ok(Names(Filter(t.columns, SelectMask(t.dtypes, f))))
  }

  /** A filter yields, in table order, exactly the names of the columns whose dtype it selects. */
  lemma CheckDtypesSelected(t: Table, filter: seq<Selector>)
    requires t.Valid() && filter != []
    ensures var r, idx := CheckDtypes(t, Some(filter)), TrueIndices(SelectMask(t.dtypes, filter));
      && r.Ok? && r.value.Names?
      && |idx| == |r.value.names|
      && (forall k :: 0 <= k < |idx| ==> idx[k] < |t.columns| && r.value.names[k] == t.columns[idx[k]])
      && (forall a, b :: 0 <= a < b < |idx| ==> idx[a] < idx[b])
      && (forall j :: 0 <= j < |t.columns| ==> (j in idx <==> Selects(filter, t.dtypes[j])))
  {
    FilterPicks(t.columns, SelectMask(t.dtypes, filter));
  }

  /** A name that is selected belongs to a column whose dtype the filter selects, and every such
      column's name is listed. */
  lemma CheckDtypesMembers(t: Table, filter: seq<Selector>)
    requires t.Valid() && filter != []
    ensures forall name :: name in CheckDtypes(t, Some(filter)).value.names <==>
      exists j :: 0 <= j < |t.columns| && t.columns[j] == name && Selects(filter, t.dtypes[j])
  {
    var m := SelectMask(t.dtypes, filter);
    FilterPicks(t.columns, m);
    var idx := TrueIndices(m);
    var names := Filter(t.columns, m);
    forall name | name in names
      ensures exists j :: 0 <= j < |t.columns| && t.columns[j] == name && Selects(filter, t.dtypes[j])
    {
      var k :| 0 <= k < |names| && names[k] == name;
      assert idx[k] in idx;
    }
    forall j | 0 <= j < |t.columns| && Selects(filter, t.dtypes[j])
      ensures t.columns[j] in names
    {
      var k :| 0 <= k < |idx| && idx[k] == j;
    }
  }

  /** The argument of get_columns_dtypes: one name or a list of names. */
  datatype Columns = One(name: string) | Many(names: seq<string>)

  function Requested(c: Columns): seq<string>
  {
    match c
    case One(name) => [name]
    case Many(names) => names
  }

  /** The mask of requested names that are not columns of the table. */
  function AbsentMask(t: Table, names: seq<string>): (m: seq<bool>)
    ensures |m| == |names|
    ensures forall k :: 0 <= k < |names| ==> (m[k] <==> names[k] !in t.columns)
  {
    seq(|names|, k requires 0 <= k < |names| => names[k] !in t.columns)
  }

  /** The absent names, in request order: none exactly when every name is a column. */
  function AbsentNames(t: Table, names: seq<string>): (missing: seq<string>)
    ensures missing == [] <==> forall k :: 0 <= k < |names| ==> names[k] in t.columns
  {
    var m := AbsentMask(t, names);
    FilterPicks(names, m);
    var idx := TrueIndices(m);
    if Filter(names, m) != [] then
      assert idx[0] in idx;
      Filter(names, m)
    else
      assert forall k :: 0 <= k < |names| ==> k !in idx;
      Filter(names, m)
  }

  /** get_columns_dtypes: the requested names that are absent, in request order, or else
      each requested column with its dtype, in request order. */
  function ColumnsDtypes(t: Table, c: Columns): (r: Result<seq<(string, DType)>>)
    requires t.Valid()
    ensures r.Err? <==> exists k :: 0 <= k < |Requested(c)| && Requested(c)[k] !in t.columns
    ensures r.Ok? ==> |r.value| == |Requested(c)|
    ensures r.Ok? ==> forall k :: 0 <= k < |r.value| ==>
      r.value[k].0 == Requested(c)[k] && r.value[k].1 == t.dtypes[IndexOf(t.columns, Requested(c)[k])]
  {
    var names := Requested(c);
    var missing := AbsentNames(t, names);
    if missing != [] then Err(ColumnsNotFound(missing))
    else Ok(seq(|names|, k requires 0 <= k < |names| => (names[k], t.dtypes[IndexOf(t.columns, names[k])])))
  }

  /** The error lists every absent name, in request order, and nothing else. */
  lemma ColumnsDtypesMissing(t: Table, c: Columns)
    requires t.Valid() && ColumnsDtypes(t, c).Err?
    ensures var names, err := Requested(c), ColumnsDtypes(t, c).error;
      var idx := TrueIndices(AbsentMask(t, names));
      && err.ColumnsNotFound?
      && |idx| == |err.names|
      && (forall k :: 0 <= k < |idx| ==> idx[k] < |names| && err.names[k] == names[idx[k]])
      && (forall a, b :: 0 <= a < b < |idx| ==> idx[a] < idx[b])
      && (forall i :: 0 <= i < |names| ==> (i in idx <==> names[i] !in t.columns))
  {
    FilterPicks(Requested(c), AbsentMask(t, Requested(c)));
    assert AbsentNames(t, Requested(c)) == Filter(Requested(c), AbsentMask(t, Requested(c)));
  }

  /** A single name is looked up as the one-element list holding it. */
  lemma ColumnsDtypesOne(t: Table, name: string)
    requires t.Valid()
    ensures ColumnsDtypes(t, One(name)) == ColumnsDtypes(t, Many([name]))
    ensures name in t.columns ==> ColumnsDtypes(t, One(name)) == Ok([(name, t.dtypes[IndexOf(t.columns, name)])])
    ensures name !in t.columns ==> ColumnsDtypes(t, One(name)) == Err(ColumnsNotFound([name]))
  {
    var m := AbsentMask(t, [name]);
    assert [name][..0] == [] && m[..0] == [];
    assert AbsentNames(t, [name]) == if name in t.columns then [] else [name];
    if name in t.columns {
      assert ColumnsDtypes(t, One(name)).Ok?;
      var r := ColumnsDtypes(t, One(name)).value;
      assert |r| == 1 && r[0] == (name, t.dtypes[IndexOf(t.columns, name)]);
      assert r == [(name, t.dtypes[IndexOf(t.columns, name)])];
    }
  }

  /** The conversion asked for: `datetime`, or `astype` to a dtype. */
  datatype Target = ToDatetime | AsType(dtype: DType)

  /** pandas' own parsing and casting rules, which the model takes as given: `parse`
      reads a cell as a point in time (nanoseconds since the epoch) or fails, `cast`
      converts a cell to a dtype or fails. */
  datatype Coercion = Coercion(parse: Value -> Option<int>, cast: (Value, DType) -> Option<Value>)

  /** `pd.to_datetime(col, errors='coerce')`: a missing cell stays missing, a cell that
      does not parse becomes missing, and a parsed cell becomes that timestamp. */
  function ToTimestamps(col: seq<Value>, parse: Value -> Option<int>): (r: seq<Value>)
    ensures |r| == |col|
    ensures forall i :: 0 <= i < |col| ==>
      && (col[i].Null? ==> r[i] == Null)
      && (!col[i].Null? && parse(col[i]).None? ==> r[i] == Null)
      && (!col[i].Null? && parse(col[i]).Some? ==> r[i] == Timestamp(parse(col[i]).value))
  {
    seq(|col|, i requires 0 <= i < |col| =>
      if col[i].Null? then Null
      else match parse(col[i])
        case None => Null
        case Some(ns) => Timestamp(ns))
  }

  /** The position of the first cell `cast` refuses, or the length when it accepts every cell. */
  function FirstUncast(col: seq<Value>, d: DType, cast: (Value, DType) -> Option<Value>): (k: nat)
    ensures k <= |col|
    ensures forall i :: 0 <= i < k ==> cast(col[i], d).Some?
    ensures k < |col| ==> cast(col[k], d).None?
  {
    if col == [] then 0
    else if cast(col[0], d).None? then 0
    else
      var k := FirstUncast(col[1..], d, cast);
      assert forall i :: 1 <= i < k + 1 ==> col[i] == col[1..][i - 1];
      k + 1
  }

  /** `col.astype(d)` once every cell has been accepted. */
  function CastCells(col: seq<Value>, d: DType, cast: (Value, DType) -> Option<Value>): (r: seq<Value>)
    requires forall i :: 0 <= i < |col| ==> cast(col[i], d).Some?
    ensures |r| == |col| && forall i :: 0 <= i < |col| ==> Some(r[i]) == cast(col[i], d)
  {
    seq(|col|, i requires 0 <= i < |col| => cast(col[i], d).value)
  }

  /** convert_dtype on the table value: the column is read first (an unknown name fails),
      the new column is computed, and only then written back. */
  function Converted(t: Table, column: string, target: Target, co: Coercion): (r: Result<Table>)
    requires t.Valid()
    ensures column !in t.columns ==> r == Err(ColumnNotFound(column))
    ensures r.Ok? ==> r.value.Valid() && r.value.columns == t.columns && |r.value.rows| == |t.rows|
  {
    match t.Find(column)
    case None => Err(ColumnNotFound(column))
    case Some(j) =>
      var col := t.Column(j);
      match target
      case ToDatetime => Ok(t.SetColumn(j, ToTimestamps(col, co.parse), Datetime64))
      case AsType(d) =>
        var k := FirstUncast(col, d, co.cast);
        if k < |col| then Err(CastFailed(column, col[k]))
        else Ok(t.SetColumn(j, CastCells(col, d, co.cast), d))
  }

  /** Conversion to datetime fails only on an unknown column; it keeps the row count,
      turns the column into timestamps and missing cells, and touches no other column. */
  lemma ConvertedDatetime(t: Table, column: string, co: Coercion)
    requires t.Valid()
    ensures Converted(t, column, ToDatetime, co).Err? <==> column !in t.columns
    ensures Converted(t, column, ToDatetime, co).Ok? ==>
      var r, j := Converted(t, column, ToDatetime, co).value, IndexOf(t.columns, column);
      && r.columns == t.columns && r.dtypes == t.dtypes[j := Datetime64] && |r.rows| == |t.rows|
      && (forall i, k :: 0 <= i < |t.rows| && 0 <= k < |t.columns| && k != j ==> r.rows[i][k] == t.rows[i][k])
      && (forall i :: 0 <= i < |t.rows| ==>
            r.rows[i][j] == if t.rows[i][j].Null? || co.parse(t.rows[i][j]).None? then Null
                            else Timestamp(co.parse(t.rows[i][j]).value))
  {
    if column in t.columns {
      var j := IndexOf(t.columns, column);
      assert t.Find(column) == Some(j);
      var r := Converted(t, column, ToDatetime, co).value;
      forall i | 0 <= i < |t.rows|
        ensures r.rows[i][j] == if t.rows[i][j].Null? || co.parse(t.rows[i][j]).None? then Null
                                else Timestamp(co.parse(t.rows[i][j]).value)
      {
        assert r.rows[i][j] == r.Column(j)[i] && t.rows[i][j] == t.Column(j)[i];
      }
    }
  }

  /** Any other conversion converts every cell or fails on the first cell it cannot convert;
      on success only the named column changes. */
  lemma ConvertedAsType(t: Table, column: string, d: DType, co: Coercion)
    requires t.Valid()
    ensures Converted(t, column, AsType(d), co).Err? <==>
      column !in t.columns || exists i :: 0 <= i < |t.rows| && co.cast(t.rows[i][IndexOf(t.columns, column)], d).None?
    ensures Converted(t, column, AsType(d), co).Ok? ==>
      var r, j := Converted(t, column, AsType(d), co).value, IndexOf(t.columns, column);
      && r.columns == t.columns && r.dtypes == t.dtypes[j := d] && |r.rows| == |t.rows|
      && (forall i, k :: 0 <= i < |t.rows| && 0 <= k < |t.columns| && k != j ==> r.rows[i][k] == t.rows[i][k])
      && (forall i :: 0 <= i < |t.rows| ==> Some(r.rows[i][j]) == co.cast(t.rows[i][j], d))
  {
    if column in t.columns {
      var j := IndexOf(t.columns, column);
      assert t.Find(column) == Some(j);
      var col := t.Column(j);
      var k := FirstUncast(col, d, co.cast);
      if k < |col| {
        assert co.cast(t.rows[k][j], d).None?;
      } else {
        var r := Converted(t, column, AsType(d), co).value;
        forall i | 0 <= i < |t.rows|
          ensures Some(r.rows[i][j]) == co.cast(t.rows[i][j], d)
        {
          assert r.rows[i][j] == r.Column(j)[i] && t.rows[i][j] == col[i];
        }
      }
    }
  }

  /** Holds the shared DataFrame (datatypes.py:3-5). */
  class DataTypeHandler {
    const df: DataFrame

    constructor (df: DataFrame)
      ensures this.df == df
    {
      this.df := df;
    }

    /** check_dtypes on the shared object. */
    function ListDtypes(filter: Option<seq<Selector>>): (r: Result<Listing>)
      reads df
      requires df.Valid()
      ensures r.Err? <==> filter == Some([])
      ensures filter.None? ==>
        && r.Ok? && r.value.AllTypes? && |r.value.types| == |df.columns|
        && forall j :: 0 <= j < |df.columns| ==> r.value.types[j] == (df.columns[j], df.dtypes[j])
      ensures r.Ok? && filter.Some? ==> r.value.Names? && forall name :: name in r.value.names <==>
        exists j :: 0 <= j < |df.columns| && df.columns[j] == name && Selects(filter.value, df.dtypes[j])
    {
      if filter.Some? && filter.value != [] then
        CheckDtypesMembers(df.View(), filter.value);
        CheckDtypes(df.View(), filter)
      else
        CheckDtypes(df.View(), filter)
    }

    /** get_columns_dtypes on the shared object. */
    function GetColumnsDtypes(c: Columns): (r: Result<seq<(string, DType)>>)
      reads df
      requires df.Valid()
      ensures r.Err? <==> exists k :: 0 <= k < |Requested(c)| && Requested(c)[k] !in df.columns
      ensures r.Ok? ==> |r.value| == |Requested(c)|
      ensures r.Ok? ==> forall k :: 0 <= k < |r.value| ==>
        r.value[k].0 == Requested(c)[k] && r.value[k].1 == df.dtypes[IndexOf(df.columns, Requested(c)[k])]
    {
      ColumnsDtypes(df.View(), c)
    }

    /** convert_dtype: the converted column is assigned into the shared object only
        when the conversion succeeded; a failure leaves it as it was. */
    method ConvertDtype(column: string, target: Target, co: Coercion) returns (err: Option<Error>)
      requires df.Valid()
      modifies df
      ensures df.Valid()
      ensures Converted(old(df.View()), column, target, co) == if err.Some? then Err(err.value) else Ok(df.View())
      ensures err.Some? ==> df.View() == old(df.View())
    {
      var t := df.View();
      var r := Converted(t, column, target, co);
      if r.Err? {
        return Some(r.error);
      }
      var j := t.Find(column).value;
      df.AssignColumn(j, r.value.Column(j), r.value.dtypes[j]);
      assert df.View() == r.value by {
        var u := df.View();
        assert u.dtypes == r.value.dtypes;
        forall i | 0 <= i < |t.rows|
          ensures u.rows[i] == r.value.rows[i]
        {
          assert u.rows[i][j] == u.Column(j)[i] && r.value.rows[i][j] == r.value.Column(j)[i];
        }
      }
      return None;
    }
  }
}
