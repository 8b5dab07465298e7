/** The table every handler shares: an ordered list of uniquely named, typed
    columns over rows of equal length, and the mutable pandas DataFrame object
    that holds it. */
module Frame {
  import opened Cells
  import opened Seqs

  /** The pandas dtypes the cleaning engine produces or asks for. */
  datatype DType = Int64 | Float64 | Object | Categorical | Datetime64

  /** A row: one cell per column, in column order. */
  type Row = seq<Value>

  /** The errors the handlers raise (pandas KeyError, ValueError, TypeError, IndexingError). */
  datatype Error =
    | ColumnNotFound(name: string)
    | ColumnsNotFound(names: seq<string>)
    | InvalidStrategy(strategy: string)
    | EmptySelection
    | NotNumeric(column: string)
    | NoMode(column: string)
    | CastFailed(column: string, cell: Value)
    | UnalignableIndexer

  datatype Result<T> = Ok(value: T) | Err(error: Error)

  /** The value of a DataFrame at one moment. */
  datatype Table = Table(columns: seq<string>, dtypes: seq<DType>, rows: seq<Row>)
  {
    /** One dtype per column, unique column names, every row as wide as the header. */
    ghost predicate Valid()
    {
      && |dtypes| == |columns|
      && (forall a, b :: 0 <= a < b < |columns| ==> columns[a] != columns[b])
      && (forall i :: 0 <= i < |rows| ==> |rows[i]| == |columns|)
    }

    /** The cells of column `j`, top to bottom (pandas `df[name]`). */
    function Column(j: nat): (col: seq<Value>)
      requires Valid() && j < |columns|
      ensures |col| == |rows|
    {
      seq(|rows|, i requires 0 <= i < |rows| => rows[i][j])
    }

    /** pandas' `mean`, `median` and `quantile` accept column `j`: it is not categorical
        (pandas raises TypeError for those reductions on a categorical column) and every
        cell is missing or numeric. */
    predicate NumericColumn(j: nat)
      requires Valid() && j < |columns|
    {
      dtypes[j] != Categorical && NumericOrNull(Column(j))
    }

    /** The position of the column called `name`, if there is one. */
    function Find(name: string): (r: Option<nat>)
      requires Valid()
      ensures r.None? <==> name !in columns
      ensures r.Some? ==> r.value < |columns| && columns[r.value] == name
    {
      if name in columns then Some(IndexOf(columns, name)) else None
    }

    /** The table with column `j` replaced by `col` and retyped `d` (pandas `df[name] = col`). */
    function SetColumn(j: nat, col: seq<Value>, d: DType): (t: Table)
      requires Valid() && j < |columns| && |col| == |rows|
      ensures t.Valid() && t.columns == columns && t.dtypes == dtypes[j := d]
      ensures |t.rows| == |rows| && t.Column(j) == col
      ensures forall i, k :: 0 <= i < |rows| && 0 <= k < |columns| && k != j ==> t.rows[i][k] == rows[i][k]
    {
      Table(columns, dtypes[j := d], seq(|rows|, i requires 0 <= i < |rows| => rows[i][j := col[i]]))
    }

    /** The table keeping only the rows whose mask entry is set (pandas `df[mask]`). */
    function SelectRows(mask: seq<bool>): (t: Table)
      requires Valid() && |mask| == |rows|
      ensures t.Valid() && t.columns == columns && t.dtypes == dtypes
    {
      FilterPicks(rows, mask);
      Table(columns, dtypes, Filter(rows, mask))
    }
  }

  /** `col` with the cells under a set mask entry overwritten by `v`
      (the right-hand side of pandas `df.loc[mask, name] = v`). */
  function Overwrite(col: seq<Value>, mask: seq<bool>, v: Value): (r: seq<Value>)
    requires |mask| == |col|
    ensures |r| == |col|
  {
    seq(|col|, i requires 0 <= i < |col| => if mask[i] then v else col[i])
  }

  /** A pandas DataFrame: one mutable object that every handler holding it sees change. */
  class DataFrame {
    var columns: seq<string>
    var dtypes: seq<DType>
    var rows: seq<Row>

    function View(): Table
      reads this
    {
      Table(columns, dtypes, rows)
    }

    ghost predicate Valid()
      reads this
    {
      View().Valid()
    }

    constructor (t: Table)
      ensures View() == t
    {
      columns, dtypes, rows := t.columns, t.dtypes, t.rows;
    }

    /** `df[name] = col` for the existing column at position `j`. */
    method AssignColumn(j: nat, col: seq<Value>, d: DType)
      requires Valid() && j < |columns| && |col| == |rows|
      modifies this
      ensures Valid() && View() == old(View()).SetColumn(j, col, d)
    {
      var t := View().SetColumn(j, col, d);
      columns, dtypes, rows := t.columns, t.dtypes, t.rows;
    }

    /** `df.loc[mask, name] = v` for the existing column at position `j`; the dtype is kept. */
    method AssignWhere(j: nat, mask: seq<bool>, v: Value)
      requires Valid() && j < |columns| && |mask| == |rows|
      modifies this
      ensures Valid() && View() == old(View()).SetColumn(j, Overwrite(old(View()).Column(j), mask, v), old(dtypes[j]))
    {
      AssignColumn(j, Overwrite(View().Column(j), mask, v), dtypes[j]);
    }

    /** Keeps only the rows whose mask entry is set, in place. */
    method KeepRows(mask: seq<bool>)
      requires Valid() && |mask| == |rows|
      modifies this
      ensures Valid() && View() == old(View()).SelectRows(mask)
    {
      var t := View().SelectRows(mask);
      columns, dtypes, rows := t.columns, t.dtypes, t.rows;
    }
  }
}
