/** Keep-first duplicate detection over the rows of the shared table
    (`DuplicateHandler` in data_preprocessor/duplicates.py). */
module Duplicates {
  import opened Cells
  import opened Seqs
  import opened Frame

  /** pandas `duplicated()` (keep='first'): row i is flagged exactly when some earlier
      row is equal to it in every column; the first occurrence of a row is never flagged. */
  function Duplicated(rows: seq<Row>): (m: seq<bool>)
    ensures |m| == |rows|
    ensures forall i :: 0 <= i < |rows| ==> (m[i] <==> exists k :: 0 <= k < i && rows[k] == rows[i])
  {
    if rows == [] then []
    else
      var n := |rows| - 1;
      var m' := Duplicated(rows[..n]);
      assert forall i :: 0 <= i < n ==> rows[..n][i] == rows[i];
      m' + [rows[n] in rows[..n]]
  }

  /** `duplicated().sum()`: the first row is never counted. */
  function DuplicateCount(rows: seq<Row>): (n: nat)
    ensures rows != [] ==> n < |rows|
  {
    var m := Duplicated(rows);
    if rows == [] then CountTrue(m)
    else
      CountTrueBelow(m, 0);
      CountTrue(m)
  }

  /** `df[df.duplicated()]`: the flagged rows, as many as are counted. */
  function DuplicateRows(rows: seq<Row>): (r: seq<Row>)
    ensures |r| == DuplicateCount(rows)
  {
    Filter(rows, Duplicated(rows))
  }

  /** `drop_duplicates()`: the rows that are not flagged; removal shrinks the table
      by exactly the number of duplicates. */
  function Deduplicated(rows: seq<Row>): (r: seq<Row>)
    ensures |r| == |rows| - DuplicateCount(rows)
  {
    CountTrueNot(Duplicated(rows));
    Filter(rows, Not(Duplicated(rows)))
  }

  /** The set of distinct rows. */
  ghost function Distinct(rows: seq<Row>): set<Row>
  {
    set r | r in rows
  }

  predicate NoRepeats(rows: seq<Row>)
  {
    forall a, b :: 0 <= a < b < |rows| ==> rows[a] != rows[b]
  }

  lemma DuplicatedSnoc(rows: seq<Row>, x: Row)
    ensures Duplicated(rows + [x]) == Duplicated(rows) + [x in rows]
  {
    assert (rows + [x])[..|rows|] == rows;
  }

  lemma DeduplicatedSnoc(rows: seq<Row>, x: Row)
    ensures Deduplicated(rows + [x]) == Deduplicated(rows) + (if x in rows then [] else [x])
    ensures DuplicateRows(rows + [x]) == DuplicateRows(rows) + (if x in rows then [x] else [])
    ensures DuplicateCount(rows + [x]) == DuplicateCount(rows) + (if x in rows then 1 else 0)
  {
    var r := rows + [x];
    DuplicatedSnoc(rows, x);
    assert r[..|rows|] == rows;
    assert Duplicated(r)[..|rows|] == Duplicated(rows);
    assert Not(Duplicated(r))[..|rows|] == Not(Duplicated(rows));
  }

  /** check_duplicates counts every row beyond the first copy of each distinct row. */
  lemma {:induction false} DuplicateCountIsRepeats(rows: seq<Row>)
    ensures DuplicateCount(rows) + |Distinct(rows)| == |rows|
  {
    if rows != [] {
      var n := |rows| - 1;
      var p, x := rows[..n], rows[n];
      assert rows == p + [x];
      DuplicateCountIsRepeats(p);
      DeduplicatedSnoc(p, x);
      assert Distinct(rows) == Distinct(p) + {x};
      if x !in p {
        assert x !in Distinct(p);
      } else {
        assert x in Distinct(p);
      }
    }
  }

  /** show_duplicates returns exactly the flagged rows, in table order, and as many as check_duplicates counts. */
  lemma DuplicateRowsExact(rows: seq<Row>)
    ensures |DuplicateRows(rows)| == DuplicateCount(rows)
    ensures var idx := TrueIndices(Duplicated(rows));
      && |idx| == |DuplicateRows(rows)|
      && (forall k :: 0 <= k < |idx| ==> idx[k] < |rows| && DuplicateRows(rows)[k] == rows[idx[k]])
      && (forall a, b :: 0 <= a < b < |idx| ==> idx[a] < idx[b])
      && (forall i :: 0 <= i < |rows| ==> (i in idx <==> exists k :: 0 <= k < i && rows[k] == rows[i]))
  {
    FilterPicks(rows, Duplicated(rows));
  }

  /** remove_duplicates keeps exactly the first occurrence of each row, in table order. */
  lemma DeduplicatedKeepsFirst(rows: seq<Row>)
    ensures var idx := TrueIndices(Not(Duplicated(rows)));
      && |idx| == |Deduplicated(rows)|
      && (forall k :: 0 <= k < |idx| ==> idx[k] < |rows| && Deduplicated(rows)[k] == rows[idx[k]])
      && (forall a, b :: 0 <= a < b < |idx| ==> idx[a] < idx[b])
      && (forall i :: 0 <= i < |rows| ==> (i in idx <==> rows[i] !in rows[..i]))
  {
    var m := Duplicated(rows);
    FilterPicks(rows, Not(m));
    forall i | 0 <= i < |rows|
      ensures !m[i] <==> rows[i] !in rows[..i]
    {
      if rows[i] in rows[..i] {
        var k :| 0 <= k < i && rows[..i][k] == rows[i];
        assert rows[k] == rows[i];
      }
    }
  }

  /** Removal keeps every distinct row. */
  lemma {:induction false} DeduplicatedSameRows(rows: seq<Row>)
    ensures forall x :: x in Deduplicated(rows) <==> x in rows
  {
    if rows != [] {
      var n := |rows| - 1;
      assert rows == rows[..n] + [rows[n]];
      DeduplicatedSameRows(rows[..n]);
      DeduplicatedSnoc(rows[..n], rows[n]);
    }
  }

  /** After removal no two rows are equal. */
  lemma {:induction false} DeduplicatedNoRepeats(rows: seq<Row>)
    ensures NoRepeats(Deduplicated(rows))
  {
    if rows != [] {
      var n := |rows| - 1;
      var p, x := rows[..n], rows[n];
      assert rows == p + [x];
      DeduplicatedNoRepeats(p);
      DeduplicatedSameRows(p);
      DeduplicatedSnoc(p, x);
    }
  }

  /** A table without repeated rows has no duplicates and is left as it is by removal. */
  lemma {:induction false} NoRepeatsFixed(rows: seq<Row>)
    requires NoRepeats(rows)
    ensures DuplicateCount(rows) == 0 && Deduplicated(rows) == rows
  {
    if rows != [] {
      var n := |rows| - 1;
      var p, x := rows[..n], rows[n];
      assert rows == p + [x];
      NoRepeatsFixed(p);
      DeduplicatedSnoc(p, x);
      assert x !in p;
    }
  }

  /** After removal check_duplicates is 0, and a second removal changes nothing. */
  lemma DeduplicatedIdempotent(rows: seq<Row>)
    ensures DuplicateCount(Deduplicated(rows)) == 0
    ensures Deduplicated(Deduplicated(rows)) == Deduplicated(rows)
  {
    DeduplicatedNoRepeats(rows);
    NoRepeatsFixed(Deduplicated(rows));
  }

  /** Shown duplicates and kept rows together are the original rows, as a multiset. */
  lemma DuplicatesPartition(rows: seq<Row>)
    ensures multiset(DuplicateRows(rows)) + multiset(Deduplicated(rows)) == multiset(rows)
  {
    FilterSplit(rows, Duplicated(rows));
  }

  /** Rows `[(1, "10"), (2, "20"), (2, "20")]`: one duplicate, the second `(2, "20")`. */
  lemma ThreeRowExample()
    ensures var rows := [[Number(1.0), Text("10")], [Number(2.0), Text("20")], [Number(2.0), Text("20")]];
      && DuplicateCount(rows) == 1
      && DuplicateRows(rows) == [[Number(2.0), Text("20")]]
      && Deduplicated(rows) == [[Number(1.0), Text("10")], [Number(2.0), Text("20")]]
  {
    var a, b := [Number(1.0), Text("10")], [Number(2.0), Text("20")];
    assert a != b by { assert a[0] != b[0]; }
    var p := [a, b];
    NoRepeatsFixed(p);
    assert |DuplicateRows(p)| == 0;
    DeduplicatedSnoc(p, b);
    assert [a, b, b] == p + [b];
  }

  /** Holds the shared DataFrame (duplicates.py:1-3). */
  class DuplicateHandler {
    const df: DataFrame

    constructor (df: DataFrame)
      ensures this.df == df
    {
      this.df := df;
    }

    /** check_duplicates: one for every row beyond the first copy of a distinct row.
        A frame without columns is `empty`, and pandas answers before comparing rows. */
    function CheckDuplicates(): (n: nat)
      reads df
      ensures df.columns == [] ==> n == 0
      ensures df.columns != [] ==> n + |Distinct(df.rows)| == |df.rows|
    {
      if df.columns == [] then 0
      else
        DuplicateCountIsRepeats(df.rows);
        DuplicateCount(df.rows)
    }

    /** show_duplicates: the flagged rows under the same header, as many as are counted.
        On a frame without columns `duplicated()` is an empty mask; indexing rows with it
        fails unless there are no rows either. */
    function ShowDuplicates(): (r: Result<Table>)
      reads df
      requires df.Valid()
      ensures r.Err? <==> df.columns == [] && df.rows != []
      ensures r.Err? ==> r.error == UnalignableIndexer
      ensures r.Ok? ==> r.value.Valid() && r.value.columns == df.columns && r.value.dtypes == df.dtypes
      ensures r.Ok? ==> r.value.rows == DuplicateRows(df.rows) && |r.value.rows| == CheckDuplicates()
    {
      if df.columns == [] then
        if df.rows == [] then Ok(Table(df.columns, df.dtypes, [])) else Err(UnalignableIndexer)
      else
        DuplicateRowsExact(df.rows);
        Ok(df.View().SelectRows(Duplicated(df.rows)))
    }

    /** remove_duplicates: `drop_duplicates(inplace=True)` shrinks the shared object itself;
        a frame without columns is left as it is. */
    method RemoveDuplicates()
      requires df.Valid()
      modifies df
      ensures df.Valid() && df.columns == old(df.columns) && df.dtypes == old(df.dtypes)
      ensures df.rows == if df.columns == [] then old(df.rows) else Deduplicated(old(df.rows))
      ensures |df.rows| == old(|df.rows|) - old(CheckDuplicates())
      ensures CheckDuplicates() == 0
    {
      if df.columns != [] {
        DeduplicatedIdempotent(df.rows);
        df.KeepRows(Not(Duplicated(df.rows)));
      }
    }
  }
}
