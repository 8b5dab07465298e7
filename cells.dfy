/** Table cells: pandas' missing marker or one typed value, and the order
    pandas uses when it sorts them. */
module Cells {

  datatype Option<T> = None | Some(value: T)

  /** One cell. `Null` stands for every missing marker pandas uses
      (NaN, None, NaT); two `Null` cells compare equal, as in `duplicated()`.
      Integers and floats share `Number`: Python's `==` and pandas' hashing treat
      `2` and `2.0` as the same value, and whether a column holds int64 or float64
      is its dtype, not a property of its cells. */
  datatype Value =
    | Null
    | Number(num: real)
    | Text(s: string)
    | Category(cat: string)
    | Timestamp(ns: int)

  predicate IsNumeric(v: Value)
  {
    v.Number?
  }

  /** The value of a numeric cell, as `mean`, `median` and `quantile` read it. */
  function Num(v: Value): real
    requires IsNumeric(v)
  {
    v.num
  }

  /** `v < x` as pandas evaluates it on a numeric column: false for a missing cell. */
  predicate Below(v: Value, x: real)
  {
    IsNumeric(v) && Num(v) < x
  }

  /** `v > x` as pandas evaluates it on a numeric column: false for a missing cell. */
  predicate Above(v: Value, x: real)
  {
    IsNumeric(v) && Num(v) > x
  }

  /** Every cell is missing or numeric: the columns `mean`, `median` and `quantile` accept. */
  predicate NumericOrNull(col: seq<Value>)
  {
    forall i :: 0 <= i < |col| ==> col[i].Null? || IsNumeric(col[i])
  }

  /** The non-missing cells of a column, in order (pandas `dropna()`). */
  function NonNull(col: seq<Value>): (vals: seq<Value>)
    ensures |vals| <= |col|
  {
    if col == [] then []
    else
      var n := |col| - 1;
      NonNull(col[..n]) + (if col[n].Null? then [] else [col[n]])
  }

  /** dropna keeps exactly the present cells. */
  lemma {:induction false} NonNullMembers(col: seq<Value>)
    ensures forall v :: v in NonNull(col) <==> v in col && !v.Null?
  {
    if col != [] {
      var n := |col| - 1;
      NonNullMembers(col[..n]);
      assert col == col[..n] + [col[n]];
    }
  }

  /** Every cell of the column is missing. */
  predicate AllMissing(col: seq<Value>)
  {
    forall i :: 0 <= i < |col| ==> col[i].Null?
  }

  /** A column has no present cell exactly when dropna leaves nothing. */
  lemma NonNullEmpty(col: seq<Value>)
    ensures NonNull(col) == [] <==> AllMissing(col)
  {
    NonNullMembers(col);
    if NonNull(col) != [] {
      assert NonNull(col)[0] in col;
    } else {
      forall i | 0 <= i < |col|
        ensures col[i].Null?
      {
        assert col[i] in col;
      }
    }
  }

  /** The float64 values of the non-missing cells of a numeric column, in order. */
  function Numbers(col: seq<Value>): (xs: seq<real>)
    requires NumericOrNull(col)
    ensures |xs| == |NonNull(col)|
  {
    if col == [] then []
    else
      var n := |col| - 1;
      assert forall i :: 0 <= i < n ==> col[..n][i] == col[i];
      Numbers(col[..n]) + (if col[n].Null? then [] else [Num(col[n])])
  }

  /** Python's ordering of `str`: lexicographic by code point. */
  predicate StrLe(a: string, b: string)
  {
    |a| == 0 || (|b| > 0 && (a[0] < b[0] || (a[0] == b[0] && StrLe(a[1..], b[1..]))))
  }

  function Rank(v: Value): nat
  {
    match v
    case Null => 0
    case Number(_) => 1
    case Text(_) => 2
    case Category(_) => 3
    case Timestamp(_) => 4
  }

  /** The order in which pandas sorts the values of one column: numbers by value,
      strings lexicographically, timestamps chronologically. */
  predicate Le(a: Value, b: Value)
  {
    if Rank(a) != Rank(b) then Rank(a) < Rank(b)
    else match a
      case Null => true
      case Number(x) => x <= b.num
      case Text(s) => StrLe(s, b.s)
      case Category(c) => StrLe(c, b.cat)
      case Timestamp(t) => t <= b.ns
  }

  lemma {:induction false} StrLeTotal(a: string, b: string)
    ensures StrLe(a, b) || StrLe(b, a)
  {
    if |a| > 0 && |b| > 0 && a[0] == b[0] {
      StrLeTotal(a[1..], b[1..]);
    }
  }

  lemma {:induction false} StrLeAntisymmetric(a: string, b: string)
    requires StrLe(a, b) && StrLe(b, a)
    ensures a == b
  {
    if |a| > 0 && |b| > 0 {
      StrLeAntisymmetric(a[1..], b[1..]);
      assert a == [a[0]] + a[1..] && b == [b[0]] + b[1..];
    }
  }

  lemma {:induction false} StrLeTransitive(a: string, b: string, c: string)
    requires StrLe(a, b) && StrLe(b, c)
    ensures StrLe(a, c)
  {
    if |a| > 0 && |b| > 0 && |c| > 0 && a[0] == b[0] && b[0] == c[0] {
      StrLeTransitive(a[1..], b[1..], c[1..]);
    }
  }

  /** `Le` is a total order on cells, so "the smallest" of several cells is well defined. */
  lemma LeTotal(a: Value, b: Value)
    ensures Le(a, b) || Le(b, a)
  {
    if a.Text? && b.Text? { StrLeTotal(a.s, b.s); }
    if a.Category? && b.Category? { StrLeTotal(a.cat, b.cat); }
  }

  lemma LeAntisymmetric(a: Value, b: Value)
    requires Le(a, b) && Le(b, a)
    ensures a == b
  {
    if a.Text? && b.Text? { StrLeAntisymmetric(a.s, b.s); }
    if a.Category? && b.Category? { StrLeAntisymmetric(a.cat, b.cat); }
  }

  lemma LeTransitive(a: Value, b: Value, c: Value)
    requires Le(a, b) && Le(b, c)
    ensures Le(a, c)
  {
    if a.Text? && b.Text? && c.Text? { StrLeTransitive(a.s, b.s, c.s); }
    if a.Category? && b.Category? && c.Category? { StrLeTransitive(a.cat, b.cat, c.cat); }
  }
}
