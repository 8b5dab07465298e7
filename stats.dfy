/** The statistics pandas computes over the non-missing values of a float64
    column: sorting, mean, median and the linear-interpolation quantile. */
module Stats {

  predicate Sorted(s: seq<real>)
  {
    forall a, b :: 0 <= a < b < |s| ==> s[a] <= s[b]
  }

  function Insert(x: real, s: seq<real>): (r: seq<real>)
    requires Sorted(s)
    ensures Sorted(r) && multiset(r) == multiset(s) + multiset{x}
    ensures |r| == |s| + 1 && (r[0] == x || (s != [] && r[0] == s[0]))
  {
    if s == [] || x <= s[0] then [x] + s
    else
      var t := Insert(x, s[1..]);
      assert s == [s[0]] + s[1..];
      assert s[0] <= t[0];
      [s[0]] + t
  }

  /** The order statistics of `s`: its values in ascending order. */
  function Sort(s: seq<real>): (r: seq<real>)
    ensures Sorted(r) && multiset(r) == multiset(s) && |r| == |s|
  {
    if s == [] then []
    else
      assert s == [s[0]] + s[1..];
      Insert(s[0], Sort(s[1..]))
  }

  /** Two sorted sequences holding the same values are equal. */
  lemma {:induction false} SortedUnique(a: seq<real>, b: seq<real>)
    requires Sorted(a) && Sorted(b) && multiset(a) == multiset(b)
    ensures a == b
  {
    if a != [] && b != [] {
      assert a[0] in multiset(b) by { assert a[0] in a; }
      assert b[0] in multiset(a) by { assert b[0] in b; }
      assert a[0] == b[0];
      assert a == [a[0]] + a[1..] && b == [b[0]] + b[1..];
      assert multiset(a) == multiset{a[0]} + multiset(a[1..]);
      assert multiset(b) == multiset{b[0]} + multiset(b[1..]);
      assert multiset(a[1..]) == multiset(a) - multiset{a[0]};
      assert multiset(b[1..]) == multiset(b) - multiset{b[0]};
      SortedUnique(a[1..], b[1..]);
    } else {
      assert |a| == |multiset(a)| == |b|;
    }
  }

  /** The order statistics are the one sorted arrangement of the values. */
  lemma SortOf(xs: seq<real>, s: seq<real>)
    requires Sorted(s) && multiset(xs) == multiset(s)
    ensures Sort(xs) == s
  {
    SortedUnique(Sort(xs), s);
  }

  function Sum(s: seq<real>): real
  {
    if s == [] then 0.0 else Sum(s[..|s| - 1]) + s[|s| - 1]
  }

  /** pandas `mean()` of the non-missing values: the mean of equal values is that value. */
  function Mean(s: seq<real>): (m: real)
    requires |s| > 0
    ensures (forall i :: 0 <= i < |s| ==> s[i] == s[0]) ==> m == s[0]
  {
    SumConstant(s);
    Sum(s) / |s| as real
  }

  /** The sum of n equal values is n times that value. */
  lemma SumConstant(s: seq<real>)
    requires |s| > 0
    ensures (forall i :: 0 <= i < |s| ==> s[i] == s[0]) ==> Sum(s) == s[0] * |s| as real
  {
    if forall i :: 0 <= i < |s| ==> s[i] == s[0] {
      SumWithin(s, s[0], s[0]);
    }
  }

  lemma {:induction false} SumWithin(s: seq<real>, lo: real, hi: real)
    requires forall i :: 0 <= i < |s| ==> lo <= s[i] <= hi
    ensures lo * |s| as real <= Sum(s) <= hi * |s| as real
  {
    if s != [] {
      SumWithin(s[..|s| - 1], lo, hi);
    }
  }

  /** The mean lies between any lower and upper bound of the values it averages. */
  lemma MeanWithin(s: seq<real>, lo: real, hi: real)
    requires |s| > 0
    requires forall i :: 0 <= i < |s| ==> lo <= s[i] <= hi
    ensures lo <= Mean(s) <= hi
  {
    SumWithin(s, lo, hi);
    var n := |s| as real;
    assert Mean(s) * n == Sum(s);
  }

  /** The fractional position h = (n - 1) * p of quantile `p`; it lies among the n order statistics. */
  function Position(n: nat, p: real): (h: real)
    requires n > 0 && 0.0 <= p <= 1.0
    ensures 0.0 <= h <= (n - 1) as real
  {
    var m := (n - 1) as real;
    assert m * p <= m * 1.0;
    m * p
  }

  lemma PositionMonotone(n: nat, p1: real, p2: real)
    requires n > 0 && 0.0 <= p1 <= p2 <= 1.0
    ensures Position(n, p1) <= Position(n, p2)
  {
    ScaleMonotone(p1, p2, (n - 1) as real);
  }

  /** numpy's "linear" rule at fractional position h: interpolates between the
      order statistics s[floor(h)] and s[floor(h) + 1]. */
  function Interpolate(s: seq<real>, h: real): real
    requires Sorted(s) && 0.0 <= h <= (|s| - 1) as real
  {
    var lo := h.Floor;
    if lo + 1 < |s| then s[lo] + (h - lo as real) * (s[lo + 1] - s[lo]) else s[lo]
  }

  /** pandas `quantile(p)` of the sorted values `s`, at position h = (n - 1) * p. */
  function Quantile(s: seq<real>, p: real): (q: real)
    requires Sorted(s) && |s| > 0 && 0.0 <= p <= 1.0
    ensures s[0] <= q <= s[|s| - 1]
  {
    InterpolateBracket(s, Position(|s|, p));
    Interpolate(s, Position(|s|, p))
  }

  lemma FractionScales(f: real, d: real)
    requires 0.0 <= f < 1.0 && 0.0 <= d
    ensures 0.0 <= f * d <= d
  {
  }

  lemma ScaleMonotone(f1: real, f2: real, d: real)
    requires f1 <= f2 && 0.0 <= d
    ensures f1 * d <= f2 * d && d * f1 <= d * f2
  {
  }

  /** An interpolated value lies between the two order statistics it interpolates. */
  lemma {:induction false} InterpolateBracket(s: seq<real>, h: real)
    requires Sorted(s) && 0.0 <= h <= (|s| - 1) as real
    ensures 0 <= h.Floor < |s|
    ensures s[h.Floor] <= Interpolate(s, h)
    ensures h.Floor + 1 < |s| ==> Interpolate(s, h) <= s[h.Floor + 1]
  {
    var lo := h.Floor;
    if lo + 1 < |s| {
      var f, d := h - lo as real, s[lo + 1] - s[lo];
      FractionScales(f, d);
      assert Interpolate(s, h) == s[lo] + f * d;
    }
  }

  /** Interpolation is monotone in the position. */
  lemma {:induction false} InterpolateMonotone(s: seq<real>, h1: real, h2: real)
    requires Sorted(s) && 0.0 <= h1 <= h2 <= (|s| - 1) as real
    ensures Interpolate(s, h1) <= Interpolate(s, h2)
  {
    InterpolateBracket(s, h1);
    InterpolateBracket(s, h2);
    var lo1, lo2 := h1.Floor, h2.Floor;
    if lo1 == lo2 {
      if lo1 + 1 < |s| {
        var d := s[lo1 + 1] - s[lo1];
        ScaleMonotone(h1 - lo1 as real, h2 - lo2 as real, d);
        assert Interpolate(s, h1) == s[lo1] + (h1 - lo1 as real) * d;
        assert Interpolate(s, h2) == s[lo1] + (h2 - lo2 as real) * d;
      }
    } else {
      assert s[lo1 + 1] <= s[lo2];
    }
  }

  /** Quantiles are monotone in `p`; in particular Q1 <= Q3. */
  lemma QuantileMonotone(s: seq<real>, p1: real, p2: real)
    requires Sorted(s) && |s| > 0 && 0.0 <= p1 <= p2 <= 1.0
    ensures Quantile(s, p1) <= Quantile(s, p2)
  {
    PositionMonotone(|s|, p1, p2);
    InterpolateMonotone(s, Position(|s|, p1), Position(|s|, p2));
  }

  /** pandas `median()` of the sorted values `s`: the middle value, or the mean
      of the two middle values when there is an even number of them. */
  function Median(s: seq<real>): (m: real)
    requires Sorted(s) && |s| > 0
    ensures s[0] <= m <= s[|s| - 1]
  {
    var n := |s|;
    if n % 2 == 1 then s[n / 2] else (s[n / 2 - 1] + s[n / 2]) / 2.0
  }

  /** The median is the 0.5 quantile under the linear rule. */
  lemma MedianIsHalfQuantile(s: seq<real>)
    requires Sorted(s) && |s| > 0
    ensures Median(s) == Quantile(s, 0.5)
  {
    var n := |s|;
    var h := Position(n, 0.5);
    if n % 2 == 1 {
      assert h == (n / 2) as real;
      assert h.Floor == n / 2;
    } else {
      assert h == (n / 2 - 1) as real + 0.5;
      assert h.Floor == n / 2 - 1;
    }
  }
}
