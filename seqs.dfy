/** Boolean masks over sequences, the way pandas selects rows with `s[mask]`. */
module Seqs {

  /** Number of `true` entries of a mask (pandas `mask.sum()`). */
  function CountTrue(mask: seq<bool>): (n: nat)
    ensures n <= |mask|
  {
    if mask == [] then 0
    else CountTrue(mask[..|mask| - 1]) + (if mask[|mask| - 1] then 1 else 0)
  }

  /** Elementwise negation of a mask (pandas `~mask`). */
  function Not(mask: seq<bool>): seq<bool>
  {
    seq(|mask|, i requires 0 <= i < |mask| => !mask[i])
  }

  /** The entries of `s` whose mask entry is true, in their original order. */
  function Filter<T>(s: seq<T>, mask: seq<bool>): (r: seq<T>)
    requires |mask| == |s|
    ensures |r| == CountTrue(mask)
  {
    if s == [] then []
    else
      var n := |s| - 1;
      Filter(s[..n], mask[..n]) + (if mask[n] then [s[n]] else [])
  }

  /** A mask with a clear entry has fewer set entries than positions. */
  lemma {:induction false} CountTrueBelow(mask: seq<bool>, i: nat)
    requires i < |mask| && !mask[i]
    ensures CountTrue(mask) < |mask|
  {
    var n := |mask| - 1;
    if i < n {
      assert mask[..n][i] == mask[i];
      CountTrueBelow(mask[..n], i);
    }
  }

  /** A mask and its negation together count every position once. */
  lemma {:induction false} CountTrueNot(mask: seq<bool>)
    ensures CountTrue(mask) + CountTrue(Not(mask)) == |mask|
  {
    if mask != [] {
      var n := |mask| - 1;
      assert Not(mask)[..n] == Not(mask[..n]);
      CountTrueNot(mask[..n]);
    }
  }

  /** Positions of the true entries of a mask, in increasing order. */
  function TrueIndices(mask: seq<bool>): (idx: seq<nat>)
    ensures |idx| == CountTrue(mask)
  {
    if mask == [] then []
    else
      var n := |mask| - 1;
      TrueIndices(mask[..n]) + (if mask[n] then [n] else [])
  }

  /** First position of `x` in `s`. */
  function IndexOf<T(==)>(s: seq<T>, x: T): (k: nat)
    requires x in s
    ensures k < |s| && s[k] == x && x !in s[..k]
  {
    if s[0] == x then 0 else 1 + IndexOf(s[1..], x)
  }

  /** The positions picked by a mask are increasing, lie inside `s`, are exactly the
      positions whose mask entry is set, and `Filter` returns the entries at them. */
  lemma {:induction false} FilterPicks<T>(s: seq<T>, mask: seq<bool>)
    requires |mask| == |s|
    ensures |TrueIndices(mask)| == |Filter(s, mask)|
    ensures forall k :: 0 <= k < |TrueIndices(mask)| ==>
              TrueIndices(mask)[k] < |s| && Filter(s, mask)[k] == s[TrueIndices(mask)[k]]
    ensures forall a, b :: 0 <= a < b < |TrueIndices(mask)| ==> TrueIndices(mask)[a] < TrueIndices(mask)[b]
    ensures forall i :: 0 <= i < |s| ==> (mask[i] <==> i in TrueIndices(mask))
  {
    if s != [] {
      var n := |s| - 1;
      FilterPicks(s[..n], mask[..n]);
      var idx, idx' := TrueIndices(mask), TrueIndices(mask[..n]);
      assert idx == idx' + (if mask[n] then [n] else []);
      assert forall k :: 0 <= k < |idx'| ==> idx'[k] < n;
      forall i | 0 <= i < |s|
        ensures mask[i] <==> i in idx
      {
        if i < n {
          assert mask[..n][i] == mask[i];
        } else {
          assert n !in idx';
        }
      }
    }
  }

  /** A mask and its negation split `s` into two parts that together hold every entry. */
  lemma {:induction false} FilterSplit<T>(s: seq<T>, mask: seq<bool>)
    requires |mask| == |s|
    ensures multiset(Filter(s, mask)) + multiset(Filter(s, Not(mask))) == multiset(s)
  {
    if s != [] {
      var n := |s| - 1;
      assert Not(mask)[..n] == Not(mask[..n]);
      FilterSplit(s[..n], mask[..n]);
      assert s == s[..n] + [s[n]];
      assert multiset(s) == multiset(s[..n]) + multiset{s[n]};
    }
  }
}
