/**
 * Python's `bisect.bisect_left` and `bisect.bisect_right` on a sorted
 * sequence of times: the insertion point before, respectively after, every
 * element equal to the searched value.
 */
module Bisect {

  predicate Sorted(a: seq<real>)
  {
    forall i, j :: 0 <= i < j < |a| ==> a[i] <= a[j]
  }

  /** The first index whose element is at least `x` (`|a|` if there is none). */
  function LeftIndex(a: seq<real>, x: real): (i: nat)
    ensures i <= |a|
    ensures forall k :: 0 <= k < i ==> a[k] < x
    ensures i < |a| ==> x <= a[i]
  {
    if |a| == 0 || x <= a[0] then 0 else 1 + LeftIndex(a[1..], x)
  }

  /** The first index whose element is greater than `x` (`|a|` if there is none). */
  function RightIndex(a: seq<real>, x: real): (i: nat)
    ensures i <= |a|
    ensures forall k :: 0 <= k < i ==> a[k] <= x
    ensures i < |a| ==> x < a[i]
  {
    if |a| == 0 || x < a[0] then 0 else 1 + RightIndex(a[1..], x)
  }

  /** `LeftIndex` is the only index that splits `a` into "less than `x`" and "at least `x`". */
  lemma LeftIndexUnique(a: seq<real>, x: real, i: nat)
    requires i <= |a|
    requires forall k :: 0 <= k < i ==> a[k] < x
    requires i < |a| ==> x <= a[i]
    ensures i == LeftIndex(a, x)
  {
  }

  /** `RightIndex` is the only index that splits `a` into "at most `x`" and "greater than `x`". */
  lemma RightIndexUnique(a: seq<real>, x: real, i: nat)
    requires i <= |a|
    requires forall k :: 0 <= k < i ==> a[k] <= x
    requires i < |a| ==> x < a[i]
    ensures i == RightIndex(a, x)
  {
  }

  /** On a sorted sequence, everything from `LeftIndex` on is at least `x`. */
  lemma LeftIndexSplits(a: seq<real>, x: real)
    requires Sorted(a)
    ensures forall k :: LeftIndex(a, x) <= k < |a| ==> x <= a[k]
  {
  }

  /** On a sorted sequence, everything from `RightIndex` on is greater than `x`. */
  lemma RightIndexSplits(a: seq<real>, x: real)
    requires Sorted(a)
    ensures forall k :: RightIndex(a, x) <= k < |a| ==> x < a[k]
  {
  }

  /**
   * `bisect_left(a, x)`: the binary search of the Python library. Everything
   * before the result is less than `x`, everything from it on is at least `x`.
   */
  method BisectLeft(a: seq<real>, x: real) returns (lo: nat)
    requires Sorted(a)
    ensures lo <= |a|
    ensures forall k :: 0 <= k < lo ==> a[k] < x
    ensures forall k :: lo <= k < |a| ==> x <= a[k]
    ensures lo == LeftIndex(a, x)
  {
    lo := 0;
    var hi := |a|;
    while lo < hi
      invariant 0 <= lo <= hi <= |a|
      invariant forall k :: 0 <= k < lo ==> a[k] < x
      invariant forall k :: hi <= k < |a| ==> x <= a[k]
    {
      var mid := (lo + hi) / 2;
      if a[mid] < x {
        lo := mid + 1;
      } else {
        hi := mid;
      }
    }
    LeftIndexUnique(a, x, lo);
  }

  /**
   * `bisect_right(a, x)`: everything before the result is at most `x`,
   * everything from it on is greater than `x`.
   */
  method BisectRight(a: seq<real>, x: real) returns (lo: nat)
    requires Sorted(a)
    ensures lo <= |a|
    ensures forall k :: 0 <= k < lo ==> a[k] <= x
    ensures forall k :: lo <= k < |a| ==> x < a[k]
    ensures lo == RightIndex(a, x)
  {
    lo := 0;
    var hi := |a|;
    while lo < hi
      invariant 0 <= lo <= hi <= |a|
      invariant forall k :: 0 <= k < lo ==> a[k] <= x
      invariant forall k :: hi <= k < |a| ==> x < a[k]
    {
      var mid := (lo + hi) / 2;
      if x < a[mid] {
        hi := mid;
      } else {
        lo := mid + 1;
      }
    }
    RightIndexUnique(a, x, lo);
  }
}
