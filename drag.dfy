/**
 * The splitter drag session: the travel range fixed at drag start, the offsets a drag
 * accepts, and the split of the two neighbours' proportions at drag stop.
 */
module Drag {
  import opened Wrappers
  import opened Numbers
  import opened Items

  /** The record getMinimumDimensions returns. */
  datatype MinSizes = MinSizes(horizontal: int, vertical: int)

  /** `x ?? 0` */
  function OrZero(x: Option<int>): int
  {
    if x.Some? then x.value else 0
  }

  /**
   * getMinimumDimensions: the largest configured minimum width and height among a child's
   * own content items, folded from the front starting at 0.
   */
  function MinDimensions(arr: seq<MinDims>): MinSizes
  {
    if arr == [] then MinSizes(0, 0)
    else
      var p := MinDimensions(arr[..|arr| - 1]);
      var last := arr[|arr| - 1];
      MinSizes(Max(OrZero(last.minWidth), p.horizontal), Max(OrZero(last.minHeight), p.vertical))
  }

  /**
   * Each result is the largest configured minimum, or 0 when none is positive: it is at
   * least 0 and every entry's minimum, and it is 0 or one of them.
   */
  lemma {:induction false} MinDimensionsIsMax(arr: seq<MinDims>)
    ensures var r := MinDimensions(arr);
      && r.horizontal >= 0 && r.vertical >= 0
      && (forall i :: 0 <= i < |arr| ==> r.horizontal >= OrZero(arr[i].minWidth))
      && (forall i :: 0 <= i < |arr| ==> r.vertical >= OrZero(arr[i].minHeight))
      && (r.horizontal == 0 || exists i :: 0 <= i < |arr| && r.horizontal == OrZero(arr[i].minWidth))
      && (r.vertical == 0 || exists i :: 0 <= i < |arr| && r.vertical == OrZero(arr[i].minHeight))
  {
    if arr != [] {
      var p := arr[..|arr| - 1];
      MinDimensionsIsMax(p);
      assert forall i :: 0 <= i < |p| ==> p[i] == arr[i];
    }
  }

  /** getMinimumDimensions as the source runs it: one pass with two running maxima. */
  method GetMinimumDimensions(arr: seq<MinDims>) returns (r: MinSizes)
    ensures r == MinDimensions(arr)
  {
    var minWidth, minHeight := 0, 0;
    var i := 0;
    while i < |arr|
      invariant 0 <= i <= |arr|
      invariant MinSizes(minWidth, minHeight) == MinDimensions(arr[..i])
    {
      assert arr[..i + 1][..i] == arr[..i];
      minWidth := Max(OrZero(arr[i].minWidth), minWidth);
      minHeight := Max(OrZero(arr[i].minHeight), minHeight);
      i := i + 1;
    }
    assert arr[..i] == arr;
    r := MinSizes(minWidth, minHeight);
  }

  /** JavaScript's `a || b` on numbers: `b` when `a` is 0. */
  function OrElse(a: int, b: int): int
  {
    if a != 0 then a else b
  }

  /** The travel range onSplitterDragStart fixes for the splitter. */
  datatype Range = Range(lo: real, hi: real)

  /**
   * The range for neighbours currently `beforePx` and `afterPx` pixels long: the splitter
   * may shrink the one before down to its own minimum, or the global minimum when its own
   * is 0, and likewise the one after.
   */
  function StartRange(beforePx: int, afterPx: int, beforeMin: int, afterMin: int, minSize: int): (r: Range)
    ensures r.lo == -(beforePx - OrElse(beforeMin, minSize)) as real
    ensures r.hi == (afterPx - OrElse(afterMin, minSize)) as real
  {
    Range(-1.0 * (beforePx - OrElse(beforeMin, minSize)) as real, (afterPx - OrElse(afterMin, minSize)) as real)
  }

  /** onSplitterDrag records an offset only strictly inside the range. */
  predicate Accepts(r: Range, offset: real)
  {
    r.lo < offset < r.hi
  }

  /** An accepted offset leaves each neighbour at least its effective minimum. */
  lemma {:induction false} AcceptedKeepsMinimums(beforePx: int, afterPx: int, beforeMin: int, afterMin: int, minSize: int, offset: real)
    requires Accepts(StartRange(beforePx, afterPx, beforeMin, afterMin, minSize), offset)
    ensures beforePx as real + offset > OrElse(beforeMin, minSize) as real
    ensures afterPx as real - offset > OrElse(afterMin, minSize) as real
  {
  }

  /** Where the splitter sits between the two neighbours, 0 at the first's start and 1 at the second's end. */
  function PositionInRange(position: real, sizeBefore: int, sizeAfter: int): real
    requires sizeBefore + sizeAfter != 0
  {
    (position + sizeBefore as real) / (sizeBefore + sizeAfter) as real
  }

  /** onSplitterDragStop's new proportions for the neighbours before and after the splitter. */
  function Split(position: real, sizeBefore: int, sizeAfter: int, before: real, after: real): (real, real)
    requires sizeBefore + sizeAfter != 0
  {
    var t := PositionInRange(position, sizeBefore, sizeAfter);
    var total := before + after;
    (t * total, (1.0 - t) * total)
  }

  /** The stop only moves proportion from one neighbour to the other. */
  lemma {:induction false} SplitPreservesTotal(position: real, sizeBefore: int, sizeAfter: int, before: real, after: real)
    requires sizeBefore + sizeAfter != 0
    ensures var (b, a) := Split(position, sizeBefore, sizeAfter, before, after);
      b + a == before + after
  {
    var t := PositionInRange(position, sizeBefore, sizeAfter);
    Complement(t, before + after);
  }

  lemma {:induction false} Complement(t: real, total: real)
    ensures t * total + (1.0 - t) * total == total
  {
  }

  /**
   * A position the drag accepted within a range built from non-negative minimums lies
   * strictly between the two neighbours' outer edges, so both get a positive share of a
   * positive combined proportion.
   */
  lemma {:induction false} SplitWithinRange(beforePx: int, afterPx: int, beforeMin: int, afterMin: int, minSize: int,
                                            position: real, before: real, after: real)
    requires beforeMin >= 0 && afterMin >= 0 && minSize >= 0
    requires Accepts(StartRange(beforePx, afterPx, beforeMin, afterMin, minSize), position)
    requires before + after > 0.0
    ensures beforePx + afterPx > 0
    ensures var (b, a) := Split(position, beforePx, afterPx, before, after);
      0.0 < b < before + after && 0.0 < a < before + after
  {
    var x, d := position + beforePx as real, (beforePx + afterPx) as real;
    assert 0.0 <= OrElse(beforeMin, minSize) as real < x;
    assert x < d by {
      assert position < (afterPx - OrElse(afterMin, minSize)) as real;
    }
    var t := PositionInRange(position, beforePx, afterPx);
    assert t == x / d;
    Fraction(x, d);
    Share(t, before + after);
    Share(1.0 - t, before + after);
  }

  lemma {:induction false} Fraction(x: real, d: real)
    requires 0.0 < x < d
    ensures 0.0 < x / d < 1.0
  {
    var q := x / d;
    assert q * d == x;
    assert (1.0 - q) * d == d - x;
    PositiveFactor(1.0 - q, d);
  }

  lemma {:induction false} PositiveFactor(a: real, b: real)
    requires a * b > 0.0 && b > 0.0
    ensures a > 0.0
  {
  }

  lemma {:induction false} Share(t: real, total: real)
    requires 0.0 < t < 1.0 && total > 0.0
    ensures 0.0 < t * total < total
  {
  }
}
