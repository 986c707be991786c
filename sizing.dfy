/**
 * The full resize pass of updateNodeSize, composed from its steps: normalisation, the
 * minimum-width correction, flooring to pixels and applying the bumped sizes; and the
 * dockability flags validateDocking hands to stack children.
 */
module Sizing {
  import opened Numbers
  import opened Items
  import opened Proportions
  import opened Pixels

  /** Two children that differ at most in their proportion and their element's pixel sizes. */
  predicate SameButSizes(a: Child, b: Child)
  {
    a.(dim := b.dim, pxWidth := b.pxWidth, pxHeight := b.pxHeight) == b
  }

  /** Two sequences of children that agree child by child up to sizes. */
  predicate AllSameButSizes(a: seq<Child>, b: seq<Child>)
  {
    |a| == |b| && forall i :: 0 <= i < |a| ==> SameButSizes(a[i], b[i])
  }

  /** calculateRelativeSizes: normalisation followed by respectMinItemWidth. */
  function RelativeSized(g: Geometry, cs: seq<Child>): (r: seq<Child>)
    ensures |r| == |cs|
  {
    MinWidthApplied(g, Normalised(cs))
  }

  /** updateNodeSize: with children present, the relative pass and then setAbsoluteSizes. */
  function NodeSized(g: Geometry, cs: seq<Child>): (r: seq<Child>)
    ensures |r| == |cs|
  {
    if cs == [] then cs
    else
      var r := RelativeSized(g, cs);
      SizesApplied(g, AbsoluteSizes(g, r), r)
  }

  /** The children's element sizes along the axis. */
  function AxisSizes(g: Geometry, cs: seq<Child>): (r: seq<int>)
    ensures |r| == |cs|
  {
    seq(|cs|, i requires 0 <= i < |cs| => AxisPixels(g, cs[i]))
  }

  lemma {:induction false} NormalisedSame(cs: seq<Child>)
    ensures AllSameButSizes(cs, Normalised(cs))
  {
    var total := SetTotal(cs);
    var u := UnsetCount(cs);
    if Round(total) == 100 {
      assert Normalised(cs) == cs;
    } else if Round(total) < 100 && u > 0 {
      assert Normalised(cs) == Filled(cs, (100.0 - total) / u as real);
    } else {
      var filled := if Round(total) > 100 then Filled(cs, 50.0) else cs;
      var grand := if Round(total) > 100 then total + 50.0 * u as real else total;
      assert AllSameButSizes(cs, filled);
      if grand != 0.0 {
        var r := Scaled(filled, 100.0 / grand);
        assert Normalised(cs) == r;
        forall i | 0 <= i < |cs| ensures SameButSizes(cs[i], r[i]) {
          assert SameButSizes(cs[i], filled[i]) && SameButSizes(filled[i], r[i]);
        }
      }
    }
  }

  lemma {:induction false} MinWidthAppliedSame(g: Geometry, cs: seq<Child>)
    ensures AllSameButSizes(cs, MinWidthApplied(g, cs))
  {
  }

  lemma {:induction false} SizesAppliedSame(g: Geometry, sd: SizeData, cs: seq<Child>)
    requires |sd.itemSizes| == |cs|
    ensures AllSameButSizes(cs, SizesApplied(g, sd, cs))
  {
  }

  lemma {:induction false} SameButSizesDocked(a: seq<Child>, b: seq<Child>)
    requires AllSameButSizes(a, b)
    ensures DockedCount(a) == DockedCount(b)
  {
    assert forall i :: 0 <= i < |a| ==> Docked(a[i]) == Docked(b[i]) by {
      forall i | 0 <= i < |a| ensures Docked(a[i]) == Docked(b[i]) {
        assert SameButSizes(a[i], b[i]);
      }
    }
    DockedCountSameFlags(a, b);
  }

  /**
   * The resize pass touches nothing but proportions and element sizes: identities, stack
   * and dock state, docker records and flags are those of its input.
   */
  lemma {:induction false} NodeSizedSame(g: Geometry, cs: seq<Child>)
    ensures AllSameButSizes(cs, NodeSized(g, cs))
    ensures DockedCount(NodeSized(g, cs)) == DockedCount(cs)
  {
    if cs != [] {
      var n := Normalised(cs);
      var r := RelativeSized(g, cs);
      var sd := AbsoluteSizes(g, r);
      NormalisedSame(cs);
      MinWidthAppliedSame(g, n);
      SizesAppliedSame(g, sd, r);
      var z := NodeSized(g, cs);
      forall i | 0 <= i < |cs| ensures SameButSizes(cs[i], z[i]) {
        assert SameButSizes(cs[i], n[i]) && SameButSizes(n[i], r[i]) && SameButSizes(r[i], z[i]);
      }
    }
    SameButSizesDocked(cs, NodeSized(g, cs));
  }

  /** The axis sizes applied are the floored sizes with the bump. */
  lemma {:induction false} AxisSizesApplied(g: Geometry, sd: SizeData, cs: seq<Child>)
    requires |sd.itemSizes| == |cs|
    ensures AxisSizes(g, SizesApplied(g, sd, cs)) == Padded(sd.itemSizes, sd.additionalPixel)
  {
  }

  /**
   * The pixel budget is met end to end: with no docked child, no minimum-width correction
   * in play, and proportions that normalise to 100 (they total exactly 100, or their total
   * does not round to 100 and is not a zero total of set proportions), the resize pass
   * gives the children element sizes along the axis that total exactly the budget.
   */
  lemma {:induction false} NodeSizedBudget(g: Geometry, cs: seq<Child>)
    requires cs != [] && DockedCount(cs) == 0
    requires g.isColumn || g.minItemWidth == 0
    requires SetTotal(cs) == 100.0 || (Round(SetTotal(cs)) != 100 && !ZeroTotal(cs))
    ensures Sum(AxisSizes(g, NodeSized(g, cs))) == Budget(g, cs)
  {
    var n := Normalised(cs);
    NormalisedOutcomes(cs);
    if SetTotal(cs) == 100.0 {
      RoundHundred(SetTotal(cs));
    }
    assert SetTotal(n) == 100.0;
    assert RelativeSized(g, cs) == n;
    NormalisedSame(cs);
    SameButSizesDocked(cs, n);
    BudgetExact(g, n);
    AxisSizesApplied(g, AbsoluteSizes(g, n), n);
    assert Budget(g, n) == Budget(g, cs) by {
      BudgetFormula(g, n);
      BudgetFormula(g, cs);
    }
  }

  /** A second resize pass over a normalised, uncorrected sequence leaves its proportions alone. */
  lemma {:induction false} RelativeSizedIdempotent(g: Geometry, cs: seq<Child>)
    requires g.isColumn || g.minItemWidth == 0
    ensures RelativeSized(g, RelativeSized(g, cs)) == RelativeSized(g, cs)
  {
    NormalisedIdempotent(cs);
  }
}
