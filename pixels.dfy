/**
 * Turning proportions into pixels: the budget along the container's axis, the floored
 * share of each child, the pixels lost to flooring handed out one at a time, and the
 * correction that lifts narrow row children to the configured minimum item width.
 */
module Pixels {
  import opened Wrappers
  import opened Numbers
  import opened Items

  /**
   * What the sizing reads from outside the children: the container element's measured
   * width and height, and the layout's dimensions (`borderWidth` is the splitter size,
   * `headerHeight` the header size; a minimum item size of 0 means "not configured").
   */
  datatype Geometry = Geometry(
    isColumn: bool,
    width: int,
    height: int,
    splitterSize: int,
    headerSize: int,
    minItemWidth: int,
    minItemHeight: int)

  /** The record calculateAbsoluteSizes returns. */
  datatype SizeData = SizeData(itemSizes: seq<int>, additionalPixel: int, totalWidth: int, totalHeight: int)

  /** The container's extent along its axis. */
  function AxisExtent(g: Geometry): int
  {
    if g.isColumn then g.height else g.width
  }

  /** `perDocked` pixels for every docked child, accumulated from the front. */
  function DockDeduction(cs: seq<Child>, perDocked: int): int
  {
    if cs == [] then 0
    else DockDeduction(cs[..|cs| - 1], perDocked) + (if Docked(cs[|cs| - 1]) then perDocked else 0)
  }

  lemma {:induction false} DockDeductionCount(cs: seq<Child>, perDocked: int)
    ensures DockDeduction(cs, perDocked) == DockedCount(cs) * perDocked
  {
    if cs != [] {
      DockDeductionCount(cs[..|cs| - 1], perDocked);
    }
  }

  /**
   * The pixels the children share along the axis: the extent less one splitter between
   * each adjacent pair, less `headerSize - splitterSize` for each docked child.
   */
  function Budget(g: Geometry, cs: seq<Child>): int
  {
    AxisExtent(g) - (|cs| - 1) * g.splitterSize - DockDeduction(cs, g.headerSize - g.splitterSize)
  }

  lemma {:induction false} BudgetFormula(g: Geometry, cs: seq<Child>)
    ensures Budget(g, cs)
      == AxisExtent(g) - (|cs| - 1) * g.splitterSize - DockedCount(cs) * (g.headerSize - g.splitterSize)
  {
    DockDeductionCount(cs, g.headerSize - g.splitterSize);
  }

  /** A child's exact share of the budget; an unset proportion counts as 0. */
  function Portion(budget: int, c: Child): real
  {
    budget as real * (Prop(c) / 100.0)
  }

  /** A docked child gets its header's size; any other child the floor of its share. */
  function ItemSize(g: Geometry, budget: int, c: Child): int
  {
    if Docked(c) then g.headerSize else Floor(Portion(budget, c))
  }

  function ItemSizes(g: Geometry, budget: int, cs: seq<Child>): (r: seq<int>)
    ensures |r| == |cs|
  {
    seq(|cs|, i requires 0 <= i < |cs| => ItemSize(g, budget, cs[i]))
  }

  /** calculateAbsoluteSizes: the floored sizes and the pixels they leave over. */
  function AbsoluteSizes(g: Geometry, cs: seq<Child>): SizeData
  {
    var b := Budget(g, cs);
    var sizes := ItemSizes(g, b, cs);
    SizeData(sizes, b - Sum(sizes),
             if g.isColumn then g.width else b,
             if g.isColumn then b else g.height)
  }

  /**
   * A docked child gets exactly the header size; any other child the largest whole number
   * of pixels not above its share of the budget. The budget is reported on the axis and
   * the full extent across it.
   */
  lemma {:induction false} AbsoluteSizesShape(g: Geometry, cs: seq<Child>)
    ensures var sd := AbsoluteSizes(g, cs);
      && |sd.itemSizes| == |cs|
      && (forall i :: 0 <= i < |cs| && Docked(cs[i]) ==> sd.itemSizes[i] == g.headerSize)
      && (forall i :: 0 <= i < |cs| && !Docked(cs[i]) ==>
            sd.itemSizes[i] as real <= Portion(Budget(g, cs), cs[i]) < sd.itemSizes[i] as real + 1.0)
      && sd.additionalPixel == Budget(g, cs) - Sum(sd.itemSizes)
      && (if g.isColumn then sd.totalHeight else sd.totalWidth) == Budget(g, cs)
      && (if g.isColumn then sd.totalWidth else sd.totalHeight) == (if g.isColumn then g.width else g.height)
  {
    var sd := AbsoluteSizes(g, cs);
    forall i | 0 <= i < |cs| && !Docked(cs[i])
      ensures sd.itemSizes[i] as real <= Portion(Budget(g, cs), cs[i]) < sd.itemSizes[i] as real + 1.0
    {
      assert sd.itemSizes[i] == Floor(Portion(Budget(g, cs), cs[i]));
    }
  }

  /**
   * calculateAbsoluteSizes as the source computes it: one pass deducting the docked
   * headers from the budget, one pass flooring each child's share and summing them.
   */
  method CalculateAbsoluteSizes(g: Geometry, cs: seq<Child>) returns (sd: SizeData)
    ensures sd == AbsoluteSizes(g, cs)
  {
    var totalSplitterSize := (|cs| - 1) * g.splitterSize;
    var totalWidth, totalHeight := g.width, g.height;
    if g.isColumn {
      totalHeight := totalHeight - totalSplitterSize;
    } else {
      totalWidth := totalWidth - totalSplitterSize;
    }
    var i := 0;
    while i < |cs|
      invariant 0 <= i <= |cs|
      invariant (if g.isColumn then totalHeight else totalWidth)
        == AxisExtent(g) - totalSplitterSize - DockDeduction(cs[..i], g.headerSize - g.splitterSize)
      invariant (if g.isColumn then totalWidth else totalHeight) == (if g.isColumn then g.width else g.height)
    {
      assert cs[..i + 1][..i] == cs[..i];
      if IsDocked(cs, i) {
        if g.isColumn {
          totalHeight := totalHeight - (g.headerSize - g.splitterSize);
        } else {
          totalWidth := totalWidth - (g.headerSize - g.splitterSize);
        }
      }
      i := i + 1;
    }
    assert cs[..i] == cs;
    var budget := if g.isColumn then totalHeight else totalWidth;
    assert budget == Budget(g, cs);
    var totalAssigned := 0;
    var itemSizes: seq<int> := [];
    i := 0;
    while i < |cs|
      invariant 0 <= i <= |cs|
      invariant |itemSizes| == i
      invariant forall j :: 0 <= j < i ==> itemSizes[j] == ItemSize(g, budget, cs[j])
      invariant totalAssigned == Sum(itemSizes)
    {
      var itemSize := Floor(Portion(budget, cs[i]));
      if IsDocked(cs, i) {
        itemSize := g.headerSize;
      }
      assert (itemSizes + [itemSize])[..i] == itemSizes;
      totalAssigned := totalAssigned + itemSize;
      itemSizes := itemSizes + [itemSize];
      i := i + 1;
    }
    assert itemSizes == ItemSizes(g, budget, cs);
    sd := SizeData(itemSizes, budget - totalAssigned, totalWidth, totalHeight);
  }

  /** setAbsoluteSizes' bump: child `i` gets one more pixel while `additionalPixel - i > 0`. */
  function Padded(sizes: seq<int>, extra: int): (r: seq<int>)
    ensures |r| == |sizes|
  {
    seq(|sizes|, i requires 0 <= i < |sizes| => sizes[i] + (if extra - i > 0 then 1 else 0))
  }

  /** The bump hands out `extra` pixels, as far as there are children to take them. */
  lemma {:induction false} PaddedSum(sizes: seq<int>, extra: int)
    ensures Sum(Padded(sizes, extra)) == Sum(sizes) + Clamp(extra, 0, |sizes|)
    ensures forall i :: 0 <= i < |sizes| ==> (Padded(sizes, extra)[i] == sizes[i] + 1 <==> i < extra)
    ensures forall i :: 0 <= i < |sizes| ==> (Padded(sizes, extra)[i] == sizes[i] <==> i >= extra)
  {
    if sizes != [] {
      var n := |sizes| - 1;
      assert Padded(sizes, extra)[..n] == Padded(sizes[..n], extra);
      PaddedSum(sizes[..n], extra);
    }
  }

  /**
   * With no docked child and proportions totalling 100, flooring loses fewer pixels than
   * there are children and never gains any, so the bump leaves no pixel of the budget
   * unassigned and assigns none twice: the final sizes total the budget exactly.
   */
  lemma {:induction false} BudgetExact(g: Geometry, cs: seq<Child>)
    requires cs != [] && DockedCount(cs) == 0 && SetTotal(cs) == 100.0
    ensures var sd := AbsoluteSizes(g, cs);
      && 0 <= sd.additionalPixel < |cs|
      && Sum(Padded(sd.itemSizes, sd.additionalPixel)) == Budget(g, cs)
  {
    var b := Budget(g, cs);
    var sd := AbsoluteSizes(g, cs);
    var xs := Portions(Props(cs), b as real);
    UndockedFloors(g, cs);
    FloorSum(sd.itemSizes, xs);
    PortionsTotal(Props(cs), b as real);
    WholePortion(b as real, Total(Props(cs)));
    PaddedSum(sd.itemSizes, sd.additionalPixel);
  }

  /**
   * With a docked child the bump falls short. The budget already nets out the docked
   * headers, but the leftover is taken after the headers' sizes are summed, so it is the
   * flooring loss less every docked header. A row 302 pixels wide with 5-pixel splitters,
   * 20-pixel headers and children at 50, 50 and docked has a budget of 277. The undocked
   * children floor 138.5 to 138 each, the leftover is -19, no child is bumped, and one
   * pixel of the budget goes unassigned.
   */
  lemma {:induction false} DockedBumpShort()
    ensures var c := Child(0, None, true, false, 0.0, 0, 0, 0, [], Top, true, true);
      var cs := [c.(id := 1, dim := Some(50.0)), c.(id := 2, dim := Some(50.0)), c.(id := 3, dim := Some(0.0), docked := true)];
      var g := Geometry(false, 302, 100, 5, 20, 0, 0);
      var sd := AbsoluteSizes(g, cs);
      && SetTotal(cs) == 100.0
      && Budget(g, cs) == 277
      && sd.itemSizes == [138, 138, 20]
      && sd.additionalPixel == -19
      && Padded(sd.itemSizes, sd.additionalPixel) == sd.itemSizes
      && Sum(sd.itemSizes) - g.headerSize == Budget(g, cs) - 1
  {
    var c := Child(0, None, true, false, 0.0, 0, 0, 0, [], Top, true, true);
    var cs := [c.(id := 1, dim := Some(50.0)), c.(id := 2, dim := Some(50.0)), c.(id := 3, dim := Some(0.0), docked := true)];
    var g := Geometry(false, 302, 100, 5, 20, 0, 0);
    assert DockDeduction(cs, 15) == 15 by {
      assert cs[..2][..1] == cs[..1] && cs[..1][..0] == [];
      assert DockDeduction(cs[..1], 15) == 0;
      assert DockDeduction(cs[..2], 15) == 0;
    }
    assert Floor(Portion(277, cs[0])) == 138 && Floor(Portion(277, cs[1])) == 138;
    var sizes := ItemSizes(g, 277, cs);
    assert sizes == [138, 138, 20];
    assert Sum(sizes) == 296 by {
      assert sizes[..2][..1] == sizes[..1] && sizes[..1][..0] == [];
      assert Sum(sizes[..1]) == 138;
      assert Sum(sizes[..2]) == 276;
    }
    assert SetTotal(cs) == 100.0 by {
      var ps := Props(cs);
      assert ps == [50.0, 50.0, 0.0];
      assert ps[..2][..1] == ps[..1] && ps[..1][..0] == [];
      assert Total(ps[..1]) == 50.0;
      assert Total(ps[..2]) == 100.0;
    }
  }

  /** With no docked child every item size is the floor of the child's share. */
  lemma {:induction false} UndockedFloors(g: Geometry, cs: seq<Child>)
    requires DockedCount(cs) == 0
    ensures var xs := Portions(Props(cs), Budget(g, cs) as real);
      forall i :: 0 <= i < |cs| ==> AbsoluteSizes(g, cs).itemSizes[i] == Floor(xs[i])
  {
    var b := Budget(g, cs);
    var xs := Portions(Props(cs), b as real);
    DockedCountBound(cs);
    forall i | 0 <= i < |cs| ensures AbsoluteSizes(g, cs).itemSizes[i] == Floor(xs[i]) {
      assert !Docked(cs[i]);
      assert Props(cs)[i] == Prop(cs[i]);
      assert xs[i] == Portion(b, cs[i]);
    }
  }

  /**
   * setAbsoluteSizes: each child's element gets its bumped size on the axis and the full
   * cross extent reported by calculateAbsoluteSizes.
   */
  function SizesApplied(g: Geometry, sd: SizeData, cs: seq<Child>): (r: seq<Child>)
    requires |sd.itemSizes| == |cs|
    ensures |r| == |cs|
  {
    var finals := Padded(sd.itemSizes, sd.additionalPixel);
    seq(|cs|, i requires 0 <= i < |cs| =>
      if g.isColumn then cs[i].(pxWidth := sd.totalWidth, pxHeight := finals[i])
      else cs[i].(pxWidth := finals[i], pxHeight := sd.totalHeight))
  }

  /** The axis size of a child's element. */
  function AxisPixels(g: Geometry, c: Child): int
  {
    if g.isColumn then c.pxHeight else c.pxWidth
  }

  /** The cross-axis size of a child's element. */
  function CrossPixels(g: Geometry, c: Child): int
  {
    if g.isColumn then c.pxWidth else c.pxHeight
  }

  /**
   * Applying the sizes changes only the pixel fields: every child spans the container's
   * full cross extent, and its axis size is its floored share plus the bump.
   */
  lemma {:induction false} SizesAppliedShape(g: Geometry, cs: seq<Child>)
    ensures var sd := AbsoluteSizes(g, cs);
      var r := SizesApplied(g, sd, cs);
      && (forall i :: 0 <= i < |cs| ==> CrossPixels(g, r[i]) == (if g.isColumn then g.width else g.height))
      && (forall i :: 0 <= i < |cs| ==>
            AxisPixels(g, r[i]) == sd.itemSizes[i] + (if sd.additionalPixel - i > 0 then 1 else 0))
      && (forall i :: 0 <= i < |cs| ==>
            r[i].(pxWidth := cs[i].pxWidth, pxHeight := cs[i].pxHeight) == cs[i])
  {
    AbsoluteSizesShape(g, cs);
  }

  // ---------------------------------------------------------------- minimum item width

  /** How far the entries under the minimum fall short of it, in total. */
  function UnderMin(sizes: seq<int>, m: int): (r: int)
    ensures r >= 0
  {
    if sizes == [] then 0
    else UnderMin(sizes[..|sizes| - 1], m) + (if sizes[|sizes| - 1] < m then m - sizes[|sizes| - 1] else 0)
  }

  /** How far the entries at or over the minimum exceed it, in total. */
  function OverMin(sizes: seq<int>, m: int): (r: int)
    ensures r >= 0
  {
    if sizes == [] then 0
    else OverMin(sizes[..|sizes| - 1], m) + (if sizes[|sizes| - 1] < m then 0 else sizes[|sizes| - 1] - m)
  }

  lemma {:induction false} UnderMinZero(sizes: seq<int>, m: int)
    ensures UnderMin(sizes, m) == 0 <==> forall i :: 0 <= i < |sizes| ==> sizes[i] >= m
  {
    if sizes != [] {
      var p := sizes[..|sizes| - 1];
      UnderMinZero(p, m);
      assert forall i :: 0 <= i < |p| ==> p[i] == sizes[i];
    }
  }

  /** Each entry's starting width: the minimum for an entry under it, its size otherwise. */
  function Entries(sizes: seq<int>, m: int): (r: seq<int>)
    ensures |r| == |sizes|
  {
    seq(|sizes|, i requires 0 <= i < |sizes| => if sizes[i] < m then m else sizes[i])
  }

  lemma {:induction false} EntriesSum(sizes: seq<int>, m: int)
    ensures Sum(Entries(sizes, m)) == Sum(sizes) + UnderMin(sizes, m)
  {
    if sizes != [] {
      var n := |sizes| - 1;
      assert Entries(sizes, m)[..n] == Entries(sizes[..n], m);
      EntriesSum(sizes[..n], m);
    }
  }

  /** What an entry over the minimum gives up: its excess scaled by `ratio`, rounded. */
  function Reduction(size: int, m: int, ratio: real): int
  {
    if size < m then 0 else Round((size - m) as real * ratio)
  }

  function Reductions(sizes: seq<int>, m: int, ratio: real): (r: seq<int>)
    ensures |r| == |sizes|
  {
    seq(|sizes|, i requires 0 <= i < |sizes| => Reduction(sizes[i], m, ratio))
  }

  /** A reduction by a ratio in (0, 1] keeps the entry at or above the minimum. */
  lemma {:induction false} ReductionBound(size: int, m: int, ratio: real)
    requires size >= m && 0.0 < ratio <= 1.0
    ensures 0 <= Reduction(size, m, ratio) <= size - m
  {
    var x := (size - m) as real;
    ScaledDown(x, ratio);
  }

  lemma {:induction false} ScaledDown(x: real, ratio: real)
    requires x >= 0.0 && 0.0 < ratio <= 1.0
    ensures 0.0 <= x * ratio <= x
  {
  }

  /**
   * respectMinItemWidth's correction of the floored item sizes, for minimum `m`: `None`
   * when nothing is under the minimum or the surplus cannot cover the deficit. Otherwise
   * every entry under the minimum is raised to it, every other entry gives up its excess
   * scaled by deficit/surplus (rounded), and the rounding remainder is taken from the last
   * entry.
   */
  function MinWidthCorrection(sizes: seq<int>, m: int): (r: Option<seq<int>>)
    ensures r.Some? ==> |r.value| == |sizes| && sizes != []
  {
    var under, over := UnderMin(sizes, m), OverMin(sizes, m);
    if under == 0 || under > over then None
    else
      var ratio := under as real / over as real;
      var w := Minus(Entries(sizes, m), Reductions(sizes, m, ratio));
      var remaining := under - Sum(Reductions(sizes, m, ratio));
      assert sizes != [];
      Some(if remaining != 0 then w[|w| - 1 := w[|w| - 1] - remaining] else w)
  }

  /** The correction applies exactly when some entry is under the minimum and the surplus covers the deficit. */
  lemma {:induction false} MinWidthApplies(sizes: seq<int>, m: int)
    ensures MinWidthCorrection(sizes, m).Some?
      <==> (exists i :: 0 <= i < |sizes| && sizes[i] < m) && UnderMin(sizes, m) <= OverMin(sizes, m)
  {
    UnderMinZero(sizes, m);
  }

  /** The corrected widths total what the floored sizes did: the correction moves pixels, it does not make them. */
  lemma {:induction false} MinWidthConserves(sizes: seq<int>, m: int)
    requires MinWidthCorrection(sizes, m).Some?
    ensures Sum(MinWidthCorrection(sizes, m).value) == Sum(sizes)
  {
    var under, over := UnderMin(sizes, m), OverMin(sizes, m);
    var ratio := under as real / over as real;
    var es, rs := Entries(sizes, m), Reductions(sizes, m, ratio);
    var w := Minus(es, rs);
    var remaining := under - Sum(rs);
    EntriesSum(sizes, m);
    SumMinus(es, rs);
    SumUpdateLast(w, w[|w| - 1] - remaining);
  }

  /**
   * Apart from the last entry, which absorbs the rounding remainder: every entry under
   * the minimum ends exactly at it, and every other entry ends between the minimum and
   * its own size.
   */
  lemma {:induction false} MinWidthLifts(sizes: seq<int>, m: int)
    requires MinWidthCorrection(sizes, m).Some?
    ensures var w := MinWidthCorrection(sizes, m).value;
      && (forall i :: 0 <= i < |sizes| - 1 && sizes[i] < m ==> w[i] == m)
      && (forall i :: 0 <= i < |sizes| - 1 && sizes[i] >= m ==> m <= w[i] <= sizes[i])
  {
    var under, over := UnderMin(sizes, m), OverMin(sizes, m);
    UnderMinZero(sizes, m);
    var ratio := under as real / over as real;
    RatioBound(under, over);
    var w := MinWidthCorrection(sizes, m).value;
    forall i | 0 <= i < |sizes| - 1 && sizes[i] >= m ensures m <= w[i] <= sizes[i] {
      ReductionBound(sizes[i], m, ratio);
      assert w[i] == sizes[i] - Reduction(sizes[i], m, ratio);
    }
    forall i | 0 <= i < |sizes| - 1 && sizes[i] < m ensures w[i] == m {
      assert w[i] == m - Reduction(sizes[i], m, ratio);
    }
  }

  lemma {:induction false} RatioBound(under: int, over: int)
    requires 0 < under <= over
    ensures 0.0 < under as real / over as real <= 1.0
  {
  }

  /** The deficit and surplus of 12, 12, 12, 12, 12, 8 against a minimum of 10. */
  lemma {:induction false} MinWidthFixtureTotals()
    ensures UnderMin([12, 12, 12, 12, 12, 8], 10) == 2 && OverMin([12, 12, 12, 12, 12, 8], 10) == 10
  {
    assert UnderMin([12], 10) == 0 by { assert [12][..0] == []; }
    assert UnderMin([12, 12], 10) == 0 by { assert [12, 12][..1] == [12]; }
    assert UnderMin([12, 12, 12], 10) == 0 by { assert [12, 12, 12][..2] == [12, 12]; }
    assert UnderMin([12, 12, 12, 12], 10) == 0 by { assert [12, 12, 12, 12][..3] == [12, 12, 12]; }
    assert UnderMin([12, 12, 12, 12, 12], 10) == 0 by { assert [12, 12, 12, 12, 12][..4] == [12, 12, 12, 12]; }
    assert UnderMin([12, 12, 12, 12, 12, 8], 10) == 2 by { assert [12, 12, 12, 12, 12, 8][..5] == [12, 12, 12, 12, 12]; }
    assert OverMin([12], 10) == 2 by { assert [12][..0] == []; }
    assert OverMin([12, 12], 10) == 4 by { assert [12, 12][..1] == [12]; }
    assert OverMin([12, 12, 12], 10) == 6 by { assert [12, 12, 12][..2] == [12, 12]; }
    assert OverMin([12, 12, 12, 12], 10) == 8 by { assert [12, 12, 12, 12][..3] == [12, 12, 12]; }
    assert OverMin([12, 12, 12, 12, 12], 10) == 10 by { assert [12, 12, 12, 12, 12][..4] == [12, 12, 12, 12]; }
    assert OverMin([12, 12, 12, 12, 12, 8], 10) == 10 by { assert [12, 12, 12, 12, 12, 8][..5] == [12, 12, 12, 12, 12]; }
  }

  /** Six reductions of 0 sum to 0. */
  lemma {:induction false} ZeroSum()
    ensures Sum([0, 0, 0, 0, 0, 0]) == 0
  {
    assert Sum([0]) == 0 by { assert [0][..0] == []; }
    assert Sum([0, 0]) == 0 by { assert [0, 0][..1] == [0]; }
    assert Sum([0, 0, 0]) == 0 by { assert [0, 0, 0][..2] == [0, 0]; }
    assert Sum([0, 0, 0, 0]) == 0 by { assert [0, 0, 0, 0][..3] == [0, 0, 0]; }
    assert Sum([0, 0, 0, 0, 0]) == 0 by { assert [0, 0, 0, 0, 0][..4] == [0, 0, 0, 0]; }
    assert Sum([0, 0, 0, 0, 0, 0]) == 0 by { assert [0, 0, 0, 0, 0, 0][..5] == [0, 0, 0, 0, 0]; }
  }

  /**
   * The last entry takes the remainder even when it is the one under the minimum: for
   * sizes 12, 12, 12, 12, 12, 8 and minimum 10 every reduction rounds 0.4 down to 0, and
   * the last child keeps its 8 pixels.
   */
  lemma {:induction false} MinWidthLastStaysUnder()
    ensures MinWidthCorrection([12, 12, 12, 12, 12, 8], 10) == Some([12, 12, 12, 12, 12, 8])
  {
    var sizes := [12, 12, 12, 12, 12, 8];
    MinWidthFixtureTotals();
    ZeroSum();
    var rs := Reductions(sizes, 10, 0.2);
    assert Round(2.0 * 0.2) == 0;
    assert rs == [0, 0, 0, 0, 0, 0];
    assert Entries(sizes, 10) == [12, 12, 12, 12, 12, 10];
    assert 2 as real / 10 as real == 0.2;
    assert Minus(Entries(sizes, 10), rs) == [12, 12, 12, 12, 12, 10];
    assert UnderMin(sizes, 10) as real / OverMin(sizes, 10) as real == 0.2;
    assert Reductions(sizes, 10, UnderMin(sizes, 10) as real / OverMin(sizes, 10) as real) == rs;
    assert MinWidthCorrection(sizes, 10) == Some([12, 12, 12, 12, 12, 10][5 := 10 - 2]);
    assert [12, 12, 12, 12, 12, 10][5 := 10 - 2] == [12, 12, 12, 12, 12, 8];
  }

  /**
   * The first pass of respectMinItemWidth: the total deficit of the entries under the
   * minimum, the total surplus of the others, and each entry's starting width.
   */
  method MinWidthTotals(sizes: seq<int>, m: int) returns (totalUnderMin: int, totalOverMin: int, entries: seq<int>)
    ensures totalUnderMin == UnderMin(sizes, m) && totalOverMin == OverMin(sizes, m)
    ensures entries == Entries(sizes, m)
  {
    totalOverMin, totalUnderMin := 0, 0;
    entries := [];
    var i := 0;
    while i < |sizes|
      invariant 0 <= i <= |sizes|
      invariant totalUnderMin == UnderMin(sizes[..i], m)
      invariant totalOverMin == OverMin(sizes[..i], m)
      invariant |entries| == i
      invariant forall j :: 0 <= j < i ==> entries[j] == Entries(sizes, m)[j]
    {
      assert sizes[..i + 1][..i] == sizes[..i];
      var itemSize := sizes[i];
      if itemSize < m {
        totalUnderMin := totalUnderMin + (m - itemSize);
        entries := entries + [m];
      } else {
        totalOverMin := totalOverMin + (itemSize - m);
        entries := entries + [itemSize];
      }
      i := i + 1;
    }
    assert sizes[..i] == sizes;
  }

  /**
   * The second pass of respectMinItemWidth: each entry over the minimum gives up its
   * excess scaled by `reducePercent`, rounded, and the remaining deficit counts down.
   */
  method ReduceOverMin(sizes: seq<int>, m: int, entries0: seq<int>, totalUnderMin: int, reducePercent: real)
    returns (entries: seq<int>, remainingWidth: int)
    requires entries0 == Entries(sizes, m)
    ensures entries == Minus(Entries(sizes, m), Reductions(sizes, m, reducePercent))
    ensures remainingWidth == totalUnderMin - Sum(Reductions(sizes, m, reducePercent))
  {
    ghost var rs := Reductions(sizes, m, reducePercent);
    entries, remainingWidth := entries0, totalUnderMin;
    var i := 0;
    while i < |entries|
      invariant 0 <= i <= |entries| == |sizes|
      invariant forall j :: 0 <= j < i ==> entries[j] == Entries(sizes, m)[j] - rs[j]
      invariant forall j :: i <= j < |entries| ==> entries[j] == Entries(sizes, m)[j]
      invariant remainingWidth == totalUnderMin - Sum(rs[..i])
    {
      assert rs[..i + 1][..i] == rs[..i];
      if sizes[i] >= m {
        var reducedWidth := Reduction(entries[i], m, reducePercent);
        remainingWidth := remainingWidth - reducedWidth;
        entries := entries[i := entries[i] - reducedWidth];
      }
      i := i + 1;
    }
    assert rs[..i] == rs;
  }

  /**
   * The correction as the source runs it: the first pass, then a pass that reduces the
   * entries over the minimum while counting down the remaining deficit, and the
   * adjustment of the last entry.
   */
  method CorrectMinWidths(sizes: seq<int>, m: int) returns (r: Option<seq<int>>)
    ensures r == MinWidthCorrection(sizes, m)
  {
    var totalUnderMin, totalOverMin, entries := MinWidthTotals(sizes, m);
    if totalUnderMin == 0 || totalUnderMin > totalOverMin {
      return None;
    }
    var reducePercent := totalUnderMin as real / totalOverMin as real;
    var remainingWidth;
    entries, remainingWidth := ReduceOverMin(sizes, m, entries, totalUnderMin, reducePercent);
    if remainingWidth != 0 {
      entries := entries[|entries| - 1 := entries[|entries| - 1] - remainingWidth];
    }
    r := Some(entries);
  }

  /** A corrected pixel width as a proportion of the total width. */
  function WidthShare(w: int, totalWidth: int): real
    requires totalWidth != 0
  {
    (w as real / totalWidth as real) * 100.0
  }

  /**
   * respectMinItemWidth on the children: nothing for a column, an unset (0) minimum or at
   * most one child; otherwise the corrected widths, if any, become proportions of the
   * budget. A zero budget, where the source would divide by zero, leaves them unchanged.
   */
  function MinWidthApplied(g: Geometry, cs: seq<Child>): (r: seq<Child>)
    ensures |r| == |cs|
  {
    if g.isColumn || g.minItemWidth == 0 || |cs| <= 1 then cs
    else
      var sd := AbsoluteSizes(g, cs);
      var corrected := MinWidthCorrection(sd.itemSizes, g.minItemWidth);
      if corrected.None? || sd.totalWidth == 0 then cs
      else
        seq(|cs|, i requires 0 <= i < |cs| =>
          cs[i].(dim := Some(WidthShare(corrected.value[i], sd.totalWidth))))
  }
}
