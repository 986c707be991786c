/**
 * The children of a row or column: their proportions along the container's axis,
 * their dock state, and the counts and sums the container computes over them.
 */
module Items {
  import opened Wrappers
  import opened Numbers

  /** A configured item type; only Row and Column may back a RowOrColumn. */
  datatype ItemType = Row | Column | Stack | Component

  /** The edge a stack's header sits on. */
  datatype Side = Top | Left | Right | Bottom

  /** The errors the container throws. */
  datatype Error =
    | NotAChild       // remove/dock/replace of an item that is not a child
    | SingleChild     // dock while the container holds a single child
    | LastUndocked    // docking would leave fewer than two undocked children
    | UnexpectedNull  // a drag event without the range or position set by drag start
    | BadConfigType   // a RowOrColumn configured with a type that is neither row nor column

  /** The configured minimum sizes of one of a child's own content items (`?? 0` when absent). */
  datatype MinDims = MinDims(minWidth: Option<int>, minHeight: Option<int>)

  /**
   * One content item of the container.
   * `dim` is its proportion along the container's axis (`width` for a row, `height` for
   * a column), `None` when unset. `docked`, `dockSize` and `realSize` are a stack's docker
   * fields. `pxWidth`/`pxHeight` are the pixel sizes last applied to its element.
   */
  datatype Child = Child(
    id: nat,
    dim: Option<real>,
    isStack: bool,
    docked: bool,
    dockSize: real,
    realSize: int,
    pxWidth: int,
    pxHeight: int,
    contentMins: seq<MinDims>,
    headerSide: Side,
    dockable: bool,
    rowColumnClosable: bool)

  /**
   * A splitter between two adjacent children: an identity (the source compares splitter
   * objects) and whether its element is displayed.
   */
  datatype Splitter = Splitter(id: nat, visible: bool)

  /** A child counts as docked only if it is a Stack whose docker says so. */
  predicate Docked(c: Child)
  {
    c.isStack && c.docked
  }

  /** `isDocked(index)`: an index past the end (or before the start) is never docked. */
  function IsDocked(cs: seq<Child>, i: int): (r: bool)
    ensures r ==> 0 <= i < |cs| && cs[i].isStack
  {
    0 <= i < |cs| && Docked(cs[i])
  }

  /** The number of docked children, counted from the front. */
  function DockedCount(cs: seq<Child>): nat
  {
    if cs == [] then 0
    else DockedCount(cs[..|cs| - 1]) + (if Docked(cs[|cs| - 1]) then 1 else 0)
  }

  lemma {:induction false} DockedCountAppend(a: seq<Child>, b: seq<Child>)
    ensures DockedCount(a + b) == DockedCount(a) + DockedCount(b)
    decreases |b|
  {
    if b == [] {
      assert a + b == a;
    } else {
      assert (a + b)[..|a + b| - 1] == a + b[..|b| - 1];
      DockedCountAppend(a, b[..|b| - 1]);
    }
  }

  /** At most every child is docked. */
  lemma {:induction false} DockedCountBound(cs: seq<Child>)
    ensures DockedCount(cs) <= |cs|
    ensures DockedCount(cs) == |cs| <==> forall i :: 0 <= i < |cs| ==> Docked(cs[i])
    ensures DockedCount(cs) == 0 <==> forall i :: 0 <= i < |cs| ==> !Docked(cs[i])
  {
    if cs != [] {
      var p := cs[..|cs| - 1];
      DockedCountBound(p);
      assert forall i :: 0 <= i < |p| ==> p[i] == cs[i];
    }
  }

  /** `calculateDockedCount`: one pass over the children with a running count. */
  method CalculateDockedCount(cs: seq<Child>) returns (count: nat)
    ensures count == DockedCount(cs)
    ensures count <= |cs|
  {
    count := 0;
    var i := 0;
    while i < |cs|
      invariant 0 <= i <= |cs|
      invariant count == DockedCount(cs[..i])
    {
      assert cs[..i + 1][..i] == cs[..i];
      if IsDocked(cs, i) {
        count := count + 1;
      }
      i := i + 1;
    }
    assert cs[..i] == cs;
    DockedCountBound(cs);
  }

  /** The children removed from `cs` at position `i`, split around it. */
  lemma {:induction false} DockedCountAround(cs: seq<Child>, i: nat)
    requires i < |cs|
    ensures DockedCount(cs) == DockedCount(cs[..i]) + DockedCount(cs[i + 1..]) + (if Docked(cs[i]) then 1 else 0)
  {
    assert cs == cs[..i] + [cs[i]] + cs[i + 1..];
    DockedCountAppend(cs[..i] + [cs[i]], cs[i + 1..]);
    DockedCountAppend(cs[..i], [cs[i]]);
    assert [cs[i]][..0] == [];
  }

  /** The docked count of a sequence assembled around one child. */
  lemma {:induction false} DockedCountJoin(a: seq<Child>, x: Child, b: seq<Child>)
    ensures DockedCount(a + [x] + b) == DockedCount(a) + (if Docked(x) then 1 else 0) + DockedCount(b)
  {
    DockedCountAppend(a + [x], b);
    DockedCountAppend(a, [x]);
    assert [x][..0] == [];
  }

  /** The children's identities, in order. */
  function Ids(cs: seq<Child>): (r: seq<nat>)
    ensures |r| == |cs| && forall j :: 0 <= j < |cs| ==> r[j] == cs[j].id
  {
    seq(|cs|, j requires 0 <= j < |cs| => cs[j].id)
  }

  /** Every child has an explicit proportion. */
  predicate AllSet(cs: seq<Child>)
  {
    forall i :: 0 <= i < |cs| ==> cs[i].dim.Some?
  }

  /** The value a proportion contributes to a total; an unset one contributes nothing. */
  function Prop(c: Child): real
  {
    if c.dim.Some? then c.dim.value else 0.0
  }

  /** Each child's contribution to a total of proportions. */
  function Props(cs: seq<Child>): (r: seq<real>)
    ensures |r| == |cs|
  {
    seq(|cs|, i requires 0 <= i < |cs| => Prop(cs[i]))
  }

  /** The sum of the explicit proportions (`total` in calculateRelativeSizes). */
  function SetTotal(cs: seq<Child>): real
  {
    Total(Props(cs))
  }

  /** The number of children without an explicit proportion. */
  function UnsetCount(cs: seq<Child>): nat
  {
    if cs == [] then 0 else UnsetCount(cs[..|cs| - 1]) + (if cs[|cs| - 1].dim.None? then 1 else 0)
  }

  lemma {:induction false} UnsetCountAppend(a: seq<Child>, b: seq<Child>)
    ensures UnsetCount(a + b) == UnsetCount(a) + UnsetCount(b)
    decreases |b|
  {
    if b == [] {
      assert a + b == a;
    } else {
      assert (a + b)[..|a + b| - 1] == a + b[..|b| - 1];
      UnsetCountAppend(a, b[..|b| - 1]);
    }
  }

  lemma {:induction false} SetTotalAppend(a: seq<Child>, b: seq<Child>)
    ensures SetTotal(a + b) == SetTotal(a) + SetTotal(b)
    ensures UnsetCount(a + b) == UnsetCount(a) + UnsetCount(b)
  {
    assert Props(a + b) == Props(a) + Props(b);
    TotalAppend(Props(a), Props(b));
    UnsetCountAppend(a, b);
  }

  /** The totals of a sequence split around one child. */
  lemma {:induction false} SetTotalAround(a: seq<Child>, x: Child, b: seq<Child>)
    ensures SetTotal(a + [x] + b) == SetTotal(a) + Prop(x) + SetTotal(b)
    ensures UnsetCount(a + [x] + b) == UnsetCount(a) + (if x.dim.None? then 1 else 0) + UnsetCount(b)
    ensures DockedCount(a + [x] + b) == DockedCount(a) + (if Docked(x) then 1 else 0) + DockedCount(b)
  {
    SetTotalAppend(a + [x], b);
    SetTotalAppend(a, [x]);
    DockedCountJoin(a, x, b);
    assert [x][..0] == [];
    assert Props([x]) == [Prop(x)];
    TotalSingle(Prop(x));
  }

  /** A sequence with no unset child has an unset count of zero, and conversely. */
  lemma {:induction false} UnsetCountZero(cs: seq<Child>)
    ensures UnsetCount(cs) == 0 <==> AllSet(cs)
  {
    if cs != [] {
      var p := cs[..|cs| - 1];
      UnsetCountZero(p);
      assert forall i :: 0 <= i < |p| ==> p[i] == cs[i];
    }
  }

  /** One child's explicit proportion multiplied by `k`; an unset one stays unset. */
  function ScaleOne(c: Child, k: real): Child
  {
    if c.dim.Some? then c.(dim := Some(c.dim.value * k)) else c
  }

  /** Every explicit proportion multiplied by `k` (the `*=` of addChild and of undocking). */
  function Scaled(cs: seq<Child>, k: real): (r: seq<Child>)
    ensures |r| == |cs|
  {
    seq(|cs|, i requires 0 <= i < |cs| => ScaleOne(cs[i], k))
  }

  /** Every undocked child's explicit proportion increased by `share` (removal and docking). */
  function Shared(cs: seq<Child>, share: real): (r: seq<Child>)
    ensures |r| == |cs|
  {
    seq(|cs|, i requires 0 <= i < |cs| => ShareOne(cs[i], share))
  }

  /** One child's `+= share`, for an undocked child with an explicit proportion. */
  function ShareOne(c: Child, share: real): Child
  {
    if !Docked(c) && c.dim.Some? then c.(dim := Some(c.dim.value + share)) else c
  }

  /** Every unset child given the proportion `v`. */
  function Filled(cs: seq<Child>, v: real): (r: seq<Child>)
    ensures |r| == |cs|
  {
    seq(|cs|, i requires 0 <= i < |cs| => if cs[i].dim.None? then cs[i].(dim := Some(v)) else cs[i])
  }

  /** 1 for each undocked child, 0 for each docked one. */
  function UndockedMask(cs: seq<Child>): (r: seq<real>)
    ensures |r| == |cs|
  {
    seq(|cs|, i requires 0 <= i < |cs| => if Docked(cs[i]) then 0.0 else 1.0)
  }

  /** 1 for each unset child, 0 for each set one. */
  function UnsetMask(cs: seq<Child>): (r: seq<real>)
    ensures |r| == |cs|
  {
    seq(|cs|, i requires 0 <= i < |cs| => if cs[i].dim.None? then 1.0 else 0.0)
  }

  /** The number of undocked children, as a real. */
  function UndockedWeight(cs: seq<Child>): real
  {
    Total(UndockedMask(cs))
  }

  /** The number of unset children, as a real. */
  function UnsetWeight(cs: seq<Child>): real
  {
    Total(UnsetMask(cs))
  }

  lemma {:induction false} UndockedWeightCount(cs: seq<Child>)
    ensures UndockedWeight(cs) == (|cs| - DockedCount(cs)) as real
  {
    if cs != [] {
      var p := cs[..|cs| - 1];
      assert UndockedMask(cs)[..|cs| - 1] == UndockedMask(p);
      UndockedWeightCount(p);
    }
  }

  lemma {:induction false} UnsetWeightCount(cs: seq<Child>)
    ensures UnsetWeight(cs) == UnsetCount(cs) as real
  {
    if cs != [] {
      var p := cs[..|cs| - 1];
      assert UnsetMask(cs)[..|cs| - 1] == UnsetMask(p);
      UnsetWeightCount(p);
    }
  }

  /** Scaling every proportion by `k` scales their total by `k`. */
  lemma {:induction false} ScaledTotal(cs: seq<Child>, k: real)
    ensures SetTotal(Scaled(cs, k)) == k * SetTotal(cs)
  {
    ScaledProps(cs, k);
    ScaleTotal(Props(cs), k);
  }

  lemma {:induction false} ScaledProps(cs: seq<Child>, k: real)
    ensures Props(Scaled(cs, k)) == Scale(Props(cs), k)
  {
    forall i | 0 <= i < |cs| ensures Props(Scaled(cs, k))[i] == Scale(Props(cs), k)[i] {
      assert Scaled(cs, k)[i] == ScaleOne(cs[i], k);
    }
  }

  /** Scaling leaves the unset children unset. */
  lemma {:induction false} ScaledUnset(cs: seq<Child>, k: real)
    ensures UnsetCount(Scaled(cs, k)) == UnsetCount(cs)
  {
    assert UnsetMask(Scaled(cs, k)) == UnsetMask(cs);
    UnsetWeightCount(cs);
    UnsetWeightCount(Scaled(cs, k));
  }

  /** Adding `share` to every undocked child adds `share` once per undocked child. */
  lemma {:induction false} SharedTotal(cs: seq<Child>, share: real)
    requires AllSet(cs)
    ensures SetTotal(Shared(cs, share)) == SetTotal(cs) + UndockedWeight(cs) * share
  {
    assert Props(Shared(cs, share)) == AddWeighted(Props(cs), UndockedMask(cs), share);
    AddWeightedTotal(Props(cs), UndockedMask(cs), share);
  }

  /** Scaling keeps every proportion set. */
  lemma {:induction false} ScaledAllSet(cs: seq<Child>, k: real)
    requires AllSet(cs)
    ensures AllSet(Scaled(cs, k))
  {
    forall i | 0 <= i < |cs| ensures Scaled(cs, k)[i].dim.Some? {
      assert Scaled(cs, k)[i] == ScaleOne(cs[i], k);
    }
  }

  /** Filling the unset children with `v` adds `v` once per unset child and leaves none unset. */
  lemma {:induction false} FilledTotal(cs: seq<Child>, v: real)
    ensures SetTotal(Filled(cs, v)) == SetTotal(cs) + UnsetWeight(cs) * v
    ensures AllSet(Filled(cs, v))
  {
    assert Props(Filled(cs, v)) == AddWeighted(Props(cs), UnsetMask(cs), v);
    AddWeightedTotal(Props(cs), UnsetMask(cs), v);
  }

  /** Scaling the children around one child by `k` scales their part of the total by `k`. */
  lemma {:induction false} ScaledAround(a: seq<Child>, x: Child, b: seq<Child>, k: real)
    ensures SetTotal(Scaled(a, k) + [x] + Scaled(b, k)) == k * SetTotal(a + b) + Prop(x)
  {
    SetTotalAround(Scaled(a, k), x, Scaled(b, k));
    ScaledTotal(a, k);
    ScaledTotal(b, k);
    SetTotalAppend(a, b);
    ScaledParts(SetTotal(Scaled(a, k) + [x] + Scaled(b, k)), SetTotal(Scaled(a, k)), SetTotal(Scaled(b, k)),
      SetTotal(a), SetTotal(b), SetTotal(a + b), Prop(x), k);
  }

  lemma {:induction false} ScaledParts(t: real, sa: real, sb: real, ta: real, tb: real, tab: real, x: real, k: real)
    requires t == sa + x + sb && sa == k * ta && sb == k * tb && tab == ta + tb
    ensures t == k * tab + x
  {
  }

  /** Adding `share` to the undocked children of two neighbouring runs. */
  lemma {:induction false} SharedPair(a: seq<Child>, b: seq<Child>, share: real)
    requires AllSet(a) && AllSet(b)
    ensures SetTotal(Shared(a, share) + Shared(b, share))
      == SetTotal(a) + SetTotal(b) + (UndockedWeight(a) * share + UndockedWeight(b) * share)
  {
    SetTotalAppend(Shared(a, share), Shared(b, share));
    SharedTotal(a, share);
    SharedTotal(b, share);
  }

  /** Adding `share` to the undocked children on both sides of one child. */
  lemma {:induction false} SharedAround(a: seq<Child>, x: Child, b: seq<Child>, share: real)
    requires AllSet(a) && AllSet(b)
    ensures SetTotal(Shared(a, share) + [x] + Shared(b, share))
      == SetTotal(a) + Prop(x) + SetTotal(b) + (UndockedWeight(a) * share + UndockedWeight(b) * share)
  {
    SetTotalAround(Shared(a, share), x, Shared(b, share));
    SharedTotal(a, share);
    SharedTotal(b, share);
  }

  /** Handing `r` out in `m` equal shares to the `m` undocked children around `x` adds exactly `r`. */
  lemma {:induction false} SharedAroundExact(a: seq<Child>, x: Child, b: seq<Child>, r: real, m: real)
    requires AllSet(a) && AllSet(b)
    requires m == UndockedWeight(a) + UndockedWeight(b) && m != 0.0
    ensures SetTotal(Shared(a, r / m) + [x] + Shared(b, r / m)) == SetTotal(a) + Prop(x) + SetTotal(b) + r
    ensures SetTotal(Shared(a, r / m) + Shared(b, r / m)) == SetTotal(a) + SetTotal(b) + r
  {
    SharedAround(a, x, b, r / m);
    SharedPair(a, b, r / m);
    SharesSum(UndockedWeight(a), UndockedWeight(b), m, r);
  }

  /** Handing `r/m` to each of `m + 1` undocked children adds one share more than `r`. */
  lemma {:induction false} SharedAroundOver(a: seq<Child>, b: seq<Child>, r: real, m: real)
    requires AllSet(a) && AllSet(b)
    requires m + 1.0 == UndockedWeight(a) + UndockedWeight(b) && m >= 1.0
    ensures SetTotal(Shared(a, r / m) + Shared(b, r / m)) == SetTotal(a) + SetTotal(b) + r + r / m
  {
    SharedPair(a, b, r / m);
    OverShares(UndockedWeight(a), UndockedWeight(b), m, r);
  }

  /** Scaling the rest by (100 - size)/100 around a child of proportion `size` keeps a total of 100. */
  lemma {:induction false} ScaledAroundHundred(a: seq<Child>, x: Child, b: seq<Child>)
    requires SetTotal(a + b) == 100.0
    ensures var k := (100.0 - Prop(x)) / 100.0;
      SetTotal(Scaled(a, k) + [x] + Scaled(b, k)) == 100.0
  {
    var k := (100.0 - Prop(x)) / 100.0;
    ScaledAround(a, x, b, k);
    HundredScaled(Prop(x), SetTotal(a + b));
  }

  /** The three transformations change proportions only: identities and dock state are kept. */
  lemma {:induction false} PreservedByProportionEdits(cs: seq<Child>, k: real, share: real, v: real)
    ensures DockedCount(Scaled(cs, k)) == DockedCount(Shared(cs, share)) == DockedCount(Filled(cs, v)) == DockedCount(cs)
  {
    DockedCountSameFlags(cs, Scaled(cs, k));
    DockedCountSameFlags(cs, Shared(cs, share));
    DockedCountSameFlags(cs, Filled(cs, v));
  }

  lemma {:induction false} DockedCountSameFlags(a: seq<Child>, b: seq<Child>)
    requires |a| == |b|
    requires forall i :: 0 <= i < |a| ==> Docked(a[i]) == Docked(b[i])
    ensures DockedCount(a) == DockedCount(b)
  {
    if a != [] {
      DockedCountSameFlags(a[..|a| - 1], b[..|b| - 1]);
    }
  }
}
