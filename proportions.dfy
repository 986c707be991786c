/**
 * How the container redistributes its children's proportions: on insertion, removal,
 * docking and undocking, and when it normalises mixed set and unset proportions.
 * Proportions are exact reals, so `(d / t) * 100` and `d * (100 / t)` coincide.
 */
module Proportions {
  import opened Wrappers
  import opened Numbers
  import opened Items

  function Insert<T>(s: seq<T>, i: nat, x: T): (r: seq<T>)
    requires i <= |s|
  {
    s[..i] + [x] + s[i..]
  }

  // ---------------------------------------------------------------- insertion

  /** `newItemSize` of addChild, for `n` children after the insertion. */
  function NewItemSize(n: nat): real
    requires n > 0
  {
    (1.0 / n as real) * 100.0
  }

  /**
   * addChild without suspendResize: the new child at `index` gets 100/n and every other
   * child is multiplied by (100 - 100/n)/100.
   */
  function Added(cs: seq<Child>, index: nat, c: Child): seq<Child>
    requires index <= |cs|
  {
    var s := NewItemSize(|cs| + 1);
    var k := (100.0 - s) / 100.0;
    Scaled(cs[..index], k) + [c.(dim := Some(s))] + Scaled(cs[index..], k)
  }

  /** Insertion keeps a total of 100: the siblings give up exactly the new child's share. */
  lemma {:induction false} AddedTotal(cs: seq<Child>, index: nat, c: Child)
    requires index <= |cs|
    ensures var s := NewItemSize(|cs| + 1);
      SetTotal(Added(cs, index, c)) == (100.0 - s) / 100.0 * SetTotal(cs) + s
    ensures SetTotal(cs) == 100.0 ==> SetTotal(Added(cs, index, c)) == 100.0
    ensures |Added(cs, index, c)| == |cs| + 1
    ensures Added(cs, index, c)[index].dim == Some(NewItemSize(|cs| + 1))
  {
    var s := NewItemSize(|cs| + 1);
    var k := (100.0 - s) / 100.0;
    var a, b := cs[..index], cs[index..];
    assert cs == a + b;
    var x := c.(dim := Some(s));
    ScaledAround(a, x, b, k);
    if SetTotal(cs) == 100.0 {
      HundredScaled(s, SetTotal(cs));
    }
  }

  /** addChild's loop, child by child: the new child gets 100/n, every other one is scaled. */
  lemma {:induction false} AddedAt(cs: seq<Child>, index: nat, c: Child, j: nat)
    requires index <= |cs| && j <= |cs|
    ensures var s := NewItemSize(|cs| + 1);
      Added(cs, index, c)[j]
        == if j == index then c.(dim := Some(s)) else ScaleOne(Insert(cs, index, c)[j], (100.0 - s) / 100.0)
  {
    var s := NewItemSize(|cs| + 1);
    var k := (100.0 - s) / 100.0;
    if j < index {
      assert Added(cs, index, c)[j] == Scaled(cs[..index], k)[j];
    } else if j > index {
      assert Added(cs, index, c)[j] == Scaled(cs[index..], k)[j - index - 1];
    }
  }

  // ---------------------------------------------------------------- removal

  /** The divisor of removeChild, counted before removal: the removed child is included if docked. */
  function RemovalDivisor(cs: seq<Child>): int
  {
    |cs| - 1 - DockedCount(cs)
  }

  /** The undocked children other than the one at `index`. */
  function UndockedOthers(cs: seq<Child>, index: nat): int
    requires index < |cs|
  {
    (|cs| - 1) - (DockedCount(cs) - (if Docked(cs[index]) then 1 else 0))
  }

  /** The share each undocked sibling receives; only used when some sibling receives one. */
  function RemovalShare(cs: seq<Child>, index: nat): real
    requires index < |cs|
  {
    if RemovalDivisor(cs) == 0 then 0.0 else Prop(cs[index]) / RemovalDivisor(cs) as real
  }

  /** removeChild's loop followed by the removal itself. */
  function Redistributed(cs: seq<Child>, index: nat): seq<Child>
    requires index < |cs|
  {
    var share := RemovalShare(cs, index);
    Shared(cs[..index], share) + Shared(cs[index + 1..], share)
  }

  /** removeChild's loop followed by the removal, child by child. */
  lemma {:induction false} RedistributedAt(cs: seq<Child>, index: nat, j: nat)
    requires index < |cs| && j < |cs| - 1
    ensures Redistributed(cs, index)[j] == ShareOne(cs[if j < index then j else j + 1], RemovalShare(cs, index))
  {
    var share := RemovalShare(cs, index);
    if j < index {
      assert Redistributed(cs, index)[j] == Shared(cs[..index], share)[j];
    } else {
      assert Redistributed(cs, index)[j] == Shared(cs[index + 1..], share)[j - index];
    }
  }

  lemma {:induction false} UndockedOthersSplit(cs: seq<Child>, index: nat)
    requires index < |cs|
    ensures UndockedOthers(cs, index)
      == (|cs[..index]| - DockedCount(cs[..index])) + (|cs[index + 1..]| - DockedCount(cs[index + 1..]))
    ensures 0 <= UndockedOthers(cs, index)
    ensures UndockedOthers(cs, index) as real == UndockedWeight(cs[..index]) + UndockedWeight(cs[index + 1..])
  {
    DockedCountAround(cs, index);
    DockedCountBound(cs[..index]);
    DockedCountBound(cs[index + 1..]);
    UndockedWeightCount(cs[..index]);
    UndockedWeightCount(cs[index + 1..]);
  }

  /**
   * Removing an undocked child hands its whole proportion to the undocked siblings, so the
   * total is unchanged, provided some sibling is undocked.
   */
  lemma {:induction false} RedistributedTotal(cs: seq<Child>, index: nat)
    requires index < |cs| && AllSet(cs)
    requires !Docked(cs[index]) && UndockedOthers(cs, index) > 0
    ensures |Redistributed(cs, index)| == |cs| - 1
    ensures SetTotal(Redistributed(cs, index)) == SetTotal(cs)
  {
    var a, b := cs[..index], cs[index + 1..];
    var r, m := Prop(cs[index]), RemovalDivisor(cs) as real;
    UndockedOthersSplit(cs, index);
    assert cs == a + [cs[index]] + b;
    SetTotalAround(a, cs[index], b);
    assert AllSet(a) && AllSet(b);
    assert RemovalShare(cs, index) == r / m;
    SharedAroundExact(a, cs[index], b, r, m);
  }

  /**
   * The divisor counts the removed child when it is docked, so each undocked sibling
   * receives r/(m-1) instead of r/m: the total grows by r/(m-1) whenever a docked child
   * with proportion r is removed beside m >= 2 undocked siblings.
   */
  lemma {:induction false} RedistributedDockedTotal(cs: seq<Child>, index: nat)
    requires index < |cs| && AllSet(cs)
    requires Docked(cs[index]) && UndockedOthers(cs, index) >= 2
    ensures RemovalDivisor(cs) == UndockedOthers(cs, index) - 1
    ensures RemovalShare(cs, index) == Prop(cs[index]) / (UndockedOthers(cs, index) - 1) as real
    ensures SetTotal(Redistributed(cs, index)) == SetTotal(cs) + RemovalShare(cs, index)
  {
    var a, b := cs[..index], cs[index + 1..];
    var r, m := Prop(cs[index]), RemovalDivisor(cs) as real;
    UndockedOthersSplit(cs, index);
    assert cs == a + [cs[index]] + b;
    SetTotalAround(a, cs[index], b);
    assert AllSet(a) && AllSet(b);
    assert RemovalShare(cs, index) == r / m;
    SharedAroundOver(a, b, r, m);
  }

  /**
   * A docked child removed beside a single undocked sibling leaves a divisor of 0, so the
   * source's share is 0/0. The model hands out nothing: every remaining child, the
   * undocked sibling included, keeps its proportion.
   */
  lemma {:induction false} RedistributedDockedSingle(cs: seq<Child>, index: nat)
    requires index < |cs| && Docked(cs[index]) && UndockedOthers(cs, index) == 1
    ensures RemovalDivisor(cs) == 0
    ensures Redistributed(cs, index) == cs[..index] + cs[index + 1..]
  {
    var r := Redistributed(cs, index);
    forall j | 0 <= j < |cs| - 1 ensures r[j] == (cs[..index] + cs[index + 1..])[j] {
      RedistributedAt(cs, index, j);
    }
  }

  // ---------------------------------------------------------------- docking

  /** The side a docked header must face: `autoside[configType][index ? 'last' : 'first']`. */
  function DockSide(configType: ItemType, index: nat): Side
  {
    if configType == Column then (if index == 0 then Top else Bottom)
    else if configType == Row then (if index == 0 then Left else Right)
    else Top  // unreachable: the constructor admits only row and column
  }

  /** The docking child's proportion handed to each undocked sibling. */
  function DockShare(cs: seq<Child>, index: nat): real
    requires index < |cs|
    requires |cs| - 1 - DockedCount(cs) > 0
  {
    Prop(cs[index]) / (|cs| - 1 - DockedCount(cs)) as real
  }

  /**
   * The dock branch of `dock`: the child's proportion becomes 0 and is remembered as its
   * docker size; each undocked sibling gains an equal share of it.
   */
  function DockRedistributed(cs: seq<Child>, index: nat, side: Side, realSize: int): (r: seq<Child>)
    requires index < |cs|
    requires |cs| - 1 - DockedCount(cs) > 0
    ensures |r| == |cs|
  {
    var share := DockShare(cs, index);
    var me := cs[index].(dim := Some(0.0), docked := true, dockSize := Prop(cs[index]),
                         realSize := realSize, headerSide := side);
    Shared(cs[..index], share) + [me] + Shared(cs[index + 1..], share)
  }

  /**
   * Docking an undocked stack, allowed by the guard `len - dockedCount >= 2`, keeps the
   * total of the proportions.
   */
  lemma {:induction false} DockRedistributedTotal(cs: seq<Child>, index: nat, side: Side, realSize: int)
    requires index < |cs| && AllSet(cs)
    requires cs[index].isStack && !cs[index].docked
    requires |cs| - DockedCount(cs) >= 2
    ensures SetTotal(DockRedistributed(cs, index, side, realSize)) == SetTotal(cs)
  {
    var share := DockShare(cs, index);
    var me := cs[index].(dim := Some(0.0), docked := true, dockSize := Prop(cs[index]),
                         realSize := realSize, headerSide := side);
    var a, b := cs[..index], cs[index + 1..];
    UndockedOthersSplit(cs, index);
    assert cs == a + [cs[index]] + b;
    SetTotalAround(a, cs[index], b);
    assert AllSet(a) && AllSet(b);
    SharedAroundExact(a, me, b, Prop(cs[index]), (|cs| - 1 - DockedCount(cs)) as real);
  }

  /**
   * Docking records the old proportion as the docker size, sets the child's own to 0,
   * leaves every proportion set and adds exactly one docked child.
   */
  lemma {:induction false} DockRedistributedShape(cs: seq<Child>, index: nat, side: Side, realSize: int)
    requires index < |cs| && AllSet(cs)
    requires cs[index].isStack && !cs[index].docked
    requires |cs| - DockedCount(cs) >= 2
    ensures var d := DockRedistributed(cs, index, side, realSize);
      && |d| == |cs|
      && DockedCount(d) == DockedCount(cs) + 1
      && d[index].dim == Some(0.0) && d[index].dockSize == Prop(cs[index]) && Docked(d[index])
      && AllSet(d)
  {
    var share := DockShare(cs, index);
    var me := cs[index].(dim := Some(0.0), docked := true, dockSize := Prop(cs[index]),
                         realSize := realSize, headerSide := side);
    var a, b := cs[..index], cs[index + 1..];
    DockedCountAround(cs, index);
    DockedCountJoin(Shared(a, share), me, Shared(b, share));
    PreservedByProportionEdits(a, 1.0, share, 0.0);
    PreservedByProportionEdits(b, 1.0, share, 0.0);
    DockRedistributedAllSet(cs, index, side, realSize);
  }

  lemma {:induction false} DockRedistributedAllSet(cs: seq<Child>, index: nat, side: Side, realSize: int)
    requires index < |cs| && AllSet(cs)
    requires |cs| - 1 - DockedCount(cs) > 0
    ensures AllSet(DockRedistributed(cs, index, side, realSize))
  {
    var d := DockRedistributed(cs, index, side, realSize);
    forall i | 0 <= i < |d| ensures d[i].dim.Some? {
      if i != index {
        DockRedistributedAt(cs, index, side, realSize, i);
      }
    }
  }

  /** dock's loop and setDocked, child by child. */
  lemma {:induction false} DockRedistributedIndex(cs: seq<Child>, index: nat, side: Side, realSize: int, j: nat)
    requires index < |cs| && |cs| - 1 - DockedCount(cs) > 0 && j < |cs|
    ensures var d := DockRedistributed(cs, index, side, realSize);
      && |d| == |cs|
      && d[j] == if j == index
           then cs[index].(dim := Some(0.0), docked := true, dockSize := Prop(cs[index]),
                           realSize := realSize, headerSide := side)
           else ShareOne(cs[j], DockShare(cs, index))
  {
    var share := DockShare(cs, index);
    var d := DockRedistributed(cs, index, side, realSize);
    if j < index {
      assert d[j] == Shared(cs[..index], share)[j];
    } else if j > index {
      assert d[j] == Shared(cs[index + 1..], share)[j - index - 1];
    }
  }

  /** After docking, a sibling holds its old proportion plus the share if it is undocked. */
  lemma {:induction false} DockRedistributedAt(cs: seq<Child>, index: nat, side: Side, realSize: int, j: nat)
    requires index < |cs| && AllSet(cs)
    requires |cs| - 1 - DockedCount(cs) > 0
    requires j < |cs| && j != index
    ensures var d := DockRedistributed(cs, index, side, realSize);
      && (!Docked(cs[j]) ==> d[j] == cs[j].(dim := Some(Prop(cs[j]) + DockShare(cs, index))))
      && (Docked(cs[j]) ==> d[j] == cs[j])
  {
    var share := DockShare(cs, index);
    var d := DockRedistributed(cs, index, side, realSize);
    if j < index {
      assert d[j] == Shared(cs[..index], share)[j];
    } else {
      assert d[j] == Shared(cs[index + 1..], share)[j - index - 1];
    }
  }

  /**
   * The undock branch of `dock`: the child gets its remembered size back and every other
   * child, docked or not, is multiplied by (100 - size)/100.
   */
  function UndockRestored(cs: seq<Child>, index: nat): (r: seq<Child>)
    requires index < |cs|
    ensures |r| == |cs|
  {
    var size := cs[index].dockSize;
    var k := (100.0 - size) / 100.0;
    Scaled(cs[..index], k) + [cs[index].(dim := Some(size), docked := false)] + Scaled(cs[index + 1..], k)
  }

  /** The children other than the one at `index` total what the whole does, less its proportion. */
  lemma {:induction false} SetTotalWithout(cs: seq<Child>, index: nat)
    requires index < |cs|
    ensures SetTotal(cs[..index] + cs[index + 1..]) == SetTotal(cs) - Prop(cs[index])
  {
    var a, b := cs[..index], cs[index + 1..];
    assert cs == a + [cs[index]] + b;
    SetTotalAround(a, cs[index], b);
    SetTotalAppend(a, b);
  }

  /** Undocking a child whose proportion is 0 keeps a total of 100. */
  lemma {:induction false} UndockRestoredTotal(cs: seq<Child>, index: nat)
    requires index < |cs|
    requires Prop(cs[index]) == 0.0 && SetTotal(cs) == 100.0
    ensures SetTotal(UndockRestored(cs, index)) == 100.0
    ensures UndockRestored(cs, index)[index].dim == Some(cs[index].dockSize)
  {
    var size := cs[index].dockSize;
    var k := (100.0 - size) / 100.0;
    var me := cs[index].(dim := Some(size), docked := false);
    var a, b := cs[..index], cs[index + 1..];
    SetTotalWithout(cs, index);
    assert (100.0 - Prop(me)) / 100.0 == k;
    ScaledAroundHundred(a, me, b);
  }

  /** After undocking, every other child with a set proportion is scaled by (100 - size)/100. */
  lemma {:induction false} UndockRestoredAt(cs: seq<Child>, index: nat, j: nat)
    requires index < |cs| && j < |cs| && j != index
    ensures UndockRestored(cs, index)[j] == ScaleOne(cs[j], (100.0 - cs[index].dockSize) / 100.0)
  {
    var k := (100.0 - cs[index].dockSize) / 100.0;
    if j < index {
      assert cs[..index][j] == cs[j];
      assert UndockRestored(cs, index)[j] == Scaled(cs[..index], k)[j] == ScaleOne(cs[j], k);
    } else {
      assert cs[index + 1..][j - index - 1] == cs[j];
      assert UndockRestored(cs, index)[j] == Scaled(cs[index + 1..], k)[j - index - 1] == ScaleOne(cs[j], k);
    }
  }

  /**
   * Docking then undocking a child restores its own proportion and a total of 100, but
   * every sibling comes back as its post-dock self scaled by (100 - r)/100, where r is the
   * child's proportion before docking: an undocked sibling with proportion p keeps the
   * share it was handed, so it gets (p + share) * (100 - r)/100 rather than p.
   */
  lemma {:induction false} DockThenUndock(cs: seq<Child>, index: nat, side: Side, realSize: int)
    requires index < |cs| && AllSet(cs) && SetTotal(cs) == 100.0
    requires cs[index].isStack && !cs[index].docked
    requires |cs| - DockedCount(cs) >= 2
    ensures var u := UndockRestored(DockRedistributed(cs, index, side, realSize), index);
      && |u| == |cs|
      && u[index].dim == cs[index].dim
      && !u[index].docked
      && SetTotal(u) == 100.0
  {
    var d := DockRedistributed(cs, index, side, realSize);
    DockRedistributedTotal(cs, index, side, realSize);
    DockRedistributedShape(cs, index, side, realSize);
    UndockRestoredTotal(d, index);
  }

  /** The sibling half of the round trip, one sibling at a time. */
  lemma {:induction false} DockThenUndockAt(cs: seq<Child>, index: nat, side: Side, realSize: int, j: nat)
    requires index < |cs| && AllSet(cs)
    requires |cs| - 1 - DockedCount(cs) > 0
    requires j < |cs| && j != index
    ensures var u := UndockRestored(DockRedistributed(cs, index, side, realSize), index);
      var k := (100.0 - Prop(cs[index])) / 100.0;
      && (!Docked(cs[j]) ==> u[j] == ScaleOne(cs[j].(dim := Some(Prop(cs[j]) + DockShare(cs, index))), k))
      && (Docked(cs[j]) ==> u[j] == ScaleOne(cs[j], k))
  {
    var d := DockRedistributed(cs, index, side, realSize);
    DockRedistributedAt(cs, index, side, realSize, j);
    UndockRestoredAt(d, index, j);
    assert d[index].dockSize == Prop(cs[index]);
  }

  /**
   * A concrete witness that the round trip does not restore the siblings: proportions
   * 20, 20, 60; docking the first gives 0, 30, 70; undocking it gives 20, 24, 56.
   */
  lemma {:induction false} DockThenUndockCounterexample()
    ensures var c := Child(0, None, true, false, 0.0, 0, 0, 0, [], Top, true, true);
      var cs := [c.(id := 1, dim := Some(20.0)), c.(id := 2, dim := Some(20.0)), c.(id := 3, dim := Some(60.0))];
      && DockedCount(cs) == 0
      && var u := UndockRestored(DockRedistributed(cs, 0, Left, 0), 0);
         u[0].dim == Some(20.0) && u[1].dim == Some(24.0) && u[2].dim == Some(56.0)
  {
    var c := Child(0, None, true, false, 0.0, 0, 0, 0, [], Top, true, true);
    var cs := [c.(id := 1, dim := Some(20.0)), c.(id := 2, dim := Some(20.0)), c.(id := 3, dim := Some(60.0))];
    assert DockedCount(cs) == 0 by {
      DockedCountBound(cs);
    }
    var d := DockRedistributed(cs, 0, Left, 0);
    assert d[1].dim == Some(30.0) && d[2].dim == Some(70.0) by {
      assert DockShare(cs, 0) == 10.0;
      assert d[1] == Shared(cs[1..], 10.0)[0];
      assert d[2] == Shared(cs[1..], 10.0)[1];
    }
    var u := UndockRestored(d, 0);
    assert u[1] == Scaled(d[1..], 0.8)[0];
    assert u[2] == Scaled(d[1..], 0.8)[1];
  }

  // ---------------------------------------------------------------- normalisation

  /**
   * calculateRelativeSizes before its minimum-width step. The zero-total rescale, where the
   * source produces NaN, leaves the proportions as they are.
   */
  function Normalised(cs: seq<Child>): (r: seq<Child>)
    ensures |r| == |cs|
  {
    var total := SetTotal(cs);
    var u := UnsetCount(cs);
    if Round(total) == 100 then cs
    else if Round(total) < 100 && u > 0 then Filled(cs, (100.0 - total) / u as real)
    else
      var filled := if Round(total) > 100 then Filled(cs, 50.0) else cs;
      var grand := if Round(total) > 100 then total + 50.0 * u as real else total;
      if grand == 0.0 then cs else Scaled(filled, 100.0 / grand)
  }

  /** The one input the model cannot rescale: no unset child and a zero total. */
  predicate ZeroTotal(cs: seq<Child>)
  {
    SetTotal(cs) == 0.0 && UnsetCount(cs) == 0
  }

  lemma {:induction false} RoundHundred(x: real)
    requires x == 100.0
    ensures Round(x) == 100
  {
  }

  /**
   * The three outcomes: a total that rounds to 100 is kept; otherwise every proportion
   * ends up set and they total exactly 100 (the zero-total input aside). When the total
   * rounds below 100 and some child is unset, the set children are untouched and the
   * unset ones share the remainder equally.
   */
  lemma {:induction false} NormalisedOutcomes(cs: seq<Child>)
    ensures Round(SetTotal(cs)) == 100 ==> Normalised(cs) == cs
    ensures Round(SetTotal(cs)) != 100 && !ZeroTotal(cs) ==>
      AllSet(Normalised(cs)) && SetTotal(Normalised(cs)) == 100.0
    ensures Round(SetTotal(cs)) < 100 && UnsetCount(cs) > 0 ==>
      forall i :: 0 <= i < |cs| ==>
        Normalised(cs)[i].dim == (if cs[i].dim.Some? then cs[i].dim
                                  else Some((100.0 - SetTotal(cs)) / UnsetCount(cs) as real))
    ensures |Normalised(cs)| == |cs|
  {
    var total := SetTotal(cs);
    var u := UnsetCount(cs);
    if Round(total) == 100 {
    } else if Round(total) < 100 && u > 0 {
      NormalisedFill(cs);
    } else if Round(total) > 100 {
      NormalisedOver(cs);
    } else if !ZeroTotal(cs) {
      NormalisedUnder(cs);
    }
  }

  /** A total short of 100 with unset children: they share the remainder equally. */
  lemma {:induction false} NormalisedFill(cs: seq<Child>)
    requires Round(SetTotal(cs)) < 100 && UnsetCount(cs) > 0
    ensures AllSet(Normalised(cs)) && SetTotal(Normalised(cs)) == 100.0
    ensures forall i :: 0 <= i < |cs| ==>
      Normalised(cs)[i].dim == (if cs[i].dim.Some? then cs[i].dim
                                else Some((100.0 - SetTotal(cs)) / UnsetCount(cs) as real))
  {
    var v := (100.0 - SetTotal(cs)) / UnsetCount(cs) as real;
    assert Normalised(cs) == Filled(cs, v);
    FilledTotal(cs, v);
    UnsetWeightCount(cs);
    Shares(UnsetWeight(cs), UnsetCount(cs) as real, 100.0 - SetTotal(cs));
  }

  /** A total over 100: unset children get 50 each, then everything is rescaled to 100. */
  lemma {:induction false} NormalisedOver(cs: seq<Child>)
    requires Round(SetTotal(cs)) > 100
    ensures AllSet(Normalised(cs)) && SetTotal(Normalised(cs)) == 100.0
  {
    var filled := Filled(cs, 50.0);
    var grand := SetTotal(cs) + 50.0 * UnsetCount(cs) as real;
    FilledTotal(cs, 50.0);
    UnsetWeightCount(cs);
    assert SetTotal(filled) == grand;
    assert grand > 0.0;
    assert Normalised(cs) == Scaled(filled, 100.0 / grand);
    ScaledTotal(filled, 100.0 / grand);
    HundredOver(grand);
    ScaledAllSet(filled, 100.0 / grand);
  }

  /** A total short of 100 with every child set: everything is rescaled to 100. */
  lemma {:induction false} NormalisedUnder(cs: seq<Child>)
    requires Round(SetTotal(cs)) < 100 && UnsetCount(cs) == 0 && SetTotal(cs) != 0.0
    ensures AllSet(Normalised(cs)) && SetTotal(Normalised(cs)) == 100.0
  {
    var grand := SetTotal(cs);
    assert Normalised(cs) == Scaled(cs, 100.0 / grand);
    ScaledTotal(cs, 100.0 / grand);
    HundredOver(grand);
    UnsetCountZero(cs);
    ScaledAllSet(cs, 100.0 / grand);
  }

  /** Normalising an already normalised sequence changes nothing. */
  lemma {:induction false} NormalisedIdempotent(cs: seq<Child>)
    ensures Normalised(Normalised(cs)) == Normalised(cs)
  {
    NormalisedOutcomes(cs);
    if Round(SetTotal(cs)) != 100 && !ZeroTotal(cs) {
      RoundHundred(SetTotal(Normalised(cs)));
    }
  }
}
