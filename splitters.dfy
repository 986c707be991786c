/**
 * The container's splitter array: one splitter between each adjacent pair of children,
 * spliced in and out as children come and go, and hidden beside docked children.
 */
module Splitters {
  import opened Wrappers
  import opened Numbers
  import opened Items

  /**
   * createSplitter: a new, displayed splitter spliced in at `index`. Like
   * Array.prototype.splice, an index past the end appends.
   */
  function CreateSplitter(ss: seq<Splitter>, index: nat, id: nat): (r: seq<Splitter>)
    ensures |r| == |ss| + 1
    ensures var at := if index < |ss| then index else |ss|;
      && r[at] == Splitter(id, true)
      && (forall j :: 0 <= j < at ==> r[j] == ss[j])
      && (forall j :: at < j < |r| ==> r[j] == ss[j - 1])
  {
    var at := if index < |ss| then index else |ss|;
    ss[..at] + [Splitter(id, true)] + ss[at..]
  }

  /** The splitters' identities, in order. */
  function SplitterIds(ss: seq<Splitter>): (r: seq<nat>)
    ensures |r| == |ss| && forall j :: 0 <= j < |ss| ==> r[j] == ss[j].id
  {
    seq(|ss|, j requires 0 <= j < |ss| => ss[j].id)
  }

  /** The splitter at `i` with its element shown or hidden; no splitter there, no change. */
  function WithVisibility(ss: seq<Splitter>, i: int, visible: bool): (r: seq<Splitter>)
    ensures |r| == |ss|
  {
    if 0 <= i < |ss| then ss[i := ss[i].(visible := visible)] else ss
  }

  /**
   * The splitter bookkeeping of addChild exactly as written, for a child inserted at
   * `index` among `cs`: with children present, a splitter is created at max(0, index - 1);
   * after a docked predecessor, that one is hidden and the one at `index` shown. `None`
   * stands for the TypeError the source raises when no splitter sits at `index`.
   */
  function SplittersOnAddAsWritten(ss: seq<Splitter>, cs: seq<Child>, index: nat, id: nat): Option<seq<Splitter>>
  {
    if cs == [] then Some(ss)
    else
      var created := CreateSplitter(ss, Max(0, index - 1), id);
      if index > 0 && IsDocked(cs, index - 1) then
        if index < |created| then Some(WithVisibility(WithVisibility(created, index - 1, false), index, true))
        else None
      else Some(created)
  }

  /**
   * Appending a child after a docked last child fails: two children, the second docked,
   * one splitter; adding at index 2 creates a second splitter and then reads a third.
   */
  lemma {:induction false} AppendAfterDockedFails()
    ensures var c := Child(0, Some(50.0), true, false, 0.0, 0, 0, 0, [], Top, true, true);
      var cs := [c, c.(id := 1, dim := Some(0.0), docked := true)];
      SplittersOnAddAsWritten([Splitter(0, false)], cs, 2, 1).None?
  {
    var c := Child(0, Some(50.0), true, false, 0.0, 0, 0, 0, [], Top, true, true);
    var cs := [c, c.(id := 1, dim := Some(0.0), docked := true)];
    assert IsDocked(cs, 1);
    assert |CreateSplitter([Splitter(0, false)], 1, 1)| == 2;
  }

  /**
   * addChild's splitter bookkeeping with the visibility swap applied only when the
   * splitter after the new child exists.
   */
  function SplittersOnAdd(ss: seq<Splitter>, cs: seq<Child>, index: nat, id: nat): (r: seq<Splitter>)
    ensures |r| == |ss| + (if cs == [] then 0 else 1)
  {
    if cs == [] then ss
    else
      var created := CreateSplitter(ss, Max(0, index - 1), id);
      if index > 0 && IsDocked(cs, index - 1) then
        WithVisibility(WithVisibility(created, index - 1, false), index, true)
      else created
  }

  /**
   * Wherever the source does not fail, the corrected bookkeeping agrees with it; and it
   * keeps one splitter per adjacent pair of children.
   */
  lemma {:induction false} SplittersOnAddAgrees(ss: seq<Splitter>, cs: seq<Child>, index: nat, id: nat)
    ensures SplittersOnAddAsWritten(ss, cs, index, id).Some? ==>
      SplittersOnAddAsWritten(ss, cs, index, id).value == SplittersOnAdd(ss, cs, index, id)
    ensures |ss| == Max(|cs| - 1, 0) ==> |SplittersOnAdd(ss, cs, index, id)| == Max(|cs|, 0)
  {
  }

  /**
   * The splitter bookkeeping of removeChild for the child at `index` of `cs` (the
   * children before removal): the splitter before the child, or after it for the first
   * child, is deleted if present; the one now at that position is hidden when the child
   * at the same position is docked.
   */
  function SplittersOnRemove(ss: seq<Splitter>, cs: seq<Child>, index: nat): (r: seq<Splitter>)
    ensures |r| == (if Max(index - 1, 0) < |ss| then |ss| - 1 else |ss|)
  {
    var at := Max(index - 1, 0);
    var removed := if at < |ss| then ss[..at] + ss[at + 1..] else ss;
    if at < |removed| && IsDocked(cs, at) then WithVisibility(removed, at, false) else removed
  }

  /** Removing any child keeps one splitter per adjacent pair of the remaining children. */
  lemma {:induction false} SplittersOnRemoveCount(ss: seq<Splitter>, cs: seq<Child>, index: nat)
    requires index < |cs| && |ss| == Max(|cs| - 1, 0)
    ensures |SplittersOnRemove(ss, cs, index)| == Max(|cs| - 2, 0)
  {
  }

  /**
   * Removal never increases the count beyond one per adjacent pair, even when the array
   * was short to begin with (children added before initialisation).
   */
  lemma {:induction false} SplittersOnRemoveBound(ss: seq<Splitter>, cs: seq<Child>, index: nat)
    requires index < |cs| && |ss| <= Max(|cs| - 1, 0)
    ensures |SplittersOnRemove(ss, cs, index)| <= Max(|cs| - 2, 0)
  {
  }

  /** init's loop: a splitter after each child but the last, created at positions 0, 1, .... */
  function SplittersOnInit(ss: seq<Splitter>, n: nat, firstId: nat): (r: seq<Splitter>)
    decreases n
  {
    if n <= 1 then ss
    else CreateSplitter(SplittersOnInit(ss, n - 1, firstId), n - 2, firstId + n - 2)
  }

  /** init adds one splitter per adjacent pair; from none, that is exactly max(n - 1, 0). */
  lemma {:induction false} SplittersOnInitCount(ss: seq<Splitter>, n: nat, firstId: nat)
    ensures |SplittersOnInit(ss, n, firstId)| == |ss| + Max(n - 1, 0)
    decreases n
  {
    if n > 1 {
      SplittersOnInitCount(ss, n - 1, firstId);
    }
  }

  /**
   * init's loop as the source runs it: splitter `i` is created for `i` from 0 while
   * `i < n - 1`, each with a fresh identity.
   */
  method InitSplitters(ss: seq<Splitter>, n: nat, firstId: nat) returns (r: seq<Splitter>)
    ensures r == SplittersOnInit(ss, n, firstId)
  {
    r := ss;
    var i := 0;
    while i < n - 1
      invariant 0 <= i <= Max(n - 1, 0)
      invariant r == SplittersOnInit(ss, i + 1, firstId)
    {
      assert SplittersOnInit(ss, i + 2, firstId) == CreateSplitter(SplittersOnInit(ss, i + 1, firstId), i, firstId + i);
      r := CreateSplitter(r, i, firstId + i);
      i := i + 1;
    }
    if n == 0 {
      assert SplittersOnInit(ss, 0, firstId) == ss == SplittersOnInit(ss, 1, firstId);
    } else {
      assert i + 1 == n;
    }
  }
}
