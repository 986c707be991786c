/** The dockability flags validateDocking hands to the stack children. */
module Docking {
  import opened Items

  /** At least two children are undocked: the container may still dock or close one. */
  predicate CanDock(cs: seq<Child>)
  {
    |cs| - DockedCount(cs) > 1
  }

  /**
   * validateDocking: every stack child is told whether it may dock and whether the
   * container's close control applies to it. The dockable flag is `isDocked(i) ?? can`,
   * and isDocked never yields null, so it is the child's own docked state.
   */
  function DockingValidated(cs: seq<Child>): (r: seq<Child>)
    ensures |r| == |cs|
  {
    var can := CanDock(cs);
    seq(|cs|, i requires 0 <= i < |cs| =>
      if cs[i].isStack then cs[i].(dockable := Docked(cs[i]), rowColumnClosable := can) else cs[i])
  }

  /**
   * Only the flags of stack children change: a stack is dockable exactly when it is
   * already docked, and closable exactly when two or more children are undocked; other
   * children, and every other field, are untouched.
   */
  lemma {:induction false} DockingValidatedFlags(cs: seq<Child>)
    ensures var r := DockingValidated(cs);
      && (forall i :: 0 <= i < |cs| ==> r[i].(dockable := cs[i].dockable, rowColumnClosable := cs[i].rowColumnClosable) == cs[i])
      && (forall i :: 0 <= i < |cs| && cs[i].isStack ==> (r[i].dockable <==> Docked(cs[i])))
      && (forall i :: 0 <= i < |cs| && cs[i].isStack ==> (r[i].rowColumnClosable <==> |cs| - DockedCount(cs) >= 2))
      && (forall i :: 0 <= i < |cs| && !cs[i].isStack ==> r[i] == cs[i])
      && DockedCount(r) == DockedCount(cs)
  {
    var r := DockingValidated(cs);
    DockedCountSameFlags(cs, r);
  }

  /** Validating twice is validating once. */
  lemma {:induction false} DockingValidatedIdempotent(cs: seq<Child>)
    ensures DockingValidated(DockingValidated(cs)) == DockingValidated(cs)
  {
    DockingValidatedFlags(cs);
  }
}
