/**
 * The row or column container itself: its children and splitters, the structural edits
 * that rescale the children's proportions, the resize pass, docking, and the splitter
 * drag session. Every mutator states its new state as a function of the old one; the
 * properties of those functions are proved in the value-level modules.
 */
module Layout {
  import opened Wrappers
  import opened Numbers
  import opened Items
  import opened Proportions
  import opened Pixels
  import opened Splitters
  import opened Drag
  import opened Sizing
  import opened Docking

  /** The configured header size a docked child gives up (`header.show === false` means 0). */
  function DockHeaderSize(headerShow: bool, headerHeight: int): int
  {
    if headerShow then headerHeight else 0
  }

  class RowOrColumn {
    const isColumn: bool
    const configType: ItemType
    /** The layout's `borderWidth`. */
    const splitterSize: int
    /** The layout's `headerHeight`. */
    const headerHeight: int
    /** The layout's `header.show`. */
    const headerShow: bool
    /** The layout's `minItemWidth`; 0 when not configured. */
    const minItemWidth: int
    /** The layout's `minItemHeight`; 0 when not configured. */
    const minItemHeight: int
    const isClosable: bool

    /** The container element's measured width and height. */
    var width: int
    var height: int
    var children: seq<Child>
    var splitters: seq<Splitter>
    /** The identity the next splitter created receives. */
    var nextSplitterId: nat
    var splitterPosition: Option<real>
    var splitterMinPosition: Option<real>
    var splitterMaxPosition: Option<real>
    var isInitialised: bool
    /** The single child the container handed to its parent when it dissolved. */
    var dissolvedInto: Option<Child>
    /** A resize pass requested for the next animation frame. */
    var resizePending: bool

    /** What the sizing reads outside the children. */
    function Geom(): Geometry
      reads this`width, this`height
    {
      Geometry(isColumn, width, height, splitterSize, headerHeight, minItemWidth, minItemHeight)
    }

    ghost function SplitterState(): (seq<Splitter>, nat)
      reads this`splitters, this`nextSplitterId
    {
      (splitters, nextSplitterId)
    }

    ghost function DragSession(): (Option<real>, Option<real>, Option<real>)
      reads this`splitterPosition, this`splitterMinPosition, this`splitterMaxPosition
    {
      (splitterPosition, splitterMinPosition, splitterMaxPosition)
    }

    ghost function Lifecycle(): (bool, Option<Child>, bool)
      reads this`isInitialised, this`dissolvedInto, this`resizePending
    {
      (isInitialised, dissolvedInto, resizePending)
    }

    /** Once initialised, the container keeps exactly one splitter per adjacent pair of children. */
    ghost predicate Valid()
      reads this
    {
      isInitialised ==> |splitters| == Max(|children| - 1, 0)
    }

    /** The constructor, for a configuration whose type is a row or a column. */
    constructor (isColumn: bool, configType: ItemType, splitterSize: int, headerHeight: int, headerShow: bool,
                 minItemWidth: int, minItemHeight: int, isClosable: bool, width: int, height: int,
                 children: seq<Child>)
      requires configType == Row || configType == Column
      ensures this.isColumn == isColumn && this.configType == configType && this.isClosable == isClosable
      ensures this.splitterSize == splitterSize && this.headerHeight == headerHeight && this.headerShow == headerShow
      ensures this.minItemWidth == minItemWidth && this.minItemHeight == minItemHeight
      ensures this.width == width && this.height == height && this.children == children
      ensures splitters == [] && nextSplitterId == 0
      ensures DragSession() == (None, None, None) && Lifecycle() == (false, None, false)
      ensures Valid()
    {
      this.isColumn := isColumn;
      this.configType := configType;
      this.splitterSize := splitterSize;
      this.headerHeight := headerHeight;
      this.headerShow := headerShow;
      this.minItemWidth := minItemWidth;
      this.minItemHeight := minItemHeight;
      this.isClosable := isClosable;
      this.width := width;
      this.height := height;
      this.children := children;
      splitters := [];
      nextSplitterId := 0;
      splitterPosition := None;
      splitterMinPosition := None;
      splitterMaxPosition := None;
      isInitialised := false;
      dissolvedInto := None;
      resizePending := false;
    }

    /** Construction with the type check: any configuration type but row or column is refused. */
    static method Create(isColumn: bool, configType: ItemType, splitterSize: int, headerHeight: int, headerShow: bool,
                         minItemWidth: int, minItemHeight: int, isClosable: bool, width: int, height: int,
                         children: seq<Child>)
      returns (r: Result<RowOrColumn, Error>)
      ensures r.Err? <==> configType != Row && configType != Column
      ensures r.Err? ==> r.error == BadConfigType
      ensures r.Ok? ==> fresh(r.value) && r.value.children == children && r.value.splitters == []
                        && !r.value.isInitialised && r.value.Valid()
    {
      if configType == Row || configType == Column {
        var c := new RowOrColumn(isColumn, configType, splitterSize, headerHeight, headerShow,
                                 minItemWidth, minItemHeight, isClosable, width, height, children);
        r := Ok(c);
      } else {
        r := Err(BadConfigType);
      }
    }

    /** createSplitter: a new displayed splitter with a fresh identity, spliced in at `index`. */
    method NewSplitter(index: nat)
      modifies this
      ensures splitters == CreateSplitter(old(splitters), index, old(nextSplitterId))
      ensures nextSplitterId == old(nextSplitterId) + 1
      ensures Geom() == old(Geom()) && children == old(children)
      ensures DragSession() == old(DragSession()) && Lifecycle() == old(Lifecycle())
    {
      var at := if index < |splitters| then index else |splitters|;
      splitters := splitters[..at] + [Splitter(nextSplitterId, true)] + splitters[at..];
      nextSplitterId := nextSplitterId + 1;
    }

    /**
     * addChild: the child is inserted at `index` (the end by default) with a splitter
     * beside it, and unless the resize is suspended the proportions are rescaled, the
     * resize pass run and the docking flags validated. Returns the insertion index.
     */
    method AddChild(c: Child, index: Option<nat>, suspendResize: bool) returns (r: nat)
      requires index.Some? ==> index.value <= |children|
      modifies this
      ensures r == if index.Some? then index.value else old(|children|)
      ensures splitters == SplittersOnAdd(old(splitters), old(children), r, old(nextSplitterId))
      ensures nextSplitterId == old(nextSplitterId) + (if old(children) == [] then 0 else 1)
      ensures suspendResize ==> children == Insert(old(children), r, c)
      ensures !suspendResize ==> children == DockingValidated(NodeSized(Geom(), Added(old(children), r, c)))
      ensures Geom() == old(Geom()) && DragSession() == old(DragSession()) && Lifecycle() == old(Lifecycle())
      ensures old(Valid()) ==> Valid()
    {
      r := if index.Some? then index.value else |children|;
      var before := children;
      AddSplitter(r);
      children := Insert(children, r, c);
      if suspendResize {
        return;
      }
      var cs := ScaledForInsertion(before, r, c);
      children := cs;
      Relayout();
      AddedTotal(before, r, c);
    }

    /**
     * addChild's splitter bookkeeping, before the child is inserted at `index`: a splitter
     * is created beside it, and after a docked predecessor the visibility is swapped.
     */
    method AddSplitter(index: nat)
      modifies this
      ensures splitters == SplittersOnAdd(old(splitters), children, index, old(nextSplitterId))
      ensures nextSplitterId == old(nextSplitterId) + (if children == [] then 0 else 1)
      ensures Geom() == old(Geom()) && children == old(children)
      ensures DragSession() == old(DragSession()) && Lifecycle() == old(Lifecycle())
    {
      if children != [] {
        NewSplitter(Max(0, index - 1));
        if index > 0 && IsDocked(children, index - 1) {
          splitters := WithVisibility(WithVisibility(splitters, index - 1, false), index, true);
        }
      }
    }

    /**
     * addChild's loop over the children after insertion: the new child gets 100/n and
     * every other explicit proportion is multiplied by (100 - 100/n)/100.
     */
    static method ScaledForInsertion(before: seq<Child>, index: nat, c: Child) returns (cs: seq<Child>)
      requires index <= |before|
      ensures cs == Added(before, index, c)
    {
      var ins := Insert(before, index, c);
      var n := |ins|;
      var newItemSize := (1.0 / n as real) * 100.0;
      assert newItemSize == NewItemSize(|before| + 1);
      var k := (100.0 - newItemSize) / 100.0;
      ghost var target := Added(before, index, c);
      cs := ins;
      var i := 0;
      while i < n
        invariant 0 <= i <= n && |cs| == n
        invariant forall j :: 0 <= j < i ==> cs[j] == target[j]
        invariant forall j :: i <= j < n ==> cs[j] == ins[j]
      {
        var item := cs[i];
        if i == index {
          item := item.(dim := Some(newItemSize));
        } else {
          item := ScaleOne(item, k);  // `*=`: an unset proportion stays unset
        }
        AddedAt(before, index, c, i);
        cs := cs[i := item];
        i := i + 1;
      }
      AddedTotal(before, index, c);
    }

    /**
     * removeChild of the child with identity `id`. A non-member is refused and nothing
     * changes. Otherwise its splitter goes, the undocked siblings share its proportion,
     * and the child is removed; if a single child is left in a closable container, the
     * container dissolves into it, else the resize pass and docking validation run.
     */
    method RemoveChild(id: nat) returns (err: Option<Error>, ghost index: int)
      modifies this
      ensures index == IndexOf(Ids(old(children)), id)
      ensures index == -1 ==> err == Some(NotAChild) && unchanged(this)
      ensures index >= 0 ==> err.None? && nextSplitterId == old(nextSplitterId)
      ensures index >= 0 ==> splitters == SplittersOnRemove(old(splitters), old(children), index)
      ensures index >= 0 ==>
        var rest := Redistributed(old(children), index);
        if |rest| == 1 && isClosable
        then children == [] && dissolvedInto == Some(rest[0])
        else children == DockingValidated(NodeSized(Geom(), rest)) && dissolvedInto == old(dissolvedInto)
      ensures Geom() == old(Geom()) && DragSession() == old(DragSession())
      ensures isInitialised == old(isInitialised) && resizePending == old(resizePending)
      ensures old(Valid()) ==> Valid()
    {
      var i := IndexOf(Ids(children), id);
      index := i;
      if i == -1 {
        return Some(NotAChild), index;
      }
      RemoveAt(i);
      err := None;
    }

    /** removeChild once the child is found at `index`. */
    method RemoveAt(index: nat)
      requires index < |children|
      modifies this
      ensures nextSplitterId == old(nextSplitterId)
      ensures splitters == SplittersOnRemove(old(splitters), old(children), index)
      ensures var rest := Redistributed(old(children), index);
        if |rest| == 1 && isClosable
        then children == [] && dissolvedInto == Some(rest[0])
        else children == DockingValidated(NodeSized(Geom(), rest)) && dissolvedInto == old(dissolvedInto)
      ensures Geom() == old(Geom()) && DragSession() == old(DragSession())
      ensures isInitialised == old(isInitialised) && resizePending == old(resizePending)
      ensures old(Valid()) ==> Valid()
    {
      var cs0 := children;
      splitters := RemovedSplitters(splitters, cs0, index);
      var rest := ShareRemoved(cs0, index, Prop(cs0[index]));
      if old(Valid()) && isInitialised {
        SplittersOnRemoveCount(old(splitters), cs0, index);
      }
      if |rest| == 1 && isClosable {
        dissolvedInto := Some(rest[0]);
        children := [];
      } else {
        children := rest;
        Relayout();
      }
    }

    /** removeChild's splitter bookkeeping: the neighbouring splitter goes, and the next is hidden beside a docked child. */
    static method RemovedSplitters(ss: seq<Splitter>, cs: seq<Child>, index: nat) returns (r: seq<Splitter>)
      requires index < |cs|
      ensures r == SplittersOnRemove(ss, cs, index)
    {
      r := ss;
      var splitterIndex := Max(index - 1, 0);
      if splitterIndex < |r| {
        r := r[..splitterIndex] + r[splitterIndex + 1..];
      }
      if splitterIndex < |r| && IsDocked(cs, splitterIndex) {
        r := WithVisibility(r, splitterIndex, false);
      }
    }

    /** removeChild's loop: each undocked sibling gains the removed size over the divisor; then the removal. */
    static method ShareRemoved(cs0: seq<Child>, index: nat, removedSize: real) returns (rest: seq<Child>)
      requires index < |cs0| && removedSize == Prop(cs0[index])
      ensures rest == Redistributed(cs0, index)
    {
      var dockedCount := CalculateDockedCount(cs0);
      var divisor := |cs0| - 1 - dockedCount;
      var share := if divisor == 0 then 0.0 else removedSize / divisor as real;
      assert share == RemovalShare(cs0, index);
      var cs := cs0;
      var i := 0;
      while i < |cs0|
        invariant 0 <= i <= |cs0| && |cs| == |cs0|
        invariant forall j :: 0 <= j < i && j != index ==> cs[j] == ShareOne(cs0[j], share)
        invariant forall j :: 0 <= j < |cs0| && (i <= j || j == index) ==> cs[j] == cs0[j]
      {
        assert cs[i] == cs0[i];
        if i != index && !IsDocked(cs, i) && cs[i].dim.Some? {
          cs := cs[i := cs[i].(dim := Some(cs[i].dim.value + share))];
        }
        assert i != index ==> cs[i] == ShareOne(cs0[i], share);
        i := i + 1;
      }
      rest := cs[..index] + cs[index + 1..];
      forall j | 0 <= j < |cs0| - 1 ensures rest[j] == Redistributed(cs0, index)[j] {
        RedistributedAt(cs0, index, j);
      }
    }

    /**
     * replaceChild: the new child takes the old one's place and proportion, and the
     * resize pass runs. A non-member is refused.
     */
    method ReplaceChild(oldId: nat, newChild: Child) returns (err: Option<Error>)
      modifies this
      ensures IndexOf(Ids(old(children)), oldId) == -1 ==> err == Some(NotAChild) && unchanged(this)
      ensures IndexOf(Ids(old(children)), oldId) >= 0 ==>
        var i := IndexOf(Ids(old(children)), oldId);
        err.None? && children == NodeSized(Geom(), old(children)[i := newChild.(dim := old(children)[i].dim)])
      ensures Geom() == old(Geom()) && SplitterState() == old(SplitterState())
      ensures DragSession() == old(DragSession()) && Lifecycle() == old(Lifecycle())
      ensures old(Valid()) ==> Valid()
    {
      var index := IndexOf(Ids(children), oldId);
      if index == -1 {
        return Some(NotAChild);
      }
      var size := children[index].dim;
      children := children[index := newChild.(dim := size)];
      UpdateNodeSize();
      err := None;
    }

    /**
     * dock of the stack child `id`: `mode` None toggles, otherwise it is the wanted state.
     * A single child, a non-member, or docking the last undocked children are refused and
     * nothing changes; asking for the current state changes nothing either.
     */
    method Dock(id: nat, mode: Option<bool>) returns (err: Option<Error>, ghost index: int)
      requires Valid() && isInitialised
      requires IndexOf(Ids(children), id) >= 0 ==> children[IndexOf(Ids(children), id)].isStack
      modifies this
      ensures index == IndexOf(Ids(old(children)), id)
      ensures |old(children)| == 1 ==> err == Some(SingleChild) && unchanged(this)
      ensures |old(children)| != 1 && index == -1 ==> err == Some(NotAChild) && unchanged(this)
      ensures |old(children)| != 1 && index >= 0 ==>
        var c := old(children)[index];
        if mode.Some? && mode.value == c.docked then err.None? && unchanged(this)
        else if c.docked then
          && err.None?
          && splitters == WithVisibility(old(splitters), Max(index - 1, 0), true)
          && children == DockingValidated(NodeSized(Geom(), UndockRestored(old(children), index)))
        else if |old(children)| - DockedCount(old(children)) < 2 then
          err == Some(LastUndocked) && unchanged(this)
        else
          && err.None?
          && splitters == WithVisibility(old(splitters), Max(index - 1, 0), false)
          && children == DockingValidated(NodeSized(Geom(), DockRedistributed(old(children), index,
               DockSide(configType, index), AxisPixels(old(Geom()), c) - DockHeaderSize(headerShow, headerHeight))))
      ensures Geom() == old(Geom()) && nextSplitterId == old(nextSplitterId)
      ensures DragSession() == old(DragSession()) && Lifecycle() == old(Lifecycle())
      ensures Valid()
    {
      var i := IndexOf(Ids(children), id);
      index := i;
      if |children| == 1 {
        return Some(SingleChild), index;
      }
      if i == -1 {
        return Some(NotAChild), index;
      }
      var isDocked := children[i].docked;
      if mode.Some? && mode.value == isDocked {
        return None, index;
      }
      if isDocked {
        UndockChild(i);
      } else {
        if |children| - DockedCount(children) < 2 {
          return Some(LastUndocked), index;
        }
        DockChild(i);
      }
      Relayout();
      err := None;
    }

    /** dock's undock branch: the splitter before the child (after it, for the first) is shown again. */
    method UndockChild(index: nat)
      requires index < |children|
      modifies this
      ensures splitters == WithVisibility(old(splitters), Max(index - 1, 0), true)
      ensures children == UndockRestored(old(children), index)
      ensures Geom() == old(Geom()) && nextSplitterId == old(nextSplitterId)
      ensures DragSession() == old(DragSession()) && Lifecycle() == old(Lifecycle())
    {
      splitters := WithVisibility(splitters, Max(index - 1, 0), true);
      children := Undocked(children, index);
    }

    /**
     * dock's dock branch: the splitter beside the child is hidden, the header faces the
     * container's edge, and the child's share goes to its undocked siblings.
     */
    method DockChild(index: nat)
      requires index < |children| && |children| - 1 - DockedCount(children) > 0
      modifies this
      ensures splitters == WithVisibility(old(splitters), Max(index - 1, 0), false)
      ensures children == DockRedistributed(old(children), index, DockSide(configType, index),
                            AxisPixels(old(Geom()), old(children)[index]) - DockHeaderSize(headerShow, headerHeight))
      ensures Geom() == old(Geom()) && nextSplitterId == old(nextSplitterId)
      ensures DragSession() == old(DragSession()) && Lifecycle() == old(Lifecycle())
    {
      var realSize := AxisPixels(Geom(), children[index]) - DockHeaderSize(headerShow, headerHeight);
      splitters := WithVisibility(splitters, Max(index - 1, 0), false);
      children := DockedAt(children, index, DockSide(configType, index), Prop(children[index]), realSize);
    }

    /** dock's undock branch: the child gets its docker size back and every other proportion is rescaled. */
    static method Undocked(cs0: seq<Child>, index: nat) returns (cs: seq<Child>)
      requires index < |cs0|
      ensures cs == UndockRestored(cs0, index)
    {
      var newItemSize := cs0[index].dockSize;
      cs := cs0;
      var i := 0;
      while i < |cs0|
        invariant 0 <= i <= |cs0| && |cs| == |cs0|
        invariant forall j :: 0 <= j < i && j != index ==> cs[j] == UndockRestored(cs0, index)[j]
        invariant forall j :: i <= j < |cs0| && j != index ==> cs[j] == cs0[j]
        invariant cs[index] == if index < i then cs0[index].(dim := Some(newItemSize)) else cs0[index]
      {
        if i == index {
          cs := cs[i := cs[i].(dim := Some(newItemSize))];
        } else {
          UndockRestoredAt(cs0, index, i);
          cs := cs[i := ScaleOne(cs[i], (100.0 - newItemSize) / 100.0)];
        }
        i := i + 1;
      }
      cs := cs[index := cs[index].(docked := false)];
      assert UndockRestored(cs0, index)[index] == cs0[index].(dim := Some(newItemSize), docked := false);
    }

    /**
     * dock's dock branch: the header faces the container's edge, the child's proportion
     * becomes 0, each undocked sibling gains an equal share of it, and the docker records
     * the old proportion and the child's size less its header.
     */
    static method DockedAt(cs0: seq<Child>, index: nat, side: Side, removedSize: real, realSize: int) returns (cs: seq<Child>)
      requires index < |cs0| && removedSize == Prop(cs0[index])
      requires |cs0| - 1 - DockedCount(cs0) > 0
      ensures cs == DockRedistributed(cs0, index, side, realSize)
    {
      cs := cs0[index := cs0[index].(headerSide := side)];
      var dockedCount := CalculateDockedCount(cs);
      DockedCountSameFlags(cs0, cs);
      var share := removedSize / (|cs| - 1 - dockedCount) as real;
      assert share == DockShare(cs0, index);
      var i := 0;
      while i < |cs0|
        invariant 0 <= i <= |cs0| && |cs| == |cs0|
        invariant forall j :: 0 <= j < i && j != index ==> cs[j] == ShareOne(cs0[j], share)
        invariant forall j :: 0 <= j < |cs0| && i <= j && j != index ==> cs[j] == cs0[j]
        invariant cs[index] == cs0[index].(headerSide := side, dim := if index < i then Some(0.0) else cs0[index].dim)
      {
        if i != index {
          assert cs[i] == cs0[i];
          if !IsDocked(cs, i) && cs[i].dim.Some? {
            cs := cs[i := cs[i].(dim := Some(cs[i].dim.value + share))];
          }
          assert cs[i] == ShareOne(cs0[i], share);
        } else {
          cs := cs[i := cs[i].(dim := Some(0.0))];
        }
        i := i + 1;
      }
      cs := cs[index := cs[index].(docked := true, dockSize := removedSize, realSize := realSize)];
      forall j | 0 <= j < |cs0| ensures cs[j] == DockRedistributed(cs0, index, side, realSize)[j] {
        DockRedistributedIndex(cs0, index, side, realSize, j);
      }
    }

    /**
     * validateDocking: every stack child is dockable exactly when it is docked, and
     * closable when at least two children are undocked.
     */
    method ValidateDocking()
      modifies this
      ensures children == DockingValidated(old(children))
      ensures Geom() == old(Geom()) && SplitterState() == old(SplitterState())
      ensures DragSession() == old(DragSession()) && Lifecycle() == old(Lifecycle())
    {
      children := Validated(children);
    }

    /** validateDocking's loop over the children. */
    static method Validated(cs0: seq<Child>) returns (cs: seq<Child>)
      ensures cs == DockingValidated(cs0)
    {
      cs := cs0;
      var dockedCount := CalculateDockedCount(cs);
      var can := |cs| - dockedCount > 1;
      var i := 0;
      while i < |cs|
        invariant 0 <= i <= |cs| && |cs| == |cs0|
        invariant forall j :: 0 <= j < i ==> cs[j] == DockingValidated(cs0)[j]
        invariant forall j :: i <= j < |cs| ==> cs[j] == cs0[j]
      {
        if cs[i].isStack {
          cs := cs[i := cs[i].(dockable := IsDocked(cs, i), rowColumnClosable := can)];
        }
        i := i + 1;
      }
    }

    /** The tail the structural edits share: the resize pass, then validateDocking. */
    method Relayout()
      modifies this
      ensures children == DockingValidated(NodeSized(Geom(), old(children)))
      ensures Geom() == old(Geom()) && SplitterState() == old(SplitterState())
      ensures DragSession() == old(DragSession()) && Lifecycle() == old(Lifecycle())
    {
      UpdateNodeSize();
      ValidateDocking();
    }

    /** updateNodeSize: with children present, calculateRelativeSizes then setAbsoluteSizes. */
    method UpdateNodeSize()
      modifies this
      ensures children == NodeSized(Geom(), old(children))
      ensures Geom() == old(Geom()) && SplitterState() == old(SplitterState())
      ensures DragSession() == old(DragSession()) && Lifecycle() == old(Lifecycle())
    {
      if |children| > 0 {
        CalculateRelativeSizes();
        SetAbsoluteSizes();
      }
    }

    /**
     * calculateRelativeSizes: a total of explicit proportions that rounds to 100 is kept;
     * a smaller one is made up by the unset children if there are any; otherwise unset
     * children get 50 when the total is over 100, and everything is rescaled to 100.
     * Then respectMinItemWidth.
     */
    method CalculateRelativeSizes()
      modifies this
      ensures children == RelativeSized(Geom(), old(children))
      ensures Geom() == old(Geom()) && SplitterState() == old(SplitterState())
      ensures DragSession() == old(DragSession()) && Lifecycle() == old(Lifecycle())
    {
      children := Normalise(children);
      RespectMinItemWidth();
    }

    /** calculateRelativeSizes' rescaling of the explicit proportions, before the minimum-width correction. */
    static method Normalise(cs0: seq<Child>) returns (cs: seq<Child>)
      ensures cs == Normalised(cs0)
    {
      cs := cs0;
      var total, unset := ExplicitTotal(cs);
      if Round(total) == 100 {
      } else if Round(total) < 100 && unset > 0 {
        cs := FillUnset(cs, (100.0 - total) / unset as real);
      } else {
        if Round(total) > 100 {
          var added;
          cs, added := FillUnsetFifty(cs);
          total := total + added;
        }
        if total != 0.0 {
          cs := Rescaled(cs, total);
        }
      }
    }

    /** calculateRelativeSizes' first loop: the total of the explicit proportions and the unset children. */
    static method ExplicitTotal(cs: seq<Child>) returns (total: real, unset: nat)
      ensures total == SetTotal(cs) && unset == UnsetCount(cs)
    {
      total, unset := 0.0, 0;
      var i := 0;
      while i < |cs|
        invariant 0 <= i <= |cs|
        invariant total == SetTotal(cs[..i]) && unset == UnsetCount(cs[..i])
      {
        assert cs[..i + 1] == cs[..i] + [cs[i]];
        SetTotalAppend(cs[..i], [cs[i]]);
        assert Props([cs[i]]) == [Prop(cs[i])];
        TotalSingle(Prop(cs[i]));
        assert [cs[i]][..0] == [];
        if cs[i].dim.Some? {
          total := total + cs[i].dim.value;
        } else {
          unset := unset + 1;
        }
        i := i + 1;
      }
      assert cs[..i] == cs;
    }

    /** Each unset child given `v`. */
    static method FillUnset(cs0: seq<Child>, v: real) returns (cs: seq<Child>)
      ensures cs == Filled(cs0, v)
    {
      cs := cs0;
      var i := 0;
      while i < |cs|
        invariant 0 <= i <= |cs| && |cs| == |cs0|
        invariant forall j :: 0 <= j < i ==> cs[j] == Filled(cs0, v)[j]
        invariant forall j :: i <= j < |cs| ==> cs[j] == cs0[j]
      {
        if cs[i].dim.None? {
          cs := cs[i := cs[i].(dim := Some(v))];
        }
        i := i + 1;
      }
    }

    /** Each unset child given 50, with 50 added to the total for each. */
    static method FillUnsetFifty(cs0: seq<Child>) returns (cs: seq<Child>, added: real)
      ensures cs == Filled(cs0, 50.0) && added == 50.0 * UnsetCount(cs0) as real
    {
      cs := cs0;
      added := 0.0;
      var i := 0;
      while i < |cs|
        invariant 0 <= i <= |cs| && |cs| == |cs0|
        invariant forall j :: 0 <= j < i ==> cs[j] == Filled(cs0, 50.0)[j]
        invariant forall j :: i <= j < |cs| ==> cs[j] == cs0[j]
        invariant added == 50.0 * UnsetCount(cs0[..i]) as real
      {
        assert cs0[..i + 1][..i] == cs0[..i];
        if cs[i].dim.None? {
          cs := cs[i := cs[i].(dim := Some(50.0))];
          added := added + 50.0;
        }
        i := i + 1;
      }
      assert cs0[..i] == cs0;
    }

    /** Every proportion made relative to `total`: `(dim / total) * 100`, the same real as `dim * (100 / total)`. */
    static method Rescaled(cs0: seq<Child>, total: real) returns (cs: seq<Child>)
      requires total != 0.0
      ensures cs == Scaled(cs0, 100.0 / total)
    {
      cs := cs0;
      var i := 0;
      while i < |cs|
        invariant 0 <= i <= |cs| && |cs| == |cs0|
        invariant forall j :: 0 <= j < i ==> cs[j] == Scaled(cs0, 100.0 / total)[j]
        invariant forall j :: i <= j < |cs| ==> cs[j] == cs0[j]
      {
        cs := cs[i := ScaleOne(cs[i], 100.0 / total)];
        i := i + 1;
      }
    }

    /**
     * respectMinItemWidth: for a row with a configured minimum and several children, the
     * corrected pixel widths, if any, become proportions of the budget.
     */
    method RespectMinItemWidth()
      modifies this
      ensures children == MinWidthApplied(Geom(), old(children))
      ensures Geom() == old(Geom()) && SplitterState() == old(SplitterState())
      ensures DragSession() == old(DragSession()) && Lifecycle() == old(Lifecycle())
    {
      children := MinWidthRespected(Geom(), children);
    }

    /** respectMinItemWidth on the children's values. */
    static method MinWidthRespected(g: Geometry, cs0: seq<Child>) returns (cs: seq<Child>)
      ensures cs == MinWidthApplied(g, cs0)
    {
      cs := cs0;
      if g.isColumn || g.minItemWidth == 0 || |cs| <= 1 {
        return;
      }
      var sd := CalculateAbsoluteSizes(g, cs);
      var corrected := CorrectMinWidths(sd.itemSizes, g.minItemWidth);
      if corrected.None? || sd.totalWidth == 0 {
        return;
      }
      var w := corrected.value;
      var i := 0;
      while i < |cs|
        invariant 0 <= i <= |cs| && |cs| == |cs0| == |w|
        invariant forall j :: 0 <= j < i ==> cs[j] == cs0[j].(dim := Some(WidthShare(w[j], sd.totalWidth)))
        invariant forall j :: i <= j < |cs| ==> cs[j] == cs0[j]
      {
        cs := cs[i := cs[i].(dim := Some(WidthShare(w[i], sd.totalWidth)))];
        i := i + 1;
      }
    }

    /**
     * setAbsoluteSizes: each child's element gets its floored size, one pixel more for the
     * first `additionalPixel` children, along the axis and the full extent across it.
     */
    method SetAbsoluteSizes()
      modifies this
      ensures children == SizesApplied(Geom(), AbsoluteSizes(Geom(), old(children)), old(children))
      ensures Geom() == old(Geom()) && SplitterState() == old(SplitterState())
      ensures DragSession() == old(DragSession()) && Lifecycle() == old(Lifecycle())
    {
      children := AbsoluteSizesSet(Geom(), children);
    }

    /** setAbsoluteSizes' loop on the children's values. */
    static method AbsoluteSizesSet(g: Geometry, cs0: seq<Child>) returns (cs: seq<Child>)
      ensures cs == SizesApplied(g, AbsoluteSizes(g, cs0), cs0)
    {
      var sd := CalculateAbsoluteSizes(g, cs0);
      var target := SizesApplied(g, sd, cs0);
      var sizes := sd.itemSizes;
      cs := cs0;
      var i := 0;
      while i < |cs|
        invariant 0 <= i <= |cs| && |cs| == |cs0| == |sizes|
        invariant forall j :: 0 <= j < i ==> cs[j] == target[j]
        invariant forall j :: i <= j < |cs| ==> cs[j] == cs0[j] && sizes[j] == sd.itemSizes[j]
      {
        if sd.additionalPixel - i > 0 {
          sizes := sizes[i := sizes[i] + 1];
        }
        if g.isColumn {
          cs := cs[i := cs[i].(pxWidth := sd.totalWidth, pxHeight := sizes[i])];
        } else {
          cs := cs[i := cs[i].(pxWidth := sizes[i], pxHeight := sd.totalHeight)];
        }
        i := i + 1;
      }
    }

    /**
     * init: the first call runs the resize pass and creates a splitter after every child
     * but the last. Its dock requests for docked stacks are no-ops, except that a single
     * docked child is refused as dock refuses any single child.
     */
    method Init() returns (err: Option<Error>)
      modifies this
      ensures old(isInitialised) ==> err.None? && unchanged(this)
      ensures !old(isInitialised) ==>
        && isInitialised
        && children == NodeSized(Geom(), old(children))
        && splitters == SplittersOnInit(old(splitters), |old(children)|, old(nextSplitterId))
        && nextSplitterId == old(nextSplitterId) + Max(|old(children)| - 1, 0)
        && err == (if |old(children)| == 1 && Docked(old(children)[0]) then Some(SingleChild) else None)
        && (old(splitters) == [] ==> Valid())
      ensures Geom() == old(Geom()) && DragSession() == old(DragSession())
      ensures dissolvedInto == old(dissolvedInto) && resizePending == old(resizePending)
    {
      if isInitialised {
        return None;
      }
      var cs0 := children;
      UpdateNodeSize();
      isInitialised := true;
      var n := |children|;
      splitters := InitSplitters(splitters, n, nextSplitterId);
      nextSplitterId := nextSplitterId + Max(n - 1, 0);
      SplittersOnInitCount(old(splitters), n, old(nextSplitterId));
      var refused := DockRequestsRefused(children);
      if n == 1 {
        NodeSizedSame(Geom(), cs0);
        assert SameButSizes(cs0[0], children[0]);
      }
      err := if refused then Some(SingleChild) else None;
    }

    /**
     * init's last loop: every docked stack is docked again, which is a no-op for a docked
     * stack among several children and refused for a single child.
     */
    static method DockRequestsRefused(cs: seq<Child>) returns (refused: bool)
      ensures refused <==> |cs| == 1 && Docked(cs[0])
    {
      var i := 0;
      while i < |cs|
        invariant 0 <= i <= |cs|
        invariant forall j :: 0 <= j < i ==> !(Docked(cs[j]) && |cs| == 1)
      {
        if cs[i].isStack && cs[i].docked && |cs| == 1 {
          return true;
        }
        i := i + 1;
      }
      return false;
    }

    /** onSplitterDragStart: the position starts at 0 and the range is fixed from the neighbours. */
    method OnSplitterDragStart(splitterId: nat)
      requires Valid() && isInitialised && IndexOf(SplitterIds(splitters), splitterId) >= 0
      modifies this
      ensures var k := IndexOf(SplitterIds(old(splitters)), splitterId);
        var before, after := old(children)[k], old(children)[k + 1];
        var range := StartRange(AxisPixels(Geom(), before), AxisPixels(Geom(), after),
                                MinOnAxis(before), MinOnAxis(after),
                                if isColumn then minItemHeight else minItemWidth);
        DragSession() == (Some(0.0), Some(range.lo), Some(range.hi))
      ensures Geom() == old(Geom()) && children == old(children) && SplitterState() == old(SplitterState())
      ensures Lifecycle() == old(Lifecycle())
    {
      var k := IndexOf(SplitterIds(splitters), splitterId);
      var before, after := children[k], children[k + 1];
      var minSize := if isColumn then minItemHeight else minItemWidth;
      var beforeMinDim := GetMinimumDimensions(before.contentMins);
      var beforeMinSize := if isColumn then beforeMinDim.vertical else beforeMinDim.horizontal;
      var afterMinDim := GetMinimumDimensions(after.contentMins);
      var afterMinSize := if isColumn then afterMinDim.vertical else afterMinDim.horizontal;
      splitterPosition := Some(0.0);
      splitterMinPosition := Some(-1.0 * (AxisPixels(Geom(), before) - OrElse(beforeMinSize, minSize)) as real);
      splitterMaxPosition := Some((AxisPixels(Geom(), after) - OrElse(afterMinSize, minSize)) as real);
    }

    /** The largest configured minimum of a child's own items along the container's axis. */
    function MinOnAxis(c: Child): int
      reads this
    {
      if isColumn then MinDimensions(c.contentMins).vertical else MinDimensions(c.contentMins).horizontal
    }

    /**
     * onSplitterDrag: without a range it is refused; an offset strictly inside the range
     * becomes the position, any other offset is ignored.
     */
    method OnSplitterDrag(offsetX: real, offsetY: real) returns (err: Option<Error>)
      modifies this
      ensures var offset := if isColumn then offsetY else offsetX;
        if splitterMinPosition.None? || splitterMaxPosition.None? then
          err == Some(UnexpectedNull) && splitterPosition == old(splitterPosition)
        else
          && err.None?
          && (Accepts(Range(splitterMinPosition.value, splitterMaxPosition.value), offset) ==> splitterPosition == Some(offset))
          && (!Accepts(Range(splitterMinPosition.value, splitterMaxPosition.value), offset) ==> splitterPosition == old(splitterPosition))
      ensures splitterMinPosition == old(splitterMinPosition) && splitterMaxPosition == old(splitterMaxPosition)
      ensures Geom() == old(Geom()) && children == old(children) && SplitterState() == old(SplitterState())
      ensures Lifecycle() == old(Lifecycle())
    {
      var offset := if isColumn then offsetY else offsetX;
      if splitterMinPosition.None? || splitterMaxPosition.None? {
        return Some(UnexpectedNull);
      }
      if offset > splitterMinPosition.value && offset < splitterMaxPosition.value {
        splitterPosition := Some(offset);
      }
      err := None;
    }

    /**
     * onSplitterDragStop: without a position it is refused; otherwise the two neighbours'
     * combined proportion is split where the splitter stopped, and a resize pass is
     * requested for the next animation frame.
     */
    method OnSplitterDragStop(splitterId: nat) returns (err: Option<Error>)
      requires Valid() && isInitialised && IndexOf(SplitterIds(splitters), splitterId) >= 0
      modifies this
      ensures splitterPosition.None? ==> err == Some(UnexpectedNull) && unchanged(this)
      ensures splitterPosition.Some? ==>
        var k := IndexOf(SplitterIds(old(splitters)), splitterId);
        var before, after := old(children)[k], old(children)[k + 1];
        var sizeBefore, sizeAfter := AxisPixels(Geom(), before), AxisPixels(Geom(), after);
        && err.None? && resizePending
        && (sizeBefore + sizeAfter != 0 ==>
              var (b, a) := Split(splitterPosition.value, sizeBefore, sizeAfter, Prop(before), Prop(after));
              children == old(children)[k := before.(dim := Some(b))][k + 1 := after.(dim := Some(a))])
        && (sizeBefore + sizeAfter == 0 ==> children == old(children))
      ensures Geom() == old(Geom()) && SplitterState() == old(SplitterState()) && DragSession() == old(DragSession())
      ensures isInitialised == old(isInitialised) && dissolvedInto == old(dissolvedInto)
      ensures Valid()
    {
      if splitterPosition.None? {
        return Some(UnexpectedNull);
      }
      var k := IndexOf(SplitterIds(splitters), splitterId);
      var before, after := children[k], children[k + 1];
      var sizeBefore, sizeAfter := AxisPixels(Geom(), before), AxisPixels(Geom(), after);
      if sizeBefore + sizeAfter != 0 {
        var (b, a) := Split(splitterPosition.value, sizeBefore, sizeAfter, Prop(before), Prop(after));
        children := children[k := before.(dim := Some(b))];
        children := children[k + 1 := after.(dim := Some(a))];
      }
      resizePending := true;
      err := None;
    }

    /** The animation frame requested by a drag stop: the resize pass runs once. */
    method AnimationFrame()
      modifies this
      ensures old(resizePending) ==> children == NodeSized(Geom(), old(children)) && !resizePending
      ensures !old(resizePending) ==> children == old(children) && !resizePending
      ensures Geom() == old(Geom()) && SplitterState() == old(SplitterState()) && DragSession() == old(DragSession())
      ensures isInitialised == old(isInitialised) && dissolvedInto == old(dissolvedInto)
      ensures old(Valid()) ==> Valid()
    {
      if resizePending {
        UpdateNodeSize();
        resizePending := false;
      }
    }
  }
}
