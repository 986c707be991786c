# RowOrColumn: size allocation and docking in golden-layout

This project models the core of golden-layout's `RowOrColumn` container and proves properties of the model. A row or a column holds an ordered list of children. Each child has a proportion along the container's axis: `width` for a row, `height` for a column, in percent, possibly unset. The container keeps one splitter between each adjacent pair of children. The model covers:

- the structural edits `addChild`, `removeChild` and `replaceChild`, which rescale the proportions and splice the splitter array;
- the resize pass `updateNodeSize`:
  - `calculateRelativeSizes` normalises set and unset proportions to a total of 100;
  - `respectMinItemWidth` lifts narrow row children to the configured minimum width;
  - `calculateAbsoluteSizes` and `setAbsoluteSizes` floor the proportions to pixels and hand out the pixels lost to flooring one at a time;
- docking of stack children with `dock`, `isDocked`, `calculateDockedCount` and `validateDocking`;
- the splitter drag session `onSplitterDragStart`, `onSplitterDrag` and `onSplitterDragStop`, with `getItemsForSplitter` and `getMinimumDimensions`;
- `createSplitter`, `init` and the constructor's type check.

The project has these modules:

- `Items`: the child and splitter records, `isDocked`, the docked count, `indexOf`, and sums of proportions.
- `Proportions`: what insertion, removal, docking, undocking and normalisation do to the proportions, as functions.
- `Pixels`: the pixel budget, flooring and the bump, and the minimum-width correction.
- `Splitters`: the splitter array bookkeeping.
- `Drag`: the drag range and the split at drag stop.
- `Sizing`: the resize pass composed from its steps.
- `Docking`: validateDocking's flags.
- `Layout`: the class `RowOrColumn`. Its fields are the container's state. Its methods perform the source's updates and loops, and each states its new state as a function of the old one.

Proportions are exact reals and pixel sizes are unbounded integers. `Math.floor` and `Math.round` are modelled as `Numbers.Floor` and `Numbers.Round`: Round rounds halves towards +infinity. An unset proportion is `None`. The container element's measured width and height are fields, as are the layout dimensions:

- `borderWidth` is the splitter size;
- `headerHeight` and `header.show`;
- `minItemWidth` and `minItemHeight`, where 0 means "not configured".

A child's element size is recorded as the pixel fields that `setAbsoluteSizes` writes.

## Model

| member | source | states |
|---|---|---|
| Items.IsDocked | dist/cjs/ts/items/row-or-column.js:587-600 | An index is docked only if it is in range and holds a stack whose docker says docked. |
| Items.CalculateDockedCount | dist/cjs/ts/items/row-or-column.js:602-608 | The counting loop returns the number of docked children, which is at most the number of children. |
| Items.DockedCountBound | dist/cjs/ts/items/row-or-column.js:602-608 | The docked count is at most n. It is n exactly when every child is docked, and 0 exactly when none is. |
| Items.ScaledUnset | dist/cjs/ts/items/row-or-column.js:120-121 | The `*=` rescale of addChild and undocking leaves exactly as many children unset as before. The source's `undefined *= k` is NaN, and the model keeps the proportion unset instead. |
| Numbers.IndexOf | dist/cjs/ts/items/row-or-column.js:139 | Gives -1 exactly when no entry has the identity, and otherwise the first position that has it. It is applied to the children's identities and, for getItemsForSplitter (:580), to the splitters'. |
| Proportions.AddedTotal | dist/cjs/ts/items/row-or-column.js:111-124 | With s = 100/n, the new total is (100-s)/100 times the old total plus s, where n counts the new child. So a total of 100 stays 100, and the new child's proportion is 100/n. |
| Proportions.AddedAt | dist/cjs/ts/items/row-or-column.js:116-124 | Child by child: the inserted child gets 100/n, and every other explicit proportion is multiplied by (100 - 100/n)/100. |
| Proportions.RedistributedAt | dist/cjs/ts/items/row-or-column.js:159-166 | After removal, each remaining child is its old self plus the share if it is undocked with a set proportion, and unchanged otherwise. |
| Proportions.RedistributedTotal | dist/cjs/ts/items/row-or-column.js:159-166 | Removing an undocked child beside at least one undocked sibling keeps the total of the proportions. |
| Proportions.RedistributedDockedTotal | dist/cjs/ts/items/row-or-column.js:159-163 | The docked count includes a removed docked child. Each undocked sibling then gets r/(m-1) rather than r/m, and the total grows by that share. |
| Proportions.RedistributedDockedSingle | dist/cjs/ts/items/row-or-column.js:159-163 | A docked child removed beside a single undocked sibling leaves a divisor of 0. Every remaining child keeps its proportion. |
| Proportions.DockRedistributedTotal | dist/cjs/ts/items/row-or-column.js:235-261 | Docking an undocked stack, which the guard allows when two or more children are undocked, keeps the total. |
| Proportions.DockRedistributedShape | dist/cjs/ts/items/row-or-column.js:253-267 | Docking sets the child's proportion to 0 and records its old proportion as the docker size. It keeps every proportion set and adds exactly one docked child. |
| Proportions.DockRedistributedIndex | dist/cjs/ts/items/row-or-column.js:253-267 | Child by child: the docked child is recorded with proportion 0, its old proportion, its size less the header, and the header side. Every other child gets the share if undocked. |
| Proportions.DockRedistributedAt | dist/cjs/ts/items/row-or-column.js:253-258 | An undocked sibling gains proportion/(n-1-dockedCount). A docked sibling is unchanged. |
| Proportions.UndockRestoredTotal | dist/cjs/ts/items/row-or-column.js:220-232 | Undocking a child whose proportion is 0 gives it back its docker size and keeps a total of 100. |
| Proportions.UndockRestoredAt | dist/cjs/ts/items/row-or-column.js:222-231 | Undocking multiplies every other explicit proportion by (100 - size)/100, docked siblings included. |
| Proportions.DockThenUndock | dist/cjs/ts/items/row-or-column.js:206-276 | Docking then undocking a child restores its own proportion and undocked state, and keeps a total of 100. |
| Proportions.DockThenUndockAt | dist/cjs/ts/items/row-or-column.js:222-258 | After the round trip, each sibling is its post-dock self scaled by (100 - r)/100, where r is the child's proportion before docking. |
| Proportions.DockThenUndockCounterexample | dist/cjs/ts/items/row-or-column.js:222-258 | Proportions 20, 20, 60: docking the first and undocking it gives 20, 24, 56, so the siblings are not restored. |
| Proportions.NormalisedOutcomes | dist/cjs/ts/items/row-or-column.js:438-485 | A total rounding to 100 is kept. Otherwise all proportions end set and total 100, except for the zero total. A total rounding below 100 with unset children leaves set children alone and gives each unset one (100-total)/unset. |
| Proportions.NormalisedFill | dist/cjs/ts/items/row-or-column.js:459-465 | A total short of 100 with unset children: the unset ones share the remainder equally, and the result totals 100. |
| Proportions.NormalisedOver | dist/cjs/ts/items/row-or-column.js:472-483 | A total over 100: unset children get 50 each, and the rescale brings everything to 100. |
| Proportions.NormalisedUnder | dist/cjs/ts/items/row-or-column.js:478-483 | A non-zero total short of 100 with no unset child falls through to the rescale, which gives 100. |
| Proportions.NormalisedIdempotent | dist/cjs/ts/items/row-or-column.js:438-485 | Normalising a second time changes nothing. |
| Pixels.DockDeductionCount | dist/cjs/ts/items/row-or-column.js:385-394 | The docked deduction loop removes headerSize - splitterSize once per docked child. |
| Pixels.BudgetFormula | dist/cjs/ts/items/row-or-column.js:376-394 | The budget is the extent less (n-1)·splitterSize, less (headerSize - splitterSize) for each docked child. |
| Pixels.AbsoluteSizesShape | dist/cjs/ts/items/row-or-column.js:375-417 | A docked child gets exactly the header size. Every other child gets the floor of budget·p/100. additionalPixel is the budget less the assigned sum. The budget is reported on the axis and the full extent across it. |
| Pixels.CalculateAbsoluteSizes | dist/cjs/ts/items/row-or-column.js:375-417 | The two loops compute exactly the size data of the specification function. |
| Pixels.PaddedSum | dist/cjs/ts/items/row-or-column.js:356-359 | Child i gets one extra pixel exactly when i < additionalPixel. The bump adds additionalPixel clamped to [0, n]. |
| Pixels.BudgetExact | dist/cjs/ts/items/row-or-column.js:354-417 | With no docked child and proportions totalling 100, 0 <= additionalPixel < n, and the bumped sizes total the budget exactly. |
| Pixels.DockedBumpShort | dist/cjs/ts/items/row-or-column.js:356-410 | A row 302 wide, splitters 5, headers 20, children 50, 50 and docked: budget 277, sizes 138, 138, 20, additionalPixel -19, no bump, and one pixel of the budget unassigned. |
| Pixels.SizesAppliedShape | dist/cjs/ts/items/row-or-column.js:354-369 | Every child's element spans the full cross extent, and its axis size is its floored size plus the bump. Only the pixel fields change. |
| Pixels.EntriesSum | dist/cjs/ts/items/row-or-column.js:503-520 | Raising the entries under the minimum to it adds exactly the total deficit. |
| Pixels.ReductionBound | dist/cjs/ts/items/row-or-column.js:532-537 | With a ratio in (0, 1], an entry over the minimum gives up between 0 and its excess. |
| Pixels.MinWidthApplies | dist/cjs/ts/items/row-or-column.js:521-526 | The correction applies exactly when some entry is under the minimum and the surplus covers the deficit. |
| Pixels.MinWidthConserves | dist/cjs/ts/items/row-or-column.js:527-543 | The corrected widths total the floored sizes: pixels are moved, not made. |
| Pixels.MinWidthLifts | dist/cjs/ts/items/row-or-column.js:503-537 | Except for the last entry, every entry under the minimum ends exactly at it, and every other entry ends between the minimum and its own size. |
| Pixels.MinWidthLastStaysUnder | dist/cjs/ts/items/row-or-column.js:541-543 | Sizes 12,12,12,12,12,8 with minimum 10: the last entry absorbs the remainder and stays at 8. |
| Pixels.MinWidthTotals | dist/cjs/ts/items/row-or-column.js:503-520 | The first loop gives the total deficit, the total surplus and each entry's starting width. |
| Pixels.ReduceOverMin | dist/cjs/ts/items/row-or-column.js:530-537 | The reduction loop subtracts each rounded reduction and counts the remaining deficit down by the same amounts. |
| Pixels.CorrectMinWidths | dist/cjs/ts/items/row-or-column.js:499-543 | The passes compute exactly the correction function, including "no correction". |
| Splitters.CreateSplitter | dist/cjs/ts/items/row-or-column.js:562-569 | A new displayed splitter is spliced in at the index, or appended past the end. The others keep their order. |
| Splitters.SplittersOnAdd | dist/cjs/ts/items/row-or-column.js:92-106 | addChild adds exactly one splitter to a non-empty container and none to an empty one. |
| Splitters.AppendAfterDockedFails | dist/cjs/ts/items/row-or-column.js:94-100 | As written, appending after a docked last child reads a splitter that does not exist. |
| Splitters.SplittersOnAddAgrees | dist/cjs/ts/items/row-or-column.js:92-106 | Wherever the source does not fail, the corrected bookkeeping agrees with it. It keeps one splitter per adjacent pair of children. |
| Splitters.SplittersOnRemove | dist/cjs/ts/items/row-or-column.js:148-155 | removeChild deletes the splitter at max(index-1, 0) when one is there. |
| Splitters.SplittersOnRemoveCount | dist/cjs/ts/items/row-or-column.js:140-151 | With one splitter per adjacent pair before the removal, there is one per adjacent pair after it. |
| Splitters.SplittersOnRemoveBound | dist/cjs/ts/items/row-or-column.js:140-151 | A short splitter array stays within one splitter per adjacent pair after the removal. |
| Splitters.SplittersOnInitCount | dist/cjs/ts/items/row-or-column.js:306-308 | init adds max(n-1, 0) splitters. |
| Splitters.InitSplitters | dist/cjs/ts/items/row-or-column.js:306-308 | init's loop creates the splitters at positions 0 .. n-2 with fresh identities, as the specification function says. |
| Drag.MinDimensionsIsMax | dist/cjs/ts/items/row-or-column.js:613-625 | Each result is the largest configured minimum, or 0. It is at least every entry's minimum and equal to one of them unless it is 0. |
| Drag.GetMinimumDimensions | dist/cjs/ts/items/row-or-column.js:613-625 | The loop with two running maxima computes the fold. |
| Drag.StartRange | dist/cjs/ts/items/row-or-column.js:638-640 | The minimum is -(before - (beforeMin \|\| minSize)) and the maximum is after - (afterMin \|\| minSize). |
| Drag.AcceptedKeepsMinimums | dist/cjs/ts/items/row-or-column.js:651-658 | An offset strictly inside the range leaves each neighbour larger than its effective minimum. |
| Drag.SplitPreservesTotal | dist/cjs/ts/items/row-or-column.js:683-686 | The stop keeps the two neighbours' combined proportion. |
| Drag.SplitWithinRange | dist/cjs/ts/items/row-or-column.js:631-686 | A position the drag accepted gives both neighbours a positive share, each less than the combined proportion, when minimums are non-negative. |
| Sizing.NormalisedSame | dist/cjs/ts/items/row-or-column.js:438-485 | Normalisation changes only proportions. |
| Sizing.MinWidthAppliedSame | dist/cjs/ts/items/row-or-column.js:547-549 | The minimum-width step changes only proportions. |
| Sizing.SizesAppliedSame | dist/cjs/ts/items/row-or-column.js:356-368 | setAbsoluteSizes changes only the element sizes. |
| Sizing.SameButSizesDocked | dist/cjs/ts/items/row-or-column.js:602-608 | Changing sizes does not change the docked count. |
| Sizing.NodeSizedSame | dist/cjs/ts/items/row-or-column.js:339-346 | The resize pass keeps identities, stack and dock state and flags, and the docked count. |
| Sizing.AxisSizesApplied | dist/cjs/ts/items/row-or-column.js:356-368 | The axis sizes applied are the floored sizes with the bump. |
| Sizing.NodeSizedBudget | dist/cjs/ts/items/row-or-column.js:339-417 | End to end: with no docked child, no minimum-width step, and proportions that normalise to 100, the resize pass gives axis sizes totalling the budget. |
| Sizing.RelativeSizedIdempotent | dist/cjs/ts/items/row-or-column.js:438-485 | With no minimum-width step, a second relative pass leaves the proportions alone. |
| Docking.DockingValidatedFlags | dist/cjs/ts/items/row-or-column.js:281-291 | A stack is dockable exactly when it is docked. It is closable exactly when two or more children are undocked. Other children and fields are untouched. |
| Docking.DockingValidatedIdempotent | dist/cjs/ts/items/row-or-column.js:281-291 | Validating twice is validating once. |
| Layout.RowOrColumn.constructor | dist/cjs/ts/items/row-or-column.js:14-39 | A row or column starts with its children, no splitters, an empty drag session, and uninitialised. |
| Layout.RowOrColumn.Create | dist/cjs/ts/items/row-or-column.js:31-38 | A configuration type other than row or column is refused. Otherwise a fresh container holds the children. |
| Layout.RowOrColumn.NewSplitter | dist/cjs/ts/items/row-or-column.js:562-569 | createSplitter splices a displayed splitter with a fresh identity into the array. |
| Layout.RowOrColumn.AddChild | dist/cjs/ts/items/row-or-column.js:87-129 | Returns the index, the end by default. With suspendResize the child is only inserted. Otherwise the children are the inserted, rescaled, resized and validated sequence. Splitters follow the corrected bookkeeping, and one per adjacent pair is kept. |
| Layout.RowOrColumn.AddSplitter | dist/cjs/ts/items/row-or-column.js:92-106 | Splitter bookkeeping before insertion, with the identity counter advanced once for a non-empty container. |
| Layout.RowOrColumn.ScaledForInsertion | dist/cjs/ts/items/row-or-column.js:111-124 | addChild's loop computes the insertion rescale. |
| Layout.RowOrColumn.RemoveChild | dist/cjs/ts/items/row-or-column.js:137-181 | A non-member is refused with nothing changed. Otherwise: the splitter bookkeeping, the share to the undocked siblings, the removal, then either dissolution into the single remaining child of a closable container, or the resize pass and validation. One splitter per pair is kept. |
| Layout.RowOrColumn.RemovedSplitters | dist/cjs/ts/items/row-or-column.js:148-155 | The splitter splice computes SplittersOnRemove. |
| Layout.RowOrColumn.ShareRemoved | dist/cjs/ts/items/row-or-column.js:159-166 | removeChild's loop and the removal compute the redistribution function. |
| Layout.RowOrColumn.ReplaceChild | dist/cjs/ts/items/row-or-column.js:185-191 | A non-member is refused. Otherwise the new child takes the old one's place and proportion, and the resize pass runs. |
| Layout.RowOrColumn.Dock | dist/cjs/ts/items/row-or-column.js:206-276 | Refuses a single child, a non-member, and docking that would leave fewer than two undocked children, with nothing changed. The requested current state is a no-op. Otherwise it undocks or docks, then runs the resize pass and validation. One splitter per pair is kept. |
| Layout.RowOrColumn.UndockChild | dist/cjs/ts/items/row-or-column.js:220-233 | The splitter at max(index-1, 0) is shown, and the children are the undock function of the old ones. |
| Layout.RowOrColumn.DockChild | dist/cjs/ts/items/row-or-column.js:234-267 | The splitter at max(index-1, 0) is hidden, and the children are the dock function of the old ones, with the measured size less the header. |
| Layout.RowOrColumn.Undocked | dist/cjs/ts/items/row-or-column.js:221-232 | The undock loop and setUndocked compute UndockRestored. |
| Layout.RowOrColumn.DockedAt | dist/cjs/ts/items/row-or-column.js:247-267 | positionHeader, the dock loop and setDocked compute DockRedistributed. |
| Layout.RowOrColumn.ValidateDocking | dist/cjs/ts/items/row-or-column.js:281-291 | The children become their validated flags, and nothing else changes. |
| Layout.RowOrColumn.Validated | dist/cjs/ts/items/row-or-column.js:281-291 | validateDocking's loop computes the flags function. |
| Layout.RowOrColumn.Relayout | dist/cjs/ts/items/row-or-column.js:125-127 | The resize pass followed by validateDocking. |
| Layout.RowOrColumn.UpdateNodeSize | dist/cjs/ts/items/row-or-column.js:339-346 | With children present, the relative pass then the absolute pass. Nothing but the children changes. |
| Layout.RowOrColumn.CalculateRelativeSizes | dist/cjs/ts/items/row-or-column.js:438-485 | The children become the normalised children with the minimum-width correction. |
| Layout.RowOrColumn.Normalise | dist/cjs/ts/items/row-or-column.js:439-483 | The branches and loops compute the normalisation function. |
| Layout.RowOrColumn.ExplicitTotal | dist/cjs/ts/items/row-or-column.js:439-448 | The first loop gives the total of the set proportions and the number of unset children. |
| Layout.RowOrColumn.FillUnset | dist/cjs/ts/items/row-or-column.js:459-462 | Each unset child gets the remainder share. |
| Layout.RowOrColumn.FillUnsetFifty | dist/cjs/ts/items/row-or-column.js:472-477 | Each unset child gets 50, and 50 per unset child is added to the total. |
| Layout.RowOrColumn.Rescaled | dist/cjs/ts/items/row-or-column.js:481-483 | Every explicit proportion becomes dim/total·100. |
| Layout.RowOrColumn.RespectMinItemWidth | dist/cjs/ts/items/row-or-column.js:490-550 | The children become the minimum-width-corrected children. |
| Layout.RowOrColumn.MinWidthRespected | dist/cjs/ts/items/row-or-column.js:490-550 | The early exits, the correction passes and the final loop compute MinWidthApplied. |
| Layout.RowOrColumn.SetAbsoluteSizes | dist/cjs/ts/items/row-or-column.js:354-369 | Element sizes become the floored, bumped sizes along the axis and the full extent across it. |
| Layout.RowOrColumn.AbsoluteSizesSet | dist/cjs/ts/items/row-or-column.js:354-369 | setAbsoluteSizes' loop computes SizesApplied. |
| Layout.RowOrColumn.Init | dist/cjs/ts/items/row-or-column.js:298-319 | A second call changes nothing. The first runs the resize pass and adds max(n-1, 0) splitters, one per pair when none existed. A single docked child is refused. |
| Layout.RowOrColumn.DockRequestsRefused | dist/cjs/ts/items/row-or-column.js:309-317 | init's docking loop refuses exactly a lone docked stack. |
| Layout.RowOrColumn.OnSplitterDragStart | dist/cjs/ts/items/row-or-column.js:631-641 | The position is 0 and the range is StartRange of the neighbours, which getItemsForSplitter picks. Nothing else changes. |
| Layout.RowOrColumn.OnSplitterDrag | dist/cjs/ts/items/row-or-column.js:651-668 | Refused without a range. An offset strictly inside the range becomes the position, and any other offset leaves it unchanged. |
| Layout.RowOrColumn.OnSplitterDragStop | dist/cjs/ts/items/row-or-column.js:675-691 | Refused without a position, with nothing changed. Otherwise the neighbours get the split of their combined proportion, and a resize is requested. |
| Layout.RowOrColumn.AnimationFrame | dist/cjs/ts/items/row-or-column.js:689 | A pending resize runs the resize pass once and clears the request. |

## Behaviour the model follows from the code

- A dock followed by an undock restores the child's own proportion and a total of 100, but not the siblings' proportions. Each sibling keeps the share it was handed, scaled by (100 - r)/100. `Proportions.DockThenUndockCounterexample` gives an instance.
- onSplitterDragStop does not clear the position or the range. They stay set until the next drag start.
- removeChild counts docked children before the removal, so a removed docked child is counted. Docking sets the child's proportion to 0, and removing it then hands out nothing. The proportion stays 0 only until a minimum-width correction applies. respectMinItemWidth writes entry/totalWidth·100 to every child, docked ones included, and a docked child's entry is its header size, or the minimum width when the header is smaller. After such a pass, removing the docked child hands r/(m-1) to each of the m undocked siblings. `Proportions.RedistributedDockedTotal` states that share and the growth of the total.
- The same count makes the divisor 0 when a docked child is removed beside a single undocked sibling. The source then adds 0/0, which is NaN, to that sibling. When that sibling is the only child left and the container is closable, the container dissolves into it straight away. Otherwise the sibling keeps NaN as its proportion. The model gives a share of 0 in this case, and `Proportions.RedistributedDockedSingle` shows that the sibling keeps its proportion.
- The pixel bump falls short when a child is docked. calculateAbsoluteSizes already takes the docked headers out of the budget, but it also counts the headers' sizes in `totalAssigned`. So additionalPixel is the flooring loss less the size of every docked header, usually negative, and the pixels lost to flooring are not handed back. The model keeps this computation. `Pixels.DockedBumpShort` gives an instance where one pixel of the budget goes unassigned. `Pixels.BudgetExact` is stated for containers with no docked child for this reason.
- validateDocking's `isDocked(i) ?? can` is always the child's docked state, because isDocked never returns null or undefined.

## Left out

- DOM work (element insertion, class toggles, splitter element styles and positions) is not modelled. Splitter visibility is a flag per splitter. Measured element sizes are fields (`width`, `height`, and each child's `pxWidth`/`pxHeight`).
- Event emission (`emitBaseBubblingEvent`, `emit('resize')`) and `updateContentItemsSize` are left out, since they have no effect on this state. `updateSize` is modelled as `updateNodeSize`.
- `requestAnimationFrame` is modelled by the `resizePending` flag and `AnimationFrame`. The scheduling itself is not modelled.
- The superclass `ContentItem` is not part of this model. `super.addChild`, `super.removeChild` and `super.replaceChild` are a sequence insert, delete and replace. `super.init` only sets `isInitialised`. The parent's `replaceChild` when the container dissolves is the `dissolvedInto` field.
- `newComponent`, `addComponent`, `newItem`, `addItem`, `toConfig`, `setParent` and the layout manager calls are not part of the core.
- The `collapsed` argument of dock zeroes an element size in the DOM and is left out.
- Floating point: proportions are exact reals, so IEEE-754 rounding is not modelled.
- NaN and infinity are not modelled. Where the source divides by zero, the model leaves the affected values unchanged:
  - a zero total in calculateRelativeSizes' rescale;
  - a zero `totalWidth` in respectMinItemWidth;
  - a zero `sizeBefore + sizeAfter` at drag stop.
- Where the source does arithmetic on an unset (`undefined`) proportion and gets NaN, the model reads the proportion through `Items.Prop` as 0 or keeps it unset instead. An unset proportion can reach these paths: calculateRelativeSizes leaves unset children alone when the set total already rounds to 100.
  - Pixel sizing: an unset proportion gives a size of 0 instead of NaN.
  - Drag stop with an unset neighbour: the model sums the two proportions with the unset one as 0 and writes two set proportions. The source writes NaN to both.
  - addChild's `*=` on an unset sibling: the model keeps the sibling unset (`Items.ScaledUnset`), and the next normalisation gives it a share of the remainder. The source makes it NaN.
  - removeChild or dock of a child whose proportion is unset: the model hands the siblings a share of 0, and dock records a `dockSize` of 0. The source adds NaN to every undocked sibling, and dock records `undefined`.
- Layout.RowOrColumn.RemoveChild: when a docked child is removed beside a single undocked sibling, the source divides by zero and the sibling gets NaN. The model hands out a share of 0 (`Proportions.RedistributedDockedSingle`).
- Layout.RowOrColumn.Dock: requires an initialised container, so its splitter array has one splitter per pair. It also requires the child to be a stack, because the source reads the child's docker.
- Layout.RowOrColumn.OnSplitterDragStart, Layout.RowOrColumn.OnSplitterDragStop: the splitter is identified by its identity and must be registered, since only registered splitters carry the drag listeners. Their contracts also require an initialised container.
- Layout.RowOrColumn.AddChild: the splitter bookkeeping follows the corrected definition (see Findings). Where the source raises a TypeError, the model carries on.
- Proportions.UndockRestoredTotal: covers only a docked child whose proportion is 0, as docking leaves it. Once a minimum-width correction has written a proportion to the docked child, undocking scales the siblings by (100 - size)/100 and overwrites that proportion with the docker size. What the docked child held then drops out of the total, so the total is not 100 in general.
- Pixels.MinWidthLifts: says nothing about the last entry, which absorbs the rounding remainder and can stay under the minimum (`Pixels.MinWidthLastStaysUnder`).
- Layout.RowOrColumn.Init: init's dock requests on docked stacks among several children are no-ops in the source, so the model does not call Dock for them.

## Findings

| source | as written | input that shows it | evidently intended | confidence | as-written member | corrected member |
|---|---|---|---|---|---|---|
| dist/cjs/ts/items/row-or-column.js:97-99 | After a docked child at index-1, addChild hides `_splitter[index-1]` and shows `_splitter[index]`, unguarded | Two children, the second docked, one splitter. Appending at index 2 creates splitter 1 and then reads `_splitter[2]`, which is undefined, so `.element` throws a TypeError | The visibility swap applies only to splitters that exist | not executed | Splitters.AppendAfterDockedFails | Splitters.SplittersOnAddAgrees |
