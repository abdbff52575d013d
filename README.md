# hobom-grid core, modelled in Dafny

hobom-grid is a headless data grid. It has four layers:

- **Core kernel:** measured axes (row heights and column widths held in a Fenwick tree), a viewport engine, a view-model builder and the grid kernel that ties them together.
- **Interaction reducer:** focus, hover and cell selection.
- **Editing reducer:** one editing session at a time.
- **React helpers:** hit testing, scroll-to-cell, row selection, column visibility, CSV export and clipboard copy/paste.

This project models each of these in Dafny and proves what they promise.

The model follows the source's own form:

- **Pure functions become Dafny functions with lemmas.** This covers the reducers, the viewport engine, the hit tests and the CSV/TSV formats.
- **Objects that update fields become classes.** These are the Fenwick tree, the measured axis, the view-model builder, the grid kernel, the editing hook, row selection, column visibility and the client row model. Their methods have `modifies` frames and postconditions tied to specification functions.
- **Loops become methods with invariants.** This covers the Fenwick descent and updates, the builder's emission loops, the filter/sort/index loops of the row model, the binary search of `findSegmentIndex`, and the copy/paste/export loops.

The modules are:

| module | what it models |
|---|---|
| `Wrappers` | `Option`, `Result` and `Outcome` |
| `ContractsMath`, `ContractsModel` | argument assertions, clamping and the shared grid types |
| `PrefixSums` | sums of sizes and their algebra |
| `Fenwick` | the binary indexed tree |
| `AxisModel`, `MeasuredAxis` | one axis as a size sequence, and the class over a Fenwick tree |
| `ViewportModel`, `ViewportEngine` | visible slices, scroll clamping, transforms and the default anchor |
| `CellLayout`, `ViewModelBuilder` | the cells a viewport shows, and the loops that emit them |
| `KernelModel`, `GridKernel` | `createGridKernel`: querying and measurement reports with scroll anchoring |
| `HitTestModel` | `defaultHitTest` and `findSegmentIndex` |
| `GridHitTest` | `hitTestGrid` over a viewport model |
| `InteractionState`, `InteractionReducer` | the interaction kernel |
| `EditingReducer`, `UseEditing` | the editing reducer and the `useEditing` hook |
| `ClientRowModel` | filter, stable sort and id index |
| `ScrollToCell` | minimal scroll that brings a cell into view past sticky bands |
| `Text` | split/join of strings |
| `RowSelection`, `ColumnVisibility`, `CsvExport`, `Clipboard` | the React helper hooks |

Pixel values are `real`. The source's Float64 arithmetic is read as exact.

Numbers that the source validates at run time use `Number = Finite(r) | NaN | Infinity`. Examples are counts, estimates, measured sizes and indices.

Platform calls are parameters of the model:

- `localeCompare`;
- `String(number)`;
- a column's `formatValue`;
- the clipboard text that was read;
- a validator's verdict.

## Model

| member | source | states |
|---|---|---|
| ContractsMath.Clamp | packages/core/src/contracts/contracts-math.ts:1 | result lies in `[lo, hi]` when the bounds are ordered; an in-range value is unchanged; below → `lo`, above → `hi`; reversed bounds give `lo` |
| ContractsMath.ClampIndex | packages/core/src/contracts/contracts-math.ts:1 | the same clamping contract on integer indices |
| ContractsMath.AssertNonNegativeInt | packages/core/src/contracts/contracts-math.ts:3-5 | fails exactly for a non-integer or negative number, with the named error; success returns the same value as a `nat` |
| ContractsMath.AssertFiniteNonNegative | packages/core/src/contracts/contracts-math.ts:7-10 | fails exactly for NaN, ±Infinity or a negative number, with the named error; success returns the finite, non-negative value |
| PrefixSums.SumConcat | packages/core/src/axis/fenwick.helper.ts:30-35 | the sum of a concatenation is the sum of its parts |
| PrefixSums.SumNonNegative | packages/core/src/axis/fenwick.helper.ts:37-39 | non-negative sizes have a non-negative total |
| PrefixSums.SumZeros | packages/core/src/axis/fenwick.helper.ts:14-18 | an all-zero array sums to 0 (the fresh tree) |
| PrefixSums.SumUpdate | packages/core/src/axis/fenwick.helper.ts:26-28 | adding `d` at one position adds `d` to the total |
| PrefixSums.RangeSumUpdate | packages/core/src/axis/fenwick.helper.ts:26-28 | adding `d` at `k` changes a range sum by `d` exactly when the range contains `k` |
| Fenwick.LowBitIsPow2 | packages/core/src/axis/fenwick.helper.ts:26-28 | the step `i & -i` is a power of two |
| Fenwick.LowBitGrows | packages/core/src/axis/fenwick.helper.ts:26-28 | each update step at least doubles the low bit, so the loop ends |
| Fenwick.CoverStep | packages/core/src/axis/fenwick.helper.ts:26-28 | the update loop visits exactly the slots whose range covers the updated position |
| Fenwick.AddRestores | packages/core/src/axis/fenwick.helper.ts:26-28 | after the update loop every slot again holds the sum of its range of the updated values |
| Fenwick.DescentLowBit | packages/core/src/axis/fenwick.helper.ts:54-61 | during the descent, the slot at `idx + step` covers exactly `[idx, idx + step)` |
| Fenwick.FirstExceedingProperties | packages/core/src/axis/fenwick.helper.ts:41-64 | the reference answer is the largest index whose prefix sum does not exceed the target, capped at the last index |
| Fenwick.DescentResult | packages/core/src/axis/fenwick.helper.ts:54-63 | the descent's final index, capped at `n - 1`, is the reference answer |
| Fenwick.FenwickTree.constructor | packages/core/src/axis/fenwick.helper.ts:14-18 | a valid tree of `n` zeros |
| Fenwick.FenwickTree.Add | packages/core/src/axis/fenwick.helper.ts:26-28 | the represented values change by `delta` at `index` only (an index ≥ n changes nothing); the tree stays valid |
| Fenwick.FenwickTree.BuildFrom | packages/core/src/axis/fenwick.helper.ts:20-24 | fails with a length mismatch exactly when the lengths differ, leaving the tree untouched; otherwise the tree represents the given values |
| Fenwick.FenwickTree.DescentSlot | packages/core/src/axis/fenwick.helper.ts:54-61 | a descent step adds exactly the sizes of `[idx, idx + step)` |
| Fenwick.FenwickTree.SumPrefixExclusive | packages/core/src/axis/fenwick.helper.ts:30-35 | 0 for a non-positive end, else the sum of the first `endIndex` values |
| Fenwick.FenwickTree.SumAll | packages/core/src/axis/fenwick.helper.ts:37-39 | the sum of all values |
| Fenwick.FenwickTree.InitialStep | packages/core/src/axis/fenwick.helper.ts:50-52 | the largest power of two not above `n` |
| Fenwick.FenwickTree.LowerBound | packages/core/src/axis/fenwick.helper.ts:41-64 | −1 on an empty tree, else an index in range; with non-negative values it is the reference lower bound |
| AxisModel.IndexOf | packages/core/src/axis/measured-axis.ts:112-127 | a validated index is a natural number below the count, equal to the given number |
| AxisModel.OffsetStep | packages/core/src/axis/measured-axis.ts:118-129 | offset 0 is 0; each offset adds the previous item's size; the offset past the end is the total |
| AxisModel.OffsetMonotone | packages/core/src/axis/measured-axis.ts:118-129 | offsets lie in `[0, total]` and grow with the index |
| AxisModel.IndexAtOffsetCovers | packages/core/src/axis/measured-axis.ts:131-143 | on a non-empty axis the found index is in range: 0 at or before 0, the last item for a positive offset at or past the total (an axis of zero sizes included), otherwise the item whose `[offset, offset + size)` contains the offset |
| AxisModel.IndexAtOwnOffset | packages/core/src/axis/measured-axis.ts:131-143 | with positive sizes, an item's own offset finds that item |
| AxisModel.IndexAtOffsetWithin | packages/core/src/axis/measured-axis.ts:131-143 | with positive sizes, any offset inside an item finds it |
| AxisModel.IndexAtOffsetPast | packages/core/src/axis/measured-axis.ts:131-143 | an offset at or past an item's end finds a later item |
| AxisModel.VisibleSegmentInRange | packages/core/src/axis/measured-axis.ts:145-169 | empty on an empty axis; otherwise an in-range segment whose offset is its first item's offset |
| AxisModel.VisibleSegmentCovers | packages/core/src/axis/measured-axis.ts:145-169 | every item intersecting the viewport widened by the overscan is in the segment |
| AxisModel.MeasureSpec | packages/core/src/axis/measured-axis.ts:171-194 | a report fails exactly on a wrong axis, a bad index or a bad size, with the matching error (`AxisMismatch`, `IndexOutOfRange(index)`, `NotFiniteNonNegative("sizePx")`, checked in that order); success replaces only that item's size and reports previous/next size and whether it changed |
| AxisModel.MeasureKeepsNonNegative | packages/core/src/axis/measured-axis.ts:171-194 | a measurement keeps all sizes non-negative |
| AxisModel.MeasureShiftsOffsets | packages/core/src/axis/measured-axis.ts:171-194 | a measurement shifts every later offset, and the total, by the size change; earlier offsets stay |
| AxisModel.AnchorKeepsPosition | packages/core/src/axis/measured-axis.ts:196-218 | the adjusted scroll puts the anchor back at its viewport position (or scroll 0 when that is impossible), and the delta is measured from the clamped previous scroll |
| AxisModel.AnchorCompensatesMeasure | packages/core/src/axis/measured-axis.ts:196-218 | measuring an item above the anchor moves the recommended scroll by exactly the size change |
| AxisModel.AnchorWorkedExample | packages/core/src/axis/measured-axis.spec.ts:17-39 | 5 rows of 10px, anchor row 2 at 5px, scroll 15: no adjustment; after row 0 becomes 30px the scroll is 35, a delta of 20 |
| AxisModel.ApplyEntries | packages/core/src/axis/measured-axis.ts:90-97 | the initial measurements keep the axis length |
| AxisModel.InitialSizesUntouched | packages/core/src/axis/measured-axis.ts:90-97 | an item no valid entry names keeps the estimate |
| AxisModel.InitialSizesLastWins | packages/core/src/axis/measured-axis.ts:90-97 | an item named by several valid entries takes the last one's size |
| AxisModel.InitialSizesNonNegative | packages/core/src/axis/measured-axis.ts:90-97 | only non-negative sizes are applied |
| MeasuredAxis.Axis.constructor | packages/core/src/axis/measured-axis.ts:220-230 | a valid axis over the given sizes and tree |
| MeasuredAxis.Axis.Create | packages/core/src/axis/measured-axis.ts:75-108 | fails exactly when the count or estimate assertion fails, with that assertion's error; otherwise a fresh valid axis of `count` estimates with the valid initial measurements applied |
| MeasuredAxis.Axis.GetSizePx | packages/core/src/axis/measured-axis.ts:112-116 | 0 on an empty axis, a range error outside `[0, count)`, else the item's size |
| MeasuredAxis.Axis.GetOffsetPx | packages/core/src/axis/measured-axis.ts:118-127 | 0 on an empty axis, a range error outside `[0, count]`, else the item's offset |
| MeasuredAxis.Axis.GetTotalSizePx | packages/core/src/axis/measured-axis.ts:129 | the sum of all sizes |
| MeasuredAxis.Axis.FindIndexAtOffsetPx | packages/core/src/axis/measured-axis.ts:131-143 | the index the reference search gives (see `IndexAtOffsetCovers`) |
| MeasuredAxis.Axis.GetVisibleSegment | packages/core/src/axis/measured-axis.ts:145-169 | the reference visible segment (see `VisibleSegmentCovers`) |
| MeasuredAxis.Axis.ReportMeasuredSize | packages/core/src/axis/measured-axis.ts:171-194 | sizes and tree change exactly as `Measure` says (see `MeasureSpec`); on error nothing changes |
| MeasuredAxis.Axis.ComputeAnchorAdjust | packages/core/src/axis/measured-axis.ts:196-218 | the reference adjustment (see `AnchorKeepsPosition`) |
| ViewportEngine.OverscanCountNonNegative | packages/core/src/viewport/viewport-engine.ts:33-39 | a count overscan is never negative: 0 for a non-positive count or an empty axis, at least the first item's size for a count of one or more |
| ViewportEngine.Compute | packages/core/src/viewport/viewport-engine.ts:54-240 | every slice lies inside its axis |
| ViewportEngine.ComputeClampsScroll | packages/core/src/viewport/viewport-engine.ts:56-68 | scroll clamped to `[0, max(0, total − viewport)]`, unchanged when already inside; totals are the axis sums |
| ViewportEngine.ComputeHeader | packages/core/src/viewport/viewport-engine.ts:74-86 | header rows are `[0, min(count, headerCount) − 1]` at offset 0, independent of scroll; the body is placed at the header extent |
| ViewportEngine.ComputeBody | packages/core/src/viewport/viewport-engine.ts:88-108 | the body is empty exactly when every row is a header; otherwise it starts after the header band and reports its first row's offset |
| ViewportEngine.ComputePinned | packages/core/src/viewport/viewport-engine.ts:113-141 | pinned-start is the first `startCount` columns, pinned-end the last `endCount` columns at their offset; negative counts count as 0 |
| ViewportEngine.ComputeMain | packages/core/src/viewport/viewport-engine.ts:143-164 | main lies between the pinned bands and is empty exactly when that gap is |
| ViewportEngine.ComputeBandsDisjoint | packages/core/src/viewport/viewport-engine.ts:113-164 | when the pinned counts fit, no column belongs to two bands |
| ViewportEngine.ComputeColTransforms | packages/core/src/viewport/viewport-engine.ts:230-236 | pinned-start at 0, main after the pinned-start width, pinned-end flush with the right edge |
| ViewportEngine.ComputeAnchorCell | packages/core/src/viewport/viewport-engine.ts:170-178 | the default anchor is the first body row and the first main (else pinned) column, and names an existing cell |
| CellLayout.CellsCount | packages/core/src/viewmodel/view-model-builder.ts:73-124 | one cell per visible row × visible column |
| CellLayout.CellsAt | packages/core/src/viewmodel/view-model-builder.ts:73-124 | cells come in row-major order: header rows then body rows, each pinned-start, main, pinned-end |
| CellLayout.CellsComplete | packages/core/src/viewmodel/view-model-builder.ts:73-124 | every visible (row, column) pair is emitted |
| CellLayout.CellsFollowRules | packages/core/src/viewmodel/view-model-builder.ts:45-63 | every cell has its row's height and column's width, a kind that matches its band, and x/y given by its band's transform and scroll |
| CellLayout.StatsCount | packages/core/src/viewmodel/view-model-builder.ts:126-135 | each statistic counts the cells of its kinds: band sizes multiplied |
| ViewModelBuilder.Builder.constructor | packages/core/src/viewmodel/view-model-builder.ts:11-13 | the builder reads the two given axes |
| ViewModelBuilder.Builder.Build | packages/core/src/viewmodel/view-model-builder.ts:21-138 | the emitted cells are the reference layout and the stats are counted from them |
| ViewModelBuilder.Builder.EmitRows | packages/core/src/viewmodel/view-model-builder.ts:78-124 | the row loop appends the band's rows in order |
| ViewModelBuilder.Builder.EmitRow | packages/core/src/viewmodel/view-model-builder.ts:78-124 | one row appends pinned-start, main and pinned-end cells |
| ViewModelBuilder.Builder.EmitBand | packages/core/src/viewmodel/view-model-builder.ts:73-76 | the column loop appends one cell per band column |
| KernelModel.AnchorCoords | packages/core/src/grid/create-grid.ts:51-107 | fails exactly when either index has no offset; otherwise keeps the anchor's cell |
| KernelModel.AnchorCoordsMatchEngine | packages/core/src/grid/create-grid.ts:51-107 | on the engine's own viewport, the recomputed coordinates are the engine's anchor X/Y formulas |
| KernelModel.CoordYMatches | packages/core/src/grid/create-grid.ts:64-70 | the kernel's Y rule agrees with the engine's |
| KernelModel.CoordXMatches | packages/core/src/grid/create-grid.ts:72-99 | the kernel's X rule agrees with the engine's |
| KernelModel.AnchorCoordsFixesEngineAnchor | packages/core/src/grid/create-grid.ts:131-147 | recomputing the engine's default anchor changes nothing |
| KernelModel.ReportFailsOnlyOnBadMeasure | packages/core/src/grid/create-grid.ts:149-160 | as written and corrected alike, a report fails exactly when the axis rejects the measurement, with its error |
| KernelModel.ReportStepChanged | packages/core/src/grid/create-grid.ts:163-187 | as written (anchor input `viewportY`/`viewportX`) and corrected alike, a changing report always gets an adjustment, pins the anchor it saw before and takes the adjusted offset as the measured axis's next scroll |
| KernelModel.ReportOutcome | packages/core/src/grid/create-grid.ts:155-187 | under either rule, the result carries `changed`; unchanged leaves everything alone; changed stores the prior anchor and alters only the measured axis's sizes and scroll |
| KernelModel.ReportRowStep | packages/core/src/grid/create-grid.ts:149-188 | a row (header or body) remeasured above the anchor by `d` gives scrollTop `max(0, scrollTop + d)` corrected and `max(0, scrollTop + d − rowBodyY)` as written |
| KernelModel.HeaderGrowthKeepsAnchorRow | packages/core/src/grid/create-grid.spec.ts:33-63 | the kernel test's case: a header row grows at an unclamped scrollTop; the report is `changed`, the next scrollTop is not smaller and the next query keeps the anchor row. Corrected for any growth; as written only for growth of at least the header height (the test grows 10px → 40px under a 10px header) |
| KernelModel.RowChangeKeepsColumns | packages/core/src/grid/create-grid.ts:149-188 | a row remeasurement leaves the column slices and transforms as they were |
| KernelModel.AnchorLandsAt | packages/core/src/grid/create-grid.ts:131-147 | the preferred anchor is redrawn where the scroll change says |
| KernelModel.ReportKeepsAnchorOnScreen | packages/core/src/grid/create-grid.ts:163-187 | `ReportStepCorrected`: after a body row above the anchor is remeasured (scroll not clamped), the prior anchor is pending and the next query draws it at the same viewport Y |
| KernelModel.AnchorMovesWithMeasure | packages/core/src/grid/create-grid.ts:163-187 | the anchor's content offset moves by exactly the size change |
| KernelModel.AsWrittenCountsHeaderBand | packages/core/src/grid/create-grid.ts:166-182 | as written, the anchor input's viewport position includes the header band height |
| KernelModel.AsWrittenShiftsAnchor | packages/core/src/grid/create-grid.ts:166-182 | `ReportStep` as written, same hypotheses: the prior anchor is pending and the next query draws it `rowBodyY` lower than it was |
| KernelModel.RowReportLands | packages/core/src/grid/create-grid.ts:149-188 | under either rule, the anchor is redrawn at its old Y plus the header height the rule fails to subtract (none when corrected) |
| KernelModel.BodyAnchorFollowsScroll | packages/core/src/grid/create-grid.ts:64-70 | a body anchor's viewport Y moves with its offset minus scroll |
| KernelModel.QueryModel | packages/core/src/grid/create-grid.ts:131-147 | no preferred anchor: the engine's viewport; a preferred anchor: the same viewport with that anchor's recomputed coordinates |
| GridKernel.Kernel.constructor | packages/core/src/grid/create-grid.ts:109-129 | a valid kernel over the two axes, with no preferred anchor |
| GridKernel.Kernel.QueryViewport | packages/core/src/grid/create-grid.ts:131-147 | returns `QueryModel` for the current sizes and the pending anchor plus the reference cells, then clears the pending anchor |
| GridKernel.Kernel.ReportMeasuredSize | packages/core/src/grid/create-grid.ts:149-188 | sizes, pending anchor and result change exactly as `ReportStep` (the as-written step, anchor input `viewportY`/`viewportX`) says; on error nothing changes |
| GridKernel.Kernel.ApplyMeasurement | packages/core/src/grid/create-grid.ts:154-182 | the measured axis takes the new size and the other axis is untouched |
| HitTestModel.RectIsHalfOpen | packages/core/src/contracts/hit-test-model.ts:80-82 | a rectangle contains its top-left corner but not its right or bottom edge |
| HitTestModel.SegmentIndex | packages/core/src/contracts/hit-test-model.ts:88-115 | a found index contains the value; values outside the first-to-last span find nothing |
| HitTestModel.SegmentsOrdered | packages/core/src/contracts/hit-test-model.ts:88-115 | contiguous segments are ordered |
| HitTestModel.SearchFinds | packages/core/src/contracts/hit-test-model.ts:102-113 | the binary search finds any value inside its span |
| HitTestModel.SegmentIndexExact | packages/core/src/contracts/hit-test-model.ts:88-115 | in a contiguous layout the search returns exactly the segment holding the value |
| HitTestModel.FindSegmentIndex | packages/core/src/contracts/hit-test-model.ts:88-115 | the loop computes `SegmentIndex` |
| HitTestModel.DefaultHitTest | packages/core/src/contracts/hit-test-model.ts:117-193 | outside exactly off the bounds; header strips give corner/column/row header; content resolves to a cell or a resize handle |
| HitTestModel.HitTestContent | packages/core/src/contracts/hit-test-model.ts:149-153 | a content point outside every segment is a bare `grid` hit |
| HitTestModel.HitTestHandles | packages/core/src/contracts/hit-test-model.ts:155-192 | a point within the slop of a boundary is a resize handle of the neighbouring segment; otherwise it is the cell |
| GridHitTest.ResolveAbsContentX | packages/react/src/utils/hit-test.ts:167-205 | nothing inside the row header; without pinned bands, pointer plus scroll minus the header width |
| GridHitTest.ResolveCol | packages/react/src/utils/hit-test.ts:143-164 | a found column is in range and needs a content X |
| GridHitTest.ResolveColPresent | packages/react/src/utils/hit-test.ts:143-164 | on a non-empty axis a column resolves exactly when a content X does |
| GridHitTest.BodyTarget | packages/react/src/utils/hit-test.ts:100-139 | a body hit names its cell; with positive slop, the handle by precedence: column start (column > 0, previous column), column end (own), row start (row > 0, previous row), row end (own); otherwise the cell with its local point |
| GridHitTest.HitTestBy | packages/react/src/utils/hit-test.ts:35-140 | outside / corner / column header / row header each iff its condition; header hits carry −1 for the missing index; a body pointer is `grid` iff no column, a negative content Y or no row resolves, and otherwise gets the `BodyTarget` of that cell |
| GridHitTest.ResolveInvertsColumnPlacement | packages/react/src/utils/hit-test.ts:143-205 | a pointer inside a drawn column resolves to that column at its content X |
| GridHitTest.CorrectedRowInvertsPlacement | packages/react/src/utils/hit-test.ts:90-98 | corrected: a pointer inside a drawn body row resolves to that row |
| GridHitTest.CorrectedHitsDrawnCell | packages/react/src/utils/hit-test.ts:90-139 | corrected: a pointer inside a drawn body cell hits that cell (or one of its handles) |
| GridHitTest.AsWrittenMissesDrawnRow | packages/react/src/utils/hit-test.ts:90-98 | as written: below a header band, a pointer in the lower part of a drawn row resolves to a later row |
| InteractionState.InitialState | packages/core/src/state/interaction-kernel-state.ts:31-40 | unfocused, nothing hovered, focused or selected |
| InteractionState.NormalizeRange | packages/core/src/state/interaction-kernel-state.ts:42-51 | the result is ordered and each axis keeps or swaps the corner values |
| InteractionState.NormalizeKeepsCells | packages/core/src/state/interaction-kernel-state.ts:42-51 | normalising keeps the covered cells |
| InteractionState.NormalizeIdempotent | packages/core/src/state/interaction-kernel-state.ts:42-51 | a range is its own normalisation iff it is normal; normalising twice is normalising once |
| InteractionState.NormalizeSymmetric | packages/core/src/state/interaction-kernel-state.ts:42-51 | swapping the corners gives the same normalised range |
| InteractionState.IsCellEqual | packages/core/src/state/interaction-kernel-state.ts:53-56 | true exactly when both are absent or both are the same cell |
| InteractionReducer.CellFromHit | packages/core/src/reducer/interaction-kernel-reducer.ts:16-20 | a cell only for a cell-region hit carrying one |
| InteractionReducer.SetSingleSelection | packages/core/src/reducer/interaction-kernel-reducer.ts:22-36 | the cell becomes focus, active, anchor and the only 1×1 range; focus and hover flags stay |
| InteractionReducer.SetRangeFromAnchor | packages/core/src/reducer/interaction-kernel-reducer.ts:38-53 | one normalised range covering exactly anchor-to-cell; the anchor is kept (else active, else the cell) |
| InteractionReducer.IsSingleAtMeans | packages/core/src/reducer/interaction-kernel-reducer.ts:61-68 | the field-wise test means the range is the cell's 1×1 range |
| InteractionReducer.FindSingle | packages/core/src/reducer/interaction-kernel-reducer.ts:61-68 | the first index of the cell's 1×1 range, or −1 when there is none |
| InteractionReducer.RemoveAt | packages/core/src/reducer/interaction-kernel-reducer.ts:70-73 | drops exactly the entry at `i` and keeps the others in order |
| InteractionReducer.ToggleFlips | packages/core/src/reducer/interaction-kernel-reducer.ts:55-84 | a toggle removes the cell's 1×1 range when present and adds it when absent, keeping the other ranges |
| InteractionReducer.ToggleTwice | packages/core/src/reducer/interaction-kernel-reducer.ts:55-84 | toggling a cell twice restores the ranges when it appears at most once |
| InteractionReducer.ToggleCellSelection | packages/core/src/reducer/interaction-kernel-reducer.ts:55-84 | the cell becomes focus, active and anchor; ranges stay normalised |
| InteractionReducer.MoveCell | packages/core/src/reducer/interaction-kernel-reducer.ts:86-106 | the step when it stays in the grid; an in-grid cell at an edge stays put; the result is always in a non-empty grid |
| InteractionReducer.Reduce | packages/core/src/reducer/interaction-kernel-reducer.ts:115-248 | every action keeps all ranges normalised |
| InteractionReducer.PointerHover | packages/core/src/reducer/interaction-kernel-reducer.ts:120-128 | moving sets only the hover; leaving clears it |
| InteractionReducer.PointerDownFocuses | packages/core/src/reducer/interaction-kernel-reducer.ts:130-146 | a pointer-down focuses the grid; a non-primary button or a non-cell hit changes only that |
| InteractionReducer.PlainClickSelectsCell | packages/core/src/reducer/interaction-kernel-reducer.ts:130-146 | a plain click selects exactly the clicked cell |
| InteractionReducer.ShiftClickExtends | packages/core/src/reducer/interaction-kernel-reducer.ts:130-146 | a Shift-click selects the range from the kept anchor to the cell |
| InteractionReducer.CtrlClickToggles | packages/core/src/reducer/interaction-kernel-reducer.ts:130-146 | a Ctrl/Cmd-click toggles the cell's 1×1 range |
| InteractionReducer.CtrlClickTwiceRestores | packages/core/src/reducer/interaction-kernel-reducer.ts:130-146 | two Ctrl/Cmd-clicks on a cell restore the ranges |
| InteractionReducer.KeyWithoutCellIgnored | packages/core/src/reducer/interaction-kernel-reducer.ts:152-155 | without an active or focus cell a key changes nothing |
| InteractionReducer.ArrowMoves | packages/core/src/reducer/interaction-kernel-reducer.ts:173-207 | an arrow moves from the active (else focus) cell: plain selects the new cell, Shift extends from the anchor |
| InteractionReducer.SelectAll | packages/core/src/reducer/interaction-kernel-reducer.ts:156-171 | Ctrl/Cmd+A with select-all enabled and a non-empty grid selects the whole grid as one range |
| InteractionReducer.EscapeAndOtherKeys | packages/core/src/reducer/interaction-kernel-reducer.ts:173-196 | Escape empties the ranges; other keys change nothing |
| InteractionReducer.FocusChanges | packages/core/src/reducer/interaction-kernel-reducer.ts:210-218 | gaining focus sets the flag; losing it also clears the hover |
| InteractionReducer.SetActiveCellEffect | packages/core/src/reducer/interaction-kernel-reducer.ts:220-236 | a cell becomes the single selection; none clears focus cell, active and anchor |
| InteractionReducer.ClearSelectionEmpties | packages/core/src/reducer/interaction-kernel-reducer.ts:238-241 | empties the ranges only |
| InteractionReducer.InitialStateIsQuiet | packages/core/src/reducer/interaction-kernel-reducer.ts:115-248 | from the initial state a key does nothing and a cell click selects that cell |
| EditingReducer.InitialState | packages/core/src/editing/editing-reducer.ts:56-58 | no active edit |
| EditingReducer.Reduce | packages/core/src/editing/editing-reducer.ts:4-54 | commit/cancel close the session; a start opens it on that cell; other actions never open a session, move it to another cell or change its initial value |
| EditingReducer.StartEditOpensFresh | packages/core/src/editing/editing-reducer.ts:6-16 | a start opens a fresh idle session with current = initial value |
| EditingReducer.UpdateEditValueEffect | packages/core/src/editing/editing-reducer.ts:18-27 | with no session nothing changes; otherwise the value is set and validation reset to idle |
| EditingReducer.StaleValidationDropped | packages/core/src/editing/editing-reducer.ts:29-45 | a validation message for another cell (or no session) changes nothing |
| EditingReducer.ValidationResultRecorded | packages/core/src/editing/editing-reducer.ts:35-45 | a result for the session's cell records valid/invalid and its message |
| EditingReducer.ReducePreservesMessageInvariant | packages/core/src/editing/editing-reducer.ts:4-54 | a message is present only on an invalid or validating session, and every action the hook dispatches keeps this |
| UseEditing.Editing.constructor | packages/react/src/hooks/use-editing.ts:79 | no session and empty logs |
| UseEditing.Editing.EditValue | packages/react/src/hooks/use-editing.ts:218 | present exactly while a session is open |
| UseEditing.Editing.Dispatch | packages/react/src/hooks/use-editing.ts:79 | the state is the reducer's result and the action is logged |
| UseEditing.Editing.StartEdit | packages/react/src/hooks/use-editing.ts:96-101 | a non-editable cell changes nothing; otherwise a session opens on exactly that cell, seeded from `getValue` |
| UseEditing.Editing.SetEditValue | packages/react/src/hooks/use-editing.ts:105-107 | dispatches the value update |
| UseEditing.Editing.Commit | packages/react/src/hooks/use-editing.ts:112-143 | no session: nothing; a failed validation keeps the session as invalid and commits nothing; otherwise the change is reported once and the session closes |
| UseEditing.Editing.Cancel | packages/react/src/hooks/use-editing.ts:147-149 | closes the session and commits nothing |
| UseEditing.Editing.OnKeyDown | packages/react/src/hooks/use-editing.ts:167-204 | while editing with the input focused, Escape cancels, Enter/Tab commit and navigation keys are suppressed; otherwise Enter/F2 start an edit on the focus cell |
| UseEditing.CommitReportsSession | packages/react/src/hooks/use-editing.ts:112-143 | commit closes a session, and a stale validation result after it is dropped |
| ClientRowModel.DefaultCompareOrdersNumbers | packages/core/src/row-model/client-row-model.ts:20-26 | on nulls and numbers the default comparator is antisymmetric and transitive, and 0 exactly on equal values |
| ClientRowModel.CompareByDecides | packages/core/src/row-model/client-row-model.ts:66-77 | the first specification that tells two rows apart decides, negated when descending; 0 when none does |
| ClientRowModel.CompareRows | packages/core/src/row-model/client-row-model.ts:66-77 | the comparator loop computes `CompareBy` |
| ClientRowModel.CompareByConsistent | packages/core/src/row-model/client-row-model.ts:66-77 | if every specification's comparator is consistent, so is the chained comparator |
| ClientRowModel.KeptEntries | packages/core/src/row-model/client-row-model.ts:53-64 | every kept entry is an accepted row at its original index |
| ClientRowModel.KeptIncreasing | packages/core/src/row-model/client-row-model.ts:53-64 | the filter keeps the caller's order |
| ClientRowModel.KeptComplete | packages/core/src/row-model/client-row-model.ts:53-64 | every accepted row is kept |
| ClientRowModel.KeptAll | packages/core/src/row-model/client-row-model.ts:53-64 | without a filter every row is kept in order |
| ClientRowModel.FilterRows | packages/core/src/row-model/client-row-model.ts:53-64 | the loop computes `Kept` |
| ClientRowModel.InsertKeepsSorted | packages/core/src/row-model/client-row-model.ts:66-77 | insertion at the insertion point keeps the order sorted and stable |
| ClientRowModel.InsertionPoint | packages/core/src/row-model/client-row-model.ts:66-77 | the entry goes after every entry it does not compare below, before the rest |
| ClientRowModel.InsertAddsOne | packages/core/src/row-model/client-row-model.ts:66-77 | insertion adds exactly one entry |
| ClientRowModel.SortRows | packages/core/src/row-model/client-row-model.ts:66-77 | a permutation of the input; sorted and stable when the comparator is consistent |
| ClientRowModel.IndexMapLast | packages/core/src/row-model/client-row-model.ts:79-88 | an id is indexed iff it occurs, at its last occurrence |
| ClientRowModel.UniqueIdsRoundTrip | packages/core/src/row-model/client-row-model.ts:79-88 | with unique ids, the id at index `v` maps back to `v` |
| ClientRowModel.BuildIndex | packages/core/src/row-model/client-row-model.ts:79-88 | one id per entry and the reverse map |
| ClientRowModel.RowModel.constructor | packages/core/src/row-model/client-row-model.ts:45-114 | the pipeline is the filtered rows, sorted stably when there are specifications, with ids and reverse index |
| ClientRowModel.RowModel.GetRow | packages/core/src/row-model/client-row-model.ts:92-97 | the row at a virtual index, a range error outside `[0, rowCount)` |
| ClientRowModel.RowModel.GetRowId | packages/core/src/row-model/client-row-model.ts:99-106 | the id at a virtual index, a range error outside `[0, rowCount)` |
| ClientRowModel.RowModel.FindVirtualIndex | packages/core/src/row-model/client-row-model.ts:108-111 | absent for an unknown id, else its last virtual index |
| ScrollToCell.ScrollToCell | packages/react/src/hooks/use-grid-kernel.ts:105-171 | nothing for an out-of-range cell; a target keeps a scroll that already shows the cell |
| ScrollToCell.ScrollToCellShowsCell | packages/react/src/hooks/use-grid-kernel.ts:142-169 | when the cell fits past the sticky bands, the target scroll shows it and moves the least possible |
| Text.Split | packages/react/src/hooks/use-clipboard.ts:82 | at least one piece and no piece contains the separator |
| Text.JoinSplit | packages/react/src/hooks/use-clipboard.ts:82 | joining the pieces of a split gives back the text |
| Text.SplitJoin | packages/react/src/hooks/use-clipboard.ts:63 | splitting a join of separator-free pieces gives back the pieces |
| RowSelection.Toggle | packages/react/src/hooks/use-row-selection.ts:53-60 | flips membership of the id only, changing the count by one |
| RowSelection.ToggleTwice | packages/react/src/hooks/use-row-selection.ts:53-60 | toggling twice restores the selection |
| RowSelection.Elements | packages/react/src/hooks/use-row-selection.ts:62-64 | exactly the listed ids |
| RowSelection.ToggleAllFlips | packages/react/src/hooks/use-row-selection.ts:68-78 | for a non-empty list, all-selected flips; for an empty list the selection empties |
| RowSelection.Selection.constructor | packages/react/src/hooks/use-row-selection.ts:49 | empty selection |
| RowSelection.Selection.SelectedCount | packages/react/src/hooks/use-row-selection.ts:89 | zero exactly when nothing is selected |
| RowSelection.Selection.ToggleRow | packages/react/src/hooks/use-row-selection.ts:53-60 | flips the row's membership |
| RowSelection.Selection.SelectAll | packages/react/src/hooks/use-row-selection.ts:62-64 | selects exactly the listed ids |
| RowSelection.Selection.ClearAll | packages/react/src/hooks/use-row-selection.ts:66 | empties the selection |
| RowSelection.Selection.ToggleAll | packages/react/src/hooks/use-row-selection.ts:68-73 | clears when all listed are selected, else selects them all |
| ColumnVisibility.Visibility.constructor | packages/react/src/hooks/use-column-visibility.ts:26-27 | every column visible |
| ColumnVisibility.Visibility.HiddenCount | packages/react/src/hooks/use-column-visibility.ts:45 | zero exactly when every column is visible |
| ColumnVisibility.Visibility.ToggleVisibility | packages/react/src/hooks/use-column-visibility.ts:31-41 | flips one column's visibility, no other, and moves the hidden count by one |
| ColumnVisibility.Visibility.ShowAll | packages/react/src/hooks/use-column-visibility.ts:43 | every column visible, count 0 |
| CsvExport.DoubleQuotes | packages/react/src/hooks/use-csv-export.ts:35 | introduces no character but quotes |
| CsvExport.EscapeCsv | packages/react/src/hooks/use-csv-export.ts:33-38 | a field without comma, quote or line break is unchanged; otherwise it is wrapped in quotes |
| CsvExport.ExportCsv | packages/react/src/hooks/use-csv-export.ts:62-80 | the loops build the BOM-prefixed, CRLF-joined document of header and rows |
| CsvExport.ReadFieldOf | packages/react/src/hooks/use-csv-export.ts:33-38 | an RFC 4180 reader reads back exactly the escaped field |
| CsvExport.ReadRecordOf | packages/react/src/hooks/use-csv-export.ts:71-78 | a comma-joined record of escaped fields reads back as those fields |
| CsvExport.ReadRecordsOf | packages/react/src/hooks/use-csv-export.ts:80 | CRLF-joined records read back as the table |
| CsvExport.ExportReadsBack | packages/react/src/hooks/use-csv-export.ts:62-80 | reading the exported document (after the BOM) gives back the header and row texts |
| CsvExport.NoRowsHeaderOnly | packages/react/src/hooks/use-csv-export.ts:62-80 | with no rows the document is the BOM and the header line |
| Clipboard.CopiedGrid | packages/react/src/hooks/use-clipboard.ts:53-61 | one line per row of the range, one field per column |
| Clipboard.Copy | packages/react/src/hooks/use-clipboard.ts:46-64 | nothing without a range; otherwise the TSV of the first range |
| Clipboard.ParseTsv | packages/react/src/hooks/use-clipboard.ts:82 | at least one line of at least one field |
| Clipboard.Paste | packages/react/src/hooks/use-clipboard.ts:68-92 | nothing without a handler, focus cell or text; otherwise one change per parsed field, anchored at the focus cell |
| Clipboard.TsvRoundTrip | packages/react/src/hooks/use-clipboard.ts:63-82 | for fields free of tab and newline, parsing the TSV gives the grid back |
| Clipboard.CopyPasteRoundTrip | packages/react/src/hooks/use-clipboard.ts:46-92 | pasting what was copied reproduces the copied grid |
| Clipboard.PlainTextOneChange | packages/react/src/hooks/use-clipboard.ts:82-89 | text without tab or newline pastes into the focus cell alone |
| Clipboard.ChangesRowMajor | packages/react/src/hooks/use-clipboard.ts:83-89 | changes are in row-major order, each at focus plus its offset |
| Clipboard.OnKeyDown | packages/react/src/hooks/use-clipboard.ts:100-112 | Ctrl/Cmd+C copies, Ctrl/Cmd+V pastes and exactly those prevent the default |

## Left out

- Browser and React plumbing are not modelled: the DOM, state hooks, memoisation and rendering (`Grid.tsx`, `use-interaction`). The hooks keep their state as class fields.
- Scroll writes and `setQuery` in `scrollToCell` are not modelled. The function returns the target scroll, and a missing scroll element is outside the model.
- Clipboard reads and writes are outside the model. The text read is an `Option` input and the text written is an output.
- The CSV Blob download and file naming are outside the model. `formatValue`/`String()` is a parameter.
- `localeCompare` and `String(number)` are the `Collation` parameter.
- The async validator is outside the model. Its verdict is an input of `Commit` and `OnKeyDown`, and overlapping commits are not modelled.
- Column resize, column reorder, aggregation and the other hooks not listed above are not part of this model.
- Pixel arithmetic is exact `real` arithmetic. Float64 rounding, and NaN arising from arithmetic, are not modelled.
- Fenwick.LowBit: defined arithmetically as the largest power of two dividing `i`, not as the 32-bit `i & -i`, which agrees on indices below 2^31.
- Fenwick.FenwickTree.Add: requires `index >= 0`. In the source a negative index makes the update loop step through `i & -i` on non-positive values and never end.
- Fenwick.FenwickTree.InitialStep: uses unbounded integers. The source's `bitMask << 1 <= n` is a 32-bit shift: for `n >= 2^30` it wraps to a negative number and the loop never ends, so `lowerBound` hangs on such a tree.
- Fenwick.FenwickTree.SumPrefixExclusive: requires `endIndex <= n`. In the source a larger index reads past the typed array and adds `undefined`.
- MeasuredAxis.Axis.GetSizePx: takes an integer index. The source's range check (`index < 0 || index >= count`) lets a fractional or NaN index through, and `sizes[index]` is then `undefined`; that is not modelled.
- MeasuredAxis.Axis.GetOffsetPx: takes an integer index. The source's range check lets a fractional or NaN index through to `sumPrefixExclusive`, whose loop does not end for a fractional index (`0.5 & -0.5` is 0); that is not modelled.
- MeasuredAxis.Axis.GetVisibleSegment: the source's end index uses `offset − 1`, which assumes integer pixels. The model keeps that expression over reals.
- ViewModelBuilder.Builder.Build: requires a well-formed viewport, which every viewport the engine computes is (`ViewportEngine.Compute`).
- GridKernel.Kernel.constructor: requires the two axes not to share storage. The source creates two separate axes.
- GridKernel.Kernel.ApplyMeasurement: does not model the error path of the anchor adjustment, which cannot arise for an anchor inside the axes.
- KernelModel.ReportKeepsAnchorOnScreen: proved for body-row measurements above the anchor with an unclamped scroll. The column analogue (a pinned-start band counted into the anchor's X) is not modelled.
- ClientRowModel.SortRows: modelled as a stable insertion sort. With an inconsistent comparator it only promises a permutation, while `Array.prototype.sort` leaves that order unspecified.
- ColumnVisibility.Visibility.constructor: the column count argument is ignored, as `_colCount` is in the source.
- The row:col key set of the selection is modelled as a set of cells.
- Referential fast paths are not modelled: the source returns the same object when nothing changed, and the model returns an equal value.
- GridHitTest.HitTestBy: the `headerRowCount` option is accepted and never read, as in the source.
- The body row placement the builder draws is taken as the reference for the hit test. `scrollToCell` uses the same `offset − scrollTop` convention as the as-written hit test, so the alternative fix is to place the body band without the header offset.

## Findings

| source | as written | input that shows it | evidently intended | confidence | as-written member | corrected member |
|---|---|---|---|---|---|---|
| packages/core/src/grid/create-grid.ts:166-182 | the anchor position passed to `computeAnchorAdjust` is `anchor.viewportY`, which already includes the header band (`rowBodyY`); that function expects `offset − scroll` | 10 rows of 10px, 1 header row, viewport 40px, scrollTop 30, anchor row 3; row 2 remeasured to 20px: the anchor is drawn at y=10 before; the recommended scrollTop stays 30 and the anchor moves to y=20 | subtract `rowBodyY` for a body anchor (`KernelModel.ReportStepCorrected`): scrollTop becomes 40 and the anchor stays at y=10 | not executed; high | KernelModel.AsWrittenShiftsAnchor | KernelModel.ReportKeepsAnchorOnScreen |
| packages/react/src/utils/hit-test.ts:93-97 | the body row is resolved at `pointerY + scrollTop` without subtracting the header band height, although cells are drawn at `rowBodyY + offset − scrollTop` | rows of 30px, 1 header row (`rowBodyY` 30), scrollTop 0, pointerY 65 (inside drawn row 1, y 60..90): resolves to row 2 | resolve the body row at `pointerY − rowBodyY + scrollTop` | not executed; medium | GridHitTest.AsWrittenMissesDrawnRow | GridHitTest.CorrectedHitsDrawnCell |

In both rows the model keeps the source's behaviour as the program's: `GridKernel.Kernel` runs `KernelModel.ReportStep` as written, and `GridHitTest.HitTestGrid` resolves rows as written. The corrected definitions sit beside them (`KernelModel.ReportStepCorrected`, `GridHitTest.HitTestGridCorrected`), each with the intended property proved. The kernel's own test (`packages/core/src/grid/create-grid.spec.ts`, lines 33-63) cannot see the first finding: its header row grows by 30px under a 10px header, and `KernelModel.HeaderGrowthKeepsAnchorRow` shows that both versions pass it.
