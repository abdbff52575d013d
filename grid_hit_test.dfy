/**
 * The viewport hit-tester of the React package: a pointer in viewport space
 * is mapped back to content offsets by inverting the viewport transforms,
 * then to a region, a cell or a resize handle.
 *
 * The source derives a body row's content offset as `pointerY + scrollTop`,
 * which forgets the header band above the body; `AsWritten` keeps that
 * derivation, `Corrected` subtracts `rowBodyY` as the transform requires.
 */
module GridHitTest {
  import opened Wrappers
  import opened ContractsModel
  import opened PrefixSums
  import opened AxisModel
  import opened ViewportModel
  import opened HitTestModel
  import opened CellLayout

  /** `headerRowCount` is declared by the source's options but never read. */
  datatype HitTestOpts = HitTestOpts(headerRowCount: int, rowHeaderWidth: Option<real>, resizeHandleSlop: Option<real>)

  /** Which inversion of the vertical transform the body uses. */
  datatype Inversion = AsWritten | Corrected

  /** The pointer lies in the row-header strip on the left. */
  predicate InRowHeader(pointerX: real, rowHeaderWidth: real)
  {
    rowHeaderWidth > 0.0 && pointerX < rowHeaderWidth
  }

  /**
   * `resolveAbsContentX`: the content X under the pointer, by the transform
   * of the band it is over; absent in the row header and left of the main
   * band's content.
   */
  function ResolveAbsContentX(pointerX: real, vp: ViewportModel, rowHeaderWidth: real): (r: Option<real>)
    ensures InRowHeader(pointerX, rowHeaderWidth) ==> r.None?
    ensures r.Some? && vp.cols.start.range.IsEmpty() && vp.cols.end.range.IsEmpty() ==>
      r.value == pointerX - vp.transforms.colMainX + vp.scrollLeftPx >= 0.0
  {
    if InRowHeader(pointerX, rowHeaderWidth) then None
    else if !vp.cols.start.range.IsEmpty() && pointerX < vp.transforms.colMainX then Some(pointerX)
    else if !vp.cols.end.range.IsEmpty() && pointerX >= vp.transforms.colPinnedEndX then
      Some(vp.cols.end.offsetPx + (pointerX - vp.transforms.colPinnedEndX))
    else if !vp.cols.main.range.IsEmpty() && pointerX - vp.transforms.colMainX + vp.scrollLeftPx >= 0.0 then
      Some(pointerX - vp.transforms.colMainX + vp.scrollLeftPx)
    else None
  }

  /** `resolveCol`: the column at the pointer's content X, absent when that is absent or the axis is empty. */
  function ResolveCol(pointerX: real, vp: ViewportModel, cols: seq<real>, rowHeaderWidth: real): (r: Option<int>)
    ensures r.Some? ==> 0 <= r.value < |cols| && ResolveAbsContentX(pointerX, vp, rowHeaderWidth).Some?
  {
    var absX := ResolveAbsContentX(pointerX, vp, rowHeaderWidth);
    if absX.None? then None
    else
      var col := IndexAtOffset(cols, absX.value);
      if col < 0 || col >= |cols| then None else Some(col)
  }

  /** On a non-empty axis of non-negative sizes, a column resolves exactly when a content X does. */
  lemma ResolveColPresent(pointerX: real, vp: ViewportModel, cols: seq<real>, rowHeaderWidth: real)
    requires NonNegative(cols)
    ensures ResolveCol(pointerX, vp, cols, rowHeaderWidth).Some? <==>
      ResolveAbsContentX(pointerX, vp, rowHeaderWidth).Some? && |cols| > 0
  {
    var absX := ResolveAbsContentX(pointerX, vp, rowHeaderWidth);
    if absX.Some? && |cols| > 0 {
      IndexAtOffsetCovers(cols, absX.value);
    }
  }

  /** The content Y of a pointer below the header band. */
  function ContentY(inv: Inversion, vp: ViewportModel, pointerY: real): real
  {
    match inv
    case AsWritten => pointerY + vp.scrollTopPx
    case Corrected => pointerY - vp.transforms.rowBodyY + vp.scrollTopPx
  }

  /** The pointer's position inside the hit cell. */
  function LocalPoint(inv: Inversion, pointerX: real, pointerY: real, absX: real, absY: real, colStart: real, rowStart: real): GridPoint
  {
    match inv
    case AsWritten => GridPoint(pointerX - colStart, pointerY - rowStart)
    case Corrected => GridPoint(absX - colStart, absY - rowStart)
  }

  /** Content coordinate `v` lies within a positive slop of an edge. */
  predicate WithinSlop(v: real, edge: real, slop: real)
  {
    slop > 0.0 && Abs(v - edge) <= slop
  }

  /**
   * The target of a point in the body that resolved to cell `(row, col)`.
   * Handles in order of precedence: near the column's start (not for column
   * 0) the previous column's, near its end the column's own, then the same
   * for rows; away from every edge the cell itself, with the pointer's place
   * inside it. A slop of 0 or less detects no handle.
   */
  function BodyTarget(inv: Inversion, pointerX: real, pointerY: real, absX: real, absY: real,
                      rows: seq<real>, cols: seq<real>, row: int, col: int, slop: real): (t: HitTarget)
    requires 0 <= row < |rows| && 0 <= col < |cols|
    ensures t.cell == Some(CellRef(row, col))
    ensures t.region in {CellRegion, ColResizeHandle, RowResizeHandle}
    ensures var colStart := Offset(cols, col);
      var rowStart := Offset(rows, row);
      var nearColStart := col > 0 && WithinSlop(absX, colStart, slop);
      var nearColEnd := WithinSlop(absX, colStart + cols[col], slop);
      var nearRowStart := row > 0 && WithinSlop(absY, rowStart, slop);
      var nearRowEnd := WithinSlop(absY, rowStart + rows[row], slop);
      (t.region == ColResizeHandle <==> nearColStart || nearColEnd) &&
      (t.region == ColResizeHandle ==> t.col == Some(if nearColStart then col - 1 else col)) &&
      (t.region == RowResizeHandle <==> !nearColStart && !nearColEnd && (nearRowStart || nearRowEnd)) &&
      (t.region == RowResizeHandle ==> t.row == Some(if nearRowStart then row - 1 else row)) &&
      (t.region == CellRegion ==> t.local == Some(LocalPoint(inv, pointerX, pointerY, absX, absY, colStart, rowStart)))
    ensures slop <= 0.0 ==> t.region == CellRegion
  {
    var colStart := Offset(cols, col);
    var colEnd := colStart + cols[col];
    var rowStart := Offset(rows, row);
    var rowEnd := rowStart + rows[row];
    if col > 0 && WithinSlop(absX, colStart, slop) then
      HitTarget(ColResizeHandle, Some(CellRef(row, col)), Some(col - 1), None, None)
    else if WithinSlop(absX, colEnd, slop) then
      HitTarget(ColResizeHandle, Some(CellRef(row, col)), Some(col), None, None)
    else if row > 0 && WithinSlop(absY, rowStart, slop) then
      HitTarget(RowResizeHandle, Some(CellRef(row, col)), None, Some(row - 1), None)
    else if WithinSlop(absY, rowEnd, slop) then
      HitTarget(RowResizeHandle, Some(CellRef(row, col)), None, Some(row), None)
    else
      HitTarget(CellRegion, Some(CellRef(row, col)), None, None,
                Some(LocalPoint(inv, pointerX, pointerY, absX, absY, colStart, rowStart)))
  }

  /**
   * `hitTestGrid` with the given inversion of the body's vertical transform:
   * outside the viewport, the corner, the column header, the row header, and
   * in the body the cell (or a handle at its edge), or the bare grid when
   * no cell resolves.
   */
  function HitTestBy(inv: Inversion, pointerX: real, pointerY: real, vp: ViewportModel,
                     rows: seq<real>, cols: seq<real>, opts: HitTestOpts): (t: HitTarget)
    ensures t.region == Outside <==>
      pointerX < 0.0 || pointerY < 0.0 || pointerX >= vp.viewportWidthPx || pointerY >= vp.viewportHeightPx
    ensures t.region == Corner <==>
      (t.region != Outside && InRowHeader(pointerX, opts.rowHeaderWidth.GetOr(0.0)) && pointerY < vp.transforms.rowBodyY)
    ensures t.region == ColHeader <==>
      (t.region != Outside && !InRowHeader(pointerX, opts.rowHeaderWidth.GetOr(0.0)) && pointerY < vp.transforms.rowBodyY)
    ensures t.region == ColHeader ==>
      t.cell == (var c := ResolveCol(pointerX, vp, cols, opts.rowHeaderWidth.GetOr(0.0));
                 if c.Some? then Some(CellRef(-1, c.value)) else None)
    ensures t.region == RowHeader <==>
      (t.region != Outside && InRowHeader(pointerX, opts.rowHeaderWidth.GetOr(0.0)) && pointerY >= vp.transforms.rowBodyY)
    ensures t.region == RowHeader && t.cell.Some? ==> t.cell.value.col == -1
    ensures t.region in {CellRegion, ColResizeHandle, RowResizeHandle} ==>
      t.cell.Some? && 0 <= t.cell.value.row < |rows| && 0 <= t.cell.value.col < |cols| &&
      ResolveCol(pointerX, vp, cols, opts.rowHeaderWidth.GetOr(0.0)) == Some(t.cell.value.col) &&
      t.cell.value.row == IndexAtOffset(rows, ContentY(inv, vp, pointerY))
    ensures t.region in {ColResizeHandle, RowResizeHandle} ==> opts.resizeHandleSlop.GetOr(4.0) > 0.0
    ensures t.region == GridRegion ==> t == Bare(GridRegion)
    ensures var inBody := !(pointerX < 0.0 || pointerY < 0.0 || pointerX >= vp.viewportWidthPx || pointerY >= vp.viewportHeightPx) &&
                          !InRowHeader(pointerX, opts.rowHeaderWidth.GetOr(0.0)) && pointerY >= vp.transforms.rowBodyY;
      var col := ResolveCol(pointerX, vp, cols, opts.rowHeaderWidth.GetOr(0.0));
      var absY := ContentY(inv, vp, pointerY);
      var resolved := col.Some? && absY >= 0.0 && 0 <= IndexAtOffset(rows, absY) < |rows|;
      (t.region == GridRegion <==> inBody && !resolved) &&
      (inBody && resolved ==>
        t == BodyTarget(inv, pointerX, pointerY, ResolveAbsContentX(pointerX, vp, opts.rowHeaderWidth.GetOr(0.0)).value, absY,
                        rows, cols, IndexAtOffset(rows, absY), col.value, opts.resizeHandleSlop.GetOr(4.0)))
  {
    var rowHeaderWidth := opts.rowHeaderWidth.GetOr(0.0);
    var slop := opts.resizeHandleSlop.GetOr(4.0);
    var inRowHeader := InRowHeader(pointerX, rowHeaderWidth);
    var inColHeader := pointerY < vp.transforms.rowBodyY;
    if pointerX < 0.0 || pointerY < 0.0 || pointerX >= vp.viewportWidthPx || pointerY >= vp.viewportHeightPx then
      Bare(Outside)
    else if inRowHeader && inColHeader then Bare(Corner)
    else
      var col := ResolveCol(pointerX, vp, cols, rowHeaderWidth);
      var absY := ContentY(inv, vp, pointerY);
      if inColHeader then
        if col.None? then Bare(ColHeader) else HitTarget(ColHeader, Some(CellRef(-1, col.value)), None, None, None)
      else if inRowHeader then
        if absY < 0.0 then Bare(RowHeader)
        else HitTarget(RowHeader, Some(CellRef(IndexAtOffset(rows, absY), -1)), None, None, None)
      else if col.None? then Bare(GridRegion)
      else if absY < 0.0 then Bare(GridRegion)
      else
        var row := IndexAtOffset(rows, absY);
        if row < 0 || row >= |rows| then Bare(GridRegion)
        else
          var absX := ResolveAbsContentX(pointerX, vp, rowHeaderWidth);
          if slop > 0.0 && absX.Some? then
            BodyTarget(inv, pointerX, pointerY, absX.value, absY, rows, cols, row, col.value, slop)
          else
            var colStart := Offset(cols, col.value);
            var rowStart := Offset(rows, row);
            HitTarget(CellRegion, Some(CellRef(row, col.value)), None, None,
                      Some(LocalPoint(inv, pointerX, pointerY, absX.GetOr(0.0), absY, colStart, rowStart)))
  }

  /** `hitTestGrid` as the source writes it. */
  function HitTestGrid(pointerX: real, pointerY: real, vp: ViewportModel, rows: seq<real>, cols: seq<real>, opts: HitTestOpts): HitTarget
  {
    HitTestBy(AsWritten, pointerX, pointerY, vp, rows, cols, opts)
  }

  /** `hitTestGrid` with the header band subtracted from the body's content Y. */
  function HitTestGridCorrected(pointerX: real, pointerY: real, vp: ViewportModel, rows: seq<real>, cols: seq<real>, opts: HitTestOpts): HitTarget
  {
    HitTestBy(Corrected, pointerX, pointerY, vp, rows, cols, opts)
  }

  // ----- inverting the builder's placement -----

  /**
   * Viewport X `x` lies over `band` and over no band the hit-tester checks
   * before it: pinned-start is drawn from 0 and left of the main band,
   * pinned-end from `colPinnedEndX` with its slice offset at its first column.
   */
  predicate Unshadowed(cols: seq<real>, vp: ViewportModel, band: Band, x: real)
    requires InAxis(vp.cols.end.range, |cols|)
  {
    var startShadows := !vp.cols.start.range.IsEmpty() && x < vp.transforms.colMainX;
    var endShadows := !vp.cols.end.range.IsEmpty() && x >= vp.transforms.colPinnedEndX;
    match band
    case StartBand => vp.transforms.colPinnedStartX == 0.0 && x < vp.transforms.colMainX
    case MainBand => !startShadows && !endShadows
    case EndBand => !startShadows && x >= vp.transforms.colPinnedEndX &&
                    !vp.cols.end.range.IsEmpty() && vp.cols.end.offsetPx == Offset(cols, vp.cols.end.range.start)
  }

  /** A pointer `dx` into column `c` as the builder draws it resolves to content X `offset(c) + dx` and to column `c`. */
  lemma ResolveInvertsColumnPlacement(cols: seq<real>, vp: ViewportModel, band: Band, c: int, dx: real, rowHeaderWidth: real)
    requires Positive(cols) && InAxis(vp.cols.end.range, |cols|)
    requires BandRange(vp, band).Contains(c) && InAxis(BandRange(vp, band), |cols|)
    requires 0.0 <= dx < cols[c]
    requires !InRowHeader(CellX(cols, vp, band, c) + dx, rowHeaderWidth)
    requires Unshadowed(cols, vp, band, CellX(cols, vp, band, c) + dx)
    ensures ResolveAbsContentX(CellX(cols, vp, band, c) + dx, vp, rowHeaderWidth) == Some(Offset(cols, c) + dx)
    ensures ResolveCol(CellX(cols, vp, band, c) + dx, vp, cols, rowHeaderWidth) == Some(c)
  {
    assert NonNegative(cols);
    OffsetMonotone(cols, 0, c);
    OffsetStep(cols, c);
    IndexAtOffsetWithin(cols, Offset(cols, c) + dx, c);
  }

  /** With the header band subtracted, a pointer `dy` into body row `r` as the builder draws it resolves to row `r`. */
  lemma CorrectedRowInvertsPlacement(rows: seq<real>, vp: ViewportModel, r: int, dy: real)
    requires Positive(rows) && 0 <= r < |rows| && 0.0 <= dy < rows[r]
    ensures ContentY(Corrected, vp, CellY(rows, vp, false, r) + dy) == Offset(rows, r) + dy
    ensures IndexAtOffset(rows, ContentY(Corrected, vp, CellY(rows, vp, false, r) + dy)) == r
  {
    OffsetStep(rows, r);
    IndexAtOffsetWithin(rows, Offset(rows, r) + dy, r);
  }

  /**
   * The corrected hit-tester inverts the builder: a pointer at `(dx, dy)`
   * inside a drawn body cell hits that cell (or a handle on its edge), and
   * a cell hit reports `(dx, dy)` as its local point.
   */
  lemma CorrectedHitsDrawnCell(rows: seq<real>, cols: seq<real>, vp: ViewportModel, opts: HitTestOpts,
                               r: int, band: Band, c: int, dx: real, dy: real)
    requires Positive(rows) && Positive(cols) && InAxis(vp.cols.end.range, |cols|)
    requires 0 <= r < |rows| && 0.0 <= dy < rows[r]
    requires BandRange(vp, band).Contains(c) && InAxis(BandRange(vp, band), |cols|) && 0.0 <= dx < cols[c]
    requires !InRowHeader(CellX(cols, vp, band, c) + dx, opts.rowHeaderWidth.GetOr(0.0))
    requires Unshadowed(cols, vp, band, CellX(cols, vp, band, c) + dx)
    requires 0.0 <= CellX(cols, vp, band, c) + dx < vp.viewportWidthPx
    requires 0.0 <= vp.transforms.rowBodyY <= CellY(rows, vp, false, r) + dy < vp.viewportHeightPx
    ensures var t := HitTestGridCorrected(CellX(cols, vp, band, c) + dx, CellY(rows, vp, false, r) + dy, vp, rows, cols, opts);
      t.cell == Some(CellRef(r, c)) &&
      (t.region == CellRegion ==> t.local == Some(GridPoint(dx, dy))) &&
      (opts.resizeHandleSlop.GetOr(4.0) <= 0.0 ==> t.region == CellRegion)
  {
    var x := CellX(cols, vp, band, c) + dx;
    var y := CellY(rows, vp, false, r) + dy;
    ResolveInvertsColumnPlacement(cols, vp, band, c, dx, opts.rowHeaderWidth.GetOr(0.0));
    CorrectedRowInvertsPlacement(rows, vp, r, dy);
    assert NonNegative(rows);
    OffsetMonotone(rows, 0, r);
  }

  /**
   * As written, the body forgets the header band: when the band is at least
   * as tall as what is left of row `r` below the pointer, a pointer inside
   * the drawn row `r` resolves to a later row.
   */
  lemma AsWrittenMissesDrawnRow(rows: seq<real>, cols: seq<real>, vp: ViewportModel, opts: HitTestOpts,
                                r: int, band: Band, c: int, dx: real, dy: real)
    requires Positive(rows) && Positive(cols) && InAxis(vp.cols.end.range, |cols|)
    requires 0 <= r && r + 1 < |rows| && 0.0 <= dy < rows[r]
    requires vp.transforms.rowBodyY + dy >= rows[r]
    requires BandRange(vp, band).Contains(c) && InAxis(BandRange(vp, band), |cols|) && 0.0 <= dx < cols[c]
    requires !InRowHeader(CellX(cols, vp, band, c) + dx, opts.rowHeaderWidth.GetOr(0.0))
    requires Unshadowed(cols, vp, band, CellX(cols, vp, band, c) + dx)
    requires 0.0 <= CellX(cols, vp, band, c) + dx < vp.viewportWidthPx
    requires 0.0 <= vp.transforms.rowBodyY <= CellY(rows, vp, false, r) + dy < vp.viewportHeightPx
    ensures var t := HitTestGrid(CellX(cols, vp, band, c) + dx, CellY(rows, vp, false, r) + dy, vp, rows, cols, opts);
      t.cell.Some? && t.cell.value.col == c && t.cell.value.row > r
  {
    var y := CellY(rows, vp, false, r) + dy;
    ResolveInvertsColumnPlacement(cols, vp, band, c, dx, opts.rowHeaderWidth.GetOr(0.0));
    OffsetStep(rows, r);
    assert NonNegative(rows);
    OffsetMonotone(rows, 0, r);
    assert ContentY(AsWritten, vp, y) == Offset(rows, r) + dy + vp.transforms.rowBodyY;
    IndexAtOffsetPast(rows, ContentY(AsWritten, vp, y), r);
    IndexAtOffsetCovers(rows, ContentY(AsWritten, vp, y));
  }
}
