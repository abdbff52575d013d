/** The value types shared by the axis, viewport and view-model layers. */
module ContractsModel {

  /** Which axis: rows run along Y, columns along X. */
  datatype AxisKind = Row | Col

  /** An inclusive index range `[start..end]`; empty when `end < start`. */
  datatype AxisRange = AxisRange(start: int, end: int)
  {
    predicate IsEmpty() { end < start }

    /** `i` lies inside the range. */
    predicate Contains(i: int) { start <= i <= end }

    /** Number of indices in the range. */
    function Size(): nat { if end < start then 0 else end - start + 1 }
  }

  /** The empty range the engine reports for an empty band. */
  const EmptyRange := AxisRange(0, -1)

  /** The layer a rendered cell belongs to. */
  datatype CellKind = Body | Header | PinnedStart | PinnedEnd | CornerStart | CornerEnd

  /** A cell that should stay put on screen, and where (viewport coordinates) it is. */
  datatype Anchor = Anchor(rowIndex: int, colIndex: int, viewportX: real, viewportY: real)

  /** Overscan by pixels, or by a count of items converted with a sampled size. */
  datatype Overscan = OverscanPx(px: real) | OverscanCount(count: real)

  /** A viewport query: scroll offsets, viewport size and overscan. */
  datatype ViewportQuery = ViewportQuery(
    scrollLeftPx: real,
    scrollTopPx: real,
    viewportWidthPx: real,
    viewportHeightPx: real,
    overscan: Overscan)
}
