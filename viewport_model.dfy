/** The output of the viewport engine: clamped scroll, row and column slices, transforms and an anchor. */
module ViewportModel {
  import opened ContractsModel

  /** An inclusive range of an axis and the content offset of its first item. */
  datatype Slice = Slice(range: AxisRange, offsetPx: real)

  /** The slice with no items. */
  const EmptySlice := Slice(EmptyRange, 0.0)

  /** Sticky header rows, then the virtualized body rows. */
  datatype RowSlices = RowSlices(header: Slice, body: Slice)

  /** Pinned-start columns, the scrolling main columns and the pinned-end columns. */
  datatype ColSlices = ColSlices(start: Slice, main: Slice, end: Slice)

  /** Where each band is placed in viewport space. */
  datatype Transforms = Transforms(
    colPinnedStartX: real,
    colMainX: real,
    colPinnedEndX: real,
    rowHeaderY: real,
    rowBodyY: real)

  datatype ViewportModel = ViewportModel(
    viewportWidthPx: real,
    viewportHeightPx: real,
    scrollLeftPx: real,
    scrollTopPx: real,
    totalWidthPx: real,
    totalHeightPx: real,
    rows: RowSlices,
    cols: ColSlices,
    transforms: Transforms,
    anchor: Anchor)

  /** A range is empty or lies inside an axis of `count` items. */
  predicate InAxis(r: AxisRange, count: int)
  {
    r.IsEmpty() || 0 <= r.start <= r.end < count
  }

  /** Every slice of the model lies inside its axis. */
  predicate WellFormed(vp: ViewportModel, rowCount: int, colCount: int)
  {
    InAxis(vp.rows.header.range, rowCount) && InAxis(vp.rows.body.range, rowCount) &&
    InAxis(vp.cols.start.range, colCount) && InAxis(vp.cols.main.range, colCount) &&
    InAxis(vp.cols.end.range, colCount)
  }
}
