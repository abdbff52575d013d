/**
 * The viewport engine: a pure function from a query and the two axes (given
 * by their current sizes) to the viewport model.
 */
module ViewportEngine {
  import opened ContractsMath
  import opened ContractsModel
  import opened PrefixSums
  import opened AxisModel
  import opened ViewportModel

  /** Header row count and pinned column counts as configured (possibly negative). */
  datatype EngineSpec = EngineSpec(headerRowCount: int, pinnedColStartCount: int, pinnedColEndCount: int)

  /** `toOverscanPx`: pixel overscan as is; a count times the size of item 0 (0 on an empty axis). */
  function ToOverscanPx(overscan: Overscan, s: seq<real>): real
  {
    match overscan
    case OverscanPx(v) => v
    case OverscanCount(n) =>
      if n <= 0.0 then 0.0
      else (if |s| > 0 then s[0] else 0.0) * n
  }

  /**
   * A count overscan over non-negative sizes is never negative: nothing for
   * a non-positive count or an empty axis, and at least the first item's
   * size once the count reaches one.
   */
  lemma OverscanCountNonNegative(n: real, s: seq<real>)
    requires NonNegative(s)
    ensures ToOverscanPx(OverscanCount(n), s) >= 0.0
    ensures n <= 0.0 || |s| == 0 ==> ToOverscanPx(OverscanCount(n), s) == 0.0
    ensures n >= 1.0 && |s| > 0 ==> ToOverscanPx(OverscanCount(n), s) >= s[0]
  {
    if n > 0.0 && |s| > 0 {
      assert s[0] >= 0.0;
      assert s[0] * n >= 0.0;
      if n >= 1.0 {
        var m := n - 1.0;
        assert s[0] * n == s[0] + s[0] * m;
        assert s[0] * m >= 0.0 by { assert m >= 0.0 && s[0] >= 0.0; }
      }
    }
  }

  /** The pixels a slice spans: `offset(end + 1) - offset(start)`, 0 when empty. */
  function Extent(s: seq<real>, sl: Slice): real
    requires InAxis(sl.range, |s|)
  {
    if sl.range.IsEmpty() then 0.0
    else Offset(s, sl.range.end + 1) - Offset(s, sl.range.start)
  }

  /** The scroll offset clamped to `[0, max(0, total - viewport)]`. */
  function ClampScroll(scroll: real, total: real, viewport: real): real
  {
    Clamp(scroll, 0.0, Max(0.0, total - viewport))
  }

  /** Header rows `[0, min(rowCount, headerCount) - 1]`, independent of scrolling. */
  function HeaderSlice(rows: seq<real>, headerCount: nat): (sl: Slice)
    ensures InAxis(sl.range, |rows|)
  {
    if headerCount == 0 || |rows| == 0 then EmptySlice
    else Slice(AxisRange(0, MinInt(|rows| - 1, headerCount - 1)), 0.0)
  }

  /** The first body row: rows after the header. */
  function BodyRowStart(rows: seq<real>, headerCount: nat): nat
  {
    MinInt(|rows|, headerCount)
  }

  /** Visible body rows: the visible segment of the height left under the header, kept out of the header. */
  function BodySlice(rows: seq<real>, headerCount: nat, scrollTop: real, vh: real, headerHeight: real, overscanPx: real): (sl: Slice)
    ensures InAxis(sl.range, |rows|)
  {
    var bodyRowStart := BodyRowStart(rows, headerCount);
    var bodyRowCount := MaxInt(0, |rows| - bodyRowStart);
    if bodyRowCount == 0 then EmptySlice
    else
      var seg := VisibleSegmentOf(rows, scrollTop, vh - headerHeight, overscanPx);
      var start := ClampIndex(seg.range.start, bodyRowStart, |rows| - 1);
      var end := ClampIndex(seg.range.end, start, |rows| - 1);
      Slice(AxisRange(start, end), Offset(rows, start))
  }

  /** Pinned-start columns `[0, min(colCount, startCount) - 1]`. */
  function PinnedStartSlice(cols: seq<real>, startCount: nat): (sl: Slice)
    ensures InAxis(sl.range, |cols|)
  {
    if startCount == 0 || |cols| == 0 then EmptySlice
    else Slice(AxisRange(0, MinInt(|cols| - 1, startCount - 1)), 0.0)
  }

  /** Pinned-end columns `[max(0, colCount - endCount), colCount - 1]`. */
  function PinnedEndSlice(cols: seq<real>, endCount: nat): (sl: Slice)
    ensures InAxis(sl.range, |cols|)
  {
    if endCount == 0 || |cols| == 0 then EmptySlice
    else
      var start := MaxInt(0, |cols| - endCount);
      Slice(AxisRange(start, |cols| - 1), Offset(cols, start))
  }

  /** Visible main columns, kept inside `[startCount, colCount - endCount - 1]`. */
  function MainSlice(cols: seq<real>, startCount: nat, endCount: nat, scrollLeft: real, mainWidth: real, overscanPx: real): (sl: Slice)
    ensures InAxis(sl.range, |cols|)
  {
    if |cols| == 0 then EmptySlice
    else
      var seg := VisibleSegmentOf(cols, scrollLeft, mainWidth, overscanPx);
      var minMain := startCount;
      var maxMain := MaxInt(minMain - 1, |cols| - endCount - 1);
      if maxMain < minMain then EmptySlice
      else
        var start := ClampIndex(seg.range.start, minMain, maxMain);
        var end := ClampIndex(seg.range.end, start, maxMain);
        Slice(AxisRange(start, end), Offset(cols, start))
  }

  /** The default anchor column: the first column of main, else pinned-start, else pinned-end, else 0. */
  function DefaultAnchorCol(main: Slice, start: Slice, end: Slice): int
  {
    if !main.range.IsEmpty() then main.range.start
    else if !start.range.IsEmpty() then start.range.start
    else if !end.range.IsEmpty() then end.range.start
    else 0
  }

  /** The viewport X of column `col`: unscrolled in pinned-start, right-aligned in pinned-end, scrolled in main. */
  function AnchorViewportX(cols: seq<real>, col: int, start: Slice, end: Slice, vw: real, scrollLeft: real): real
    requires InAxis(start.range, |cols|) && InAxis(end.range, |cols|) && 0 <= col <= |cols|
  {
    var offsetX := Offset(cols, col);
    if !start.range.IsEmpty() && col <= start.range.end then offsetX
    else if !end.range.IsEmpty() && col >= end.range.start then (vw - Extent(cols, end)) + (offsetX - end.offsetPx)
    else Extent(cols, start) + (offsetX - scrollLeft)
  }

  /** The viewport Y of row `row`: unscrolled in the header, under the header and scrolled in the body. */
  function AnchorViewportY(rows: seq<real>, row: int, header: Slice, scrollTop: real): real
    requires InAxis(header.range, |rows|) && 0 <= row <= |rows|
  {
    var offsetY := Offset(rows, row);
    if !header.range.IsEmpty() && row <= header.range.end then offsetY
    else Extent(rows, header) + (offsetY - scrollTop)
  }

  /** `compute`: the viewport model of a query. */
  function Compute(rows: seq<real>, cols: seq<real>, spec: EngineSpec, q: ViewportQuery): (vp: ViewportModel)
    ensures WellFormed(vp, |rows|, |cols|)
  {
    var headerCount := MaxInt(0, spec.headerRowCount);
    var startCount := MaxInt(0, spec.pinnedColStartCount);
    var endCount := MaxInt(0, spec.pinnedColEndCount);
    var totalW := Total(cols);
    var totalH := Total(rows);
    var vw := Max(0.0, q.viewportWidthPx);
    var vh := Max(0.0, q.viewportHeightPx);
    var scrollLeft := ClampScroll(q.scrollLeftPx, totalW, vw);
    var scrollTop := ClampScroll(q.scrollTopPx, totalH, vh);
    var header := HeaderSlice(rows, headerCount);
    var headerHeight := Extent(rows, header);
    var body := BodySlice(rows, headerCount, scrollTop, vh, headerHeight, ToOverscanPx(q.overscan, rows));
    var pinnedStart := PinnedStartSlice(cols, startCount);
    var pinnedEnd := PinnedEndSlice(cols, endCount);
    var startWidth := Extent(cols, pinnedStart);
    var endWidth := Extent(cols, pinnedEnd);
    var mainWidth := Max(0.0, vw - startWidth - endWidth);
    var main := MainSlice(cols, startCount, endCount, scrollLeft, mainWidth, ToOverscanPx(q.overscan, cols));
    var anchorRow := if !body.range.IsEmpty() then body.range.start else 0;
    var anchorCol := DefaultAnchorCol(main, pinnedStart, pinnedEnd);
    var anchor := Anchor(anchorRow, anchorCol,
      AnchorViewportX(cols, anchorCol, pinnedStart, pinnedEnd, vw, scrollLeft),
      AnchorViewportY(rows, anchorRow, header, scrollTop));
    ViewportModel(vw, vh, scrollLeft, scrollTop, totalW, totalH,
      RowSlices(header, body),
      ColSlices(pinnedStart, main, pinnedEnd),
      Transforms(0.0, startWidth, Max(0.0, vw - endWidth), 0.0, headerHeight),
      anchor)
  }

  // ----- properties of `compute` -----

  /**
   * Negative viewport sizes count as 0, and each scroll offset is clamped to
   * `[0, max(0, total - viewport)]` (kept as is when already inside).
   */
  lemma ComputeClampsScroll(rows: seq<real>, cols: seq<real>, spec: EngineSpec, q: ViewportQuery)
    ensures var vp := Compute(rows, cols, spec, q);
      vp.viewportWidthPx == Max(0.0, q.viewportWidthPx) &&
      vp.viewportHeightPx == Max(0.0, q.viewportHeightPx) &&
      vp.totalWidthPx == Total(cols) && vp.totalHeightPx == Total(rows) &&
      0.0 <= vp.scrollLeftPx <= Max(0.0, Total(cols) - vp.viewportWidthPx) &&
      0.0 <= vp.scrollTopPx <= Max(0.0, Total(rows) - vp.viewportHeightPx) &&
      (0.0 <= q.scrollLeftPx <= Total(cols) - vp.viewportWidthPx ==> vp.scrollLeftPx == q.scrollLeftPx) &&
      (0.0 <= q.scrollTopPx <= Total(rows) - vp.viewportHeightPx ==> vp.scrollTopPx == q.scrollTopPx)
  {
  }

  /** The extent of a non-empty slice starting at 0 is the offset just past its end. */
  lemma ExtentFromZero(s: seq<real>, sl: Slice)
    requires InAxis(sl.range, |s|) && (sl.range.IsEmpty() || sl.range.start == 0)
    ensures Extent(s, sl) == if sl.range.IsEmpty() then 0.0 else Offset(s, sl.range.end + 1)
  {
    assert s[..0] == [];
  }

  /**
   * The header slice is `[0, min(rowCount, headerCount) - 1]` whatever the
   * scroll (empty with no header rows or no rows), at offset 0; the body band
   * is placed under it at `rowBodyY`, the offset of the first body row.
   */
  lemma ComputeHeader(rows: seq<real>, cols: seq<real>, spec: EngineSpec, q: ViewportQuery)
    ensures var vp := Compute(rows, cols, spec, q);
      var hc := MaxInt(0, spec.headerRowCount);
      (hc == 0 || |rows| == 0 ==> vp.rows.header == EmptySlice) &&
      (hc > 0 && |rows| > 0 ==> vp.rows.header == Slice(AxisRange(0, MinInt(|rows| - 1, hc - 1)), 0.0)) &&
      vp.transforms.rowHeaderY == 0.0 &&
      vp.transforms.rowBodyY == Offset(rows, MinInt(|rows|, hc))
  {
    var hc := MaxInt(0, spec.headerRowCount);
    ExtentFromZero(rows, HeaderSlice(rows, hc));
    assert rows[..0] == [];
  }

  /**
   * The body slice is empty exactly when every row is a header row; otherwise
   * it lies in `[min(rowCount, headerCount), rowCount - 1]`, is non-empty and
   * reports the offset of its first row.
   */
  lemma ComputeBody(rows: seq<real>, cols: seq<real>, spec: EngineSpec, q: ViewportQuery)
    ensures var vp := Compute(rows, cols, spec, q);
      var first := MinInt(|rows|, MaxInt(0, spec.headerRowCount));
      (first == |rows| ==> vp.rows.body == EmptySlice) &&
      (first < |rows| ==> first <= vp.rows.body.range.start <= vp.rows.body.range.end <= |rows| - 1 &&
                          vp.rows.body.offsetPx == Offset(rows, vp.rows.body.range.start))
  {
  }

  /**
   * Pinned-start is `[0, min(colCount, startCount) - 1]` and pinned-end is
   * `[max(0, colCount - endCount), colCount - 1]` (each empty with a zero
   * count or no columns; negative counts count as zero). Pinned-end reports
   * the offset of its first column.
   */
  lemma ComputePinned(rows: seq<real>, cols: seq<real>, spec: EngineSpec, q: ViewportQuery)
    ensures var vp := Compute(rows, cols, spec, q);
      var sc := MaxInt(0, spec.pinnedColStartCount);
      var ec := MaxInt(0, spec.pinnedColEndCount);
      (sc == 0 || |cols| == 0 ==> vp.cols.start == EmptySlice) &&
      (sc > 0 && |cols| > 0 ==> vp.cols.start == Slice(AxisRange(0, MinInt(|cols| - 1, sc - 1)), 0.0)) &&
      (ec == 0 || |cols| == 0 ==> vp.cols.end == EmptySlice) &&
      (ec > 0 && |cols| > 0 ==> vp.cols.end.range == AxisRange(MaxInt(0, |cols| - ec), |cols| - 1) &&
                                vp.cols.end.offsetPx == Offset(cols, MaxInt(0, |cols| - ec)))
  {
  }

  /**
   * The main slice stays inside `[startCount, colCount - endCount - 1]`; it is
   * empty exactly when that interval is (or there are no columns).
   */
  lemma ComputeMain(rows: seq<real>, cols: seq<real>, spec: EngineSpec, q: ViewportQuery)
    ensures var vp := Compute(rows, cols, spec, q);
      var sc := MaxInt(0, spec.pinnedColStartCount);
      var ec := MaxInt(0, spec.pinnedColEndCount);
      (vp.cols.main.range.IsEmpty() <==> |cols| == 0 || |cols| - ec - 1 < sc) &&
      (!vp.cols.main.range.IsEmpty() ==>
        sc <= vp.cols.main.range.start <= vp.cols.main.range.end <= |cols| - ec - 1 &&
        vp.cols.main.offsetPx == Offset(cols, vp.cols.main.range.start))
  {
  }

  /** When the pinned counts fit in the columns, no column lies in two bands. */
  lemma ComputeBandsDisjoint(rows: seq<real>, cols: seq<real>, spec: EngineSpec, q: ViewportQuery, c: int)
    requires MaxInt(0, spec.pinnedColStartCount) + MaxInt(0, spec.pinnedColEndCount) <= |cols|
    ensures var vp := Compute(rows, cols, spec, q);
      !(vp.cols.start.range.Contains(c) && vp.cols.main.range.Contains(c)) &&
      !(vp.cols.main.range.Contains(c) && vp.cols.end.range.Contains(c)) &&
      !(vp.cols.start.range.Contains(c) && vp.cols.end.range.Contains(c))
  {
    ComputeMain(rows, cols, spec, q);
    ComputePinned(rows, cols, spec, q);
  }

  /**
   * The column transforms: pinned-start at 0, main after the pinned-start
   * width (`offset(startCount)`), pinned-end at `max(0, vw - endWidth)` where
   * `endWidth = total - offset(colCount - endCount)`.
   */
  lemma ComputeColTransforms(rows: seq<real>, cols: seq<real>, spec: EngineSpec, q: ViewportQuery)
    ensures var vp := Compute(rows, cols, spec, q);
      var sc := MaxInt(0, spec.pinnedColStartCount);
      var ec := MaxInt(0, spec.pinnedColEndCount);
      vp.transforms.colPinnedStartX == 0.0 &&
      vp.transforms.colMainX == Offset(cols, MinInt(|cols|, sc)) &&
      vp.transforms.colPinnedEndX == Max(0.0, vp.viewportWidthPx - (Total(cols) - Offset(cols, MaxInt(0, |cols| - ec))))
  {
    var sc := MaxInt(0, spec.pinnedColStartCount);
    var ec := MaxInt(0, spec.pinnedColEndCount);
    ExtentFromZero(cols, PinnedStartSlice(cols, sc));
    assert cols[..0] == [];
    assert cols[..|cols|] == cols;
  }

  /**
   * The default anchor is the first body row (row 0 with no body) and the
   * first column of main, else pinned-start, else pinned-end, else column 0;
   * with rows and columns present it names an existing cell.
   */
  lemma ComputeAnchorCell(rows: seq<real>, cols: seq<real>, spec: EngineSpec, q: ViewportQuery)
    ensures var vp := Compute(rows, cols, spec, q);
      vp.anchor.rowIndex == (if vp.rows.body.range.IsEmpty() then 0 else vp.rows.body.range.start) &&
      vp.anchor.colIndex == DefaultAnchorCol(vp.cols.main, vp.cols.start, vp.cols.end) &&
      (|rows| > 0 ==> 0 <= vp.anchor.rowIndex < |rows|) &&
      (|cols| > 0 ==> 0 <= vp.anchor.colIndex < |cols|)
  {
  }
}
