/**
 * The model hit-tester: a grid laid out by explicit offset and size lists,
 * with a row-header strip on the left and a column-header strip on top.
 * A point maps to a region, a cell, or a resize handle between two cells.
 */
module HitTestModel {
  import opened Wrappers
  import opened ContractsMath

  datatype GridPoint = GridPoint(x: real, y: real)

  datatype GridRect = GridRect(x: real, y: real, width: real, height: real)

  /** A 0-based cell reference; a header cell uses -1 for the missing coordinate. */
  datatype CellRef = CellRef(row: int, col: int)

  datatype HitRegion =
    | CellRegion | RowHeader | ColHeader | Corner | GridRegion | Outside | ColResizeHandle | RowResizeHandle

  /** What a point hits; the optional parts are present only for the regions that carry them. */
  datatype HitTarget = HitTarget(region: HitRegion, cell: Option<CellRef>, col: Option<int>, row: Option<int>, local: Option<GridPoint>)

  /** A target with nothing but its region. */
  function Bare(region: HitRegion): HitTarget
  {
    HitTarget(region, None, None, None, None)
  }

  /**
   * The layout the model hit-tester reads: offsets are start positions from
   * the content origin (either one per item, or one per item plus the total).
   */
  datatype GridLayout = GridLayout(
    bounds: GridRect,
    rowHeaderWidth: real,
    colHeaderHeight: real,
    rowCount: int,
    colCount: int,
    colOffsets: seq<real>,
    colWidths: seq<real>,
    rowOffsets: seq<real>,
    rowHeights: seq<real>,
    resizeHandleSlop: real)

  /** `rectContainsPoint`: the half-open rectangle `[x, x + width) × [y, y + height)`. */
  predicate RectContainsPoint(r: GridRect, p: GridPoint)
  {
    p.x >= r.x && p.y >= r.y && p.x < r.x + r.width && p.y < r.y + r.height
  }

  /** A non-empty rectangle contains its top-left corner and none of its right or bottom edge. */
  lemma RectIsHalfOpen(r: GridRect, t: real)
    requires r.width > 0.0 && r.height > 0.0
    ensures RectContainsPoint(r, GridPoint(r.x, r.y))
    ensures !RectContainsPoint(r, GridPoint(r.x + r.width, t)) && !RectContainsPoint(r, GridPoint(t, r.y + r.height))
  {
  }

  function Abs(v: real): real { if v < 0.0 then -v else v }

  // ----- segments -----

  /** `offsets[i] ?? 0`: a missing entry reads as 0. */
  function At(s: seq<real>, i: int): real
  {
    if 0 <= i < |s| then s[i] else 0.0
  }

  /** Where segment `i` starts. */
  function SegStart(offsets: seq<real>, sizes: seq<real>, i: int): real
  {
    At(offsets, i)
  }

  /** Where segment `i` ends: the next offset when the list holds the total, else start plus size. */
  function SegEnd(offsets: seq<real>, sizes: seq<real>, i: int): real
    requires 0 <= i < |sizes|
  {
    if |offsets| >= |sizes| + 1 then offsets[i + 1] else At(offsets, i) + sizes[i]
  }

  /** Segment `i` holds `value`. */
  predicate InSegment(offsets: seq<real>, sizes: seq<real>, i: int, value: real)
  {
    0 <= i < |sizes| && SegStart(offsets, sizes, i) <= value < SegEnd(offsets, sizes, i)
  }

  /** The binary search of `findSegmentIndex` over `[lo, hi]`, one halving per call. */
  function SearchFrom(offsets: seq<real>, sizes: seq<real>, value: real, lo: int, hi: int): (r: Option<int>)
    requires 0 <= lo && hi < |sizes|
    ensures r.Some? ==> lo <= r.value <= hi && InSegment(offsets, sizes, r.value, value)
    decreases if lo <= hi then hi - lo + 1 else 0
  {
    if lo > hi then None
    else
      var mid := (lo + hi) / 2;
      if value < SegStart(offsets, sizes, mid) then SearchFrom(offsets, sizes, value, lo, mid - 1)
      else if value >= SegEnd(offsets, sizes, mid) then SearchFrom(offsets, sizes, value, mid + 1, hi)
      else Some(mid)
  }

  /**
   * `findSegmentIndex`: absent with no segments or a value outside
   * `[start of the first, end of the last)`; otherwise what the search finds.
   * Whatever it returns is a segment that holds the value.
   */
  function SegmentIndex(offsets: seq<real>, sizes: seq<real>, value: real): (r: Option<int>)
    ensures r.Some? ==> InSegment(offsets, sizes, r.value, value)
    ensures |sizes| == 0 || value < SegStart(offsets, sizes, 0) || value >= SegEnd(offsets, sizes, |sizes| - 1) ==> r.None?
  {
    if |sizes| == 0 then None
    else if value < SegStart(offsets, sizes, 0) || value >= SegEnd(offsets, sizes, |sizes| - 1) then None
    else SearchFrom(offsets, sizes, value, 0, |sizes| - 1)
  }

  /** Segments have non-negative extent and each ends where the next starts. */
  predicate Contiguous(offsets: seq<real>, sizes: seq<real>)
  {
    (forall i :: 0 <= i < |sizes| ==> SegStart(offsets, sizes, i) <= SegEnd(offsets, sizes, i)) &&
    (forall i :: 0 <= i < |sizes| - 1 ==> SegEnd(offsets, sizes, i) == SegStart(offsets, sizes, i + 1))
  }

  /** In a contiguous layout an earlier segment ends before a later one starts. */
  lemma {:induction false} SegmentsOrdered(offsets: seq<real>, sizes: seq<real>, i: int, j: int)
    requires Contiguous(offsets, sizes) && 0 <= i < j < |sizes|
    ensures SegEnd(offsets, sizes, i) <= SegStart(offsets, sizes, j)
    decreases j - i
  {
    if j > i + 1 {
      SegmentsOrdered(offsets, sizes, i, j - 1);
    }
  }

  /** In a contiguous layout the search over `[lo, hi]` finds a value lying in that span. */
  lemma {:induction false} SearchFinds(offsets: seq<real>, sizes: seq<real>, value: real, lo: int, hi: int)
    requires Contiguous(offsets, sizes) && 0 <= lo <= hi < |sizes|
    requires SegStart(offsets, sizes, lo) <= value < SegEnd(offsets, sizes, hi)
    ensures SearchFrom(offsets, sizes, value, lo, hi).Some?
    decreases hi - lo
  {
    var mid := (lo + hi) / 2;
    if value < SegStart(offsets, sizes, mid) {
      assert mid > lo;
      assert SegEnd(offsets, sizes, mid - 1) == SegStart(offsets, sizes, mid);
      SearchFinds(offsets, sizes, value, lo, mid - 1);
    } else if value >= SegEnd(offsets, sizes, mid) {
      assert mid < hi;
      assert SegEnd(offsets, sizes, mid) == SegStart(offsets, sizes, mid + 1);
      SearchFinds(offsets, sizes, value, mid + 1, hi);
    }
  }

  /**
   * For a contiguous layout `findSegmentIndex` returns exactly the segment
   * holding the value, the `i` with `start_i <= value < end_i`.
   */
  lemma SegmentIndexExact(offsets: seq<real>, sizes: seq<real>, value: real, i: int)
    requires Contiguous(offsets, sizes) && InSegment(offsets, sizes, i, value)
    ensures SegmentIndex(offsets, sizes, value) == Some(i)
  {
    var n := |sizes|;
    assert SegStart(offsets, sizes, 0) <= value by {
      if i > 0 {
        SegmentsOrdered(offsets, sizes, 0, i);
        assert SegStart(offsets, sizes, 0) <= SegEnd(offsets, sizes, 0);
      }
    }
    assert value < SegEnd(offsets, sizes, n - 1) by {
      if i < n - 1 {
        SegmentsOrdered(offsets, sizes, i, n - 1);
        assert SegStart(offsets, sizes, n - 1) <= SegEnd(offsets, sizes, n - 1);
      }
    }
    SearchFinds(offsets, sizes, value, 0, n - 1);
    var r := SegmentIndex(offsets, sizes, value);
    assert r == SearchFrom(offsets, sizes, value, 0, n - 1);
    var k := r.value;
    if k < i {
      SegmentsOrdered(offsets, sizes, k, i);
    } else if i < k {
      SegmentsOrdered(offsets, sizes, i, k);
    }
  }

  /** `findSegmentIndex`: the bounds check, then a binary search loop over `[lo, hi]`. */
  method FindSegmentIndex(offsets: seq<real>, sizes: seq<real>, value: real) returns (r: Option<int>)
    ensures r == SegmentIndex(offsets, sizes, value)
  {
    var n := |sizes|;
    if n == 0 {
      return None;
    }
    var start := At(offsets, 0);
    var end := if |offsets| >= n + 1 then offsets[n] else At(offsets, n - 1) + sizes[n - 1];
    if value < start || value >= end {
      return None;
    }
    var lo := 0;
    var hi := n - 1;
    while lo <= hi
      invariant 0 <= lo && -1 <= hi < n
      invariant SearchFrom(offsets, sizes, value, lo, hi) == SegmentIndex(offsets, sizes, value)
      decreases hi - lo + 1
    {
      // `(lo + hi) >> 1` on a non-negative sum
      var mid := (lo + hi) / 2;
      var s := At(offsets, mid);
      var e := if |offsets| >= n + 1 then offsets[mid + 1] else s + sizes[mid];
      if value < s {
        hi := mid - 1;
      } else if value >= e {
        lo := mid + 1;
      } else {
        return Some(mid);
      }
    }
    return None;
  }

  // ----- the hit test -----

  /**
   * The end boundary the hit test reads for item `i`: with an offset list
   * that is long enough for `count` items it is the next offset, which may
   * be missing (`undefined`); otherwise start plus size.
   */
  function BoundaryEnd(offsets: seq<real>, sizes: seq<real>, count: int, i: int): Option<real>
    requires 0 <= i < |sizes|
  {
    if |offsets| >= count + 1 then (if i + 1 < |offsets| then Some(offsets[i + 1]) else None)
    else Some(At(offsets, i) + sizes[i])
  }

  /** `Math.abs(v - b) <= slop`; false against a missing boundary, as a comparison with NaN is. */
  predicate Near(v: real, b: Option<real>, slop: real)
  {
    b.Some? && Abs(v - b.value) <= slop
  }

  /** `defaultHitTest`, the decision as written. */
  function DefaultHitTest(layout: GridLayout, p: GridPoint): (r: HitTarget)
    ensures r.region == Outside <==> !RectContainsPoint(layout.bounds, p)
    ensures var x := p.x - layout.bounds.x; var y := p.y - layout.bounds.y;
      RectContainsPoint(layout.bounds, p) ==>
        (r.region == Corner <==> x < layout.rowHeaderWidth && y < layout.colHeaderHeight) &&
        (r.region == ColHeader <==> x >= layout.rowHeaderWidth && y < layout.colHeaderHeight) &&
        (r.region == RowHeader <==> x < layout.rowHeaderWidth && y >= layout.colHeaderHeight)
    ensures var cx := p.x - layout.bounds.x - layout.rowHeaderWidth; var cy := p.y - layout.bounds.y - layout.colHeaderHeight;
      (r.region == ColHeader && r.cell.Some? ==> r.cell.value.row == -1 && InSegment(layout.colOffsets, layout.colWidths, r.cell.value.col, cx)) &&
      (r.region == RowHeader && r.cell.Some? ==> r.cell.value.col == -1 && InSegment(layout.rowOffsets, layout.rowHeights, r.cell.value.row, cy)) &&
      (r.region in {CellRegion, ColResizeHandle, RowResizeHandle} ==>
        r.cell.Some? && InSegment(layout.rowOffsets, layout.rowHeights, r.cell.value.row, cy) &&
        InSegment(layout.colOffsets, layout.colWidths, r.cell.value.col, cx))
  {
    if !RectContainsPoint(layout.bounds, p) then Bare(Outside)
    else
      var x := p.x - layout.bounds.x;
      var y := p.y - layout.bounds.y;
      var inRowHeader := x < layout.rowHeaderWidth;
      var inColHeader := y < layout.colHeaderHeight;
      if inRowHeader && inColHeader then Bare(Corner)
      else
        var contentX := x - layout.rowHeaderWidth;
        var contentY := y - layout.colHeaderHeight;
        if inColHeader && !inRowHeader then
          match SegmentIndex(layout.colOffsets, layout.colWidths, contentX)
          case None => Bare(ColHeader)
          case Some(col) => HitTarget(ColHeader, Some(CellRef(-1, col)), None, None, Some(GridPoint(contentX, y)))
        else if inRowHeader && !inColHeader then
          match SegmentIndex(layout.rowOffsets, layout.rowHeights, contentY)
          case None => Bare(RowHeader)
          case Some(row) => HitTarget(RowHeader, Some(CellRef(row, -1)), None, None, Some(GridPoint(x, contentY)))
        else
          var rowHit := SegmentIndex(layout.rowOffsets, layout.rowHeights, contentY);
          var colHit := SegmentIndex(layout.colOffsets, layout.colWidths, contentX);
          if rowHit.None? || colHit.None? then Bare(GridRegion)
          else
            var row := rowHit.value;
            var col := colHit.value;
            var slop := Max(0.0, layout.resizeHandleSlop);
            var colStart := At(layout.colOffsets, col);
            var colEnd := BoundaryEnd(layout.colOffsets, layout.colWidths, layout.colCount, col);
            var rowStart := At(layout.rowOffsets, row);
            var rowEnd := BoundaryEnd(layout.rowOffsets, layout.rowHeights, layout.rowCount, row);
            var cell := Some(CellRef(row, col));
            if col > 0 && Abs(contentX - colStart) <= slop then HitTarget(ColResizeHandle, cell, Some(col - 1), None, None)
            else if Near(contentX, colEnd, slop) then HitTarget(ColResizeHandle, cell, Some(col), None, None)
            else if row > 0 && Abs(contentY - rowStart) <= slop then HitTarget(RowResizeHandle, cell, None, Some(row - 1), None)
            else if Near(contentY, rowEnd, slop) then HitTarget(RowResizeHandle, cell, None, Some(row), None)
            else HitTarget(CellRegion, cell, None, None, Some(GridPoint(contentX - colStart, contentY - rowStart)))
  }

  /**
   * In the content area the hit is `grid` exactly when the row or the column
   * does not resolve; a cell hit reports the point relative to the cell's
   * top-left corner, lies inside the cell, and is farther than the slop from
   * every boundary that would have produced a resize handle.
   */
  lemma HitTestContent(layout: GridLayout, p: GridPoint)
    requires RectContainsPoint(layout.bounds, p)
    requires p.x - layout.bounds.x >= layout.rowHeaderWidth && p.y - layout.bounds.y >= layout.colHeaderHeight
    ensures var cx := p.x - layout.bounds.x - layout.rowHeaderWidth; var cy := p.y - layout.bounds.y - layout.colHeaderHeight;
      var r := DefaultHitTest(layout, p);
      var slop := Max(0.0, layout.resizeHandleSlop);
      (r.region == GridRegion <==>
        SegmentIndex(layout.rowOffsets, layout.rowHeights, cy).None? || SegmentIndex(layout.colOffsets, layout.colWidths, cx).None?) &&
      (r.region == CellRegion ==>
        var c := r.cell.value;
        r.local == Some(GridPoint(cx - At(layout.colOffsets, c.col), cy - At(layout.rowOffsets, c.row))) &&
        0.0 <= r.local.value.x && 0.0 <= r.local.value.y &&
        (c.col > 0 ==> r.local.value.x > slop) && (c.row > 0 ==> r.local.value.y > slop) &&
        !Near(cx, BoundaryEnd(layout.colOffsets, layout.colWidths, layout.colCount, c.col), slop) &&
        !Near(cy, BoundaryEnd(layout.rowOffsets, layout.rowHeights, layout.rowCount, c.row), slop))
  {
  }

  /**
   * Resize handles in order of precedence: near the column start (not for
   * column 0) the handle is the previous column's, near the column end it is
   * the column's own; then the same for rows. A negative slop counts as 0.
   */
  lemma HitTestHandles(layout: GridLayout, p: GridPoint)
    requires RectContainsPoint(layout.bounds, p)
    requires p.x - layout.bounds.x >= layout.rowHeaderWidth && p.y - layout.bounds.y >= layout.colHeaderHeight
    ensures var cx := p.x - layout.bounds.x - layout.rowHeaderWidth; var cy := p.y - layout.bounds.y - layout.colHeaderHeight;
      var r := DefaultHitTest(layout, p);
      var slop := Max(0.0, layout.resizeHandleSlop);
      (r.region == ColResizeHandle ==>
        var c := r.cell.value.col;
        (c > 0 && Abs(cx - At(layout.colOffsets, c)) <= slop && r.col == Some(c - 1)) ||
        (!(c > 0 && Abs(cx - At(layout.colOffsets, c)) <= slop) &&
         Near(cx, BoundaryEnd(layout.colOffsets, layout.colWidths, layout.colCount, c), slop) && r.col == Some(c))) &&
      (r.region == RowResizeHandle ==>
        var c := r.cell.value;
        !(c.col > 0 && Abs(cx - At(layout.colOffsets, c.col)) <= slop) &&
        !Near(cx, BoundaryEnd(layout.colOffsets, layout.colWidths, layout.colCount, c.col), slop) &&
        ((c.row > 0 && Abs(cy - At(layout.rowOffsets, c.row)) <= slop && r.row == Some(c.row - 1)) ||
         (!(c.row > 0 && Abs(cy - At(layout.rowOffsets, c.row)) <= slop) &&
          Near(cy, BoundaryEnd(layout.rowOffsets, layout.rowHeights, layout.rowCount, c.row), slop) && r.row == Some(c.row))))
  {
  }
}
