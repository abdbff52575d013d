/**
 * `scrollToCell`: the scroll offsets that bring a cell into view with the
 * least movement, skipping the axis on which the cell is sticky.
 */
module ScrollToCell {
  import opened Wrappers
  import opened ContractsMath
  import opened ContractsModel
  import opened AxisModel

  /** The grid's sticky header rows and pinned column counts. */
  datatype StickyConfig = StickyConfig(headerRowCount: int, pinnedColStartCount: int, pinnedColEndCount: int)

  /** The scroll offsets to write. */
  datatype ScrollTarget = ScrollTarget(scrollTop: real, scrollLeft: real)

  /** The span `[start, end]` is fully inside the window `[s, s + view]`. */
  predicate Shows(start: real, end: real, s: real, view: real)
  {
    s <= start && end <= s + view
  }

  /**
   * The one-axis rule: scroll back to the span's start when it begins
   * before the window, else forward to its end when it ends after it,
   * else stay.
   */
  function MinimalScroll(start: real, end: real, cur: real, view: real): real
  {
    if start < cur then start
    else if end > cur + view then end - view
    else cur
  }

  /**
   * When the span fits in the window, the rule shows it, stays put when it
   * is already shown, and moves no further than any other offset that
   * shows it.
   */
  lemma MinimalScrollIsMinimal(start: real, end: real, cur: real, view: real, s: real)
    requires end - start <= view
    ensures Shows(start, end, MinimalScroll(start, end, cur, view), view)
    ensures Shows(start, end, cur, view) ==> MinimalScroll(start, end, cur, view) == cur
    ensures Shows(start, end, s, view) ==>
      Abs(s - cur) >= Abs(MinimalScroll(start, end, cur, view) - cur)
  {
  }

  function Abs(x: real): real { if x < 0.0 then -x else x }

  /** The height of the sticky header rows: the offset of the first body row. */
  function HeaderHeight(rows: seq<real>, headerRowCount: int): Result<real, GridError>
  {
    if headerRowCount > 0 then OffsetAt(rows, headerRowCount) else Ok(0.0)
  }

  /** The width of the pinned-start columns. */
  function PinnedStartWidth(cols: seq<real>, count: int): Result<real, GridError>
  {
    if count > 0 then OffsetAt(cols, count) else Ok(0.0)
  }

  /** The width of the pinned-end columns: the total minus the offset of the first of them. */
  function PinnedEndWidth(cols: seq<real>, count: int): Result<real, GridError>
  {
    if count > 0 then
      match OffsetAt(cols, |cols| - count)
      case Ok(o) => Ok(Total(cols) - o)
      case Err(e) => Err(e)
    else Ok(0.0)
  }

  /**
   * `scrollToCell` (the offset computation): nothing for a cell outside the
   * grid; otherwise the minimal scroll on each axis where the cell is not
   * sticky, and nothing to write when neither offset changes. A sticky
   * count that is past the end of its axis makes an offset query throw.
   */
  function ScrollToCell(rows: seq<real>, cols: seq<real>, cfg: StickyConfig, vw: real, vh: real,
                        curTop: real, curLeft: real, row: int, col: int): (r: Result<Option<ScrollTarget>, GridError>)
    ensures row < 0 || row >= |rows| || col < 0 || col >= |cols| ==> r == Ok(None)
    ensures r.Ok? && r.value.Some? ==>
      0 <= row < |rows| && 0 <= col < |cols| &&
      (r.value.value.scrollTop != curTop || r.value.value.scrollLeft != curLeft) &&
      (row < cfg.headerRowCount ==> r.value.value.scrollTop == curTop) &&
      (col < cfg.pinnedColStartCount || (cfg.pinnedColEndCount > 0 && col >= |cols| - cfg.pinnedColEndCount) ==>
         r.value.value.scrollLeft == curLeft)
  {
    if row < 0 || row >= |rows| || col < 0 || col >= |cols| then Ok(None)
    else
      match HeaderHeight(rows, cfg.headerRowCount)
      case Err(e) => Err(e)
      case Ok(headerHeight) =>
        match PinnedStartWidth(cols, cfg.pinnedColStartCount)
        case Err(e) => Err(e)
        case Ok(startWidth) =>
          match PinnedEndWidth(cols, cfg.pinnedColEndCount)
          case Err(e) => Err(e)
          case Ok(endWidth) =>
            var cellTop := Offset(rows, row);
            var cellBottom := cellTop + rows[row];
            var cellLeft := Offset(cols, col);
            var cellRight := cellLeft + cols[col];
            var nextTop :=
              if row < cfg.headerRowCount then curTop
              else MinimalScroll(cellTop - headerHeight, cellBottom, curTop, vh);
            var pinned := col < cfg.pinnedColStartCount || (cfg.pinnedColEndCount > 0 && col >= |cols| - cfg.pinnedColEndCount);
            var mainWidth := Max(0.0, vw - startWidth - endWidth);
            var nextLeft := if pinned then curLeft else MinimalScroll(cellLeft, cellRight, curLeft, mainWidth);
            if nextTop == curTop && nextLeft == curLeft then Ok(None)
            else Ok(Some(ScrollTarget(nextTop, nextLeft)))
  }

  /**
   * For a body cell that fits below the header, the new scroll top shows
   * the whole cell between the header and the bottom edge, and moves no
   * further than any scroll top that does; likewise horizontally for a main
   * column that fits between the pinned bands.
   */
  lemma ScrollToCellShowsCell(rows: seq<real>, cols: seq<real>, cfg: StickyConfig, vw: real, vh: real,
                              curTop: real, curLeft: real, row: int, col: int, sTop: real, sLeft: real)
    requires 0 <= row < |rows| && 0 <= col < |cols|
    requires ScrollToCell(rows, cols, cfg, vw, vh, curTop, curLeft, row, col).Ok?
    ensures var r := ScrollToCell(rows, cols, cfg, vw, vh, curTop, curLeft, row, col).value;
      var top := if r.Some? then r.value.scrollTop else curTop;
      var hh := HeaderHeight(rows, cfg.headerRowCount).value;
      var cellTop := Offset(rows, row);
      row >= cfg.headerRowCount && rows[row] <= vh - hh ==>
        Shows(cellTop - hh, cellTop + rows[row], top, vh) &&
        (Shows(cellTop - hh, cellTop + rows[row], sTop, vh) ==> Abs(sTop - curTop) >= Abs(top - curTop))
    ensures var r := ScrollToCell(rows, cols, cfg, vw, vh, curTop, curLeft, row, col).value;
      var left := if r.Some? then r.value.scrollLeft else curLeft;
      var mw := Max(0.0, vw - PinnedStartWidth(cols, cfg.pinnedColStartCount).value - PinnedEndWidth(cols, cfg.pinnedColEndCount).value);
      var cellLeft := Offset(cols, col);
      var pinned := col < cfg.pinnedColStartCount || (cfg.pinnedColEndCount > 0 && col >= |cols| - cfg.pinnedColEndCount);
      !pinned && cols[col] <= mw ==>
        Shows(cellLeft, cellLeft + cols[col], left, mw) &&
        (Shows(cellLeft, cellLeft + cols[col], sLeft, mw) ==> Abs(sLeft - curLeft) >= Abs(left - curLeft))
  {
    var hh := HeaderHeight(rows, cfg.headerRowCount).value;
    var mw := Max(0.0, vw - PinnedStartWidth(cols, cfg.pinnedColStartCount).value - PinnedEndWidth(cols, cfg.pinnedColEndCount).value);
    var cellTop := Offset(rows, row);
    var cellLeft := Offset(cols, col);
    var pinned := col < cfg.pinnedColStartCount || (cfg.pinnedColEndCount > 0 && col >= |cols| - cfg.pinnedColEndCount);
    if row >= cfg.headerRowCount && rows[row] <= vh - hh {
      MinimalScrollIsMinimal(cellTop - hh, cellTop + rows[row], curTop, vh, sTop);
    }
    if !pinned && cols[col] <= mw {
      MinimalScrollIsMinimal(cellLeft, cellLeft + cols[col], curLeft, mw, sLeft);
    }
  }
}
