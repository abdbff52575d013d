/**
 * The pure part of the grid kernel: where `computeAnchorCoords` places an
 * anchor cell, the scroll adjustment `reportMeasuredSize` derives from a
 * measurement, and the model a query answers.
 */
module KernelModel {
  import opened Wrappers
  import opened ContractsMath
  import opened ContractsModel
  import opened PrefixSums
  import opened AxisModel
  import opened ViewportModel
  import opened ViewportEngine

  /** What `reportMeasuredSize` answers: whether a size changed, and the query to issue next. */
  datatype ReportResult = ReportResult(changed: bool, nextQuery: ViewportQuery)

  /** The anchor's indices are positions the axes can take an offset of. */
  predicate AnchorInAxes(a: Anchor, rowCount: int, colCount: int)
  {
    (0 <= a.rowIndex < rowCount || (a.rowIndex == 0 && rowCount == 0)) &&
    (0 <= a.colIndex < colCount || (a.colIndex == 0 && colCount == 0))
  }

  /**
   * `computeAnchorCoords`: the viewport position of a given anchor cell under
   * `vp`, keeping its identity; fails as `getOffsetPx` does on an index
   * outside the axis.
   */
  function AnchorCoords(vp: ViewportModel, rows: seq<real>, cols: seq<real>, a: Anchor): (r: Result<Anchor, GridError>)
    requires WellFormed(vp, |rows|, |cols|)
    ensures r.Err? <==> OffsetAt(rows, a.rowIndex).Err? || OffsetAt(cols, a.colIndex).Err?
    ensures r.Ok? ==> r.value.rowIndex == a.rowIndex && r.value.colIndex == a.colIndex
  {
    match OffsetAt(rows, a.rowIndex)
    case Err(e) => Err(e)
    case Ok(rowOffset) =>
      match OffsetAt(cols, a.colIndex)
      case Err(e) => Err(e)
      case Ok(colOffset) =>
        var x := CoordX(cols, vp.cols, vp.viewportWidthPx, vp.transforms.colMainX, vp.scrollLeftPx, a.colIndex, colOffset);
        var y := CoordY(vp.rows.header.range, vp.transforms.rowBodyY, vp.scrollTopPx, a.rowIndex, rowOffset);
        Ok(Anchor(a.rowIndex, a.colIndex, x, y))
  }

  /** The Y rule of `computeAnchorCoords`: a header row is unscrolled, a body row is placed under the header and scrolled. */
  function CoordY(header: AxisRange, rowBodyY: real, scrollTop: real, row: int, rowOffset: real): real
  {
    var inHeader := header.end >= header.start && row >= header.start && row <= header.end;
    if inHeader then rowOffset else rowBodyY + (rowOffset - scrollTop)
  }

  /**
   * The X rule of `computeAnchorCoords`: a pinned-start column is unscrolled,
   * a pinned-end column is right-aligned, a main column is scrolled after the
   * pinned-start band.
   */
  function CoordX(cols: seq<real>, bands: ColSlices, vw: real, colMainX: real, scrollLeft: real, col: int, colOffset: real): real
    requires InAxis(bands.end.range, |cols|)
  {
    var sr := bands.start.range;
    var er := bands.end.range;
    var inPinnedStart := sr.end >= sr.start && col >= sr.start && col <= sr.end;
    var inPinnedEnd := er.end >= er.start && col >= er.start && col <= er.end;
    if inPinnedStart then colOffset
    else if inPinnedEnd then
      var pinnedEndWidthPx := if er.end >= er.start then Offset(cols, er.end + 1) - Offset(cols, er.start) else 0.0;
      (vw - pinnedEndWidthPx) + (colOffset - bands.end.offsetPx)
    else colMainX + (colOffset - scrollLeft)
  }

  /**
   * On an engine model, `computeAnchorCoords` places a cell exactly where the
   * engine places its own anchor: the same header, pinned and main rules.
   */
  lemma AnchorCoordsMatchEngine(rows: seq<real>, cols: seq<real>, spec: EngineSpec, q: ViewportQuery, a: Anchor)
    requires AnchorInAxes(a, |rows|, |cols|)
    ensures var vp := Compute(rows, cols, spec, q);
      AnchorCoords(vp, rows, cols, a) == Ok(Anchor(a.rowIndex, a.colIndex,
        AnchorViewportX(cols, a.colIndex, vp.cols.start, vp.cols.end, vp.viewportWidthPx, vp.scrollLeftPx),
        AnchorViewportY(rows, a.rowIndex, vp.rows.header, vp.scrollTopPx)))
  {
    var vp := Compute(rows, cols, spec, q);
    assert CoordY(vp.rows.header.range, vp.transforms.rowBodyY, vp.scrollTopPx, a.rowIndex, Offset(rows, a.rowIndex))
        == AnchorViewportY(rows, a.rowIndex, vp.rows.header, vp.scrollTopPx) by {
      ComputeHeader(rows, cols, spec, q);
      CoordYMatches(rows, vp.rows.header, vp.transforms.rowBodyY, vp.scrollTopPx, a.rowIndex);
    }
    assert CoordX(cols, vp.cols, vp.viewportWidthPx, vp.transforms.colMainX, vp.scrollLeftPx, a.colIndex, Offset(cols, a.colIndex))
        == AnchorViewportX(cols, a.colIndex, vp.cols.start, vp.cols.end, vp.viewportWidthPx, vp.scrollLeftPx) by {
      ComputePinned(rows, cols, spec, q);
      CoordXMatches(cols, vp.cols, vp.viewportWidthPx, vp.transforms.colMainX, vp.scrollLeftPx, a.colIndex);
    }
  }

  /** For a header band starting at row 0 and a body placed at its extent, the Y rule is the engine's. */
  lemma CoordYMatches(rows: seq<real>, header: Slice, rowBodyY: real, scrollTop: real, row: int)
    requires InAxis(header.range, |rows|) && 0 <= row <= |rows|
    requires header.range.IsEmpty() || header.range.start == 0
    requires rowBodyY == Extent(rows, header)
    ensures CoordY(header.range, rowBodyY, scrollTop, row, Offset(rows, row)) == AnchorViewportY(rows, row, header, scrollTop)
  {
  }

  /**
   * For a pinned-start band starting at column 0, a pinned-end band running
   * to the last column and reporting its own offset, and a main band placed
   * at the pinned-start extent, the X rule is the engine's.
   */
  lemma CoordXMatches(cols: seq<real>, bands: ColSlices, vw: real, colMainX: real, scrollLeft: real, col: int)
    requires InAxis(bands.start.range, |cols|) && InAxis(bands.end.range, |cols|) && 0 <= col <= |cols|
    requires bands.start.range.IsEmpty() || bands.start.range.start == 0
    requires !bands.end.range.IsEmpty() ==> bands.end.range.end == |cols| - 1 && col < |cols|
    requires colMainX == Extent(cols, bands.start)
    ensures CoordX(cols, bands, vw, colMainX, scrollLeft, col, Offset(cols, col))
        == AnchorViewportX(cols, col, bands.start, bands.end, vw, scrollLeft)
  {
  }

  /** Applied to the engine's own anchor, `computeAnchorCoords` changes nothing. */
  lemma AnchorCoordsFixesEngineAnchor(rows: seq<real>, cols: seq<real>, spec: EngineSpec, q: ViewportQuery)
    ensures var vp := Compute(rows, cols, spec, q);
      AnchorInAxes(vp.anchor, |rows|, |cols|) &&
      AnchorCoords(vp, rows, cols, vp.anchor) == Ok(vp.anchor)
  {
    ComputeAnchorCell(rows, cols, spec, q);
    AnchorCoordsMatchEngine(rows, cols, spec, q, Compute(rows, cols, spec, q).anchor);
  }

  // ----- the scroll adjustment after a measurement -----

  /**
   * Which anchor position `reportMeasuredSize` hands to `computeAnchorAdjust`:
   * `AsWritten` is the source's choice, the anchor's viewport Y (or X);
   * `Corrected` is the position from the scroll origin that function expects.
   */
  datatype AnchorRule = AsWritten | Corrected

  /**
   * The position `reportMeasuredSize` passes to `computeAnchorAdjust` as
   * written: the anchor's viewport Y (or X), which includes the header band
   * (or the pinned-start band) in front of the scrolled content.
   */
  function AnchorInputAsWritten(before: ViewportModel, axis: AxisKind, q: ViewportQuery): AnchorAdjustInput
  {
    if axis == Row then AnchorAdjustInput(Finite(before.anchor.rowIndex as real), before.anchor.viewportY, q.scrollTopPx)
    else AnchorAdjustInput(Finite(before.anchor.colIndex as real), before.anchor.viewportX, q.scrollLeftPx)
  }

  /**
   * The position `computeAnchorAdjust` expects: `offset(anchor) - scroll`,
   * the anchor's place relative to the scroll origin.
   */
  function AnchorInput(rows: seq<real>, cols: seq<real>, before: ViewportModel, axis: AxisKind, q: ViewportQuery): AnchorAdjustInput
    requires AnchorInAxes(before.anchor, |rows|, |cols|)
  {
    if axis == Row then
      AnchorAdjustInput(Finite(before.anchor.rowIndex as real), Offset(rows, before.anchor.rowIndex) - before.scrollTopPx, q.scrollTopPx)
    else
      AnchorAdjustInput(Finite(before.anchor.colIndex as real), Offset(cols, before.anchor.colIndex) - before.scrollLeftPx, q.scrollLeftPx)
  }

  /** The adjustment input under `rule`. */
  function AnchorInputBy(rule: AnchorRule, rows: seq<real>, cols: seq<real>, before: ViewportModel, axis: AxisKind, q: ViewportQuery): AnchorAdjustInput
    requires AnchorInAxes(before.anchor, |rows|, |cols|)
  {
    match rule
    case AsWritten => AnchorInputAsWritten(before, axis, q)
    case Corrected => AnchorInput(rows, cols, before, axis, q)
  }

  /** The result of a report together with the axes' new sizes and the new preferred anchor. */
  datatype Reported = Reported(result: ReportResult, rows: seq<real>, cols: seq<real>, preferred: Option<Anchor>)

  /**
   * `reportMeasuredSize` under `rule`: snapshot the anchor, apply the
   * measurement to the reported axis, and when a size changed remember the
   * anchor and move only that axis's scroll offset by `computeAnchorAdjust`.
   */
  function ReportStepBy(rule: AnchorRule, rows: seq<real>, cols: seq<real>, rowKind: AxisKind, colKind: AxisKind, spec: EngineSpec,
                        report: MeasureReport, q: ViewportQuery, preferred: Option<Anchor>): Result<Reported, GridError>
  {
    var before := Compute(rows, cols, spec, q);
    var measured := if report.axis == Row then Measure(rows, rowKind, report) else Measure(cols, colKind, report);
    match measured
    case Err(e) => Err(e)
    case Ok(m) =>
      if !m.outcome.changed then Ok(Reported(ReportResult(false, q), rows, cols, preferred))
      else
        AnchorCoordsFixesEngineAnchor(rows, cols, spec, q);
        var input := AnchorInputBy(rule, rows, cols, before, report.axis, q);
        var adjusted := AnchorAdjust(m.sizes, input);
        match adjusted
        case Err(e) => Err(e)
        case Ok(adj) =>
          if report.axis == Row then
            Ok(Reported(ReportResult(true, q.(scrollTopPx := adj.nextScrollOffsetPx)), m.sizes, cols, Some(before.anchor)))
          else
            Ok(Reported(ReportResult(true, q.(scrollLeftPx := adj.nextScrollOffsetPx)), rows, m.sizes, Some(before.anchor)))
  }

  /** `reportMeasuredSize` as the source has it: the step the kernel takes. */
  function ReportStep(rows: seq<real>, cols: seq<real>, rowKind: AxisKind, colKind: AxisKind, spec: EngineSpec,
                      report: MeasureReport, q: ViewportQuery, preferred: Option<Anchor>): Result<Reported, GridError>
  {
    ReportStepBy(AsWritten, rows, cols, rowKind, colKind, spec, report, q, preferred)
  }

  /** `reportMeasuredSize` with the anchor measured from the scroll origin. */
  function ReportStepCorrected(rows: seq<real>, cols: seq<real>, rowKind: AxisKind, colKind: AxisKind, spec: EngineSpec,
                               report: MeasureReport, q: ViewportQuery, preferred: Option<Anchor>): Result<Reported, GridError>
  {
    ReportStepBy(Corrected, rows, cols, rowKind, colKind, spec, report, q, preferred)
  }

  /** Under either rule, a report fails exactly when the reported axis rejects the measurement, with its error. */
  lemma ReportFailsOnlyOnBadMeasure(rule: AnchorRule, rows: seq<real>, cols: seq<real>, rowKind: AxisKind, colKind: AxisKind, spec: EngineSpec,
                                    report: MeasureReport, q: ViewportQuery, preferred: Option<Anchor>)
    ensures var measured := if report.axis == Row then Measure(rows, rowKind, report) else Measure(cols, colKind, report);
      var st := ReportStepBy(rule, rows, cols, rowKind, colKind, spec, report, q, preferred);
      (st.Err? <==> measured.Err?) && (st.Err? ==> st.error == measured.error)
  {
    var measured := if report.axis == Row then Measure(rows, rowKind, report) else Measure(cols, colKind, report);
    if measured.Ok? {
      AnchorCoordsFixesEngineAnchor(rows, cols, spec, q);
      MeasureSpec(if report.axis == Row then rows else cols, if report.axis == Row then rowKind else colKind, report);
    }
  }

  /**
   * Under either rule, a changing measurement always gets an adjustment (the
   * anchor of the query before it lies in the axes), and the step takes the
   * adjusted offset as the reported axis's next scroll offset.
   */
  lemma ReportStepChanged(rule: AnchorRule, rows: seq<real>, cols: seq<real>, rowKind: AxisKind, colKind: AxisKind, spec: EngineSpec,
                          report: MeasureReport, q: ViewportQuery, preferred: Option<Anchor>)
    requires var measured := if report.axis == Row then Measure(rows, rowKind, report) else Measure(cols, colKind, report);
      measured.Ok? && measured.value.outcome.changed
    ensures var before := Compute(rows, cols, spec, q);
      var m := (if report.axis == Row then Measure(rows, rowKind, report) else Measure(cols, colKind, report)).value;
      AnchorInAxes(before.anchor, |rows|, |cols|) &&
      var adj := AnchorAdjust(m.sizes, AnchorInputBy(rule, rows, cols, before, report.axis, q));
      adj.Ok? &&
      ReportStepBy(rule, rows, cols, rowKind, colKind, spec, report, q, preferred) ==
        if report.axis == Row then
          Ok(Reported(ReportResult(true, q.(scrollTopPx := adj.value.nextScrollOffsetPx)), m.sizes, cols, Some(before.anchor)))
        else
          Ok(Reported(ReportResult(true, q.(scrollLeftPx := adj.value.nextScrollOffsetPx)), rows, m.sizes, Some(before.anchor)))
  {
    AnchorCoordsFixesEngineAnchor(rows, cols, spec, q);
    ReportFailsOnlyOnBadMeasure(rule, rows, cols, rowKind, colKind, spec, report, q, preferred);
    MeasureSpec(if report.axis == Row then rows else cols, if report.axis == Row then rowKind else colKind, report);
  }

  /**
   * Under either rule, an unchanged measurement answers `changed = false`
   * with the current query and leaves sizes and the preferred anchor alone;
   * a changing one stores the anchor of the query before the change, and
   * replaces only the reported axis's sizes and scroll offset (viewport size,
   * overscan and the other offset are copied).
   */
  lemma ReportOutcome(rule: AnchorRule, rows: seq<real>, cols: seq<real>, rowKind: AxisKind, colKind: AxisKind, spec: EngineSpec,
                      report: MeasureReport, q: ViewportQuery, preferred: Option<Anchor>)
    requires ReportStepBy(rule, rows, cols, rowKind, colKind, spec, report, q, preferred).Ok?
    ensures var measured := if report.axis == Row then Measure(rows, rowKind, report) else Measure(cols, colKind, report);
      var st := ReportStepBy(rule, rows, cols, rowKind, colKind, spec, report, q, preferred).value;
      var next := st.result.nextQuery;
      measured.Ok? && st.result.changed == measured.value.outcome.changed &&
      (!st.result.changed ==> st == Reported(ReportResult(false, q), rows, cols, preferred)) &&
      (st.result.changed ==>
        st.preferred == Some(Compute(rows, cols, spec, q).anchor) &&
        next.viewportWidthPx == q.viewportWidthPx && next.viewportHeightPx == q.viewportHeightPx &&
        next.overscan == q.overscan &&
        (report.axis == Row ==> st.rows == measured.value.sizes && st.cols == cols && next.scrollLeftPx == q.scrollLeftPx) &&
        (report.axis == Col ==> st.cols == measured.value.sizes && st.rows == rows && next.scrollTopPx == q.scrollTopPx))
  {
  }

  /**
   * As written, the anchor's viewport Y (which includes the header band) is
   * used as its position from the scroll origin: for a body-row anchor it is
   * larger than `offset(anchor) - scrollTop` by exactly the header height.
   */
  lemma AsWrittenCountsHeaderBand(rows: seq<real>, cols: seq<real>, spec: EngineSpec, q: ViewportQuery)
    requires !Compute(rows, cols, spec, q).rows.body.range.IsEmpty()
    ensures var before := Compute(rows, cols, spec, q);
      AnchorInAxes(before.anchor, |rows|, |cols|) &&
      AnchorInputAsWritten(before, Row, q).anchorViewportPosPx
        == AnchorInput(rows, cols, before, Row, q).anchorViewportPosPx + before.transforms.rowBodyY
  {
    ComputeAnchorCell(rows, cols, spec, q);
    ComputeHeader(rows, cols, spec, q);
    ComputeBody(rows, cols, spec, q);
  }

  /** A row report that changes a row (header or body) above a body-row anchor. */
  predicate RowReportBeforeAnchor(rows: seq<real>, cols: seq<real>, rowKind: AxisKind, spec: EngineSpec, report: MeasureReport, q: ViewportQuery)
  {
    var before := Compute(rows, cols, spec, q);
    report.axis == Row && Measure(rows, rowKind, report).Ok? &&
    Measure(rows, rowKind, report).value.outcome.changed &&
    !before.rows.body.range.IsEmpty() &&
    IndexOf(report.index, |rows|) < before.anchor.rowIndex
  }

  /**
   * The hypotheses under which the anchor should not move on screen: a row
   * report that changes a body row above a body-row anchor.
   */
  predicate RowReportAboveAnchor(rows: seq<real>, cols: seq<real>, rowKind: AxisKind, spec: EngineSpec, report: MeasureReport, q: ViewportQuery)
  {
    RowReportBeforeAnchor(rows, cols, rowKind, spec, report, q) &&
    MinInt(|rows|, MaxInt(0, spec.headerRowCount)) <= IndexOf(report.index, |rows|)
  }

  /** `next` is a scroll offset the engine keeps as is for the measured rows. */
  predicate Unclamped(rows: seq<real>, q: ViewportQuery, next: real)
  {
    0.0 < next <= Total(rows) - Max(0.0, q.viewportHeightPx)
  }

  /**
   * A row report that changes a row above a body-row anchor succeeds, stores
   * the anchor of the query before the change, takes the measured rows and
   * moves the scroll top by the size change `d` (floored at 0). Corrected,
   * that is `scrollTop + d`; as written, the header height `rowBodyY` is
   * taken off as well.
   */
  lemma ReportRowStep(rule: AnchorRule, rows: seq<real>, cols: seq<real>, rowKind: AxisKind, colKind: AxisKind, spec: EngineSpec,
                      report: MeasureReport, q: ViewportQuery, preferred: Option<Anchor>)
    requires RowReportBeforeAnchor(rows, cols, rowKind, spec, report, q)
    ensures var before := Compute(rows, cols, spec, q);
      var m := Measure(rows, rowKind, report).value;
      var d := m.outcome.nextSizePx - m.outcome.prevSizePx;
      var lost := if rule == AsWritten then before.transforms.rowBodyY else 0.0;
      |m.sizes| == |rows| &&
      ReportStepBy(rule, rows, cols, rowKind, colKind, spec, report, q, preferred)
        == Ok(Reported(ReportResult(true, q.(scrollTopPx := Max(0.0, before.scrollTopPx + d - lost))),
                       m.sizes, cols, Some(before.anchor)))
  {
    var before := Compute(rows, cols, spec, q);
    var a := before.anchor.rowIndex;
    AnchorCoordsFixesEngineAnchor(rows, cols, spec, q);
    var pos := AnchorInputBy(rule, rows, cols, before, Row, q).anchorViewportPosPx;
    assert pos == Offset(rows, a) - before.scrollTopPx + (if rule == AsWritten then before.transforms.rowBodyY else 0.0) by {
      AsWrittenCountsHeaderBand(rows, cols, spec, q);
    }
    AnchorMovesWithMeasure(rows, cols, rowKind, spec, report, q, pos);
    assert AnchorInputBy(rule, rows, cols, before, Row, q) == AnchorAdjustInput(Finite(a as real), pos, q.scrollTopPx);
  }

  /**
   * Changing row sizes (not their number) and the scroll top leaves the
   * column bands, the viewport width, the horizontal scroll and the header
   * band as they were; the body band keeps its Y when the header rows keep
   * their total height.
   */
  lemma RowChangeKeepsColumns(rows: seq<real>, rows': seq<real>, cols: seq<real>, spec: EngineSpec, q: ViewportQuery, top: real)
    requires |rows'| == |rows|
    requires var hc := MinInt(|rows|, MaxInt(0, spec.headerRowCount)); Offset(rows', hc) == Offset(rows, hc)
    ensures var before := Compute(rows, cols, spec, q);
      var after := Compute(rows', cols, spec, q.(scrollTopPx := top));
      after.cols == before.cols && after.viewportWidthPx == before.viewportWidthPx &&
      after.scrollLeftPx == before.scrollLeftPx && after.transforms.colMainX == before.transforms.colMainX &&
      after.rows.header == before.rows.header && after.transforms.rowBodyY == before.transforms.rowBodyY
  {
    ComputeHeader(rows, cols, spec, q);
    ComputeHeader(rows', cols, spec, q.(scrollTopPx := top));
  }

  /**
   * New row sizes that keep the row count and the header height, followed by
   * a query at a scroll top `top` that the engine does not clamp, move a
   * body-row anchor on screen to `y`, its old viewport Y plus the change of its position relative
   * to the scroll origin.
   */
  lemma AnchorLandsAt(rows: seq<real>, rows': seq<real>, cols: seq<real>, spec: EngineSpec, q: ViewportQuery, top: real, y: real)
    requires |rows'| == |rows|
    requires var hc := MinInt(|rows|, MaxInt(0, spec.headerRowCount)); Offset(rows', hc) == Offset(rows, hc)
    requires !Compute(rows, cols, spec, q).rows.body.range.IsEmpty()
    requires Unclamped(rows', q, top)
    requires var before := Compute(rows, cols, spec, q);
      var a := before.anchor.rowIndex;
      0 <= a < |rows| && y == before.anchor.viewportY + ((Offset(rows', a) - top) - (Offset(rows, a) - before.scrollTopPx))
    ensures var before := Compute(rows, cols, spec, q);
      PlacedAt(Compute(rows', cols, spec, q.(scrollTopPx := top)), rows', cols, before.anchor, y)
  {
    var before := Compute(rows, cols, spec, q);
    var next := q.(scrollTopPx := top);
    var after := Compute(rows', cols, spec, next);
    assert after.scrollTopPx == top by {
      ComputeClampsScroll(rows', cols, spec, next);
    }
    RowChangeKeepsColumns(rows, rows', cols, spec, q, top);
    assert InBody(before.rows.header.range, before.anchor.rowIndex) &&
           AnchorCoords(before, rows, cols, before.anchor) == Ok(before.anchor) by {
      AnchorCoordsFixesEngineAnchor(rows, cols, spec, q);
      ComputeAnchorCell(rows, cols, spec, q);
      ComputeHeader(rows, cols, spec, q);
      ComputeBody(rows, cols, spec, q);
    }
    BodyAnchorFollowsScroll(before, after, rows, rows', cols, before.anchor, y);
  }

  /**
   * Corrected: when a body row above a body-row anchor is remeasured and the
   * recommended scroll top is not clamped, the next query puts the preferred
   * anchor exactly where it was on screen.
   */
  lemma ReportKeepsAnchorOnScreen(rows: seq<real>, cols: seq<real>, rowKind: AxisKind, colKind: AxisKind, spec: EngineSpec,
                                  report: MeasureReport, q: ViewportQuery, preferred: Option<Anchor>)
    requires RowReportAboveAnchor(rows, cols, rowKind, spec, report, q)
    requires var st := ReportStepCorrected(rows, cols, rowKind, colKind, spec, report, q, preferred);
      st.Ok? && Unclamped(st.value.rows, q, st.value.result.nextQuery.scrollTopPx)
    ensures var before := Compute(rows, cols, spec, q);
      var st := ReportStepCorrected(rows, cols, rowKind, colKind, spec, report, q, preferred).value;
      st.preferred == Some(before.anchor) &&
      PlacedAt(Compute(st.rows, cols, spec, st.result.nextQuery), st.rows, cols, before.anchor, before.anchor.viewportY)
  {
    RowReportLands(Corrected, rows, cols, rowKind, colKind, spec, report, q, preferred);
  }

  /**
   * As written, the same report scrolls too little by the header height: on
   * the next query the preferred anchor lands `rowBodyY` lower than it was.
   */
  lemma AsWrittenShiftsAnchor(rows: seq<real>, cols: seq<real>, rowKind: AxisKind, colKind: AxisKind, spec: EngineSpec,
                              report: MeasureReport, q: ViewportQuery, preferred: Option<Anchor>)
    requires RowReportAboveAnchor(rows, cols, rowKind, spec, report, q)
    requires var st := ReportStep(rows, cols, rowKind, colKind, spec, report, q, preferred);
      st.Ok? && Unclamped(st.value.rows, q, st.value.result.nextQuery.scrollTopPx)
    ensures var before := Compute(rows, cols, spec, q);
      var st := ReportStep(rows, cols, rowKind, colKind, spec, report, q, preferred).value;
      st.preferred == Some(before.anchor) &&
      PlacedAt(Compute(st.rows, cols, spec, st.result.nextQuery), st.rows, cols, before.anchor,
               before.anchor.viewportY + before.transforms.rowBodyY)
  {
    RowReportLands(AsWritten, rows, cols, rowKind, colKind, spec, report, q, preferred);
  }

  /**
   * Under `rule`, a body row above a body-row anchor is remeasured and the
   * recommended scroll top is not clamped: the next query places the
   * preferred anchor at its old viewport Y plus the part of the header
   * height the rule takes off.
   */
  lemma RowReportLands(rule: AnchorRule, rows: seq<real>, cols: seq<real>, rowKind: AxisKind, colKind: AxisKind, spec: EngineSpec,
                       report: MeasureReport, q: ViewportQuery, preferred: Option<Anchor>)
    requires RowReportAboveAnchor(rows, cols, rowKind, spec, report, q)
    requires var st := ReportStepBy(rule, rows, cols, rowKind, colKind, spec, report, q, preferred);
      st.Ok? && Unclamped(st.value.rows, q, st.value.result.nextQuery.scrollTopPx)
    ensures var before := Compute(rows, cols, spec, q);
      var st := ReportStepBy(rule, rows, cols, rowKind, colKind, spec, report, q, preferred).value;
      var lost := if rule == AsWritten then before.transforms.rowBodyY else 0.0;
      st.preferred == Some(before.anchor) &&
      PlacedAt(Compute(st.rows, cols, spec, st.result.nextQuery), st.rows, cols, before.anchor, before.anchor.viewportY + lost)
  {
    var before := Compute(rows, cols, spec, q);
    var a := before.anchor.rowIndex;
    var m := Measure(rows, rowKind, report).value;
    ReportRowStep(rule, rows, cols, rowKind, colKind, spec, report, q, preferred);
    AnchorMovesWithMeasure(rows, cols, rowKind, spec, report, q, Offset(rows, a) - before.scrollTopPx);
    var st := ReportStepBy(rule, rows, cols, rowKind, colKind, spec, report, q, preferred).value;
    var top := st.result.nextQuery.scrollTopPx;
    var lost := if rule == AsWritten then before.transforms.rowBodyY else 0.0;
    AnchorLandsAt(rows, m.sizes, cols, spec, q, top, before.anchor.viewportY + lost);
    assert st.result.nextQuery == q.(scrollTopPx := top);
  }

  /**
   * The common arithmetic of both rules: a row above a body-row anchor grows
   * by `d`, so the anchor's offset and the adjusted scroll both move by `d`;
   * when it is a body row the header band keeps its height.
   */
  lemma AnchorMovesWithMeasure(rows: seq<real>, cols: seq<real>, rowKind: AxisKind, spec: EngineSpec,
                               report: MeasureReport, q: ViewportQuery, pos: real)
    requires RowReportBeforeAnchor(rows, cols, rowKind, spec, report, q)
    ensures var before := Compute(rows, cols, spec, q);
      var m := Measure(rows, rowKind, report).value;
      var a := before.anchor.rowIndex;
      var hc := MinInt(|rows|, MaxInt(0, spec.headerRowCount));
      var input := AnchorAdjustInput(Finite(a as real), pos, q.scrollTopPx);
      0 <= a < |rows| && |m.sizes| == |rows| && hc <= |rows| &&
      Offset(m.sizes, a) == Offset(rows, a) + (m.outcome.nextSizePx - m.outcome.prevSizePx) &&
      (hc <= IndexOf(report.index, |rows|) ==> Offset(m.sizes, hc) == Offset(rows, hc)) &&
      AnchorAdjust(m.sizes, input).Ok? &&
      AnchorAdjust(m.sizes, input).value.nextScrollOffsetPx == Max(0.0, Offset(m.sizes, a) - pos)
  {
    var before := Compute(rows, cols, spec, q);
    ComputeAnchorCell(rows, cols, spec, q);
    ComputeBody(rows, cols, spec, q);
    var hc := MinInt(|rows|, MaxInt(0, spec.headerRowCount));
    MeasureShiftsOffsets(rows, rowKind, report, before.anchor.rowIndex);
    MeasureShiftsOffsets(rows, rowKind, report, hc);
  }

  /**
   * The kernel's own test: a header row grows while the body is scrolled to
   * a place the engine keeps. Then the report changes something, the
   * recommended scroll top does not go back, and the next query keeps the
   * anchor row. Corrected this holds for any growth; as written only when
   * the growth is at least the header height.
   */
  lemma HeaderGrowthKeepsAnchorRow(rule: AnchorRule, rows: seq<real>, cols: seq<real>, rowKind: AxisKind, colKind: AxisKind,
                                   spec: EngineSpec, report: MeasureReport, q: ViewportQuery, preferred: Option<Anchor>)
    requires report.axis == Row && Measure(rows, rowKind, report).Ok? && Measure(rows, rowKind, report).value.outcome.changed
    requires IndexOf(report.index, |rows|) < MinInt(|rows|, MaxInt(0, spec.headerRowCount)) < |rows|
    requires 0.0 <= q.scrollTopPx <= Total(rows) - Max(0.0, q.viewportHeightPx)
    requires var m := Measure(rows, rowKind, report).value;
      m.outcome.nextSizePx - m.outcome.prevSizePx >=
        (if rule == AsWritten then Compute(rows, cols, spec, q).transforms.rowBodyY else 0.0)
    ensures var before := Compute(rows, cols, spec, q);
      var st := ReportStepBy(rule, rows, cols, rowKind, colKind, spec, report, q, preferred);
      st.Ok? && st.value.result.changed && st.value.result.nextQuery.scrollTopPx >= q.scrollTopPx &&
      st.value.preferred == Some(before.anchor) &&
      AnchorInAxes(before.anchor, |st.value.rows|, |st.value.cols|) &&
      QueryModel(st.value.rows, st.value.cols, spec, st.value.result.nextQuery, st.value.preferred).anchor.rowIndex
        == before.anchor.rowIndex
  {
    var before := Compute(rows, cols, spec, q);
    ComputeAnchorCell(rows, cols, spec, q);
    ComputeBody(rows, cols, spec, q);
    ComputeClampsScroll(rows, cols, spec, q);
    assert RowReportBeforeAnchor(rows, cols, rowKind, spec, report, q);
    ReportRowStep(rule, rows, cols, rowKind, colKind, spec, report, q, preferred);
    AnchorCoordsFixesEngineAnchor(rows, cols, spec, q);
  }


  /** Row `row` lies past the header range. */
  predicate InBody(header: AxisRange, row: int)
  {
    !(header.end >= header.start && row >= header.start && row <= header.end)
  }

  /**
   * Under two models that agree on everything but the scroll top, a body-row
   * cell placed by `computeAnchorCoords` moves to `y`, its old Y plus the change of its
   * position relative to the scroll origin, and nothing else moves.
   */
  lemma BodyAnchorFollowsScroll(vp: ViewportModel, vp': ViewportModel, rows: seq<real>, rows': seq<real>, cols: seq<real>, a: Anchor,
                                 y: real)
    requires WellFormed(vp, |rows|, |cols|) && WellFormed(vp', |rows'|, |cols|)
    requires vp'.cols == vp.cols && vp'.viewportWidthPx == vp.viewportWidthPx && vp'.scrollLeftPx == vp.scrollLeftPx &&
             vp'.transforms.colMainX == vp.transforms.colMainX && vp'.rows.header == vp.rows.header &&
             vp'.transforms.rowBodyY == vp.transforms.rowBodyY
    requires |rows'| == |rows| && 0 <= a.rowIndex < |rows| && InBody(vp.rows.header.range, a.rowIndex)
    requires AnchorCoords(vp, rows, cols, a) == Ok(a)
    requires y == a.viewportY + ((Offset(rows', a.rowIndex) - vp'.scrollTopPx) - (Offset(rows, a.rowIndex) - vp.scrollTopPx))
    ensures PlacedAt(vp', rows', cols, a, y)
  {
  }

  /** Under `vp`, `computeAnchorCoords` keeps cell `a` and places it at viewport Y `y`. */
  predicate PlacedAt(vp: ViewportModel, rows: seq<real>, cols: seq<real>, a: Anchor, y: real)
  {
    WellFormed(vp, |rows|, |cols|) && AnchorCoords(vp, rows, cols, a) == Ok(a.(viewportY := y))
  }

  // ----- the kernel -----

  /**
   * The model a query answers: the engine's model, with the anchor replaced
   * by the pending preferred anchor placed under that model, when there is one.
   */
  function QueryModel(rows: seq<real>, cols: seq<real>, spec: EngineSpec, q: ViewportQuery, preferred: Option<Anchor>): (vp: ViewportModel)
    requires preferred.Some? ==> AnchorInAxes(preferred.value, |rows|, |cols|)
    ensures WellFormed(vp, |rows|, |cols|)
    ensures preferred.None? ==> vp == Compute(rows, cols, spec, q)
    ensures preferred.Some? ==>
      AnchorCoords(Compute(rows, cols, spec, q), rows, cols, preferred.value).Ok? &&
      vp == Compute(rows, cols, spec, q).(anchor := AnchorCoords(Compute(rows, cols, spec, q), rows, cols, preferred.value).value)
  {
    var base := Compute(rows, cols, spec, q);
    if preferred.None? then base
    else base.(anchor := AnchorCoords(base, rows, cols, preferred.value).value)
  }
}
