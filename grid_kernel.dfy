/**
 * The grid kernel: the viewport engine and the view-model builder over two
 * measured axes, plus a one-shot preferred anchor that keeps the anchor cell
 * in place for the query that follows a measurement.
 */
module GridKernel {
  import opened Wrappers
  import opened ContractsMath
  import opened ContractsModel
  import opened PrefixSums
  import opened AxisModel
  import opened MeasuredAxis
  import opened ViewportModel
  import opened ViewportEngine
  import opened CellLayout
  import opened ViewModelBuilder
  import opened KernelModel

  /** `createGridKernel`. */
  class Kernel {
    const rows: Axis
    const cols: Axis
    const spec: EngineSpec
    const builder: Builder
    /** The one-shot anchor identity set by a changing measurement and consumed by the next query. */
    var preferredAnchor: Option<Anchor>

    ghost predicate Valid()
      reads this, rows, rows.sizes, rows.fenwick, rows.fenwick.bit, cols, cols.sizes, cols.fenwick, cols.fenwick.bit
    {
      rows.Valid() && cols.Valid() && rows.Footprint() !! cols.Footprint() &&
      builder.rows == rows && builder.cols == cols &&
      (preferredAnchor.Some? ==> AnchorInAxes(preferredAnchor.value, rows.count, cols.count))
    }

    constructor(rows: Axis, cols: Axis, headerRowCount: int, pinnedColStartCount: int, pinnedColEndCount: int)
      requires rows.Valid() && cols.Valid() && rows.Footprint() !! cols.Footprint()
      ensures Valid() && preferredAnchor.None?
      ensures this.rows == rows && this.cols == cols
      ensures spec == EngineSpec(headerRowCount, pinnedColStartCount, pinnedColEndCount)
    {
      this.rows := rows;
      this.cols := cols;
      this.spec := EngineSpec(headerRowCount, pinnedColStartCount, pinnedColEndCount);
      this.builder := new Builder(rows, cols);
      this.preferredAnchor := None;
    }

    /**
     * `queryViewport`: the engine's model, with a pending preferred anchor
     * re-placed under it (and then cleared), and the cells built from it.
     */
    method QueryViewport(query: ViewportQuery) returns (viewport: ViewportModel, viewModel: ViewModel)
      requires Valid()
      modifies this
      ensures Valid() && preferredAnchor.None?
      ensures viewport == QueryModel(rows.Sizes(), cols.Sizes(), spec, query, old(preferredAnchor))
      ensures WellFormed(viewport, rows.count, cols.count)
      ensures viewModel.cells == Cells(rows.Sizes(), cols.Sizes(), viewport)
      ensures viewModel.stats == StatsOf(viewModel.cells)
    {
      var rs := rows.sizes[..];
      var cs := cols.sizes[..];
      viewport := QueryModel(rs, cs, spec, query, preferredAnchor);
      viewModel := builder.Build(viewport);
      preferredAnchor := None;
    }

    /**
     * `reportMeasuredSize`: the step `ReportStep` describes, applied to the
     * axes and the preferred-anchor slot.
     */
    method ReportMeasuredSize(report: MeasureReport, currentQuery: ViewportQuery) returns (r: Result<ReportResult, GridError>)
      requires Valid()
      modifies this, rows.sizes, rows.fenwick, rows.fenwick.bit, cols.sizes, cols.fenwick, cols.fenwick.bit
      ensures Valid()
      ensures match ReportStep(old(rows.Sizes()), old(cols.Sizes()), rows.kind, cols.kind, spec, report, currentQuery, old(preferredAnchor))
        case Err(e) =>
          r == Err(e) && rows.Sizes() == old(rows.Sizes()) && cols.Sizes() == old(cols.Sizes()) &&
          preferredAnchor == old(preferredAnchor)
        case Ok(st) =>
          r == Ok(st.result) && rows.Sizes() == st.rows && cols.Sizes() == st.cols && preferredAnchor == st.preferred
    {
      ghost var rs0, cs0, pa0 := rows.Sizes(), cols.Sizes(), preferredAnchor;
      var before := Compute(rows.sizes[..], cols.sizes[..], spec, currentQuery);
      AnchorCoordsFixesEngineAnchor(rs0, cs0, spec, currentQuery);
      var input := AnchorInputAsWritten(before, report.axis, currentQuery);
      ReportFailsOnlyOnBadMeasure(AsWritten, rs0, cs0, rows.kind, cols.kind, spec, report, currentQuery, pa0);
      ghost var measured := if report.axis == Row then Measure(rs0, rows.kind, report) else Measure(cs0, cols.kind, report);
      if measured.Ok? && measured.value.outcome.changed {
        ReportStepChanged(AsWritten, rs0, cs0, rows.kind, cols.kind, spec, report, currentQuery, pa0);
      }
      r := ApplyMeasurement(report, currentQuery, before.anchor, input);
    }

    /**
     * The state-changing half of `reportMeasuredSize`: measure the reported
     * axis; when a size changed, store `anchor` as the preferred anchor and
     * answer the query with that axis's scroll offset adjusted by `input`.
     */
    method ApplyMeasurement(report: MeasureReport, q: ViewportQuery, anchor: Anchor, input: AnchorAdjustInput)
      returns (r: Result<ReportResult, GridError>)
      requires Valid() && AnchorInAxes(anchor, rows.count, cols.count)
      modifies this, rows.sizes, rows.fenwick, rows.fenwick.bit, cols.sizes, cols.fenwick, cols.fenwick.bit
      ensures Valid()
      ensures match (if report.axis == Row then Measure(old(rows.Sizes()), rows.kind, report) else Measure(old(cols.Sizes()), cols.kind, report))
        case Err(e) =>
          r == Err(e) && rows.Sizes() == old(rows.Sizes()) && cols.Sizes() == old(cols.Sizes()) &&
          preferredAnchor == old(preferredAnchor)
        case Ok(m) =>
          (report.axis == Row ==> rows.Sizes() == m.sizes && cols.Sizes() == old(cols.Sizes())) &&
          (report.axis == Col ==> cols.Sizes() == m.sizes && rows.Sizes() == old(rows.Sizes())) &&
          (!m.outcome.changed ==> r == Ok(ReportResult(false, q)) && preferredAnchor == old(preferredAnchor)) &&
          (m.outcome.changed ==>
            preferredAnchor == Some(anchor) &&
            (match AnchorAdjust(m.sizes, input)
             case Err(e) => r == Err(e)
             case Ok(adj) =>
               r == Ok(ReportResult(true, if report.axis == Row then q.(scrollTopPx := adj.nextScrollOffsetPx)
                                          else q.(scrollLeftPx := adj.nextScrollOffsetPx)))))
    {
      var measured: Result<MeasureOutcome, GridError>;
      if report.axis == Row {
        measured := rows.ReportMeasuredSize(report);
      } else {
        measured := cols.ReportMeasuredSize(report);
      }
      if measured.Err? {
        return Err(measured.error);
      }
      if !measured.value.changed {
        return Ok(ReportResult(false, q));
      }
      preferredAnchor := Some(anchor);
      var adjusted: Result<AnchorAdjustResult, GridError>;
      if report.axis == Row {
        adjusted := rows.ComputeAnchorAdjust(input);
      } else {
        adjusted := cols.ComputeAnchorAdjust(input);
      }
      if adjusted.Err? {
        return Err(adjusted.error);
      }
      if report.axis == Row {
        return Ok(ReportResult(true, q.(scrollTopPx := adjusted.value.nextScrollOffsetPx)));
      }
      return Ok(ReportResult(true, q.(scrollLeftPx := adjusted.value.nextScrollOffsetPx)));
    }
  }
}
