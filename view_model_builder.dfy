/**
 * The view-model builder: walks the visible row slices and column bands of
 * a viewport model over two measured axes and emits the cells `CellLayout`
 * describes.
 */
module ViewModelBuilder {
  import opened ContractsModel
  import opened AxisModel
  import opened ViewportModel
  import opened MeasuredAxis
  import opened CellLayout

  // ----- the builder -----

  /** `createViewModelBuilder`: a builder bound to the row and column axes. */
  class Builder {
    const rows: Axis
    const cols: Axis

    constructor(rows: Axis, cols: Axis)
      ensures this.rows == rows && this.cols == cols
    {
      this.rows := rows;
      this.cols := cols;
    }

    /** `build`: header rows then body rows, each row band by band. */
    method Build(vp: ViewportModel) returns (vm: ViewModel)
      requires rows.Valid() && cols.Valid() && WellFormed(vp, rows.count, cols.count)
      ensures vm.cells == Cells(rows.Sizes(), cols.Sizes(), vp)
      ensures vm.stats == StatsOf(vm.cells)
    {
      var cells := EmitRows(vp, true, []);
      cells := EmitRows(vp, false, cells);
      vm := ViewModel(cells, StatsOf(cells));
    }

    /** The outer `iter` over one row slice. */
    method EmitRows(vp: ViewportModel, header: bool, cells: seq<CellVM>) returns (out: seq<CellVM>)
      requires rows.Valid() && cols.Valid() && WellFormed(vp, rows.count, cols.count)
      ensures out == cells + RowsCells(rows.Sizes(), cols.Sizes(), vp, header, RowRange(vp, header).start, RowRange(vp, header).Size())
    {
      var rg := RowRange(vp, header);
      out := cells;
      if rg.end < rg.start {
        return;
      }
      var ri := rg.start;
      while ri <= rg.end
        invariant rg.start <= ri <= rg.end + 1
        invariant out == cells + RowsCells(rows.Sizes(), cols.Sizes(), vp, header, rg.start, ri - rg.start)
      {
        RowsCellsExtend(rows.Sizes(), cols.Sizes(), vp, header, rg.start, ri - rg.start);
        out := EmitRow(vp, header, ri, out);
        ri := ri + 1;
      }
    }

    /** One row: its Y, then its pinned-start, main and pinned-end cells. */
    method EmitRow(vp: ViewportModel, header: bool, ri: int, cells: seq<CellVM>) returns (out: seq<CellVM>)
      requires rows.Valid() && cols.Valid() && WellFormed(vp, rows.count, cols.count) && 0 <= ri < rows.count
      ensures out == cells + RowCells(rows.Sizes(), cols.Sizes(), vp, header, ri)
    {
      var rowOffset := rows.GetOffsetPx(ri);
      var y := if header then vp.transforms.rowHeaderY + rowOffset.value
               else vp.transforms.rowBodyY + (rowOffset.value - vp.scrollTopPx);
      out := EmitBand(vp, header, ri, y, StartBand, cells);
      out := EmitBand(vp, header, ri, y, MainBand, out);
      out := EmitBand(vp, header, ri, y, EndBand, out);
    }

    /** The inner `iter` over one column band of row `ri`, pushing one cell per column. */
    method EmitBand(vp: ViewportModel, header: bool, ri: int, y: real, band: Band, cells: seq<CellVM>) returns (out: seq<CellVM>)
      requires rows.Valid() && cols.Valid() && WellFormed(vp, rows.count, cols.count)
      requires 0 <= ri < rows.count && y == CellY(rows.Sizes(), vp, header, ri)
      ensures out == cells + BandCells(rows.Sizes(), cols.Sizes(), vp, header, ri, band)
    {
      var rg := BandRange(vp, band);
      out := cells;
      if rg.end < rg.start {
        return;
      }
      var ci := rg.start;
      while ci <= rg.end
        invariant rg.start <= ci <= rg.end + 1
        invariant out == cells + BandCells(rows.Sizes(), cols.Sizes(), vp, header, ri, band)[..ci - rg.start]
      {
        var colOffset := cols.GetOffsetPx(ci);
        var x: real;
        match band {
          case StartBand =>
            x := vp.transforms.colPinnedStartX + colOffset.value;
          case MainBand =>
            x := vp.transforms.colMainX + (colOffset.value - vp.scrollLeftPx);
          case EndBand =>
            var endStartOffset := cols.GetOffsetPx(vp.cols.end.range.start);
            x := vp.transforms.colPinnedEndX + (colOffset.value - endStartOffset.value);
        }
        var width := cols.GetSizePx(ci);
        var height := rows.GetSizePx(ri);
        ghost var rs, cs := rows.Sizes(), cols.Sizes();
        assert x == CellX(cs, vp, band, ci);
        assert width.value == cs[ci] && height.value == rs[ri];
        BandCellsExtend(rs, cs, vp, header, ri, band, ci);
        out := out + [CellVM(ri, ci, KindOf(header, band), x, y, width.value, height.value)];
        ci := ci + 1;
      }
    }
  }
}
