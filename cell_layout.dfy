/**
 * The cell layout the view-model builder produces: a flat list of cell
 * rectangles in viewport coordinates, one per (row, column) of the visible
 * row slices and column bands, plus per-layer counts.
 */
module CellLayout {
  import opened ContractsModel
  import opened AxisModel
  import opened ViewportModel

  /** One rectangle to draw. */
  datatype CellVM = CellVM(rowIndex: int, colIndex: int, kind: CellKind, x: real, y: real, width: real, height: real)

  datatype Stats = Stats(bodyCellCount: nat, headerCellCount: nat, pinnedStartCellCount: nat, pinnedEndCellCount: nat)

  datatype ViewModel = ViewModel(cells: seq<CellVM>, stats: Stats)

  /** The three column bands, in the order cells are emitted within a row. */
  datatype Band = StartBand | MainBand | EndBand

  // ----- the layout the builder produces -----

  function BandRange(vp: ViewportModel, band: Band): AxisRange
  {
    match band
    case StartBand => vp.cols.start.range
    case MainBand => vp.cols.main.range
    case EndBand => vp.cols.end.range
  }

  /** Header rows when `header`, body rows otherwise. */
  function RowRange(vp: ViewportModel, header: bool): AxisRange
  {
    if header then vp.rows.header.range else vp.rows.body.range
  }

  /** The layer of a cell from its row slice and its column band. */
  function KindOf(header: bool, band: Band): CellKind
  {
    match band
    case StartBand => if header then CornerStart else PinnedStart
    case MainBand => if header then Header else Body
    case EndBand => if header then CornerEnd else PinnedEnd
  }

  /** Header-row layers: the ones that do not scroll vertically. */
  predicate IsHeaderKind(k: CellKind)
  {
    k == CornerStart || k == Header || k == CornerEnd
  }

  /** Viewport X of column `c` in `band`. */
  function CellX(cols: seq<real>, vp: ViewportModel, band: Band, c: int): real
    requires InAxis(vp.cols.end.range, |cols|)
    requires BandRange(vp, band).Contains(c) && InAxis(BandRange(vp, band), |cols|)
  {
    match band
    case StartBand => vp.transforms.colPinnedStartX + Offset(cols, c)
    case MainBand => vp.transforms.colMainX + (Offset(cols, c) - vp.scrollLeftPx)
    case EndBand => vp.transforms.colPinnedEndX + (Offset(cols, c) - Offset(cols, vp.cols.end.range.start))
  }

  /** Viewport Y of row `r`: sticky in the header, scrolled in the body. */
  function CellY(rows: seq<real>, vp: ViewportModel, header: bool, r: int): real
    requires 0 <= r < |rows|
  {
    if header then vp.transforms.rowHeaderY + Offset(rows, r)
    else vp.transforms.rowBodyY + (Offset(rows, r) - vp.scrollTopPx)
  }

  function MakeCell(rows: seq<real>, cols: seq<real>, vp: ViewportModel, header: bool, r: int, band: Band, c: int): CellVM
    requires WellFormed(vp, |rows|, |cols|) && 0 <= r < |rows| && BandRange(vp, band).Contains(c)
  {
    CellVM(r, c, KindOf(header, band), CellX(cols, vp, band, c), CellY(rows, vp, header, r), cols[c], rows[r])
  }

  /** The cells of row `r` in one band, columns ascending. */
  function BandCells(rows: seq<real>, cols: seq<real>, vp: ViewportModel, header: bool, r: int, band: Band): seq<CellVM>
    requires WellFormed(vp, |rows|, |cols|) && 0 <= r < |rows|
  {
    var rg := BandRange(vp, band);
    seq(rg.Size(), k requires 0 <= k < rg.Size() => MakeCell(rows, cols, vp, header, r, band, rg.start + k))
  }

  /** The cells of row `r`: pinned-start, then main, then pinned-end. */
  function RowCells(rows: seq<real>, cols: seq<real>, vp: ViewportModel, header: bool, r: int): seq<CellVM>
    requires WellFormed(vp, |rows|, |cols|) && 0 <= r < |rows|
  {
    BandCells(rows, cols, vp, header, r, StartBand) +
    BandCells(rows, cols, vp, header, r, MainBand) +
    BandCells(rows, cols, vp, header, r, EndBand)
  }

  /** The cells of the `n` rows starting at `lo`, rows ascending. */
  function RowsCells(rows: seq<real>, cols: seq<real>, vp: ViewportModel, header: bool, lo: int, n: nat): seq<CellVM>
    requires WellFormed(vp, |rows|, |cols|) && (n == 0 || (0 <= lo && lo + n <= |rows|))
  {
    if n == 0 then []
    else RowsCells(rows, cols, vp, header, lo, n - 1) + RowCells(rows, cols, vp, header, lo + n - 1)
  }

  /** The cells of `n + 1` rows are those of the first `n`, then row `lo + n`. */
  lemma RowsCellsExtend(rows: seq<real>, cols: seq<real>, vp: ViewportModel, header: bool, lo: int, n: nat)
    requires WellFormed(vp, |rows|, |cols|) && 0 <= lo && lo + n < |rows|
    ensures RowsCells(rows, cols, vp, header, lo, n + 1)
         == RowsCells(rows, cols, vp, header, lo, n) + RowCells(rows, cols, vp, header, lo + n)
  {
  }

  /** The band's cells up to column `c` are those before it, then the cell at `c`. */
  lemma BandCellsExtend(rows: seq<real>, cols: seq<real>, vp: ViewportModel, header: bool, r: int, band: Band, c: int)
    requires WellFormed(vp, |rows|, |cols|) && 0 <= r < |rows| && BandRange(vp, band).Contains(c)
    ensures var k := c - BandRange(vp, band).start;
            BandCells(rows, cols, vp, header, r, band)[..k + 1]
            == BandCells(rows, cols, vp, header, r, band)[..k] + [MakeCell(rows, cols, vp, header, r, band, c)]
  {
    var k := c - BandRange(vp, band).start;
    assert BandCells(rows, cols, vp, header, r, band)[k] == MakeCell(rows, cols, vp, header, r, band, c);
  }

  /** All cells: the header rows, then the body rows. */
  function Cells(rows: seq<real>, cols: seq<real>, vp: ViewportModel): seq<CellVM>
    requires WellFormed(vp, |rows|, |cols|)
  {
    var h := vp.rows.header.range;
    var b := vp.rows.body.range;
    RowsCells(rows, cols, vp, true, h.start, h.Size()) + RowsCells(rows, cols, vp, false, b.start, b.Size())
  }

  /** The number of cells whose layer is in `ks`. */
  function CountKinds(cells: seq<CellVM>, ks: set<CellKind>): nat
  {
    if |cells| == 0 then 0
    else CountKinds(cells[..|cells| - 1], ks) + (if cells[|cells| - 1].kind in ks then 1 else 0)
  }

  /** `stats`: body, header, pinned-start with corner-start, pinned-end with corner-end. */
  function StatsOf(cells: seq<CellVM>): Stats
  {
    Stats(CountKinds(cells, {Body}), CountKinds(cells, {Header}),
          CountKinds(cells, {PinnedStart, CornerStart}), CountKinds(cells, {PinnedEnd, CornerEnd}))
  }

  // ----- properties of the layout -----

  /** The (band, column) slot of each position within a row. */
  function ColumnSlots(vp: ViewportModel): seq<(Band, int)>
  {
    var s := vp.cols.start.range;
    var m := vp.cols.main.range;
    var e := vp.cols.end.range;
    seq(s.Size(), k => (StartBand, s.start + k)) +
    seq(m.Size(), k => (MainBand, m.start + k)) +
    seq(e.Size(), k => (EndBand, e.start + k))
  }

  /** The (header?, row) slot of each emitted row: header rows ascending, then body rows ascending. */
  function RowSlots(vp: ViewportModel): seq<(bool, int)>
  {
    var h := vp.rows.header.range;
    var b := vp.rows.body.range;
    seq(h.Size(), k => (true, h.start + k)) + seq(b.Size(), k => (false, b.start + k))
  }

  lemma MulMonotone(x: int, y: int, w: int)
    requires 0 <= x <= y && 0 <= w
    ensures x * w <= y * w
  {
    assert y * w - x * w == (y - x) * w;
  }

  lemma BandCellsKind(rows: seq<real>, cols: seq<real>, vp: ViewportModel, header: bool, r: int, band: Band)
    requires WellFormed(vp, |rows|, |cols|) && 0 <= r < |rows|
    ensures |BandCells(rows, cols, vp, header, r, band)| == BandRange(vp, band).Size()
    ensures forall i :: 0 <= i < |BandCells(rows, cols, vp, header, r, band)| ==>
              BandCells(rows, cols, vp, header, r, band)[i].kind == KindOf(header, band)
  {
    var rg := BandRange(vp, band);
    forall i | 0 <= i < rg.Size()
      ensures BandCells(rows, cols, vp, header, r, band)[i].kind == KindOf(header, band)
    {
      assert BandCells(rows, cols, vp, header, r, band)[i] == MakeCell(rows, cols, vp, header, r, band, rg.start + i);
    }
  }

  lemma RowCellsLength(rows: seq<real>, cols: seq<real>, vp: ViewportModel, header: bool, r: int)
    requires WellFormed(vp, |rows|, |cols|) && 0 <= r < |rows|
    ensures |RowCells(rows, cols, vp, header, r)| == |ColumnSlots(vp)|
  {
  }

  lemma ConcatIndex<T>(x: seq<T>, y: seq<T>, k: int)
    requires 0 <= k < |y|
    ensures (x + y)[|x| + k] == y[k]
  {
  }

  lemma MulAddRight(x: int, y: int, w: int)
    ensures (x + y) * w == x * w + y * w
  {
  }

  /** Within a row, position `b` holds the column of slot `b`. */
  lemma RowCellsAt(rows: seq<real>, cols: seq<real>, vp: ViewportModel, header: bool, r: int, b: int)
    requires WellFormed(vp, |rows|, |cols|) && 0 <= r < |rows| && 0 <= b < |ColumnSlots(vp)|
    ensures |RowCells(rows, cols, vp, header, r)| == |ColumnSlots(vp)|
    ensures BandRange(vp, ColumnSlots(vp)[b].0).Contains(ColumnSlots(vp)[b].1)
    ensures RowCells(rows, cols, vp, header, r)[b]
         == MakeCell(rows, cols, vp, header, r, ColumnSlots(vp)[b].0, ColumnSlots(vp)[b].1)
  {
  }

  lemma {:induction false} RowsCellsLength(rows: seq<real>, cols: seq<real>, vp: ViewportModel, header: bool, lo: int, n: nat)
    requires WellFormed(vp, |rows|, |cols|) && (n == 0 || (0 <= lo && lo + n <= |rows|))
    ensures |RowsCells(rows, cols, vp, header, lo, n)| == n * |ColumnSlots(vp)|
  {
    if n > 0 {
      RowsCellsLength(rows, cols, vp, header, lo, n - 1);
      RowCellsLength(rows, cols, vp, header, lo + n - 1);
    }
  }

  /** Row `a` of a run of rows occupies positions `a * width .. a * width + width - 1`. */
  lemma {:induction false} RowsCellsAt(rows: seq<real>, cols: seq<real>, vp: ViewportModel, header: bool, lo: int, n: nat, a: int, b: int)
    requires WellFormed(vp, |rows|, |cols|) && 0 <= lo && lo + n <= |rows|
    requires 0 <= a < n && 0 <= b < |ColumnSlots(vp)|
    ensures a * |ColumnSlots(vp)| + b < |RowsCells(rows, cols, vp, header, lo, n)|
    ensures RowsCells(rows, cols, vp, header, lo, n)[a * |ColumnSlots(vp)| + b] == RowCells(rows, cols, vp, header, lo + a)[b]
  {
    var w := |ColumnSlots(vp)|;
    RowsCellsLength(rows, cols, vp, header, lo, n - 1);
    RowsCellsLength(rows, cols, vp, header, lo, n);
    if a < n - 1 {
      RowsCellsAt(rows, cols, vp, header, lo, n - 1, a, b);
    } else {
      RowCellsAt(rows, cols, vp, header, lo + a, b);
    }
  }

  /** Row-major position `(n + a) * w + b`, past `n` rows of width `w`, is position `a * w + b` of what follows them. */
  lemma ConcatRowMajor<T>(x: seq<T>, y: seq<T>, n: int, w: int, a: int, b: int)
    requires |x| == n * w && 0 <= a * w + b < |y|
    ensures 0 <= (n + a) * w + b < |x + y| && (x + y)[(n + a) * w + b] == y[a * w + b]
  {
    MulAddRight(n, a, w);
  }

  /** Header row slot `a` is laid out from position `a * width`. */
  lemma CellsAtHeader(rows: seq<real>, cols: seq<real>, vp: ViewportModel, a: int, b: int)
    requires WellFormed(vp, |rows|, |cols|)
    requires 0 <= a < vp.rows.header.range.Size() && 0 <= b < |ColumnSlots(vp)|
    ensures a * |ColumnSlots(vp)| + b < |Cells(rows, cols, vp)|
    ensures Cells(rows, cols, vp)[a * |ColumnSlots(vp)| + b] == RowCells(rows, cols, vp, true, vp.rows.header.range.start + a)[b]
  {
    var h := vp.rows.header.range;
    var bd := vp.rows.body.range;
    var hc := RowsCells(rows, cols, vp, true, h.start, h.Size());
    var bc := RowsCells(rows, cols, vp, false, bd.start, bd.Size());
    assert Cells(rows, cols, vp) == hc + bc;
    RowsCellsAt(rows, cols, vp, true, h.start, h.Size(), a, b);
  }

  /** Body row `a'`, after the header rows, is laid out from position `(|header| + a') * width`. */
  lemma CellsAtBody(rows: seq<real>, cols: seq<real>, vp: ViewportModel, a': int, b: int)
    requires WellFormed(vp, |rows|, |cols|)
    requires 0 <= a' < vp.rows.body.range.Size() && 0 <= b < |ColumnSlots(vp)|
    ensures var a := vp.rows.header.range.Size() + a';
            a * |ColumnSlots(vp)| + b < |Cells(rows, cols, vp)| &&
            Cells(rows, cols, vp)[a * |ColumnSlots(vp)| + b] == RowCells(rows, cols, vp, false, vp.rows.body.range.start + a')[b]
  {
    var w := |ColumnSlots(vp)|;
    var h := vp.rows.header.range;
    var bd := vp.rows.body.range;
    var hc := RowsCells(rows, cols, vp, true, h.start, h.Size());
    var bc := RowsCells(rows, cols, vp, false, bd.start, bd.Size());
    assert Cells(rows, cols, vp) == hc + bc;
    RowsCellsLength(rows, cols, vp, true, h.start, h.Size());
    RowsCellsAt(rows, cols, vp, false, bd.start, bd.Size(), a', b);
    ConcatRowMajor(hc, bc, h.Size(), w, a', b);
  }

  /** Row slot `a` of the whole layout is row `RowSlots(vp)[a]`, laid out from position `a * width`. */
  lemma CellsAtRow(rows: seq<real>, cols: seq<real>, vp: ViewportModel, a: int, b: int)
    requires WellFormed(vp, |rows|, |cols|)
    requires 0 <= a < |RowSlots(vp)| && 0 <= b < |ColumnSlots(vp)|
    ensures RowRange(vp, RowSlots(vp)[a].0).Contains(RowSlots(vp)[a].1) && 0 <= RowSlots(vp)[a].1 < |rows|
    ensures a * |ColumnSlots(vp)| + b < |Cells(rows, cols, vp)|
    ensures Cells(rows, cols, vp)[a * |ColumnSlots(vp)| + b] == RowCells(rows, cols, vp, RowSlots(vp)[a].0, RowSlots(vp)[a].1)[b]
  {
    var h := vp.rows.header.range;
    if a < h.Size() {
      assert RowSlots(vp)[a] == (true, h.start + a);
      CellsAtHeader(rows, cols, vp, a, b);
    } else {
      assert RowSlots(vp)[a] == (false, vp.rows.body.range.start + (a - h.Size()));
      CellsAtBody(rows, cols, vp, a - h.Size(), b);
    }
  }

  /**
   * The whole layout: the cell of row slot `a` and column slot `b` sits at
   * position `a * width + b`, so there is one cell per (row, column) pair,
   * header rows come before body rows, rows ascend, and within a row the
   * pinned-start, main and pinned-end columns follow in ascending order.
   */
  lemma CellsAt(rows: seq<real>, cols: seq<real>, vp: ViewportModel, a: int, b: int)
    requires WellFormed(vp, |rows|, |cols|)
    requires 0 <= a < |RowSlots(vp)| && 0 <= b < |ColumnSlots(vp)|
    ensures a * |ColumnSlots(vp)| + b < |Cells(rows, cols, vp)|
    ensures RowRange(vp, RowSlots(vp)[a].0).Contains(RowSlots(vp)[a].1) && 0 <= RowSlots(vp)[a].1 < |rows|
    ensures BandRange(vp, ColumnSlots(vp)[b].0).Contains(ColumnSlots(vp)[b].1)
    ensures Cells(rows, cols, vp)[a * |ColumnSlots(vp)| + b]
         == MakeCell(rows, cols, vp, RowSlots(vp)[a].0, RowSlots(vp)[a].1, ColumnSlots(vp)[b].0, ColumnSlots(vp)[b].1)
  {
    CellsAtRow(rows, cols, vp, a, b);
    RowCellsAt(rows, cols, vp, RowSlots(vp)[a].0, RowSlots(vp)[a].1, b);
  }

  /** `(|header| + |body|) * (|start| + |main| + |end|)` cells; empty slices emit nothing. */
  lemma CellsCount(rows: seq<real>, cols: seq<real>, vp: ViewportModel)
    requires WellFormed(vp, |rows|, |cols|)
    ensures var rs := vp.rows;
            var cs := vp.cols;
            |Cells(rows, cols, vp)|
            == (rs.header.range.Size() + rs.body.range.Size()) * (cs.start.range.Size() + cs.main.range.Size() + cs.end.range.Size())
  {
    var w := |ColumnSlots(vp)|;
    var h := vp.rows.header.range;
    var bd := vp.rows.body.range;
    var hc := RowsCells(rows, cols, vp, true, h.start, h.Size());
    var bc := RowsCells(rows, cols, vp, false, bd.start, bd.Size());
    assert Cells(rows, cols, vp) == hc + bc;
    RowsCellsLength(rows, cols, vp, true, h.start, h.Size());
    RowsCellsLength(rows, cols, vp, false, bd.start, bd.Size());
    MulAddRight(h.Size(), bd.Size(), w);
  }

  /** Every (row, column) of each of the six regions has its cell, of that region's kind. */
  lemma CellsComplete(rows: seq<real>, cols: seq<real>, vp: ViewportModel, header: bool, r: int, band: Band, c: int)
    requires WellFormed(vp, |rows|, |cols|)
    requires RowRange(vp, header).Contains(r) && BandRange(vp, band).Contains(c)
    ensures 0 <= r < |rows|
    ensures MakeCell(rows, cols, vp, header, r, band, c) in Cells(rows, cols, vp)
  {
    var h := vp.rows.header.range;
    var bd := vp.rows.body.range;
    var s := vp.cols.start.range;
    var m := vp.cols.main.range;
    var a := if header then r - h.start else h.Size() + (r - bd.start);
    var b := match band
      case StartBand => c - s.start
      case MainBand => s.Size() + (c - m.start)
      case EndBand => s.Size() + m.Size() + (c - vp.cols.end.range.start);
    assert RowSlots(vp)[a] == (header, r);
    assert ColumnSlots(vp)[b] == (band, c);
    CellsAt(rows, cols, vp, a, b);
  }

  /** What every emitted cell satisfies: its row and column lie in the slices its kind names, and its geometry follows them. */
  predicate CellRule(rows: seq<real>, cols: seq<real>, vp: ViewportModel, c: CellVM)
    requires WellFormed(vp, |rows|, |cols|)
  {
    var t := vp.transforms;
    0 <= c.rowIndex < |rows| && 0 <= c.colIndex < |cols| &&
    c.width == cols[c.colIndex] && c.height == rows[c.rowIndex] &&
    (IsHeaderKind(c.kind) ==>
      vp.rows.header.range.Contains(c.rowIndex) && c.y == t.rowHeaderY + Offset(rows, c.rowIndex)) &&
    (!IsHeaderKind(c.kind) ==>
      vp.rows.body.range.Contains(c.rowIndex) && c.y == t.rowBodyY + (Offset(rows, c.rowIndex) - vp.scrollTopPx)) &&
    (c.kind == CornerStart || c.kind == PinnedStart ==>
      vp.cols.start.range.Contains(c.colIndex) && c.x == t.colPinnedStartX + Offset(cols, c.colIndex)) &&
    (c.kind == Header || c.kind == Body ==>
      vp.cols.main.range.Contains(c.colIndex) && c.x == t.colMainX + (Offset(cols, c.colIndex) - vp.scrollLeftPx)) &&
    (c.kind == CornerEnd || c.kind == PinnedEnd ==>
      vp.cols.end.range.Contains(c.colIndex) &&
      c.x == t.colPinnedEndX + (Offset(cols, c.colIndex) - Offset(cols, vp.cols.end.range.start)))
  }

  lemma MakeCellFollowsRules(rows: seq<real>, cols: seq<real>, vp: ViewportModel, header: bool, r: int, band: Band, c: int)
    requires WellFormed(vp, |rows|, |cols|) && RowRange(vp, header).Contains(r) && 0 <= r < |rows|
    requires BandRange(vp, band).Contains(c)
    ensures CellRule(rows, cols, vp, MakeCell(rows, cols, vp, header, r, band, c))
  {
  }

  lemma RowCellsFollowRules(rows: seq<real>, cols: seq<real>, vp: ViewportModel, header: bool, r: int)
    requires WellFormed(vp, |rows|, |cols|) && RowRange(vp, header).Contains(r) && 0 <= r < |rows|
    ensures forall c :: c in RowCells(rows, cols, vp, header, r) ==> CellRule(rows, cols, vp, c)
  {
    forall band: Band, i | 0 <= i < BandRange(vp, band).Size()
      ensures CellRule(rows, cols, vp, BandCells(rows, cols, vp, header, r, band)[i])
    {
      MakeCellFollowsRules(rows, cols, vp, header, r, band, BandRange(vp, band).start + i);
    }
  }

  lemma {:induction false} RowsCellsFollowRules(rows: seq<real>, cols: seq<real>, vp: ViewportModel, header: bool, n: nat)
    requires WellFormed(vp, |rows|, |cols|) && n <= RowRange(vp, header).Size()
    ensures forall c :: c in RowsCells(rows, cols, vp, header, RowRange(vp, header).start, n) ==> CellRule(rows, cols, vp, c)
  {
    if n > 0 {
      RowsCellsFollowRules(rows, cols, vp, header, n - 1);
      RowCellsFollowRules(rows, cols, vp, header, RowRange(vp, header).start + n - 1);
    }
  }

  /** Width and height come from the axes; X and Y follow the band and slice rules of the cell's kind. */
  lemma CellsFollowRules(rows: seq<real>, cols: seq<real>, vp: ViewportModel)
    requires WellFormed(vp, |rows|, |cols|)
    ensures forall c :: c in Cells(rows, cols, vp) ==> CellRule(rows, cols, vp, c)
  {
    RowsCellsFollowRules(rows, cols, vp, true, RowRange(vp, true).Size());
    RowsCellsFollowRules(rows, cols, vp, false, RowRange(vp, false).Size());
  }

  // ----- counts -----

  lemma {:induction false} CountConcat(a: seq<CellVM>, b: seq<CellVM>, ks: set<CellKind>)
    ensures CountKinds(a + b, ks) == CountKinds(a, ks) + CountKinds(b, ks)
  {
    if |b| > 0 {
      assert (a + b)[..|a + b| - 1] == a + b[..|b| - 1];
      CountConcat(a, b[..|b| - 1], ks);
    } else {
      assert a + b == a;
    }
  }

  lemma {:induction false} CountUniform(s: seq<CellVM>, k: CellKind, ks: set<CellKind>)
    requires forall i :: 0 <= i < |s| ==> s[i].kind == k
    ensures CountKinds(s, ks) == if k in ks then |s| else 0
  {
    if |s| > 0 {
      CountUniform(s[..|s| - 1], k, ks);
    }
  }

  /** Cells of kinds `ks` in any one row of the slice. */
  function RowWeight(vp: ViewportModel, header: bool, ks: set<CellKind>): nat
  {
    (if KindOf(header, StartBand) in ks then vp.cols.start.range.Size() else 0) +
    (if KindOf(header, MainBand) in ks then vp.cols.main.range.Size() else 0) +
    (if KindOf(header, EndBand) in ks then vp.cols.end.range.Size() else 0)
  }

  lemma RowCount(rows: seq<real>, cols: seq<real>, vp: ViewportModel, header: bool, r: int, ks: set<CellKind>)
    requires WellFormed(vp, |rows|, |cols|) && 0 <= r < |rows|
    ensures CountKinds(RowCells(rows, cols, vp, header, r), ks) == RowWeight(vp, header, ks)
  {
    var s := BandCells(rows, cols, vp, header, r, StartBand);
    var m := BandCells(rows, cols, vp, header, r, MainBand);
    var e := BandCells(rows, cols, vp, header, r, EndBand);
    CountConcat(s + m, e, ks);
    CountConcat(s, m, ks);
    BandCellsKind(rows, cols, vp, header, r, StartBand);
    BandCellsKind(rows, cols, vp, header, r, MainBand);
    BandCellsKind(rows, cols, vp, header, r, EndBand);
    CountUniform(s, KindOf(header, StartBand), ks);
    CountUniform(m, KindOf(header, MainBand), ks);
    CountUniform(e, KindOf(header, EndBand), ks);
  }

  lemma {:induction false} RowsCount(rows: seq<real>, cols: seq<real>, vp: ViewportModel, header: bool, lo: int, n: nat, ks: set<CellKind>)
    requires WellFormed(vp, |rows|, |cols|) && (n == 0 || (0 <= lo && lo + n <= |rows|))
    ensures CountKinds(RowsCells(rows, cols, vp, header, lo, n), ks) == n * RowWeight(vp, header, ks)
  {
    if n > 0 {
      RowsCount(rows, cols, vp, header, lo, n - 1, ks);
      RowCount(rows, cols, vp, header, lo + n - 1, ks);
      CountConcat(RowsCells(rows, cols, vp, header, lo, n - 1), RowCells(rows, cols, vp, header, lo + n - 1), ks);
      var wt := RowWeight(vp, header, ks);
      assert (n - 1) * wt + wt == n * wt;
    }
  }

  /** `stats`: body and header cells are those of the main band; pinned counts cover header and body rows. */
  /** The cells whose layer is in `ks`: each header row contributes its header weight, each body row its body weight. */
  lemma CellsCountKinds(rows: seq<real>, cols: seq<real>, vp: ViewportModel, ks: set<CellKind>)
    requires WellFormed(vp, |rows|, |cols|)
    ensures CountKinds(Cells(rows, cols, vp), ks)
         == vp.rows.header.range.Size() * RowWeight(vp, true, ks) + vp.rows.body.range.Size() * RowWeight(vp, false, ks)
  {
    var h := vp.rows.header.range;
    var bd := vp.rows.body.range;
    var hc := RowsCells(rows, cols, vp, true, h.start, h.Size());
    var bc := RowsCells(rows, cols, vp, false, bd.start, bd.Size());
    assert Cells(rows, cols, vp) == hc + bc;
    CountConcat(hc, bc, ks);
    RowsCount(rows, cols, vp, true, h.start, h.Size(), ks);
    RowsCount(rows, cols, vp, false, bd.start, bd.Size(), ks);
  }

  /** `stats`: body and header cells are those of the main band; pinned counts cover header and body rows. */
  lemma StatsCount(rows: seq<real>, cols: seq<real>, vp: ViewportModel)
    requires WellFormed(vp, |rows|, |cols|)
    ensures var st := StatsOf(Cells(rows, cols, vp));
            var h, b := vp.rows.header.range.Size(), vp.rows.body.range.Size();
            st.bodyCellCount == b * vp.cols.main.range.Size() &&
            st.headerCellCount == h * vp.cols.main.range.Size() &&
            st.pinnedStartCellCount == (h + b) * vp.cols.start.range.Size() &&
            st.pinnedEndCellCount == (h + b) * vp.cols.end.range.Size()
  {
    var h, b := vp.rows.header.range.Size(), vp.rows.body.range.Size();
    var s, m, e := vp.cols.start.range.Size(), vp.cols.main.range.Size(), vp.cols.end.range.Size();
    CellsCountKinds(rows, cols, vp, {Body});
    CellsCountKinds(rows, cols, vp, {Header});
    CellsCountKinds(rows, cols, vp, {PinnedStart, CornerStart});
    CellsCountKinds(rows, cols, vp, {PinnedEnd, CornerEnd});
    assert RowWeight(vp, true, {Body}) == 0 && RowWeight(vp, false, {Body}) == m;
    assert RowWeight(vp, true, {Header}) == m && RowWeight(vp, false, {Header}) == 0;
    assert RowWeight(vp, true, {PinnedStart, CornerStart}) == s && RowWeight(vp, false, {PinnedStart, CornerStart}) == s;
    assert RowWeight(vp, true, {PinnedEnd, CornerEnd}) == e && RowWeight(vp, false, {PinnedEnd, CornerEnd}) == e;
    MulAddRight(h, b, s);
    MulAddRight(h, b, e);
  }
}
