/** The interaction kernel's state: focus, hover, focus cell and the selection. */
module InteractionState {
  import opened Wrappers
  import opened ContractsMath
  import opened HitTestModel

  /** Two corner cells; `normalizeRange` orders them. */
  datatype CellRange = CellRange(start: CellRef, end: CellRef)

  /** The active cell (the "current" cell), the anchor for Shift-ranges, and the selected ranges. */
  datatype Selection = Selection(active: Option<CellRef>, anchor: Option<CellRef>, ranges: seq<CellRange>)

  datatype InteractionState = InteractionState(
    isFocused: bool,
    hover: Option<HitTarget>,
    focusCell: Option<CellRef>,
    selection: Selection)

  /** `createInitialInteractionKernelState`: unfocused, nothing hovered, focused or selected. */
  function InitialState(): (s: InteractionState)
    ensures !s.isFocused && s.hover.None? && s.focusCell.None?
    ensures s.selection.active.None? && s.selection.anchor.None? && s.selection.ranges == []
  {
    InteractionState(false, None, None, Selection(None, None, []))
  }

  /** The range's corners are ordered: top-left first. */
  predicate IsNormal(r: CellRange)
  {
    r.start.row <= r.end.row && r.start.col <= r.end.col
  }

  /** Every range of a selection is normalised. */
  predicate AllNormal(ranges: seq<CellRange>)
  {
    forall i :: 0 <= i < |ranges| ==> IsNormal(ranges[i])
  }

  /** Cell `c` lies in the rectangle spanned by the range's corners, in whichever order they are given. */
  predicate Covers(r: CellRange, c: CellRef)
  {
    MinInt(r.start.row, r.end.row) <= c.row <= MaxInt(r.start.row, r.end.row) &&
    MinInt(r.start.col, r.end.col) <= c.col <= MaxInt(r.start.col, r.end.col)
  }

  /**
   * `normalizeRange`: the top-left and bottom-right corners of the rectangle
   * the two cells span; each coordinate of the result is one of the two
   * given, the smaller first.
   */
  function NormalizeRange(r: CellRange): (n: CellRange)
    ensures IsNormal(n)
    ensures (n.start.row, n.end.row) == (r.start.row, r.end.row) || (n.start.row, n.end.row) == (r.end.row, r.start.row)
    ensures (n.start.col, n.end.col) == (r.start.col, r.end.col) || (n.start.col, n.end.col) == (r.end.col, r.start.col)
  {
    var top := MinInt(r.start.row, r.end.row);
    var left := MinInt(r.start.col, r.end.col);
    var bottom := MaxInt(r.start.row, r.end.row);
    var right := MaxInt(r.start.col, r.end.col);
    CellRange(CellRef(top, left), CellRef(bottom, right))
  }

  /** Normalising does not change the cells a range covers. */
  lemma NormalizeKeepsCells(r: CellRange, c: CellRef)
    ensures Covers(NormalizeRange(r), c) <==> Covers(r, c)
  {
  }

  /** A normalised range is its own normalisation, so normalising twice is normalising once. */
  lemma NormalizeIdempotent(r: CellRange)
    ensures NormalizeRange(r) == r <==> IsNormal(r)
    ensures NormalizeRange(NormalizeRange(r)) == NormalizeRange(r)
  {
  }

  /** Swapping the two corners gives the same normalised range. */
  lemma NormalizeSymmetric(r: CellRange)
    ensures NormalizeRange(CellRange(r.end, r.start)) == NormalizeRange(r)
  {
  }

  /** `isCellEqual`: both absent, or both present with the same row and column. */
  function IsCellEqual(a: Option<CellRef>, b: Option<CellRef>): (r: bool)
    ensures r <==> a == b
  {
    if a.None? || b.None? then a.None? && b.None?
    else a.value.row == b.value.row && a.value.col == b.value.col
  }
}
