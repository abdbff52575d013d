/**
 * The interaction kernel's reducer: pointer, keyboard, focus and command
 * actions over `InteractionState`, returning a new state each time.
 */
module InteractionReducer {
  import opened Wrappers
  import opened ContractsMath
  import opened HitTestModel
  import opened InteractionState

  datatype Mods = Mods(shift: bool, alt: bool, ctrl: bool, meta: bool)

  /** The keys the kernel is told about (`KeyA` is the letter `a`). */
  datatype NavKey = ArrowUp | ArrowDown | ArrowLeft | ArrowRight | Home | End | PageUp | PageDown | Enter | Escape | Tab | KeyA

  datatype Action =
    | PointerMoved(point: GridPoint, hit: HitTarget, mods: Mods)
    | PointerDown(point: GridPoint, button: int, hit: HitTarget, mods: Mods)
    | PointerUp(point: GridPoint, button: int, hit: HitTarget, mods: Mods)
    | PointerLeave
    | KeyDown(key: NavKey, mods: Mods)
    | FocusGained
    | FocusLost
    | SetActiveCell(cell: Option<CellRef>)
    | ClearSelection

  /** The grid size the keyboard moves within, and whether Ctrl/Cmd+A selects everything. */
  datatype Config = Config(rowCount: int, colCount: int, enableSelectAll: bool)

  datatype Dir = Up | Down | Left | Right

  /** The cell a pointer hit designates: only a `cell` hit that carries one. */
  function CellFromHit(hit: HitTarget): (c: Option<CellRef>)
    ensures c.Some? <==> hit.region == CellRegion && hit.cell.Some?
    ensures c.Some? ==> c == hit.cell
  {
    if hit.region == CellRegion && hit.cell.Some? then hit.cell else None
  }

  /** `setSingleSelection`: the cell becomes focus, active and anchor, and the only (1×1) range. */
  function SetSingleSelection(s: InteractionState, cell: CellRef): (r: InteractionState)
    ensures r.isFocused == s.isFocused && r.hover == s.hover
    ensures r.focusCell == Some(cell) && r.selection == Selection(Some(cell), Some(cell), [CellRange(cell, cell)])
  {
    var range := NormalizeRange(CellRange(cell, cell));
    s.(focusCell := Some(cell), selection := Selection(Some(cell), Some(cell), [range]))
  }

  /** The anchor a Shift-extension starts from: the anchor, else the active cell, else the cell itself. */
  function ExtensionAnchor(s: InteractionState, cell: CellRef): CellRef
  {
    s.selection.anchor.GetOr(s.selection.active.GetOr(cell))
  }

  /**
   * `setRangeSelectionFromAnchor`: one normalised range spanning the anchor
   * and the cell; the anchor is kept (or fixed), the cell becomes focus and active.
   */
  function SetRangeFromAnchor(s: InteractionState, cell: CellRef): (r: InteractionState)
    ensures r.isFocused == s.isFocused && r.hover == s.hover
    ensures r.focusCell == Some(cell) && r.selection.active == Some(cell)
    ensures r.selection.anchor == Some(ExtensionAnchor(s, cell))
    ensures |r.selection.ranges| == 1 && IsNormal(r.selection.ranges[0])
    ensures forall c :: Covers(r.selection.ranges[0], c) <==> Covers(CellRange(ExtensionAnchor(s, cell), cell), c)
  {
    var anchor := ExtensionAnchor(s, cell);
    var range := NormalizeRange(CellRange(anchor, cell));
    assert forall c :: Covers(range, c) <==> Covers(CellRange(anchor, cell), c) by {
      forall c {
        NormalizeKeepsCells(CellRange(anchor, cell), c);
      }
    }
    s.(focusCell := Some(cell), selection := Selection(Some(cell), Some(anchor), [range]))
  }

  // ----- Ctrl/Cmd toggling -----

  /**
   * The `findIndex` test of `toggleCellSelection`: the normalised range is
   * 1×1 and its `row:col` key is the cell's (for integers the key is
   * injective, so this is equality of coordinates).
   */
  predicate IsSingleAt(r: CellRange, cell: CellRef)
  {
    var nr := NormalizeRange(r);
    nr.start.row == nr.end.row && nr.start.col == nr.end.col &&
    nr.start.row == cell.row && nr.start.col == cell.col
  }

  /** A range tests as the cell's exactly when both corners are the cell. */
  lemma IsSingleAtMeans(r: CellRange, cell: CellRef)
    ensures IsSingleAt(r, cell) <==> r == CellRange(cell, cell)
  {
  }

  /** `findIndex`: the first position whose range tests as the cell's, or -1. */
  function FindSingle(ranges: seq<CellRange>, cell: CellRef): (i: int)
    ensures -1 <= i < |ranges|
    ensures i >= 0 ==> IsSingleAt(ranges[i], cell) && forall j :: 0 <= j < i ==> !IsSingleAt(ranges[j], cell)
    ensures i == -1 ==> forall j :: 0 <= j < |ranges| ==> !IsSingleAt(ranges[j], cell)
    decreases |ranges|
  {
    if |ranges| == 0 then -1
    else if IsSingleAt(ranges[0], cell) then 0
    else
      var j := FindSingle(ranges[1..], cell);
      assert forall k :: 1 <= k < |ranges| ==> ranges[k] == ranges[1..][k - 1];
      if j < 0 then -1 else j + 1
  }

  /** `filter((_, i) => i !== existingIdx)`: every range but the one at `i`. */
  function RemoveAt(ranges: seq<CellRange>, i: int): (r: seq<CellRange>)
    requires 0 <= i < |ranges|
    ensures |r| == |ranges| - 1
    ensures forall j :: 0 <= j < i ==> r[j] == ranges[j]
    ensures forall j :: i <= j < |r| ==> r[j] == ranges[j + 1]
  {
    ranges[..i] + ranges[i + 1..]
  }

  /** The ranges after a Ctrl/Cmd click: remove the cell's 1×1 range if there is one, else append it. */
  function ToggleRanges(ranges: seq<CellRange>, cell: CellRef): seq<CellRange>
  {
    var existing := FindSingle(ranges, cell);
    if existing >= 0 then RemoveAt(ranges, existing)
    else ranges + [NormalizeRange(CellRange(cell, cell))]
  }

  /** At most one range tests as the cell's. */
  predicate AtMostOneSingle(ranges: seq<CellRange>, cell: CellRef)
  {
    forall i, j :: 0 <= i < |ranges| && 0 <= j < |ranges| && IsSingleAt(ranges[i], cell) && IsSingleAt(ranges[j], cell) ==> i == j
  }

  /** Some range tests as the cell's. */
  predicate HasSingle(ranges: seq<CellRange>, cell: CellRef)
  {
    exists i :: 0 <= i < |ranges| && IsSingleAt(ranges[i], cell)
  }

  /**
   * With at most one 1×1 range at the cell, toggling flips whether the cell
   * is selected on its own, and keeps at most one such range; no other
   * range is touched (the others keep their order).
   */
  lemma ToggleFlips(ranges: seq<CellRange>, cell: CellRef)
    requires AtMostOneSingle(ranges, cell)
    ensures var t := ToggleRanges(ranges, cell);
      (HasSingle(t, cell) <==> !HasSingle(ranges, cell)) && AtMostOneSingle(t, cell) &&
      (HasSingle(ranges, cell) ==> multiset(t) + multiset{CellRange(cell, cell)} == multiset(ranges)) &&
      (!HasSingle(ranges, cell) ==> t == ranges + [CellRange(cell, cell)])
  {
    var i := FindSingle(ranges, cell);
    var t := ToggleRanges(ranges, cell);
    if i >= 0 {
      IsSingleAtMeans(ranges[i], cell);
      assert ranges == ranges[..i] + [ranges[i]] + ranges[i + 1..];
      assert !HasSingle(t, cell) by {
        forall j | 0 <= j < |t| ensures !IsSingleAt(t[j], cell) {
          if j < i {
            assert t[j] == ranges[j];
          } else {
            assert t[j] == ranges[j + 1];
          }
        }
      }
    } else {
      assert IsSingleAt(t[|ranges|], cell);
    }
  }

  /**
   * Toggling the same cell twice restores the ranges: exactly when the cell
   * had no 1×1 range, and up to order (the range moves to the end) when it
   * had one.
   */
  lemma ToggleTwice(ranges: seq<CellRange>, cell: CellRef)
    requires AtMostOneSingle(ranges, cell)
    ensures var t2 := ToggleRanges(ToggleRanges(ranges, cell), cell);
      (!HasSingle(ranges, cell) ==> t2 == ranges) &&
      (HasSingle(ranges, cell) ==> multiset(t2) == multiset(ranges))
  {
    ToggleFlips(ranges, cell);
    var t := ToggleRanges(ranges, cell);
    ToggleFlips(t, cell);
    if !HasSingle(ranges, cell) {
      var k := FindSingle(t, cell);
      assert k == |ranges| by {
        assert IsSingleAt(t[|ranges|], cell);
        assert forall j :: 0 <= j < |ranges| ==> t[j] == ranges[j];
      }
      assert t[..|ranges|] == ranges;
    }
  }

  /** `toggleCellSelection`: toggle the cell's 1×1 range; the cell becomes focus, active and anchor. */
  function ToggleCellSelection(s: InteractionState, cell: CellRef): (r: InteractionState)
    ensures r.isFocused == s.isFocused && r.hover == s.hover && r.focusCell == Some(cell)
    ensures r.selection.active == Some(cell) && r.selection.anchor == Some(cell)
    ensures AllNormal(s.selection.ranges) ==> AllNormal(r.selection.ranges)
  {
    var ranges := ToggleRanges(s.selection.ranges, cell);
    s.(focusCell := Some(cell), selection := Selection(Some(cell), Some(cell), ranges))
  }

  // ----- keyboard movement -----

  /** The neighbouring cell in a direction, before clamping. */
  function Step(cell: CellRef, dir: Dir): CellRef
  {
    match dir
    case Up => CellRef(cell.row - 1, cell.col)
    case Down => CellRef(cell.row + 1, cell.col)
    case Left => CellRef(cell.row, cell.col - 1)
    case Right => CellRef(cell.row, cell.col + 1)
  }

  predicate InGrid(c: CellRef, rowCount: int, colCount: int)
  {
    0 <= c.row < rowCount && 0 <= c.col < colCount
  }

  /**
   * `moveCell`: one step, clamped to `[0, rowCount - 1] × [0, colCount - 1]`.
   * In a non-empty grid the result is in the grid; it is the neighbour when
   * that is in the grid, and an in-grid cell stays put at the edge.
   */
  function MoveCell(cell: CellRef, dir: Dir, rowCount: int, colCount: int): (n: CellRef)
    ensures rowCount >= 1 && colCount >= 1 ==> InGrid(n, rowCount, colCount)
    ensures InGrid(Step(cell, dir), rowCount, colCount) ==> n == Step(cell, dir)
    ensures InGrid(cell, rowCount, colCount) && !InGrid(Step(cell, dir), rowCount, colCount) ==> n == cell
  {
    var next := Step(cell, dir);
    CellRef(MaxInt(0, MinInt(rowCount - 1, next.row)), MaxInt(0, MinInt(colCount - 1, next.col)))
  }

  /** The arrow keys and their directions. */
  function NavOf(key: NavKey): Option<Dir>
  {
    match key
    case ArrowUp => Some(Up)
    case ArrowDown => Some(Down)
    case ArrowLeft => Some(Left)
    case ArrowRight => Some(Right)
    case _ => None
  }

  /** The range covering the whole grid. */
  function FullRange(cfg: Config): CellRange
  {
    NormalizeRange(CellRange(CellRef(0, 0), CellRef(cfg.rowCount - 1, cfg.colCount - 1)))
  }

  // ----- the reducer -----

  /**
   * The reducer, as a function of the configuration, the state and the
   * action. Every action keeps the selection's ranges normalised.
   */
  function Reduce(cfg: Config, s: InteractionState, a: Action): (r: InteractionState)
    ensures AllNormal(s.selection.ranges) ==> AllNormal(r.selection.ranges)
  {
    match a
    case PointerMoved(_, hit, _) =>
      if s.hover == Some(hit) then s else s.(hover := Some(hit))
    case PointerLeave =>
      if s.hover.None? then s else s.(hover := None)
    case PointerDown(_, button, hit, mods) =>
      if button != 0 then s
      else
        (match CellFromHit(hit)
         case None => s
         case Some(cell) =>
           var base := if s.isFocused then s else s.(isFocused := true);
           if mods.shift then SetRangeFromAnchor(base, cell)
           else if mods.ctrl || mods.meta then ToggleCellSelection(base, cell)
           else SetSingleSelection(base, cell))
    case PointerUp(_, _, _, _) => s
    case KeyDown(key, mods) =>
      if s.selection.active.None? && s.focusCell.None? then s
      else
        var active := if s.selection.active.Some? then s.selection.active.value else s.focusCell.value;
        if cfg.enableSelectAll && key == KeyA && (mods.ctrl || mods.meta) then
          s.(selection := Selection(Some(active), Some(CellRef(0, 0)), [FullRange(cfg)]))
        else
          (match NavOf(key)
           case None =>
             if key == Escape then s.(selection := Selection(s.selection.active, s.selection.anchor, []))
             else s
           case Some(dir) =>
             var next := MoveCell(active, dir, cfg.rowCount, cfg.colCount);
             if mods.shift then SetRangeFromAnchor(s, next) else SetSingleSelection(s, next))
    case FocusGained =>
      if s.isFocused then s else s.(isFocused := true)
    case FocusLost =>
      if !s.isFocused then s else s.(isFocused := false, hover := None)
    case SetActiveCell(cell) =>
      if cell.None? then
        if s.selection.active.None? && s.focusCell.None? then s
        else s.(focusCell := None, selection := s.selection.(active := None, anchor := None))
      else if IsCellEqual(s.selection.active, cell) && IsCellEqual(s.focusCell, cell) then s
      else SetSingleSelection(s, cell.value)
    case ClearSelection =>
      if |s.selection.ranges| == 0 then s else s.(selection := s.selection.(ranges := []))
  }

  // ----- properties of the reducer -----

  /** `PointerMoved` changes only the hover; `PointerLeave` clears it (a no-op when already clear). */
  lemma PointerHover(cfg: Config, s: InteractionState, p: GridPoint, hit: HitTarget, m: Mods)
    ensures Reduce(cfg, s, PointerMoved(p, hit, m)) == s.(hover := Some(hit))
    ensures Reduce(cfg, s, PointerLeave) == s.(hover := None)
    ensures s.hover.None? ==> Reduce(cfg, s, PointerLeave) == s
  {
  }

  /**
   * A `PointerDown` with another button than the main one, or on anything
   * but a cell, changes nothing; otherwise the grid ends up focused.
   */
  lemma PointerDownFocuses(cfg: Config, s: InteractionState, p: GridPoint, button: int, hit: HitTarget, m: Mods)
    ensures var r := Reduce(cfg, s, PointerDown(p, button, hit, m));
      (button != 0 || CellFromHit(hit).None? ==> r == s) &&
      (button == 0 && CellFromHit(hit).Some? ==>
        r.isFocused && r.hover == s.hover && r.focusCell == CellFromHit(hit) && r.selection.active == CellFromHit(hit))
  {
  }

  /** A plain click selects exactly the clicked cell, which becomes focus, active and anchor. */
  lemma PlainClickSelectsCell(cfg: Config, s: InteractionState, p: GridPoint, cell: CellRef, m: Mods)
    requires !m.shift && !m.ctrl && !m.meta
    ensures var r := Reduce(cfg, s, PointerDown(p, 0, HitTarget(CellRegion, Some(cell), None, None, None), m));
      r.isFocused && r.focusCell == Some(cell) &&
      r.selection == Selection(Some(cell), Some(cell), [CellRange(cell, cell)])
  {
  }

  /**
   * Shift-click wins over Ctrl/Cmd: one normalised range from
   * `anchor ?? active ?? cell` to the cell, covering exactly the cells
   * between them, and the anchor is kept.
   */
  lemma ShiftClickExtends(cfg: Config, s: InteractionState, p: GridPoint, hit: HitTarget, m: Mods)
    requires m.shift && CellFromHit(hit).Some?
    ensures var cell := hit.cell.value;
      var r := Reduce(cfg, s, PointerDown(p, 0, hit, m));
      var anchor := ExtensionAnchor(s, cell);
      r.isFocused && r.selection.anchor == Some(anchor) && r.selection.active == Some(cell) &&
      |r.selection.ranges| == 1 && IsNormal(r.selection.ranges[0]) &&
      (forall c :: Covers(r.selection.ranges[0], c) <==> Covers(CellRange(anchor, cell), c)) &&
      (s.selection.anchor.Some? ==> r.selection.anchor == s.selection.anchor)
  {
  }

  /** Ctrl/Cmd-click (without Shift) toggles the cell's 1×1 range and moves focus, active and anchor to it. */
  lemma CtrlClickToggles(cfg: Config, s: InteractionState, p: GridPoint, hit: HitTarget, m: Mods)
    requires !m.shift && (m.ctrl || m.meta) && CellFromHit(hit).Some?
    ensures var cell := hit.cell.value;
      var r := Reduce(cfg, s, PointerDown(p, 0, hit, m));
      r.isFocused && r.selection.ranges == ToggleRanges(s.selection.ranges, cell) &&
      r.selection.active == Some(cell) && r.selection.anchor == Some(cell) && r.focusCell == Some(cell)
  {
  }

  /**
   * Two Ctrl/Cmd-clicks on the same cell restore the selected ranges (up to
   * order when the cell was selected on its own before).
   */
  lemma CtrlClickTwiceRestores(cfg: Config, s: InteractionState, p: GridPoint, hit: HitTarget, m: Mods)
    requires !m.shift && (m.ctrl || m.meta) && CellFromHit(hit).Some?
    requires AtMostOneSingle(s.selection.ranges, hit.cell.value)
    ensures var r2 := Reduce(cfg, Reduce(cfg, s, PointerDown(p, 0, hit, m)), PointerDown(p, 0, hit, m));
      (!HasSingle(s.selection.ranges, hit.cell.value) ==> r2.selection.ranges == s.selection.ranges) &&
      multiset(r2.selection.ranges) == multiset(s.selection.ranges)
  {
    var r1 := Reduce(cfg, s, PointerDown(p, 0, hit, m));
    CtrlClickToggles(cfg, s, p, hit, m);
    CtrlClickToggles(cfg, r1, p, hit, m);
    ToggleTwice(s.selection.ranges, hit.cell.value);
  }

  /** With neither an active cell nor a focus cell, every key is ignored. */
  lemma KeyWithoutCellIgnored(cfg: Config, s: InteractionState, key: NavKey, m: Mods)
    requires s.selection.active.None? && s.focusCell.None?
    ensures Reduce(cfg, s, KeyDown(key, m)) == s
  {
  }

  /**
   * An arrow key (outside a select-all chord) moves from `active ?? focusCell`
   * by one cell, clamped to the grid: plainly it selects that cell alone,
   * with Shift it spans a range from the anchor to it.
   */
  lemma ArrowMoves(cfg: Config, s: InteractionState, key: NavKey, m: Mods)
    requires NavOf(key).Some? && (s.selection.active.Some? || s.focusCell.Some?)
    ensures var from := if s.selection.active.Some? then s.selection.active.value else s.focusCell.value;
      var next := MoveCell(from, NavOf(key).value, cfg.rowCount, cfg.colCount);
      var r := Reduce(cfg, s, KeyDown(key, m));
      r.selection.active == Some(next) && r.focusCell == Some(next) &&
      r.isFocused == s.isFocused && r.hover == s.hover &&
      (!m.shift ==> r.selection == Selection(Some(next), Some(next), [CellRange(next, next)])) &&
      (m.shift ==> r.selection.anchor == Some(ExtensionAnchor(s, next)) && |r.selection.ranges| == 1 &&
                   (forall c :: Covers(r.selection.ranges[0], c) <==> Covers(CellRange(ExtensionAnchor(s, next), next), c))) &&
      (cfg.rowCount >= 1 && cfg.colCount >= 1 ==> InGrid(next, cfg.rowCount, cfg.colCount))
  {
  }

  /**
   * Ctrl/Cmd+A with select-all enabled selects the whole grid as one range
   * anchored at (0, 0), keeping `active ?? focusCell` as the active cell.
   */
  lemma SelectAll(cfg: Config, s: InteractionState, m: Mods)
    requires cfg.enableSelectAll && (m.ctrl || m.meta) && (s.selection.active.Some? || s.focusCell.Some?)
    requires cfg.rowCount >= 1 && cfg.colCount >= 1
    ensures var r := Reduce(cfg, s, KeyDown(KeyA, m));
      var active := if s.selection.active.Some? then s.selection.active else s.focusCell;
      r.selection == Selection(active, Some(CellRef(0, 0)),
                               [CellRange(CellRef(0, 0), CellRef(cfg.rowCount - 1, cfg.colCount - 1))]) &&
      r.focusCell == s.focusCell && r.isFocused == s.isFocused && r.hover == s.hover &&
      (forall c :: Covers(r.selection.ranges[0], c) <==> InGrid(c, cfg.rowCount, cfg.colCount))
  {
  }

  /** Escape empties the ranges and keeps the active cell and the anchor; other non-arrow keys change nothing. */
  lemma EscapeAndOtherKeys(cfg: Config, s: InteractionState, key: NavKey, m: Mods)
    requires s.selection.active.Some? || s.focusCell.Some?
    requires NavOf(key).None? && !(cfg.enableSelectAll && key == KeyA && (m.ctrl || m.meta))
    ensures var r := Reduce(cfg, s, KeyDown(key, m));
      (key == Escape ==> r == s.(selection := s.selection.(ranges := []))) &&
      (key != Escape ==> r == s)
  {
  }

  /**
   * Focus actions are no-ops in the state they would produce; losing focus
   * also clears the hover.
   */
  lemma FocusChanges(cfg: Config, s: InteractionState)
    ensures Reduce(cfg, s, FocusGained) == s.(isFocused := true)
    ensures Reduce(cfg, s, FocusLost) == if s.isFocused then s.(isFocused := false, hover := None) else s
  {
  }

  /**
   * `SetActiveCell(null)` clears focus cell, active and anchor and keeps the
   * ranges (with no active and no focus cell it keeps even the anchor);
   * `SetActiveCell(cell)` selects that cell alone unless it is
   * already both active and focused.
   */
  lemma SetActiveCellEffect(cfg: Config, s: InteractionState, cell: Option<CellRef>)
    ensures var r := Reduce(cfg, s, SetActiveCell(cell));
      (cell.None? && (s.selection.active.Some? || s.focusCell.Some?) ==>
        r == s.(focusCell := None, selection := s.selection.(active := None, anchor := None))) &&
      (cell.None? && s.selection.active.None? && s.focusCell.None? ==> r == s) &&
      (cell.Some? && s.selection.active == cell && s.focusCell == cell ==> r == s) &&
      (cell.Some? && !(s.selection.active == cell && s.focusCell == cell) ==>
        r.focusCell == cell && r.selection == Selection(cell, cell, [CellRange(cell.value, cell.value)]))
  {
  }

  /** `ClearSelection` empties the ranges and touches nothing else. */
  lemma ClearSelectionEmpties(cfg: Config, s: InteractionState)
    ensures Reduce(cfg, s, ClearSelection) == s.(selection := s.selection.(ranges := []))
  {
  }

  /**
   * From the initial state, only pointer and focus-gained actions have an
   * effect: leaving, losing focus, keys, clearing and unsetting the active
   * cell all leave it as it is.
   */
  lemma InitialStateIsQuiet(cfg: Config, key: NavKey, m: Mods, p: GridPoint, button: int, hit: HitTarget)
    ensures var s := InitialState();
      Reduce(cfg, s, PointerLeave) == s && Reduce(cfg, s, FocusLost) == s &&
      Reduce(cfg, s, KeyDown(key, m)) == s && Reduce(cfg, s, ClearSelection) == s &&
      Reduce(cfg, s, SetActiveCell(None)) == s && Reduce(cfg, s, PointerUp(p, button, hit, m)) == s
  {
  }
}
