/**
 * Clipboard copy and paste as tab-separated text: the text `copy` writes
 * for the first selected range, the changes `paste` hands to `onPaste`,
 * and the Ctrl/Meta shortcuts.
 */
module Clipboard {
  import opened Wrappers
  import opened Text
  import opened HitTestModel
  import opened InteractionState

  /** One pasted cell: where it goes and its text. */
  datatype PasteChange = PasteChange(row: int, col: int, value: string)

  /** How copy reads cells: `getValue`, the optional `formatValue`, and `String(value ?? "")` as `show`. */
  datatype CopySource<!V> = CopySource(getValue: (int, int) -> V, formatValue: Option<(V, int, int) -> string>, show: V -> string)

  /** The text of cell `(r, c)`. */
  function CellText<V>(src: CopySource<V>, r: int, c: int): string
  {
    if src.formatValue.Some? then src.formatValue.value(src.getValue(r, c), r, c) else src.show(src.getValue(r, c))
  }

  /** The number of indices from `lo` to `hi` inclusive. */
  function Span(lo: int, hi: int): nat
  {
    if hi < lo then 0 else hi - lo + 1
  }

  /** The texts of the range's cells, row by row from its start corner to its end corner. */
  function CopiedGrid<V>(range: CellRange, src: CopySource<V>): (g: seq<seq<string>>)
    ensures |g| == Span(range.start.row, range.end.row)
    ensures forall i :: 0 <= i < |g| ==> |g[i]| == Span(range.start.col, range.end.col)
  {
    seq(Span(range.start.row, range.end.row), i =>
      seq(Span(range.start.col, range.end.col), j => CellText(src, range.start.row + i, range.start.col + j)))
  }

  /** Each row's cells joined by tabs. */
  function Lines(grid: seq<seq<string>>): (ls: seq<string>)
    ensures |ls| == |grid|
  {
    seq(|grid|, i requires 0 <= i < |grid| => JoinWith(grid[i], "\t"))
  }

  /** Tab-separated text: cells joined by tabs, rows by line feeds. */
  function Tsv(grid: seq<seq<string>>): string
  {
    JoinWith(Lines(grid), "\n")
  }

  /**
   * `copy`: nothing is written without a selected range; otherwise the
   * text of the first range only.
   */
  method Copy<V>(ranges: seq<CellRange>, src: CopySource<V>) returns (written: Option<string>)
    ensures |ranges| == 0 ==> written.None?
    ensures |ranges| > 0 ==> written == Some(Tsv(CopiedGrid(ranges[0], src)))
  {
    if |ranges| == 0 {
      return None;
    }
    var range := ranges[0];
    ghost var grid := CopiedGrid(range, src);
    var lines: seq<string> := [];
    var r := range.start.row;
    while r <= range.end.row
      invariant range.start.row <= r && r - range.start.row <= |grid|
      invariant lines == Lines(grid)[..r - range.start.row]
      decreases range.end.row - r
    {
      var cells: seq<string> := [];
      var c := range.start.col;
      while c <= range.end.col
        invariant range.start.col <= c && c - range.start.col <= Span(range.start.col, range.end.col)
        invariant cells == grid[r - range.start.row][..c - range.start.col]
        decreases range.end.col - c
      {
        cells := cells + [CellText(src, r, c)];
        c := c + 1;
      }
      assert cells == grid[r - range.start.row];
      lines := lines + [JoinWith(cells, "\t")];
      r := r + 1;
    }
    assert lines == Lines(grid);
    return Some(JoinWith(lines, "\n"));
  }

  /** `text.split("\n").map(row => row.split("\t"))`. */
  function ParseTsv(text: string): (g: seq<seq<string>>)
    ensures |g| >= 1
    ensures forall i :: 0 <= i < |g| ==> |g[i]| >= 1
  {
    var lines := Split(text, '\n');
    seq(|lines|, i requires 0 <= i < |lines| => Split(lines[i], '\t'))
  }

  /** The changes for one pasted row, `ri` rows below the focus cell. */
  function RowChanges(focus: CellRef, ri: int, cells: seq<string>): (cs: seq<PasteChange>)
    ensures |cs| == |cells|
  {
    seq(|cells|, ci requires 0 <= ci < |cells| => PasteChange(focus.row + ri, focus.col + ci, cells[ci]))
  }

  /** The changes for a pasted grid, in row-major order. */
  function Changes(focus: CellRef, grid: seq<seq<string>>): seq<PasteChange>
  {
    if |grid| == 0 then []
    else Changes(focus, grid[..|grid| - 1]) + RowChanges(focus, |grid| - 1, grid[|grid| - 1])
  }

  /**
   * `paste`: `onPaste` is not called without an `onPaste`, a focus cell or
   * a successful clipboard read (`clipboard` is the text read, or none);
   * otherwise it receives one change per parsed field, placed relative to
   * the focus cell.
   */
  method Paste(hasOnPaste: bool, focusCell: Option<CellRef>, clipboard: Option<string>)
    returns (pasted: Option<seq<PasteChange>>)
    ensures !hasOnPaste || focusCell.None? || clipboard.None? ==> pasted.None?
    ensures hasOnPaste && focusCell.Some? && clipboard.Some? ==>
      pasted == Some(Changes(focusCell.value, ParseTsv(clipboard.value)))
  {
    if !hasOnPaste || focusCell.None? || clipboard.None? {
      return None;
    }
    var focus := focusCell.value;
    var rows := ParseTsv(clipboard.value);
    var changes: seq<PasteChange> := [];
    for ri := 0 to |rows|
      invariant changes == Changes(focus, rows[..ri])
    {
      var rowValues := rows[ri];
      ghost var before := changes;
      for ci := 0 to |rowValues|
        invariant changes == before + RowChanges(focus, ri, rowValues)[..ci]
      {
        changes := changes + [PasteChange(focus.row + ri, focus.col + ci, rowValues[ci])];
      }
      assert rows[..ri + 1][..ri] == rows[..ri];
    }
    assert rows[..|rows|] == rows;
    return Some(changes);
  }

  /** A separator missing from every part and from the joiner is missing from the joined text. */
  lemma {:induction false} JoinAvoids(parts: seq<string>, joiner: string, sep: char)
    requires sep !in joiner
    requires forall i :: 0 <= i < |parts| ==> sep !in parts[i]
    ensures sep !in JoinWith(parts, joiner)
  {
    if |parts| > 1 {
      JoinAvoids(parts[1..], joiner, sep);
    }
  }

  /** No cell text holds a tab or a line feed. */
  predicate Plain(grid: seq<seq<string>>)
  {
    forall i, j :: 0 <= i < |grid| && 0 <= j < |grid[i]| ==> '\t' !in grid[i][j] && '\n' !in grid[i][j]
  }

  /**
   * Parsing the copied text gives back the grid, as long as it has a row,
   * every row has a cell and no cell text holds a tab or a line feed.
   */
  lemma TsvRoundTrip(grid: seq<seq<string>>)
    requires |grid| >= 1
    requires forall i :: 0 <= i < |grid| ==> |grid[i]| >= 1
    requires Plain(grid)
    ensures ParseTsv(Tsv(grid)) == grid
  {
    var lines := Lines(grid);
    forall i | 0 <= i < |grid|
      ensures '\n' !in lines[i]
      ensures Split(lines[i], '\t') == grid[i]
    {
      JoinAvoids(grid[i], "\t", '\n');
      SplitJoin(grid[i], '\t');
    }
    SplitJoin(lines, '\n');
  }

  /** What copy writes for a non-empty range pastes back as the same rows and columns of text. */
  lemma CopyPasteRoundTrip<V>(range: CellRange, src: CopySource<V>)
    requires IsNormal(range)
    requires Plain(CopiedGrid(range, src))
    ensures ParseTsv(Tsv(CopiedGrid(range, src))) == CopiedGrid(range, src)
  {
    TsvRoundTrip(CopiedGrid(range, src));
  }

  /** Text without tabs or line feeds is one change, at the focus cell. */
  lemma PlainTextOneChange(focus: CellRef, text: string)
    requires '\t' !in text && '\n' !in text
    ensures Changes(focus, ParseTsv(text)) == [PasteChange(focus.row, focus.col, text)]
  {
    SplitPiece(text, "", '\n');
    SplitPiece(text, "", '\t');
    var g := ParseTsv(text);
    assert g == [[text]];
    assert g[..0] == [];
  }

  /**
   * On a grid whose rows all have `w` cells, the change for field
   * `(ri, ci)` sits at position `ri * w + ci`.
   */
  lemma {:induction false} ChangesRowMajor(focus: CellRef, grid: seq<seq<string>>, w: nat, ri: int, ci: int)
    requires forall i :: 0 <= i < |grid| ==> |grid[i]| == w
    requires 0 <= ri < |grid| && 0 <= ci < w
    ensures |Changes(focus, grid)| == |grid| * w
    ensures ri * w + ci < |grid| * w
    ensures Changes(focus, grid)[ri * w + ci] == PasteChange(focus.row + ri, focus.col + ci, grid[ri][ci])
    decreases |grid|
  {
    var n := |grid|;
    var prefix := grid[..n - 1];
    assert ri * w + ci < (ri + 1) * w <= n * w;
    if n == 1 {
      assert ri == 0;
    } else {
      if ri < n - 1 {
        ChangesRowMajor(focus, prefix, w, ri, ci);
      } else {
        ChangesRowMajor(focus, prefix, w, 0, ci);
        assert (n - 1) * w + ci == ri * w + ci;
      }
    }
  }

  /** Which shortcut a key press is. */
  datatype ClipboardCommand = NoCommand | CopyCommand | PasteCommand

  /** What the key handler did: the text written, the changes pasted, and whether the default was prevented. */
  datatype KeyResult = KeyResult(command: ClipboardCommand, written: Option<string>, pasted: Option<seq<PasteChange>>, preventDefault: bool)

  /**
   * `onKeyDown`: with Ctrl or Meta held, `c` or `C` copies and `v` or `V`
   * pastes, each preventing the default; every other press does nothing.
   */
  method OnKeyDown<V>(ctrlKey: bool, metaKey: bool, key: string, ranges: seq<CellRange>, src: CopySource<V>,
                      hasOnPaste: bool, focusCell: Option<CellRef>, clipboard: Option<string>)
    returns (out: KeyResult)
    ensures out.command == CopyCommand <==> (ctrlKey || metaKey) && (key == "c" || key == "C")
    ensures out.command == PasteCommand <==> (ctrlKey || metaKey) && (key == "v" || key == "V")
    ensures out.preventDefault <==> out.command != NoCommand
    ensures out.command != CopyCommand ==> out.written.None?
    ensures out.command != PasteCommand ==> out.pasted.None?
    ensures out.command == CopyCommand && |ranges| > 0 ==> out.written == Some(Tsv(CopiedGrid(ranges[0], src)))
    ensures out.command == PasteCommand && hasOnPaste && focusCell.Some? && clipboard.Some? ==>
      out.pasted == Some(Changes(focusCell.value, ParseTsv(clipboard.value)))
  {
    if !(ctrlKey || metaKey) {
      return KeyResult(NoCommand, None, None, false);
    }
    if key == "c" || key == "C" {
      var written := Copy(ranges, src);
      return KeyResult(CopyCommand, written, None, true);
    } else if key == "v" || key == "V" {
      var pasted := Paste(hasOnPaste, focusCell, clipboard);
      return KeyResult(PasteCommand, None, pasted, true);
    }
    return KeyResult(NoCommand, None, None, false);
  }
}
