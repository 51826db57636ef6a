/** The terminal's screen: a grid of `rows` by `cols` cells, a cursor, the
    current style, a scrollback of the rows that have left the top (at most
    1000), and the custom renders anchored to absolute rows. Writing text
    interprets the actions of the control-sequence parser.

    The cursor column may equal `cols`: after the last column is written,
    the cursor waits there and the next narrow character wraps first. */
module ScreenBuffer {
  import opened Wrappers
  import Sgr
  import A = AnsiProcessor
  import JsonScan
  import opened CharWidth

  /** A cell: its text, its style, and whether it is the right half of a
      full-width character (which the renderer skips). */
  datatype Cell = Cell(ch: string, style: Sgr.Style, skip: bool)

  /** `createEmptyCell()` */
  const EmptyCell := Cell("", Sgr.Plain, false)

  /** The right half of a full-width character. */
  const SkipCell := Cell("", Sgr.Plain, true)

  /** `createEmptyRow(cols)` */
  function EmptyRow(cols: nat): (r: seq<Cell>)
    ensures |r| == cols && forall k :: 0 <= k < cols ==> r[k] == EmptyCell
  {
    seq(cols, _ => EmptyCell)
  }

  /** A grid of `rows` rows of `cols` cells each. */
  predicate Shaped(g: seq<seq<Cell>>, rows: nat, cols: nat) {
    |g| == rows && forall r :: 0 <= r < |g| ==> |g[r]| == cols
  }

  /** `rows` empty rows. */
  function EmptyGrid(rows: nat, cols: nat): (g: seq<seq<Cell>>)
    ensures Shaped(g, rows, cols) && forall r :: 0 <= r < rows ==> g[r] == EmptyRow(cols)
  {
    seq(rows, _ => EmptyRow(cols))
  }

  /** A custom render and the absolute row (scrollback included) it belongs to. */
  datatype CustomRender = CustomRender(row: nat, payload: JsonScan.Json)

  /** `maxScrollback` */
  const MaxScrollback: nat := 1000

  /** The fields of a `ScreenBuffer`, as a value. */
  datatype Screen = Screen(
    cells: seq<seq<Cell>>, rows: nat, cols: nat,
    row: nat, col: nat, style: Sgr.Style,
    customRenders: seq<CustomRender>, scrollback: seq<seq<Cell>>)

  /** What every operation keeps: a full grid, the cursor on a row of it
      and at most one column past its last, and a bounded scrollback. */
  predicate ValidScreen(s: Screen) {
    s.rows >= 1 && s.cols >= 1 && Shaped(s.cells, s.rows, s.cols) &&
    s.row < s.rows && s.col <= s.cols && |s.scrollback| <= MaxScrollback
  }

  /** `new ScreenBuffer(rows, cols)`; the caller never asks for fewer than
      one row or column. */
  function Initial(rows: nat, cols: nat): (s: Screen)
    requires rows >= 1 && cols >= 1
    ensures ValidScreen(s)
  {
    Screen(EmptyGrid(rows, cols), rows, cols, 0, 0, Sgr.Plain, [], [])
  }

  /** `getAllCells()`: the scrollback, oldest first, then the grid. */
  function AllCells(s: Screen): (g: seq<seq<Cell>>)
    ensures |g| == |s.scrollback| + |s.cells|
    ensures forall k :: 0 <= k < |s.scrollback| ==> g[k] == s.scrollback[k]
    ensures forall k :: 0 <= k < |s.cells| ==> g[|s.scrollback| + k] == s.cells[k]
  {
    s.scrollback + s.cells
  }

  /** One cell replaced. */
  function SetCell(g: seq<seq<Cell>>, r: nat, c: nat, cell: Cell): (h: seq<seq<Cell>>)
    requires r < |g| && c < |g[r]|
    ensures |h| == |g| && forall i :: 0 <= i < |g| ==> |h[i]| == |g[i]|
    ensures h[r][c] == cell
    ensures forall i, j :: 0 <= i < |g| && 0 <= j < |g[i]| && (i != r || j != c) ==> h[i][j] == g[i][j]
  {
    g[r := g[r][c := cell]]
  }

  // ---- newLine and scroll ----------------------------------------------

  /** `scroll()`: the top row moves to the end of the scrollback, which drops
      its oldest row when it grows past the limit; an empty row enters at
      the bottom. */
  function Scrolled(s: Screen): (r: Screen)
    requires ValidScreen(s)
    ensures Shaped(r.cells, s.rows, s.cols) && |r.scrollback| <= MaxScrollback
    ensures r.rows == s.rows && r.cols == s.cols && r.row == s.row && r.col == s.col
    ensures r.style == s.style && r.customRenders == s.customRenders
  {
    var sb := s.scrollback + [s.cells[0]];
    s.(cells := s.cells[1..] + [EmptyRow(s.cols)],
       scrollback := if |sb| > MaxScrollback then sb[1..] else sb)
  }

  /** `newLine()`: column 0 of the next row, scrolling at the bottom. */
  function LineFed(s: Screen): (r: Screen)
    requires ValidScreen(s)
    ensures ValidScreen(r) && r.col == 0 && r.rows == s.rows && r.cols == s.cols
    ensures r.style == s.style && r.customRenders == s.customRenders
    ensures s.row + 1 < s.rows ==> r.row == s.row + 1 && r.cells == s.cells && r.scrollback == s.scrollback
    ensures s.row + 1 == s.rows ==> r.row == s.row
  {
    if s.row + 1 >= s.rows then Scrolled(s).(row := s.rows - 1, col := 0)
    else s.(row := s.row + 1, col := 0)
  }

  /** At the bottom, a line feed shifts the grid up by one row: the top row
      becomes the newest scrollback row, and an empty row appears below. */
  lemma LineFeedScrolls(s: Screen)
    requires ValidScreen(s) && s.row == s.rows - 1
    ensures var r := LineFed(s);
      r.cells == s.cells[1..] + [EmptyRow(s.cols)] &&
      r.scrollback[|r.scrollback| - 1] == s.cells[0] &&
      |r.scrollback| == (if |s.scrollback| < MaxScrollback then |s.scrollback| + 1 else MaxScrollback) &&
      r.scrollback[..|r.scrollback| - 1] == s.scrollback[|s.scrollback| + 1 - |r.scrollback|..]
  {
  }

  /** Below the limit no row is lost: the whole history gains one empty row
      at its end. At the limit the oldest row goes. */
  lemma LineFeedKeepsHistory(s: Screen)
    requires ValidScreen(s) && s.row == s.rows - 1
    ensures |s.scrollback| < MaxScrollback ==>
      AllCells(LineFed(s)) == AllCells(s) + [EmptyRow(s.cols)]
    ensures |s.scrollback| == MaxScrollback ==>
      AllCells(LineFed(s)) == (AllCells(s) + [EmptyRow(s.cols)])[1..]
  {
    var sb := s.scrollback + [s.cells[0]];
    assert s.cells == [s.cells[0]] + s.cells[1..];
    assert AllCells(s) + [EmptyRow(s.cols)] == sb + (s.cells[1..] + [EmptyRow(s.cols)]);
  }

  // ---- writeChar -------------------------------------------------------

  /** Writes `cell` at the cursor and moves one column right. */
  function Put(s: Screen, cell: Cell): (r: Screen)
    requires ValidScreen(s) && s.col < s.cols
    ensures ValidScreen(r) && r.row == s.row && r.col == s.col + 1
  {
    s.(cells := SetCell(s.cells, s.row, s.col, cell), col := s.col + 1)
  }

  /** Whether `writeChar(c)` first moves to a new line: a narrow character
      only once the cursor is past the last column, a full-width one already
      when fewer than two columns are left. */
  predicate Wraps(s: Screen, c: char) {
    (IsFullWidth(c) && s.col + 1 >= s.cols) || s.col >= s.cols
  }

  /** `writeChar(c)`: the character in the current style, followed for a
      full-width character by an empty skip cell when the row has room. */
  function CharWritten(s: Screen, c: char): (r: Screen)
    requires ValidScreen(s)
    ensures ValidScreen(r) && r.rows == s.rows && r.cols == s.cols
    ensures r.style == s.style && r.customRenders == s.customRenders
    ensures var at := if Wraps(s, c) then LineFed(s) else s;
      r.row == at.row && r.cells[at.row][at.col] == Cell([c], s.style, false) &&
      r.col == (if IsFullWidth(c) && at.col + 2 <= s.cols then at.col + 2 else at.col + 1) &&
      (IsFullWidth(c) && at.col + 2 <= s.cols ==> r.cells[at.row][at.col + 1] == SkipCell)
  {
    var at := if Wraps(s, c) then LineFed(s) else s;
    var written := Put(at, Cell([c], at.style, false));
    if IsFullWidth(c) && written.col < written.cols then Put(written, SkipCell) else written
  }

  /** Writing a narrow character into the last column leaves the cursor just
      past it, on the same row, without scrolling. */
  lemma DeferredWrap(s: Screen, c: char)
    requires ValidScreen(s) && !IsFullWidth(c) && s.col + 1 == s.cols
    ensures CharWritten(s, c).row == s.row && CharWritten(s, c).col == s.cols
    ensures CharWritten(s, c).scrollback == s.scrollback
  {
  }

  /** A narrow character with room changes only the cell under the cursor. */
  lemma NarrowCharInPlace(s: Screen, c: char)
    requires ValidScreen(s) && !IsFullWidth(c) && s.col < s.cols
    ensures var r := CharWritten(s, c);
      r.row == s.row && r.col == s.col + 1 && r.scrollback == s.scrollback &&
      forall i, j :: 0 <= i < s.rows && 0 <= j < s.cols && (i != s.row || j != s.col) ==>
        r.cells[i][j] == s.cells[i][j]
  {
  }

  /** A full-width character with one column left wraps to the next line
      (leaving that column as it was) and takes two columns there. */
  lemma WideCharWraps(s: Screen, c: char)
    requires ValidScreen(s) && IsFullWidth(c) && s.col + 1 == s.cols && s.cols >= 2
    ensures var r := CharWritten(s, c);
      r.col == 2 && r.cells[r.row][0] == Cell([c], s.style, false) && r.cells[r.row][1] == SkipCell
  {
  }

  // ---- SGR and cursor motion ---------------------------------------------

  /** `applySgr(codes)` with the screen buffer's palette. */
  function SgrApplied(s: Screen, codes: seq<nat>): (r: Screen)
    ensures r == s.(style := Sgr.Apply(Sgr.Vscode, s.style, codes))
  {
    s.(style := Sgr.Apply(Sgr.Vscode, s.style, codes))
  }

  function Clamp(v: int, hi: int): (r: int)
    requires hi >= 0
    ensures 0 <= r <= hi
    ensures 0 <= v <= hi ==> r == v
    ensures v < 0 ==> r == 0
    ensures v > hi ==> r == hi
  {
    if v < 0 then 0 else if v > hi then hi else v
  }

  /** `moveCursor(row, col)`: the nearest cell of the grid. */
  function CursorMoved(s: Screen, row: int, col: int): (r: Screen)
    requires ValidScreen(s)
    ensures ValidScreen(r) && r.cells == s.cells && r.scrollback == s.scrollback
    ensures r.row < s.rows && r.col < s.cols
    ensures 0 <= row < s.rows ==> r.row == row
    ensures 0 <= col < s.cols ==> r.col == col
    ensures row < 0 ==> r.row == 0
    ensures row >= s.rows ==> r.row == s.rows - 1
    ensures col < 0 ==> r.col == 0
    ensures col >= s.cols ==> r.col == s.cols - 1
  {
    s.(row := Clamp(row, s.rows - 1), col := Clamp(col, s.cols - 1))
  }

  // ---- Erasing -----------------------------------------------------------

  /** The cells of `line` from `from` on made empty. */
  function ClearFrom(line: seq<Cell>, from: nat): (r: seq<Cell>)
    ensures |r| == |line|
    ensures forall k :: 0 <= k < |line| ==> r[k] == (if k >= from then EmptyCell else line[k])
  {
    seq(|line|, k requires 0 <= k < |line| => if k >= from then EmptyCell else line[k])
  }

  /** The cells of `line` up to and including `through` made empty; the line
      keeps its length. */
  function ClearThrough(line: seq<Cell>, through: nat): (r: seq<Cell>)
    ensures |r| == |line|
    ensures forall k :: 0 <= k < |line| ==> r[k] == (if k <= through then EmptyCell else line[k])
  {
    seq(|line|, k requires 0 <= k < |line| => if k <= through then EmptyCell else line[k])
  }

  /** The rows of `g` from `from` on made empty. */
  function ClearRowsFrom(g: seq<seq<Cell>>, from: nat, cols: nat): (h: seq<seq<Cell>>)
    ensures |h| == |g|
    ensures forall r :: 0 <= r < |g| ==> h[r] == (if r >= from then EmptyRow(cols) else g[r])
  {
    seq(|g|, r requires 0 <= r < |g| => if r >= from then EmptyRow(cols) else g[r])
  }

  /** The rows of `g` before `before` made empty. */
  function ClearRowsBefore(g: seq<seq<Cell>>, before: nat, cols: nat): (h: seq<seq<Cell>>)
    ensures |h| == |g|
    ensures forall r :: 0 <= r < |g| ==> h[r] == (if r < before then EmptyRow(cols) else g[r])
  {
    seq(|g|, r requires 0 <= r < |g| => if r < before then EmptyRow(cols) else g[r])
  }

  /** `clearToEndOfLine()` */
  function LineClearedToEnd(s: Screen): (r: Screen)
    requires ValidScreen(s)
    ensures ValidScreen(r)
  {
    s.(cells := s.cells[s.row := ClearFrom(s.cells[s.row], s.col)])
  }

  /** `clearScreen()`: an empty grid, the cursor home, and no scrollback or
      custom renders; the style stays. */
  function ScreenCleared(s: Screen): (r: Screen)
    requires ValidScreen(s)
    ensures ValidScreen(r) && r.row == 0 && r.col == 0 && r.style == s.style
    ensures r.cells == EmptyGrid(s.rows, s.cols) && r.scrollback == [] && r.customRenders == []
  {
    s.(cells := EmptyGrid(s.rows, s.cols), row := 0, col := 0, customRenders := [], scrollback := [])
  }

  /** `eraseDisplay(mode)`. Mode 1 uses the corrected bound: it clears through
      column `min(col, cols - 1)`, so the whole cursor row when the cursor
      waits past the last column. The loop as written, which writes one
      cell past the row there and so lengthens it, is `ClearThroughAsWritten`. */
  function DisplayErased(s: Screen, mode: nat): (r: Screen)
    requires ValidScreen(s)
    ensures ValidScreen(r)
  {
    if mode == 0 then
      var t := LineClearedToEnd(s);
      t.(cells := ClearRowsFrom(t.cells, s.row + 1, s.cols))
    else if mode == 1 then
      var t := s.(cells := ClearRowsBefore(s.cells, s.row, s.cols));
      t.(cells := t.cells[s.row := ClearThrough(t.cells[s.row], s.col)])
    else if mode == 2 || mode == 3 then ScreenCleared(s)
    else s
  }

  /** `eraseLine(mode)`, with mode 1 on the corrected bound as in `DisplayErased`
      (the loop as written is `ClearThroughAsWritten`). */
  function LineErased(s: Screen, mode: nat): (r: Screen)
    requires ValidScreen(s)
    ensures ValidScreen(r)
  {
    if mode == 0 then LineClearedToEnd(s)
    else if mode == 1 then s.(cells := s.cells[s.row := ClearThrough(s.cells[s.row], s.col)])
    else if mode == 2 then s.(cells := s.cells[s.row := EmptyRow(s.cols)])
    else s
  }

  /** Whether cell (`i`, `j`) lies at or after the cursor in reading order. */
  predicate AtOrAfterCursor(s: Screen, i: nat, j: nat) {
    i > s.row || (i == s.row && j >= s.col)
  }

  /** Whether cell (`i`, `j`) lies at or before the cursor in reading order. */
  predicate AtOrBeforeCursor(s: Screen, i: nat, j: nat) {
    i < s.row || (i == s.row && j <= s.col)
  }

  /** ED 0 empties exactly the cells from the cursor to the end; ED 1 exactly
      those from the start through the cursor. Nothing else changes. */
  lemma EraseDisplayRegions(s: Screen)
    requires ValidScreen(s)
    ensures forall i, j :: 0 <= i < s.rows && 0 <= j < s.cols ==>
      DisplayErased(s, 0).cells[i][j] == (if AtOrAfterCursor(s, i, j) then EmptyCell else s.cells[i][j])
    ensures forall i, j :: 0 <= i < s.rows && 0 <= j < s.cols ==>
      DisplayErased(s, 1).cells[i][j] == (if AtOrBeforeCursor(s, i, j) then EmptyCell else s.cells[i][j])
    ensures DisplayErased(s, 0).row == s.row && DisplayErased(s, 0).col == s.col
    ensures DisplayErased(s, 1).row == s.row && DisplayErased(s, 1).col == s.col
    ensures DisplayErased(s, 0).scrollback == s.scrollback && DisplayErased(s, 1).scrollback == s.scrollback
  {
  }

  /** ED 2 and 3 clear the screen, scrollback and custom renders included;
      other modes do nothing. */
  lemma EraseDisplayWhole(s: Screen, mode: nat)
    requires ValidScreen(s)
    ensures mode == 2 || mode == 3 ==> DisplayErased(s, mode) == ScreenCleared(s)
    ensures mode > 3 ==> DisplayErased(s, mode) == s
  {
  }

  /** EL 0, 1 and 2 empty the cursor row from the cursor, through the
      cursor, and entirely; other rows and the cursor stay. */
  lemma EraseLineRegions(s: Screen, mode: nat)
    requires ValidScreen(s) && mode <= 2
    ensures var r := LineErased(s, mode);
      r.row == s.row && r.col == s.col && r.scrollback == s.scrollback &&
      (forall i :: 0 <= i < s.rows && i != s.row ==> r.cells[i] == s.cells[i]) &&
      forall j :: 0 <= j < s.cols ==>
        r.cells[s.row][j] == (if (mode == 0 && j >= s.col) || (mode == 1 && j <= s.col) || mode == 2
                              then EmptyCell else s.cells[s.row][j])
  {
  }

  // ---- The inclusive erase loop as the source writes it -----------------

  /** `for (c = 0; c <= col; c++) row[c] = createEmptyCell()` on a JS array:
      an index equal to the length appends a cell. */
  function ClearThroughAsWritten(line: seq<Cell>, col: nat): (r: seq<Cell>)
    requires col <= |line|
    ensures |r| == (if col == |line| then |line| + 1 else |line|)
    ensures forall k :: 0 <= k <= col ==> r[k] == EmptyCell
  {
    if col == |line| then EmptyRow(|line| + 1) else ClearThrough(line, col)
  }

  /** `eraseDisplay(1)` as written. */
  function DisplayErasedStartAsWritten(s: Screen): (r: Screen)
    requires ValidScreen(s)
  {
    var t := s.(cells := ClearRowsBefore(s.cells, s.row, s.cols));
    t.(cells := t.cells[s.row := ClearThroughAsWritten(t.cells[s.row], s.col)])
  }

  /** `eraseLine(1)` as written. */
  function LineErasedStartAsWritten(s: Screen): (r: Screen)
    requires ValidScreen(s)
  {
    s.(cells := s.cells[s.row := ClearThroughAsWritten(s.cells[s.row], s.col)])
  }

  /** With the cursor waiting past the last column, ED 1 and EL 1 as written
      lengthen the cursor row by a cell, so the grid is no longer `cols`
      wide; writing one character into a 1-by-1 screen gets there. */
  lemma EraseStartAtDeferredWrapGrowsRow(s: Screen)
    requires ValidScreen(s) && s.col == s.cols
    ensures |DisplayErasedStartAsWritten(s).cells[s.row]| == s.cols + 1
    ensures |LineErasedStartAsWritten(s).cells[s.row]| == s.cols + 1
    ensures !ValidScreen(DisplayErasedStartAsWritten(s)) && !ValidScreen(LineErasedStartAsWritten(s))
    ensures CharWritten(Initial(1, 1), 'a').col == 1
  {
  }

  /** The corrected ED 1 and EL 1 at the same position empty the whole
      cursor row and keep the grid's shape. */
  lemma EraseStartAtDeferredWrapKeepsShape(s: Screen)
    requires ValidScreen(s) && s.col == s.cols
    ensures DisplayErased(s, 1).cells[s.row] == EmptyRow(s.cols)
    ensures LineErased(s, 1).cells[s.row] == EmptyRow(s.cols)
    ensures ValidScreen(DisplayErased(s, 1)) && ValidScreen(LineErased(s, 1))
  {
  }

  // ---- resize and backspace ----------------------------------------------

  /** One row of the grid after `resize`. */
  function ResizedRow(g: seq<seq<Cell>>, oldCols: nat, r: nat, cols: nat): (line: seq<Cell>)
    requires Shaped(g, |g|, oldCols)
    ensures |line| == cols
  {
    if r < |g| then
      if cols > oldCols then g[r] + EmptyRow(cols - oldCols) else g[r][..cols]
    else EmptyRow(cols)
  }

  /** `resize(rows, cols)`: the overlapping top-left part of the grid is
      kept, the rest is empty, and the cursor is pulled inside. The caller
      never asks for fewer than one row or column. */
  function Resized(s: Screen, rows: nat, cols: nat): (r: Screen)
    requires ValidScreen(s) && rows >= 1 && cols >= 1
    ensures ValidScreen(r) && r.rows == rows && r.cols == cols
  {
    s.(cells := seq(rows, i requires 0 <= i < rows => ResizedRow(s.cells, s.cols, i, cols)),
       rows := rows, cols := cols,
       row := if s.row < rows - 1 then s.row else rows - 1,
       col := if s.col < cols - 1 then s.col else cols - 1)
  }

  /** Every cell inside both the old and the new size keeps its content;
      every other cell of the new grid is empty; the cursor moves by `min`
      only; the scrollback and custom renders stay. */
  lemma ResizeKeepsOverlap(s: Screen, rows: nat, cols: nat)
    requires ValidScreen(s) && rows >= 1 && cols >= 1
    ensures var r := Resized(s, rows, cols);
      (forall i, j :: 0 <= i < rows && 0 <= j < cols ==>
        r.cells[i][j] == (if i < s.rows && j < s.cols then s.cells[i][j] else EmptyCell)) &&
      r.row == (if s.row < rows then s.row else rows - 1) &&
      r.col == (if s.col < cols then s.col else cols - 1) &&
      r.scrollback == s.scrollback && r.customRenders == s.customRenders && r.style == s.style
  {
  }

  /** `backspace()`: one column left, emptying the cell there. */
  function BackspaceErased(s: Screen): (r: Screen)
    requires ValidScreen(s)
    ensures ValidScreen(r) && r.row == s.row && r.rows == s.rows && r.cols == s.cols
    ensures s.col == 0 ==> r == s
    ensures s.col > 0 ==> r.col == s.col - 1 && r.cells[s.row][s.col - 1] == EmptyCell
    ensures s.col > 0 ==> forall i, j :: 0 <= i < s.rows && 0 <= j < s.cols && (i != s.row || j != s.col - 1) ==>
      r.cells[i][j] == s.cells[i][j]
  {
    if s.col > 0 then s.(col := s.col - 1, cells := SetCell(s.cells, s.row, s.col - 1, EmptyCell))
    else s
  }

  // ---- Actions -----------------------------------------------------------

  /** The characters of a text run written one by one. */
  function TextWritten(s: Screen, t: string): (r: Screen)
    requires ValidScreen(s)
    ensures ValidScreen(r) && r.rows == s.rows && r.cols == s.cols
    ensures r.style == s.style && r.customRenders == s.customRenders
    decreases |t|
  {
    if |t| == 0 then s else TextWritten(CharWritten(s, t[0]), t[1..])
  }

  /** `processAction(action)`. */
  function ActionProcessed(s: Screen, a: A.AnsiAction): (r: Screen)
    requires ValidScreen(s)
    ensures ValidScreen(r)
  {
    match a
    case TextRun(t) => TextWritten(s, t)
    case Sgr(codes) => SgrApplied(s, codes)
    case Cuu(n) => CursorMoved(s, s.row - n, s.col)
    case Cud(n) => CursorMoved(s, s.row + n, s.col)
    case Cuf(n) => CursorMoved(s, s.row, s.col + n)
    case Cub(n) => CursorMoved(s, s.row, s.col - n)
    case Cup(row, col) => CursorMoved(s, row, col)
    case Ed(n) => DisplayErased(s, n)
    case El(n) => LineErased(s, n)
    case Cr => s.(col := 0)
    case Lf => LineFed(s)
    case Bs => if s.col > 0 then s.(col := s.col - 1) else s
    case Custom(p) => s.(customRenders := s.customRenders + [CustomRender(s.row + |s.scrollback|, p)])
  }

  /** The actions applied in order. */
  function ActionsProcessed(s: Screen, actions: seq<A.AnsiAction>): (r: Screen)
    requires ValidScreen(s)
    ensures ValidScreen(r)
    decreases |actions|
  {
    if |actions| == 0 then s else ActionsProcessed(ActionProcessed(s, actions[0]), actions[1..])
  }

  /** `write(text)`: the parsed actions applied in order. */
  function Written(s: Screen, text: string, parse: string -> Option<JsonScan.Json>): (r: Screen)
    requires ValidScreen(s)
    ensures ValidScreen(r)
  {
    ActionsProcessed(s, A.Stream(text, "", parse))
  }

  /** The `bs` action moves left without erasing; CR goes to column 0 of the
      same row. */
  lemma ControlCharacters(s: Screen)
    requires ValidScreen(s)
    ensures ActionProcessed(s, A.Bs).cells == s.cells
    ensures ActionProcessed(s, A.Bs).col == (if s.col > 0 then s.col - 1 else 0)
    ensures ActionProcessed(s, A.Cr).col == 0 && ActionProcessed(s, A.Cr).row == s.row
    ensures ActionProcessed(s, A.Cr).cells == s.cells
  {
  }

  /** Relative moves clamp like absolute ones, and even a zero move pulls a
      cursor waiting past the last column back onto it. */
  lemma RelativeMovesClamp(s: Screen, n: nat)
    requires ValidScreen(s)
    ensures ActionProcessed(s, A.Cuu(n)).row == (if n <= s.row then s.row - n else 0)
    ensures ActionProcessed(s, A.Cud(n)).row == (if s.row + n < s.rows then s.row + n else s.rows - 1)
    ensures ActionProcessed(s, A.Cuf(n)).col == (if s.col + n < s.cols then s.col + n else s.cols - 1)
    ensures ActionProcessed(s, A.Cub(n)).col == (if n <= s.col then (if s.col - n < s.cols then s.col - n else s.cols - 1) else 0)
    ensures s.col == s.cols ==> ActionProcessed(s, A.Cuu(0)).col == s.cols - 1
  {
  }

  /** A custom render is anchored at the cursor's absolute row, counting the
      scrollback; later scrolling does not move it. */
  lemma CustomAnchoredAbsolute(s: Screen, p: JsonScan.Json)
    requires ValidScreen(s)
    ensures var r := ActionProcessed(s, A.Custom(p));
      r.customRenders == s.customRenders + [CustomRender(s.row + |s.scrollback|, p)] &&
      r.cells == s.cells && r.row == s.row && r.col == s.col
  {
  }

  // ---- The class ---------------------------------------------------------

  class ScreenBuffer {
    var cells: seq<seq<Cell>>
    var rows: nat
    var cols: nat
    var cursorRow: nat
    var cursorCol: nat
    var currentStyle: Sgr.Style
    var customRenders: seq<CustomRender>
    var scrollbackBuffer: seq<seq<Cell>>

    function State(): Screen
      reads this
    {
      Screen(cells, rows, cols, cursorRow, cursorCol, currentStyle, customRenders, scrollbackBuffer)
    }

    ghost predicate Valid()
      reads this
    {
      ValidScreen(State())
    }

    constructor (rows: nat, cols: nat)
      requires rows >= 1 && cols >= 1
      ensures Valid() && State() == Initial(rows, cols)
    {
      this.rows := rows;
      this.cols := cols;
      cursorRow, cursorCol := 0, 0;
      currentStyle := Sgr.Plain;
      cells := EmptyGrid(rows, cols);
      customRenders := [];
      scrollbackBuffer := [];
    }

    /** `getAllCells()` */
    function GetAllCells(): (g: seq<seq<Cell>>)
      reads this
      ensures g == AllCells(State())
    {
      scrollbackBuffer + cells
    }

    /** `getScrollbackLength()` */
    function GetScrollbackLength(): (n: nat)
      reads this
      ensures n == |State().scrollback|
    {
      |scrollbackBuffer|
    }

    method Scroll()
      requires Valid()
      modifies this
      ensures State() == Scrolled(old(State()))
    {
      var topRow := cells[0];
      cells := cells[1..];
      scrollbackBuffer := scrollbackBuffer + [topRow];
      if |scrollbackBuffer| > MaxScrollback {
        scrollbackBuffer := scrollbackBuffer[1..];
      }
      cells := cells + [EmptyRow(cols)];
    }

    method NewLine()
      requires Valid()
      modifies this
      ensures Valid() && State() == LineFed(old(State()))
    {
      cursorCol := 0;
      cursorRow := cursorRow + 1;
      if cursorRow >= rows {
        cursorRow := cursorRow - 1;
        Scroll();
        cursorRow := rows - 1;
      }
    }

    method WriteChar(c: char)
      requires Valid()
      modifies this
      ensures Valid() && State() == CharWritten(old(State()), c)
    {
      var fullWidth := IsFullWidth(c);
      if fullWidth && cursorCol + 1 >= cols {
        NewLine();
      } else if cursorCol >= cols {
        NewLine();
      }
      cells := SetCell(cells, cursorRow, cursorCol, Cell([c], currentStyle, false));
      cursorCol := cursorCol + 1;
      if fullWidth && cursorCol < cols {
        cells := SetCell(cells, cursorRow, cursorCol, SkipCell);
        cursorCol := cursorCol + 1;
      }
    }

    method ApplySgr(codes: seq<nat>)
      requires Valid()
      modifies this
      ensures Valid() && State() == SgrApplied(old(State()), codes)
    {
      currentStyle := Sgr.ApplyCodes(Sgr.Vscode, currentStyle, codes);
    }

    method MoveCursor(row: int, col: int)
      requires Valid()
      modifies this
      ensures Valid() && State() == CursorMoved(old(State()), row, col)
    {
      cursorRow := if 0 > (if rows - 1 < row then rows - 1 else row) then 0
                   else (if rows - 1 < row then rows - 1 else row);
      cursorCol := if 0 > (if cols - 1 < col then cols - 1 else col) then 0
                   else (if cols - 1 < col then cols - 1 else col);
    }

    method MoveCursorRelative(dRow: int, dCol: int)
      requires Valid()
      modifies this
      ensures Valid() && State() == CursorMoved(old(State()), old(cursorRow) + dRow, old(cursorCol) + dCol)
    {
      MoveCursor(cursorRow + dRow, cursorCol + dCol);
    }

    method ClearToEndOfLine()
      requires Valid()
      modifies this
      ensures Valid() && State() == LineClearedToEnd(old(State()))
    {
      var line := cells[cursorRow];
      var c := cursorCol;
      while c < cols
        invariant cursorCol <= c <= cols && |line| == cols
        invariant forall k :: 0 <= k < cols ==> line[k] == (if cursorCol <= k < c then EmptyCell else cells[cursorRow][k])
      {
        line := line[c := EmptyCell];
        c := c + 1;
      }
      assert line == ClearFrom(cells[cursorRow], cursorCol);
      cells := cells[cursorRow := line];
    }

    method ClearScreen()
      requires Valid()
      modifies this
      ensures Valid() && State() == ScreenCleared(old(State()))
    {
      cells := EmptyGrid(rows, cols);
      cursorRow, cursorCol := 0, 0;
      customRenders := [];
      scrollbackBuffer := [];
    }

    /** The start-of-line loop of ED 1 and EL 1, corrected: through the
        cursor column, but not past the last column, so a cursor waiting
        past the last column does not lengthen the row. */
    method ClearStartThroughCursor()
      requires Valid()
      modifies this
      ensures Valid() && State() == LineErased(old(State()), 1)
    {
      var line := cells[cursorRow];
      var last := if cursorCol < cols then cursorCol else cols - 1;
      var c := 0;
      while c <= last
        invariant 0 <= c <= last + 1 && |line| == cols
        invariant forall k :: 0 <= k < cols ==> line[k] == (if k < c then EmptyCell else cells[cursorRow][k])
      {
        line := line[c := EmptyCell];
        c := c + 1;
      }
      assert line == ClearThrough(cells[cursorRow], cursorCol);
      cells := cells[cursorRow := line];
    }

    /** The row loop of ED 0. */
    method ClearRowsBelowCursor()
      requires Valid()
      modifies this
      ensures Valid() && State() == old(State()).(cells := ClearRowsFrom(old(cells), old(cursorRow) + 1, old(cols)))
    {
      var grid := cells;
      var r := cursorRow + 1;
      while r < rows
        invariant cursorRow + 1 <= r <= rows && |grid| == rows
        invariant forall i :: 0 <= i < rows ==> grid[i] == (if cursorRow + 1 <= i < r then EmptyRow(cols) else cells[i])
      {
        grid := grid[r := EmptyRow(cols)];
        r := r + 1;
      }
      assert grid == ClearRowsFrom(cells, cursorRow + 1, cols);
      cells := grid;
    }

    /** The row loop of ED 1. */
    method ClearRowsAboveCursor()
      requires Valid()
      modifies this
      ensures Valid() && State() == old(State()).(cells := ClearRowsBefore(old(cells), old(cursorRow), old(cols)))
    {
      var grid := cells;
      var r := 0;
      while r < cursorRow
        invariant 0 <= r <= cursorRow && |grid| == rows
        invariant forall i :: 0 <= i < rows ==> grid[i] == (if i < r then EmptyRow(cols) else cells[i])
      {
        grid := grid[r := EmptyRow(cols)];
        r := r + 1;
      }
      assert grid == ClearRowsBefore(cells, cursorRow, cols);
      cells := grid;
    }

    /** `eraseDisplay`: 0 from the cursor to the end, 1 from the start
        through the cursor (with the corrected row loop), 2 and 3 the whole
        screen; other modes change nothing. */
    method EraseDisplay(mode: nat)
      requires Valid()
      modifies this
      ensures Valid() && State() == DisplayErased(old(State()), mode)
    {
      if mode == 0 {
        ClearToEndOfLine();
        ClearRowsBelowCursor();
      } else if mode == 1 {
        ClearRowsAboveCursor();
        ClearStartThroughCursor();
      } else if mode == 2 || mode == 3 {
        ClearScreen();
      }
    }

    /** `eraseLine`: 0 from the cursor to the end of the row, 1 from the
        start through the cursor (with the corrected row loop), 2 the whole
        row; other modes change nothing. */
    method EraseLine(mode: nat)
      requires Valid()
      modifies this
      ensures Valid() && State() == LineErased(old(State()), mode)
    {
      if mode == 0 {
        ClearToEndOfLine();
      } else if mode == 1 {
        ClearStartThroughCursor();
      } else if mode == 2 {
        cells := cells[cursorRow := EmptyRow(cols)];
      }
    }

    method Resize(newRows: nat, newCols: nat)
      requires Valid() && newRows >= 1 && newCols >= 1
      modifies this
      ensures Valid() && State() == Resized(old(State()), newRows, newCols)
    {
      var newCells: seq<seq<Cell>> := [];
      var r := 0;
      while r < newRows
        invariant 0 <= r <= newRows && |newCells| == r
        invariant forall i :: 0 <= i < r ==> newCells[i] == ResizedRow(cells, cols, i, newCols)
      {
        var line: seq<Cell>;
        if r < rows {
          if newCols > cols {
            line := cells[r] + EmptyRow(newCols - cols);
          } else {
            line := cells[r][..newCols];
          }
        } else {
          line := EmptyRow(newCols);
        }
        newCells := newCells + [line];
        r := r + 1;
      }
      cells := newCells;
      rows := newRows;
      cols := newCols;
      cursorRow := if cursorRow < newRows - 1 then cursorRow else newRows - 1;
      cursorCol := if cursorCol < newCols - 1 then cursorCol else newCols - 1;
    }

    method Backspace()
      requires Valid()
      modifies this
      ensures Valid() && State() == BackspaceErased(old(State()))
    {
      if cursorCol > 0 {
        cursorCol := cursorCol - 1;
        cells := SetCell(cells, cursorRow, cursorCol, EmptyCell);
      }
    }

    /** The `text` case of `processAction`: the code points in order. */
    method WriteText(t: string)
      requires Valid()
      modifies this
      ensures Valid() && State() == TextWritten(old(State()), t)
    {
      var i := 0;
      while i < |t|
        invariant 0 <= i <= |t| && Valid()
        invariant TextWritten(State(), t[i..]) == TextWritten(old(State()), t)
      {
        assert t[i..][0] == t[i] && t[i..][1..] == t[i + 1..];
        WriteChar(t[i]);
        i := i + 1;
      }
    }

    method ProcessAction(action: A.AnsiAction)
      requires Valid()
      modifies this
      ensures State() == ActionProcessed(old(State()), action)
      ensures Valid()
    {
      hide TextWritten, SgrApplied, CursorMoved, DisplayErased, LineErased, LineFed, ValidScreen;
      match action
      case TextRun(t) => WriteText(t);
      case Sgr(codes) => ApplySgr(codes);
      case Cuu(n) => MoveCursorRelative(-(n as int), 0);
      case Cud(n) => MoveCursorRelative(n, 0);
      case Cuf(n) => MoveCursorRelative(0, n);
      case Cub(n) => MoveCursorRelative(0, -(n as int));
      case Cup(row, col) => MoveCursor(row, col);
      case Ed(n) => EraseDisplay(n);
      case El(n) => EraseLine(n);
      case Cr => cursorCol := 0;
      case Lf => NewLine();
      case Bs =>
        if cursorCol > 0 {
          cursorCol := cursorCol - 1;
        }
      case Custom(p) =>
        customRenders := customRenders + [CustomRender(cursorRow + |scrollbackBuffer|, p)];
    }

    /** `write(text)`: parse, then process each action in order. */
    method Write(text: string, parse: string -> Option<JsonScan.Json>)
      requires Valid()
      modifies this
      ensures Valid() && State() == Written(old(State()), text, parse)
    {
      var actions := A.ParseAnsiStream(text, parse);
      var i := 0;
      while i < |actions|
        invariant 0 <= i <= |actions| && Valid()
        invariant ActionsProcessed(State(), actions[i..]) == ActionsProcessed(old(State()), actions)
      {
        assert actions[i..][0] == actions[i] && actions[i..][1..] == actions[i + 1..];
        ProcessAction(actions[i]);
        i := i + 1;
      }
    }
  }
}
