/**
 * Scroll reconciliation of editors/SimpleTextEditor (editorScroll): the
 * cursor is clamped into the document, then the row and column offsets are
 * moved just far enough that the cursor lies inside the content window.
 */
module Viewport {
  import opened Core

  /** The logical cursor and the document position shown at the top-left of the content region. */
  datatype View = View(row: int, col: int, rowOffset: int, colOffset: int)

  /** A cursor position the document can hold: exactly the positions at which insertChar acts. */
  predicate CursorInDocument(b: Buffer, row: int, col: int) {
    b.CanInsertAt(row, col)
  }

  /**
   * One axis of the scroll rule: reveal `pos` above (or left of) the window
   * by moving the offset onto it, below (or right of) it by moving the
   * offset so that `pos` is the last visible position.
   */
  function ScrollAxis(pos: int, offset: int, span: int): (r: int)
    ensures span >= 1 ==> r <= pos < r + span
    ensures offset <= pos < offset + span ==> r == offset
    ensures pos >= 0 && offset >= 0 ==> r >= 0
    ensures span >= 1 && pos < offset ==> r == pos
    ensures span >= 1 && pos >= offset + span ==> r == pos - span + 1
    ensures span <= 0 ==> r == pos - span + 1
  {
    var up := if pos < offset then pos else offset;
    if pos >= up + span then pos - span + 1 else up
  }

  /** Applying the scroll rule to its own result changes nothing. */
  lemma ScrollAxisIdempotent(pos: int, offset: int, span: int)
    ensures ScrollAxis(pos, ScrollAxis(pos, offset, span), span) == ScrollAxis(pos, offset, span)
  {
    var once := ScrollAxis(pos, offset, span);
    if span >= 1 {
      assert once <= pos < once + span;
    } else {
      assert once == pos - span + 1;
    }
  }

  /**
   * The first half of editorScroll: the row is pulled back onto the last
   * line, then the column onto the end of its line (a row outside the
   * document reads as length 0).  The offsets are not touched.
   */
  function Clamped(v: View, b: Buffer): (w: View)
    ensures |b.lines| >= 1 && v.row >= 0 && v.col >= 0 ==> CursorInDocument(b, w.row, w.col)
    ensures CursorInDocument(b, v.row, v.col) ==> w == v
    ensures w.rowOffset == v.rowOffset && w.colOffset == v.colOffset
    ensures v.row >= 0 ==> w.row >= 0
    ensures v.col >= 0 ==> w.col >= 0
    ensures |b.lines| >= 1 && v.row >= |b.lines| ==> w.row == |b.lines| - 1
    ensures v.row < |b.lines| ==> w.row == v.row
    ensures 0 <= w.row < |b.lines| && v.col > |b.lines[w.row]| ==> w.col == |b.lines[w.row]|
    ensures 0 <= w.row < |b.lines| && v.col <= |b.lines[w.row]| ==> w.col == v.col
    ensures w.row >= |b.lines| ==> w.col == 0
    ensures |b.lines| == 0 && v.row >= 0 ==> w.row == 0
    ensures w.row < 0 ==> w.col == (if v.col > 0 then 0 else v.col)
  {
    var count := |b.lines|;
    var row := if v.row >= count then (if count > 0 then count - 1 else 0) else v.row;
    var col :=
      if row < count then
        (if v.col > b.LineLength(row) then b.LineLength(row) else v.col)
      else
        0;
    v.(row := row, col := col)
  }

  /**
   * editorScroll on a window of `rows` x `cols` terminal cells, of which
   * rows - 2 show the document: the cursor is clamped, then each offset
   * follows ScrollAxis.
   */
  function Scrolled(v: View, b: Buffer, rows: int, cols: nat): (w: View)
    ensures |b.lines| >= 1 && v.row >= 0 && v.col >= 0 ==> CursorInDocument(b, w.row, w.col)
    ensures CursorInDocument(b, v.row, v.col) ==> w.row == v.row && w.col == v.col
    ensures rows >= 3 ==> w.rowOffset <= w.row < w.rowOffset + rows - 2
    ensures cols >= 1 ==> w.colOffset <= w.col < w.colOffset + cols
    ensures v.row >= 0 && v.rowOffset >= 0 ==> w.rowOffset >= 0
    ensures v.col >= 0 && v.colOffset >= 0 ==> w.colOffset >= 0
    ensures CursorInDocument(b, v.row, v.col) && v.rowOffset <= v.row < v.rowOffset + rows - 2
      ==> w.rowOffset == v.rowOffset
    ensures CursorInDocument(b, v.row, v.col) && v.colOffset <= v.col < v.colOffset + cols
      ==> w.colOffset == v.colOffset
  {
    var c := Clamped(v, b);
    c.(rowOffset := ScrollAxis(c.row, c.rowOffset, rows - 2), colOffset := ScrollAxis(c.col, c.colOffset, cols))
  }

  /** Reconciling twice with no change in between gives the same cursor and offsets as once. */
  lemma ScrolledIdempotent(v: View, b: Buffer, rows: int, cols: nat)
    ensures Scrolled(Scrolled(v, b, rows, cols), b, rows, cols) == Scrolled(v, b, rows, cols)
  {
    var once := Scrolled(v, b, rows, cols);
    var twice := Scrolled(once, b, rows, cols);
    assert Clamped(once, b) == once;
    ScrollAxisIdempotent(once.row, v.rowOffset, rows - 2);
    ScrollAxisIdempotent(once.col, v.colOffset, cols);
  }
}
