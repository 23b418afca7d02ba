/**
 * The modal key-dispatch state machine of editors/SimpleTextEditor, with its
 * scroll reconciliation and the layout of a redraw.
 *
 * `EditorState` is the value of the editor between keystrokes; `Step` says
 * what one key does to it.  The class `SimpleTextEditor` keeps the same state
 * in fields and a `TextBuffer`, and its methods are proved against `Step`,
 * `Scrolled` and `Render`.  The key byte and the window size, which the
 * source reads from the terminal, are parameters.
 */
module Editors {
  import opened Core
  import opened Viewport
  import opened Layout

  datatype EditorMode = Normal | Insert | Command

  const Escape: char := 27 as char
  const Backspace: char := 127 as char
  const CarriageReturn: char := 13 as char
  const LineFeed: char := 10 as char

  /** The file name the constructor gives the buffer. */
  const DefaultFilename: string := "untitled.txt"

  /** iscntrl on a single byte: the C0 controls and DEL. */
  predicate IsControl(c: char) {
    c as int < 32 || c as int == 127
  }

  /**
   * Everything a keystroke can change: the mode, the status message, the
   * quit flag, cursor and offsets, the buffer, and how many saves have been
   * requested (a save is an effect on the file system, counted here).
   */
  datatype EditorState = EditorState(
    mode: EditorMode,
    status: string,
    quit: bool,
    view: View,
    buffer: Buffer,
    saves: nat,
    filename: string)

  /** The invariant between keystrokes: at least one line, the cursor on the document, offsets not negative. */
  predicate Consistent(s: EditorState) {
    && s.buffer.Valid()
    && CursorInDocument(s.buffer, s.view.row, s.view.col)
    && s.view.rowOffset >= 0
    && s.view.colOffset >= 0
  }

  /** What splitLine demands of the Enter key: a cursor on an existing row has a column of at least 0. */
  predicate CanSplitAtCursor(s: EditorState) {
    0 <= s.view.row < |s.buffer.lines| ==> 0 <= s.view.col
  }

  /** The hjkl cursor movement of Normal mode, before scrolling. */
  function Moved(v: View, b: Buffer, key: char): View {
    if key == 'h' then
      (if v.col > 0 then v.(col := v.col - 1) else v)
    else if key == 'j' then
      (if v.row < |b.lines| - 1 then v.(row := v.row + 1) else v)
    else if key == 'k' then
      (if v.row > 0 then v.(row := v.row - 1) else v)
    else if key == 'l' then
      (if v.col < b.LineLength(v.row) then v.(col := v.col + 1) else v)
    else
      v
  }

  /**
   * processNormalKeyPress: `i` enters Insert mode and `q` requests quitting,
   * both at once and without scrolling; every other key (after `w` has
   * requested a save) moves the cursor if it is one of hjkl, reconciles the
   * scroll position and marks the buffer dirty.  No Normal-mode key edits a
   * line.
   */
  function NormalKey(s: EditorState, key: char, rows: int, cols: nat): (r: EditorState)
    ensures r.buffer.lines == s.buffer.lines
    ensures r.filename == s.filename
    ensures Consistent(s) ==> Consistent(r)
  {
    if key == 'i' then
      s.(mode := Insert, status := "-- INSERT --")
    else if key == 'q' then
      s.(quit := true)
    else
      var saved := if key == 'w' then s.(saves := s.saves + 1, status := "File Save: " + s.filename) else s;
      saved.(view := Scrolled(Moved(saved.view, saved.buffer, key), saved.buffer, rows, cols),
             buffer := saved.buffer.(dirty := true))
  }

  /** The buffer edit and cursor move of an Insert-mode key other than Escape, before scrolling. */
  function InsertEdit(s: EditorState, key: char): (r: EditorState)
    requires CanSplitAtCursor(s)
    ensures r.mode == s.mode && r.status == s.status && r.quit == s.quit && r.saves == s.saves
    ensures Consistent(s) ==> r.buffer.Valid() && r.view.row >= 0 && r.view.col >= 0
  {
    var row, col := s.view.row, s.view.col;
    if key == Backspace then
      if col > 0 then
        s.(buffer := s.buffer.DeleteChar(row, col - 1), view := s.view.(col := col - 1))
      else if row > 0 then
        var prevLen := s.buffer.LineLength(row - 1);
        s.(buffer := s.buffer.MergeLine(row), view := s.view.(row := row - 1, col := prevLen))
      else
        s
    else if key == CarriageReturn || key == LineFeed then
      s.(buffer := s.buffer.SplitLine(row, col), view := s.view.(row := row + 1, col := 0))
    else if !IsControl(key) then
      s.(buffer := s.buffer.InsertChar(row, col, key), view := s.view.(col := col + 1))
    else
      s
  }

  /**
   * processInsertKeyPress: Escape returns to Normal mode, moving the cursor
   * one left if it can, and stops there; any other key is applied by
   * InsertEdit, then the scroll position is reconciled and, unless quitting
   * was requested, the buffer is marked dirty.
   */
  function InsertKey(s: EditorState, key: char, rows: int, cols: nat): (r: EditorState)
    requires CanSplitAtCursor(s)
    ensures r.filename == s.filename
    ensures Consistent(s) ==> Consistent(r)
  {
    if key == Escape then
      s.(mode := Normal, status := "-- NORMAL --",
         view := s.view.(col := if s.view.col > 0 then s.view.col - 1 else s.view.col))
    else
      var edited := InsertEdit(s, key);
      var scrolled := edited.(view := Scrolled(edited.view, edited.buffer, rows, cols));
      if scrolled.quit then scrolled else scrolled.(buffer := scrolled.buffer.(dirty := true))
  }

  /**
   * processInput: Normal mode goes to the Normal handler, every other mode
   * (Command included) to the Insert handler.  Every keystroke keeps the
   * editor's invariant.
   */
  function Step(s: EditorState, key: char, rows: int, cols: nat): (r: EditorState)
    requires CanSplitAtCursor(s)
    ensures Consistent(s) ==> Consistent(r)
    ensures r.filename == s.filename
  {
    if s.mode == Normal then NormalKey(s, key, rows, cols) else InsertKey(s, key, rows, cols)
  }

  /** Normal-mode hjkl: each moves one cell if it can; a column past a shorter line is pulled back to its end. */
  lemma NormalMovement(s: EditorState, key: char, rows: int, cols: nat)
    requires Consistent(s) && s.mode == Normal
    requires key in "hjkl"
    ensures var r := Step(s, key, rows, cols);
      && r.mode == Normal
      && r.buffer.lines == s.buffer.lines
      && r.buffer.dirty
      && (key == 'h' ==> r.view.row == s.view.row && r.view.col == (if s.view.col > 0 then s.view.col - 1 else 0))
      && (key == 'l' ==> r.view.row == s.view.row
                         && r.view.col == (if s.view.col < |s.buffer.lines[s.view.row]| then s.view.col + 1 else s.view.col))
      && (key == 'j' ==> r.view.row == (if s.view.row < |s.buffer.lines| - 1 then s.view.row + 1 else s.view.row))
      && (key == 'k' ==> r.view.row == (if s.view.row > 0 then s.view.row - 1 else 0))
      && (key in "jk" ==> r.view.col == (if s.view.col <= |s.buffer.lines[r.view.row]| then s.view.col
                                         else |s.buffer.lines[r.view.row]|))
  {
    var m := Moved(s.view, s.buffer, key);
    assert 0 <= m.row < |s.buffer.lines|;
  }

  /** The mode switches: Normal `i`, Normal `q` and Insert Escape change only what they name. */
  lemma ModeSwitches(s: EditorState, key: char, rows: int, cols: nat)
    requires CanSplitAtCursor(s)
    ensures s.mode == Normal && key == 'i' ==>
      Step(s, key, rows, cols) == s.(mode := Insert, status := "-- INSERT --")
    ensures s.mode == Normal && key == 'q' ==>
      Step(s, key, rows, cols) == s.(quit := true)
    ensures s.mode != Normal && key == Escape ==>
      Step(s, key, rows, cols)
        == s.(mode := Normal, status := "-- NORMAL --",
              view := s.view.(col := if s.view.col > 0 then s.view.col - 1 else s.view.col))
  {
  }

  /** Insert mode, printable byte: it is inserted at the cursor and the cursor moves one right. */
  lemma InsertPrintable(s: EditorState, key: char, rows: int, cols: nat)
    requires Consistent(s) && s.mode != Normal
    requires !IsControl(key)
    ensures var r := Step(s, key, rows, cols);
      && r.mode == s.mode
      && r.buffer.lines == s.buffer.InsertChar(s.view.row, s.view.col, key).lines
      && r.view.row == s.view.row
      && r.view.col == s.view.col + 1
  {
    var edited := InsertEdit(s, key);
    assert CursorInDocument(edited.buffer, edited.view.row, edited.view.col);
  }

  /** Insert mode, Enter (CR or LF): the line is split at the cursor and the cursor goes to the start of the new line. */
  lemma InsertEnter(s: EditorState, key: char, rows: int, cols: nat)
    requires Consistent(s) && s.mode != Normal
    requires key == CarriageReturn || key == LineFeed
    ensures var r := Step(s, key, rows, cols);
      && r.mode == s.mode
      && r.buffer.lines == s.buffer.SplitLine(s.view.row, s.view.col).lines
      && r.view.row == s.view.row + 1
      && r.view.col == 0
  {
    var edited := InsertEdit(s, key);
    assert CursorInDocument(edited.buffer, edited.view.row, edited.view.col);
  }

  /**
   * Insert mode, Backspace: inside a line it deletes the character before
   * the cursor and steps back; at column 0 below the first row it joins the
   * row onto the previous one, the cursor landing where that row used to
   * end; at (0, 0) the lines and the cursor stay.
   */
  lemma InsertBackspace(s: EditorState, rows: int, cols: nat)
    requires Consistent(s) && s.mode != Normal
    ensures var r := Step(s, Backspace, rows, cols);
      && r.mode == s.mode
      && (s.view.col > 0 ==>
            && r.buffer.lines == s.buffer.DeleteChar(s.view.row, s.view.col - 1).lines
            && r.view.row == s.view.row && r.view.col == s.view.col - 1)
      && (s.view.col == 0 && s.view.row > 0 ==>
            && r.buffer.lines == s.buffer.MergeLine(s.view.row).lines
            && r.view.row == s.view.row - 1 && r.view.col == |s.buffer.lines[s.view.row - 1]|)
      && (s.view.col == 0 && s.view.row == 0 ==>
            r.buffer.lines == s.buffer.lines && r.view.row == 0 && r.view.col == 0)
  {
    var edited := InsertEdit(s, Backspace);
    assert CursorInDocument(edited.buffer, edited.view.row, edited.view.col);
  }

  /** Enter at the end of ["abc"] gives ["abc", ""] with the cursor at (1, 0). */
  lemma EnterAtEndOfLine(rows: int, cols: nat)
    ensures var s := EditorState(Insert, "", false, View(0, 3, 0, 0), Buffer(["abc"], false), 0, DefaultFilename);
      var r := Step(s, CarriageReturn, rows, cols);
      r.buffer.lines == ["abc", ""] && r.view.row == 1 && r.view.col == 0
  {
    var s := EditorState(Insert, "", false, View(0, 3, 0, 0), Buffer(["abc"], false), 0, DefaultFilename);
    InsertEnter(s, CarriageReturn, rows, cols);
    var split := s.buffer.SplitLine(0, 3);
    assert split.lines[0] + split.lines[1] == "abc";
    assert split.lines[0] == "abc";
  }

  /** Backspace at the start of the second of ["ab", "cd"] gives ["abcd"] with the cursor at (0, 2). */
  lemma BackspaceJoinsLines(rows: int, cols: nat)
    ensures var s := EditorState(Insert, "", false, View(1, 0, 0, 0), Buffer(["ab", "cd"], false), 0, DefaultFilename);
      var r := Step(s, Backspace, rows, cols);
      r.buffer.lines == ["abcd"] && r.view.row == 0 && r.view.col == 2
  {
    var s := EditorState(Insert, "", false, View(1, 0, 0, 0), Buffer(["ab", "cd"], false), 0, DefaultFilename);
    InsertBackspace(s, rows, cols);
    var merged := s.buffer.MergeLine(1);
    assert merged.lines[0] == "abcd";
  }

  /** A redraw: the title bar, the content rows, the status bar and the cursor cell. */
  datatype Frame = Frame(title: string, content: seq<ScreenLine>, statusBar: string, cursor: (int, int))

  /** What screen row `screenRow` of the content region shows: part of line rowOffset + screenRow, or filler. */
  function RowOnScreen(b: Buffer, rowOffset: nat, colOffset: nat, cols: nat, screenRow: nat): ScreenLine {
    var fileRow := screenRow + rowOffset;
    if fileRow < |b.lines| then Text(VisibleSlice(b.LineAt(fileRow), colOffset, cols)) else Filler
  }

  /** The content region of a window with `rows` rows: all but the title and the status rows. */
  function ContentLines(b: Buffer, rowOffset: nat, colOffset: nat, rows: int, cols: nat): (r: seq<ScreenLine>)
    ensures |r| == if rows >= 2 then rows - 2 else 0
    ensures forall i :: 0 <= i < |r| ==>
      r[i] == if rowOffset + i < |b.lines| then Text(VisibleSlice(b.lines[rowOffset + i], colOffset, cols)) else Filler
  {
    var n := if rows >= 2 then rows - 2 else 0;
    seq(n, i requires 0 <= i < n => RowOnScreen(b, rowOffset, colOffset, cols, i))
  }

  function TitleText(rows: int, cols: nat): string {
    "Size: " + IntString(cols) + "x" + IntString(rows)
  }

  function StatusText(s: EditorState): string {
    " " + s.status + " | " + s.filename + " | " + IntString(s.view.row) + ":" + IntString(s.view.col)
  }

  /** The layout drawInterface produces for a state and a window size. */
  function Render(s: EditorState, rows: int, cols: nat): (f: Frame)
    requires s.view.rowOffset >= 0 && s.view.colOffset >= 0
    ensures |f.title| == cols && |f.statusBar| == cols
    ensures f.cursor.0 >= 2 && f.cursor.1 >= 1
  {
    Frame(
      FitToWidth(TitleText(rows, cols), cols),
      ContentLines(s.buffer, s.view.rowOffset, s.view.colOffset, rows, cols),
      FitToWidth(StatusText(s), cols),
      ScreenCursor(s.view.row, s.view.col, s.view.rowOffset, s.view.colOffset))
  }

  /**
   * A state whose cursor lies inside the content window is drawn with the
   * cursor inside the content region, on the screen row that shows the
   * cursor's line from colOffset on.
   */
  lemma CursorVisibleInFrame(r: EditorState, rows: int, cols: nat)
    requires Consistent(r)
    requires r.view.rowOffset <= r.view.row < r.view.rowOffset + rows - 2
    requires r.view.colOffset <= r.view.col < r.view.colOffset + cols
    ensures var f := Render(r, rows, cols);
      && 2 <= f.cursor.0 <= rows - 1
      && 1 <= f.cursor.1 <= cols
      && f.content[f.cursor.0 - 2]
           == Text(VisibleSlice(r.buffer.lines[r.view.row], r.view.colOffset, cols))
  {
    var f := Render(r, rows, cols);
    assert f.cursor.0 - 2 == r.view.row - r.view.rowOffset;
  }

  /**
   * After a keystroke has reconciled the scroll position for a window of at
   * least three rows and one column, the redraw puts the cursor inside the
   * content region, on the screen row that shows the cursor's line.
   */
  lemma CursorVisibleAfterStep(s: EditorState, key: char, rows: int, cols: nat)
    requires Consistent(s) && rows >= 3 && cols >= 1
    requires !(s.mode == Normal && key in "iq") && !(s.mode != Normal && key == Escape)
    ensures var r := Step(s, key, rows, cols);
      var f := Render(r, rows, cols);
      && 2 <= f.cursor.0 <= rows - 1
      && 1 <= f.cursor.1 <= cols
      && f.content[f.cursor.0 - 2]
           == Text(VisibleSlice(r.buffer.lines[r.view.row], r.view.colOffset, cols))
  {
    var r := Step(s, key, rows, cols);
    if s.mode == Normal {
      assert r.view == Scrolled(Moved(s.view, s.buffer, key), s.buffer, rows, cols);
    } else {
      var edited := InsertEdit(s, key);
      assert r.view == Scrolled(edited.view, edited.buffer, rows, cols);
    }
    CursorVisibleInFrame(r, rows, cols);
  }

  /** The editor of editors/SimpleTextEditor with the fields of core/AbstractEditor it uses. */
  class SimpleTextEditor {
    const buffer: TextBuffer
    const filename: string
    var mode: EditorMode
    var statusMsg: string
    var shouldQuit: bool
    var cursorRow: int
    var cursorCol: int
    var rowOffset: int
    var colOffset: int
    var saves: nat

    ghost function State(): EditorState
      reads this, buffer
    {
      EditorState(mode, statusMsg, shouldQuit, View(cursorRow, cursorCol, rowOffset, colOffset),
                  buffer.Value(), saves, filename)
    }

    ghost predicate Valid()
      reads this, buffer
    {
      Consistent(State())
    }

    /** A new editor: Normal mode, one empty dirty line, cursor and offsets at 0, nothing requested. */
    constructor ()
      ensures Valid() && fresh(buffer)
      ensures State() == EditorState(Normal, "", false, View(0, 0, 0, 0), Buffer([""], true), 0, DefaultFilename)
    {
      buffer := new TextBuffer();
      filename := DefaultFilename;
      mode := Normal;
      statusMsg := "";
      shouldQuit := false;
      cursorRow, cursorCol := 0, 0;
      rowOffset, colOffset := 0, 0;
      saves := 0;
    }

    /** One keystroke `key` on a window of `rows` x `cols` cells. */
    method ProcessInput(key: char, rows: int, cols: nat)
      requires Valid()
      modifies this, buffer
      ensures Valid()
      ensures State() == Step(old(State()), key, rows, cols)
    {
      ghost var before := State();
      if mode == Normal {
        ProcessNormalKeyPress(key, rows, cols);
        assert State() == NormalKey(before, key, rows, cols);
      } else {
        ProcessInsertKeyPress(key, rows, cols);
        assert State() == InsertKey(before, key, rows, cols);
      }
    }

    method ProcessNormalKeyPress(key: char, rows: int, cols: nat)
      modifies this, buffer
      ensures State() == NormalKey(old(State()), key, rows, cols)
    {
      if key == 'i' {
        mode := Insert;
        statusMsg := "-- INSERT --";
        return;
      }
      if key == 'q' {
        shouldQuit := true;
        return;
      }
      if key == 'w' {
        saves := saves + 1;
        statusMsg := "File Save: " + filename;
      }
      MoveCursor(key);
      EditorScroll(rows, cols);
      buffer.SetDirty(true);
    }

    /** The hjkl branches of processNormalKeyPress. */
    method MoveCursor(key: char)
      modifies this
      ensures State() == old(State()).(view := Moved(old(State()).view, buffer.Value(), key))
    {
      if key == 'h' {
        if cursorCol > 0 { cursorCol := cursorCol - 1; }
      } else if key == 'j' {
        if cursorRow < buffer.GetLineCount() - 1 { cursorRow := cursorRow + 1; }
      } else if key == 'k' {
        if cursorRow > 0 { cursorRow := cursorRow - 1; }
      } else if key == 'l' {
        if cursorCol < buffer.GetLineLength(cursorRow) { cursorCol := cursorCol + 1; }
      }
    }

    method ProcessInsertKeyPress(key: char, rows: int, cols: nat)
      requires CanSplitAtCursor(State())
      modifies this, buffer
      ensures State() == InsertKey(old(State()), key, rows, cols)
    {
      if key == Escape {
        mode := Normal;
        statusMsg := "-- NORMAL --";
        if cursorCol > 0 { cursorCol := cursorCol - 1; }
        return;
      }
      EditAtCursor(key);
      EditorScroll(rows, cols);
      if !shouldQuit {
        buffer.SetDirty(true);
      }
    }

    /** The Backspace, Enter and printable-byte branches of processInsertKeyPress. */
    method EditAtCursor(key: char)
      requires CanSplitAtCursor(State())
      modifies this, buffer
      ensures State() == InsertEdit(old(State()), key)
    {
      if key == Backspace {
        if cursorCol > 0 {
          buffer.DeleteChar(cursorRow, cursorCol - 1);
          cursorCol := cursorCol - 1;
        } else if cursorRow > 0 {
          var prevLen := buffer.GetLineLength(cursorRow - 1);
          buffer.MergeLine(cursorRow);
          cursorRow := cursorRow - 1;
          cursorCol := prevLen;
        }
      } else if key == CarriageReturn || key == LineFeed {
        buffer.SplitLine(cursorRow, cursorCol);
        cursorRow := cursorRow + 1;
        cursorCol := 0;
      } else if !IsControl(key) {
        buffer.InsertChar(cursorRow, cursorCol, key);
        cursorCol := cursorCol + 1;
      }
    }

    /** editorScroll: clamp the cursor into the document, then move the offsets so that it is visible. */
    method EditorScroll(rows: int, cols: nat)
      modifies this
      ensures State() == old(State()).(view := Scrolled(old(State()).view, buffer.Value(), rows, cols))
    {
      ClampCursor();
      ScrollOffsets(rows, cols);
    }

    /** The clamping half of editorScroll. */
    method ClampCursor()
      modifies this
      ensures State() == old(State()).(view := Clamped(old(State()).view, buffer.Value()))
    {
      var count := buffer.GetLineCount();
      if cursorRow >= count {
        cursorRow := if count > 0 then count - 1 else 0;
      }
      if cursorRow < count {
        var len := buffer.GetLineLength(cursorRow);
        if cursorCol > len {
          cursorCol := len;
        }
      } else {
        cursorCol := 0;
      }
    }

    /** The scrolling half of editorScroll, on a window of rows - 2 content rows and `cols` columns. */
    method ScrollOffsets(rows: int, cols: nat)
      modifies this
      ensures State() == old(State()).(view := old(State()).view.(
        rowOffset := ScrollAxis(cursorRow, old(rowOffset), rows - 2),
        colOffset := ScrollAxis(cursorCol, old(colOffset), cols)))
    {
      var contentRows := rows - 2;
      if cursorRow < rowOffset {
        rowOffset := cursorRow;
      }
      if cursorRow >= rowOffset + contentRows {
        rowOffset := cursorRow - contentRows + 1;
      }
      if cursorCol < colOffset {
        colOffset := cursorCol;
      }
      if cursorCol >= colOffset + cols {
        colOffset := cursorCol - cols + 1;
      }
    }

    /**
     * drawInterface: nothing happens unless the buffer is dirty; otherwise
     * the frame `Render` describes is produced and the dirty flag cleared.
     */
    method DrawInterface(rows: int, cols: nat) returns (frame: Option<Frame>)
      requires Valid()
      modifies buffer
      ensures old(State()).buffer.dirty ==>
        && frame == Some(Render(old(State()), rows, cols))
        && State() == old(State()).(buffer := old(State()).buffer.(dirty := false))
      ensures !old(State()).buffer.dirty ==> frame == None && State() == old(State())
    {
      if !buffer.IsDirty() {
        return None;
      }
      var title := DrawTitle(rows, cols);
      var content := DrawContent(rows, cols);
      var status := DrawStatus(cols);
      var cursor := ScreenCursor(cursorRow, cursorCol, rowOffset, colOffset);
      buffer.SetDirty(false);
      frame := Some(Frame(title, content, status, cursor));
    }

    /** The title bar: the window size, cut or padded to the window width. */
    method DrawTitle(rows: int, cols: nat) returns (title: string)
      ensures title == FitToWidth(TitleText(rows, cols), cols)
    {
      title := "Size: " + IntString(cols) + "x" + IntString(rows);
      if |title| > cols {
        title := title[..cols];
      }
      title := PadTo(title, cols);
      assert title == FitToWidth(TitleText(rows, cols), cols);
    }

    /** The content rows: for each screen row, the visible part of its document line or the filler. */
    method DrawContent(rows: int, cols: nat) returns (content: seq<ScreenLine>)
      requires rowOffset >= 0 && colOffset >= 0
      ensures content == ContentLines(buffer.Value(), rowOffset, colOffset, rows, cols)
    {
      var contentRows := rows - 2;
      content := [];
      var screenRow := 0;
      while screenRow < contentRows
        invariant 0 <= screenRow
        invariant contentRows >= 0 ==> screenRow <= contentRows
        invariant contentRows < 0 ==> screenRow == 0
        invariant |content| == screenRow
        invariant forall i :: 0 <= i < screenRow ==>
          content[i] == RowOnScreen(buffer.Value(), rowOffset, colOffset, cols, i)
      {
        var fileRow := screenRow + rowOffset;
        var shown;
        if fileRow < buffer.GetLineCount() {
          var line := buffer.GetLine(fileRow);
          var visible := "";
          if colOffset < |line| {
            visible := VisibleSlice(line, colOffset, cols);
          }
          shown := Text(visible);
        } else {
          shown := Filler;
        }
        content := content + [shown];
        screenRow := screenRow + 1;
      }
    }

    /** The status bar: message, file name and cursor position, padded or cut to the window width. */
    method DrawStatus(cols: nat) returns (status: string)
      ensures status == FitToWidth(StatusText(State()), cols)
    {
      status := " " + statusMsg + " | " + filename + " | " + IntString(cursorRow) + ":" + IntString(cursorCol);
      status := PadTo(status, cols);
    }
  }
}
