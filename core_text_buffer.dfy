/**
 * The document of the editor (core/TextBuffer): an ordered sequence of lines
 * plus a dirty flag that tells the renderer the screen may be stale.
 *
 * `Buffer` is the value of a text buffer; its member functions say what each
 * primitive does to that value.  The class `TextBuffer` holds the same state in
 * mutable fields and its methods are proved against those functions.
 */
module Core {

  /** One row of the document (the `chars` of an `EditorRow`). */
  type Line = string

  type Document = seq<Line>

  /** The value held by a `TextBuffer`: its lines and its dirty flag. */
  datatype Buffer = Buffer(lines: Document, dirty: bool) {

    /** The invariant every buffer reachable from the constructor keeps: at least one line. */
    predicate Valid() {
      |lines| >= 1
    }

    /** getLine: the text of a row, or the empty string for a row that does not exist. */
    function LineAt(row: int): (s: Line)
      ensures 0 <= row < |lines| ==> s == lines[row]
      ensures !(0 <= row < |lines|) ==> s == ""
    {
      if 0 <= row < |lines| then lines[row] else ""
    }

    /** getLineLength: agrees with the length of getLine for every row, valid or not. */
    function LineLength(row: int): (n: nat)
      ensures n == |LineAt(row)|
      ensures !(0 <= row < |lines|) ==> n == 0
    {
      if 0 <= row < |lines| then |lines[row]| else 0
    }

    /**
     * insertLine: for 0 <= row <= count the text becomes line `row`, earlier
     * lines stay where they are and later lines move up by one; any other
     * row changes nothing, not even the dirty flag.
     */
    function InsertLine(row: int, text: Line): (r: Buffer)
      ensures 0 <= row <= |lines| ==>
        && |r.lines| == |lines| + 1
        && r.dirty
        && r.lines[row] == text
        && (forall i :: 0 <= i < row ==> r.lines[i] == lines[i])
        && (forall i :: row < i < |r.lines| ==> r.lines[i] == lines[i - 1])
      ensures !(0 <= row <= |lines|) ==> r == this
      ensures Valid() ==> r.Valid()
    {
      if 0 <= row <= |lines| then Buffer(lines[..row] + [text] + lines[row..], true) else this
    }

    /** The positions at which insertChar acts: an existing row and 0 <= col <= its length. */
    predicate CanInsertAt(row: int, col: int) {
      0 <= row < |lines| && 0 <= col <= |lines[row]|
    }

    /**
     * insertChar: the character lands at index `col` of line `row`, the text
     * before it stays and the text from `col` on moves one place right; no
     * other line and not the line count change.  Outside the valid positions
     * nothing changes.
     */
    function InsertChar(row: int, col: int, ch: char): (r: Buffer)
      ensures CanInsertAt(row, col) ==>
        && |r.lines| == |lines|
        && r.dirty
        && |r.lines[row]| == |lines[row]| + 1
        && r.lines[row][col] == ch
        && r.lines[row][..col] == lines[row][..col]
        && r.lines[row][col + 1..] == lines[row][col..]
        && (forall i :: 0 <= i < |lines| && i != row ==> r.lines[i] == lines[i])
      ensures !CanInsertAt(row, col) ==> r == this
      ensures Valid() ==> r.Valid()
    {
      if CanInsertAt(row, col) then
        Buffer(lines[row := lines[row][..col] + [ch] + lines[row][col..]], true)
      else
        this
    }

    /** The positions at which deleteChar acts: an existing row and an existing character of it. */
    predicate CanDeleteAt(row: int, col: int) {
      0 <= row < |lines| && 0 <= col < |lines[row]|
    }

    /**
     * deleteChar: exactly the character at index `col` of line `row` goes
     * away; everything else stays.  Outside the valid positions nothing
     * changes.
     */
    function DeleteChar(row: int, col: int): (r: Buffer)
      ensures CanDeleteAt(row, col) ==>
        && |r.lines| == |lines|
        && r.dirty
        && |r.lines[row]| + 1 == |lines[row]|
        && r.lines[row][..col] == lines[row][..col]
        && r.lines[row][col..] == lines[row][col + 1..]
        && (forall i :: 0 <= i < |lines| && i != row ==> r.lines[i] == lines[i])
      ensures !CanDeleteAt(row, col) ==> r == this
      ensures Valid() ==> r.Valid()
    {
      if CanDeleteAt(row, col) then
        Buffer(lines[row := lines[row][..col] + lines[row][col + 1..]], true)
      else
        this
    }

    /**
     * splitLine: `col` is first clamped to the line's length; the part before
     * it stays at `row`, the rest becomes a new line at `row + 1`, so the two
     * concatenate to the old line; the line count grows by one and the flag
     * is set (by the insertLine it ends with).  A row that does not exist
     * changes nothing.  A negative column on an existing row is excluded: the
     * source hands it to substr, which throws.
     */
    function SplitLine(row: int, col: int): (r: Buffer)
      requires 0 <= row < |lines| ==> 0 <= col
      ensures 0 <= row < |lines| ==>
        && |r.lines| == |lines| + 1
        && r.dirty
        && r.lines[row] + r.lines[row + 1] == lines[row]
        && |r.lines[row]| == (if col <= |lines[row]| then col else |lines[row]|)
        && (forall i :: 0 <= i < row ==> r.lines[i] == lines[i])
        && (forall i :: row + 1 < i < |r.lines| ==> r.lines[i] == lines[i - 1])
      ensures !(0 <= row < |lines|) ==> r == this
      ensures Valid() ==> r.Valid()
    {
      if 0 <= row < |lines| then
        var current := lines[row];
        var k := if col > |current| then |current| else col;
        Buffer(lines[row := current[..k]], dirty).InsertLine(row + 1, current[k..])
      else
        this
    }

    /**
     * mergeLine: for 1 <= row < count line `row` is appended to line
     * `row - 1` and removed, later lines move down by one.  Row 0 and rows
     * that do not exist change nothing, so the line count never drops
     * below one.
     */
    function MergeLine(row: int): (r: Buffer)
      ensures 1 <= row < |lines| ==>
        && |r.lines| + 1 == |lines|
        && r.dirty
        && r.lines[row - 1] == lines[row - 1] + lines[row]
        && (forall i :: 0 <= i < row - 1 ==> r.lines[i] == lines[i])
        && (forall i :: row <= i < |r.lines| ==> r.lines[i] == lines[i + 1])
      ensures !(1 <= row < |lines|) ==> r == this
      ensures Valid() ==> r.Valid()
    {
      if 1 <= row < |lines| then
        Buffer(lines[..row - 1] + [lines[row - 1] + lines[row]] + lines[row + 1..], true)
      else
        this
    }
  }

  /** insertChar followed by deleteChar at the same position restores the lines. */
  lemma InsertThenDeleteChar(b: Buffer, row: int, col: int, ch: char)
    requires b.CanInsertAt(row, col)
    ensures b.InsertChar(row, col, ch).DeleteChar(row, col).lines == b.lines
  {
    var after := b.InsertChar(row, col, ch);
    assert after.CanDeleteAt(row, col);
    var back := after.DeleteChar(row, col);
    assert back.lines[row] == b.lines[row][..col] + b.lines[row][col..];
    assert b.lines[row][..col] + b.lines[row][col..] == b.lines[row];
  }

  /** deleteChar followed by re-inserting the deleted character restores the lines. */
  lemma DeleteThenInsertChar(b: Buffer, row: int, col: int)
    requires b.CanDeleteAt(row, col)
    ensures b.DeleteChar(row, col).InsertChar(row, col, b.lines[row][col]).lines == b.lines
  {
    var after := b.DeleteChar(row, col);
    assert after.CanInsertAt(row, col);
    var back := after.InsertChar(row, col, b.lines[row][col]);
    var line := b.lines[row];
    assert back.lines[row] == line[..col] + [line[col]] + line[col + 1..];
    assert line[..col] + [line[col]] + line[col + 1..] == line;
  }

  /** splitLine(row, col) followed by mergeLine(row + 1) restores the lines and their count. */
  lemma SplitThenMerge(b: Buffer, row: int, col: int)
    requires 0 <= row < |b.lines| && 0 <= col
    ensures b.SplitLine(row, col).MergeLine(row + 1).lines == b.lines
  {
    var split := b.SplitLine(row, col);
    var merged := split.MergeLine(row + 1);
    assert |merged.lines| == |b.lines|;
    forall i | 0 <= i < |b.lines|
      ensures merged.lines[i] == b.lines[i]
    {
      if i > row {
        assert merged.lines[i] == split.lines[i + 1];
      }
    }
  }

  /** mergeLine(row) followed by splitLine at the old end of line row - 1 restores the lines. */
  lemma MergeThenSplit(b: Buffer, row: int)
    requires 1 <= row < |b.lines|
    ensures b.MergeLine(row).SplitLine(row - 1, |b.lines[row - 1]|).lines == b.lines
  {
    var merged := b.MergeLine(row);
    var split := merged.SplitLine(row - 1, |b.lines[row - 1]|);
    assert |split.lines| == |b.lines|;
    var joined := b.lines[row - 1] + b.lines[row];
    assert split.lines[row - 1] == joined[..|b.lines[row - 1]|];
    assert split.lines[row] == joined[|b.lines[row - 1]|..];
    forall i | 0 <= i < |b.lines|
      ensures split.lines[i] == b.lines[i]
    {
      if i > row {
        assert split.lines[i] == merged.lines[i - 1];
      }
    }
  }

  /** The text buffer of core/TextBuffer, whose vector of rows and dirty flag change in place. */
  class TextBuffer {
    var content: Document
    var dirty: bool

    /** The value of this buffer. */
    ghost function Value(): Buffer
      reads this
    {
      Buffer(content, dirty)
    }

    ghost predicate Valid()
      reads this
    {
      Value().Valid()
    }

    /** A new buffer holds exactly one empty line and is dirty. */
    constructor ()
      ensures Valid()
      ensures content == [""] && dirty
    {
      content := [];
      dirty := true;
      new;
      InsertLine(0, "");
    }

    method InsertLine(row: int, text: Line)
      modifies this
      ensures Value() == old(Value()).InsertLine(row, text)
    {
      if row < 0 || row > |content| {
        return;
      }
      content := content[..row] + [text] + content[row..];
      dirty := true;
    }

    method InsertChar(row: int, col: int, ch: char)
      modifies this
      ensures Value() == old(Value()).InsertChar(row, col, ch)
    {
      if row < 0 || row >= |content| {
        return;
      }
      if col < 0 || col > |content[row]| {
        return;
      }
      content := content[row := content[row][..col] + [ch] + content[row][col..]];
      dirty := true;
    }

    method DeleteChar(row: int, col: int)
      modifies this
      ensures Value() == old(Value()).DeleteChar(row, col)
    {
      if row < 0 || row >= |content| {
        return;
      }
      if col < 0 || col >= |content[row]| {
        return;
      }
      content := content[row := content[row][..col] + content[row][col + 1..]];
      dirty := true;
    }

    method SplitLine(row: int, col: int)
      requires 0 <= row < |content| ==> 0 <= col
      modifies this
      ensures Value() == old(Value()).SplitLine(row, col)
    {
      if row < 0 || row >= |content| {
        return;
      }
      var current := content[row];
      var k := col;
      if k > |current| {
        k := |current|;
      }
      var nextLine := current[k..];
      content := content[row := current[..k]];
      InsertLine(row + 1, nextLine);
    }

    method MergeLine(row: int)
      modifies this
      ensures Value() == old(Value()).MergeLine(row)
    {
      if row <= 0 || row >= |content| {
        return;
      }
      var current := content[row];
      content := content[row - 1 := content[row - 1] + current];
      content := content[..row] + content[row + 1..];
      dirty := true;
    }

    function GetLine(row: int): (s: Line)
      reads this
      ensures s == Value().LineAt(row)
    {
      if 0 <= row < |content| then content[row] else ""
    }

    function GetLineCount(): (n: nat)
      reads this
      ensures n == |Value().lines|
      ensures Valid() ==> n >= 1
    {
      |content|
    }

    function GetLineLength(row: int): (n: nat)
      reads this
      ensures n == |GetLine(row)|
    {
      if 0 <= row < |content| then |content[row]| else 0
    }

    function IsDirty(): (d: bool)
      reads this
      ensures d == Value().dirty
    {
      dirty
    }

    method SetDirty(d: bool)
      modifies this
      ensures Value() == old(Value()).(dirty := d)
    {
      dirty := d;
    }
  }
}
