/**
 * The pure layout arithmetic of SimpleTextEditor::drawInterface: the
 * decimal rendering of numbers (std::to_string), bars fitted to exactly the
 * window width, the visible slice of a line and the screen cursor position.
 */
module Layout {

  datatype Option<T> = None | Some(value: T)

  /** One screen row of the content region: part of a document line, or the `~` filler past its end. */
  datatype ScreenLine = Text(chars: string) | Filler

  predicate IsDigit(c: char) {
    '0' <= c <= '9'
  }

  /** The value of a string of decimal digits, most significant first. */
  function DigitsValue(s: string): (n: nat)
    requires forall i :: 0 <= i < |s| ==> IsDigit(s[i])
  {
    if s == [] then 0
    else
      assert IsDigit(s[|s| - 1]);
      DigitsValue(s[..|s| - 1]) * 10 + (s[|s| - 1] as int - '0' as int)
  }

  /** The shortest decimal rendering of a natural number. */
  function DecimalString(n: nat): (s: string)
    ensures 1 <= |s|
    ensures forall i :: 0 <= i < |s| ==> IsDigit(s[i])
    ensures s[0] == '0' ==> n == 0 && |s| == 1
  {
    var last := ((n % 10) + '0' as int) as char;
    if n < 10 then [last] else DecimalString(n / 10) + [last]
  }

  /** Reading back the decimal rendering gives the number. */
  lemma {:induction false} DecimalRoundTrip(n: nat)
    ensures DigitsValue(DecimalString(n)) == n
  {
    var s := DecimalString(n);
    if n >= 10 {
      DecimalRoundTrip(n / 10);
      assert s[..|s| - 1] == DecimalString(n / 10);
    }
  }

  /** std::to_string of an int: a minus sign before the digits of a negative number. */
  function IntString(i: int): (s: string)
    ensures i >= 0 ==> s == DecimalString(i)
    ensures i < 0 ==> s == "-" + DecimalString(-i)
  {
    if i < 0 then "-" + DecimalString(-i) else DecimalString(i)
  }

  /**
   * A bar of exactly `width` cells: the text, cut at `width` when longer,
   * then spaces up to `width`.
   */
  function FitToWidth(s: string, width: nat): (r: string)
    ensures |r| == width
    ensures forall i :: 0 <= i < width ==> r[i] == if i < |s| then s[i] else ' '
  {
    if |s| >= width then s[..width] else s + seq(width - |s|, _ => ' ')
  }

  /** The status padding loop of drawInterface: append spaces while shorter, then truncate. */
  method PadTo(s: string, width: nat) returns (r: string)
    ensures r == FitToWidth(s, width)
  {
    r := s;
    while |r| < width
      invariant |s| <= |r|
      invariant |r| <= width || r == s
      invariant r[..|s|] == s
      invariant forall i :: |s| <= i < |r| ==> r[i] == ' '
      decreases width - |r|
    {
      r := r + " ";
    }
    if |r| > width {
      r := r[..width];
    }
    assert forall i :: 0 <= i < width ==> r[i] == FitToWidth(s, width)[i];
  }

  /**
   * line.substr(colOffset, cols), taken only when colOffset < length: the
   * cells of the line from colOffset on, at most `cols` of them.
   */
  function VisibleSlice(line: string, colOffset: nat, cols: nat): (r: string)
    ensures |r| <= cols
    ensures colOffset + |r| <= |line| || r == ""
    ensures |r| == (if colOffset >= |line| then 0 else if |line| - colOffset < cols then |line| - colOffset else cols)
    ensures forall i :: 0 <= i < |r| ==> r[i] == line[colOffset + i]
  {
    if colOffset < |line| then
      line[colOffset..if colOffset + cols < |line| then colOffset + cols else |line|]
    else
      ""
  }

  /**
   * The 1-based terminal cell of the cursor: one title row above the
   * content, so row - rowOffset + 2 and col - colOffset + 1, never above
   * row 2 nor left of column 1.
   */
  function ScreenCursor(row: int, col: int, rowOffset: int, colOffset: int): (p: (int, int))
    ensures p.0 >= 2 && p.1 >= 1
    ensures rowOffset <= row ==> p.0 == row - rowOffset + 2
    ensures colOffset <= col ==> p.1 == col - colOffset + 1
    ensures row < rowOffset ==> p.0 == 2
    ensures col < colOffset ==> p.1 == 1
  {
    var screenRow := row - rowOffset + 2;
    var screenCol := col - colOffset + 1;
    (if screenRow < 2 then 2 else screenRow, if screenCol < 1 then 1 else screenCol)
  }
}
