# Terminal_Editor editing engine in Dafny

This project models the editing engine of Terminal_Editor, a modal (vi-like) terminal text editor written in C++. The engine has three parts:

- **`core/TextBuffer`** (`core_text_buffer.dfy`, module `Core`): the document is a vector of lines plus a dirty flag. Its primitives are `insertLine`, `insertChar`, `deleteChar`, `splitLine` and `mergeLine`, with the accessors `getLine`, `getLineCount` and `getLineLength`. Every mutator checks its own bounds and does nothing out of range.
  - The datatype `Buffer` is the value of a buffer. Its member functions state what each primitive does.
  - The class `TextBuffer` keeps the same state in fields that its methods update in place. Each method is proved equal to the corresponding `Buffer` function.
- **`editors/SimpleTextEditor`** (module `Editors`, with the pure scroll rule in module `Viewport` and the redraw arithmetic in module `Layout`):
  - `processInput` routes a key to the Normal handler (`i`, `q`, `w`, hjkl) or to the Insert handler (Escape, Backspace, Enter, printable bytes).
  - `editorScroll` clamps the cursor into the document, then moves the row and column offsets until the cursor is inside the window.
  - `drawInterface` lays out the title bar, the content rows, the status bar and the cursor cell, but only when the buffer is dirty.
  - The value `EditorState` and the function `Step` say what one keystroke does.
  - The class `SimpleTextEditor` holds the state in fields and a `TextBuffer`. Its methods are proved against `Step`, `Scrolled` and `Render`.
  - The key byte and the window size are parameters.
- **`features/CommandShell`** (module `Features`):
  - `tokenize` drops one leading `:` and splits the rest at white space into one COMMAND token followed by ARGUMENT tokens.
  - `parseAndRun` lower-cases the command name and looks it up in a name-to-handler registry. It then runs the handler on the remaining token values, or reports an unknown command.
  - The three built-in handlers are `w`, `q` and `wq`.
  - The registry is a `map<string, Handler>`. `Handler` is a datatype of the three built-ins.
  - The editor, as far as a handler can see it, is an `Effects` record: the quit flag, the status message and the number of saves requested.
  - The loops of `tokenize` and `parseAndRun` are proved against the pure functions `Tokens` and `Dispatch`.

Characters are Dafny `char`s. The C-locale classes the source uses are written out:

- `iscntrl` means a code below 32, or 127;
- white space (`operator>>`) is space, `\t`, `\n`, 11, 12 and `\r`;
- `tolower` changes only `A`-`Z`.

Three behaviours of the source are easy to miss; the model follows the source in each:

- The window size used by `editorScroll` and `drawInterface` is read once, before the main loop (core/AbstractEditor.cpp:26). The model takes it as a parameter of each call.
- Normal mode has no `:` key that enters Command mode. A non-Normal mode is handled by the Insert handler (editors/SimpleTextEditor.cpp:19-26).
- Normal `i` and `q` return before the buffer is marked dirty (editors/SimpleTextEditor.cpp:36-47). So these two keys do not by themselves cause a redraw.

## Model

| member | source | states |
|---|---|---|
| Core.Buffer.LineAt | core/TextBuffer.cpp:57-61 | getLine: the row's text for an existing row, the empty string otherwise |
| Core.Buffer.LineLength | core/TextBuffer.cpp:68-72 | getLineLength agrees with the length of getLine for every row, and is 0 for a row that does not exist |
| Core.Buffer.InsertLine | core/TextBuffer.cpp:13-18 | for 0 <= row <= count: count + 1, the text at `row`, earlier lines kept, later lines shifted up by one, dirty set; any other row changes nothing, not even dirty; at least one line is kept |
| Core.Buffer.InsertChar | core/TextBuffer.cpp:20-26 | at a valid (row, col): the line grows by one, holds `ch` at `col`, its prefix is kept and its suffix shifted right; other lines and the count are unchanged; dirty set; elsewhere a complete no-op |
| Core.Buffer.DeleteChar | core/TextBuffer.cpp:28-34 | at a valid (row, col) exactly the character at `col` is removed, everything else stays and dirty is set; elsewhere a complete no-op |
| Core.Buffer.SplitLine | core/TextBuffer.cpp:36-46 | for an existing row: the two new lines concatenate to the old one, the first has the clamped column's length, count + 1, other lines shifted, dirty set; a missing row changes nothing |
| Core.Buffer.MergeLine | core/TextBuffer.cpp:48-55 | for 1 <= row < count: line row - 1 becomes old[row - 1] + old[row], row is removed, later lines move down; row 0 or a missing row changes nothing, so the count never drops below one |
| Core.InsertThenDeleteChar | core/TextBuffer.cpp:20-34 | insertChar then deleteChar at the same valid position restores the lines |
| Core.DeleteThenInsertChar | core/TextBuffer.cpp:20-34 | deleteChar then re-inserting the deleted character restores the lines |
| Core.SplitThenMerge | core/TextBuffer.cpp:36-55 | splitLine(row, col) then mergeLine(row + 1) restores the lines and their count, for any col >= 0 |
| Core.MergeThenSplit | core/TextBuffer.cpp:36-55 | mergeLine(row) then splitLine at the old end of line row - 1 restores the lines |
| Core.TextBuffer.constructor | core/TextBuffer.cpp:3-10 | a new buffer holds exactly one empty line and is dirty |
| Core.TextBuffer.InsertLine | core/TextBuffer.cpp:13-18 | the new state is Buffer.InsertLine of the old |
| Core.TextBuffer.InsertChar | core/TextBuffer.cpp:20-26 | the new state is Buffer.InsertChar of the old |
| Core.TextBuffer.DeleteChar | core/TextBuffer.cpp:28-34 | the new state is Buffer.DeleteChar of the old |
| Core.TextBuffer.SplitLine | core/TextBuffer.cpp:36-46 | the new state is Buffer.SplitLine of the old, including the flag set by the insertLine it ends with |
| Core.TextBuffer.MergeLine | core/TextBuffer.cpp:48-55 | the new state is Buffer.MergeLine of the old |
| Core.TextBuffer.GetLine | core/TextBuffer.cpp:57-61 | the row's text, or "" out of range |
| Core.TextBuffer.GetLineCount | core/TextBuffer.cpp:63-66 | the number of lines, at least one for a buffer built by the constructor |
| Core.TextBuffer.GetLineLength | core/TextBuffer.cpp:68-72 | the length of GetLine(row), for every row |
| Core.TextBuffer.IsDirty | core/TextBuffer.hpp:27 | the dirty flag |
| Core.TextBuffer.SetDirty | core/TextBuffer.hpp:28 | only the dirty flag changes |
| Viewport.ScrollAxis | editors/SimpleTextEditor.cpp:222-245 | the position ends inside a window of `span` >= 1 cells; an already visible position keeps the offset; a position above the window becomes the offset, one below it becomes the last visible cell (offset pos - span + 1), as does every position when span <= 0; non-negative inputs give a non-negative offset |
| Viewport.ScrollAxisIdempotent | editors/SimpleTextEditor.cpp:222-245 | scrolling again with the resulting offset changes nothing |
| Viewport.Clamped | editors/SimpleTextEditor.cpp:203-214 | a row past the end moves onto the last line (row 0 in an empty document), any other row stays; a column past the end of its line moves to that end, any other column stays; past the end of an empty document the column is 0, and on a negative row (length 0) a positive column becomes 0 and any other column stays; so a non-negative cursor in a non-empty document lands on it, and a cursor already there is unchanged; offsets untouched |
| Viewport.Scrolled | editors/SimpleTextEditor.cpp:200-246 | the cursor ends in the document; with rows >= 3 and cols >= 1 it lies in the content window (rows - 2 by cols); offsets stay non-negative; a valid, visible cursor changes nothing |
| Viewport.ScrolledIdempotent | editors/SimpleTextEditor.cpp:217-245 | a second editorScroll with no change in between leaves cursor and offsets identical |
| Layout.DecimalString | editors/SimpleTextEditor.cpp:132 | std::to_string of a natural: non-empty, all digits, no leading zero |
| Layout.DecimalRoundTrip | editors/SimpleTextEditor.cpp:132 | reading back the decimal digits gives the number |
| Layout.IntString | editors/SimpleTextEditor.cpp:174-175 | std::to_string of an int: a minus sign before the digits exactly when negative |
| Layout.FitToWidth | editors/SimpleTextEditor.cpp:132-138 | a bar of exactly `width` cells: the text's characters, cut at `width`, then spaces |
| Layout.PadTo | editors/SimpleTextEditor.cpp:178-180 | the status padding loop and truncation yield FitToWidth: exactly `cols` characters |
| Layout.VisibleSlice | editors/SimpleTextEditor.cpp:151-155 | substr(colOffset, cols) taken only when colOffset < length: at most `cols` characters, equal to the line from colOffset on |
| Layout.ScreenCursor | editors/SimpleTextEditor.cpp:187-191 | (row - rowOffset + 2, col - colOffset + 1) when the cursor is at or past the offsets; exactly row 2, and column 1, when it is before them |
| Editors.NormalKey | editors/SimpleTextEditor.cpp:31-66 | no Normal-mode key changes the lines; the cursor invariant is kept |
| Editors.InsertEdit | editors/SimpleTextEditor.cpp:83-108 | an Insert-mode edit changes neither mode, status, quit flag nor saves, and keeps at least one line and a non-negative cursor |
| Editors.InsertKey | editors/SimpleTextEditor.cpp:70-116 | an Insert-mode key keeps the cursor invariant |
| Editors.Step | editors/SimpleTextEditor.cpp:17-27 | every keystroke keeps the invariant: at least one line, the cursor on the document, offsets non-negative |
| Editors.NormalMovement | editors/SimpleTextEditor.cpp:57-64 | h, j, k, l each move one cell only when they can (a column past a shorter line is pulled back to its end); lines unchanged, dirty set |
| Editors.ModeSwitches | editors/SimpleTextEditor.cpp:36-81 | Normal `i` sets Insert and "-- INSERT --", Normal `q` sets quit, Insert Escape sets Normal and "-- NORMAL --" and steps left if it can; nothing else changes, dirty included |
| Editors.InsertPrintable | editors/SimpleTextEditor.cpp:105-108 | a non-control byte is inserted at the cursor, which moves one right |
| Editors.InsertEnter | editors/SimpleTextEditor.cpp:98-102 | Enter (13 or 10) splits the line at the cursor; the cursor goes to (row + 1, 0) |
| Editors.InsertBackspace | editors/SimpleTextEditor.cpp:83-95 | Backspace deletes before the cursor, joins onto the previous row at column 0 with the cursor at its old end, and at (0, 0) the lines and the cursor stay |
| Editors.EnterAtEndOfLine | editors/SimpleTextEditor.cpp:98-102 | ["abc"] with the cursor at (0, 3) becomes ["abc", ""] with the cursor at (1, 0) |
| Editors.BackspaceJoinsLines | editors/SimpleTextEditor.cpp:88-94 | ["ab", "cd"] with the cursor at (1, 0) becomes ["abcd"] with the cursor at (0, 2) |
| Editors.ContentLines | editors/SimpleTextEditor.cpp:143-164 | the content region has rows - 2 screen rows (none for smaller windows); screen row i shows line rowOffset + i from colOffset on, at most `cols` cells, or the `~` filler past the last line |
| Editors.Render | editors/SimpleTextEditor.cpp:121-197 | title and status bars exactly `cols` wide; cursor cell at least (2, 1) |
| Editors.CursorVisibleInFrame | editors/SimpleTextEditor.cpp:185-193 | a cursor inside the window is drawn inside the content region, on the screen row showing its line from colOffset on |
| Editors.CursorVisibleAfterStep | editors/SimpleTextEditor.cpp:110-111 | after any keystroke that reaches editorScroll on a window of at least 3 x 1, the next redraw shows the cursor on its own line |
| Editors.SimpleTextEditor.constructor | editors/SimpleTextEditor.cpp:9-14 | Normal mode, one empty dirty line, cursor and offsets at 0, file name "untitled.txt" |
| Editors.SimpleTextEditor.ProcessInput | editors/SimpleTextEditor.cpp:17-27 | the new state is Step of the old, and the invariant is kept |
| Editors.SimpleTextEditor.ProcessNormalKeyPress | editors/SimpleTextEditor.cpp:31-66 | the new state is NormalKey of the old |
| Editors.SimpleTextEditor.MoveCursor | editors/SimpleTextEditor.cpp:59-62 | the new cursor is Moved of the old; nothing else changes |
| Editors.SimpleTextEditor.ProcessInsertKeyPress | editors/SimpleTextEditor.cpp:70-116 | the new state is InsertKey of the old |
| Editors.SimpleTextEditor.EditAtCursor | editors/SimpleTextEditor.cpp:83-108 | the new state is InsertEdit of the old |
| Editors.SimpleTextEditor.EditorScroll | editors/SimpleTextEditor.cpp:200-246 | only cursor and offsets change, to Scrolled of the old view |
| Editors.SimpleTextEditor.ClampCursor | editors/SimpleTextEditor.cpp:202-214 | only the cursor changes, to Clamped of the old view |
| Editors.SimpleTextEditor.ScrollOffsets | editors/SimpleTextEditor.cpp:216-245 | only the offsets change, each to ScrollAxis of the cursor and the old offset |
| Editors.SimpleTextEditor.DrawInterface | editors/SimpleTextEditor.cpp:121-197 | not dirty: no frame and no change; dirty: the frame Render describes, and only the dirty flag changes, to false |
| Editors.SimpleTextEditor.DrawTitle | editors/SimpleTextEditor.cpp:132-139 | the title bar is FitToWidth of "Size: <cols>x<rows>" |
| Editors.SimpleTextEditor.DrawContent | editors/SimpleTextEditor.cpp:142-164 | the rows the loop produces are ContentLines of the buffer and offsets |
| Editors.SimpleTextEditor.DrawStatus | editors/SimpleTextEditor.cpp:173-180 | the status bar is FitToWidth of " <status> \| <file> \| <row>:<col>" |
| Features.LowerChar | features/CommandShell.cpp:11 | an upper-case letter becomes its own lower-case letter; a character outside A-Z is unchanged |
| Features.ToLower | features/CommandShell.cpp:8-13 | same length, every character lower-cased, no upper-case letter left |
| Features.ToLowerIdempotent | features/CommandShell.cpp:8-13 | lower-casing twice is lower-casing once |
| Features.ToLowerFixedPoints | features/CommandShell.cpp:8-13 | a string is its own lower-case form exactly when it has no upper-case letter |
| Features.StripPrefix | features/CommandShell.cpp:100-104 | exactly one `:` is removed, and only when it is the first character |
| Features.LeadingWord | features/CommandShell.cpp:108 | the longest space-free prefix: it ends at the end or at white space |
| Features.Words | features/CommandShell.cpp:105-108 | every segment `>>` reads is non-empty and space-free |
| Features.WordsEmptyIffBlank | features/CommandShell.cpp:105-108 | there are no segments exactly when the text is empty or all white space |
| Features.WordsSplitAtSpace | features/CommandShell.cpp:105-108 | white space separates: the segments of a + [space] + b are those of a followed by those of b |
| Features.Typed | features/CommandShell.cpp:107-121 | one token per segment, same values in order, COMMAND exactly for the first |
| Features.Tokens | features/CommandShell.cpp:94-124 | tokens are non-empty and space-free, in input order, the first COMMAND and the rest ARGUMENT |
| Features.NoTokensIffBlank | features/CommandShell.cpp:100-122 | no tokens exactly when the input after the prefix is empty or all white space |
| Features.Tokenize | features/CommandShell.cpp:94-124 | the loop returns Tokens(input) |
| Features.ReadSegments | features/CommandShell.cpp:105-123 | the reading loop returns the typed segments of its input |
| Features.Arguments | features/CommandShell.cpp:63-71 | the values of every token after the first, in order |
| Features.RunHandler | features/CommandShell.cpp:24-48 | `w` with no argument requests a save, with one only sets the save-as status; `q` quits with or without an argument; `wq` saves and quits |
| Features.DispatchOutcomes | features/CommandShell.cpp:58-86 | no tokens: no effect; an unregistered name: only the status changes, to the error message with the lower-cased name; otherwise the handler runs on the arguments |
| Features.CommandNameCaseInsensitive | features/CommandShell.cpp:62 | lower-casing the command token first changes nothing |
| Features.UpperCaseNameUnreachable | features/CommandShell.cpp:52-62 | a registered name holding an upper-case letter is never matched |
| Features.WriteCommand | features/CommandShell.cpp:24-28 | `:w` requests a save |
| Features.WriteAsCommand | features/CommandShell.cpp:29-32 | `:w <path>` for any one-word path only sets "Command: Save As to <path> (Not Implemented)" |
| Features.QuitCommand | features/CommandShell.cpp:35-43 | `:q` quits |
| Features.QuitWithArgument | features/CommandShell.cpp:35-43 | `:q <arg>` quits for every one-word argument, `!` included |
| Features.QuitBangUnknown | features/CommandShell.cpp:73-85 | `:q!` is the single token "q!" and is reported unknown |
| Features.WriteQuitCommand | features/CommandShell.cpp:46-48 | `:wq` requests a save and quits |
| Features.UpperCaseWriteQuit | features/CommandShell.cpp:46-48 | `:WQ` does the same, since names are lower-cased |
| Features.PrefixStrippedOnce | features/CommandShell.cpp:100-104 | "::w" and " :w" both give the single token ":w" |
| Features.CommandShell.constructor | features/CommandShell.cpp:17-49 | the registry holds exactly w, q and wq |
| Features.CommandShell.RegisterCommand | features/CommandShell.cpp:52-55 | the name now maps to the handler, replacing any earlier entry; nothing else changes |
| Features.CommandShell.ParseAndRun | features/CommandShell.cpp:58-86 | the loop and lookup give Dispatch of the registry and tokens |
| Features.CommandShell.Execute | features/CommandShell.cpp:88-92 | execute is Dispatch of Tokens(input) |
| Features.LastRegistrationWins | features/CommandShell.cpp:52-55 | after registering a handler for a name, that handler is the one dispatched |

## Left out

- Terminal I/O: `read()` of the key byte, the `ioctl` window size, raw mode, ANSI escape output, colours and `std::cout`. The key and the window size are parameters. A redraw returns a `Frame` value instead of writing to the terminal.
- A `read()` that returns 0 leaves the key byte uninitialised. The model always has a key.
- File persistence: `saveToFile`, `saveFile`, `getFilename` and `setFilename`. A save is only counted (`saves`). The editor holds the file name itself, since `setFilename` is not declared in core/TextBuffer.hpp. The buffer's `filename` field is not part of this model.
- Command-mode keystroke handling: `MODE_COMMAND` exists, but `processCommandKeyPress` has no body and no key leads to it. `CommandShell` is modelled on its own, as the editor never calls it.
- The `shell`, `commandBuffer`, `last_key`, `last_key_time` and `pluginManager` fields of the editor, which the key handlers never use, and the timed "jk" exit chord they were meant for.
- The commented-out draft `processInput` with arrow-key parsing (editors/SimpleTextEditor.cpp:261-340), which is dead code.
- Plugins (`dlopen`/`dlsym`) and the `run` loop with its sleep and terminal restore: process lifecycle and foreign calls.
- Editors.IsControl: bytes of 128 and above count as printable. That is what glibc's `iscntrl` answers for a negative `char`. Characters beyond one byte are not modelled separately.
- Features.Handler: handlers are the three built-ins. An arbitrary `std::function` registered from outside is not modelled.
- Core.Buffer.SplitLine: a negative column on an existing row is excluded by the precondition, because `substr` throws `out_of_range` there.
- Editors.Step: requires the cursor column to be non-negative on an existing row, which is what `splitLine` needs. The editor's invariant implies it.
- The source's `int` arithmetic is unbounded here. Line counts, cursor positions and offsets near 2^31 do not wrap.
