# print_utils: console alignment routines

A model of the three text-alignment routines of `print_utils.c`:

- `printCentered(text)` centres one string in the console width;
- `printc(bigText, fixed_width)` writes every line of a block behind the
  padding that centres `fixed_width` columns, re-reading the console width
  for each line;
- `printr(text, line_length)` writes every line of a block at the column
  `line_length` short of the right edge, one row below the other, starting
  at the cursor's row.

What a routine writes to the console is its result: a character sequence
for `printCentered` and `printc`, and for `printr` a sequence of `Placed`
lines, each holding the cursor position set before the line was written.
What a routine reads from the console is a parameter instead. A
`GetConsoleScreenBufferInfo` answer is an `Option<ScreenBufferInfo>`, and a
failed query is `None`. `printc` asks once per line, so it takes a
`Queries` function whose k-th answer serves line k.

C strings are NUL-free character sequences (`CStrings.CString`); the
terminator is read at offset |s|. The helpers are modelled on that basis:
- `strchr` is `CStrings.StrChr`;
- `strncpy` is `CStrings.StrNCopy`, which writes into an `array`;
- `printf("%s")` reading a buffer is `CStrings.UntilNul`.

Each routine's loop is an imperative method, with the C pointer `start`
becoming an offset into the text. Each method is proved against a
specification function built from `Lines.Split`, the newline-separated lines
of a text. Line extraction (`LineScan.TakeLine`) copies each line through a
512-byte `array` buffer, as the C code does.

Two points of the code decide the model:
- C's `/` truncates toward zero. After the clamp at 0 the padding agrees
  with floor division, and `CenterPadIsEuclidean` proves it.
- printc copies the whole line with no bound check, so a line of 512 bytes
  or more writes past `buffer`. The as-written loop therefore requires every
  line to fit; see Findings.

## Model

| member | source | states |
|---|---|---|
| Console.Columns | print_utils.c:10-13 | the visible column count: the window's inclusive span `Right - Left + 1` when the query succeeds, 80 when it fails (also at lines 30-33 and 60-63) |
| Console.StartCursor | print_utils.c:57-65 | the cursor printr starts from: the queried position, or whatever the uninitialised `csbi` held when the query failed |
| CStrings.StrChr | print_utils.c:36 | the offset of the first `'\n'` at or after `start`, with none before it; `None` (a NULL result) exactly when no byte up to the terminator matches |
| CStrings.StrNCopy | print_utils.c:40 | byte j of the buffer is what offset `start + j` of the string reads, for j below the copy length; the rest of the buffer is unchanged |
| CStrings.UntilNul | print_utils.c:47 | `printf("%s", buffer)` prints the bytes before the buffer's first NUL |
| CStrings.UntilNulAt | print_utils.c:41 | a buffer whose byte `len` is NUL and whose first `len` bytes are not prints exactly those `len` bytes |
| Lines.LineAt | print_utils.c:36-39 | the line at an offset holds no newline, lies inside the text, and is followed by a newline unless it reaches the end |
| Lines.LineEnd | print_utils.c:36-37 | the line's end lies between the offset and the end of the text, and is a newline unless it is the end of the text |
| Lines.LineEndIsFirstNewline | print_utils.c:36-37 | no newline lies between the offset and the line's end, so the end is the first newline at or after the offset, as `strchr` finds it |
| Lines.LineAtIsSlice | print_utils.c:39-40 | the line is the text between its start and its end |
| Lines.SplitHasNoNewlines | print_utils.c:36-37 | no line of a split holds a newline |
| Lines.TerminatedSplit | print_utils.c:47-50 | printing every line followed by a newline reproduces the text, with a newline added only when the text did not end in one |
| Lines.JoinSplit | print_utils.c:49-50 | joining the lines with newlines gives the text back, less one trailing newline |
| Lines.SplitTerminated | print_utils.c:47-50 | splitting lines that were each printed with a newline gives exactly those lines back |
| Lines.TrailingNewlineAddsNoLine | print_utils.c:49-50 | a newline that closes the last line adds no line |
| Lines.ExtraNewlineAddsEmptyLine | print_utils.c:49-50 | a newline after a text that already ends in one adds one empty line |
| Lines.SplitCount | print_utils.c:27 | a text has as many lines as newlines, plus one for an unclosed last line, so never more lines than bytes: the loop runs at most strlen times |
| LineScan.LineStop | print_utils.c:36-37 | `strchr`, or else `start + strlen(start)`, finds the end of the line at `start` |
| LineScan.FitsFromLines | print_utils.c:39-41 | the buffer condition from an offset holds exactly when no line from there on is longer than 511 bytes |
| LineScan.FitsBufferIffShortLines | print_utils.c:24 | a text fits printc's 512-byte buffer exactly when each of its lines is at most 511 bytes long |
| LineScan.CopyLine | print_utils.c:39-41 | copying `len` bytes and storing the terminator at index `len`, which must lie inside the buffer, leaves those `len` bytes of the text and a NUL at the buffer's head, and `printf("%s")` then prints exactly those bytes |
| LineScan.Truncate | print_utils.c:73-74 | printr's clamp of the line length to `sizeof(buffer) - 1`: the line when it has at most 511 bytes, else its first 511 |
| LineScan.TruncateIsPrefix | print_utils.c:73-74 | what printr shows of a line is its first min(length, 511) bytes |
| LineScan.TakeLine | print_utils.c:69-77 | the line extraction both block routines share: its end is the line's end, and what it prints is the line, cut to 511 bytes when clamped |
| PrintUtils.TruncDiv | print_utils.c:15 | C's integer division, used at lines 15 and 44: the Euclidean quotient for a non-negative dividend, the negated quotient of the negated dividend otherwise |
| PrintUtils.TruncDivTowardZero | print_utils.c:15 | the quotient rounds toward zero: the remainder has the dividend's sign and is smaller than the divisor |
| PrintUtils.CenterPad | print_utils.c:15-16 | the centring padding `(columns - width) / 2` with C's division, clamped at 0; printc uses it at lines 44-45 with `fixed_width` |
| PrintUtils.RightColumn | print_utils.c:79-80 | printr's column `width - line_length`, clamped at 0 |
| PrintUtils.CenterPadIsEuclidean | print_utils.c:15-16 | the padding, computed with C's truncating division and clamped at 0, equals the floor-division padding, and is 0 when the text is at least as wide as the console |
| PrintUtils.CenterPadBounds | print_utils.c:15-16 | the padding is 0 when the text does not fit; otherwise padding, text and a right margin of the same width or one wider fill the console |
| PrintUtils.RightColumnBounds | print_utils.c:79-80 | printr's column is 0 when `line_length` is at least the width; otherwise it leaves exactly `line_length` columns to the right edge |
| PrintUtils.SpacesAreBlank | print_utils.c:17-19 | the padding is `pad` characters, all blanks |
| PrintUtils.PutSpaces | print_utils.c:17-19 | the `putchar(' ')` loop writes exactly `pad` blanks |
| PrintUtils.PrintCentered | print_utils.c:8-21 | printCentered writes the centring padding for the text's length in the queried width (80 when the query fails), then the text and a newline |
| PrintUtils.CenterLine | print_utils.c:29-47 | one pass of printc's loop writes the line at `start` behind the padding for the console answer and `fixed_width`, then a newline, and finds the line's end |
| PrintUtils.PrintcStep | print_utils.c:49 | after a line closed by a newline, printc writes that line, then the rest of the text from the next console answer on |
| PrintUtils.PrintcLast | print_utils.c:50 | a last line not closed by a newline is the last thing printc writes |
| PrintUtils.PrintedNext | print_utils.c:47-49 | the loop invariant of printc survives a pass over a line closed by a newline |
| PrintUtils.PrintBlock | print_utils.c:23-52 | printc's loop writes every line of the text behind its padding and followed by a newline, and without the clamp it requires every line to fit the buffer |
| PrintUtils.PrintBlockCentered | print_utils.c:23-52 | printc as written: defined on texts whose lines all fit the buffer, and it writes exactly `PrintcOutput` for them |
| PrintUtils.PrintBlockCenteredClamped | print_utils.c:39-41 | printc with the copy length clamped to 511 as printr does: defined on every text |
| PrintUtils.CenteredLinesAt | print_utils.c:44-47 | line i of the text is written behind the padding computed from console answer i and `fixed_width`, never from the line itself |
| PrintUtils.PrintcLines | print_utils.c:27-51 | read back line by line, printc's output is exactly the padded lines of the text, one per line and as many as there are newlines in it, at most strlen(bigText) |
| PrintUtils.PrintcUniformPadding | print_utils.c:44-46 | when the console keeps one width, every line gets the same padding, whatever its length |
| PrintUtils.PrintcLineEnds | print_utils.c:27 | an empty text writes nothing, and a newline closing the last line writes no extra line |
| PrintUtils.ClampAgreesWhenFits | print_utils.c:39-41 | on texts whose lines fit the buffer, clamped and as-written printc write the same |
| PrintUtils.OverlongLineOverflows | print_utils.c:39-41 | for a 512-byte line, strchr/strlen put the end 512 bytes on, so as written the terminator goes to `buffer[512]`, one past the buffer; the buffer condition rejects that text |
| PrintUtils.OverlongLineClamped | print_utils.c:39-47 | the clamped printc writes such a line cut to its first 511 bytes |
| PrintUtils.NextStart | print_utils.c:88 | printr's next start lies past the current one and at most at the terminator |
| PrintUtils.RightAlignedStep | print_utils.c:82-88 | printr places the line at `start` at the column on the current row, then the lines after it from the next row on |
| PrintUtils.PlacingNext | print_utils.c:82-88 | the loop invariant of printr survives a pass: the line is placed, the row advances, and `start` moves past the newline or onto the terminator |
| PrintUtils.PrintRightAligned | print_utils.c:56-90 | printr writes every line of the text, cut to 511 bytes, at the column `line_length` short of the right edge, on consecutive rows from the cursor's row |
| PrintUtils.RightAlignedLinesAt | print_utils.c:79-86 | line k goes to row `firstRow + k` at the fixed column, carrying that line cut to 511 bytes and a newline |
| PrintUtils.PrintrLines | print_utils.c:68-88 | printr writes one line per line of the text, at most strlen(text): line k at row cursor.Y + k and the clamped column, showing the first min(length, 511) bytes of line k |
| PrintUtils.PrintrMatchesPrintc | print_utils.c:69-77 | printr and printc cut a text into the same lines: printr's line k is printc's line k without its padding, against clamped printc always and against as-written printc on the texts it handles |

## Left out

- Win32 calls (`GetStdHandle`, `GetConsoleScreenBufferInfo`, `SetConsoleCursorPosition`) are not modelled as calls. Their answers are parameters, and their effects are the returned output.
- Failures of `SetConsoleCursorPosition` (a position outside the screen buffer, for instance) are ignored by the source. The model records the position it requests.
- The standard output stream is a returned sequence. Stream buffering and interleaving with other writers or threads are not modelled.
- PrintUtils.PrintCentered: does not model the narrowing of `strlen`'s `size_t` result to `int` for texts longer than `INT_MAX`, because unbounded integers stand in for the C types.
- PrintUtils.PrintRightAligned: does not model the `SHORT` narrowing of `cursor.X = col` or the `SHORT` wrap-around of `cursor.Y += 1`, for the same reason.
- PrintUtils.PrintBlock: does not model the signed `int` overflow of `columns - fixed_width` at line 44 (undefined in C, e.g. for `fixed_width = INT_MIN`); unbounded integers give a padding of about 2^31 there instead.
- PrintUtils.PrintRightAligned: does not model the signed `int` overflow of `width - line_length` at line 79 (undefined in C, e.g. for `line_length = INT_MIN`); unbounded integers give a column of about 2^31 there instead.
- PrintUtils.PrintBlock: the console may answer differently on each pass. That is modelled by the `Queries` function, not by a console changing over time.
- Characters are Dafny `char`s, one per byte; multi-byte encodings and display widths are not modelled.
- `strncpy`'s NUL padding past the copied bytes never arises: the copy length never exceeds the bytes left before the terminator.
- The as-written printc's behaviour on a line of 512 bytes or more is undefined in C. The model does not describe what happens; it excludes that input by precondition and records it under Findings.

## Findings

| source | as written | input that shows it | evidently intended | confidence | as-written member | corrected member |
|---|---|---|---|---|---|---|
| print_utils.c:39-41 | printc copies the whole line into `char buffer[512]` and stores the terminator at `buffer[line_len]` with no bound check | a text whose first line is 512 bytes: the terminator goes to `buffer[512]`, one past the buffer | clamp `line_len` to `sizeof(buffer) - 1`, as printr does at line 74 | not executed | PrintUtils.OverlongLineOverflows | PrintUtils.ClampAgreesWhenFits |
