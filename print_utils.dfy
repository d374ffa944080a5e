/** The three alignment routines: printCentered centres one string,
    printc centres every line of a block by a caller-given width, and printr
    places every line of a block at one column measured from the right edge,
    one row below the other. Console output is the sequence of characters
    (or, for printr, of cursor-placed lines) the routine writes. */
module PrintUtils {
  import opened Wrappers
  import opened CStrings
  import opened Lines
  import opened Console
  import opened LineScan

  // ---------------------------------------------------------------------
  // Column arithmetic

  /** C's integer division, which truncates toward zero. */
  function TruncDiv(a: int, b: int): int
    requires b > 0
  {
    if a >= 0 then a / b else -((-a) / b)
  }

  /** C's rule for `/`: the quotient is rounded toward zero, so the
      remainder `a - b * q` has the sign of `a` and is smaller than `b`. */
  lemma TruncDivTowardZero(a: int, b: int)
    requires b > 0
    ensures a >= 0 ==> 0 <= a - b * TruncDiv(a, b) < b
    ensures a < 0 ==> -b < a - b * TruncDiv(a, b) <= 0
  {
  }

  /** The `if (x < 0) x = 0;` clamp. */
  function ClampZero(v: int): nat
  {
    if v < 0 then 0 else v
  }

  /** Leading spaces that centre `width` columns of text in `columns`. */
  function CenterPad(columns: int, width: int): nat
  {
    ClampZero(TruncDiv(columns - width, 2))
  }

  /** The column printr moves to: `lineLength` columns short of the edge. */
  function RightColumn(width: int, lineLength: int): nat
  {
    ClampZero(width - lineLength)
  }

  /** `n` blanks, in the order the padding loop writes them. */
  function Spaces(n: nat): seq<char>
  {
    if n == 0 then [] else Spaces(n - 1) + [' ']
  }

  /** The padding is `n` characters, all of them blanks. */
  lemma {:induction false} SpacesAreBlank(n: nat)
    ensures |Spaces(n)| == n
    ensures forall j :: 0 <= j < n ==> Spaces(n)[j] == ' '
  {
    if n > 0 {
      SpacesAreBlank(n - 1);
    }
  }

  /** Clamped, C's truncating division and Dafny's Euclidean one agree: the
      quotients only differ for a negative difference, where both clamp to 0. */
  lemma CenterPadIsEuclidean(columns: int, width: int)
    ensures CenterPad(columns, width) == ClampZero((columns - width) / 2)
    ensures CenterPad(columns, width) == if columns <= width then 0 else (columns - width) / 2
  {
  }

  /** The padding is zero when the text does not fit, and otherwise centres
      the text with the right margin equal to the left one or one wider. */
  lemma CenterPadBounds(columns: int, width: int)
    ensures width >= columns ==> CenterPad(columns, width) == 0
    ensures width <= columns ==> 2 * CenterPad(columns, width) + width <= columns
    ensures width <= columns ==> columns <= 2 * CenterPad(columns, width) + width + 1
  {
  }

  /** printr's column never goes left of 0 and, when the given length fits,
      leaves exactly that many columns up to the right edge. */
  lemma RightColumnBounds(width: int, lineLength: int)
    ensures lineLength >= width ==> RightColumn(width, lineLength) == 0
    ensures lineLength <= width ==> RightColumn(width, lineLength) + lineLength == width
  {
  }

  // ---------------------------------------------------------------------
  // printCentered

  /** printCentered(text): pads with spaces so that `text` sits in the middle
      of the console, then writes `text` and a newline. */
  method PrintCentered(text: CString, query: Option<ScreenBufferInfo>) returns (out: seq<char>)
    ensures out == Spaces(CenterPad(Columns(query), |text|)) + text + [NL]
  {
    var columns := DefaultColumns;
    if query.Some? {
      columns := query.value.window.right - query.value.window.left + 1;
    }
    var width := |text|;
    var pad := TruncDiv(columns - width, 2);
    if pad < 0 {
      pad := 0;
    }
    out := PutSpaces(pad);
    out := out + text + [NL];
  }

  /** The `for (i = 0; i < pad; i++) putchar(' ');` loop. */
  method PutSpaces(pad: nat) returns (out: seq<char>)
    ensures out == Spaces(pad)
  {
    out := [];
    var i := 0;
    while i < pad
      invariant 0 <= i <= pad
      invariant out == Spaces(i)
    {
      out := out + [' '];
      i := i + 1;
    }
  }


  lemma AppendAssoc<T>(a: seq<T>, b: seq<T>, c: seq<T>)
    ensures (a + b) + c == a + (b + c)
  {
    assert (a + b) + c == a + (b + c);
  }

  /** A step of a loop that writes its output piece by piece: what is
      written plus what is still to come is the whole output. */
  lemma Advance<T>(written: seq<T>, piece: seq<T>, rest: seq<T>, next: seq<T>, total: seq<T>)
    requires written + rest == total && rest == piece + next
    ensures written + piece + next == total
  {
    assert written + piece + next == written + (piece + next);
  }

  // ---------------------------------------------------------------------
  // printc

  /** The answers of the console, in the order printc queries it: the k-th
      answer serves line k. */
  type Queries = nat -> Option<ScreenBufferInfo>

  /** A line behind the padding that centres `fixedWidth` columns in the
      width of console answer `query`. */
  function CenteredLine(line: seq<char>, query: Option<ScreenBufferInfo>, fixedWidth: int, clamp: bool): seq<char>
  {
    Spaces(CenterPad(Columns(query), fixedWidth)) + Shown(line, clamp)
  }

  /** The lines printc writes for `lines`, the first served by console
      answer `first`, each next one by the next answer. */
  function CenteredLines(lines: seq<seq<char>>, queries: Queries, first: nat, fixedWidth: int, clamp: bool): seq<seq<char>>
    decreases |lines|
  {
    if lines == [] then []
    else [CenteredLine(lines[0], queries(first), fixedWidth, clamp)] + CenteredLines(lines[1..], queries, first + 1, fixedWidth, clamp)
  }

  /** printc's output: each line of the text, padded, then a newline. */
  function PrintcOutput(text: CString, queries: Queries, fixedWidth: int, clamp: bool): seq<char>
  {
    Terminated(CenteredLines(Split(text), queries, 0, fixedWidth, clamp))
  }

  /** Centring a first line and the rest. */
  lemma CenteredLinesCons(l: seq<char>, ls: seq<seq<char>>, queries: Queries, first: nat, fixedWidth: int, clamp: bool)
    ensures CenteredLines([l] + ls, queries, first, fixedWidth, clamp)
         == [CenteredLine(l, queries(first), fixedWidth, clamp)] + CenteredLines(ls, queries, first + 1, fixedWidth, clamp)
  {
    assert ([l] + ls)[1..] == ls;
  }

  /** What printc still writes from the line at `start` on, that line served
      by console answer `k`. */
  function PrintcFrom(s: CString, start: nat, queries: Queries, k: nat, fixedWidth: int, clamp: bool): seq<char>
    requires start <= |s|
  {
    Terminated(CenteredLines(SplitFrom(s, start), queries, k, fixedWidth, clamp))
  }

  /** The last line, closed by no newline, is the last thing written. */
  lemma PrintcLast(s: CString, start: nat, queries: Queries, k: nat, fixedWidth: int, clamp: bool, piece: seq<char>)
    requires start < |s| && LineEnd(s, start) == |s|
    requires piece == CenteredLine(LineAt(s, start), queries(k), fixedWidth, clamp) + [NL]
    ensures PrintcFrom(s, start, queries, k, fixedWidth, clamp) == piece
  {
    var line := CenteredLine(LineAt(s, start), queries(k), fixedWidth, clamp);
    CenteredLinesCons(LineAt(s, start), [], queries, k, fixedWidth, clamp);
    assert [LineAt(s, start)] + [] == SplitFrom(s, start);
    TerminatedCons(line, []);
  }

  /** printc's loop invariant: `out` is what is written before the line at
      `start`, which is served by console answer `k`. */
  predicate Printed(s: CString, queries: Queries, fixedWidth: int, clamp: bool, out: seq<char>, start: nat, k: nat)
    requires start <= |s|
  {
    out + PrintcFrom(s, start, queries, k, fixedWidth, clamp) == PrintcOutput(s, queries, fixedWidth, clamp)
  }

  /** Before the loop nothing is written. */
  lemma PrintedNothing(s: CString, queries: Queries, fixedWidth: int, clamp: bool)
    ensures Printed(s, queries, fixedWidth, clamp, [], 0, 0)
  {
  }

  /** A line closed by a newline is written first, as `piece`, then the
      lines after it from the next console answer on. */
  lemma PrintcStep(s: CString, start: nat, queries: Queries, k: nat, fixedWidth: int, clamp: bool,
                   piece: seq<char>, end: nat)
    requires start < |s| && end == LineEnd(s, start) < |s|
    requires piece == CenteredLine(LineAt(s, start), queries(k), fixedWidth, clamp) + [NL]
    ensures PrintcFrom(s, start, queries, k, fixedWidth, clamp) == piece + PrintcFrom(s, end + 1, queries, k + 1, fixedWidth, clamp)
  {
    var rest := SplitFrom(s, end + 1);
    var line := CenteredLine(LineAt(s, start), queries(k), fixedWidth, clamp);
    CenteredLinesCons(LineAt(s, start), rest, queries, k, fixedWidth, clamp);
    TerminatedCons(line, CenteredLines(rest, queries, k + 1, fixedWidth, clamp));
  }

  /** Writing a line closed by a newline moves the loop to the next line. */
  lemma PrintedNext(s: CString, queries: Queries, fixedWidth: int, clamp: bool, out: seq<char>, start: nat, k: nat,
                    piece: seq<char>, end: nat)
    requires start < |s| && end == LineEnd(s, start) < |s|
    requires piece == CenteredLine(LineAt(s, start), queries(k), fixedWidth, clamp) + [NL]
    requires Printed(s, queries, fixedWidth, clamp, out, start, k)
    ensures Printed(s, queries, fixedWidth, clamp, out + piece, end + 1, k + 1)
  {
    PrintcStep(s, start, queries, k, fixedWidth, clamp, piece, end);
    Advance(out, piece, PrintcFrom(s, start, queries, k, fixedWidth, clamp),
            PrintcFrom(s, end + 1, queries, k + 1, fixedWidth, clamp),
            PrintcOutput(s, queries, fixedWidth, clamp));
  }

  /** Writing the last line, closed by the terminator, completes the output. */
  lemma PrintedLast(s: CString, queries: Queries, fixedWidth: int, clamp: bool, out: seq<char>, start: nat, k: nat,
                    piece: seq<char>)
    requires start < |s| && LineEnd(s, start) == |s|
    requires piece == CenteredLine(LineAt(s, start), queries(k), fixedWidth, clamp) + [NL]
    requires Printed(s, queries, fixedWidth, clamp, out, start, k)
    ensures out + piece == PrintcOutput(s, queries, fixedWidth, clamp)
  {
    PrintcLast(s, start, queries, k, fixedWidth, clamp, piece);
  }

  /** At the terminator everything has been written. */
  lemma PrintedAll(s: CString, queries: Queries, fixedWidth: int, clamp: bool, out: seq<char>, k: nat)
    requires Printed(s, queries, fixedWidth, clamp, out, |s|, k)
    ensures out == PrintcOutput(s, queries, fixedWidth, clamp)
  {
    assert out + [] == out;
  }

  /** One pass of printc's loop body for the line at `start`: ask the
      console, find the line's end, copy the line through the buffer and
      write it behind the padding. Unless `clamp`, the copy has no bound
      check, so the line must fit the buffer. */
  method CenterLine(buffer: array<char>, s: CString, start: nat, query: Option<ScreenBufferInfo>,
                    fixedWidth: int, clamp: bool)
    returns (piece: seq<char>, end: nat)
    requires start < |s| && buffer.Length == BufferSize
    requires !clamp ==> LineEnd(s, start) - start <= MaxLineLength
    modifies buffer
    ensures end == LineEnd(s, start)
    ensures piece == CenteredLine(LineAt(s, start), query, fixedWidth, clamp) + [NL]
  {
    var columns := DefaultColumns;
    if query.Some? {
      columns := query.value.window.right - query.value.window.left + 1;
    }
    var line;
    line, end := TakeLine(buffer, s, start, clamp);
    var pad := TruncDiv(columns - fixedWidth, 2);
    if pad < 0 {
      pad := 0;
    }
    var spaces := PutSpaces(pad);
    piece := spaces + line + [NL];
  }

  /** printc's loop: every line of the text behind the centring padding for
      `fixedWidth` in the width the console reports for that line, each
      followed by a newline. Without `clamp` the line is copied into the
      512-byte buffer with no bound check, so then every line must fit. */
  method PrintBlock(bigText: CString, queries: Queries, fixedWidth: int, clamp: bool) returns (out: seq<char>)
    requires !clamp ==> FitsBuffer(bigText)
    ensures out == PrintcOutput(bigText, queries, fixedWidth, clamp)
  {
    var buffer := new char[BufferSize];
    var start := 0;
    var k := 0;
    out := [];
    PrintedNothing(bigText, queries, fixedWidth, clamp);
    while At(bigText, start) != NUL
      invariant start <= |bigText| && (!clamp ==> FitsFrom(bigText, start))
      invariant Printed(bigText, queries, fixedWidth, clamp, out, start, k)
      decreases |bigText| - start
    {
      var piece, end := CenterLine(buffer, bigText, start, queries(k), fixedWidth, clamp);
      if At(bigText, end) == NL {
        PrintedNext(bigText, queries, fixedWidth, clamp, out, start, k, piece, end);
        if !clamp {
          FitsNext(bigText, start, end);
        }
        out := out + piece;
        start := end + 1;
        k := k + 1;
      } else {
        PrintedLast(bigText, queries, fixedWidth, clamp, out, start, k, piece);
        out := out + piece;
        return;
      }
    }
    PrintedAll(bigText, queries, fixedWidth, clamp, out, k);
  }

  /** printc(bigText, fixed_width) as written: the copy into the buffer is
      unchecked, so it is defined only for texts whose every line fits. */
  method PrintBlockCentered(bigText: CString, queries: Queries, fixedWidth: int) returns (out: seq<char>)
    requires FitsBuffer(bigText)
    ensures out == PrintcOutput(bigText, queries, fixedWidth, false)
  {
    out := PrintBlock(bigText, queries, fixedWidth, false);
  }

  /** printc with the copy clamped to the buffer as printr clamps it: defined
      for every text, showing at most 511 bytes of each line. */
  method PrintBlockCenteredClamped(bigText: CString, queries: Queries, fixedWidth: int) returns (out: seq<char>)
    ensures out == PrintcOutput(bigText, queries, fixedWidth, true)
  {
    out := PrintBlock(bigText, queries, fixedWidth, true);
  }

  // ---------------------------------------------------------------------
  // printr

  /** A line printr writes at the cursor position it moved to first. */
  datatype Placed = Placed(at: Coord, text: seq<char>)

  /** The lines printr writes for `lines`: each at `column`, the first on
      row `row` and each next one a row lower, shown at most 511 bytes long
      and followed by a newline. */
  function RightAlignedLines(lines: seq<seq<char>>, column: int, row: int): seq<Placed>
    decreases |lines|
  {
    if lines == [] then []
    else [Placed(Coord(column, row), Truncate(lines[0]) + [NL])] + RightAlignedLines(lines[1..], column, row + 1)
  }

  /** printr's output for a text, the console answer `query` and the cursor
      the unanswered query leaves behind. */
  function PrintrOutput(text: CString, query: Option<ScreenBufferInfo>, uninitialised: Coord, lineLength: int): seq<Placed>
  {
    RightAlignedLines(Split(text), RightColumn(Columns(query), lineLength), StartCursor(query, uninitialised).y)
  }

  /** printr's loop invariant: `placed` is what is written before the line
      at `start`, which goes to row `row`. */
  predicate Placing(s: CString, column: int, firstRow: int, placed: seq<Placed>, start: nat, row: int)
    requires start <= |s|
  {
    placed + RightAlignedLines(SplitFrom(s, start), column, row) == RightAlignedLines(Split(s), column, firstRow)
  }

  /** Before the loop nothing is written and the cursor is on the first row. */
  lemma PlacingNothing(s: CString, column: int, firstRow: int)
    ensures Placing(s, column, firstRow, [], 0, firstRow)
  {
  }

  /** Where printr's loop goes after the line at `start`:
      `(*end == '\n') ? end + 1 : end`. */
  function NextStart(s: CString, start: nat): (next: nat)
    requires start < |s|
    ensures start < next <= |s|
  {
    if LineEnd(s, start) < |s| then LineEnd(s, start) + 1 else LineEnd(s, start)
  }

  /** The line at `start` is placed first, the lines after it a row lower. */
  lemma RightAlignedStep(s: CString, start: nat, column: int, row: int)
    requires start < |s|
    ensures RightAlignedLines(SplitFrom(s, start), column, row)
         == [Placed(Coord(column, row), Truncate(LineAt(s, start)) + [NL])]
            + RightAlignedLines(SplitFrom(s, NextStart(s, start)), column, row + 1)
  {
    var rest := SplitFrom(s, NextStart(s, start));
    assert SplitFrom(s, start) == [LineAt(s, start)] + rest;
    assert ([LineAt(s, start)] + rest)[1..] == rest;
  }

  /** Writing the line at `start` moves the loop past its newline, or onto
      the terminator after the last line, and the cursor one row down. */
  lemma PlacingNext(s: CString, column: int, firstRow: int, placed: seq<Placed>, start: nat, row: int, p: Placed, end: nat)
    requires start < |s| && end == LineEnd(s, start)
    requires p == Placed(Coord(column, row), Truncate(LineAt(s, start)) + [NL])
    requires Placing(s, column, firstRow, placed, start, row)
    ensures Placing(s, column, firstRow, placed + [p], if At(s, end) == NL then end + 1 else end, row + 1)
  {
    RightAlignedStep(s, start, column, row);
    Advance(placed, [p], RightAlignedLines(SplitFrom(s, start), column, row),
            RightAlignedLines(SplitFrom(s, NextStart(s, start)), column, row + 1),
            RightAlignedLines(Split(s), column, firstRow));
  }

  /** At the terminator everything has been written. */
  lemma PlacingAll(s: CString, column: int, firstRow: int, placed: seq<Placed>, row: int)
    requires Placing(s, column, firstRow, placed, |s|, row)
    ensures placed == RightAlignedLines(Split(s), column, firstRow)
  {
    assert placed + [] == placed;
  }

  /** printr(text, line_length): every line of the text, cut to what the
      512-byte buffer holds, written at the column `line_length` short of
      the right edge (never left of column 0), on consecutive rows from the
      cursor's row down. */
  method PrintRightAligned(text: CString, query: Option<ScreenBufferInfo>, uninitialised: Coord, lineLength: int)
    returns (placed: seq<Placed>)
    ensures placed == PrintrOutput(text, query, uninitialised, lineLength)
  {
    var width := DefaultColumns;
    if query.Some? {
      width := query.value.window.right - query.value.window.left + 1;
    }
    var cursor := if query.Some? then query.value.cursorPosition else uninitialised;
    ghost var column := RightColumn(width, lineLength);
    ghost var firstRow := cursor.y;
    var start := 0;
    placed := [];
    PlacingNothing(text, column, firstRow);
    while At(text, start) != NUL
      invariant start <= |text|
      invariant Placing(text, column, firstRow, placed, start, cursor.y)
      decreases |text| - start
    {
      var buffer := new char[BufferSize];
      var line, end := TakeLine(buffer, text, start, true);
      var col := width - lineLength;
      if col < 0 {
        col := 0;
      }
      cursor := cursor.(x := col);
      PlacingNext(text, column, firstRow, placed, start, cursor.y, Placed(cursor, line + [NL]), end);
      placed := placed + [Placed(cursor, line + [NL])];
      cursor := cursor.(y := cursor.y + 1);
      start := if At(text, end) == NL then end + 1 else end;
    }
    PlacingAll(text, column, firstRow, placed, cursor.y);
  }

  // ---------------------------------------------------------------------
  // What the outputs say about the text

  /** Line i of the text is written behind the padding of console answer
      `first + i`: the padding depends on the console and `fixedWidth` only,
      never on the line. */
  lemma {:induction false} CenteredLinesAt(lines: seq<seq<char>>, queries: Queries, first: nat, fixedWidth: int, clamp: bool)
    ensures |CenteredLines(lines, queries, first, fixedWidth, clamp)| == |lines|
    ensures forall i :: 0 <= i < |lines| ==>
              CenteredLines(lines, queries, first, fixedWidth, clamp)[i]
              == Spaces(CenterPad(Columns(queries(first + i)), fixedWidth)) + Shown(lines[i], clamp)
    decreases |lines|
  {
    if lines != [] {
      var rest := CenteredLines(lines[1..], queries, first + 1, fixedWidth, clamp);
      CenteredLinesAt(lines[1..], queries, first + 1, fixedWidth, clamp);
      forall i | 1 <= i < |lines|
        ensures CenteredLines(lines, queries, first, fixedWidth, clamp)[i]
                == Spaces(CenterPad(Columns(queries(first + i)), fixedWidth)) + Shown(lines[i], clamp)
      {
        assert lines[1..][i - 1] == lines[i];
        assert rest[i - 1] == Spaces(CenterPad(Columns(queries(first + 1 + (i - 1))), fixedWidth)) + Shown(lines[1..][i - 1], clamp);
      }
    }
  }

  /** A padded line holds no newline unless the line did. */
  lemma CenteredLineHasNoNewline(line: seq<char>, query: Option<ScreenBufferInfo>, fixedWidth: int, clamp: bool)
    requires NL !in line
    ensures NL !in CenteredLine(line, query, fixedWidth, clamp)
  {
    var pad := CenterPad(Columns(query), fixedWidth);
    SpacesAreBlank(pad);
    TruncateIsPrefix(line);
    assert NL !in Spaces(pad);
    assert NL !in Shown(line, clamp) by {
      if clamp && |line| > MaxLineLength {
        assert Truncate(line) == line[..MaxLineLength];
      }
    }
  }

  lemma CenteredLinesHaveNoNewlines(lines: seq<seq<char>>, queries: Queries, first: nat, fixedWidth: int, clamp: bool)
    requires NoNewlines(lines)
    ensures NoNewlines(CenteredLines(lines, queries, first, fixedWidth, clamp))
  {
    CenteredLinesAt(lines, queries, first, fixedWidth, clamp);
    forall i | 0 <= i < |lines|
      ensures NL !in CenteredLines(lines, queries, first, fixedWidth, clamp)[i]
    {
      CenteredLineHasNoNewline(lines[i], queries(first + i), fixedWidth, clamp);
    }
  }

  /** printc's output read back line by line gives exactly the padded lines
      of the text, one per line of the text, so the loop ran once per line
      and at most strlen(bigText) times. */
  lemma PrintcLines(text: CString, queries: Queries, fixedWidth: int, clamp: bool)
    ensures Split(PrintcOutput(text, queries, fixedWidth, clamp)) == CenteredLines(Split(text), queries, 0, fixedWidth, clamp)
    ensures NewlineCount(PrintcOutput(text, queries, fixedWidth, clamp)) == |Split(text)| <= |text|
    ensures |Split(PrintcOutput(text, queries, fixedWidth, clamp))| == |Split(text)|
    ensures forall i :: 0 <= i < |Split(text)| ==>
              Split(PrintcOutput(text, queries, fixedWidth, clamp))[i]
              == Spaces(CenterPad(Columns(queries(i)), fixedWidth)) + Shown(Split(text)[i], clamp)
  {
    var lines := CenteredLines(Split(text), queries, 0, fixedWidth, clamp);
    SplitHasNoNewlines(text);
    CenteredLinesHaveNoNewlines(Split(text), queries, 0, fixedWidth, clamp);
    SplitTerminated(lines);
    NewlinesOfTerminated(lines);
    CenteredLinesAt(Split(text), queries, 0, fixedWidth, clamp);
    SplitCount(text);
  }

  /** With the console giving the same width for every line, every line of
      the output starts with the same padding. */
  lemma PrintcUniformPadding(text: CString, queries: Queries, fixedWidth: int, clamp: bool, columns: int)
    requires forall j :: Columns(queries(j)) == columns
    ensures |Split(PrintcOutput(text, queries, fixedWidth, clamp))| == |Split(text)|
    ensures forall i :: 0 <= i < |Split(text)| ==>
              Split(PrintcOutput(text, queries, fixedWidth, clamp))[i]
              == Spaces(CenterPad(columns, fixedWidth)) + Shown(Split(text)[i], clamp)
  {
    PrintcLines(text, queries, fixedWidth, clamp);
  }

  /** An empty text writes nothing; a newline closing the last line adds no
      line of its own. */
  lemma PrintcLineEnds(text: CString, queries: Queries, fixedWidth: int, clamp: bool)
    ensures PrintcOutput([], queries, fixedWidth, clamp) == []
    ensures text != [] && !EndsWithNewline(text) ==>
              PrintcOutput(text + [NL], queries, fixedWidth, clamp) == PrintcOutput(text, queries, fixedWidth, clamp)
  {
    if text != [] && !EndsWithNewline(text) {
      TrailingNewlineAddsNoLine(text);
    }
  }

  /** Lines that fit the buffer are shown whole, clamped or not. */
  lemma {:induction false} ShortLinesShownWhole(lines: seq<seq<char>>, queries: Queries, first: nat, fixedWidth: int)
    requires AllShort(lines)
    ensures CenteredLines(lines, queries, first, fixedWidth, true) == CenteredLines(lines, queries, first, fixedWidth, false)
    decreases |lines|
  {
    if lines != [] {
      assert |lines[0]| <= MaxLineLength;
      assert AllShort(lines[1..]) by {
        forall k | 0 <= k < |lines[1..]| ensures |lines[1..][k]| <= MaxLineLength {
          assert lines[1..][k] == lines[k + 1];
        }
      }
      ShortLinesShownWhole(lines[1..], queries, first + 1, fixedWidth);
    }
  }

  /** On the texts the as-written printc handles, the clamped one writes
      the same. */
  lemma ClampAgreesWhenFits(text: CString, queries: Queries, fixedWidth: int)
    requires FitsBuffer(text)
    ensures PrintcOutput(text, queries, fixedWidth, true) == PrintcOutput(text, queries, fixedWidth, false)
  {
    FitsBufferIffShortLines(text);
    ShortLinesShownWhole(Split(text), queries, 0, fixedWidth);
  }

  /** A text with a 512-byte line: strlen puts its end 512 bytes on, so the
      as-written printc would store the terminator at buffer[512], one past
      the buffer; the buffer condition rejects it. */
  const OverlongLine: CString := seq(BufferSize, _ => 'a')

  lemma OverlongLineOverflows()
    ensures LineStop(OverlongLine, 0) == BufferSize
    ensures !FitsBuffer(OverlongLine)
  {
    LineEndIs(OverlongLine, 0, BufferSize);
  }

  /** The clamped printc writes such a line cut to its first 511 bytes. */
  lemma OverlongLineClamped(queries: Queries, fixedWidth: int)
    ensures PrintcOutput(OverlongLine, queries, fixedWidth, true)
         == Spaces(CenterPad(Columns(queries(0)), fixedWidth)) + OverlongLine[..MaxLineLength] + [NL]
  {
    LineEndIs(OverlongLine, 0, BufferSize);
    LineAtIsSlice(OverlongLine, 0);
    assert OverlongLine[0..BufferSize] == OverlongLine;
    assert Split(OverlongLine) == [OverlongLine];
    CenteredLinesCons(OverlongLine, [], queries, 0, fixedWidth, true);
    assert [OverlongLine] + [] == [OverlongLine];
    TerminatedCons(CenteredLine(OverlongLine, queries(0), fixedWidth, true), []);
  }

  /** Line k of the text goes to row firstRow + k, at `column`, cut to its
      first min(length, 511) bytes. */
  lemma {:induction false} RightAlignedLinesAt(lines: seq<seq<char>>, column: int, row: int)
    ensures |RightAlignedLines(lines, column, row)| == |lines|
    ensures forall k :: 0 <= k < |lines| ==>
              RightAlignedLines(lines, column, row)[k] == Placed(Coord(column, row + k), Truncate(lines[k]) + [NL])
    decreases |lines|
  {
    if lines != [] {
      var rest := RightAlignedLines(lines[1..], column, row + 1);
      RightAlignedLinesAt(lines[1..], column, row + 1);
      forall k | 1 <= k < |lines|
        ensures RightAlignedLines(lines, column, row)[k] == Placed(Coord(column, row + k), Truncate(lines[k]) + [NL])
      {
        assert lines[1..][k - 1] == lines[k];
        assert rest[k - 1] == Placed(Coord(column, row + 1 + (k - 1)), Truncate(lines[1..][k - 1]) + [NL]);
      }
    }
  }

  /** printr writes one line per line of the text (so its loop runs at most
      strlen(text) times): line k at row cursor.Y + k and at the column
      `lineLength` short of the right edge, showing the line's first
      min(length, 511) bytes followed by a newline. */
  lemma PrintrLines(text: CString, query: Option<ScreenBufferInfo>, uninitialised: Coord, lineLength: int)
    ensures |PrintrOutput(text, query, uninitialised, lineLength)| == |Split(text)| <= |text|
    ensures forall k :: 0 <= k < |Split(text)| ==>
              PrintrOutput(text, query, uninitialised, lineLength)[k].at
              == Coord(RightColumn(Columns(query), lineLength), StartCursor(query, uninitialised).y + k)
    ensures forall k :: 0 <= k < |Split(text)| ==>
              PrintrOutput(text, query, uninitialised, lineLength)[k].text
              == Split(text)[k][..if |Split(text)[k]| <= MaxLineLength then |Split(text)[k]| else MaxLineLength] + [NL]
  {
    RightAlignedLinesAt(Split(text), RightColumn(Columns(query), lineLength), StartCursor(query, uninitialised).y);
    SplitCount(text);
    forall k | 0 <= k < |Split(text)|
      ensures PrintrOutput(text, query, uninitialised, lineLength)[k].text
              == Split(text)[k][..if |Split(text)[k]| <= MaxLineLength then |Split(text)[k]| else MaxLineLength] + [NL]
    {
      TruncateIsPrefix(Split(text)[k]);
    }
  }

  /** printr and printc cut the text into the same lines: printr's line k is
      printc's line k without its padding, against the clamped printc
      always, and against the as-written one on the texts it handles. */
  lemma PrintrMatchesPrintc(text: CString, query: Option<ScreenBufferInfo>, uninitialised: Coord, lineLength: int,
                            queries: Queries, fixedWidth: int, clamp: bool)
    requires !clamp ==> FitsBuffer(text)
    ensures |Split(PrintcOutput(text, queries, fixedWidth, clamp))| == |Split(text)|
    ensures |PrintrOutput(text, query, uninitialised, lineLength)| == |Split(text)|
    ensures forall k :: 0 <= k < |Split(text)| ==>
              Split(PrintcOutput(text, queries, fixedWidth, clamp))[k] + [NL]
              == Spaces(CenterPad(Columns(queries(k)), fixedWidth)) + PrintrOutput(text, query, uninitialised, lineLength)[k].text
  {
    if !clamp {
      ClampAgreesWhenFits(text, queries, fixedWidth);
    }
    var printc := Split(PrintcOutput(text, queries, fixedWidth, true));
    var printr := PrintrOutput(text, query, uninitialised, lineLength);
    assert Split(PrintcOutput(text, queries, fixedWidth, clamp)) == printc;
    PrintcLines(text, queries, fixedWidth, true);
    PrintrLines(text, query, uninitialised, lineLength);
    RightAlignedLinesAt(Split(text), RightColumn(Columns(query), lineLength), StartCursor(query, uninitialised).y);
    forall k | 0 <= k < |Split(text)|
      ensures printc[k] + [NL] == Spaces(CenterPad(Columns(queries(k)), fixedWidth)) + printr[k].text
    {
      var pad := Spaces(CenterPad(Columns(queries(k)), fixedWidth));
      var shown := Truncate(Split(text)[k]);
      assert printc[k] == pad + shown;
      assert printr[k].text == shown + [NL];
      AppendAssoc(pad, shown, [NL]);
    }
  }
}
