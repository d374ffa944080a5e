/** How the block routines walk a text: a pointer `start` moves from line to
    line, each line ending at the next newline (strchr) or at the
    terminator (start + strlen(start)), and each line is copied into a
    fixed 512-byte stack buffer before it is printed. */
module LineScan {
  import opened Wrappers
  import opened CStrings
  import opened Lines

  /** The size of the stack buffer each line is copied into. */
  const BufferSize := 512

  /** The longest line the buffer holds together with its terminator. */
  const MaxLineLength := BufferSize - 1

  /** Where the line that begins at `start` ends:
      `end = strchr(start, '\n'); if (!end) end = start + strlen(start);`
      is the end of that line. */
  function LineStop(s: CString, start: nat): (end: nat)
    requires start <= |s|
    ensures end == LineEnd(s, start)
  {
    var end := match StrChr(s, start, NL) case Some(e) => e case None => |s|;
    assert forall j :: start <= j < end ==> s[j] == At(s, j);
    LineEndIs(s, start, end);
    end
  }

  /** Every line the loop meets from `start` on fits the buffer together
      with its terminator. */
  predicate FitsFrom(s: CString, start: nat)
    requires start <= |s|
    decreases |s| - start
  {
    start == |s| ||
    (LineEnd(s, start) - start <= MaxLineLength &&
     (LineEnd(s, start) < |s| ==> FitsFrom(s, LineEnd(s, start) + 1)))
  }

  /** The line at `start` fits, and so does every line after it. */
  lemma FitsNext(s: CString, start: nat, end: nat)
    requires start < |s| && end == LineEnd(s, start) < |s|
    requires FitsFrom(s, start)
    ensures end - start <= MaxLineLength && FitsFrom(s, end + 1)
  {
  }

  /** Every line of the text fits the 512-byte buffer. */
  predicate FitsBuffer(s: CString)
  {
    FitsFrom(s, 0)
  }

  /** No line is longer than the buffer holds besides the terminator. */
  predicate AllShort(ls: seq<seq<char>>)
  {
    forall k :: 0 <= k < |ls| ==> |ls[k]| <= MaxLineLength
  }

  /** FitsFrom holds exactly when no line from `start` on is longer than
      511 bytes. */
  lemma {:induction false} FitsFromLines(s: CString, start: nat)
    requires start <= |s|
    ensures FitsFrom(s, start) <==> AllShort(SplitFrom(s, start))
    decreases |s| - start
  {
    if start < |s| {
      var end := LineEnd(s, start);
      if end < |s| {
        FitsFromLines(s, end + 1);
        ShortLinesCons(LineAt(s, start), SplitFrom(s, end + 1));
      } else {
        ShortLinesCons(LineAt(s, start), []);
        assert [LineAt(s, start)] + [] == SplitFrom(s, start);
      }
    }
  }

  /** A list of lines is short exactly when its first line and the rest are. */
  lemma ShortLinesCons(l: seq<char>, ls: seq<seq<char>>)
    ensures AllShort([l] + ls) <==> |l| <= MaxLineLength && AllShort(ls)
  {
    if AllShort([l] + ls) {
      assert ([l] + ls)[0] == l;
      forall k | 0 <= k < |ls| ensures |ls[k]| <= MaxLineLength {
        assert ([l] + ls)[k + 1] == ls[k];
      }
    }
  }

  /** The buffer condition in terms of the text's lines: it holds exactly
      when every line is at most 511 bytes long. */
  lemma FitsBufferIffShortLines(s: CString)
    ensures FitsBuffer(s) <==> AllShort(Split(s))
  {
    FitsFromLines(s, 0);
  }

  /** `strncpy(buffer, start, len); buffer[len] = '\0';` followed by what
      printf("%s", buffer) then reads back: exactly the `len` bytes of the
      text from `start`. Index `len` must lie inside the buffer. */
  method CopyLine(buffer: array<char>, s: CString, start: nat, len: nat) returns (line: seq<char>)
    requires start + len <= |s| && len < buffer.Length
    modifies buffer
    ensures buffer[len] == NUL && buffer[..len] == s[start..start + len]
    ensures line == s[start..start + len] && line == UntilNul(buffer[..])
  {
    StrNCopy(buffer, s, start, len);
    buffer[len] := NUL;
    assert buffer[..][..len] == s[start..start + len] by {
      forall j | 0 <= j < len ensures buffer[..][j] == s[start + j] {
        assert buffer[j] == At(s, start + j);
      }
    }
    assert NUL !in s[start..start + len];
    UntilNulAt(buffer[..], len);
    line := UntilNul(buffer[..]);
  }

  /** printr's `if (len > sizeof(buffer) - 1) len = sizeof(buffer) - 1;`:
      what is shown of a line is its longest prefix that fits the buffer. */
  function Truncate(line: seq<char>): seq<char>
  {
    if |line| > MaxLineLength then line[..MaxLineLength] else line
  }

  /** What is shown is the first min(|line|, 511) bytes of the line. */
  lemma TruncateIsPrefix(line: seq<char>)
    ensures |Truncate(line)| == if |line| <= MaxLineLength then |line| else MaxLineLength
    ensures Truncate(line) == line[..|Truncate(line)|]
  {
  }

  /** What a routine prints of a line: all of it, or, when it clamps the
      length to the buffer as printr does, at most its first 511 bytes. */
  function Shown(line: seq<char>, clamp: bool): seq<char>
  {
    if clamp then Truncate(line) else line
  }

  /** The line extraction both block routines share: find the end of the
      line at `start` (strchr, else strlen), take its length, clamped to the
      buffer when `clamp`, copy it into the buffer and read it back. An
      unclamped copy has no bound check, so the line must then fit. */
  method TakeLine(buffer: array<char>, s: CString, start: nat, clamp: bool) returns (line: seq<char>, end: nat)
    requires start < |s| && buffer.Length == BufferSize
    requires !clamp ==> LineEnd(s, start) - start <= MaxLineLength
    modifies buffer
    ensures end == LineEnd(s, start)
    ensures line == Shown(LineAt(s, start), clamp)
  {
    var found := StrChr(s, start, NL);
    end := if found.Some? then found.value else start + (|s| - start);
    assert end == LineStop(s, start);
    var len := end - start;
    if clamp && len > BufferSize - 1 {
      len := BufferSize - 1;
    }
    line := CopyLine(buffer, s, start, len);
    LineAtIsSlice(s, start);
    if clamp && end - start > MaxLineLength {
      assert s[start..end][..MaxLineLength] == s[start..start + MaxLineLength];
    }
  }
}
