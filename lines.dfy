/** How the block routines cut their input into lines: each line runs up to
    the next newline or to the end of the text, a single newline at the very
    end closes the last line instead of opening an empty one, and the empty
    text has no lines at all. Lines are found by moving an offset through
    the text, as the routines move a pointer. */
module Lines {

  const NL := '\n'

  /** The line of `s` that starts at offset `i`: the bytes from `i` up to
      the next newline or the end of the text. */
  function LineAt(s: seq<char>, i: nat): (l: seq<char>)
    requires i <= |s|
    ensures i + |l| <= |s|
    ensures NL !in l
    ensures i + |l| < |s| ==> s[i + |l|] == NL
    decreases |s| - i
  {
    if i == |s| || s[i] == NL then [] else [s[i]] + LineAt(s, i + 1)
  }

  /** Where the line that starts at `i` ends: at a newline or at |s|. */
  function LineEnd(s: seq<char>, i: nat): (e: nat)
    requires i <= |s|
    ensures i <= e <= |s|
    ensures e < |s| ==> s[e] == NL
  {
    i + |LineAt(s, i)|
  }

  /** The line's end is the FIRST newline at or after `i`: none comes
      between `i` and the end. */
  lemma {:induction false} LineEndIsFirstNewline(s: seq<char>, i: nat)
    requires i <= |s|
    ensures NL !in s[i..LineEnd(s, i)]
    decreases |s| - i
  {
    if i < |s| && s[i] != NL {
      LineEndIsFirstNewline(s, i + 1);
      assert s[i..LineEnd(s, i)] == [s[i]] + s[i + 1..LineEnd(s, i + 1)];
    }
  }

  /** The newline-separated lines of `s` from offset `i` on. */
  function SplitFrom(s: seq<char>, i: nat): seq<seq<char>>
    requires i <= |s|
    decreases |s| - i
  {
    if i == |s| then []
    else if LineEnd(s, i) < |s| then [LineAt(s, i)] + SplitFrom(s, LineEnd(s, i) + 1)
    else [LineAt(s, i)]
  }

  /** The newline-separated lines of `s`. */
  function Split(s: seq<char>): seq<seq<char>>
  {
    SplitFrom(s, 0)
  }

  /** Every line followed by one newline: what printing each line with a
      trailing "\n" writes. */
  function Terminated(ls: seq<seq<char>>): seq<char>
  {
    if ls == [] then [] else ls[0] + [NL] + Terminated(ls[1..])
  }

  /** The lines put back together with one newline between neighbours. */
  function Join(ls: seq<seq<char>>): seq<char>
  {
    if ls == [] then []
    else if |ls| == 1 then ls[0]
    else ls[0] + [NL] + Join(ls[1..])
  }

  /** `s` without its final newline, if it ends with one. */
  function Chomp(s: seq<char>): seq<char>
  {
    if s != [] && s[|s| - 1] == NL then s[..|s| - 1] else s
  }

  predicate EndsWithNewline(s: seq<char>)
  {
    s != [] && s[|s| - 1] == NL
  }

  /** The number of newlines in `s`. */
  function NewlineCount(s: seq<char>): nat
  {
    multiset(s)[NL]
  }

  predicate NoNewlines(ls: seq<seq<char>>)
  {
    forall k :: 0 <= k < |ls| ==> NL !in ls[k]
  }

  /** Terminating a first line and the rest. */
  lemma TerminatedCons(l: seq<char>, ls: seq<seq<char>>)
    ensures Terminated([l] + ls) == l + [NL] + Terminated(ls)
  {
    assert ([l] + ls)[1..] == ls;
  }

  /** The bytes from `i` that match `l`, newline-free and followed by a
      newline or the end, are the line at `i`. */
  lemma {:induction false} LineAtIs(s: seq<char>, i: nat, l: seq<char>)
    requires i + |l| <= |s| && NL !in l
    requires forall j :: 0 <= j < |l| ==> s[i + j] == l[j]
    requires i + |l| < |s| ==> s[i + |l|] == NL
    ensures LineAt(s, i) == l
    decreases |l|
  {
    if l != [] {
      assert s[i] == l[0];
      LineAtIs(s, i + 1, l[1..]);
      HeadTail(l);
    }
  }

  /** The offset `e` with no newline from `i` up to it and a newline (or the
      end of the text) at it is the end of the line at `i`. */
  lemma {:induction false} LineEndIs(s: seq<char>, i: nat, e: nat)
    requires i <= e <= |s|
    requires forall j :: i <= j < e ==> s[j] != NL
    requires e < |s| ==> s[e] == NL
    ensures LineEnd(s, i) == e
    decreases e - i
  {
    if i < e {
      LineEndIs(s, i + 1, e);
    }
  }

  /** The line at `i` is the slice of the text up to its end. */
  lemma {:induction false} LineAtIsSlice(s: seq<char>, i: nat)
    requires i <= |s|
    ensures LineAt(s, i) == s[i..LineEnd(s, i)]
    decreases |s| - i
  {
    if i < |s| && s[i] != NL {
      LineAtIsSlice(s, i + 1);
      assert s[i..LineEnd(s, i)] == [s[i]] + s[i + 1..LineEnd(s, i)];
    }
  }

  /** No line of a split contains a newline. */
  lemma {:induction false} SplitFromHasNoNewlines(s: seq<char>, i: nat)
    requires i <= |s|
    ensures NoNewlines(SplitFrom(s, i))
    decreases |s| - i
  {
    if i < |s| && LineEnd(s, i) < |s| {
      SplitFromHasNoNewlines(s, LineEnd(s, i) + 1);
    }
  }

  lemma SplitHasNoNewlines(s: seq<char>)
    ensures NoNewlines(Split(s))
  {
    SplitFromHasNoNewlines(s, 0);
  }

  /** The text up to a line start `i`, the line and its newline. */
  lemma PrefixThroughLine(s: seq<char>, i: nat)
    requires i <= |s| && LineEnd(s, i) < |s|
    ensures s[..i] + LineAt(s, i) + [NL] == s[..LineEnd(s, i) + 1]
  {
    var e := LineEnd(s, i);
    assert s[..e + 1] == s[..i] + s[i..e] + [s[e]];
    LineAtIsSlice(s, i);
  }

  /** The text up to a line start `i` and the last line. */
  lemma PrefixThroughLastLine(s: seq<char>, i: nat)
    requires i <= |s| && LineEnd(s, i) == |s|
    ensures s[..i] + LineAt(s, i) == s
  {
    assert s == s[..i] + s[i..];
    LineAtIsSlice(s, i);
  }

  /** Moving the written prefix over one more piece. */
  lemma Regroup(p: seq<char>, piece: seq<char>, t: seq<char>, q: seq<char>)
    requires p + piece == q
    ensures p + (piece + t) == q + t
  {
    assert p + (piece + t) == (p + piece) + t;
  }

  /** What the text up to offset `i` and its lines from `i` on print. */
  function Reprinted(s: seq<char>, i: nat): seq<char>
    requires i <= |s|
  {
    s[..i] + Terminated(SplitFrom(s, i))
  }

  /** The whole text, closed with a newline if it did not already end with
      one: what printing every line of it with a newline after it gives. */
  function Closed(s: seq<char>): seq<char>
  {
    if s == [] || EndsWithNewline(s) then s else s + [NL]
  }

  /** The text before a line start `i` followed by every line from `i` on,
      each with a newline after it, is the whole text, closed. */
  lemma {:induction false} TerminatedSplitFrom(s: seq<char>, i: nat)
    requires i <= |s| && (i == 0 || s[i - 1] == NL)
    ensures Reprinted(s, i) == Closed(s)
    decreases |s| - i
  {
    if i == |s| {
      ReprintedEnd(s);
    } else if LineEnd(s, i) < |s| {
      TerminatedSplitFrom(s, LineEnd(s, i) + 1);
      ReprintedStep(s, i, Closed(s));
    } else {
      ReprintedLast(s, i);
    }
  }

  /** Past the last newline nothing is left to reprint. */
  lemma ReprintedEnd(s: seq<char>)
    requires |s| == 0 || s[|s| - 1] == NL
    ensures Reprinted(s, |s|) == Closed(s)
  {
    assert s[..|s|] == s;
    assert Terminated(SplitFrom(s, |s|)) == [];
    assert s == [] || EndsWithNewline(s);
    assert s + [] == s;
  }

  /** Past a line closed by a newline, the reprinted text stays the same. */
  lemma ReprintedStep(s: seq<char>, i: nat, r: seq<char>)
    requires i < |s| && LineEnd(s, i) < |s|
    requires Reprinted(s, LineEnd(s, i) + 1) == r
    ensures Reprinted(s, i) == r
  {
    var rest := SplitFrom(s, LineEnd(s, i) + 1);
    TerminatedCons(LineAt(s, i), rest);
    PrefixThroughLine(s, i);
    Regroup(s[..i], LineAt(s, i) + [NL], Terminated(rest), s[..LineEnd(s, i) + 1]);
  }

  /** The last line, closed by no newline, reprints as the closed text. */
  lemma ReprintedLast(s: seq<char>, i: nat)
    requires i < |s| && LineEnd(s, i) == |s|
    ensures Reprinted(s, i) == Closed(s)
  {
    var l := LineAt(s, i);
    assert Terminated([l]) == l + [NL] + Terminated([]);
    PrefixThroughLastLine(s, i);
    assert s[|s| - 1] == l[|s| - 1 - i] && l[|s| - 1 - i] in l;
    Regroup(s[..i], l, [NL], s);
  }

  /** Printing every line of a split with a newline after it reproduces the
      text, closing it with a newline if it did not already end with one. */
  lemma TerminatedSplit(s: seq<char>)
    ensures Terminated(Split(s)) == Closed(s)
  {
    TerminatedSplitFrom(s, 0);
    assert s[..0] == [];
  }

  /** Joining non-empty lines with separators is terminating them, less the
      final newline. */
  lemma {:induction false} TerminatedIsJoinedPlusNewline(ls: seq<seq<char>>)
    requires ls != []
    ensures Terminated(ls) == Join(ls) + [NL]
  {
    if |ls| > 1 {
      TerminatedIsJoinedPlusNewline(ls[1..]);
    } else {
      assert ls[1..] == [];
    }
  }

  /** Joining the lines of a split with newlines gives back the text, less
      one trailing newline. */
  lemma JoinSplit(s: seq<char>)
    ensures Join(Split(s)) == Chomp(s)
  {
    if s != [] {
      TerminatedSplit(s);
      assert Split(s) != [];
      TerminatedIsJoinedPlusNewline(Split(s));
      var t := Terminated(Split(s));
      assert Join(Split(s)) == t[..|t| - 1];
    }
  }

  /** Splitting newline-terminated lines written after a prefix `p` gives
      back exactly those lines. */
  lemma {:induction false} SplitFromTerminated(p: seq<char>, ls: seq<seq<char>>)
    requires NoNewlines(ls)
    ensures SplitFrom(p + Terminated(ls), |p|) == ls
    decreases |ls|
  {
    if ls != [] {
      var l := ls[0];
      var t := Terminated(ls[1..]);
      Regroup(p, l + [NL], t, p + l + [NL]);
      LineAfterPrefix(p, l, t);
      NoNewlinesTail(ls);
      SplitFromTerminated(p + l + [NL], ls[1..]);
      HeadTail(ls);
    }
  }

  lemma HeadTail<T>(xs: seq<T>)
    requires xs != []
    ensures [xs[0]] + xs[1..] == xs
  {
  }

  /** Past the prefix `p`, the text `l + "\n" + t` starts with the line `l`. */
  lemma LineAfterPrefix(p: seq<char>, l: seq<char>, t: seq<char>)
    requires NL !in l
    ensures SplitFrom(p + l + [NL] + t, |p|) == [l] + SplitFrom(p + l + [NL] + t, |p| + |l| + 1)
  {
    var x := p + l + [NL] + t;
    forall j | 0 <= j < |l|
      ensures x[|p| + j] == l[j]
    {
    }
    assert x[|p| + |l|] == NL;
    LineAtIs(x, |p|, l);
  }

  /** The lines after the first of newline-free lines are newline-free. */
  lemma NoNewlinesTail(ls: seq<seq<char>>)
    requires ls != [] && NoNewlines(ls)
    ensures NoNewlines(ls[1..])
  {
    forall k | 0 <= k < |ls[1..]| ensures NL !in ls[1..][k] {
      assert ls[1..][k] == ls[k + 1];
    }
  }

  /** Splitting newline-terminated lines gives back exactly those lines:
      Split undoes Terminated. */
  lemma SplitTerminated(ls: seq<seq<char>>)
    requires NoNewlines(ls)
    ensures Split(Terminated(ls)) == ls
  {
    SplitFromTerminated([], ls);
    assert [] + Terminated(ls) == Terminated(ls);
  }

  /** A single trailing newline after a non-empty last line adds no line. */
  lemma TrailingNewlineAddsNoLine(s: seq<char>)
    requires s != [] && !EndsWithNewline(s)
    ensures Split(s + [NL]) == Split(s)
  {
    TerminatedSplit(s);
    SplitHasNoNewlines(s);
    SplitTerminated(Split(s));
  }

  /** The text `s + "\n"` (with `s` empty or already ending in a newline)
      ends with an empty line. */
  lemma ExtraNewlineAddsEmptyLine(s: seq<char>)
    requires s == [] || EndsWithNewline(s)
    ensures Split(s + [NL]) == Split(s) + [[]]
  {
    TerminatedSplit(s);
    SplitHasNoNewlines(s);
    var ls := Split(s) + [[]];
    assert NoNewlines(ls);
    TerminatedAppend(Split(s), []);
    assert Terminated(ls) == s + [NL];
    SplitTerminated(ls);
  }

  /** Terminating one more line appends it and its newline. */
  lemma {:induction false} TerminatedAppend(ls: seq<seq<char>>, l: seq<char>)
    ensures Terminated(ls + [l]) == Terminated(ls) + l + [NL]
  {
    if ls != [] {
      assert (ls + [l])[1..] == ls[1..] + [l];
      TerminatedAppend(ls[1..], l);
    } else {
      assert Terminated([l]) == l + [NL] + Terminated([]);
    }
  }

  /** Newline-free lines, terminated, hold one newline each. */
  lemma {:induction false} NewlinesOfTerminated(ls: seq<seq<char>>)
    requires NoNewlines(ls)
    ensures NewlineCount(Terminated(ls)) == |ls|
  {
    if ls != [] {
      NoNewlinesTail(ls);
      NewlinesOfTerminated(ls[1..]);
      assert NL !in ls[0];
      assert multiset(ls[0])[NL] == 0;
      assert multiset(Terminated(ls)) == multiset(ls[0]) + multiset{NL} + multiset(Terminated(ls[1..]));
    }
  }

  /** A text counts no more newlines than it has bytes. */
  lemma {:induction false} NewlineCountBound(s: seq<char>)
    ensures NewlineCount(s) <= |s|
  {
    if s != [] {
      var n := |s| - 1;
      assert s == s[..n] + [s[n]];
      assert multiset(s) == multiset(s[..n]) + multiset{s[n]};
      NewlineCountBound(s[..n]);
    }
  }

  /** Closing a text adds a newline exactly when it had no final one. */
  lemma NewlinesOfClosed(s: seq<char>)
    ensures NewlineCount(Closed(s)) == NewlineCount(s) + (if s != [] && !EndsWithNewline(s) then 1 else 0)
  {
    if s != [] && !EndsWithNewline(s) {
      assert multiset(s + [NL]) == multiset(s) + multiset{NL};
    }
  }

  /** A text whose last byte is no newline has fewer newlines than bytes. */
  lemma NewlineCountBelow(s: seq<char>)
    requires s != [] && !EndsWithNewline(s)
    ensures NewlineCount(s) < |s|
  {
    var n := |s| - 1;
    assert s == s[..n] + [s[n]];
    assert multiset(s) == multiset(s[..n]) + multiset{s[n]};
    NewlineCountBound(s[..n]);
  }

  /** A text has one line per newline, plus one for a last line that no
      newline closes; so never more lines than bytes. */
  lemma SplitCount(s: seq<char>)
    ensures |Split(s)| == NewlineCount(s) + (if s != [] && !EndsWithNewline(s) then 1 else 0)
    ensures |Split(s)| <= |s|
  {
    TerminatedSplit(s);
    SplitHasNoNewlines(s);
    NewlinesOfTerminated(Split(s));
    NewlinesOfClosed(s);
    if s != [] && !EndsWithNewline(s) {
      NewlineCountBelow(s);
    } else {
      NewlineCountBound(s);
    }
  }
}
