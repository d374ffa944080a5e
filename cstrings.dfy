/** The parts of the C library that the alignment routines rely on, modelled
    on NUL-free character sequences: a C string is the sequence of bytes
    before its terminating NUL. */
module CStrings {
  import opened Wrappers

  const NUL := '\0'

  /** The contents of a NUL-terminated C string (the terminator excluded). */
  type CString = s: seq<char> | NUL !in s

  /** The byte a pointer to offset `i` of `s` reads: the terminator at |s|. */
  function At(s: CString, i: nat): (c: char)
    requires i <= |s|
    ensures c == NUL <==> i == |s|
  {
    if i < |s| then s[i] else NUL
  }

  /** strchr(s + from, c): the offset of the first byte equal to `c` at or
      after `from` (the terminator included), or None for a NULL result. */
  function StrChr(s: CString, from: nat, c: char): (r: Option<nat>)
    requires from <= |s|
    ensures r.Some? ==> from <= r.value <= |s| && At(s, r.value) == c
    ensures r.Some? ==> forall j :: from <= j < r.value ==> At(s, j) != c
    ensures r.None? ==> forall j :: from <= j <= |s| ==> At(s, j) != c
    decreases |s| - from
  {
    if At(s, from) == c then Some(from)
    else if from == |s| then None
    else StrChr(s, from + 1, c)
  }

  /** strncpy(dst, src + from, n): copies bytes of the source until its
      terminator and pads the rest of the `n` bytes with NUL; for a C string
      that is exactly "byte j is what offset from + j reads". */
  method StrNCopy(dst: array<char>, src: CString, from: nat, n: nat)
    requires from + n <= |src| + 1
    requires n <= dst.Length
    modifies dst
    ensures forall j :: 0 <= j < n ==> dst[j] == At(src, from + j)
    ensures forall j :: n <= j < dst.Length ==> dst[j] == old(dst[j])
  {
    for i := 0 to n
      invariant forall j :: 0 <= j < i ==> dst[j] == At(src, from + j)
      invariant forall j :: i <= j < dst.Length ==> dst[j] == old(dst[j])
    {
      dst[i] := At(src, from + i);
    }
  }

  /** What printf("%s", buf) reads from a buffer: the bytes before the first
      NUL. Reading a buffer that holds no NUL runs off its end, so a
      terminator is required. */
  function UntilNul(buf: seq<char>): (s: CString)
    requires NUL in buf
    ensures |s| < |buf| && buf[|s|] == NUL && s == buf[..|s|]
  {
    if buf[0] == NUL then [] else [buf[0]] + UntilNul(buf[1..])
  }

  /** A buffer whose first `n` bytes are NUL-free and whose byte `n` is NUL
      prints as exactly those `n` bytes. */
  lemma {:induction false} UntilNulAt(buf: seq<char>, n: nat)
    requires n < |buf| && buf[n] == NUL && NUL !in buf[..n]
    ensures NUL in buf && UntilNul(buf) == buf[..n]
  {
    assert buf[n] in buf;
    if n > 0 {
      assert buf[0] == buf[..n][0];
      assert buf[1..][..n - 1] == buf[1..n];
      assert NUL !in buf[1..][..n - 1] by {
        assert buf[1..n] == buf[..n][1..];
      }
      UntilNulAt(buf[1..], n - 1);
    }
  }
}
