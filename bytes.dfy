/** Bytes, and the `read_until` delimiter scan that both the line counter and
    the NUL-separated input list are built on. */
module Bytes {
  /** One byte of input or output. */
  type Byte = b: int | 0 <= b < 256

  const NUL: Byte := 0x00
  const TAB: Byte := 0x09
  const NEWLINE: Byte := 0x0A
  const SPACE: Byte := 0x20
  const DASH: Byte := 0x2D

  /** The number of bytes one `read_until(delim, ..)` call takes from the front
      of `s`: everything up to and including the first `delim`, or all of `s`
      when it holds no `delim`. Zero only at end of input. */
  function ReadUntilLength(s: seq<Byte>, delim: Byte): (n: nat)
    ensures n == 0 <==> s == []
    ensures n <= |s|
  {
    if s == [] then 0
    else if s[0] == delim then 1
    else 1 + ReadUntilLength(s[1..], delim)
  }

  /** A `read_until` chunk holds no `delim` before its last byte, and ends
      with `delim` unless it runs to the end of input without meeting one. */
  lemma {:induction false} ReadUntilChunk(s: seq<Byte>, delim: Byte)
    ensures forall i :: 0 <= i < ReadUntilLength(s, delim) - 1 ==> s[i] != delim
    ensures 0 < ReadUntilLength(s, delim) < |s| ==> s[ReadUntilLength(s, delim) - 1] == delim
    ensures delim in s ==> s[ReadUntilLength(s, delim) - 1] == delim
  {
    if s != [] && s[0] != delim {
      ReadUntilChunk(s[1..], delim);
      assert forall i :: 1 <= i < |s| ==> s[i] == s[1..][i - 1];
    }
  }

  /** A `read_until` chunk holds exactly one `delim` when it ends with one,
      and none otherwise. */
  lemma ChunkDelimiters(s: seq<Byte>, delim: Byte)
    requires s != []
    ensures Occurrences(s[..ReadUntilLength(s, delim)], delim)
         == (if ReadUntilLength(s, delim) < |s| || s[|s| - 1] == delim then 1 else 0)
  {
    var k := ReadUntilLength(s, delim);
    ReadUntilChunk(s, delim);
    var init := s[..k - 1];
    assert s[..k] == init + [s[k - 1]];
    assert delim !in init by {
      forall i | 0 <= i < |init|
        ensures init[i] != delim
      {
        assert init[i] == s[i];
      }
    }
    OccurrencesAppend(init, [s[k - 1]], delim);
    OccurrencesOne(s[k - 1], delim);
  }

  lemma OccurrencesOne(x: Byte, b: Byte)
    ensures Occurrences([x], b) == if x == b then 1 else 0
  {
    assert [x][1..] == [];
  }

  /** 1 when `s` does not end with `delim` (its last piece is unterminated),
      0 when it does or is empty. */
  function Unterminated(s: seq<Byte>, delim: Byte): nat {
    if s != [] && s[|s| - 1] != delim then 1 else 0
  }

  /** Cutting the first `read_until` chunk off `s` takes one piece away: its
      delimiter, or the unterminated piece that ends `s`. */
  lemma CutChunk(s: seq<Byte>, delim: Byte)
    requires s != []
    ensures var rest := s[ReadUntilLength(s, delim)..];
            Occurrences(s, delim) + Unterminated(s, delim) == 1 + Occurrences(rest, delim) + Unterminated(rest, delim)
  {
    var k := ReadUntilLength(s, delim);
    var chunk, rest := s[..k], s[k..];
    assert s == chunk + rest;
    OccurrencesAppend(chunk, rest, delim);
    ChunkDelimiters(s, delim);
    if k < |s| {
      UnterminatedSuffix(s, k, delim);
    } else {
      assert rest == [];
    }
  }

  /** A non-empty suffix ends as the whole does. */
  lemma UnterminatedSuffix(s: seq<Byte>, k: nat, delim: Byte)
    requires k < |s|
    ensures Unterminated(s[k..], delim) == Unterminated(s, delim)
  {
    assert s[k..][|s[k..]| - 1] == s[|s| - 1];
  }

  /** How many times `b` occurs in `s`. */
  function Occurrences(s: seq<Byte>, b: Byte): (n: nat)
    ensures n <= |s|
    ensures n == 0 <==> b !in s
  {
    if s == [] then 0
    else (if s[0] == b then 1 else 0) + Occurrences(s[1..], b)
  }

  lemma {:induction false} OccurrencesAppend(s: seq<Byte>, t: seq<Byte>, b: Byte)
    ensures Occurrences(s + t, b) == Occurrences(s, b) + Occurrences(t, b)
  {
    if s != [] {
      assert (s + t)[0] == s[0] && (s + t)[1..] == s[1..] + t;
      OccurrencesAppend(s[1..], t, b);
    } else {
      assert s + t == t;
    }
  }

  /** `s` with every trailing `b` removed, as `str::trim_end_matches` does. */
  function TrimEnd(s: seq<Byte>, b: Byte): (r: seq<Byte>)
    ensures |r| <= |s| && r == s[..|r|]
    ensures r == [] || r[|r| - 1] != b
    ensures forall i :: |r| <= i < |s| ==> s[i] == b
  {
    if s == [] || s[|s| - 1] != b then s
    else TrimEnd(s[..|s| - 1], b)
  }

  /** `n` spaces. */
  function Spaces(n: nat): (r: seq<Byte>)
    ensures |r| == n
    ensures forall i :: 0 <= i < n ==> r[i] == SPACE
  {
    if n == 0 then [] else [SPACE] + Spaces(n - 1)
  }
}
