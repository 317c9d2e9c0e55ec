/** The five per-source counts and the streaming counter that produces them
    (`FileCounts::from_reader` and `AddAssign` in mwc/src/main.rs). */
module Counts {
  import opened Bytes
  import opened Utf8

  /** The counts for one source, or the running totals of several. */
  datatype FileCounts = FileCounts(lines: nat, words: nat, bytes: nat, chars: nat, maxLineLength: nat)
  {
    /** `self += rhs`: four fields add up, the longest line is a maximum. */
    function Add(rhs: FileCounts): FileCounts {
      FileCounts(lines + rhs.lines, words + rhs.words, bytes + rhs.bytes, chars + rhs.chars,
                 Max(maxLineLength, rhs.maxLineLength))
    }
  }

  function Max(a: nat, b: nat): nat {
    if a < b then b else a
  }

  /** `FileCounts::default()`. */
  function Zero(): (r: FileCounts)
    ensures forall a: FileCounts {:trigger a.Add(r)} :: a.Add(r) == a
  {
    FileCounts(0, 0, 0, 0, 0)
  }

  /** `*self += rhs`, field by field in the order the source updates them. */
  method AddAssign(self: FileCounts, rhs: FileCounts) returns (r: FileCounts)
    ensures r == self.Add(rhs)
    ensures r.lines == self.lines + rhs.lines && r.maxLineLength >= self.maxLineLength
  {
    r := self.(lines := self.lines + rhs.lines);
    r := r.(bytes := r.bytes + rhs.bytes);
    r := r.(words := r.words + rhs.words);
    r := r.(chars := r.chars + rhs.chars);
    r := r.(maxLineLength := Max(r.maxLineLength, rhs.maxLineLength));
  }

  /** Merging counts is a commutative monoid with `Zero()` as its unit, so a
      total does not depend on how or in which order its parts were folded in. */
  lemma AddCommutes(a: FileCounts, b: FileCounts)
    ensures a.Add(b) == b.Add(a)
  {
  }

  lemma AddAssociates(a: FileCounts, b: FileCounts, c: FileCounts)
    ensures a.Add(b).Add(c) == a.Add(b.Add(c))
  {
  }

  lemma AddZero(a: FileCounts)
    ensures a.Add(Zero()) == a && Zero().Add(a) == a
  {
  }

  /** The longest line of a merge is the longer of the two, never their sum. */
  lemma AddMaxLineLength(a: FileCounts, b: FileCounts)
    ensures a.Add(b).maxLineLength >= a.maxLineLength && a.Add(b).maxLineLength >= b.maxLineLength
    ensures a.Add(b).maxLineLength == a.maxLineLength || a.Add(b).maxLineLength == b.maxLineLength
  {
  }

  // ---------------------------------------------------------------- words

  /** `u8::is_ascii_whitespace`: space, tab, line feed, form feed and carriage
      return. Vertical tab (0x0B) is not whitespace here. */
  predicate IsAsciiWhitespace(b: Byte) {
    b == 0x20 || b == 0x09 || b == 0x0A || b == 0x0C || b == 0x0D
  }

  /** `slice::split(is_ascii_whitespace)`: the pieces between whitespace
      bytes, empty pieces included; always at least one piece. */
  function SplitWhitespace(s: seq<Byte>): (pieces: seq<seq<Byte>>)
    ensures pieces != []
    decreases |s|
  {
    if s == [] then [[]]
    else
      var rest := SplitWhitespace(s[1..]);
      if IsAsciiWhitespace(s[0]) then [[]] + rest
      else [[s[0]] + rest[0]] + rest[1..]
  }

  /** `.filter(|s| !s.is_empty()).count()`. */
  function NonEmptyCount(pieces: seq<seq<Byte>>): (n: nat)
    ensures n <= |pieces|
  {
    if pieces == [] then 0
    else (if pieces[0] == [] then 0 else 1) + NonEmptyCount(pieces[1..])
  }

  /** The words one chunk adds, computed as the source does. */
  function WordsIn(chunk: seq<Byte>): nat {
    NonEmptyCount(SplitWhitespace(chunk))
  }

  /** Reference definition of the word count: the number of maximal runs of
      non-whitespace bytes, each counted at its last byte (a non-whitespace
      byte followed by whitespace or by the end of `s`). */
  function WordCount(s: seq<Byte>): nat {
    if s == [] then 0
    else
      (if !IsAsciiWhitespace(s[0]) && (|s| == 1 || IsAsciiWhitespace(s[1])) then 1 else 0)
      + WordCount(s[1..])
  }

  /** Cutting after a whitespace byte never cuts a word. */
  lemma {:induction false} WordCountAppend(a: seq<Byte>, b: seq<Byte>)
    requires a == [] || IsAsciiWhitespace(a[|a| - 1])
    ensures WordCount(a + b) == WordCount(a) + WordCount(b)
  {
    if a == [] {
      assert a + b == b;
    } else {
      assert (a + b)[0] == a[0] && (a + b)[1..] == a[1..] + b;
      if |a| > 1 {
        assert (a + b)[1] == a[1];
        assert a[1..][|a| - 2] == a[|a| - 1];
      }
      WordCountAppend(a[1..], b);
    }
  }

  function Glue(p: seq<Byte>, pieces: seq<seq<Byte>>): seq<seq<Byte>>
    requires pieces != []
  {
    [p + pieces[0]] + pieces[1..]
  }

  /** The split pieces of `s`, the first one glued behind a run `p` of
      non-whitespace bytes: `p`'s word is counted where it ends, inside `s`
      or at its front. */
  lemma {:induction false} SplitCountsWords(s: seq<Byte>, p: seq<Byte>)
    ensures NonEmptyCount(Glue(p, SplitWhitespace(s)))
         == WordCount(s) + (if p != [] && (s == [] || IsAsciiWhitespace(s[0])) then 1 else 0)
    decreases |s|
  {
    var pieces := SplitWhitespace(s);
    if s == [] {
      assert pieces == [[]];
      assert p + [] == p;
      assert Glue(p, pieces) == [p];
      assert Glue(p, pieces)[1..] == [];
    } else {
      var rest := SplitWhitespace(s[1..]);
      if IsAsciiWhitespace(s[0]) {
        assert pieces == [[]] + rest;
        assert p + [] == p;
        assert Glue(p, pieces) == [p] + rest;
        assert Glue(p, pieces)[1..] == rest;
        SplitCountsWords(s[1..], []);
        assert [] + rest[0] == rest[0];
        assert Glue([], rest) == rest;
      } else {
        assert pieces == [[s[0]] + rest[0]] + rest[1..];
        assert p + ([s[0]] + rest[0]) == (p + [s[0]]) + rest[0];
        assert Glue(p, pieces) == Glue(p + [s[0]], rest);
        SplitCountsWords(s[1..], p + [s[0]]);
        if |s| > 1 { assert s[1..][0] == s[1]; }
      }
    }
  }

  /** Splitting on whitespace and counting the non-empty pieces counts exactly
      the maximal non-whitespace runs. */
  lemma WordsInIsWordCount(chunk: seq<Byte>)
    ensures WordsIn(chunk) == WordCount(chunk)
  {
    var pieces := SplitWhitespace(chunk);
    assert [] + pieces[0] == pieces[0];
    assert Glue([], pieces) == pieces;
    SplitCountsWords(chunk, []);
  }

  // ---------------------------------------------------------------- chunks

  /** The bytes one `read_until(NEWLINE, ..)` call delivers from `s`. */
  function ChunkLength(s: seq<Byte>): nat {
    ReadUntilLength(s, NEWLINE)
  }

  /** The chunks the reader delivers: each ends just after a line feed,
      except possibly the last. */
  function Chunks(s: seq<Byte>): (chunks: seq<seq<Byte>>)
    ensures forall i :: 0 <= i < |chunks| ==> chunks[i] != []
    decreases |s|
  {
    if s == [] then []
    else [s[..ChunkLength(s)]] + Chunks(s[ChunkLength(s)..])
  }

  function Concat(chunks: seq<seq<Byte>>): seq<Byte> {
    if chunks == [] then [] else chunks[0] + Concat(chunks[1..])
  }

  /** A chunk that stops before the end of the input ends with its line feed. */
  lemma ChunkEndsLine(s: seq<Byte>, k: nat)
    requires k == ChunkLength(s) < |s|
    ensures 0 < k && s[k - 1] == NEWLINE
  {
    ReadUntilChunk(s, NEWLINE);
  }

  lemma {:induction false} ConcatChunks(s: seq<Byte>)
    ensures Concat(Chunks(s)) == s
    decreases |s|
  {
    if s != [] {
      var k := ChunkLength(s);
      ConcatChunks(s[k..]);
      var cs := Chunks(s);
      assert cs == [s[..k]] + Chunks(s[k..]);
      assert cs[1..] == Chunks(s[k..]);
      assert Concat(cs) == s[..k] + Concat(Chunks(s[k..]));
      assert s[..k] + s[k..] == s;
    }
  }

  /** The chunk at index `i`: a line feed at its end unless it is the last
      chunk, and none before its end. */
  lemma {:induction false} ChunkShape(s: seq<Byte>, i: nat)
    requires i < |Chunks(s)|
    ensures i < |Chunks(s)| - 1 ==> Chunks(s)[i][|Chunks(s)[i]| - 1] == NEWLINE
    ensures forall j :: 0 <= j < |Chunks(s)[i]| - 1 ==> Chunks(s)[i][j] != NEWLINE
    decreases |s|
  {
    var k := ChunkLength(s);
    var cs := Chunks(s);
    assert cs == [s[..k]] + Chunks(s[k..]);
    if i == 0 {
      ReadUntilChunk(s, NEWLINE);
      if |cs| > 1 {
        assert s[k..] != [];
      }
    } else {
      ChunkShape(s[k..], i - 1);
      assert cs[i] == Chunks(s[k..])[i - 1];
    }
  }

  /** Chunking loses and invents nothing, and only the last chunk may lack its
      line feed. */
  lemma ChunksPartition(s: seq<Byte>)
    ensures Concat(Chunks(s)) == s
    ensures forall i :: 0 <= i < |Chunks(s)| - 1 ==> Chunks(s)[i][|Chunks(s)[i]| - 1] == NEWLINE
    ensures forall i, j :: 0 <= i < |Chunks(s)| && 0 <= j < |Chunks(s)[i]| - 1 ==> Chunks(s)[i][j] != NEWLINE
  {
    ConcatChunks(s);
    var cs := Chunks(s);
    forall i | 0 <= i < |cs| - 1
      ensures cs[i][|cs[i]| - 1] == NEWLINE
    {
      ChunkShape(s, i);
    }
    forall i, j | 0 <= i < |cs| && 0 <= j < |cs[i]| - 1
      ensures cs[i][j] != NEWLINE
    {
      ChunkShape(s, i);
    }
  }

  // ---------------------------------------------------------------- counting

  /** The decoded characters a chunk adds: 0 when it is not valid UTF-8. */
  function CharsIn(chunk: seq<Byte>): nat {
    if ValidUtf8(chunk) then ScalarCount(chunk) else 0
  }

  /** The display width of a chunk with its trailing line feeds removed, 0
      when it is not valid UTF-8. `width` stands for the terminal width of a
      valid UTF-8 string, which is computed by a library outside this model. */
  function WidthIn(chunk: seq<Byte>, width: seq<Byte> -> nat): nat {
    if ValidUtf8(chunk) then width(TrimEnd(chunk, NEWLINE)) else 0
  }

  /** What one chunk adds to the counts. */
  function ChunkCounts(chunk: seq<Byte>, width: seq<Byte> -> nat): FileCounts {
    FileCounts(1, WordsIn(chunk), |chunk|, CharsIn(chunk), WidthIn(chunk, width))
  }

  /** The counts of a whole input: its chunks' contributions merged in order. */
  function CountsOf(s: seq<Byte>, width: seq<Byte> -> nat): FileCounts
    decreases |s|
  {
    if s == [] then Zero()
    else ChunkCounts(s[..ChunkLength(s)], width).Add(CountsOf(s[ChunkLength(s)..], width))
  }

  /** What the loop of `FromReader` keeps: the counts so far merged with
      those of the rest of the input are the counts of the whole input. */
  predicate CountedSoFar(input: seq<Byte>, pos: nat, counts: FileCounts, width: seq<Byte> -> nat) {
    pos <= |input| && counts.Add(CountsOf(input[pos..], width)) == CountsOf(input, width)
  }

  lemma CountStart(input: seq<Byte>, width: seq<Byte> -> nat)
    ensures CountedSoFar(input, 0, Zero(), width)
  {
    assert input[0..] == input;
    AddZero(CountsOf(input, width));
  }

  /** The chunk `buf` at `pos`, merged into the counts, moves the loop on to
      `next`. */
  lemma CountNext(input: seq<Byte>, pos: nat, k: nat, buf: seq<Byte>, next: nat,
                  counts: FileCounts, after: FileCounts, width: seq<Byte> -> nat)
    requires pos < |input| && k == ChunkLength(input[pos..]) && buf == input[pos..pos + k] && next == pos + k
    requires CountedSoFar(input, pos, counts, width) && after == counts.Add(ChunkCounts(buf, width))
    ensures CountedSoFar(input, next, after, width)
  {
    assert input[pos..][..k] == buf;
    assert input[pos..][k..] == input[next..];
    assert CountsOf(input[pos..], width) == ChunkCounts(buf, width).Add(CountsOf(input[next..], width));
    AddAssociates(counts, ChunkCounts(buf, width), CountsOf(input[next..], width));
  }

  lemma CountEnd(input: seq<Byte>, pos: nat, counts: FileCounts, width: seq<Byte> -> nat)
    requires CountedSoFar(input, pos, counts, width) && ChunkLength(input[pos..]) == 0
    ensures counts == CountsOf(input, width)
  {
    assert input[pos..] == [];
    AddZero(counts);
  }

  /** The body of the `from_reader` loop: what one delivered chunk adds. */
  method CountChunk(counts: FileCounts, buf: seq<Byte>, width: seq<Byte> -> nat) returns (r: FileCounts)
    ensures r == counts.Add(ChunkCounts(buf, width))
  {
    r := counts.(bytes := counts.bytes + |buf|);
    r := r.(lines := r.lines + 1);
    r := r.(words := r.words + WordsIn(buf));
    var valid := ValidUtf8(buf);
    r := r.(chars := r.chars + if valid then ScalarCount(buf) else 0);
    r := r.(maxLineLength := Max(r.maxLineLength, if valid then width(TrimEnd(buf, NEWLINE)) else 0));
  }

  /** `FileCounts::from_reader` over the bytes the reader delivers before end
      of input or its first read error. */
  method FromReader(input: seq<Byte>, width: seq<Byte> -> nat) returns (counts: FileCounts)
    ensures counts == CountsOf(input, width)
  {
    counts := Zero();
    var pos := 0;
    CountStart(input, width);
    while true
      invariant CountedSoFar(input, pos, counts, width)
      decreases |input| - pos
    {
      var bytesRead := ChunkLength(input[pos..]);
      if bytesRead == 0 {
        CountEnd(input, pos, counts, width);
        return;
      }
      var buf := input[pos..pos + bytesRead];
      var after := CountChunk(counts, buf, width);
      var next := pos + bytesRead;
      CountNext(input, pos, bytesRead, buf, next, counts, after, width);
      counts, pos := after, next;
    }
  }

  // ---------------------------------------------------------------- properties

  lemma {:induction false} ChunkOfLineTerminated(a: seq<Byte>, b: seq<Byte>)
    requires a != [] && a[|a| - 1] == NEWLINE
    ensures ChunkLength(a + b) == ChunkLength(a)
    decreases |a|
  {
    assert (a + b)[0] == a[0];
    if a[0] != NEWLINE {
      assert (a + b)[1..] == a[1..] + b;
      ChunkOfLineTerminated(a[1..], b);
    }
  }

  /** Counting is additive over inputs cut at a line boundary: the counts of
      `a + b` are those of `a` merged with those of `b`. */
  lemma {:induction false} CountsOfAppend(a: seq<Byte>, b: seq<Byte>, width: seq<Byte> -> nat)
    requires a == [] || a[|a| - 1] == NEWLINE
    ensures CountsOf(a + b, width) == CountsOf(a, width).Add(CountsOf(b, width))
    decreases |a|
  {
    if a == [] {
      assert a + b == b;
      AddZero(CountsOf(b, width));
    } else {
      var k := ChunkLength(a);
      ChunkOfLineTerminated(a, b);
      assert (a + b)[..k] == a[..k];
      assert (a + b)[k..] == a[k..] + b;
      if k < |a| {
        assert a[k..][|a[k..]| - 1] == a[|a| - 1];
      }
      CountsOfAppend(a[k..], b, width);
      AddAssociates(ChunkCounts(a[..k], width), CountsOf(a[k..], width), CountsOf(b, width));
    }
  }

  /** `CountsOf` one field at a time: the first chunk's share plus the rest's. */
  lemma CountsOfFirstChunk(s: seq<Byte>, width: seq<Byte> -> nat)
    requires s != []
    ensures var k := ChunkLength(s);
            var c := CountsOf(s, width);
            var r := CountsOf(s[k..], width);
            && c.bytes == k + r.bytes
            && c.lines == 1 + r.lines
            && c.words == WordsIn(s[..k]) + r.words
            && c.chars == CharsIn(s[..k]) + r.chars
            && c.maxLineLength == Max(WidthIn(s[..k], width), r.maxLineLength)
  {
  }

  /** `bytes` is the length of the input. */
  lemma {:induction false} BytesIsLength(s: seq<Byte>, width: seq<Byte> -> nat)
    ensures CountsOf(s, width).bytes == |s|
    decreases |s|
  {
    if s != [] {
      CountsOfFirstChunk(s, width);
      BytesIsLength(s[ChunkLength(s)..], width);
    }
  }

  /** `lines` is one per chunk, which is the number of line feeds plus one for
      a last line without one. */
  lemma {:induction false} LinesCount(s: seq<Byte>, width: seq<Byte> -> nat)
    ensures CountsOf(s, width).lines == |Chunks(s)|
    ensures CountsOf(s, width).lines == Occurrences(s, NEWLINE) + Unterminated(s, NEWLINE)
    decreases |s|
  {
    if s != [] {
      CountsOfFirstChunk(s, width);
      LinesCount(s[ChunkLength(s)..], width);
      CutChunk(s, NEWLINE);
    }
  }

  /** Counting words chunk by chunk counts the maximal non-whitespace runs of
      the whole input: no word straddles a chunk boundary, since every
      boundary follows a line feed. */
  lemma {:induction false} WordsAreGlobal(s: seq<Byte>, width: seq<Byte> -> nat)
    ensures CountsOf(s, width).words == WordCount(s)
    decreases |s|
  {
    if s != [] {
      var k := ChunkLength(s);
      CountsOfFirstChunk(s, width);
      WordsAreGlobal(s[k..], width);
      WordsInIsWordCount(s[..k]);
      if k < |s| {
        ChunkEndsLine(s, k);
        CutWordsAfterNewline(s, k);
      } else {
        assert s[..k] == s;
      }
    }
  }

  /** No word straddles a cut just after a line feed. */
  lemma CutWordsAfterNewline(s: seq<Byte>, k: nat)
    requires 0 < k < |s| && s[k - 1] == NEWLINE
    ensures WordCount(s) == WordCount(s[..k]) + WordCount(s[k..])
  {
    assert s == s[..k] + s[k..];
    assert IsAsciiWhitespace(s[..k][k - 1]);
    WordCountAppend(s[..k], s[k..]);
  }

  lemma CharsInAtMost(chunk: seq<Byte>)
    ensures CharsIn(chunk) <= |chunk|
  {
    if ValidUtf8(chunk) {
      ScalarCountIsLeadByteCount(chunk);
    }
  }

  /** `chars` never exceeds `bytes`. */
  lemma {:induction false} CharsAtMostBytes(s: seq<Byte>, width: seq<Byte> -> nat)
    ensures CountsOf(s, width).chars <= |s|
    decreases |s|
  {
    if s != [] {
      var k := ChunkLength(s);
      CountsOfFirstChunk(s, width);
      CharsAtMostBytes(s[k..], width);
      CharsInAtMost(s[..k]);
    }
  }

  /** A valid input cut just after a line feed is two valid parts whose
      characters add up. */
  lemma CutAfterNewline(s: seq<Byte>, k: nat)
    requires 0 < k < |s| && s[k - 1] == NEWLINE && ValidUtf8(s)
    ensures ValidUtf8(s[..k]) && ValidUtf8(s[k..])
    ensures ScalarCount(s) == ScalarCount(s[..k]) + ScalarCount(s[k..])
  {
    assert s == s[..k] + s[k..];
    ValidSplitAfterAscii(s[..k], s[k..]);
  }

  /** For a valid UTF-8 input, counting chunk by chunk decodes the whole input:
      a chunk boundary follows a line feed, which never splits a character. */
  lemma {:induction false} CharsOfValidInput(s: seq<Byte>, width: seq<Byte> -> nat)
    requires ValidUtf8(s)
    ensures CountsOf(s, width).chars == ScalarCount(s)
    decreases |s|
  {
    if s != [] {
      var k := ChunkLength(s);
      CountsOfFirstChunk(s, width);
      if k < |s| {
        ChunkEndsLine(s, k);
        CutAfterNewline(s, k);
        CharsOfValidInput(s[k..], width);
      } else {
        assert s[..k] == s && s[k..] == [];
      }
    }
  }

  /** `chars` never exceeds `bytes`; for a valid UTF-8 input it is the number
      of scalar values of the whole input, which is its number of lead bytes. */
  lemma CharsOfInput(s: seq<Byte>, width: seq<Byte> -> nat)
    ensures CountsOf(s, width).chars <= |s|
    ensures ValidUtf8(s) ==> CountsOf(s, width).chars == ScalarCount(s) == LeadByteCount(s)
  {
    CharsAtMostBytes(s, width);
    if ValidUtf8(s) {
      CharsOfValidInput(s, width);
      ScalarCountIsLeadByteCount(s);
    }
  }

  /** `maxLineLength` is the widest chunk: no chunk is wider, some chunk is
      exactly that wide, and an empty input has 0. */
  lemma {:induction false} MaxLineLengthIsWidest(s: seq<Byte>, width: seq<Byte> -> nat)
    ensures forall c :: c in Chunks(s) ==> WidthIn(c, width) <= CountsOf(s, width).maxLineLength
    ensures s != [] ==> exists c :: c in Chunks(s) && WidthIn(c, width) == CountsOf(s, width).maxLineLength
    ensures s == [] ==> CountsOf(s, width).maxLineLength == 0
    decreases |s|
  {
    if s != [] {
      var k := ChunkLength(s);
      MaxLineLengthIsWidest(s[k..], width);
      assert Chunks(s) == [s[..k]] + Chunks(s[k..]);
      assert s[..k] in Chunks(s);
      if s[k..] != [] {
        var c :| c in Chunks(s[k..]) && WidthIn(c, width) == CountsOf(s[k..], width).maxLineLength;
        assert c in Chunks(s);
      }
    }
  }

  /** A chunk that is not valid UTF-8 still counts as a line and as its
      bytes and words, but adds no characters and no width. */
  lemma InvalidChunk(chunk: seq<Byte>, width: seq<Byte> -> nat)
    requires !ValidUtf8(chunk)
    ensures ChunkCounts(chunk, width) == FileCounts(1, WordCount(chunk), |chunk|, 0, 0)
  {
    WordsInIsWordCount(chunk);
  }

  /** An empty input counts zero everywhere. */
  lemma EmptyInput(width: seq<Byte> -> nat)
    ensures CountsOf([], width) == Zero()
  {
  }

  /** A run of whitespace holds no word. */
  lemma {:induction false} BlankHasNoWords(t: seq<Byte>)
    requires forall i :: 0 <= i < |t| ==> IsAsciiWhitespace(t[i])
    ensures WordCount(t) == 0
  {
    if t != [] {
      BlankHasNoWords(t[1..]);
    }
  }

  /** A run of non-whitespace bytes followed by whitespace or by the end is
      one word. */
  lemma {:induction false} WordThenBlank(w: seq<Byte>, t: seq<Byte>)
    requires w != [] && forall i :: 0 <= i < |w| ==> !IsAsciiWhitespace(w[i])
    requires t == [] || IsAsciiWhitespace(t[0])
    ensures WordCount(w + t) == 1 + WordCount(t)
    decreases |w|
  {
    var s := w + t;
    assert s[0] == w[0] && s[1..] == w[1..] + t;
    if |w| == 1 {
      assert s[1..] == t;
      if t != [] { assert s[1] == t[0]; }
    } else {
      assert s[1] == w[1];
      WordThenBlank(w[1..], t);
    }
  }

  /** The text of the whitespace example holds four words and three line
      feeds. */
  predicate IsBlank(t: seq<Byte>) {
    t != [] && forall i :: 0 <= i < |t| ==> IsAsciiWhitespace(t[i])
  }

  predicate IsWord(w: seq<Byte>) {
    w != [] && forall i :: 0 <= i < |w| ==> !IsAsciiWhitespace(w[i])
  }

  /** Four words, each behind a run of whitespace, followed by whitespace. */
  lemma FourWords(b1: seq<Byte>, w1: seq<Byte>, b2: seq<Byte>, w2: seq<Byte>, b3: seq<Byte>,
                  w3: seq<Byte>, b4: seq<Byte>, w4: seq<Byte>, b5: seq<Byte>)
    requires IsBlank(b1) && IsBlank(b2) && IsBlank(b3) && IsBlank(b4) && IsBlank(b5)
    requires IsWord(w1) && IsWord(w2) && IsWord(w3) && IsWord(w4)
    ensures WordCount(b1 + (w1 + (b2 + (w2 + (b3 + (w3 + (b4 + (w4 + b5)))))))) == 4
  {
    var t4 := w4 + b5;
    var t3 := w3 + (b4 + t4);
    var t2 := w2 + (b3 + t3);
    var t1 := w1 + (b2 + t2);
    BlankHasNoWords(b1);
    BlankHasNoWords(b2);
    BlankHasNoWords(b3);
    BlankHasNoWords(b4);
    BlankHasNoWords(b5);
    WordThenBlank(w4, b5);
    WordCountAppend(b4, t4);
    WordThenBlank(w3, b4 + t4);
    WordCountAppend(b3, t3);
    WordThenBlank(w2, b3 + t3);
    WordCountAppend(b2, t2);
    WordThenBlank(w1, b2 + t2);
    WordCountAppend(b1, t1);
  }

  /** Line feeds are counted piece by piece. */
  lemma NewlinesOfPieces(b1: seq<Byte>, w1: seq<Byte>, b2: seq<Byte>, w2: seq<Byte>, b3: seq<Byte>,
                         w3: seq<Byte>, b4: seq<Byte>, w4: seq<Byte>, b5: seq<Byte>)
    ensures Occurrences(b1 + (w1 + (b2 + (w2 + (b3 + (w3 + (b4 + (w4 + b5))))))), NEWLINE)
         == Occurrences(b1, NEWLINE) + Occurrences(w1, NEWLINE) + Occurrences(b2, NEWLINE)
          + Occurrences(w2, NEWLINE) + Occurrences(b3, NEWLINE) + Occurrences(w3, NEWLINE)
          + Occurrences(b4, NEWLINE) + Occurrences(w4, NEWLINE) + Occurrences(b5, NEWLINE)
  {
    var t4 := w4 + b5;
    var t3 := w3 + (b4 + t4);
    var t2 := w2 + (b3 + t3);
    var t1 := w1 + (b2 + t2);
    OccurrencesAppend(w4, b5, NEWLINE);
    OccurrencesAppend(b4, t4, NEWLINE);
    OccurrencesAppend(w3, b4 + t4, NEWLINE);
    OccurrencesAppend(b3, t3, NEWLINE);
    OccurrencesAppend(w2, b3 + t3, NEWLINE);
    OccurrencesAppend(b2, t2, NEWLINE);
    OccurrencesAppend(w1, b2 + t2, NEWLINE);
    OccurrencesAppend(b1, t1, NEWLINE);
  }

  /** "  word1   word2  \n\n  word3\t\tword4  \n": four words behind runs of
      spaces, tabs and line feeds, assembled from its whitespace runs and
      words. */
  function WhitespaceText(): (s: seq<Byte>)
    ensures |s| == 36
  {
    var blank: seq<Byte> := [0x20, 0x20];
    var lf: seq<Byte> := [0x0A];
    blank + ([0x77, 0x6F, 0x72, 0x64, 0x31] + ([0x20, 0x20, 0x20] + ([0x77, 0x6F, 0x72, 0x64, 0x32]
      + ((blank + lf + lf + blank) + ([0x77, 0x6F, 0x72, 0x64, 0x33] + ([0x09, 0x09]
      + ([0x77, 0x6F, 0x72, 0x64, 0x34] + (blank + lf))))))))
  }

  lemma WhitespaceTextNewlines()
    ensures Occurrences(WhitespaceText(), NEWLINE) == 3
  {
    var blank: seq<Byte> := [0x20, 0x20];
    var lf: seq<Byte> := [0x0A];
    assert Occurrences(lf, NEWLINE) == 1;
    OccurrencesAppend(blank, lf, NEWLINE);
    OccurrencesAppend(blank + lf, lf, NEWLINE);
    OccurrencesAppend(blank + lf + lf, blank, NEWLINE);
    NewlinesOfPieces(blank, [0x77, 0x6F, 0x72, 0x64, 0x31], [0x20, 0x20, 0x20], [0x77, 0x6F, 0x72, 0x64, 0x32],
                     blank + lf + lf + blank, [0x77, 0x6F, 0x72, 0x64, 0x33], [0x09, 0x09],
                     [0x77, 0x6F, 0x72, 0x64, 0x34], blank + lf);
  }

  lemma WhitespaceTextEnds()
    ensures WhitespaceText()[35] == NEWLINE
  {
  }

  lemma WhitespaceTextWords()
    ensures WordCount(WhitespaceText()) == 4
  {
    var blank: seq<Byte> := [0x20, 0x20];
    var lf: seq<Byte> := [0x0A];
    FourWords(blank, [0x77, 0x6F, 0x72, 0x64, 0x31], [0x20, 0x20, 0x20], [0x77, 0x6F, 0x72, 0x64, 0x32],
              blank + lf + lf + blank, [0x77, 0x6F, 0x72, 0x64, 0x33], [0x09, 0x09],
              [0x77, 0x6F, 0x72, 0x64, 0x34], blank + lf);
  }

  /** Runs of spaces, tabs and line feeds of any length separate words: the
      text above is 3 lines and 4 words. */
  lemma WhitespaceExample(width: seq<Byte> -> nat)
    ensures CountsOf(WhitespaceText(), width).lines == 3
    ensures CountsOf(WhitespaceText(), width).words == 4
  {
    WhitespaceTextNewlines();
    WhitespaceTextWords();
    WhitespaceTextEnds();
    LinesCount(WhitespaceText(), width);
    WordsAreGlobal(WhitespaceText(), width);
  }

  /** Characters differ from bytes by the multi-byte overhead: "café\n",
      with é encoded as C3 A9, is 6 bytes and 5 characters. */
  lemma CafeExample(s: seq<Byte>, width: seq<Byte> -> nat)
    requires s == [0x63, 0x61, 0x66, 0xC3, 0xA9, 0x0A]
    ensures CountsOf(s, width).bytes == 6
    ensures CountsOf(s, width).chars == 5
  {
    assert ValidUtf8([0x63, 0x61, 0x66, 0xC3, 0xA9, 0x0A]);
    assert LeadByteCount([0x63, 0x61, 0x66, 0xC3, 0xA9, 0x0A]) == 5;
    BytesIsLength(s, width);
    CharsOfInput(s, width);
  }
}
