/** UTF-8 as RFC 3629 (section 4) defines it, which is what `str::from_utf8`
    accepts: no overlong forms, no surrogates, nothing above U+10FFFF. */
module Utf8 {
  import opened Bytes

  /** A byte of the form 10xxxxxx, which only ever follows a lead byte. */
  predicate IsContinuation(b: Byte) {
    0x80 <= b <= 0xBF
  }

  predicate InRange(b: Byte, lo: Byte, hi: Byte) {
    lo <= b <= hi
  }

  /** The length of the well-formed encoded character at the front of `s`
      (the UTF8-1 .. UTF8-4 rules of the RFC), or 0 when `s` does not start
      with one. */
  function SequenceLength(s: seq<Byte>): (n: nat)
    ensures n <= 4 && n <= |s|
    ensures n > 0 ==> !IsContinuation(s[0])
    ensures s != [] && s[0] < 0x80 ==> n == 1
  {
    if |s| == 0 then 0
    else if s[0] <= 0x7F then 1
    else if 0xC2 <= s[0] <= 0xDF then
      if |s| >= 2 && IsContinuation(s[1]) then 2 else 0
    else if 0xE0 <= s[0] <= 0xEF then
      var lo: Byte := if s[0] == 0xE0 then 0xA0 else 0x80;
      var hi: Byte := if s[0] == 0xED then 0x9F else 0xBF;
      if |s| >= 3 && InRange(s[1], lo, hi) && IsContinuation(s[2]) then 3 else 0
    else if 0xF0 <= s[0] <= 0xF4 then
      var lo: Byte := if s[0] == 0xF0 then 0x90 else 0x80;
      var hi: Byte := if s[0] == 0xF4 then 0x8F else 0xBF;
      if |s| >= 4 && InRange(s[1], lo, hi) && IsContinuation(s[2]) && IsContinuation(s[3]) then 4 else 0
    else 0
  }

  /** Every byte after the lead byte of an encoded character is a
      continuation byte. */
  lemma SequenceLengthTail(s: seq<Byte>)
    ensures forall i :: 1 <= i < SequenceLength(s) ==> IsContinuation(s[i])
  {
  }

  /** `s` is a whole number of well-formed encoded characters. */
  predicate ValidUtf8(s: seq<Byte>)
    decreases |s|
  {
    s == [] || (SequenceLength(s) > 0 && ValidUtf8(s[SequenceLength(s)..]))
  }

  /** The number of Unicode scalar values `s` decodes to (`chars().count()`). */
  function ScalarCount(s: seq<Byte>): nat
    requires ValidUtf8(s)
    decreases |s|
  {
    if s == [] then 0 else 1 + ScalarCount(s[SequenceLength(s)..])
  }

  /** The number of bytes of `s` that are not continuation bytes. */
  function LeadByteCount(s: seq<Byte>): (n: nat)
    ensures n <= |s|
  {
    if s == [] then 0
    else (if IsContinuation(s[0]) then 0 else 1) + LeadByteCount(s[1..])
  }

  lemma {:induction false} LeadByteCountSkips(s: seq<Byte>, j: nat)
    requires j <= |s|
    requires forall i :: 0 <= i < j ==> IsContinuation(s[i])
    ensures LeadByteCount(s) == LeadByteCount(s[j..])
  {
    if j > 0 {
      assert s[1..][j - 1..] == s[j..];
      LeadByteCountSkips(s[1..], j - 1);
    }
  }

  /** A valid encoding has one lead byte per scalar value, so decoding never
      yields more characters than there are bytes. */
  lemma {:induction false} ScalarCountIsLeadByteCount(s: seq<Byte>)
    requires ValidUtf8(s)
    ensures ScalarCount(s) == LeadByteCount(s)
    ensures ScalarCount(s) <= |s|
    decreases |s|
  {
    if s != [] {
      var k := SequenceLength(s);
      SequenceLengthTail(s);
      assert s[1..][k - 1..] == s[k..];
      LeadByteCountSkips(s[1..], k - 1);
      ScalarCountIsLeadByteCount(s[k..]);
    }
  }

  /** The encoded character at the front of `s` is decided by its own bytes:
      bytes after it make no difference. */
  lemma SequenceLengthOfPrefix(s: seq<Byte>, t: seq<Byte>)
    ensures SequenceLength(s) > 0 ==> SequenceLength(s + t) == SequenceLength(s)
    ensures 0 < SequenceLength(s + t) <= |s| ==> SequenceLength(s) == SequenceLength(s + t)
  {
    if s != [] {
      assert (s + t)[0] == s[0];
      if |s| >= 2 { assert (s + t)[1] == s[1]; }
      if |s| >= 3 { assert (s + t)[2] == s[2]; }
      if |s| >= 4 { assert (s + t)[3] == s[3]; }
    }
  }

  /** Splitting a byte string just after an ASCII byte never splits an encoded
      character: the whole is valid exactly when both parts are, and the
      characters of the whole are those of the parts. */
  lemma {:induction false} ValidSplitAfterAscii(a: seq<Byte>, b: seq<Byte>)
    requires a != [] && a[|a| - 1] < 0x80
    ensures ValidUtf8(a + b) <==> ValidUtf8(a) && ValidUtf8(b)
    ensures ValidUtf8(a + b) ==> ScalarCount(a + b) == ScalarCount(a) + ScalarCount(b)
    decreases |a|
  {
    var s := a + b;
    SequenceLengthOfPrefix(a, b);
    var k := SequenceLength(s);
    SequenceLengthTail(s);
    if k > 0 {
      // The character at the front of `a + b` ends inside `a`: its last byte
      // is a continuation byte or its lead byte, and `a` ends in ASCII.
      assert s[|a| - 1] == a[|a| - 1];
      assert k <= |a|;
      assert SequenceLength(a) == k;
      assert s[k..] == a[k..] + b;
      if k == |a| {
        assert a[k..] == [];
        assert s[k..] == b;
        assert ValidUtf8(a) by { assert ValidUtf8(a[k..]); }
      } else {
        assert a[k..][|a[k..]| - 1] == a[|a| - 1];
        ValidSplitAfterAscii(a[k..], b);
      }
    } else {
      assert !ValidUtf8(s);
      assert SequenceLength(a) == 0;
    }
  }

  /** Two valid encodings side by side are a valid encoding of both
      character sequences. */
  lemma {:induction false} ValidAppend(a: seq<Byte>, b: seq<Byte>)
    requires ValidUtf8(a) && ValidUtf8(b)
    ensures ValidUtf8(a + b)
    ensures ScalarCount(a + b) == ScalarCount(a) + ScalarCount(b)
    decreases |a|
  {
    if a == [] {
      assert a + b == b;
    } else {
      var k := SequenceLength(a);
      SequenceLengthOfPrefix(a, b);
      assert (a + b)[k..] == a[k..] + b;
      ValidAppend(a[k..], b);
    }
  }
}
