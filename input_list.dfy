/** The `--files0-from` input list: NUL-terminated names, read one
    `read_until(0)` chunk at a time (the loop at the top of `main` in
    mwc/src/main.rs). */
module InputList {
  import opened Bytes
  import opened Utf8
  import opened Wrappers
  import opened Options

  /** Why reading the list stops the whole run. */
  datatype ListError = NotUtf8(segment: seq<Byte>)

  /** One chunk of the list: up to and including the next NUL. */
  function SegmentLength(list: seq<Byte>): nat {
    ReadUntilLength(list, NUL)
  }

  /** The names in the list, in order: each chunk must be valid UTF-8, loses
      its trailing NULs and goes through `parse_input`. The first chunk that
      is not valid UTF-8 is the error. */
  function ParseInputList(list: seq<Byte>): Result<seq<Input>, ListError>
    decreases |list|
  {
    if list == [] then Ok([])
    else
      var k := SegmentLength(list);
      var buf := list[..k];
      if !ValidUtf8(buf) then Err(NotUtf8(buf))
      else
        match ParseInputList(list[k..])
        case Err(e) => Err(e)
        case Ok(rest) => Ok([ParseInput(TrimEnd(buf, NUL))] + rest)
  }

  /** The inputs read so far in front of what the rest of the list gives. */
  function Prepend(done: seq<Input>, r: Result<seq<Input>, ListError>): Result<seq<Input>, ListError> {
    match r
    case Err(e) => Err(e)
    case Ok(rest) => Ok(done + rest)
  }

  lemma PrependTwice(done: seq<Input>, next: Input, r: Result<seq<Input>, ListError>)
    ensures Prepend(done, Prepend([next], r)) == Prepend(done + [next], r)
  {
    if r.Ok? {
      assert done + ([next] + r.value) == (done + [next]) + r.value;
    }
  }

  /** One segment of the list at `pos`: its bytes `buf` are either the error
      or parsed in front of what the rest of the list gives. */
  lemma ParseInputListStep(list: seq<Byte>, pos: nat, k: nat, buf: seq<Byte>, next: nat)
    requires pos < |list| && k == SegmentLength(list[pos..]) && buf == list[pos..pos + k] && next == pos + k
    ensures !ValidUtf8(buf) ==> ParseInputList(list[pos..]) == Err(NotUtf8(buf))
    ensures ValidUtf8(buf) ==>
              ParseInputList(list[pos..]) == Prepend([ParseInput(TrimEnd(buf, NUL))], ParseInputList(list[next..]))
  {
    assert list[pos..][..k] == buf;
    assert list[pos..][k..] == list[next..];
  }

  /** What the loop of `ReadInputList` keeps: the inputs read so far, in
      front of what the rest of the list gives, are what the whole list gives. */
  predicate ReadSoFar(list: seq<Byte>, pos: nat, inputs: seq<Input>) {
    pos <= |list| && ParseInputList(list) == Prepend(inputs, ParseInputList(list[pos..]))
  }

  lemma ReadStart(list: seq<Byte>)
    ensures ReadSoFar(list, 0, [])
  {
    assert list[0..] == list;
    match ParseInputList(list) {
      case Ok(all) => assert [] + all == all;
      case Err(_) =>
    }
  }

  lemma PrependChain(whole: Result<seq<Input>, ListError>, rest: Result<seq<Input>, ListError>,
                     after: Result<seq<Input>, ListError>, inputs: seq<Input>, input: Input, more: seq<Input>)
    requires whole == Prepend(inputs, rest) && rest == Prepend([input], after) && more == inputs + [input]
    ensures whole == Prepend(more, after)
  {
    PrependTwice(inputs, input, after);
  }

  lemma ReadNext(list: seq<Byte>, pos: nat, inputs: seq<Input>, k: nat, buf: seq<Byte>, next: nat, more: seq<Input>)
    requires pos < |list| && k == SegmentLength(list[pos..]) && buf == list[pos..pos + k] && next == pos + k
    requires ReadSoFar(list, pos, inputs) && ValidUtf8(buf) && more == inputs + [ParseInput(TrimEnd(buf, NUL))]
    ensures ReadSoFar(list, next, more)
  {
    ParseInputListStep(list, pos, k, buf, next);
    PrependChain(ParseInputList(list), ParseInputList(list[pos..]), ParseInputList(list[next..]),
                 inputs, ParseInput(TrimEnd(buf, NUL)), more);
  }

  lemma ReadInvalid(list: seq<Byte>, pos: nat, inputs: seq<Input>, k: nat, buf: seq<Byte>)
    requires pos < |list| && k == SegmentLength(list[pos..]) && buf == list[pos..pos + k]
    requires ReadSoFar(list, pos, inputs) && !ValidUtf8(buf)
    ensures ParseInputList(list) == Err(NotUtf8(buf))
  {
    ParseInputListStep(list, pos, k, buf, pos + k);
  }

  lemma ReadEnd(list: seq<Byte>, inputs: seq<Input>)
    requires ReadSoFar(list, |list|, inputs)
    ensures ParseInputList(list) == Ok(inputs)
  {
    assert list[|list|..] == [];
    assert inputs + [] == inputs;
  }

  /** One pass of the loop below: read a segment; at the end of the list
      (nothing read) the inputs so far are the result, a segment that is not
      UTF-8 is the error, and otherwise its NULs are trimmed and it is parsed
      into one more input. */
  method ReadSegment(list: seq<Byte>, pos: nat, inputs: seq<Input>)
    returns (next: nat, more: seq<Input>, outcome: Option<Result<seq<Input>, ListError>>)
    requires ReadSoFar(list, pos, inputs)
    ensures outcome.Some? ==> outcome.value == ParseInputList(list)
    ensures outcome.None? ==> pos < next <= |list| && ReadSoFar(list, next, more)
  {
    next, more, outcome := pos, inputs, None;
    var bytesRead := SegmentLength(list[pos..]);
    if bytesRead == 0 {
      ReadEnd(list, inputs);
      outcome := Some(Ok(inputs));
      return;
    }
    var buf := list[pos..pos + bytesRead];
    if !ValidUtf8(buf) {
      ReadInvalid(list, pos, inputs, bytesRead, buf);
      outcome := Some(Err(NotUtf8(buf)));
      return;
    }
    var inputStr := TrimEnd(buf, NUL);
    var input := ParseInput(inputStr);
    next, more := pos + bytesRead, inputs + [input];
    ReadNext(list, pos, inputs, bytesRead, buf, next, more);
  }

  /** The loop in `main` that turns the list into inputs. */
  method ReadInputList(list: seq<Byte>) returns (r: Result<seq<Input>, ListError>)
    ensures r == ParseInputList(list)
  {
    var inputs: seq<Input> := [];
    var pos := 0;
    ReadStart(list);
    while true
      invariant ReadSoFar(list, pos, inputs)
      decreases |list| - pos
    {
      var next, more, outcome := ReadSegment(list, pos, inputs);
      if outcome.Some? {
        return outcome.value;
      }
      pos, inputs := next, more;
    }
  }

  // ---------------------------------------------------------------- properties

  /** The list is accepted exactly when it is valid UTF-8 as a whole: a NUL is
      ASCII, so cutting after one never splits a character. */
  lemma {:induction false} ParseInputListOk(list: seq<Byte>)
    ensures ParseInputList(list).Ok? <==> ValidUtf8(list)
    decreases |list|
  {
    if list != [] {
      var k := SegmentLength(list);
      var buf := list[..k];
      ReadUntilChunk(list, NUL);
      assert list == buf + list[k..];
      ParseInputListOk(list[k..]);
      if k < |list| {
        ValidSplitAfterAscii(buf, list[k..]);
      } else {
        assert buf == list;
        assert list[k..] == [];
        assert ValidUtf8(list[k..]);
      }
    }
  }

  /** An accepted list gives one input for its first segment and then
      those of the rest. */
  lemma ParseInputListFirst(list: seq<Byte>)
    requires list != [] && ParseInputList(list).Ok?
    ensures ParseInputList(list[SegmentLength(list)..]).Ok?
    ensures |ParseInputList(list).value| == 1 + |ParseInputList(list[SegmentLength(list)..]).value|
  {
  }

  /** One input per NUL, and one more for a final name without one. */
  lemma {:induction false} ParseInputListLength(list: seq<Byte>)
    requires ParseInputList(list).Ok?
    ensures |ParseInputList(list).value| == Occurrences(list, NUL) + Unterminated(list, NUL)
    decreases |list|
  {
    if list != [] {
      ParseInputListFirst(list);
      ParseInputListLength(list[SegmentLength(list)..]);
      CutChunk(list, NUL);
    }
  }

  /** A list written as names, each followed by a NUL. */
  function Encode(names: seq<seq<Byte>>): seq<Byte> {
    if names == [] then [] else names[0] + [NUL] + Encode(names[1..])
  }

  lemma {:induction false} SegmentOfName(name: seq<Byte>, rest: seq<Byte>)
    requires NUL !in name
    ensures SegmentLength(name + [NUL] + rest) == |name| + 1
    decreases |name|
  {
    var s := name + [NUL] + rest;
    if name == [] {
      assert s[0] == NUL;
    } else {
      assert s[0] == name[0];
      assert s[1..] == name[1..] + [NUL] + rest;
      SegmentOfName(name[1..], rest);
    }
  }

  lemma TrimEndOfName(name: seq<Byte>)
    requires NUL !in name
    ensures TrimEnd(name + [NUL], NUL) == name
  {
    var s := name + [NUL];
    assert s[..|s| - 1] == name;
    assert name != [] ==> name[|name| - 1] in name;
  }

  /** A valid name and its NUL at the front of a list give one input. */
  lemma ParseInputListCons(name: seq<Byte>, rest: seq<Byte>)
    requires NUL !in name && ValidUtf8(name)
    ensures ParseInputList(name + [NUL] + rest) == Prepend([ParseInput(name)], ParseInputList(rest))
  {
    var list := name + [NUL] + rest;
    SegmentOfName(name, rest);
    var k := |name| + 1;
    assert list[..k] == name + [NUL];
    assert list[k..] == rest;
    assert ValidUtf8([NUL]) by {
      assert [NUL][1..] == [];
    }
    ValidAppend(name, [NUL]);
    TrimEndOfName(name);
  }

  function ParseAll(names: seq<seq<Byte>>): (r: seq<Input>)
    ensures |r| == |names|
  {
    if names == [] then [] else [ParseInput(names[0])] + ParseAll(names[1..])
  }

  /** Writing valid UTF-8 names without NULs into a list and reading it back
      gives `parse_input` of each name, in order. */
  lemma {:induction false} ParseEncoded(names: seq<seq<Byte>>)
    requires forall i :: 0 <= i < |names| ==> NUL !in names[i] && ValidUtf8(names[i])
    ensures ParseInputList(Encode(names)) == Ok(ParseAll(names))
  {
    if names != [] {
      assert Encode(names) == names[0] + [NUL] + Encode(names[1..]);
      ParseInputListCons(names[0], Encode(names[1..]));
      assert forall i :: 0 <= i < |names[1..]| ==> names[1..][i] == names[i + 1];
      ParseEncoded(names[1..]);
    }
  }

  lemma {:induction false} ParseAllAt(names: seq<seq<Byte>>, i: nat)
    requires i < |names|
    ensures ParseAll(names)[i] == ParseInput(names[i])
  {
    if i > 0 {
      ParseAllAt(names[1..], i - 1);
    }
  }
}
