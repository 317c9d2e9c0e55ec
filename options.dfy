/** The inputs and flags the command line carries (`Input`, `parse_input`
    and `Opts` in mwc/src/main.rs). Argument parsing itself is not part of
    this model: an `Opts` value is what it produced. */
module Options {
  import opened Bytes
  import opened Wrappers

  /** A named file, or standard input. */
  datatype Input = File(path: seq<Byte>) | StdIn

  /** `parse_input`: "-" names standard input, everything else a path. It
      never fails. */
  function ParseInput(s: seq<Byte>): (i: Input)
    ensures i == StdIn <==> s == [DASH]
    ensures i.File? ==> i.path == s
  {
    if s == [DASH] then StdIn else File(s)
  }

  /** How an input is written on the command line. */
  function InputText(i: Input): seq<Byte> {
    match i
    case File(path) => path
    case StdIn => [DASH]
  }

  /** Parsing loses nothing: the text comes back from the input, and every
      input except a file literally named "-" comes back from its text. */
  lemma ParseInputRoundTrip(s: seq<Byte>, i: Input)
    ensures InputText(ParseInput(s)) == s
    ensures i != File([DASH]) ==> ParseInput(InputText(i)) == i
  {
  }

  /** The options after argument parsing. */
  datatype Opts = Opts(
    inputs: seq<Input>,
    lines: bool,
    words: bool,
    bytes: bool,
    chars: bool,
    maxLineLength: bool,
    filesFrom: Option<Input>)
}
