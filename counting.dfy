/** The per-run state: one result per input, in order, with the running
    column widths and totals (`Counter`, `Error` and `CountedInput` in
    mwc/src/main.rs). The filesystem and standard input are given as values. */
module Counting {
  import opened Bytes
  import opened Wrappers
  import opened Counts
  import opened Widths
  import opened Printing
  import Options

  // ---------------------------------------------------------------- environment

  /** An operating-system error, known by its message. */
  datatype IoError = IoError(message: seq<Byte>)

  /** What opening a file gives: the bytes a reader then delivers before end
      of file or its first read error, or the error of the open itself. */
  datatype OpenResult = Opened(contents: seq<Byte>) | OpenFailed(error: IoError)

  datatype Node = Directory | RegularFile(open: OpenResult)

  /** The paths that exist (`Path::exists`), and what each one is. */
  type FileSystem = map<seq<Byte>, Node>

  /** Standard input: what is still to be read from it. */
  class Stdin {
    var rest: seq<Byte>

    constructor (data: seq<Byte>)
      ensures rest == data
    {
      rest := data;
    }

    /** Reading to the end drains it; later readers find nothing. */
    method ReadToEnd() returns (data: seq<Byte>)
      modifies this
      ensures data == old(rest) && rest == []
    {
      data := rest;
      rest := [];
    }
  }

  // ---------------------------------------------------------------- results

  /** `Error`: why an input has no counts. */
  datatype CountError =
    | NoFile(path: seq<Byte>)
    | IsDirectory(path: seq<Byte>)
    | FileCount(path: seq<Byte>, error: IoError)

  /** The `Display` of an error, as `eprintln!` prints it. */
  function ErrorText(e: CountError): (r: seq<Byte>)
    ensures |r| > |e.path| + 7
    ensures r[..|e.path| + 7] == [0x6D, 0x77, 0x63, 0x3A, SPACE] + e.path + [0x3A, SPACE]
    ensures e.FileCount? ==> |e.error.message| < |r| && r[|r| - |e.error.message|..] == e.error.message
  {
    var prefix := [0x6D, 0x77, 0x63, 0x3A, SPACE] + e.path + [0x3A, SPACE];  // "mwc: <path>: "
    match e
    case NoFile(_) =>
      // "No such file or directory"
      prefix + [0x4E, 0x6F, SPACE, 0x73, 0x75, 0x63, 0x68, SPACE, 0x66, 0x69, 0x6C, 0x65, SPACE,
                0x6F, 0x72, SPACE, 0x64, 0x69, 0x72, 0x65, 0x63, 0x74, 0x6F, 0x72, 0x79]
    case IsDirectory(_) =>
      // "Is a directory"
      prefix + [0x49, 0x73, SPACE, 0x61, SPACE, 0x64, 0x69, 0x72, 0x65, 0x63, 0x74, 0x6F, 0x72, 0x79]
    case FileCount(_, err) =>
      // "File read error: <message>"
      prefix + [0x46, 0x69, 0x6C, 0x65, SPACE, 0x72, 0x65, 0x61, 0x64, SPACE, 0x65, 0x72, 0x72, 0x6F,
                0x72, 0x3A, SPACE] + err.message
  }

  datatype CountedInput = CountedInput(name: CountsName, counts: FileCounts)

  /** One element of `Counter::file_counts`. */
  type Entry = Result<CountedInput, CountError>

  /** The widths after folding in every counted entry, starting from the
      defaults; failed inputs leave them alone. */
  function WidthsOf(entries: seq<Entry>): ColumnWidths
    decreases |entries|
  {
    if entries == [] then DefaultWidths()
    else
      var before := WidthsOf(entries[..|entries| - 1]);
      match entries[|entries| - 1]
      case Ok(ci) => before.Max(FromCounts(ci.counts))
      case Err(_) => before
  }

  /** The totals of every counted entry. */
  function TotalsOf(entries: seq<Entry>): FileCounts
    decreases |entries|
  {
    if entries == [] then Zero()
    else
      var before := TotalsOf(entries[..|entries| - 1]);
      match entries[|entries| - 1]
      case Ok(ci) => before.Add(ci.counts)
      case Err(_) => before
  }

  lemma AppendLast(entries: seq<Entry>, e: Entry)
    ensures (entries + [e])[..|entries|] == entries
    ensures WidthsOf(entries + [e]) == if e.Ok? then WidthsOf(entries).Max(FromCounts(e.value.counts)) else WidthsOf(entries)
    ensures TotalsOf(entries + [e]) == if e.Ok? then TotalsOf(entries).Add(e.value.counts) else TotalsOf(entries)
  {
    assert (entries + [e])[..|entries|] == entries;
  }

  /** The widths leave room for every counted entry and are never narrower
      than the defaults ... */
  lemma {:induction false} WidthsOfFit(entries: seq<Entry>)
    ensures WidthsOf(entries).AtLeast(DefaultWidths())
    ensures forall i :: 0 <= i < |entries| && entries[i].Ok? ==> Fits(WidthsOf(entries), entries[i].value.counts)
    decreases |entries|
  {
    if entries != [] {
      var n := |entries| - 1;
      var init := entries[..n];
      WidthsOfFit(init);
      AppendLast(init, entries[n]);
      assert entries == init + [entries[n]];
      var w := WidthsOf(entries);
      assert w.AtLeast(WidthsOf(init));
      forall i | 0 <= i < |entries| && entries[i].Ok?
        ensures Fits(w, entries[i].value.counts)
      {
        if i < n {
          assert init[i] == entries[i];
          FitsWidened(WidthsOf(init), w, entries[i].value.counts);
        } else {
          FromCountsFits(entries[i].value.counts, w);
        }
      }
    }
  }

  /** ... and they are the narrowest such widths. */
  lemma {:induction false} WidthsOfLeast(entries: seq<Entry>, w: ColumnWidths)
    requires w.AtLeast(DefaultWidths())
    requires forall i :: 0 <= i < |entries| && entries[i].Ok? ==> Fits(w, entries[i].value.counts)
    ensures w.AtLeast(WidthsOf(entries))
    decreases |entries|
  {
    if entries != [] {
      var n := |entries| - 1;
      var init := entries[..n];
      assert forall i :: 0 <= i < |init| ==> init[i] == entries[i];
      WidthsOfLeast(init, w);
      AppendLast(init, entries[n]);
      assert entries == init + [entries[n]];
      if entries[n].Ok? {
        FromCountsFits(entries[n].value.counts, w);
      }
    }
  }

  /** Totals are additive over the list: the totals of two runs of entries
      merge like the counts of one input. */
  lemma {:induction false} TotalsOfAppend(a: seq<Entry>, b: seq<Entry>)
    ensures TotalsOf(a + b) == TotalsOf(a).Add(TotalsOf(b))
    decreases |b|
  {
    if b == [] {
      assert a + b == a;
      AddZero(TotalsOf(a));
    } else {
      var n := |b| - 1;
      assert a + b == (a + b[..n]) + [b[n]];
      assert b == b[..n] + [b[n]];
      AppendLast(a + b[..n], b[n]);
      AppendLast(b[..n], b[n]);
      TotalsOfAppend(a, b[..n]);
      if b[n].Ok? {
        AddAssociates(TotalsOf(a), TotalsOf(b[..n]), b[n].value.counts);
      }
    }
  }

  /** A single counted entry is printed with the widths of its own counts:
      every count is at least one digit wide, so the default never wins. */
  lemma WidthsOfOne(ci: CountedInput)
    ensures WidthsOf([Ok(ci)]) == FromCounts(ci.counts)
  {
    var s: seq<Entry> := [Ok(ci)];
    assert s[..0] == [];
    var c := ci.counts;
    WidthForIsDigitsPlusOne(c.lines);
    WidthForIsDigitsPlusOne(c.words);
    WidthForIsDigitsPlusOne(c.bytes);
    WidthForIsDigitsPlusOne(c.chars);
    WidthForIsDigitsPlusOne(c.maxLineLength);
    assert WidthsOf(s) == DefaultWidths().Max(FromCounts(c));
  }

  /** A single entry contributes its counts, or nothing when it failed. */
  lemma TotalsOfOne(e: Entry)
    ensures TotalsOf([e]) == if e.Ok? then e.value.counts else Zero()
  {
    var s := [e];
    assert s[..0] == [];
    match e {
      case Ok(ci) =>
        AddZero(ci.counts);
        assert TotalsOf(s) == Zero().Add(ci.counts);
      case Err(_) =>
        assert TotalsOf(s) == TotalsOf(s[..0]);
    }
  }

  /** The totals are at least every counted entry's counts, column by column. */
  lemma {:induction false} TotalsOfCovers(entries: seq<Entry>, i: nat)
    requires i < |entries| && entries[i].Ok?
    ensures var t := TotalsOf(entries);
            var c := entries[i].value.counts;
            && c.lines <= t.lines && c.words <= t.words && c.bytes <= t.bytes
            && c.chars <= t.chars && c.maxLineLength <= t.maxLineLength
  {
    var a := entries[..i];
    var b := entries[i..];
    assert entries == a + b;
    assert b == [entries[i]] + b[1..];
    TotalsOfAppend(a, b);
    TotalsOfAppend([entries[i]], b[1..]);
    TotalsOfOne(entries[i]);
  }

  /** The total row is printed with the widths of the totals alone: folding
      in the per-source widths never changes them. */
  lemma TotalRowWidths(entries: seq<Entry>)
    ensures WidthsOf(entries).Max(FromCounts(TotalsOf(entries))) == FromCounts(TotalsOf(entries))
    ensures Fits(FromCounts(TotalsOf(entries)), TotalsOf(entries))
  {
    var t := TotalsOf(entries);
    var w := FromCounts(t);
    forall i | 0 <= i < |entries| && entries[i].Ok?
      ensures Fits(w, entries[i].value.counts)
    {
      TotalsOfCovers(entries, i);
      FromCountsMonotone(entries[i].value.counts, t);
      FromCountsFits(entries[i].value.counts, w);
    }
    WidthForIsDigitsPlusOne(t.lines);
    WidthForIsDigitsPlusOne(t.words);
    WidthForIsDigitsPlusOne(t.bytes);
    WidthForIsDigitsPlusOne(t.chars);
    WidthForIsDigitsPlusOne(t.maxLineLength);
    WidthsOfLeast(entries, w);
    FromCountsFits(t, w);
  }

  // ---------------------------------------------------------------- what one input gives

  /** `count_file`: the path must exist, then must not be a directory, then
      must open; in that order. */
  function FileEntry(fs: FileSystem, path: seq<Byte>, width: seq<Byte> -> nat): Entry {
    if path !in fs then Err(NoFile(path))
    else if fs[path].Directory? then Err(IsDirectory(path))
    else match fs[path].open
      case Opened(contents) => Ok(CountedInput(CountsName.File(path), CountsOf(contents, width)))
      case OpenFailed(e) => Err(FileCount(path, e))
  }

  /** Each failure is reported for exactly the reason that applies first. */
  lemma FileEntryClassified(fs: FileSystem, path: seq<Byte>, width: seq<Byte> -> nat)
    ensures FileEntry(fs, path, width) == Err(NoFile(path)) <==> path !in fs
    ensures FileEntry(fs, path, width) == Err(IsDirectory(path)) <==> path in fs && fs[path] == Directory
    ensures (exists e :: FileEntry(fs, path, width) == Err(FileCount(path, e)))
        <==> path in fs && fs[path].RegularFile? && fs[path].open.OpenFailed?
    ensures FileEntry(fs, path, width).Ok? ==>
              path in fs && fs[path].RegularFile? && fs[path].open.Opened?
              && FileEntry(fs, path, width).value == CountedInput(CountsName.File(path), CountsOf(fs[path].open.contents, width))
  {
    if path in fs && fs[path].RegularFile? && fs[path].open.OpenFailed? {
      assert FileEntry(fs, path, width) == Err(FileCount(path, fs[path].open.error));
    }
  }

  /** `count_input`: a file is counted from the filesystem; the first "-"
      reads standard input, every later one records zero counts. */
  function InputEntry(input: Options.Input, fs: FileSystem, stdinData: seq<Byte>, stdinSeen: bool,
                      width: seq<Byte> -> nat): Entry
  {
    match input
    case File(path) => FileEntry(fs, path, width)
    case StdIn =>
      if !stdinSeen then Ok(CountedInput(CountsName.StdIn, CountsOf(stdinData, width)))
      else Ok(CountedInput(CountsName.StdIn, Zero()))
  }

  /** The entries of a list of inputs, in order: each input gives one entry,
      and standard input is read for the first "-" only. */
  function Entries(inputs: seq<Options.Input>, fs: FileSystem, stdinData: seq<Byte>,
                   width: seq<Byte> -> nat): (es: seq<Entry>)
    ensures |es| == |inputs|
    decreases |inputs|
  {
    if inputs == [] then []
    else
      var n := |inputs| - 1;
      Entries(inputs[..n], fs, stdinData, width)
        + [InputEntry(inputs[n], fs, stdinData, Options.StdIn in inputs[..n], width)]
  }

  /** Entry `i` is what input `i` gives, with standard input counted as seen
      when some earlier input was "-". */
  lemma {:induction false} EntriesAt(inputs: seq<Options.Input>, fs: FileSystem, stdinData: seq<Byte>,
                                     width: seq<Byte> -> nat, i: nat)
    requires i < |inputs|
    ensures Entries(inputs, fs, stdinData, width)[i]
         == InputEntry(inputs[i], fs, stdinData, Options.StdIn in inputs[..i], width)
    decreases |inputs|
  {
    var n := |inputs| - 1;
    if i < n {
      EntriesAt(inputs[..n], fs, stdinData, width, i);
      assert inputs[..n][..i] == inputs[..i];
    }
  }

  /** Standard input is counted once: the first "-" gets its counts, every
      other "-" gets zeros, and a file entry never depends on it. */
  lemma StdinCountedOnce(inputs: seq<Options.Input>, fs: FileSystem, stdinData: seq<Byte>,
                         width: seq<Byte> -> nat, i: nat, j: nat)
    requires i < j < |inputs| && inputs[i] == Options.StdIn && inputs[j] == Options.StdIn
    ensures Entries(inputs, fs, stdinData, width)[j] == Ok(CountedInput(CountsName.StdIn, Zero()))
  {
    EntriesAt(inputs, fs, stdinData, width, j);
    assert inputs[..j][i] == Options.StdIn;
  }

  lemma FirstStdinReads(inputs: seq<Options.Input>, fs: FileSystem, stdinData: seq<Byte>,
                        width: seq<Byte> -> nat, i: nat)
    requires i < |inputs| && inputs[i] == Options.StdIn
    requires forall k :: 0 <= k < i ==> inputs[k] != Options.StdIn
    ensures Entries(inputs, fs, stdinData, width)[i]
         == Ok(CountedInput(CountsName.StdIn, CountsOf(stdinData, width)))
  {
    EntriesAt(inputs, fs, stdinData, width, i);
    assert forall k :: 0 <= k < i ==> inputs[..i][k] != Options.StdIn;
  }

  lemma EntriesStep(inputs: seq<Options.Input>, i: nat, fs: FileSystem, stdinData: seq<Byte>,
                    width: seq<Byte> -> nat)
    requires i < |inputs|
    ensures Entries(inputs[..i + 1], fs, stdinData, width)
         == Entries(inputs[..i], fs, stdinData, width)
            + [InputEntry(inputs[i], fs, stdinData, Options.StdIn in inputs[..i], width)]
    ensures (Options.StdIn in inputs[..i + 1]) == (Options.StdIn in inputs[..i] || inputs[i] == Options.StdIn)
  {
    assert inputs[..i + 1][..i] == inputs[..i];
    assert inputs[..i + 1] == inputs[..i] + [inputs[i]];
  }

  // ---------------------------------------------------------------- the counter

  /** `Counter`. Its widths and totals always summarise its entries. */
  class Counter {
    var fileCounts: seq<Entry>
    var widths: ColumnWidths
    var totals: FileCounts
    var stdinSeen: bool

    ghost predicate Valid()
      reads this
    {
      widths == WidthsOf(fileCounts) && totals == TotalsOf(fileCounts)
    }

    /** `Counter::new`. */
    constructor ()
      ensures Valid() && fileCounts == [] && !stdinSeen
    {
      fileCounts := [];
      widths := DefaultWidths();
      totals := Zero();
      stdinSeen := false;
    }

    /** `apply_counts`: one more counted entry, folded into the widths and
      the totals. */
    method ApplyCounts(name: CountsName, counts: FileCounts)
      requires Valid()
      modifies this
      ensures Valid()
      ensures fileCounts == old(fileCounts) + [Ok(CountedInput(name, counts))]
      ensures widths == old(widths).Max(FromCounts(counts)) && widths.AtLeast(old(widths))
      ensures totals == old(totals).Add(counts)
      ensures stdinSeen == old(stdinSeen)
    {
      AppendLast(fileCounts, Ok(CountedInput(name, counts)));
      widths := widths.Max(FromCounts(counts));
      totals := AddAssign(totals, counts);
      fileCounts := fileCounts + [Ok(CountedInput(name, counts))];
    }

    /** A failed input: recorded, and nothing else changes. */
    method PushError(error: CountError)
      requires Valid()
      modifies this
      ensures Valid()
      ensures fileCounts == old(fileCounts) + [Err(error)]
      ensures widths == old(widths) && totals == old(totals) && stdinSeen == old(stdinSeen)
    {
      AppendLast(fileCounts, Err(error));
      fileCounts := fileCounts + [Err(error)];
    }

    /** `count_reader`. */
    method CountReader(name: CountsName, content: seq<Byte>, width: seq<Byte> -> nat)
      requires Valid()
      modifies this
      ensures Valid()
      ensures fileCounts == old(fileCounts) + [Ok(CountedInput(name, CountsOf(content, width)))]
      ensures stdinSeen == old(stdinSeen)
    {
      var counts := FromReader(content, width);
      ApplyCounts(name, counts);
    }

    /** `count_stdin`: everything standard input still holds. */
    method CountStdin(stdin: Stdin, width: seq<Byte> -> nat)
      requires Valid()
      modifies this, stdin
      ensures Valid()
      ensures fileCounts == old(fileCounts) + [Ok(CountedInput(CountsName.StdIn, CountsOf(old(stdin.rest), width)))]
      ensures stdin.rest == [] && stdinSeen == old(stdinSeen)
    {
      var content := stdin.ReadToEnd();
      CountReader(CountsName.StdIn, content, width);
    }

    /** `count_default`: a repeated "-" counts as empty. */
    method CountDefault()
      requires Valid()
      modifies this
      ensures Valid()
      ensures fileCounts == old(fileCounts) + [Ok(CountedInput(CountsName.StdIn, Zero()))]
      ensures stdinSeen == old(stdinSeen)
    {
      ApplyCounts(CountsName.StdIn, Zero());
    }

    /** `count_file`. */
    method CountFile(fs: FileSystem, path: seq<Byte>, width: seq<Byte> -> nat)
      requires Valid()
      modifies this
      ensures Valid()
      ensures fileCounts == old(fileCounts) + [FileEntry(fs, path, width)]
      ensures stdinSeen == old(stdinSeen)
    {
      if path !in fs {
        PushError(NoFile(path));
        return;
      }
      if fs[path].Directory? {
        PushError(IsDirectory(path));
        return;
      }
      match fs[path].open {
        case Opened(contents) => CountReader(CountsName.File(path), contents, width);
        case OpenFailed(e) => PushError(FileCount(path, e));
      }
    }

    /** `count_input`. */
    method CountInput(input: Options.Input, fs: FileSystem, stdin: Stdin, width: seq<Byte> -> nat)
      requires Valid()
      modifies this, stdin
      ensures Valid()
      ensures fileCounts == old(fileCounts) + [InputEntry(input, fs, old(stdin.rest), old(stdinSeen), width)]
      ensures stdinSeen == (old(stdinSeen) || input == Options.StdIn)
      ensures stdin.rest == if input == Options.StdIn && !old(stdinSeen) then [] else old(stdin.rest)
    {
      match input {
        case File(path) => CountFile(fs, path, width);
        case StdIn =>
          if !stdinSeen {
            CountStdin(stdin, width);
            stdinSeen := true;
          } else {
            CountDefault();
          }
      }
    }
  }
}
