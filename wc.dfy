/** One run of `mwc` (`main` in mwc/src/main.rs): choose the inputs, count
    each one, print a row per counted input, an error line per failed one and
    a total row when more than one input was named. */
module Wc {
  import opened Bytes
  import opened Wrappers
  import opened Counts
  import opened Widths
  import opened Printing
  import opened Counting
  import Options
  import InputList

  // ---------------------------------------------------------------- choosing the inputs

  /** Why `main` returns an error before counting anything. */
  datatype AbortReason =
    | ListUnopenable(source: seq<Byte>)   // the `--files0-from` file cannot be opened
    | ListNotUtf8(segment: seq<Byte>)     // a name in the list is not UTF-8

  /** The bytes of the `--files0-from` list. A directory opens but yields no
      bytes: its first read fails, which ends the list. */
  function ListSource(src: Options.Input, fs: FileSystem, stdinData: seq<Byte>): Result<seq<Byte>, AbortReason> {
    match src
    case StdIn => Ok(stdinData)
    case File(p) =>
      if p !in fs then Err(ListUnopenable(p))
      else match fs[p]
        case Directory => Ok([])
        case RegularFile(Opened(contents)) => Ok(contents)
        case RegularFile(OpenFailed(_)) => Err(ListUnopenable(p))
  }

  /** The inputs to count, and what standard input still holds for them. */
  datatype Resolved = Resolved(inputs: seq<Options.Input>, stdinLeft: seq<Byte>)

  /** The inputs named on the command line, or those of the list. */
  function Resolve(opts: Options.Opts, fs: FileSystem, stdinData: seq<Byte>): Result<Resolved, AbortReason> {
    match opts.filesFrom
    case None => Ok(Resolved(opts.inputs, stdinData))
    case Some(src) =>
      match ListSource(src, fs, stdinData)
      case Err(e) => Err(e)
      case Ok(list) =>
        match InputList.ParseInputList(list)
        case Err(NotUtf8(seg)) => Err(ListNotUtf8(seg))
        case Ok(inputs) => Ok(Resolved(inputs, if src == Options.StdIn then [] else stdinData))
  }

  /** The entries after counting: with no inputs, standard input alone. */
  function CountAll(inputs: seq<Options.Input>, fs: FileSystem, stdinLeft: seq<Byte>,
                    width: seq<Byte> -> nat): seq<Entry>
  {
    if inputs == [] then [Ok(CountedInput(CountsName.StdIn, CountsOf(stdinLeft, width)))]
    else Entries(inputs, fs, stdinLeft, width)
  }

  // ---------------------------------------------------------------- the report

  /** One printed row: its label, its counts and the widths it is printed with. */
  datatype Row = Row(name: CountsName, counts: FileCounts, widths: ColumnWidths)

  /** Standard input goes unlabelled when it is the only input. */
  function Label(name: CountsName, inputCount: nat): CountsName {
    if name == CountsName.StdIn && inputCount < 2 then Blank else name
  }

  /** The rows of the counted entries, in order, all with the widths `w`. */
  function RowsOf(entries: seq<Entry>, w: ColumnWidths, inputCount: nat): (rows: seq<Row>)
    decreases |entries|
  {
    if entries == [] then []
    else
      var before := RowsOf(entries[..|entries| - 1], w, inputCount);
      match entries[|entries| - 1]
      case Ok(ci) => before + [Row(Label(ci.name, inputCount), ci.counts, w)]
      case Err(_) => before
  }

  /** The row of the totals, printed when more than one input was named. */
  function TotalRows(entries: seq<Entry>, inputCount: nat): seq<Row> {
    if inputCount > 1 then
      [Row(Total, TotalsOf(entries), WidthsOf(entries).Max(FromCounts(TotalsOf(entries))))]
    else []
  }

  /** Every row printed, in order. */
  function Report(entries: seq<Entry>, inputCount: nat): seq<Row> {
    RowsOf(entries, WidthsOf(entries), inputCount) + TotalRows(entries, inputCount)
  }

  /** The text of the rows on standard output. */
  function RowsText(cfg: CountsConfig, rows: seq<Row>): seq<Byte>
    decreases |rows|
  {
    if rows == [] then []
    else
      var last := rows[|rows| - 1];
      RowsText(cfg, rows[..|rows| - 1]) + ResultText(cfg, last.widths, last.name, last.counts)
  }

  /** The error lines on standard error, in order. */
  function ErrorsText(entries: seq<Entry>): seq<Byte>
    decreases |entries|
  {
    if entries == [] then []
    else
      var before := ErrorsText(entries[..|entries| - 1]);
      match entries[|entries| - 1]
      case Ok(_) => before
      case Err(e) => before + ErrorText(e) + [NEWLINE]
  }

  predicate AnyErrors(entries: seq<Entry>) {
    exists i :: 0 <= i < |entries| && entries[i].Err?
  }

  /** How a run ends. */
  datatype RunOutcome =
    | Aborted(reason: AbortReason)
    | Completed(stdout: seq<Byte>, stderr: seq<Byte>, exitCode: int)

  function Outcome(cfg: CountsConfig, entries: seq<Entry>, inputCount: nat): RunOutcome {
    Completed(RowsText(cfg, Report(entries, inputCount)), ErrorsText(entries),
              if AnyErrors(entries) then 1 else 0)
  }

  /** What a run prints and returns, given the options, the filesystem, what
      standard input holds and the display width of text. */
  function RunSpec(opts: Options.Opts, fs: FileSystem, stdinData: seq<Byte>,
                   width: seq<Byte> -> nat): RunOutcome
  {
    match Resolve(opts, fs, stdinData)
    case Err(reason) => Aborted(reason)
    case Ok(res) =>
      Outcome(ConfigFromOpts(opts), CountAll(res.inputs, fs, res.stdinLeft, width), |res.inputs|)
  }

  // ---------------------------------------------------------------- main

  /** Opening and reading the `--files0-from` list; reading it from standard
      input drains standard input. */
  method ReadList(src: Options.Input, fs: FileSystem, stdin: Stdin) returns (r: Result<seq<Byte>, AbortReason>)
    modifies stdin
    ensures r == ListSource(src, fs, old(stdin.rest))
    ensures stdin.rest == if src == Options.StdIn then [] else old(stdin.rest)
  {
    match src {
      case StdIn =>
        var data := stdin.ReadToEnd();
        r := Ok(data);
      case File(p) =>
        if p !in fs {
          r := Err(ListUnopenable(p));
        } else {
          match fs[p] {
            case Directory => r := Ok([]);
            case RegularFile(Opened(contents)) => r := Ok(contents);
            case RegularFile(OpenFailed(_)) => r := Err(ListUnopenable(p));
          }
        }
    }
  }

  /** The first part of `main`: the inputs to count. */
  method ResolveInputs(opts: Options.Opts, fs: FileSystem, stdin: Stdin) returns (r: Result<seq<Options.Input>, AbortReason>)
    modifies stdin
    ensures match Resolve(opts, fs, old(stdin.rest))
            case Err(reason) => r == Err(reason)
            case Ok(res) => r == Ok(res.inputs) && stdin.rest == res.stdinLeft
    ensures stdin.rest == if opts.filesFrom == Some(Options.StdIn) then [] else old(stdin.rest)
  {
    match opts.filesFrom {
      case None =>
        return Ok(opts.inputs);
      case Some(src) =>
        var list := ReadList(src, fs, stdin);
        if list.Err? {
          return Err(list.error);
        }
        var parsed := InputList.ReadInputList(list.value);
        match parsed {
          case Err(NotUtf8(seg)) => return Err(ListNotUtf8(seg));
          case Ok(inputs) => return Ok(inputs);
        }
    }
  }

  /** The counting loop of `main`. */
  method CountInputs(inputs: seq<Options.Input>, fs: FileSystem, stdin: Stdin, width: seq<Byte> -> nat)
    returns (counter: Counter)
    modifies stdin
    ensures fresh(counter) && counter.Valid()
    ensures counter.fileCounts == CountAll(inputs, fs, old(stdin.rest), width)
  {
    ghost var left := stdin.rest;
    counter := new Counter();
    if |inputs| == 0 {
      counter.CountStdin(stdin, width);
      return;
    }
    var i := 0;
    while i < |inputs|
      invariant 0 <= i <= |inputs|
      invariant fresh(counter) && counter.Valid()
      invariant counter.fileCounts == Entries(inputs[..i], fs, left, width)
      invariant counter.stdinSeen == (Options.StdIn in inputs[..i])
      invariant !counter.stdinSeen ==> stdin.rest == left
    {
      EntriesStep(inputs, i, fs, left, width);
      counter.CountInput(inputs[i], fs, stdin, width);
      i := i + 1;
    }
    assert inputs[..i] == inputs;
  }

  lemma RowsOfStep(entries: seq<Entry>, k: nat, w: ColumnWidths, inputCount: nat)
    requires k < |entries|
    ensures entries[..k + 1][..k] == entries[..k]
    ensures RowsOf(entries[..k + 1], w, inputCount)
         == RowsOf(entries[..k], w, inputCount)
            + (if entries[k].Ok? then [Row(Label(entries[k].value.name, inputCount), entries[k].value.counts, w)] else [])
    ensures ErrorsText(entries[..k + 1])
         == ErrorsText(entries[..k]) + (if entries[k].Err? then ErrorText(entries[k].error) + [NEWLINE] else [])
    ensures AnyErrors(entries[..k + 1]) == (AnyErrors(entries[..k]) || entries[k].Err?)
  {
    assert entries[..k + 1][..k] == entries[..k];
    if entries[k].Ok? {
      assert ErrorsText(entries[..k]) + [] == ErrorsText(entries[..k]);
    } else {
      assert RowsOf(entries[..k], w, inputCount) + [] == RowsOf(entries[..k], w, inputCount);
    }
    if AnyErrors(entries[..k]) {
      var i :| 0 <= i < k && entries[..k][i].Err?;
      assert entries[..k + 1][i].Err?;
    }
  }

  lemma RowsTextSnoc(cfg: CountsConfig, rows: seq<Row>, r: Row)
    ensures RowsText(cfg, rows + [r]) == RowsText(cfg, rows) + ResultText(cfg, r.widths, r.name, r.counts)
  {
    assert (rows + [r])[..|rows|] == rows;
  }

  /** The text of the rows grows by the row of the next entry, if counted. */
  lemma RowsTextStep(cfg: CountsConfig, entries: seq<Entry>, k: nat, w: ColumnWidths, inputCount: nat)
    requires k < |entries|
    ensures RowsText(cfg, RowsOf(entries[..k + 1], w, inputCount))
         == RowsText(cfg, RowsOf(entries[..k], w, inputCount))
            + (if entries[k].Ok? then ResultText(cfg, w, Label(entries[k].value.name, inputCount), entries[k].value.counts)
               else [])
  {
    RowsOfStep(entries, k, w, inputCount);
    var rows := RowsOf(entries[..k], w, inputCount);
    match entries[k] {
      case Ok(ci) =>
        RowsTextSnoc(cfg, rows, Row(Label(ci.name, inputCount), ci.counts, w));
      case Err(_) =>
        assert rows + [] == rows;
        assert RowsText(cfg, rows) + [] == RowsText(cfg, rows);
    }
  }

  /** The report text is the rows of the entries, then the total row when
      more than one input was named. */
  lemma ReportText(cfg: CountsConfig, entries: seq<Entry>, inputCount: nat)
    ensures RowsText(cfg, Report(entries, inputCount))
         == RowsText(cfg, RowsOf(entries, WidthsOf(entries), inputCount))
            + (if inputCount > 1
               then ResultText(cfg, WidthsOf(entries).Max(FromCounts(TotalsOf(entries))), Total, TotalsOf(entries))
               else [])
  {
    var rows := RowsOf(entries, WidthsOf(entries), inputCount);
    if inputCount > 1 {
      RowsTextSnoc(cfg, rows, TotalRows(entries, inputCount)[0]);
    } else {
      assert rows + [] == rows;
      assert RowsText(cfg, rows) + [] == RowsText(cfg, rows);
    }
  }

  /** One pass of the printing loop of `main`: a row for a counted input, an
      error line for a failed one. */
  method PrintEntry(output: Printer, stdout: Writer, stderr: Writer, e: Entry, inputCount: nat)
    requires stdout != stderr
    modifies stdout, stderr
    ensures stdout.text == old(stdout.text)
              + if e.Ok? then ResultText(output.display, output.widths, Label(e.value.name, inputCount), e.value.counts)
                else []
    ensures stderr.text == old(stderr.text) + if e.Err? then ErrorText(e.error) + [NEWLINE] else []
  {
    match e {
      case Ok(CountedInput(name, counts)) =>
        if name == CountsName.StdIn && inputCount < 2 {
          output.PrintResult(stdout, Blank, counts);
        } else {
          output.PrintResult(stdout, name, counts);
        }
        assert stderr.text == old(stderr.text) + [];
      case Err(error) =>
        stderr.Write(ErrorText(error) + [NEWLINE]);
        assert stdout.text == old(stdout.text) + [];
    }
  }

  /** The printing loop of `main`: the rows and error lines of the entries,
      in order, and whether any input failed. */
  method PrintEntries(output: Printer, stdout: Writer, stderr: Writer, entries: seq<Entry>, inputCount: nat)
    returns (anyErrors: bool)
    requires stdout != stderr && stdout.text == [] && stderr.text == []
    modifies stdout, stderr
    ensures stdout.text == RowsText(output.display, RowsOf(entries, output.widths, inputCount))
    ensures stderr.text == ErrorsText(entries)
    ensures anyErrors == AnyErrors(entries)
  {
    anyErrors := false;
    var k := 0;
    assert entries[..0] == [];
    while k < |entries|
      invariant 0 <= k <= |entries|
      invariant stdout.text == RowsText(output.display, RowsOf(entries[..k], output.widths, inputCount))
      invariant stderr.text == ErrorsText(entries[..k])
      invariant anyErrors == AnyErrors(entries[..k])
    {
      var e := entries[k];
      RowsOfStep(entries, k, output.widths, inputCount);
      RowsTextStep(output.display, entries, k, output.widths, inputCount);
      PrintEntry(output, stdout, stderr, e, inputCount);
      anyErrors := anyErrors || e.Err?;
      k := k + 1;
    }
    assert entries[..k] == entries;
  }

  /** The printing part of `main`. */
  method Print(cfg: CountsConfig, counter: Counter, inputCount: nat) returns (outcome: RunOutcome)
    requires counter.Valid()
    ensures outcome == Outcome(cfg, counter.fileCounts, inputCount)
  {
    var output := new Printer(cfg, counter.widths);
    var stdout := new Writer();
    var stderr := new Writer();
    var anyErrors := PrintEntries(output, stdout, stderr, counter.fileCounts, inputCount);
    PrintTotal(output, stdout, counter.widths, counter.totals, inputCount);
    ReportText(cfg, counter.fileCounts, inputCount);
    outcome := Completed(stdout.text, stderr.text, if anyErrors then 1 else 0);
  }

  /** The total row, printed with the widths widened to fit the totals. */
  method PrintTotal(output: Printer, stdout: Writer, widths: ColumnWidths, totals: FileCounts, inputCount: nat)
    modifies output, stdout
    ensures output.display == old(output.display)
    ensures output.widths == if inputCount > 1 then widths.Max(FromCounts(totals)) else old(output.widths)
    ensures stdout.text == old(stdout.text)
              + if inputCount > 1 then ResultText(output.display, widths.Max(FromCounts(totals)), Total, totals)
                else []
  {
    if inputCount > 1 {
      output.widths := widths.Max(FromCounts(totals));
      output.PrintResult(stdout, Total, totals);
    } else {
      assert stdout.text == old(stdout.text) + [];
    }
  }

  /** `main`. */
  method Run(opts: Options.Opts, fs: FileSystem, stdin: Stdin, width: seq<Byte> -> nat) returns (outcome: RunOutcome)
    modifies stdin
    ensures outcome == RunSpec(opts, fs, old(stdin.rest), width)
  {
    var resolved := ResolveInputs(opts, fs, stdin);
    if resolved.Err? {
      return Aborted(resolved.error);
    }
    var inputs := resolved.value;
    var counter := CountInputs(inputs, fs, stdin, width);
    var display := ConfigFromOpts(opts);
    outcome := Print(display, counter, |inputs|);
  }

  // ---------------------------------------------------------------- properties

  /** The number of counted entries. */
  function OkCount(entries: seq<Entry>): nat
    decreases |entries|
  {
    if entries == [] then 0
    else OkCount(entries[..|entries| - 1]) + (if entries[|entries| - 1].Ok? then 1 else 0)
  }

  /** Some counted entry has the counts `c`. */
  predicate CountsOfSomeEntry(c: FileCounts, entries: seq<Entry>) {
    exists j :: 0 <= j < |entries| && entries[j].Ok? && entries[j].value.counts == c
  }

  /** Counting labels every entry with a file or with standard input. */
  predicate CountedNames(entries: seq<Entry>) {
    forall i :: 0 <= i < |entries| && entries[i].Ok? ==>
      entries[i].value.name.File? || entries[i].value.name == CountsName.StdIn
  }

  /** One row per counted entry, each printed with the same widths and
      showing that entry's counts. */
  lemma {:induction false} RowsOfShape(entries: seq<Entry>, w: ColumnWidths, inputCount: nat)
    ensures |RowsOf(entries, w, inputCount)| == OkCount(entries)
    ensures forall i :: 0 <= i < |RowsOf(entries, w, inputCount)| ==>
              RowsOf(entries, w, inputCount)[i].widths == w
              && CountsOfSomeEntry(RowsOf(entries, w, inputCount)[i].counts, entries)
    decreases |entries|
  {
    if entries != [] {
      var m := |entries| - 1;
      var init := entries[..m];
      RowsOfShape(init, w, inputCount);
      var rows := RowsOf(entries, w, inputCount);
      var before := RowsOf(init, w, inputCount);
      forall i | 0 <= i < |rows|
        ensures rows[i].widths == w && CountsOfSomeEntry(rows[i].counts, entries)
      {
        if i < |before| {
          assert rows[i] == before[i];
          var j :| 0 <= j < |init| && init[j].Ok? && init[j].value.counts == before[i].counts;
          assert entries[j] == init[j];
        } else {
          assert entries[m].Ok? && rows[i].counts == entries[m].value.counts;
        }
      }
    }
  }

  /** Counted entry `j` is printed as row number "counted entries before
      `j`", with its label and counts. */
  lemma {:induction false} RowsOfAt(entries: seq<Entry>, w: ColumnWidths, inputCount: nat, j: nat)
    requires j < |entries| && entries[j].Ok?
    ensures OkCount(entries[..j]) < |RowsOf(entries, w, inputCount)|
    ensures RowsOf(entries, w, inputCount)[OkCount(entries[..j])]
         == Row(Label(entries[j].value.name, inputCount), entries[j].value.counts, w)
    decreases |entries|
  {
    var m := |entries| - 1;
    var init := entries[..m];
    RowsOfShape(init, w, inputCount);
    if j == m {
      assert entries[..j] == init;
    } else {
      RowsOfAt(init, w, inputCount, j);
      assert init[..j] == entries[..j];
    }
  }

  /** Labels: standard input is shown as "-" exactly when several inputs were
      named and unlabelled otherwise; no per-source row is labelled "total". */
  lemma {:induction false} RowsOfLabels(entries: seq<Entry>, w: ColumnWidths, inputCount: nat)
    requires CountedNames(entries)
    ensures forall i :: 0 <= i < |RowsOf(entries, w, inputCount)| ==>
              var name := RowsOf(entries, w, inputCount)[i].name;
              && name != Total
              && (name == Blank ==> inputCount < 2)
              && (name == CountsName.StdIn ==> inputCount >= 2)
    decreases |entries|
  {
    if entries != [] {
      var m := |entries| - 1;
      var init := entries[..m];
      assert CountedNames(init) by {
        forall i | 0 <= i < |init| && init[i].Ok?
          ensures init[i].value.name.File? || init[i].value.name == CountsName.StdIn
        {
          assert init[i] == entries[i];
        }
      }
      RowsOfLabels(init, w, inputCount);
    }
  }

  /** The total row is printed exactly when more than one input was named;
      it comes last and is printed with the widths of the totals. */
  lemma TotalRowIffSeveralInputs(entries: seq<Entry>, inputCount: nat)
    requires CountedNames(entries)
    ensures |Report(entries, inputCount)| == OkCount(entries) + (if inputCount > 1 then 1 else 0)
    ensures (exists i :: 0 <= i < |Report(entries, inputCount)| && Report(entries, inputCount)[i].name == Total)
            <==> inputCount > 1
    ensures inputCount > 1 ==>
              Report(entries, inputCount)[|Report(entries, inputCount)| - 1]
                == Row(Total, TotalsOf(entries), FromCounts(TotalsOf(entries)))
  {
    var w := WidthsOf(entries);
    var rows := Report(entries, inputCount);
    var before := RowsOf(entries, w, inputCount);
    RowsOfShape(entries, w, inputCount);
    RowsOfLabels(entries, w, inputCount);
    TotalRowWidths(entries);
    if inputCount > 1 {
      assert rows[|rows| - 1].name == Total;
    } else {
      assert rows == before;
    }
  }

  /** Every printed row, the total row included, has room for each of its
      counts, so it reads back as exactly the counts of its shown columns. */
  lemma EveryRowReadsBack(cfg: CountsConfig, entries: seq<Entry>, inputCount: nat, i: nat)
    requires i < |Report(entries, inputCount)|
    ensures Fits(Report(entries, inputCount)[i].widths, Report(entries, inputCount)[i].counts)
    ensures var r := Report(entries, inputCount)[i];
            ReadRow(CountsText(cfg, r.widths, r.counts)) == Values(Columns(cfg), r.counts)
  {
    var w := WidthsOf(entries);
    var before := RowsOf(entries, w, inputCount);
    var r := Report(entries, inputCount)[i];
    if i < |before| {
      RowsOfShape(entries, w, inputCount);
      assert r == before[i];
      var j :| 0 <= j < |entries| && entries[j].Ok? && entries[j].value.counts == r.counts;
      WidthsOfFit(entries);
    } else {
      TotalRowWidths(entries);
    }
    RowReadsBack(cfg, r.widths, r.counts);
  }

  /** The counts of all per-source rows take the same room: their columns
      line up. */
  lemma SourceRowsAlign(cfg: CountsConfig, entries: seq<Entry>, inputCount: nat, i: nat)
    requires i < |RowsOf(entries, WidthsOf(entries), inputCount)|
    ensures var r := RowsOf(entries, WidthsOf(entries), inputCount)[i];
            |CountsText(cfg, r.widths, r.counts)| == RowWidth(Columns(cfg), WidthsOf(entries))
  {
    var rows := RowsOf(entries, WidthsOf(entries), inputCount);
    RowsOfShape(entries, WidthsOf(entries), inputCount);
    var j :| 0 <= j < |entries| && entries[j].Ok? && entries[j].value.counts == rows[i].counts;
    WidthsOfFit(entries);
    CountsTextLength(cfg, rows[i].widths, rows[i].counts);
  }

  lemma AnyErrorsLast(entries: seq<Entry>)
    requires entries != []
    ensures AnyErrors(entries) <==> AnyErrors(entries[..|entries| - 1]) || entries[|entries| - 1].Err?
  {
    var init := entries[..|entries| - 1];
    if AnyErrors(init) {
      var i :| 0 <= i < |init| && init[i].Err?;
      assert entries[i] == init[i];
    }
    if AnyErrors(entries) && !entries[|entries| - 1].Err? {
      var i :| 0 <= i < |entries| && entries[i].Err?;
      assert init[i] == entries[i];
    }
  }

  /** Standard error stays empty exactly when every input was counted. */
  lemma {:induction false} ErrorsTextEmpty(entries: seq<Entry>)
    ensures ErrorsText(entries) == [] <==> !AnyErrors(entries)
    decreases |entries|
  {
    if entries != [] {
      var m := |entries| - 1;
      var init := entries[..m];
      ErrorsTextEmpty(init);
      AnyErrorsLast(entries);
      match entries[m] {
        case Ok(_) =>
          assert ErrorsText(entries) == ErrorsText(init);
        case Err(e) =>
          assert ErrorsText(entries) == ErrorsText(init) + ErrorText(e) + [NEWLINE];
      }
    }
  }

  /** Counting gives file and standard-input labels only. */
  lemma CountAllNames(inputs: seq<Options.Input>, fs: FileSystem, stdinLeft: seq<Byte>, width: seq<Byte> -> nat)
    ensures CountedNames(CountAll(inputs, fs, stdinLeft, width))
  {
    var entries := CountAll(inputs, fs, stdinLeft, width);
    if inputs != [] {
      forall i | 0 <= i < |entries| && entries[i].Ok?
        ensures entries[i].value.name.File? || entries[i].value.name == CountsName.StdIn
      {
        EntriesAt(inputs, fs, stdinLeft, width, i);
        if inputs[i].File? {
          FileEntryClassified(fs, inputs[i].path, width);
        }
      }
    }
  }

  lemma SingleStdinReport(c: FileCounts, inputCount: nat)
    requires inputCount < 2
    ensures Report([Ok(CountedInput(CountsName.StdIn, c))], inputCount) == [Row(Blank, c, FromCounts(c))]
  {
    var entries: seq<Entry> := [Ok(CountedInput(CountsName.StdIn, c))];
    assert entries[..0] == [];
    WidthsOfOne(CountedInput(CountsName.StdIn, c));
    assert RowsOf(entries, FromCounts(c), inputCount) == [Row(Blank, c, FromCounts(c))];
  }

  lemma OneRowText(cfg: CountsConfig, row: Row)
    ensures RowsText(cfg, [row]) == ResultText(cfg, row.widths, row.name, row.counts)
  {
    assert [row][..0] == [];
  }

  lemma OneCountedEntry(ci: CountedInput)
    ensures ErrorsText([Ok(ci)]) == [] && !AnyErrors([Ok(ci)])
  {
    var entries: seq<Entry> := [Ok(ci)];
    assert entries[..0] == [];
  }

  /** The report of standard input alone: one unlabelled row, printed with
      the widths of its own counts, and nothing on standard error. */
  lemma SingleStdinOutcome(cfg: CountsConfig, c: FileCounts, inputCount: nat)
    requires inputCount < 2
    ensures Outcome(cfg, [Ok(CountedInput(CountsName.StdIn, c))], inputCount)
         == Completed(ResultText(cfg, FromCounts(c), Blank, c), [], 0)
  {
    SingleStdinReport(c, inputCount);
    OneRowText(cfg, Row(Blank, c, FromCounts(c)));
    OneCountedEntry(CountedInput(CountsName.StdIn, c));
  }

  /** With no inputs named, standard input is counted and printed alone. */
  lemma NoInputsCountsStdin(opts: Options.Opts, fs: FileSystem, stdinData: seq<Byte>, width: seq<Byte> -> nat)
    requires opts.filesFrom.None? && opts.inputs == []
    ensures var c := CountsOf(stdinData, width);
            RunSpec(opts, fs, stdinData, width)
              == Completed(ResultText(ConfigFromOpts(opts), FromCounts(c), Blank, c), [], 0)
  {
    SingleStdinOutcome(ConfigFromOpts(opts), CountsOf(stdinData, width), 0);
  }

  /** A directory given as the list opens but names nothing, so standard
      input is counted instead. */
  lemma DirectoryListCountsStdin(opts: Options.Opts, fs: FileSystem, stdinData: seq<Byte>, width: seq<Byte> -> nat)
    requires opts.filesFrom.Some? && opts.filesFrom.value.File?
    requires opts.filesFrom.value.path in fs && fs[opts.filesFrom.value.path] == Directory
    ensures var c := CountsOf(stdinData, width);
            RunSpec(opts, fs, stdinData, width)
              == Completed(ResultText(ConfigFromOpts(opts), FromCounts(c), Blank, c), [], 0)
  {
    assert InputList.ParseInputList([]) == Ok([]);
    SingleStdinOutcome(ConfigFromOpts(opts), CountsOf(stdinData, width), 0);
  }

  /** A readable list stops the run exactly when it is not valid UTF-8. */
  lemma ListAbortsIffNotUtf8(opts: Options.Opts, fs: FileSystem, stdinData: seq<Byte>, width: seq<Byte> -> nat)
    requires opts.filesFrom.Some? && ListSource(opts.filesFrom.value, fs, stdinData).Ok?
    ensures RunSpec(opts, fs, stdinData, width).Aborted?
            <==> !Utf8.ValidUtf8(ListSource(opts.filesFrom.value, fs, stdinData).value)
  {
    InputList.ParseInputListOk(ListSource(opts.filesFrom.value, fs, stdinData).value);
  }

  /** The exit status is 1 exactly when some named file could not be
      counted, and standard error is empty exactly when it is 0. */
  lemma ExitCodeOfRun(opts: Options.Opts, fs: FileSystem, stdinData: seq<Byte>, width: seq<Byte> -> nat)
    requires Resolve(opts, fs, stdinData).Ok?
    ensures var res := Resolve(opts, fs, stdinData).value;
            var out := RunSpec(opts, fs, stdinData, width);
            && out.Completed?
            && (out.exitCode == 1 <==>
                  exists i :: 0 <= i < |res.inputs| && res.inputs[i].File?
                              && FileEntry(fs, res.inputs[i].path, width).Err?)
            && (out.stderr == [] <==> out.exitCode == 0)
  {
    var res := Resolve(opts, fs, stdinData).value;
    var entries := CountAll(res.inputs, fs, res.stdinLeft, width);
    ErrorsTextEmpty(entries);
    if res.inputs == [] {
      assert !AnyErrors(entries);
    } else {
      if AnyErrors(entries) {
        var i :| 0 <= i < |entries| && entries[i].Err?;
        EntriesAt(res.inputs, fs, res.stdinLeft, width, i);
        assert res.inputs[i].File? && FileEntry(fs, res.inputs[i].path, width).Err?;
      }
      if exists i :: 0 <= i < |res.inputs| && res.inputs[i].File? && FileEntry(fs, res.inputs[i].path, width).Err? {
        var i :| 0 <= i < |res.inputs| && res.inputs[i].File? && FileEntry(fs, res.inputs[i].path, width).Err?;
        EntriesAt(res.inputs, fs, res.stdinLeft, width, i);
        assert entries[i].Err?;
      }
    }
  }

  /** Per-source rows are not widened by the totals, so the total row can be
      wider than the rows above it: two inputs of 5 bytes print their byte
      counts two characters wide and the total of 10 three wide. */
  lemma TotalRowCanBeWider()
    ensures var e: Entry := Ok(CountedInput(CountsName.StdIn, FileCounts(1, 1, 5, 5, 4)));
            && WidthsOf([e, e]).bytes == 2
            && Report([e, e], 2)[0].widths.bytes == 2
            && Report([e, e], 2)[2].widths.bytes == 3
  {
    var e: Entry := Ok(CountedInput(CountsName.StdIn, FileCounts(1, 1, 5, 5, 4)));
    var entries := [e, e];
    assert entries[..1] == [e];
    assert [e][..0] == [];
    assert NumDigits(10) == 2;
    assert WidthsOf([e]) == FromCounts(FileCounts(1, 1, 5, 5, 4));
    assert WidthsOf(entries).bytes == 2;
    TotalsOfOne(e);
    assert TotalsOf(entries) == TotalsOf([e]).Add(FileCounts(1, 1, 5, 5, 4));
    assert TotalsOf(entries).bytes == 10;
    RowsOfAt(entries, WidthsOf(entries), 2, 0);
    assert entries[..0] == [];
  }
}
