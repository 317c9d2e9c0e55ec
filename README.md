# mwc — a verified model of a `wc` clone

`mwc` prints line, word, byte, character and longest-line counts for each
input file (or standard input), followed by a total row when several inputs
were named. This project models its core, `mwc/src/main.rs`, in Dafny:

- **Counting one input** (`file_counts.dfy`, module `Counts`).
  `FileCounts::from_reader` is a loop over `read_until(b'\n')` chunks. Each
  chunk adds:
  - its length to `bytes`;
  - one to `lines`;
  - its whitespace-separated runs to `words`;
  - its Unicode scalar values to `chars`, when the chunk is valid UTF-8;
  - its display width to `max_line_length`, which keeps the widest chunk.

  `AddAssign` merges two counts. The UTF-8 rules live in `utf8.dfy`, and the
  delimiter scan that `read_until` performs lives in `bytes.dfy`.
- **Column widths** (`widths.dfy`, module `Widths`).
  - `digits`, as a loop.
  - `ColumnWidths::max`, `Default` and `From<&FileCounts>`.
  - `Fits` says that a width leaves room for a number and a separating space.
- **Options and the input list**
  - `options.dfy` holds `parse_input` and the parsed options.
  - `input_list.dfy` holds the `--files0-from` loop in `main`. It splits the
    list at NUL bytes, rejects any segment that is not UTF-8, trims trailing
    NULs and parses each name.
- **Rendering** (`printing.dfy`, module `Printing`).
  - `CountsConfig` (`Default`, `new`, `From<&Opts>`).
  - Right-aligned decimal fields.
  - `CountsName`'s `Display`.
  - The `Printer` class, which writes through a `Writer` object into a byte
    buffer.
  - A row can be read back: split at spaces, each token is a decimal number.
    When the widths fit the counts, the tokens are exactly the shown counts.
- **Run state** (`counting.dfy`, module `Counting`).
  - The `Counter` class holds the ordered entries, the running widths, the
    running totals and the standard-input flag. Its invariant `Valid` says
    that the widths and totals are folds over the entries.
  - The filesystem is a map from path to "directory" or "regular file". A
    regular file carries either the bytes its reader delivers or the error of
    its open.
  - Standard input is a `Stdin` object whose bytes are drained when read.
- **A whole run** (`wc.dfy`, module `Wc`).
  - `Run` models `main`. It is proved to produce the outcome described by
    `RunSpec`: the inputs to count (or an abort), then the standard output,
    standard error and exit status.
  - Per-source rows use the widths copied before the total is considered.
  - Only the total row uses the widths widened by the totals, so the total
    row can be wider than the rows above it (`TotalRowCanBeWider`).

Text the program prints (paths, labels, error messages) is modelled as bytes.
The display width of a string comes from the `unicode_width` library, which
is outside this model. It is therefore a parameter `width` of every counting
function, applied only to valid UTF-8 chunks with their trailing line feed
removed.

The `2.max(..)` in `From<&FileCounts> for ColumnWidths` never changes the
result, because every number has at least one digit
(`Widths.WidthForIsDigitsPlusOne`).

## Model

| member | source | states |
|---|---|---|
| Bytes.ReadUntilChunk | mwc/src/main.rs:328 | a `read_until` chunk holds no delimiter before its last byte, and ends with the delimiter unless it reaches the end of input |
| Bytes.ChunkDelimiters | mwc/src/main.rs:19 | a chunk holds exactly one delimiter when it ends with one, and none otherwise |
| Bytes.TrimEnd | mwc/src/main.rs:25-26 | `trim_end_matches` removes exactly the trailing run of the trimmed byte: the result is a prefix of the input, every byte cut off is that byte, and the result does not end with it |
| Utf8.ScalarCountIsLeadByteCount | mwc/src/main.rs:338-339 | in valid UTF-8 the number of scalar values is the number of non-continuation bytes, so it never exceeds the length |
| Utf8.ValidSplitAfterAscii | mwc/src/main.rs:22-24 | cutting after an ASCII byte keeps validity in both directions and splits the scalar count |
| Counts.Zero | mwc/src/main.rs:309 | `FileCounts::default()` is the unit of merging: adding it changes no count (with `Counts.AddZero`) |
| Counts.AddAssign | mwc/src/main.rs:350-358 | `+=` adds lines, bytes, words and chars and keeps the larger longest line; the result equals `Add` |
| Counts.AddCommutes | mwc/src/main.rs:350-358 | merging counts is commutative |
| Counts.AddAssociates | mwc/src/main.rs:350-358 | merging counts is associative |
| Counts.AddZero | mwc/src/main.rs:350-358 | the default (all-zero) counts are the identity of merging |
| Counts.AddMaxLineLength | mwc/src/main.rs:356 | the merged longest line is one of the two and at least both |
| Counts.CountChunk | mwc/src/main.rs:332-342 | one pass of the loop body adds exactly what the chunk contributes |
| Counts.FromReader | mwc/src/main.rs:325-346 | the loop computes the counts of the whole input: chunk contributions merged in order |
| Counts.CountNext | mwc/src/main.rs:328-344 | one pass of the `from_reader` loop: merging the chunk just read keeps "counts so far merged with the rest's counts are the whole input's counts" |
| Counts.CountEnd | mwc/src/main.rs:328-330 | when `read_until` returns 0 the counts so far are those of the whole input |
| Counts.ChunksPartition | mwc/src/main.rs:328 | the `read_until` chunks concatenate back to the input, every chunk but the last ends in a line feed, and no chunk has one before its last byte |
| Counts.ConcatChunks | mwc/src/main.rs:328 | the `read_until` chunks concatenate back to the input |
| Counts.ChunkShape | mwc/src/main.rs:328 | chunk i ends in a line feed unless it is the last one, and has none before its last byte |
| Counts.CountsOfAppend | mwc/src/main.rs:325-346 | counting an input split after a line feed is merging the counts of the two parts |
| Counts.BytesIsLength | mwc/src/main.rs:332 | `bytes` is the input length |
| Counts.LinesCount | mwc/src/main.rs:333 | `lines` is the number of line feeds, plus one for a non-empty input that does not end in one |
| Counts.WordsInIsWordCount | mwc/src/main.rs:334-337 | splitting a chunk at ASCII whitespace and counting non-empty pieces counts maximal non-whitespace runs |
| Counts.WordsAreGlobal | mwc/src/main.rs:334-337 | counting words chunk by chunk equals counting them over the whole input |
| Counts.CharsOfInput | mwc/src/main.rs:338-339 | `chars` never exceeds `bytes`, and for valid UTF-8 it is the scalar count of the whole input |
| Counts.CharsAtMostBytes | mwc/src/main.rs:338-339 | `chars` never exceeds `bytes` |
| Counts.CharsOfValidInput | mwc/src/main.rs:338-339 | for a valid UTF-8 input, counting characters chunk by chunk gives the scalar count of the whole input |
| Counts.InvalidChunk | mwc/src/main.rs:338-342 | a chunk that is not valid UTF-8 adds a line, its bytes and words, and no chars or width |
| Counts.MaxLineLengthIsWidest | mwc/src/main.rs:340-342 | `max_line_length` is the width of the widest chunk, never a sum, and 0 for empty input |
| Counts.EmptyInput | mwc/src/main.rs:326 | empty input gives all-zero counts |
| Counts.WhitespaceExample | mwc/tests/integration_tests.rs:212-218 | the whitespace test input has 3 lines and 4 words |
| Counts.CafeExample | mwc/src/main.rs:338-339 | a two-byte character counts as two bytes and one char |
| Widths.NumDigitsBounds | mwc/src/main.rs:406-418 | 10^(d-1) <= n < 10^d for the digit count d of n > 0 |
| Widths.NumDigitsUnique | mwc/src/main.rs:406-418 | the digit count is the only d with those bounds |
| Widths.NumDigitsMonotone | mwc/src/main.rs:406-418 | a larger number never has fewer digits |
| Widths.Digits | mwc/src/main.rs:406-418 | the division loop returns the digit count, with its power-of-ten bounds |
| Widths.DigitsExamples | mwc/src/main.rs:420-428 | the unit test values of `digits` |
| Widths.ColumnWidths.Max | mwc/src/main.rs:369-379 | the merged widths are at least both arguments, and equal the first when it is already at least the second; `Widths.MaxIsLeastUpperBound` proves they are the narrowest such |
| Widths.DefaultWidths | mwc/src/main.rs:381-391 | the default widths are the ones all-zero counts ask for, and no counts ask for narrower |
| Widths.FromCounts | mwc/src/main.rs:393-403 | the derived widths fit the counts, each column being its count's digits plus one; `Widths.FromCountsFits` proves they are the narrowest that fit |
| Widths.WidthForIsDigitsPlusOne | mwc/src/main.rs:393-403 | a width derived from a count is its digits plus one, and at least 2 |
| Widths.MaxCommutes | mwc/src/main.rs:369-379 | `ColumnWidths::max` is commutative |
| Widths.MaxAssociates | mwc/src/main.rs:369-379 | `ColumnWidths::max` is associative |
| Widths.MaxIdempotent | mwc/src/main.rs:369-379 | `ColumnWidths::max` is idempotent |
| Widths.MaxIsLeastUpperBound | mwc/src/main.rs:369-379 | `ColumnWidths::max` is the column-wise least upper bound |
| Widths.FromCountsFits | mwc/src/main.rs:393-403 | the widths derived from counts fit them, and are the narrowest widths that do |
| Widths.FitsWidened | mwc/src/main.rs:369-379 | widening never loses a fit |
| Widths.FromCountsMonotone | mwc/src/main.rs:393-403 | larger counts ask for widths at least as wide |
| Options.ParseInput | mwc/src/main.rs:301-307 | "-" is standard input, and any other string is a file with that path |
| Options.ParseInputRoundTrip | mwc/src/main.rs:301-307 | parsing inverts rendering an input back to its argument, except for a file literally named "-" |
| Printing.DefaultConfig | mwc/src/main.rs:175-185 | the default configuration shows lines, words and bytes, in that order, and nothing else |
| Printing.NewConfig | mwc/src/main.rs:187-197 | a new configuration shows no column |
| Printing.ConfigFromOpts | mwc/src/main.rs:199-214 | with some flag the configuration is exactly the flags; with none it is the default |
| Printing.ConfigColumns | mwc/src/main.rs:175-214 | with no flag the columns are lines, words, bytes; with flags, exactly the flagged columns; never none |
| Printing.ColumnsShown | mwc/src/main.rs:441-481 | a column is printed exactly when its flag in the configuration is set |
| Printing.Decimal | mwc/src/main.rs:441-479 | a count is printed with as many digits as it has |
| Printing.DecimalRoundTrip | mwc/src/main.rs:441-479 | the printed digits read back as the count |
| Printing.PadLeft | mwc/src/main.rs:441-479 | a right-aligned field is as wide as the width, or the number when that is wider |
| Printing.PadLeftShape | mwc/src/main.rs:441-479 | a right-aligned field is spaces followed by the number |
| Printing.CountsTextIsFieldsText | mwc/src/main.rs:436-483 | `print_counts` writes the enabled fields in the order lines, words, bytes, chars, longest line |
| Printing.RowReadsBack | mwc/src/main.rs:436-483 | when the widths fit, the printed counts read back as exactly the enabled counts, in order |
| Printing.RowsAlign | mwc/src/main.rs:436-483 | fields printed with fitting widths take exactly the sum of the widths |
| Printing.CountsTextLength | mwc/src/main.rs:436-483 | every row printed with the same fitting widths has the same length |
| Printing.PrintCountsExample | mwc/src/main.rs:519-538 | default columns and widths print (1, 1, 6, 2, 1) as " 1 1 6" |
| Printing.NameText | mwc/src/main.rs:223-234 | every label but the blank one starts with a space |
| Printing.Printer.constructor | mwc/src/main.rs:52-55 | the printer starts with the given columns and widths |
| Printing.Writer.Write | mwc/src/main.rs:513-517 | writing appends to what was written |
| Printing.Printer.PrintColumn | mwc/src/main.rs:441-447 | one `if` block of `print_counts` writes the field exactly when its column is shown |
| Printing.Printer.PrintCounts | mwc/src/main.rs:436-483 | `print_counts` appends the counts text of the row |
| Printing.Printer.PrintFile | mwc/src/main.rs:485-491 | `print_file` appends the label |
| Printing.Printer.PrintResult | mwc/src/main.rs:493-502 | `print_result` appends counts, label and a line feed |
| InputList.ParseInputListStep | mwc/src/main.rs:19-31 | one loop pass: a segment is rejected if not UTF-8, and otherwise parsed in front of the rest |
| InputList.ReadInputList | mwc/src/main.rs:13-34 | the loop computes the parse of the whole list, including its error |
| InputList.ReadSegment | mwc/src/main.rs:19-31 | one loop pass: at end of list the result is the inputs read so far, a segment that is not UTF-8 is the error of the whole list, and otherwise the inputs grow by the parsed segment keeping "read so far, then the rest, is the whole list" |
| InputList.ReadNext | mwc/src/main.rs:23-29 | pushing the parsed input of a valid segment keeps "read so far, then the rest, is the whole list" |
| InputList.ReadInvalid | mwc/src/main.rs:23-24 | a segment that is not UTF-8 is the error of the whole list |
| InputList.ParseInputListOk | mwc/src/main.rs:22-24 | the list is accepted exactly when it is valid UTF-8 as a whole |
| InputList.ParseInputListFirst | mwc/src/main.rs:19-31 | an accepted list gives one input for its first segment, then those of the rest |
| InputList.ParseInputListLength | mwc/src/main.rs:13-34 | one input per NUL, plus one for a final name with no NUL |
| InputList.SegmentOfName | mwc/src/main.rs:19 | a NUL-free name and its NUL form exactly one segment |
| InputList.TrimEndOfName | mwc/src/main.rs:25-26 | trimming a segment's NUL gives back the name |
| InputList.ParseInputListCons | mwc/src/main.rs:19-31 | a valid name and its NUL at the front give `parse_input` of the name |
| InputList.ParseAll | mwc/src/main.rs:27-30 | one input per name |
| InputList.ParseEncoded | mwc/src/main.rs:13-34 | NUL-terminated valid names read back as `parse_input` of each name, in order |
| InputList.ParseAllAt | mwc/src/main.rs:27-30 | input i is `parse_input` of name i |
| Counting.Stdin.constructor | mwc/src/main.rs:146-148 | standard input starts with the given bytes |
| Counting.Stdin.ReadToEnd | mwc/src/main.rs:146-148 | reading standard input to the end returns everything and leaves nothing |
| Counting.AppendLast | mwc/src/main.rs:156-160 | one more entry widens the widths and adds to the totals if counted, and changes neither if failed |
| Counting.WidthsOfFit | mwc/src/main.rs:156-160 | the running widths fit every counted entry and are never below the defaults |
| Counting.WidthsOfLeast | mwc/src/main.rs:156-160 | the running widths are the narrowest such widths |
| Counting.TotalsOfAppend | mwc/src/main.rs:156-160 | totals over two runs of entries merge like counts |
| Counting.TotalsOfOne | mwc/src/main.rs:156-160 | one entry contributes its counts, or nothing when it failed |
| Counting.TotalsOfCovers | mwc/src/main.rs:156-160 | the totals are at least every counted entry's counts, column by column |
| Counting.TotalRowWidths | mwc/src/main.rs:76 | widening the running widths by the totals gives exactly the widths of the totals, which fit them |
| Counting.ErrorText | mwc/src/main.rs:89-97 | every error message starts with `mwc: `, the path and `: `, and a read error's message ends with the operating system's message |
| Counting.FileEntryClassified | mwc/src/main.rs:129-144 | NoFile iff the path is missing, IsDirectory iff it is a directory, FileCount iff its open fails, and counts of its contents otherwise |
| Counting.Entries | mwc/src/main.rs:45-47 | one entry per input |
| Counting.EntriesAt | mwc/src/main.rs:118-127 | entry i is what input i gives, with standard input seen when an earlier input was "-" |
| Counting.StdinCountedOnce | mwc/src/main.rs:118-127 | every "-" after the first records zero counts labelled "-" |
| Counting.FirstStdinReads | mwc/src/main.rs:121-124 | the first "-" records the counts of standard input |
| Counting.EntriesStep | mwc/src/main.rs:45-47 | counting one more input appends its entry and updates the seen flag |
| Counting.Counter.constructor | mwc/src/main.rs:109-116 | a new counter has no entries, default widths, zero totals, and standard input unseen |
| Counting.Counter.ApplyCounts | mwc/src/main.rs:156-160 | appends one counted entry, widens the widths to at least their old value, and adds to the totals |
| Counting.Counter.PushError | mwc/src/main.rs:131 | a failed input is appended and leaves widths and totals unchanged |
| Counting.Counter.CountReader | mwc/src/main.rs:150-154 | appends the counts of the reader's bytes |
| Counting.Counter.CountStdin | mwc/src/main.rs:146-148 | appends the counts of all of standard input, labelled "-", and drains it |
| Counting.Counter.CountDefault | mwc/src/main.rs:162-164 | appends zero counts labelled "-" |
| Counting.Counter.CountFile | mwc/src/main.rs:129-144 | appends the entry the filesystem gives for the path, keeping the counter's invariant |
| Counting.Counter.CountInput | mwc/src/main.rs:118-127 | appends the input's entry, reads standard input only when not seen before, and sets the seen flag |
| Wc.ReadList | mwc/src/main.rs:14-17 | the list comes from standard input (draining it) or from the file; a missing or unopenable file aborts; a directory yields nothing |
| Wc.ResolveInputs | mwc/src/main.rs:12-37 | the inputs are the options' inputs, or those of the list, or the abort; standard input is drained exactly when the list is read from it, whether or not the run aborts |
| Wc.CountInputs | mwc/src/main.rs:39-50 | with no inputs standard input is counted alone; otherwise one entry per input, in order |
| Wc.PrintEntry | mwc/src/main.rs:58-74 | a counted entry prints its row, with "-" blank when there are fewer than two inputs; a failed one prints its error line |
| Wc.PrintTotal | mwc/src/main.rs:75-80 | the total row is printed with the widths widened by the totals, only when there are more than one input; the printer keeps those widened widths afterwards, and its widths are untouched otherwise |
| Wc.Print | mwc/src/main.rs:52-86 | standard output, standard error and exit status are those of the report |
| Wc.PrintEntries | mwc/src/main.rs:57-74 | the loop prints the rows of the counted entries on standard output and the error lines on standard error, in order, and notes whether any input failed |
| Wc.Run | mwc/src/main.rs:11-87 | a run produces exactly the specified outcome |
| Wc.RowsOfShape | mwc/src/main.rs:56-74 | one row per counted entry, all with the widths copied before the totals, each with some entry's counts |
| Wc.RowsOfAt | mwc/src/main.rs:56-74 | counted entry j is printed, with its label and counts, after the rows of the earlier counted entries |
| Wc.RowsOfLabels | mwc/src/main.rs:58-68 | no source row is labelled "total", and "-" is blank exactly when there are fewer than two inputs |
| Wc.TotalRowIffSeveralInputs | mwc/src/main.rs:75-80 | a " total" row is printed iff there are more than one input; it comes last, with the widths of the totals |
| Wc.EveryRowReadsBack | mwc/src/main.rs:52-80 | every printed row, total included, fits its counts and reads back as them |
| Wc.SourceRowsAlign | mwc/src/main.rs:52-74 | all per-source rows have counts of the same length |
| Wc.ErrorsTextEmpty | mwc/src/main.rs:69-72 | standard error is empty exactly when no input failed |
| Wc.CountAllNames | mwc/src/main.rs:118-164 | counted entries are labelled by a file or by "-" only |
| Wc.SingleStdinOutcome | mwc/src/main.rs:56-62 | standard input alone prints one unlabelled row with the widths of its own counts, and exits 0 |
| Wc.NoInputsCountsStdin | mwc/src/main.rs:42-43 | with no inputs named, standard input is counted and printed alone |
| Wc.DirectoryListCountsStdin | mwc/src/main.rs:18-20 | a directory as the list names nothing, so standard input is counted |
| Wc.ListAbortsIffNotUtf8 | mwc/src/main.rs:22-24 | a readable list aborts the run exactly when it is not valid UTF-8 |
| Wc.ExitCodeOfRun | mwc/src/main.rs:82-86 | the exit status is 1 exactly when some named file failed, and standard error is empty exactly when it is 0 |
| Wc.TotalRowCanBeWider | mwc/src/main.rs:52 | per-source rows keep their narrower widths while the total row is widened |

## Left out

- The `mtrue` crate: it has no logic.
- Argument parsing by `clap`, and `--help`/`--version`. The model starts from a parsed `Opts` value.
- Real I/O. These are replaced by given values:
  - `Path::exists`, `is_dir` and `File::open` by a filesystem map;
  - standard input by a `Stdin` object holding its bytes;
  - the writer to standard output and `eprintln!` by byte buffers;
  - `process::exit` by the exit status in the outcome.
- Read errors in the middle of a stream. A file's contents are the bytes its reader delivers; a read error is treated as end of input there. The source drops a partial chunk read before the error, and the model does not distinguish that case.
- Write errors on standard output. The source panics on them, and the model does not cover that.
- `unicode_width`'s display width. It is the parameter `width`.
- Lossy path display (`PathBuf::display`). Paths are shown as their bytes.
- The text of the error `main` returns on an abort (the `Debug` form of an I/O error). The model keeps only the reason (`Wc.AbortReason`).
- `usize` overflow. Counts and widths are unbounded naturals.
