/** Which columns are shown and how one result row is rendered
    (`CountsConfig`, `CountsName` and `Printer` in mwc/src/main.rs). */
module Printing {
  import opened Bytes
  import opened Counts
  import opened Widths
  import Options

  // ---------------------------------------------------------------- columns

  /** Which of the five counts are printed. */
  datatype CountsConfig = CountsConfig(lines: bool, words: bool, bytes: bool, chars: bool, maxLineLength: bool)

  /** `CountsConfig::default()`: lines, words and bytes, as `wc` prints them. */
  function DefaultConfig(): (c: CountsConfig)
    ensures Columns(c) == [Lines, Words, Bytes]
  {
    CountsConfig(true, true, true, false, false)
  }

  /** `CountsConfig::new()`: nothing selected. */
  function NewConfig(): (c: CountsConfig)
    ensures Columns(c) == []
  {
    CountsConfig(false, false, false, false, false)
  }

  predicate AnyFlag(o: Options.Opts) {
    o.lines || o.bytes || o.chars || o.words || o.maxLineLength
  }

  /** `CountsConfig::from(&Opts)`: the flags given, or the default set when
      none is given. */
  function ConfigFromOpts(o: Options.Opts): (c: CountsConfig)
    ensures AnyFlag(o) ==> c == CountsConfig(o.lines, o.words, o.bytes, o.chars, o.maxLineLength)
    ensures !AnyFlag(o) ==> c == DefaultConfig()
  {
    if AnyFlag(o) then
      var out := NewConfig();
      out.(lines := out.lines || o.lines,
           bytes := out.bytes || o.bytes,
           chars := out.chars || o.chars,
           words := out.words || o.words,
           maxLineLength := out.maxLineLength || o.maxLineLength)
    else
      DefaultConfig()
  }

  /** One of the five columns, in the order they are printed. */
  datatype Column = Lines | Words | Bytes | Chars | MaxLineLength

  /** The columns a configuration shows, left to right. */
  function Columns(c: CountsConfig): (cols: seq<Column>)
    ensures |cols| <= 5
  {
    (if c.lines then [Lines] else []) + (if c.words then [Words] else [])
    + (if c.bytes then [Bytes] else []) + (if c.chars then [Chars] else [])
    + (if c.maxLineLength then [MaxLineLength] else [])
  }

  /** Whether a configuration selects a column. */
  predicate Shows(c: CountsConfig, col: Column) {
    match col
    case Lines => c.lines
    case Words => c.words
    case Bytes => c.bytes
    case Chars => c.chars
    case MaxLineLength => c.maxLineLength
  }

  /** A column is printed exactly when its flag is set. */
  lemma ColumnsShown(c: CountsConfig, col: Column)
    ensures col in Columns(c) <==> Shows(c, col)
  {
    var a: seq<Column> := if c.lines then [Lines] else [];
    var b: seq<Column> := if c.words then [Words] else [];
    var d: seq<Column> := if c.bytes then [Bytes] else [];
    var e: seq<Column> := if c.chars then [Chars] else [];
    var f: seq<Column> := if c.maxLineLength then [MaxLineLength] else [];
    assert Columns(c) == a + b + d + e + f;
    assert col in a <==> col == Lines && c.lines;
    assert col in b <==> col == Words && c.words;
    assert col in d <==> col == Bytes && c.bytes;
    assert col in e <==> col == Chars && c.chars;
    assert col in f <==> col == MaxLineLength && c.maxLineLength;
  }

  /** With no flag the columns are exactly lines, words, bytes; with flags
      they are exactly the flags given. Some column is always shown. */
  lemma ConfigColumns(o: Options.Opts)
    ensures !AnyFlag(o) ==> Columns(ConfigFromOpts(o)) == [Lines, Words, Bytes]
    ensures AnyFlag(o) ==>
      && (Lines in Columns(ConfigFromOpts(o)) <==> o.lines)
      && (Words in Columns(ConfigFromOpts(o)) <==> o.words)
      && (Bytes in Columns(ConfigFromOpts(o)) <==> o.bytes)
      && (Chars in Columns(ConfigFromOpts(o)) <==> o.chars)
      && (MaxLineLength in Columns(ConfigFromOpts(o)) <==> o.maxLineLength)
    ensures Columns(ConfigFromOpts(o)) != []
  {
    var c := ConfigFromOpts(o);
    if AnyFlag(o) {
      ColumnsShown(c, Lines);
      ColumnsShown(c, Words);
      ColumnsShown(c, Bytes);
      ColumnsShown(c, Chars);
      ColumnsShown(c, MaxLineLength);
    } else {
      assert Columns(c) == [Lines] + [Words] + [Bytes] + [] + [];
    }
  }

  function CountOf(c: FileCounts, col: Column): nat {
    match col
    case Lines => c.lines
    case Words => c.words
    case Bytes => c.bytes
    case Chars => c.chars
    case MaxLineLength => c.maxLineLength
  }

  function WidthOf(w: ColumnWidths, col: Column): nat {
    match col
    case Lines => w.lines
    case Words => w.words
    case Bytes => w.bytes
    case Chars => w.chars
    case MaxLineLength => w.maxLineLength
  }

  /** The values a row shows, left to right. */
  function Values(cols: seq<Column>, c: FileCounts): (vs: seq<nat>)
    ensures |vs| == |cols|
  {
    if cols == [] then [] else [CountOf(c, cols[0])] + Values(cols[1..], c)
  }

  // ---------------------------------------------------------------- numbers

  predicate IsDigit(b: Byte) {
    0x30 <= b <= 0x39
  }

  /** A number in decimal, as `{}` formats a `usize`. */
  function Decimal(n: nat): (s: seq<Byte>)
    ensures |s| == NumDigits(n)
    decreases n
  {
    if n < 10 then [0x30 + n] else Decimal(n / 10) + [0x30 + n % 10]
  }

  lemma {:induction false} DecimalDigits(n: nat)
    ensures forall i :: 0 <= i < |Decimal(n)| ==> IsDigit(Decimal(n)[i])
    decreases n
  {
    if n >= 10 {
      DecimalDigits(n / 10);
    }
  }

  /** The number a string of decimal digits denotes. */
  function DecimalValue(s: seq<Byte>): nat
    decreases |s|
  {
    if s == [] then 0
    else
      var d: int := s[|s| - 1] as int - 0x30;
      DecimalValue(s[..|s| - 1]) * 10 + (if d < 0 then 0 else d)
  }

  /** Reading a formatted number gives the number back. */
  lemma {:induction false} DecimalRoundTrip(n: nat)
    ensures DecimalValue(Decimal(n)) == n
    decreases n
  {
    var s := Decimal(n);
    if n < 10 {
      assert s[..|s| - 1] == [];
    } else {
      assert s[..|s| - 1] == Decimal(n / 10);
      DecimalRoundTrip(n / 10);
    }
  }

  // ---------------------------------------------------------------- fields

  /** `{:>width$}`: right-aligned in `w` characters, or as it is when longer. */
  function PadLeft(s: seq<Byte>, w: nat): (r: seq<Byte>)
    ensures |r| == Max(w, |s|)
  {
    if |s| >= w then s else Spaces(w - |s|) + s
  }

  /** Padding goes in front: the text ends with `s`, after nothing but
      spaces. */
  lemma PadLeftShape(s: seq<Byte>, w: nat)
    ensures PadLeft(s, w)[|PadLeft(s, w)| - |s|..] == s
    ensures forall i :: 0 <= i < |PadLeft(s, w)| - |s| ==> PadLeft(s, w)[i] == SPACE
  {
  }

  /** One count right-aligned in its column. */
  function Field(n: nat, w: nat): seq<Byte> {
    PadLeft(Decimal(n), w)
  }

  /** One column of a row: its count right-aligned in its width, or
      nothing when the column is not shown. */
  function ColumnText(on: bool, col: Column, w: ColumnWidths, c: FileCounts): seq<Byte> {
    if on then Field(CountOf(c, col), WidthOf(w, col)) else []
  }

  /** What `print_counts` writes: the shown counts, each right-aligned in
      its column, in the order lines, words, bytes, chars, max line length. */
  function CountsText(cfg: CountsConfig, w: ColumnWidths, c: FileCounts): seq<Byte> {
    ColumnText(cfg.lines, Lines, w, c) + ColumnText(cfg.words, Words, w, c)
    + ColumnText(cfg.bytes, Bytes, w, c) + ColumnText(cfg.chars, Chars, w, c)
    + ColumnText(cfg.maxLineLength, MaxLineLength, w, c)
  }

  /** The same text, one column after another. */
  function FieldsText(cols: seq<Column>, w: ColumnWidths, c: FileCounts): seq<Byte> {
    if cols == [] then []
    else Field(CountOf(c, cols[0]), WidthOf(w, cols[0])) + FieldsText(cols[1..], w, c)
  }

  lemma FieldsTextAppend(a: seq<Column>, b: seq<Column>, w: ColumnWidths, c: FileCounts)
    ensures FieldsText(a + b, w, c) == FieldsText(a, w, c) + FieldsText(b, w, c)
  {
    if a == [] {
      assert a + b == b;
    } else {
      assert (a + b)[1..] == a[1..] + b;
    }
  }

  lemma ColumnTextIsFieldsText(on: bool, col: Column, w: ColumnWidths, c: FileCounts)
    ensures ColumnText(on, col, w, c) == FieldsText(if on then [col] else [], w, c)
  {
    if on {
      assert [col][1..] == [];
    }
  }

  lemma CountsTextIsFieldsText(cfg: CountsConfig, w: ColumnWidths, c: FileCounts)
    ensures CountsText(cfg, w, c) == FieldsText(Columns(cfg), w, c)
  {
    var l := if cfg.lines then [Lines] else [];
    var wd := if cfg.words then [Words] else [];
    var b := if cfg.bytes then [Bytes] else [];
    var ch := if cfg.chars then [Chars] else [];
    var m := if cfg.maxLineLength then [MaxLineLength] else [];
    ColumnTextIsFieldsText(cfg.lines, Lines, w, c);
    ColumnTextIsFieldsText(cfg.words, Words, w, c);
    ColumnTextIsFieldsText(cfg.bytes, Bytes, w, c);
    ColumnTextIsFieldsText(cfg.chars, Chars, w, c);
    ColumnTextIsFieldsText(cfg.maxLineLength, MaxLineLength, w, c);
    FieldsTextAppend(l, wd, w, c);
    FieldsTextAppend(l + wd, b, w, c);
    FieldsTextAppend(l + wd + b, ch, w, c);
    FieldsTextAppend(l + wd + b + ch, m, w, c);
  }

  // ---------------------------------------------------------------- reading a row back

  /** The length of the run of non-space bytes at the front of `s`. */
  function RunLength(s: seq<Byte>): (n: nat)
    ensures n <= |s|
  {
    if s == [] || s[0] == SPACE then 0 else 1 + RunLength(s[1..])
  }

  /** The space-separated tokens of `s`, as a reader of the output sees them. */
  function Tokens(s: seq<Byte>): seq<seq<Byte>>
    decreases |s|
  {
    if s == [] then []
    else if s[0] == SPACE then Tokens(s[1..])
    else [s[..RunLength(s)]] + Tokens(s[RunLength(s)..])
  }

  lemma {:induction false} RunLengthOfWord(d: seq<Byte>, rest: seq<Byte>)
    requires forall i :: 0 <= i < |d| ==> d[i] != SPACE
    requires rest == [] || rest[0] == SPACE
    ensures RunLength(d + rest) == |d|
  {
    if d == [] {
      assert d + rest == rest;
    } else {
      assert (d + rest)[0] == d[0];
      assert (d + rest)[1..] == d[1..] + rest;
      RunLengthOfWord(d[1..], rest);
    }
  }

  lemma {:induction false} TokensSkipSpaces(k: nat, rest: seq<Byte>)
    ensures Tokens(Spaces(k) + rest) == Tokens(rest)
  {
    if k > 0 {
      assert (Spaces(k) + rest)[0] == SPACE;
      assert (Spaces(k) + rest)[1..] == Spaces(k - 1) + rest;
      TokensSkipSpaces(k - 1, rest);
    } else {
      assert Spaces(k) + rest == rest;
    }
  }

  /** A field that fits its column is a space run and one token. */
  lemma FieldTokens(n: nat, wd: nat, rest: seq<Byte>)
    requires NumDigits(n) < wd
    requires rest == [] || rest[0] == SPACE
    ensures Tokens(Field(n, wd) + rest) == [Decimal(n)] + Tokens(rest)
    ensures Field(n, wd)[0] == SPACE
  {
    var d := Decimal(n);
    DecimalDigits(n);
    assert Field(n, wd) == Spaces(wd - |d|) + d;
    assert Field(n, wd) + rest == Spaces(wd - |d|) + (d + rest);
    TokensSkipSpaces(wd - |d|, d + rest);
    RunLengthOfWord(d, rest);
    assert (d + rest)[0] == d[0];
    assert (d + rest)[..|d|] == d;
    assert (d + rest)[|d|..] == rest;
  }

  /** Every column of `cols` leaves room for its count. */
  predicate FitsColumns(cols: seq<Column>, w: ColumnWidths, c: FileCounts) {
    forall i :: 0 <= i < |cols| ==> NumDigits(CountOf(c, cols[i])) < WidthOf(w, cols[i])
  }

  lemma FitsAllColumns(cols: seq<Column>, w: ColumnWidths, c: FileCounts)
    requires Fits(w, c)
    ensures FitsColumns(cols, w, c)
  {
    forall i | 0 <= i < |cols|
      ensures NumDigits(CountOf(c, cols[i])) < WidthOf(w, cols[i])
    {
      match cols[i]
      case Lines =>
      case Words =>
      case Bytes =>
      case Chars =>
      case MaxLineLength =>
    }
  }

  lemma {:induction false} FieldsTextTokens(cols: seq<Column>, w: ColumnWidths, c: FileCounts)
    requires FitsColumns(cols, w, c)
    ensures Tokens(FieldsText(cols, w, c)) == seq(|cols|, i requires 0 <= i < |cols| => Decimal(CountOf(c, cols[i])))
    ensures FieldsText(cols, w, c) == [] || FieldsText(cols, w, c)[0] == SPACE
  {
    if cols != [] {
      var rest := FieldsText(cols[1..], w, c);
      assert FitsColumns(cols[1..], w, c) by {
        forall i | 0 <= i < |cols[1..]|
          ensures NumDigits(CountOf(c, cols[1..][i])) < WidthOf(w, cols[1..][i])
        {
          assert cols[1..][i] == cols[i + 1];
        }
      }
      FieldsTextTokens(cols[1..], w, c);
      assert NumDigits(CountOf(c, cols[0])) < WidthOf(w, cols[0]);
      FieldTokens(CountOf(c, cols[0]), WidthOf(w, cols[0]), rest);
    }
  }

  /** The numbers a reader takes from a row. */
  function ReadRow(s: seq<Byte>): seq<nat> {
    var ts := Tokens(s);
    seq(|ts|, i requires 0 <= i < |ts| => DecimalValue(ts[i]))
  }

  lemma {:induction false} ValuesAt(cols: seq<Column>, c: FileCounts, i: nat)
    requires i < |cols|
    ensures Values(cols, c)[i] == CountOf(c, cols[i])
  {
    if i > 0 {
      ValuesAt(cols[1..], c, i - 1);
    }
  }

  /** When the widths leave room for every count, the row reads back as
      exactly the shown counts, in column order: no two numbers run into
      each other. */
  lemma RowReadsBack(cfg: CountsConfig, w: ColumnWidths, c: FileCounts)
    requires Fits(w, c)
    ensures ReadRow(CountsText(cfg, w, c)) == Values(Columns(cfg), c)
  {
    var cols := Columns(cfg);
    CountsTextIsFieldsText(cfg, w, c);
    FitsAllColumns(cols, w, c);
    FieldsTextTokens(cols, w, c);
    var vs := Values(cols, c);
    var r := ReadRow(CountsText(cfg, w, c));
    assert |r| == |vs|;
    forall i | 0 <= i < |vs|
      ensures r[i] == vs[i]
    {
      DecimalRoundTrip(CountOf(c, cols[i]));
      ValuesAt(cols, c, i);
    }
  }

  /** The total width of the shown columns. */
  function RowWidth(cols: seq<Column>, w: ColumnWidths): nat {
    if cols == [] then 0 else WidthOf(w, cols[0]) + RowWidth(cols[1..], w)
  }

  /** Rows printed with widths that fit them all have the same length: the
      columns line up. */
  lemma {:induction false} RowsAlign(cols: seq<Column>, w: ColumnWidths, c: FileCounts)
    requires FitsColumns(cols, w, c)
    ensures |FieldsText(cols, w, c)| == RowWidth(cols, w)
  {
    if cols != [] {
      assert FitsColumns(cols[1..], w, c) by {
        forall i | 0 <= i < |cols[1..]|
          ensures NumDigits(CountOf(c, cols[1..][i])) < WidthOf(w, cols[1..][i])
        {
          assert cols[1..][i] == cols[i + 1];
        }
      }
      RowsAlign(cols[1..], w, c);
    }
  }

  lemma CountsTextLength(cfg: CountsConfig, w: ColumnWidths, c: FileCounts)
    requires Fits(w, c)
    ensures |CountsText(cfg, w, c)| == RowWidth(Columns(cfg), w)
  {
    CountsTextIsFieldsText(cfg, w, c);
    FitsAllColumns(Columns(cfg), w, c);
    RowsAlign(Columns(cfg), w, c);
  }

  /** The unit test of `print_counts`: default columns and widths render the
      counts (1, 1, 6, 2, 1) as " 1 1 6". */
  lemma PrintCountsExample()
    ensures CountsText(DefaultConfig(), DefaultWidths(), FileCounts(1, 1, 6, 2, 1))
         == [SPACE, 0x31, SPACE, 0x31, SPACE, 0x36]
  {
    assert Field(1, 2) == [SPACE, 0x31];
    assert Field(6, 2) == [SPACE, 0x36];
  }

  // ---------------------------------------------------------------- labels

  /** What a result row is labelled with. */
  datatype CountsName = File(path: seq<Byte>) | StdIn | Blank | Total

  /** `impl Display for CountsName`. */
  function NameText(n: CountsName): (t: seq<Byte>)
    ensures n != Blank <==> t != [] && t[0] == SPACE
  {
    match n
    case File(path) => [SPACE] + path
    case StdIn => [SPACE, DASH]
    case Blank => []
    case Total => [SPACE, 0x74, 0x6F, 0x74, 0x61, 0x6C]
  }

  /** What `print_result` writes: the counts, the label, a line feed. */
  function ResultText(cfg: CountsConfig, w: ColumnWidths, n: CountsName, c: FileCounts): seq<Byte> {
    CountsText(cfg, w, c) + NameText(n) + [NEWLINE]
  }

  // ---------------------------------------------------------------- printing

  lemma AppendAssociates(a: seq<Byte>, b: seq<Byte>, c: seq<Byte>)
    ensures a + (b + c) == a + b + c
  {
  }

  /** A `fmt::Write` sink: everything written so far. */
  class Writer {
    var text: seq<Byte>

    constructor ()
      ensures text == []
    {
      text := [];
    }

    method Write(s: seq<Byte>)
      modifies this
      ensures text == old(text) + s
    {
      text := text + s;
    }
  }

  /** `Printer`: the columns to show and their widths. */
  class Printer {
    var widths: ColumnWidths
    var display: CountsConfig

    constructor (display: CountsConfig, widths: ColumnWidths)
      ensures this.display == display && this.widths == widths
    {
      this.display := display;
      this.widths := widths;
    }

    /** `print_counts`. */
    method PrintCounts(writer: Writer, counts: FileCounts)
      modifies writer
      ensures writer.text == old(writer.text) + CountsText(display, widths, counts)
    {
      ghost var before := writer.text;
      ghost var l := ColumnText(display.lines, Lines, widths, counts);
      ghost var w := ColumnText(display.words, Words, widths, counts);
      ghost var b := ColumnText(display.bytes, Bytes, widths, counts);
      ghost var c := ColumnText(display.chars, Chars, widths, counts);
      ghost var m := ColumnText(display.maxLineLength, MaxLineLength, widths, counts);
      PrintColumn(writer, display.lines, Lines, counts);
      assert writer.text == before + l;
      PrintColumn(writer, display.words, Words, counts);
      assert writer.text == before + l + w;
      PrintColumn(writer, display.bytes, Bytes, counts);
      assert writer.text == before + l + w + b;
      PrintColumn(writer, display.chars, Chars, counts);
      assert writer.text == before + l + w + b + c;
      PrintColumn(writer, display.maxLineLength, MaxLineLength, counts);
      assert writer.text == before + l + w + b + c + m;
      assert CountsText(display, widths, counts) == l + w + b + c + m;
      AppendAssociates(before, l + w + b + c, m);
      AppendAssociates(before, l + w + b, c);
      AppendAssociates(before, l + w, b);
      AppendAssociates(before, l, w);
    }

    /** One `if self.display.<column> { write!(..) }` block of `print_counts`. */
    method PrintColumn(writer: Writer, on: bool, col: Column, counts: FileCounts)
      modifies writer
      ensures writer.text == old(writer.text) + ColumnText(on, col, widths, counts)
    {
      if on {
        writer.Write(Field(CountOf(counts, col), WidthOf(widths, col)));
      } else {
        assert old(writer.text) + [] == writer.text;
      }
    }

    /** `print_file`. */
    method PrintFile(writer: Writer, file: CountsName)
      modifies writer
      ensures writer.text == old(writer.text) + NameText(file)
    {
      writer.Write(NameText(file));
    }

    /** `print_result`. */
    method PrintResult(writer: Writer, file: CountsName, fileCount: FileCounts)
      modifies writer
      ensures writer.text == old(writer.text) + ResultText(display, widths, file, fileCount)
    {
      ghost var before := writer.text;
      ghost var counts := CountsText(display, widths, fileCount);
      ghost var name := NameText(file);
      PrintCounts(writer, fileCount);
      PrintFile(writer, file);
      writer.Write([NEWLINE]);
      assert writer.text == before + counts + name + [NEWLINE];
      AppendAssociates(before, counts + name, [NEWLINE]);
      AppendAssociates(before, counts, name);
    }
  }
}
