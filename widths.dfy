/** Decimal digit counts and the column widths derived from them
    (`digits` and `ColumnWidths` in mwc/src/main.rs). */
module Widths {
  import opened Counts

  function Pow10(d: nat): (p: nat)
    ensures p >= 1
  {
    if d == 0 then 1 else 10 * Pow10(d - 1)
  }

  /** The number of decimal digits of `n`; zero is written with one digit. */
  function NumDigits(n: nat): (d: nat)
    ensures d >= 1
  {
    if n < 10 then 1 else 1 + NumDigits(n / 10)
  }

  /** `NumDigits(n)` is the one `d` with 10^(d-1) <= n < 10^d (for n > 0). */
  lemma {:induction false} NumDigitsBounds(n: nat)
    ensures n < Pow10(NumDigits(n))
    ensures n > 0 ==> Pow10(NumDigits(n) - 1) <= n
  {
    if n >= 10 {
      NumDigitsBounds(n / 10);
    }
  }

  lemma {:induction false} NumDigitsUnique(n: nat, d: nat)
    requires d >= 1 && n < Pow10(d)
    requires d == 1 || Pow10(d - 1) <= n
    ensures NumDigits(n) == d
  {
    if d > 1 {
      assert Pow10(d - 1) >= 10 by { Pow10Grows(d - 1); }
      NumDigitsUnique(n / 10, d - 1);
    } else {
      assert Pow10(1) == 10;
    }
  }

  lemma {:induction false} Pow10Grows(d: nat)
    requires d >= 1
    ensures Pow10(d) >= 10
  {
    if d > 1 {
      Pow10Grows(d - 1);
    }
  }

  /** A larger number never has fewer digits. */
  lemma {:induction false} NumDigitsMonotone(m: nat, n: nat)
    requires m <= n
    ensures NumDigits(m) <= NumDigits(n)
  {
    if m >= 10 {
      NumDigitsMonotone(m / 10, n / 10);
    }
  }

  /** `digits`: divide by ten until nothing is left, counting the steps. */
  method Digits(n: nat) returns (digs: nat)
    ensures digs == NumDigits(n)
    ensures n < Pow10(digs) && (n > 0 ==> Pow10(digs - 1) <= n)
  {
    NumDigitsBounds(n);
    if n == 0 {
      return 1;
    }
    digs := 0;
    var m: nat := n;
    while m > 0
      invariant m == 0 ==> digs == NumDigits(n)
      invariant m > 0 ==> digs + NumDigits(m) == NumDigits(n)
      decreases m
    {
      m := m / 10;
      digs := digs + 1;
    }
  }

  /** The unit tests of `digits`. */
  lemma DigitsExamples()
    ensures NumDigits(0) == 1 && NumDigits(9) == 1 && NumDigits(10) == 2
    ensures NumDigits(99) == 2 && NumDigits(100) == 3 && NumDigits(101) == 3
  {
  }

  /** The width of each of the five columns. */
  datatype ColumnWidths = ColumnWidths(lines: nat, words: nat, bytes: nat, chars: nat, maxLineLength: nat)
  {
    /** `ColumnWidths::max`: the wider of the two, column by column. */
    function Max(other: ColumnWidths): (r: ColumnWidths)
      ensures r.AtLeast(this) && r.AtLeast(other)
      ensures this.AtLeast(other) ==> r == this
    {
      ColumnWidths(Counts.Max(lines, other.lines), Counts.Max(words, other.words),
                   Counts.Max(bytes, other.bytes), Counts.Max(chars, other.chars),
                   Counts.Max(maxLineLength, other.maxLineLength))
    }

    /** Every column at least as wide as in `other`. */
    predicate AtLeast(other: ColumnWidths) {
      && lines >= other.lines && words >= other.words && bytes >= other.bytes
      && chars >= other.chars && maxLineLength >= other.maxLineLength
    }
  }

  /** `ColumnWidths::default()`: two characters per column. */
  function DefaultWidths(): (r: ColumnWidths)
    ensures r == FromCounts(Zero())
    ensures forall c :: FromCounts(c).AtLeast(r)
  {
    ColumnWidths(2, 2, 2, 2, 2)
  }

  /** The width one count asks for: its digits and one separating space, and
      never less than two. */
  function WidthFor(v: nat): nat {
    Counts.Max(2, NumDigits(v) + 1)
  }

  /** `ColumnWidths::from(&FileCounts)`. */
  function FromCounts(c: FileCounts): (r: ColumnWidths)
    ensures Fits(r, c)
    ensures r.lines == NumDigits(c.lines) + 1 && r.words == NumDigits(c.words) + 1
    ensures r.bytes == NumDigits(c.bytes) + 1 && r.chars == NumDigits(c.chars) + 1
    ensures r.maxLineLength == NumDigits(c.maxLineLength) + 1
  {
    ColumnWidths(WidthFor(c.lines), WidthFor(c.words), WidthFor(c.bytes), WidthFor(c.chars),
                 WidthFor(c.maxLineLength))
  }

  /** The `2.max(..)` never decides anything: every count has at least one
      digit, so its width is exactly its digits plus one. */
  lemma {:induction false} WidthForIsDigitsPlusOne(v: nat)
    ensures WidthFor(v) == NumDigits(v) + 1
    ensures WidthFor(v) >= 2
  {
  }

  /** `Max` is the column-wise least upper bound: commutative, associative,
      idempotent, and above both arguments. */
  lemma MaxCommutes(a: ColumnWidths, b: ColumnWidths)
    ensures a.Max(b) == b.Max(a)
  {
  }

  lemma MaxAssociates(a: ColumnWidths, b: ColumnWidths, c: ColumnWidths)
    ensures a.Max(b).Max(c) == a.Max(b.Max(c))
  {
  }

  lemma MaxIdempotent(a: ColumnWidths)
    ensures a.Max(a) == a
  {
  }

  lemma MaxIsLeastUpperBound(a: ColumnWidths, b: ColumnWidths, c: ColumnWidths)
    ensures a.Max(b).AtLeast(a) && a.Max(b).AtLeast(b)
    ensures c.AtLeast(a) && c.AtLeast(b) ==> c.AtLeast(a.Max(b))
  {
  }

  /** Widths of `w` leave room for each count of `c`, with at least one
      space in front of every number. */
  predicate Fits(w: ColumnWidths, c: FileCounts) {
    && NumDigits(c.lines) < w.lines && NumDigits(c.words) < w.words
    && NumDigits(c.bytes) < w.bytes && NumDigits(c.chars) < w.chars
    && NumDigits(c.maxLineLength) < w.maxLineLength
  }

  /** The widths derived from counts are the narrowest that fit them. */
  lemma FromCountsFits(c: FileCounts, w: ColumnWidths)
    ensures Fits(FromCounts(c), c)
    ensures Fits(w, c) <==> w.AtLeast(FromCounts(c))
  {
  }

  /** Widening never loses a fit. */
  lemma FitsWidened(w: ColumnWidths, v: ColumnWidths, c: FileCounts)
    requires Fits(w, c) && v.AtLeast(w)
    ensures Fits(v, c)
  {
  }

  /** Larger counts ask for columns at least as wide. */
  lemma FromCountsMonotone(c: FileCounts, d: FileCounts)
    requires c.lines <= d.lines && c.words <= d.words && c.bytes <= d.bytes
    requires c.chars <= d.chars && c.maxLineLength <= d.maxLineLength
    ensures FromCounts(d).AtLeast(FromCounts(c))
  {
    NumDigitsMonotone(c.lines, d.lines);
    NumDigitsMonotone(c.words, d.words);
    NumDigitsMonotone(c.bytes, d.bytes);
    NumDigitsMonotone(c.chars, d.chars);
    NumDigitsMonotone(c.maxLineLength, d.maxLineLength);
  }
}
