/** The character classes of Unicode 16 that Python's string methods go by. */
module Characters {
  import opened Options

  datatype Range = Range(first: int, last: int)

  /** One of the first `n` ranges of the table contains the code point. */
  predicate InRanges(code: int, table: seq<Range>, n: nat)
    requires n <= |table|
  {
    n > 0 && (table[n - 1].first <= code <= table[n - 1].last || InRanges(code, table, n - 1))
  }

  /** `isspace`, and what `strip` removes. */
  predicate IsSpace(c: char) {
    var code := c as int;
    || 0x0009 <= code <= 0x000D || 0x001C <= code <= 0x0020 || code == 0x0085 || code == 0x00A0 || code == 0x1680
    || 0x2000 <= code <= 0x200A || 0x2028 <= code <= 0x2029 || code == 0x202F || code == 0x205F || code == 0x3000
  }

  /** Superscripts, subscripts, circled digits and the like: digits to `isdigit`, but not to `int`. */
  const OTHER_DIGITS := [
    Range(0x00B2, 0x00B3), Range(0x00B9, 0x00B9), Range(0x1369, 0x1371), Range(0x19DA, 0x19DA),
    Range(0x2070, 0x2070), Range(0x2074, 0x2079), Range(0x2080, 0x2089), Range(0x2460, 0x2468),
    Range(0x2474, 0x247C), Range(0x2488, 0x2490), Range(0x24EA, 0x24EA), Range(0x24F5, 0x24FD),
    Range(0x24FF, 0x24FF), Range(0x2776, 0x277E), Range(0x2780, 0x2788), Range(0x278A, 0x2792),
    Range(0x10A40, 0x10A43), Range(0x10E60, 0x10E68), Range(0x11052, 0x1105A), Range(0x1F100, 0x1F10A)
  ]

  predicate IsOtherDigit(c: char) { InRanges(c as int, OTHER_DIGITS, |OTHER_DIGITS|) }

  const LOW_ZEROS := [
    0x0030, 0x0660, 0x06F0, 0x07C0, 0x0966, 0x09E6, 0x0A66, 0x0AE6, 0x0B66, 0x0BE6, 0x0C66, 0x0CE6, 0x0D66,
    0x0DE6, 0x0E50, 0x0ED0, 0x0F20, 0x1040, 0x1090, 0x17E0, 0x1810, 0x1946, 0x19D0, 0x1A80, 0x1A90, 0x1B50,
    0x1BB0, 0x1C40, 0x1C50
  ]

  const MIDDLE_ZEROS := [
    0xA620, 0xA8D0, 0xA900, 0xA9D0, 0xA9F0, 0xAA50, 0xABF0, 0xFF10, 0x104A0, 0x10D30, 0x10D40, 0x11066, 0x110F0,
    0x11136, 0x111D0, 0x112F0, 0x11450, 0x114D0, 0x11650, 0x116C0, 0x116D0, 0x116DA, 0x11730, 0x118E0
  ]

  const HIGH_ZEROS := [
    0x11950, 0x11BF0, 0x11C50, 0x11D50, 0x11DA0, 0x11F50, 0x16130, 0x16A60, 0x16AC0, 0x16B50, 0x16D70, 0x1CCF0,
    0x1D7CE, 0x1D7D8, 0x1D7E2, 0x1D7EC, 0x1D7F6, 0x1E140, 0x1E2F0, 0x1E4F0, 0x1E5F1, 0x1E950, 0x1FBF0
  ]

  /** The decimal digits: ten from each of these zeros. */
  const DECIMAL_ZEROS := LOW_ZEROS + MIDDLE_ZEROS + HIGH_ZEROS

  /** The value of a decimal digit of one of the first `n` tens. */
  function DecimalFrom(code: int, n: nat): (d: Option<nat>)
    requires n <= |DECIMAL_ZEROS|
    ensures d.Some? ==> d.value < 10
  {
    if n == 0 then None
    else if 0 <= code - DECIMAL_ZEROS[n - 1] < 10 then Some(code - DECIMAL_ZEROS[n - 1])
    else DecimalFrom(code, n - 1)
  }

  /** The value that `int` gives a decimal digit. */
  function Decimal(c: char): Option<nat> { DecimalFrom(c as int, |DECIMAL_ZEROS|) }

  predicate IsDecimal(c: char) { Decimal(c).Some? }

  lemma {:induction false} AsciiFrom(code: int, n: nat)
    requires 0 < n <= |DECIMAL_ZEROS| && 0x0030 <= code <= 0x0039
    ensures DecimalFrom(code, n) == Some(code - 0x0030)
  {
    AsciiOrBeyond(n - 1);
    if n > 1 { AsciiFrom(code, n - 1); }
  }

  lemma AsciiOrBeyond(i: nat)
    requires i < |DECIMAL_ZEROS|
    ensures DECIMAL_ZEROS[i] == 0x0030 || 0x0039 < DECIMAL_ZEROS[i]
  {
    DecimalsPlain(i);
  }

  lemma AsciiDecimal(c: char)
    requires '0' <= c <= '9'
    ensures Decimal(c) == Some(c as int - '0' as int)
  {
    AsciiFrom(c as int, |DECIMAL_ZEROS|);
  }

  /** Neither space nor separator nor a letter that upper-casing changes into an ASCII one. */
  predicate Plain(c: char) {
    !IsSpace(c) && !('A' <= c <= 'Z') && !('a' <= c <= 'z') && c != '\U{0131}' && c != '-' && c != '#'
  }

  /** `isdigit`. */
  predicate IsDigitChar(c: char): (r: bool)
    ensures r ==> Plain(c)
  {
    DigitIsPlain(c);
    IsDecimal(c) || IsOtherDigit(c)
  }

  /** The range lies between the characters that are not plain. */
  predicate PlainRange(r: Range) {
    || (0x0030 <= r.first && r.last <= 0x0039) || (0x00A0 < r.first && r.last < 0x0131)
    || (0x0131 < r.first && r.last < 0x1680) || (0x1680 < r.first && r.last < 0x2000)
    || (0x205F < r.first && r.last < 0x3000) || 0x3000 < r.first
  }

  lemma {:induction false} InOneRange(code: int, table: seq<Range>, n: nat) returns (i: nat)
    requires n <= |table| && InRanges(code, table, n)
    ensures i < n && table[i].first <= code <= table[i].last
  {
    if table[n - 1].first <= code <= table[n - 1].last { i := n - 1; } else { i := InOneRange(code, table, n - 1); }
  }

  lemma {:induction false} InTen(code: int, n: nat) returns (i: nat)
    requires n <= |DECIMAL_ZEROS| && DecimalFrom(code, n).Some?
    ensures i < n && 0 <= code - DECIMAL_ZEROS[i] < 10
  {
    if 0 <= code - DECIMAL_ZEROS[n - 1] < 10 { i := n - 1; } else { i := InTen(code, n - 1); }
  }

  lemma OtherDigitsPlain(i: nat)
    requires i < |OTHER_DIGITS|
    ensures PlainRange(OTHER_DIGITS[i])
  {
  }

  lemma LowPlain(i: nat)
    requires i < |LOW_ZEROS|
    ensures PlainRange(Range(LOW_ZEROS[i], LOW_ZEROS[i] + 9))
  {
  }

  lemma MiddlePlain(i: nat)
    requires i < |MIDDLE_ZEROS|
    ensures PlainRange(Range(MIDDLE_ZEROS[i], MIDDLE_ZEROS[i] + 9))
  {
  }

  lemma HighPlain(i: nat)
    requires i < |HIGH_ZEROS|
    ensures PlainRange(Range(HIGH_ZEROS[i], HIGH_ZEROS[i] + 9))
  {
  }

  lemma DecimalsPlain(i: nat)
    requires i < |DECIMAL_ZEROS|
    ensures PlainRange(Range(DECIMAL_ZEROS[i], DECIMAL_ZEROS[i] + 9))
  {
    if i < |LOW_ZEROS| {
      LowPlain(i);
    } else if i < |LOW_ZEROS| + |MIDDLE_ZEROS| {
      MiddlePlain(i - |LOW_ZEROS|);
    } else {
      HighPlain(i - |LOW_ZEROS| - |MIDDLE_ZEROS|);
    }
  }

  lemma DigitIsPlain(c: char)
    ensures IsDecimal(c) || IsOtherDigit(c) ==> Plain(c)
  {
    if IsDecimal(c) {
      var i := InTen(c as int, |DECIMAL_ZEROS|);
      DecimalsPlain(i);
    } else if IsOtherDigit(c) {
      var i := InOneRange(c as int, OTHER_DIGITS, |OTHER_DIGITS|);
      OtherDigitsPlain(i);
    }
  }

  lemma LowApart(i: nat, j: nat)
    requires i < |OTHER_DIGITS| && j < |LOW_ZEROS|
    ensures LOW_ZEROS[j] + 9 < OTHER_DIGITS[i].first || OTHER_DIGITS[i].last < LOW_ZEROS[j]
  {
  }

  lemma MiddleApart(i: nat, j: nat)
    requires i < |OTHER_DIGITS| && j < |MIDDLE_ZEROS|
    ensures MIDDLE_ZEROS[j] + 9 < OTHER_DIGITS[i].first || OTHER_DIGITS[i].last < MIDDLE_ZEROS[j]
  {
  }

  lemma HighApart(i: nat, j: nat)
    requires i < |OTHER_DIGITS| && j < |HIGH_ZEROS|
    ensures HIGH_ZEROS[j] + 9 < OTHER_DIGITS[i].first || OTHER_DIGITS[i].last < HIGH_ZEROS[j]
  {
  }

  /** No other digit is a decimal one. */
  lemma OtherDigitsApart(c: char)
    requires IsOtherDigit(c)
    ensures !IsDecimal(c)
  {
    var i := InOneRange(c as int, OTHER_DIGITS, |OTHER_DIGITS|);
    if IsDecimal(c) {
      var j := InTen(c as int, |DECIMAL_ZEROS|);
      if j < |LOW_ZEROS| {
        LowApart(i, j);
      } else if j < |LOW_ZEROS| + |MIDDLE_ZEROS| {
        MiddleApart(i, j - |LOW_ZEROS|);
      } else {
        HighApart(i, j - |LOW_ZEROS| - |MIDDLE_ZEROS|);
      }
    }
  }
}
