/** Decimal numerals: printing a natural number and reading one back. */
module Digits {

  predicate IsDigit(c: char) { '0' <= c <= '9' }

  predicate IsNumeral(s: string) { s != [] && forall c <- s :: IsDigit(c) }

  function Digit(d: nat): (c: char)
    requires d < 10
    ensures IsDigit(c) && DigitValue(c) == d
  {
    '0' + d as char
  }

  function DigitValue(c: char): nat
    requires IsDigit(c)
  {
    c as nat - '0' as nat
  }

  /** `str(n)`. */
  function Print(n: nat): string {
    if n < 10 then [Digit(n)] else Print(n / 10) + [Digit(n % 10)]
  }

  /** `int(s)` on ASCII digits, leading zeros included. */
  function Read(s: string): nat
    requires forall c <- s :: IsDigit(c)
  {
    if s == [] then 0 else 10 * Read(s[..|s| - 1]) + DigitValue(s[|s| - 1])
  }

  lemma {:induction false} PrintIsNumeral(n: nat)
    ensures IsNumeral(Print(n))
  {
    if n >= 10 { PrintIsNumeral(n / 10); }
  }

  lemma {:induction false} ReadPrint(n: nat)
    ensures IsNumeral(Print(n)) && Read(Print(n)) == n
  {
    PrintIsNumeral(n);
    if n >= 10 {
      ReadPrint(n / 10);
      assert Print(n)[..|Print(n)| - 1] == Print(n / 10);
    }
  }

  lemma PrintInjective(m: nat, n: nat)
    requires Print(m) == Print(n)
    ensures m == n
  {
    ReadPrint(m);
    ReadPrint(n);
  }

  function Zeros(k: nat): (s: string)
    ensures |s| == k && forall c <- s :: c == '0'
  {
    seq(k, i => '0')
  }

  lemma {:induction false} ReadIgnoresLeadingZeros(k: nat, s: string)
    requires forall c <- s :: IsDigit(c)
    ensures Read(Zeros(k) + s) == Read(s)
    decreases |s|, k
  {
    if s != [] {
      var t := s[..|s| - 1];
      assert (Zeros(k) + s)[..|Zeros(k) + s| - 1] == Zeros(k) + t;
      ReadIgnoresLeadingZeros(k, t);
    } else if k > 0 {
      assert Zeros(k) + s == Zeros(k) && Zeros(k)[..k - 1] == Zeros(k - 1) == Zeros(k - 1) + s;
      ReadIgnoresLeadingZeros(k - 1, s);
    }
  }

  function Pow10(k: nat): nat { if k == 0 then 1 else 10 * Pow10(k - 1) }

  /** A number has at most `k` digits exactly when it is below the power of ten. */
  lemma {:induction false} PrintLength(n: nat, k: nat)
    requires k > 0
    ensures |Print(n)| <= k <==> n < Pow10(k)
    decreases k
  {
    if n < 10 {
      PowAtLeastTen(k);
    } else if k > 1 {
      PrintLength(n / 10, k - 1);
    } else {
      assert Pow10(1) == 10;
      assert |Print(n / 10)| > 0;
    }
  }

  lemma {:induction false} PowAtLeastTen(k: nat)
    requires k > 0
    ensures Pow10(k) >= 10
  {
    if k > 1 { PowAtLeastTen(k - 1); }
  }
}
