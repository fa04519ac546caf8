// Decimal digit strings: reading a run of digits (as `float`/`int` do on the
// digit part of a token) and writing a natural number (as `str(int)` does).

module Decimal {

  predicate IsDigit(c: char) {
    '0' <= c <= '9'
  }

  function DigitValue(c: char): nat
    requires IsDigit(c)
  {
    (c as int - '0' as int) as nat
  }

  predicate AllDigits(s: string) {
    forall j :: 0 <= j < |s| ==> IsDigit(s[j])
  }

  /** The number a run of decimal digits denotes (most significant first). */
  function DigitsValue(ds: string): nat
    requires AllDigits(ds)
    decreases |ds|
  {
    if |ds| == 0 then 0 else DigitsValue(ds[..|ds| - 1]) * 10 + DigitValue(ds[|ds| - 1])
  }

  function Pow10(n: nat): (r: nat)
    ensures r > 0
  {
    if n == 0 then 1 else 10 * Pow10(n - 1)
  }

  function DigitChar(d: nat): (c: char)
    requires d < 10
    ensures IsDigit(c) && DigitValue(c) == d
  {
    ('0' as int + d) as char
  }

  /** Python's canonical spelling: no sign, no leading zero except for "0" itself. */
  predicate Canonical(s: string) {
    |s| > 0 && AllDigits(s) && (|s| > 1 ==> s[0] != '0')
  }

  /** `str(n)` for a non-negative integer. */
  function DecimalString(n: nat): (r: string)
    ensures Canonical(r)
    ensures |r| == 1 <==> n < 10
  {
    if n < 10 then [DigitChar(n)] else DecimalString(n / 10) + [DigitChar(n % 10)]
  }

  /** Reading back what `str` wrote gives the number. */
  lemma {:induction false} DecimalRoundTrip(n: nat)
    ensures DigitsValue(DecimalString(n)) == n
    decreases n
  {
    if n >= 10 {
      var p := DecimalString(n / 10);
      var s := p + [DigitChar(n % 10)];
      assert s[..|s| - 1] == p;
      DecimalRoundTrip(n / 10);
    }
  }

  lemma {:induction false} LeadingDigitPositive(s: string)
    requires |s| > 0 && AllDigits(s) && s[0] != '0'
    ensures DigitsValue(s) > 0
    decreases |s|
  {
    if |s| > 1 {
      var p := s[..|s| - 1];
      assert p[0] == s[0];
      LeadingDigitPositive(p);
    }
  }

  /** ... and a canonical digit string is exactly what `str` writes for its value. */
  lemma {:induction false} CanonicalRoundTrip(s: string)
    requires Canonical(s)
    ensures DecimalString(DigitsValue(s)) == s
    decreases |s|
  {
    if |s| > 1 {
      var p := s[..|s| - 1];
      var c := s[|s| - 1];
      assert p[0] == s[0];
      LeadingDigitPositive(p);
      CanonicalRoundTrip(p);
      var n := DigitsValue(s);
      assert n / 10 == DigitsValue(p) && n % 10 == DigitValue(c);
      assert DigitChar(DigitValue(c)) == c;
      assert s == p + [c];
    }
  }
}
