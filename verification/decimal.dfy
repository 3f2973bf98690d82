/** Decimal text of a non-negative integer identifier below 2^53, as
    JavaScript's `Number.prototype.toString()` renders it (larger numbers,
    from 1e21 on, switch to exponent notation, which is not modelled), and
    the value of a digit string.
    The faculty selector's option values are rendered this way and compared
    as strings against the value the selector reports back. */
module Decimal {

  predicate IsDigit(c: char)
  {
    '0' <= c <= '9'
  }

  predicate AllDigits(s: string)
  {
    forall i :: 0 <= i < |s| ==> IsDigit(s[i])
  }

  /** The strings `toString` can produce for a non-negative integer: at least
      one digit, and no leading zero unless the number is zero itself. */
  predicate Canonical(s: string)
  {
    |s| >= 1 && AllDigits(s) && (|s| > 1 ==> s[0] != '0')
  }

  function DigitChar(d: nat): (c: char)
    requires d < 10
    ensures IsDigit(c)
  {
    ('0' as int + d) as char
  }

  function DigitValue(c: char): (d: nat)
    requires IsDigit(c)
    ensures d < 10
    ensures DigitChar(d) == c
  {
    c as int - '0' as int
  }

  /** The decimal rendering of `n`, as `toString` gives it for ids below
      2^53: canonical, and starting with `'0'` only when it is the rendering
      of zero. */
  function NatToDecimal(n: nat): (s: string)
    ensures Canonical(s)
    ensures s[0] == '0' <==> n == 0
    ensures n < 10 <==> |s| == 1
  {
    if n < 10 then [DigitChar(n)]
    else NatToDecimal(n / 10) + [DigitChar(n % 10)]
  }

  /** The number a string of decimal digits denotes (most significant first). */
  function DecimalValue(s: string): nat
    requires AllDigits(s)
  {
    if s == [] then 0
    else 10 * DecimalValue(s[..|s| - 1]) + DigitValue(s[|s| - 1])
  }

  /** Reading back the rendering of `n` yields `n`. */
  lemma {:induction false} DecimalRoundTrip(n: nat)
    ensures DecimalValue(NatToDecimal(n)) == n
  {
    var s := NatToDecimal(n);
    if n >= 10 {
      assert s[..|s| - 1] == NatToDecimal(n / 10);
      DecimalRoundTrip(n / 10);
    }
  }

  /** A digit string that does not start with `'0'` denotes a positive number. */
  lemma {:induction false} LeadingNonZeroPositive(s: string)
    requires |s| >= 1 && AllDigits(s) && s[0] != '0'
    ensures DecimalValue(s) >= 1
  {
    if |s| > 1 {
      var p := s[..|s| - 1];
      assert p[0] == s[0];
      LeadingNonZeroPositive(p);
    }
  }

  /** Rendering the value of a canonical string gives the string back. */
  lemma {:induction false} CanonicalRoundTrip(s: string)
    requires Canonical(s)
    ensures NatToDecimal(DecimalValue(s)) == s
  {
    var last := s[|s| - 1];
    if |s| == 1 {
      assert DecimalValue(s) == DigitValue(last);
      assert s == [last];
    } else {
      var p := s[..|s| - 1];
      assert p[0] == s[0];
      assert Canonical(p);
      LeadingNonZeroPositive(p);
      CanonicalRoundTrip(p);
      var v := DecimalValue(s);
      assert v == 10 * DecimalValue(p) + DigitValue(last);
      assert v / 10 == DecimalValue(p) && v % 10 == DigitValue(last);
      assert s == p + [last];
    }
  }

  /** Distinct identifiers have distinct renderings, so comparing renderings
      compares identifiers. */
  lemma {:induction false} DecimalInjective(a: nat, b: nat)
    ensures NatToDecimal(a) == NatToDecimal(b) <==> a == b
  {
    if NatToDecimal(a) == NatToDecimal(b) {
      DecimalRoundTrip(a);
      DecimalRoundTrip(b);
    }
  }

  /** A string is the rendering of `n` exactly when it is canonical and
      denotes `n`. */
  lemma {:induction false} DecimalCharacterisation(s: string, n: nat)
    ensures NatToDecimal(n) == s <==> Canonical(s) && DecimalValue(s) == n
  {
    if NatToDecimal(n) == s {
      DecimalRoundTrip(n);
    }
    if Canonical(s) && DecimalValue(s) == n {
      CanonicalRoundTrip(s);
    }
  }
}
