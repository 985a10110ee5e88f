/**
 * Writing amounts held in integer cents as decimal text: `centsToDecimal`
 * (utils/format.ts) and JavaScript's `Number#toString` applied to cents / 100,
 * which the keypad uses for its initial display and the dashboard search for
 * amounts. Both are exact for integer cents, so they are written out here on
 * integers rather than through floating point.
 */
module Format {
  import opened Decimal

  function Abs(x: int): (a: nat)
    ensures a == x || a == -x
  {
    if x < 0 then -x else x
  }

  /** The digits of |cents| / 100 with exactly two fraction digits, e.g. 1250 -> "12.50". */
  function FixedTwo(m: nat): (s: string)
    ensures |s| >= 4 && s[|s| - 3] == '.' && IsDigit(s[|s| - 2]) && IsDigit(s[|s| - 1])
    ensures forall i :: 0 <= i < |s| && s[i] == '.' ==> i == |s| - 3
    ensures IsDigit(s[0])
  {
    var d := NatToDigits(m / 100);
    var r := m % 100;
    var s := d + "." + [DigitChar(r / 10), DigitChar(r % 10)];
    assert forall i :: 0 <= i < |d| ==> s[i] == d[i];
    s
  }

  /**
   * `centsToDecimal`: `(cents / 100).toFixed(2)`. `toFixed` writes a '-' only
   * for a value below zero, so 0 gives "0.00".
   */
  function CentsToDecimal(cents: int): (s: string)
    ensures |s| >= 4 && s[|s| - 3] == '.' && IsDigit(s[|s| - 2]) && IsDigit(s[|s| - 1])
    ensures forall i :: 0 <= i < |s| && s[i] == '.' ==> i == |s| - 3
    ensures s[0] == '-' <==> cents < 0
    ensures forall i :: 0 < i < |s| ==> s[i] != '-'
  {
    (if cents < 0 then "-" else "") + FixedTwo(Abs(cents))
  }

  /** The documented example: 1250 cents is "12.50". */
  lemma CentsToDecimalExample()
    ensures CentsToDecimal(1250) == "12.50"
  {
    assert NatToDigits(12) == NatToDigits(1) + [DigitChar(2)];
  }

  /** The unsigned part of `centsToDecimal` is one numeric literal whose value is exactly m / 100. */
  lemma FixedTwoValue(m: nat)
    ensures ValidLiteral(FixedTwo(m))
    ensures LiteralValue(FixedTwo(m)) == m as real / 100.0
  {
    var r := m % 100;
    LiteralOfParts(m / 100, [DigitChar(r / 10), DigitChar(r % 10)]);
    TwoDigitFraction(r);
    HundredthsSplit(m);
  }

  /** Two fraction digits written for r hundredths read back as r / 100. */
  lemma TwoDigitFraction(r: nat)
    requires r < 100
    ensures DigitsValue([DigitChar(r / 10), DigitChar(r % 10)]) as real / Pow10(2) as real == r as real / 100.0
  {
    TwoDigitsValue(r / 10, r % 10);
    assert Pow10(2) == 100;
  }

  /** One fraction digit written for a multiple of ten hundredths reads back as r / 100. */
  lemma OneDigitFraction(r: nat)
    requires r < 100 && r % 10 == 0
    ensures DigitsValue([DigitChar(r / 10)]) as real / Pow10(1) as real == r as real / 100.0
  {
    OneDigitValue(r / 10);
    assert Pow10(1) == 10;
    assert r == 10 * (r / 10);
  }

  /** m / 100 as a real is its whole hundreds plus its remaining hundredths. */
  lemma HundredthsSplit(m: nat)
    ensures m as real / 100.0 == (m / 100) as real + (m % 100) as real / 100.0
  {
    var q, r := m / 100, m % 100;
    assert m == 100 * q + r;
    assert m as real == 100.0 * q as real + r as real;
  }

  /** The fraction written by `Number#toString` for r hundredths: none, one digit or two (no trailing zero). */
  function Hundredths(r: nat): (f: string)
    requires r < 100
    ensures AllDigits(f) && |f| <= 2
    ensures |f| > 0 ==> f[|f| - 1] != '0'
    ensures r == 0 <==> f == []
  {
    if r == 0 then []
    else if r % 10 == 0 then [DigitChar(r / 10)]
    else [DigitChar(r / 10), DigitChar(r % 10)]
  }

  /** `(m / 100).toString()` for m >= 0: the shortest decimal writing. */
  function NumberDigits(m: nat): (s: string)
    ensures AllNumberChars(s) && |s| >= 1 && IsDigit(s[0]) && IsDigit(s[|s| - 1])
  {
    var d := NatToDigits(m / 100);
    var f := Hundredths(m % 100);
    var s := if f == [] then d else d + "." + f;
    assert forall i :: 0 <= i < |d| ==> s[i] == d[i];
    assert forall i :: |d| < i < |s| ==> s[i] == f[i - |d| - 1];
    s
  }

  /**
   * `(cents / 100).toString()`: the shortest decimal, with '-' for negative
   * amounts; it ends in a digit, and when it has a point that digit is not 0.
   */
  function CentsToNumberString(cents: int): (s: string)
    ensures |s| >= 1
    ensures s[0] == '-' <==> cents < 0
    ensures IsDigit(s[|s| - 1])
    ensures (exists i :: 0 <= i < |s| && s[i] == '.') ==> s[|s| - 1] != '0'
  {
    var n := NumberDigits(Abs(cents));
    NumberDigitsShape(Abs(cents));
    (if cents < 0 then "-" else "") + n
  }

  lemma NumberDigitsShape(m: nat)
    ensures (exists i :: 0 <= i < |NumberDigits(m)| && NumberDigits(m)[i] == '.') ==> Hundredths(m % 100) != []
    ensures Hundredths(m % 100) != [] ==> NumberDigits(m)[|NumberDigits(m)| - 1] == Hundredths(m % 100)[|Hundredths(m % 100)| - 1]
  {
  }

  /** `Number#toString` of m / 100 is one numeric literal whose value is exactly m / 100. */
  lemma NumberDigitsValue(m: nat)
    ensures ValidLiteral(NumberDigits(m))
    ensures LiteralValue(NumberDigits(m)) == m as real / 100.0
  {
    var r := m % 100;
    if r == 0 {
      LiteralOfNat(m / 100);
      assert m as real / 100.0 == (m / 100) as real;
    } else {
      LiteralOfParts(m / 100, Hundredths(r));
      if r % 10 == 0 {
        OneDigitFraction(r);
      } else {
        TwoDigitFraction(r);
      }
      HundredthsSplit(m);
    }
  }


  lemma CentsToNumberStringExamples()
    ensures CentsToNumberString(1250) == "12.5"
    ensures CentsToNumberString(1200) == "12"
    ensures CentsToNumberString(-5) == "-0.05"
  {
    assert NatToDigits(12) == NatToDigits(1) + [DigitChar(2)];
  }
}
