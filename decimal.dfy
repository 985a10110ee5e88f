/**
 * Decimal digit strings: the reading of a JavaScript numeric literal made of
 * digits and at most one point, and the writing of a natural number in decimal.
 * Shared by the amount evaluator (reading) and the formatters (writing).
 */
module Decimal {

  predicate IsDigit(c: char) { '0' <= c <= '9' }

  /** Characters that a numeric literal of the keypad alphabet is made of. */
  predicate IsNumberChar(c: char) { IsDigit(c) || c == '.' }

  predicate AllDigits(s: string) { forall i :: 0 <= i < |s| ==> IsDigit(s[i]) }

  predicate AllNumberChars(s: string) { forall i :: 0 <= i < |s| ==> IsNumberChar(s[i]) }

  function DigitValue(c: char): (d: nat)
    requires IsDigit(c)
    ensures d < 10
  {
    c as int - '0' as int
  }

  function DigitChar(d: nat): (c: char)
    requires d < 10
    ensures IsDigit(c) && DigitValue(c) == d
  {
    ('0' as int + d) as char
  }

  function Pow10(k: nat): (p: nat)
    ensures p >= 1
  {
    if k == 0 then 1 else 10 * Pow10(k - 1)
  }

  /** The value of a string of decimal digits, most significant first ("" reads as 0). */
  function DigitsValue(s: string): nat
    requires AllDigits(s)
  {
    if s == [] then 0 else 10 * DigitsValue(s[..|s| - 1]) + DigitValue(s[|s| - 1])
  }

  /** The decimal writing of `n`: never empty, and without a leading zero unless it is "0". */
  function NatToDigits(n: nat): (s: string)
    ensures AllDigits(s) && |s| >= 1
    ensures |s| > 1 ==> s[0] != '0'
    ensures n < 10 <==> |s| == 1
  {
    if n < 10 then [DigitChar(n)] else NatToDigits(n / 10) + [DigitChar(n % 10)]
  }

  lemma {:induction false} NatToDigitsValue(n: nat)
    ensures DigitsValue(NatToDigits(n)) == n
  {
    if n >= 10 {
      var s := NatToDigits(n);
      assert s[..|s| - 1] == NatToDigits(n / 10);
      NatToDigitsValue(n / 10);
    }
  }

  /** Position of the first '.' in `s`, or |s| when there is none. */
  function DotIndex(s: string): (k: nat)
    ensures k <= |s|
    ensures k < |s| ==> s[k] == '.'
  {
    if s == [] then 0 else if s[0] == '.' then 0 else 1 + DotIndex(s[1..])
  }

  /** No point comes before `DotIndex(s)`. */
  lemma {:induction false} DotIndexFirst(s: string)
    ensures forall i :: 0 <= i < DotIndex(s) ==> s[i] != '.'
  {
    if s != [] && s[0] != '.' {
      DotIndexFirst(s[1..]);
      forall i | 1 <= i < DotIndex(s) ensures s[i] != '.' { assert s[i] == s[1..][i - 1]; }
    }
  }

  /**
   * A run of digits and points is ONE numeric literal in JavaScript strict mode
   * exactly when it has at most one point and at least one digit, and its
   * integer part is not a legacy octal or non-octal decimal literal (a `0`
   * followed by more digits, as in "00" or "012", which strict mode rejects).
   * A second point starts a second literal ("1.2.3" is "1.2" then ".3"), and two
   * literals in a row are a syntax error.
   */
  predicate ValidLiteral(s: string) {
    && AllNumberChars(s)
    && |s| >= 1
    && (forall i :: DotIndex(s) < i < |s| ==> s[i] != '.')
    && (exists i :: 0 <= i < |s| && IsDigit(s[i]))
    && !(DotIndex(s) >= 2 && s[0] == '0')
  }

  /** The integer part of a literal: the digits before the point. */
  function IntPart(s: string): (p: string)
    requires ValidLiteral(s)
    ensures AllDigits(p)
  {
    DotIndexFirst(s);
    s[..DotIndex(s)]
  }

  /** The fraction part of a literal: the digits after the point ("" when there is no point). */
  function FracPart(s: string): (f: string)
    requires ValidLiteral(s)
    ensures AllDigits(f)
  {
    if DotIndex(s) == |s| then [] else s[DotIndex(s) + 1..]
  }

  /** The exact (rational) value a numeric literal denotes. */
  function LiteralValue(s: string): (v: real)
    requires ValidLiteral(s)
    ensures v >= 0.0
  {
    DigitsValue(IntPart(s)) as real + DigitsValue(FracPart(s)) as real / Pow10(|FracPart(s)|) as real
  }

  /** The literal `q.f` where `f` is a digit string: reads back as q + f / 10^|f|. */
  lemma LiteralOfParts(q: nat, f: string)
    requires AllDigits(f)
    ensures ValidLiteral(NatToDigits(q) + "." + f)
    ensures LiteralValue(NatToDigits(q) + "." + f)
            == q as real + DigitsValue(f) as real / Pow10(|f|) as real
  {
    PointLiteralValue(NatToDigits(q), f);
    NatToDigitsValue(q);
  }

  /** `d.f` for digit strings d (without a leading zero) and f reads back as d + f / 10^|f|. */
  lemma PointLiteralValue(d: string, f: string)
    requires AllDigits(d) && AllDigits(f) && |d| >= 1
    requires |d| > 1 ==> d[0] != '0'
    ensures ValidLiteral(d + "." + f)
    ensures LiteralValue(d + "." + f) == DigitsValue(d) as real + DigitsValue(f) as real / Pow10(|f|) as real
  {
    PointLiteralParts(d, f);
  }

  lemma PointLiteralParts(d: string, f: string)
    requires AllDigits(d) && AllDigits(f) && |d| >= 1
    requires |d| > 1 ==> d[0] != '0'
    ensures ValidLiteral(d + "." + f)
    ensures IntPart(d + "." + f) == d && FracPart(d + "." + f) == f
  {
    var s := d + "." + f;
    PointLiteralShape(d, f);
    assert s[..|d|] == d;
    assert s[|d| + 1..] == f;
  }

  lemma PointLiteralShape(d: string, f: string)
    requires AllDigits(d) && AllDigits(f) && |d| >= 1
    requires |d| > 1 ==> d[0] != '0'
    ensures DotIndex(d + "." + f) == |d|
    ensures ValidLiteral(d + "." + f)
  {
    var s := d + "." + f;
    DotIndexAfterDigits(d, "." + f);
    assert s == d + ("." + f);
    assert DotIndex("." + f) == 0;
    PointLiteralChars(d, f);
    assert s[0] == d[0] && IsDigit(s[0]);
  }

  lemma PointLiteralChars(d: string, f: string)
    requires AllDigits(d) && AllDigits(f)
    ensures AllNumberChars(d + "." + f)
    ensures forall i :: |d| < i < |d + "." + f| ==> (d + "." + f)[i] != '.'
  {
    var s := d + "." + f;
    forall i | 0 <= i < |s| ensures IsNumberChar(s[i]) {
      if i < |d| { assert s[i] == d[i]; } else if i > |d| { assert s[i] == f[i - |d| - 1]; }
    }
    forall i | |d| < i < |s| ensures s[i] != '.' { assert s[i] == f[i - |d| - 1]; }
  }

  /** A bare integer literal `q`: reads back as q. */
  lemma LiteralOfNat(q: nat)
    ensures ValidLiteral(NatToDigits(q))
    ensures LiteralValue(NatToDigits(q)) == q as real
  {
    DigitsLiteral(NatToDigits(q));
    NatToDigitsValue(q);
  }

  /** A digit string without a leading zero is a literal worth its digits. */
  lemma DigitsLiteral(d: string)
    requires AllDigits(d) && |d| >= 1
    requires |d| > 1 ==> d[0] != '0'
    ensures ValidLiteral(d)
    ensures LiteralValue(d) == DigitsValue(d) as real
  {
    DigitsValid(d);
    assert IntPart(d) == d;
    assert FracPart(d) == [];
    assert DigitsValue([]) == 0 && Pow10(0) == 1;
  }

  lemma DigitsValid(d: string)
    requires AllDigits(d) && |d| >= 1
    requires |d| > 1 ==> d[0] != '0'
    ensures DotIndex(d) == |d|
    ensures ValidLiteral(d)
  {
    DotIndexAfterDigits(d, []);
    assert d + [] == d;
    assert IsDigit(d[0]);
  }

  lemma {:induction false} DotIndexAfterDigits(d: string, rest: string)
    requires AllDigits(d)
    ensures DotIndex(d + rest) == |d| + DotIndex(rest)
  {
    if d != [] {
      var s := d + rest;
      assert s[0] == d[0] && IsDigit(d[0]);
      assert s[1..] == d[1..] + rest;
      assert AllDigits(d[1..]) by {
        forall i | 0 <= i < |d[1..]| ensures IsDigit(d[1..][i]) { assert d[1..][i] == d[i + 1]; }
      }
      DotIndexAfterDigits(d[1..], rest);
      assert DotIndex(s) == 1 + DotIndex(s[1..]);
    } else {
      assert d + rest == rest;
    }
  }

  /** The value of a two-digit string. */
  lemma TwoDigitsValue(a: nat, b: nat)
    requires a < 10 && b < 10
    ensures DigitsValue([DigitChar(a), DigitChar(b)]) == 10 * a + b
  {
    var s := [DigitChar(a), DigitChar(b)];
    assert s[..1] == [DigitChar(a)];
    OneDigitValue(a);
    assert DigitsValue(s) == 10 * DigitsValue(s[..1]) + DigitValue(s[1]);
  }

  lemma OneDigitValue(a: nat)
    requires a < 10
    ensures DigitsValue([DigitChar(a)]) == a
  {
    assert [DigitChar(a)][..0] == [];
  }
}
