/**
 * The amount keypad (components/NumericKeypad.tsx): a `display` string edited
 * key by key, evaluated to cents on every change and on completion. Haptics,
 * sounds and the completion animation are not modelled; `onChange` and
 * `onComplete` become the values the methods return.
 */
module Keypad {
  import opened Wrappers
  import opened Decimal
  import opened Format
  import opened Expression

  /** The keys wired to `handlePress`: 0-9, "00", ".", the four operators and AC. */
  datatype Key = Digit(d: nat) | DoubleZero | Point | Operator(c: char) | AllClear

  predicate ValidKey(k: Key) {
    match k
    case Digit(d) => d < 10
    case Operator(c) => IsOperatorChar(c)
    case _ => true
  }

  /** The text a key appends to the display. */
  function KeyText(k: Key): (t: string)
    requires ValidKey(k) && k != AllClear
    ensures 1 <= |t| <= 2 && AllInAlphabet(t)
    ensures k.Operator? <==> IsOperatorChar(t[0])
    ensures |t| == 1 || k == DoubleZero
  {
    match k
    case Digit(d) => [DigitChar(d)]
    case DoubleZero => "00"
    case Point => "."
    case Operator(c) => [c]
  }

  predicate HasOperator(s: string) { exists i :: 0 <= i < |s| && IsOperatorChar(s[i]) }

  predicate HasPoint(s: string) { exists i :: 0 <= i < |s| && s[i] == '.' }

  predicate EndsWithOperator(s: string) { |s| > 0 && IsOperatorChar(s[|s| - 1]) }

  /**
   * What the keypad can show: characters of the evaluator's alphabet, and
   * never two operators in a row (an operator typed after an operator
   * replaces it).
   */
  predicate WellFormed(s: string) {
    && AllInAlphabet(s)
    && forall i :: 0 <= i < |s| - 1 ==> !(IsOperatorChar(s[i]) && IsOperatorChar(s[i + 1]))
  }

  /** The basic point guard: a point is dropped when the display has a point and no operator. */
  predicate PointIgnored(display: string, k: Key) {
    k == Point && HasPoint(display) && !HasOperator(display)
  }

  /** The display after a key press and the value passed to `onChange`, if any. */
  datatype Pressed = Pressed(display: string, reported: Option<int>)

  /** `handlePress(key)` on the current display. */
  function Press(display: string, k: Key): (r: Pressed)
    requires ValidKey(k)
    ensures r.reported.Some? ==> r.reported.value == Evaluate(r.display)
    ensures r.reported.None? <==> k.Operator? || PointIgnored(display, k)
    ensures k == AllClear ==> r.display == [] && r.reported == Some(0)
    ensures k.Operator? && EndsWithOperator(display) ==>
              |r.display| == |display| && r.display[..|display| - 1] == display[..|display| - 1]
              && r.display[|display| - 1] == k.c
    ensures PointIgnored(display, k) ==> r.display == display
    ensures k != AllClear && !(k.Operator? && EndsWithOperator(display)) && !PointIgnored(display, k) ==>
              r.display == display + KeyText(k)
  {
    if k == AllClear then Pressed([], Some(0))
    else if k.Operator? && EndsWithOperator(display) then
      Pressed(display[..|display| - 1] + [k.c], None)
    else if PointIgnored(display, k) then Pressed(display, None)
    else
      var next := display + KeyText(k);
      Pressed(next, if k.Operator? then None else Some(Evaluate(next)))
  }

  /** `handleDelete()`: drop the last character (nothing to drop on "") and report the new value. */
  function Backspace(display: string): (r: Pressed)
    ensures r.reported == Some(Evaluate(r.display))
    ensures display == [] ==> r.display == []
    ensures display != [] ==> r.display + [display[|display| - 1]] == display
  {
    Pressed(if display == [] then [] else display[..|display| - 1], Some(Evaluate(if display == [] then [] else display[..|display| - 1])))
  }

  /** `initialValue !== 0 ? (initialValue / 100).toString() : ''`. */
  function InitialDisplay(initialValue: int): (s: string)
    ensures s == [] <==> initialValue == 0
  {
    if initialValue == 0 then [] else CentsToNumberString(initialValue)
  }

  /** The main line shows `display || '0'`. */
  function Shown(display: string): (s: string)
    ensures s != []
    ensures display != [] ==> s == display
  {
    if display == [] then "0" else display
  }

  /** The line above it shows `= <centsToDecimal(evaluate(display))>` while the display holds an operator. */
  function Preview(display: string): (s: string)
    ensures s == [] <==> !HasOperator(display)
    ensures HasOperator(display) ==> |s| > 2 && s[..2] == "= " && Evaluate(s[2..]) == Evaluate(display)
  {
    if HasOperator(display) then
      var d := CentsToDecimal(Evaluate(display));
      DecimalRoundTrip(Evaluate(display));
      assert ("= " + d)[2..] == d;
      "= " + d
    else []
  }

  // ---------------------------------------------------------------- round trips

  /** Reading `centsToDecimal(c)` back as an expression gives exactly c. */
  lemma DecimalRoundTrip(cents: int)
    ensures Evaluate(CentsToDecimal(cents)) == cents
  {
    var m := Abs(cents);
    FixedTwoValue(m);
    EvaluateCentsLiteral(FixedTwo(m), m);
    if cents < 0 {
      assert CentsToDecimal(cents) == "-" + FixedTwo(m);
    } else {
      assert CentsToDecimal(cents) == FixedTwo(m);
    }
  }

  /** Reading `(c / 100).toString()` back as an expression gives exactly c. */
  lemma NumberStringRoundTrip(cents: int)
    ensures Evaluate(CentsToNumberString(cents)) == cents
  {
    var m := Abs(cents);
    NumberDigitsValue(m);
    EvaluateCentsLiteral(NumberDigits(m), m);
    if cents < 0 {
      assert CentsToNumberString(cents) == "-" + NumberDigits(m);
    } else {
      assert CentsToNumberString(cents) == NumberDigits(m);
    }
  }

  /** Opening the keypad on an amount and completing at once hands back that amount. */
  lemma InitialDisplayRoundTrip(initialValue: int)
    ensures Evaluate(InitialDisplay(initialValue)) == initialValue
  {
    if initialValue != 0 {
      NumberStringRoundTrip(initialValue);
    }
  }

  // ---------------------------------------------------------------- display invariant

  lemma InitialDisplayWellFormed(initialValue: int)
    ensures WellFormed(InitialDisplay(initialValue))
  {
    if initialValue != 0 {
      var m := Abs(initialValue);
      var n := NumberDigits(m);
      var s := InitialDisplay(initialValue);
      assert s == (if initialValue < 0 then "-" else "") + n;
      forall i | 0 <= i < |s| ensures InAlphabet(s[i]) && (i > 0 ==> IsNumberChar(s[i])) {
        if initialValue < 0 && i > 0 { assert s[i] == n[i - 1]; }
        else if initialValue >= 0 { assert s[i] == n[i]; }
      }
    }
  }

  lemma {:induction false} PressKeepsWellFormed(display: string, k: Key)
    requires WellFormed(display) && ValidKey(k)
    ensures WellFormed(Press(display, k).display)
  {
    var r := Press(display, k).display;
    if k == AllClear || PointIgnored(display, k) {
    } else if k.Operator? && EndsWithOperator(display) {
      forall i | 0 <= i < |r| ensures InAlphabet(r[i]) {
        if i < |display| - 1 { assert r[i] == display[i]; }
      }
      forall i | 0 <= i < |r| - 1 ensures !(IsOperatorChar(r[i]) && IsOperatorChar(r[i + 1])) {
        assert r[i] == display[i];
        if i + 1 < |display| - 1 { assert r[i + 1] == display[i + 1]; }
        else { assert i == |display| - 2; assert IsOperatorChar(display[i + 1]); }
      }
    } else {
      var t := KeyText(k);
      assert r == display + t;
      forall i | 0 <= i < |r| ensures InAlphabet(r[i]) {
        if i < |display| { assert r[i] == display[i]; } else { assert r[i] == t[i - |display|]; }
      }
      forall i | 0 <= i < |r| - 1 ensures !(IsOperatorChar(r[i]) && IsOperatorChar(r[i + 1])) {
        if i + 1 < |display| {
          assert r[i] == display[i] && r[i + 1] == display[i + 1];
        } else if i + 1 == |display| {
          assert r[i] == display[|display| - 1] && r[i + 1] == t[0];
        } else {
          assert k == DoubleZero;
          assert r[i] == t[0] && r[i + 1] == t[1];
        }
      }
    }
  }

  lemma BackspaceKeepsWellFormed(display: string)
    requires WellFormed(display)
    ensures WellFormed(Backspace(display).display)
  {
    var r := Backspace(display).display;
    forall i | 0 <= i < |r| ensures r[i] == display[i] { }
  }

  /**
   * The display never holds a pair of characters JavaScript would read as
   * `++`, `--`, a comment opener, `**` or anything but two operators, so every
   * display the keypad can reach is read by the evaluator exactly as typed.
   */
  lemma WellFormedHasNoForbiddenPair(display: string, i: nat)
    requires WellFormed(display) && i + 1 < |display|
    ensures !ForbiddenPair(display[i], display[i + 1])
    ensures !(display[i] == '*' && display[i + 1] == '*')
  {
  }

  // ---------------------------------------------------------------- key sequences

  /** Deleting right after a one-character key that was appended restores the display. */
  lemma BackspaceUndoesPress(display: string, k: Key)
    requires ValidKey(k) && k != AllClear && k != DoubleZero
    requires !(k.Operator? && EndsWithOperator(display)) && !PointIgnored(display, k)
    ensures Backspace(Press(display, k).display).display == display
    ensures Backspace(Press(display, k).display).reported == Some(Evaluate(display))
  {
    var r := Press(display, k).display;
    assert r == display + KeyText(k);
    assert r[..|r| - 1] == display;
  }

  /** "00" takes two deletes to undo. */
  lemma BackspaceTwiceUndoesDoubleZero(display: string)
    ensures Backspace(Backspace(Press(display, DoubleZero).display).display).display == display
  {
    var r := Press(display, DoubleZero).display;
    assert r == display + "00";
    assert r[..|r| - 1] == display + "0";
    assert (display + "0")[..|display|] == display;
  }

  /**
   * The point guard looks at the whole display, not at the number being
   * typed: once any operator is present a second point in the same number
   * is accepted (and the expression then evaluates to 0), while without one
   * a point anywhere blocks another.
   */
  lemma PointGuardIsWholeDisplay()
    ensures Press("1.5", Point).display == "1.5"
    ensures Press("1+2.5", Point).display == "1+2.5."
  {
    assert "1.5"[1] == '.';
    assert forall i :: 0 <= i < |"1.5"| ==> !IsOperatorChar("1.5"[i]);
    assert "1+2.5"[1] == '+';
    assert "1+2.5" + "." == "1+2.5.";
  }

  // ---------------------------------------------------------------- the component

  /** The keypad's state: its `display`. */
  class Keypad {
    var display: string

    ghost predicate Valid()
      reads this
    {
      WellFormed(display)
    }

    /** Mount with `initialValue`: `useState` of the initial display. */
    constructor(initialValue: int)
      ensures display == InitialDisplay(initialValue) && Valid()
    {
      display := InitialDisplay(initialValue);
      InitialDisplayWellFormed(initialValue);
    }

    /** The effect on `initialValue` (lines 19-21): reload the display when the parent re-keys the amount. */
    method Reload(initialValue: int)
      modifies this
      ensures display == InitialDisplay(initialValue) && Valid()
    {
      display := InitialDisplay(initialValue);
      InitialDisplayWellFormed(initialValue);
    }

    /** `handlePress(key)`: returns the value passed to `onChange`, if any. */
    method HandlePress(k: Key) returns (reported: Option<int>)
      requires Valid() && ValidKey(k)
      modifies this
      ensures Valid()
      ensures display == Press(old(display), k).display
      ensures reported == Press(old(display), k).reported
    {
      PressKeepsWellFormed(display, k);
      if k == AllClear {
        display := [];
        return Some(0);
      }
      var isOperator := k.Operator?;
      var isLastOperator := EndsWithOperator(display);
      if isOperator && isLastOperator {
        display := display[..|display| - 1] + [k.c];
        return None;
      }
      if k == Point && HasPoint(display) && !HasOperator(display) {
        return None;
      }
      var newDisplay := display + KeyText(k);
      display := newDisplay;
      if !isOperator {
        reported := Some(Evaluate(newDisplay));
      } else {
        reported := None;
      }
    }

    /** `handleDelete()`: returns the value passed to `onChange`. */
    method HandleDelete() returns (reported: Option<int>)
      requires Valid()
      modifies this
      ensures Valid()
      ensures display == Backspace(old(display)).display
      ensures reported == Backspace(old(display)).reported
    {
      BackspaceKeepsWellFormed(display);
      var newDisplay := if display == [] then [] else display[..|display| - 1];
      display := newDisplay;
      reported := Some(Evaluate(newDisplay));
    }

    /** `handleComplete()`: the cents handed to `onComplete`; the display is left as it is. */
    method HandleComplete() returns (cents: int)
      ensures cents == Evaluate(display)
    {
      cents := Evaluate(display);
    }
  }
}
