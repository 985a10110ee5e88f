/**
 * The keypad's amount evaluator (`evaluate`, components/NumericKeypad.tsx).
 * The source strips every character outside `0-9 + - * / .` and hands the
 * rest to JavaScript (`'use strict'; return (<expr>)`). Here that is a real
 * lexer, a precedence parser and an exact evaluator over `real`, following the
 * JavaScript grammar restricted to this alphabet:
 *   - a numeric literal is a run of digits and points; see Decimal.ValidLiteral
 *     for when strict mode accepts one ("5.", ".5" yes; "00", "012", "." no);
 *   - `+` and `-` are also unary prefix operators, in any operand position;
 *   - "++" and "--" are update operators, which cannot apply to a literal;
 *   - "//" starts a line comment that swallows the closing parenthesis;
 *   - `/` where an operand is expected starts a regular-expression literal,
 *     which can never evaluate to a finite number;
 *   - `*` and `/` bind tighter than `+` and `-`; all are left-associative.
 * Every one of these errors makes the source return 0, and so does a
 * non-finite result (a division by zero).
 */
module Expression {
  import opened Wrappers
  import opened Decimal

  predicate IsOperatorChar(c: char) { c == '+' || c == '-' || c == '*' || c == '/' }

  predicate InAlphabet(c: char) { IsNumberChar(c) || IsOperatorChar(c) }

  predicate AllInAlphabet(s: string) { forall i :: 0 <= i < |s| ==> InAlphabet(s[i]) }

  /** `expr.replace(/[^0-9+\-*\/.]/g, '')`: keep the alphabet characters, in order. */
  function Sanitize(s: string): (r: string)
    ensures AllInAlphabet(r)
    ensures |r| <= |s|
    ensures AllInAlphabet(s) ==> r == s
  {
    if s == [] then []
    else
      var rest := Sanitize(s[1..]);
      assert AllInAlphabet(s) ==> AllInAlphabet(s[1..]) by {
        if AllInAlphabet(s) {
          forall i | 0 <= i < |s[1..]| ensures InAlphabet(s[1..][i]) { assert s[1..][i] == s[i + 1]; }
        }
      }
      if InAlphabet(s[0]) then [s[0]] + rest else rest
  }

  /** One character: kept when it is in the alphabet, deleted otherwise. */
  lemma SanitizeChar(c: char)
    ensures Sanitize([c]) == if InAlphabet(c) then [c] else []
  {
    assert [c][1..] == [];
  }

  lemma {:induction false} SanitizeAppend(p: string, q: string)
    ensures Sanitize(p + q) == Sanitize(p) + Sanitize(q)
  {
    if p == [] {
      assert p + q == q;
    } else {
      assert (p + q)[0] == p[0];
      assert (p + q)[1..] == p[1..] + q;
      SanitizeAppend(p[1..], q);
    }
  }

  // ---------------------------------------------------------------- lexing

  datatype Token = Num(value: real) | Plus | Minus | Times | Slash

  function OperatorToken(c: char): (t: Token)
    requires IsOperatorChar(c)
    ensures !t.Num?
  {
    match c
    case '+' => Plus
    case '-' => Minus
    case '*' => Times
    case _ => Slash
  }

  /**
   * Two adjacent operator characters that JavaScript never reads as two
   * operators: "++" and "--" (update operators), "//" (a line comment) and
   * a slash followed by a star (the start of a block comment).
   */
  predicate ForbiddenPair(a: char, b: char) {
    (a == '+' && b == '+') || (a == '-' && b == '-') || (a == '/' && (b == '/' || b == '*'))
  }

  /** Length of the longest prefix of `s` made of digits and points. */
  function RunLength(s: string): (n: nat)
    ensures n <= |s|
    ensures n < |s| ==> !IsNumberChar(s[n])
    ensures |s| > 0 && IsNumberChar(s[0]) ==> n >= 1
  {
    if s == [] || !IsNumberChar(s[0]) then 0 else 1 + RunLength(s[1..])
  }

  function Prepend(t: Token, r: Option<seq<Token>>): Option<seq<Token>> {
    match r
    case None => None
    case Some(ts) => Some([t] + ts)
  }

  /** Splits a sanitized string into tokens; None is a lexical (syntax) error. */
  function Lex(s: string): Option<seq<Token>>
    decreases |s|
  {
    if s == [] then Some([])
    else if IsOperatorChar(s[0]) then
      if |s| > 1 && ForbiddenPair(s[0], s[1]) then None
      else Prepend(OperatorToken(s[0]), Lex(s[1..]))
    else if IsNumberChar(s[0]) then
      var n := RunLength(s);
      if ValidLiteral(s[..n]) then Prepend(Num(LiteralValue(s[..n])), Lex(s[n..])) else None
    else None
  }

  // ---------------------------------------------------------------- parsing

  datatype BinOp = Add | Sub | Mul | Div

  datatype Expr = Lit(v: real) | Pos(operand: Expr) | Neg(operand: Expr) | Bin(op: BinOp, left: Expr, right: Expr)

  /** A unary operand: any number of prefix signs, then one literal. */
  function ParseUnary(ts: seq<Token>, i: nat): (r: Option<(Expr, nat)>)
    requires i <= |ts|
    ensures r.Some? ==> i < r.value.1 <= |ts| && ts[r.value.1 - 1].Num?
    decreases |ts| - i
  {
    if i == |ts| then None
    else match ts[i]
      case Num(v) => Some((Lit(v), i + 1))
      case Plus => (match ParseUnary(ts, i + 1) case None => None case Some((e, j)) => Some((Pos(e), j)))
      case Minus => (match ParseUnary(ts, i + 1) case None => None case Some((e, j)) => Some((Neg(e), j)))
      case _ => None
  }

  /** `(('*' | '/') unary)*`, folded to the left onto `acc`. */
  function ParseTermRest(ts: seq<Token>, i: nat, acc: Expr): (r: Option<(Expr, nat)>)
    requires i <= |ts|
    ensures r.Some? ==> i <= r.value.1 <= |ts|
    ensures r.Some? ==> r.value.1 == i || ts[r.value.1 - 1].Num?
    decreases |ts| - i
  {
    if i < |ts| && (ts[i] == Times || ts[i] == Slash) then
      match ParseUnary(ts, i + 1)
      case None => None
      case Some((f, j)) => ParseTermRest(ts, j, Bin(if ts[i] == Times then Mul else Div, acc, f))
    else Some((acc, i))
  }

  /** A term: unary operands joined by `*` and `/`. */
  function ParseTerm(ts: seq<Token>, i: nat): (r: Option<(Expr, nat)>)
    requires i <= |ts|
    ensures r.Some? ==> i < r.value.1 <= |ts| && ts[r.value.1 - 1].Num?
  {
    match ParseUnary(ts, i)
    case None => None
    case Some((f, j)) => ParseTermRest(ts, j, f)
  }

  /** `(('+' | '-') term)*`, folded to the left onto `acc`. */
  function ParseExprRest(ts: seq<Token>, i: nat, acc: Expr): (r: Option<(Expr, nat)>)
    requires i <= |ts|
    ensures r.Some? ==> i <= r.value.1 <= |ts|
    ensures r.Some? ==> r.value.1 == i || ts[r.value.1 - 1].Num?
    decreases |ts| - i
  {
    if i < |ts| && (ts[i] == Plus || ts[i] == Minus) then
      match ParseTerm(ts, i + 1)
      case None => None
      case Some((t, j)) => ParseExprRest(ts, j, Bin(if ts[i] == Plus then Add else Sub, acc, t))
    else Some((acc, i))
  }

  /**
   * The whole token list as one expression; None is a syntax error. A parsed
   * expression always ends in a literal, so a trailing operator is an error.
   */
  function Parse(ts: seq<Token>): (r: Option<Expr>)
    ensures r.Some? ==> |ts| > 0 && ts[|ts| - 1].Num?
  {
    match ParseTerm(ts, 0)
    case None => None
    case Some((t, i)) =>
      match ParseExprRest(ts, i, t)
      case None => None
      case Some((e, j)) => if j == |ts| then Some(e) else None
  }

  // ---------------------------------------------------------------- evaluation

  function Apply(op: BinOp, x: real, y: real): Option<real> {
    match op
    case Add => Some(x + y)
    case Sub => Some(x - y)
    case Mul => Some(x * y)
    case Div => if y == 0.0 then None else Some(x / y)
  }

  /**
   * The exact value of an expression, or None when JavaScript's result is not
   * finite. Without parentheses a divisor is always a signed literal, so once
   * a division by zero has produced an infinity or NaN, nothing later in the
   * expression can bring it back to a finite number: None propagates.
   */
  function Eval(e: Expr): Option<real> {
    match e
    case Lit(v) => Some(v)
    case Pos(a) => Eval(a)
    case Neg(a) => (match Eval(a) case None => None case Some(x) => Some(-x))
    case Bin(op, a, b) =>
      match Eval(a)
      case None => None
      case Some(x) => (match Eval(b) case None => None case Some(y) => Apply(op, x, y))
  }

  /** `Math.round(v)`: the nearest integer, halves rounded up. */
  function Round(x: real): (n: int)
    ensures x - 0.5 < n as real <= x + 0.5
  {
    (x + 0.5).Floor
  }

  /** `evaluate(expr)`: the amount in cents, or 0 for an empty, malformed or non-finite expression. */
  function Evaluate(expr: string): int {
    var s := Sanitize(expr);
    if s == [] then 0
    else match Lex(s)
      case None => 0
      case Some(ts) => TokensToCents(ts)
  }

  /** The amount of a lexed expression: 0 on a syntax error or a non-finite value. */
  function TokensToCents(ts: seq<Token>): int {
    match Parse(ts)
    case None => 0
    case Some(e) => ToCents(Eval(e))
  }

  /** `isFinite(result) ? Math.round(result * 100) : 0`. */
  function ToCents(r: Option<real>): int {
    match r
    case None => 0
    case Some(v) => Round(v * 100.0)
  }

  // ---------------------------------------------------------------- lexing lemmas

  lemma {:induction false} RunLengthAppend(p: string, q: string)
    requires RunLength(p) < |p| || q == [] || !IsNumberChar(q[0])
    ensures RunLength(p + q) == RunLength(p)
  {
    if p == [] {
      assert p + q == q;
    } else if IsNumberChar(p[0]) {
      assert (p + q)[0] == p[0];
      assert (p + q)[1..] == p[1..] + q;
      RunLengthAppend(p[1..], q);
    } else {
      assert (p + q)[0] == p[0];
    }
  }

  /** How a literal run at the front of p + q looks when the run ends inside p or at its end. */
  lemma NumberRunOfAppend(p: string, q: string)
    requires p != [] && IsNumberChar(p[0])
    requires q == [] || !(IsNumberChar(p[|p| - 1]) && IsNumberChar(q[0]))
    ensures var n := RunLength(p);
      RunLength(p + q) == n && (p + q)[..n] == p[..n] && (p + q)[n..] == p[n..] + q
    ensures var n := RunLength(p);
      n == |p| || (p[n..] != [] && p[n..][|p[n..]| - 1] == p[|p| - 1])
  {
    var n := RunLength(p);
    if n == |p| {
      assert IsNumberChar(p[n - 1]);
    }
    RunLengthAppend(p, q);
    SlicesOfAppend(p, q, n);
  }

  lemma SlicesOfAppend<T>(p: seq<T>, q: seq<T>, n: nat)
    requires n <= |p|
    ensures (p + q)[..n] == p[..n] && (p + q)[n..] == p[n..] + q
    ensures n < |p| ==> p[n..] != [] && p[n..][|p[n..]| - 1] == p[|p| - 1]
  {
  }

  lemma ConsAppend<T>(t: T, a: seq<T>, b: seq<T>)
    ensures [t] + (a + b) == ([t] + a) + b
  {
  }

  /**
   * Lexing splits at any boundary that does not cut a numeric literal in two:
   * the tokens of p + q are the tokens of p followed by those of q.
   */
  lemma {:induction false} LexSplit(p: string, q: string)
    requires Lex(p + q).Some?
    requires p == [] || q == [] || !(IsNumberChar(p[|p| - 1]) && IsNumberChar(q[0]))
    ensures Lex(p).Some? && Lex(q).Some?
    ensures Lex(p + q).value == Lex(p).value + Lex(q).value
    decreases |p|, 1
  {
    if p == [] {
      assert p + q == q;
    } else if IsOperatorChar(p[0]) {
      LexSplitOperator(p, q);
    } else {
      LexSplitNumber(p, q);
    }
  }

  lemma {:induction false} LexSplitOperator(p: string, q: string)
    requires p != [] && IsOperatorChar(p[0])
    requires Lex(p + q).Some?
    requires q == [] || !(IsNumberChar(p[|p| - 1]) && IsNumberChar(q[0]))
    ensures Lex(p).Some? && Lex(q).Some?
    ensures Lex(p + q).value == Lex(p).value + Lex(q).value
    decreases |p|, 0
  {
    var s := p + q;
    var t := OperatorToken(p[0]);
    assert s[0] == p[0];
    assert s[1..] == p[1..] + q;
    if |p| > 1 { assert s[1] == p[1]; }
    assert Lex(s) == Prepend(t, Lex(p[1..] + q));
    LexSplit(p[1..], q);
    assert Lex(p) == Prepend(t, Lex(p[1..]));
    ConsAppend(t, Lex(p[1..]).value, Lex(q).value);
  }

  lemma {:induction false} LexSplitNumber(p: string, q: string)
    requires p != [] && !IsOperatorChar(p[0])
    requires Lex(p + q).Some?
    requires q == [] || !(IsNumberChar(p[|p| - 1]) && IsNumberChar(q[0]))
    ensures Lex(p).Some? && Lex(q).Some?
    ensures Lex(p + q).value == Lex(p).value + Lex(q).value
    decreases |p|, 0
  {
    var s := p + q;
    assert s[0] == p[0];
    assert IsNumberChar(p[0]);
    var n := RunLength(p);
    NumberRunOfAppend(p, q);
    var lit := p[..n];
    assert ValidLiteral(lit);
    var t := Num(LiteralValue(lit));
    assert Lex(s) == Prepend(t, Lex(p[n..] + q));
    LexSplit(p[n..], q);
    assert Lex(p) == Prepend(t, Lex(p[n..]));
    ConsAppend(t, Lex(p[n..]).value, Lex(q).value);
  }

  /** Contrapositive form: a lexical error in q survives any prefix that ends cleanly. */
  lemma LexErrorAfter(p: string, q: string)
    requires Lex(q) == None
    requires p == [] || q == [] || !(IsNumberChar(p[|p| - 1]) && IsNumberChar(q[0]))
    ensures Lex(p + q) == None
  {
    if Lex(p + q).Some? {
      LexSplit(p, q);
    }
  }

  /** A valid literal followed by anything that does not continue it lexes as that literal's number first. */
  lemma LexLiteral(lit: string, rest: string)
    requires ValidLiteral(lit)
    requires rest == [] || !IsNumberChar(rest[0])
    ensures Lex(lit + rest) == Prepend(Num(LiteralValue(lit)), Lex(rest))
  {
    var s := lit + rest;
    assert RunLength(lit) == |lit| by { RunLengthAll(lit); }
    RunLengthAppend(lit, rest);
    assert s[0] == lit[0];
    assert s[..|lit|] == lit;
    assert s[|lit|..] == rest;
  }

  lemma {:induction false} RunLengthAll(s: string)
    requires AllNumberChars(s)
    ensures RunLength(s) == |s|
  {
    if s != [] {
      assert AllNumberChars(s[1..]) by {
        forall i | 0 <= i < |s[1..]| ensures IsNumberChar(s[1..][i]) { assert s[1..][i] == s[i + 1]; }
      }
      RunLengthAll(s[1..]);
    }
  }

  /** An operator character that does not start a forbidden pair lexes as one operator token. */
  lemma LexOperator(c: char, rest: string)
    requires IsOperatorChar(c)
    requires rest == [] || !ForbiddenPair(c, rest[0])
    ensures Lex([c] + rest) == Prepend(OperatorToken(c), Lex(rest))
  {
    assert ([c] + rest)[1..] == rest;
  }

  /**
   * A maximal run of digits and points that is not one valid strict-mode
   * literal ("00", "012", ".", "1.2.3") makes the whole string a syntax error.
   */
  lemma InvalidLiteralRejected(p: string, lit: string, q: string)
    requires AllNumberChars(lit) && lit != [] && !ValidLiteral(lit)
    requires p == [] || !IsNumberChar(p[|p| - 1])
    requires q == [] || !IsNumberChar(q[0])
    ensures Lex(p + lit + q) == None
  {
    var s := lit + q;
    RunLengthAll(lit);
    RunLengthAppend(lit, q);
    assert s[0] == lit[0];
    assert s[..|lit|] == lit;
    assert Lex(s) == None;
    assert p + lit + q == p + s;
    LexErrorAfter(p, s);
  }

  // ---------------------------------------------------------------- evaluation lemmas

  /** An empty expression, or one with nothing of the alphabet in it, is worth 0. */
  lemma EmptyIsZero(expr: string)
    requires Sanitize(expr) == []
    ensures Evaluate(expr) == 0
  {
  }

  /** An expression whose last character is an operator is a syntax error: it is worth 0. */
  lemma TrailingOperatorIsZero(expr: string)
    requires |expr| > 0 && IsOperatorChar(expr[|expr| - 1])
    ensures Evaluate(expr) == 0
  {
    var c := expr[|expr| - 1];
    assert expr == expr[..|expr| - 1] + [c];
    SanitizeAppend(expr[..|expr| - 1], [c]);
    assert Sanitize([c]) == [c];
    var p := Sanitize(expr[..|expr| - 1]);
    var s := Sanitize(expr);
    assert s == p + [c];
    if Lex(s).Some? {
      LexSplit(p, [c]);
      assert [c] + [] == [c];
      LexOperator(c, []);
      var ts := Lex(s).value;
      assert ts[|ts| - 1] == OperatorToken(c);
      assert Parse(ts) == None;
    }
  }

  /** A lone point is not a literal. */
  lemma LonePointIsZero()
    ensures Evaluate(".") == 0
  {
    assert !ValidLiteral(".");
    InvalidLiteralRejected([], ".", []);
    assert [] + "." + [] == ".";
  }

  /** Strict mode rejects a literal with a leading zero followed by a digit: the amount is 0. */
  lemma LeadingZeroIsZero(p: string, lit: string, q: string)
    requires AllInAlphabet(p) && AllInAlphabet(q)
    requires AllNumberChars(lit) && |lit| >= 2 && lit[0] == '0' && IsDigit(lit[1])
    requires p == [] || !IsNumberChar(p[|p| - 1])
    requires q == [] || !IsNumberChar(q[0])
    ensures Evaluate(p + lit + q) == 0
  {
    assert DotIndex(lit) >= 2 by {
      assert lit[0] != '.' && lit[1] != '.';
      assert DotIndex(lit) == 1 + DotIndex(lit[1..]);
      assert DotIndex(lit[1..]) == 1 + DotIndex(lit[2..]);
    }
    assert !ValidLiteral(lit);
    InvalidLiteralRejected(p, lit, q);
    assert AllInAlphabet(lit) by { forall i | 0 <= i < |lit| ensures InAlphabet(lit[i]) { } }
    AlphabetAppend3(p, lit, q);
  }

  lemma AlphabetAppend3(p: string, m: string, q: string)
    requires AllInAlphabet(p) && AllInAlphabet(m) && AllInAlphabet(q)
    ensures AllInAlphabet(p + m + q)
    ensures Sanitize(p + m + q) == p + m + q
  {
    var s := p + m + q;
    forall i | 0 <= i < |s| ensures InAlphabet(s[i]) {
      if i < |p| { assert s[i] == p[i]; }
      else if i < |p| + |m| { assert s[i] == m[i - |p|]; }
      else { assert s[i] == q[i - |p| - |m|]; }
    }
  }

  // Division by zero: the token-level argument, one parser function at a time.

  /** ts[k] is a `/` whose divisor is the literal 0. */
  predicate SlashZeroAt(ts: seq<Token>, k: nat) {
    k + 1 < |ts| && ts[k] == Slash && ts[k + 1] == Num(0.0)
  }

  /** Once the accumulated term has no finite value, the rest of the term keeps it so. */
  lemma {:induction false} TermRestNone(ts: seq<Token>, i: nat, acc: Expr, e: Expr, n: nat)
    requires i <= |ts| && ParseTermRest(ts, i, acc) == Some((e, n)) && Eval(acc).None?
    ensures Eval(e).None?
    decreases |ts| - i
  {
    if i < |ts| && (ts[i] == Times || ts[i] == Slash) {
      var (f, j) := ParseUnary(ts, i + 1).value;
      TermRestNone(ts, j, Bin(if ts[i] == Times then Mul else Div, acc, f), e, n);
    }
  }

  /** A `/` followed by a zero literal inside the rest of a term leaves the term without a finite value. */
  lemma {:induction false} TermRestDivZero(ts: seq<Token>, i: nat, acc: Expr, k: nat, e: Expr, n: nat)
    requires i <= |ts| && ParseTermRest(ts, i, acc) == Some((e, n))
    requires i <= k && k + 1 < n && SlashZeroAt(ts, k)
    ensures Eval(e).None?
    decreases |ts| - i
  {
    var (f, j) := ParseUnary(ts, i + 1).value;
    var acc' := Bin(if ts[i] == Times then Mul else Div, acc, f);
    if i < k < j - 1 {
      UnarySigns(ts, i + 1, f, j, k);
    }
    if k == i {
      TermRestNone(ts, j, acc', e, n);
    } else {
      TermRestDivZero(ts, j, acc', k, e, n);
    }
  }

  /** Before its literal, a unary operand is made of signs only. */
  lemma {:induction false} UnarySigns(ts: seq<Token>, i: nat, e: Expr, j: nat, k: nat)
    requires i <= |ts| && ParseUnary(ts, i) == Some((e, j)) && i <= k < j - 1
    ensures ts[k] == Plus || ts[k] == Minus
    decreases |ts| - i
  {
    if k > i {
      var (e', j') := ParseUnary(ts, i + 1).value;
      UnarySigns(ts, i + 1, e', j', k);
    }
  }

  lemma TermDivZero(ts: seq<Token>, i: nat, k: nat, e: Expr, n: nat)
    requires i <= |ts| && ParseTerm(ts, i) == Some((e, n))
    requires i <= k && k + 1 < n && SlashZeroAt(ts, k)
    ensures Eval(e).None?
  {
    var (f, j) := ParseUnary(ts, i).value;
    if k < j - 1 {
      UnarySigns(ts, i, f, j, k);
    }
    TermRestDivZero(ts, j, f, k, e, n);
  }

  /** Once the accumulated sum has no finite value, the rest of the expression keeps it so. */
  lemma {:induction false} ExprRestNone(ts: seq<Token>, i: nat, acc: Expr, e: Expr, n: nat)
    requires i <= |ts| && ParseExprRest(ts, i, acc) == Some((e, n)) && Eval(acc).None?
    ensures Eval(e).None?
    decreases |ts| - i
  {
    if i < |ts| && (ts[i] == Plus || ts[i] == Minus) {
      var (t, j) := ParseTerm(ts, i + 1).value;
      ExprRestNone(ts, j, Bin(if ts[i] == Plus then Add else Sub, acc, t), e, n);
    }
  }

  /** A `/` followed by a zero literal inside the rest of an expression leaves it without a finite value. */
  lemma {:induction false} ExprRestDivZero(ts: seq<Token>, i: nat, acc: Expr, k: nat, e: Expr, n: nat)
    requires i <= |ts| && ParseExprRest(ts, i, acc) == Some((e, n))
    requires i <= k && k + 1 < n && SlashZeroAt(ts, k)
    ensures Eval(e).None?
    decreases |ts| - i
  {
    var (t, j) := ParseTerm(ts, i + 1).value;
    var acc' := Bin(if ts[i] == Plus then Add else Sub, acc, t);
    if k + 1 < j {
      TermDivZero(ts, i + 1, k, t, j);
      ExprRestNone(ts, j, acc', e, n);
    } else {
      ExprRestDivZero(ts, j, acc', k, e, n);
    }
  }

  /** A parsed expression with a division by a zero literal anywhere in it has no finite value. */
  lemma ParseDivZero(ts: seq<Token>, k: nat)
    requires Parse(ts).Some? && SlashZeroAt(ts, k)
    ensures Eval(Parse(ts).value).None?
  {
    var (t, i) := ParseTerm(ts, 0).value;
    var (e, n) := ParseExprRest(ts, i, t).value;
    if k + 1 < i {
      TermDivZero(ts, 0, k, t, i);
      ExprRestNone(ts, i, t, e, n);
    } else {
      ExprRestDivZero(ts, i, t, k, e, n);
    }
  }

  lemma SlashZeroAtAppend(tp: seq<Token>, rest: seq<Token>)
    requires |rest| >= 2 && rest[0] == Slash && rest[1] == Num(0.0)
    ensures SlashZeroAt(tp + rest, |tp|)
  {
    assert (tp + rest)[|tp|] == rest[0] && (tp + rest)[|tp| + 1] == rest[1];
  }

  /** "/" then a zero literal lexes as a slash and the number 0. */
  lemma LexSlashZero(zero: string, q: string)
    requires ValidLiteral(zero) && LiteralValue(zero) == 0.0
    requires q == [] || !IsNumberChar(q[0])
    ensures Lex("/" + zero + q) == Prepend(Slash, Prepend(Num(0.0), Lex(q)))
  {
    assert "/" + zero + q == ['/'] + (zero + q);
    assert IsNumberChar(zero[0]) && (zero + q)[0] == zero[0];
    LexOperator('/', zero + q);
    LexLiteral(zero, q);
  }

  /**
   * Any division by a zero literal ("0", "0.", ".0", "0.00", ...) makes the
   * result non-finite: the amount is 0 (e.g. "9/0"). The zero must not be
   * the base of a JavaScript `**` ("1/0**0" is 1), which this model does not
   * read as exponentiation.
   */
  lemma DivisionByZeroIsZero(p: string, zero: string, q: string)
    requires AllInAlphabet(p) && AllInAlphabet(q)
    requires ValidLiteral(zero) && LiteralValue(zero) == 0.0
    requires q == [] || !IsNumberChar(q[0])
    requires !(|q| >= 2 && q[0] == '*' && q[1] == '*')
    ensures Evaluate(p + "/" + zero + q) == 0
  {
    var s2 := "/" + zero + q;
    var s := p + s2;
    assert p + "/" + zero + q == s;
    SlashZeroInAlphabet(p, zero, q);
    if Lex(s).Some? {
      assert s2[0] == '/';
      LexSplit(p, s2);
      LexSlashZero(zero, q);
      var ts := Lex(s).value;
      var rest := Lex(s2).value;
      assert rest == [Slash] + ([Num(0.0)] + Lex(q).value);
      SlashZeroAtAppend(Lex(p).value, rest);
      if Parse(ts).Some? {
        ParseDivZero(ts, |Lex(p).value|);
      }
    }
  }

  lemma SlashZeroInAlphabet(p: string, zero: string, q: string)
    requires AllInAlphabet(p) && AllInAlphabet(q) && ValidLiteral(zero)
    ensures AllInAlphabet(p + ("/" + zero + q))
  {
    var s2 := "/" + zero + q;
    var s := p + s2;
    assert AllInAlphabet(s2) by {
      forall i | 0 <= i < |s2| ensures InAlphabet(s2[i]) {
        if i == 0 { } else if i <= |zero| { assert s2[i] == zero[i - 1]; } else { assert s2[i] == q[i - 1 - |zero|]; }
      }
    }
    forall i | 0 <= i < |s| ensures InAlphabet(s[i]) {
      if i < |p| { assert s[i] == p[i]; } else { assert s[i] == s2[i - |p|]; }
    }
  }

  // ---------------------------------------------------------------- a reference calculator

  /**
   * Signs, then a literal: the literal's value, negated once for every
   * minus sign, and the position after the literal.
   */
  function SignedLiteral(ts: seq<Token>, i: nat): (r: Option<(real, nat)>)
    requires i <= |ts|
    ensures r.Some? ==> i < r.value.1 <= |ts|
    decreases |ts| - i
  {
    if i == |ts| then None
    else match ts[i]
      case Num(v) => Some((v, i + 1))
      case Plus => SignedLiteral(ts, i + 1)
      case Minus => (match SignedLiteral(ts, i + 1) case None => None case Some((v, j)) => Some((-v, j)))
      case _ => None
  }

  /**
   * A calculator with two registers, independent of the parser: `sum` holds
   * the finished terms and `term` the term being built. `+` and `-` add the
   * term to the sum and start a new term from the next signed literal; `*`
   * and `/` fold the next signed literal into the term. A division by zero
   * has no finite value.
   */
  /** Real multiplication, named so that the calculator's unfolding matches it syntactically. */
  function Product(x: real, y: real): real { x * y }

  function Calculate(ts: seq<Token>, i: nat, sum: real, term: real): Option<real>
    requires i <= |ts|
    decreases |ts| - i
  {
    if i == |ts| then Some(sum + term)
    else if ts[i].Num? then None
    else match SignedLiteral(ts, i + 1)
      case None => None
      case Some((v, j)) =>
        match ts[i]
        case Plus => Calculate(ts, j, sum + term, v)
        case Minus => Calculate(ts, j, sum + term, -v)
        case Times => Calculate(ts, j, sum, Product(term, v))
        case Slash => if v == 0.0 then None else Calculate(ts, j, sum, term / v)
        case Num(_) => None
  }

  /** The reference value of a token list: the calculator started on its first signed literal. */
  function Reference(ts: seq<Token>): Option<real> {
    match SignedLiteral(ts, 0)
    case None => None
    case Some((v, j)) => Calculate(ts, j, 0.0, v)
  }

  function Sign(neg: bool, x: real): real { if neg then -x else x }

  lemma {:induction false} UnaryReference(ts: seq<Token>, i: nat, f: Expr, j: nat)
    requires i <= |ts| && ParseUnary(ts, i) == Some((f, j))
    ensures SignedLiteral(ts, i).Some? && SignedLiteral(ts, i).value.1 == j
    ensures Eval(f) == Some(SignedLiteral(ts, i).value.0)
    decreases |ts| - i
  {
    if !ts[i].Num? {
      var (g, k) := ParseUnary(ts, i + 1).value;
      UnaryReference(ts, i + 1, g, k);
    }
  }

  /** A term stops at the end or before a token that is not `*` or `/`. */
  lemma {:induction false} TermRestStops(ts: seq<Token>, i: nat, acc: Expr, t: Expr, j: nat)
    requires i <= |ts| && ParseTermRest(ts, i, acc) == Some((t, j))
    ensures j == |ts| || !(ts[j] == Times || ts[j] == Slash)
    decreases |ts| - i
  {
    if i < |ts| && (ts[i] == Times || ts[i] == Slash) {
      var (f, k) := ParseUnary(ts, i + 1).value;
      TermRestStops(ts, k, Bin(if ts[i] == Times then Mul else Div, acc, f), t, j);
    }
  }

  /**
   * The parsed rest of a term and the calculator folding it into its term
   * register agree, whatever sign the register carries.
   */
  lemma {:induction false} TermRestReference(ts: seq<Token>, i: nat, acc: Expr, t: Expr, j: nat, sum: real, neg: bool)
    requires i <= |ts| && ParseTermRest(ts, i, acc) == Some((t, j)) && Eval(acc).Some?
    ensures Eval(t).None? ==> Calculate(ts, i, sum, Sign(neg, Eval(acc).value)) == None
    ensures Eval(t).Some? ==>
      Calculate(ts, i, sum, Sign(neg, Eval(acc).value)) == Calculate(ts, j, sum, Sign(neg, Eval(t).value))
    decreases |ts| - i
  {
    if i < |ts| && (ts[i] == Times || ts[i] == Slash) {
      var (f, k) := ParseUnary(ts, i + 1).value;
      UnaryReference(ts, i + 1, f, k);
      var a, v := Eval(acc).value, Eval(f).value;
      var acc' := Bin(if ts[i] == Times then Mul else Div, acc, f);
      if ts[i] == Slash && v == 0.0 {
        TermRestNone(ts, k, acc', t, j);
      } else {
        var mul := ts[i] == Times;
        if mul {
          assert Eval(acc') == Apply(Mul, a, v);
        } else {
          assert Eval(acc') == Apply(Div, a, v);
        }
        CalculateFold(ts, i, sum, Sign(neg, a), v, k);
        SignFold(neg, a, v, mul);
        assert Eval(acc').value == if mul then Product(a, v) else a / v;
        TermRestReference(ts, k, acc', t, j, sum, neg);
      }
    }
  }

  /** One `*` or `/` step of the calculator. */
  lemma CalculateFold(ts: seq<Token>, i: nat, sum: real, x: real, v: real, k: nat)
    requires i < |ts| && (ts[i] == Times || ts[i] == Slash) && SignedLiteral(ts, i + 1) == Some((v, k))
    requires ts[i] == Slash ==> v != 0.0
    ensures Calculate(ts, i, sum, x) == Calculate(ts, k, sum, if ts[i] == Times then Product(x, v) else x / v)
  {
    assert !ts[i].Num?;
    if ts[i] == Times {
      assert Calculate(ts, i, sum, x) == Calculate(ts, k, sum, Product(x, v));
    } else {
      assert Calculate(ts, i, sum, x) == Calculate(ts, k, sum, x / v);
    }
  }

  /** Multiplying or dividing commutes with the sign. */
  lemma SignFold(neg: bool, a: real, v: real, mul: bool)
    requires !mul ==> v != 0.0
    ensures (if mul then Product(Sign(neg, a), v) else Sign(neg, a) / v) == Sign(neg, if mul then Product(a, v) else a / v)
  {
  }

  /** One `+` or `-` step of the calculator: the term joins the sum and the signed literal starts the next term. */
  lemma AddFold(ts: seq<Token>, i: nat, sum: real, term: real, v: real, k: nat)
    requires i < |ts| && (ts[i] == Plus || ts[i] == Minus) && SignedLiteral(ts, i + 1) == Some((v, k))
    ensures Calculate(ts, i, sum, term) == Calculate(ts, k, sum + term, Sign(ts[i] == Minus, v))
  {
    assert !ts[i].Num?;
  }

  /** The parsed rest of an expression and the calculator agree once a term is complete. */
  lemma {:induction false} ExprRestReference(ts: seq<Token>, i: nat, acc: Expr, e: Expr, sum: real, term: real)
    requires i <= |ts| && ParseExprRest(ts, i, acc) == Some((e, |ts|))
    requires i == |ts| || !(ts[i] == Times || ts[i] == Slash)
    requires Eval(acc) == Some(sum + term)
    ensures Eval(e) == Calculate(ts, i, sum, term)
    decreases |ts| - i, 2
  {
    if i < |ts| {
      ExprRestStep(ts, i, acc, e, |ts|);
      var (f, k) := ParseUnary(ts, i + 1).value;
      var (t, j) := ParseTermRest(ts, k, f).value;
      ExprRestReferenceStep(ts, i, acc, e, sum, term, f, k, t, j);
    }
  }

  /** `ExprRestReference` for one `+` or `-`, given the operand and term the parser read after it. */
  lemma {:induction false} ExprRestReferenceStep(ts: seq<Token>, i: nat, acc: Expr, e: Expr, sum: real, term: real,
                                                 f: Expr, k: nat, t: Expr, j: nat)
    requires i < |ts| && (ts[i] == Plus || ts[i] == Minus)
    requires ParseUnary(ts, i + 1) == Some((f, k)) && ParseTermRest(ts, k, f) == Some((t, j))
    requires ParseExprRest(ts, j, Bin(if ts[i] == Minus then Sub else Add, acc, t)) == Some((e, |ts|))
    requires Eval(acc) == Some(sum + term)
    ensures Eval(e) == Calculate(ts, i, sum, term)
    decreases |ts| - i, 1
  {
    UnaryReference(ts, i + 1, f, k);
    var v := Eval(f).value;
    AddFold(ts, i, sum, term, v, k);
    if Eval(t).None? {
      ExprRestReferenceNone(ts, i, acc, e, sum, term, f, k, t, j, v);
    } else {
      ExprRestReferenceSome(ts, i, acc, e, sum, term, f, k, t, j, v);
    }
  }

  /** The case of `ExprRestReferenceStep` where the term has no value: neither has the calculator. */
  lemma {:induction false} ExprRestReferenceNone(ts: seq<Token>, i: nat, acc: Expr, e: Expr, sum: real, term: real,
                                                 f: Expr, k: nat, t: Expr, j: nat, v: real)
    requires i < |ts| && (ts[i] == Plus || ts[i] == Minus) && i < k <= |ts|
    requires ParseTermRest(ts, k, f) == Some((t, j))
    requires ParseExprRest(ts, j, Bin(if ts[i] == Minus then Sub else Add, acc, t)) == Some((e, |ts|))
    requires Eval(f) == Some(v) && Eval(t).None?
    ensures Eval(e).None? && Calculate(ts, k, sum + term, Sign(ts[i] == Minus, v)) == None
  {
    TermRestReference(ts, k, f, t, j, sum + term, ts[i] == Minus);
    ExprRestNone(ts, j, Bin(if ts[i] == Minus then Sub else Add, acc, t), e, |ts|);
  }

  /** The case of `ExprRestReferenceStep` where the term has a value: the calculator carries on from `j`. */
  lemma {:induction false} ExprRestReferenceSome(ts: seq<Token>, i: nat, acc: Expr, e: Expr, sum: real, term: real,
                                                 f: Expr, k: nat, t: Expr, j: nat, v: real)
    requires i < |ts| && (ts[i] == Plus || ts[i] == Minus) && i < k <= |ts|
    requires ParseTermRest(ts, k, f) == Some((t, j))
    requires ParseExprRest(ts, j, Bin(if ts[i] == Minus then Sub else Add, acc, t)) == Some((e, |ts|))
    requires Eval(acc) == Some(sum + term)
    requires Eval(f) == Some(v) && Eval(t).Some?
    ensures Eval(e) == Calculate(ts, k, sum + term, Sign(ts[i] == Minus, v))
    decreases |ts| - i, 0
  {
    var neg, w := ts[i] == Minus, Eval(t).value;
    TermRestReference(ts, k, f, t, j, sum + term, neg);
    AddSigned(acc, t, sum + term, neg);
    TermRestStops(ts, k, f, t, j);
    ExprRestReference(ts, j, Bin(if neg then Sub else Add, acc, t), e, sum + term, Sign(neg, w));
  }



  /** One step of the expression parser: a `+` or `-`, a term, and the rest folded onto the longer sum. */
  lemma ExprRestStep(ts: seq<Token>, i: nat, acc: Expr, e: Expr, n: nat)
    requires i < |ts| && i < n && ParseExprRest(ts, i, acc) == Some((e, n))
    ensures ts[i] == Plus || ts[i] == Minus
    ensures ParseUnary(ts, i + 1).Some?
    ensures var (f, k) := ParseUnary(ts, i + 1).value;
      ParseTermRest(ts, k, f).Some? &&
      var (t, j) := ParseTermRest(ts, k, f).value;
      ParseExprRest(ts, j, Bin(if ts[i] == Minus then Sub else Add, acc, t)) == Some((e, n))
  {
  }

  /** Adding or subtracting a parsed term is adding its signed value. */
  lemma AddSigned(acc: Expr, t: Expr, x: real, neg: bool)
    requires Eval(acc) == Some(x) && Eval(t).Some?
    ensures Eval(Bin(if neg then Sub else Add, acc, t)) == Some(x + Sign(neg, Eval(t).value))
  {
  }


  /**
   * For every token list the parser accepts, the parsed expression has the
   * reference value, so the amount is that value rounded to cents: `*` and
   * `/` bind tighter than `+` and `-`, and each rank goes left to right.
   */
  lemma ParseMatchesReference(ts: seq<Token>)
    requires Parse(ts).Some?
    ensures Eval(Parse(ts).value) == Reference(ts)
    ensures TokensToCents(ts) == ToCents(Reference(ts))
  {
    var (f, k) := ParseUnary(ts, 0).value;
    var (t, i) := ParseTermRest(ts, k, f).value;
    var (e, n) := ParseExprRest(ts, i, t).value;
    UnaryReference(ts, 0, f, k);
    TermRestReference(ts, k, f, t, i, 0.0, false);
    TermRestStops(ts, k, f, t, i);
    if Eval(t).None? {
      ExprRestNone(ts, i, t, e, n);
    } else {
      ExprRestReference(ts, i, t, e, 0.0, Eval(t).value);
    }
  }

  /** `evaluate` of any string that lexes and parses is the reference value of its tokens, rounded to cents. */
  lemma EvaluateByReference(expr: string)
    requires Sanitize(expr) != [] && Lex(Sanitize(expr)).Some? && Parse(Lex(Sanitize(expr)).value).Some?
    ensures Evaluate(expr) == ToCents(Reference(Lex(Sanitize(expr)).value))
  {
    ParseMatchesReference(Lex(Sanitize(expr)).value);
  }

  /** "1+2*3*4" and "10+20+30-4/2" by the calculator: 25 and 58. */
  lemma ReferenceExamples()
    ensures Reference([Num(1.0), Plus, Num(2.0), Times, Num(3.0), Times, Num(4.0)]) == Some(25.0)
    ensures Reference([Num(10.0), Plus, Num(20.0), Plus, Num(30.0), Minus, Num(4.0), Slash, Num(2.0)]) == Some(58.0)
  {
  }

  // ---------------------------------------------------------------- well-formed expressions

  /** The binary operator an operator character denotes. */
  function CharOp(c: char): BinOp
    requires IsOperatorChar(c)
  {
    match c
    case '+' => Add
    case '-' => Sub
    case '*' => Mul
    case _ => Div
  }

  predicate Multiplicative(op: BinOp) { op == Mul || op == Div }

  /** Rounding an integer amount gives it back. */
  lemma RoundInt(n: int)
    ensures Round(n as real) == n
  {
  }

  /** Evaluation of a string already in the alphabet that lexes to `ts`. */
  lemma EvaluateTokens(s: string, ts: seq<Token>)
    requires AllInAlphabet(s) && s != [] && Lex(s) == Some(ts)
    ensures Evaluate(s) == TokensToCents(ts)
  {
  }

  lemma ParseSigned(v: real)
    ensures TokensToCents([Num(v)]) == Round(v * 100.0)
    ensures TokensToCents([Minus, Num(v)]) == Round(-v * 100.0)
  {
    var ts := [Minus, Num(v)];
    assert Parse([Num(v)]) == Some(Lit(v));
    assert ParseUnary(ts, 1) == Some((Lit(v), 2));
    assert Parse(ts) == Some(Neg(Lit(v)));
    assert Eval(Neg(Lit(v))) == Some(-v);
  }

  /** A lone literal: the amount is its value in cents. */
  lemma EvaluateLoneLiteral(lit: string)
    requires ValidLiteral(lit)
    ensures Evaluate(lit) == Round(LiteralValue(lit) * 100.0)
  {
    AlphabetOfLiteral(lit);
    LexLoneLiteral(lit);
    ParseSigned(LiteralValue(lit));
    EvaluateTokens(lit, [Num(LiteralValue(lit))]);
  }

  /** A literal after a minus sign: the amount is its negated value in cents. */
  lemma EvaluateNegatedLiteral(lit: string)
    requires ValidLiteral(lit)
    ensures Evaluate("-" + lit) == Round(-LiteralValue(lit) * 100.0)
  {
    var v := LiteralValue(lit);
    var s := "-" + lit;
    AlphabetOfLiteral(lit);
    assert AllInAlphabet(s) by {
      forall i | 0 < i < |s| ensures InAlphabet(s[i]) { assert s[i] == lit[i - 1]; }
    }
    assert s == ['-'] + lit;
    LexOperator('-', lit);
    LexLoneLiteral(lit);
    assert [Minus] + [Num(v)] == [Minus, Num(v)];
    EvaluateTokens(s, [Minus, Num(v)]);
    ParseSigned(v);
  }

  /** A literal worth m / 100, with or without a minus sign in front: the amount is m cents, or -m. */
  lemma EvaluateCentsLiteral(lit: string, m: nat)
    requires ValidLiteral(lit) && LiteralValue(lit) == m as real / 100.0
    ensures Evaluate(lit) == m
    ensures Evaluate("-" + lit) == -(m as int)
  {
    EvaluateLoneLiteral(lit);
    EvaluateNegatedLiteral(lit);
    RoundCents(LiteralValue(lit), m);
  }

  lemma RoundCents(v: real, m: nat)
    requires v == m as real / 100.0
    ensures Round(v * 100.0) == m && Round(-v * 100.0) == -(m as int)
  {
    assert v * 100.0 == m as real;
    RoundInt(m);
    RoundInt(-(m as int));
  }

  lemma LexBinary(a: string, o: char, b: string)
    requires ValidLiteral(a) && ValidLiteral(b) && IsOperatorChar(o)
    ensures Lex(a + [o] + b) == Some([Num(LiteralValue(a)), OperatorToken(o), Num(LiteralValue(b))])
  {
    var r := [o] + b;
    assert a + [o] + b == a + r;
    LexLiteral(a, r);
    LexOperator(o, b);
    LexLoneLiteral(b);
    Cons3(Num(LiteralValue(a)), OperatorToken(o), Num(LiteralValue(b)));
  }

  lemma Cons3<T>(x: T, y: T, z: T)
    ensures [x] + ([y] + [z]) == [x, y, z]
  {
  }

  lemma LexLoneLiteral(lit: string)
    requires ValidLiteral(lit)
    ensures Lex(lit) == Some([Num(LiteralValue(lit))])
  {
    LexLiteral(lit, []);
    assert lit + [] == lit;
    assert Lex([]) == Some([]);
    assert [Num(LiteralValue(lit))] + [] == [Num(LiteralValue(lit))];
  }

  lemma AlphabetOfLiteral(lit: string)
    requires ValidLiteral(lit)
    ensures AllInAlphabet(lit)
  {
    forall i | 0 <= i < |lit| ensures InAlphabet(lit[i]) { }
  }

  lemma AlphabetJoin(p: string, o: char, q: string)
    requires AllInAlphabet(p) && AllInAlphabet(q) && IsOperatorChar(o)
    ensures AllInAlphabet(p + [o] + q)
  {
    var s := p + [o] + q;
    forall i | 0 <= i < |s| ensures InAlphabet(s[i]) {
      if i < |p| { assert s[i] == p[i]; }
      else if i == |p| { }
      else { assert s[i] == q[i - |p| - 1]; }
    }
  }

  lemma ParseBinary(x: real, o: char, y: real)
    requires IsOperatorChar(o)
    ensures Parse([Num(x), OperatorToken(o), Num(y)]) == Some(Bin(CharOp(o), Lit(x), Lit(y)))
    ensures TokensToCents([Num(x), OperatorToken(o), Num(y)]) == ToCents(Apply(CharOp(o), x, y))
  {
    var ts := [Num(x), OperatorToken(o), Num(y)];
    var e := Bin(CharOp(o), Lit(x), Lit(y));
    assert ParseUnary(ts, 0) == Some((Lit(x), 1));
    assert ParseUnary(ts, 2) == Some((Lit(y), 3));
    if Multiplicative(CharOp(o)) {
      assert ParseTermRest(ts, 3, e) == Some((e, 3));
      assert ParseTermRest(ts, 1, Lit(x)) == Some((e, 3));
      assert ParseExprRest(ts, 3, e) == Some((e, 3));
    } else {
      assert ParseTermRest(ts, 1, Lit(x)) == Some((Lit(x), 1));
      assert ParseTermRest(ts, 3, Lit(y)) == Some((Lit(y), 3));
      assert ParseTerm(ts, 2) == Some((Lit(y), 3));
      assert ParseExprRest(ts, 3, e) == Some((e, 3));
      assert ParseExprRest(ts, 1, Lit(x)) == Some((e, 3));
    }
    assert Parse(ts) == Some(e);
    assert Eval(e) == Apply(CharOp(o), x, y);
  }

  /** `a o b` evaluates to the rounded exact result, or 0 on a division by zero. */
  lemma EvaluateBinary(a: string, o: char, b: string)
    requires ValidLiteral(a) && ValidLiteral(b) && IsOperatorChar(o)
    ensures Evaluate(a + [o] + b) == ToCents(Apply(CharOp(o), LiteralValue(a), LiteralValue(b)))
  {
    AlphabetOfLiteral(a);
    AlphabetOfLiteral(b);
    AlphabetJoin(a, o, b);
    var x, y := LiteralValue(a), LiteralValue(b);
    var ts := [Num(x), OperatorToken(o), Num(y)];
    var e := Bin(CharOp(o), Lit(x), Lit(y));
    LexBinary(a, o, b);
    EvaluateTokens(a + [o] + b, ts);
    ParseBinary(x, o, y);
  }

  /**
   * How `a o1 b o2 c` groups: `*` and `/` bind tighter than `+` and `-`, and
   * operators of the same rank associate to the left.
   */
  function Grouped(x: real, op1: BinOp, y: real, op2: BinOp, z: real): (e: Expr)
    ensures e.Bin? && (e.right.Bin? <==> Multiplicative(op2) && !Multiplicative(op1))
  {
    if Multiplicative(op2) && !Multiplicative(op1) then Bin(op1, Lit(x), Bin(op2, Lit(y), Lit(z)))
    else Bin(op2, Bin(op1, Lit(x), Lit(y)), Lit(z))
  }

  lemma LexTernary(a: string, o1: char, b: string, o2: char, c: string)
    requires ValidLiteral(a) && ValidLiteral(b) && ValidLiteral(c)
    requires IsOperatorChar(o1) && IsOperatorChar(o2)
    ensures Lex(a + [o1] + b + [o2] + c) == Some([Num(LiteralValue(a)), OperatorToken(o1), Num(LiteralValue(b)),
                                                  OperatorToken(o2), Num(LiteralValue(c))])
  {
    var r2 := [o2] + c;
    var r1 := b + r2;
    var r0 := [o1] + r1;
    Assoc5(a, [o1], b, [o2], c);
    LexLiteral(a, r0);
    LexOperator(o1, r1);
    assert r1[0] == b[0];
    LexLiteral(b, r2);
    LexOperator(o2, c);
    LexLoneLiteral(c);
    Cons5(Num(LiteralValue(a)), OperatorToken(o1), Num(LiteralValue(b)), OperatorToken(o2), Num(LiteralValue(c)));
  }

  lemma Assoc5<T>(a: seq<T>, b: seq<T>, c: seq<T>, d: seq<T>, e: seq<T>)
    ensures a + b + c + d + e == a + (b + (c + (d + e)))
  {
  }

  lemma Cons5<T>(x: T, y: T, z: T, u: T, w: T)
    ensures [x] + ([y] + ([z] + ([u] + [w]))) == [x, y, z, u, w]
  {
  }

  lemma ParseTernary(x: real, o1: char, y: real, o2: char, z: real)
    requires IsOperatorChar(o1) && IsOperatorChar(o2)
    ensures Parse([Num(x), OperatorToken(o1), Num(y), OperatorToken(o2), Num(z)])
         == Some(Grouped(x, CharOp(o1), y, CharOp(o2), z))
  {
    var ts := [Num(x), OperatorToken(o1), Num(y), OperatorToken(o2), Num(z)];
    var op1, op2 := CharOp(o1), CharOp(o2);
    var g := Grouped(x, op1, y, op2, z);
    var xy := Bin(op1, Lit(x), Lit(y));
    assert ParseUnary(ts, 0) == Some((Lit(x), 1));
    assert ParseUnary(ts, 2) == Some((Lit(y), 3));
    assert ParseUnary(ts, 4) == Some((Lit(z), 5));
    if Multiplicative(op1) && Multiplicative(op2) {
      assert ParseTermRest(ts, 5, g) == Some((g, 5));
      assert ParseTermRest(ts, 3, xy) == Some((g, 5));
      assert ParseTermRest(ts, 1, Lit(x)) == Some((g, 5));
      assert ParseExprRest(ts, 5, g) == Some((g, 5));
    } else if Multiplicative(op1) {
      assert ParseTermRest(ts, 3, xy) == Some((xy, 3));
      assert ParseTermRest(ts, 1, Lit(x)) == Some((xy, 3));
      assert ParseTermRest(ts, 5, Lit(z)) == Some((Lit(z), 5));
      assert ParseTerm(ts, 4) == Some((Lit(z), 5));
      assert ParseExprRest(ts, 5, g) == Some((g, 5));
      assert ParseExprRest(ts, 3, xy) == Some((g, 5));
    } else if Multiplicative(op2) {
      var yz := Bin(op2, Lit(y), Lit(z));
      assert ParseTermRest(ts, 1, Lit(x)) == Some((Lit(x), 1));
      assert ParseTermRest(ts, 5, yz) == Some((yz, 5));
      assert ParseTermRest(ts, 3, Lit(y)) == Some((yz, 5));
      assert ParseTerm(ts, 2) == Some((yz, 5));
      assert ParseExprRest(ts, 5, g) == Some((g, 5));
      assert ParseExprRest(ts, 1, Lit(x)) == Some((g, 5));
    } else {
      assert ParseTermRest(ts, 1, Lit(x)) == Some((Lit(x), 1));
      assert ParseTermRest(ts, 3, Lit(y)) == Some((Lit(y), 3));
      assert ParseTerm(ts, 2) == Some((Lit(y), 3));
      assert ParseTermRest(ts, 5, Lit(z)) == Some((Lit(z), 5));
      assert ParseTerm(ts, 4) == Some((Lit(z), 5));
      assert ParseExprRest(ts, 5, g) == Some((g, 5));
      assert ParseExprRest(ts, 3, xy) == Some((g, 5));
      assert ParseExprRest(ts, 1, Lit(x)) == Some((g, 5));
    }
  }

  /** `a o1 b o2 c` evaluates by precedence and left-associativity, as `Grouped` says. */
  lemma EvaluateTernary(a: string, o1: char, b: string, o2: char, c: string)
    requires ValidLiteral(a) && ValidLiteral(b) && ValidLiteral(c)
    requires IsOperatorChar(o1) && IsOperatorChar(o2)
    ensures Evaluate(a + [o1] + b + [o2] + c)
         == ToCents(Eval(Grouped(LiteralValue(a), CharOp(o1), LiteralValue(b), CharOp(o2), LiteralValue(c))))
  {
    AlphabetOfLiteral(a);
    AlphabetOfLiteral(b);
    AlphabetOfLiteral(c);
    AlphabetJoin(a, o1, b);
    AlphabetJoin(a + [o1] + b, o2, c);
    LexTernary(a, o1, b, o2, c);
    EvaluateTokens(a + [o1] + b + [o2] + c, [Num(LiteralValue(a)), OperatorToken(o1), Num(LiteralValue(b)),
                                             OperatorToken(o2), Num(LiteralValue(c))]);
    ParseTernary(LiteralValue(a), o1, LiteralValue(b), o2, LiteralValue(c));
  }

  // ---------------------------------------------------------------- examples

  // The example strings, spelled out of their literals and operators.
  lemma SpellSum() ensures "12.5" + ['+'] + "7.5" == "12.5+7.5" { }
  lemma SpellProduct() ensures "10" + ['*'] + "3" == "10*3" { }
  lemma SpellDivision() ensures "9" + ['/'] + "0" == "9/0" { }
  lemma SpellPrecedence() ensures "1" + ['+'] + "2" + ['*'] + "3" == "1+2*3" { }
  lemma SpellSubtractions() ensures "8" + ['-'] + "2" + ['-'] + "1" == "8-2-1" { }
  lemma SpellDivisions() ensures "8" + ['/'] + "4" + ['/'] + "2" == "8/4/2" { }
  lemma SpellNegative() ensures "-" + "5" == "-5" { }

  /** A one-digit literal such as "8" reads as its digit. */
  lemma DigitLiteral(c: char)
    requires IsDigit(c)
    ensures ValidLiteral([c]) && LiteralValue([c]) == DigitValue(c) as real
  {
    LiteralOfNat(DigitValue(c));
    assert NatToDigits(DigitValue(c)) == [c];
  }

  lemma TenLiteral()
    ensures ValidLiteral("10") && LiteralValue("10") == 10.0
  {
    LiteralOfNat(10);
    assert NatToDigits(10) == NatToDigits(1) + [DigitChar(0)];
  }

  lemma TwelveAndAHalfLiteral()
    ensures ValidLiteral("12.5") && LiteralValue("12.5") == 12.5
  {
    HalfLiteral("12", 12);
    assert "12" + "." + "5" == "12.5";
  }

  lemma SevenAndAHalfLiteral()
    ensures ValidLiteral("7.5") && LiteralValue("7.5") == 7.5
  {
    HalfLiteral("7", 7);
    assert "7" + "." + "5" == "7.5";
  }

  /** `d` followed by ".5" reads as half a unit more than `d`. */
  lemma HalfLiteral(d: string, q: nat)
    requires AllDigits(d) && |d| >= 1 && (|d| > 1 ==> d[0] != '0') && DigitsValue(d) == q
    ensures ValidLiteral(d + "." + "5") && LiteralValue(d + "." + "5") == q as real + 0.5
  {
    PointLiteralValue(d, "5");
    HalfFraction();
  }

  /** The fraction digit "5" stands for one half. */
  lemma HalfFraction()
    ensures AllDigits("5") && DigitsValue("5") as real / Pow10(|"5"|) as real == 0.5
  {
    assert DigitsValue("5") == 5 by { assert "5"[..0] == []; }
    assert Pow10(|"5"|) == 10 by { assert |"5"| == 1; }
  }

  // The values of the example expressions once grouped.
  lemma SumValue() ensures ToCents(Apply(Add, 12.5, 7.5)) == 2000 { RoundInt(2000); }
  lemma DivisionByZeroValue() ensures ToCents(Apply(CharOp('/'), DigitValue('9') as real, DigitValue('0') as real)) == 0 { }
  lemma ProductValue() ensures ToCents(Apply(Mul, 10.0, 3.0)) == 3000 { RoundInt(3000); }
  lemma PrecedenceValue() ensures ToCents(Eval(Grouped(1.0, Add, 2.0, Mul, 3.0))) == 700
  {
    assert Eval(Bin(Mul, Lit(2.0), Lit(3.0))) == Some(6.0);
    RoundInt(700);
  }
  lemma SubtractionsValue() ensures ToCents(Eval(Grouped(8.0, Sub, 2.0, Sub, 1.0))) == 500
  {
    assert Eval(Bin(Sub, Lit(8.0), Lit(2.0))) == Some(6.0);
    RoundInt(500);
  }
  lemma DivisionsValue() ensures ToCents(Eval(Grouped(8.0, Div, 4.0, Div, 2.0))) == 100
  {
    assert Eval(Bin(Div, Lit(8.0), Lit(4.0))) == Some(2.0);
    RoundInt(100);
  }

  /** "12.5+7.5" is 20 yuan: 2000 cents. */
  lemma ExampleSum()
    ensures Evaluate("12.5+7.5") == 2000
  {
    TwelveAndAHalfLiteral();
    SevenAndAHalfLiteral();
    EvaluateBinary("12.5", '+', "7.5");
    SumValue();
    SpellSum();
  }

  lemma ExampleProduct()
    ensures Evaluate("10*3") == 3000
  {
    TenLiteral();
    DigitLiteral('3');
    EvaluateBinary("10", '*', "3");
    ProductValue();
    SpellProduct();
  }

  lemma ExampleDivisionByZero()
    ensures Evaluate("9/0") == 0
  {
    DigitLiteral('9');
    DigitLiteral('0');
    EvaluateBinary("9", '/', "0");
    DivisionByZeroValue();
    SpellDivision();
  }

  /** `*` binds tighter than `+`: "1+2*3" is 7, not 9. */
  lemma ExamplePrecedence()
    ensures Evaluate("1+2*3") == 700
  {
    DigitLiteral('1');
    DigitLiteral('2');
    DigitLiteral('3');
    EvaluateTernary("1", '+', "2", '*', "3");
    PrecedenceValue();
    SpellPrecedence();
  }

  /** `-` associates to the left: "8-2-1" is 5, not 7. */
  lemma ExampleLeftAssociativeSub()
    ensures Evaluate("8-2-1") == 500
  {
    DigitLiteral('8');
    DigitLiteral('2');
    DigitLiteral('1');
    EvaluateTernary("8", '-', "2", '-', "1");
    SubtractionsValue();
    SpellSubtractions();
  }

  /** `/` associates to the left: "8/4/2" is 1, not 4. */
  lemma ExampleLeftAssociativeDiv()
    ensures Evaluate("8/4/2") == 100
  {
    DigitLiteral('8');
    DigitLiteral('4');
    DigitLiteral('2');
    EvaluateTernary("8", '/', "4", '/', "2");
    DivisionsValue();
    SpellDivisions();
  }

  lemma ExampleNegative()
    ensures Evaluate("-5") == -500
  {
    DigitLiteral('5');
    EvaluateNegatedLiteral("5");
    RoundInt(-500);
    SpellNegative();
  }
}
