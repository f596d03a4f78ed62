/**
 * Which strings are expressions: those in which operands and operators alternate and parentheses
 * balance are exactly those that the grammar derives.
 */
module Derivations {
  import opened Basics
  import opened Expressions
  import opened Evaluator
  import opened EvaluatorProofs

  /** How many spaces `input` begins with. */
  function SpaceRun(input: string): (n: nat)
    ensures n <= |input| && input[..n] == Spaces(n)
    ensures n < |input| ==> input[n] != ' '
  {
    if input == [] || input[0] != ' ' then 0 else 1 + SpaceRun(input[1..])
  }

  lemma {:induction false} ContinuesAfterSpaces(input: string, n: nat, operandNext: bool, d: nat)
    requires n <= SpaceRun(input) && Continues(input, operandNext, d)
    ensures n <= |input| && Continues(input[n..], operandNext, d)
  {
    if n > 0 {
      ContinuesAfterSpaces(input[1..], n - 1, operandNext, d);
      assert input[1..][n - 1..] == input[n..];
    } else {
      assert input[0..] == input;
    }
  }

  /** Behind an operand: the spaces, then what follows them, if anything does. */
  lemma SplitSpaces(input: string, operandNext: bool, d: nat) returns (n: nat, rest: string)
    requires Continues(input, operandNext, d)
    ensures n == SpaceRun(input) && rest == input[n..]
    ensures input == Spaces(n) + rest && Continues(rest, operandNext, d)
  {
    n := SpaceRun(input);
    rest := input[n..];
    ContinuesAfterSpaces(input, n, operandNext, d);
  }

  lemma DeriveNumber(rest: string, d: nat, sp: nat) returns (f: Factor, post: string)
    requires rest != [] && IsDigit(rest[0]) && Continues(rest, true, d)
    ensures Spaces(sp) + rest == RenderFactor(f) + post && |post| < |rest|
    ensures Continues(post, false, d) && NoDigitFirst(post)
  {
    var n := DigitRun(rest);
    f, post := Number(sp, rest[..n]), rest[n..];
    assert rest == rest[..n] + post;
  }

  lemma ParenText(sp: nat, e: Expr, csp: nat, post: string)
    ensures Spaces(sp) + (['('] + (RenderExpr(e) + (Spaces(csp) + ([')'] + post))))
         == RenderFactor(Paren(sp, e, csp)) + post
  {
  }

  lemma {:induction false} DeriveParen(rest: string, d: nat, sp: nat) returns (f: Factor, post: string)
    requires rest != [] && rest[0] == '(' && Continues(rest, true, d)
    ensures Spaces(sp) + rest == RenderFactor(f) + post && |post| < |rest|
    ensures Continues(post, false, d)
    decreases |rest|, 0
  {
    var e, body := DeriveExpr(rest[1..], d + 1);
    var csp, close := SplitSpaces(body, false, d + 1);
    assert close[0] == ')';
    f, post := Paren(sp, e, csp), close[1..];
    assert rest == ['('] + rest[1..] && close == [')'] + post;
    ParenText(sp, e, csp, post);
  }

  /** An operand at the start of `input`, with everything behind it. */
  lemma {:induction false} DeriveFactor(input: string, d: nat) returns (f: Factor, post: string)
    requires Continues(input, true, d)
    ensures input == RenderFactor(f) + post && |post| < |input|
    ensures Continues(post, false, d) && NoDigitFirst(post)
    decreases |input|, 1
  {
    var sp, rest := SplitSpaces(input, true, d);
    if IsDigit(rest[0]) {
      f, post := DeriveNumber(rest, d, sp);
    } else {
      f, post := DeriveParen(rest, d, sp);
    }
  }

  /** `input` continues with an operator of the given precedence, after spaces. */
  predicate Next(input: string, precedence: nat) {
    var n := SpaceRun(input);
    n < |input| && input[n] in "+-*/" && Precedence(input[n]) == precedence
  }

  /** The operator and the operand behind it. */
  lemma DeriveOperand(input: string, d: nat) returns (sp: nat, op: char, f: Factor, post: string)
    requires Continues(input, false, d) && (Next(input, 1) || Next(input, 2))
    ensures input == Spaces(sp) + ([op] + (RenderFactor(f) + post)) && |post| < |input|
    ensures op in "+-*/" && (Next(input, Precedence(op)))
    ensures Continues(post, false, d) && NoDigitFirst(post)
    decreases |input|, 1
  {
    hide RenderFactor;
    sp := SpaceRun(input);
    ContinuesAfterSpaces(input, sp, false, d);
    op := input[sp];
    assert input[sp..][1..] == input[sp + 1..];
    f, post := DeriveFactor(input[sp + 1..], d);
    assert input == input[..sp] + ([op] + input[sp + 1..]);
  }

  lemma ProductText(l: Term, sp: nat, op: Multiplicative, r: Factor, rest: string)
    ensures RenderTerm(Product(l, sp, op, r)) + rest
         == RenderTerm(l) + (Spaces(sp) + ([MulChar(op)] + (RenderFactor(r) + rest)))
  {
  }

  lemma SumText(l: Expr, sp: nat, op: Additive, r: Term, rest: string)
    ensures RenderExpr(Sum(l, sp, op, r)) + rest
         == RenderExpr(l) + (Spaces(sp) + ([AddChar(op)] + (RenderTerm(r) + rest)))
  {
  }

  /** The longest term that begins with `t0`, when `input` follows it. */
  lemma {:induction false} ExtendTerm(t0: Term, input: string, d: nat) returns (t: Term, post: string)
    requires Continues(input, false, d) && NoDigitFirst(input)
    ensures RenderTerm(t0) + input == RenderTerm(t) + post && |post| <= |input|
    ensures Continues(post, false, d) && NoDigitFirst(post) && !Next(post, 2)
    decreases |input|, 2
  {
    if Next(input, 2) {
      var sp, op, f, rest := DeriveOperand(input, d);
      var mul := if op == '*' then Times else Over;
      ProductText(t0, sp, mul, f, rest);
      t, post := ExtendTerm(Product(t0, sp, mul, f), rest, d);
    } else {
      t, post := t0, input;
    }
  }

  /** The longest expression that begins with `e0`, when `input` follows it. */
  lemma {:induction false} ExtendExpr(e0: Expr, input: string, d: nat) returns (e: Expr, post: string)
    requires Continues(input, false, d) && NoDigitFirst(input) && !Next(input, 2)
    ensures RenderExpr(e0) + input == RenderExpr(e) + post && |post| <= |input|
    ensures Continues(post, false, d) && !Next(post, 1) && !Next(post, 2)
    decreases |input|, 3
  {
    if Next(input, 1) {
      var sp, op, f, rest := DeriveOperand(input, d);
      var t, rest' := ExtendTerm(Lone(f), rest, d);
      var add := if op == '+' then Plus else Minus;
      SumText(e0, sp, add, t, rest');
      e, post := ExtendExpr(Sum(e0, sp, add, t), rest', d);
    } else {
      e, post := e0, input;
    }
  }

  /** An expression at the start of `input`, up to the closing parenthesis or the end. */
  lemma DeriveExpr(input: string, d: nat) returns (e: Expr, post: string)
    requires Continues(input, true, d)
    ensures input == RenderExpr(e) + post && |post| < |input|
    ensures Continues(post, false, d)
    ensures SpaceRun(post) == |post| || post[SpaceRun(post)] == ')'
    decreases |input|, 4
  {
    var f, rest := DeriveFactor(input, d);
    var t, rest' := ExtendTerm(Lone(f), rest, d);
    e, post := ExtendExpr(Single(t), rest', d);
    var n := SpaceRun(post);
    ContinuesAfterSpaces(post, n, false, d);
    if n < |post| { assert post[n..][0] == post[n]; }
  }

  /** Alternation and balance recognise exactly the strings of the grammar. */
  lemma RecognisesGrammar(tokens: string)
    ensures Continues(tokens, true, 0) <==>
      exists e: Expr, k: nat :: tokens == RenderExpr(e) + Spaces(k)
  {
    if Continues(tokens, true, 0) {
      var e, post := DeriveExpr(tokens, 0);
      var n := SpaceRun(post);
      ContinuesAfterSpaces(post, n, false, 0);
      assert n == |post|;
      assert tokens == RenderExpr(e) + Spaces(n);
    }
    if e: Expr, k: nat :| tokens == RenderExpr(e) + Spaces(k) {
      ContinuesSpaces(k, [], false, 0);
      assert Spaces(k) + [] == Spaces(k);
      SpacesNoDigit(k, []);
      ExprContinues(e, Spaces(k), 0);
    }
  }

  /**
   * On every string in which operands and operators alternate and parentheses balance, the
   * evaluator ends with exactly one value and no operator, unless the arithmetic fails.
   */
  lemma WellFormedEvaluates(tokens: string)
    requires Continues(tokens, true, 0)
    ensures var s := FinalState(tokens);
      s == Stuck(BadArithmetic) || (s.Live? && |s.values| == 1 && s.ops == [])
  {
    RecognisesGrammar(tokens);
    var e: Expr, k: nat :| tokens == RenderExpr(e) + Spaces(k);
    EvaluatesExpressions(e, k);
  }
}
