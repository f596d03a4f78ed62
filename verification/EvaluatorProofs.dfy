/** The evaluator computes the meaning of every expression, and keeps its stacks in order. */
module EvaluatorProofs {
  import opened Basics
  import opened Expressions
  import opened Evaluator

  // ----- scanning follows the tree

  /** What scanning the text of a tree does to the stacks, before anything forces a reduction. */
  function ScannedExpr(s: State, e: Expr): State
    decreases e
  {
    match e
    case Single(t) => ScannedTerm(s, t)
    case Sum(l, _, op, r) => ScannedTerm(Operator(ScannedExpr(s, l), AddChar(op)), r)
  }

  function ScannedTerm(s: State, t: Term): State
    decreases t
  {
    match t
    case Lone(f) => ScannedFactor(s, f)
    case Product(l, _, op, r) => ScannedFactor(Operator(ScannedTerm(s, l), MulChar(op)), r)
  }

  function ScannedFactor(s: State, f: Factor): State
    decreases f
  {
    match f
    case Number(_, ds) => PushValue(s, Decimal(0, ds))
    case Paren(_, e, _) => Close(ScannedExpr(PushOp(s, '('), e))
  }

  predicate NoDigitFirst(post: string) {
    post == [] || !IsDigit(post[0])
  }

  lemma {:induction false} ScanSpaces(s: State, n: nat, post: string)
    ensures Scan(s, Spaces(n) + post) == Scan(s, post)
  {
    if n == 0 {
      assert Spaces(0) + post == post;
    } else {
      var input := Spaces(n) + post;
      assert input[0] == ' ';
      assert input[1..] == Spaces(n - 1) + post;
      ScanSpaces(s, n - 1, post);
    }
  }

  lemma {:induction false} DigitRunOf(ds: string, post: string)
    requires forall k :: 0 <= k < |ds| ==> IsDigit(ds[k])
    requires NoDigitFirst(post)
    ensures DigitRun(ds + post) == |ds|
  {
    if ds == [] {
      assert ds + post == post;
    } else {
      assert (ds + post)[1..] == ds[1..] + post;
      DigitRunOf(ds[1..], post);
    }
  }

  lemma ScanChar(s: State, c: char, post: string)
    requires !IsDigit(c)
    ensures Scan(s, [c] + post) == Scan(Step(s, [c] + post), post)
  {
  }

  lemma {:induction false} ScanExpr(s: State, e: Expr, post: string)
    requires NoDigitFirst(post)
    ensures Scan(s, RenderExpr(e) + post) == Scan(ScannedExpr(s, e), post)
    decreases e
  {
    match e
    case Single(t) => ScanTerm(s, t, post);
    case Sum(l, sp, op, r) =>
      var tail := [AddChar(op)] + (RenderTerm(r) + post);
      assert RenderExpr(e) + post == RenderExpr(l) + (Spaces(sp) + tail);
      SpacesNoDigit(sp, tail);
      ScanExpr(s, l, Spaces(sp) + tail);
      ScanSpaces(ScannedExpr(s, l), sp, tail);
      ScanChar(ScannedExpr(s, l), AddChar(op), RenderTerm(r) + post);
      ScanTerm(Operator(ScannedExpr(s, l), AddChar(op)), r, post);
  }

  lemma {:induction false} ScanTerm(s: State, t: Term, post: string)
    requires NoDigitFirst(post)
    ensures Scan(s, RenderTerm(t) + post) == Scan(ScannedTerm(s, t), post)
    decreases t
  {
    match t
    case Lone(f) => ScanFactor(s, f, post);
    case Product(l, sp, op, r) =>
      var tail := [MulChar(op)] + (RenderFactor(r) + post);
      assert RenderTerm(t) + post == RenderTerm(l) + (Spaces(sp) + tail);
      SpacesNoDigit(sp, tail);
      ScanTerm(s, l, Spaces(sp) + tail);
      ScanSpaces(ScannedTerm(s, l), sp, tail);
      ScanChar(ScannedTerm(s, l), MulChar(op), RenderFactor(r) + post);
      ScanFactor(Operator(ScannedTerm(s, l), MulChar(op)), r, post);
  }

  lemma {:induction false} ScanFactor(s: State, f: Factor, post: string)
    requires NoDigitFirst(post)
    ensures Scan(s, RenderFactor(f) + post) == Scan(ScannedFactor(s, f), post)
    decreases f
  {
    match f
    case Number(sp, ds) =>
      var input := ds + post;
      assert RenderFactor(f) + post == Spaces(sp) + input;
      ScanSpaces(s, sp, input);
      DigitRunOf(ds, post);
      assert input[..|ds|] == ds && input[|ds|..] == post;
      assert IsDigit(input[0]);
    case Paren(sp, e, csp) =>
      var close := [')'] + post;
      var body := RenderExpr(e) + (Spaces(csp) + close);
      assert RenderFactor(f) + post == Spaces(sp) + (['('] + body);
      ScanSpaces(s, sp, ['('] + body);
      ScanChar(s, '(', body);
      SpacesNoDigit(csp, close);
      ScanExpr(PushOp(s, '('), e, Spaces(csp) + close);
      ScanSpaces(ScannedExpr(PushOp(s, '('), e), csp, close);
      ScanChar(ScannedExpr(PushOp(s, '('), e), ')', post);
  }

  lemma SpacesNoDigit(n: nat, post: string)
    requires NoDigitFirst(post)
    ensures NoDigitFirst(Spaces(n) + post)
  {
  }

  // ----- reducing yields the meaning

  /** Pushes a meaning: its value on the stack, its operator applications on the log. */
  function PushMeaning(s: State, m: Option<Meaning>): State {
    if s.Stuck? then s
    else if m.None? then Stuck(BadArithmetic)
    else Live(s.values + [m.value.value], s.ops, s.calls + m.value.calls)
  }

  /** No operator of precedence `p` or more is waiting on top of the operator stack. */
  predicate Low(s: State, p: nat) {
    s.Live? && s.ops != [] ==> Precedence(Last(s.ops)) < p
  }

  predicate Forces(g: Guard, p: nat) {
    (p <= 1 ==> Holds(g, '+') && Holds(g, '-')) && Holds(g, '*') && Holds(g, '/')
  }

  lemma ReduceLow(s: State, p: nat)
    requires Low(s, p)
    ensures Reduce(s, AtLeast(p)) == s
  {
  }

  /** With both operands on the value stack, a forced reduction applies the operator first. */
  lemma ApplyPending(s: State, l: Option<Meaning>, op: char, r: Option<Meaning>, g: Guard)
    requires op in "+-*/" && Holds(g, op)
    ensures Reduce(PushMeaning(PushOp(PushMeaning(s, l), op), r), g)
         == Reduce(PushMeaning(s, Combine(l, op, r)), g)
  {
    if s.Live? && l.Some? && r.Some? {
      var a, b := l.value.value, r.value.value;
      var two := PushMeaning(PushOp(PushMeaning(s, l), op), r);
      assert two.values == s.values + [a, b] && two.ops == s.ops + [op];
      assert Init(two.values) == s.values + [a] && Init(Init(two.values)) == s.values;
      assert Init(two.ops) == s.ops;
      match Arithmetic(a, b, op)
      case None =>
      case Some(v) =>
        assert two.calls + [Call(a, b, op, v)]
            == s.calls + (l.value.calls + r.value.calls + [Call(a, b, op, v)]);
        assert ReduceOnce(two) == PushMeaning(s, Combine(l, op, r));
    }
  }

  lemma {:induction false} FactorMeaning(s: State, f: Factor)
    ensures ScannedFactor(s, f) == PushMeaning(s, MeaningOfFactor(f))
    decreases f
  {
    match f
    case Number(_, ds) =>
    case Paren(_, e, _) =>
      var inner := PushOp(s, '(');
      ExprMeaning(inner, e, UntilParen);
      var m := PushMeaning(inner, MeaningOfExpr(e));
      if m.Live? {
        assert Last(m.ops) == '(' && Init(m.ops) == s.ops;
      }
  }

  lemma {:induction false} TermMeaning(s: State, t: Term, g: Guard)
    requires Low(s, 2) && Forces(g, 2)
    ensures Reduce(ScannedTerm(s, t), g) == Reduce(PushMeaning(s, MeaningOfTerm(t)), g)
    decreases t
  {
    match t
    case Lone(f) => FactorMeaning(s, f);
    case Product(l, _, op, r) =>
      TermMeaning(s, l, AtLeast(2));
      ReduceLow(PushMeaning(s, MeaningOfTerm(l)), 2);
      FactorMeaning(Operator(ScannedTerm(s, l), MulChar(op)), r);
      ApplyPending(s, MeaningOfTerm(l), MulChar(op), MeaningOfFactor(r), g);
  }

  lemma {:induction false} ExprMeaning(s: State, e: Expr, g: Guard)
    requires Low(s, 1) && Forces(g, 1)
    ensures Reduce(ScannedExpr(s, e), g) == Reduce(PushMeaning(s, MeaningOfExpr(e)), g)
    decreases e
  {
    match e
    case Single(t) => TermMeaning(s, t, g);
    case Sum(l, _, op, r) =>
      ExprMeaning(s, l, AtLeast(1));
      ReduceLow(PushMeaning(s, MeaningOfExpr(l)), 1);
      TermMeaning(PushOp(PushMeaning(s, MeaningOfExpr(l)), AddChar(op)), r, g);
      ApplyPending(s, MeaningOfExpr(l), AddChar(op), MeaningOfTerm(r), g);
  }

  /**
   * On every expression of the grammar, however spaced, the evaluator ends with the meaning of
   * the tree as its only value and no operator left, having applied exactly the operators of
   * the tree, on the operands of the tree, operands first. If some node of the tree overflows or
   * divides by zero, so does the run; nothing else can go wrong.
   */
  lemma EvaluatesExpressions(e: Expr, trailing: nat)
    ensures var tokens := RenderExpr(e) + Spaces(trailing);
      FinalState(tokens) == match MeaningOfExpr(e)
        case None => Stuck(BadArithmetic)
        case Some(m) => Live([m.value], [], m.calls)
  {
    SpacesNoDigit(trailing, []);
    assert Spaces(trailing) + [] == Spaces(trailing);
    ScanExpr(INITIAL, e, Spaces(trailing));
    ScanSpaces(ScannedExpr(INITIAL, e), trailing, []);
    ExprMeaning(INITIAL, e, Always);
  }

  /**
   * What the program returns for an expression: its plain value, if all numbers and intermediate
   * values are 32-bit integers and no divisor is zero.
   */
  lemma ReturnsValue(e: Expr, trailing: nat)
    ensures Result(FinalState(RenderExpr(e) + Spaces(trailing)))
         == if 0 !in DivisorsOfExpr(e) && forall v :: v in NodesOfExpr(e) ==> -2147483648 <= v <= 2147483647
            then Returned(ValueOfExpr(e)) else Undefined(BadArithmetic)
  {
    EvaluatesExpressions(e, trailing);
    MeaningIsValue(e);
    DefinedIsSound(e);
  }

  // ----- what the characters mean

  /** What the program returns for some text. */
  function Answer(text: string): Outcome {
    Result(FinalState(text))
  }

  lemma AnswerIsMeaning(e: Expr, trailing: nat)
    ensures Answer(RenderExpr(e) + Spaces(trailing)) == match MeaningOfExpr(e)
      case None => Undefined(BadArithmetic)
      case Some(m) => Returned(m.value)
  {
    EvaluatesExpressions(e, trailing);
  }

  lemma AnswerOfExpr(e: Expr)
    ensures Answer(RenderExpr(e)) == match MeaningOfExpr(e)
      case None => Undefined(BadArithmetic)
      case Some(m) => Returned(m.value)
  {
    AnswerIsMeaning(e, 0);
    assert RenderExpr(e) + Spaces(0) == RenderExpr(e);
  }

  /** Digits are answered with their decimal value. */
  lemma AnswerOfDigits(ds: string)
    requires ds != [] && forall k :: 0 <= k < |ds| ==> '0' <= ds[k] <= '9'
    ensures Answer(ds)
         == if NumberText.Value(ds) <= 2147483647 then Returned(NumberText.Value(ds)) else Undefined(BadArithmetic)
  {
    hide FinalState, Result, Answer, NumberText.Value;
    var f := Number(0, ds);
    assert RenderExpr(Single(Lone(f))) == RenderTerm(Lone(f)) == RenderFactor(f) == Spaces(0) + ds;
    assert Spaces(0) + ds == ds;
    AnswerOfExpr(Single(Lone(f)));
    NumberMeaning(f);
  }

  lemma NumberMeaning(f: Factor)
    requires f.Number?
    ensures MeaningOfFactor(f) == if NumberText.Value(f.digits) <= 2147483647
      then Some(Meaning(NumberText.Value(f.digits), [])) else None
  {
    DecimalIsValue("", f.digits);
    assert "" + f.digits == f.digits;
  }

  /** An expression and a term joined by + or -, with any blanks, are answered with the sum or difference. */
  lemma AnswerOfSum(e: Expr, t: Term, a: int, b: int, blanks: nat)
    requires Answer(RenderExpr(e)) == Returned(a) && Answer(RenderTerm(t)) == Returned(b)
    ensures Answer(RenderExpr(e) + (seq(blanks, _ => ' ') + ("+" + RenderTerm(t))))
         == if -2147483648 <= a + b <= 2147483647 then Returned(a + b) else Undefined(BadArithmetic)
    ensures Answer(RenderExpr(e) + (seq(blanks, _ => ' ') + ("-" + RenderTerm(t))))
         == if -2147483648 <= a - b <= 2147483647 then Returned(a - b) else Undefined(BadArithmetic)
  {
    hide FinalState, Result, Answer;
    AnswerOfExpr(e);
    AnswerOfExpr(Single(t));
    AnswerOfExpr(Sum(e, blanks, Plus, t));
    AnswerOfExpr(Sum(e, blanks, Minus, t));
    assert Spaces(blanks) == seq(blanks, _ => ' ');
  }

  /** The same for a term, a factor and *. */
  lemma AnswerOfProduct(t: Term, f: Factor, a: int, b: int, blanks: nat)
    requires Answer(RenderTerm(t)) == Returned(a) && Answer(RenderFactor(f)) == Returned(b)
    ensures Answer(RenderTerm(t) + (seq(blanks, _ => ' ') + ("*" + RenderFactor(f))))
         == if -2147483648 <= a * b <= 2147483647 then Returned(a * b) else Undefined(BadArithmetic)
  {
    hide FinalState, Result, Answer;
    AnswerOfExpr(Single(t));
    AnswerOfExpr(Single(Lone(f)));
    AnswerOfExpr(Single(Product(t, blanks, Times, f)));
    assert Spaces(blanks) == seq(blanks, _ => ' ');
  }

  /** The same for /: the remainder is smaller than the divisor and has the sign of the dividend. */
  lemma AnswerOfQuotient(t: Term, f: Factor, a: int, b: int, blanks: nat)
    requires Answer(RenderTerm(t)) == Returned(a) && Answer(RenderFactor(f)) == Returned(b)
    ensures var answer := Answer(RenderTerm(t) + (seq(blanks, _ => ' ') + ("/" + RenderFactor(f))));
      if b == 0 || (a == -2147483648 && b == -1) then answer == Undefined(BadArithmetic)
      else
        && answer.Returned?
        && var rem := a - b * answer.value;
           (-b < rem < b || b < rem < -b) && (rem > 0 ==> a > 0) && (rem < 0 ==> a < 0)
  {
    hide FinalState, Result, Answer;
    AnswerOfExpr(Single(t));
    AnswerOfExpr(Single(Lone(f)));
    AnswerOfExpr(Single(Product(t, blanks, Over, f)));
    assert Spaces(blanks) == seq(blanks, _ => ' ');
    TermFits(t);
    if b != 0 { QuotientOrNone(a, b); }
  }

  lemma QuotientOrNone(a: int, b: int)
    requires b != 0 && -2147483648 <= a <= 2147483647
    ensures match Arithmetic(a, b, '/')
      case None => a == -2147483648 && b == -1
      case Some(q) =>
        && !(a == -2147483648 && b == -1)
        && var rem := a - b * q; (-b < rem < b || b < rem < -b) && (rem > 0 ==> a > 0) && (rem < 0 ==> a < 0)
  {
    hide TruncDiv;
    QuotientFits(a, b);
    var q := TruncDiv(a, b);
    TruncDivIsC(a, b, q, a - b * q);
  }

  lemma {:induction false} ExprFits(e: Expr)
    ensures MeaningOfExpr(e).Some? ==> -2147483648 <= MeaningOfExpr(e).value.value <= 2147483647
    decreases e
  {
    match e
    case Single(t) => TermFits(t);
    case Sum(_, _, _, _) =>
  }

  lemma {:induction false} TermFits(t: Term)
    ensures MeaningOfTerm(t).Some? ==> -2147483648 <= MeaningOfTerm(t).value.value <= 2147483647
    decreases t
  {
    match t
    case Lone(f) => FactorFits(f);
    case Product(_, _, _, _) =>
  }

  lemma {:induction false} FactorFits(f: Factor)
    ensures MeaningOfFactor(f).Some? ==> -2147483648 <= MeaningOfFactor(f).value.value <= 2147483647
    decreases f
  {
    match f
    case Number(_, ds) =>
      DecimalIsValue(ds, "");
      NumberMeaning(f);
    case Paren(_, e, _) => ExprFits(e);
  }

  /** Parentheses and blanks around an expression change nothing. */
  lemma AnswerOfParentheses(e: Expr, before: nat, inside: nat, after: nat)
    ensures var text := "(" + (RenderExpr(e) + (seq(inside, _ => ' ') + ")"));
      Answer(seq(before, _ => ' ') + text + seq(after, _ => ' ')) == Answer(RenderExpr(e))
  {
    hide FinalState, Result, Answer;
    var p := Single(Lone(Paren(before, e, inside)));
    AnswerOfExpr(e);
    AnswerIsMeaning(p, after);
    assert Spaces(before) == seq(before, _ => ' ');
    assert Spaces(inside) == seq(inside, _ => ' ');
    assert Spaces(after) == seq(after, _ => ' ');
    assert RenderExpr(p) == RenderTerm(p.t) == RenderFactor(p.t.f);
    assert MeaningOfExpr(p) == MeaningOfTerm(p.t) == MeaningOfFactor(p.t.f) == MeaningOfExpr(e);
  }

  // ----- text outside the grammar

  /** Nothing to answer. */
  lemma AnswerOfNothing(blanks: nat)
    ensures Answer(seq(blanks, _ => ' ')) == Undefined(EmptyStack)
  {
    ScanSpaces(INITIAL, blanks, []);
    assert Spaces(blanks) + [] == seq(blanks, _ => ' ');
  }

  /** A closing parenthesis too many is ignored. */
  lemma AnswerOfExtraClose(e: Expr)
    ensures Answer(RenderExpr(e) + ")") == Answer(RenderExpr(e))
  {
    hide Scan, RenderExpr, ScannedExpr;
    AnswerOfExpr(e);
    ScanExpr(INITIAL, e, ")");
    ScanLast(ScannedExpr(INITIAL, e), ')');
    ExprMeaning(INITIAL, e, UntilParen);
  }

  lemma ScanLast(s: State, c: char)
    requires !IsDigit(c)
    ensures Scan(s, [c]) == Step(s, [c])
  {
    ScanChar(s, c, []);
    assert [c] + [] == [c];
  }

  /** An opening parenthesis too many, or an operator with nothing behind it, empties the stack. */
  lemma AnswerOfExtraOpen(e: Expr)
    ensures Answer("(" + RenderExpr(e))
         == if Answer(RenderExpr(e)).Returned? then Undefined(EmptyStack) else Undefined(BadArithmetic)
  {
    hide Scan, RenderExpr, ScannedExpr;
    AnswerOfExpr(e);
    var s := PushOp(INITIAL, '(');
    ScanChar(INITIAL, '(', RenderExpr(e));
    ScanExpr(s, e, []);
    assert RenderExpr(e) + [] == RenderExpr(e);
    ScanNothing(ScannedExpr(s, e));
    ExprMeaning(s, e, Always);
  }

  lemma ScanNothing(s: State)
    ensures Scan(s, []) == s
  {
  }

  lemma AnswerOfMissingOperand(e: Expr, op: char)
    requires op == '+' || op == '-'
    ensures Answer(RenderExpr(e) + [op])
         == if Answer(RenderExpr(e)).Returned? then Undefined(EmptyStack) else Undefined(BadArithmetic)
  {
    hide Scan, RenderExpr, ScannedExpr;
    AnswerOfExpr(e);
    ScanExpr(INITIAL, e, [op]);
    ScanLast(ScannedExpr(INITIAL, e), op);
    ExprMeaning(INITIAL, e, AtLeast(1));
    ReduceLow(PushMeaning(INITIAL, MeaningOfExpr(e)), 1);
  }

  /** Of two factors with nothing but a blank between them, the last one is answered. */
  lemma AnswerOfNeighbours(f: Factor, g: Factor)
    ensures Answer(RenderFactor(f) + (" " + RenderFactor(g)))
         == if Answer(RenderFactor(f)).Returned? then Answer(RenderFactor(g)) else Undefined(BadArithmetic)
  {
    hide Scan, RenderFactor, ScannedFactor;
    AnswerOfFactor(f);
    AnswerOfFactor(g);
    ScanFactor(INITIAL, f, " " + RenderFactor(g));
    FactorMeaning(INITIAL, f);
    var s := PushMeaning(INITIAL, MeaningOfFactor(f));
    ScanChar(s, ' ', RenderFactor(g));
    ScanFactor(s, g, []);
    assert RenderFactor(g) + [] == RenderFactor(g);
    FactorMeaning(s, g);
    ScanNothing(ScannedFactor(s, g));
  }

  lemma AnswerOfFactor(f: Factor)
    ensures Answer(RenderFactor(f)) == match MeaningOfFactor(f)
      case None => Undefined(BadArithmetic)
      case Some(m) => Returned(m.value)
  {
    hide Result, FinalState;
    AnswerOfExpr(Single(Lone(f)));
    assert RenderExpr(Single(Lone(f))) == RenderTerm(Lone(f)) == RenderFactor(f);
    assert MeaningOfExpr(Single(Lone(f))) == MeaningOfTerm(Lone(f)) == MeaningOfFactor(f);
  }

  /** Any other character is taken for an operator of the lowest precedence, which cannot be applied. */
  lemma AnswerOfForeignOperator(e: Expr, c: char, f: Expr)
    requires !('0' <= c <= '9') && c !in " ()+-*/"
    ensures Answer(RenderExpr(e) + ([c] + RenderExpr(f)))
         == if Answer(RenderExpr(e)).Returned? && Answer(RenderExpr(f)).Returned?
            then Undefined(BadOperator) else Undefined(BadArithmetic)
  {
    hide Scan, RenderExpr, ScannedExpr;
    AnswerOfExpr(e);
    AnswerOfExpr(f);
    ScanExpr(INITIAL, e, [c] + RenderExpr(f));
    ScanChar(ScannedExpr(INITIAL, e), c, RenderExpr(f));
    ExprMeaning(INITIAL, e, AtLeast(0));
    var s := PushOp(PushMeaning(INITIAL, MeaningOfExpr(e)), c);
    ScanExpr(s, f, []);
    assert RenderExpr(f) + [] == RenderExpr(f);
    ScanNothing(ScannedExpr(s, f));
    ExprMeaning(s, f, Always);
  }

  // ----- stack discipline

  /** A moment between two rounds of the scanning loop: the stacks and the open parentheses read. */
  datatype Point = Point(state: State, depth: int)

  function DepthChange(c: char): int {
    if c == '(' then 1 else if c == ')' then -1 else 0
  }

  /** Every moment of the scanning loop, from state `s` at depth `d` on. */
  function Points(s: State, d: int, input: string): seq<Point>
    decreases |input|
  {
    [Point(s, d)] +
    if input == [] then []
    else Points(Step(s, input), d + DepthChange(input[0]), input[Width(input)..])
  }

  /**
   * `input` continues an expression at depth `d`, with an operand wanted next or not: operands
   * and operators alternate and parentheses balance.
   */
  predicate Continues(input: string, operandNext: bool, d: nat)
    decreases |input|
  {
    if input == [] then !operandNext && d == 0
    else
      var c := input[0];
      if c == ' ' then Continues(input[1..], operandNext, d)
      else if c == '(' then operandNext && Continues(input[1..], true, d + 1)
      else if IsDigit(c) then operandNext && Continues(input[Width(input)..], false, d)
      else if c == ')' then !operandNext && d > 0 && Continues(input[1..], false, d - 1)
      else c in "+-*/" && !operandNext && Continues(input[1..], true, d)
  }

  function Opens(ops: string): nat {
    if ops == [] then 0 else Opens(Init(ops)) + if Last(ops) == '(' then 1 else 0
  }

  /** Above every '(' the precedences on the operator stack strictly increase. */
  predicate Climbing(ops: string) {
    forall k :: 0 <= k < |ops| ==> ClimbsAt(ops, k)
  }

  predicate ClimbsAt(ops: string, k: nat)
    requires k < |ops|
  {
    ops[k] in "(+-*/" && (k > 0 && ops[k] != '(' ==> Precedence(ops[k - 1]) < Precedence(ops[k]))
  }

  predicate Disciplined(s: State, d: int) {
    match s
    case Stuck(f) => f == BadArithmetic
    case Live(values, ops, _) =>
      Climbing(ops) && Opens(ops) == d && |ops| <= 3 * d + 2 && |values| <= 2 * d + 3
  }

  predicate AllDisciplined(points: seq<Point>) {
    forall k :: 0 <= k < |points| ==> Disciplined(points[k].state, points[k].depth)
  }

  /** The invariant behind `Disciplined`: one value more than operators unless an operand is due. */
  predicate InStep(s: State, operandNext: bool, d: nat) {
    match s
    case Stuck(f) => f == BadArithmetic
    case Live(values, ops, _) =>
      && Climbing(ops) && Opens(ops) == d
      && |values| == |ops| - d + (if operandNext then 0 else 1)
  }

  lemma {:induction false} OpensAtMost(ops: string)
    ensures Opens(ops) <= |ops|
    ensures Climbing(ops) ==> |ops| <= 3 * Opens(ops) + if ops == [] then 0 else Precedence(Last(ops))
  {
    if ops == [] {
    } else {
      OpensAtMost(Init(ops));
      if Climbing(ops) { ClimbingInit(ops); }
    }
  }

  lemma InStepIsDisciplined(s: State, operandNext: bool, d: nat)
    requires InStep(s, operandNext, d)
    ensures Disciplined(s, d)
  {
    if s.Live? { OpensAtMost(s.ops); }
  }

  lemma ClimbingInit(ops: string)
    requires ops != [] && Climbing(ops)
    ensures Climbing(Init(ops)) && Last(ops) in "(+-*/"
    ensures |ops| > 1 && Last(ops) != '(' ==> Precedence(Last(Init(ops))) < Precedence(Last(ops))
  {
    assert ClimbsAt(ops, |ops| - 1);
    forall k | 0 <= k < |ops| - 1
      ensures ClimbsAt(Init(ops), k)
    {
      assert ClimbsAt(ops, k);
    }
  }

  /** A '(' can always be pushed, an operator on one of lower precedence. */
  lemma Push(ops: string, op: char)
    requires Climbing(ops) && op in "(+-*/"
    requires ops != [] && op != '(' ==> Precedence(Last(ops)) < Precedence(op)
    ensures Climbing(ops + [op]) && Opens(ops + [op]) == Opens(ops) + if op == '(' then 1 else 0
  {
    forall k | 0 <= k < |ops| + 1
      ensures ClimbsAt(ops + [op], k)
    {
      if k < |ops| { assert ClimbsAt(ops, k); }
    }
    assert Init(ops + [op]) == ops;
  }

  lemma ReduceOnceInStep(s: State, d: nat)
    requires s.Live? && s.ops != [] && Last(s.ops) != '(' && InStep(s, false, d)
    ensures InStep(ReduceOnce(s), false, d)
  {
    ClimbingInit(s.ops);
    OpensAtMost(Init(s.ops));
  }

  lemma {:induction false} ReduceInStep(s: State, g: Guard, d: nat)
    requires InStep(s, false, d) && !Holds(g, '(')
    ensures InStep(Reduce(s, g), false, d)
    ensures var r := Reduce(s, g); r.Live? && r.ops != [] ==> !Holds(g, Last(r.ops))
    decreases if s.Live? then |s.ops| else 0
  {
    if s.Live? && s.ops != [] && Holds(g, Last(s.ops)) {
      ReduceOnceInStep(s, d);
      if ReduceOnce(s).Live? { ReduceInStep(ReduceOnce(s), g, d); }
    }
  }

  predicate OperandNext(c: char, before: bool) {
    if c == ' ' then before else c in "(+-*/"
  }

  lemma CloseInStep(s: State, d: nat)
    requires d > 0 && InStep(s, false, d)
    ensures InStep(Close(s), false, d - 1)
  {
    ReduceInStep(s, UntilParen, d);
    var r := Reduce(s, UntilParen);
    if r.Live? {
      assert r.ops != [];
      assert Last(r.ops) == '(';
      ClimbingInit(r.ops);
    }
  }

  lemma OperatorInStep(s: State, op: char, d: nat)
    requires op in "+-*/" && InStep(s, false, d)
    ensures InStep(Operator(s, op), true, d)
  {
    hide Climbing, Opens, Reduce;
    ReduceInStep(s, AtLeast(Precedence(op)), d);
    var r := Reduce(s, AtLeast(Precedence(op)));
    if r.Live? { Push(r.ops, op); }
  }

  lemma StepInStep(s: State, input: string, operandNext: bool, d: nat)
    requires input != [] && Continues(input, operandNext, d) && InStep(s, operandNext, d)
    ensures d + DepthChange(input[0]) >= 0
    ensures InStep(Step(s, input), OperandNext(input[0], operandNext), d + DepthChange(input[0]))
  {
    hide Climbing, Opens, Close, Operator;
    var c := input[0];
    if s.Stuck? {
      StuckStep(s.fault, input);
    } else if c == '(' {
      Push(s.ops, c);
    } else if c == ')' {
      CloseInStep(s, d);
    } else if c in "+-*/" {
      OperatorInStep(s, c, d);
    }
  }

  lemma FirstPointDisciplined(s: State, d: nat, input: string, operandNext: bool)
    requires InStep(s, operandNext, d)
    requires input != [] ==>
      AllDisciplined(Points(Step(s, input), d + DepthChange(input[0]), input[Width(input)..]))
    ensures AllDisciplined(Points(s, d, input))
  {
    InStepIsDisciplined(s, operandNext, d);
  }

  lemma {:induction false} PointsDisciplined(s: State, input: string, operandNext: bool, d: nat)
    requires Continues(input, operandNext, d) && InStep(s, operandNext, d)
    ensures AllDisciplined(Points(s, d, input))
    decreases |input|
  {
    if input == [] {
    } else {
      StepInStep(s, input, operandNext, d);
      var n := OperandNext(input[0], operandNext);
      PointsDisciplined(Step(s, input), input[Width(input)..], n, d + DepthChange(input[0]));
    }
    FirstPointDisciplined(s, d, input, operandNext);
  }

  lemma {:induction false} ContinuesSpaces(n: nat, post: string, operandNext: bool, d: nat)
    requires Continues(post, operandNext, d)
    ensures Continues(Spaces(n) + post, operandNext, d)
  {
    if n == 0 {
      assert Spaces(0) + post == post;
    } else {
      assert (Spaces(n) + post)[1..] == Spaces(n - 1) + post;
      ContinuesSpaces(n - 1, post, operandNext, d);
    }
  }

  lemma {:induction false} ExprContinues(e: Expr, post: string, d: nat)
    requires NoDigitFirst(post) && Continues(post, false, d)
    ensures Continues(RenderExpr(e) + post, true, d)
    decreases e
  {
    match e
    case Single(t) => TermContinues(t, post, d);
    case Sum(l, sp, op, r) =>
      var tail := [AddChar(op)] + (RenderTerm(r) + post);
      assert RenderExpr(e) + post == RenderExpr(l) + (Spaces(sp) + tail);
      TermContinues(r, post, d);
      ContinuesSpaces(sp, tail, false, d);
      SpacesNoDigit(sp, tail);
      ExprContinues(l, Spaces(sp) + tail, d);
  }

  lemma {:induction false} TermContinues(t: Term, post: string, d: nat)
    requires NoDigitFirst(post) && Continues(post, false, d)
    ensures Continues(RenderTerm(t) + post, true, d)
    decreases t
  {
    match t
    case Lone(f) => FactorContinues(f, post, d);
    case Product(l, sp, op, r) =>
      var tail := [MulChar(op)] + (RenderFactor(r) + post);
      assert RenderTerm(t) + post == RenderTerm(l) + (Spaces(sp) + tail);
      FactorContinues(r, post, d);
      ContinuesSpaces(sp, tail, false, d);
      SpacesNoDigit(sp, tail);
      TermContinues(l, Spaces(sp) + tail, d);
  }

  lemma {:induction false} FactorContinues(f: Factor, post: string, d: nat)
    requires NoDigitFirst(post) && Continues(post, false, d)
    ensures Continues(RenderFactor(f) + post, true, d)
    decreases f
  {
    match f
    case Number(sp, ds) =>
      var input := ds + post;
      assert RenderFactor(f) + post == Spaces(sp) + input;
      DigitRunOf(ds, post);
      assert IsDigit(input[0]) && input[Width(input)..] == post;
      ContinuesSpaces(sp, input, true, d);
    case Paren(sp, e, csp) =>
      var close := [')'] + post;
      assert close[1..] == post;
      var body := RenderExpr(e) + (Spaces(csp) + close);
      assert RenderFactor(f) + post == Spaces(sp) + (['('] + body);
      ContinuesSpaces(csp, close, false, d + 1);
      SpacesNoDigit(csp, close);
      ExprContinues(e, Spaces(csp) + close, d + 1);
      ContinuesSpaces(sp, ['('] + body, true, d);
  }

  /**
   * Throughout the evaluation of an expression no pop meets an empty stack and no '(' is applied
   * as an operator; between rounds the precedences climb above every '(', and at depth d there
   * are at most 3d + 2 operators and 2d + 3 values.
   */
  lemma StackDiscipline(e: Expr, trailing: nat)
    ensures AllDisciplined(Points(INITIAL, 0, RenderExpr(e) + Spaces(trailing)))
  {
    var post := Spaces(trailing);
    SpacesNoDigit(trailing, []);
    ContinuesSpaces(trailing, [], false, 0);
    assert post + [] == post;
    ExprContinues(e, post, 0);
    PointsDisciplined(INITIAL, RenderExpr(e) + post, true, 0);
  }
}
