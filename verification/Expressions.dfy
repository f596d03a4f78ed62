/**
 * Arithmetic expressions as the evaluator's users write them, with the value they should have.
 * A tree is a derivation of the grammar E -> E (+|-) T | T, T -> T (*|/) F | F,
 * F -> digits | (E), and records the spaces in front of every token, so rendering
 * trees yields every derivable string with every spacing.
 */
module Expressions {
  import opened Basics
  import NumberText

  const INT_MIN := -0x8000_0000
  const INT_MAX := 0x7fff_ffff

  datatype Additive = Plus | Minus
  datatype Multiplicative = Times | Over

  type Digits = ds: string | ds != [] && forall k :: 0 <= k < |ds| ==> IsDigit(ds[k]) witness "0"

  datatype Expr = Single(t: Term) | Sum(l: Expr, opSpaces: nat, add: Additive, r: Term)
  datatype Term = Lone(f: Factor) | Product(l: Term, opSpaces: nat, mul: Multiplicative, r: Factor)
  datatype Factor = Number(spaces: nat, digits: Digits) | Paren(spaces: nat, e: Expr, closeSpaces: nat)

  predicate IsDigit(c: char) {
    '0' <= c <= '9'
  }

  // ----- the strings of the grammar

  function AddChar(op: Additive): char {
    if op.Plus? then '+' else '-'
  }

  function MulChar(op: Multiplicative): char {
    if op.Times? then '*' else '/'
  }

  function RenderExpr(e: Expr): string {
    match e
    case Single(t) => RenderTerm(t)
    case Sum(l, sp, op, r) => RenderExpr(l) + (Spaces(sp) + ([AddChar(op)] + RenderTerm(r)))
  }

  function RenderTerm(t: Term): string {
    match t
    case Lone(f) => RenderFactor(f)
    case Product(l, sp, op, r) => RenderTerm(l) + (Spaces(sp) + ([MulChar(op)] + RenderFactor(r)))
  }

  function RenderFactor(f: Factor): string {
    match f
    case Number(sp, ds) => Spaces(sp) + ds
    case Paren(sp, e, csp) => Spaces(sp) + (['('] + (RenderExpr(e) + (Spaces(csp) + [')'])))
  }

  // ----- C arithmetic on 32-bit `int`, where overflow and a zero divisor have no defined result

  function Abs(x: int): nat {
    if x < 0 then -x else x
  }

  /** C division: the quotient is truncated toward zero. */
  function TruncDiv(a: int, b: int): int
    requires b != 0
  {
    if (a < 0) == (b < 0) then Abs(a) / Abs(b) else -(Abs(a) / Abs(b))
  }

  function Checked(x: int): Option<int> {
    if INT_MIN <= x <= INT_MAX then Some(x) else None
  }

  function Arithmetic(a: int, b: int, op: char): Option<int>
    requires op in "+-*/"
  {
    match op
    case '+' => Checked(a + b)
    case '-' => Checked(a - b)
    case '*' => Checked(a * b)
    case _ => if b == 0 then None else Checked(TruncDiv(a, b))
  }

  /** Decimal value of `ds` with `val` read before it, unless it leaves the `int` range. */
  function Decimal(val: int, ds: string): Option<int>
    decreases ds
  {
    if ds == [] then Some(val)
    else if val * 10 + (ds[0] as int - '0' as int) > INT_MAX then None
    else Decimal(val * 10 + (ds[0] as int - '0' as int), ds[1..])
  }

  // ----- the meaning of an expression

  /** One application of an operator: its operands, the operator and its result. */
  datatype Call = Call(a: int, b: int, op: char, result: int)

  /** A value together with the operator applications that produced it, operands first. */
  datatype Meaning = Meaning(value: int, calls: seq<Call>)

  function Combine(l: Option<Meaning>, op: char, r: Option<Meaning>): Option<Meaning>
    requires op in "+-*/"
  {
    if l.None? || r.None? then None
    else
      var a, b := l.value.value, r.value.value;
      match Arithmetic(a, b, op)
      case None => None
      case Some(v) => Some(Meaning(v, l.value.calls + r.value.calls + [Call(a, b, op, v)]))
  }

  function MeaningOfExpr(e: Expr): Option<Meaning> {
    match e
    case Single(t) => MeaningOfTerm(t)
    case Sum(l, _, op, r) => Combine(MeaningOfExpr(l), AddChar(op), MeaningOfTerm(r))
  }

  function MeaningOfTerm(t: Term): Option<Meaning> {
    match t
    case Lone(f) => MeaningOfFactor(f)
    case Product(l, _, op, r) => Combine(MeaningOfTerm(l), MulChar(op), MeaningOfFactor(r))
  }

  function MeaningOfFactor(f: Factor): Option<Meaning> {
    match f
    case Number(_, ds) =>
      (match Decimal(0, ds)
       case None => None
       case Some(v) => Some(Meaning(v, [])))
    case Paren(_, e, _) => MeaningOfExpr(e)
  }

  // ----- the value in plain arithmetic

  function ValueOfExpr(e: Expr): int {
    match e
    case Single(t) => ValueOfTerm(t)
    case Sum(l, _, Plus, r) => ValueOfExpr(l) + ValueOfTerm(r)
    case Sum(l, _, Minus, r) => ValueOfExpr(l) - ValueOfTerm(r)
  }

  function ValueOfTerm(t: Term): int {
    match t
    case Lone(f) => ValueOfFactor(f)
    case Product(l, _, Times, r) => ValueOfTerm(l) * ValueOfFactor(r)
    case Product(l, _, Over, r) => if ValueOfFactor(r) == 0 then 0 else TruncDiv(ValueOfTerm(l), ValueOfFactor(r))
  }

  function ValueOfFactor(f: Factor): int {
    match f
    case Number(_, ds) => NumberText.Value(ds)
    case Paren(_, e, _) => ValueOfExpr(e)
  }

  predicate Fits(x: int) {
    INT_MIN <= x <= INT_MAX
  }

  /** Every number and every intermediate value fits an `int`, and nothing is divided by zero. */
  predicate DefinedExpr(e: Expr) {
    match e
    case Single(t) => DefinedTerm(t)
    case Sum(l, _, _, r) => DefinedExpr(l) && DefinedTerm(r) && Fits(ValueOfExpr(e))
  }

  predicate DefinedTerm(t: Term) {
    match t
    case Lone(f) => DefinedFactor(f)
    case Product(l, _, op, r) =>
      DefinedTerm(l) && DefinedFactor(r) && Fits(ValueOfTerm(t)) && (op.Over? ==> ValueOfFactor(r) != 0)
  }

  predicate DefinedFactor(f: Factor) {
    match f
    case Number(_, ds) => Fits(ValueOfFactor(f))
    case Paren(_, e, _) => DefinedExpr(e)
  }

  /** The value of every number and of every application of an operator in the tree. */
  function NodesOfExpr(e: Expr): seq<int> {
    match e
    case Single(t) => NodesOfTerm(t)
    case Sum(l, _, _, r) => NodesOfExpr(l) + NodesOfTerm(r) + [ValueOfExpr(e)]
  }

  function NodesOfTerm(t: Term): seq<int> {
    match t
    case Lone(f) => NodesOfFactor(f)
    case Product(l, _, _, r) => NodesOfTerm(l) + NodesOfFactor(r) + [ValueOfTerm(t)]
  }

  function NodesOfFactor(f: Factor): seq<int> {
    match f
    case Number(_, _) => [ValueOfFactor(f)]
    case Paren(_, e, _) => NodesOfExpr(e)
  }

  /** The value of every divisor in the tree. */
  function DivisorsOfExpr(e: Expr): seq<int> {
    match e
    case Single(t) => DivisorsOfTerm(t)
    case Sum(l, _, _, r) => DivisorsOfExpr(l) + DivisorsOfTerm(r)
  }

  function DivisorsOfTerm(t: Term): seq<int> {
    match t
    case Lone(f) => DivisorsOfFactor(f)
    case Product(l, _, Times, r) => DivisorsOfTerm(l) + DivisorsOfFactor(r)
    case Product(l, _, Over, r) => DivisorsOfTerm(l) + DivisorsOfFactor(r) + [ValueOfFactor(r)]
  }

  function DivisorsOfFactor(f: Factor): seq<int> {
    match f
    case Number(_, _) => []
    case Paren(_, e, _) => DivisorsOfExpr(e)
  }

  /** All of `values` are 32-bit integers, and no divisor is zero. */
  predicate Sound(values: seq<int>, divisors: seq<int>) {
    0 !in divisors && forall v :: v in values ==> -2147483648 <= v <= 2147483647
  }

  lemma SoundJoin(a: seq<int>, b: seq<int>, da: seq<int>, db: seq<int>)
    ensures Sound(a + b, da + db) <==> Sound(a, da) && Sound(b, db)
  {
    if Sound(a + b, da + db) {
      assert forall v :: v in a || v in b ==> v in a + b;
    }
  }

  /** One more value, and as a divisor perhaps another. */
  lemma SoundOne(a: seq<int>, da: seq<int>, v: int, d: int)
    ensures Sound(a + [v], da) <==> Sound(a, da) && Fits(v)
    ensures Sound(a + [v], da + [d]) <==> Sound(a, da) && Fits(v) && d != 0
  {
    assert v in a + [v] && d in da + [d];
    SoundJoin(a, [v], da, []);
    SoundJoin(a, [v], da, [d]);
    assert da + [] == da && v in [v] && d in [d];
  }

  lemma {:induction false} DefinedIsSound(e: Expr)
    ensures DefinedExpr(e) <==> Sound(NodesOfExpr(e), DivisorsOfExpr(e))
    decreases e
  {
    match e
    case Single(t) => TermDefinedIsSound(t);
    case Sum(l, _, _, r) =>
      DefinedIsSound(l);
      TermDefinedIsSound(r);
      SoundJoin(NodesOfExpr(l), NodesOfTerm(r), DivisorsOfExpr(l), DivisorsOfTerm(r));
      SoundOne(NodesOfExpr(l) + NodesOfTerm(r), DivisorsOfExpr(e), ValueOfExpr(e), 0);
  }

  lemma {:induction false} TermDefinedIsSound(t: Term)
    ensures DefinedTerm(t) <==> Sound(NodesOfTerm(t), DivisorsOfTerm(t))
    decreases t
  {
    match t
    case Lone(f) => FactorDefinedIsSound(f);
    case Product(l, _, _, r) =>
      TermDefinedIsSound(l);
      FactorDefinedIsSound(r);
      SoundJoin(NodesOfTerm(l), NodesOfFactor(r), DivisorsOfTerm(l), DivisorsOfFactor(r));
      SoundOne(NodesOfTerm(l) + NodesOfFactor(r), DivisorsOfTerm(l) + DivisorsOfFactor(r),
               ValueOfTerm(t), ValueOfFactor(r));
  }

  lemma {:induction false} FactorDefinedIsSound(f: Factor)
    ensures DefinedFactor(f) <==> Sound(NodesOfFactor(f), DivisorsOfFactor(f))
    decreases f
  {
    match f
    case Number(_, _) => SoundOne([], [], ValueOfFactor(f), 0);
    case Paren(_, e, _) => DefinedIsSound(e);
  }

  /** The meaning exists exactly for defined expressions, and its value is the plain value. */
  lemma {:induction false} MeaningIsValue(e: Expr)
    ensures MeaningOfExpr(e).Some? <==> DefinedExpr(e)
    ensures MeaningOfExpr(e).Some? ==> MeaningOfExpr(e).value.value == ValueOfExpr(e)
    decreases e
  {
    match e
    case Single(t) => TermMeaningIsValue(t);
    case Sum(l, _, _, r) =>
      MeaningIsValue(l);
      TermMeaningIsValue(r);
  }

  lemma {:induction false} TermMeaningIsValue(t: Term)
    ensures MeaningOfTerm(t).Some? <==> DefinedTerm(t)
    ensures MeaningOfTerm(t).Some? ==> MeaningOfTerm(t).value.value == ValueOfTerm(t)
    decreases t
  {
    match t
    case Lone(f) => FactorMeaningIsValue(f);
    case Product(l, _, _, r) =>
      TermMeaningIsValue(l);
      FactorMeaningIsValue(r);
  }

  lemma {:induction false} FactorMeaningIsValue(f: Factor)
    ensures MeaningOfFactor(f).Some? <==> DefinedFactor(f)
    ensures MeaningOfFactor(f).Some? ==> MeaningOfFactor(f).value.value == ValueOfFactor(f)
    decreases f
  {
    match f
    case Number(_, ds) =>
      DecimalIsValue("", ds);
      assert "" + ds == ds;
    case Paren(_, e, _) => MeaningIsValue(e);
  }

  /** Reading digits from the left gives their positional value, unless that exceeds an `int`. */
  lemma {:induction false} DecimalIsValue(read: string, ds: string)
    requires forall k :: 0 <= k < |read| ==> IsDigit(read[k])
    requires forall k :: 0 <= k < |ds| ==> IsDigit(ds[k])
    ensures 0 <= NumberText.Value(read) <= NumberText.Value(read + ds)
    ensures NumberText.Value(read) <= INT_MAX ==>
      Decimal(NumberText.Value(read), ds)
        == if NumberText.Value(read + ds) <= INT_MAX then Some(NumberText.Value(read + ds)) else None
    decreases |ds|, |read|
  {
    if ds == [] {
      assert read + ds == read;
      if read != [] {
        var init := read[..|read| - 1];
        DecimalIsValue(init, []);
      }
    } else {
      var read' := read + [ds[0]];
      assert read'[..|read|] == read;
      assert read' + ds[1..] == read + ds;
      DecimalIsValue(read, []);
      DecimalIsValue(read', ds[1..]);
    }
  }

  /** `TruncDiv` is the C quotient: the remainder is smaller than the divisor and has the sign of `a`. */
  lemma TruncDivIsC(a: int, b: int, t: int, rem: int)
    requires b != 0 && t == TruncDiv(a, b) && rem == a - b * t
    ensures -b < rem < b || b < rem < -b
    ensures (rem > 0 ==> a > 0) && (rem < 0 ==> a < 0)
  {
    TruncDivRemainder(a, b, t, rem);
  }

  lemma TruncDivRemainder(a: int, b: int, t: int, rem: int)
    requires b != 0 && t == TruncDiv(a, b) && rem == a - b * t
    ensures Abs(rem) < Abs(b) && (rem > 0 ==> a > 0) && (rem < 0 ==> a < 0)
  {
  }

  lemma Doubles(q: nat, y: nat)
    requires y > 0
    ensures q <= q * y && (y > 1 ==> 2 * q <= q * y)
  {
  }

  lemma SmallQuotient(x: nat, y: nat)
    requires y > 0
    ensures 0 <= x / y <= x && (y > 1 && x > 0 ==> x / y < x) && x / 1 == x
  {
    var q := x / y;
    assert x == q * y + x % y;
    Doubles(q, y);
  }

  /** Only INT_MIN / -1 leaves the 32-bit integers. */
  lemma QuotientFits(a: int, b: int)
    requires -2147483648 <= a <= 2147483647 && b != 0
    ensures -2147483648 <= TruncDiv(a, b) <= 2147483647 <==> !(a == -2147483648 && b == -1)
  {
    SmallQuotient(Abs(a), Abs(b));
  }

}
