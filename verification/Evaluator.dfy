/** The two-stack expression evaluator: its steps as functions, and the program itself. */
module Evaluator {
  import opened Basics
  import opened Expressions

  /** Why a run has no defined result. */
  datatype Fault = EmptyStack | BadOperator | BadArithmetic

  /** The two stacks, topmost element last, and the operator applications made so far. */
  datatype State = Live(values: seq<int>, ops: string, calls: seq<Call>) | Stuck(fault: Fault)

  /** The loop condition of one of the three reduce loops, besides a non-empty operator stack. */
  datatype Guard = UntilParen | AtLeast(prec: nat) | Always

  datatype Outcome = Returned(value: int) | Undefined(fault: Fault)

  const INITIAL: State := Live([], [], [])

  function Last<T>(s: seq<T>): T
    requires s != []
  {
    s[|s| - 1]
  }

  function Init<T>(s: seq<T>): seq<T>
    requires s != []
  {
    s[..|s| - 1]
  }

  function Precedence(op: char): nat {
    if op == '+' || op == '-' then 1
    else if op == '*' || op == '/' then 2
    else 0
  }

  predicate Holds(g: Guard, op: char) {
    match g
    case UntilParen => op != '('
    case AtLeast(p) => Precedence(op) >= p
    case Always => true
  }

  /** Pops two values and an operator, and pushes the result. */
  function ReduceOnce(s: State): State
    requires s.Live? && s.ops != []
  {
    if |s.values| < 2 then Stuck(EmptyStack)
    else
      var a, b, op := Last(Init(s.values)), Last(s.values), Last(s.ops);
      if op !in "+-*/" then Stuck(BadOperator)
      else
        match Arithmetic(a, b, op)
        case None => Stuck(BadArithmetic)
        case Some(v) => Live(Init(Init(s.values)) + [v], Init(s.ops), s.calls + [Call(a, b, op, v)])
  }

  function Reduce(s: State, g: Guard): State
    decreases if s.Live? then |s.ops| else 0
  {
    if s.Stuck? || s.ops == [] || !Holds(g, Last(s.ops)) then s
    else
      var s' := ReduceOnce(s);
      if s'.Stuck? then s' else Reduce(s', g)
  }

  function PushValue(s: State, v: Option<int>): State {
    if s.Stuck? then s
    else if v.None? then Stuck(BadArithmetic)
    else s.(values := s.values + [v.value])
  }

  function PushOp(s: State, op: char): State {
    if s.Stuck? then s else s.(ops := s.ops + [op])
  }

  /** A closing parenthesis: reduce down to the opening one and drop it. */
  function Close(s: State): State {
    var r := Reduce(s, UntilParen);
    if r.Stuck? || r.ops == [] then r else r.(ops := Init(r.ops))
  }

  function Operator(s: State, op: char): State {
    PushOp(Reduce(s, AtLeast(Precedence(op))), op)
  }

  /** Length of the longest prefix of digits. */
  function DigitRun(input: string): (n: nat)
    ensures n <= |input|
    ensures forall k :: 0 <= k < n ==> IsDigit(input[k])
    ensures n < |input| ==> !IsDigit(input[n])
  {
    if input == [] || !IsDigit(input[0]) then 0 else 1 + DigitRun(input[1..])
  }

  /** How many characters one round of the scanning loop uses up. */
  function Width(input: string): (n: nat)
    requires input != []
    ensures 1 <= n <= |input|
  {
    if IsDigit(input[0]) then DigitRun(input) else 1
  }

  /** One round of the scanning loop. */
  function Step(s: State, input: string): State
    requires input != []
  {
    var c := input[0];
    if c == ' ' then s
    else if c == '(' then PushOp(s, c)
    else if IsDigit(c) then PushValue(s, Decimal(0, input[..DigitRun(input)]))
    else if c == ')' then Close(s)
    else Operator(s, c)
  }

  /** The scanning loop. */
  function Scan(s: State, input: string): State
    decreases |input|
  {
    if input == [] then s else Scan(Step(s, input), input[Width(input)..])
  }

  function Result(s: State): Outcome {
    if s.Stuck? then Undefined(s.fault)
    else if s.values == [] then Undefined(EmptyStack)
    else Returned(Last(s.values))
  }

  function FinalState(tokens: string): State {
    Reduce(Scan(INITIAL, tokens), Always)
  }

  // ----- the program

  lemma StuckStep(f: Fault, input: string)
    requires input != []
    ensures Step(Stuck(f), input) == Stuck(f)
  {
  }

  lemma {:induction false} StuckScan(f: Fault, input: string)
    ensures Scan(Stuck(f), input) == Stuck(f)
    decreases |input|
  {
    if input == [] {
    } else {
      StuckStep(f, input);
      StuckScan(f, input[Width(input)..]);
    }
  }

  method ApplyOp(a: int, b: int, op: char) returns (fault: Option<Fault>, v: int)
    ensures op !in "+-*/" ==> fault == Some(BadOperator)
    ensures op == '+' && -2147483648 <= a + b <= 2147483647 ==> fault == None && v == a + b
    ensures op == '-' && -2147483648 <= a - b <= 2147483647 ==> fault == None && v == a - b
    ensures op == '*' && -2147483648 <= a * b <= 2147483647 ==> fault == None && v == a * b
    ensures op in "+-*/" ==> match Arithmetic(a, b, op)
      case None => fault == Some(BadArithmetic)
      case Some(x) => fault == None && v == x
  {
    v := 0;
    if op == '/' && b == 0 {
      return Some(BadArithmetic), 0;
    }
    match op {
      case '+' => v := a + b;
      case '-' => v := a - b;
      case '*' => v := a * b;
      case '/' => v := TruncDiv(a, b);
      case _ => return Some(BadOperator), 0;
    }
    fault := if INT_MIN <= v <= INT_MAX then None else Some(BadArithmetic);
  }

  /** One round of the scanning loop over `tokens`, from index `i` to index `j`. */
  lemma ScanRound(s: State, tokens: string, i: nat, j: nat)
    requires i < |tokens| && j == i + Width(tokens[i..])
    ensures j <= |tokens| && Scan(s, tokens[i..]) == Scan(Step(s, tokens[i..]), tokens[j..])
  {
  }

  /** The body that the three reduce loops share. */
  method ReduceStep(values: seq<int>, ops: string, ghost calls: seq<Call>)
    returns (fault: Option<Fault>, values': seq<int>, ops': string, ghost calls': seq<Call>)
    requires ops != []
    ensures fault == None ==> ReduceOnce(Live(values, ops, calls)) == Live(values', ops', calls')
    ensures fault.Some? ==> ReduceOnce(Live(values, ops, calls)) == Stuck(fault.value)
  {
    values', ops', calls' := values, ops, calls;
    if values' == [] { return Some(EmptyStack), values', ops', calls'; }
    var val2 := values'[|values'| - 1];
    values' := values'[..|values'| - 1];
    if values' == [] { return Some(EmptyStack), values', ops', calls'; }
    var val1 := values'[|values'| - 1];
    values' := values'[..|values'| - 1];
    var op := ops'[|ops'| - 1];
    ops' := ops'[..|ops'| - 1];
    var v;
    fault, v := ApplyOp(val1, val2, op);
    values' := values' + [v];
    calls' := calls' + [Call(val1, val2, op, v)];
  }

  /** A reduce loop; the program writes it out three times, once for each guard. */
  method ReduceLoop(values: seq<int>, ops: string, ghost calls: seq<Call>, g: Guard)
    returns (fault: Option<Fault>, values': seq<int>, ops': string, ghost calls': seq<Call>)
    ensures fault == None ==> Reduce(Live(values, ops, calls), g) == Live(values', ops', calls')
    ensures fault.Some? ==> Reduce(Live(values, ops, calls), g) == Stuck(fault.value)
  {
    fault, values', ops', calls' := None, values, ops, calls;
    while ops' != [] && Holds(g, ops'[|ops'| - 1])
      invariant fault == None
      invariant Reduce(Live(values', ops', calls'), g) == Reduce(Live(values, ops, calls), g)
      decreases |ops'|
    {
      fault, values', ops', calls' := ReduceStep(values', ops', calls');
      if fault.Some? { return; }
    }
  }

  /** The digit loop: from `start` it stops behind the last digit, unless the number overflows. */
  method ReadNumber(tokens: string, start: nat) returns (val: Option<int>, i: nat)
    requires start < |tokens| && IsDigit(tokens[start])
    ensures val == Decimal(0, tokens[start..][..DigitRun(tokens[start..])])
    ensures val.Some? ==> i == start + DigitRun(tokens[start..])
  {
    ghost var n := DigitRun(tokens[start..]);
    ghost var digits := tokens[start..][..n];
    var v := 0;
    i := start;
    while i < |tokens| && IsDigit(tokens[i])
      invariant start <= i <= start + n <= |tokens|
      invariant Decimal(0, digits) == Decimal(v, digits[i - start..])
    {
      assert tokens[i] == tokens[start..][i - start];
      assert digits[i - start..][1..] == digits[i + 1 - start..];
      v := v * 10 + (tokens[i] as int - '0' as int);
      if v > INT_MAX {
        return None, i;
      }
      i := i + 1;
    }
    assert forall k :: start <= k < start + n ==> IsDigit(tokens[k]) by {
      forall k | start <= k < start + n ensures IsDigit(tokens[k]) { assert IsDigit(digits[k - start]); }
    }
    val := Some(v);
  }

  /** The body of the scanning loop. */
  method Round(tokens: string, i: nat, values: seq<int>, ops: string, ghost calls: seq<Call>)
    returns (fault: Option<Fault>, next: nat, values': seq<int>, ops': string, ghost calls': seq<Call>)
    requires i < |tokens|
    ensures fault == None ==> next == i + Width(tokens[i..])
    ensures Step(Live(values, ops, calls), tokens[i..])
         == if fault.Some? then Stuck(fault.value) else Live(values', ops', calls')
  {
    fault, next, values', ops', calls' := None, i + 1, values, ops, calls;
    if tokens[i] == ' ' {
      return;
    } else if tokens[i] == '(' {
      ops' := ops' + [tokens[i]];
    } else if IsDigit(tokens[i]) {
      var val;
      val, next := ReadNumber(tokens, i);
      if val.None? {
        fault := Some(BadArithmetic);
      } else {
        values' := values' + [val.value];
      }
    } else if tokens[i] == ')' {
      fault, values', ops', calls' := ReduceLoop(values', ops', calls', UntilParen);
      if fault == None && ops' != [] {
        ops' := ops'[..|ops'| - 1];
      }
    } else {
      fault, values', ops', calls' := ReduceLoop(values', ops', calls', AtLeast(Precedence(tokens[i])));
      ops' := ops' + [tokens[i]];
    }
  }

  method Evaluate(tokens: string) returns (outcome: Outcome, ghost calls: seq<Call>)
    ensures outcome == Result(FinalState(tokens))
    ensures FinalState(tokens).Live? ==> calls == FinalState(tokens).calls
  {
    var values: seq<int>, ops: string := [], [];
    calls := [];
    var fault: Option<Fault>;
    var i := 0;
    while i < |tokens|
      invariant i <= |tokens|
      invariant Scan(Live(values, ops, calls), tokens[i..]) == Scan(INITIAL, tokens)
    {
      ghost var next := i + Width(tokens[i..]);
      ScanRound(Live(values, ops, calls), tokens, i, next);
      fault, i, values, ops, calls := Round(tokens, i, values, ops, calls);
      if fault.Some? {
        StuckScan(fault.value, tokens[next..]);
        return Undefined(fault.value), calls;
      }
    }
    fault, values, ops, calls := ReduceLoop(values, ops, calls, Always);
    if fault.Some? {
      return Undefined(fault.value), calls;
    }
    if values == [] {
      return Undefined(EmptyStack), calls;
    }
    outcome := Returned(values[|values| - 1]);
  }
}
