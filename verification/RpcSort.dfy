/** The arithmetic service of the RPC exercise, whose array sort swaps by adding and subtracting. */
module RpcSort {
  import Expressions

  type Int32 = x: int | -0x8000_0000 <= x < 0x8000_0000

  /** Two's complement truncation to 32 bits. */
  function Wrap(x: int): Int32 {
    (x + 0x8000_0000) % 0x1_0000_0000 - 0x8000_0000
  }

  /** A result of C arithmetic: the exact one if it fits 32 bits, and congruent to it in any case. */
  lemma WrapTruncates(x: int)
    ensures -2147483648 <= Wrap(x) <= 2147483647 && (Wrap(x) - x) % 4294967296 == 0
    ensures -2147483648 <= x <= 2147483647 ==> Wrap(x) == x
  {
    assert Wrap(x) - x == -4294967296 * ((x + 2147483648) / 4294967296);
  }

  /** The three assignments exchange their operands even when the sum does not fit. */
  lemma SwapByArithmetic(a: Int32, b: Int32, sum: int)
    requires sum == Wrap(a as int + b as int)
    ensures Wrap(sum - b) == a && Wrap(sum - a) == b
  {
  }

  predicate SortedExcept(s: seq<int>, hi: int, j: int)
    requires hi <= |s|
  {
    forall p, q :: 0 <= p < q < hi && q != j ==> s[p] <= s[q]
  }

  /** The element at `j` compared with its neighbour, in a prefix sorted but for that element. */
  lemma SinkStep(s: seq<Int32>, t: seq<Int32>, i: nat, j: nat)
    requires 0 < j <= i < |s| && SortedExcept(s, i + 1, j)
    requires t == if s[j] < s[j - 1] then s[j := s[j - 1]][j - 1 := s[j]] else s
    ensures SortedExcept(t, i + 1, j - 1) && multiset(t) == multiset(s) && t[i + 1..] == s[i + 1..]
  {
  }

  method SwapDown(arr: array<Int32>, j: nat)
    requires 0 < j < arr.Length
    modifies arr
    ensures arr[..] == old(arr[..])[j := old(arr[j - 1])][j - 1 := old(arr[j])]
  {
    hide Wrap;
    SwapByArithmetic(arr[j], arr[j - 1], Wrap(arr[j] as int + arr[j - 1] as int));
    arr[j] := Wrap(arr[j] as int + arr[j - 1] as int);
    arr[j - 1] := Wrap(arr[j] as int - arr[j - 1] as int);
    arr[j] := Wrap(arr[j] as int - arr[j - 1] as int);
  }

  /** One round of the outer loop: element `i` sinks into the sorted elements before it. */
  method Insert(arr: array<Int32>, i: nat)
    requires 0 < i < arr.Length && SortedExcept(arr[..], i, -1)
    modifies arr
    ensures SortedExcept(arr[..], i + 1, -1)
    ensures multiset(arr[..]) == multiset(old(arr[..]))
    ensures arr[i + 1..] == old(arr[i + 1..])
  {
    var j := i;
    while j > 0
      invariant j <= i && SortedExcept(arr[..], i + 1, j)
      invariant multiset(arr[..]) == multiset(old(arr[..]))
      invariant arr[..][i + 1..] == old(arr[..])[i + 1..]
    {
      ghost var before := arr[..];
      if arr[j] < arr[j - 1] {
        SwapDown(arr, j);
      }
      SinkStep(before, arr[..], i, j);
      j := j - 1;
    }
  }

  /** The sort: the first `len` elements are put in order, nothing behind them is touched. */
  method Sort(arr: array<Int32>, len: int)
    requires len <= arr.Length
    modifies arr
    ensures forall p, q :: 0 <= p < q < len ==> arr[p] <= arr[q]
    ensures len >= 0 ==> multiset(arr[..len]) == multiset(old(arr[..len]))
    ensures len >= 0 ==> arr[len..] == old(arr[len..])
    ensures len < 0 ==> arr[..] == old(arr[..])
  {
    var i := 1;
    while i < len
      invariant 1 <= i && (len >= 1 ==> i <= len && SortedExcept(arr[..], i, -1))
      invariant multiset(arr[..]) == multiset(old(arr[..]))
      invariant len >= 1 ==> arr[len..] == old(arr[len..])
      invariant len < 1 ==> arr[..] == old(arr[..])
    {
      Insert(arr, i);
      i := i + 1;
    }
    if len >= 1 {
      PrefixElements(arr[..], old(arr[..]), len);
    }
  }

  lemma PrefixElements(s: seq<Int32>, t: seq<Int32>, n: nat)
    requires n <= |s| == |t| && multiset(s) == multiset(t) && s[n..] == t[n..]
    ensures multiset(s[..n]) == multiset(t[..n])
  {
    assert s == s[..n] + s[n..] && t == t[..n] + t[n..];
    assert multiset(s[..n]) == multiset(s) - multiset(s[n..]);
    assert multiset(t[..n]) == multiset(t) - multiset(t[n..]);
  }

  // ----- the remote procedure

  class Operations {
    var op1: Int32
    var op2: Int32
    const arr: array<Int32>
    var len: int
    var result: Int32
    var operation: int

    constructor (arr: array<Int32>)
      ensures this.arr == arr
    {
      this.arr := arr;
      op1, op2, len, result, operation := 0, 0, 0, 0, 0;
    }
  }

  /**
   * The procedure on its copy of the request. Results are exact if they fit 32 bits, and otherwise
   * congruent to the exact ones modulo 2^32. The case for division has no `break`, so dividing
   * sorts the array as well. Division by zero and INT_MIN / -1 have no defined result in C.
   */
  method MathProc(rtn: Operations)
    requires rtn.len <= rtn.arr.Length
    requires rtn.operation == 4 ==> rtn.op2 != 0 && !(rtn.op1 == -2147483648 && rtn.op2 == -1)
    modifies rtn`result, rtn.arr
    ensures rtn.operation == 1 ==>
      var sum := rtn.op1 as int + rtn.op2 as int;
      (rtn.result - sum) % 4294967296 == 0 && (-2147483648 <= sum <= 2147483647 ==> rtn.result == sum)
    ensures rtn.operation == 2 ==>
      var difference := rtn.op1 as int - rtn.op2 as int;
      && (rtn.result - difference) % 4294967296 == 0
      && (-2147483648 <= difference <= 2147483647 ==> rtn.result == difference)
    ensures rtn.operation == 3 ==>
      var product := rtn.op1 as int * rtn.op2 as int;
      (rtn.result - product) % 4294967296 == 0 && (-2147483648 <= product <= 2147483647 ==> rtn.result == product)
    ensures rtn.operation == 4 ==>
      var a: int, b: int := rtn.op1, rtn.op2;
      var rem := a - b * rtn.result;
      (-b < rem < b || b < rem < -b) && (rem > 0 ==> a > 0) && (rem < 0 ==> a < 0)
    ensures -2147483648 <= rtn.result <= 2147483647
    ensures rtn.operation !in {1, 2, 3, 4} ==> rtn.result == old(rtn.result)
    ensures rtn.operation in {4, 5} ==> forall p, q :: 0 <= p < q < rtn.len ==> rtn.arr[p] <= rtn.arr[q]
    ensures rtn.operation in {4, 5} && rtn.len >= 0 ==>
      && multiset(rtn.arr[..rtn.len]) == multiset(old(rtn.arr[..rtn.len]))
      && rtn.arr[rtn.len..] == old(rtn.arr[rtn.len..])
    ensures rtn.operation !in {4, 5} || rtn.len < 0 ==> rtn.arr[..] == old(rtn.arr[..])
  {
    hide Wrap;
    if rtn.operation == 1 {
      WrapTruncates(rtn.op1 as int + rtn.op2 as int);
      rtn.result := Wrap(rtn.op1 as int + rtn.op2 as int);
    } else if rtn.operation == 2 {
      WrapTruncates(rtn.op1 as int - rtn.op2 as int);
      rtn.result := Wrap(rtn.op1 as int - rtn.op2 as int);
    } else if rtn.operation == 3 {
      WrapTruncates(rtn.op1 as int * rtn.op2 as int);
      rtn.result := Wrap(rtn.op1 as int * rtn.op2 as int);
    } else if rtn.operation == 4 {
      WrappedQuotient(rtn.op1, rtn.op2);
      ghost var q := Expressions.TruncDiv(rtn.op1, rtn.op2);
      Expressions.TruncDivIsC(rtn.op1, rtn.op2, q, rtn.op1 - rtn.op2 * q);
      rtn.result := Wrap(Expressions.TruncDiv(rtn.op1, rtn.op2));
      Sort(rtn.arr, rtn.len);
    } else if rtn.operation == 5 {
      Sort(rtn.arr, rtn.len);
    }
  }

  /** A truncated quotient is exact in 32 bits but for INT_MIN / -1. */
  lemma WrappedQuotient(a: Int32, b: Int32)
    requires b != 0 && !(a == -2147483648 && b == -1)
    ensures Wrap(Expressions.TruncDiv(a, b)) == Expressions.TruncDiv(a, b)
  {
    Expressions.QuotientFits(a, b);
    WrapTruncates(Expressions.TruncDiv(a, b));
  }
}
