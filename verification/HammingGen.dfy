/** The Hamming generator: lengths, data layout and parity fill. */
module HammingGen {
  import opened Bits
  import opened HammingCode

  /** The 0-based positions below `len` whose 1-based number meets `posBit`, ascending. */
  function Group(posBit: nat, len: nat): seq<nat> {
    if len == 0 then []
    else Group(posBit, len - 1) + if And(len, posBit) != 0 then [len - 1] else []
  }

  predicate InRange(positions: seq<nat>, n: nat) {
    forall k :: 0 <= k < |positions| ==> positions[k] < n
  }

  function CountOnes(positions: seq<nat>, w: string): nat
    requires InRange(positions, |w|)
  {
    if positions == [] then 0
    else CountOnes(positions[..|positions| - 1], w) + BitOf(One(w[positions[|positions| - 1]]))
  }

  method FindLength(len: nat) returns (n: nat)
    ensures n >= len && GeneratorRedundancy(len, n - len)
  {
    var r := 0;
    while Pow2(r) < len + r + 1
      invariant forall s: nat :: s < r ==> Pow2(s) < len + s + 1
      decreases len + 1 - r
    {
      if r >= len + 1 { GrowsPast(len, r); }
      r := r + 1;
    }
    n := len + r;
  }

  lemma {:induction false} GrowsPast(len: nat, r: nat)
    requires r >= len + 1
    ensures Pow2(r) >= len + r + 1
  {
    Pow2AboveExponent(r - 1);
  }

  method GenerateUnprocessedCode(inp: string, len: nat) returns (res: string)
    requires DataCount(len) <= |inp|
    ensures |res| == len
    ensures DataOf(res) == inp[..DataCount(len)]
    ensures forall k :: 0 <= k < len && IsPow2(k + 1) ==> res[k] == '*'
  {
    var sz, index := 0, 0;
    res := seq(len, _ => '*');
    while sz < len
      invariant sz <= len == |res|
      invariant index == DataCount(sz) <= |inp|
      invariant DataOf(res[..sz]) == inp[..index]
      invariant forall k :: 0 <= k < len && (IsPow2(k + 1) || sz <= k) ==> res[k] == '*'
    {
      DataCountMonotone(sz + 1, len);
      ghost var before := res;
      if !IsPow2(sz + 1) {
        res := res[sz := inp[index]];
        index := index + 1;
      }
      sz := sz + 1;
      assert res[..sz][..sz - 1] == before[..sz - 1];
    }
    assert res[..sz] == res;
  }

  method FindPositions(posBit: nat, len: nat) returns (pos: seq<nat>)
    ensures pos == Group(posBit, len)
    ensures forall p: nat :: p in pos <==> p < len && And(p + 1, posBit) != 0
  {
    pos := [];
    var i := 0;
    while i < len
      invariant i <= len && pos == Group(posBit, i)
    {
      if And(i + 1, posBit) != 0 {
        pos := pos + [i];
      }
      i := i + 1;
    }
    GroupMembers(posBit, len);
  }

  method GetParityBit(positions: seq<nat>, inpStr: string) returns (bit: nat)
    requires InRange(positions, |inpStr|)
    ensures bit == CountOnes(positions, inpStr) % 2
  {
    var cnt := 0;
    var i := 0;
    while i < |positions|
      invariant i <= |positions| && cnt == CountOnes(positions[..i], inpStr)
    {
      assert positions[..i + 1][..i] == positions[..i];
      if inpStr[positions[i]] == '1' {
        cnt := cnt + 1;
      }
      i := i + 1;
    }
    assert positions[..i] == positions;
    if cnt % 2 == 0 {
      return 0;
    }
    return 1;
  }

  lemma {:induction false} GroupInRange(posBit: nat, len: nat)
    ensures InRange(Group(posBit, len), len)
  {
    if len == 0 {
    } else {
      GroupInRange(posBit, len - 1);
    }
  }

  lemma {:induction false} GroupMembers(posBit: nat, len: nat)
    ensures forall p: nat :: p in Group(posBit, len) <==> p < len && And(p + 1, posBit) != 0
  {
    if len == 0 {
    } else {
      GroupMembers(posBit, len - 1);
    }
  }

  lemma CountLast(w: string, i: nat, len: nat)
    requires 0 < len <= |w|
    requires InRange(Group(Pow2(i), len - 1), |w|) && InRange(Group(Pow2(i), len), |w|)
    ensures CountOnes(Group(Pow2(i), len), w)
         == CountOnes(Group(Pow2(i), len - 1), w) + BitOf(One(w[len - 1]) && Bit(len, i))
  {
    AndPow2(len, i);
    var g := Group(Pow2(i), len - 1);
    assert (g + [len - 1])[..|g|] == g;
    assert g + [] == g;
  }

  lemma ParityLast(w: string, i: nat, len: nat)
    requires 0 < len <= |w|
    ensures Parity(w[..len], i) <==> Parity(w[..len - 1], i) != (One(w[len - 1]) && Bit(len, i))
  {
    assert w[..len][..len - 1] == w[..len - 1];
  }

  lemma EmptyGroup(w: string, i: nat)
    ensures Group(Pow2(i), 0) == [] && CountOnes([], w) == 0 && !Parity(w[..0], i)
  {
  }

  /** Counting the ones of the group of 2^i computes parity `i`. */
  lemma {:induction false} CountIsParity(w: string, i: nat, len: nat)
    requires len <= |w|
    ensures InRange(Group(Pow2(i), len), |w|)
    ensures CountOnes(Group(Pow2(i), len), w) % 2 == BitOf(Parity(w[..len], i))
  {
    hide CountOnes, Group, Parity, Bit, Pow2, One;
    GroupInRange(Pow2(i), len);
    if len == 0 {
      EmptyGroup(w, i);
    } else {
      CountIsParity(w, i, len - 1);
      CountLast(w, i, len);
      ParityLast(w, i, len);
    }
  }

  lemma GroupParity(w: string, i: nat)
    ensures InRange(Group(Pow2(i), |w|), |w|)
    ensures CountOnes(Group(Pow2(i), |w|), w) % 2 == BitOf(Parity(w, i))
  {
    CountIsParity(w, i, |w|);
    assert w[..|w|] == w;
  }

  /** What the first `i` rounds of the parity fill have made of `str`. */
  ghost predicate Filled(str: string, res: string, i: nat) {
    && |res| == |str|
    && DataOf(res) == DataOf(str)
    && (forall j: nat :: j < i ==> FilledAt(str, res, j))
    && (forall j: nat :: i <= j && Pow2(j) <= |str| ==> res[Pow2(j) - 1] == str[Pow2(j) - 1])
  }

  ghost predicate FilledAt(str: string, res: string, j: nat)
    requires |res| == |str|
  {
    && Pow2(j) <= |str|
    && (Parity(res, j) <==> One(str[Pow2(j) - 1]))
    && IsBinary(res[Pow2(j) - 1])
  }

  lemma Refill(str: string, res: string, i: nat, bit: char)
    requires Filled(str, res, i) && Pow2(i) <= |str|
    requires bit == if Parity(res, i) then '1' else '0'
    ensures Filled(str, res[Pow2(i) - 1 := bit], i + 1)
  {
    hide Parity, DataOf, Bit, IsPow2, Pow2;
    var res' := res[Pow2(i) - 1 := bit];
    Pow2IsPow2(i);
    DataIgnoresParity(res, Pow2(i) - 1, bit);
    forall j: nat | j <= i
      ensures FilledAt(str, res', j)
    {
      if j < i {
        assert FilledAt(str, res, j);
        Pow2Monotone(j, i);
      }
      ParityUpdate(res, Pow2(i) - 1, bit, j);
      Pow2Bit(i, j);
    }
    forall j: nat | i < j && Pow2(j) <= |str|
      ensures res'[Pow2(j) - 1] == str[Pow2(j) - 1]
    {
      Pow2Monotone(i, j);
    }
  }

  /**
   * Each round stores into position 2^i the parity of its whole group, itself included. That
   * turns the group's parity into the bit that stood there before: even, when it was the '*'
   * of the unprocessed code. Groups filled earlier keep their parity.
   */
  method ProcessString(str: string, redunLen: nat) returns (res: string)
    requires redunLen > 0 ==> Pow2(redunLen - 1) <= |str|
    ensures Filled(str, res, redunLen)
  {
    res := str;
    var i := 0;
    while i < redunLen
      invariant i <= redunLen && Filled(str, res, i)
    {
      var posBit := Pow2(i);
      if i < redunLen - 1 { Pow2Monotone(i, redunLen - 1); }
      var positions := FindPositions(posBit, |str|);
      GroupParity(res, i);
      var parityBit := GetParityBit(positions, res);
      var bit := if parityBit == 1 then '1' else '0';
      Refill(str, res, i, bit);
      res := res[posBit - 1 := bit];
      i := i + 1;
    }
  }

  /** Filling a word whose parity positions all hold '*' encodes its data. */
  lemma FilledEncodes(str: string, code: string, r: nat)
    requires Filled(str, code, r) && |str| < Pow2(r) && |str| == |DataOf(str)| + r
    requires forall k :: 0 <= k < |str| && IsPow2(k + 1) ==> str[k] == '*'
    ensures Encodes(code, DataOf(str), r)
  {
    hide Parity, DataOf, Pow2, IsPow2;
    forall k | 0 <= k < |code| && IsPow2(k + 1)
      ensures IsBinary(code[k])
    {
      var e := ExponentOf(k + 1);
      if r < e { Pow2Monotone(r, e); }
      assert FilledAt(str, code, e);
    }
    forall i: nat | i < r
      ensures !Parity(code, i)
    {
      Pow2IsPow2(i);
      assert FilledAt(str, code, i);
    }
  }

  lemma GeneratedLength(m: nat, r: nat)
    requires GeneratorRedundancy(m, r)
    ensures DataCount(m + r) == m && m + r < Pow2(r)
    ensures r > 0 ==> Pow2(r - 1) <= m + r
  {
    if m > 0 {
      LengthAgreement(m, r, r);
    } else {
      assert Pow2(0) == 1;
      assert r == 0;
    }
  }

  /** The whole generator: what its `main` prints is the encoding of its input. */
  method Generate(inp: string) returns (code: string)
    ensures |code| >= |inp| && GeneratorRedundancy(|inp|, |code| - |inp|)
    ensures Encodes(code, inp, |code| - |inp|)
  {
    var codeLen := FindLength(|inp|);
    GeneratedLength(|inp|, codeLen - |inp|);
    var unproc := GenerateUnprocessedCode(inp, codeLen);
    assert DataOf(unproc) == inp;
    code := ProcessString(unproc, codeLen - |inp|);
    FilledEncodes(unproc, code, codeLen - |inp|);
  }
}
