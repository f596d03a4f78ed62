/** The Hamming checker, and what it guarantees for words made by the generator. */
module HammingCheck {
  import opened Bits
  import opened HammingCode
  import opened HammingGen

  method FindRedunLen(len: nat) returns (r: nat)
    ensures CheckerRedundancy(len, r)
  {
    r := 0;
    while Pow2(r) < len
      invariant forall s: nat :: s < r ==> Pow2(s) < len
      decreases len - r
    {
      Pow2AboveExponent(r);
      r := r + 1;
    }
  }

  method Correction(str: string, redunLen: nat) returns (changePosition: nat)
    ensures changePosition == Syndrome(str, redunLen)
  {
    var i := 0;
    changePosition := 0;
    while i < redunLen
      invariant i <= redunLen
      invariant changePosition == Syndrome(str, i)
    {
      var posBit := Pow2(i);
      var positions := FindPositions(posBit, |str|);
      GroupParity(str, i);
      var parityBit := GetParityBit(positions, str);
      SyndromeGrows(str, i);
      if parityBit == 1 {
        changePosition := changePosition + Pow2(i);
      }
      i := i + 1;
    }
  }

  /** One more parity adds its power of two. */
  lemma SyndromeGrows(w: string, i: nat)
    ensures Syndrome(w, i + 1) == Syndrome(w, i) + if Parity(w, i) then Pow2(i) else 0
  {
    XorOfOnesBit(w, i);
    NextLowBit(XorOfOnes(w), i);
  }

  /**
   * The checker's `main`: it flips the named position of its input in place. Where the program
   * would write behind the word instead, `inside` is false and nothing is written.
   */
  method Check(inp: array<char>) returns (redunLen: nat, position: nat, inside: bool)
    modifies inp
    ensures CheckerRedundancy(inp.Length, redunLen)
    ensures position == Syndrome(old(inp[..]), redunLen) && inside == (position <= inp.Length)
    ensures inp[..] == if inside then Corrected(old(inp[..]), redunLen) else old(inp[..])
    ensures forall k :: 0 <= k < inp.Length ==>
      inp[k] == if k + 1 == position then (if old(inp[k]) == '1' then '0' else '1') else old(inp[k])
  {
    redunLen := FindRedunLen(inp.Length);
    position := Correction(inp[..], redunLen);
    inside := position <= inp.Length;
    if position != 0 && inside {
      inp[position - 1] := if inp[position - 1] == '1' then '0' else '1';
    }
  }

  // ----- guarantees for generated words

  lemma CodewordBasics(c: string, msg: string, r: nat)
    requires GeneratorRedundancy(|msg|, r) && Encodes(c, msg, r)
    ensures |c| < Pow2(r) && CheckerRedundancy(|c|, r) && Syndrome(c, r) == 0
  {
    GeneratedLength(|msg|, r);
    if |msg| > 0 {
      LengthAgreement(|msg|, r, r);
    } else {
      assert Pow2(0) == 1;
    }
    ZeroSyndrome(c, r);
  }

  /** An undamaged word is reported clean. */
  lemma NoErrorAccepted(c: string, msg: string, r: nat, s: nat)
    requires GeneratorRedundancy(|msg|, r) && Encodes(c, msg, r) && CheckerRedundancy(|c|, s)
    ensures Syndrome(c, s) == 0 && Corrected(c, s) == c && DataOf(c) == msg
  {
    CodewordBasics(c, msg, r);
  }

  /**
   * Damage to any single bit is located exactly, and flipping that position restores the
   * code word if and only if it held a binary digit there.
   */
  lemma SingleErrorCorrected(c: string, msg: string, r: nat, s: nat, p: nat, x: char)
    requires GeneratorRedundancy(|msg|, r) && Encodes(c, msg, r) && CheckerRedundancy(|c|, s)
    requires 1 <= p <= |c| && One(x) != One(c[p - 1])
    ensures Syndrome(c[p - 1 := x], s) == p
    ensures Corrected(c[p - 1 := x], s) == c <==> IsBinary(c[p - 1])
  {
    CodewordBasics(c, msg, r);
    SyndromeOfChange(c, p, x, r);
    LowBitsSmall(p, r);
    XorWithZero(p);
    var fixed := c[p - 1 := x][p - 1 := Flip(x)];
    assert fixed[p - 1] == Flip(x);
    if IsBinary(c[p - 1]) {
      assert fixed == c;
    }
  }

  /** Damage to any two distinct bits is always noticed: the minimum distance is three. */
  lemma DoubleErrorDetected(c: string, msg: string, r: nat, s: nat, p: nat, q: nat, x: char, y: char)
    requires GeneratorRedundancy(|msg|, r) && Encodes(c, msg, r) && CheckerRedundancy(|c|, s)
    requires 1 <= p <= |c| && 1 <= q <= |c| && p != q
    requires One(x) != One(c[p - 1]) && One(y) != One(c[q - 1])
    ensures Syndrome(c[p - 1 := x][q - 1 := y], s) == Xor(p, q) != 0
  {
    CodewordBasics(c, msg, r);
    SyndromeOfChange(c, p, x, r);
    SyndromeOfChange(c[p - 1 := x], q, y, r);
    LowBitsSmall(p, r);
    LowBitsSmall(q, r);
    XorWithZero(p);
    XorZero(p, q);
  }

  /**
   * But two errors are never repaired: the checker flips a third position or, where the
   * exclusive-or of the two exceeds the length, none of the word.
   */
  lemma DoubleErrorNotRepaired(c: string, msg: string, r: nat, s: nat, p: nat, q: nat, x: char, y: char)
    requires GeneratorRedundancy(|msg|, r) && Encodes(c, msg, r) && CheckerRedundancy(|c|, s)
    requires 1 <= p <= |c| && 1 <= q <= |c| && p != q
    requires One(x) != One(c[p - 1]) && One(y) != One(c[q - 1])
    ensures var damaged := c[p - 1 := x][q - 1 := y];
      && Syndrome(damaged, s) !in {0, p, q}
      && (Syndrome(damaged, s) <= |damaged| <==> Xor(p, q) <= |c|)
      && (Xor(p, q) <= |c| ==> Corrected(damaged, s) != c)
  {
    DoubleErrorDetected(c, msg, r, s, p, q, x, y);
    XorMoves(p, q);
    XorMoves(q, p);
    var damaged := c[p - 1 := x][q - 1 := y];
    if Xor(p, q) <= |c| { assert Corrected(damaged, s)[p - 1] == x; }
  }

  /**
   * For a clean word of any length, generated or not, a single error at `p` is located exactly
   * when `p` lies below 2^s; the one unprotected position is the last of a power-of-two length,
   * where the error goes unnoticed.
   */
  lemma ProtectedPositions(w: string, s: nat, p: nat, x: char)
    requires CheckerRedundancy(|w|, s) && Syndrome(w, s) == 0
    requires 1 <= p <= |w| && One(x) != One(w[p - 1])
    ensures Syndrome(w[p - 1 := x], s) == p <==> !(p == |w| && IsPow2(|w|))
    ensures p == |w| && IsPow2(|w|) ==> Syndrome(w[p - 1 := x], s) == 0
  {
    SyndromeOfChange(w, p, x, s);
    XorWithZero(LowBits(p, s));
    LowBitsSmall(p, s);
    if p < Pow2(s) {
      if p == |w| && IsPow2(|w|) {
        var e := ExponentOf(|w|);
        if s < e { Pow2Monotone(s, e); }
      }
    } else {
      Pow2IsPow2(s);
    }
  }

  /** Such words exist for every power of two: all zeros are clean, and stay so after that error. */
  lemma UnprotectedWords(e: nat)
    ensures var w := seq(Pow2(e), _ => '0');
      CheckerRedundancy(|w|, e) && Syndrome(w, e) == 0 && Syndrome(w[|w| - 1 := '1'], e) == 0
  {
    hide Pow2, IsPow2, Syndrome;
    var w := seq(Pow2(e), _ => '0');
    forall d: nat | d < e
      ensures Pow2(d) < |w|
    {
      Pow2Monotone(d, e);
    }
    ZerosAreClean(w, e);
    Pow2IsPow2(e);
    ProtectedPositions(w, e, |w|, '1');
  }

  lemma {:induction false} ZerosAreClean(w: string, r: nat)
    requires forall k :: 0 <= k < |w| ==> w[k] == '0'
    ensures Syndrome(w, r) == 0
  {
    if w == [] {
      LowBitsSmall(0, r);
    } else {
      ZerosAreClean(w[..|w| - 1], r);
      XorWithZero(XorOfOnes(w[..|w| - 1]));
    }
  }

  /** The two programs end to end over a channel that damages at most one bit. */
  method Transmit(msg: string, damage: nat) returns (code: string, received: array<char>, position: nat)
    requires forall k :: 0 <= k < |msg| ==> IsBinary(msg[k])
    ensures |code| >= |msg| && Encodes(code, msg, |code| - |msg|)
    ensures position == (if 1 <= damage <= |code| then damage else 0)
    ensures received[..] == code
    ensures DataOf(received[..]) == msg
  {
    code := Generate(msg);
    ghost var r := |code| - |msg|;
    BinaryCode(code, msg, r);
    received := new char[|code|](k requires 0 <= k < |code| => code[k]);
    assert received[..] == code;
    if 1 <= damage <= |code| {
      received[damage - 1] := Flip(received[damage - 1]);
      assert received[..] == code[damage - 1 := Flip(code[damage - 1])];
    }
    forall s | CheckerRedundancy(|code|, s)
      ensures Syndrome(received[..], s) == (if 1 <= damage <= |code| then damage else 0)
      ensures Syndrome(received[..], s) <= |code| && Corrected(received[..], s) == code
    {
      if 1 <= damage <= |code| {
        SingleErrorCorrected(code, msg, r, s, damage, Flip(code[damage - 1]));
      } else {
        NoErrorAccepted(code, msg, r, s);
      }
    }
    var s, inside;
    s, position, inside := Check(received);
  }

  lemma {:induction false} DataMember(w: string, k: nat)
    requires k < |w| && !IsPow2(k + 1)
    ensures w[k] in DataOf(w)
  {
    if k == |w| - 1 {
    } else {
      DataMember(w[..|w| - 1], k);
    }
  }

  lemma BinaryCode(c: string, msg: string, r: nat)
    requires Encodes(c, msg, r) && forall k :: 0 <= k < |msg| ==> IsBinary(msg[k])
    ensures forall k :: 0 <= k < |c| ==> IsBinary(c[k])
  {
    forall k | 0 <= k < |c| && !IsPow2(k + 1)
      ensures IsBinary(c[k])
    {
      DataMember(c, k);
    }
  }
}
