/**
 * The code that the Hamming generator and the Hamming checker share. Positions are
 * 1-based: position `p` of word `w` is `w[p - 1]`. Positions that are powers of two carry
 * parity, the others carry the message. A character counts as a one bit exactly when it is
 * '1', as in the parity counters of both programs.
 */
module HammingCode {
  import opened Bits

  predicate One(c: char) {
    c == '1'
  }

  predicate IsBinary(c: char) {
    c == '0' || c == '1'
  }

  /** Parity of the ones at the positions of `w` whose number has bit `i`. */
  predicate Parity(w: string, i: nat) {
    w != [] && Parity(w[..|w| - 1], i) != (One(w[|w| - 1]) && Bit(|w|, i))
  }

  /** Exclusive-or of all positions of `w` that hold a one. */
  function XorOfOnes(w: string): nat {
    if w == [] then 0
    else Xor(XorOfOnes(w[..|w| - 1]), if One(w[|w| - 1]) then |w| else 0)
  }

  /** The characters of `w` at positions that are not powers of two, in order. */
  function DataOf(w: string): string {
    if w == [] then []
    else DataOf(w[..|w| - 1]) + if IsPow2(|w|) then [] else [w[|w| - 1]]
  }

  /** How many of the positions 1..n are not powers of two. */
  function DataCount(n: nat): nat {
    if n == 0 then 0 else DataCount(n - 1) + BitOf(!IsPow2(n))
  }

  /** Bitwise exclusive-or of two words of one length. */
  function WordXor(a: string, b: string): (d: string)
    requires |a| == |b|
  {
    seq(|a|, k requires 0 <= k < |a| => if One(a[k]) != One(b[k]) then '1' else '0')
  }

  ghost predicate AllEven(w: string, r: nat) {
    forall i: nat :: i < r ==> !Parity(w, i)
  }

  /** `c` is the code word with `r` parity positions for message `msg`. */
  ghost predicate Encodes(c: string, msg: string, r: nat) {
    && |c| == |msg| + r
    && DataOf(c) == msg
    && (forall k :: 0 <= k < |c| && IsPow2(k + 1) ==> IsBinary(c[k]))
    && AllEven(c, r)
  }

  /** What the checker calls the change position: the first `r` parities read as a number. */
  function Syndrome(w: string, r: nat): nat {
    LowBits(XorOfOnes(w), r)
  }

  function Flip(c: char): char {
    if c == '1' then '0' else '1'
  }

  /** The word the checker ends with. */
  function Corrected(w: string, r: nat): string
    requires Syndrome(w, r) <= |w|
  {
    var s := Syndrome(w, r);
    if s == 0 then w else w[s - 1 := Flip(w[s - 1])]
  }

  // ----- parities and the exclusive-or of positions

  lemma {:induction false} XorOfOnesBit(w: string, i: nat)
    ensures Bit(XorOfOnes(w), i) <==> Parity(w, i)
  {
    if w == [] {
      ZeroBit(i);
    } else {
      var last := if One(w[|w| - 1]) then |w| else 0;
      XorOfOnesBit(w[..|w| - 1], i);
      XorBit(XorOfOnes(w[..|w| - 1]), last, i);
      ZeroBit(i);
    }
  }

  lemma SyndromeBit(w: string, r: nat, i: nat)
    ensures Bit(Syndrome(w, r), i) <==> i < r && Parity(w, i)
  {
    LowBit(XorOfOnes(w), r, i);
    XorOfOnesBit(w, i);
  }

  /** A zero syndrome means that all `r` parity groups are even, and conversely. */
  lemma ZeroSyndrome(w: string, r: nat)
    ensures Syndrome(w, r) == 0 <==> AllEven(w, r)
  {
    forall i: nat
      ensures Bit(Syndrome(w, r), i) <==> i < r && Parity(w, i)
      ensures !Bit(0, i)
    {
      SyndromeBit(w, r, i);
      ZeroBit(i);
    }
    if AllEven(w, r) {
      SameBits(Syndrome(w, r), 0, r);
    } else {
      var i: nat :| i < r && Parity(w, i);
    }
  }

  /** Every parity is linear under bitwise exclusive-or of words. */
  lemma {:induction false} ParityLinear(a: string, b: string, i: nat)
    requires |a| == |b|
    ensures Parity(WordXor(a, b), i) <==> Parity(a, i) != Parity(b, i)
  {
    if a == [] {
    } else {
      var n := |a| - 1;
      ParityLinear(a[..n], b[..n], i);
      assert WordXor(a, b)[..n] == WordXor(a[..n], b[..n]);
    }
  }

  /** The syndrome is linear under bitwise exclusive-or of words. */
  lemma SyndromeLinear(a: string, b: string, r: nat)
    requires |a| == |b|
    ensures Syndrome(WordXor(a, b), r) == Xor(Syndrome(a, r), Syndrome(b, r))
  {
    XorBelow(Syndrome(a, r), Syndrome(b, r), r);
    forall i: nat | i < r
      ensures Bit(Syndrome(WordXor(a, b), r), i) == Bit(Xor(Syndrome(a, r), Syndrome(b, r)), i)
    {
      SyndromeBit(a, r, i);
      SyndromeBit(b, r, i);
      SyndromeBit(WordXor(a, b), r, i);
      ParityLinear(a, b, i);
      XorBit(Syndrome(a, r), Syndrome(b, r), i);
    }
    SameBits(Syndrome(WordXor(a, b), r), Xor(Syndrome(a, r), Syndrome(b, r)), r);
  }

  lemma {:induction false} ParityUpdate(w: string, k: nat, c: char, i: nat)
    requires k < |w|
    ensures Parity(w[k := c], i) <==> Parity(w, i) != (One(w[k]) != One(c) && Bit(k + 1, i))
  {
    var n := |w| - 1;
    if k < n {
      ParityUpdate(w[..n], k, c, i);
      assert w[k := c][..n] == w[..n][k := c];
    } else {
      assert w[k := c][..n] == w[..n];
    }
  }

  /** Changing the bit at position `p` moves the syndrome by exactly the low bits of `p`. */
  lemma SyndromeOfChange(w: string, p: nat, c: char, r: nat)
    requires 1 <= p <= |w| && One(c) != One(w[p - 1])
    ensures Syndrome(w[p - 1 := c], r) == Xor(Syndrome(w, r), LowBits(p, r))
  {
    var v := w[p - 1 := c];
    var x := Xor(Syndrome(w, r), LowBits(p, r));
    XorBelow(Syndrome(w, r), LowBits(p, r), r);
    forall i: nat | i < r
      ensures Bit(Syndrome(v, r), i) == Bit(x, i)
    {
      SyndromeBit(v, r, i);
      SyndromeBit(w, r, i);
      ParityUpdate(w, p - 1, c, i);
      LowBit(p, r, i);
      XorBit(Syndrome(w, r), LowBits(p, r), i);
    }
    SameBits(Syndrome(v, r), x, r);
  }

  /** The positions of `w`, counted from zero, that hold a '1' and whose 1-based number has bit `j`. */
  ghost function Ones(w: string, j: nat): set<nat> {
    set k: nat | k < |w| && w[k] == '1' && (k + 1) / Pow2(j) % 2 == 1
  }

  /** Parity `j` of a word counts the ones at these positions. */
  lemma {:induction false} ParityCounts(w: string, j: nat)
    ensures Parity(w, j) <==> |Ones(w, j)| % 2 == 1
  {
    hide Bit, Pow2;
    if w == [] {
      assert Ones(w, j) == {};
    } else {
      ParityCounts(w[..|w| - 1], j);
      BitIsQuotient(|w|, j);
      OnesOfLast(w, j);
    }
  }

  lemma OnesOfLast(w: string, j: nat)
    requires w != []
    ensures |Ones(w, j)| == |Ones(w[..|w| - 1], j)| + BitOf(w[|w| - 1] == '1' && |w| / Pow2(j) % 2 == 1)
  {
    hide Pow2;
    var n := |w| - 1;
    var init := Ones(w[..n], j);
    assert forall k: nat :: k < n ==> w[..n][k] == w[k];
    assert n !in init;
    if w[n] == '1' && |w| / Pow2(j) % 2 == 1 {
      assert Ones(w, j) == init + {n};
    } else {
      assert Ones(w, j) == init;
    }
  }

  /** The change position bit by bit: bit `j` is set if and only if the number of those ones is odd. */
  lemma SyndromeCounts(w: string, r: nat, j: nat)
    ensures Syndrome(w, r) < Pow2(r)
    ensures j < r ==> Syndrome(w, r) / Pow2(j) % 2 == |Ones(w, j)| % 2
  {
    SyndromeBit(w, r, j);
    BitIsQuotient(Syndrome(w, r), j);
    ParityCounts(w, j);
  }

  /** In a code word an even number of ones stands at the positions of each group. */
  lemma CodeCounts(c: string, msg: string, r: nat, j: nat)
    requires Encodes(c, msg, r) && j < r
    ensures |Ones(c, j)| % 2 == 0
    ensures Pow2(j) <= |c| ==> c[Pow2(j) - 1] == '0' || c[Pow2(j) - 1] == '1'
  {
    ParityCounts(c, j);
    Pow2IsPow2(j);
  }

  // ----- data and parity positions

  lemma {:induction false} DataOfLength(w: string)
    ensures |DataOf(w)| == DataCount(|w|)
  {
    if w == [] {
    } else {
      DataOfLength(w[..|w| - 1]);
    }
  }

  lemma {:induction false} DataCountMonotone(a: nat, b: nat)
    requires a <= b
    ensures DataCount(a) <= DataCount(b)
  {
    if a == b {
    } else {
      DataCountMonotone(a, b - 1);
    }
  }

  /** With 2^r <= n < 2^(r+1) exactly r + 1 of the positions 1..n are powers of two. */
  lemma {:induction false} DataCountBetween(n: nat, r: nat)
    requires Pow2(r) <= n < Pow2(r + 1)
    ensures DataCount(n) + r + 1 == n
    decreases n
  {
    if n == Pow2(r) {
      Pow2IsPow2(r);
      if r > 0 { DataCountBetween(n - 1, r - 1); }
    } else {
      BetweenPowers(n, r);
      DataCountBetween(n - 1, r);
    }
  }

  /** Words with the same data agree at every data position. */
  lemma {:induction false} DataAt(a: string, b: string, k: nat)
    requires |a| == |b| && DataOf(a) == DataOf(b)
    requires k < |a| && !IsPow2(k + 1)
    ensures a[k] == b[k]
  {
    var n := |a| - 1;
    DataOfLength(a[..n]);
    DataOfLength(b[..n]);
    assert DataOf(a)[..DataCount(n)] == DataOf(a[..n]);
    assert DataOf(b)[..DataCount(n)] == DataOf(b[..n]);
    if k < n {
      DataAt(a[..n], b[..n], k);
    } else {
      assert DataOf(a)[DataCount(n)] == a[n];
      assert DataOf(b)[DataCount(n)] == b[n];
    }
  }

  lemma {:induction false} DataIndex(w: string, k: nat)
    requires k < |w| && !IsPow2(k + 1)
    ensures DataCount(k) < |DataOf(w)| && DataOf(w)[DataCount(k)] == w[k]
  {
    var n := |w| - 1;
    DataOfLength(w[..n]);
    if k < n { DataIndex(w[..n], k); }
  }

  /** Character `k` of a code word between the positions 2^j and 2^(j+1) is a character of the message. */
  lemma MessageAt(c: string, msg: string, r: nat, j: nat, k: nat)
    requires Encodes(c, msg, r) && k < |c| && Pow2(j) < k + 1 < Pow2(j + 1)
    ensures 0 <= k - 1 - j < |msg| && c[k] == msg[k - 1 - j]
  {
    BetweenPowers(k + 1, j);
    DataCountBetween(k, j);
    DataIndex(c, k);
  }

  lemma {:induction false} DataIgnoresParity(w: string, k: nat, c: char)
    requires k < |w| && IsPow2(k + 1)
    ensures DataOf(w[k := c]) == DataOf(w)
  {
    var n := |w| - 1;
    if k < n {
      DataIgnoresParity(w[..n], k, c);
      assert w[k := c][..n] == w[..n][k := c];
    } else {
      assert w[k := c][..n] == w[..n];
    }
  }

  /** A parity group holds no parity position besides its own. */
  lemma {:induction false} ParityOnPowers(d: string, j: nat)
    requires forall k :: 0 <= k < |d| && One(d[k]) ==> IsPow2(k + 1)
    ensures Parity(d, j) <==> Pow2(j) <= |d| && One(d[Pow2(j) - 1])
  {
    if d == [] {
    } else {
      var n := |d| - 1;
      ParityOnPowers(d[..n], j);
      if One(d[n]) {
        var e := ExponentOf(|d|);
        Pow2Bit(e, j);
        if j < e { Pow2Monotone(j, e); }
        if e < j { Pow2Monotone(e, j); }
      }
    }
  }

  /** At most one word encodes a message, so the order in which parity is filled is irrelevant. */
  lemma EncodingUnique(a: string, b: string, msg: string, r: nat)
    requires Encodes(a, msg, r) && Encodes(b, msg, r)
    requires |a| < Pow2(r)
    ensures a == b
  {
    var d := WordXor(a, b);
    forall k | 0 <= k < |d| && One(d[k])
      ensures IsPow2(k + 1)
    {
      if !IsPow2(k + 1) { DataAt(a, b, k); }
    }
    forall k | 0 <= k < |a|
      ensures a[k] == b[k]
    {
      if IsPow2(k + 1) {
        var j := ExponentOf(k + 1);
        if r <= j {
          if r < j { Pow2Monotone(r, j); }
          assert false;
        } else {
          ParityOnPowers(d, j);
          ParityLinear(a, b, j);
        }
      } else {
        DataAt(a, b, k);
      }
    }
  }

  // ----- the two length computations

  /** The exponent at which the generator's length loop stops. */
  ghost predicate GeneratorRedundancy(m: nat, r: nat) {
    Pow2(r) >= m + r + 1 && forall s: nat :: s < r ==> Pow2(s) < m + s + 1
  }

  /** The exponent at which the checker's length loop stops. */
  ghost predicate CheckerRedundancy(n: nat, r: nat) {
    Pow2(r) >= n && forall s: nat :: s < r ==> Pow2(s) < n
  }

  /**
   * A generated length n = m + r lies strictly between 2^(r-1) and 2^r, so it is never a power
   * of two, the checker recovers the same r from n alone, and r grows like the logarithm of m.
   */
  lemma LengthAgreement(m: nat, r: nat, s: nat)
    requires m >= 1 && GeneratorRedundancy(m, r)
    ensures r >= 2 && Pow2(r - 1) < m + r < Pow2(r)
    ensures !IsPow2(m + r)
    ensures CheckerRedundancy(m + r, s) <==> s == r
    ensures Pow2(r - 2) <= m
    ensures DataCount(m + r) == m
  {
    assert Pow2(0) == 1 && Pow2(1) == 2;
    if r == 0 || r == 1 {
      assert false;
    }
    assert Pow2(r - 1) < m + (r - 1) + 1;
    BetweenPowers(m + r, r - 1);
    DataCountBetween(m + r, r - 1);
    Pow2AboveExponent(r - 2);
    forall e: nat | e < r
      ensures Pow2(e) < m + r
    {
      if e < r - 1 { Pow2Monotone(e, r - 1); }
    }
    if CheckerRedundancy(m + r, s) {
    }
  }
}
