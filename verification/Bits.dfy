/** Natural numbers seen bit by bit: the `<<`, `&` and exclusive-or of the Hamming programs. */
module Bits {

  function Pow2(e: nat): (p: nat)
    ensures p >= 1
  {
    if e == 0 then 1 else 2 * Pow2(e - 1)
  }

  /** Bit `i` of `n`, counted from the least significant. */
  predicate Bit(n: nat, i: nat) {
    if i == 0 then n % 2 == 1 else Bit(n / 2, i - 1)
  }

  function BitOf(b: bool): nat {
    if b then 1 else 0
  }

  /** The `&` of two non-negative machine integers. */
  function And(a: nat, b: nat): nat {
    if a == 0 || b == 0 then 0
    else 2 * And(a / 2, b / 2) + BitOf(a % 2 == 1 && b % 2 == 1)
  }

  function Xor(a: nat, b: nat): nat
    decreases a + b
  {
    if a == 0 && b == 0 then 0
    else 2 * Xor(a / 2, b / 2) + BitOf(a % 2 != b % 2)
  }

  /** `log2(p)` is an integer: what `ceil(log2(p)) == log2(p)` tests. */
  predicate IsPow2(p: nat) {
    p == 1 || (p > 1 && p % 2 == 0 && IsPow2(p / 2))
  }

  // ----- powers of two

  lemma {:induction false} Pow2Monotone(a: nat, b: nat)
    requires a < b
    ensures Pow2(a) < Pow2(b)
  {
    if a + 1 == b {
    } else {
      Pow2Monotone(a, b - 1);
    }
  }

  lemma {:induction false} Pow2AboveExponent(e: nat)
    ensures Pow2(e) >= e + 1
  {
    if e == 0 {
    } else {
      Pow2AboveExponent(e - 1);
    }
  }

  lemma {:induction false} Pow2IsPow2(e: nat)
    ensures IsPow2(Pow2(e))
  {
    if e == 0 {
    } else {
      Pow2IsPow2(e - 1);
    }
  }

  lemma {:induction false} ExponentOf(p: nat) returns (e: nat)
    requires IsPow2(p)
    ensures p == Pow2(e)
  {
    if p == 1 {
      e := 0;
    } else {
      e := ExponentOf(p / 2);
      e := e + 1;
    }
  }

  lemma BetweenPowers(p: nat, e: nat)
    requires Pow2(e) < p < Pow2(e + 1)
    ensures !IsPow2(p)
  {
    if IsPow2(p) {
      var d := ExponentOf(p);
      if d < e { Pow2Monotone(d, e); }
      if e + 1 < d { Pow2Monotone(e + 1, d); }
    }
  }

  // ----- bits

  lemma {:induction false} ZeroBit(i: nat)
    ensures !Bit(0, i)
  {
    if i == 0 {
    } else {
      ZeroBit(i - 1);
    }
  }

  lemma {:induction false} Pow2Bit(e: nat, i: nat)
    ensures Bit(Pow2(e), i) <==> i == e
  {
    if e == 0 {
      if i > 0 { ZeroBit(i - 1); }
    } else if i > 0 {
      Pow2Bit(e - 1, i - 1);
    }
  }

  /** Bit `i` of `n` is the parity of the quotient by 2^i. */
  lemma {:induction false} BitIsQuotient(n: nat, i: nat)
    ensures Bit(n, i) <==> n / Pow2(i) % 2 == 1
  {
    if i == 0 {
    } else {
      BitIsQuotient(n / 2, i - 1);
      HalfQuotient(n, Pow2(i - 1));
    }
  }

  lemma HalfQuotient(n: nat, d: nat)
    requires d > 0
    ensures n / 2 / d == n / (2 * d)
  {
    DivisionIsUnique(n, 2 * d, n / 2 / d, n - 2 * d * (n / 2 / d));
  }

  lemma {:induction false} XorBit(a: nat, b: nat, i: nat)
    ensures Bit(Xor(a, b), i) <==> Bit(a, i) != Bit(b, i)
  {
    if a == 0 && b == 0 {
      ZeroBit(i);
    } else {
      var h := Xor(a / 2, b / 2);
      assert Xor(a, b) / 2 == h;
      if i > 0 { XorBit(a / 2, b / 2, i - 1); }
    }
  }

  /** Testing against a single-bit mask reads that bit. */
  lemma {:induction false} AndPow2(n: nat, i: nat)
    ensures And(n, Pow2(i)) != 0 <==> Bit(n, i)
  {
    if n == 0 {
      ZeroBit(i);
    } else if i == 0 {
      assert And(n / 2, 0) == 0;
    } else {
      assert Pow2(i) / 2 == Pow2(i - 1);
      AndPow2(n / 2, i - 1);
    }
  }

  /** Two numbers below 2^r that agree on their r bits are equal. */
  lemma {:induction false} SameBits(a: nat, b: nat, r: nat)
    requires a < Pow2(r) && b < Pow2(r)
    requires forall i: nat :: i < r ==> Bit(a, i) == Bit(b, i)
    ensures a == b
  {
    if r == 0 {
    } else {
      assert Bit(a, 0) == Bit(b, 0);
      forall i: nat | i < r - 1
        ensures Bit(a / 2, i) == Bit(b / 2, i)
      {
        assert Bit(a, i + 1) == Bit(b, i + 1);
      }
      SameBits(a / 2, b / 2, r - 1);
    }
  }

  lemma {:induction false} XorBelow(a: nat, b: nat, r: nat)
    requires a < Pow2(r) && b < Pow2(r)
    ensures Xor(a, b) < Pow2(r)
  {
    if a == 0 && b == 0 {
    } else {
      XorBelow(a / 2, b / 2, r - 1);
    }
  }

  lemma {:induction false} XorMoves(a: nat, b: nat)
    requires b > 0
    ensures Xor(a, b) != a && Xor(b, a) != a
  {
    assert Xor(a, b) / 2 == Xor(a / 2, b / 2) && Xor(a, b) % 2 == BitOf(a % 2 != b % 2);
    assert Xor(b, a) / 2 == Xor(b / 2, a / 2) && Xor(b, a) % 2 == BitOf(a % 2 != b % 2);
    if b == 1 {
    } else {
      XorMoves(a / 2, b / 2);
    }
  }

  lemma XorZero(a: nat, b: nat)
    ensures Xor(a, b) == 0 <==> a == b
  {
  }

  lemma {:induction false} XorWithZero(a: nat)
    ensures Xor(a, 0) == a && Xor(0, a) == a
  {
    if a == 0 {
    } else {
      XorWithZero(a / 2);
    }
  }

  // ----- the low bits of a number

  /** The lowest `r` bits of `n`: its remainder modulo 2^r, see `LowBitsIsRemainder`. */
  function LowBits(n: nat, r: nat): (m: nat)
    ensures m < Pow2(r)
  {
    if r == 0 then 0 else n % 2 + 2 * LowBits(n / 2, r - 1)
  }

  lemma {:induction false} LowBitsSmall(n: nat, r: nat)
    ensures n < Pow2(r) ==> LowBits(n, r) == n
    ensures n == Pow2(r) ==> LowBits(n, r) == 0
  {
    if r == 0 {
    } else {
      LowBitsSmall(n / 2, r - 1);
    }
  }

  lemma {:induction false} LowBit(n: nat, r: nat, i: nat)
    ensures Bit(LowBits(n, r), i) <==> i < r && Bit(n, i)
  {
    if r == 0 {
      ZeroBit(i);
    } else {
      assert LowBits(n, r) / 2 == LowBits(n / 2, r - 1);
      if i > 0 { LowBit(n / 2, r - 1, i - 1); }
    }
  }

  /** One more bit adds its power of two. */
  lemma {:induction false} NextLowBit(n: nat, i: nat)
    ensures LowBits(n, i + 1) == LowBits(n, i) + if Bit(n, i) then Pow2(i) else 0
  {
    if i == 0 {
    } else {
      NextLowBit(n / 2, i - 1);
    }
  }

  lemma {:induction false} LowBitsSplit(n: nat, r: nat) returns (q: nat)
    ensures n == q * Pow2(r) + LowBits(n, r)
  {
    if r == 0 {
      q := n;
    } else {
      q := LowBitsSplit(n / 2, r - 1);
      assert q * Pow2(r) == 2 * (q * Pow2(r - 1));
    }
  }

  lemma LowBitsIsRemainder(n: nat, r: nat)
    ensures LowBits(n, r) == n % Pow2(r)
  {
    var q := LowBitsSplit(n, r);
    DivisionIsUnique(n, Pow2(r), q, LowBits(n, r));
  }

  lemma SmallMultiple(x: int, d: int)
    requires -d < x * d < d
    ensures x == 0
  {
  }

  lemma DivisionIsUnique(n: nat, d: nat, q: nat, m: nat)
    requires d > 0 && m < d && n == q * d + m
    ensures n / d == q && n % d == m
  {
    var q', m' := n / d, n % d;
    assert n == q' * d + m';
    assert (q - q') * d == m' - m;
    SmallMultiple(q - q', d);
  }
}
