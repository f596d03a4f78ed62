/** The algebra of RFC 1071 behind the checksum routines, and exactly when each of them meets it. */
module ChecksumProofs {
  import opened Basics
  import opened Checksum

  // ----- sums

  lemma {:induction false} SumConcat(a: seq<Word>, b: seq<Word>)
    ensures Sum(a + b) == Sum(a) + Sum(b)
  {
    if b == [] {
      assert a + b == a;
    } else {
      assert (a + b)[..|a + b| - 1] == a + b[..|b| - 1];
      SumConcat(a, b[..|b| - 1]);
    }
  }

  lemma SumAround(ws: seq<Word>, k: nat)
    requires k < |ws|
    ensures Sum(ws) == Sum(ws[..k] + ws[k + 1..]) + ws[k]
  {
    assert ws == ws[..k + 1] + ws[k + 1..];
    SumConcat(ws[..k + 1], ws[k + 1..]);
    SumConcat(ws[..k], ws[k + 1..]);
    SumNext(ws, k);
  }

  lemma SumUpdate(ws: seq<Word>, k: nat, w: Word)
    requires k < |ws|
    ensures Sum(ws[k := w]) == Sum(ws) - ws[k] + w
  {
    SumAround(ws, k);
    SumAround(ws[k := w], k);
    assert ws[k := w][..k] == ws[..k] && ws[k := w][k + 1..] == ws[k + 1..];
  }

  lemma {:induction false} SumBound(ws: seq<Word>)
    ensures Sum(ws) <= 0xffff * |ws|
  {
    if ws == [] {
    } else {
      SumBound(ws[..|ws| - 1]);
    }
  }

  lemma {:induction false} SumZero(ws: seq<Word>)
    ensures Sum(ws) == 0 <==> forall k :: 0 <= k < |ws| ==> ws[k] == 0
  {
    if ws == [] {
    } else {
      SumZero(ws[..|ws| - 1]);
    }
  }

  lemma {:induction false} SumOfPermutation(a: seq<Word>, b: seq<Word>)
    requires multiset(a) == multiset(b)
    ensures Sum(a) == Sum(b)
    decreases |a|
  {
    if a == [] {
      assert |multiset(b)| == 0;
    } else {
      var x := a[|a| - 1];
      assert x in multiset(a) && x in b;
      var k :| 0 <= k < |b| && b[k] == x;
      var a', b' := a[..|a| - 1], b[..k] + b[k + 1..];
      assert a == a' + [x];
      assert b == b[..k] + [x] + b[k + 1..];
      assert multiset(a') == multiset(a) - multiset([x]);
      assert multiset(b') == multiset(b) - multiset([x]);
      SumOfPermutation(a', b');
      SumAround(b, k);
    }
  }

  // ----- residues

  /** The representative of `n` modulo 0xffff that ones' complement addition keeps. */
  function Residue(n: nat): Word {
    if n == 0 then 0 else 1 + (n - 1) % 0xffff
  }

  lemma ResidueIs(n: nat, w: Word, q: int)
    requires n == w + 0xffff * q
    requires w == 0 <==> n == 0
    ensures Residue(n) == w
  {
  }

  lemma ResidueSplit(n: nat) returns (q: nat)
    ensures n == Residue(n) + 0xffff * q
  {
    q := if n == 0 then 0 else (n - 1) / 0xffff;
  }

  /** Adding at most 0xffff to a sum is noticed, except for adding 0xffff to a non-zero sum. */
  lemma ResidueOfIncrease(n: nat, d: nat)
    requires 0 < d <= 0xffff
    ensures Residue(n + d) == Residue(n) <==> d == 0xffff && n > 0
  {
  }

  lemma {:induction false} SumResidue(ws: seq<Word>)
    ensures OnesComplementSum(ws) == Residue(Sum(ws))
  {
    if ws == [] {
    } else {
      var init, w := ws[..|ws| - 1], ws[|ws| - 1];
      SumResidue(init);
      var q := ResidueSplit(Sum(init));
      var s: int := OnesComplementSum(init);
      if s + w > 0xffff {
        ResidueIs(Sum(ws), EndAround(s, w), q + 1);
      } else {
        ResidueIs(Sum(ws), EndAround(s, w), q);
      }
    }
  }

  /** The words of a buffer in memory, least significant byte first; an odd byte stands for itself. */
  lemma SumOfBytes(low: Byte, high: Byte, b: seq<Byte>)
    ensures Sum(Words([low, high] + b)) == low as int + 256 * (high as int) + Sum(Words(b))
    ensures Sum(Words([low])) == low as int && Sum(Words([])) == 0
  {
    var w: int := low as int + 256 * (high as int);
    assert Words([low, high] + b) == [w] + Words(b) by {
      forall k | 0 < k < |Words([low, high] + b)|
        ensures Words([low, high] + b)[k] == Words(b)[k - 1]
      {
        assert ([low, high] + b)[2 * k] == b[2 * (k - 1)];
      }
    }
    SumConcat([w], Words(b));
    assert Words([low]) == [low as int];
  }

  /**
   * What the checksum is: the one 16-bit number that brings the plain sum of the words to a
   * multiple of 0xffff, where 0xffff itself stands for words that are all zero and 0 for others.
   */
  lemma ChecksumIs(ws: seq<Word>, c: int)
    ensures c == InternetChecksum(ws) <==>
      && 0 <= c <= 65535 && (c + Sum(ws)) % 65535 == 0
      && (c == 65535 <==> forall k :: 0 <= k < |ws| ==> ws[k] == 0)
  {
    SumResidue(ws);
    SumZero(ws);
    ComplementIs(Sum(ws), c);
  }

  lemma ComplementIs(sum: nat, c: int)
    ensures c == 65535 - Residue(sum) <==>
      0 <= c <= 65535 && (c + sum) % 65535 == 0 && (c == 65535 <==> sum == 0)
  {
    var q := ResidueSplit(sum);
    var r: int := Residue(sum);
    assert c + sum == (c + r - 65535) + 65535 * (q + 1);
    if sum > 0 && 0 <= c <= 65535 && (c + sum) % 65535 == 0 && c != 65535 {
    }
  }

  // ----- two folds

  /** The second fold carries out of 16 bits again, and truncation drops that carry. */
  predicate SecondCarry(sum: nat) {
    var once := sum / 0x1_0000 + sum % 0x1_0000;
    once % 0x1_0000 + once / 0x1_0000 > 0xffff
  }

  /** Two folds reduce a sum correctly, but for a carry of the second one, which is lost. */
  lemma FoldExact(sum: nat)
    requires sum < 0x8000_0000_0000
    ensures FoldTwice(sum) == Residue(sum) - if SecondCarry(sum) then 1 else 0
  {
    var hi, lo := sum / 0x1_0000, sum % 0x1_0000;
    var once := hi + lo;
    var h, l := once / 0x1_0000, once % 0x1_0000;
    assert once + h == 0x1_0000 * h + (h + l);
    assert sum == h + l + 0xffff * (h + hi);
    if h + l <= 0xffff {
      assert FoldTwice(sum) == h + l;
      ResidueIs(sum, h + l, h + hi);
    } else {
      assert FoldTwice(sum) == h + l - 0x1_0000;
      var q := ResidueSplit(sum);
    }
  }

  lemma FoldSmall(sum: nat)
    requires sum <= 0x1_0000_fffe
    ensures FoldTwice(sum) == Residue(sum)
  {
    hide Residue, FoldTwice;
    FoldExact(sum);
  }

  // ----- the implementations against RFC 1071

  /** 2^32 is 1 modulo 0xffff, so few wraps of a 32-bit accumulator are never harmless. */
  lemma WrapLosesResidue(r: nat, q: nat)
    requires q < 0xffff
    ensures Residue(r + 0x1_0000_0000 * q) == Residue(r) <==> q == 0
  {
  }

  /**
   * For every length an `int` can express, `chksum` returns the RFC 1071 checksum if and only
   * if the sum of the words fits its 32-bit accumulator.
   */
  lemma ChksumExact(b: seq<Byte>)
    requires |b| < 0x8000_0000
    ensures Chksum32(b) == InternetChecksum(Words(b)) <==> Sum(Words(b)) < 0x1_0000_0000
  {
    var s := Sum(Words(b));
    var r, q := s % 0x1_0000_0000, s / 0x1_0000_0000;
    SumBound(Words(b));
    SumResidue(Words(b));
    FoldSmall(r);
    WrapLosesResidue(r, q);
  }

  /** In any case `chksum` is the checksum of the sum modulo 2^32, which stands for itself. */
  lemma ChksumIs(b: seq<Byte>, c: int)
    ensures var sum := Sum(Words(b)) % 4294967296;
      c == Chksum32(b) <==> 0 <= c <= 65535 && (c + sum) % 65535 == 0 && (c == 65535 <==> sum == 0)
  {
    FoldSmall(Sum(Words(b)) % 4294967296);
    ComplementIs(Sum(Words(b)) % 4294967296, c);
  }

  /** For every `int` count, `csum` returns the RFC 1071 checksum unless its second fold carries. */
  lemma CsumExact(ws: seq<Word>)
    requires |ws| < 0x8000_0000
    ensures Csum64(ws) == InternetChecksum(ws) <==> !SecondCarry(Sum(ws))
  {
    SumBound(ws);
    SumResidue(ws);
    FoldExact(Sum(ws));
  }

  /** `csum` is right for every buffer of up to 65538 words. */
  lemma CsumShort(ws: seq<Word>)
    requires |ws| <= 0x1_0002
    ensures Csum64(ws) == InternetChecksum(ws)
  {
    SumBound(ws);
    SumResidue(ws);
    FoldSmall(Sum(ws));
  }

  /** Up to 65537 words all three implementations agree with RFC 1071, and so with each other. */
  lemma AllAgree(b: seq<Byte>)
    requires |Words(b)| <= 0x1_0001
    ensures Sum(Words(b)) < 0x1_0000_0000
    ensures Chksum32(b) == Csum64(Words(b)) == InternetChecksum(Words(b))
  {
    SumBound(Words(b));
    ChksumExact(b);
    SumResidue(Words(b));
    FoldSmall(Sum(Words(b)));
  }

  lemma {:induction false} SumOfOnes(n: nat)
    ensures Sum(seq(n, _ => 0xffff)) == 0xffff * n
  {
    if n == 0 {
    } else {
      assert seq<Word>(n, _ => 0xffff)[..n - 1] == seq<Word>(n - 1, _ => 0xffff);
      SumOfOnes(n - 1);
    }
  }

  /** The bound of 65537 words is tight for `chksum`: from 65538 words of all ones on it is wrong. */
  lemma ChksumTooLong(n: nat)
    requires 0x1_0002 <= n < 0x4000_0000
    ensures var b := seq<Byte>(2 * n, _ => 0xff);
      Chksum32(b) != InternetChecksum(Words(b))
  {
    var b := seq<Byte>(2 * n, _ => 0xff);
    assert Words(b) == seq<Word>(n, _ => 0xffff);
    SumOfOnes(n);
    ChksumExact(b);
  }

  /** The bound of `CsumShort` is tight: these 65539 words lose a carry. */
  lemma CsumTooLong()
    ensures var ws := seq<Word>(0x1_0002, _ => 0xffff) + [1];
      Csum64(ws) != InternetChecksum(ws)
  {
    var ones := seq<Word>(0x1_0002, _ => 0xffff);
    SumOfOnes(0x1_0002);
    SumConcat(ones, [1]);
    assert Sum([1 as Word]) == 1 by { assert [1 as Word][..0] == []; }
    CsumExact(ones + [1]);
  }

  /** An odd tail byte counts as if a zero byte followed it. */
  lemma OddTailIsPadded(b: seq<Byte>)
    requires |b| % 2 == 1
    ensures Chksum32(b) == Chksum32(b + [0])
  {
    assert Words(b + [0]) == Words(b);
  }

  lemma OddExtension(b: seq<Byte>, x: Byte)
    requires |b| % 2 == 1
    ensures |Words(b + [x])| == |Words(b)| > 0
    ensures Sum(Words(b + [x])) == Sum(Words(b)) + 0x100 * x
  {
    var ws, last := Words(b), |Words(b)| - 1;
    var w: int := 0x100 * x + ws[last];
    assert Words(b + [x]) == ws[last := w];
    SumUpdate(ws, last, w);
  }

  /** A lost carry leaves one too little, and what the extra byte adds never makes up for it. */
  lemma LostCarryShows(n: nat, d: nat)
    requires d == 0 || 1 < d <= 0xffff
    ensures Residue(n + d) != Residue(n) + 1
  {
  }

  /**
   * On an odd count `csum` of udp_sender.c also reads the byte `x` behind the buffer. It gives the
   * checksum of the buffer if and only if that byte is zero and the second fold does not carry.
   */
  lemma CsumByBytesOdd(b: seq<Byte>, x: Byte)
    requires |b| % 2 == 1 && |b| < 0x8000_0000
    ensures Csum64(Words(b + [x])) == InternetChecksum(Words(b)) <==> x == 0 && !SecondCarry(Sum(Words(b)))
  {
    hide Residue, SecondCarry, FoldTwice;
    OddExtension(b, x);
    SumBound(Words(b));
    SumResidue(Words(b));
    var sum, d := Sum(Words(b)), 0x100 * x as int;
    FoldExact(sum + d);
    LostCarryShows(sum, d);
    if x > 0 { ResidueOfIncrease(sum, d); }
  }

  // ----- properties of the checksum

  /** The example of section 3 of RFC 1071: the checksum of these bytes is stored as 22 0d. */
  lemma ExampleOfRfc1071()
    ensures Chksum32([0x00, 0x01, 0xf2, 0x03, 0xf4, 0xf5, 0xf6, 0xf7]) == 0x22 + 0x100 * 0x0d
  {
    hide Words, Sum, Chksum32;
    var b: seq<Byte> := [0x00, 0x01, 0xf2, 0x03, 0xf4, 0xf5, 0xf6, 0xf7];
    FourWords(0x00, 0x01, 0xf2, 0x03, 0xf4, 0xf5, 0xf6, 0xf7);
    assert Sum(Words(b)) == 127708;
    ChksumIs(b, 0x0d22);
  }

  lemma FourWords(a: Byte, b: Byte, c: Byte, d: Byte, e: Byte, f: Byte, g: Byte, h: Byte)
    ensures Sum(Words([a, b, c, d, e, f, g, h]))
         == a as int + c as int + e as int + g as int + 256 * (b as int + d as int + f as int + h as int)
  {
    hide Words, Sum;
    SumOfBytes(g, h, []);
    SumOfBytes(e, f, [g, h]);
    SumOfBytes(c, d, [e, f, g, h]);
    SumOfBytes(a, b, [c, d, e, f, g, h]);
    assert [g, h] + [] == [g, h];
    assert [e, f] + [g, h] == [e, f, g, h];
    assert [c, d] + [e, f, g, h] == [c, d, e, f, g, h];
    assert [a, b] + [c, d, e, f, g, h] == [a, b, c, d, e, f, g, h];
  }

  /** Storing the checksum in a zeroed word makes the whole buffer check to zero. */
  lemma StoredChecksumVerifies(ws: seq<Word>, k: nat)
    requires k < |ws| && ws[k] == 0
    ensures InternetChecksum(ws[k := InternetChecksum(ws)]) == 0
  {
    var c: int := InternetChecksum(ws);
    SumUpdate(ws, k, c);
    SumResidue(ws);
    SumResidue(ws[k := c]);
    var q := ResidueSplit(Sum(ws));
    ResidueIs(Sum(ws) + c, 0xffff, q);
  }

  /** The same for `chksum` and a buffer in memory, with the checksum stored as two bytes. */
  lemma StoredChksumVerifies(b: seq<Byte>, k: nat)
    requires |Words(b)| <= 0x1_0001 && 2 * k + 1 < |b| && b[2 * k] == b[2 * k + 1] == 0
    ensures Chksum32(b[2 * k := Chksum32(b) % 0x100][2 * k + 1 := Chksum32(b) / 0x100]) == 0
  {
    var c: int := Chksum32(b);
    var b' := b[2 * k := c % 0x100][2 * k + 1 := c / 0x100];
    assert Words(b') == Words(b)[k := c];
    AllAgree(b);
    AllAgree(b');
    StoredChecksumVerifies(Words(b), k);
  }

  /** Neither the checksum nor what `csum` computes depends on the order of the words. */
  lemma ChecksumOfPermutation(a: seq<Word>, b: seq<Word>)
    requires multiset(a) == multiset(b)
    ensures InternetChecksum(a) == InternetChecksum(b) && Csum64(a) == Csum64(b)
  {
    SumOfPermutation(a, b);
    SumResidue(a);
    SumResidue(b);
  }

  lemma ResidueOfReplacement(others: nat, x: Word, y: Word)
    ensures Residue(others + y) == Residue(others + x) <==>
      y == x || (((y == 0 && x == 0xffff) || (y == 0xffff && x == 0)) && others > 0)
  {
    hide Residue;
    if x < y {
      ResidueOfIncrease(others + x, y - x);
    } else if y < x {
      ResidueOfIncrease(others + y, x - y);
    }
  }

  /** Some word besides the one at `k` is not zero. */
  predicate OthersMatter(ws: seq<Word>, k: nat) {
    exists j :: 0 <= j < |ws| && j != k && ws[j] != 0
  }

  lemma SumOfOthers(ws: seq<Word>, k: nat)
    requires k < |ws|
    ensures Sum(ws[k := 0]) != 0 <==> OthersMatter(ws, k)
  {
    var base := ws[k := 0];
    SumZero(base);
    if j :| 0 <= j < |ws| && j != k && ws[j] != 0 { assert base[j] != 0; }
    if j :| 0 <= j < |ws| && base[j] != 0 { assert j != k && ws[j] != 0; }
  }

  /**
   * Replacing one word changes the checksum, except that 0x0000 and 0xffff are interchangeable
   * next to a word that is not zero.
   */
  lemma ChecksumOfReplacement(ws: seq<Word>, k: nat, y: Word)
    requires k < |ws|
    ensures InternetChecksum(ws[k := y]) == InternetChecksum(ws) <==>
      || y == ws[k]
      || (((y == 0 && ws[k] == 0xffff) || (y == 0xffff && ws[k] == 0)) && OthersMatter(ws, k))
  {
    hide Residue, OthersMatter;
    var x, others := ws[k], Sum(ws[k := 0]);
    SumUpdate(ws, k, y);
    SumUpdate(ws, k, 0);
    SumResidue(ws);
    SumResidue(ws[k := y]);
    SumOfOthers(ws, k);
    ResidueOfReplacement(others, x, y);
  }

  // ----- byte order

  function SwapBytes(w: Word): Word {
    w % 0x100 * 0x100 + w / 0x100
  }

  function SwapAll(ws: seq<Word>): (r: seq<Word>)
  {
    seq(|ws|, k requires 0 <= k < |ws| => SwapBytes(ws[k]))
  }

  /** Swapping the bytes of every word multiplies the sum by 256, modulo 0xffff. */
  lemma {:induction false} SwappedSum(ws: seq<Word>) returns (q: nat)
    ensures 0x100 * Sum(ws) == Sum(SwapAll(ws)) + 0xffff * q
    ensures Sum(SwapAll(ws)) == 0 <==> Sum(ws) == 0
  {
    q := 0;
    if ws == [] {
    } else {
      var w: int := ws[|ws| - 1];
      q := SwappedSum(ws[..|ws| - 1]);
      assert SwapAll(ws)[..|ws| - 1] == SwapAll(ws[..|ws| - 1]);
      q := q + w / 0x100;
    }
  }

  lemma ComplementSwap(w: Word)
    ensures SwapBytes(0xffff - w) == 0xffff - SwapBytes(w)
  {
  }

  /** A host of the other byte order computes the same checksum, byte-swapped. */
  lemma ByteOrderIndependence(ws: seq<Word>)
    ensures InternetChecksum(SwapAll(ws)) == SwapBytes(InternetChecksum(ws))
  {
    var q := SwappedSum(ws);
    var p := ResidueSplit(Sum(ws));
    var r: int := Residue(Sum(ws));
    ResidueIs(Sum(SwapAll(ws)), SwapBytes(r), r / 0x100 + 0x100 * p - q);
    SumResidue(ws);
    SumResidue(SwapAll(ws));
    ComplementSwap(r);
  }

  /** The buffer with the two bytes of every word exchanged. */
  function SwapPairs(b: seq<Byte>): (r: seq<Byte>)
    requires |b| % 2 == 0
  {
    seq(|b|, k requires 0 <= k < |b| => if k % 2 == 0 then b[k + 1] else b[k - 1])
  }

  /** For `chksum` and memory: exchanging bytes throughout the buffer exchanges those of the result. */
  lemma ChksumOfSwappedBuffer(b: seq<Byte>)
    requires |b| % 2 == 0 && |Words(b)| <= 0x1_0001
    ensures Chksum32(SwapPairs(b)) == SwapBytes(Chksum32(b))
  {
    AllAgree(b);
    AllAgree(SwapPairs(b));
    SwappedWords(b);
    ByteOrderIndependence(Words(b));
  }

  lemma SwappedWords(b: seq<Byte>)
    requires |b| % 2 == 0
    ensures Words(SwapPairs(b)) == SwapAll(Words(b))
  {
    hide SwapBytes, WordAt;
    forall k | 0 <= k < |Words(b)|
      ensures Words(SwapPairs(b))[k] == SwapBytes(Words(b)[k])
    {
      SwappedWordAt(b, k);
    }
  }

  lemma SwappedWordAt(b: seq<Byte>, k: nat)
    requires |b| % 2 == 0 && 2 * k < |b|
    ensures WordAt(SwapPairs(b), k) == SwapBytes(WordAt(b, k))
  {
    assert SwapPairs(b)[2 * k] == b[2 * k + 1] && SwapPairs(b)[2 * k + 1] == b[2 * k];
  }

}
