/**
 * The Internet checksum of RFC 1071 and the repository's three C implementations of it, on a
 * little-endian host. All three add 16-bit words into a wide accumulator, fold the carries back
 * exactly twice and complement.
 */
module Checksum {
  import opened Basics

  type Word = w: int | 0 <= w < 0x1_0000

  // ----- RFC 1071

  /** 16-bit ones' complement addition: a carry out of the top is added back in. */
  function EndAround(a: Word, b: Word): Word {
    if a + b > 0xffff then a + b - 0xffff else a + b
  }

  function OnesComplementSum(ws: seq<Word>): Word {
    if ws == [] then 0 else EndAround(OnesComplementSum(ws[..|ws| - 1]), ws[|ws| - 1])
  }

  /** The checksum of section 1: the complement of the ones' complement sum. */
  function InternetChecksum(ws: seq<Word>): Word {
    0xffff - OnesComplementSum(ws)
  }

  // ----- reading memory

  /** The 16-bit word at byte offset 2k; a missing second byte reads as zero. */
  function WordAt(b: seq<Byte>, k: nat): Word
    requires 2 * k < |b|
  {
    var high: int := if 2 * k + 1 < |b| then b[2 * k + 1] else 0;
    0x100 * high + b[2 * k]
  }

  function Words(b: seq<Byte>): (ws: seq<Word>)
    ensures |ws| == (|b| + 1) / 2
  {
    seq((|b| + 1) / 2, k requires 0 <= k < (|b| + 1) / 2 => WordAt(b, k))
  }

  function Sum(ws: seq<Word>): nat {
    if ws == [] then 0 else Sum(ws[..|ws| - 1]) + ws[|ws| - 1]
  }

  // ----- the implementations

  /** Both folds, and the truncation to 16 bits that the complement ends in. */
  function FoldTwice(sum: nat): Word {
    var once := sum / 0x1_0000 + sum % 0x1_0000;
    (once + once / 0x1_0000) % 0x1_0000
  }

  /** Addition on C `unsigned int` keeps the low 32 bits. */
  function Wrap32(n: nat): nat {
    n % 0x1_0000_0000
  }

  /** What `chksum` computes: its accumulator wraps modulo 2^32. */
  function Chksum32(b: seq<Byte>): Word {
    0xffff - FoldTwice(Wrap32(Sum(Words(b))))
  }

  /** What the two `csum` functions compute: their accumulator has 64 bits. */
  function Csum64(ws: seq<Word>): Word {
    0xffff - FoldTwice(Sum(ws))
  }

  /** The two folding statements and the complement. */
  method Finish(total: nat) returns (result: Word)
    ensures result == 0xffff - FoldTwice(total)
  {
    var sum := total;
    sum := sum / 0x1_0000 + sum % 0x1_0000;
    sum := sum + sum / 0x1_0000;
    result := 0xffff - sum % 0x1_0000;
  }

  /** `chksum` of sender.c: by bytes, 32-bit accumulator, odd tail byte added alone. */
  method Chksum(mem: seq<Byte>, length: int) returns (result: Word)
    requires length <= |mem|
    ensures result == Chksum32(if length < 0 then [] else mem[..length])
  {
    ghost var b := if length < 0 then [] else mem[..length];
    ghost var ws := Words(b);
    var len, buf, sum: int := length, 0, 0;
    while len > 1
      invariant 0 <= buf <= |ws| && (length >= 0 ==> len == length - 2 * buf >= 0)
      invariant sum == Wrap32(Sum(ws[..buf]))
    {
      SumNext(ws, buf);
      WrapNext(Sum(ws[..buf]), ws[buf]);
      assert ws[buf] == WordAt(mem, buf);
      sum := Wrap32(sum + WordAt(mem, buf));
      buf := buf + 1;
      len := len - 2;
    }
    if len == 1 {
      SumNext(ws, buf);
      WrapNext(Sum(ws[..buf]), ws[buf]);
      assert ws[buf] == mem[2 * buf];
      sum := Wrap32(sum + mem[2 * buf]);
      buf := buf + 1;
    }
    assert ws[..buf] == ws;
    result := Finish(sum);
  }

  /** `csum` of rawsender.c: by words, 64-bit accumulator, which an `int` count cannot overflow. */
  method CsumByWords(buf: seq<Word>, count: int) returns (result: Word)
    requires count <= |buf| && count < 0x8000_0000
    ensures result == Csum64(if count < 0 then [] else buf[..count])
  {
    var nwords, sum: int, k := count, 0, 0;
    while nwords > 0
      invariant k >= 0 && (count >= 0 ==> nwords == count - k >= 0) && (count < 0 ==> k == 0 && nwords < 0)
      invariant sum == Sum(buf[..k]) <= k * 0xffff
    {
      SumNext(buf, k);
      assert sum + buf[k] < 0x1_0000_0000_0000_0000;
      sum := sum + buf[k];
      k := k + 1;
      nwords := nwords - 1;
    }
    result := Finish(sum);
  }

  /**
   * `csum` of udp_sender.c: by bytes, 64-bit accumulator. Its loop runs while one byte is left,
   * so an odd count also adds the byte behind the buffer, and its tail branch never runs.
   */
  method CsumByBytes(mem: seq<Byte>, count: int) returns (result: Word)
    requires count < 0x8000_0000 && (count > 0 ==> (count + 1) / 2 * 2 <= |mem|)
    ensures result == Csum64(Words(if count < 0 then [] else mem[..(count + 1) / 2 * 2]))
  {
    ghost var ws := Words(if count < 0 then [] else mem[..(count + 1) / 2 * 2]);
    var nbytes, sum: int, ptr := count, 0, 0;
    while nbytes >= 1
      invariant 0 <= ptr <= |ws| && (count >= 0 ==> nbytes == count - 2 * ptr >= -1)
      invariant sum == Sum(ws[..ptr]) <= ptr * 0xffff
    {
      SumNext(ws, ptr);
      assert WordAt(mem, ptr) == ws[ptr] && sum + ws[ptr] < 0x8000_0000_0000_0000;
      sum := sum + WordAt(mem, ptr);
      ptr := ptr + 1;
      nbytes := nbytes - 2;
    }
    assert nbytes != 1;
    assert ws[..ptr] == ws;
    result := Finish(sum);
  }

  lemma SumNext(ws: seq<Word>, k: nat)
    requires k < |ws|
    ensures Sum(ws[..k + 1]) == Sum(ws[..k]) + ws[k]
  {
    assert ws[..k + 1][..k] == ws[..k];
  }

  lemma WrapNext(total: nat, w: nat)
    ensures Wrap32(Wrap32(total) + w) == Wrap32(total + w)
  {
    var q, q' := total / 0x1_0000_0000, (Wrap32(total) + w) / 0x1_0000_0000;
    assert total + w == 0x1_0000_0000 * (q + q') + Wrap32(Wrap32(total) + w);
  }
}
