/** The packet dump of the sniffer: sixteen bytes a row, in hexadecimal and as characters. */
module HexDump {
  import opened Basics

  const INDENT := "   "
  const GAP := "         "

  function Printable(b: Byte): char {
    if 32 <= b <= 128 then b as char else '.'
  }

  function HexDigit(d: int): char
    requires 0 <= d < 16
  {
    if d < 10 then '0' + d as char else 'A' + (d - 10) as char
  }

  /** `" %02X"`. */
  function Cell(b: Byte): string {
    [' ', HexDigit(b / 16), HexDigit(b % 16)]
  }

  function Cells(d: seq<Byte>): string {
    if d == [] then [] else Cells(d[..|d| - 1]) + Cell(d[|d| - 1])
  }

  function Ascii(d: seq<Byte>): (s: string)
  {
    seq(|d|, k requires 0 <= k < |d| => Printable(d[k]))
  }

  /** What follows the cells of a row: padding, gap, characters. */
  function Tail(d: seq<Byte>): string
    requires |d| <= 16
  {
    Spaces(3 * (16 - |d|)) + GAP + Ascii(d) + "\n"
  }

  /** One row of at most sixteen bytes. */
  function Row(d: seq<Byte>): string
    requires |d| <= 16
  {
    INDENT + Cells(d) + Tail(d)
  }

  /** The rows of `d`, one after the other. */
  function Dump(d: seq<Byte>): string {
    if d == [] then []
    else if |d| <= 16 then Row(d)
    else Row(d[..16]) + Dump(d[16..])
  }

  // ----- the program

  method PrintAscii(data: seq<Byte>, from: nat, to: nat) returns (out: string)
    requires from <= to <= |data|
    ensures out == Ascii(data[from..to])
  {
    out := "";
    var j := from;
    while j < to
      invariant from <= j <= to && out == Ascii(data[from..j])
    {
      if data[j] >= 32 && data[j] <= 128 {
        out := out + [data[j] as char];
      } else {
        out := out + ".";
      }
      j := j + 1;
    }
  }

  /** Printed before the cell of byte `i`: the end of a row just filled, the indentation of a new one. */
  function Before(data: seq<Byte>, i: nat): string
    requires i <= |data|
  {
    (if i != 0 && i % 16 == 0 then GAP + Ascii(data[i - 16..i]) + "\n" else "") +
    (if i % 16 == 0 then INDENT else "")
  }

  /** Printed up to and including the cells of the first `i` bytes. */
  function Printed(data: seq<Byte>, i: nat): string
    requires i <= |data|
  {
    if i == 0 then "" else Printed(data, i - 1) + Before(data, i - 1) + Cell(data[i - 1])
  }

  /** Printed behind the cell of the last byte. */
  function Ending(data: seq<Byte>): string
    requires data != []
  {
    var i := |data| - 1;
    Spaces(3 * (15 - i % 16)) + GAP + Ascii(data[i - i % 16..i + 1]) + "\n"
  }

  method PrintBefore(data: seq<Byte>, i: nat) returns (out: string)
    requires i <= |data|
    ensures out == Before(data, i)
  {
    out := "";
    if i != 0 && i % 16 == 0 {
      var ascii := PrintAscii(data, i - 16, i);
      out := "         " + ascii + "\n";
    }
    if i % 16 == 0 {
      out := out + "   ";
    }
  }

  method PrintEnding(data: seq<Byte>) returns (out: string)
    requires data != []
    ensures out == Ending(data)
  {
    var i := |data| - 1;
    out := "";
    var j := 0;
    while j < 15 - i % 16
      invariant j <= 15 - i % 16 && out == Spaces(3 * j)
    {
      out := out + "   ";
      j := j + 1;
    }
    var ascii := PrintAscii(data, i - i % 16, i + 1);
    out := out + "         " + ascii + "\n";
  }

  method PrintData(data: seq<Byte>) returns (out: string)
    ensures out == Dump(data)
  {
    out := "";
    var i := 0;
    while i < |data|
      invariant i <= |data|
      invariant i < |data| || data == [] ==> out == Printed(data, i)
      invariant i == |data| != 0 ==> out == Printed(data, i) + Ending(data)
    {
      var before := PrintBefore(data, i);
      out := out + before;
      out := out + Cell(data[i]);
      if i == |data| - 1 {
        var ending := PrintEnding(data);
        out := out + ending;
      }
      i := i + 1;
    }
    PrintedIsDump(data);
  }

  // ----- what the loop prints is the rows

  /** Column of the byte at offset `n` in a row that begins at a multiple of sixteen. */
  lemma Column(start: nat, n: nat)
    requires start % 16 == 0 && n <= 16
    ensures (start + n) % 16 == if n == 16 then 0 else n
  {
  }

  lemma Regroup(a: string, b: string, c: string)
    ensures a + b + c == a + (b + c)
  {
  }

  /** A row is complete once its tail follows its cells. */
  lemma RowDone(rows: string, d: seq<Byte>)
    requires |d| <= 16
    ensures rows + (INDENT + Cells(d)) + Tail(d) == rows + Row(d)
  {
  }

  lemma {:induction false} DumpAppend(a: seq<Byte>, b: seq<Byte>)
    requires |a| % 16 == 0
    ensures Dump(a + b) == Dump(a) + Dump(b)
  {
    if a == [] {
      assert a + b == b;
    } else if b == [] {
      assert a + b == a;
    } else {
      assert (a + b)[..16] == a[..16] && (a + b)[16..] == a[16..] + b;
      DumpAppend(a[16..], b);
      Regroup(Row(a[..16]), Dump(a[16..]), Dump(b));
    }
  }

  lemma NextRow(a: seq<Byte>, d: seq<Byte>, b: Byte)
    requires |a| % 16 == 0 && |d| == 16
    ensures Dump(a) + (INDENT + Cells(d)) + (GAP + Ascii(d) + "\n" + INDENT) + Cell(b)
         == Dump(a + d) + (INDENT + Cells([b]))
  {
    RowDone(Dump(a), d);
    DumpAppend(a, d);
    Regroup(Dump(a) + (INDENT + Cells(d)), Tail(d), INDENT);
    Regroup(Dump(a + d), INDENT, Cell(b));
  }

  /** The printout up to byte `i` is the rows of some bytes `a` and the cells of a further row `d`. */
  ghost predicate Shape(data: seq<Byte>, i: nat, a: seq<Byte>, d: seq<Byte>) {
    && i <= |data| && data[..i] == a + d
    && |a| % 16 == 0 && 0 < |d| <= 16
    && Printed(data, i) == Dump(a) + (INDENT + Cells(d))
  }

  lemma ShapeInRow(data: seq<Byte>, i: nat, a: seq<Byte>, d: seq<Byte>)
    requires Shape(data, i, a, d) && i < |data| && |d| < 16
    ensures Shape(data, i + 1, a, d + [data[i]])
  {
    Column(|a|, |d|);
    assert i == |a| + |d|;
    assert Before(data, i) == "";
    assert data[..i + 1] == data[..i] + [data[i]];
  }

  lemma ShapeNewRow(data: seq<Byte>, i: nat, a: seq<Byte>, d: seq<Byte>)
    requires Shape(data, i, a, d) && i < |data| && |d| == 16
    ensures Shape(data, i + 1, a + d, [data[i]])
  {
    Column(|a|, |d|);
    assert i == |a| + |d|;
    assert data[i - 16..i] == data[..i][i - 16..] == d;
    NextRow(a, d, data[i]);
    assert data[..i + 1] == data[..i] + [data[i]];
  }

  lemma {:induction false} PrintedShape(data: seq<Byte>, i: nat) returns (a: seq<Byte>, d: seq<Byte>)
    requires 0 < i <= |data|
    ensures Shape(data, i, a, d)
  {
    if i == 1 {
      a, d := [], [data[0]];
    } else {
      a, d := PrintedShape(data, i - 1);
      if |d| == 16 {
        ShapeNewRow(data, i - 1, a, d);
        a, d := a + d, [data[i - 1]];
      } else {
        ShapeInRow(data, i - 1, a, d);
        d := d + [data[i - 1]];
      }
    }
  }

  lemma EndingIsTail(data: seq<Byte>, a: seq<Byte>, d: seq<Byte>)
    requires data == a + d && |a| % 16 == 0 && 0 < |d| <= 16
    ensures Ending(data) == Tail(d)
  {
    var i := |data| - 1;
    Column(|a|, |d| - 1);
    assert i == |a| + (|d| - 1);
    assert data[|a|..|data|] == d;
  }

  lemma PrintedIsDump(data: seq<Byte>)
    ensures data != [] ==> Printed(data, |data|) + Ending(data) == Dump(data)
  {
    if data != [] {
      var a, d := PrintedShape(data, |data|);
      assert data[..|data|] == data;
      EndingIsTail(data, a, d);
      LastRowDone(a, d);
    }
  }

  lemma LastRowDone(a: seq<Byte>, d: seq<Byte>)
    requires |a| % 16 == 0 && 0 < |d| <= 16
    ensures Dump(a) + (INDENT + Cells(d)) + Tail(d) == Dump(a + d)
  {
    RowDone(Dump(a), d);
    DumpAppend(a, d);
  }

  // ----- the dump can be read back

  predicate IsHexDigit(c: char) {
    '0' <= c <= '9' || 'A' <= c <= 'F'
  }

  function HexValue(c: char): int {
    if c <= '9' then c as int - '0' as int else c as int - 'A' as int + 10
  }

  /** The bytes of the hexadecimal cells at the start of `s`, from cell `k` on. */
  function ReadCells(s: string, k: nat): seq<int>
    decreases 16 - k
  {
    if k >= 16 || |s| < 3 * k + 6 || !IsHexDigit(s[3 * k + 4]) then []
    else [16 * HexValue(s[3 * k + 4]) + HexValue(s[3 * k + 5])] + ReadCells(s, k + 1)
  }

  /** Reads a dump row by row, looking only at the hexadecimal column. */
  function Undump(s: string): seq<int>
    decreases |s|
  {
    var d := ReadCells(s, 0);
    if d == [] || |s| <= 60 + |d| then d
    else d + Undump(s[60 + |d| + 1..])
  }

  lemma {:induction false} CellsAt(d: seq<Byte>, k: nat)
    requires k < |d|
    ensures |Cells(d)| == 3 * |d|
    ensures Cells(d)[3 * k] == ' '
    ensures Cells(d)[3 * k + 1] == HexDigit(d[k] / 16) && Cells(d)[3 * k + 2] == HexDigit(d[k] % 16)
  {
    var n := |d| - 1;
    if n == 0 {
      assert Cells(d[..0]) == [];
    } else {
      CellsAt(d[..n], if k < n then k else 0);
    }
  }

  lemma CellsLength(d: seq<Byte>)
    ensures |Cells(d)| == 3 * |d|
  {
  }

  /** Every row has its characters at offset 60, and ends behind them. */
  lemma RowShape(d: seq<Byte>)
    requires |d| <= 16
    ensures |Row(d)| == 60 + |d| + 1
    ensures Row(d)[60..60 + |d|] == Ascii(d)
    ensures Row(d)[60 + |d|] == '\n'
  {
    CellsLength(d);
  }

  /** Cell `k` of a row has its two digits at offset 3k + 4; they are blank behind the last byte. */
  lemma RowCell(d: seq<Byte>, k: nat)
    requires |d| <= 16 && k < 16
    ensures |Row(d)| >= 60
    ensures k < |d| ==> Row(d)[3 * k + 4] == HexDigit(d[k] / 16) && Row(d)[3 * k + 5] == HexDigit(d[k] % 16)
    ensures k >= |d| ==> Row(d)[3 * k + 4] == ' '
  {
    RowShape(d);
    CellsLength(d);
    if k < |d| {
      CellsAt(d, k);
      assert Row(d)[3 * k + 4] == Cells(d)[3 * k + 1];
      assert Row(d)[3 * k + 5] == Cells(d)[3 * k + 2];
    }
  }

  /** The places of a row that hold a digit, a character, the newline, or a blank. */
  predicate RowBlank(n: nat, at: nat) {
    at < 60 && (at < 4 || at >= 3 * n + 3 || at % 3 == 0)
  }

  /** A row character by character. */
  predicate IsRow(d: seq<Byte>, row: string)
    requires |d| <= 16
  {
    && |row| == 61 + |d| && row[60 + |d|] == '\n'
    && (forall at :: 0 <= at < 60 && RowBlank(|d|, at) ==> row[at] == ' ')
    && (forall k :: 0 <= k < |d| ==> IsCell(d[k], row, k))
  }

  /** Byte `b` as cell and as character `k` of a row. */
  predicate IsCell(b: Byte, row: string, k: nat)
    requires k < 16 && |row| > 60 + k
  {
    && row[3 * k + 4] == "0123456789ABCDEF"[b / 16]
    && row[3 * k + 5] == "0123456789ABCDEF"[b % 16]
    && row[60 + k] == if 32 <= b <= 128 then b as char else '.'
  }

  lemma RowIsRow(d: seq<Byte>)
    requires |d| <= 16
    ensures IsRow(d, Row(d))
  {
    RowShape(d);
    forall k | 0 <= k < |d|
      ensures IsCell(d[k], Row(d), k)
    {
      RowCell(d, k);
    }
    forall at | 0 <= at < 60 && RowBlank(|d|, at)
      ensures Row(d)[at] == ' '
    {
      RowIsBlank(d, at);
    }
  }

  lemma RowIsBlank(d: seq<Byte>, at: nat)
    requires |d| <= 16 && RowBlank(|d|, at)
    ensures |Row(d)| > at && Row(d)[at] == ' '
  {
    RowShape(d);
    CellsLength(d);
    if 3 <= at < 3 * |d| + 3 {
      CellsAt(d, (at - 3) / 3);
      assert Row(d)[at] == Cells(d)[at - 3];
    } else if at < 3 {
      assert Row(d)[at] == INDENT[at];
    } else {
      assert Row(d)[at] == (Spaces(3 * (16 - |d|)) + GAP)[at - 3 - 3 * |d|];
    }
  }

  /** The bytes of row `r`. */
  function RowOf(d: seq<Byte>, r: nat): (row: seq<Byte>)
    requires 16 * r <= |d|
    ensures |row| <= 16
  {
    if |d| < 16 * r + 16 then d[16 * r..] else d[16 * r..16 * r + 16]
  }

  lemma {:induction false} DumpRowText(d: seq<Byte>, r: nat) returns (before: string, after: string)
    requires 16 * r < |d|
    ensures Dump(d) == before + Row(RowOf(d, r)) + after && |before| == 77 * r
  {
    hide Row;
    if r == 0 {
      before, after := "", if |d| <= 16 then "" else Dump(d[16..]);
      assert RowOf(d, 0) == if |d| <= 16 then d else d[..16];
    } else {
      before, after := DumpRowText(d[16..], r - 1);
      assert RowOf(d[16..], r - 1) == RowOf(d, r);
      RowShape(d[..16]);
      Regroup(Row(d[..16]), before + Row(RowOf(d, r)), after);
      Regroup(Row(d[..16]), before, Row(RowOf(d, r)));
      before := Row(d[..16]) + before;
    }
  }

  /** The rows of a dump begin 77 characters apart. */
  lemma DumpRow(d: seq<Byte>, r: nat)
    requires 16 * r < |d|
    ensures 77 * r + 61 + |RowOf(d, r)| <= |Dump(d)|
    ensures IsRow(RowOf(d, r), Dump(d)[77 * r..77 * r + 61 + |RowOf(d, r)|])
  {
    hide IsRow, Dump, RowOf, Row;
    var before, after := DumpRowText(d, r);
    RowShape(RowOf(d, r));
    RowIsRow(RowOf(d, r));
    assert Dump(d)[77 * r..77 * r + 61 + |RowOf(d, r)|] == Row(RowOf(d, r));
  }

  /** All rows but the last have 77 characters, and the last 61 and one for each byte. */
  lemma {:induction false} DumpLength(d: seq<Byte>)
    ensures d != [] ==> |Dump(d)| == 77 * ((|d| - 1) / 16) + 61 + ((|d| - 1) % 16 + 1)
    ensures d == [] ==> Dump(d) == ""
  {
    hide Row;
    if |d| <= 16 {
      RowShape(d);
    } else {
      RowShape(d[..16]);
      DumpLength(d[16..]);
    }
  }

  /** Byte `i` of the data stands in row i / 16 of its dump, as two digits and as one character. */
  lemma DumpByte(d: seq<Byte>, i: nat)
    requires i < |d|
    ensures var row, k := 77 * (i / 16), i % 16;
      && row + 60 + k < |Dump(d)|
      && Dump(d)[row + 3 * k + 4] == "0123456789ABCDEF"[d[i] / 16]
      && Dump(d)[row + 3 * k + 5] == "0123456789ABCDEF"[d[i] % 16]
      && Dump(d)[row + 60 + k] == if 32 <= d[i] <= 128 then d[i] as char else '.'
  {
    hide Dump, IsCell;
    var r, k := i / 16, i % 16;
    DumpRow(d, r);
    ByteCell(d, i, Dump(d)[77 * r..77 * r + 61 + |RowOf(d, r)|]);
  }

  lemma ByteCell(d: seq<Byte>, i: nat, row: string)
    requires i < |d| && IsRow(RowOf(d, i / 16), row)
    ensures |row| > 60 + i % 16
    ensures row[3 * (i % 16) + 4] == "0123456789ABCDEF"[d[i] / 16]
    ensures row[3 * (i % 16) + 5] == "0123456789ABCDEF"[d[i] % 16]
    ensures row[60 + i % 16] == if 32 <= d[i] <= 128 then d[i] as char else '.'
  {
    var r, k := i / 16, i % 16;
    assert i == 16 * r + k;
    assert RowOf(d, r)[k] == d[i];
    assert IsCell(RowOf(d, r)[k], row, k);
  }

  /** Cell `k` of `s` shows byte `k` of `d`, or nothing behind the last byte. */
  predicate Shows(s: string, d: seq<Byte>, k: nat) {
    && |s| >= 3 * k + 6
    && (IsHexDigit(s[3 * k + 4]) <==> k < |d|)
    && (k < |d| ==> 16 * HexValue(s[3 * k + 4]) + HexValue(s[3 * k + 5]) == d[k])
  }

  lemma RowShows(d: seq<Byte>, rest: string, k: nat)
    requires |d| <= 16 && k < 16
    ensures Shows(Row(d) + rest, d, k)
  {
    RowCell(d, k);
    var s := Row(d) + rest;
    assert s[3 * k + 4] == Row(d)[3 * k + 4] && s[3 * k + 5] == Row(d)[3 * k + 5];
    if k < |d| {
    }
  }

  lemma {:induction false} ReadShown(s: string, d: seq<Byte>, k: nat)
    requires k <= |d| <= 16 && forall j :: 0 <= j < 16 ==> Shows(s, d, j)
    ensures ReadCells(s, k) == d[k..]
    decreases |d| - k
  {
    if k == 16 {
    } else {
      assert Shows(s, d, k);
      if k < |d| {
        ReadShown(s, d, k + 1);
        assert d[k..] == [d[k]] + d[k + 1..];
      }
    }
  }

  lemma ReadCellsOfRow(d: seq<Byte>, rest: string)
    requires |d| <= 16
    ensures ReadCells(Row(d) + rest, 0) == d
  {
    forall j | 0 <= j < 16
      ensures Shows(Row(d) + rest, d, j)
    {
      RowShows(d, rest, j);
    }
    ReadShown(Row(d) + rest, d, 0);
  }

  lemma UndumpRow(d: seq<Byte>, rest: string)
    requires 0 < |d| <= 16
    ensures Undump(Row(d) + rest) == d + Undump(rest)
  {
    ReadCellsOfRow(d, rest);
    RowShape(d);
    assert (Row(d) + rest)[|Row(d)|..] == rest;
  }

  /** The dump of any bytes reads back as those bytes, so different packets never look alike. */
  lemma {:induction false} DumpReadsBack(d: seq<Byte>)
    ensures Undump(Dump(d)) == d
  {
    if |d| > 16 {
      UndumpRow(d[..16], Dump(d[16..]));
      DumpReadsBack(d[16..]);
      assert d == d[..16] + d[16..];
    } else if d != [] {
      assert Row(d) + [] == Row(d);
      UndumpRow(d, []);
    }
  }

  lemma DumpInjective(a: seq<Byte>, b: seq<Byte>)
    requires Dump(a) == Dump(b)
    ensures a == b
  {
    DumpReadsBack(a);
    DumpReadsBack(b);
  }
}
