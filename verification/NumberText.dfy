/** Decimal text of the TickTock driver: `itoa` with its in-place reversal, and `atoi`. */
module NumberText {

  function Digit(d: int): char
    requires 0 <= d < 10
  {
    '0' + d as char
  }

  /** Decimal digits of `n`, most significant first, without leading zeros. */
  function Decimal(n: nat): string {
    if n < 10 then [Digit(n)] else Decimal(n / 10) + [Digit(n % 10)]
  }

  /** The text of `num`. */
  function Text(num: int): string {
    if num < 0 then "-" + Decimal(-num) else Decimal(num)
  }

  function Pow10(k: nat): (p: nat)
    ensures p > 0
  {
    if k == 0 then 1 else 10 * Pow10(k - 1)
  }

  /**
   * `s` shows `n` in the fewest digits, but at least one; the character k places from the right
   * shows the digit of 10^k, and '0' is character 48.
   */
  predicate IsDecimal(n: nat, s: string) {
    && |s| >= 1 && n < Pow10(|s|) && (|s| > 1 ==> Pow10(|s| - 1) <= n)
    && forall k :: 0 <= k < |s| ==> DigitAt(n, s, k)
  }

  predicate DigitAt(n: nat, s: string, k: nat)
    requires k < |s|
  {
    s[|s| - 1 - k] as int == 48 + n / Pow10(k) % 10
  }

  /** Digits of `n`, least significant first; none for zero. */
  function LowFirst(n: nat): string {
    if n == 0 then [] else [Digit(n % 10)] + LowFirst(n / 10)
  }

  function Reversed(s: string): (r: string)
  {
    seq(|s|, k requires 0 <= k < |s| => s[|s| - 1 - k])
  }

  /** What `atoi` makes of any characters: it checks none of them. */
  function Value(s: string): int {
    if s == [] then 0 else 10 * Value(s[..|s| - 1]) + (s[|s| - 1] as int - '0' as int)
  }

  // ----- the program

  method Reverse(str: array<char>, length: nat)
    requires length <= str.Length
    modifies str
    ensures str[..length] == Reversed(old(str[..length]))
    ensures forall k :: 0 <= k < length ==> str[k] == old(str[length - 1 - k])
    ensures str[length..] == old(str[length..])
  {
    var start, end := 0, length - 1;
    while start < end
      invariant 0 <= start <= end + 2 && end == length - 1 - start
      invariant forall k :: 0 <= k < start ==>
        str[k] == old(str[length - 1 - k]) && str[length - 1 - k] == old(str[k])
      invariant forall k :: start <= k <= end ==> str[k] == old(str[k])
      invariant str[length..] == old(str[length..])
    {
      str[start], str[end] := str[end], str[start];
      start := start + 1;
      end := end - 1;
    }
  }

  /** The digit loop: remainders by ten, from the start of `str` on. */
  method FillDigits(num: nat, str: array<char>) returns (i: nat)
    requires |LowFirst(num)| <= str.Length
    modifies str
    ensures i == |LowFirst(num)| && str[..i] == LowFirst(num)
  {
    i := 0;
    var n := num;
    while n != 0
      invariant i + |LowFirst(n)| == |LowFirst(num)|
      invariant str[..i] + LowFirst(n) == LowFirst(num)
    {
      ghost var before, rest := str[..i], LowFirst(n / 10);
      str[i] := Digit(n % 10);
      assert str[..i + 1] == before + [Digit(n % 10)];
      assert before + [Digit(n % 10)] + rest == before + ([Digit(n % 10)] + rest);
      i := i + 1;
      n := n / 10;
    }
    assert str[..i] + [] == str[..i];
  }

  /**
   * Writes the text of `num` and a terminator into `str`, and returns the length of the text: a
   * minus sign if there is one, and then as many decimal digits as `num` needs, at least one.
   */
  method Itoa(num: int, str: array<char>) returns (length: nat)
    requires |Text(num)| < str.Length
    modifies str
    ensures length == |Text(num)| && str[..length] == Text(num) && str[length] == '\0'
    ensures num >= 0 ==> length >= 1 && IsDecimal(num, str[..length])
    ensures num < 0 ==> length >= 2 && str[0] == '-' && IsDecimal(-num, str[1..length])
  {
    hide IsDecimal, LowFirst, Reversed, Text;
    DecimalText(num);
    if num == 0 {
      ZeroText();
      str[0] := '0';
      str[1] := '\0';
      return 1;
    }
    var isNegative := num < 0;
    ghost var digits := LowFirst(if isNegative then -num else num);
    ReversedText(num, digits);
    var i := FillDigits(if isNegative then -num else num, str);
    if isNegative {
      str[i] := '-';
      i := i + 1;
      assert str[..i] == digits + "-";
    }
    str[i] := '\0';
    ghost var text := digits + if isNegative then "-" else "";
    assert str[..i] == text;
    Reverse(str, i);
    assert str[i] == str[i..][0];
    assert str[1..i] == str[..i][1..];
    length := i;
  }

  /** Reads up to the terminator. */
  method Atoi(str: array<char>, length: nat) returns (res: int)
    requires length < str.Length && str[length] == '\0'
    requires forall k :: 0 <= k < length ==> str[k] != '\0'
    ensures res == Value(str[..length])
  {
    res := 0;
    var i := 0;
    while str[i] != '\0'
      invariant i <= length && res == Value(str[..i])
      decreases length - i
    {
      assert str[..i + 1][..i] == str[..i];
      res := res * 10 + str[i] as int - '0' as int;
      i := i + 1;
    }
  }

  // ----- digits in both orders

  lemma ReversedPush(c: char, s: string)
    ensures Reversed([c] + s) == Reversed(s) + [c]
    ensures Reversed(s + [c]) == [c] + Reversed(s)
  {
  }

  lemma {:induction false} LowFirstReversed(n: nat)
    requires n > 0
    ensures Reversed(LowFirst(n)) == Decimal(n)
  {
    if n >= 10 {
      LowFirstReversed(n / 10);
      ReversedPush(Digit(n % 10), LowFirst(n / 10));
    } else {
      assert Reversed(LowFirst(n / 10)) == [];
    }
  }

  lemma ReversedText(num: int, digits: string)
    requires num != 0 && digits == LowFirst(if num < 0 then -num else num)
    ensures |digits| + (if num < 0 then 1 else 0) == |Text(num)|
    ensures Reversed(digits + if num < 0 then "-" else "") == Text(num)
  {
    if num < 0 {
      LowFirstReversed(-num);
      ReversedPush('-', digits);
    } else {
      LowFirstReversed(num);
      assert digits + "" == digits;
    }
  }

  // ----- round trip and size

  lemma DecimalText(num: int)
    ensures num >= 0 ==> |Text(num)| >= 1 && IsDecimal(num, Text(num))
    ensures num < 0 ==> |Text(num)| >= 2 && Text(num)[0] == '-' && IsDecimal(-num, Text(num)[1..])
  {
    DecimalDigits(if num < 0 then -num else num);
  }

  lemma {:induction false} ValueOfDecimal(n: nat)
    ensures Value(Decimal(n)) == n
    ensures Pow10(|Decimal(n)|) > n
    ensures n > 0 ==> Pow10(|Decimal(n)| - 1) <= n && Decimal(n)[0] != '0'
  {
    var d := Decimal(n);
    if n >= 10 {
      ValueOfDecimal(n / 10);
      assert d[..|d| - 1] == Decimal(n / 10);
    } else {
      assert d[..0] == [];
    }
  }

  lemma {:induction false} DecimalDigits(n: nat)
    ensures IsDecimal(n, Decimal(n))
  {
    var d := Decimal(n);
    forall k | 0 <= k < |d|
      ensures DigitAt(n, d, k)
    {
      DecimalDigit(n, k);
    }
    ValueOfDecimal(n);
  }

  lemma {:induction false} DecimalDigit(n: nat, k: nat)
    requires k < |Decimal(n)|
    ensures DigitAt(n, Decimal(n), k)
  {
    if k == 0 {
    } else {
      DecimalDigit(n / 10, k - 1);
      DivisionByTens(n, k);
    }
  }

  lemma DivisionByTens(n: nat, k: nat)
    requires k > 0
    ensures n / 10 / Pow10(k - 1) == n / Pow10(k)
  {
    var p, q := Pow10(k - 1), n / 10 / Pow10(k - 1);
    QuotientIs(n / 10, p, q);
    QuotientIs(n, 10 * p, q);
  }

  lemma QuotientIs(n: nat, d: nat, q: int)
    requires d > 0
    ensures q == n / d <==> q * d <= n < (q + 1) * d
  {
    var m := n / d;
    assert n == m * d + n % d && (m + 1) * d == m * d + d;
  }

  lemma ZeroText()
    ensures Text(0) == "0"
  {
  }

  /** What `atoi` makes of any characters, from the left: each counts its code less 48, by its place. */
  lemma {:induction false} ValueFromLeft(c: char, s: string)
    ensures Value([c] + s) == (c as int - 48) * Pow10(|s|) + Value(s)
  {
    if s == [] {
      assert ([c] + s)[..0] == [];
    } else {
      hide Pow10;
      assert ([c] + s)[..|s|] == [c] + s[..|s| - 1];
      ValueFromLeft(c, s[..|s| - 1]);
      assert 10 * ((c as int - 48) * Pow10(|s| - 1)) == (c as int - 48) * Pow10(|s|);
    }
  }

  /** `atoi` inverts `itoa` for every number that is not negative, and for no other. */
  lemma AtoiOfItoa(num: int)
    ensures Value(Text(num)) == num <==> num >= 0
  {
    if num >= 0 {
      ValueOfDecimal(num);
    } else {
      ValueOfDecimal(-num);
      ValueFromLeft('-', Decimal(-num));
    }
  }

  /** Every 32-bit number and its terminator fit the driver's buffer of 40 characters. */
  lemma TextFitsBuffer(num: int)
    requires -0x8000_0000 <= num < 0x8000_0000
    ensures |Text(num)| <= 11 < 40
  {
    var n := if num < 0 then -num else num;
    ValueOfDecimal(n);
    if |Decimal(n)| > 10 { Pow10Monotone(10, |Decimal(n)| - 1); }
  }

  lemma {:induction false} Pow10Monotone(a: nat, b: nat)
    requires a <= b
    ensures Pow10(a) <= Pow10(b)
  {
    if a == b {
    } else {
      Pow10Monotone(a, b - 1);
    }
  }
}
