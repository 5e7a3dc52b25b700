/** itoaFast of internal/cli/wizard_extra.go: a 64-bit integer written in decimal, from the right, into
    a buffer of twenty bytes. Every such integer fits, but for the least, which has no positive
    counterpart. */
module Decimal {

  const MIN_INT64 := -0x8000_0000_0000_0000
  const MAX_INT64 := 0x7fff_ffff_ffff_ffff
  const BUFFER := 20

  function Digit(d: nat): (c: char)
    requires d < 10
    ensures '0' <= c <= '9' && c as int - '0' as int == d
  {
    ('0' as int + d) as char
  }

  /** The numeral of a natural number. */
  function Digits(n: nat): (s: string)
    ensures s != ""
  {
    if n < 10 then [Digit(n)] else Digits(n / 10) + [Digit(n % 10)]
  }

  function Numeral(n: int): string {
    if n < 0 then "-" + Digits(-n) else Digits(n)
  }

  // ----- what a numeral denotes ---------------------------------------------------------------------

  predicate IsDigits(s: string) {
    s != "" && forall k :: 0 <= k < |s| ==> '0' <= s[k] <= '9'
  }

  function Value(s: string): nat
    requires forall k :: 0 <= k < |s| ==> '0' <= s[k] <= '9'
  {
    if s == "" then 0 else 10 * Value(s[..|s| - 1]) + (s[|s| - 1] as int - '0' as int)
  }

  /** A decimal numeral: digits, perhaps behind a minus sign. */
  predicate IsNumeral(s: string) {
    IsDigits(s) || (s != "" && s[0] == '-' && IsDigits(s[1..]))
  }

  function Denotes(s: string): int
    requires IsNumeral(s)
  {
    if IsDigits(s) then Value(s) else 0 - (Value(s[1..]) as int)
  }

  lemma {:induction false} DigitsValue(n: nat)
    ensures IsDigits(Digits(n)) && Value(Digits(n)) == n
    ensures Digits(n)[0] == '0' <==> n == 0
  {
    if n >= 10 {
      DigitsValue(n / 10);
      var t := Digits(n / 10);
      assert Digits(n)[..|Digits(n)| - 1] == t;
    } else {
      assert [Digit(n)][..0] == "";
    }
  }

  /** A numeral denotes the number it was made from, and has no superfluous zero. */
  lemma NumeralDenotes(n: int)
    ensures IsNumeral(Numeral(n)) && Denotes(Numeral(n)) == n
    ensures n != 0 ==> '0' != Numeral(n)[0] && (n < 0 ==> '0' != Numeral(n)[1])
  {
    if n < 0 {
      DigitsValue(-n);
      assert Numeral(n)[1..] == Digits(-n);
    } else {
      DigitsValue(n);
    }
  }

  function Pow10(k: nat): nat {
    if k == 0 then 1 else 10 * Pow10(k - 1)
  }

  /** A number has as many digits as there are powers of ten up to it. */
  lemma {:induction false} DigitsLength(n: nat, k: nat)
    ensures |Digits(n)| <= k + 1 <==> n < Pow10(k + 1)
    decreases n
  {
    if n < 10 {
      PowPositive(k);
    } else if k == 0 {
      assert Pow10(1) == 10 * Pow10(0);
    } else {
      DigitsLength(n / 10, k - 1);
      assert n / 10 < Pow10(k) <==> n < 10 * Pow10(k);
    }
  }

  lemma {:induction false} PowPositive(k: nat)
    ensures Pow10(k) >= 1
  {
    if k > 0 {
      PowPositive(k - 1);
    }
  }

  lemma Pow19()
    ensures Pow10(18) == 1_000_000_000_000_000_000 && Pow10(19) == 10_000_000_000_000_000_000
  {
    assert Pow10(4) == 10_000;
    assert Pow10(8) == 100_000_000;
    assert Pow10(12) == 1_000_000_000_000;
    assert Pow10(16) == 10_000_000_000_000_000;
    assert Pow10(18) == 1_000_000_000_000_000_000;
  }

  /** Every 64-bit integer above the least fits the buffer, and the longest ones fill it. */
  lemma NumeralFits(n: int)
    requires MIN_INT64 < n <= MAX_INT64
    ensures |Numeral(n)| <= BUFFER
    ensures |Numeral(n)| == BUFFER <==> n <= -1_000_000_000_000_000_000
  {
    Pow19();
    var m := if n < 0 then -n else n;
    DigitsLength(m, 18);
    DigitsLength(m, 17);
  }

  // ----- the loop -----------------------------------------------------------------------------------

  /** What is still to be written before the digits in the buffer. */
  function Rest(n: int): string {
    if n > 0 then Digits(n) else ""
  }

  /** `tail` stands in the buffer from `i` on, and `n` of `m` is still to be written. */
  predicate Writing(tail: string, n: int, m: int, i: int) {
    1 <= i <= BUFFER &&
    if m > 0 then 0 <= n < Pow10(i - 1) && Rest(n) + tail == Digits(m) else n == m && tail == ""
  }

  /** Two's complement: the least integer is its own negation. */
  function Negate64(n: int): int
    requires MIN_INT64 <= n <= MAX_INT64
  {
    if n == MIN_INT64 then MIN_INT64 else -n
  }

  /** The loop: digits from the right, none for a number that is not positive. */
  method WriteDigits(buf: array<char>, m: int) returns (i: int)
    requires buf.Length == BUFFER && m < Pow10(BUFFER - 1)
    modifies buf
    ensures 1 <= i <= BUFFER && buf[i..] == Rest(m)
  {
    var n := m;
    i := buf.Length;
    while n > 0
      invariant 1 <= i <= buf.Length && Writing(buf[i..], n, m, i)
    {
      ghost var tail := buf[i..];
      i := i - 1;
      buf[i] := Digit(n % 10);
      assert buf[i..] == [Digit(n % 10)] + tail;
      n := n / 10;
    }
  }

  /** itoaFast writes the numeral of every 64-bit integer but the least one, for which negation
      overflows and only the sign is written. No index leaves the buffer. */
  method ItoaFast(n0: int) returns (r: string)
    requires MIN_INT64 <= n0 <= MAX_INT64
    ensures r == if n0 == MIN_INT64 then "-" else Numeral(n0)
  {
    var n := n0;
    if n == 0 {
      return "0";
    }
    var neg := n < 0;
    if neg {
      n := Negate64(n);
    }
    Pow19();
    var buf := new char[BUFFER];
    var i := WriteDigits(buf, n);
    if neg {
      ghost var tail := buf[i..];
      i := i - 1;
      buf[i] := '-';
      assert buf[i..] == ['-'] + tail;
    }
    return buf[i..];
  }

  /** So the least integer is the one exact exception. */
  lemma OnlyTheLeastIsLost(n: int)
    requires MIN_INT64 <= n <= MAX_INT64
    ensures (if n == MIN_INT64 then "-" else Numeral(n)) == Numeral(n) <==> n != MIN_INT64
  {
    NumeralDenotes(n);
  }
}
