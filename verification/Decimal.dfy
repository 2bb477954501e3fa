/** Decimal text for 64-bit integers, as strconv.FormatInt and strconv.ParseInt with base 10 produce
    and accept it.  A string is a Go string: each char stands for one byte. */
module Decimal {

  datatype Option<+T> = None | Some(value: T)

  const MIN_INT64: int := -0x8000_0000_0000_0000
  const MAX_INT64: int := 0x7fff_ffff_ffff_ffff

  predicate IsInt64(n: int) {
    MIN_INT64 <= n <= MAX_INT64
  }

  type int64 = n: int | MIN_INT64 <= n <= MAX_INT64

  const TWO64: int := 0x1_0000_0000_0000_0000

  /** Signed 64-bit addition: one wrap-around at most. */
  function Add64(a: int64, b: int64): int64 {
    a + b - TWO64 * Carry(a, b)
  }

  function Carry(a: int64, b: int64): (c: int)
    ensures IsInt64(a + b - TWO64 * c)
  {
    if a + b > MAX_INT64 then 1 else if a + b < MIN_INT64 then -1 else 0
  }

  /** The 64-bit integer congruent to n modulo 2^64. */
  function Wrap64(n: int): int64 {
    (n - MIN_INT64) % TWO64 + MIN_INT64
  }

  /** A 64-bit integer that differs from n by a multiple of 2^64 is the wrapped n. */
  lemma WrapUnique(n: int, r: int64, q: int)
    requires n == r + TWO64 * q
    ensures Wrap64(n) == r
  {
    var x := n - MIN_INT64;
    var d := x / TWO64;
    assert x == TWO64 * d + x % TWO64;
    assert TWO64 * (q - d) == x % TWO64 - (r - MIN_INT64);
  }

  predicate IsDigit(c: char) {
    '0' <= c <= '9'
  }

  function DigitChar(d: nat): (c: char)
    requires d < 10
    ensures IsDigit(c) && DigitValue(c) == d
  {
    '0' + d as char
  }

  function DigitValue(c: char): (d: nat)
    requires IsDigit(c)
    ensures d < 10
  {
    (c - '0') as nat
  }

  predicate AllDigits(s: string) {
    forall i :: 0 <= i < |s| ==> IsDigit(s[i])
  }

  function FormatNat(n: nat): (s: string)
    ensures |s| > 0 && AllDigits(s)
  {
    if n < 10 then [DigitChar(n)] else FormatNat(n / 10) + [DigitChar(n % 10)]
  }

  function NatValue(s: string): nat
    requires AllDigits(s)
  {
    if s == "" then 0 else 10 * NatValue(s[..|s| - 1]) + DigitValue(s[|s| - 1])
  }

  /** strconv.FormatInt(n, 10), and strconv.Itoa. */
  function FormatInt(n: int): (s: string)
    ensures |s| > 0
    ensures forall i :: 0 <= i < |s| ==> IsDigit(s[i]) || (i == 0 && s[i] == '-')
  {
    if n < 0 then "-" + FormatNat(-n) else FormatNat(n)
  }

  /** strconv.ParseInt(s, 10, 64): an optional sign, at least one digit, nothing else, and in range. */
  function ParseInt(s: string): Option<int64>
  {
    var signed := |s| > 0 && (s[0] == '-' || s[0] == '+');
    var digits := if signed then s[1..] else s;
    if digits == "" || !AllDigits(digits) then None
    else
      var n: int := if signed && s[0] == '-' then 0 - NatValue(digits) else NatValue(digits);
      if IsInt64(n) then Some(n) else None
  }

  lemma {:induction false} NatRoundTrip(n: nat)
    ensures NatValue(FormatNat(n)) == n
  {
    if n >= 10 {
      NatRoundTrip(n / 10);
      var s := FormatNat(n);
      assert s[..|s| - 1] == FormatNat(n / 10);
    }
  }

  /** What FormatInt prints, ParseInt reads back, for every 64-bit integer. */
  lemma IntRoundTrip(n: int)
    requires IsInt64(n)
    ensures ParseInt(FormatInt(n)) == Some(n)
  {
    if n < 0 {
      NatRoundTrip(-n);
      assert FormatInt(n)[1..] == FormatNat(-n);
    } else {
      NatRoundTrip(n);
      assert IsDigit(FormatNat(n)[0]);
    }
  }

  /** The text is decimal: a digit stands for itself, a digit more is ten times the rest and the digit, and a
      minus sign stands for the negative. */
  lemma TextIsDecimal(n: nat, d: nat)
    requires d < 10
    ensures FormatInt(d) == ["0123456789"[d]]
    ensures n > 0 ==> FormatInt(10 * n + d) == FormatInt(n) + ["0123456789"[d]]
    ensures n > 0 ==> FormatInt(0 - n) == "-" + FormatInt(n)
  {
    assert "0123456789"[d] == DigitChar(d);
  }

  lemma {:induction false} FormatNatInjective(a: nat, b: nat)
    requires FormatNat(a) == FormatNat(b)
    ensures a == b
  {
    NatRoundTrip(a);
    NatRoundTrip(b);
  }

  lemma FormatIntSign(n: int)
    ensures FormatInt(n)[0] == '-' <==> n < 0
  {
    if n >= 0 {
      assert IsDigit(FormatNat(n)[0]);
    }
  }

  lemma FormatIntInjective(a: int, b: int)
    requires FormatInt(a) == FormatInt(b)
    ensures a == b
  {
    FormatIntSign(a);
    FormatIntSign(b);
    if a < 0 {
      assert FormatInt(a)[1..] == FormatNat(-a) && FormatInt(b)[1..] == FormatNat(-b);
      FormatNatInjective(-a, -b);
    } else {
      FormatNatInjective(a, b);
    }
  }
}
