/**
  C-level text as the statsd client produces it: NUL-terminated strings read by `%s` and
  `strlen`, `size_t` values printed with `%zd`, and a sample rate printed with `%.2f`.
  Characters stand for C `char`s.
 */
module CText {

  /** Number of `size_t` values on a 64-bit target, and the weight of its sign bit. */
  const TWO_64: int := 0x1_0000_0000_0000_0000
  const TWO_63: int := 0x8000_0000_0000_0000

  /** A C `size_t`. */
  type U64 = x: int | 0 <= x < TWO_64

  /** C's conversion of an integer to `size_t`: reduction modulo 2^64. */
  function ToU64(x: int): (r: U64)
    ensures 0 <= x < TWO_64 ==> r == x
    ensures exists k :: x == r + k * TWO_64
  {
    var r := x % TWO_64;
    assert x == r + (x / TWO_64) * TWO_64;
    r
  }

  /** `%zd` prints a `size_t` as the signed value with the same 64 bits (two's complement). */
  function AsSigned(v: U64): (r: int)
    ensures -TWO_63 <= r < TWO_63
    ensures ToU64(r) == v
  {
    if v < TWO_63 then v else v - TWO_64
  }

  /** Reading back the two's complement of a signed 64-bit value gives that value. */
  lemma AsSignedOfToU64(x: int)
    requires -TWO_63 <= x < TWO_63
    ensures AsSigned(ToU64(x)) == x
  {
  }

  // ---------------------------------------------------------------- NUL-terminated strings

  /**
    What `%s` and `strlen` see of a character buffer: everything before its first NUL.
    The three ensures characterise the result completely (see CStrUnique).
   */
  function CStr(s: seq<char>): (r: string)
    ensures '\0' !in r
    ensures r <= s
    ensures |r| < |s| ==> s[|r|] == '\0'
  {
    if s == [] || s[0] == '\0' then [] else [s[0]] + CStr(s[1..])
  }

  /** A NUL-free prefix followed by a NUL (or by the end) is what `%s` reads. */
  lemma CStrUnique(s: seq<char>, r: string)
    requires r <= s && '\0' !in r
    requires |r| < |s| ==> s[|r|] == '\0'
    ensures CStr(s) == r
  {
  }

  /** A string without a NUL is read whole. */
  lemma CStrOfPlain(s: string)
    requires '\0' !in s
    ensures CStr(s) == s
  {
    CStrUnique(s, s);
  }

  // ---------------------------------------------------------------- decimal numbers

  predicate IsDigit(c: char) { '0' <= c <= '9' }

  predicate AllDigits(s: string) { forall i :: 0 <= i < |s| ==> IsDigit(s[i]) }

  function Digit(d: nat): (c: char)
    requires d < 10
    ensures IsDigit(c) && c as int - '0' as int == d
  {
    (d + '0' as int) as char
  }

  /** Unsigned decimal rendering: at least one digit, no sign, no padding, no leading zero. */
  function NatDecimal(n: nat): (s: string)
    ensures |s| > 0 && AllDigits(s)
    ensures s[0] == '0' <==> n == 0
    decreases n
  {
    if n < 10 then [Digit(n)] else NatDecimal(n / 10) + [Digit(n % 10)]
  }

  /** Reads a digit string back, most significant digit first. */
  function DigitsValue(s: string): int
  {
    if s == [] then 0 else DigitsValue(s[..|s| - 1]) * 10 + (s[|s| - 1] as int - '0' as int)
  }

  lemma {:induction false} DigitsValueOfNatDecimal(n: nat)
    ensures DigitsValue(NatDecimal(n)) == n
    decreases n
  {
    if n >= 10 {
      var s := NatDecimal(n / 10);
      var t := s + [Digit(n % 10)];
      assert t[..|t| - 1] == s;
      DigitsValueOfNatDecimal(n / 10);
    }
  }

  /** Signed decimal rendering, as `%d` and `%zd` print: a '-' only for negative values. */
  function Decimal(x: int): (s: string)
    ensures |s| > 0
    ensures s[0] == '-' <==> x < 0
    ensures forall i :: (if x < 0 then 1 else 0) <= i < |s| ==> IsDigit(s[i])
    ensures |s| > (if x < 0 then 1 else 0) && (s[if x < 0 then 1 else 0] == '0' <==> x == 0)
  {
    if x < 0 then "-" + NatDecimal(-x) else NatDecimal(x)
  }

  /** Reads a signed decimal back. */
  function SignedValue(s: string): int
  {
    if |s| > 0 && s[0] == '-' then -DigitsValue(s[1..]) else DigitsValue(s)
  }

  lemma {:induction false} DecimalRoundTrip(x: int)
    ensures SignedValue(Decimal(x)) == x
  {
    if x < 0 {
      assert Decimal(x)[1..] == NatDecimal(-x);
      DigitsValueOfNatDecimal(-x);
    } else {
      DigitsValueOfNatDecimal(x);
    }
  }

  // ---------------------------------------------------------------- %.2f

  function Abs(x: real): real { if x < 0.0 then -x else x }

  /** Rounds to the nearest integer, ties to the even one (glibc's rounding of the exact value). */
  function RoundHalfEven(x: real): (n: int)
    ensures x - 0.5 <= n as real <= x + 0.5
    ensures 0.0 <= x ==> 0 <= n
  {
    var f := x.Floor;
    var d := x - f as real;
    if d < 0.5 then f
    else if d > 0.5 then f + 1
    else if f % 2 == 0 then f
    else f + 1
  }

  /** The hundredths `%.2f` prints for `x`, without the sign. */
  function Hundredths(x: real): nat
  {
    RoundHalfEven(Abs(x) * 100.0)
  }

  /** `%.2f`: a '-' for negative values, the whole part, '.', then exactly two fraction digits. */
  function Fixed2(x: real): (s: string)
    ensures |s| >= 4 && s[|s| - 3] == '.' && IsDigit(s[|s| - 2]) && IsDigit(s[|s| - 1])
    ensures s[0] == '-' <==> x < 0.0
    ensures |s| - 3 > (if x < 0.0 then 1 else 0)
    ensures forall i :: (if x < 0.0 then 1 else 0) <= i < |s| - 3 ==> IsDigit(s[i])
    ensures forall i :: 0 <= i < |s| ==> IsDigit(s[i]) || s[i] == '.' || s[i] == '-'
  {
    var n := Hundredths(x);
    (if x < 0.0 then "-" else "") + NatDecimal(n / 100) + "." + [Digit(n / 10 % 10), Digit(n % 10)]
  }

  /** Reads a `%.2f` rendering back as a number. */
  function Fixed2Value(s: string): real
  {
    var neg := |s| > 0 && s[0] == '-';
    var u := if neg then s[1..] else s;
    if |u| < 3 then 0.0
    else
      var hundredths := DigitsValue(u[..|u| - 3]) * 100 + DigitsValue(u[|u| - 2..]);
      (if neg then -1.0 else 1.0) * hundredths as real / 100.0
  }

  lemma TwoDigits(n: nat)
    ensures DigitsValue([Digit(n / 10 % 10), Digit(n % 10)]) == n % 100
  {
    var q, r := n / 100, n % 100;
    assert n == 100 * q + r && 0 <= r < 100;
    assert n / 10 == 10 * q + r / 10;
    assert n / 10 % 10 == r / 10 && n % 10 == r % 10;
    var frac := [Digit(r / 10), Digit(r % 10)];
    assert frac[..1] == [Digit(r / 10)];
    assert DigitsValue([Digit(r / 10)]) == r / 10;
  }

  /** `%.2f` text reads back as the signed number of hundredths it was built from. */
  lemma Fixed2Parts(x: real)
    ensures Fixed2Value(Fixed2(x)) == (if x < 0.0 then -1.0 else 1.0) * Hundredths(x) as real / 100.0
  {
    var n := Hundredths(x);
    var w := NatDecimal(n / 100);
    var frac := [Digit(n / 10 % 10), Digit(n % 10)];
    var u := w + "." + frac;
    var s := Fixed2(x);
    assert s == (if x < 0.0 then "-" else "") + u;
    if x < 0.0 {
      assert s[1..] == u;
    }
    assert u[..|u| - 3] == w;
    assert u[|u| - 2..] == frac;
    DigitsValueOfNatDecimal(n / 100);
    TwoDigits(n);
    var h := DigitsValue(u[..|u| - 3]) * 100 + DigitsValue(u[|u| - 2..]);
    assert h == n;
    var neg := |s| > 0 && s[0] == '-';
    assert neg == (x < 0.0);
    assert (if neg then s[1..] else s) == u && |u| >= 3;
    assert Fixed2Value(s) == (if neg then -1.0 else 1.0) * h as real / 100.0;
  }

  /** What `%.2f` prints reads back to within half a hundredth of the printed value. */
  lemma Fixed2Rounds(x: real)
    ensures x - 0.005 <= Fixed2Value(Fixed2(x)) <= x + 0.005
  {
    Fixed2Parts(x);
    var n := Hundredths(x);
    assert Abs(x) * 100.0 - 0.5 <= n as real <= Abs(x) * 100.0 + 0.5;
  }
}
