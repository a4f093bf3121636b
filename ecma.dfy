/**
 * The ECMAScript number and string semantics the colour hash depends on:
 * ToInt32 (ECMA-262, section 7.1.6), the left-shift operator (section 13.9.1),
 * the truncating remainder operator `%` (section 6.1.6.1.6), Number-to-String for
 * non-negative integers, and the UTF-16 code units a string is made of (section 6.1.4).
 */
module Ecma {

  const TwoTo31: int := 0x8000_0000
  const TwoTo32: int := 0x1_0000_0000

  /** ToInt32: the integer in [-2^31, 2^31) congruent to x modulo 2^32. */
  function ToInt32(x: int): (r: int)
    ensures -TwoTo31 <= r < TwoTo31
    ensures (x - r) % TwoTo32 == 0
  {
    var m := x % TwoTo32;
    if m >= TwoTo31 then m - TwoTo32 else m
  }

  /** ToInt32 is the only value in range congruent to its argument. */
  lemma ToInt32Unique(x: int, y: int)
    requires -TwoTo31 <= y < TwoTo31
    requires (x - y) % TwoTo32 == 0
    ensures ToInt32(x) == y
  {
    var r := ToInt32(x);
    var d := r - y;
    assert d % TwoTo32 == 0 by {
      assert (x - y) - (x - r) == d;
    }
    assert -TwoTo32 < d < TwoTo32;
  }

  /** `x << 5`: ToInt32 of the operand, shifted within 32 bits, read back as a signed 32-bit value. */
  function ShiftLeft5(x: int): int {
    ToInt32(ToInt32(x) * 32)
  }

  /** Shifting by 5 is ToInt32 of the exact product by 32. */
  lemma ShiftLeft5IsToInt32(x: int)
    ensures ShiftLeft5(x) == ToInt32(32 * x)
  {
    var a := ToInt32(x);
    var k := (x - a) / TwoTo32;
    assert x - a == k * TwoTo32;
    var r := ShiftLeft5(x);
    var j := (a * 32 - r) / TwoTo32;
    assert a * 32 - r == j * TwoTo32;
    assert 32 * x - r == (32 * k + j) * TwoTo32;
    ToInt32Unique(32 * x, r);
  }

  function Abs(x: int): (r: nat)
    ensures r == x || r == -x
  {
    if x < 0 then -x else x
  }

  /** The `%` operator on integers: the remainder takes the sign of the dividend. */
  function TruncRem(a: int, n: int): (r: int)
    requires n > 0
    ensures Abs(r) < n
    ensures a >= 0 ==> 0 <= r
    ensures a < 0 ==> r <= 0
    ensures Abs(r) == Abs(a) % n
  {
    if a >= 0 then a % n else -((-a) % n)
  }

  /** Math.abs(h % 360): the hue the hash selects, always in [0, 360). */
  function Hue(h: int): (r: nat)
    ensures r < 360
    ensures r == Abs(h) % 360
  {
    Abs(TruncRem(h, 360))
  }

  function DigitChar(d: nat): (c: char)
    requires d < 10
    ensures '0' <= c <= '9'
  {
    ('0' as int + d) as char
  }

  /** Number-to-String of a non-negative integer: its shortest decimal spelling. */
  function Decimal(n: nat): (r: string)
    ensures r != []
    ensures forall k :: 0 <= k < |r| ==> '0' <= r[k] <= '9'
    ensures |r| > 1 ==> r[0] != '0'
  {
    if n < 10 then [DigitChar(n)] else Decimal(n / 10) + [DigitChar(n % 10)]
  }

  /** The value of a string of decimal digits. */
  function ParseDecimal(s: string): nat
    requires forall k :: 0 <= k < |s| ==> '0' <= s[k] <= '9'
  {
    if s == [] then 0 else ParseDecimal(s[..|s| - 1]) * 10 + (s[|s| - 1] as int - '0' as int)
  }

  /** Number-to-String loses nothing: distinct numbers have distinct spellings. */
  lemma {:induction false} DecimalRoundTrip(n: nat)
    ensures ParseDecimal(Decimal(n)) == n
  {
    if n >= 10 {
      DecimalRoundTrip(n / 10);
      var s := Decimal(n);
      assert s[..|s| - 1] == Decimal(n / 10);
    }
  }

  /** A UTF-16 code unit. */
  predicate IsCodeUnit(u: int) {
    0 <= u < 0x1_0000
  }

  /** The one or two UTF-16 code units that encode a character. */
  function CodeUnits(c: char): (r: seq<int>)
    ensures 1 <= |r| <= 2
    ensures forall k :: 0 <= k < |r| ==> IsCodeUnit(r[k])
    ensures |r| == 1 <==> c as int < 0x1_0000
  {
    var v := c as int;
    if v < 0x1_0000 then [v]
    else [0xD800 + (v - 0x1_0000) / 0x400, 0xDC00 + (v - 0x1_0000) % 0x400]
  }

  /** The code units of a string, the sequence `charCodeAt` indexes and `length` counts. */
  function Utf16(s: string): (r: seq<int>)
    ensures |r| >= |s|
    ensures forall k :: 0 <= k < |r| ==> IsCodeUnit(r[k])
  {
    if s == [] then [] else CodeUnits(s[0]) + Utf16(s[1..])
  }

  /** Decodes UTF-16; a lone surrogate becomes U+FFFD. */
  function FromUtf16(u: seq<int>): string
    requires forall k :: 0 <= k < |u| ==> IsCodeUnit(u[k])
  {
    if u == [] then []
    else
      assert IsCodeUnit(u[0]);
      if |u| >= 2 && 0xD800 <= u[0] < 0xDC00 && 0xDC00 <= u[1] < 0xE000 then
      [(0x1_0000 + (u[0] - 0xD800) * 0x400 + (u[1] - 0xDC00)) as char] + FromUtf16(u[2..])
    else if 0xD800 <= u[0] < 0xE000 then ['\U{FFFD}'] + FromUtf16(u[1..])
    else [u[0] as char] + FromUtf16(u[1..])
  }

  lemma DecodeCodeUnits(c: char, rest: seq<int>)
    requires forall k :: 0 <= k < |rest| ==> IsCodeUnit(rest[k])
    ensures forall k :: 0 <= k < |CodeUnits(c) + rest| ==> IsCodeUnit((CodeUnits(c) + rest)[k])
    ensures FromUtf16(CodeUnits(c) + rest) == [c] + FromUtf16(rest)
  {
    var u := CodeUnits(c) + rest;
    var v := c as int;
    if v < 0x1_0000 {
      assert u[0] == v && u[1..] == rest;
    } else {
      var w := v - 0x1_0000;
      assert w == (w / 0x400) * 0x400 + w % 0x400;
      assert u[0] == 0xD800 + w / 0x400 && u[1] == 0xDC00 + w % 0x400;
      assert u[2..] == rest;
    }
  }

  /** Encoding as UTF-16 loses nothing. */
  lemma {:induction false} Utf16RoundTrip(s: string)
    ensures FromUtf16(Utf16(s)) == s
  {
    if s != [] {
      Utf16RoundTrip(s[1..]);
      DecodeCodeUnits(s[0], Utf16(s[1..]));
      assert [s[0]] + s[1..] == s;
    }
  }

  /** A string of Basic Multilingual Plane characters has one code unit per character. */
  lemma {:induction false} Utf16Bmp(s: string)
    requires forall k :: 0 <= k < |s| ==> s[k] as int < 0x1_0000
    ensures |Utf16(s)| == |s|
    ensures forall k :: 0 <= k < |s| ==> Utf16(s)[k] == s[k] as int
  {
    if s != [] {
      Utf16Bmp(s[1..]);
    }
  }
}
