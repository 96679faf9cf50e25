/**
 * The parts of java.lang.String and java.lang.Integer that the cache key is built on:
 * 32-bit `int` arithmetic, `String.hashCode`, `String.lastIndexOf(char)` and
 * `Integer.toHexString`.
 */
module JavaString {

  const TWO_32: int := 0x1_0000_0000

  /** Java's `int`. */
  type Int32 = x: int | -0x8000_0000 <= x < 0x8000_0000

  /** The two's-complement wrap-around Java applies to an exact `int` result. */
  function Wrap(x: int): Int32
  {
    var m := x % TWO_32;
    if m < 0x8000_0000 then m else m - TWO_32
  }

  /** The unsigned reading of an `int`'s 32 bits, as `Integer.toHexString` uses it. */
  function Unsigned(i: Int32): (r: nat)
    ensures r < TWO_32
  {
    if i < 0 then i + TWO_32 else i
  }

  /** Wrapping keeps exactly the low 32 bits, and the unsigned reading agrees modulo 2^32. */
  lemma WrapUnsigned(x: int, i: Int32)
    ensures Unsigned(Wrap(x)) == x % TWO_32
    ensures Unsigned(i) % TWO_32 == i % TWO_32
  {
  }

  lemma UnsignedInjective(i: Int32, j: Int32)
    requires Unsigned(i) == Unsigned(j)
    ensures i == j
  {
  }

  // ---------------------------------------------------------------------------
  // Strings as Java stores them

  /** The UTF-16 code units of one character: above U+FFFF a surrogate pair. */
  function CodeUnits(c: char): (u: seq<int>)
    ensures 1 <= |u| <= 2
    ensures forall k :: 0 <= k < |u| ==> 0 <= u[k] < 0x1_0000
    ensures |u| == 1 <==> (c as int) < 0x1_0000
  {
    var v := c as int;
    if v < 0x1_0000 then [v]
    else [0xD800 + (v - 0x1_0000) / 0x400, 0xDC00 + (v - 0x1_0000) % 0x400]
  }

  /** A surrogate pair decodes back to the character it encodes. */
  lemma CodeUnitsDecode(c: char)
    requires (c as int) >= 0x1_0000
    ensures 0xD800 <= CodeUnits(c)[0] < 0xDC00
    ensures 0xDC00 <= CodeUnits(c)[1] < 0xE000
    ensures 0x1_0000 + (CodeUnits(c)[0] - 0xD800) * 0x400 + (CodeUnits(c)[1] - 0xDC00) == c as int
  {
  }

  /** The sequence of UTF-16 code units a Java string holds for `s`. */
  function Utf16(s: string): (u: seq<int>)
    ensures |u| >= |s|
    ensures forall k :: 0 <= k < |u| ==> 0 <= u[k] < 0x1_0000
    ensures (forall k :: 0 <= k < |s| ==> (s[k] as int) < 0x1_0000) ==> |u| == |s|
  {
    if s == [] then [] else Utf16(s[..|s| - 1]) + CodeUnits(s[|s| - 1])
  }

  /** Without supplementary characters, each code unit is the character itself. */
  lemma {:induction false} Utf16Bmp(s: string)
    requires forall k :: 0 <= k < |s| ==> (s[k] as int) < 0x1_0000
    ensures |Utf16(s)| == |s|
    ensures forall k :: 0 <= k < |s| ==> Utf16(s)[k] == s[k] as int
  {
    if s != [] {
      Utf16Bmp(s[..|s| - 1]);
    }
  }

  /**
   * Decodes UTF-16 code units back into characters, from the end: a low surrogate preceded by
   * a high surrogate is one supplementary character, any other unit stands for itself, and a
   * unit that is no character (an unpaired surrogate) becomes U+FFFD.
   */
  function FromUtf16(u: seq<int>): string
  {
    if u == [] then []
    else
      var n := |u|;
      if n >= 2 && 0xD800 <= u[n - 2] < 0xDC00 && 0xDC00 <= u[n - 1] < 0xE000 then
        FromUtf16(u[..n - 2]) + [(0x1_0000 + (u[n - 2] - 0xD800) * 0x400 + (u[n - 1] - 0xDC00)) as char]
      else if 0 <= u[n - 1] < 0xD800 || 0xE000 <= u[n - 1] < 0x11_0000 then
        FromUtf16(u[..n - 1]) + [u[n - 1] as char]
      else
        FromUtf16(u[..n - 1]) + ['\U{FFFD}']
  }

  /** Decoding the units of one more character yields exactly that character, after the rest. */
  lemma DecodeLast(p: seq<int>, c: char)
    ensures FromUtf16(p + CodeUnits(c)) == FromUtf16(p) + [c]
  {
    var u := p + CodeUnits(c);
    if (c as int) < 0x1_0000 {
      assert u[..|u| - 1] == p;
    } else {
      CodeUnitsDecode(c);
      assert u[..|u| - 2] == p;
    }
  }

  /** Decoding the code units of a string gives the string back: no two strings share them. */
  lemma {:induction false} Utf16RoundTrip(s: string)
    ensures FromUtf16(Utf16(s)) == s
  {
    if s != [] {
      var init, c := s[..|s| - 1], s[|s| - 1];
      assert s == init + [c];
      Utf16RoundTrip(init);
      DecodeLast(Utf16(init), c);
    }
  }

  /** Strings with the same code units are the same string. */
  lemma Utf16Injective(s: string, t: string)
    requires Utf16(s) == Utf16(t)
    ensures s == t
  {
    Utf16RoundTrip(s);
    Utf16RoundTrip(t);
  }

  // ---------------------------------------------------------------------------
  // String.hashCode

  /**
   * `String.hashCode`: `h = 31 * h + unit` over the code units, in `int` arithmetic; its
   * 32 bits are the documented polynomial over the code units, modulo 2^32.
   */
  function HashCode(s: string): (h: Int32)
    ensures Unsigned(h) == Polynomial(Utf16(s)) % TWO_32
  {
    HashIsPolynomial(Utf16(s));
    Horner(Utf16(s))
  }

  function Horner(u: seq<int>): Int32
  {
    if u == [] then 0 else Wrap(31 * Horner(u[..|u| - 1]) + u[|u| - 1])
  }

  function Pow31(k: nat): nat
  {
    if k == 0 then 1 else 31 * Pow31(k - 1)
  }

  /**
   * The closed form Java documents for `hashCode`:
   * `u[0] * 31^(n-1) + u[1] * 31^(n-2) + ... + u[n-1]`, before the 32-bit wrap.
   */
  function Polynomial(u: seq<int>): int
  {
    if u == [] then 0 else u[0] * Pow31(|u| - 1) + Polynomial(u[1..])
  }

  lemma {:induction false} PolynomialSnoc(u: seq<int>, c: int)
    ensures Polynomial(u + [c]) == 31 * Polynomial(u) + c
  {
    if u == [] {
      assert [] + [c] == [c];
    } else {
      assert (u + [c])[1..] == u[1..] + [c];
      PolynomialSnoc(u[1..], c);
      calc {
        Polynomial(u + [c]);
        u[0] * Pow31(|u|) + Polynomial(u[1..] + [c]);
        u[0] * (31 * Pow31(|u| - 1)) + 31 * Polynomial(u[1..]) + c;
        { assert u[0] * (31 * Pow31(|u| - 1)) == 31 * (u[0] * Pow31(|u| - 1)); }
        31 * (u[0] * Pow31(|u| - 1) + Polynomial(u[1..])) + c;
      }
    }
  }

  lemma ShiftMod(a: int, b: int, c: int)
    requires a % TWO_32 == b % TWO_32
    ensures (31 * a + c) % TWO_32 == (31 * b + c) % TWO_32
  {
    var q := (a - b) / TWO_32;
    assert a - b == TWO_32 * q;
    assert 31 * a + c == 31 * b + c + TWO_32 * (31 * q);
  }

  /** The recurrence Java runs computes the documented polynomial modulo 2^32. */
  lemma {:induction false} HashIsPolynomial(u: seq<int>)
    ensures Unsigned(Horner(u)) == Polynomial(u) % TWO_32
  {
    if u != [] {
      var p, c := u[..|u| - 1], u[|u| - 1];
      assert p + [c] == u;
      HashIsPolynomial(p);
      PolynomialSnoc(p, c);
      WrapUnsigned(31 * Horner(p) + c, Horner(p));
      ShiftMod(Horner(p), Polynomial(p), c);
    }
  }

  // ---------------------------------------------------------------------------
  // String.lastIndexOf(char)

  /** `s.lastIndexOf(c)`: the last position holding `c`, or -1 when there is none. */
  function LastIndexOf(s: string, c: char): (r: int)
    ensures -1 <= r < |s|
    ensures r >= 0 ==> s[r] == c
    ensures forall j :: r < j < |s| ==> s[j] != c
  {
    if s == [] then -1
    else if s[|s| - 1] == c then |s| - 1
    else LastIndexOf(s[..|s| - 1], c)
  }

  /** A character followed only by other characters is found as the last occurrence. */
  lemma LastIndexOfSplit(a: string, c: char, b: string)
    requires c !in b
    ensures LastIndexOf(a + [c] + b, c) == |a|
  {
    var s := a + [c] + b;
    var r := LastIndexOf(s, c);
    assert s[|a|] == c;
  }

  // ---------------------------------------------------------------------------
  // Integer.toHexString

  predicate IsHexDigit(c: char)
  {
    '0' <= c <= '9' || 'a' <= c <= 'f'
  }

  predicate IsHexString(s: string)
  {
    forall k :: 0 <= k < |s| ==> IsHexDigit(s[k])
  }

  function HexDigit(d: nat): (c: char)
    requires d < 16
    ensures IsHexDigit(c)
  {
    if d < 10 then ('0' as int + d) as char else ('a' as int + d - 10) as char
  }

  function DigitValue(c: char): (d: nat)
    requires IsHexDigit(c)
    ensures d < 16
  {
    if c <= '9' then c as int - '0' as int else c as int - 'a' as int + 10
  }

  lemma DigitValueOfHexDigit(d: nat)
    requires d < 16
    ensures DigitValue(HexDigit(d)) == d
  {
  }

  /** Lower-case hexadecimal digits of `n`, most significant first, no leading zeros. */
  function Hex(n: nat): (s: string)
    ensures |s| >= 1 && IsHexString(s)
  {
    if n < 16 then [HexDigit(n)] else Hex(n / 16) + [HexDigit(n % 16)]
  }

  /**
   * `Integer.toHexString(i)`: the unsigned value of `i` in one to eight lower-case
   * hexadecimal digits, which read back as that value, with no leading zero.
   */
  function ToHexString(i: Int32): (s: string)
    ensures 1 <= |s| <= 8 && IsHexString(s)
    ensures ParseHex(s) == Unsigned(i)
    ensures s[0] == '0' <==> i == 0
  {
    assert Pow16(8) == TWO_32;
    HexNoLeadingZero(Unsigned(i));
    HexLength(Unsigned(i), 8);
    HexRoundTrip(Unsigned(i));
    Hex(Unsigned(i))
  }

  /** The value a hexadecimal digit string denotes. */
  function ParseHex(s: string): nat
    requires IsHexString(s)
  {
    if s == [] then 0 else 16 * ParseHex(s[..|s| - 1]) + DigitValue(s[|s| - 1])
  }

  /** Reading the digits back gives the number: the rendering loses nothing. */
  lemma {:induction false} HexRoundTrip(n: nat)
    ensures ParseHex(Hex(n)) == n
  {
    if n < 16 {
      DigitValueOfHexDigit(n);
      assert Hex(n)[..0] == [];
    } else {
      var s := Hex(n);
      assert s[..|s| - 1] == Hex(n / 16);
      HexRoundTrip(n / 16);
      DigitValueOfHexDigit(n % 16);
    }
  }

  /** There is no leading zero: the first digit is '0' only for the number zero. */
  lemma {:induction false} HexNoLeadingZero(n: nat)
    ensures Hex(n)[0] == '0' <==> n == 0
    ensures Hex(n) == "0" <==> n == 0
  {
    if n >= 16 {
      HexNoLeadingZero(n / 16);
    }
  }

  function Pow16(k: nat): (p: nat)
    ensures p >= 1
  {
    if k == 0 then 1 else 16 * Pow16(k - 1)
  }

  /** A number below 16^k takes at most k digits, and at least k digits from 16^(k-1) up. */
  lemma {:induction false} HexLength(n: nat, k: nat)
    requires 1 <= k
    ensures n < Pow16(k) ==> |Hex(n)| <= k
    ensures Pow16(k - 1) <= n ==> |Hex(n)| >= k
  {
    if n >= 16 && k > 1 {
      HexLength(n / 16, k - 1);
    } else if k > 1 {
      assert Pow16(k - 1) == 16 * Pow16(k - 2);
    }
  }

  /** `Integer.toHexString` yields from one to eight digits; the width is not fixed. */
  lemma ToHexStringWidth(i: Int32)
    ensures 1 <= |ToHexString(i)| <= 8
    ensures i == 0 ==> ToHexString(i) == "0"
    ensures i < 0 ==> |ToHexString(i)| == 8
  {
    assert Pow16(8) == TWO_32;
    assert Pow16(7) == 0x1000_0000;
    HexLength(Unsigned(i), 8);
  }
}
