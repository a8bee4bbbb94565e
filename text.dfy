/**
 * String helpers shared by the backend and the components: JavaScript's
 * rendering of integers in a radix (`String(n)`, `n.toString(16)`), the
 * `Array.prototype.join` of strings, and the `#rrggbb` colour pattern
 * `/^#[0-9A-Fa-f]{6}$/` that several components test.
 */
module Text {

  /** `c` is one of `0-9`. */
  predicate IsDecimalDigit(c: char) {
    '0' <= c <= '9'
  }

  /** `c` is one of `0-9`, `a-f`, `A-F` (the class `[0-9A-Fa-f]`). */
  predicate IsHexDigit(c: char) {
    '0' <= c <= '9' || 'a' <= c <= 'f' || 'A' <= c <= 'F'
  }

  /** `c` is one of `0-9`, `a-f`: the digits `toString(16)` produces. */
  predicate IsLowerHexDigit(c: char) {
    '0' <= c <= '9' || 'a' <= c <= 'f'
  }

  /** The numeric value of a hexadecimal digit, either case. */
  function HexDigitValue(c: char): (v: nat)
    requires IsHexDigit(c)
    ensures v < 16
    ensures IsDecimalDigit(c) <==> v < 10
  {
    if '0' <= c <= '9' then c as int - '0' as int
    else if 'a' <= c <= 'f' then c as int - 'a' as int + 10
    else c as int - 'A' as int + 10
  }

  /** The lower-case digit character for `d`, as JavaScript writes it in any radix up to 16. */
  function DigitChar(d: nat): (c: char)
    requires d < 16
    ensures IsLowerHexDigit(c) && IsHexDigit(c)
    ensures HexDigitValue(c) == d
  {
    if d < 10 then ('0' as int + d) as char else ('a' as int + d - 10) as char
  }

  /** The number that a digit string denotes in radix `base`, most significant digit first. */
  function DigitsValue(s: string, base: nat): nat
    requires forall i :: 0 <= i < |s| ==> IsHexDigit(s[i])
  {
    if s == [] then 0 else DigitsValue(s[..|s| - 1], base) * base + HexDigitValue(s[|s| - 1])
  }

  /** The digits of `n` in radix `base`, most significant first. */
  function Digits(n: nat, base: nat): string
    requires 2 <= base <= 16
    decreases n
  {
    if n < base then [DigitChar(n)] else Digits(n / base, base) + [DigitChar(n % base)]
  }

  /** Euclidean division splits `n` into a quotient part and a remainder below `base`. */
  lemma DivModSplit(n: nat, base: nat)
    requires 2 <= base <= n
    ensures (n / base) * base + n % base == n
    ensures 1 <= n / base < n && n % base < base
  {
  }

  /** Every digit is a lower-case digit below the radix. */
  lemma {:induction false} DigitsShape(n: nat, base: nat)
    requires 2 <= base <= 16
    ensures 1 <= |Digits(n, base)|
    ensures forall i :: 0 <= i < |Digits(n, base)| ==>
      IsLowerHexDigit(Digits(n, base)[i]) && IsHexDigit(Digits(n, base)[i]) && HexDigitValue(Digits(n, base)[i]) < base
    decreases n
  {
    if n >= base {
      DivModSplit(n, base);
      DigitsShape(n / base, base);
    }
  }

  /** The digits read back as `n`. */
  lemma {:induction false} DigitsRoundTrip(n: nat, base: nat)
    requires 2 <= base <= 16
    ensures forall i :: 0 <= i < |Digits(n, base)| ==> IsHexDigit(Digits(n, base)[i])
    ensures DigitsValue(Digits(n, base), base) == n
    decreases n
  {
    DigitsShape(n, base);
    if n >= base {
      DivModSplit(n, base);
      DigitsRoundTrip(n / base, base);
      var high := Digits(n / base, base);
      var s := Digits(n, base);
      assert s[..|s| - 1] == high;
    }
  }

  /** The first digit is never a leading zero, unless `n` is zero. */
  lemma {:induction false} DigitsNoLeadingZero(n: nat, base: nat)
    requires 2 <= base <= 16
    ensures Digits(n, base)[0] != '0' || Digits(n, base) == "0"
    decreases n
  {
    DigitsShape(n, base);
    if n >= base {
      DivModSplit(n, base);
      DigitsNoLeadingZero(n / base, base);
      DigitsShape(n / base, base);
      var high := Digits(n / base, base);
      assert Digits(n, base)[0] == high[0];
    }
  }

  /**
   * JavaScript's rendering of a non-negative integer in radix `base`
   * (`n.toString(base)`): lower-case digits, no leading zero, and the
   * digits read back as `n`.
   */
  function NatToDigits(n: nat, base: nat): (s: string)
    requires 2 <= base <= 16
    ensures 1 <= |s|
    ensures forall i :: 0 <= i < |s| ==> IsLowerHexDigit(s[i]) && IsHexDigit(s[i]) && HexDigitValue(s[i]) < base
    ensures DigitsValue(s, base) == n
    ensures s[0] != '0' || s == "0"
  {
    DigitsShape(n, base);
    DigitsRoundTrip(n, base);
    DigitsNoLeadingZero(n, base);
    Digits(n, base)
  }

  /** `String(n)` for a non-negative integer. */
  function NatToString(n: nat): (s: string)
    ensures 1 <= |s| && forall i :: 0 <= i < |s| ==> IsDecimalDigit(s[i])
  {
    NatToDigits(n, 10)
  }

  /** `String(i)` for an integer: a minus sign before the digits of a negative one. */
  function IntToString(i: int): (s: string)
    ensures 1 <= |s|
    ensures i < 0 <==> s[0] == '-'
  {
    if i < 0 then "-" + NatToString(-i) else NatToString(i)
  }

  /** The decimal rendering is one-to-one: distinct numbers never print alike. */
  lemma IntToStringInjective(a: int, b: int)
    requires IntToString(a) == IntToString(b)
    ensures a == b
  {
    if a < 0 {
      assert NatToString(-a) == IntToString(a)[1..] == IntToString(b)[1..] == NatToString(-b);
    }
    assert DigitsValue(NatToString(if a < 0 then -a else a), 10) == if a < 0 then -a else a;
  }

  /** `parts.join(sep)`. */
  function Join(parts: seq<string>, sep: string): string
  {
    if |parts| == 0 then ""
    else if |parts| == 1 then parts[0]
    else parts[0] + sep + Join(parts[1..], sep)
  }

  /**
   * JavaScript's `s.length`: the number of UTF-16 code units, two for a
   * character outside the Basic Multilingual Plane (a surrogate pair).
   */
  function Utf16Length(s: string): (n: nat)
    ensures |s| <= n <= 2 * |s|
    ensures n == |s| <==> forall i :: 0 <= i < |s| ==> s[i] as int < 0x1_0000
  {
    if |s| == 0 then 0
    else
      var rest := Utf16Length(s[1..]);
      assert forall i :: 1 <= i < |s| ==> s[1..][i - 1] == s[i];
      (if s[0] as int < 0x1_0000 then 1 else 2) + rest
  }

  /** The colour pattern `/^#[0-9A-Fa-f]{6}$/`. */
  predicate IsHexColor(s: string) {
    |s| == 7 && s[0] == '#' && forall i :: 1 <= i < 7 ==> IsHexDigit(s[i])
  }
}
