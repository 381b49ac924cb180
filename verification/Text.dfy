// Text as the C++ code sees it: a sequence of bytes, written as Dafny chars
// (a byte is a char whose code is below 256), the <cctype> classes of the "C"
// locale, and decimal integers as std::to_string and std::from_chars treat them.
module Text {
  import opened Wrappers

  predicate IsByte(c: char) { c as int < 256 }

  predicate AllBytes(s: string) { forall c | c in s :: IsByte(c) }

  predicate IsDigit(c: char) { '0' <= c <= '9' }

  predicate IsAlpha(c: char) { 'a' <= c <= 'z' || 'A' <= c <= 'Z' }

  predicate IsAlnum(c: char) { IsAlpha(c) || IsDigit(c) }

  // std::isspace: space, \t, \n, \v, \f, \r.
  predicate IsSpace(c: char) { c == ' ' || 9 <= c as int <= 13 }

  predicate AllSpace(s: string) { forall c | c in s :: IsSpace(c) }

  function ToLower(c: char): char {
    if 'A' <= c <= 'Z' then c + 32 as char else c
  }

  function ToUpper(c: char): char {
    if 'a' <= c <= 'z' then c - 32 as char else c
  }

  // ---------------------------------------------------------------- slices

  lemma Assoc(a: string, b: string, c: string)
    ensures (a + b) + c == a + (b + c)
  {
  }

  lemma Split(a: string, b: string)
    ensures (a + b)[..|a|] == a && (a + b)[|a|..] == b
  {
  }

  lemma DropDrop(s: string, i: nat, j: nat)
    requires i + j <= |s|
    ensures s[i..][j..] == s[i + j..]
  {
  }

  // The text s stands at position p of t.
  predicate At(t: string, p: nat, s: string) {
    p + |s| <= |t| && t[p..p + |s|] == s
  }

  lemma AtConcat(t: string, p: nat, a: string, b: string)
    ensures At(t, p, a + b) <==> At(t, p, a) && At(t, p + |a|, b)
  {
    if p + |a| + |b| <= |t| {
      assert t[p..p + |a| + |b|] == t[p..p + |a|] + t[p + |a|..p + |a| + |b|];
      if At(t, p, a + b) {
        assert (a + b)[..|a|] == a && (a + b)[|a|..] == b;
      }
    }
  }

  lemma AtConcat3(t: string, p: nat, a: string, b: string, c: string)
    ensures At(t, p, a + b + c) <==> At(t, p, a) && At(t, p + |a|, b) && At(t, p + |a| + |b|, c)
  {
    AtConcat(t, p, a + b, c);
    AtConcat(t, p, a, b);
  }

  // ---------------------------------------------------------------- hexadecimal

  const HEX_DIGITS := "0123456789ABCDEF"

  function HexDigit(n: nat): (c: char)
    requires n < 16
    ensures IsHexDigit(c) && HexValue(c) == n && ToUpper(c) == c
  {
    HEX_DIGITS[n]
  }

  predicate IsHexDigit(c: char) {
    IsDigit(c) || 'a' <= c <= 'f' || 'A' <= c <= 'F'
  }

  function HexValue(c: char): (n: nat)
    requires IsHexDigit(c)
    ensures n < 16
  {
    if IsDigit(c) then c as int - '0' as int
    else if 'a' <= c <= 'f' then c as int - 'a' as int + 10
    else c as int - 'A' as int + 10
  }

  // ---------------------------------------------------------------- decimal

  predicate AllDigits(s: string) { forall c | c in s :: IsDigit(c) }

  function DigitChar(d: nat): (c: char)
    requires d < 10
    ensures IsDigit(c) && c as int == '0' as int + d
  {
    '0' + d as char
  }

  // std::to_string of a non-negative number.
  function NatText(n: nat): (s: string)
    ensures |s| > 0 && AllDigits(s)
  {
    if n < 10 then [DigitChar(n)] else NatText(n / 10) + [DigitChar(n % 10)]
  }

  // The number a string of digits denotes.
  function DigitsValue(s: string): nat
    requires AllDigits(s)
  {
    if s == "" then 0
    else
      assert s[|s| - 1] in s;
      10 * DigitsValue(s[..|s| - 1]) + (s[|s| - 1] as int - '0' as int)
  }

  lemma {:induction false} NatTextValue(n: nat)
    ensures DigitsValue(NatText(n)) == n
  {
    if n >= 10 {
      NatTextValue(n / 10);
      assert NatText(n)[..|NatText(n)| - 1] == NatText(n / 10);
    } else {
      assert NatText(n)[..0] == "";
    }
  }

  // std::to_string of any integer.
  function IntText(i: int): (s: string)
    ensures |s| > 0
  {
    if i < 0 then "-" + NatText(-i) else NatText(i)
  }

  // The value of the text when it is, as a whole, what std::from_chars accepts
  // for a signed integer type: an optional minus sign, then digits.
  function IntTextValue(s: string): Option<int> {
    var digits := if s != "" && s[0] == '-' then s[1..] else s;
    if digits == "" || !AllDigits(digits) then None
    else
      var magnitude: int := DigitsValue(digits);
      Some(if s[0] == '-' then -magnitude else magnitude)
  }

  lemma IntTextRoundTrip(i: int)
    ensures IntTextValue(IntText(i)) == Some(i)
    ensures IsDigit(IntText(i)[0]) || IntText(i)[0] == '-'
    ensures forall c | c in IntText(i) :: IsDigit(c) || c == '-'
  {
    if i < 0 {
      NatTextValue(-i);
      assert IntText(i)[1..] == NatText(-i);
    } else {
      NatTextValue(i);
      assert NatText(i)[0] in NatText(i);
    }
  }

  const INT32_MIN: int := -0x8000_0000
  const INT32_MAX: int := 0x7FFF_FFFF
  const INT64_MIN: int := -0x8000_0000_0000_0000
  const INT64_MAX: int := 0x7FFF_FFFF_FFFF_FFFF

  predicate IsInt32(i: int) { INT32_MIN <= i <= INT32_MAX }

  const WRAP: int := 0x1_0000_0000

  // The cast to a 32-bit integer, and the arithmetic of std::atomic<std::int32_t>.
  function WrapInt32(i: int): (w: int)
    ensures IsInt32(w)
  {
    (i - INT32_MIN) % WRAP + INT32_MIN
  }

  predicate IsInt64(i: int) { INT64_MIN <= i <= INT64_MAX }
}
