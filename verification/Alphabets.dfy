// The character classes of the "C" locale, by their characters, and numbers by their
// digits.
module Alphabets {
  import opened Wrappers
  import opened Text

  predicate IsLower(c: char) { 'a' <= c <= 'z' }

  predicate IsUpper(c: char) { 'A' <= c <= 'Z' }

  predicate IsFigure(c: char) { '0' <= c <= '9' }

  const WHITESPACE := " \t\n\U{0B}\U{0C}\r"

  predicate Figures(s: string) { forall c | c in s :: IsFigure(c) }

  predicate Without(s: string, chars: string) { forall c | c in s :: c !in chars }

  // A hexadecimal digit in either case.
  predicate Stands(c: char, digit: nat) {
    digit < 16 && (c == "0123456789abcdef"[digit] || c == "0123456789ABCDEF"[digit])
  }

  lemma Classes(c: char)
    ensures IsDigit(c) <==> IsFigure(c)
    ensures IsAlpha(c) <==> IsLower(c) || IsUpper(c)
    ensures IsAlnum(c) <==> IsLower(c) || IsUpper(c) || IsFigure(c)
    ensures IsSpace(c) <==> c in WHITESPACE
  {
    assert WHITESPACE == [' ', 9 as char, 10 as char, 11 as char, 12 as char, 13 as char];
  }

  // Letters have a partner in the other case, everything else is its own.
  lemma Cases(c: char)
    ensures IsUpper(c) ==> IsLower(ToLower(c)) && ToLower(c) as int - 'a' as int == c as int - 'A' as int
    ensures IsLower(c) ==> IsUpper(ToUpper(c)) && ToUpper(c) as int - 'A' as int == c as int - 'a' as int
    ensures !IsUpper(c) ==> ToLower(c) == c
    ensures !IsLower(c) ==> ToUpper(c) == c
  {
  }

  lemma DigitStands(c: char, digit: nat)
    requires Stands(c, digit)
    ensures IsHexDigit(c) && HexValue(c) == digit && (IsLower(c) || IsUpper(c) || IsFigure(c))
    ensures ToUpper(c) == "0123456789ABCDEF"[digit]
  {
    assert IsHexDigit(c) && HexValue(c) == digit;
  }

  lemma HexExactly(c: char)
    ensures IsHexDigit(c) <==> exists k | 0 <= k < 16 :: Stands(c, k)
  {
    if IsHexDigit(c) { assert Stands(c, HexValue(c)); }
  }

  // ---------------------------------------------------------------- decimal notation

  function Power(n: nat): nat { if n == 0 then 1 else 10 * Power(n - 1) }

  // Each digit counts by its place.
  function Places(s: string): nat
    requires Figures(s)
  {
    if s == "" then 0
    else
      assert s[0] in s;
      var d: nat := s[0] as int - '0' as int;
      d * Power(|s| - 1) + Places(s[1..])
  }

  lemma TenTimes(d: int, p: int)
    ensures d * (10 * p) == 10 * (d * p)
  {
  }

  lemma {:induction false} PlacesLast(s: string, c: char)
    requires Figures(s) && IsFigure(c)
    ensures Figures(s + [c]) && Places(s + [c]) == 10 * Places(s) + (c as int - '0' as int)
  {
    assert Figures(s + [c]);
    if s == "" {
      assert s + [c] == [c] && [c][1..] == "";
    } else {
      assert s[0] in s;
      PlacesLast(s[1..], c);
      assert (s + [c])[1..] == s[1..] + [c] && (s + [c])[0] == s[0];
      TenTimes(s[0] as int - '0' as int, Power(|s| - 1));
    }
  }

  lemma {:induction false} DigitsPlaces(s: string)
    requires Figures(s)
    ensures AllDigits(s) && DigitsValue(s) == Places(s)
  {
    hide Places;
    if s != "" {
      var last := s[|s| - 1];
      assert last in s && s == s[..|s| - 1] + [last];
      DigitsPlaces(s[..|s| - 1]);
      PlacesLast(s[..|s| - 1], last);
    } else {
      NoPlaces();
    }
  }

  lemma NoPlaces()
    ensures Places("") == 0
  {
  }

  // A number is written with its digits, most significant first, without leading
  // zeros; a minus sign stands before a negative one.
  lemma {:induction false} NatWritten(n: nat)
    ensures Figures(NatText(n)) && Places(NatText(n)) == n
    ensures n > 0 ==> NatText(n)[0] != '0'
    ensures n == 0 ==> NatText(n) == "0"
  {
    NatTextValue(n);
    DigitsPlaces(NatText(n));
    if n >= 10 { NatWritten(n / 10); }
  }

  lemma IntWritten(i: int)
    ensures i >= 0 ==> IntText(i) == NatText(i)
    ensures i < 0 ==> IntText(i) == "-" + NatText(-i)
  {
  }

  // An integer is read by its digits and its sign, and nothing else is an integer.
  lemma IntRead(s: string)
    ensures s != "" && Figures(s) ==>
      var n: int := Places(s); IntTextValue(s) == Some(n) && IntTextValue("-" + s) == Some(-n)
    ensures !Figures(s) && !(s != "" && s[0] == '-') ==> IntTextValue(s) == None
    ensures IntTextValue("") == None && IntTextValue("-") == None
  {
    hide Places, DigitsValue;
    assert ("-" + s)[1..] == s;
    if Figures(s) {
      DigitsPlaces(s);
      if s != "" { assert s[0] in s; }
    }
  }

  // A wrapped integer has 32 bits and differs by a multiple of 2^32.
  lemma Wrapped(i: int)
    ensures -0x8000_0000 <= WrapInt32(i) < 0x8000_0000
    ensures exists k :: WrapInt32(i) == i + k * 0x1_0000_0000
    ensures -0x8000_0000 <= i < 0x8000_0000 ==> WrapInt32(i) == i
  {
    var k := (i + 0x8000_0000) / 0x1_0000_0000;
    assert WrapInt32(i) == i + (-k) * 0x1_0000_0000;
  }
}
