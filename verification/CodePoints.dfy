// What string literals mean, against the standards: UTF-8 as RFC 3629 reads it, and
// the escapes of RFC 8259, section 7.
module CodePoints {
  import opened Wrappers
  import opened Text
  import opened Alphabets
  import opened Json
  import opened JsonLiteral
  import opened JsonGrammar

  // ---------------------------------------------------------------- reading UTF-8

  // The bytes that may follow a lead byte (RFC 3629, section 4).
  predicate MayFollow(lead: int, c: char) {
    var b := c as int;
    if lead == 0xE0 then 0xA0 <= b <= 0xBF
    else if lead == 0xED then 0x80 <= b <= 0x9F
    else if lead == 0xF0 then 0x90 <= b <= 0xBF
    else if lead == 0xF4 then 0x80 <= b <= 0x8F
    else 0x80 <= b <= 0xBF
  }

  predicate IsTail(c: char) { 0x80 <= c as int <= 0xBF }

  // The code point at the start of a text, and how many bytes it takes.
  function ReadOne(s: string): Option<(nat, nat)> {
    if s == "" then None
    else
      var a := s[0] as int;
      if a <= 0x7F then Some((a, 1))
      else if 0xC2 <= a <= 0xDF && |s| >= 2 && IsTail(s[1]) then
        Some(((a - 0xC0) * 0x40 + (s[1] as int - 0x80), 2))
      else if 0xE0 <= a <= 0xEF && |s| >= 3 && MayFollow(a, s[1]) && IsTail(s[2]) then
        Some(((a - 0xE0) * 0x1000 + (s[1] as int - 0x80) * 0x40 + (s[2] as int - 0x80), 3))
      else if 0xF0 <= a <= 0xF4 && |s| >= 4 && MayFollow(a, s[1]) && IsTail(s[2]) && IsTail(s[3]) then
        Some(((a - 0xF0) * 0x4_0000 + (s[1] as int - 0x80) * 0x1000 + (s[2] as int - 0x80) * 0x40
              + (s[3] as int - 0x80), 4))
      else None
  }

  function ReadAll(s: string): Option<seq<nat>>
    decreases |s|
  {
    if s == "" then Some([])
    else
      var first :- ReadOne(s);
      if 0 < first.1 <= |s| then
        var rest :- ReadAll(s[first.1..]);
        Some([first.0] + rest)
      else None
  }

  // Code points that are characters: no surrogates.
  predicate IsScalar(n: nat) { n < 0xD800 || 0xE000 <= n <= 0x10_FFFF }

  lemma OneByte(n: nat, rest: string)
    requires n < 0x80
    ensures ReadOne(Utf8(n) + rest) == Some((n, 1))
  {
  }

  lemma TwoBytes(n: nat, rest: string)
    requires 0x80 <= n < 0x800
    ensures ReadOne(Utf8(n) + rest) == Some((n, 2))
  {
    var a, b := n / 64, n % 64;
    assert a % 32 == a && n == 64 * a + b;
    var s := [(0xC0 + a) as char, (0x80 + b) as char] + rest;
    assert ReadOne(s) == Some((n, 2));
  }

  lemma ThreeBytes(n: nat, rest: string)
    requires 0x800 <= n < 0x1_0000
    ensures ReadOne(Utf8(n) + rest) == if IsScalar(n) then Some((n, 3)) else None
  {
    var a, b, c := n / 4096, n / 64 % 64, n % 64;
    ThreeParts(n, a, b, c);
    ReadThree(n, a, b, c, rest);
  }

  lemma ThreeParts(n: nat, a: nat, b: nat, c: nat)
    requires n < 0x1_0000 && a == n / 4096 && b == n / 64 % 64 && c == n % 64
    ensures a < 16 && a % 16 == a && n == 4096 * a + 64 * b + c
  {
    assert n == 64 * (n / 64) + c && n / 64 == 64 * (n / 64 / 64) + b && n / 64 / 64 == n / 4096;
  }

  lemma ReadThree(n: nat, a: nat, b: nat, c: nat, rest: string)
    requires 0x800 <= n && a < 16 && b < 64 && c < 64 && n == 4096 * a + 64 * b + c
    ensures ReadOne([(0xE0 + a) as char, (0x80 + b) as char, (0x80 + c) as char] + rest) ==
      if IsScalar(n) then Some((n, 3)) else None
  {
    var s := [(0xE0 + a) as char, (0x80 + b) as char, (0x80 + c) as char] + rest;
    assert s[0] as int == 0xE0 + a && s[1] as int == 0x80 + b && s[2] as int == 0x80 + c;
  }

  lemma FourBytes(n: nat, rest: string)
    requires 0x1_0000 <= n < 0x20_0000
    ensures ReadOne(Utf8(n) + rest) == if IsScalar(n) then Some((n, 4)) else None
  {
    var a, b, c, d := n / 262144, n / 4096 % 64, n / 64 % 64, n % 64;
    FourParts(n, a, b, c, d);
    ReadFour(n, a, b, c, d, rest);
  }

  lemma FourParts(n: nat, a: nat, b: nat, c: nat, d: nat)
    requires n < 0x20_0000 && a == n / 262144 && b == n / 4096 % 64 && c == n / 64 % 64 && d == n % 64
    ensures a < 8 && a % 8 == a && n == 262144 * a + 4096 * b + 64 * c + d
  {
    assert n == 64 * (n / 64) + d && n / 64 == 64 * (n / 64 / 64) + c && n / 64 / 64 == n / 4096;
    assert n / 4096 == 64 * (n / 4096 / 64) + b && n / 4096 / 64 == n / 262144;
  }

  lemma ReadFour(n: nat, a: nat, b: nat, c: nat, d: nat, rest: string)
    requires 0x1_0000 <= n && a < 8 && b < 64 && c < 64 && d < 64 && n == 262144 * a + 4096 * b + 64 * c + d
    ensures ReadOne([(0xF0 + a) as char, (0x80 + b) as char, (0x80 + c) as char, (0x80 + d) as char] + rest) ==
      if IsScalar(n) then Some((n, 4)) else None
  {
    var s := [(0xF0 + a) as char, (0x80 + b) as char, (0x80 + c) as char, (0x80 + d) as char] + rest;
    assert s[0] as int == 0xF0 + a && s[1] as int == 0x80 + b && s[2] as int == 0x80 + c && s[3] as int == 0x80 + d;
  }

  lemma Utf8Length(n: nat)
    ensures |Utf8(n)| == if n < 0x80 then 1 else if n < 0x800 then 2 else if n < 0x1_0000 then 3
                         else if n < 0x20_0000 then 4 else 1
    ensures n >= 0x20_0000 ==> Utf8(n) == "?"
  {
  }

  // What the code writes for a code point is what RFC 3629 reads as that code point,
  // exactly for characters; a surrogate it does not read at all.
  lemma Utf8Reads(n: nat, rest: string)
    ensures ReadOne(Utf8(n) + rest) == Some((n, |Utf8(n)|)) <==> IsScalar(n)
    ensures 0xD800 <= n <= 0xDFFF ==> ReadOne(Utf8(n) + rest) == None
    ensures 0 < |Utf8(n)| && (Utf8(n) + rest)[|Utf8(n)|..] == rest
  {
    hide Utf8, ReadOne;
    Utf8Length(n);
    Split(Utf8(n), rest);
    if n < 0x80 {
      OneByte(n, rest);
    } else if n < 0x800 {
      TwoBytes(n, rest);
    } else if n < 0x1_0000 {
      ThreeBytes(n, rest);
    } else if n < 0x20_0000 {
      FourBytes(n, rest);
    } else {
      QuestionMark(rest);
    }
  }

  lemma QuestionMark(rest: string)
    ensures ReadOne("?" + rest) == Some((63, 1))
  {
  }

  // ---------------------------------------------------------------- escapes of code points

  // The escape \uXXXX of a code point.
  predicate Writes(u: string, n: nat) {
    && n < 0x1_0000 && |u| == 6 && u[0] == '\\' && u[1] == 'u'
    && Stands(u[2], n / 0x1000) && Stands(u[3], n / 0x100 % 0x10) && Stands(u[4], n / 0x10 % 0x10)
    && Stands(u[5], n % 0x10)
  }

  function Concat(us: seq<string>): string { if us == [] then "" else us[0] + Concat(us[1..]) }

  lemma FourDigits(n: nat)
    requires n < 0x1_0000
    ensures 4096 * (n / 0x1000) + 256 * (n / 0x100 % 0x10) + 16 * (n / 0x10 % 0x10) + n % 0x10 == n
  {
    assert n == 16 * (n / 16) + n % 16 && n / 16 == 16 * (n / 16 / 16) + n / 16 % 16 && n / 16 / 16 == n / 256;
    assert n / 256 == 16 * (n / 256 / 16) + n / 256 % 16 && n / 256 / 16 == n / 4096;
  }

  // The step of the reading loop at an escape, by the characters behind it.
  lemma UnicodeStep(s: string, tail: string)
    requires s == "\\u" + tail
    ensures |tail| < 4 ==> ReadStep(s) == Step(s, |s|)
    ensures |tail| >= 4 ==> ReadStep(s) == Unicode(s) && 2 <= |s|
  {
    hide HexRun, Utf8, HexValue;
    Split("\\u", tail);
    assert s[0] == '\\' && s[1] == 'u';
  }

  lemma UnicodeIs(s: string, tail: string)
    requires |s| >= 2 && s[2..] == tail && |tail| >= 4
    ensures HexRun(tail, 4) < 4 ==> Unicode(s) == Step("\\u" + tail[..HexRun(tail, 4)], 2 + HexRun(tail, 4))
    ensures HexRun(tail, 4) == 4 ==> Unicode(s) == FourRead(tail)
  {
    hide HexRun, Utf8, HexValue;
  }

  function FourRead(tail: string): Step
    requires |tail| >= 4 && HexRun(tail, 4) == 4
  {
    Step(Utf8(4096 * HexValue(tail[0]) + 256 * HexValue(tail[1]) + 16 * HexValue(tail[2]) + HexValue(tail[3])), 6)
  }

  lemma EscapeStep(u: string, n: nat, rest: string)
    requires Writes(u, n)
    ensures ReadStep(u + rest) == Step(Utf8(n), 6)
  {
    hide Utf8, HexValue, IsHexDigit, Stands, ReadStep, Unicode, HexRun;
    var s, tail := u + rest, u[2..] + rest;
    assert u == "\\u" + u[2..];
    Assoc("\\u", u[2..], rest);
    assert tail[0] == u[2] && tail[1] == u[3] && tail[2] == u[4] && tail[3] == u[5];
    DigitStands(u[2], n / 0x1000);
    DigitStands(u[3], n / 0x100 % 0x10);
    DigitStands(u[4], n / 0x10 % 0x10);
    DigitStands(u[5], n % 0x10);
    HexRunAll(tail, 4);
    Split("\\u", tail);
    UnicodeStep(s, tail);
    UnicodeIs(s, tail);
    FourDigits(n);
  }

  lemma EscapeRead(u: string, n: nat, rest: string)
    requires Writes(u, n)
    ensures Unescaped(u + rest) == Utf8(n) + Unescaped(rest)
  {
    hide Utf8, ReadStep, Stands;
    EscapeStep(u, n, rest);
    Split(u, rest);
  }

  lemma ReadAllStep(n: nat, rest: string)
    ensures IsScalar(n) ==>
      ReadAll(Utf8(n) + rest) == match ReadAll(rest) case Some(ns) => Some([n] + ns) case None => None
    ensures 0xD800 <= n <= 0xDFFF ==> ReadAll(Utf8(n) + rest) == None
  {
    hide Utf8, ReadOne;
    Utf8Reads(n, rest);
  }

  // A text of such escapes reads as the code points they write, exactly when all of
  // them are characters.
  lemma {:induction false} EscapesRead(us: seq<string>, ns: seq<nat>)
    requires |us| == |ns| && forall i | 0 <= i < |us| :: Writes(us[i], ns[i])
    ensures ReadAll(Unescaped(Concat(us))) == Some(ns) <==> forall n | n in ns :: IsScalar(n)
    ensures (exists n | n in ns :: !IsScalar(n)) ==> ReadAll(Unescaped(Concat(us))) == None
    decreases |us|
  {
    hide Utf8, ReadOne, Writes, ReadAll, Unescaped;
    if us == [] {
      NothingRead();
    } else {
      var n, rest := ns[0], Concat(us[1..]);
      EscapeRead(us[0], n, rest);
      EscapesRead(us[1..], ns[1..]);
      ReadAllStep(n, Unescaped(rest));
      WrittenRange(us[0], n);
      assert [n] + ns[1..] == ns;
      assert forall m :: m in ns <==> m == n || m in ns[1..];
    }
  }

  lemma NothingRead()
    ensures ReadAll(Unescaped("")) == Some([])
  {
  }

  lemma WrittenRange(u: string, n: nat)
    requires Writes(u, n)
    ensures n < 0x1_0000
  {
  }

  lemma ScanEscape(u: string, n: nat, s: string, k: nat)
    requires Writes(u, n) && k + 6 <= |s| && s[k..k + 6] == u
    ensures StringEnd(s, k, false) == StringEnd(s, k + 6, false)
  {
    hide Stands;
    assert forall j | 0 <= j < 6 :: s[k + j] == s[k..k + 6][j] == u[j];
    DigitStands(u[2], n / 0x1000);
    DigitStands(u[3], n / 0x100 % 0x10);
    DigitStands(u[4], n / 0x10 % 0x10);
    DigitStands(u[5], n % 0x10);
    assert StringEnd(s, k, false) == StringEnd(s, k + 1, true) == StringEnd(s, k + 2, false);
    assert StringEnd(s, k + 2, false) == StringEnd(s, k + 3, false) == StringEnd(s, k + 4, false);
    assert StringEnd(s, k + 4, false) == StringEnd(s, k + 5, false) == StringEnd(s, k + 6, false);
  }

  lemma {:induction false} ScanEscapes(us: seq<string>, ns: seq<nat>, s: string, k: nat)
    requires |us| == |ns| && forall i | 0 <= i < |us| :: Writes(us[i], ns[i])
    requires k <= |s| && s[k..] == Concat(us) + "\""
    ensures StringEnd(s, k, false) == Success(|s|)
    decreases |us|
  {
    hide Writes, StringEnd;
    if us == [] {
      assert s[k..] == "\"";
      ScanQuote(s, k);
    } else {
      SixLong(us[0], ns[0]);
      Assoc(us[0], Concat(us[1..]), "\"");
      Split(us[0], Concat(us[1..]) + "\"");
      assert s[k..k + 6] == s[k..][..6] && s[k + 6..] == s[k..][6..];
      ScanEscape(us[0], ns[0], s, k);
      ScanEscapes(us[1..], ns[1..], s, k + 6);
    }
  }

  lemma SixLong(u: string, n: nat)
    requires Writes(u, n)
    ensures |u| == 6
  {
  }

  lemma ScanQuote(s: string, k: nat)
    requires k <= |s| && s[k..] == "\""
    ensures StringEnd(s, k, false) == Success(|s|)
  {
    assert s[k] == s[k..][0];
  }

  // The same of a whole JSON text: it parses to a string whose bytes RFC 3629 reads
  // as those code points.
  lemma EscapedText(c: Conversions, us: seq<string>, ns: seq<nat>)
    requires |us| == |ns| && forall i | 0 <= i < |us| :: Writes(us[i], ns[i])
    ensures var r := Document(c, "\"" + Concat(us) + "\"");
      && r.Success? && r.value.String?
      && (ReadAll(r.value.s) == Some(ns) <==> forall n | n in ns :: IsScalar(n))
  {
    hide Writes, StringEnd, Unescaped, ReadAll, Concat, IsScalar;
    var body := Concat(us);
    var t := "\"" + body + "\"";
    Assoc("\"", body, "\"");
    Split("\"", body + "\"");
    ScanEscapes(us, ns, t, 1);
    EscapesRead(us, ns);
    assert t[0..|t|] == t;
    BodyOf(body);
    DocumentString(c, t);
  }

  lemma BodyOf(body: string)
    ensures LiteralValue("\"" + body + "\"") == Unescaped(body)
  {
    hide Unescaped;
    var t := "\"" + body + "\"";
    Assoc("\"", body, "\"");
    Split("\"", body + "\"");
    Split(body, "\"");
    assert t[1..] == body + "\"";
  }

  lemma DocumentString(c: Conversions, t: string)
    requires t != "" && t[0] == '"' && StringEnd(t, 1, false) == Success(|t|)
    ensures Document(c, t) == Success(String(LiteralValue(t)))
  {
    hide StringEnd, LiteralValue;
    assert t[0..|t|] == t;
  }

  // ---------------------------------------------------------------- the other escapes

  // The letters that have a meaning of their own, and what they stand for.
  const LETTERS := "0abtnvfr"
  const MEANINGS: seq<nat> := [0, 7, 8, 9, 10, 11, 12, 13]

  // Behind a backslash the eight letters stand for control characters, and every
  // other character but u for itself.
  lemma LetterRead(k: nat, rest: string)
    requires k < 8
    ensures Unescaped("\\" + [LETTERS[k]] + rest) == [MEANINGS[k] as char] + Unescaped(rest)
  {
    hide Unicode, Unescaped;
    var s := "\\" + [LETTERS[k]] + rest;
    assert s[0] == '\\' && s[1] == LETTERS[k] && s[2..] == rest;
    UnescapedStep(s);
  }

  lemma OtherRead(c: char, rest: string)
    requires c !in LETTERS && c != 'u'
    ensures Unescaped("\\" + [c] + rest) == [c] + Unescaped(rest)
  {
    hide Unicode;
    var s := "\\" + [c] + rest;
    assert s[0] == '\\' && s[1] == c && s[2..] == rest;
    forall k | 0 <= k < 8 ensures c != LETTERS[k] { assert LETTERS[k] in LETTERS; }
  }

  lemma PlainRead(c: char, rest: string)
    requires c != '\\'
    ensures Unescaped([c] + rest) == [c] + Unescaped(rest)
  {
    assert ([c] + rest)[1..] == rest;
  }

  // An escape \u with fewer than four hexadecimal digits stands for itself, without
  // what follows the digits.
  lemma TooFewDigits(digits: string, c: char, rest: string)
    requires |digits| < 4 && |digits + [c] + rest| >= 4
    requires forall d | d in digits :: exists k | 0 <= k < 16 :: Stands(d, k)
    requires forall k | 0 <= k < 16 :: !Stands(c, k)
    ensures Unescaped("\\u" + digits + [c] + rest) == "\\u" + digits + Unescaped([c] + rest)
  {
    hide Utf8, HexValue, Unicode, IsHexDigit, Unescaped, Stands;
    var tail := digits + [c] + rest;
    var s := "\\u" + digits + [c] + rest;
    Assoc("\\u", digits, [c]);
    Assoc("\\u", digits + [c], rest);
    Split("\\u", tail);
    forall j | 0 <= j < |digits| ensures IsHexDigit(tail[j]) {
      assert tail[j] == digits[j] && digits[j] in digits;
      var k :| 0 <= k < 16 && Stands(digits[j], k);
      DigitStands(digits[j], k);
    }
    assert tail[|digits|] == c;
    HexExactly(c);
    HexRunIs(tail, 4, |digits|);
    Assoc(digits, [c], rest);
    Split(digits, [c] + rest);
    Split("\\u", tail);
    UnicodeStep(s, tail);
    UnicodeIs(s, tail);
    DropDrop(s, 2, |digits|);
    UnescapedStep(s);
  }

  lemma UnescapedStep(s: string)
    requires s != ""
    ensures Unescaped(s) == ReadStep(s).output + Unescaped(s[ReadStep(s).taken..])
  {
    hide ReadStep;
  }

  lemma {:induction false} HexRunIs(s: string, n: nat, k: nat)
    requires k < n && k < |s| && (forall j | 0 <= j < k :: IsHexDigit(s[j])) && !IsHexDigit(s[k])
    ensures HexRun(s, n) == k
  {
    if k > 0 { HexRunIs(s[1..], n - 1, k - 1); }
  }

  // Where the text ends before four characters, it stands for itself as a whole.
  lemma TooShort(rest: string)
    requires |rest| < 4
    ensures Unescaped("\\u" + rest) == "\\u" + rest
  {
    hide ReadStep;
    var s := "\\u" + rest;
    UnicodeStep(s, rest);
    assert s[|s|..] == "" && Unescaped("") == "" && s + "" == s;
  }

  // ---------------------------------------------------------------- what is written

  // The inside of a string of RFC 8259, section 7, over bytes.
  predicate IsStandard(s: string)
    decreases |s|
  {
    if s == "" then true
    else if s[0] == '\\' then
      |s| > 1 &&
      if s[1] == 'u' then
        |s| >= 6 && (forall j | 2 <= j < 6 :: s[j] in "0123456789abcdefABCDEF") && IsStandard(s[6..])
      else s[1] in "\"\\/bfnrt" && IsStandard(s[2..])
    else s[0] as int >= 0x20 && s[0] != '"' && IsStandard(s[1..])
  }

  lemma WrittenChar(c: char, rest: string)
    requires IsStandard(rest)
    ensures IsStandard(Escaped(c) + rest)
    ensures c as int >= 0x20 && c != '"' && c != '\\' ==> Escaped(c) == [c]
  {
    hide HexDigit, IsStandard;
    var e := Escaped(c);
    Split(e, rest);
    if |e| == 1 {
      StandardPlain(e[0], rest);
    } else if |e| == 2 {
      StandardLetter(e[1], rest);
    } else if c as int < 0x20 {
      WrittenDigit(c as int / 16);
      WrittenDigit(c as int % 16);
      StandardCode(e, rest);
    }
  }

  lemma StandardPlain(c: char, rest: string)
    requires IsStandard(rest) && c as int >= 0x20 && c != '"' && c != '\\'
    ensures IsStandard([c] + rest)
  {
    assert ([c] + rest)[1..] == rest;
  }

  lemma StandardLetter(c: char, rest: string)
    requires IsStandard(rest) && c in "\"\\/bfnrt"
    ensures IsStandard(['\\', c] + rest)
  {
    assert (['\\', c] + rest)[2..] == rest;
  }

  lemma StandardCode(e: string, rest: string)
    requires IsStandard(rest) && |e| == 6 && e[0] == '\\' && e[1] == 'u'
    requires forall j | 2 <= j < 6 :: e[j] in "0123456789abcdefABCDEF"
    ensures IsStandard(e + rest)
  {
    var s := e + rest;
    assert forall j | 0 <= j < 6 :: s[j] == e[j];
    assert s[6..] == rest;
  }

  lemma WrittenDigit(n: nat)
    requires n < 16
    ensures HexDigit(n) in "0123456789abcdefABCDEF"
  {
    assert HexDigit(n) == "0123456789abcdefABCDEF"[HexValue(HexDigit(n))] || n >= 10;
    assert n >= 10 ==> HexDigit(n) == "0123456789abcdefABCDEF"[n + 6];
  }

  // Seven characters are written with a letter or as themselves behind a backslash.
  lemma WrittenLetters()
    ensures Escaped(8 as char) == "\\b" && Escaped('\t') == "\\t" && Escaped('\n') == "\\n"
    ensures Escaped(12 as char) == "\\f" && Escaped('\r') == "\\r"
    ensures Escaped('"') == "\\\"" && Escaped('\\') == "\\\\"
  {
  }

  // Every literal is written as the standard has it, whatever the bytes.
  lemma {:induction false} WrittenStandard(s: string)
    ensures IsStandard(EscapedAll(s))
  {
    hide Escaped, IsStandard;
    if s == "" {
      NothingStandard();
    } else {
      WrittenStandard(s[1..]);
      WrittenChar(s[0], EscapedAll(s[1..]));
    }
  }

  lemma NothingStandard()
    ensures IsStandard("")
  {
  }

  // Text that needs no escape is written as it is.
  lemma {:induction false} WrittenPlain(s: string)
    requires forall c | c in s :: c as int >= 0x20 && c != '"' && c != '\\'
    ensures Literal(s) == "\"" + s + "\""
  {
    PlainEscaped(s);
  }

  lemma {:induction false} PlainEscaped(s: string)
    requires forall c | c in s :: c as int >= 0x20 && c != '"' && c != '\\'
    ensures EscapedAll(s) == s
  {
    hide IsStandard;
    if s != "" {
      assert s[0] in s;
      NothingStandard();
      WrittenChar(s[0], "");
      forall c | c in s[1..] ensures c as int >= 0x20 && c != '"' && c != '\\' { assert c in s; }
      PlainEscaped(s[1..]);
      assert s == [s[0]] + s[1..];
    }
  }
}
