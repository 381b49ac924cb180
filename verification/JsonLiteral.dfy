// lsp/json/json.cpp, string literals: toStringLiteral, fromStringLiteral,
// appendCodePointAsUtf8 and the scan of parseString.
module JsonLiteral {
  import opened Wrappers
  import opened Text
  import opened Json

  // ---------------------------------------------------------------- writing

  function Escaped(c: char): (e: string)
    ensures |e| > 0
  {
    if c as int == 8 then "\\b"
    else if c == '\t' then "\\t"
    else if c == '\n' then "\\n"
    else if c as int == 12 then "\\f"
    else if c == '\r' then "\\r"
    else if c == '"' then "\\\""
    else if c == '\\' then "\\\\"
    else if c as int < 0x20 then "\\u00" + [HexDigit(c as int / 16), HexDigit(c as int % 16)]
    else [c]
  }

  function EscapedAll(s: string): string {
    if s == "" then "" else Escaped(s[0]) + EscapedAll(s[1..])
  }

  function Literal(s: string): string { "\"" + EscapedAll(s) + "\"" }

  // The switch in the loop of toStringLiteral.
  method AppendEscaped(buffer: string, c: char) returns (result: string)
    ensures result == buffer + Escaped(c)
  {
    if c as int == 8 {
      result := buffer + "\\b";
    } else if c == '\t' {
      result := buffer + "\\t";
    } else if c == '\n' {
      result := buffer + "\\n";
    } else if c as int == 12 {
      result := buffer + "\\f";
    } else if c == '\r' {
      result := buffer + "\\r";
    } else if c == '"' {
      result := buffer + "\\\"";
    } else if c == '\\' {
      result := buffer + "\\\\";
    } else if c as int < 0x20 {
      result := buffer + "\\u00";
      result := result + [HexDigit(c as int / 16)];
      result := result + [HexDigit(c as int % 16)];
    } else {
      result := buffer + [c];
    }
  }

  method ToStringLiteral(str: string) returns (result: string)
    ensures result == Literal(str)
  {
    hide Escaped;
    result := "\"";
    assert str[0..] == str;
    for i := 0 to |str|
      invariant result + EscapedAll(str[i..]) == "\"" + EscapedAll(str)
    {
      DropDrop(str, i, 1);
      Assoc(result, Escaped(str[i]), EscapedAll(str[i + 1..]));
      result := AppendEscaped(result, str[i]);
    }
    assert str[|str|..] == "";
    result := result + "\"";
  }

  // ---------------------------------------------------------------- reading

  function Utf8(codepoint: nat): string {
    if codepoint < 0x80 then [codepoint as char]
    else if codepoint < 0x800 then
      [(0xC0 + codepoint / 64 % 32) as char, (0x80 + codepoint % 64) as char]
    else if codepoint < 0x10000 then
      [(0xE0 + codepoint / 4096 % 16) as char, (0x80 + codepoint / 64 % 64) as char, (0x80 + codepoint % 64) as char]
    else if codepoint < 0x200000 then
      [(0xF0 + codepoint / 262144 % 8) as char, (0x80 + codepoint / 4096 % 64) as char,
       (0x80 + codepoint / 64 % 64) as char, (0x80 + codepoint % 64) as char]
    else "?"
  }

  // How many of the first n characters std::from_chars in base 16 takes.
  function HexRun(s: string, n: nat): (k: nat)
    ensures k <= n && k <= |s|
    ensures forall j | 0 <= j < k :: IsHexDigit(s[j])
  {
    if n == 0 || s == "" || !IsHexDigit(s[0]) then 0 else 1 + HexRun(s[1..], n - 1)
  }

  // What one step of the reading loop appends, and how many characters it takes.
  datatype Step = Step(output: string, taken: nat)

  function Unicode(s: string): (step: Step)
    requires |s| >= 2
    ensures 2 <= step.taken <= |s|
  {
    var rest := s[2..];
    if |rest| >= 4 then
      var n := HexRun(rest, 4);
      if n == 4 then
        Step(Utf8(4096 * HexValue(rest[0]) + 256 * HexValue(rest[1]) + 16 * HexValue(rest[2]) + HexValue(rest[3])), 6)
      else Step("\\u" + rest[..n], 2 + n)
    else Step("\\u" + rest, |s|)
  }

  function ReadStep(s: string): (step: Step)
    requires s != ""
    ensures 1 <= step.taken <= |s|
  {
    if s[0] == '\\' && |s| > 1 then
      if s[1] == '0' then Step([0 as char], 2)
      else if s[1] == 'a' then Step([7 as char], 2)
      else if s[1] == 'b' then Step([8 as char], 2)
      else if s[1] == 't' then Step("\t", 2)
      else if s[1] == 'n' then Step("\n", 2)
      else if s[1] == 'v' then Step([11 as char], 2)
      else if s[1] == 'f' then Step([12 as char], 2)
      else if s[1] == 'r' then Step("\r", 2)
      else if s[1] == 'u' then Unicode(s)
      else Step([s[1]], 2)
    else Step([s[0]], 1)
  }

  function Unescaped(s: string): string
    decreases |s|
  {
    if s == "" then "" else ReadStep(s).output + Unescaped(s[ReadStep(s).taken..])
  }

  // The text between the quotes; a missing quote is not an error.
  function Body(literal: string): string {
    var s := if literal != "" && literal[0] == '"' then literal[1..] else literal;
    if s != "" && s[|s| - 1] == '"' then s[..|s| - 1] else s
  }

  function LiteralValue(literal: string): string { Unescaped(Body(literal)) }

  // One turn of the loop of fromStringLiteral: what it appends, and the index
  // it leaves behind.
  method ReadNext(str: string, i: nat) returns (output: string, next: nat)
    requires i < |str|
    ensures i < next <= |str|
    ensures ReadStep(str[i..]) == Step(output, next - i)
  {
    next := i + 1;
    if str[i] == '\\' && i != |str| - 1 {
      next := next + 1;
      var c := str[i + 1];
      if c == '0' {
        output := [0 as char];
      } else if c == 'a' {
        output := [7 as char];
      } else if c == 'b' {
        output := [8 as char];
      } else if c == 't' {
        output := "\t";
      } else if c == 'n' {
        output := "\n";
      } else if c == 'v' {
        output := [11 as char];
      } else if c == 'f' {
        output := [12 as char];
      } else if c == 'r' {
        output := "\r";
      } else if c == 'u' {
        var first := str[i + 2..];
        assert str[i..][2..] == first;
        if |first| >= 4 {
          var codepoint, len := HexFromChars(first, 4);
          if len == 4 {
            output := Utf8(codepoint);
          } else {
            output := "\\u" + first[..len];
          }
          next := next + len;
        } else {
          output := "\\u" + first;
          next := next + |first|;
        }
      } else {
        output := [c];
      }
    } else {
      output := [str[i]];
    }
  }

  lemma UnescapeFrom(str: string, i: nat, result: string)
    requires i < |str|
    ensures var step := ReadStep(str[i..]);
      i + step.taken <= |str| &&
      result + Unescaped(str[i..]) == (result + step.output) + Unescaped(str[i + step.taken..])
  {
    hide ReadStep;
    var step := ReadStep(str[i..]);
    DropDrop(str, i, step.taken);
    Assoc(result, step.output, Unescaped(str[i + step.taken..]));
  }

  method Unescape(str: string) returns (result: string)
    ensures result == Unescaped(str)
  {
    hide ReadStep;
    result := "";
    var i := 0;
    assert str[0..] == str;
    while i < |str|
      invariant i <= |str|
      invariant result + Unescaped(str[i..]) == Unescaped(str)
    {
      var output, next := ReadNext(str, i);
      UnescapeFrom(str, i, result);
      result, i := result + output, next;
    }
    assert str[i..] == "";
  }

  method FromStringLiteral(literal: string) returns (result: string)
    ensures result == LiteralValue(literal)
  {
    hide Unescaped;
    var str := literal;
    if |str| > 0 && str[0] == '"' {
      str := str[1..];
    }
    if |str| > 0 && str[|str| - 1] == '"' {
      str := str[..|str| - 1];
    }
    result := Unescape(str);
  }

  // std::from_chars(first, first + n, codepoint, 16)
  method HexFromChars(s: string, n: nat) returns (codepoint: nat, len: nat)
    requires n <= |s|
    ensures len == HexRun(s, n)
    ensures n == 4 && len == 4 ==>
      codepoint == 4096 * HexValue(s[0]) + 256 * HexValue(s[1]) + 16 * HexValue(s[2]) + HexValue(s[3])
  {
    codepoint, len := 0, 0;
    while len < n && IsHexDigit(s[len])
      invariant len <= n
      invariant HexRun(s, n) == len + HexRun(s[len..], n - len)
      invariant forall j | 0 <= j < len :: IsHexDigit(s[j])
      invariant len == 1 ==> codepoint == HexValue(s[0])
      invariant len == 2 ==> codepoint == 16 * HexValue(s[0]) + HexValue(s[1])
      invariant len == 3 ==> codepoint == 256 * HexValue(s[0]) + 16 * HexValue(s[1]) + HexValue(s[2])
      invariant len == 4 ==>
        codepoint == 4096 * HexValue(s[0]) + 256 * HexValue(s[1]) + 16 * HexValue(s[2]) + HexValue(s[3])
      invariant len == 0 ==> codepoint == 0
    {
      assert s[len..][1..] == s[len + 1..];
      codepoint := 16 * codepoint + HexValue(s[len]);
      len := len + 1;
    }
  }

  // ---------------------------------------------------------------- scanning

  // The scan of parseString from position p, just after the opening quote:
  // the position after the closing quote.
  function StringEnd(t: string, p: nat, hasEscape: bool): (r: Result<nat, Error>)
    requires p <= |t|
    ensures r.Success? ==> p < r.value <= |t|
    decreases |t| - p
  {
    if p >= |t| || t[p] == '\n' then Failure(ParseError(UnmatchedQuote, p))
    else if !hasEscape && t[p] == '"' then Success(p + 1)
    else StringEnd(t, p + 1, !hasEscape && t[p] == '\\')
  }

  predicate IsStringToken(token: string) {
    |token| >= 2 && token[0] == '"' && StringEnd(token, 1, false) == Success(|token|)
  }

  // The scan depends only on the token itself, wherever it stands.
  lemma {:induction false} ScanToken(t: string, p: nat, token: string, k: nat, hasEscape: bool)
    requires At(t, p, token) && k <= |token|
    requires StringEnd(token, k, hasEscape) == Success(|token|)
    ensures StringEnd(t, p + k, hasEscape) == Success(p + |token|)
    decreases |token| - k
  {
    assert t[p + k] == t[p..p + |token|][k];
    if hasEscape || token[k] != '"' {
      ScanToken(t, p, token, k + 1, !hasEscape && token[k] == '\\');
    }
  }

  lemma {:induction false} ScannedToken(t: string, p: nat, token: string, k: nat, hasEscape: bool)
    requires At(t, p, token) && k <= |token|
    requires StringEnd(t, p + k, hasEscape) == Success(p + |token|)
    ensures StringEnd(token, k, hasEscape) == Success(|token|)
    decreases |token| - k
  {
    assert k < |token|;
    assert t[p + k] == t[p..p + |token|][k];
    if hasEscape || token[k] != '"' {
      ScannedToken(t, p, token, k + 1, !hasEscape && token[k] == '\\');
    }
  }

  // ---------------------------------------------------------------- round trip

  // The escape of a control character without a letter of its own.
  lemma ReadControl(code: nat, s: string)
    requires code < 0x20 && |s| >= 6
    requires s[..6] == "\\u00" + [HexDigit(code / 16), HexDigit(code % 16)]
    ensures ReadStep(s) == Step([code as char], 6)
  {
    var digits := s[2..];
    forall k | 0 <= k < 4 ensures digits[k] == s[..6][k + 2] {}
    HexRunAll(digits, 4);
    assert Unicode(s) == Step(Utf8(16 * HexValue(digits[2]) + HexValue(digits[3])), 6);
    assert s[0] == s[..6][0] && s[1] == s[..6][1];
  }

  lemma {:induction false} HexRunAll(s: string, n: nat)
    requires n <= |s| && forall j | 0 <= j < n :: IsHexDigit(s[j])
    ensures HexRun(s, n) == n
  {
    if n > 0 { HexRunAll(s[1..], n - 1); }
  }

  lemma ReadEscaped(c: char, rest: string)
    ensures var step := ReadStep(Escaped(c) + rest); step.output == [c] && step.taken == |Escaped(c)|
  {
    hide Unicode;
    var s := Escaped(c) + rest;
    Split(Escaped(c), rest);
    if |Escaped(c)| == 6 {
      ReadControl(c as int, s);
    } else if |Escaped(c)| == 2 {
      assert s[0] == '\\' && s[1] == Escaped(c)[1];
    } else {
      assert s[0] == c;
    }
  }

  lemma {:induction false} UnescapeEscaped(s: string)
    ensures Unescaped(EscapedAll(s)) == s
  {
    hide Escaped, ReadStep;
    if s != "" {
      ReadEscaped(s[0], EscapedAll(s[1..]));
      Split(Escaped(s[0]), EscapedAll(s[1..]));
      UnescapeEscaped(s[1..]);
    }
  }

  // A step of the writer leaves the scanner outside an escape.
  lemma ScanEscaped(c: char, rest: string)
    ensures var s := Escaped(c) + rest;
      |Escaped(c)| <= |s| && StringEnd(s, 0, false) == StringEnd(s, |Escaped(c)|, false)
  {
    var e := Escaped(c);
    var s := e + rest;
    assert s[..|e|] == e;
    if |e| == 6 {
      assert StringEnd(s, 0, false) == StringEnd(s, 1, true);
      assert StringEnd(s, 1, true) == StringEnd(s, 2, false);
      assert forall k | 2 <= k < 6 :: s[k] == e[k] && IsHexDigit(e[k]);
      assert StringEnd(s, 2, false) == StringEnd(s, 3, false) == StringEnd(s, 4, false);
      assert StringEnd(s, 4, false) == StringEnd(s, 5, false) == StringEnd(s, 6, false);
    } else if |e| == 2 {
      assert s[0] == '\\' && s[1] == e[1];
      assert StringEnd(s, 0, false) == StringEnd(s, 1, true) == StringEnd(s, 2, false);
    } else {
      assert s[0] == c;
    }
  }

  lemma {:induction false} ScanShift(t: string, p: nat, s: string, k: nat, hasEscape: bool)
    requires p + |s| == |t| && t[p..] == s && k <= |s|
    ensures match StringEnd(s, k, hasEscape)
      case Success(q) => StringEnd(t, p + k, hasEscape) == Success(p + q)
      case Failure(_) => StringEnd(t, p + k, hasEscape).Failure?
    decreases |s| - k
  {
    if k < |s| {
      assert t[p + k] == t[p..][k];
      if s[k] != '\n' && (hasEscape || s[k] != '"') {
        ScanShift(t, p, s, k + 1, !hasEscape && s[k] == '\\');
      }
    }
  }

  lemma ScanNothing()
    ensures StringEnd("\"", 0, false) == Success(1) && "" + "\"" == "\""
  {
  }

  lemma {:induction false} ScanEscapedAll(s: string)
    ensures var body := EscapedAll(s) + "\""; StringEnd(body, 0, false) == Success(|body|)
  {
    hide Escaped, StringEnd;
    if s == "" {
      ScanNothing();
    } else {
      var e, body := Escaped(s[0]), EscapedAll(s[1..]) + "\"";
      Assoc(e, EscapedAll(s[1..]), "\"");
      ScanEscaped(s[0], body);
      ScanEscapedAll(s[1..]);
      Split(e, body);
      ScanShift(e + body, |e|, body, 0, false);
    }
  }

  // The scanner consumes a written literal exactly, and reading it back gives
  // the string it was written from.
  lemma LiteralRoundTrip(s: string)
    ensures IsStringToken(Literal(s))
    ensures LiteralValue(Literal(s)) == s
  {
    hide StringEnd, EscapedAll, Unescaped;
    var body := EscapedAll(s) + "\"";
    Assoc("\"", EscapedAll(s), "\"");
    Split("\"", body);
    Split(EscapedAll(s), "\"");
    UnescapeEscaped(s);
    ScanEscapedAll(s);
    ScanShift(Literal(s), 1, body, 0, false);
  }

  // The same where the literal stands inside a longer text: the statement the
  // parser relies on.
  lemma ScanLiteral(t: string, p: nat, s: string)
    requires At(t, p, Literal(s))
    ensures StringEnd(t, p + 1, false) == Success(p + |Literal(s)|)
    ensures LiteralValue(t[p..p + |Literal(s)|]) == s
  {
    hide StringEnd, Literal, LiteralValue;
    LiteralRoundTrip(s);
    ScanToken(t, p, Literal(s), 1, false);
  }
}
