// lsp/json/json.cpp: what each parse error stands for, and where it is reported, at a
// text for each.
module JsonErrors {
  import opened Wrappers
  import opened Text
  import opened Alphabets
  import opened Json
  import opened JsonLiteral
  import opened JsonGrammar

  lemma NoSpan(t: string, p: nat)
    requires p < |t| && !IsSpace(t[p])
    ensures Span(t, p, Space) == p
  {
  }

  lemma EndSpan(t: string, p: nat)
    requires p >= |t|
    ensures Span(t, p, Space) == p
  {
  }

  lemma NullAt(c: Conversions, t: string, p: nat)
    requires p + 4 <= |t| && t[p..p + 4] == "null" && (p + 4 < |t| ==> !IsAlnum(t[p + 4]))
    ensures ParseValue(c, t, p) == Success(Parsed(Null, p + 4))
  {
    hide ParseMembers, ParseElements, StringEnd, LiteralValue, NumberValue;
    assert t[p] == t[p..p + 4][0] && t[p + 1] == t[p..p + 4][1];
    assert t[p + 2] == t[p..p + 4][2] && t[p + 3] == t[p..p + 4][3];
    NoSpan(t, p);
    SpanIs(t, p, Alnum, p + 4);
  }

  lemma KeyAt(t: string, p: nat, seen: set<string>)
    requires p + 4 <= |t| && t[p..p + 4] == "\"a\":"
    ensures ParseKey(t, p, seen) ==
      if "a" in seen then Failure(ParseError(DuplicateKey("a"), p)) else Success(ParsedKey("a", p + 4))
  {
    hide LiteralValue, StringEnd;
    assert t[p] == t[p..p + 4][0] && t[p + 3] == t[p..p + 4][3];
    NoSpan(t, p);
    NoSpan(t, p + 3);
    assert t[p..p + 3] == t[p..p + 4][..3] == "\"a\"";
    QuotedA(t, p);
  }

  lemma QuotedA(t: string, p: nat)
    requires p + 3 <= |t| && t[p..p + 3] == "\"a\""
    ensures StringEnd(t, p + 1, false) == Success(p + 3) && LiteralValue("\"a\"") == "a"
  {
    assert t[p + 1] == t[p..p + 3][1] && t[p + 2] == t[p..p + 3][2];
    var s := "\"a\"";
    assert s[1..] == "a\"" && "a\""[..1] == "a" && "a"[1..] == "" && "a" + "" == "a";
    assert Unescaped("a") == "a" + Unescaped("");
  }

  // ---------------------------------------------------------------- the end of the text

  // Nothing but whitespace.
  lemma NothingThere(c: Conversions, t: string)
    requires forall x | x in t :: x in WHITESPACE
    ensures Document(c, t) == Failure(ParseError(UnexpectedEnd, |t|))
  {
    forall i | 0 <= i < |t| ensures Space.Has(t[i]) {
      assert t[i] in t;
      Classes(t[i]);
    }
    SpanIs(t, 0, Space, |t|);
  }

  lemma OpenBracket(c: Conversions)
    ensures Document(c, "[") == Failure(ParseError(UnexpectedEnd, 1))
    ensures Document(c, "{") == Failure(ParseError(UnexpectedEnd, 1))
  {
    NoSpan("[", 0);
    NoSpan("{", 0);
    EndSpan("[", 1);
    EndSpan("{", 1);
  }

  // The colon that is missing at the end is skipped all the same: the error is one
  // place behind the end.
  lemma KeyAtEnd(c: Conversions)
    ensures Document(c, "{\"a\"") == Failure(ParseError(UnexpectedEnd, 5))
  {
    hide StringEnd, LiteralValue;
    var t := "{\"a\"";
    NoSpan(t, 0);
    NoSpan(t, 1);
    EndSpan(t, 4);
    EndSpan(t, 5);
    assert t[1..4] == "\"a\"";
    QuotedA(t, 1);
    assert ParseKey(t, 1, {}) == Success(ParsedKey("a", 5));
    var none: map<string, Value> := map[];
    assert none.Keys == {};
    assert ParseMembers(c, t, 1, map[]) == Failure(ParseError(UnexpectedEnd, 5));
  }

  lemma QuoteUnmatched(c: Conversions)
    ensures Document(c, "\"a") == Failure(ParseError(UnmatchedQuote, 2))
    ensures Document(c, "\"a\n\"") == Failure(ParseError(UnmatchedQuote, 2))
  {
    NoSpan("\"a", 0);
    NoSpan("\"a\n\"", 0);
    assert StringEnd("\"a", 1, false) == StringEnd("\"a", 2, false);
    assert StringEnd("\"a\n\"", 1, false) == StringEnd("\"a\n\"", 2, false);
  }

  // ---------------------------------------------------------------- behind the value

  // Whatever stands behind a value and is no whitespace.
  lemma SomethingLeft(c: Conversions, x: char, rest: string)
    requires x !in WHITESPACE && !IsLower(x) && !IsUpper(x) && !IsFigure(x)
    ensures Document(c, "null" + [x] + rest) == Failure(ParseError(TrailingCharacters, 4))
  {
    hide ParseValue;
    var t := "null" + [x] + rest;
    assert t[0..4] == "null" && t[4] == x;
    Classes(x);
    NullAt(c, t, 0);
    NoSpan(t, 4);
  }

  // ---------------------------------------------------------------- inside arrays

  lemma FirstElement(c: Conversions, t: string)
    requires |t| > 5 && t[0] == '[' && t[1..5] == "null" && !IsAlnum(t[5])
    ensures ParseValue(c, t, 0) == ParseElements(c, t, 5, [Null])
  {
    hide ParseScalar, ParseMembers;
    NoSpan(t, 0);
    assert t[1] == t[1..5][0];
    NoSpan(t, 1);
    NullAt(c, t, 1);
    ElementsStep(c, t, 1, [], 1, Parsed(Null, 5));
    assert [] + [Null] == [Null];
  }

  lemma CommaMissing(c: Conversions)
    ensures Document(c, "[null null]") == Failure(ParseError(ExpectedComma, 6))
  {
    hide ParseValue;
    var t := "[null null]";
    FirstElement(c, t);
    assert t[6] == 'n';
    SpanIs(t, 5, Space, 6);
  }

  lemma CommaTrailing(c: Conversions)
    ensures Document(c, "[null,]") == Failure(ParseError(TrailingComma, 5))
  {
    hide ParseValue;
    var t := "[null,]";
    FirstElement(c, t);
    NoSpan(t, 5);
    NoSpan(t, 6);
  }

  // ---------------------------------------------------------------- inside objects

  lemma FirstMember(c: Conversions, t: string)
    requires |t| > 9 && t[0] == '{' && t[1..9] == "\"a\":null" && !IsAlnum(t[9])
    ensures ParseValue(c, t, 0) == ParseMembers(c, t, 9, map["a" := Null])
  {
    hide ParseScalar, ParseElements, ParseKey;
    NoSpan(t, 0);
    assert t[1] == t[1..9][0];
    NoSpan(t, 1);
    assert t[1..5] == t[1..9][..4] && t[5..9] == t[1..9][4..];
    var none: map<string, Value> := map[];
    assert none.Keys == {};
    KeyAt(t, 1, {});
    NullAt(c, t, 5);
    MembersStep(c, t, 1, none, 1, ParsedKey("a", 5), Parsed(Null, 9));
    assert none["a" := Null] == map["a" := Null];
  }

  lemma MemberCommaTrailing(c: Conversions)
    ensures Document(c, "{\"a\":null,}") == Failure(ParseError(TrailingComma, 9))
  {
    hide ParseValue, ParseKey;
    var t := "{\"a\":null,}";
    assert t[1..9] == "\"a\":null";
    FirstMember(c, t);
    NoSpan(t, 9);
    NoSpan(t, 10);
    var one := map["a" := Null];
    assert "a" in one;
  }

  lemma MemberCommaMissing(c: Conversions)
    ensures Document(c, "{\"a\":null \"a\":null}") == Failure(ParseError(ExpectedComma, 10))
  {
    hide ParseValue, ParseKey;
    var t := "{\"a\":null \"a\":null}";
    assert t[1..9] == "\"a\":null";
    FirstMember(c, t);
    SpanIs(t, 9, Space, 10);
    var one := map["a" := Null];
    assert "a" in one;
  }

  lemma KeyTwice(c: Conversions)
    ensures Document(c, "{\"a\":null,\"a\":null}") == Failure(ParseError(DuplicateKey("a"), 10))
  {
    hide ParseValue, ParseKey, ParseMembers;
    var t := "{\"a\":null,\"a\":null}";
    assert t[1..9] == "\"a\":null";
    FirstMember(c, t);
    assert t[10..14] == "\"a\":";
    var one := map["a" := Null];
    assert "a" in one.Keys && one != map[];
    KeyAt(t, 10, one.Keys);
    SecondKey(c, t, one);
  }

  lemma SecondKey(c: Conversions, t: string, done: map<string, Value>)
    requires |t| > 10 && t[9] == ',' && t[10] == '"' && done != map[] && ParseKey(t, 10, done.Keys).Failure?
    ensures ParseMembers(c, t, 9, done) == Failure(ParseKey(t, 10, done.Keys).error)
  {
    hide ParseValue, ParseKey;
    NoSpan(t, 9);
    NoSpan(t, 10);
  }

  lemma ColonMissing(c: Conversions)
    ensures Document(c, "{\"a\" null}") == Failure(ParseError(ExpectedColon, 5))
  {
    hide StringEnd, LiteralValue, ParseValue, ParseElements, ParseScalar;
    var t := "{\"a\" null}";
    NoSpan(t, 0);
    NoSpan(t, 1);
    SpanIs(t, 4, Space, 5);
    assert t[1..4] == "\"a\"";
    QuotedA(t, 1);
    var none: map<string, Value> := map[];
    assert none.Keys == {};
    assert ParseKey(t, 1, {}) == Failure(ParseError(ExpectedColon, 5));
    ValueStep(c, t, 0, 0);
  }

  lemma KeyNotString(c: Conversions)
    ensures Document(c, "{null}") == Failure(ParseError(StringExpected, 1))
  {
    hide StringEnd, LiteralValue, ParseValue, ParseElements, ParseScalar;
    var t := "{null}";
    NoSpan(t, 0);
    NoSpan(t, 1);
    ValueStep(c, t, 0, 0);
  }

  // ---------------------------------------------------------------- no value

  lemma NoKeyword(c: Conversions, token: string)
    requires token != "" && (IsLower(token[0]) || IsUpper(token[0]))
    requires forall x | x in token :: IsLower(x) || IsUpper(x) || IsFigure(x)
    requires token != "null" && token != "true" && token != "false"
    ensures Document(c, token) == Failure(ParseError(UnexpectedIdentifier(token), |token|))
  {
    hide StringEnd, LiteralValue, ParseMembers, ParseElements, NumberValue;
    forall i | 0 <= i < |token| ensures Alnum.Has(token[i]) { assert token[i] in token; }
    NoSpan(token, 0);
    SpanIs(token, 0, Alnum, |token|);
    assert token[0..|token|] == token;
  }

  // A character no value begins with.
  lemma NoToken(c: Conversions, x: char, rest: string)
    requires x !in WHITESPACE && !IsLower(x) && !IsUpper(x) && !IsFigure(x) && x !in "-\"[{"
    ensures Document(c, [x] + rest) == Failure(ParseError(UnexpectedToken, 0))
  {
    Classes(x);
    NoSpan([x] + rest, 0);
    assert '-' in "-\"[{" && '"' in "-\"[{" && '[' in "-\"[{" && '{' in "-\"[{";
  }
}
