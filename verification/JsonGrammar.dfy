// The language lsp/json/json.cpp accepts, twice: as a recursive-descent parser
// over text positions (with the source's error kinds and offsets), and as a
// declarative grammar of layouts, which say what every byte of a text is for.
// The two are proved equal: a text is accepted with a value exactly when it is
// the text of a layout of that value.
module JsonGrammar {
  import opened Wrappers
  import opened Text
  import opened Json
  import opened JsonLiteral

  predicate CharAt(t: string, p: nat, c: char) { p < |t| && t[p] == c }

  // ---------------------------------------------------------------- scanning

  datatype CharClass = Space | NumberChar | Alnum {
    predicate Has(c: char) {
      match this
      case Space => IsSpace(c)
      case NumberChar => IsAlnum(c) || c == '-' || c == '.'
      case Alnum => IsAlnum(c)
    }
  }

  // The end of the longest run of characters of the class at p.
  function Span(t: string, p: nat, k: CharClass): (q: nat)
    ensures p <= q && (p <= |t| ==> q <= |t|) && (p > |t| ==> q == p)
    ensures forall j | p <= j < q :: k.Has(t[j])
    ensures q < |t| ==> !k.Has(t[q])
    decreases |t| - p
  {
    if p < |t| && k.Has(t[p]) then Span(t, p + 1, k) else p
  }

  lemma {:induction false} SpanIs(t: string, p: nat, k: CharClass, q: nat)
    requires p <= q <= |t|
    requires forall j | p <= j < q :: k.Has(t[j])
    requires q < |t| ==> !k.Has(t[q])
    ensures Span(t, p, k) == q
    decreases q - p
  {
    if p < q { SpanIs(t, p + 1, k, q); }
  }

  // ---------------------------------------------------------------- scalars

  predicate IsDecimalToken(token: string) { '.' in token || 'e' in token || 'E' in token }

  function NumberValue(c: Conversions, token: string, pos: nat): ParseResult {
    if IsDecimalToken(token) then
      match c.stod(token)
      case Throws => Failure(StodError)
      case Converted(value, used) =>
        if used < |token| then Failure(ParseError(InvalidNumber(token), pos)) else Success(Decimal(value))
    else
      match IntTextValue(token)
      case None => Failure(ParseError(InvalidNumber(token), pos))
      case Some(i) =>
        if !IsInt64(i) then Failure(ParseError(InvalidNumber(token), pos))
        else if !IsInt32(i) then Success(Decimal(c.nearest(i)))
        else Success(Integer(i))
  }

  function Keyword(token: string): Option<Value> {
    if token == "true" then Some(Boolean(true))
    else if token == "false" then Some(Boolean(false))
    else if token == "null" then Some(Null)
    else None
  }

  // ---------------------------------------------------------------- recursive descent

  datatype Parsed = Parsed(value: Value, next: nat)
  datatype ParsedKey = ParsedKey(key: string, next: nat)

  function ParseScalar(c: Conversions, t: string, q: nat): (r: Result<Parsed, Error>)
    requires q < |t|
    ensures r.Success? ==> q < r.value.next <= |t|
  {
    if t[q] == '"' then
      var end :- StringEnd(t, q + 1, false);
      Success(Parsed(String(LiteralValue(t[q..end])), end))
    else if IsDigit(t[q]) || t[q] == '-' then
      var end := Span(t, q, NumberChar);
      assert q < end;
      var value :- NumberValue(c, t[q..end], q);
      Success(Parsed(value, end))
    else if IsAlpha(t[q]) then
      var end := Span(t, q, Alnum);
      match Keyword(t[q..end])
      case Some(value) => Success(Parsed(value, end))
      case None => Failure(ParseError(UnexpectedIdentifier(t[q..end]), end))
    else Failure(ParseError(UnexpectedToken, q))
  }

  // A value, after any whitespace.
  function ParseValue(c: Conversions, t: string, p: nat): (r: Result<Parsed, Error>)
    requires p <= |t| + 1
    ensures r.Success? ==> p < r.value.next <= |t|
    decreases |t| + 1 - p, 0
  {
    var q := Span(t, p, Space);
    if q >= |t| then Failure(ParseError(UnexpectedEnd, q))
    else if t[q] == '{' then ParseMembers(c, t, q + 1, map[])
    else if t[q] == '[' then ParseElements(c, t, q + 1, [])
    else ParseScalar(c, t, q)
  }

  // The rest of an array, some of whose elements are done.
  function ParseElements(c: Conversions, t: string, p: nat, done: seq<Value>): (r: Result<Parsed, Error>)
    requires p <= |t| + 1
    ensures r.Success? ==> p < r.value.next <= |t|
    decreases |t| + 1 - p, 1
  {
    var q := Span(t, p, Space);
    if q >= |t| then Failure(ParseError(UnexpectedEnd, q))
    else if t[q] == ']' then Success(Parsed(Array(done), q + 1))
    else
      var start :- Separator(t, q, done == [], ']');
      var element :- ParseValue(c, t, start);
      ParseElements(c, t, element.next, done + [element.value])
  }

  // The comma before an element that is not the first.
  function Separator(t: string, q: nat, first: bool, close: char): (r: Result<nat, Error>)
    requires q < |t|
    ensures r.Success? ==> q <= r.value <= |t|
  {
    if first then Success(q)
    else if t[q] != ',' then Failure(ParseError(ExpectedComma, q))
    else
      var next := Span(t, q + 1, Space);
      if next < |t| && t[next] == close then Failure(ParseError(TrailingComma, q)) else Success(next)
  }

  // The rest of an object, some of whose members are done.
  function ParseMembers(c: Conversions, t: string, p: nat, done: map<string, Value>): (r: Result<Parsed, Error>)
    requires p <= |t| + 1
    ensures r.Success? ==> p < r.value.next <= |t|
    decreases |t| + 1 - p, 1
  {
    var q := Span(t, p, Space);
    if q >= |t| then Failure(ParseError(UnexpectedEnd, q))
    else if t[q] == '}' then Success(Parsed(Object(done), q + 1))
    else
      var start :- Separator(t, q, done == map[], '}');
      var key :- ParseKey(t, start, done.Keys);
      var member :- ParseValue(c, t, key.next);
      ParseMembers(c, t, member.next, done[key.key := member.value])
  }

  // A key and its colon.  At the end of the text the colon is skipped over all
  // the same, which leaves the position one past the end.
  function ParseKey(t: string, p: nat, seen: set<string>): (r: Result<ParsedKey, Error>)
    requires p <= |t| + 1
    ensures r.Success? ==> p < r.value.next <= |t| + 1
  {
    var q := Span(t, p, Space);
    if q >= |t| then Failure(ParseError(UnexpectedEnd, q))
    else if t[q] != '"' then Failure(ParseError(StringExpected, q))
    else
      var end :- StringEnd(t, q + 1, false);
      var key := LiteralValue(t[q..end]);
      if key in seen then Failure(ParseError(DuplicateKey(key), q))
      else
        var colon := Span(t, end, Space);
        if colon < |t| && t[colon] != ':' then Failure(ParseError(ExpectedColon, colon))
        else Success(ParsedKey(key, colon + 1))
  }

  // How the three functions unfold, one lemma a branch.
  lemma ValueStep(c: Conversions, t: string, p: nat, q: nat)
    requires p <= |t| + 1 && Span(t, p, Space) == q < |t|
    ensures t[q] == '{' ==> ParseValue(c, t, p) == ParseMembers(c, t, q + 1, map[])
    ensures t[q] == '[' ==> ParseValue(c, t, p) == ParseElements(c, t, q + 1, [])
    ensures t[q] != '{' && t[q] != '[' ==> ParseValue(c, t, p) == ParseScalar(c, t, q)
  {
    hide ParseScalar;
  }

  lemma ValueNeedsText(c: Conversions, t: string, p: nat)
    requires p <= |t| + 1 && ParseValue(c, t, p).Success?
    ensures Span(t, p, Space) < |t|
  {
    hide ParseScalar;
  }

  lemma ElementsClose(c: Conversions, t: string, p: nat, done: seq<Value>)
    requires p <= |t| + 1 && CharAt(t, Span(t, p, Space), ']')
    ensures ParseElements(c, t, p, done) == Success(Parsed(Array(done), Span(t, p, Space) + 1))
  {
  }

  lemma ElementsStep(c: Conversions, t: string, p: nat, done: seq<Value>, start: nat, element: Parsed)
    requires p <= |t| + 1 && Span(t, p, Space) < |t| && t[Span(t, p, Space)] != ']'
    requires Separator(t, Span(t, p, Space), done == [], ']') == Success(start)
    requires ParseValue(c, t, start) == Success(element)
    ensures ParseElements(c, t, p, done) == ParseElements(c, t, element.next, done + [element.value])
  {
    hide Separator;
  }

  lemma ElementsSteps(c: Conversions, t: string, p: nat, done: seq<Value>) returns (start: nat, element: Parsed)
    requires p <= |t| + 1 && ParseElements(c, t, p, done).Success? && !CharAt(t, Span(t, p, Space), ']')
    ensures Span(t, p, Space) < |t| && p <= start <= |t|
    ensures Separator(t, Span(t, p, Space), done == [], ']') == Success(start)
    ensures ParseValue(c, t, start) == Success(element) && element.next <= |t|
    ensures ParseElements(c, t, p, done) == ParseElements(c, t, element.next, done + [element.value])
  {
    hide Separator;
    start := Separator(t, Span(t, p, Space), done == [], ']').value;
    element := ParseValue(c, t, start).value;
  }

  lemma MembersClose(c: Conversions, t: string, p: nat, done: map<string, Value>)
    requires p <= |t| + 1 && CharAt(t, Span(t, p, Space), '}')
    ensures ParseMembers(c, t, p, done) == Success(Parsed(Object(done), Span(t, p, Space) + 1))
  {
  }

  lemma MembersStep(c: Conversions, t: string, p: nat, done: map<string, Value>, start: nat, key: ParsedKey,
                    member: Parsed)
    requires p <= |t| + 1 && Span(t, p, Space) < |t| && t[Span(t, p, Space)] != '}'
    requires Separator(t, Span(t, p, Space), done == map[], '}') == Success(start)
    requires ParseKey(t, start, done.Keys) == Success(key)
    requires ParseValue(c, t, key.next) == Success(member)
    ensures ParseMembers(c, t, p, done) == ParseMembers(c, t, member.next, done[key.key := member.value])
  {
    hide Separator, ParseKey;
  }

  lemma MembersSteps(c: Conversions, t: string, p: nat, done: map<string, Value>)
    returns (start: nat, key: ParsedKey, member: Parsed)
    requires p <= |t| + 1 && ParseMembers(c, t, p, done).Success? && !CharAt(t, Span(t, p, Space), '}')
    ensures Span(t, p, Space) < |t| && p <= start <= |t|
    ensures Separator(t, Span(t, p, Space), done == map[], '}') == Success(start)
    ensures ParseKey(t, start, done.Keys) == Success(key) && start < key.next <= |t| + 1
    ensures ParseValue(c, t, key.next) == Success(member) && member.next <= |t|
    ensures ParseMembers(c, t, p, done) == ParseMembers(c, t, member.next, done[key.key := member.value])
  {
    hide Separator, ParseKey;
    start := Separator(t, Span(t, p, Space), done == map[], '}').value;
    key := ParseKey(t, start, done.Keys).value;
    member := ParseValue(c, t, key.next).value;
  }

  // What follows the top-level value.
  function Finish(t: string, p: nat, value: Value): ParseResult
    requires p <= |t|
  {
    var q := Span(t, p, Space);
    if q < |t| then Failure(ParseError(TrailingCharacters, q)) else Success(value)
  }

  function Document(c: Conversions, t: string): ParseResult {
    var parsed :- ParseValue(c, t, 0);
    Finish(t, parsed.next, parsed.value)
  }

  // ---------------------------------------------------------------- layouts

  // comma: whitespace before the comma (which the first item does not have);
  // lead: whitespace before the value.
  datatype Item = Item(comma: string, lead: string, value: Layout)

  // key: the text of the key, quotes included; colon: whitespace before the colon.
  datatype Member = Member(comma: string, lead: string, key: string, colon: string, gap: string, value: Layout)

  // close: whitespace before the closing bracket.
  datatype Layout =
    | Token(text: string)
    | ArrayOf(items: seq<Item>, close: string)
    | ObjectOf(entries: seq<Member>, close: string)

  function LayoutText(l: Layout): (s: string)
    decreases l
  {
    match l
    case Token(text) => text
    case ArrayOf(items, close) => "[" + (ItemsText(items, true) + (close + "]"))
    case ObjectOf(entries, close) => "{" + (EntriesText(entries, true) + (close + "}"))
  }

  function CommaText(comma: string, first: bool): string {
    if first then "" else comma + ","
  }

  function ItemsText(items: seq<Item>, first: bool): string
    decreases items
  {
    if items == [] then ""
    else
      CommaText(items[0].comma, first) + (items[0].lead + LayoutText(items[0].value)) + ItemsText(items[1..], false)
  }

  function KeyText(e: Member): string { e.lead + e.key + e.colon + ":" }

  function EntriesText(entries: seq<Member>, first: bool): string
    decreases entries
  {
    if entries == [] then ""
    else
      var e := entries[0];
      CommaText(e.comma, first) + KeyText(e) + (e.gap + LayoutText(e.value)) + EntriesText(entries[1..], false)
  }

  // What a scalar token stands for.
  ghost function TokenValue(c: Conversions, token: string): Option<Value> {
    if token == "" then None
    else if token[0] == '"' then if IsStringToken(token) then Some(String(LiteralValue(token))) else None
    else if IsDigit(token[0]) || token[0] == '-' then
      if forall ch | ch in token :: NumberChar.Has(ch) then
        match NumberValue(c, token, 0)
        case Success(v) => Some(v)
        case Failure(_) => None
      else None
    else Keyword(token)
  }

  ghost predicate ValidLayout(c: Conversions, l: Layout)
    decreases l
  {
    match l
    case Token(text) => TokenValue(c, text).Some?
    case ArrayOf(items, close) => ValidItems(c, items) && AllSpace(close)
    case ObjectOf(entries, close) => ValidEntries(c, entries, {}) && AllSpace(close)
  }

  ghost predicate ValidItems(c: Conversions, items: seq<Item>)
    decreases items
  {
    items == [] ||
    (AllSpace(items[0].comma) && AllSpace(items[0].lead) && ValidLayout(c, items[0].value) && ValidItems(c, items[1..]))
  }

  // Keys are distinct, as strings: two ways of writing one string are one key.
  ghost predicate ValidEntries(c: Conversions, entries: seq<Member>, seen: set<string>)
    decreases entries
  {
    entries == [] ||
    var e := entries[0];
    && AllSpace(e.comma) && AllSpace(e.lead) && AllSpace(e.colon) && AllSpace(e.gap)
    && IsStringToken(e.key) && LiteralValue(e.key) !in seen
    && ValidLayout(c, e.value)
    && ValidEntries(c, entries[1..], seen + {LiteralValue(e.key)})
  }

  ghost function LayoutValue(c: Conversions, l: Layout): Value
    requires ValidLayout(c, l)
    decreases l
  {
    match l
    case Token(text) => TokenValue(c, text).value
    case ArrayOf(items, _) => Array(ItemsValue(c, items))
    case ObjectOf(entries, _) => Object(EntriesValue(c, entries, {}))
  }

  ghost function ItemsValue(c: Conversions, items: seq<Item>): seq<Value>
    requires ValidItems(c, items)
    decreases items
  {
    if items == [] then [] else [LayoutValue(c, items[0].value)] + ItemsValue(c, items[1..])
  }

  ghost function EntriesValue(c: Conversions, entries: seq<Member>, seen: set<string>): (m: map<string, Value>)
    requires ValidEntries(c, entries, seen)
    ensures m.Keys !! seen
    decreases entries
  {
    if entries == [] then map[]
    else
      var key := LiteralValue(entries[0].key);
      EntriesValue(c, entries[1..], seen + {key})[key := LayoutValue(c, entries[0].value)]
  }

  lemma LayoutValueStep(c: Conversions, l: Layout)
    ensures l.Token? ==>
      (ValidLayout(c, l) <==> TokenValue(c, l.text).Some?) &&
      (ValidLayout(c, l) ==> LayoutValue(c, l) == TokenValue(c, l.text).value)
    ensures l.ArrayOf? ==>
      (ValidLayout(c, l) <==> ValidItems(c, l.items) && AllSpace(l.close)) &&
      (ValidLayout(c, l) ==> LayoutValue(c, l) == Array(ItemsValue(c, l.items)))
    ensures l.ObjectOf? ==>
      (ValidLayout(c, l) <==> ValidEntries(c, l.entries, {}) && AllSpace(l.close)) &&
      (ValidLayout(c, l) ==> LayoutValue(c, l) == Object(EntriesValue(c, l.entries, {})))
  {
    hide TokenValue;
  }

  lemma ItemsValueStep(c: Conversions, items: seq<Item>)
    ensures items == [] ==> ValidItems(c, items) && ItemsValue(c, items) == []
    ensures items != [] ==>
      (ValidItems(c, items) <==>
         AllSpace(items[0].comma) && AllSpace(items[0].lead) && ValidLayout(c, items[0].value)
         && ValidItems(c, items[1..]))
    ensures items != [] && ValidItems(c, items) ==>
      ItemsValue(c, items) == [LayoutValue(c, items[0].value)] + ItemsValue(c, items[1..])
  {
    hide ValidLayout, LayoutValue;
  }

  lemma EntriesValueStep(c: Conversions, entries: seq<Member>, seen: set<string>)
    ensures entries == [] ==> ValidEntries(c, entries, seen) && EntriesValue(c, entries, seen) == map[]
    ensures entries != [] ==>
      var e := entries[0];
      (ValidEntries(c, entries, seen) <==>
         && AllSpace(e.comma) && AllSpace(e.lead) && AllSpace(e.colon) && AllSpace(e.gap)
         && IsStringToken(e.key) && LiteralValue(e.key) !in seen
         && ValidLayout(c, e.value) && ValidEntries(c, entries[1..], seen + {LiteralValue(e.key)}))
    ensures entries != [] && ValidEntries(c, entries, seen) ==>
      var key := LiteralValue(entries[0].key);
      EntriesValue(c, entries, seen) ==
        EntriesValue(c, entries[1..], seen + {key})[key := LayoutValue(c, entries[0].value)]
  {
    hide ValidLayout, LayoutValue, LiteralValue, IsStringToken, AllSpace;
  }

  // The whole text: a layout with whitespace around it.
  ghost predicate IsDocument(c: Conversions, t: string, v: Value, lead: string, l: Layout, trail: string) {
    && AllSpace(lead) && AllSpace(trail) && ValidLayout(c, l)
    && t == lead + LayoutText(l) + trail
    && LayoutValue(c, l) == v
  }

  // ---------------------------------------------------------------- positions

  function LayoutLen(l: Layout): nat
    decreases l
  {
    match l
    case Token(text) => |text|
    case ArrayOf(items, close) => 1 + ItemsLen(items, true) + |close| + 1
    case ObjectOf(entries, close) => 1 + EntriesLen(entries, true) + |close| + 1
  }

  function CommaLen(comma: string, first: bool): nat { if first then 0 else |comma| + 1 }

  function ItemsLen(items: seq<Item>, first: bool): nat
    decreases items
  {
    if items == [] then 0
    else CommaLen(items[0].comma, first) + |items[0].lead| + LayoutLen(items[0].value) + ItemsLen(items[1..], false)
  }

  function KeyLen(e: Member): nat { |e.lead| + |e.key| + |e.colon| + 1 }

  function EntriesLen(entries: seq<Member>, first: bool): nat
    decreases entries
  {
    if entries == [] then 0
    else
      CommaLen(entries[0].comma, first) + KeyLen(entries[0]) + |entries[0].gap| + LayoutLen(entries[0].value)
      + EntriesLen(entries[1..], false)
  }

  predicate CommaAt(t: string, p: nat, comma: string, first: bool) {
    first || (At(t, p, comma) && CharAt(t, p + |comma|, ','))
  }

  predicate CloseAt(t: string, p: nat, close: string, bracket: char) {
    At(t, p, close) && CharAt(t, p + |close|, bracket)
  }

  // The layout stands at p, piece by piece.
  ghost predicate LayoutAt(t: string, p: nat, l: Layout)
    decreases l
  {
    match l
    case Token(text) => At(t, p, text)
    case ArrayOf(items, close) =>
      CharAt(t, p, '[') && ItemsAt(t, p + 1, items, true) && CloseAt(t, p + 1 + ItemsLen(items, true), close, ']')
    case ObjectOf(entries, close) =>
      CharAt(t, p, '{') && EntriesAt(t, p + 1, entries, true)
      && CloseAt(t, p + 1 + EntriesLen(entries, true), close, '}')
  }

  ghost predicate ItemsAt(t: string, p: nat, items: seq<Item>, first: bool)
    decreases items
  {
    items == [] ||
    var item := items[0];
    var start := p + CommaLen(item.comma, first);
    var next := start + |item.lead| + LayoutLen(item.value);
    && CommaAt(t, p, item.comma, first) && At(t, start, item.lead)
    && LayoutAt(t, start + |item.lead|, item.value)
    && ItemsAt(t, next, items[1..], false)
  }

  ghost predicate KeyAt(t: string, p: nat, e: Member) {
    var key := p + |e.lead|;
    && At(t, p, e.lead) && At(t, key, e.key) && At(t, key + |e.key|, e.colon)
    && CharAt(t, key + |e.key| + |e.colon|, ':')
  }

  ghost predicate EntriesAt(t: string, p: nat, entries: seq<Member>, first: bool)
    decreases entries
  {
    entries == [] ||
    var e := entries[0];
    var start := p + CommaLen(e.comma, first);
    var gap := start + KeyLen(e);
    && CommaAt(t, p, e.comma, first) && KeyAt(t, start, e)
    && At(t, gap, e.gap) && LayoutAt(t, gap + |e.gap|, e.value)
    && EntriesAt(t, gap + |e.gap| + LayoutLen(e.value), entries[1..], false)
  }

  lemma AtChar(t: string, p: nat, c: char)
    ensures At(t, p, [c]) <==> CharAt(t, p, c)
  {
    if p < |t| { assert t[p..p + 1] == [t[p]]; }
  }

  lemma CommaTextAt(t: string, p: nat, comma: string, first: bool)
    ensures |CommaText(comma, first)| == CommaLen(comma, first)
    ensures At(t, p, CommaText(comma, first)) <==> p <= |t| && CommaAt(t, p, comma, first)
  {
    AtConcat(t, p, comma, ",");
    AtChar(t, p + |comma|, ',');
    if first && p <= |t| { assert t[p..p] == ""; }
  }

  lemma KeyTextAt(t: string, p: nat, e: Member)
    ensures |KeyText(e)| == KeyLen(e)
    ensures At(t, p, KeyText(e)) <==> KeyAt(t, p, e)
  {
    AtConcat3(t, p, e.lead, e.key, e.colon);
    AtConcat(t, p, e.lead + e.key + e.colon, ":");
    AtChar(t, p + |e.lead| + |e.key| + |e.colon|, ':');
  }

  lemma CloseTextAt(t: string, p: nat, close: string, bracket: char)
    ensures At(t, p, close + [bracket]) <==> CloseAt(t, p, close, bracket)
  {
    AtConcat(t, p, close, [bracket]);
    AtChar(t, p + |close|, bracket);
  }

  lemma LayoutStep(t: string, p: nat, l: Layout)
    ensures l.Token? ==>
      LayoutText(l) == l.text && LayoutLen(l) == |l.text| && (LayoutAt(t, p, l) <==> At(t, p, l.text))
    ensures l.ArrayOf? ==>
      && LayoutText(l) == "[" + (ItemsText(l.items, true) + (l.close + "]"))
      && LayoutLen(l) == ItemsLen(l.items, true) + |l.close| + 2
      && (LayoutAt(t, p, l) <==>
            (&& CharAt(t, p, '[') && ItemsAt(t, p + 1, l.items, true)
             && CloseAt(t, p + 1 + ItemsLen(l.items, true), l.close, ']')))
    ensures l.ObjectOf? ==>
      && LayoutText(l) == "{" + (EntriesText(l.entries, true) + (l.close + "}"))
      && LayoutLen(l) == EntriesLen(l.entries, true) + |l.close| + 2
      && (LayoutAt(t, p, l) <==>
            (&& CharAt(t, p, '{') && EntriesAt(t, p + 1, l.entries, true)
             && CloseAt(t, p + 1 + EntriesLen(l.entries, true), l.close, '}')))
  {
    hide At, CloseAt, CharAt;
  }

  lemma ItemsEmpty(t: string, p: nat, first: bool)
    ensures ItemsText([], first) == "" && ItemsLen([], first) == 0 && ItemsAt(t, p, [], first)
    ensures EntriesText([], first) == "" && EntriesLen([], first) == 0 && EntriesAt(t, p, [], first)
    ensures At(t, p, "") <==> p <= |t|
  {
  }

  lemma ItemsStep(t: string, p: nat, items: seq<Item>, first: bool)
    requires items != []
    ensures ItemsText(items, first) ==
      CommaText(items[0].comma, first) + (items[0].lead + LayoutText(items[0].value)) + ItemsText(items[1..], false)
    ensures ItemsLen(items, first) ==
      CommaLen(items[0].comma, first) + |items[0].lead| + LayoutLen(items[0].value) + ItemsLen(items[1..], false)
    ensures var item, start := items[0], p + CommaLen(items[0].comma, first);
      ItemsAt(t, p, items, first) <==>
        && CommaAt(t, p, item.comma, first) && At(t, start, item.lead) && LayoutAt(t, start + |item.lead|, item.value)
        && ItemsAt(t, start + |item.lead| + LayoutLen(item.value), items[1..], false)
  {
    hide CommaText, CommaLen, CommaAt, At, LayoutText, LayoutLen, LayoutAt;
  }

  lemma EntriesStep(t: string, p: nat, entries: seq<Member>, first: bool)
    requires entries != []
    ensures var e := entries[0];
      EntriesText(entries, first) ==
        CommaText(e.comma, first) + KeyText(e) + (e.gap + LayoutText(e.value)) + EntriesText(entries[1..], false)
    ensures var e := entries[0];
      EntriesLen(entries, first) ==
        CommaLen(e.comma, first) + KeyLen(e) + |e.gap| + LayoutLen(e.value) + EntriesLen(entries[1..], false)
    ensures var e, start := entries[0], p + CommaLen(entries[0].comma, first);
      EntriesAt(t, p, entries, first) <==>
        && CommaAt(t, p, e.comma, first) && KeyAt(t, start, e)
        && At(t, start + KeyLen(e), e.gap) && LayoutAt(t, start + KeyLen(e) + |e.gap|, e.value)
        && EntriesAt(t, start + KeyLen(e) + |e.gap| + LayoutLen(e.value), entries[1..], false)
  {
    hide CommaText, CommaLen, CommaAt, At, KeyAt, KeyLen, KeyText, LayoutText, LayoutLen, LayoutAt;
  }

  // Standing piece by piece is standing as a text.
  lemma {:induction false} LayoutTextAt(t: string, p: nat, l: Layout)
    ensures |LayoutText(l)| == LayoutLen(l)
    ensures At(t, p, LayoutText(l)) <==> LayoutAt(t, p, l)
    decreases l
  {
    hide *;
    LayoutStep(t, p, l);
    match l
    case Token(text) =>
    case ArrayOf(items, close) =>
      var body := ItemsText(items, true);
      ItemsTextAt(t, p + 1, items, true);
      AtConcat(t, p, "[", body + (close + "]"));
      AtChar(t, p, '[');
      AtConcat(t, p + 1, body, close + "]");
      CloseTextAt(t, p + 1 + |body|, close, ']');
      AtBound(t, p, "[");
    case ObjectOf(entries, close) =>
      var body := EntriesText(entries, true);
      EntriesTextAt(t, p + 1, entries, true);
      AtConcat(t, p, "{", body + (close + "}"));
      AtChar(t, p, '{');
      AtConcat(t, p + 1, body, close + "}");
      CloseTextAt(t, p + 1 + |body|, close, '}');
      AtBound(t, p, "{");
  }

  lemma {:induction false} ItemsTextAt(t: string, p: nat, items: seq<Item>, first: bool)
    ensures |ItemsText(items, first)| == ItemsLen(items, first)
    ensures At(t, p, ItemsText(items, first)) <==> p <= |t| && ItemsAt(t, p, items, first)
    decreases items
  {
    hide *;
    if items == [] {
      ItemsEmpty(t, p, first);
    } else {
      var item, comma := items[0], CommaText(items[0].comma, first);
      var value, rest := item.lead + LayoutText(item.value), ItemsText(items[1..], false);
      var start := p + |comma|;
      ItemsStep(t, p, items, first);
      AtConcat3(t, p, comma, value, rest);
      CommaTextAt(t, p, item.comma, first);
      AtConcat(t, start, item.lead, LayoutText(item.value));
      LayoutTextAt(t, start + |item.lead|, item.value);
      ItemsTextAt(t, start + |value|, items[1..], false);
      AtBound(t, start + |item.lead|, LayoutText(item.value));
    }
  }

  lemma {:induction false} EntriesTextAt(t: string, p: nat, entries: seq<Member>, first: bool)
    ensures |EntriesText(entries, first)| == EntriesLen(entries, first)
    ensures At(t, p, EntriesText(entries, first)) <==> p <= |t| && EntriesAt(t, p, entries, first)
    decreases entries
  {
    hide *;
    if entries == [] {
      ItemsEmpty(t, p, first);
    } else {
      var e, comma, key := entries[0], CommaText(entries[0].comma, first), KeyText(entries[0]);
      var value, rest := e.gap + LayoutText(e.value), EntriesText(entries[1..], false);
      var gap := p + |comma| + |key|;
      EntriesStep(t, p, entries, first);
      AtConcat(t, p, comma + key + value, rest);
      AtConcat3(t, p, comma, key, value);
      CommaTextAt(t, p, e.comma, first);
      KeyTextAt(t, p + |comma|, e);
      AtConcat(t, gap, e.gap, LayoutText(e.value));
      LayoutTextAt(t, gap + |e.gap|, e.value);
      EntriesTextAt(t, gap + |value|, entries[1..], false);
      AtBound(t, gap + |e.gap|, LayoutText(e.value));
    }
  }

  lemma AtBound(t: string, p: nat, s: string)
    ensures At(t, p, s) ==> p + |s| <= |t|
  {
  }

  // ---------------------------------------------------------------- grammar => parser

  // No token runs on into position p.
  predicate Stops(t: string, p: nat) { p >= |t| || !NumberChar.Has(t[p]) }

  // A run of whitespace that something else ends.
  lemma SkipLead(t: string, p: nat, lead: string)
    requires At(t, p, lead) && AllSpace(lead)
    requires p + |lead| < |t| ==> !IsSpace(t[p + |lead|])
    ensures Span(t, p, Space) == p + |lead|
    ensures p < |t| && Stops(t, p + |lead|) ==> Stops(t, p)
  {
    forall j | p <= j < p + |lead| ensures IsSpace(t[j]) {
      assert t[j] == t[p..p + |lead|][j - p] == lead[j - p];
      assert lead[j - p] in lead;
    }
    SpanIs(t, p, Space, p + |lead|);
  }

  lemma LayoutStart(c: Conversions, t: string, p: nat, l: Layout)
    requires ValidLayout(c, l) && LayoutAt(t, p, l)
    ensures p < |t| && !IsSpace(t[p]) && t[p] != ']' && t[p] != '}'
    ensures l.Token? ==> t[p] != '{' && t[p] != '['
    ensures l.ArrayOf? ==> t[p] == '['
    ensures l.ObjectOf? ==> t[p] == '{'
  {
    if l.Token? {
      assert t[p] == t[p..p + |l.text|][0] == l.text[0];
      if TokenValue(c, l.text) == Keyword(l.text) {
        assert l.text[0] == 't' || l.text[0] == 'f' || l.text[0] == 'n';
      }
    }
  }

  lemma ScalarComplete(c: Conversions, t: string, p: nat, token: string)
    requires At(t, p, token) && TokenValue(c, token).Some? && Stops(t, p + |token|)
    ensures ParseScalar(c, t, p) == Success(Parsed(TokenValue(c, token).value, p + |token|))
  {
    hide LiteralValue, StringEnd;
    var end := p + |token|;
    assert t[p] == t[p..end][0] == token[0];
    forall j | p <= j < end ensures t[j] == token[j - p] {
      assert t[j] == t[p..end][j - p];
    }
    if token[0] == '"' {
      ScanToken(t, p, token, 1, false);
    } else if IsDigit(token[0]) || token[0] == '-' {
      forall j | p <= j < end ensures NumberChar.Has(t[j]) { assert token[j - p] in token; }
      SpanIs(t, p, NumberChar, end);
    } else {
      assert token == "true" || token == "false" || token == "null";
      SpanIs(t, p, Alnum, end);
    }
  }

  lemma NoMembers(m: map<string, Value>)
    ensures var none: map<string, Value> := map[]; none.Keys == {} && none + m == m
  {
  }

  lemma {:induction false} ValueComplete(c: Conversions, t: string, p: nat, q: nat, l: Layout)
    requires p <= |t| && Span(t, p, Space) == q
    requires ValidLayout(c, l) && LayoutAt(t, q, l) && Stops(t, q + LayoutLen(l))
    ensures ParseValue(c, t, p) == Success(Parsed(LayoutValue(c, l), q + LayoutLen(l)))
    decreases l
  {
    hide *;
    LayoutStart(c, t, q, l);
    LayoutStep(t, q, l);
    LayoutValueStep(c, l);
    ValueStep(c, t, p, q);
    match l
    case Token(text) =>
      ScalarComplete(c, t, q, text);
    case ArrayOf(items, close) =>
      ElementsComplete(c, t, q + 1, [], items, close);
      assert [] + ItemsValue(c, items) == ItemsValue(c, items);
    case ObjectOf(entries, close) =>
      NoMembers(EntriesValue(c, entries, {}));
      MembersComplete(c, t, q + 1, map[], entries, close);
  }

  // The comma before an item that starts, after lead, with neither whitespace
  // nor the closing bracket.
  lemma SeparatorComplete(t: string, p: nat, comma: string, first: bool, lead: string, close: char)
    requires CommaAt(t, p, comma, first) && AllSpace(comma) && AllSpace(lead)
    requires At(t, p + CommaLen(comma, first), lead)
    requires var e := p + CommaLen(comma, first) + |lead|; e < |t| && !IsSpace(t[e]) && t[e] != close
    requires close == ']' || close == '}'
    ensures var q := Span(t, p, Space);
      && q < |t| && t[q] != close
      && Separator(t, q, first, close) == Success(p + CommaLen(comma, first) + |lead|)
    ensures !first ==> Stops(t, p)
  {
    hide AllSpace, At;
    SkipLead(t, p + CommaLen(comma, first), lead);
    if !first { FollowStops(t, p, comma, ','); }
  }

  // Whatever follows an item stops it.
  lemma FollowStops(t: string, p: nat, space: string, mark: char)
    requires At(t, p, space) && AllSpace(space) && CharAt(t, p + |space|, mark)
    requires mark == ',' || mark == ']' || mark == '}'
    ensures Stops(t, p) && p < |t|
    ensures Span(t, p, Space) == p + |space|
  {
    SkipLead(t, p, space);
  }

  lemma ItemsStop(c: Conversions, t: string, p: nat, items: seq<Item>, close: string)
    requires ValidItems(c, items) && AllSpace(close)
    requires ItemsAt(t, p, items, false) && CloseAt(t, p + ItemsLen(items, false), close, ']')
    ensures Stops(t, p)
  {
    hide TokenValue, LayoutAt, LayoutLen, ValidLayout, AllSpace, At, Stops;
    FollowStops(t, p, if items == [] then close else items[0].comma, if items == [] then ']' else ',');
  }

  lemma EntriesStop(c: Conversions, t: string, p: nat, entries: seq<Member>, seen: set<string>, close: string)
    requires ValidEntries(c, entries, seen) && AllSpace(close)
    requires EntriesAt(t, p, entries, false) && CloseAt(t, p + EntriesLen(entries, false), close, '}')
    ensures Stops(t, p)
  {
    hide TokenValue, LayoutAt, LayoutLen, ValidLayout, AllSpace, At, Stops, LiteralValue, IsStringToken, KeyAt, KeyLen;
    FollowStops(t, p, if entries == [] then close else entries[0].comma, if entries == [] then '}' else ',');
  }

  lemma CloseComplete(t: string, p: nat, close: string, bracket: char)
    requires CloseAt(t, p, close, bracket) && AllSpace(close) && (bracket == ']' || bracket == '}')
    ensures Span(t, p, Space) == p + |close| && CharAt(t, p + |close|, bracket)
  {
    FollowStops(t, p, close, bracket);
  }

  lemma NoSpace(t: string, p: nat)
    requires p < |t| && !IsSpace(t[p])
    ensures Span(t, p, Space) == p
  {
  }

  lemma {:induction false} ElementsComplete(c: Conversions, t: string, p: nat, done: seq<Value>, items: seq<Item>,
                                            close: string)
    requires ValidItems(c, items) && AllSpace(close) && p <= |t|
    requires ItemsAt(t, p, items, done == []) && CloseAt(t, p + ItemsLen(items, done == []), close, ']')
    ensures ParseElements(c, t, p, done) ==
      Success(Parsed(Array(done + ItemsValue(c, items)), p + ItemsLen(items, done == []) + |close| + 1))
    decreases items
  {
    hide *;
    var first := done == [];
    ItemsValueStep(c, items);
    if items == [] {
      ItemsEmpty(t, p, first);
      CloseComplete(t, p, close, ']');
      ElementsClose(c, t, p, done);
      assert done + [] == done;
    } else {
      var item := items[0];
      var start := p + CommaLen(item.comma, first) + |item.lead|;
      var next := start + LayoutLen(item.value);
      ItemsStep(t, p, items, first);
      LayoutStart(c, t, start, item.value);
      SeparatorComplete(t, p, item.comma, first, item.lead, ']');
      ItemsStop(c, t, next, items[1..], close);
      NoSpace(t, start);
      ValueComplete(c, t, start, start, item.value);
      var v := LayoutValue(c, item.value);
      ElementsStep(c, t, p, done, start, Parsed(v, next));
      ElementsComplete(c, t, next, done + [v], items[1..], close);
      assert done + ([v] + ItemsValue(c, items[1..])) == (done + [v]) + ItemsValue(c, items[1..]);
    }
  }

  lemma KeyComplete(t: string, p: nat, e: Member, seen: set<string>)
    requires KeyAt(t, p, e)
    requires AllSpace(e.lead) && AllSpace(e.colon) && IsStringToken(e.key) && LiteralValue(e.key) !in seen
    ensures At(t, p, e.lead) && CharAt(t, p + |e.lead|, '"') && |e.lead| < KeyLen(e)
    ensures p + KeyLen(e) <= |t|
    ensures ParseKey(t, p + |e.lead|, seen) == Success(ParsedKey(LiteralValue(e.key), p + KeyLen(e)))
  {
    hide LiteralValue, StringEnd;
    var q := p + |e.lead|;
    assert t[q] == t[q..q + |e.key|][0] == '"';
    NoSpace(t, q);
    ScanToken(t, q, e.key, 1, false);
    SkipLead(t, q + |e.key|, e.colon);
  }

  lemma AddMember(done: map<string, Value>, key: string, v: Value, rest: map<string, Value>)
    ensures done[key := v].Keys == done.Keys + {key} && done[key := v] != map[]
    ensures key !in rest ==> done + rest[key := v] == done[key := v] + rest
  {
    assert key in done[key := v];
  }

  lemma {:induction false} MemberComplete(c: Conversions, t: string, p: nat, done: map<string, Value>,
                                          entries: seq<Member>, close: string)
    requires entries != [] && ValidEntries(c, entries, done.Keys) && AllSpace(close) && p <= |t|
    requires EntriesAt(t, p, entries, done == map[]) && CloseAt(t, p + EntriesLen(entries, done == map[]), close, '}')
    ensures var e, rest := entries[0], entries[1..];
      var key, next := LiteralValue(e.key), p + EntriesLen(entries, done == map[]) - EntriesLen(rest, false);
      && 0 <= next <= |t| && EntriesAt(t, next, rest, false) && ValidEntries(c, rest, done.Keys + {key})
      && ParseMembers(c, t, p, done) == ParseMembers(c, t, next, done[key := LayoutValue(c, e.value)])
    decreases entries, 0
  {
    hide *;
    var first := done == map[];
    EntriesValueStep(c, entries, done.Keys);
    var e := entries[0];
    var key, lead := LiteralValue(e.key), p + CommaLen(e.comma, first);
    var start, gap := lead + |e.lead|, lead + KeyLen(e);
    var value := gap + |e.gap|;
    var next := value + LayoutLen(e.value);
    EntriesStep(t, p, entries, first);
    KeyComplete(t, lead, e, done.Keys);
    QuoteAt(t, start);
    SeparatorComplete(t, p, e.comma, first, e.lead, '}');
    EntriesStop(c, t, next, entries[1..], done.Keys + {key}, close);
    LayoutStart(c, t, value, e.value);
    SkipLead(t, gap, e.gap);
    ValueComplete(c, t, gap, value, e.value);
    MembersStep(c, t, p, done, start, ParsedKey(key, gap), Parsed(LayoutValue(c, e.value), next));
  }

  lemma {:induction false} MembersComplete(c: Conversions, t: string, p: nat, done: map<string, Value>,
                                           entries: seq<Member>, close: string)
    requires ValidEntries(c, entries, done.Keys) && AllSpace(close) && p <= |t|
    requires EntriesAt(t, p, entries, done == map[]) && CloseAt(t, p + EntriesLen(entries, done == map[]), close, '}')
    ensures ParseMembers(c, t, p, done) ==
      Success(Parsed(Object(done + EntriesValue(c, entries, done.Keys)),
                     p + EntriesLen(entries, done == map[]) + |close| + 1))
    decreases entries
  {
    hide *;
    var first := done == map[];
    EntriesValueStep(c, entries, done.Keys);
    if entries == [] {
      ItemsEmpty(t, p, first);
      CloseComplete(t, p, close, '}');
      MembersClose(c, t, p, done);
      assert done + map[] == done;
    } else {
      var key, v, rest := LiteralValue(entries[0].key), LayoutValue(c, entries[0].value), entries[1..];
      MemberComplete(c, t, p, done, entries, close);
      AddMember(done, key, v, EntriesValue(c, rest, done.Keys + {key}));
      MembersComplete(c, t, p + EntriesLen(entries, first) - EntriesLen(rest, false), done[key := v], rest, close);
    }
  }

  lemma QuoteAt(t: string, p: nat)
    requires CharAt(t, p, '"')
    ensures p < |t| && !IsSpace(t[p]) && t[p] != ']' && t[p] != '}'
  {
  }

  // ---------------------------------------------------------------- parser => grammar

  lemma ScalarSound(c: Conversions, t: string, q: nat)
    requires q < |t| && ParseScalar(c, t, q).Success?
    ensures var r := ParseScalar(c, t, q).value;
      TokenValue(c, t[q..r.next]) == Some(r.value)
  {
    hide LiteralValue;
    var r := ParseScalar(c, t, q).value;
    var token := t[q..r.next];
    assert token[0] == t[q];
    if t[q] == '"' {
      ScannedToken(t, q, token, 1, false);
      assert |token| >= 2;
    } else if IsDigit(t[q]) || t[q] == '-' {
      forall ch | ch in token ensures NumberChar.Has(ch) {
        var j :| 0 <= j < |token| && token[j] == ch;
        assert t[q + j] == ch;
      }
    }
  }

  lemma SpaceSound(t: string, p: nat)
    requires p <= Span(t, p, Space) <= |t|
    ensures AllSpace(t[p..Span(t, p, Space)]) && At(t, p, t[p..Span(t, p, Space)])
  {
  }

  lemma {:induction false} ValueSound(c: Conversions, t: string, p: nat) returns (l: Layout)
    requires p <= |t| + 1 && ParseValue(c, t, p).Success?
    ensures Span(t, p, Space) < |t| && ValidLayout(c, l) && LayoutAt(t, Span(t, p, Space), l)
    ensures ParseValue(c, t, p).value == Parsed(LayoutValue(c, l), Span(t, p, Space) + LayoutLen(l))
    decreases |t| + 1 - p, 0
  {
    hide *;
    ValueNeedsText(c, t, p);
    var q := Span(t, p, Space);
    ValueStep(c, t, p, q);
    if t[q] == '{' {
      NoMembers(map[]);
      var entries, close := MembersSound(c, t, q + 1, map[]);
      l := ObjectOf(entries, close);
      NoMembers(EntriesValue(c, entries, {}));
    } else if t[q] == '[' {
      var items, close := ElementsSound(c, t, q + 1, []);
      l := ArrayOf(items, close);
      assert [] + ItemsValue(c, items) == ItemsValue(c, items);
    } else {
      ScalarSound(c, t, q);
      SliceAt(t, q, ParseScalar(c, t, q).value.next);
      l := Token(t[q..ParseScalar(c, t, q).value.next]);
    }
    LayoutStep(t, q, l);
    LayoutValueStep(c, l);
    CharHere(t, q);
  }

  lemma SliceAt(t: string, p: nat, q: nat)
    requires p <= q <= |t|
    ensures At(t, p, t[p..q])
  {
  }

  lemma CharHere(t: string, p: nat)
    requires p < |t|
    ensures CharAt(t, p, t[p])
    ensures forall c :: CharAt(t, p, c) ==> t[p] == c
  {
  }

  lemma CloseSound(t: string, p: nat, bracket: char)
    requires p <= |t| + 1 && CharAt(t, Span(t, p, Space), bracket)
    ensures p <= Span(t, p, Space) <= |t|
    ensures AllSpace(t[p..Span(t, p, Space)]) && CloseAt(t, p, t[p..Span(t, p, Space)], bracket)
  {
    SpaceSound(t, p);
  }

  lemma SeparatorSound(t: string, p: nat, first: bool, close: char) returns (comma: string, lead: string)
    requires p <= |t| + 1 && Span(t, p, Space) < |t|
    requires Separator(t, Span(t, p, Space), first, close).Success?
    ensures AllSpace(comma) && AllSpace(lead) && CommaAt(t, p, comma, first)
    ensures At(t, p + CommaLen(comma, first), lead)
    ensures var start := Separator(t, Span(t, p, Space), first, close).value;
      start == p + CommaLen(comma, first) + |lead| && Span(t, start, Space) == start
  {
    var q := Span(t, p, Space);
    SpaceSound(t, p);
    if first {
      comma, lead := "", t[p..q];
      SpanIs(t, q, Space, q);
    } else {
      var next := Span(t, q + 1, Space);
      SpaceSound(t, q + 1);
      comma, lead := t[p..q], t[q + 1..next];
      SpanIs(t, next, Space, next);
    }
  }

  lemma {:induction false} ElementsSound(c: Conversions, t: string, p: nat, done: seq<Value>)
    returns (items: seq<Item>, close: string)
    requires p <= |t| + 1 && ParseElements(c, t, p, done).Success?
    ensures ValidItems(c, items) && AllSpace(close)
    ensures ItemsAt(t, p, items, done == []) && CloseAt(t, p + ItemsLen(items, done == []), close, ']')
    ensures ParseElements(c, t, p, done).value ==
      Parsed(Array(done + ItemsValue(c, items)), p + ItemsLen(items, done == []) + |close| + 1)
    decreases |t| + 1 - p, 1
  {
    hide *;
    var q, first := Span(t, p, Space), done == [];
    if CharAt(t, q, ']') {
      ElementsClose(c, t, p, done);
      CloseSound(t, p, ']');
      items, close := [], t[p..q];
      ItemsEmpty(t, p, first);
      ItemsValueStep(c, items);
      assert done + [] == done;
    } else {
      var start, element := ElementsSteps(c, t, p, done);
      var comma, lead := SeparatorSound(t, p, first, ']');
      var l := ValueSound(c, t, start);
      var rest;
      rest, close := ElementsSound(c, t, element.next, done + [element.value]);
      items := [Item(comma, lead, l)] + rest;
      assert items[1..] == rest;
      ItemsStep(t, p, items, first);
      ItemsValueStep(c, items);
      assert done + ([element.value] + ItemsValue(c, rest)) == (done + [element.value]) + ItemsValue(c, rest);
    }
  }

  lemma KeySound(t: string, p: nat, seen: set<string>) returns (key: string, colon: string)
    requires p <= |t| && Span(t, p, Space) == p
    requires ParseKey(t, p, seen).Success? && ParseKey(t, p, seen).value.next <= |t|
    ensures AllSpace(colon) && IsStringToken(key) && LiteralValue(key) !in seen
    ensures At(t, p, key) && At(t, p + |key|, colon) && CharAt(t, p + |key| + |colon|, ':')
    ensures ParseKey(t, p, seen).value == ParsedKey(LiteralValue(key), p + |key| + |colon| + 1)
  {
    hide LiteralValue, StringEnd;
    var end := StringEnd(t, p + 1, false).value;
    var next := ParseKey(t, p, seen).value.next;
    key, colon := t[p..end], t[end..next - 1];
    SpaceSound(t, end);
    assert key[0] == '"' && |key| >= 2;
    ScannedToken(t, p, key, 1, false);
  }

  lemma {:induction false} MemberSound(c: Conversions, t: string, p: nat, done: map<string, Value>)
    returns (e: Member, next: nat)
    requires p <= |t| + 1 && ParseMembers(c, t, p, done).Success? && !CharAt(t, Span(t, p, Space), '}')
    ensures AllSpace(e.comma) && AllSpace(e.lead) && AllSpace(e.colon) && AllSpace(e.gap)
    ensures IsStringToken(e.key) && LiteralValue(e.key) !in done.Keys && ValidLayout(c, e.value)
    ensures var start := p + CommaLen(e.comma, done == map[]);
      && CommaAt(t, p, e.comma, done == map[]) && KeyAt(t, start, e)
      && At(t, start + KeyLen(e), e.gap) && LayoutAt(t, start + KeyLen(e) + |e.gap|, e.value)
      && next == start + KeyLen(e) + |e.gap| + LayoutLen(e.value) && p < next <= |t|
    ensures ParseMembers(c, t, p, done) ==
      ParseMembers(c, t, next, done[LiteralValue(e.key) := LayoutValue(c, e.value)])
    decreases |t| + 1 - p, 0
  {
    hide *;
    var first := done == map[];
    var start, parsedKey, member := MembersSteps(c, t, p, done);
    var comma, lead := SeparatorSound(t, p, first, '}');
    ValueNeedsText(c, t, parsedKey.next);
    var l := ValueSound(c, t, parsedKey.next);
    var key, colon := KeySound(t, start, done.Keys);
    var gap := t[parsedKey.next..Span(t, parsedKey.next, Space)];
    SpaceSound(t, parsedKey.next);
    e, next := Member(comma, lead, key, colon, gap, l), member.next;
    KeyAtParts(t, p + CommaLen(comma, first), e);
  }

  lemma {:induction false} MembersSound(c: Conversions, t: string, p: nat, done: map<string, Value>)
    returns (entries: seq<Member>, close: string)
    requires p <= |t| + 1 && ParseMembers(c, t, p, done).Success?
    ensures ValidEntries(c, entries, done.Keys) && AllSpace(close)
    ensures EntriesAt(t, p, entries, done == map[]) && CloseAt(t, p + EntriesLen(entries, done == map[]), close, '}')
    ensures ParseMembers(c, t, p, done).value ==
      Parsed(Object(done + EntriesValue(c, entries, done.Keys)), p + EntriesLen(entries, done == map[]) + |close| + 1)
    decreases |t| + 1 - p, 1
  {
    hide *;
    var q, first := Span(t, p, Space), done == map[];
    if CharAt(t, q, '}') {
      MembersClose(c, t, p, done);
      CloseSound(t, p, '}');
      entries, close := [], t[p..q];
      ItemsEmpty(t, p, first);
      EntriesValueStep(c, entries, done.Keys);
      assert done + map[] == done;
    } else {
      var e, next := MemberSound(c, t, p, done);
      var key, v := LiteralValue(e.key), LayoutValue(c, e.value);
      AddMember(done, key, v, map[]);
      var rest;
      rest, close := MembersSound(c, t, next, done[key := v]);
      entries := [e] + rest;
      assert entries[1..] == rest;
      EntriesStep(t, p, entries, first);
      EntriesValueStep(c, entries, done.Keys);
      AddMember(done, key, v, EntriesValue(c, rest, done.Keys + {key}));
    }
  }

  lemma KeyAtParts(t: string, p: nat, e: Member)
    ensures KeyAt(t, p, e) <==>
      var key := p + |e.lead|;
      && At(t, p, e.lead) && At(t, key, e.key) && At(t, key + |e.key|, e.colon)
      && CharAt(t, key + |e.key| + |e.colon|, ':')
    ensures KeyLen(e) == |e.lead| + |e.key| + |e.colon| + 1
  {
  }

  // ---------------------------------------------------------------- the theorem

  // Every layout parses to its value, whatever whitespace surrounds it.
  lemma DocumentComplete(c: Conversions, t: string, v: Value, lead: string, l: Layout, trail: string)
    requires IsDocument(c, t, v, lead, l, trail)
    ensures Document(c, t) == Success(v)
  {
    hide LayoutText, LayoutAt, LayoutLen, ParseValue, LayoutValue, ValidLayout, At, AllSpace, Stops;
    var body := lead + LayoutText(l);
    WholeAt(t, body, trail);
    AtConcat(t, 0, lead, LayoutText(l));
    LayoutTextAt(t, |lead|, l);
    LayoutStart(c, t, |lead|, l);
    SkipLead(t, 0, lead);
    SkipLead(t, |body|, trail);
    SpaceStops(t, |body|, trail);
    ValueComplete(c, t, 0, |lead|, l);
  }

  lemma WholeAt(t: string, body: string, trail: string)
    requires t == body + trail
    ensures At(t, 0, body) && At(t, |body|, trail) && |t| == |body| + |trail|
  {
    Split(body, trail);
    assert t[..|body|] == t[0..|body|] && t[|body|..] == t[|body|..|body| + |trail|];
  }

  lemma SpaceStops(t: string, p: nat, trail: string)
    requires At(t, p, trail) && AllSpace(trail) && p + |trail| == |t|
    ensures Stops(t, p)
  {
    if trail != "" { assert t[p] == t[p..p + |trail|][0] == trail[0] && trail[0] in trail; }
  }

  // What the parser took apart is a layout, with whitespace around it.
  lemma DocumentSound(c: Conversions, t: string, v: Value) returns (lead: string, l: Layout, trail: string)
    requires Document(c, t) == Success(v)
    ensures IsDocument(c, t, v, lead, l, trail)
  {
    hide LayoutText, LayoutAt, LayoutLen, ParseValue, LayoutValue, ValidLayout, At, AllSpace;
    l := ValueSound(c, t, 0);
    var q, next := Span(t, 0, Space), ParseValue(c, t, 0).value.next;
    SpaceSound(t, 0);
    SpaceSound(t, next);
    LayoutTextAt(t, q, l);
    TextOf(t, q, LayoutText(l));
    lead, trail := t[0..q], t[next..Span(t, next, Space)];
    assert t == t[0..q] + t[q..next] + t[next..|t|];
  }

  lemma TextOf(t: string, p: nat, s: string)
    requires At(t, p, s)
    ensures p + |s| <= |t| && t[p..p + |s|] == s
  {
  }

  // The parser accepts a text with a value exactly when the text is a layout of
  // that value: no trailing comma, no second use of a key, nothing left over.
  lemma AcceptsExactly(c: Conversions, t: string, v: Value)
    ensures Document(c, t) == Success(v) <==>
      exists lead, l, trail :: IsDocument(c, t, v, lead, l, trail)
  {
    hide Document, IsDocument;
    if Document(c, t) == Success(v) {
      var lead, l, trail := DocumentSound(c, t, v);
    }
    if lead, l, trail :| IsDocument(c, t, v, lead, l, trail) {
      DocumentComplete(c, t, v, lead, l, trail);
    }
  }
}
