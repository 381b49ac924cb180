// lsp/json/json.cpp: JSON texts spelled out: what the printer writes in its two
// formats, what numbers, whitespace and keywords are, and what is refused where.
module JsonTexts {
  import opened Wrappers
  import opened Text
  import opened Alphabets
  import opened Json
  import opened JsonLiteral
  import opened JsonGrammar
  import opened JsonPrinter

  // ---------------------------------------------------------------- the two formats

  function ScalarWritten(decimalText: real -> string, v: Value): string {
    match v
    case Null => "null"
    case Boolean(b) => if b then "true" else "false"
    case Integer(i) => IntText(i)
    case Decimal(d) => decimalText(d)
    case String(s) => Literal(s)
    case _ => ""
  }

  // Without formatting nothing stands between the tokens.
  function Compact(decimalText: real -> string, tree: Tree): string
    decreases tree
  {
    match tree
    case Scalar(v) => ScalarWritten(decimalText, v)
    case List(items) => "[" + CompactItems(decimalText, items) + "]"
    case Table(entries) => "{" + CompactEntries(decimalText, entries) + "}"
  }

  function CompactItems(decimalText: real -> string, items: seq<Tree>): string
    decreases items
  {
    if items == [] then ""
    else if |items| == 1 then Compact(decimalText, items[0])
    else Compact(decimalText, items[0]) + "," + CompactItems(decimalText, items[1..])
  }

  function CompactEntries(decimalText: real -> string, entries: seq<Entry>): string
    decreases entries
  {
    if entries == [] then ""
    else
      var first := Literal(entries[0].key) + ":" + Compact(decimalText, entries[0].value);
      if |entries| == 1 then first else first + "," + CompactEntries(decimalText, entries[1..])
  }

  // With formatting each item has a line of its own, with a tab for each level but at
  // most 32, and a blank stands behind the colon of a key.
  function Tabs(level: nat): string {
    if level == 0 then "" else if level > 32 then Tabs(32) else "\t" + Tabs(level - 1)
  }

  function Pretty(decimalText: real -> string, tree: Tree, level: nat): string
    decreases tree
  {
    match tree
    case Scalar(v) => ScalarWritten(decimalText, v)
    case List(items) =>
      if items == [] then "[]"
      else "[\n" + PrettyItems(decimalText, items, level + 1) + "\n" + Tabs(level) + "]"
    case Table(entries) =>
      if entries == [] then "{}"
      else "{\n" + PrettyEntries(decimalText, entries, level + 1) + "\n" + Tabs(level) + "}"
  }

  function PrettyItems(decimalText: real -> string, items: seq<Tree>, level: nat): string
    requires items != []
    decreases items
  {
    var first := Tabs(level) + Pretty(decimalText, items[0], level);
    if |items| == 1 then first else first + ",\n" + PrettyItems(decimalText, items[1..], level)
  }

  function PrettyEntries(decimalText: real -> string, entries: seq<Entry>, level: nat): string
    requires entries != []
    decreases entries
  {
    var first := Tabs(level) + Literal(entries[0].key) + ": " + Pretty(decimalText, entries[0].value, level);
    if |entries| == 1 then first else first + ",\n" + PrettyEntries(decimalText, entries[1..], level)
  }

  lemma Marks(level: nat)
    ensures Lead(level, false) == "" && Gap(false) == "" && Gap(true) == " "
    ensures Lead(level, true) == "\n" + Tabs(level)
    ensures forall empty :: CloseSpace(empty, level, false) == ""
    ensures CloseSpace(true, level, true) == "" && CloseSpace(false, level, true) == "\n" + Tabs(level)
  {
    TabsAre(if level < 32 then level else 32);
    if level > 32 { assert Tabs(level) == Tabs(32); }
    assert "" + "" == "";
  }

  lemma {:induction false} TabsAre(n: nat)
    requires n <= 32
    ensures seq(n, _ => '\t') == Tabs(n)
  {
    if n > 0 {
      TabsAre(n - 1);
      assert seq(n, _ => '\t') == "\t" + seq(n - 1, _ => '\t');
    }
  }

  lemma {:induction false} PrintsCompact(decimalText: real -> string, tree: Tree, level: nat)
    ensures Print(decimalText, tree, level, false) == Compact(decimalText, tree)
    decreases tree
  {
    hide *;
    Marks(level);
    PrintIs(decimalText, tree, level, false);
    match tree {
      case Scalar(v) => ScalarBoth(decimalText, v, level);
      case List(items) => ListCompact(decimalText, items, level);
      case Table(entries) => TableCompact(decimalText, entries, level);
    }
  }

  lemma ListCompact(decimalText: real -> string, items: seq<Tree>, level: nat)
    ensures "[" + (ItemsText(ItemLayouts(decimalText, items, level + 1, false), true)
                   + (CloseSpace(items == [], level, false) + "]")) == Compact(decimalText, List(items))
    decreases items, 1
  {
    hide ItemLayouts, ItemsText, CloseSpace, CompactItems;
    Marks(level);
    ItemsCompact(decimalText, items, level + 1, true);
    Bracketed("[", CompactItems(decimalText, items), "]");
  }

  lemma TableCompact(decimalText: real -> string, entries: seq<Entry>, level: nat)
    ensures "{" + (EntriesText(EntryLayouts(decimalText, entries, level + 1, false), true)
                   + (CloseSpace(entries == [], level, false) + "}")) == Compact(decimalText, Table(entries))
    decreases entries, 1
  {
    hide EntryLayouts, EntriesText, CloseSpace, CompactEntries;
    Marks(level);
    EntriesCompact(decimalText, entries, level + 1, true);
    Bracketed("{", CompactEntries(decimalText, entries), "}");
  }

  lemma Bracketed(open: string, s: string, close: string)
    ensures open + (("" + s) + ("" + close)) == open + s + close
  {
    assert "" + close == close && "" + s == s;
  }

  // How the texts of lists unfold.
  lemma ItemStep(decimalText: real -> string, items: seq<Tree>, level: nat, format: bool, first: bool)
    requires items != []
    ensures ItemsText(ItemLayouts(decimalText, items, level, format), first) ==
      (if first then "" else ",") + (Lead(level, format) + Print(decimalText, items[0], level, format))
      + ItemsText(ItemLayouts(decimalText, items[1..], level, format), false)
  {
    hide LayoutText, LayoutOf, Lead;
    var layouts := ItemLayouts(decimalText, items, level, format);
    assert layouts[1..] == ItemLayouts(decimalText, items[1..], level, format);
    assert "" + "," == ",";
  }

  lemma EntryStep(decimalText: real -> string, entries: seq<Entry>, level: nat, format: bool, first: bool)
    requires entries != []
    ensures EntriesText(EntryLayouts(decimalText, entries, level, format), first) ==
      (if first then "" else ",") + (Lead(level, format) + Literal(entries[0].key) + ":")
      + (Gap(format) + Print(decimalText, entries[0].value, level, format))
      + EntriesText(EntryLayouts(decimalText, entries[1..], level, format), false)
  {
    hide LayoutText, LayoutOf, Lead, Literal, Gap;
    var layouts := EntryLayouts(decimalText, entries, level, format);
    assert layouts[1..] == EntryLayouts(decimalText, entries[1..], level, format);
    var t := Lead(level, format) + Literal(entries[0].key);
    assert "" + "," == "," && t + "" == t;
  }

  lemma NoItems(decimalText: real -> string, level: nat, format: bool, first: bool)
    ensures ItemsText(ItemLayouts(decimalText, [], level, format), first) == ""
    ensures EntriesText(EntryLayouts(decimalText, [], level, format), first) == ""
  {
  }

  // Pieces put together in two ways.
  lemma Glued(comma: string, a: string, b: string, mark: string, rest: string)
    ensures comma + a + b + (mark + rest) == comma + (a + b + mark + rest)
    ensures comma + (a + b) + (mark + rest) == comma + (a + b + mark + rest)
    ensures comma + a + b + "" == comma + (a + b) && comma + (a + b) + "" == comma + (a + b)
  {
    var s := a + b;
    Assoc(comma, a, b);
    Assoc(comma + s, mark, rest);
    Assoc(comma, s, mark + rest);
    Assoc(s, mark, rest);
    assert comma + s + "" == comma + s;
  }

  lemma {:induction false} ItemsCompact(decimalText: real -> string, items: seq<Tree>, level: nat, first: bool)
    ensures ItemsText(ItemLayouts(decimalText, items, level, false), first) ==
      (if first || items == [] then "" else ",") + CompactItems(decimalText, items)
    decreases items, 0
  {
    hide Print, Compact, ItemLayouts, ItemsText, Lead;
    if items == [] {
      NoItems(decimalText, level, false, first);
    } else {
      Marks(level);
      PrintsCompact(decimalText, items[0], level);
      ItemStep(decimalText, items, level, false, first);
      ItemsCompact(decimalText, items[1..], level, false);
      Glued(if first then "" else ",", "", Compact(decimalText, items[0]), ",", CompactItems(decimalText, items[1..]));
      assert "" + Compact(decimalText, items[0]) == Compact(decimalText, items[0]);
    }
  }

  lemma {:induction false} EntriesCompact(decimalText: real -> string, entries: seq<Entry>, level: nat, first: bool)
    ensures EntriesText(EntryLayouts(decimalText, entries, level, false), first) ==
      (if first || entries == [] then "" else ",") + CompactEntries(decimalText, entries)
    decreases entries, 0
  {
    hide Print, Compact, EntryLayouts, EntriesText, Lead, Literal, Gap;
    if entries == [] {
      NoItems(decimalText, level, false, first);
    } else {
      Marks(level);
      PrintsCompact(decimalText, entries[0].value, level);
      EntryStep(decimalText, entries, level, false, first);
      EntriesCompact(decimalText, entries[1..], level, false);
      var k, v := Literal(entries[0].key), Compact(decimalText, entries[0].value);
      Glued(if first then "" else ",", k + ":", v, ",", CompactEntries(decimalText, entries[1..]));
      assert "" + k == k && "" + v == v;
    }
  }

  lemma {:induction false} PrintsPretty(decimalText: real -> string, tree: Tree, level: nat)
    ensures Print(decimalText, tree, level, true) == Pretty(decimalText, tree, level)
    decreases tree
  {
    hide *;
    Marks(level);
    PrintIs(decimalText, tree, level, true);
    match tree {
      case Scalar(v) => ScalarBoth(decimalText, v, level);
      case List(items) => ListPretty(decimalText, items, level);
      case Table(entries) => TablePretty(decimalText, entries, level);
    }
  }

  lemma ListPretty(decimalText: real -> string, items: seq<Tree>, level: nat)
    ensures "[" + (ItemsText(ItemLayouts(decimalText, items, level + 1, true), true)
                   + (CloseSpace(items == [], level, true) + "]")) == Pretty(decimalText, List(items), level)
    decreases items, 1
  {
    hide ItemLayouts, ItemsText, CloseSpace, Tabs, PrettyItems;
    Marks(level);
    if items == [] {
      NoItems(decimalText, level + 1, true, true);
    } else {
      ItemsPretty(decimalText, items, level + 1, true);
      Lines("[", PrettyItems(decimalText, items, level + 1), Tabs(level), "]");
    }
  }

  lemma TablePretty(decimalText: real -> string, entries: seq<Entry>, level: nat)
    ensures "{" + (EntriesText(EntryLayouts(decimalText, entries, level + 1, true), true)
                   + (CloseSpace(entries == [], level, true) + "}")) == Pretty(decimalText, Table(entries), level)
    decreases entries, 1
  {
    hide EntryLayouts, EntriesText, CloseSpace, Tabs, PrettyEntries;
    Marks(level);
    if entries == [] {
      NoItems(decimalText, level + 1, true, true);
    } else {
      EntriesPretty(decimalText, entries, level + 1, true);
      Lines("{", PrettyEntries(decimalText, entries, level + 1), Tabs(level), "}");
    }
  }

  lemma ScalarBoth(decimalText: real -> string, v: Value, level: nat)
    ensures Compact(decimalText, Scalar(v)) == ScalarWritten(decimalText, v) == Pretty(decimalText, Scalar(v), level)
  {
  }

  lemma PrintIs(decimalText: real -> string, tree: Tree, level: nat, format: bool)
    ensures tree.Scalar? ==> Print(decimalText, tree, level, format) == ScalarWritten(decimalText, tree.value)
    ensures tree.List? ==>
      Print(decimalText, tree, level, format) ==
        "[" + (ItemsText(ItemLayouts(decimalText, tree.items, level + 1, format), true)
               + (CloseSpace(tree.items == [], level, format) + "]"))
    ensures tree.Table? ==>
      Print(decimalText, tree, level, format) ==
        "{" + (EntriesText(EntryLayouts(decimalText, tree.entries, level + 1, format), true)
               + (CloseSpace(tree.entries == [], level, format) + "}"))
  {
    hide ItemLayouts, EntryLayouts, ItemsText, EntriesText, CloseSpace;
  }

  lemma Lines(open: string, s: string, tabs: string, close: string)
    ensures open + ("" + "\n" + s + (("\n" + tabs) + close)) == open + "\n" + s + "\n" + tabs + close
    ensures (open + "\n") + s == open + ("\n" + s)
  {
    assert "" + "\n" == "\n";
    Assoc(open + "\n" + s, "\n", tabs);
    Assoc(open + "\n" + s, "\n" + tabs, close);
    Assoc(open, "\n" + s, ("\n" + tabs) + close);
    Assoc(open, "\n", s);
  }

  lemma {:induction false} ItemsPretty(decimalText: real -> string, items: seq<Tree>, level: nat, first: bool)
    requires items != []
    ensures ItemsText(ItemLayouts(decimalText, items, level, true), first) ==
      (if first then "" else ",") + "\n" + PrettyItems(decimalText, items, level)
    decreases items, 0
  {
    hide Print, Pretty, ItemLayouts, ItemsText, Lead, Tabs;
    Marks(level);
    PrintsPretty(decimalText, items[0], level);
    ItemStep(decimalText, items, level, true, first);
    var comma, s := if first then "" else ",", Pretty(decimalText, items[0], level);
    if |items| == 1 {
      assert items[1..] == [];
      NoItems(decimalText, level, true, false);
      Line(comma, Tabs(level), s, "");
    } else {
      ItemsPretty(decimalText, items[1..], level, false);
      Line(comma, Tabs(level), s, "," + "\n" + PrettyItems(decimalText, items[1..], level));
      Assoc(Tabs(level) + s, "," + "\n", PrettyItems(decimalText, items[1..], level));
      assert "," + "\n" == ",\n";
    }
  }

  lemma Line(comma: string, a: string, b: string, rest: string)
    ensures comma + (("\n" + a) + b) + rest == comma + "\n" + ((a + b) + rest)
    ensures rest == "" ==> comma + (("\n" + a) + b) + rest == comma + "\n" + (a + b)
  {
    Assoc("\n", a, b);
    Assoc(comma, "\n", a + b);
    Assoc(comma + "\n", a + b, rest);
    assert (a + b) + "" == a + b;
  }

  lemma {:induction false} EntriesPretty(decimalText: real -> string, entries: seq<Entry>, level: nat, first: bool)
    requires entries != []
    ensures EntriesText(EntryLayouts(decimalText, entries, level, true), first) ==
      (if first then "" else ",") + "\n" + PrettyEntries(decimalText, entries, level)
    decreases entries, 0
  {
    hide Print, Pretty, EntryLayouts, EntriesText, Lead, Tabs, Literal, Gap;
    Marks(level);
    PrintsPretty(decimalText, entries[0].value, level);
    EntryStep(decimalText, entries, level, true, first);
    var comma, k, v := if first then "" else ",", Literal(entries[0].key), Pretty(decimalText, entries[0].value, level);
    KeyLine(comma, Tabs(level), k, v);
    var s := Tabs(level) + k + ": ";
    if |entries| == 1 {
      assert entries[1..] == [];
      NoItems(decimalText, level, true, false);
      Line(comma, s, v, "");
      Assoc("\n", s, v);
    } else {
      EntriesPretty(decimalText, entries[1..], level, false);
      Line(comma, s, v, "," + "\n" + PrettyEntries(decimalText, entries[1..], level));
      Assoc("\n", s, v);
      Assoc(s + v, "," + "\n", PrettyEntries(decimalText, entries[1..], level));
      assert "," + "\n" == ",\n";
    }
  }

  lemma KeyLine(comma: string, tabs: string, k: string, v: string)
    ensures comma + (("\n" + tabs) + k + ":") + (" " + v) == comma + ("\n" + (tabs + k + ": ") + v)
  {
    Assoc("\n", tabs, k);
    Assoc("\n", tabs + k, ":");
    Assoc(comma, "\n" + (tabs + k + ":"), " " + v);
    Assoc("\n" + (tabs + k + ":"), " ", v);
    Assoc("\n", tabs + k + ":", " ");
    Assoc(tabs + k, ":", " ");
    assert ":" + " " == ": ";
  }

  // ---------------------------------------------------------------- exact values

  // Without decimals, and with integers of 32 bits, is exactly how a value comes back
  // whatever becomes of decimals.
  lemma ExactExactly(tree: Tree)
    requires DistinctKeys(tree)
    ensures Exact(ValueOf(tree)) <==>
      forall c: Conversions, decimalText: real -> string :: Printable(c, decimalText, tree)
  {
    hide Printable, DistinctKeys, ValueOf;
    if Exact(ValueOf(tree)) {
      forall c: Conversions, decimalText: real -> string ensures Printable(c, decimalText, tree) {
        ExactPrintable(c, decimalText, tree);
      }
    } else {
      var c, decimalText := Unprintable(tree);
      assert !Printable(c, decimalText, tree);
    }
  }

  lemma Unprintable(tree: Tree) returns (c: Conversions, decimalText: real -> string)
    requires !Exact(ValueOf(tree))
    ensures !Printable(c, decimalText, tree)
  {
    hide Printable, ValueOf;
    c, decimalText := Conversions(_ => Throws, _ => 0.0), _ => "";
    if Printable(c, decimalText, tree) { NoDecimals(c, decimalText, tree); }
  }

  lemma {:induction false} NoDecimals(c: Conversions, decimalText: real -> string, tree: Tree)
    requires (forall d :: decimalText(d) == "") && Printable(c, decimalText, tree)
    ensures Exact(ValueOf(tree))
    decreases tree
  {
    match tree
    case Scalar(v) => assert TokenValue(c, "") == None;
    case List(items) => NoDecimalItems(c, decimalText, items);
    case Table(entries) => NoDecimalEntries(c, decimalText, entries, {});
  }

  lemma {:induction false} NoDecimalItems(c: Conversions, decimalText: real -> string, items: seq<Tree>)
    requires (forall d :: decimalText(d) == "") && PrintableItems(c, decimalText, items)
    ensures forall v | v in ListValue(items) :: Exact(v)
    decreases items
  {
    hide Printable, Exact;
    if items != [] {
      NoDecimals(c, decimalText, items[0]);
      NoDecimalItems(c, decimalText, items[1..]);
    }
  }

  lemma {:induction false} NoDecimalEntries(c: Conversions, decimalText: real -> string, entries: seq<Entry>,
                                            seen: set<string>)
    requires (forall d :: decimalText(d) == "") && PrintableEntries(c, decimalText, entries, seen)
    ensures forall k | k in TableValue(entries) :: Exact(TableValue(entries)[k])
    decreases entries
  {
    hide Printable, Exact;
    if entries != [] {
      NoDecimals(c, decimalText, entries[0].value);
      NoDecimalEntries(c, decimalText, entries[1..], seen + {entries[0].key});
    }
  }

  // ---------------------------------------------------------------- keywords and whitespace

  lemma SpaceIsWhitespace(s: string)
    ensures AllSpace(s) <==> forall c | c in s :: c in WHITESPACE
  {
    forall c | c in s ensures IsSpace(c) <==> c in WHITESPACE { Classes(c); }
  }

  // The three keywords stand for their values, with any whitespace around.
  lemma KeywordsRead(c: Conversions, lead: string, trail: string)
    requires forall x | x in lead + trail :: x in WHITESPACE
    ensures Document(c, lead + "null" + trail) == Success(Null)
    ensures Document(c, lead + "true" + trail) == Success(Boolean(true))
    ensures Document(c, lead + "false" + trail) == Success(Boolean(false))
  {
    hide Document, LayoutText, LayoutValue, ValidLayout;
    forall x | x in lead ensures x in WHITESPACE { assert x in lead + trail; }
    forall x | x in trail ensures x in WHITESPACE { assert x in lead + trail; }
    SpaceIsWhitespace(lead);
    SpaceIsWhitespace(trail);
    KeywordRead(c, lead, "null", trail);
    KeywordRead(c, lead, "true", trail);
    KeywordRead(c, lead, "false", trail);
  }

  lemma KeywordRead(c: Conversions, lead: string, token: string, trail: string)
    requires AllSpace(lead) && AllSpace(trail) && Keyword(token).Some? && token != ""
    ensures Document(c, lead + token + trail) == Success(Keyword(token).value)
  {
    hide Document, NumberValue;
    assert token[0] != '"' && !IsDigit(token[0]) && token[0] != '-';
    assert TokenValue(c, token) == Keyword(token);
    DocumentComplete(c, lead + token + trail, Keyword(token).value, lead, Token(token), trail);
  }

  // Before a value whitespace is skipped and nothing else.
  lemma OnlyWhitespaceSkipped(c: Conversions, x: char)
    ensures Document(c, [x] + "null") == Success(Null) <==> x in WHITESPACE
  {
    hide Document;
    var t := [x] + "null";
    if x in WHITESPACE {
      assert forall y | y in [x] + "" :: y in WHITESPACE;
      assert [x] + "null" + "" == t;
      KeywordsRead(c, [x], "");
    } else {
      Classes(x);
      NotNull(c, x);
    }
  }

  lemma NotNull(c: Conversions, x: char)
    requires !IsSpace(x)
    ensures Document(c, [x] + "null") != Success(Null)
  {
    hide ParseMembers, ParseElements, StringEnd, LiteralValue;
    var t := [x] + "null";
    assert t[0] == x && t[1] == 'n' && t[2] == 'u' && t[3] == 'l' && t[4] == 'l' && |t| == 5;
    assert Span(t, 0, Space) == 0;
    if x == '{' {
      NoMember(c, t);
    } else if x == '[' {
      NullElement(c, t);
    } else if IsDigit(x) || x == '-' {
      assert t[0..5] == t && !IsDecimalToken(t) && IntTextValue(t) == None by { NoNumber(t); }
      SpanIs(t, 0, NumberChar, 5);
    } else if IsAlpha(x) {
      SpanIs(t, 0, Alnum, 5);
      assert t[0..5] == t;
    }
  }

  lemma NoNumber(t: string)
    requires |t| == 5 && (IsDigit(t[0]) || t[0] == '-') && t[1..] == "null"
    ensures !IsDecimalToken(t) && IntTextValue(t) == None
  {
    assert t[1] == 'n' && t[2] == 'u' && t[3] == 'l' && t[4] == 'l';
    assert !IsDigit(t[1]) && t[1] in t && t[1] in t[1..];
  }

  lemma NoMember(c: Conversions, t: string)
    requires |t| == 5 && t[1] == 'n'
    ensures ParseMembers(c, t, 1, map[]).Failure?
  {
    hide StringEnd, LiteralValue;
    assert Span(t, 1, Space) == 1;
  }

  lemma NullElement(c: Conversions, t: string)
    requires |t| == 5 && t[1..] == "null"
    ensures ParseElements(c, t, 1, []).Failure?
  {
    hide StringEnd, LiteralValue, ParseValue;
    assert t[1] == 'n';
    assert Span(t, 1, Space) == 1;
    var element := ParseValue(c, t, 1);
    if element.Success? && element.value.next < 5 { NullWhole(c, t); }
    if element.Success? {
      NullWhole(c, t);
      assert Span(t, 5, Space) == 5;
    }
  }

  lemma NullWhole(c: Conversions, t: string)
    requires |t| == 5 && t[1..] == "null" && ParseValue(c, t, 1).Success?
    ensures ParseValue(c, t, 1).value.next == 5
  {
    hide StringEnd, LiteralValue, ParseMembers, ParseElements;
    assert t[1] == 'n' && t[2] == 'u' && t[3] == 'l' && t[4] == 'l';
    assert Span(t, 1, Space) == 1;
    SpanIs(t, 1, Alnum, 5);
  }

  // ---------------------------------------------------------------- numbers

  // What a number is made of: it begins with a figure or a minus sign.
  predicate IsNumberText(token: string) {
    && token != "" && (IsFigure(token[0]) || token[0] == '-')
    && forall x | x in token :: IsLower(x) || IsUpper(x) || IsFigure(x) || x == '-' || x == '.'
  }

  lemma NumberDocument(c: Conversions, token: string)
    requires IsNumberText(token)
    ensures Document(c, token) == NumberValue(c, token, 0)
  {
    hide NumberValue, IsNumberText, ParseMembers, ParseElements, StringEnd, LiteralValue;
    NumberChars(token);
    SpanIs(token, 0, NumberChar, |token|);
    assert token[0..|token|] == token;
    NotSpace(token[0]);
    assert Span(token, 0, Space) == 0;
  }

  lemma NotSpace(x: char)
    requires IsFigure(x) || x == '-'
    ensures !IsSpace(x) && x != '{' && x != '[' && x != '"' && (IsDigit(x) || x == '-')
  {
  }

  lemma NumberChars(token: string)
    requires IsNumberText(token)
    ensures token != "" && (IsFigure(token[0]) || token[0] == '-')
    ensures forall i | 0 <= i < |token| :: NumberChar.Has(token[i])
  {
    forall i | 0 <= i < |token| ensures NumberChar.Has(token[i]) {
      assert token[i] in token;
      Classes(token[i]);
    }
  }

  // A number without a point and an exponent is an integer, given by its figures: a
  // json::Integer, beyond 32 bits the nearest double, beyond 64 bits no number.
  lemma IntegerRead(c: Conversions, figures: string, negative: bool)
    requires figures != "" && Figures(figures)
    ensures var n: int := Places(figures);
      var i := if negative then -n else n;
      var token := if negative then "-" + figures else figures;
      Document(c, token) ==
        if -0x8000_0000 <= i < 0x8000_0000 then Success(Integer(i))
        else if -0x8000_0000_0000_0000 <= i < 0x8000_0000_0000_0000 then Success(Decimal(c.nearest(i)))
        else Failure(ParseError(InvalidNumber(token), 0))
  {
    hide Document, Places, IntTextValue, IsNumberText;
    var token := if negative then "-" + figures else figures;
    IntRead(figures);
    IntegerToken(figures, negative);
    NumberDocument(c, token);
  }

  lemma IntegerToken(figures: string, negative: bool)
    requires figures != "" && Figures(figures)
    ensures var token := if negative then "-" + figures else figures;
      IsNumberText(token) && !IsDecimalToken(token)
  {
    var token := if negative then "-" + figures else figures;
    forall x | x in token ensures IsFigure(x) || x == '-' {
      if x !in figures { assert token[1..] == figures && x == token[0]; }
    }
    assert figures[0] in figures;
  }

  // With a point or an exponent std::stod decides, and has to use all of it.
  lemma DecimalRead(c: Conversions, token: string)
    requires IsNumberText(token) && ('.' in token || 'e' in token || 'E' in token)
    ensures Document(c, token) ==
      match c.stod(token)
      case Throws => Failure(StodError)
      case Converted(d, used) =>
        if used >= |token| then Success(Decimal(d)) else Failure(ParseError(InvalidNumber(token), 0))
  {
    hide Document, IsNumberText;
    NumberDocument(c, token);
  }

  // Where another character stands the number ends: one that is refused is refused all
  // the same, and behind one that is read the character is left over.
  lemma NumberEnds(c: Conversions, token: string, x: char, rest: string)
    requires IsNumberText(token) && !IsNumberText(token + [x])
    ensures Document(c, token).Failure? ==> Document(c, token + [x] + rest) == Document(c, token)
    ensures Document(c, token).Success? && x !in WHITESPACE ==>
      Document(c, token + [x] + rest) == Failure(ParseError(TrailingCharacters, |token|))
  {
    hide NumberValue, IsNumberText, ParseMembers, ParseElements, StringEnd, LiteralValue;
    var t := token + [x] + rest;
    NumberDocument(c, token);
    NumberChars(token);
    NoNumberChar(token, x);
    Classes(x);
    assert forall i | 0 <= i < |token| :: t[i] == token[i];
    assert t[|token|] == x && t[0..|token|] == token;
    SpanIs(t, 0, NumberChar, |token|);
    NotSpace(t[0]);
    assert Span(t, 0, Space) == 0;
  }

  lemma NoNumberChar(token: string, x: char)
    requires IsNumberText(token) && !IsNumberText(token + [x])
    ensures !NumberChar.Has(x)
  {
    Classes(x);
    var longer := token + [x];
    assert longer[0] == token[0];
    var y :| y in longer && !(IsLower(y) || IsUpper(y) || IsFigure(y) || y == '-' || y == '.');
    assert y in token || y == x;
  }

  // Anything else that begins like a number is none.
  lemma NoNumberRead(c: Conversions, token: string)
    requires IsNumberText(token) && '.' !in token && 'e' !in token && 'E' !in token
    requires !Figures(token) && !(token[0] == '-' && Figures(token[1..]) && |token| > 1)
    ensures Document(c, token) == Failure(ParseError(InvalidNumber(token), 0))
  {
    hide Document;
    NumberDocument(c, token);
    assert IntTextValue(token) == None by {
      if token[0] == '-' {
        if |token| > 1 {
          var x :| x in token[1..] && !IsFigure(x);
          assert x in token[1..] && !IsDigit(x);
        }
      } else {
        IntRead(token);
      }
    }
  }
}
