// lsp/json/json.cpp, stringify: the recursive printer, its two formats, and its
// inversion by the parser.
module JsonPrinter {
  import opened Wrappers
  import opened Text
  import opened Json
  import opened JsonLiteral
  import opened JsonGrammar

  // A value as it lies in memory: the members of an object in the order in which
  // iteration visits them, which std::unordered_map does not fix.
  datatype Entry = Entry(key: string, value: Tree)

  datatype Tree =
    | Scalar(value: Value)
    | List(items: seq<Tree>)
    | Table(entries: seq<Entry>)

  // The value, the order forgotten.
  function ValueOf(tree: Tree): Value
    decreases tree
  {
    match tree
    case Scalar(v) => v
    case List(items) => Array(ListValue(items))
    case Table(entries) => Object(TableValue(entries))
  }

  function ListValue(items: seq<Tree>): seq<Value>
    decreases items
  {
    if items == [] then [] else [ValueOf(items[0])] + ListValue(items[1..])
  }

  function TableValue(entries: seq<Entry>): map<string, Value>
    decreases entries
  {
    if entries == [] then map[] else TableValue(entries[1..])[entries[0].key := ValueOf(entries[0].value)]
  }

  // Keys are distinct; integers fit json::Integer; a decimal is one whose text
  // reads back as itself.
  ghost predicate Printable(c: Conversions, decimalText: real -> string, tree: Tree)
    decreases tree
  {
    match tree
    case Scalar(v) =>
      !v.Array? && !v.Object?
      && (v.Integer? ==> IsInt32(v.i))
      && (v.Decimal? ==> TokenValue(c, decimalText(v.d)) == Some(v))
    case List(items) => PrintableItems(c, decimalText, items)
    case Table(entries) => PrintableEntries(c, decimalText, entries, {})
  }

  ghost predicate PrintableItems(c: Conversions, decimalText: real -> string, items: seq<Tree>)
    decreases items
  {
    items == [] || (Printable(c, decimalText, items[0]) && PrintableItems(c, decimalText, items[1..]))
  }

  ghost predicate PrintableEntries(c: Conversions, decimalText: real -> string, entries: seq<Entry>, seen: set<string>)
    decreases entries
  {
    entries == [] ||
    (entries[0].key !in seen && Printable(c, decimalText, entries[0].value)
     && PrintableEntries(c, decimalText, entries[1..], seen + {entries[0].key}))
  }

  // ---------------------------------------------------------------- the text

  function ScalarText(decimalText: real -> string, v: Value): string {
    match v
    case Null => "null"
    case Boolean(b) => if b then "true" else "false"
    case Integer(i) => IntText(i)
    case Decimal(d) => decimalText(d)
    case String(s) => Literal(s)
    case _ => ""
  }

  // At most 32 tabs, and none when not formatting.
  function Indent(level: nat, format: bool): string {
    if format then seq(if level < 32 then level else 32, _ => '\t') else ""
  }

  function Break(format: bool): string { if format then "\n" else "" }

  function Gap(format: bool): string { if format then " " else "" }

  // Where the printer puts everything.
  function LayoutOf(decimalText: real -> string, tree: Tree, level: nat, format: bool): Layout
    decreases tree
  {
    match tree
    case Scalar(v) => Token(ScalarText(decimalText, v))
    case List(items) =>
      ArrayOf(ItemLayouts(decimalText, items, level + 1, format), CloseSpace(items == [], level, format))
    case Table(entries) =>
      ObjectOf(EntryLayouts(decimalText, entries, level + 1, format), CloseSpace(entries == [], level, format))
  }

  function CloseSpace(empty: bool, level: nat, format: bool): string {
    if empty then "" else Break(format) + Indent(level, format)
  }

  function Lead(level: nat, format: bool): string { Break(format) + Indent(level, format) }

  function ItemLayouts(decimalText: real -> string, items: seq<Tree>, level: nat, format: bool): seq<Item>
    decreases items
  {
    if items == [] then []
    else
      [Item("", Lead(level, format), LayoutOf(decimalText, items[0], level, format))]
      + ItemLayouts(decimalText, items[1..], level, format)
  }

  function EntryLayouts(decimalText: real -> string, entries: seq<Entry>, level: nat, format: bool): seq<Member>
    decreases entries
  {
    if entries == [] then []
    else
      [Member("", Lead(level, format), Literal(entries[0].key), "", Gap(format),
              LayoutOf(decimalText, entries[0].value, level, format))]
      + EntryLayouts(decimalText, entries[1..], level, format)
  }

  function Print(decimalText: real -> string, tree: Tree, level: nat, format: bool): string {
    LayoutText(LayoutOf(decimalText, tree, level, format))
  }

  // ---------------------------------------------------------------- the printer

  // The std::string that is appended to.
  class StringBuffer {
    var text: string

    constructor ()
      ensures text == ""
    {
      text := "";
    }

    method Append(s: string)
      modifies this
      ensures text == old(text) + s
    {
      text := text + s;
    }
  }

  method AppendScalar(decimalText: real -> string, v: Value, str: StringBuffer)
    modifies str
    ensures str.text == old(str.text) + ScalarText(decimalText, v)
  {
    match v {
      case Null => str.Append("null");
      case Boolean(b) => str.Append(if b then "true" else "false");
      case Integer(i) => str.Append(IntText(i));
      case Decimal(d) => str.Append(decimalText(d));
      case String(s) =>
        var literal := ToStringLiteral(s);
        str.Append(literal);
      case _ =>
    }
  }

  method AppendLead(str: StringBuffer, separator: string, level: nat, format: bool)
    modifies str
    ensures str.text == old(str.text) + (separator + Lead(level, format))
  {
    str.Append(separator + Break(format));
    str.Append(Indent(level, format));
  }

  method AppendClose(str: StringBuffer, empty: bool, level: nat, format: bool, bracket: string)
    modifies str
    ensures str.text == old(str.text) + (CloseSpace(empty, level, format) + bracket)
  {
    ghost var before := str.text;
    if !empty {
      str.Append(Break(format));
      str.Append(Indent(level, format));
    }
    str.Append(bracket);
    assert str.text == before + (CloseSpace(empty, level, format) + bracket);
  }

  // One element, after the start of the list or a comma.
  method AppendItem(decimalText: real -> string, item: Tree, str: StringBuffer, separator: string, level: nat,
                    format: bool)
    modifies str
    ensures str.text == old(str.text) + (separator + (Lead(level, format) + Print(decimalText, item, level, format)))
    decreases item, 1
  {
    hide *;
    ghost var before := str.text;
    AppendLead(str, separator, level, format);
    StringifyImplementation(decimalText, item, str, level, format);
    Assoc(before, separator + Lead(level, format), Print(decimalText, item, level, format));
    Assoc(separator, Lead(level, format), Print(decimalText, item, level, format));
  }

  method AppendEntry(decimalText: real -> string, entry: Entry, str: StringBuffer, separator: string, level: nat,
                     format: bool)
    modifies str
    ensures str.text == old(str.text) +
      (separator + (Lead(level, format) + Literal(entry.key) + (":" + Gap(format)) +
       Print(decimalText, entry.value, level, format)))
    decreases entry, 1
  {
    hide *;
    ghost var before, lead, key, colon, value :=
      str.text, Lead(level, format), Literal(entry.key), ":" + Gap(format),
      Print(decimalText, entry.value, level, format);
    AppendLead(str, separator, level, format);
    var literal := ToStringLiteral(entry.key);
    str.Append(literal);
    str.Append(if format then ": " else ":");
    KeySeparator(format);
    StringifyImplementation(decimalText, entry.value, str, level, format);
    assert str.text == before + (separator + lead) + key + colon + value;
    FiveParts(before, separator, lead, key, colon, value);
  }

  lemma KeySeparator(format: bool)
    ensures (if format then ": " else ":") == ":" + Gap(format)
  {
  }

  lemma FiveParts(before: string, separator: string, lead: string, key: string, colon: string, value: string)
    ensures before + (separator + lead) + key + colon + value == before + (separator + (lead + key + colon + value))
  {
    Assoc(before + (separator + lead), key, colon);
    Assoc(before + (separator + lead), key + colon, value);
    Assoc(before, separator + lead, key + colon + value);
    Assoc(separator, lead, key + colon + value);
    Assoc(lead, key, colon);
    Assoc(lead, key + colon, value);
  }

  method StringifyImplementation(decimalText: real -> string, json: Tree, str: StringBuffer, level: nat, format: bool)
    modifies str
    ensures str.text == old(str.text) + Print(decimalText, json, level, format)
    decreases json, 0
  {
    hide *;
    ghost var before := str.text;
    match json {
      case Scalar(v) =>
        AppendScalar(decimalText, v, str);
        PrintScalar(decimalText, v, level, format);
      case Table(entries) =>
        ghost var goal := before + Print(decimalText, json, level, format);
        ghost var close := CloseSpace(entries == [], level, format) + "}";
        str.Append("{");
        PrintTable(decimalText, entries, level, format, before);
        var i := 0;
        while i < |entries|
          invariant i <= |entries|
          invariant str.text + (EntriesText(EntryLayouts(decimalText, entries[i..], level + 1, format), i == 0) + close)
            == goal
        {
          EntriesRest(decimalText, entries, i, level + 1, format, str.text, close);
          AppendEntry(decimalText, entries[i], str, if i == 0 then "" else ",", level + 1, format);
          i := i + 1;
        }
        assert entries[i..] == [];
        NothingLeft(decimalText, level + 1, format, str.text, close);
        AppendClose(str, entries == [], level, format, "}");
      case List(items) =>
        ghost var goal := before + Print(decimalText, json, level, format);
        ghost var close := CloseSpace(items == [], level, format) + "]";
        str.Append("[");
        PrintList(decimalText, items, level, format, before);
        var i := 0;
        while i < |items|
          invariant i <= |items|
          invariant str.text + (ItemsText(ItemLayouts(decimalText, items[i..], level + 1, format), i == 0) + close)
            == goal
        {
          ItemsRest(decimalText, items, i, level + 1, format, str.text, close);
          AppendItem(decimalText, items[i], str, if i == 0 then "" else ",", level + 1, format);
          i := i + 1;
        }
        assert items[i..] == [];
        NothingLeft(decimalText, level + 1, format, str.text, close);
        AppendClose(str, items == [], level, format, "]");
    }
  }

  method Stringify(decimalText: real -> string, json: Tree, format: bool) returns (text: string)
    ensures text == Print(decimalText, json, 0, format)
  {
    hide Print;
    var str := new StringBuffer();
    StringifyImplementation(decimalText, json, str, 0, format);
    assert "" + Print(decimalText, json, 0, format) == Print(decimalText, json, 0, format);
    text := str.text;
  }

  // ---- how the text of a container unfolds

  lemma PrintScalar(decimalText: real -> string, v: Value, level: nat, format: bool)
    ensures Print(decimalText, Scalar(v), level, format) == ScalarText(decimalText, v)
  {
    hide ScalarText;
  }

  lemma PrintTable(decimalText: real -> string, entries: seq<Entry>, level: nat, format: bool, before: string)
    ensures (before + "{") + (EntriesText(EntryLayouts(decimalText, entries[0..], level + 1, format), true)
                              + (CloseSpace(entries == [], level, format) + "}"))
      == before + Print(decimalText, Table(entries), level, format)
  {
    hide EntriesText, EntryLayouts, CloseSpace;
    assert entries[0..] == entries;
    Assoc(before, "{", EntriesText(EntryLayouts(decimalText, entries, level + 1, format), true)
                       + (CloseSpace(entries == [], level, format) + "}"));
  }

  lemma PrintList(decimalText: real -> string, items: seq<Tree>, level: nat, format: bool, before: string)
    ensures (before + "[") + (ItemsText(ItemLayouts(decimalText, items[0..], level + 1, format), true)
                              + (CloseSpace(items == [], level, format) + "]"))
      == before + Print(decimalText, List(items), level, format)
  {
    hide ItemsText, ItemLayouts, CloseSpace;
    assert items[0..] == items;
    Assoc(before, "[", ItemsText(ItemLayouts(decimalText, items, level + 1, format), true)
                       + (CloseSpace(items == [], level, format) + "]"));
  }

  lemma NothingLeft(decimalText: real -> string, level: nat, format: bool, text: string, close: string)
    ensures forall first ::
      text + (ItemsText(ItemLayouts(decimalText, [], level, format), first) + close) == text + close
    ensures forall first ::
      text + (EntriesText(EntryLayouts(decimalText, [], level, format), first) + close) == text + close
  {
    assert "" + close == close;
  }

  lemma ItemsRest(decimalText: real -> string, items: seq<Tree>, i: nat, level: nat, format: bool, text: string,
                  close: string)
    requires i < |items|
    ensures text + (ItemsText(ItemLayouts(decimalText, items[i..], level, format), i == 0) + close) ==
      (text + ((if i == 0 then "" else ",") + (Lead(level, format) + Print(decimalText, items[i], level, format))))
      + (ItemsText(ItemLayouts(decimalText, items[i + 1..], level, format), false) + close)
  {
    hide Lead, LayoutOf, LayoutText;
    var rest := ItemLayouts(decimalText, items[i + 1..], level, format);
    var layouts := ItemLayouts(decimalText, items[i..], level, format);
    assert items[i..][1..] == items[i + 1..] && layouts[1..] == rest;
    assert CommaText("", i == 0) == if i == 0 then "" else ",";
    var part := (if i == 0 then "" else ",") + (Lead(level, format) + Print(decimalText, items[i], level, format));
    assert ItemsText(layouts, i == 0) == part + ItemsText(rest, false);
    Assoc(part, ItemsText(rest, false), close);
    Assoc(text, part, ItemsText(rest, false) + close);
  }

  lemma EntriesRest(decimalText: real -> string, entries: seq<Entry>, i: nat, level: nat, format: bool,
                    text: string, close: string)
    requires i < |entries|
    ensures text + (EntriesText(EntryLayouts(decimalText, entries[i..], level, format), i == 0) + close) ==
      (text + ((if i == 0 then "" else ",")
               + (Lead(level, format) + Literal(entries[i].key) + (":" + Gap(format))
                  + Print(decimalText, entries[i].value, level, format))))
      + (EntriesText(EntryLayouts(decimalText, entries[i + 1..], level, format), false) + close)
  {
    hide Lead, LayoutOf, LayoutText, Literal, Gap;
    var rest := EntryLayouts(decimalText, entries[i + 1..], level, format);
    var layouts := EntryLayouts(decimalText, entries[i..], level, format);
    assert entries[i..][1..] == entries[i + 1..] && layouts[1..] == rest;
    var comma, lead, key := if i == 0 then "" else ",", Lead(level, format), Literal(entries[i].key);
    var gap, value := Gap(format), Print(decimalText, entries[i].value, level, format);
    assert CommaText("", i == 0) == comma;
    EntryParts(comma, lead, key, gap, value);
    var part := comma + (lead + key + (":" + gap) + value);
    assert EntriesText(layouts, i == 0) == part + EntriesText(rest, false);
    Assoc(part, EntriesText(rest, false), close);
    Assoc(text, part, EntriesText(rest, false) + close);
  }

  lemma EntryParts(comma: string, lead: string, key: string, gap: string, value: string)
    ensures comma + (lead + key + "" + ":") + (gap + value) == comma + (lead + key + (":" + gap) + value)
  {
    assert key + "" == key && lead + key + "" == lead + key;
    Assoc(comma, lead + key + ":", gap + value);
    Assoc(lead + key, ":", gap + value);
    Assoc(":", gap, value);
    Assoc(lead + key, ":" + gap, value);
  }

  // ---------------------------------------------------------------- inversion

  lemma {:induction false} LayoutOfTree(c: Conversions, decimalText: real -> string, tree: Tree, level: nat,
                                        format: bool)
    requires Printable(c, decimalText, tree)
    ensures ValidLayout(c, LayoutOf(decimalText, tree, level, format))
    ensures LayoutValue(c, LayoutOf(decimalText, tree, level, format)) == ValueOf(tree)
    decreases tree
  {
    hide TokenValue, AllSpace, ScalarText, Indent, Break;
    LayoutValueStep(c, LayoutOf(decimalText, tree, level, format));
    match tree
    case Scalar(v) =>
      ScalarToken(c, decimalText, v);
    case List(items) =>
      SpacesAreSpace(level, format);
      ItemLayoutsOfTree(c, decimalText, items, level + 1, format);
    case Table(entries) =>
      SpacesAreSpace(level, format);
      EntryLayoutsOfTree(c, decimalText, entries, {}, level + 1, format);
  }

  lemma ScalarToken(c: Conversions, decimalText: real -> string, v: Value)
    requires Printable(c, decimalText, Scalar(v))
    ensures TokenValue(c, ScalarText(decimalText, v)) == Some(v)
  {
    hide LiteralValue, Literal, IntTextValue, IntText, IsStringToken;
    match v
    case Integer(i) =>
      IntTextRoundTrip(i);
      assert !IsDecimalToken(IntText(i));
    case String(s) =>
      LiteralRoundTrip(s);
      QuotedLiteral(s);
    case _ =>
  }

  lemma QuotedLiteral(s: string)
    ensures Literal(s) != "" && Literal(s)[0] == '"'
  {
    hide EscapedAll;
  }

  lemma SpacesAreSpace(level: nat, format: bool)
    ensures AllSpace("") && AllSpace(Lead(level, format)) && AllSpace(Gap(format))
    ensures forall empty :: AllSpace(CloseSpace(empty, level, format))
  {
  }

  lemma {:induction false} ItemLayoutsOfTree(c: Conversions, decimalText: real -> string, items: seq<Tree>,
                                             level: nat, format: bool)
    requires PrintableItems(c, decimalText, items)
    ensures ValidItems(c, ItemLayouts(decimalText, items, level, format))
    ensures ItemsValue(c, ItemLayouts(decimalText, items, level, format)) == ListValue(items)
    decreases items
  {
    hide Printable, AllSpace, Lead, LayoutOf, ValueOf, ValidItems, ItemsValue;
    var layouts := ItemLayouts(decimalText, items, level, format);
    ItemsValueStep(c, layouts);
    if items != [] {
      assert layouts[1..] == ItemLayouts(decimalText, items[1..], level, format);
      SpacesAreSpace(level, format);
      LayoutOfTree(c, decimalText, items[0], level, format);
      ItemLayoutsOfTree(c, decimalText, items[1..], level, format);
    }
  }

  lemma {:induction false} EntryLayoutsOfTree(c: Conversions, decimalText: real -> string, entries: seq<Entry>,
                                              seen: set<string>, level: nat, format: bool)
    requires PrintableEntries(c, decimalText, entries, seen)
    ensures ValidEntries(c, EntryLayouts(decimalText, entries, level, format), seen)
    ensures EntriesValue(c, EntryLayouts(decimalText, entries, level, format), seen) == TableValue(entries)
    decreases entries
  {
    hide Printable, AllSpace, Lead, Gap, LayoutOf, ValueOf, ValidEntries, EntriesValue, Literal, LiteralValue,
         IsStringToken;
    var layouts := EntryLayouts(decimalText, entries, level, format);
    EntriesValueStep(c, layouts, seen);
    if entries != [] {
      var e := entries[0];
      assert layouts[1..] == EntryLayouts(decimalText, entries[1..], level, format);
      SpacesAreSpace(level, format);
      LiteralRoundTrip(e.key);
      LayoutOfTree(c, decimalText, e.value, level, format);
      EntryLayoutsOfTree(c, decimalText, entries[1..], seen + {e.key}, level, format);
    }
  }

  // Parsing what was printed gives the value back: for every value, every order
  // in which the members of its objects may be visited, and both formats.
  lemma PrintParse(c: Conversions, decimalText: real -> string, tree: Tree, format: bool)
    requires Printable(c, decimalText, tree)
    ensures Document(c, Print(decimalText, tree, 0, format)) == Success(ValueOf(tree))
  {
    hide Document, ValidLayout, LayoutValue, LayoutText, LayoutOf;
    var l, t := LayoutOf(decimalText, tree, 0, format), Print(decimalText, tree, 0, format);
    LayoutOfTree(c, decimalText, tree, 0, format);
    assert t == "" + LayoutText(l) + "";
    SpacesAreSpace(0, format);
    DocumentComplete(c, t, ValueOf(tree), "", l, "");
  }

  ghost predicate DistinctKeys(tree: Tree)
    decreases tree
  {
    match tree
    case Scalar(v) => !v.Array? && !v.Object?
    case List(items) => forall item | item in items :: DistinctKeys(item)
    case Table(entries) =>
      && (forall e: Entry | e in entries :: DistinctKeys(e.value))
      && forall i, j | 0 <= i < j < |entries| :: entries[i].key != entries[j].key
  }

  // Values without decimals, and with every integer a json::Integer, are
  // printable in every order.
  lemma {:induction false} ExactPrintable(c: Conversions, decimalText: real -> string, tree: Tree)
    requires DistinctKeys(tree) && Exact(ValueOf(tree))
    ensures Printable(c, decimalText, tree)
    decreases tree
  {
    hide TokenValue;
    match tree
    case Scalar(v) =>
    case List(items) => ExactItems(c, decimalText, items);
    case Table(entries) => ExactEntries(c, decimalText, entries, {});
  }

  lemma {:induction false} ExactItems(c: Conversions, decimalText: real -> string, items: seq<Tree>)
    requires forall item | item in items :: DistinctKeys(item)
    requires forall v | v in ListValue(items) :: Exact(v)
    ensures PrintableItems(c, decimalText, items)
    decreases items
  {
    hide TokenValue, Printable;
    if items != [] {
      assert ListValue(items)[0] == ValueOf(items[0]) && ValueOf(items[0]) in ListValue(items);
      forall v | v in ListValue(items[1..]) ensures v in ListValue(items) {}
      ExactPrintable(c, decimalText, items[0]);
      ExactItems(c, decimalText, items[1..]);
    }
  }

  lemma {:induction false} ExactEntries(c: Conversions, decimalText: real -> string, entries: seq<Entry>,
                                        seen: set<string>)
    requires forall e: Entry | e in entries :: DistinctKeys(e.value) && e.key !in seen
    requires forall i, j | 0 <= i < j < |entries| :: entries[i].key != entries[j].key
    requires forall k | k in TableValue(entries) :: Exact(TableValue(entries)[k])
    ensures PrintableEntries(c, decimalText, entries, seen)
    decreases entries
  {
    hide TokenValue, Printable;
    if entries != [] {
      var e, rest := entries[0], entries[1..];
      assert e.key in TableValue(entries);
      TableKeys(rest);
      forall k | k in TableValue(rest) ensures Exact(TableValue(rest)[k]) {
        assert k != e.key && k in TableValue(entries) && TableValue(entries)[k] == TableValue(rest)[k];
      }
      ExactPrintable(c, decimalText, e.value);
      ExactEntries(c, decimalText, rest, seen + {e.key});
    }
  }

  lemma {:induction false} TableKeys(entries: seq<Entry>)
    ensures forall k | k in TableValue(entries) :: exists i | 0 <= i < |entries| :: entries[i].key == k
    decreases entries
  {
    if entries != [] {
      TableKeys(entries[1..]);
      forall k | k in TableValue(entries) ensures exists i | 0 <= i < |entries| :: entries[i].key == k {
        if k == entries[0].key {
          assert entries[0].key == k;
        } else {
          assert k in TableValue(entries[1..]);
          var i :| 0 <= i < |entries[1..]| && entries[1..][i].key == k;
          assert entries[i + 1].key == k;
        }
      }
    }
  }

  // Every listing of the members of an object is an order of that object.
  lemma {:induction false} AnyOrder(members: map<string, Value>, entries: seq<Entry>, seen: set<string>)
    requires forall i, j | 0 <= i < j < |entries| :: entries[i].key != entries[j].key
    requires forall i | 0 <= i < |entries| :: entries[i].key !in seen
    requires forall i | 0 <= i < |entries| ::
      entries[i].key in members && members[entries[i].key] == ValueOf(entries[i].value)
    requires forall k | k in members :: k in seen || exists i | 0 <= i < |entries| :: entries[i].key == k
    ensures TableValue(entries) == members - seen
    decreases entries
  {
    hide ValueOf;
    if entries == [] {
      assert members - seen == map[];
    } else {
      var e := entries[0];
      var rest := entries[1..];
      forall k | k in members ensures k in seen + {e.key} || exists i | 0 <= i < |rest| :: rest[i].key == k {
        if k !in seen {
          var i :| 0 <= i < |entries| && entries[i].key == k;
          assert i == 0 || rest[i - 1].key == k;
        }
      }
      AnyOrder(members, rest, seen + {e.key});
      assert (members - (seen + {e.key}))[e.key := members[e.key]] == members - seen;
    }
  }

  // ---------------------------------------------------------------- there is an order

  // Some order for the members of every object.
  ghost function SomeOrder(v: Value): Tree
    decreases v, 1, 0
  {
    match v
    case Array(elements) => List(seq(|elements|, i requires 0 <= i < |elements| => SomeOrder(elements[i])))
    case Object(members) => Table(SomeEntries(v, members.Keys))
    case _ => Scalar(v)
  }

  ghost function SomeEntries(v: Value, keys: set<string>): seq<Entry>
    requires v.Object? && keys <= v.members.Keys
    decreases v, 0, |keys|
  {
    if keys == {} then []
    else
      var k :| k in keys;
      [Entry(k, SomeOrder(v.members[k]))] + SomeEntries(v, keys - {k})
  }

  // The entries list the members under these keys, each once.
  ghost predicate Lists(es: seq<Entry>, members: map<string, Value>, keys: set<string>)
    requires keys <= members.Keys
  {
    && (forall i | 0 <= i < |es| ::
          es[i].key in keys && members[es[i].key] == ValueOf(es[i].value) && DistinctKeys(es[i].value))
    && (forall i, j | 0 <= i < j < |es| :: es[i].key != es[j].key)
    && (forall k | k in keys :: exists i | 0 <= i < |es| :: es[i].key == k)
  }

  lemma ListsMore(e: Entry, rest: seq<Entry>, members: map<string, Value>, keys: set<string>)
    requires keys <= members.Keys && e.key in keys && Lists(rest, members, keys - {e.key})
    requires members[e.key] == ValueOf(e.value) && DistinctKeys(e.value)
    ensures Lists([e] + rest, members, keys)
  {
    hide ValueOf, DistinctKeys;
    var es := [e] + rest;
    assert es[0] == e && forall i | 1 <= i < |es| :: es[i] == rest[i - 1];
    forall k | k in keys ensures exists i | 0 <= i < |es| :: es[i].key == k {
      if k != e.key {
        assert k in keys - {e.key};
        var i :| 0 <= i < |rest| && rest[i].key == k;
        assert es[i + 1].key == k;
      } else {
        assert es[0].key == k;
      }
    }
  }

  lemma TableRenders(members: map<string, Value>, es: seq<Entry>)
    requires Lists(es, members, members.Keys)
    ensures ValueOf(Table(es)) == Object(members) && DistinctKeys(Table(es))
  {
    AnyOrder(members, es, {});
    assert members - {} == members;
  }

  lemma ListRenders(elements: seq<Value>, items: seq<Tree>)
    requires |items| == |elements|
    requires forall i | 0 <= i < |items| :: ValueOf(items[i]) == elements[i] && DistinctKeys(items[i])
    ensures ValueOf(List(items)) == Array(elements) && DistinctKeys(List(items))
  {
    ListValueOf(items, elements);
  }

  lemma {:induction false} SomeOrderRenders(v: Value)
    ensures ValueOf(SomeOrder(v)) == v && DistinctKeys(SomeOrder(v))
    decreases v, 1, 0
  {
    hide ValueOf, DistinctKeys, SomeEntries, Lists;
    match v {
      case Array(elements) =>
        var items := SomeOrder(v).items;
        forall i | 0 <= i < |items| ensures ValueOf(items[i]) == elements[i] && DistinctKeys(items[i]) {
          SomeOrderRenders(elements[i]);
        }
        ListRenders(elements, items);
      case Object(members) =>
        SomeEntriesList(v, members.Keys);
        TableRenders(members, SomeEntries(v, members.Keys));
      case _ =>
        ScalarRenders(v);
    }
  }

  lemma ScalarRenders(v: Value)
    requires !v.Array? && !v.Object?
    ensures ValueOf(Scalar(v)) == v && DistinctKeys(Scalar(v))
  {
  }

  lemma SomeEntriesStep(v: Value, keys: set<string>) returns (k: string)
    requires v.Object? && keys <= v.members.Keys && keys != {}
    ensures k in keys && SomeEntries(v, keys) == [Entry(k, SomeOrder(v.members[k]))] + SomeEntries(v, keys - {k})
  {
    k := SomeEntries(v, keys)[0].key;
  }

  lemma {:induction false} SomeEntriesList(v: Value, keys: set<string>)
    requires v.Object? && keys <= v.members.Keys
    ensures Lists(SomeEntries(v, keys), v.members, keys)
    decreases v, 0, |keys|
  {
    hide ValueOf, DistinctKeys, SomeOrder;
    if keys != {} {
      var k := SomeEntriesStep(v, keys);
      SomeOrderRenders(v.members[k]);
      SomeEntriesList(v, keys - {k});
      ListsMore(Entry(k, SomeOrder(v.members[k])), SomeEntries(v, keys - {k}), v.members, keys);
    }
  }

  lemma {:induction false} ListValueOf(trees: seq<Tree>, values: seq<Value>)
    requires |trees| == |values| && forall i | 0 <= i < |trees| :: ValueOf(trees[i]) == values[i]
    ensures ListValue(trees) == values
  {
    hide ValueOf;
    if trees != [] { ListValueOf(trees[1..], values[1..]); }
  }
}
