// lsp/json/json.cpp, class Parser: a loop over an explicit stack of states,
// each with a pointer into the value being built.  A pointer is the path from
// the root to the value it addresses.  The machine is proved to compute
// JsonGrammar.Document, errors and error offsets included.
module JsonParser {
  import opened Wrappers
  import opened Text
  import opened Json
  import opened JsonLiteral
  import opened JsonGrammar

  // ---------------------------------------------------------------- pointers

  datatype Step = Index(i: nat) | Key(key: string)

  type Path = seq<Step>

  // The path addresses a value of the tree, through the last element of every
  // array on the way: the rightmost spine.
  ghost predicate OnSpine(v: Value, path: Path)
    decreases |path|
  {
    path == [] ||
    match path[0]
    case Index(i) => v.Array? && i + 1 == |v.elements| && OnSpine(v.elements[i], path[1..])
    case Key(key) => v.Object? && key in v.members && OnSpine(v.members[key], path[1..])
  }

  // The value a pointer addresses.
  function Target(v: Value, path: Path): Value
    requires OnSpine(v, path)
    decreases |path|
  {
    if path == [] then v
    else match path[0]
      case Index(i) => Target(v.elements[i], path[1..])
      case Key(key) => Target(v.members[key], path[1..])
  }

  // Writing through a pointer.
  function Assigned(v: Value, path: Path, x: Value): Value
    requires OnSpine(v, path)
    decreases |path|
  {
    if path == [] then x
    else match path[0]
      case Index(i) => Array(v.elements[i := Assigned(v.elements[i], path[1..], x)])
      case Key(key) => Object(v.members[key := Assigned(v.members[key], path[1..], x)])
  }

  // ---------------------------------------------------------------- unfinished values

  // A container that is being filled, around the place being filled.
  datatype Frame = InElements(done: seq<Value>) | InMembers(members: map<string, Value>, key: string)

  function Wrap(f: Frame, x: Value): Value {
    match f
    case InElements(done) => Array(done + [x])
    case InMembers(members, key) => Object(members[key := x])
  }

  function StepInto(f: Frame): Step {
    match f
    case InElements(done) => Index(|done|)
    case InMembers(_, key) => Key(key)
  }

  // The tree with x in the place being filled, outermost container first.
  function Plug(frames: seq<Frame>, x: Value): Value {
    if frames == [] then x else Wrap(frames[0], Plug(frames[1..], x))
  }

  function PathTo(frames: seq<Frame>): Path {
    if frames == [] then [] else [StepInto(frames[0])] + PathTo(frames[1..])
  }

  // The path to the place being filled is on the spine, reads what is there,
  // and writing through it changes nothing else.
  lemma {:induction false} PlugPath(frames: seq<Frame>, x: Value, y: Value)
    ensures OnSpine(Plug(frames, x), PathTo(frames))
    ensures Target(Plug(frames, x), PathTo(frames)) == x
    ensures Assigned(Plug(frames, x), PathTo(frames), y) == Plug(frames, y)
  {
    if frames != [] {
      var inner := frames[1..];
      PlugPath(inner, x, y);
      assert PathTo(frames)[1..] == PathTo(inner);
      if frames[0].InElements? {
        var done := frames[0].done;
        assert (done + [Plug(inner, x)])[|done| := Plug(inner, y)] == done + [Plug(inner, y)];
      } else {
        var f := frames[0];
        assert f.members[f.key := Plug(inner, x)][f.key := Plug(inner, y)] == f.members[f.key := Plug(inner, y)];
      }
    }
  }

  lemma {:induction false} PlugInnermost(frames: seq<Frame>, f: Frame, x: Value)
    ensures Plug(frames + [f], x) == Plug(frames, Wrap(f, x))
    ensures PathTo(frames + [f]) == PathTo(frames) + [StepInto(f)]
  {
    if frames == [] {
      assert frames + [f] == [f] && [f][1..] == [];
    } else {
      assert (frames + [f])[1..] == frames[1..] + [f];
      PlugInnermost(frames[1..], f, x);
    }
  }

  lemma {:induction false} SpinePrefix(v: Value, a: Path, b: Path)
    requires a <= b && OnSpine(v, b)
    ensures OnSpine(v, a)
    decreases |a|
  {
    if a != [] {
      assert a[0] == b[0] && a[1..] <= b[1..];
      match a[0]
      case Index(i) => SpinePrefix(v.elements[i], a[1..], b[1..]);
      case Key(key) => SpinePrefix(v.members[key], a[1..], b[1..]);
    }
  }

  // ---------------------------------------------------------------- the stack

  datatype State = AtValue | AtObject | AtObjectKey | AtArray

  datatype Entry = Entry(context: State, value: Path)

  // What the machine is doing: about to read a value; between the elements or
  // members of a container; about to read a key; done.
  datatype Mode =
    | Fresh
    | Elements(done: seq<Value>)
    | Members(members: map<string, Value>)
    | KeyOf(members: map<string, Value>)
    | Finished(value: Value)

  // What stands in the place being filled.
  function Focus(mode: Mode): Value {
    match mode
    case Fresh => Null
    case Elements(done) => Array(done)
    case Members(members) => Object(members)
    case KeyOf(members) => Object(members)
    case Finished(value) => value
  }

  function TopEntries(mode: Mode, path: Path): seq<Entry> {
    match mode
    case Fresh => [Entry(AtValue, path)]
    case Elements(_) => [Entry(AtValue, path), Entry(AtArray, path)]
    case Members(_) => [Entry(AtValue, path), Entry(AtObject, path)]
    case KeyOf(_) => [Entry(AtValue, path), Entry(AtObject, path), Entry(AtObjectKey, path)]
    case Finished(_) => []
  }

  function ContainerState(f: Frame): State {
    if f.InElements? then AtArray else AtObject
  }

  // Two entries for every container being filled.
  function LowerEntries(frames: seq<Frame>): seq<Entry> {
    if frames == [] then []
    else
      var outer := frames[..|frames| - 1];
      LowerEntries(outer)
      + [Entry(AtValue, PathTo(outer)), Entry(ContainerState(frames[|frames| - 1]), PathTo(outer))]
  }

  function StackOf(frames: seq<Frame>, mode: Mode): seq<Entry> {
    LowerEntries(frames) + TopEntries(mode, PathTo(frames))
  }

  // No pointer of the stack leads strictly inside the value at path: that value
  // may be overwritten, or grow and move its elements.
  ghost predicate NothingInside(stack: seq<Entry>, path: Path) {
    forall e | e in stack :: !(path < e.value)
  }

  lemma {:induction false} LowerPrefixes(frames: seq<Frame>)
    ensures forall e | e in LowerEntries(frames) :: e.value <= PathTo(frames)
  {
    if frames != [] {
      var outer := frames[..|frames| - 1];
      LowerPrefixes(outer);
      assert frames == outer + [frames[|frames| - 1]];
      PlugInnermost(outer, frames[|frames| - 1], Null);
    }
  }

  // Every pointer of the stack addresses a value on the spine, and none leads
  // inside the value on top.
  lemma StackPointers(frames: seq<Frame>, mode: Mode)
    ensures forall e | e in StackOf(frames, mode) ::
      e.value <= PathTo(frames) && OnSpine(Plug(frames, Focus(mode)), e.value)
    ensures NothingInside(StackOf(frames, mode), PathTo(frames))
  {
    hide StackOf, Plug, OnSpine, Focus;
    StackPrefixes(frames, mode);
    PlugPath(frames, Focus(mode), Null);
    forall e | e in StackOf(frames, mode)
      ensures e.value <= PathTo(frames) && OnSpine(Plug(frames, Focus(mode)), e.value)
    {
      SpinePrefix(Plug(frames, Focus(mode)), e.value, PathTo(frames));
    }
  }

  lemma StackPrefixes(frames: seq<Frame>, mode: Mode)
    ensures forall e | e in StackOf(frames, mode) :: e.value <= PathTo(frames)
  {
    hide LowerEntries, PathTo;
    LowerPrefixes(frames);
  }

  lemma LowerInnermost(frames: seq<Frame>, f: Frame)
    ensures LowerEntries(frames + [f]) ==
      LowerEntries(frames) + [Entry(AtValue, PathTo(frames)), Entry(ContainerState(f), PathTo(frames))]
  {
    assert (frames + [f])[..|frames|] == frames;
  }

  // ---------------------------------------------------------------- what remains to be done

  // The outcome of the whole parse once the value in the innermost place has
  // been parsed with result r.
  function Continue(c: Conversions, t: string, frames: seq<Frame>, r: Result<Parsed, Error>): ParseResult
    requires r.Success? ==> r.value.next <= |t|
    decreases |frames|
  {
    match r
    case Failure(e) => Failure(e)
    case Success(p) =>
      if frames == [] then Finish(t, p.next, p.value)
      else
        var outer := frames[..|frames| - 1];
        match frames[|frames| - 1]
        case InElements(done) => Continue(c, t, outer, ParseElements(c, t, p.next, done + [p.value]))
        case InMembers(members, key) => Continue(c, t, outer, ParseMembers(c, t, p.next, members[key := p.value]))
  }

  // A key, its value, and the rest of the object.
  function ParseFromKey(c: Conversions, t: string, p: nat, members: map<string, Value>): (r: Result<Parsed, Error>)
    requires p <= |t| + 1
    ensures r.Success? ==> r.value.next <= |t|
  {
    var key :- ParseKey(t, p, members.Keys);
    var member :- ParseValue(c, t, key.next);
    ParseMembers(c, t, member.next, members[key.key := member.value])
  }

  // The outcome of the parse from a state of the machine.
  function Outcome(c: Conversions, t: string, p: nat, frames: seq<Frame>, mode: Mode): ParseResult
    requires p <= |t| + 1
    requires mode.Finished? ==> p <= |t|
  {
    match mode
    case Fresh => Continue(c, t, frames, ParseValue(c, t, p))
    case Elements(done) => Continue(c, t, frames, ParseElements(c, t, p, done))
    case Members(members) => Continue(c, t, frames, ParseMembers(c, t, p, members))
    case KeyOf(members) => Continue(c, t, frames, ParseFromKey(c, t, p, members))
    case Finished(value) => Finish(t, p, value)
  }

  lemma SkipTwice(t: string, p: nat)
    ensures Span(t, Span(t, p, Space), Space) == Span(t, p, Space)
  {
  }

  lemma SkipFirstValue(c: Conversions, t: string, p: nat)
    requires p <= |t| + 1
    ensures ParseValue(c, t, Span(t, p, Space)) == ParseValue(c, t, p)
  {
    hide ParseValue, Span;
    SkipTwice(t, p);
    var q := Span(t, p, Space);
    if q < |t| {
      ValueStep(c, t, p, q);
      ValueStep(c, t, q, q);
    } else {
      ValueAtEnd(c, t, p);
      ValueAtEnd(c, t, q);
    }
  }

  lemma ValueAtEnd(c: Conversions, t: string, p: nat)
    requires p <= |t| + 1 && Span(t, p, Space) >= |t|
    ensures ParseValue(c, t, p) == Failure(ParseError(UnexpectedEnd, Span(t, p, Space)))
  {
    hide ParseScalar, ParseElements, ParseMembers, Span;
  }

  lemma SkipFirstElements(c: Conversions, t: string, p: nat, done: seq<Value>)
    requires p <= |t| + 1
    ensures ParseElements(c, t, Span(t, p, Space), done) == ParseElements(c, t, p, done)
  {
    hide Separator, ParseValue;
    SkipTwice(t, p);
  }

  lemma SkipFirstMembers(c: Conversions, t: string, p: nat, members: map<string, Value>)
    requires p <= |t| + 1
    ensures ParseMembers(c, t, Span(t, p, Space), members) == ParseMembers(c, t, p, members)
  {
    hide Separator, ParseValue, ParseKey;
    SkipTwice(t, p);
  }

  lemma SkipFirstParseKey(t: string, p: nat, seen: set<string>)
    requires p <= |t| + 1
    ensures ParseKey(t, Span(t, p, Space), seen) == ParseKey(t, p, seen)
  {
    hide LiteralValue, StringEnd;
    SkipTwice(t, p);
  }

  lemma SkipFirstKey(c: Conversions, t: string, p: nat, members: map<string, Value>)
    requires p <= |t| + 1
    ensures ParseFromKey(c, t, Span(t, p, Space), members) == ParseFromKey(c, t, p, members)
  {
    hide ParseKey, ParseValue, ParseMembers, Span;
    SkipFirstParseKey(t, p, members.Keys);
  }

  // Whitespace makes no difference to any state.
  lemma SkipFirst(c: Conversions, t: string, p: nat, frames: seq<Frame>, mode: Mode)
    requires p <= |t| + 1 && (mode.Finished? ==> p <= |t|)
    ensures Outcome(c, t, Span(t, p, Space), frames, mode) == Outcome(c, t, p, frames, mode)
  {
    hide Continue, ParseValue, ParseElements, ParseMembers, ParseFromKey, Span;
    SkipTwice(t, p);
    match mode
    case Fresh => SkipFirstValue(c, t, p);
    case Elements(done) => SkipFirstElements(c, t, p, done);
    case Members(members) => SkipFirstMembers(c, t, p, members);
    case KeyOf(members) => SkipFirstKey(c, t, p, members);
    case Finished(_) =>
  }

  // At the end of the text every unfinished state fails, also one past the end.
  lemma EndFails(c: Conversions, t: string, p: nat, frames: seq<Frame>, mode: Mode)
    requires |t| <= p <= |t| + 1 && !mode.Finished?
    ensures Outcome(c, t, p, frames, mode) == Failure(ParseError(UnexpectedEnd, p))
  {
    hide ParseScalar, Separator, LiteralValue, StringEnd;
  }

  // ---------------------------------------------------------------- the machine

  class Parser {
    const text: string
    const conversions: Conversions
    var pos: nat
    var stateStack: seq<Entry>
    var result: Value
    ghost var frames: seq<Frame>
    ghost var mode: Mode

    ghost predicate Valid()
      reads this
    {
      && pos <= |text| + 1
      && (mode.Finished? ==> frames == [] && pos <= |text|)
      && result == Plug(frames, Focus(mode))
      && stateStack == StackOf(frames, mode)
    }

    ghost function Remaining(): ParseResult
      reads this
      requires Valid()
    {
      Outcome(conversions, text, pos, frames, mode)
    }

    // Bytes left, then whether the state on top is Object or Array.
    ghost function Work(): (nat, nat)
      reads this
      requires Valid()
    {
      (|text| + 1 - pos, if mode.Elements? || mode.Members? then 1 else 0)
    }

    ghost predicate LessWork(before: (nat, nat))
      reads this
      requires Valid()
    {
      Work().0 < before.0 || (Work().0 == before.0 && Work().1 < before.1)
    }

    constructor (text: string, conversions: Conversions)
      ensures Valid() && this.text == text && this.conversions == conversions
      ensures pos == 0 && mode == Fresh && frames == []
    {
      this.text := text;
      this.conversions := conversions;
      pos := 0;
      result := Null;
      stateStack := [Entry(AtValue, [])];
      frames := [];
      mode := Fresh;
    }

    // ---- scanning

    method SkipWhitespace()
      requires pos <= |text| + 1
      modifies this`pos
      ensures pos == Span(text, old(pos), Space)
    {
      while pos < |text| && IsSpace(text[pos])
        invariant Span(text, pos, Space) == Span(text, old(pos), Space)
        invariant pos <= |text| + 1
      {
        pos := pos + 1;
      }
    }

    method ParseString() returns (r: Result<string, Error>)
      requires pos <= |text|
      modifies this`pos
      ensures pos <= |text|
      ensures r == if old(pos) >= |text| || text[old(pos)] != '"' then Failure(ParseError(StringExpected, old(pos)))
                   else match StringEnd(text, old(pos) + 1, false)
                     case Failure(e) => Failure(e)
                     case Success(end) => Success(LiteralValue(text[old(pos)..end]))
      ensures r.Success? ==> StringEnd(text, old(pos) + 1, false) == Success(pos)
    {
      hide LiteralValue;
      if pos >= |text| || text[pos] != '"' {
        return Failure(ParseError(StringExpected, pos));
      }
      var stringStart := pos;
      pos := pos + 1;
      var hasEscape := false;
      while true
        invariant stringStart < pos <= |text|
        invariant StringEnd(text, pos, hasEscape) == StringEnd(text, stringStart + 1, false)
        decreases |text| - pos
      {
        if pos >= |text| || text[pos] == '\n' {
          return Failure(ParseError(UnmatchedQuote, pos));
        }
        if !hasEscape && text[pos] == '"' {
          pos := pos + 1;
          break;
        }
        hasEscape := !hasEscape && text[pos] == '\\';
        pos := pos + 1;
      }
      var s := FromStringLiteral(text[stringStart..pos]);
      r := Success(s);
    }

    method ParseNumber() returns (r: ParseResult)
      requires pos < |text|
      modifies this`pos
      ensures pos == Span(text, old(pos), NumberChar)
      ensures r == NumberValue(conversions, text[old(pos)..pos], old(pos))
    {
      hide IsDecimalToken;
      var numberStart := pos;
      var isDecimal := false;
      NoDecimal(text, pos);
      while pos < |text| && (IsAlnum(text[pos]) || text[pos] == '-' || text[pos] == '.')
        invariant numberStart <= pos <= |text|
        invariant Span(text, pos, NumberChar) == Span(text, numberStart, NumberChar)
        invariant isDecimal == IsDecimalToken(text[numberStart..pos])
      {
        DecimalMore(text, numberStart, pos);
        if !isDecimal && (text[pos] == '.' || text[pos] == 'e' || text[pos] == 'E') {
          isDecimal := true;
        }
        pos := pos + 1;
      }
      var token := text[numberStart..pos];
      if isDecimal {
        var number := conversions.stod(token);
        if number.Throws? {
          return Failure(StodError);
        }
        if number.used < |token| {
          return Failure(ParseError(InvalidNumber(token), numberStart));
        }
        return Success(Decimal(number.value));
      }
      var intValue := IntTextValue(token);
      if intValue.None? || !IsInt64(intValue.value) {
        return Failure(ParseError(InvalidNumber(token), numberStart));
      }
      if intValue.value < INT32_MIN || intValue.value > INT32_MAX {
        return Success(Decimal(conversions.nearest(intValue.value)));
      }
      return Success(Integer(intValue.value));
    }

    method ParseIdentifier() returns (r: ParseResult)
      requires pos < |text|
      modifies this`pos
      ensures pos == Span(text, old(pos), Alnum)
      ensures r == match Keyword(text[old(pos)..pos])
        case Some(v) => Success(v)
        case None => Failure(ParseError(UnexpectedIdentifier(text[old(pos)..pos]), pos))
    {
      var idStart := pos;
      while pos < |text| && IsAlnum(text[pos])
        invariant idStart <= pos <= |text|
        invariant Span(text, pos, Alnum) == Span(text, idStart, Alnum)
      {
        pos := pos + 1;
      }
      var identifier := text[idStart..pos];
      if identifier == "true" {
        return Success(Boolean(true));
      }
      if identifier == "false" {
        return Success(Boolean(false));
      }
      if identifier == "null" {
        return Success(Null);
      }
      return Failure(ParseError(UnexpectedIdentifier(identifier), pos));
    }

    method ParseSimpleValue() returns (r: ParseResult)
      requires pos < |text|
      modifies this`pos
      ensures match ParseScalar(conversions, text, old(pos))
        case Success(p) => r == Success(p.value) && pos == p.next
        case Failure(e) => r == Failure(e)
    {
      hide LiteralValue, StringEnd, NumberValue, Keyword;
      if text[pos] == '"' {
        var s := ParseString();
        if s.Success? {
          return Success(String(s.value));
        }
        return Failure(s.error);
      }
      if IsDigit(text[pos]) || text[pos] == '-' {
        r := ParseNumber();
        return;
      }
      if IsAlpha(text[pos]) {
        r := ParseIdentifier();
        return;
      }
      return Failure(ParseError(UnexpectedToken, pos));
    }

    // ---- the stack

    method PushState(context: State, value: Path)
      modifies this`stateStack
      ensures stateStack == old(stateStack) + [Entry(context, value)]
    {
      stateStack := stateStack + [Entry(context, value)];
    }

    method PopState()
      requires stateStack != []
      modifies this`stateStack
      ensures stateStack == old(stateStack)[..|old(stateStack)| - 1]
    {
      stateStack := stateStack[..|stateStack| - 1];
    }

    // Overwrites the value a pointer addresses, which may move or destroy
    // everything inside it.
    method Write(path: Path, value: Value)
      requires OnSpine(result, path) && NothingInside(stateStack, path)
      modifies this`result
      ensures result == Assigned(old(result), path, value)
    {
      result := Assigned(result, path, value);
    }

    // The value in the place being filled is complete: the machine is back in
    // the container around it.
    ghost method Complete(value: Value)
      requires mode != Finished(value) && pos <= |text|
      requires result == Plug(frames, value) && stateStack == LowerEntries(frames)
      modifies this`frames, this`mode
      ensures Valid()
      ensures Remaining() == Continue(conversions, text, old(frames), Success(Parsed(value, pos)))
    {
      hide ParseElements, ParseMembers, Finish, Plug, LowerEntries, PathTo, Continue;
      ContinueStep(conversions, text, frames, Parsed(value, pos));
      if frames == [] {
        LowerNothing();
        PlugNothing(value);
        mode := Finished(value);
      } else {
        var f := frames[|frames| - 1];
        frames := frames[..|frames| - 1];
        assert old(frames) == frames + [f];
        PlugInnermost(frames, f, value);
        LowerInnermost(frames, f);
        mode := if f.InElements? then Elements(f.done + [value]) else Members(f.members[f.key := value]);
      }
    }

    // The comma after an element or a member that is not the last.
    method SkipComma(close: char) returns (thrown: Option<Error>)
      requires pos < |text|
      modifies this`pos
      ensures match Separator(text, old(pos), false, close)
        case Success(start) => thrown == None && pos == start
        case Failure(e) => thrown == Some(e)
    {
      if text[pos] != ',' {
        return Some(ParseError(ExpectedComma, pos));
      }
      var comma := pos;
      pos := pos + 1;
      SkipWhitespace();
      if pos < |text| && text[pos] == close {
        return Some(ParseError(TrailingComma, comma));
      }
      thrown := None;
    }

    // ---- the four states

    method HandleValue() returns (thrown: Option<Error>)
      requires Valid() && mode.Fresh?
      requires pos < |text| && Span(text, pos, Space) == pos
      modifies this
      ensures thrown.Some? ==> old(Remaining()) == Failure(thrown.value)
      ensures thrown.None? ==> Valid() && Remaining() == old(Remaining()) && LessWork(old(Work()))
    {
      hide Plug, OnSpine, Assigned, LowerEntries, Continue, ParseScalar, Outcome, Span;
      var path := stateStack[|stateStack| - 1].value;
      assert path == PathTo(frames);
      ValueHere(conversions, text, frames, pos);
      StackPointers(frames, mode);
      if text[pos] == '{' {
        pos := pos + 1;
        PlugPath(frames, Null, Object(map[]));
        Write(path, Object(map[]));
        PushState(AtObject, path);
        mode := Members(map[]);
      } else if text[pos] == '[' {
        pos := pos + 1;
        PlugPath(frames, Null, Array([]));
        Write(path, Array([]));
        PushState(AtArray, path);
        mode := Elements([]);
      } else {
        var value := ParseSimpleValue();
        if value.Failure? { return Some(value.error); }
        PlugPath(frames, Null, value.value);
        Write(path, value.value);
        PopState();
        assert stateStack == LowerEntries(frames);
        Complete(value.value);
      }
      thrown := None;
    }

    method HandleObject() returns (thrown: Option<Error>)
      requires Valid() && mode.Members?
      requires pos < |text| && Span(text, pos, Space) == pos
      modifies this
      ensures thrown.Some? ==> old(Remaining()) == Failure(thrown.value)
      ensures thrown.None? ==> Valid() && Remaining() == old(Remaining()) && LessWork(old(Work()))
    {
      hide Plug, OnSpine, Assigned, LowerEntries, Continue, Outcome, Separator, Span, Target;
      var path := stateStack[|stateStack| - 1].value;
      ghost var members := mode.members;
      MembersHere(conversions, text, frames, pos, members);
      PlugPath(frames, Object(members), Null);
      if text[pos] == '}' {
        pos := pos + 1;
        PopState();
        PopState();
        assert stateStack == LowerEntries(frames);
        Complete(Object(members));
      } else {
        if Target(result, path).members != map[] {
          thrown := SkipComma('}');
          if thrown.Some? { return; }
        } else {
          FirstSeparator(text, pos, '}');
        }
        PushState(AtObjectKey, path);
        mode := KeyOf(members);
      }
      thrown := None;
    }

    method HandleObjectKey() returns (thrown: Option<Error>)
      requires Valid() && mode.KeyOf?
      requires pos < |text| && Span(text, pos, Space) == pos
      modifies this
      ensures thrown.Some? ==> old(Remaining()) == Failure(thrown.value)
      ensures thrown.None? ==> Valid() && Remaining() == old(Remaining()) && LessWork(old(Work()))
    {
      hide Plug, OnSpine, Assigned, LowerEntries, Outcome, Target, LiteralValue, StringEnd, Span, ParseKey;
      var path := stateStack[|stateStack| - 1].value;
      ghost var members := mode.members;
      PlugPath(frames, Object(members), Object(members));
      KeyHere(text, pos, members.Keys);
      KeyFails(conversions, text, frames, pos, members);
      var keyPos := pos;
      var current := Target(result, path).members;
      var literal := ParseString();
      if literal.Failure? { return Some(literal.error); }
      var key := literal.value;
      if key in current { return Some(ParseError(DuplicateKey(key), keyPos)); }
      SkipWhitespace();
      if pos < |text| && text[pos] != ':' { return Some(ParseError(ExpectedColon, pos)); }
      pos := pos + 1;
      ContinueMember(conversions, text, frames, keyPos, members, ParsedKey(key, pos));
      OpenMember(path, current, key);
      thrown := None;
    }

    // operator[] inserts a null value, which the new state points to.
    method OpenMember(path: Path, current: map<string, Value>, key: string)
      requires Valid() && mode == KeyOf(current) && path == PathTo(frames)
      modifies this`result, this`stateStack, this`frames, this`mode
      ensures Valid() && mode == Fresh && frames == old(frames) + [InMembers(current, key)]
    {
      hide Plug, OnSpine, Assigned, LowerEntries, PathTo;
      PopState();
      StackPointers(frames, Members(current));
      PlugPath(frames, Object(current), Object(current[key := Null]));
      assert stateStack == StackOf(frames, Members(current));
      Write(path, Object(current[key := Null]));
      PushState(AtValue, path + [Key(key)]);
      PlugInnermost(frames, InMembers(current, key), Null);
      LowerInnermost(frames, InMembers(current, key));
      frames := frames + [InMembers(current, key)];
      mode := Fresh;
    }

    method HandleArray() returns (thrown: Option<Error>)
      requires Valid() && mode.Elements?
      requires pos < |text| && Span(text, pos, Space) == pos
      modifies this
      ensures thrown.Some? ==> old(Remaining()) == Failure(thrown.value)
      ensures thrown.None? ==> Valid() && Remaining() == old(Remaining()) && LessWork(old(Work()))
    {
      hide Plug, OnSpine, Assigned, LowerEntries, Continue, Separator, Target, Span, Outcome;
      var path := stateStack[|stateStack| - 1].value;
      ghost var done := mode.done;
      ElementsHere(conversions, text, frames, pos, done);
      PlugPath(frames, Array(done), Null);
      if text[pos] == ']' {
        pos := pos + 1;
        PopState();
        PopState();
        assert stateStack == LowerEntries(frames);
        Complete(Array(done));
      } else {
        var current := Target(result, path).elements;
        ghost var q := pos;
        if current != [] {
          thrown := SkipComma(']');
          if thrown.Some? { return; }
        } else {
          FirstSeparator(text, pos, ']');
        }
        ContinueElement(conversions, text, frames, q, done, pos);
        OpenElement(path, current);
      }
      thrown := None;
    }

    // emplace_back moves the elements of the array.
    method OpenElement(path: Path, current: seq<Value>)
      requires Valid() && mode == Elements(current) && path == PathTo(frames)
      modifies this`result, this`stateStack, this`frames, this`mode
      ensures Valid() && mode == Fresh && frames == old(frames) + [InElements(current)]
    {
      hide Plug, OnSpine, Assigned, LowerEntries, PathTo;
      StackPointers(frames, mode);
      PlugPath(frames, Array(current), Array(current + [Null]));
      Write(path, Array(current + [Null]));
      PushState(AtValue, path + [Index(|current|)]);
      PlugInnermost(frames, InElements(current), Null);
      LowerInnermost(frames, InElements(current));
      frames := frames + [InElements(current)];
      mode := Fresh;
    }

    method Parse() returns (r: ParseResult)
      requires Valid() && pos == 0 && mode == Fresh && frames == []
      modifies this
      ensures r == Document(conversions, text)
    {
      hide Plug, LowerEntries, OnSpine, Assigned, Outcome, Span;
      StartOutcome(conversions, text);
      while stateStack != []
        invariant Valid()
        invariant Remaining() == Document(conversions, text)
        decreases Work().0, Work().1
      {
        ModeOfStack(frames, mode);
        SkipFirst(conversions, text, pos, frames, mode);
        SkipTwice(text, pos);
        SkipWhitespace();
        if pos >= |text| {
          EndFails(conversions, text, pos, frames, mode);
          return Failure(ParseError(UnexpectedEnd, pos));
        }
        var thrown: Option<Error>;
        match stateStack[|stateStack| - 1].context {
          case AtValue => thrown := HandleValue();
          case AtObject => thrown := HandleObject();
          case AtObjectKey => thrown := HandleObjectKey();
          case AtArray => thrown := HandleArray();
        }
        if thrown.Some? {
          return Failure(thrown.value);
        }
      }
      ModeOfStack(frames, mode);
      FinishedOutcome(conversions, text, pos, frames, mode);
      SkipWhitespace();
      if pos < |text| {
        return Failure(ParseError(TrailingCharacters, pos));
      }
      PlugNothing(Focus(mode));
      return Success(result);
    }
  }

  lemma ContinueStep(c: Conversions, t: string, frames: seq<Frame>, p: Parsed)
    requires p.next <= |t|
    ensures frames == [] ==> Continue(c, t, frames, Success(p)) == Finish(t, p.next, p.value)
    ensures frames != [] ==>
      var outer, f := frames[..|frames| - 1], frames[|frames| - 1];
      Continue(c, t, frames, Success(p)) == Continue(c, t, outer,
        if f.InElements? then ParseElements(c, t, p.next, f.done + [p.value])
        else ParseMembers(c, t, p.next, f.members[f.key := p.value]))
  {
    hide ParseElements, ParseMembers, Finish;
  }

  lemma LowerNothing()
    ensures LowerEntries([]) == []
  {
  }

  lemma ContinueFailure(c: Conversions, t: string, frames: seq<Frame>, e: Error)
    ensures Continue(c, t, frames, Failure(e)) == Failure(e)
  {
  }

  // Reading a key leads to reading a value inside one more frame.
  lemma ContinueMember(c: Conversions, t: string, frames: seq<Frame>, p: nat, members: map<string, Value>,
                       key: ParsedKey)
    requires p <= |t| + 1 && ParseKey(t, p, members.Keys) == Success(key)
    ensures Outcome(c, t, p, frames, KeyOf(members)) ==
      Outcome(c, t, key.next, frames + [InMembers(members, key.key)], Fresh)
  {
    hide ParseKey, ParseValue, ParseMembers;
    var inner := frames + [InMembers(members, key.key)];
    assert inner[..|inner| - 1] == frames;
  }

  lemma ContinueElement(c: Conversions, t: string, frames: seq<Frame>, p: nat, done: seq<Value>, start: nat)
    requires p < |t| && Span(t, p, Space) == p && t[p] != ']'
    requires Separator(t, p, done == [], ']') == Success(start)
    ensures Outcome(c, t, p, frames, Elements(done)) == Outcome(c, t, start, frames + [InElements(done)], Fresh)
  {
    hide ParseValue, Separator;
    var inner := frames + [InElements(done)];
    assert inner[..|inner| - 1] == frames;
  }

  lemma NoDecimal(t: string, p: nat)
    requires p <= |t|
    ensures !IsDecimalToken(t[p..p])
  {
  }

  lemma DecimalMore(t: string, p: nat, q: nat)
    requires p <= q < |t|
    ensures IsDecimalToken(t[p..q + 1]) <==> IsDecimalToken(t[p..q]) || t[q] == '.' || t[q] == 'e' || t[q] == 'E'
  {
    assert t[p..q + 1] == t[p..q] + [t[q]];
  }

  lemma FirstSeparator(t: string, q: nat, close: char)
    requires q < |t|
    ensures Separator(t, q, true, close) == Success(q)
  {
  }

  // The branches of HandleArray other than reading an element.
  lemma ElementsHere(c: Conversions, t: string, frames: seq<Frame>, p: nat, done: seq<Value>)
    requires p < |t| && Span(t, p, Space) == p
    ensures t[p] == ']' ==>
      Outcome(c, t, p, frames, Elements(done)) == Continue(c, t, frames, Success(Parsed(Array(done), p + 1)))
    ensures t[p] != ']' && Separator(t, p, done == [], ']').Failure? ==>
      Outcome(c, t, p, frames, Elements(done)) == Failure(Separator(t, p, done == [], ']').error)
  {
    hide ParseElements, Separator, Continue, Span;
    if t[p] == ']' {
      ElementsClose(c, t, p, done);
    } else if Separator(t, p, done == [], ']').Failure? {
      ElementsRefused(c, t, p, done);
      ContinueFailure(c, t, frames, Separator(t, p, done == [], ']').error);
    }
  }

  lemma ElementsRefused(c: Conversions, t: string, p: nat, done: seq<Value>)
    requires p < |t| && Span(t, p, Space) == p && t[p] != ']' && Separator(t, p, done == [], ']').Failure?
    ensures ParseElements(c, t, p, done) == Failure(Separator(t, p, done == [], ']').error)
  {
    hide ParseValue, Separator, Span;
  }

  // The branches of HandleValue.
  lemma ValueHere(c: Conversions, t: string, frames: seq<Frame>, p: nat)
    requires p < |t| && Span(t, p, Space) == p
    ensures t[p] == '{' ==> Outcome(c, t, p, frames, Fresh) == Outcome(c, t, p + 1, frames, Members(map[]))
    ensures t[p] == '[' ==> Outcome(c, t, p, frames, Fresh) == Outcome(c, t, p + 1, frames, Elements([]))
    ensures t[p] != '{' && t[p] != '[' ==>
      var r := ParseScalar(c, t, p);
      Outcome(c, t, p, frames, Fresh) == if r.Failure? then Failure(r.error) else Continue(c, t, frames, r)
  {
    hide ParseValue, ParseScalar, Span, Continue;
    ValueStep(c, t, p, p);
    var r := ParseScalar(c, t, p);
    if r.Failure? {
      ContinueFailure(c, t, frames, r.error);
    }
  }

  // The branches of HandleObject.
  lemma MembersHere(c: Conversions, t: string, frames: seq<Frame>, p: nat, members: map<string, Value>)
    requires p < |t| && Span(t, p, Space) == p
    ensures t[p] == '}' ==>
      Outcome(c, t, p, frames, Members(members)) == Continue(c, t, frames, Success(Parsed(Object(members), p + 1)))
    ensures t[p] != '}' ==>
      var start := Separator(t, p, members == map[], '}');
      Outcome(c, t, p, frames, Members(members)) ==
        if start.Failure? then Failure(start.error) else Outcome(c, t, start.value, frames, KeyOf(members))
  {
    hide ParseMembers, Separator, Continue, Span, ParseFromKey;
    if t[p] == '}' {
      MembersClose(c, t, p, members);
    } else {
      MembersOpen(c, t, p, members);
      var start := Separator(t, p, members == map[], '}');
      if start.Failure? { ContinueFailure(c, t, frames, start.error); }
    }
  }

  lemma MembersOpen(c: Conversions, t: string, p: nat, members: map<string, Value>)
    requires p < |t| && Span(t, p, Space) == p && t[p] != '}'
    ensures var start := Separator(t, p, members == map[], '}');
      ParseMembers(c, t, p, members) ==
        if start.Failure? then Failure(start.error) else ParseFromKey(c, t, start.value, members)
  {
    hide ParseValue, ParseKey, Separator, Span;
  }

  // The branches of HandleObjectKey.
  lemma KeyHere(t: string, p: nat, seen: set<string>)
    requires p < |t| && Span(t, p, Space) == p
    ensures t[p] != '"' ==> ParseKey(t, p, seen) == Failure(ParseError(StringExpected, p))
    ensures t[p] == '"' ==>
      var end := StringEnd(t, p + 1, false);
      if end.Failure? then ParseKey(t, p, seen) == Failure(end.error)
      else
        var key, colon := LiteralValue(t[p..end.value]), Span(t, end.value, Space);
        ParseKey(t, p, seen) ==
          if key in seen then Failure(ParseError(DuplicateKey(key), p))
          else if colon < |t| && t[colon] != ':' then Failure(ParseError(ExpectedColon, colon))
          else Success(ParsedKey(key, colon + 1))
  {
    hide LiteralValue, StringEnd, Span;
  }

  lemma KeyFails(c: Conversions, t: string, frames: seq<Frame>, p: nat, members: map<string, Value>)
    requires p <= |t| + 1
    ensures var r := ParseKey(t, p, members.Keys);
      r.Failure? ==> Outcome(c, t, p, frames, KeyOf(members)) == Failure(r.error)
  {
    hide ParseKey, ParseValue, ParseMembers, Continue;
    var r := ParseKey(t, p, members.Keys);
    if r.Failure? { ContinueFailure(c, t, frames, r.error); }
  }

  lemma StartOutcome(c: Conversions, t: string)
    ensures Outcome(c, t, 0, [], Fresh) == Document(c, t)
  {
    hide ParseValue;
  }

  lemma FinishedOutcome(c: Conversions, t: string, p: nat, frames: seq<Frame>, mode: Mode)
    requires p <= |t| && mode.Finished?
    ensures Outcome(c, t, p, frames, mode) == Finish(t, p, mode.value)
  {
  }

  lemma PlugNothing(x: Value)
    ensures Plug([], x) == x
  {
  }

  // The state on top says what the machine is doing.
  lemma ModeOfStack(frames: seq<Frame>, mode: Mode)
    requires mode.Finished? ==> frames == []
    ensures StackOf(frames, mode) == [] <==> mode.Finished?
    ensures var s := StackOf(frames, mode);
      s != [] ==> match s[|s| - 1].context
        case AtValue => mode.Fresh?
        case AtObject => mode.Members?
        case AtObjectKey => mode.KeyOf?
        case AtArray => mode.Elements?
  {
  }

  // json::parse
  method Parse(text: string, conversions: Conversions) returns (r: ParseResult)
    ensures r == Document(conversions, text)
  {
    var parser := new Parser(text, conversions);
    r := parser.Parse();
  }
}
