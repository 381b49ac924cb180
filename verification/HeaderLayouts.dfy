// lsp/connection.cpp: every header the base protocol allows, not only the one the
// library writes: fields in any order, unknown ones among them, in any letter case
// and with whitespace around keys and values.
module HeaderLayouts {
  import opened Wrappers
  import opened Text
  import opened Framing

  // One header line: the key and the value with whitespace around each.
  datatype FieldText = FieldText(lead: string, key: string, gap: string, blank: string, value: string, trail: string)

  function LineText(f: FieldText): string { f.lead + f.key + f.gap + (":" + (f.blank + f.value + f.trail)) }

  predicate OnLine(s: string) { forall c | c in s :: c != '\r' && c != '\n' }

  // No whitespace at either end.
  predicate Bare(s: string) { s == "" || (!IsSpace(s[0]) && !IsSpace(s[|s| - 1])) }

  predicate ValidField(f: FieldText) {
    && OnLine(LineText(f)) && LineText(f)[0] != EOF
    && AllSpace(f.lead) && AllSpace(f.gap) && AllSpace(f.blank) && AllSpace(f.trail)
    && Bare(f.key) && Bare(f.value) && ':' !in f.key
  }

  function FieldsText(fields: seq<FieldText>): string {
    if fields == [] then "" else LineText(fields[0]) + "\r\n" + FieldsText(fields[1..])
  }

  // What the fields say, the last of a kind deciding.
  function HeaderOf(fields: seq<FieldText>, header: Header): Result<Header, FrameError> {
    if fields == [] then Success(header)
    else
      var header' :- HeaderField(header, fields[0].key, fields[0].value);
      HeaderOf(fields[1..], header')
  }

  // ---------------------------------------------------------------- one line

  lemma {:induction false} TrimLeftPadded(a: string, s: string)
    requires AllSpace(a) && (s == "" || !IsSpace(s[0]))
    ensures TrimLeft(a + s) == s
  {
    if a == "" {
      assert a + s == s;
    } else {
      assert a[0] in a && (a + s)[1..] == a[1..] + s;
      forall c | c in a[1..] ensures IsSpace(c) { assert c in a; }
      TrimLeftPadded(a[1..], s);
    }
  }

  lemma {:induction false} TrimRightPadded(s: string, b: string)
    requires AllSpace(b) && (s == "" || !IsSpace(s[|s| - 1]))
    ensures TrimRight(s + b) == s
  {
    if b == "" {
      assert s + b == s;
    } else {
      var rest := b[..|b| - 1];
      assert b[|b| - 1] in b && (s + b)[..|s + b| - 1] == s + rest;
      forall c | c in rest ensures IsSpace(c) { assert c in b; }
      TrimRightPadded(s, rest);
    }
  }

  lemma TrimPadded(a: string, s: string, b: string)
    requires AllSpace(a) && AllSpace(b) && Bare(s)
    ensures Trim(a + s + b) == s
  {
    hide TrimLeft, TrimRight;
    if s == "" {
      assert a + s + b == (a + b) + "";
      forall c | c in a + b ensures IsSpace(c) { assert c in a || c in b; }
      TrimLeftPadded(a + b, "");
      TrimRightPadded("", "");
      assert "" + "" == "";
    } else {
      Assoc(a, s, b);
      TrimLeftPadded(a, s + b);
      TrimRightPadded(s, b);
    }
  }

  lemma PaddedLine(header: Header, f: FieldText)
    requires ValidField(f)
    ensures HeaderLine(header, LineText(f)) == HeaderField(header, f.key, f.value)
  {
    hide HeaderField, Trim, TrimLeft, TrimRight;
    var before, after := f.lead + f.key + f.gap, f.blank + f.value + f.trail;
    var line := LineText(f);
    Split(before, ":" + after);
    assert line[|before|] == ':' && line[|before| + 1..] == after;
    forall j | 0 <= j < |before| ensures !At(line, j, ":") {
      assert line[j..j + 1][0] == line[j] == before[j];
      NoColon(f, before[j]);
    }
    assert line[|before|..|before| + 1] == ":";
    FindFirst(line, ":", 0, |before|);
    TrimPadded(f.lead, f.key, f.gap);
    TrimPadded(f.blank, f.value, f.trail);
  }

  lemma NoColon(f: FieldText, c: char)
    requires ValidField(f) && c in f.lead + f.key + f.gap
    ensures c != ':'
  {
    assert c in f.lead || c in f.key || c in f.gap;
  }

  // ---------------------------------------------------------------- the header

  // A line that fails makes the field fail.
  lemma FieldFails(t: string, p: nat, line: string, header: Header)
    requires At(t, p, line + "\r\n") && line != "" && line[0] != EOF && OnLine(line)
    requires HeaderLine(header, line).Failure?
    ensures p < |t| && t[p] != '\r' && Field(t, p, header) == Failure(HeaderLine(header, line).error)
  {
    hide HeaderLine;
    AtConcat(t, p, line, "\r\n");
    LineEndAt(t, p, line, 0);
    assert t[p] == t[p..p + |line|][0] && line[0] in line;
    assert t[p..p + |line|] == line;
  }

  lemma FieldsFail(t: string, p: nat, header: Header, e: FrameError)
    requires p < |t| && t[p] != '\r' && Field(t, p, header) == Failure(e)
    ensures Fields(t, p, header) == Failure(e)
  {
    hide Field;
  }

  // Every such header is read for what its fields say, up to and with the empty
  // line; it fails exactly when a field does.
  lemma {:induction false} AnyHeader(t: string, p: nat, fields: seq<FieldText>, header: Header)
    requires At(t, p, FieldsText(fields) + "\r\n") && forall f | f in fields :: ValidField(f)
    ensures Fields(t, p, header) == Placed(HeaderOf(fields, header), p + |FieldsText(fields)| + 2)
    decreases |fields|
  {
    hide HeaderLine, HeaderField, Field, Fields, ValidField, At;
    if fields == [] {
      assert FieldsText(fields) + "\r\n" == "\r\n";
      EmptyLine(t, p, header);
    } else {
      var f, rest := fields[0], FieldsText(fields[1..]);
      var line := LineText(f);
      Assoc(line + "\r\n", rest, "\r\n");
      AtConcat(t, p, line + "\r\n", rest + "\r\n");
      ValidLine(f);
      PaddedLine(header, f);
      var h := HeaderField(header, f.key, f.value);
      if h.Failure? {
        FieldFails(t, p, line, header);
        FieldsFail(t, p, header, h.error);
      } else {
        FieldAt(t, p, line, header, h.value);
        assert line[0] in line;
        var q := p + |line| + 2;
        FieldsStep(t, p, header, HeaderRead(h.value, q));
        AnyHeader(t, q, fields[1..], h.value);
      }
    }
  }

  function Placed(r: Result<Header, FrameError>, next: nat): Result<HeaderRead, FrameError> {
    match r
    case Success(header) => Success(HeaderRead(header, next))
    case Failure(e) => Failure(e)
  }

  lemma ValidLine(f: FieldText)
    requires ValidField(f)
    ensures LineText(f) != "" && LineText(f)[0] != EOF && OnLine(LineText(f))
  {
  }

  lemma EmptyLine(t: string, p: nat, header: Header)
    requires At(t, p, "\r\n")
    ensures Fields(t, p, header) == Success(HeaderRead(header, p + 2))
  {
    assert t[p] == t[p..p + 2][0] && t[p + 1] == t[p..p + 2][1];
  }

  // So a message with any such header is read with the content that its length
  // field announces, or refused for what its fields say; refused for its type, it
  // is still read to its end.
  lemma AnyFrame(t: string, p: nat, fields: seq<FieldText>, content: string)
    requires At(t, p, FieldsText(fields) + "\r\n" + content) && forall f | f in fields :: ValidField(f)
    ensures var h := HeaderOf(fields, Header(0, DEFAULT_CONTENT_TYPE));
      if h.Failure? then ReadFrame(t, p) == Failure(h.error)
      else if ContentTypeError(h.value.contentType).Some? then
        ReadFrame(t, p) == Failure(ContentTypeError(h.value.contentType).value)
      else h.value.contentLength == |content| ==>
        ReadFrame(t, p) == Success(Frame(content, p + |FieldsText(fields)| + 2 + |content|))
    ensures var h := HeaderOf(fields, Header(0, DEFAULT_CONTENT_TYPE));
      h.Success? && h.value.contentLength == |content| ==> FrameEnd(t, p) == p + |FieldsText(fields)| + 2 + |content|
  {
    hide HeaderOf, Fields, FieldsStop, ContentTypeError, ValidField, FieldsText;
    var head := FieldsText(fields) + "\r\n";
    AtConcat(t, p, head, content);
    AnyHeader(t, p, fields, Header(0, DEFAULT_CONTENT_TYPE));
    HeaderStart(t, p, fields);
    assert |head| == |FieldsText(fields)| + 2;
  }

  lemma HeaderStart(t: string, p: nat, fields: seq<FieldText>)
    requires At(t, p, FieldsText(fields) + "\r\n") && forall f | f in fields :: ValidField(f)
    ensures Peeked(t, p) != EOF
  {
    hide ValidField;
    var head := FieldsText(fields) + "\r\n";
    assert t[p] == t[p..p + |head|][0] == head[0];
    if fields != [] {
      ValidLine(fields[0]);
      assert head[0] == LineText(fields[0])[0];
    }
  }
}
