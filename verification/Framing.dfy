// lsp/connection.cpp: header and content of a message on a byte stream, read
// through a reader that looks one byte ahead (LSP 3.17, Base Protocol, Header
// Part).
module Framing {
  import opened Wrappers
  import opened Text
  import opened JsonGrammar

  const EOF: char := 0xff as char

  const DEFAULT_CONTENT_TYPE := "application/vscode-jsonrpc; charset=utf-8"

  const SIZE_MAX: int := 0xFFFF_FFFF_FFFF_FFFF

  // EndlessLine stands for a header line that the input never ends: the source
  // reads the end-of-file byte for ever.
  datatype FrameError =
    | ConnectionLost
    | UnexpectedNewline
    | LineNotTerminated
    | HeaderNotTerminated
    | InvalidContentLength
    | EndlessLine
    | UnsupportedContentType
    | UnsupportedCharset

  datatype Header = Header(contentLength: nat, contentType: string)

  datatype HeaderRead = HeaderRead(header: Header, next: nat)

  datatype Frame = Frame(content: string, next: nat)

  // ---------------------------------------------------------------- strings

  // The first position of the pattern at or after p.
  function Find(s: string, pattern: string, p: nat): (r: Option<nat>)
    ensures r.Some? ==> p <= r.value && At(s, r.value, pattern)
    decreases |s| - p
  {
    if At(s, p, pattern) then Some(p)
    else if p >= |s| then None
    else Find(s, pattern, p + 1)
  }

  lemma {:induction false} FindFirst(s: string, pattern: string, p: nat, q: nat)
    requires p <= q && At(s, q, pattern) && forall j | p <= j < q :: !At(s, j, pattern)
    ensures Find(s, pattern, p) == Some(q)
    decreases q - p
  {
    if p < q { FindFirst(s, pattern, p + 1, q); }
  }

  lemma {:induction false} NotFound(s: string, pattern: string, p: nat)
    requires forall j | p <= j <= |s| :: !At(s, j, pattern)
    requires pattern != ""
    ensures Find(s, pattern, p) == None
    decreases |s| - p
  {
    if p < |s| { NotFound(s, pattern, p + 1); }
  }

  function TrimLeft(s: string): (r: string)
    ensures r != "" ==> !IsSpace(r[0])
  {
    if s != "" && IsSpace(s[0]) then TrimLeft(s[1..]) else s
  }

  function TrimRight(s: string): string {
    if s != "" && IsSpace(s[|s| - 1]) then TrimRight(s[..|s| - 1]) else s
  }

  function Trim(s: string): string { TrimRight(TrimLeft(s)) }

  method TrimWhitespace(s: string) returns (str: string)
    ensures str == Trim(s)
  {
    str := s;
    while str != "" && IsSpace(str[0])
      invariant TrimLeft(str) == TrimLeft(s)
      decreases |str|
    {
      str := str[1..];
    }
    while str != "" && IsSpace(str[|str| - 1])
      invariant TrimRight(str) == Trim(s)
      decreases |str|
    {
      str := str[..|str| - 1];
    }
  }

  predicate EqualCaseInsensitive(a: string, b: string) {
    |a| == |b| && forall i | 0 <= i < |a| :: ToLower(a[i]) == ToLower(b[i])
  }

  // ---------------------------------------------------------------- header values

  function HeaderField(header: Header, key: string, value: string): Result<Header, FrameError> {
    if EqualCaseInsensitive(key, "Content-Length") then
      if value == "" || !AllDigits(value) || DigitsValue(value) > SIZE_MAX then Failure(InvalidContentLength)
      else Success(header.(contentLength := DigitsValue(value)))
    else if EqualCaseInsensitive(key, "Content-Type") then Success(header.(contentType := value))
    else Success(header)
  }

  // One header line.
  function HeaderLine(header: Header, line: string): Result<Header, FrameError> {
    match Find(line, ":", 0)
    case None => Success(header)
    case Some(i) => HeaderField(header, Trim(line[..i]), Trim(line[i + 1..]))
  }

  function ContentTypeError(contentType: string): Option<FrameError> {
    if !("application/vscode-jsonrpc" <= contentType) then Some(UnsupportedContentType)
    else
      match Find(contentType, "charset=", 0)
      case None => None
      case Some(i) =>
        var rest := contentType[i + 8..];
        var charset := Trim(match Find(rest, ";", 0) case None => rest case Some(j) => rest[..j]);
        if charset != "utf-8" && charset != "utf8" then Some(UnsupportedCharset) else None
  }

  // ---------------------------------------------------------------- frames, as a function of position

  // What peek() shows at a position.
  function Peeked(t: string, p: nat): char { if p < |t| then t[p] else EOF }

  // The end of the header line that starts at p.
  function LineEnd(t: string, p: nat): (r: Result<nat, FrameError>)
    ensures r.Success? ==> p <= r.value < |t| && t[r.value] == '\r'
    decreases |t| - p
  {
    if p >= |t| then Failure(EndlessLine)
    else if t[p] == '\r' then Success(p)
    else if t[p] == '\n' then Failure(UnexpectedNewline)
    else LineEnd(t, p + 1)
  }

  // One header field, its line end included.
  function Field(t: string, p: nat, header: Header): (r: Result<HeaderRead, FrameError>)
    ensures r.Success? ==> p < r.value.next <= |t|
  {
    if Peeked(t, p) == EOF then Failure(ConnectionLost)
    else
      var end :- LineEnd(t, p);
      var header' :- HeaderLine(header, t[p..end]);
      if Peeked(t, end + 1) != '\n' then Failure(LineNotTerminated)
      else Success(HeaderRead(header', end + 2))
  }

  function Fields(t: string, p: nat, header: Header): (r: Result<HeaderRead, FrameError>)
    ensures r.Success? ==> r.value.next <= |t|
    decreases |t| - p
  {
    if Peeked(t, p) == '\r' then
      if Peeked(t, p + 1) != '\n' then Failure(HeaderNotTerminated) else Success(HeaderRead(header, p + 2))
    else
      var field :- Field(t, p, header);
      Fields(t, field.next, field.header)
  }

  // Short input leaves the end of the content zero.
  function ContentAt(t: string, p: nat, length: nat): string
    requires p <= |t|
  {
    if p + length <= |t| then t[p..p + length]
    else t[p..] + seq(p + length - |t|, _ => 0 as char)
  }

  function ReadFrame(t: string, p: nat): (r: Result<Frame, FrameError>)
    ensures r.Success? ==> r.value.next <= |t|
  {
    if Peeked(t, p) == EOF then Failure(ConnectionLost)
    else
      var head :- Fields(t, p, Header(0, DEFAULT_CONTENT_TYPE));
      var content := ContentAt(t, head.next, head.header.contentLength);
      match ContentTypeError(head.header.contentType)
      case Some(e) => Failure(e)
      case None =>
        var end := head.next + head.header.contentLength;
        Success(Frame(content, if end <= |t| then end else |t|))
  }

  // ---- where the stream stands after a read

  // One byte further, as far as there are bytes: a byte that was looked at has
  // left the stream.
  function Past(t: string, p: nat): nat { if p < |t| then p + 1 else |t| }

  // Just behind the line feed, or at the end of the input, when a line has no end.
  function LineStop(t: string, p: nat): nat
    decreases |t| - p
  {
    if p >= |t| then |t| else if t[p] == '\r' || t[p] == '\n' then p + 1 else LineStop(t, p + 1)
  }

  // Where a field that fails leaves the stream.
  function FieldStop(t: string, p: nat, header: Header): nat {
    if Peeked(t, p) == EOF then Past(t, p)
    else
      match LineEnd(t, p)
      case Failure(_) => LineStop(t, p)
      case Success(end) => if HeaderLine(header, t[p..end]).Failure? then end + 1 else Past(t, end + 1)
  }

  function FieldsStop(t: string, p: nat, header: Header): nat
    decreases |t| - p
  {
    if Peeked(t, p) == '\r' then Past(t, p + 1)
    else
      match Field(t, p, header)
      case Failure(_) => FieldStop(t, p, header)
      case Success(field) => FieldsStop(t, field.next, field.header)
  }

  // Once the header is read, the whole content is, or all there is of it,
  // whatever its type and whatever is in it.
  function FrameEnd(t: string, p: nat): nat {
    if Peeked(t, p) == EOF then Past(t, p)
    else
      match Fields(t, p, Header(0, DEFAULT_CONTENT_TYPE))
      case Failure(_) => FieldsStop(t, p, Header(0, DEFAULT_CONTENT_TYPE))
      case Success(head) =>
        var end := head.next + head.header.contentLength;
        if end <= |t| then end else |t|
  }

  // ---------------------------------------------------------------- the stream and the reader

  // The bytes that the other side sends, and the ones it is sent.
  class Stream {
    const input: string
    var cursor: nat
    var output: string

    ghost predicate Valid()
      reads this
    {
      cursor <= |input|
    }

    constructor (input: string)
      ensures Valid() && this.input == input && cursor == 0 && output == ""
    {
      this.input := input;
      cursor := 0;
      output := "";
    }

    // Blocks until size bytes are there, or the input has ended.
    method Read(size: nat) returns (bytes: string)
      requires Valid()
      modifies this`cursor
      ensures Valid()
      ensures cursor == if old(cursor) + size <= |input| then old(cursor) + size else |input|
      ensures bytes == input[old(cursor)..cursor]
    {
      var end := if cursor + size <= |input| then cursor + size else |input|;
      bytes := input[cursor..end];
      cursor := end;
    }

    method Write(bytes: string)
      modifies this`output
      ensures output == old(output) + bytes
    {
      output := output + bytes;
    }
  }

  class InputReader {
    const stream: Stream
    var lookahead: Option<char>
    ghost var pos: nat

    // pos is the next byte the reader gives out; a byte that was looked at has
    // already left the stream.
    ghost predicate Valid()
      reads this, stream
    {
      && stream.Valid() && pos <= |stream.input|
      && match lookahead
         case None => stream.cursor == pos
         case Some(c) =>
           c == Peeked(stream.input, pos) && stream.cursor == if pos < |stream.input| then pos + 1 else pos
    }

    constructor (stream: Stream)
      requires stream.Valid()
      ensures Valid() && this.stream == stream && lookahead == None && pos == stream.cursor
    {
      this.stream := stream;
      lookahead := None;
      pos := stream.cursor;
    }

    method Peek() returns (c: char)
      requires Valid()
      modifies this, stream`cursor
      ensures Valid() && pos == old(pos) && c == Peeked(stream.input, pos) && lookahead == Some(c)
    {
      if lookahead.None? {
        ghost var at := pos;
        var next := Get();
        lookahead := Some(next);
        pos := at;
      }
      c := lookahead.value;
    }

    method Get() returns (c: char)
      requires Valid()
      modifies this, stream`cursor
      ensures Valid() && lookahead == None
      ensures c == Peeked(stream.input, old(pos))
      ensures pos == if old(pos) < |stream.input| then old(pos) + 1 else old(pos)
    {
      if lookahead.Some? {
        c := lookahead.value;
        lookahead := None;
        pos := if pos < |stream.input| then pos + 1 else pos;
        return;
      }
      var bytes := stream.Read(1);
      c := if bytes != "" then bytes[0] else EOF;
      pos := stream.cursor;
    }

    // Fills a zeroed buffer, the byte that was looked at first.
    method Read(size: nat) returns (buffer: string)
      requires Valid()
      modifies this, stream`cursor
      ensures Valid() && (size > 0 || old(lookahead) == None ==> lookahead == None)
      ensures buffer ==
        if old(lookahead).Some? && old(pos) == |stream.input| && size > 0 then [EOF] + seq(size - 1, _ => 0 as char)
        else ContentAt(stream.input, old(pos), size)
      ensures pos == if old(pos) + size <= |stream.input| then old(pos) + size else |stream.input|
    {
      hide ContentAt;
      NoContent(stream.input, pos);
      buffer := "";
      if size > 0 {
        if lookahead.Some? {
          var first := lookahead.value;
          ContentFirst(stream.input, pos, size - 1);
          lookahead := None;
          pos := Past(stream.input, pos);
          buffer := ReadRest(size - 1);
          buffer := [first] + buffer;
        } else {
          buffer := ReadRest(size);
        }
      }
    }

    // With nothing looked at.
    method ReadRest(size: nat) returns (bytes: string)
      requires Valid() && lookahead == None
      modifies this`pos, stream`cursor
      ensures Valid() && bytes == ContentAt(stream.input, old(pos), size)
      ensures pos == if old(pos) + size <= |stream.input| then old(pos) + size else |stream.input|
    {
      hide ContentAt;
      ContentRead(stream.input, pos, size);
      bytes := stream.Read(size);
      bytes := bytes + seq(size - |bytes|, _ => 0 as char);
      pos := stream.cursor;
    }
  }

  lemma NoContent(t: string, p: nat)
    requires p <= |t|
    ensures ContentAt(t, p, 0) == ""
  {
  }

  // What a stream gives, filled up with zeros.
  lemma ContentRead(t: string, p: nat, n: nat)
    requires p <= |t|
    ensures var end := if p + n <= |t| then p + n else |t|;
      t[p..end] + seq(n - (end - p), _ => 0 as char) == ContentAt(t, p, n)
  {
  }

  lemma ContentFirst(t: string, p: nat, n: nat)
    requires p <= |t|
    ensures p < |t| ==> [t[p]] + ContentAt(t, p + 1, n) == ContentAt(t, p, n + 1)
    ensures p == |t| ==> ContentAt(t, p, n) == seq(n, _ => 0 as char)
  {
    if p == |t| {
    } else if p + 1 + n <= |t| {
      assert t[p..p + 1 + n] == [t[p]] + t[p + 1..p + 1 + n];
    } else {
      assert t[p..] == [t[p]] + t[p + 1..];
      Assoc([t[p]], t[p + 1..], seq(p + 1 + n - |t|, _ => 0 as char));
    }
  }

  method ParseHeaderValue(header: Header, line: string) returns (r: Result<Header, FrameError>)
    ensures r == HeaderLine(header, line)
  {
    var separator := Find(line, ":", 0);
    if separator.Some? {
      var key := TrimWhitespace(line[..separator.value]);
      var value := TrimWhitespace(line[separator.value + 1..]);
      if EqualCaseInsensitive(key, "Content-Length") {
        if value == "" || !AllDigits(value) || DigitsValue(value) > SIZE_MAX {
          return Failure(InvalidContentLength);
        }
        return Success(header.(contentLength := DigitsValue(value)));
      } else if EqualCaseInsensitive(key, "Content-Type") {
        return Success(header.(contentType := value));
      }
    }
    return Success(header);
  }

  // The inner loop has no way out at the end of the input: there the method
  // reports what the source does not survive.
  method ReadNextMessageHeaderField(header: Header, reader: InputReader) returns (r: Result<Header, FrameError>)
    requires reader.Valid()
    modifies reader, reader.stream`cursor
    ensures reader.Valid()
    ensures match Field(reader.stream.input, old(reader.pos), header)
      case Failure(e) =>
        r == Failure(e) && reader.stream.cursor == FieldStop(reader.stream.input, old(reader.pos), header)
      case Success(field) => r == Success(field.header) && reader.pos == field.next
  {
    hide HeaderLine;
    ghost var t, start := reader.stream.input, reader.pos;
    var c := reader.Peek();
    if c == EOF {
      return Failure(ConnectionLost);
    }
    var lineData, exhausted := "", false;
    c := reader.Peek();
    while c != '\r'
      invariant reader.Valid() && start <= reader.pos
      invariant c == Peeked(t, reader.pos) && reader.lookahead == Some(c) && lineData == t[start..reader.pos]
      invariant exhausted <==> reader.pos == |t|
      invariant LineEnd(t, reader.pos) == LineEnd(t, start) && LineStop(t, reader.pos) == LineStop(t, start)
      decreases |t| - reader.pos
    {
      if exhausted {
        return Failure(EndlessLine);
      }
      c := reader.Get();
      if c == '\n' {
        return Failure(UnexpectedNewline);
      }
      lineData := lineData + [c];
      exhausted := reader.stream.cursor == |reader.stream.input|;
      c := reader.Peek();
    }
    r := ParseHeaderValue(header, lineData);
    if r.Failure? {
      return;
    }
    var first := reader.Get();
    if first != '\r' {
      return Failure(LineNotTerminated);
    }
    var second := reader.Get();
    if second != '\n' {
      return Failure(LineNotTerminated);
    }
  }

  method ReadMessageHeader(reader: InputReader) returns (r: Result<Header, FrameError>)
    requires reader.Valid()
    modifies reader, reader.stream`cursor
    ensures reader.Valid()
    ensures match Fields(reader.stream.input, old(reader.pos), Header(0, DEFAULT_CONTENT_TYPE))
      case Failure(e) =>
        r == Failure(e) &&
        reader.stream.cursor == FieldsStop(reader.stream.input, old(reader.pos), Header(0, DEFAULT_CONTENT_TYPE))
      case Success(head) => r == Success(head.header) && reader.pos == head.next && reader.lookahead == None
  {
    hide Field, FieldStop;
    ghost var t := reader.stream.input;
    var header := Header(0, DEFAULT_CONTENT_TYPE);
    var c := reader.Peek();
    while c != '\r'
      invariant reader.Valid() && c == Peeked(t, reader.pos) && reader.lookahead == Some(c)
      invariant Fields(t, reader.pos, header) == Fields(t, old(reader.pos), Header(0, DEFAULT_CONTENT_TYPE))
      invariant FieldsStop(t, reader.pos, header) == FieldsStop(t, old(reader.pos), Header(0, DEFAULT_CONTENT_TYPE))
      decreases |t| - reader.pos
    {
      r := ReadNextMessageHeaderField(header, reader);
      if r.Failure? {
        return;
      }
      header := r.value;
      c := reader.Peek();
    }
    var first := reader.Get();
    if first != '\r' {
      return Failure(HeaderNotTerminated);
    }
    var second := reader.Get();
    if second != '\n' {
      return Failure(HeaderNotTerminated);
    }
    return Success(header);
  }

  method VerifyContentType(contentType: string) returns (error: Option<FrameError>)
    ensures error == ContentTypeError(contentType)
  {
    if !("application/vscode-jsonrpc" <= contentType) {
      return Some(UnsupportedContentType);
    }
    var idx := Find(contentType, "charset=", 0);
    if idx.Some? {
      var charset := contentType[idx.value + 8..];
      var end := Find(charset, ";", 0);
      charset := TrimWhitespace(if end.Some? then charset[..end.value] else charset);
      if charset != "utf-8" && charset != "utf8" {
        return Some(UnsupportedCharset);
      }
    }
    return None;
  }

  // The part of Connection::readMessage that works on the stream.  The reader
  // is dropped at the end; a message that was read leaves its lookahead empty,
  // so the stream stands just behind the message, also where its type is refused.
  method ReadMessageContent(stream: Stream) returns (r: Result<string, FrameError>)
    requires stream.Valid()
    modifies stream`cursor
    ensures stream.Valid()
    ensures match ReadFrame(stream.input, old(stream.cursor))
      case Failure(e) => r == Failure(e)
      case Success(frame) => r == Success(frame.content) && stream.cursor == frame.next
    ensures stream.cursor == FrameEnd(stream.input, old(stream.cursor))
  {
    hide Fields, FieldsStop, ContentTypeError;
    var reader := new InputReader(stream);
    var c := reader.Peek();
    if c == EOF {
      return Failure(ConnectionLost);
    }
    var header := ReadMessageHeader(reader);
    if header.Failure? {
      return Failure(header.error);
    }
    var content := reader.Read(header.value.contentLength);
    assert reader.lookahead == None;
    var error := VerifyContentType(header.value.contentType);
    if error.Some? {
      return Failure(error.value);
    }
    return Success(content);
  }

  // ---------------------------------------------------------------- writing

  const TYPE_LINE := "Content-Type: " + DEFAULT_CONTENT_TYPE

  function LengthLine(n: nat): string { "Content-Length: " + NatText(n) }

  function FrameText(content: string): string {
    LengthLine(|content|) + "\r\n" + (TYPE_LINE + "\r\n") + "\r\n" + content
  }

  method WriteMessageData(stream: Stream, content: string)
    modifies stream`output
    ensures stream.output == old(stream.output) + FrameText(content)
  {
    var header := "Content-Length: " + NatText(|content|) + "\r\n" +
                  "Content-Type: " + DEFAULT_CONTENT_TYPE + "\r\n\r\n";
    HeaderText(|content|);
    stream.Write(header + content);
  }

  lemma HeaderText(n: nat)
    ensures "Content-Length: " + NatText(n) + "\r\n" + "Content-Type: " + DEFAULT_CONTENT_TYPE + "\r\n\r\n" ==
      LengthLine(n) + "\r\n" + (TYPE_LINE + "\r\n") + "\r\n"
  {
    HeaderParts(LengthLine(n) + "\r\n", "Content-Type: ", DEFAULT_CONTENT_TYPE, "\r\n");
    assert "\r\n\r\n" == "\r\n" + "\r\n";
  }

  lemma HeaderParts(line: string, key: string, value: string, end: string)
    ensures line + key + value + (end + end) == line + (key + value + end) + end
  {
    Assoc(line, key, value);
    Assoc(line + (key + value), end, end);
    Assoc(line, key + value, end);
  }

  // ---------------------------------------------------------------- round trip

  // A line without line-end characters ends where it ends.
  lemma {:induction false} LineEndAt(t: string, p: nat, line: string, k: nat)
    requires At(t, p, line + "\r\n") && k <= |line|
    requires forall c | c in line :: c != '\r' && c != '\n'
    ensures LineEnd(t, p + k) == Success(p + |line|)
    decreases |line| - k
  {
    AtConcat(t, p, line, "\r\n");
    if k < |line| {
      assert t[p + k] == t[p..p + |line|][k] == line[k] && line[k] in line;
      LineEndAt(t, p, line, k + 1);
    } else {
      assert t[p + |line|] == t[p + |line|..p + |line| + 2][0] == '\r';
    }
  }

  lemma FieldAt(t: string, p: nat, line: string, header: Header, header': Header)
    requires At(t, p, line + "\r\n") && line != "" && line[0] != EOF
    requires forall c | c in line :: c != '\r' && c != '\n'
    requires HeaderLine(header, line) == Success(header')
    ensures p + |line| + 2 <= |t| && t[p] == line[0]
    ensures Field(t, p, header) == Success(HeaderRead(header', p + |line| + 2))
  {
    hide HeaderLine;
    AtConcat(t, p, line, "\r\n");
    LineEndAt(t, p, line, 0);
    assert t[p] == t[p..p + |line|][0];
    assert t[p + |line| + 1] == t[p + |line|..p + |line| + 2][1] == '\n';
    assert t[p..p + |line|] == line;
  }

  lemma TrimWord(s: string)
    requires s != "" && !IsSpace(s[0]) && !IsSpace(s[|s| - 1])
    ensures Trim(s) == s && Trim(" " + s) == s
  {
    assert (" " + s)[1..] == s;
  }

  lemma LineValue(header: Header, key: string, value: string)
    requires forall c | c in key :: !IsSpace(c) && c != ':'
    requires key != "" && value != "" && !IsSpace(value[0]) && !IsSpace(value[|value| - 1])
    ensures HeaderLine(header, key + ": " + value) == HeaderField(header, key, value)
  {
    hide HeaderField, Trim;
    var line := key + ": " + value;
    Assoc(key, ": ", value);
    Split(key, ": " + value);
    assert ": " + value == ":" + (" " + value);
    assert line[|key| + 1..] == " " + value;
    WholeAt(line, key, ": " + value);
    forall j | 0 <= j < |key| ensures !At(line, j, ":") {
      assert line[j..j + 1][0] == line[j] == key[j];
      assert key[j] in key;
    }
    assert line[|key|..|key| + 1] == ":";
    FindFirst(line, ":", 0, |key|);
    assert key[0] in key && key[|key| - 1] in key;
    TrimWord(key);
    TrimWord(value);
  }

  lemma LengthLineValue(n: nat, header: Header)
    requires n <= SIZE_MAX
    ensures HeaderLine(header, LengthLine(n)) == Success(header.(contentLength := n))
    ensures forall c | c in LengthLine(n) :: c != '\r' && c != '\n'
  {
    hide HeaderLine;
    var digits := NatText(n);
    assert "Content-Length: " == "Content-Length" + ": ";
    assert digits[0] in digits && digits[|digits| - 1] in digits;
    LineValue(header, "Content-Length", digits);
    NatTextValue(n);
    forall c | c in LengthLine(n) ensures c != '\r' && c != '\n' {
      assert c in "Content-Length: " || c in digits;
    }
  }

  lemma TypeLineValue(header: Header)
    ensures HeaderLine(header, TYPE_LINE) == Success(header.(contentType := DEFAULT_CONTENT_TYPE))
    ensures forall c | c in TYPE_LINE :: c != '\r' && c != '\n'
  {
    hide HeaderLine;
    assert "Content-Type: " == "Content-Type" + ": ";
    LineValue(header, "Content-Type", DEFAULT_CONTENT_TYPE);
    assert |"Content-Type"| != |"Content-Length"|;
    forall c | c in TYPE_LINE ensures c != '\r' && c != '\n' {
      assert c in "Content-Type: " || c in DEFAULT_CONTENT_TYPE;
    }
  }

  const TYPE_PREFIX := "application/vscode-jsonrpc; "

  lemma DefaultContentType()
    ensures ContentTypeError(DEFAULT_CONTENT_TYPE) == None
  {
    hide Trim, Find;
    var s := DEFAULT_CONTENT_TYPE;
    assert s == TYPE_PREFIX + "charset=utf-8";
    assert s[..26] == "application/vscode-jsonrpc";
    CharsetAt();
    assert s[36..] == "utf-8";
    NoSemicolon();
    TrimWord("utf-8");
  }

  lemma NoSemicolon()
    ensures Find("utf-8", ";", 0) == None
  {
    var charset := "utf-8";
    forall j | 0 <= j <= 5 ensures !At(charset, j, ";") {
      if j < 5 { assert charset[j..j + 1][0] == charset[j]; }
    }
    NotFound(charset, ";", 0);
  }

  // A pattern that ends in a character found nowhere before it stands where that
  // character does.
  lemma FindMarked(before: string, word: string, c: char, after: string)
    requires c !in before && c !in word
    ensures Find(before + (word + [c] + after), word + [c], 0) == Some(|before|)
  {
    hide Find, At;
    var s, pattern := before + (word + [c] + after), word + [c];
    PatternAt(before, pattern, after);
    forall j | 0 <= j < |before| ensures !At(s, j, pattern) {
      Unmarked(before, word, [c] + after, c, j + |word|);
      Assoc(word, [c], after);
      LastAt(s, j, word, c);
    }
    FindFirst(s, pattern, 0, |before|);
  }

  lemma PatternAt(before: string, pattern: string, after: string)
    ensures At(before + (pattern + after), |before|, pattern)
  {
  }

  lemma Unmarked(before: string, word: string, after: string, c: char, i: nat)
    requires c !in before && c !in word && i < |before| + |word|
    ensures (before + (word + after))[i] != c
  {
    var s := before + (word + after);
    assert if i < |before| then s[i] == before[i] else s[i] == word[i - |before|];
  }

  lemma LastAt(s: string, j: nat, word: string, c: char)
    ensures At(s, j, word + [c]) ==> s[j + |word|] == c
  {
    if At(s, j, word + [c]) { assert s[j + |word|] == s[j..j + |word| + 1][|word|]; }
  }

  lemma CharsetAt()
    ensures Find(DEFAULT_CONTENT_TYPE, "charset=", 0) == Some(28)
  {
    hide Find;
    FindMarked(TYPE_PREFIX, "charset", '=', "utf-8");
    assert "charset" + ['='] == "charset=";
    assert DEFAULT_CONTENT_TYPE == TYPE_PREFIX + ("charset" + ['='] + "utf-8");
    assert |TYPE_PREFIX| == 28;
  }

  // A frame that was written is read back, to its last byte and no further,
  // wherever it stands in the input.
  lemma FrameRoundTrip(t: string, p: nat, content: string)
    requires At(t, p, FrameText(content)) && |content| <= SIZE_MAX
    ensures ReadFrame(t, p) == Success(Frame(content, p + |FrameText(content)|))
  {
    hide HeaderLine, ContentTypeError, LengthLine, Field;
    var line := LengthLine(|content|);
    var h0 := Header(0, DEFAULT_CONTENT_TYPE);
    var h1 := Header(|content|, DEFAULT_CONTENT_TYPE);
    var first, second := line + "\r\n", TYPE_LINE + "\r\n";
    AtConcat(t, p, first + second + "\r\n", content);
    AtConcat3(t, p, first, second, "\r\n");
    LengthLineValue(|content|, h0);
    TypeLineValue(h1);
    LineStart(|content|);
    FieldAt(t, p, line, h0, h1);
    var q := p + |first|;
    FieldAt(t, q, TYPE_LINE, h1, h1);
    var e := q + |second|;
    assert t[e] == t[e..e + 2][0] == '\r' && t[e + 1] == t[e..e + 2][1] == '\n';
    FieldsStep(t, p, h0, HeaderRead(h1, q));
    FieldsStep(t, q, h1, HeaderRead(h1, e));
    assert Fields(t, e, h1) == Success(HeaderRead(h1, e + 2));
    DefaultContentType();
  }

  lemma FieldsStep(t: string, p: nat, header: Header, field: HeaderRead)
    requires p < |t| && t[p] != '\r' && Field(t, p, header) == Success(field)
    ensures Fields(t, p, header) == Fields(t, field.next, field.header)
  {
    hide Field;
  }

  lemma LineStart(n: nat)
    ensures LengthLine(n) != "" && LengthLine(n)[0] == 'C' && TYPE_LINE != "" && TYPE_LINE[0] == 'C'
  {
  }

  function FramesText(contents: seq<string>): string
    decreases |contents|
  {
    if contents == [] then "" else FrameText(contents[0]) + FramesText(contents[1..])
  }

  // What n reads in a row give: the contents and the position after them.
  function ReadFrames(t: string, p: nat, n: nat): Result<(seq<string>, nat), FrameError>
    decreases n
  {
    if n == 0 then Success(([], p))
    else
      var frame :- ReadFrame(t, p);
      var rest :- ReadFrames(t, frame.next, n - 1);
      Success(([frame.content] + rest.0, rest.1))
  }

  lemma FramesTextStep(contents: seq<string>)
    requires contents != []
    ensures FramesText(contents) == FrameText(contents[0]) + FramesText(contents[1..])
  {
    hide FrameText;
  }

  lemma ReadFramesStep(t: string, p: nat, frame: Frame, n: nat, rest: (seq<string>, nat))
    requires ReadFrame(t, p) == Success(frame) && ReadFrames(t, frame.next, n) == Success(rest)
    ensures ReadFrames(t, p, n + 1) == Success(([frame.content] + rest.0, rest.1))
  {
    hide ReadFrame;
  }

  lemma NoFrames(t: string, p: nat)
    ensures FramesText([]) == "" && ReadFrames(t, p, 0) == Success(([], p))
  {
  }

  // Reading as many frames as were written, one after the other, gives exactly
  // their contents and consumes exactly their bytes.
  lemma {:induction false} FramesRoundTrip(t: string, p: nat, contents: seq<string>)
    requires At(t, p, FramesText(contents)) && forall c | c in contents :: |c| <= SIZE_MAX
    ensures ReadFrames(t, p, |contents|) == Success((contents, p + |FramesText(contents)|))
    decreases |contents|
  {
    hide ReadFrame, ReadFrames, FrameText, FramesText, At;
    if contents == [] {
      NoFrames(t, p);
    } else {
      var first, rest := FrameText(contents[0]), contents[1..];
      FramesTextStep(contents);
      AtConcat(t, p, first, FramesText(rest));
      FrameRoundTrip(t, p, contents[0]);
      FramesRoundTrip(t, p + |first|, rest);
      var next := p + |first|;
      ReadFramesStep(t, p, Frame(contents[0], next), |rest|, (rest, next + |FramesText(rest)|));
      assert contents == [contents[0]] + rest;
    }
  }
}
