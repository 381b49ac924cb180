// What goes over the wire, spelled out: the members of JSON-RPC 2.0 messages, the
// header fields of the LSP base protocol, and the answers to messages that cannot be
// read.
module Wire {
  import opened Wrappers
  import opened Text
  import opened Alphabets
  import opened Json
  import opened JsonRpc
  import opened JsonGrammar
  import opened Framing
  import opened Connection

  // ---------------------------------------------------------------- writing messages

  // The id as JSON.
  predicate IdIs(id: MessageId, v: Value) {
    match id
    case NullId => v == Null
    case IntegerId(i) => v == Integer(i)
    case StringId(s) => v == String(s)
  }

  lemma RequestWritten(r: Request)
    ensures var json := MessageJson(RequestMessage(r));
      && json.Keys == {"jsonrpc", "method"} + (if r.id.Some? then {"id"} else {})
                      + (if r.params.Some? then {"params"} else {})
      && json["jsonrpc"] == String("2.0") && json["method"] == String(r.methodName)
      && (r.id.Some? ==> IdIs(r.id.value, json["id"]))
      && (r.params.Some? ==> json["params"] == r.params.value)
  {
  }

  // The data of an error stands beside the error.
  lemma ResponseWritten(r: Response)
    ensures var json := MessageJson(ResponseMessage(r));
      && json.Keys == {"jsonrpc", "id"} + (if r.result.Some? then {"result"} else {})
                      + (if r.error.Some? then {"error"} else {})
                      + (if r.error.Some? && r.error.value.data.Some? then {"data"} else {})
      && json["jsonrpc"] == String("2.0") && IdIs(r.id, json["id"])
      && (r.result.Some? ==> json["result"] == r.result.value)
      && (r.error.Some? ==>
            json["error"] ==
              Object(map["code" := Integer(r.error.value.code), "message" := String(r.error.value.message)]))
      && (r.error.Some? && r.error.value.data.Some? ==> json["data"] == r.error.value.data.value)
  {
  }

  lemma BatchWritten(ms: seq<Message>)
    ensures |BatchJson(ms)| == |ms| && forall i | 0 <= i < |ms| :: BatchJson(ms)[i] == Object(MessageJson(ms[i]))
  {
  }

  // ---------------------------------------------------------------- reading messages

  // An id may come as a string, a number, of which the integer part counts, or null.
  predicate IdReads(v: Value, id: MessageId) {
    match v
    case String(s) => id == StringId(s)
    case Integer(i) => id == IntegerId(i)
    case Decimal(d) => id.IntegerId? && IsWhole(d, id.i)
    case Null => id == NullId
    case _ => false
  }

  // i is d without its fraction.
  predicate IsWhole(d: real, i: int) {
    if d >= 0.0 then i as real <= d < i as real + 1.0 else i as real - 1.0 < d <= i as real
  }

  lemma WholeIs(d: real, i: int)
    ensures IsWhole(d, i) <==> i == Truncated(Decimal(d))
  {
    if d >= 0.0 { FloorIs(d, i); } else { FloorIs(-d, -i); }
  }

  lemma FloorIs(d: real, i: int)
    ensures i as real <= d < i as real + 1.0 <==> d.Floor == i
  {
  }

  lemma IdReadsIs(v: Value, id: MessageId)
    ensures IdReads(v, id) <==> IdFromJson(v) == Success(id)
    ensures IdFromJson(v).Failure? <==> v.Boolean? || v.Array? || v.Object?
    ensures IdFromJson(v).Failure? ==> IdFromJson(v).error == ProtocolError(BadId)
  {
    if v.Decimal? && id.IntegerId? { WholeIs(v.d, id.i); }
  }

  predicate IsVersion2(json: Members) { "jsonrpc" in json && json["jsonrpc"] == String("2.0") }

  // Every message needs the version; what it lacks decides the error.
  lemma VersionRead(json: Members)
    ensures "jsonrpc" !in json ==> MessageFrom(json) == Failure(ProtocolError(VersionMissing))
    ensures "jsonrpc" in json && !json["jsonrpc"].String? ==>
      MessageFrom(json) == Failure(ProtocolError(VersionNotString))
    ensures "jsonrpc" in json && json["jsonrpc"].String? && json["jsonrpc"].s != "2.0" ==>
      MessageFrom(json) == Failure(ProtocolError(VersionUnsupported))
  {
  }

  // Params are an object or an array; null counts as none.
  predicate ParamsRead(json: Members, params: Option<Value>) {
    if "params" !in json || json["params"] == Null then params == None
    else (json["params"].Object? || json["params"].Array?) && params == Some(json["params"])
  }

  lemma RequestRead(json: Members, r: Request)
    requires IsVersion2(json) && "method" in json
    ensures MessageFrom(json) == Success(RequestMessage(r)) <==>
      && json["method"] == String(r.methodName)
      && (if "id" in json then r.id.Some? && IdReads(json["id"], r.id.value) else r.id == None)
      && ParamsRead(json, r.params)
  {
    hide IdFromJson, IdReads;
    if "id" in json && r.id.Some? { IdReadsIs(json["id"], r.id.value); }
  }

  predicate GoodId(json: Members) {
    "id" in json ==> !json["id"].Boolean? && !json["id"].Array? && !json["id"].Object?
  }

  lemma RequestRefused(json: Members)
    requires IsVersion2(json) && "method" in json
    ensures !json["method"].String? ==> MessageFrom(json) == Failure(TypeError)
    ensures json["method"].String? && !GoodId(json) ==>
      MessageFrom(json) == Failure(ProtocolError(BadId))
    ensures json["method"].String? && GoodId(json) && "params" in json
            && (json["params"].Boolean? || json["params"].Integer? || json["params"].Decimal?
                || json["params"].String?) ==>
      MessageFrom(json) == Failure(ProtocolError(BadParams))
  {
  }

  // The error object of a response, with its data inside (JSON-RPC 2.0, section 5.1).
  predicate ErrorReads(v: Value, e: ResponseError) {
    && v.Object? && "code" in v.members && "message" in v.members
    && v.members["message"] == String(e.message)
    && (match v.members["code"]
        case Integer(i) => e.code == i
        case Decimal(d) => IsWhole(d, e.code)
        case _ => false)
    && e.data == if "data" in v.members then Some(v.members["data"]) else None
  }

  lemma ErrorReadsIs(v: Value, e: ResponseError)
    ensures ErrorReads(v, e) <==> ErrorFrom(v) == Success(e)
  {
    if v.Object? && "code" in v.members && v.members["code"].Decimal? { WholeIs(v.members["code"].d, e.code); }
  }

  // A response needs exactly one of result and error; without an id it has a null id.
  lemma ResponseRead(json: Members, r: Response)
    requires IsVersion2(json) && "method" !in json
    ensures MessageFrom(json) == Success(ResponseMessage(r)) <==>
      && (if "id" in json then IdReads(json["id"], r.id) else r.id == NullId)
      && r.result == (if "result" in json then Some(json["result"]) else None)
      && (if "error" in json then r.error.Some? && ErrorReads(json["error"], r.error.value) else r.error == None)
      && ("result" in json <==> "error" !in json)
  {
    hide IdFromJson, IdReads, ErrorFrom, ErrorReads;
    if "id" in json { IdReadsIs(json["id"], r.id); }
    if "error" in json && r.error.Some? { ErrorReadsIs(json["error"], r.error.value); }
  }

  lemma ErrorRefused(v: Value)
    ensures !v.Object? ==> ErrorFrom(v) == Failure(TypeError)
    ensures v.Object? && "code" !in v.members ==> ErrorFrom(v) == Failure(ProtocolError(CodeMissing))
    ensures v.Object? && "code" in v.members && !v.members["code"].Integer? && !v.members["code"].Decimal? ==>
      ErrorFrom(v) == Failure(ProtocolError(CodeNotNumber))
    ensures v.Object? && "code" in v.members && v.members["code"].Integer? ==>
      && ("message" !in v.members ==> ErrorFrom(v) == Failure(ProtocolError(MessageMissing)))
      && ("message" in v.members && !v.members["message"].String? ==>
            ErrorFrom(v) == Failure(ProtocolError(MessageNotString)))
  {
  }

  lemma ResponseRefused(json: Members)
    requires IsVersion2(json) && "method" !in json
    ensures !GoodId(json) ==> MessageFrom(json) == Failure(ProtocolError(BadId))
    ensures GoodId(json) && "error" in json && ErrorFrom(json["error"]).Failure? ==>
      MessageFrom(json) == Failure(ErrorFrom(json["error"]).error)
    ensures GoodId(json) && "result" !in json && "error" !in json ==>
      MessageFrom(json) == Failure(ProtocolError(ResultOrError))
    ensures GoodId(json) && "result" in json && "error" in json && ErrorFrom(json["error"]).Success? ==>
      MessageFrom(json) == Failure(ProtocolError(ResultOrError))
  {
    hide ErrorFrom;
  }

  // ---------------------------------------------------------------- batches

  // A batch is read message by message; the first that fails decides.
  lemma {:induction false} BatchRead(json: seq<Value>, ms: seq<Message>)
    requires json != []
    ensures NonEmptyBatchFrom(json) == Success(ms) <==>
      |ms| == |json|
      && forall i | 0 <= i < |json| :: json[i].Object? && MessageFrom(json[i].members) == Success(ms[i])
    decreases |json|
  {
    hide MessageFrom;
    BatchFromIs(json, ms);
  }

  lemma {:induction false} BatchFromIs(json: seq<Value>, ms: seq<Message>)
    ensures BatchFrom(json) == Success(ms) <==>
      |ms| == |json|
      && forall i | 0 <= i < |json| :: json[i].Object? && MessageFrom(json[i].members) == Success(ms[i])
    decreases |json|
  {
    hide MessageFrom;
    if json != [] && ms != [] {
      BatchFromIs(json[1..], ms[1..]);
      assert ms == [ms[0]] + ms[1..];
      assert forall i | 0 < i < |json| :: json[i] == json[1..][i - 1];
      assert forall i | 0 < i < |ms| :: ms[i] == ms[1..][i - 1];
    }
  }

  // What is wrong with one element.
  function ElementError(v: Value): Option<EnvelopeError> {
    match v
    case Object(members) =>
      (match MessageFrom(members)
       case Success(_) => None
       case Failure(e) => Some(e))
    case _ => Some(TypeError)
  }

  // The empty batch is refused, and otherwise the first element that is wrong decides.
  lemma {:induction false} BatchRefused(json: seq<Value>, k: nat)
    requires k <= |json| && forall i | 0 <= i < k :: ElementError(json[i]) == None
    ensures json == [] ==> NonEmptyBatchFrom(json) == Failure(ProtocolError(EmptyBatch))
    ensures k < |json| && ElementError(json[k]).Some? ==>
      NonEmptyBatchFrom(json) == Failure(ElementError(json[k]).value)
  {
    hide ElementError, MessageFrom;
    if k < |json| && ElementError(json[k]).Some? { FirstError(json, k); }
  }

  lemma {:induction false} FirstError(json: seq<Value>, k: nat)
    requires k < |json| && forall i | 0 <= i < k :: ElementError(json[i]) == None
    requires ElementError(json[k]).Some?
    ensures BatchFrom(json) == Failure(ElementError(json[k]).value)
    decreases k
  {
    hide MessageFrom;
    if k > 0 {
      assert ElementError(json[0]) == None;
      FirstError(json[1..], k - 1);
    }
  }

  // A message is exact exactly when its JSON is: no decimal in it, and no integer beyond
  // 32 bits.
  lemma ExactMessageIs(m: Message)
    ensures ExactMessage(m) <==> Exact(Object(MessageJson(m)))
  {
    hide Exact, MessageJson, ExactMessage;
    if ExactMessage(m) { ExactJson(m); }
    if Exact(Object(MessageJson(m))) {
      match m {
        case RequestMessage(r) => ExactRequest(r);
        case ResponseMessage(r) => ExactResponse(r);
      }
    }
  }

  lemma ExactMember(json: Members, key: string)
    requires Exact(Object(json)) && key in json
    ensures Exact(json[key])
  {
  }

  lemma ExactIds(id: MessageId, v: Value)
    requires IdIs(id, v) && Exact(v)
    ensures ExactId(id)
  {
  }

  lemma ExactRequest(r: Request)
    requires Exact(Object(MessageJson(RequestMessage(r))))
    ensures ExactMessage(RequestMessage(r))
  {
    hide Exact, MessageJson, IdIs;
    var json := MessageJson(RequestMessage(r));
    RequestWritten(r);
    if r.id.Some? { ExactMember(json, "id"); ExactIds(r.id.value, json["id"]); }
    if r.params.Some? { ExactMember(json, "params"); }
  }

  lemma ExactResponse(r: Response)
    requires Exact(Object(MessageJson(ResponseMessage(r))))
    ensures ExactMessage(ResponseMessage(r))
  {
    hide Exact, MessageJson, IdIs;
    var json := MessageJson(ResponseMessage(r));
    ResponseWritten(r);
    ExactMember(json, "id");
    ExactIds(r.id, json["id"]);
    if r.result.Some? { ExactMember(json, "result"); }
    if r.error.Some? {
      var e := json["error"].members;
      ExactMember(json, "error");
      ExactMember(e, "code");
      ExactInteger(r.error.value.code);
      if r.error.value.data.Some? { ExactMember(json, "data"); }
    }
  }

  lemma ExactInteger(i: int)
    requires Exact(Integer(i))
    ensures IsInt32(i)
  {
  }

  // ---------------------------------------------------------------- unreadable messages

  // What keeps a content from being a packet: its text, for which std::stod may throw; a
  // value that is no object and no array; or a message that is none, for which an
  // accessor may throw.  What those two throw is lost as a broken connection.
  lemma ContentTells(c: Conversions, content: string)
    ensures match Document(c, content)
      case Failure(StodError) => ContentPacket(c, content) == Failure(Lost)
      case Failure(ParseError(kind, pos)) => ContentPacket(c, content) == Failure(BadJson(ParseError(kind, pos)))
      case Success(v) => PacketReads(v, ContentPacket(c, content))
  {
    hide Document, MessageFrom, NonEmptyBatchFrom;
  }

  predicate PacketReads(v: Value, r: Result<Packet, ReceiveError>) {
    match v
    case Object(members) =>
      (match MessageFrom(members)
       case Success(message) => r == Success(Single(message))
       case Failure(TypeError) => r == Failure(Lost)
       case Failure(ProtocolError(kind)) => r == Failure(BadMessage(kind)))
    case Array(elements) =>
      (match NonEmptyBatchFrom(elements)
       case Success(messages) => r == Success(Batch(messages))
       case Failure(TypeError) => r == Failure(Lost)
       case Failure(ProtocolError(kind)) => r == Failure(BadMessage(kind)))
    case _ => r == Failure(NotObjectOrArray)
  }

  // A text that is no JSON is answered with -32700, a message that is none with -32600,
  // under a null id; nothing else is answered.
  lemma ComplaintSays(describe: ReceiveError -> string, e: ReceiveError)
    ensures e.BadJson? || e.BadMessage? || e.NotObjectOrArray? ==>
      Complaint(describe, e) ==
        Some(Single(ResponseMessage(Response(NullId, None,
          Some(ResponseError(if e.BadJson? then -32700 else -32600, describe(e), None))))))
    ensures e.BadFrame? || e.Lost? ==> Complaint(describe, e) == None
  {
  }

  // ---------------------------------------------------------------- frames

  lemma FrameWritten(content: string)
    ensures FrameText(content) ==
      "Content-Length: " + NatText(|content|) + "\r\n"
      + "Content-Type: " + "application/vscode-jsonrpc; charset=utf-8" + "\r\n"
      + "\r\n" + content
  {
    hide NatText;
    Glue("Content-Length: " + NatText(|content|) + "\r\n", "Content-Type: ", DEFAULT_CONTENT_TYPE, "\r\n");
  }

  lemma Glue(line: string, key: string, value: string, end: string)
    ensures line + (key + value + end) == line + key + value + end
  {
    Assoc(line, key + value, end);
    Assoc(line, key, value);
  }

  // The same letters, in any case.
  predicate SameLetters(a: string, b: string) {
    |a| == |b| && forall i | 0 <= i < |a| :: SameLetter(a[i], b[i])
  }

  predicate SameLetter(a: char, b: char) {
    || a == b
    || (IsUpper(a) && IsLower(b) && a as int + 32 == b as int)
    || (IsLower(a) && IsUpper(b) && a as int == b as int + 32)
  }

  lemma SameLettersIs(a: string, b: string)
    ensures SameLetters(a, b) <==> EqualCaseInsensitive(a, b)
  {
    if |a| == |b| {
      forall i | 0 <= i < |a| ensures SameLetter(a[i], b[i]) <==> ToLower(a[i]) == ToLower(b[i]) {
        Cases(a[i]);
        Cases(b[i]);
      }
    }
  }

  // Two fields are known, by name in any case; the length is a decimal number that fits
  // 64 bits.
  lemma FieldSays(header: Header, key: string, value: string)
    ensures SameLetters(key, "Content-Length") ==>
      HeaderField(header, key, value) ==
        if value != "" && Figures(value) && Places(value) <= 0xFFFF_FFFF_FFFF_FFFF then
          Success(Header(Places(value), header.contentType))
        else Failure(InvalidContentLength)
    ensures SameLetters(key, "Content-Type") ==>
      HeaderField(header, key, value) == Success(Header(header.contentLength, value))
    ensures !SameLetters(key, "Content-Length") && !SameLetters(key, "Content-Type") ==>
      HeaderField(header, key, value) == Success(header)
  {
    hide EqualCaseInsensitive, SameLetters, Places, DigitsValue;
    SameLettersIs(key, "Content-Length");
    SameLettersIs(key, "Content-Type");
    if Figures(value) {
      DigitsPlaces(value);
    } else {
      var c :| c in value && !IsFigure(c);
      assert !IsDigit(c);
    }
    NotBoth(key);
  }

  lemma NotBoth(key: string)
    ensures !(SameLetters(key, "Content-Length") && SameLetters(key, "Content-Type"))
  {
    assert |"Content-Length"| != |"Content-Type"|;
  }

  // ---------------------------------------------------------------- content types

  const MEDIA := "application/vscode-jsonrpc"

  // Another media type is refused.
  lemma OtherMedia(contentType: string)
    ensures !(MEDIA <= contentType) ==> ContentTypeError(contentType) == Some(UnsupportedContentType)
  {
  }

  // Without a charset the type is accepted.
  lemma NoCharset(parameters: string)
    requires '=' !in parameters
    ensures ContentTypeError(MEDIA + parameters) == None
  {
    hide Trim;
    var s := MEDIA + parameters;
    assert '=' in "charset=" && '=' !in s;
    forall j | 0 <= j <= |s| ensures !At(s, j, "charset=") {
      if At(s, j, "charset=") { AtHas(s, j, "charset=", '='); }
    }
    NotFound(s, "charset=", 0);
  }

  lemma AtHas(s: string, j: nat, pattern: string, c: char)
    requires At(s, j, pattern) && c in pattern
    ensures exists k :: 0 <= k < |pattern| && j + k < |s| && s[j + k] == c == pattern[k] && c in s
  {
    var k :| 0 <= k < |pattern| && pattern[k] == c;
    assert s[j..j + |pattern|][k] == s[j + k];
  }

  // A charset has to be utf-8 or utf8, with blanks around it, up to a semicolon or the
  // end.
  lemma CharsetDecides(before: string, blank: string, word: string, trail: string, rest: string)
    requires '=' !in before && Without(blank + word + trail, ";")
    requires forall c | c in blank + trail :: c in WHITESPACE
    requires word != "" && word[0] !in WHITESPACE && word[|word| - 1] !in WHITESPACE
    requires rest == "" || rest[0] == ';'
    ensures ContentTypeError(MEDIA + before + ("charset=" + (blank + word + trail + rest))) ==
      if word == "utf-8" || word == "utf8" then None else Some(UnsupportedCharset)
  {
    hide Trim, Find;
    var a := MEDIA + before;
    var inner := blank + word + trail;
    var s := a + ("charset=" + (inner + rest));
    assert '=' !in a;
    assert "charset" + ['='] == "charset=";
    FindMarked(a, "charset", '=', inner + rest);
    Split(a, "charset=" + (inner + rest));
    Split("charset=", inner + rest);
    DropDrop(s, |a|, 8);
    assert s[|a| + 8..] == inner + rest;
    assert MEDIA <= s;
    UpToSemicolon(inner, rest);
    Padded(blank, word, trail);
  }

  lemma UpToSemicolon(inner: string, rest: string)
    requires Without(inner, ";") && (rest == "" || rest[0] == ';')
    ensures match Find(inner + rest, ";", 0)
      case None => rest == "" && inner + rest == inner
      case Some(j) => j == |inner| && (inner + rest)[..j] == inner
  {
    var s := inner + rest;
    forall j | 0 <= j < |inner| ensures !At(s, j, ";") {
      assert s[j] == inner[j] && inner[j] in inner;
      if At(s, j, ";") { AtHas(s, j, ";", ';'); }
    }
    if rest == "" {
      assert s == inner;
      NotFound(s, ";", 0);
    } else {
      assert s[|inner|..|inner| + 1] == ";";
      FindFirst(s, ";", 0, |inner|);
    }
  }

  lemma Padded(blank: string, word: string, trail: string)
    requires forall c | c in blank + trail :: c in WHITESPACE
    requires word != "" && word[0] !in WHITESPACE && word[|word| - 1] !in WHITESPACE
    ensures Trim(blank + word + trail) == word
  {
    hide IsSpace;
    forall c | c in blank ensures IsSpace(c) { assert c in blank + trail; Classes(c); }
    forall c | c in trail ensures IsSpace(c) { assert c in blank + trail; Classes(c); }
    Classes(word[0]);
    Classes(word[|word| - 1]);
    Assoc(blank, word, trail);
    TrimBoth(blank, word, trail);
  }

  lemma TrimBoth(blank: string, word: string, trail: string)
    requires AllSpace(blank) && AllSpace(trail)
    requires word != "" && !IsSpace(word[0]) && !IsSpace(word[|word| - 1])
    ensures Trim(blank + (word + trail)) == word
  {
    TrimLeading(blank, word + trail);
    TrimTrailing(word, trail);
  }

  lemma {:induction false} TrimLeading(blank: string, s: string)
    requires AllSpace(blank) && s != "" && !IsSpace(s[0])
    ensures TrimLeft(blank + s) == s
  {
    if blank == "" {
      assert blank + s == s;
    } else {
      assert blank[0] in blank && (blank + s)[1..] == blank[1..] + s;
      forall c | c in blank[1..] ensures IsSpace(c) { assert c in blank; }
      TrimLeading(blank[1..], s);
    }
  }

  lemma {:induction false} TrimTrailing(s: string, trail: string)
    requires AllSpace(trail) && s != "" && !IsSpace(s[|s| - 1])
    ensures TrimRight(s + trail) == s
  {
    if trail == "" {
      assert s + trail == s;
    } else {
      var n := |trail| - 1;
      assert trail[n] in trail && (s + trail)[..|s| + n] == s + trail[..n];
      forall c | c in trail[..n] ensures IsSpace(c) { assert c in trail; }
      TrimTrailing(s, trail[..n]);
    }
  }

  // ---------------------------------------------------------------- headers that end badly

  predicate IsLine(line: string) {
    line != "" && line[0] as int != 0xFF && forall c | c in line :: c != '\r' && c != '\n'
  }

  // No byte, or the byte that stands for the end.
  lemma NothingComes(t: string)
    requires t == "" || t[0] as int == 0xFF
    ensures ReadFrame(t, 0) == Failure(ConnectionLost)
  {
  }

  // A carriage return alone, in the place of the empty line.
  lemma HeaderUnfinished(t: string)
    requires t != "" && t[0] == '\r' && (|t| == 1 || t[1] != '\n')
    ensures ReadFrame(t, 0) == Failure(HeaderNotTerminated)
  {
  }

  // A line feed without a carriage return.
  lemma LineFeedAlone(line: string, rest: string)
    requires IsLine(line)
    ensures ReadFrame(line + "\n" + rest, 0) == Failure(UnexpectedNewline)
  {
    hide HeaderLine;
    var t := line + "\n" + rest;
    Inside(line, "\n" + rest);
    Assoc(line, "\n", rest);
    assert t[|line|] == '\n';
    LineRuns(t, 0, |line|);
  }

  // The input ends inside a line.
  lemma LineEndless(line: string)
    requires IsLine(line)
    ensures ReadFrame(line, 0) == Failure(EndlessLine)
  {
    hide HeaderLine;
    assert forall i | 0 <= i < |line| :: line[i] in line;
    LineRuns(line, 0, |line|);
  }

  // A carriage return without a line feed, behind a field that is in order; one that is
  // not decides first.
  lemma ReturnAlone(line: string, rest: string)
    requires IsLine(line) && (rest == "" || rest[0] != '\n')
    ensures ReadFrame(line + "\r" + rest, 0) ==
      match HeaderLine(Header(0, DEFAULT_CONTENT_TYPE), line)
      case Success(_) => Failure(LineNotTerminated)
      case Failure(e) => Failure(e)
  {
    hide HeaderLine;
    var t := line + "\r" + rest;
    Inside(line, "\r" + rest);
    Assoc(line, "\r", rest);
    assert t[|line|] == '\r' && t[0..|line|] == line;
    assert rest != "" ==> t[|line| + 1] == rest[0];
    LineRuns(t, 0, |line|);
  }

  lemma Inside(line: string, rest: string)
    requires IsLine(line)
    ensures forall i | 0 <= i < |line| :: (line + rest)[i] == line[i] && line[i] in line
  {
  }

  lemma {:induction false} LineRuns(t: string, p: nat, end: nat)
    requires p <= end <= |t| && forall i | p <= i < end :: t[i] != '\r' && t[i] != '\n'
    ensures LineEnd(t, p) ==
      if end == |t| then Failure(EndlessLine)
      else if t[end] == '\r' then Success(end)
      else if t[end] == '\n' then Failure(UnexpectedNewline)
      else LineEnd(t, end)
    decreases end - p
  {
    if p < end { LineRuns(t, p + 1, end); }
  }

  // The content is what comes next, as long as announced; what does not come is zero.
  lemma ContentSays(t: string, p: nat, length: nat)
    requires p <= |t|
    ensures |ContentAt(t, p, length)| == length
    ensures forall i | 0 <= i < length ::
      if p + i < |t| then ContentAt(t, p, length)[i] == t[p + i] else ContentAt(t, p, length)[i] as int == 0
  {
  }
}
