// lsp/jsonrpc/jsonrpc.cpp: requests, responses and batches, to and from JSON.
module JsonRpc {
  import opened Wrappers
  import opened Json

  datatype MessageId = NullId | IntegerId(i: int) | StringId(s: string)

  datatype Request = Request(id: Option<MessageId>, methodName: string, params: Option<Value>)

  datatype ResponseError = ResponseError(code: int, message: string, data: Option<Value>)

  datatype Response = Response(id: MessageId, result: Option<Value>, error: Option<ResponseError>)

  datatype Message = RequestMessage(request: Request) | ResponseMessage(response: Response)

  const PARSE_ERROR := -32700
  const INVALID_REQUEST := -32600
  const METHOD_NOT_FOUND := -32601
  const INVALID_PARAMS := -32602
  const INTERNAL_ERROR := -32603

  datatype ProtocolErrorKind =
    | VersionMissing | VersionNotString | VersionUnsupported
    | BadId | BadParams
    | CodeMissing | CodeNotNumber | MessageMissing | MessageNotString
    | ResultOrError
    | EmptyBatch

  // ProtocolError, or the json::TypeError of an accessor.
  datatype EnvelopeError = ProtocolError(kind: ProtocolErrorKind) | TypeError

  type Members = map<string, Value>

  // ---------------------------------------------------------------- writing

  function IdJson(id: MessageId): Value {
    match id
    case NullId => Null
    case IntegerId(i) => Integer(i)
    case StringId(s) => String(s)
  }

  // Sets one optional property of an object.
  function With(json: Members, key: string, value: Option<Value>): Members {
    if value.Some? then json[key := value.value] else json
  }

  function IdOption(id: Option<MessageId>): Option<Value> {
    if id.Some? then Some(IdJson(id.value)) else None
  }

  function ErrorJson(e: ResponseError): Value {
    Object(map["code" := Integer(e.code), "message" := String(e.message)])
  }

  function Envelope(): Members { map["jsonrpc" := String("2.0")] }

  function RequestJson(r: Request): Members {
    With(With(Envelope(), "id", IdOption(r.id))["method" := String(r.methodName)], "params", r.params)
  }

  // The data of an error goes beside it, not into it.
  function ResponseJson(r: Response): Members {
    var json := With(Envelope()["id" := IdJson(r.id)], "result", r.result);
    if r.error.Some? then With(json, "data", r.error.value.data)["error" := ErrorJson(r.error.value)] else json
  }

  function MessageJson(m: Message): Members {
    match m
    case RequestMessage(r) => RequestJson(r)
    case ResponseMessage(r) => ResponseJson(r)
  }

  method MessageToJson(message: Message) returns (json: Members)
    ensures json == MessageJson(message)
  {
    json := map[];
    json := json["jsonrpc" := String("2.0")];
    assert json == Envelope();
    match message {
      case RequestMessage(request) =>
        if request.id.Some? {
          json := json["id" := IdJson(request.id.value)];
        }
        json := json["method" := String(request.methodName)];
        if request.params.Some? {
          json := json["params" := request.params.value];
        }
      case ResponseMessage(response) =>
        json := json["id" := IdJson(response.id)];
        if response.result.Some? {
          json := json["result" := response.result.value];
        }
        if response.error.Some? {
          var responseError := response.error.value;
          var errorJson: Members := map[];
          errorJson := errorJson["code" := Integer(responseError.code)];
          errorJson := errorJson["message" := String(responseError.message)];
          assert Object(errorJson) == ErrorJson(responseError);
          if responseError.data.Some? {
            json := json["data" := responseError.data.value];
          }
          json := json["error" := Object(errorJson)];
        }
    }
  }

  function BatchJson(batch: seq<Message>): seq<Value> {
    seq(|batch|, i requires 0 <= i < |batch| => Object(MessageJson(batch[i])))
  }

  method MessageBatchToJson(batch: seq<Message>) returns (json: seq<Value>)
    ensures json == BatchJson(batch)
  {
    json := [];
    for i := 0 to |batch|
      invariant json == BatchJson(batch)[..i]
    {
      var message := MessageToJson(batch[i]);
      json := json + [Object(message)];
    }
  }

  // ---------------------------------------------------------------- reading

  function IdFromJson(v: Value): Result<MessageId, EnvelopeError> {
    if v.String? then Success(StringId(v.s))
    else if IsNumber(v) then Success(IntegerId(Truncated(v)))
    else if v.Null? then Success(NullId)
    else Failure(ProtocolError(BadId))
  }

  function VersionError(json: Members): Option<EnvelopeError> {
    if "jsonrpc" !in json then Some(ProtocolError(VersionMissing))
    else if !json["jsonrpc"].String? then Some(ProtocolError(VersionNotString))
    else if json["jsonrpc"].s != "2.0" then Some(ProtocolError(VersionUnsupported))
    else None
  }

  function ParamsFromJson(json: Members): Result<Option<Value>, EnvelopeError> {
    if "params" !in json then Success(None)
    else
      var params := json["params"];
      if params.Object? || params.Array? then Success(Some(params))
      else if params.Null? then Success(None)
      else Failure(ProtocolError(BadParams))
  }

  function RequestFrom(json: Members): Result<Request, EnvelopeError>
    requires "method" in json
  {
    if VersionError(json).Some? then Failure(VersionError(json).value)
    else if !json["method"].String? then Failure(TypeError)
    else
      var id: Option<MessageId> :-
        if "id" !in json then Success(None)
        else match IdFromJson(json["id"])
          case Success(id) => Success(Some(id))
          case Failure(e) => Failure(e);
      var params :- ParamsFromJson(json);
      Success(Request(id, json["method"].s, params))
  }

  function ErrorFrom(error: Value): Result<ResponseError, EnvelopeError> {
    if !error.Object? then Failure(TypeError)
    else
      var e := error.members;
      if "code" !in e then Failure(ProtocolError(CodeMissing))
      else if !IsNumber(e["code"]) then Failure(ProtocolError(CodeNotNumber))
      else if "message" !in e then Failure(ProtocolError(MessageMissing))
      else if !e["message"].String? then Failure(ProtocolError(MessageNotString))
      else Success(ResponseError(Truncated(e["code"]), e["message"].s, if "data" in e then Some(e["data"]) else None))
  }

  function ResponseFrom(json: Members): Result<Response, EnvelopeError> {
    if VersionError(json).Some? then Failure(VersionError(json).value)
    else
      var id :- if "id" in json then IdFromJson(json["id"]) else Success(NullId);
      var result := if "result" in json then Some(json["result"]) else None;
      var error: Option<ResponseError> :-
        if "error" !in json then Success(None)
        else match ErrorFrom(json["error"])
          case Success(e) => Success(Some(e))
          case Failure(e) => Failure(e);
      if result.Some? == error.Some? then Failure(ProtocolError(ResultOrError))
      else Success(Response(id, result, error))
  }

  function MessageFrom(json: Members): Result<Message, EnvelopeError> {
    if "method" in json then
      var request :- RequestFrom(json);
      Success(RequestMessage(request))
    else
      var response :- ResponseFrom(json);
      Success(ResponseMessage(response))
  }

  function BatchFrom(json: seq<Value>): Result<seq<Message>, EnvelopeError> {
    if json == [] then Success([])
    else if !json[0].Object? then Failure(TypeError)
    else
      var first :- MessageFrom(json[0].members);
      var rest :- BatchFrom(json[1..]);
      Success([first] + rest)
  }

  function NonEmptyBatchFrom(json: seq<Value>): Result<seq<Message>, EnvelopeError> {
    if json == [] then Failure(ProtocolError(EmptyBatch)) else BatchFrom(json)
  }

  method RequestFromJson(json: Members) returns (r: Result<Request, EnvelopeError>)
    requires "method" in json
    ensures r == RequestFrom(json)
  {
    if VersionError(json).Some? {
      return Failure(VersionError(json).value);
    }
    if !json["method"].String? {
      return Failure(TypeError);
    }
    var request := Request(None, json["method"].s, None);
    if "id" in json {
      var id := IdFromJson(json["id"]);
      if id.Failure? {
        return Failure(id.error);
      }
      request := request.(id := Some(id.value));
    }
    if "params" in json {
      var params := json["params"];
      if params.Object? || params.Array? {
        request := request.(params := Some(params));
      } else if !params.Null? {
        return Failure(ProtocolError(BadParams));
      }
    }
    return Success(request);
  }

  method ResponseFromJson(json: Members) returns (r: Result<Response, EnvelopeError>)
    ensures r == ResponseFrom(json)
  {
    if VersionError(json).Some? {
      return Failure(VersionError(json).value);
    }
    var response := Response(NullId, None, None);
    if "id" in json {
      var id := IdFromJson(json["id"]);
      if id.Failure? {
        return Failure(id.error);
      }
      response := response.(id := id.value);
    }
    if "result" in json {
      response := response.(result := Some(json["result"]));
    }
    if "error" in json {
      var error := json["error"];
      if !error.Object? {
        return Failure(TypeError);
      }
      var errorObj := error.members;
      if "code" !in errorObj {
        return Failure(ProtocolError(CodeMissing));
      }
      if !IsNumber(errorObj["code"]) {
        return Failure(ProtocolError(CodeNotNumber));
      }
      var responseError := ResponseError(Truncated(errorObj["code"]), "", None);
      if "message" !in errorObj {
        return Failure(ProtocolError(MessageMissing));
      }
      if !errorObj["message"].String? {
        return Failure(ProtocolError(MessageNotString));
      }
      responseError := responseError.(message := errorObj["message"].s);
      if "data" in errorObj {
        responseError := responseError.(data := Some(errorObj["data"]));
      }
      response := response.(error := Some(responseError));
    }
    if (response.result.Some? && response.error.Some?) || (!response.result.Some? && !response.error.Some?) {
      return Failure(ProtocolError(ResultOrError));
    }
    return Success(response);
  }

  method MessageFromJson(json: Members) returns (r: Result<Message, EnvelopeError>)
    ensures r == MessageFrom(json)
  {
    if "method" in json {
      var request := RequestFromJson(json);
      r := if request.Success? then Success(RequestMessage(request.value)) else Failure(request.error);
    } else {
      var response := ResponseFromJson(json);
      r := if response.Success? then Success(ResponseMessage(response.value)) else Failure(response.error);
    }
  }

  function Prepended(first: seq<Message>,
                     rest: Result<seq<Message>, EnvelopeError>): Result<seq<Message>, EnvelopeError> {
    match rest
    case Success(batch) => Success(first + batch)
    case Failure(e) => Failure(e)
  }

  lemma PrependedNothing(rest: Result<seq<Message>, EnvelopeError>)
    ensures Prepended([], rest) == rest
  {
    if rest.Success? { assert [] + rest.value == rest.value; }
  }

  lemma PrependedNext(first: seq<Message>, m: Message, rest: Result<seq<Message>, EnvelopeError>)
    ensures Prepended(first, Prepended([m], rest)) == Prepended(first + [m], rest)
  {
    if rest.Success? { assert first + ([m] + rest.value) == (first + [m]) + rest.value; }
  }

  method MessageBatchFromJson(json: seq<Value>) returns (r: Result<seq<Message>, EnvelopeError>)
    ensures r == NonEmptyBatchFrom(json)
  {
    hide MessageFrom;
    if json == [] {
      return Failure(ProtocolError(EmptyBatch));
    }
    var batch: seq<Message> := [];
    PrependedNothing(BatchFrom(json));
    assert json[0..] == json;
    for i := 0 to |json|
      invariant BatchFrom(json) == Prepended(batch, BatchFrom(json[i..]))
    {
      assert json[i..][0] == json[i] && json[i..][1..] == json[i + 1..];
      if !json[i].Object? {
        return Failure(TypeError);
      }
      var message := MessageFromJson(json[i].members);
      if message.Failure? {
        return Failure(message.error);
      }
      PrependedNext(batch, message.value, BatchFrom(json[i + 1..]));
      batch := batch + [message.value];
    }
    assert json[|json|..] == [];
    assert batch + [] == batch;
    return Success(batch);
  }

  // ---------------------------------------------------------------- round trip

  // What the receiver gets back unchanged: a request whose params are absent,
  // an object or an array; a response with either a result or an error, and no
  // error data.
  predicate Transmittable(m: Message) {
    match m
    case RequestMessage(r) => r.params.None? || r.params.value.Object? || r.params.value.Array?
    case ResponseMessage(r) =>
      r.result.Some? != r.error.Some? && (r.error.Some? ==> r.error.value.data.None?)
  }

  lemma IdRoundTrip(id: MessageId)
    ensures IdFromJson(IdJson(id)) == Success(id)
  {
  }

  lemma RequestRoundTrip(r: Request)
    ensures MessageFrom(MessageJson(RequestMessage(r))) == Success(RequestMessage(r)) <==>
      Transmittable(RequestMessage(r))
  {
    var json := MessageJson(RequestMessage(r));
    assert json["jsonrpc"] == String("2.0") && json["method"] == String(r.methodName);
    assert "id" in json <==> r.id.Some?;
    assert "params" in json <==> r.params.Some?;
    if r.id.Some? { IdRoundTrip(r.id.value); }
  }

  lemma ResponseRoundTrip(r: Response)
    ensures MessageFrom(MessageJson(ResponseMessage(r))) == Success(ResponseMessage(r)) <==>
      Transmittable(ResponseMessage(r))
  {
    var json := MessageJson(ResponseMessage(r));
    assert "method" !in json && json["jsonrpc"] == String("2.0") && json["id"] == IdJson(r.id);
    assert "result" in json <==> r.result.Some?;
    assert "error" in json <==> r.error.Some?;
    IdRoundTrip(r.id);
  }

  // A message survives the trip through JSON exactly when it is transmittable.
  lemma MessageRoundTrip(m: Message)
    ensures MessageFrom(MessageJson(m)) == Success(m) <==> Transmittable(m)
  {
    match m
    case RequestMessage(r) => RequestRoundTrip(r);
    case ResponseMessage(r) => ResponseRoundTrip(r);
  }

  // An error response with data comes back without it.
  lemma ErrorDataLost(data: Value)
    ensures var m := ResponseMessage(Response(IntegerId(1), None, Some(ResponseError(-32603, "x", Some(data)))));
      MessageFrom(MessageJson(m)) ==
        Success(m.(response := m.response.(error := Some(ResponseError(-32603, "x", None)))))
  {
    var e := ResponseError(-32603, "x", Some(data));
    var json := MessageJson(ResponseMessage(Response(IntegerId(1), None, Some(e))));
    assert "method" !in json && "result" !in json && json["jsonrpc"] == String("2.0") && json["id"] == Integer(1);
    assert json["error"] == ErrorJson(e);
  }

  // Params that are neither an object nor an array are refused.
  lemma ScalarParamsRefused()
    ensures var m := RequestMessage(Request(Some(IntegerId(1)), "m", Some(Boolean(true))));
      MessageFrom(MessageJson(m)) == Failure(ProtocolError(BadParams))
  {
    var json := MessageJson(RequestMessage(Request(Some(IntegerId(1)), "m", Some(Boolean(true)))));
    assert json["jsonrpc"] == String("2.0") && json["method"] == String("m") && json["id"] == Integer(1);
    assert json["params"] == Boolean(true);
  }

  // A message that was read can be passed on unchanged exactly when it is no
  // error response with data.
  lemma ReadThenWritten(json: Members, m: Message)
    requires MessageFrom(json) == Success(m)
    ensures MessageFrom(MessageJson(m)) == Success(m) <==>
      !(m.ResponseMessage? && m.response.error.Some? && m.response.error.value.data.Some?)
  {
    hide MessageJson;
    MessageRoundTrip(m);
  }

  lemma {:induction false} BatchFromMessages(batch: seq<Message>)
    ensures BatchFrom(BatchJson(batch)) == Success(batch) <==> forall m | m in batch :: Transmittable(m)
  {
    hide MessageFrom, MessageJson, Transmittable;
    if batch != [] {
      assert BatchJson(batch)[1..] == BatchJson(batch[1..]);
      MessageRoundTrip(batch[0]);
      BatchFromMessages(batch[1..]);
      assert batch == [batch[0]] + batch[1..];
    }
  }

  // A batch survives exactly when it is not empty and each message does.
  lemma BatchRoundTrip(batch: seq<Message>)
    ensures NonEmptyBatchFrom(BatchJson(batch)) == Success(batch) <==>
      batch != [] && forall m | m in batch :: Transmittable(m)
  {
    BatchFromMessages(batch);
  }
}
