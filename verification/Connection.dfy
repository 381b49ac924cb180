// lsp/connection.cpp, Connection: messages over a stream, end to end.
module Connection {
  import opened Wrappers
  import opened Text
  import opened Json
  import opened JsonGrammar
  import opened JsonPrinter
  import opened JsonRpc
  import JsonParser
  import opened Framing

  // What one frame carries.
  datatype Packet = Single(message: Message) | Batch(messages: seq<Message>)

  // How the members of each written object are visited.  It may differ from one
  // message to the next.
  type Iteration = Members -> Tree

  ghost predicate Faithful(iteration: Iteration) {
    forall json: Members :: ValueOf(iteration(json)) == Object(json) && DistinctKeys(iteration(json))
  }

  // The exceptions of readMessage.  Lost stands for ConnectionError, which also
  // replaces json::TypeError and the exceptions of std::stod.
  datatype ReceiveError =
    | BadFrame(frameError: FrameError)
    | BadJson(parseError: Error)
    | BadMessage(kind: ProtocolErrorKind)
    | NotObjectOrArray
    | Lost

  datatype Received = Received(packet: Packet, next: nat)

  // ---------------------------------------------------------------- reading

  function PacketFrom(v: Value): Result<Packet, ReceiveError> {
    if v.Object? then
      match MessageFrom(v.members)
      case Success(m) => Success(Single(m))
      case Failure(e) => Failure(if e.TypeError? then Lost else BadMessage(e.kind))
    else if v.Array? then
      match NonEmptyBatchFrom(v.elements)
      case Success(ms) => Success(Batch(ms))
      case Failure(e) => Failure(if e.TypeError? then Lost else BadMessage(e.kind))
    else Failure(NotObjectOrArray)
  }

  function ContentPacket(c: Conversions, content: string): Result<Packet, ReceiveError> {
    match Document(c, content)
    case Failure(e) => Failure(if e.StodError? then Lost else BadJson(e))
    case Success(v) => PacketFrom(v)
  }

  function Receive(c: Conversions, t: string, p: nat): Result<Received, ReceiveError> {
    match ReadFrame(t, p)
    case Failure(e) => Failure(BadFrame(e))
    case Success(frame) =>
      var packet :- ContentPacket(c, frame.content);
      Success(Received(packet, frame.next))
  }

  // ---------------------------------------------------------------- writing

  function PacketTree(iteration: Iteration, packet: Packet): Tree {
    match packet
    case Single(m) => iteration(MessageJson(m))
    case Batch(ms) => List(seq(|ms|, i requires 0 <= i < |ms| => iteration(MessageJson(ms[i]))))
  }

  function TreeText(decimalText: real -> string, tree: Tree): string { Print(decimalText, tree, 0, false) }

  function PacketText(decimalText: real -> string, iteration: Iteration, packet: Packet): string {
    TreeText(decimalText, PacketTree(iteration, packet))
  }

  // The error response that answers an unreadable message, with the code and
  // the description of the error.
  function Complaint(describe: ReceiveError -> string, e: ReceiveError): Option<Packet> {
    match e
    case BadJson(_) => Some(ErrorPacket(PARSE_ERROR, describe(e)))
    case BadMessage(_) => Some(ErrorPacket(INVALID_REQUEST, describe(e)))
    case NotObjectOrArray => Some(ErrorPacket(INVALID_REQUEST, describe(e)))
    case _ => None
  }

  function ErrorPacket(code: int, message: string): Packet {
    Single(ResponseMessage(Response(NullId, None, Some(ResponseError(code, message, None)))))
  }

  class Connection {
    const stream: Stream
    const conversions: Conversions
    const decimalText: real -> string
    const describe: ReceiveError -> string

    constructor (stream: Stream, conversions: Conversions, decimalText: real -> string,
                 describe: ReceiveError -> string)
      ensures this.stream == stream && this.conversions == conversions && this.decimalText == decimalText
      ensures this.describe == describe
    {
      this.stream := stream;
      this.conversions := conversions;
      this.decimalText := decimalText;
      this.describe := describe;
    }

    method WriteMessage(packet: Packet, iteration: Iteration)
      modifies stream`output
      ensures stream.output == old(stream.output) + FrameText(PacketText(decimalText, iteration, packet))
    {
      hide Print, MessageJson;
      var tree: Tree;
      match packet {
        case Single(message) =>
          var json := MessageToJson(message);
          tree := iteration(json);
        case Batch(messages) =>
          var trees := [];
          for i := 0 to |messages|
            invariant trees == PacketTree(iteration, packet).items[..i]
            invariant stream.output == old(stream.output)
          {
            var json := MessageToJson(messages[i]);
            trees := trees + [iteration(json)];
          }
          tree := List(trees);
      }
      assert tree == PacketTree(iteration, packet);
      var text := Stringify(decimalText, tree, false);
      WriteMessageData(stream, text);
    }

    // The iteration is that of the error response.
    method ReadMessage(iteration: Iteration) returns (r: Result<Packet, ReceiveError>)
      requires stream.Valid()
      modifies stream`cursor, stream`output
      ensures stream.Valid()
      ensures match Receive(conversions, stream.input, old(stream.cursor))
        case Success(received) =>
          r == Success(received.packet) && stream.cursor == received.next && stream.output == old(stream.output)
        case Failure(e) =>
          r == Failure(e) &&
          match Complaint(describe, e)
          case None => stream.output == old(stream.output)
          case Some(complaint) =>
            stream.output == old(stream.output) + FrameText(PacketText(decimalText, iteration, complaint))
      ensures stream.cursor == FrameEnd(stream.input, old(stream.cursor))
    {
      hide FrameEnd, ReadFrame, Document, MessageFrom, NonEmptyBatchFrom, FrameText, PacketText;
      var content := ReadMessageContent(stream);
      if content.Failure? {
        return Failure(BadFrame(content.error));
      }
      var json := JsonParser.Parse(content.value, conversions);
      if json.Failure? {
        r := Failure(if json.error.StodError? then Lost else BadJson(json.error));
      } else if json.value.Object? {
        var message := MessageFromJson(json.value.members);
        r := if message.Success? then Success(Single(message.value))
             else Failure(if message.error.TypeError? then Lost else BadMessage(message.error.kind));
      } else if !json.value.Array? {
        r := Failure(NotObjectOrArray);
      } else {
        var batch := MessageBatchFromJson(json.value.elements);
        r := if batch.Success? then Success(Batch(batch.value))
             else Failure(if batch.error.TypeError? then Lost else BadMessage(batch.error.kind));
      }
      if r.Failure? {
        var complaint := Complaint(describe, r.error);
        if complaint.Some? {
          WriteMessage(complaint.value, iteration);
        }
      }
    }
  }

  // ---------------------------------------------------------------- end to end

  predicate AllTransmittable(packet: Packet) {
    match packet
    case Single(m) => Transmittable(m)
    case Batch(ms) => ms != [] && forall m | m in ms :: Transmittable(m)
  }

  ghost predicate ExactOption(v: Option<Value>) { v.Some? ==> Exact(v.value) }

  ghost predicate ExactId(id: MessageId) { id.IntegerId? ==> IsInt32(id.i) }

  // The values of the message are decimal-free, its integers are json::Integer.
  ghost predicate ExactMessage(m: Message) {
    match m
    case RequestMessage(r) => (r.id.Some? ==> ExactId(r.id.value)) && ExactOption(r.params)
    case ResponseMessage(r) =>
      && ExactId(r.id) && ExactOption(r.result)
      && (r.error.Some? ==> IsInt32(r.error.value.code) && ExactOption(r.error.value.data))
  }

  ghost predicate ExactPacket(packet: Packet) {
    match packet
    case Single(m) => ExactMessage(m)
    case Batch(ms) => forall m | m in ms :: ExactMessage(m)
  }

  lemma ExactJson(m: Message)
    requires ExactMessage(m)
    ensures Exact(Object(MessageJson(m)))
  {
    var json := MessageJson(m);
    forall k | k in json ensures Exact(json[k]) {
      if m.ResponseMessage? && m.response.error.Some? && k == "error" {
        assert json[k] == ErrorJson(m.response.error.value);
      }
    }
  }

  // What the text of a packet parses to.
  function PacketValue(packet: Packet): Value {
    match packet
    case Single(m) => Object(MessageJson(m))
    case Batch(ms) => Array(BatchJson(ms))
  }

  // A tree of the packet's value, in whatever order each of its objects is visited.
  ghost predicate Renders(tree: Tree, packet: Packet) {
    ValueOf(tree) == PacketValue(packet) && DistinctKeys(tree)
  }

  lemma PacketTreeRenders(iteration: Iteration, packet: Packet)
    requires Faithful(iteration)
    ensures Renders(PacketTree(iteration, packet), packet)
  {
    hide MessageJson;
    if packet.Batch? {
      ListValueOf(PacketTree(iteration, packet).items, BatchJson(packet.messages));
    }
  }

  lemma FaithfulExists()
    ensures exists iteration: Iteration :: Faithful(iteration)
  {
    var iteration: Iteration := json => SomeOrder(Object(json));
    forall json: Members ensures ValueOf(iteration(json)) == Object(json) && DistinctKeys(iteration(json)) {
      SomeOrderRenders(Object(json));
    }
    assert Faithful(iteration);
  }

  lemma PacketPrintable(c: Conversions, decimalText: real -> string, tree: Tree, packet: Packet)
    requires Renders(tree, packet) && ExactPacket(packet)
    ensures Printable(c, decimalText, tree)
  {
    hide MessageJson, ExactMessage, Printable, ValueOf, DistinctKeys;
    match packet {
      case Single(m) => ExactJson(m);
      case Batch(ms) =>
        forall i | 0 <= i < |ms| ensures Exact(BatchJson(ms)[i]) { ExactJson(ms[i]); }
    }
    ExactPrintable(c, decimalText, tree);
  }

  lemma PacketRoundTrip(packet: Packet)
    ensures PacketFrom(PacketValue(packet)) == Success(packet) <==> AllTransmittable(packet)
  {
    hide MessageFrom, MessageJson, NonEmptyBatchFrom, BatchJson, Transmittable;
    match packet
    case Single(m) => MessageRoundTrip(m);
    case Batch(ms) => BatchRoundTrip(ms);
  }

  // A packet whose values print exactly comes out of the stream as it went in,
  // whatever the order of the members of each of its objects, exactly when it is
  // transmittable.
  lemma EndToEnd(c: Conversions, decimalText: real -> string, tree: Tree, packet: Packet, t: string, p: nat)
    requires Renders(tree, packet) && ExactPacket(packet)
    requires At(t, p, FrameText(TreeText(decimalText, tree))) && |TreeText(decimalText, tree)| <= SIZE_MAX
    ensures Receive(c, t, p) == Success(Received(packet, p + |FrameText(TreeText(decimalText, tree))|))
       <==> AllTransmittable(packet)
  {
    hide *;
    FrameRoundTrip(t, p, TreeText(decimalText, tree));
    RendersValue(tree, packet);
    PacketPrintable(c, decimalText, tree, packet);
    PrintParse(c, decimalText, tree, false);
    PacketRoundTrip(packet);
    ReceiveParts(c, decimalText, tree, packet, t, p);
  }

  lemma RendersValue(tree: Tree, packet: Packet)
    requires Renders(tree, packet)
    ensures ValueOf(tree) == PacketValue(packet)
  {
  }

  lemma ReceiveParts(c: Conversions, decimalText: real -> string, tree: Tree, packet: Packet, t: string, p: nat)
    requires var content := TreeText(decimalText, tree);
      && ReadFrame(t, p) == Success(Frame(content, p + |FrameText(content)|))
      && Document(c, Print(decimalText, tree, 0, false)) == Success(PacketValue(packet))
    ensures Receive(c, t, p) == Success(Received(packet, p + |FrameText(TreeText(decimalText, tree))|))
       <==> PacketFrom(PacketValue(packet)) == Success(packet)
  {
    hide ReadFrame, Document, Print, PacketValue, PacketFrom, FrameText;
  }

  // A packet that was written, as its objects were visited.
  datatype Written = Written(packet: Packet, tree: Tree)

  function StreamText(decimalText: real -> string, written: seq<Written>): string
    decreases |written|
  {
    if written == [] then ""
    else FrameText(TreeText(decimalText, written[0].tree)) + StreamText(decimalText, written[1..])
  }

  function PacketsOf(written: seq<Written>): seq<Packet>
    decreases |written|
  {
    if written == [] then [] else [written[0].packet] + PacketsOf(written[1..])
  }

  function ReceiveAll(c: Conversions, t: string, p: nat, n: nat): Result<(seq<Packet>, nat), ReceiveError>
    decreases n
  {
    if n == 0 then Success(([], p))
    else
      var first :- Receive(c, t, p);
      var rest :- ReceiveAll(c, t, first.next, n - 1);
      Success(([first.packet] + rest.0, rest.1))
  }

  // A whole conversation: as many reads as there were writes give exactly the
  // packets written, in order, and consume exactly the bytes written.  No two
  // objects need to be visited in the same order.
  lemma {:induction false} Conversation(c: Conversions, decimalText: real -> string, written: seq<Written>,
                                        t: string, p: nat)
    requires forall w | w in written ::
      && Renders(w.tree, w.packet) && ExactPacket(w.packet) && AllTransmittable(w.packet)
      && |TreeText(decimalText, w.tree)| <= SIZE_MAX
    requires At(t, p, StreamText(decimalText, written))
    ensures ReceiveAll(c, t, p, |written|)
         == Success((PacketsOf(written), p + |StreamText(decimalText, written)|))
    decreases |written|
  {
    hide Receive, FrameText, TreeText, At, ExactPacket, AllTransmittable, Renders;
    if written != [] {
      var first := FrameText(TreeText(decimalText, written[0].tree));
      AtConcat(t, p, first, StreamText(decimalText, written[1..]));
      EndToEnd(c, decimalText, written[0].tree, written[0].packet, t, p);
      Conversation(c, decimalText, written[1..], t, p + |first|);
    }
  }
}
