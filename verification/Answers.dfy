// lsp/messagehandler.cpp: what the responses say, field by field.
module Answers {
  import opened Wrappers
  import opened Json
  import opened JsonRpc
  import opened MessageHandler
  import Pool = ThreadPool

  predicate NoSuchMethod(receipt: Receipt) {
    receipt.request.methodName !in receipt.registry || receipt.registry[receipt.request.methodName].Empty?
  }

  // The callback's future ends on a thread of the pool.
  predicate OnPool(receipt: Receipt) {
    !NoSuchMethod(receipt) && receipt.registry[receipt.request.methodName].Async? && receipt.call.Defers?
    && receipt.allowAsync
  }

  // The answer to a request: the value of its callback, or an error with the code,
  // the message and the data of what the callback threw.
  predicate Says(receipt: Receipt, response: Response) {
    && receipt.request.id == Some(response.id)
    && if NoSuchMethod(receipt) then
         response.result == None && response.error == Some(ResponseError(-32601, "Method not found", None))
       else
         match receipt.call.outcome
         case Returns(value) => response.result == Some(value) && response.error == None
         case RaisesRequestError(code, what, data) =>
           response.result == None
           && response.error == Some(ResponseError(code, what, if OnPool(receipt) then None else data))
         case RaisesTypeError(what) =>
           response.result == None
           && response.error == Some(ResponseError(if OnPool(receipt) then -32603 else -32602, what, None))
         case RaisesException(what) =>
           response.result == None && response.error == Some(ResponseError(-32603, what, None))
  }

  // Who is answered: requests with an id that is not null, and of the others those
  // with an explicit null whose callback is missing or throws at once.
  predicate IsAnswered(receipt: Receipt) {
    match receipt.request.id
    case None => false
    case Some(id) =>
      || id != NullId || NoSuchMethod(receipt)
      || (!receipt.call.outcome.Returns? && !OnPool(receipt))
  }

  lemma DueSays(receipt: Receipt)
    ensures Due(receipt).Some? <==> IsAnswered(receipt)
    ensures Due(receipt).Some? ==> Says(receipt, Due(receipt).value)
  {
  }

  // ---------------------------------------------------------------- over runs

  lemma {:induction false} DueFrom(received: seq<Receipt>, response: Response)
    requires response in DueAll(received)
    ensures exists k :: 0 <= k < |received| && IsAnswered(received[k]) && Says(received[k], response)
  {
    hide Due, Says, IsAnswered;
    var n := |received| - 1;
    var before := received[..n];
    DueSays(received[n]);
    if response in DueAll(before) {
      DueFrom(before, response);
      var k :| 0 <= k < |before| && IsAnswered(before[k]) && Says(before[k], response);
      assert received[k] == before[k];
    }
  }

  lemma {:induction false} DueOf(received: seq<Receipt>, k: nat)
    requires k < |received| && IsAnswered(received[k])
    ensures exists response :: response in DueAll(received) && Says(received[k], response)
  {
    hide Due, Says, IsAnswered;
    var n := |received| - 1;
    DueSays(received[k]);
    if k == n {
      assert Due(received[n]).value in DueAll(received);
    } else {
      DueOf(received[..n], k);
      var response :| response in DueAll(received[..n]) && Says(received[k], response);
      assert response in DueAll(received);
    }
  }

  lemma {:induction false} SentOf(written: seq<Written>, k: nat, response: Response)
    requires k < |written| && response in Output(written[k])
    ensures response in Sent(written)
  {
    if k < |written| - 1 { SentOf(written[..|written| - 1], k, response); }
  }

  // Whatever has been written at any time answers a request that was received, under
  // its id, with what its callback made of it.
  lemma EveryResponseAnswers(b: seq<State>, initialThreads: nat, maxThreads: nat, k: nat, response: Response)
    requires Behavior(b, initialThreads, maxThreads)
    requires var s := b[|b| - 1]; k < |s.written| && response in Output(s.written[k])
    ensures var s := b[|b| - 1];
      exists j :: 0 <= j < |s.received| && IsAnswered(s.received[j]) && Says(s.received[j], response)
  {
    hide Next, Initial, JobsInv, OrderInv, Sent, Owed, Held, DueAll, Says, IsAnswered;
    var s := b[|b| - 1];
    BehaviorInv(b, initialThreads, maxThreads);
    SentOf(s.written, k, response);
    DueFrom(s.received, response);
  }

  // And once the pool is drained every request that is to be answered has been.
  lemma EveryRequestHasItsAnswer(b: seq<State>, initialThreads: nat, maxThreads: nat, j: nat)
    requires Behavior(b, initialThreads, maxThreads) && Settled(b[|b| - 1])
    requires var s := b[|b| - 1]; j < |s.received| && IsAnswered(s.received[j])
    ensures var s := b[|b| - 1]; exists response :: response in Sent(s.written) && Says(s.received[j], response)
  {
    hide Next, Initial, Settled, Sent, DueAll, Says, IsAnswered;
    EveryDueResponseIsWritten(b, initialThreads, maxThreads);
    DueOf(b[|b| - 1].received, j);
  }

  // ---------------------------------------------------------------- batches

  // The receipt of one message of a batch.
  ghost predicate ReceiptOf(batch: Batch, k: nat, receipt: Receipt) {
    k < |batch.items| && k < |batch.registries| && batch.items[k].message.RequestMessage?
    && receipt == Receipt(batch.items[k].message.request, batch.items[k].call, false, batch.registries[k])
  }

  // The responses are the answers to the requests at these places of the batch, and
  // no request at another place is to be answered.
  ghost predicate AnswersAt(batch: Batch, responses: seq<Response>, places: seq<nat>) {
    && |places| == |responses|
    && (forall i, j | 0 <= i < j < |places| :: places[i] < places[j])
    && (forall i | 0 <= i < |places| :: AnswerAt(batch, places[i], responses[i]))
    && (forall k: nat | k !in places :: NoAnswerAt(batch, k))
  }

  ghost predicate AnswerAt(batch: Batch, k: nat, response: Response) {
    exists receipt :: ReceiptOf(batch, k, receipt) && IsAnswered(receipt) && Says(receipt, response)
  }

  ghost predicate NoAnswerAt(batch: Batch, k: nat) {
    forall receipt | ReceiptOf(batch, k, receipt) :: !IsAnswered(receipt)
  }

  lemma {:induction false} BatchAnswers(items: seq<Item>, registries: seq<Registry>) returns (places: seq<nat>)
    requires |items| == |registries|
    ensures AnswersAt(Batch(items, registries), BatchResponses(registries, items), places)
    ensures forall p | p in places :: p < |items|
    decreases |items|
  {
    hide Says, IsAnswered, AnswersAt, ItemResponse;
    if items == [] {
      places := [];
      NoAnswers(Batch(items, registries));
    } else {
      var n := |items| - 1;
      places := BatchAnswers(items[..n], registries[..n]);
      var responses := BatchResponses(registries[..n], items[..n]);
      NextAnswer(Batch(items, registries), n, responses, places);
      if ItemResponse(registries[n], items[n]).Some? { places := places + [n]; }
      assert responses + [] == responses;
    }
  }

  lemma NoAnswers(batch: Batch)
    requires batch.items == []
    ensures AnswersAt(batch, [], [])
  {
  }

  lemma NextAnswer(batch: Batch, n: nat, responses: seq<Response>, places: seq<nat>)
    requires |batch.items| == |batch.registries| == n + 1 && forall p | p in places :: p < n
    requires AnswersAt(Batch(batch.items[..n], batch.registries[..n]), responses, places)
    ensures match ItemResponse(batch.registries[n], batch.items[n])
      case Some(response) => AnswersAt(batch, responses + [response], places + [n])
      case None => AnswersAt(batch, responses, places)
  {
    hide Says, IsAnswered, ItemResponse, AnswersAt, AnswerAt, NoAnswerAt;
    var last, registry := batch.items[n], batch.registries[n];
    if last.message.RequestMessage? {
      var receipt := Receipt(last.message.request, last.call, false, registry);
      DueOfItem(registry, last);
      DueSays(receipt);
      OnlyReceipt(batch, n, receipt);
      if IsAnswered(receipt) {
        OneMore(batch, n, responses, places, Due(receipt).value);
      } else {
        NoneMore(batch, n, responses, places);
      }
    } else {
      NoItemResponse(registry, last);
      OnlyReceipt(batch, n, Receipt(Request(None, "", None), last.call, false, registry));
      NoneMore(batch, n, responses, places);
    }
  }

  lemma SameReceipt(batch: Batch, n: nat, k: nat, response: Response)
    requires |batch.items| == |batch.registries| == n + 1 && k != n
    ensures var before := Batch(batch.items[..n], batch.registries[..n]);
      && (NoAnswerAt(batch, k) <==> NoAnswerAt(before, k))
      && (AnswerAt(batch, k, response) <==> AnswerAt(before, k, response))
  {
    hide Says, IsAnswered;
    var before := Batch(batch.items[..n], batch.registries[..n]);
    forall receipt ensures ReceiptOf(batch, k, receipt) <==> ReceiptOf(before, k, receipt) {}
  }

  lemma OnlyReceipt(batch: Batch, n: nat, receipt: Receipt)
    requires n < |batch.items| && n < |batch.registries|
    requires batch.items[n].message.RequestMessage? ==>
      receipt == Receipt(batch.items[n].message.request, batch.items[n].call, false, batch.registries[n])
    ensures !batch.items[n].message.RequestMessage? || !IsAnswered(receipt) ==> NoAnswerAt(batch, n)
    ensures batch.items[n].message.RequestMessage? && IsAnswered(receipt) ==>
      forall response | Says(receipt, response) :: AnswerAt(batch, n, response)
  {
    hide Says, IsAnswered;
    if batch.items[n].message.RequestMessage? { assert ReceiptOf(batch, n, receipt); }
  }

  lemma OneMore(batch: Batch, n: nat, responses: seq<Response>, places: seq<nat>, response: Response)
    requires |batch.items| == |batch.registries| == n + 1 && forall p | p in places :: p < n
    requires AnswersAt(Batch(batch.items[..n], batch.registries[..n]), responses, places)
    requires AnswerAt(batch, n, response)
    ensures AnswersAt(batch, responses + [response], places + [n])
  {
    hide AnswerAt, NoAnswerAt;
    var next, more := places + [n], responses + [response];
    assert forall i | 0 <= i < |places| :: places[i] in places;
    forall i | 0 <= i < |next| ensures AnswerAt(batch, next[i], more[i]) {
      if i < |places| { SameReceipt(batch, n, places[i], responses[i]); }
    }
    forall k: nat | k !in next ensures NoAnswerAt(batch, k) {
      assert next[|places|] == n && forall p | p in places :: p in next;
      SameReceipt(batch, n, k, response);
    }
  }

  lemma NoneMore(batch: Batch, n: nat, responses: seq<Response>, places: seq<nat>)
    requires |batch.items| == |batch.registries| == n + 1 && forall p | p in places :: p < n
    requires AnswersAt(Batch(batch.items[..n], batch.registries[..n]), responses, places)
    requires NoAnswerAt(batch, n)
    ensures AnswersAt(batch, responses, places)
  {
    hide AnswerAt, NoAnswerAt;
    assert forall i | 0 <= i < |places| :: places[i] in places;
    forall i | 0 <= i < |places| ensures AnswerAt(batch, places[i], responses[i]) {
      SameReceipt(batch, n, places[i], responses[i]);
    }
    forall k: nat | k !in places ensures NoAnswerAt(batch, k) {
      if k != n { SameReceipt(batch, n, k, ErrorResponse(NullId, 0, "", None)); }
    }
  }

  // A written batch answers the requests of a received batch in their order.
  lemma BatchesAnswer(b: seq<State>, initialThreads: nat, maxThreads: nat, w: Written)
    returns (batch: Batch, places: seq<nat>)
    requires Behavior(b, initialThreads, maxThreads) && w in b[|b| - 1].written && w.Many?
    ensures batch in b[|b| - 1].batches && IsDone(batch) && AnswersAt(batch, w.responses, places)
  {
    hide Next, Initial, AnswersAt, BatchResponses;
    BatchesKeepOrder(b, initialThreads, maxThreads, w);
    batch :| batch in b[|b| - 1].batches && IsDone(batch)
             && w.responses == BatchResponses(batch.registries, batch.items);
    places := BatchAnswers(batch.items, batch.registries);
  }

  // ---------------------------------------------------------------- what may come

  // Between two messages anything may come, and handlers may change at any time.
  lemma AnythingMayCome(s: State, request: Request, call: Call, response: Response, items: seq<Item>,
                        name: string, handler: Handler)
    ensures s.reader == Idle ==> Enabled(s, ReceiveResponse(response)) && Enabled(s, ReceiveBatch(items))
    ensures Enabled(s, AddHandler(name, handler)) && Enabled(s, RemoveHandler(name))
    ensures forall task |
      s.reader == Idle && task !in s.jobs && Pool.Enabled(s.pool, Pool.CallAdd(READER, task)) ::
        Enabled(s, ReceiveRequest(request, call, task))
  {
    hide Process, Pool.Enabled;
  }
}
