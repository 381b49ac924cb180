// lsp/messagehandler.cpp, incoming side: requests and batches are dispatched to
// handlers registered with the generic add overloads; asynchronous results are
// answered by tasks of the thread pool.  Whole runs are accounted for: which
// responses are written for which requests.
module MessageHandler {
  import opened Wrappers
  import opened Json
  import opened JsonRpc
  import Pool = ThreadPool

  // ---------------------------------------------------------------- one request

  // How a callback, or the future it returned, ends.
  datatype Outcome =
    | Returns(value: Value)
    | RaisesRequestError(code: int, what: string, data: Option<Value>)
    | RaisesTypeError(what: string)
    | RaisesException(what: string)

  // A registered handler: std::function may be empty.
  datatype Handler = Empty | Sync | Async

  // What calling the callback does: it ends, or (an asynchronous one) it gives
  // a future that ends later.
  datatype Call = Ends(outcome: Outcome) | Defers(outcome: Outcome)

  // The task that answers an asynchronous request.
  datatype Job = Job(requestId: MessageId, isNotification: bool, outcome: Outcome)

  datatype Processed = Processed(response: Option<Response>, job: Option<Job>)

  type Registry = map<string, Handler>

  predicate IsNotification(r: Request) { r.id.None? }

  // The id a handler sees; a missing id and an explicit null look the same.
  function CurrentId(r: Request): MessageId {
    if r.id.Some? then r.id.value else NullId
  }

  function ErrorResponse(id: MessageId, code: int, message: string, data: Option<Value>): Response {
    Response(id, None, Some(ResponseError(code, message, data)))
  }

  function ResultResponse(id: MessageId, value: Value): Response { Response(id, Some(value), None) }

  // What the exception handlers of processRequest make of a callback that threw.
  function Caught(id: MessageId, outcome: Outcome): Response
    requires !outcome.Returns?
  {
    match outcome
    case RaisesRequestError(code, what, data) => ErrorResponse(id, code, what, data)
    case RaisesTypeError(what) => ErrorResponse(id, INVALID_PARAMS, what, None)
    case RaisesException(what) => ErrorResponse(id, INTERNAL_ERROR, what, None)
  }

  // createResponseFromAsyncResult: on a pool thread the data of an error is not
  // passed on, and a TypeError is an internal error.
  function AsyncResponse(id: MessageId, outcome: Outcome): Response {
    match outcome
    case Returns(value) => ResultResponse(id, value)
    case RaisesRequestError(code, what, _) => ErrorResponse(id, code, what, None)
    case RaisesTypeError(what) => ErrorResponse(id, INTERNAL_ERROR, what, None)
    case RaisesException(what) => ErrorResponse(id, INTERNAL_ERROR, what, None)
  }

  function JobResponse(job: Job): Option<Response> {
    if job.isNotification then None else Some(AsyncResponse(job.requestId, job.outcome))
  }

  function Answer(r: Request, outcome: Outcome): Option<Response> {
    if outcome.Returns? then
      if CurrentId(r) == NullId then None else Some(ResultResponse(CurrentId(r), outcome.value))
    else if IsNotification(r) then None else Some(Caught(r.id.value, outcome))
  }

  predicate HasHandler(registry: Registry, r: Request) {
    r.methodName in registry && registry[r.methodName] != Empty
  }

  function Process(registry: Registry, r: Request, call: Call, allowAsync: bool): Processed {
    if !HasHandler(registry, r) then
      Processed(if IsNotification(r) then None
                else Some(ErrorResponse(r.id.value, METHOD_NOT_FOUND, "Method not found", None)), None)
    else if registry[r.methodName] == Async && call.Defers? && allowAsync then
      Processed(None, Some(Job(CurrentId(r), CurrentId(r) == NullId, call.outcome)))
    else Processed(Answer(r, call.outcome), None)
  }

  // A message of the peer, with what the callback will do if it is a request.
  datatype Item = Item(message: Message, call: Call)

  function ItemResponse(registry: Registry, item: Item): Option<Response> {
    match item.message
    case RequestMessage(r) => Process(registry, r, item.call, false).response
    case ResponseMessage(_) => None
  }

  // The responses to a batch, in the order of its requests; each of them looks up
  // its handler when its turn comes.
  function BatchResponses(registries: seq<Registry>, items: seq<Item>): seq<Response>
    requires |registries| == |items|
  {
    if items == [] then []
    else
      var n := |items| - 1;
      BatchResponses(registries[..n], items[..n])
      + match ItemResponse(registries[n], items[n])
        case Some(response) => [response]
        case None => []
  }

  function Unchanged(registry: Registry, n: nat): seq<Registry> { seq(n, _ => registry) }

  // The fields of the handler that requests touch.  thread-local
  // t_currentRequestId is that of the reader thread.
  class RequestDispatcher {
    var requestHandlers: Registry
    var currentRequestId: Option<MessageId>

    constructor ()
      ensures requestHandlers == map[] && currentRequestId == None
    {
      requestHandlers := map[];
      currentRequestId := None;
    }

    method AddHandler(methodName: string, handler: Handler)
      modifies this`requestHandlers
      ensures requestHandlers == old(requestHandlers)[methodName := handler]
    {
      requestHandlers := requestHandlers[methodName := handler];
    }

    method Remove(methodName: string)
      modifies this`requestHandlers
      ensures requestHandlers == old(requestHandlers) - {methodName}
    {
      if methodName in requestHandlers {
        requestHandlers := requestHandlers - {methodName};
      }
    }

    // The wrapper that add puts around a callback; an exception is passed on.
    method RunHandler(handler: Handler, call: Call, allowAsync: bool)
      returns (thrown: Option<Outcome>, response: Option<Response>, job: Option<Job>)
      requires handler != Empty && currentRequestId.Some?
      ensures var id := currentRequestId.value;
        if handler == Async && call.Defers? && allowAsync
        then thrown == None && response == None && job == Some(Job(id, id == NullId, call.outcome))
        else job == None &&
             if call.outcome.Returns?
             then thrown == None && response ==
               if id == NullId then None else Some(ResultResponse(id, call.outcome.value))
             else thrown == Some(call.outcome) && response == None
    {
      var id := currentRequestId.value;
      thrown, response, job := None, None, None;
      var isNotification := id.NullId?;
      if handler == Async && call.Defers? && allowAsync {
        job := Some(Job(id, isNotification, call.outcome));
        return;
      }
      // the callback's result, or what future.get() gives
      if !call.outcome.Returns? {
        thrown := Some(call.outcome);
        return;
      }
      if !isNotification {
        response := Some(ResultResponse(id, call.outcome.value));
      }
    }

    method ProcessRequest(request: Request, call: Call,
                          allowAsync: bool) returns (response: Option<Response>, job: Option<Job>)
      requires currentRequestId == None
      modifies this`currentRequestId
      ensures currentRequestId == None
      ensures Processed(response, job) == Process(requestHandlers, request, call, allowAsync)
    {
      response, job := None, None;
      if request.methodName in requestHandlers && requestHandlers[request.methodName] != Empty {
        currentRequestId := Some(if request.id.Some? then request.id.value else NullId);
        var thrown;
        thrown, response, job := RunHandler(requestHandlers[request.methodName], call, allowAsync);
        if thrown.Some? && request.id.Some? {
          response := Some(match thrown.value
            case RaisesRequestError(code, what, data) => ErrorResponse(request.id.value, code, what, data)
            case RaisesTypeError(what) => ErrorResponse(request.id.value, INVALID_PARAMS, what, None)
            case RaisesException(what) => ErrorResponse(request.id.value, INTERNAL_ERROR, what, None));
        }
        currentRequestId := None;
      } else {
        if request.id.Some? {
          response := Some(ErrorResponse(request.id.value, METHOD_NOT_FOUND, "Method not found", None));
        }
      }
    }

    // The batch loop of processIncomingMessages.
    method ProcessBatch(items: seq<Item>) returns (responseBatch: seq<Response>)
      requires currentRequestId == None
      modifies this`currentRequestId
      ensures currentRequestId == None
      ensures responseBatch == BatchResponses(Unchanged(requestHandlers, |items|), items)
    {
      responseBatch := [];
      for i := 0 to |items|
        invariant currentRequestId == None
        invariant responseBatch == BatchResponses(Unchanged(requestHandlers, i), items[..i])
      {
        assert items[..i + 1][..i] == items[..i];
        assert Unchanged(requestHandlers, i + 1)[..i] == Unchanged(requestHandlers, i);
        if items[i].message.RequestMessage? {
          var response, job := ProcessRequest(items[i].message.request, items[i].call, false);
          if response.Some? {
            responseBatch := responseBatch + [response.value];
          }
        }
      }
      assert items[..|items|] == items;
    }
  }

  // ---------------------------------------------------------------- runs

  datatype Written = One(response: Response) | Many(responses: seq<Response>)

  // A batch, with the handlers there were at each of its messages so far.
  datatype Batch = Batch(items: seq<Item>, registries: seq<Registry>)

  // The thread that calls processIncomingMessages.
  datatype Reader =
    | Idle
    | InBatch(batch: Batch, responses: seq<Response>)
    | Writing(output: Written)
    | Submitting

  // A request that was processed, with the handlers there were.
  datatype Receipt = Receipt(request: Request, call: Call, allowAsync: bool, registry: Registry)

  datatype State = State(
    registry: Registry,
    pool: Pool.State,
    jobs: map<Pool.Task, Job>,
    reader: Reader,
    written: seq<Written>,
    received: seq<Receipt>,
    batches: seq<Batch>)

  // Handlers are added and removed by any thread; requests take the same mutex for
  // their look-up, so this may happen between any two of them, in a batch as well.
  datatype Step =
    | ReceiveRequest(request: Request, call: Call, task: Pool.Task)
    | ReceiveResponse(response: Response)
    | ReceiveBatch(items: seq<Item>)
    | NextItem
    | EndBatch
    | Write
    | PoolStep(step: Pool.Step)
    | AddHandler(methodName: string, handler: Handler)
    | RemoveHandler(methodName: string)

  // The reader is the only caller of the pool.
  const READER: nat := 0

  ghost predicate Enabled(s: State, step: Step) {
    match step
    case ReceiveRequest(r, call, task) =>
      s.reader == Idle && task !in s.jobs &&
      (Process(s.registry, r, call, true).job.Some? ==> Pool.Enabled(s.pool, Pool.CallAdd(READER, task)))
    case ReceiveResponse(_) => s.reader == Idle
    case ReceiveBatch(_) => s.reader == Idle
    case NextItem => s.reader.InBatch? && |s.reader.batch.registries| < |s.reader.batch.items|
    case EndBatch => s.reader.InBatch? && |s.reader.batch.registries| == |s.reader.batch.items|
    case Write => s.reader.Writing?
    case PoolStep(p) =>
      Pool.Enabled(s.pool, p) && !p.CallAdd? && (p.Finish? ==> s.pool.workers[p.worker].task in s.jobs)
    case AddHandler(_, _) => true
    case RemoveHandler(_) => true
  }

  function AfterRequest(processed: Processed): Reader {
    if processed.job.Some? then Submitting
    else if processed.response.Some? then Writing(One(processed.response.value))
    else Idle
  }

  ghost function Apply(s: State, step: Step): State
    requires Enabled(s, step)
  {
    match step
    case ReceiveRequest(r, call, task) =>
      var processed := Process(s.registry, r, call, true);
      var s' := s.(received := s.received + [Receipt(r, call, true, s.registry)],
                   reader := AfterRequest(processed));
      if processed.job.Some? then
        s'.(jobs := s.jobs[task := processed.job.value], pool := Pool.Apply(s.pool, Pool.CallAdd(READER, task)))
      else s'
    case ReceiveResponse(_) => s
    case ReceiveBatch(items) => s.(reader := InBatch(Batch(items, []), []))
    case NextItem =>
      var InBatch(batch, responses) := s.reader;
      var item := batch.items[|batch.registries|];
      var responses' := match ItemResponse(s.registry, item)
        case Some(response) => responses + [response]
        case None => responses;
      s.(reader := InBatch(batch.(registries := batch.registries + [s.registry]), responses'),
         received := s.received + ItemReceipt(s.registry, item))
    case EndBatch =>
      s.(reader := if s.reader.responses == [] then Idle else Writing(Many(s.reader.responses)),
         batches := s.batches + [s.reader.batch])
    case Write => s.(written := s.written + [s.reader.output], reader := Idle)
    case PoolStep(p) =>
      var pool := Pool.Apply(s.pool, p);
      // running a task writes its response
      var written := if p.Finish? then s.written + JobOutput(s.jobs[s.pool.workers[p.worker].task]) else s.written;
      s.(pool := pool, written := written,
         reader := if s.reader == Submitting && READER !in pool.callers then Idle else s.reader)
    case AddHandler(methodName, handler) => s.(registry := s.registry[methodName := handler])
    case RemoveHandler(methodName) => s.(registry := s.registry - {methodName})
  }

  function ItemReceipt(registry: Registry, item: Item): seq<Receipt> {
    match item.message
    case RequestMessage(r) => [Receipt(r, item.call, false, registry)]
    case ResponseMessage(_) => []
  }

  function JobOutput(job: Job): seq<Written> {
    match JobResponse(job)
    case Some(response) => [One(response)]
    case None => []
  }

  ghost predicate Next(s: State, s': State) {
    exists step :: Enabled(s, step) && s' == Apply(s, step)
  }

  ghost predicate Initial(s: State, initialThreads: nat, maxThreads: nat) {
    && Pool.Initial(s.pool, initialThreads, maxThreads)
    && s.jobs == map[] && s.reader == Idle && s.written == [] && s.received == [] && s.batches == []
  }

  ghost predicate Behavior(b: seq<State>, initialThreads: nat, maxThreads: nat) {
    && b != [] && Initial(b[0], initialThreads, maxThreads)
    && forall i | 0 <= i < |b| - 1 :: Next(b[i], b[i + 1])
  }

  // ---------------------------------------------------------------- accounting

  ghost function Bag<T>(o: Option<T>): multiset<T> {
    if o.Some? then multiset{o.value} else multiset{}
  }

  // The response that is due for a request, now or from its job.
  function Due(receipt: Receipt): Option<Response> {
    var processed := Process(receipt.registry, receipt.request, receipt.call, receipt.allowAsync);
    if processed.job.Some? then JobResponse(processed.job.value) else processed.response
  }

  ghost function DueAll(received: seq<Receipt>): multiset<Response> {
    if received == [] then multiset{}
    else DueAll(received[..|received| - 1]) + Bag(Due(received[|received| - 1]))
  }

  ghost function Output(w: Written): multiset<Response> {
    match w
    case One(response) => multiset{response}
    case Many(responses) => multiset(responses)
  }

  ghost function Sent(written: seq<Written>): multiset<Response> {
    if written == [] then multiset{}
    else Sent(written[..|written| - 1]) + Output(written[|written| - 1])
  }

  // What the reader has in its hands.
  ghost function Held(reader: Reader): multiset<Response> {
    match reader
    case InBatch(_, responses) => multiset(responses)
    case Writing(output) => Output(output)
    case _ => multiset{}
  }

  // The responses of a set of jobs.
  ghost function Owed(jobs: map<Pool.Task, Job>, tasks: set<Pool.Task>): multiset<Response>
    requires tasks <= jobs.Keys
    decreases |tasks|
  {
    if tasks == {} then multiset{}
    else
      var t :| t in tasks;
      Owed(jobs, tasks - {t}) + Bag(JobResponse(jobs[t]))
  }

  lemma {:induction false} OwedSplit(jobs: map<Pool.Task, Job>, tasks: set<Pool.Task>, t: Pool.Task)
    requires tasks <= jobs.Keys && t in tasks
    ensures Owed(jobs, tasks) == Owed(jobs, tasks - {t}) + Bag(JobResponse(jobs[t]))
    decreases |tasks|
  {
    hide JobResponse;
    var u :| u in tasks && Owed(jobs, tasks) == Owed(jobs, tasks - {u}) + Bag(JobResponse(jobs[u]));
    if u != t {
      OwedSplit(jobs, tasks - {u}, t);
      OwedSplit(jobs, tasks - {t}, u);
      assert tasks - {u} - {t} == tasks - {t} - {u};
    }
  }

  lemma {:induction false} OwedSame(jobs: map<Pool.Task, Job>, jobs': map<Pool.Task, Job>, tasks: set<Pool.Task>)
    requires tasks <= jobs.Keys && tasks <= jobs'.Keys && forall t | t in tasks :: jobs[t] == jobs'[t]
    ensures Owed(jobs, tasks) == Owed(jobs', tasks)
    decreases |tasks|
  {
    hide JobResponse;
    if tasks != {} {
      var t :| t in tasks;
      OwedSplit(jobs, tasks, t);
      OwedSplit(jobs', tasks, t);
      OwedSame(jobs, jobs', tasks - {t});
    }
  }

  ghost function OpenJobs(s: State): set<Pool.Task> { s.jobs.Keys - s.pool.settled }

  // Every response that is due has been written, is in the reader's hands, or
  // will be written by a job.
  ghost predicate Balanced(s: State) {
    DueAll(s.received) == Sent(s.written) + Held(s.reader) + Owed(s.jobs, OpenJobs(s))
  }

  predicate IsDone(batch: Batch) { |batch.registries| == |batch.items| }

  ghost predicate BatchInOrder(s: State, w: Written) {
    w.Many? ==>
      exists batch | batch in s.batches :: IsDone(batch) && w.responses == BatchResponses(batch.registries, batch.items)
  }

  ghost predicate OrderInv(s: State) {
    && (forall w | w in s.written :: BatchInOrder(s, w))
    && (s.reader.Writing? ==> BatchInOrder(s, s.reader.output))
    && (s.reader.InBatch? ==>
          var Batch(items, registries) := s.reader.batch;
          |registries| <= |items| && s.reader.responses == BatchResponses(registries, items[..|registries|]))
  }

  // The jobs are the tasks the pool knows, and the reader is the only caller.
  ghost predicate JobsInv(s: State) {
    && Pool.Inv(s.pool)
    && (forall t | t in s.pool.submitted :: t in s.jobs)
    && (forall c | c in s.pool.callers ::
          c == READER && s.reader == Submitting
          && (s.pool.callers[c] != Pool.OwesNotify ==> s.pool.callers[c].task in s.jobs))
    && (s.reader == Submitting ==> READER in s.pool.callers)
    && (forall t | t in s.jobs ::
          t in s.pool.submitted
          || (READER in s.pool.callers && s.pool.callers[READER] != Pool.OwesNotify
            && s.pool.callers[READER].task == t))
  }

  ghost predicate Inv(s: State) { JobsInv(s) && Balanced(s) && OrderInv(s) }

  lemma {:induction false} SentAppend(written: seq<Written>, more: seq<Written>)
    requires |more| <= 1
    ensures Sent(written + more) == Sent(written) + (if more == [] then multiset{} else Output(more[0]))
  {
    if more == [] {
      assert written + more == written;
    } else {
      assert (written + more)[..|written|] == written;
    }
  }

  lemma DueAppend(received: seq<Receipt>, receipt: Receipt)
    ensures DueAll(received + [receipt]) == DueAll(received) + Bag(Due(receipt))
  {
    hide Due;
    assert (received + [receipt])[..|received|] == received;
  }

  // A settled task has a job.
  lemma SettledJobs(s: State)
    requires JobsInv(s)
    ensures s.pool.settled <= s.jobs.Keys
  {
    forall t | t in s.pool.settled ensures t in s.jobs {
      var k :| 0 <= k < |s.pool.started| && Pool.TasksOf(s.pool.started)[k] == t;
      assert s.pool.submitted[k] == t;
    }
  }

  lemma DueOfItem(registry: Registry, item: Item)
    requires item.message.RequestMessage?
    ensures ItemReceipt(registry, item) == [Receipt(item.message.request, item.call, false, registry)]
    ensures Due(ItemReceipt(registry, item)[0]) == ItemResponse(registry, item)
  {
  }

  lemma InitialInv(s: State, initialThreads: nat, maxThreads: nat)
    requires Initial(s, initialThreads, maxThreads)
    ensures Inv(s)
  {
    hide Pool.Inv;
    Pool.InitialInv(s.pool, initialThreads, maxThreads);
    assert OpenJobs(s) == {};
  }

  lemma ReceiveInv(s: State, r: Request, call: Call, task: Pool.Task)
    requires Inv(s) && Enabled(s, ReceiveRequest(r, call, task))
    ensures Inv(Apply(s, ReceiveRequest(r, call, task)))
  {
    hide Pool.Inv, Process, JobResponse, Pool.Enabled, BatchResponses, Balanced, DueAll;
    var s' := Apply(s, ReceiveRequest(r, call, task));
    var processed := Process(s.registry, r, call, true);
    if processed.job.Some? {
      assert Pool.Next(s.pool, s'.pool);
      Pool.NextInv(s.pool, s'.pool);
      CallAddEffect(s.pool, task);
    }
    ReceiveBalanced(s, r, call, task);
    forall w | w in s'.written ensures BatchInOrder(s', w) { assert BatchInOrder(s, w); }
  }

  lemma CallAddEffect(pool: Pool.State, task: Pool.Task)
    requires Pool.Enabled(pool, Pool.CallAdd(READER, task))
    ensures Pool.Apply(pool, Pool.CallAdd(READER, task)) ==
      pool.(callers := pool.callers[READER := Pool.Entering(task)])
  {
  }

  lemma ReceiveBalanced(s: State, r: Request, call: Call, task: Pool.Task)
    requires Inv(s) && Enabled(s, ReceiveRequest(r, call, task))
    ensures Balanced(Apply(s, ReceiveRequest(r, call, task)))
  {
    hide Process, JobResponse, DueAll, OrderInv, JobsInv, Owed, Sent, Pool.Enabled, Pool.Apply;
    var processed := Process(s.registry, r, call, true);
    DueAppend(s.received, Receipt(r, call, true, s.registry));
    if processed.job.Some? {
      SettledJobs(s);
      CallAddEffect(s.pool, task);
      OwedNew(s.jobs, OpenJobs(s), task, processed.job.value);
      assert s.jobs[task := processed.job.value].Keys - s.pool.settled == OpenJobs(s) + {task};
    }
  }

  lemma OwedNew(jobs: map<Pool.Task, Job>, tasks: set<Pool.Task>, t: Pool.Task, job: Job)
    requires tasks <= jobs.Keys && t !in jobs
    ensures Owed(jobs[t := job], tasks + {t}) == Owed(jobs, tasks) + Bag(JobResponse(job))
  {
    hide JobResponse;
    OwedSplit(jobs[t := job], tasks + {t}, t);
    assert tasks + {t} - {t} == tasks;
    OwedSame(jobs, jobs[t := job], tasks);
  }

  lemma ReaderInv(s: State, step: Step)
    requires Inv(s) && Enabled(s, step) && !step.ReceiveRequest? && !step.PoolStep?
    ensures Inv(Apply(s, step))
  {
    hide Pool.Inv, JobResponse, Balanced, DueAll, Sent, Process;
    var s' := Apply(s, step);
    assert JobsInv(s');
    ReaderBalanced(s, step);
    ReaderOrder(s, step);
  }

  lemma ReaderBalanced(s: State, step: Step)
    requires Inv(s) && Enabled(s, step) && !step.ReceiveRequest? && !step.PoolStep?
    ensures Balanced(Apply(s, step))
  {
    hide JobsInv, OrderInv, Balanced, Enabled, Apply;
    match step
    case NextItem => ItemBalanced(s);
    case Write => WriteBalanced(s);
    case _ => OtherBalanced(s, step);
  }

  lemma ItemBalanced(s: State)
    requires Balanced(s) && Enabled(s, NextItem)
    ensures Balanced(Apply(s, NextItem))
  {
    hide JobResponse, DueAll, Sent, Owed, Due, ItemResponse;
    assert OpenJobs(Apply(s, NextItem)) == OpenJobs(s);
    var item := s.reader.batch.items[|s.reader.batch.registries|];
    if item.message.RequestMessage? {
      DueOfItem(s.registry, item);
      DueAppend(s.received, ItemReceipt(s.registry, item)[0]);
    } else {
      NoItemResponse(s.registry, item);
      assert s.received + [] == s.received;
    }
  }

  lemma WriteBalanced(s: State)
    requires Balanced(s) && Enabled(s, Write)
    ensures Balanced(Apply(s, Write))
  {
    hide JobResponse, DueAll, Sent, Owed, Due, ItemResponse;
    assert OpenJobs(Apply(s, Write)) == OpenJobs(s);
    SentAppend(s.written, [s.reader.output]);
  }

  lemma OtherBalanced(s: State, step: Step)
    requires Balanced(s) && Enabled(s, step)
    requires !step.ReceiveRequest? && !step.PoolStep? && !step.NextItem? && !step.Write?
    ensures Balanced(Apply(s, step))
  {
    hide JobResponse, DueAll, Sent, Owed, Due, ItemResponse;
    assert OpenJobs(Apply(s, step)) == OpenJobs(s);
  }

  lemma NoItemResponse(registry: Registry, item: Item)
    requires !item.message.RequestMessage?
    ensures ItemResponse(registry, item) == None && ItemReceipt(registry, item) == []
  {
  }

  lemma ReaderOrder(s: State, step: Step)
    requires Inv(s) && Enabled(s, step) && !step.ReceiveRequest? && !step.PoolStep?
    ensures OrderInv(Apply(s, step))
  {
    hide Pool.Inv, JobsInv, Balanced, ItemResponse;
    var s' := Apply(s, step);
    forall w | w in s'.written ensures BatchInOrder(s', w) {
      assert BatchInOrder(s, w);
      BatchStays(s, s', w);
    }
    match step
    case NextItem =>
      var Batch(items, registries) := s.reader.batch;
      var k := |registries|;
      assert items[..k + 1][..k] == items[..k] && (registries + [s.registry])[..k] == registries;
    case EndBatch =>
      var batch := s.reader.batch;
      assert batch.items[..|batch.registries|] == batch.items;
      assert batch in s'.batches;
    case _ =>
  }

  lemma BatchStays(s: State, s': State, w: Written)
    requires BatchInOrder(s, w) && s.batches <= s'.batches
    ensures BatchInOrder(s', w)
  {
    hide BatchResponses;
    if w.Many? {
      var batch :| batch in s.batches && IsDone(batch) && w.responses == BatchResponses(batch.registries, batch.items);
      assert batch in s'.batches;
    }
  }

  // What a step of the pool does to the parts that jobs depend on.
  ghost predicate CallersKept(pool: Pool.State, pool': Pool.State) {
    && (forall t | t in pool.submitted :: t in pool'.submitted)
    && (forall t | t in pool'.submitted :: t in pool.submitted ||
          exists c | c in pool.callers :: pool.callers[c] != Pool.OwesNotify && pool.callers[c].task == t)
    && (forall c | c in pool'.callers :: c in pool.callers &&
          (pool'.callers[c] != Pool.OwesNotify ==>
             pool.callers[c] != Pool.OwesNotify && pool'.callers[c].task == pool.callers[c].task))
    && (forall c | c in pool.callers && pool.callers[c] != Pool.OwesNotify ::
          c in pool'.callers && (pool'.callers[c] == Pool.OwesNotify ==> pool.callers[c].task in pool'.submitted))
  }

  ghost predicate SettledBy(pool: Pool.State, pool': Pool.State, step: Pool.Step) {
    if !step.Finish? then pool'.settled == pool.settled
    else
      && step.worker in pool.workers && pool.workers[step.worker].Running?
      && var t := pool.workers[step.worker].task;
         pool'.settled == pool.settled + {t} && t in pool.submitted && t !in pool.settled
  }

  lemma PoolCallers(pool: Pool.State, step: Pool.Step)
    requires Pool.Inv(pool) && Pool.Enabled(pool, step) && !step.CallAdd?
    ensures CallersKept(pool, Pool.Apply(pool, step))
  {
    hide Pool.WakeInv, Pool.ExitInv, Pool.ThreadsInv, Pool.DrainInv, Pool.RunInv, Pool.OrderInv, Pool.Known;
  }

  lemma PoolSettled(pool: Pool.State, step: Pool.Step)
    requires Pool.Inv(pool) && Pool.Enabled(pool, step)
    ensures SettledBy(pool, Pool.Apply(pool, step), step)
  {
    hide Pool.WakeInv, Pool.ExitInv, Pool.ThreadsInv, Pool.DrainInv, Pool.Known;
    if step.Finish? {
      var t := pool.workers[step.worker].task;
      var k :| 0 <= k < |pool.started| && pool.started[k] == (t, step.worker);
      assert pool.submitted[k] == t;
    }
  }

  lemma PoolEffect(pool: Pool.State, step: Pool.Step)
    requires Pool.Inv(pool) && Pool.Enabled(pool, step) && !step.CallAdd?
    ensures CallersKept(pool, Pool.Apply(pool, step)) && SettledBy(pool, Pool.Apply(pool, step), step)
  {
    hide Pool.Inv, Pool.Enabled, Pool.Apply, CallersKept, SettledBy;
    PoolCallers(pool, step);
    PoolSettled(pool, step);
  }

  lemma PoolInv(s: State, p: Pool.Step)
    requires Inv(s) && Enabled(s, PoolStep(p))
    ensures Inv(Apply(s, PoolStep(p)))
  {
    hide Enabled, Apply, JobsInv, Balanced, OrderInv;
    PoolJobs(s, p);
    PoolOrder(s, p);
    PoolBalanced(s, p);
  }

  lemma PoolJobs(s: State, p: Pool.Step)
    requires JobsInv(s) && Enabled(s, PoolStep(p))
    ensures JobsInv(Apply(s, PoolStep(p)))
  {
    hide Pool.Inv, Pool.Enabled, Pool.Apply, JobResponse;
    var s' := Apply(s, PoolStep(p));
    PoolEffect(s.pool, p);
    assert Pool.Next(s.pool, s'.pool);
    Pool.NextInv(s.pool, s'.pool);
  }

  lemma PoolOrder(s: State, p: Pool.Step)
    requires JobsInv(s) && OrderInv(s) && Enabled(s, PoolStep(p))
    ensures OrderInv(Apply(s, PoolStep(p)))
  {
    hide Pool.Inv, Pool.Enabled, Pool.Apply, JobResponse, BatchResponses;
    var s' := Apply(s, PoolStep(p));
    PoolEffect(s.pool, p);
    forall w | w in s'.written ensures BatchInOrder(s', w) {
      if w in s.written { assert BatchInOrder(s, w); }
    }
  }

  lemma PoolBalanced(s: State, p: Pool.Step)
    requires JobsInv(s) && Balanced(s) && Enabled(s, PoolStep(p))
    ensures Balanced(Apply(s, PoolStep(p)))
  {
    hide Pool.Inv, Pool.Enabled, Pool.Apply, JobResponse, DueAll, Sent;
    var s' := Apply(s, PoolStep(p));
    PoolEffect(s.pool, p);
    if p.Finish? {
      var t := s.pool.workers[p.worker].task;
      assert OpenJobs(s') == OpenJobs(s) - {t};
      OwedSplit(s.jobs, OpenJobs(s), t);
      SentAppend(s.written, JobOutput(s.jobs[t]));
    } else {
      assert OpenJobs(s') == OpenJobs(s);
    }
  }

  lemma {:induction false} BehaviorInv(b: seq<State>, initialThreads: nat, maxThreads: nat)
    requires Behavior(b, initialThreads, maxThreads)
    ensures Inv(b[|b| - 1])
  {
    hide Inv, Next, Initial;
    if |b| == 1 {
      InitialInv(b[0], initialThreads, maxThreads);
    } else {
      var before := b[..|b| - 1];
      assert before[|before| - 1] == b[|b| - 2];
      BehaviorInv(before, initialThreads, maxThreads);
      assert Next(b[|b| - 2], b[|b| - 1]);
      NextInv(b[|b| - 2], b[|b| - 1]);
    }
  }

  lemma NextInv(s: State, s': State)
    requires Inv(s) && Next(s, s')
    ensures Inv(s')
  {
    hide Inv;
    var step :| Enabled(s, step) && s' == Apply(s, step);
    match step
    case ReceiveRequest(r, call, task) => ReceiveInv(s, r, call, task);
    case PoolStep(p) => PoolInv(s, p);
    case _ => ReaderInv(s, step);
  }

  // ---------------------------------------------------------------- theorems

  // The reader is between messages, and waitUntilFinished has joined the pool.
  ghost predicate Settled(s: State) {
    s.reader == Idle && Pool.Enabled(s.pool, Pool.FinishJoin)
  }

  // In every run, however the reader and the workers interleave, once the pool
  // is drained exactly the responses that are due have been written.
  lemma EveryDueResponseIsWritten(b: seq<State>, initialThreads: nat, maxThreads: nat)
    requires Behavior(b, initialThreads, maxThreads) && Settled(b[|b| - 1])
    ensures var s := b[|b| - 1]; Sent(s.written) == DueAll(s.received)
  {
    hide Sent, DueAll, Pool.Inv;
    var s := b[|b| - 1];
    BehaviorInv(b, initialThreads, maxThreads);
    Pool.JoinedMeansSettled(s.pool);
    assert OpenJobs(s) == {};
  }

  // The responses to a batch are written as one batch, in request order, by the
  // handlers there were at each request.
  lemma BatchesKeepOrder(b: seq<State>, initialThreads: nat, maxThreads: nat, w: Written)
    requires Behavior(b, initialThreads, maxThreads) && w in b[|b| - 1].written && w.Many?
    ensures var s := b[|b| - 1];
      exists batch | batch in s.batches :: IsDone(batch) && w.responses == BatchResponses(batch.registries, batch.items)
  {
    hide Pool.Inv, Balanced, JobsInv;
    BehaviorInv(b, initialThreads, maxThreads);
    assert BatchInOrder(b[|b| - 1], w);
  }

  // ---------------------------------------------------------------- accounting by id

  // A handler fails before any task is queued for it.
  predicate FailsAtOnce(receipt: Receipt) {
    !HasHandler(receipt.registry, receipt.request)
    || (!receipt.call.outcome.Returns?
        && !(receipt.registry[receipt.request.methodName] == Async && receipt.call.Defers? && receipt.allowAsync))
  }

  // Requests with an id are answered under it; one without an id never is; one
  // with an explicit null id only when it fails at once.
  lemma WhoIsAnswered(receipt: Receipt)
    ensures Due(receipt).Some? <==>
      receipt.request.id.Some? && (receipt.request.id.value != NullId || FailsAtOnce(receipt))
    ensures Due(receipt).Some? ==> Due(receipt).value.id == receipt.request.id.value
  {
  }

  // Two requests with an explicit null id: without a handler one is answered, with
  // a handler that returns it is not.
  lemma NullIdAnswered(value: Value)
    ensures var request := Request(Some(NullId), "m", None);
      var call := Ends(Returns(value));
      && Due(Receipt(request, call, true, map[])) ==
           Some(ErrorResponse(NullId, METHOD_NOT_FOUND, "Method not found", None))
      && Due(Receipt(request, call, true, map["m" := Sync])) == None
  {
  }

  ghost function IdBag(m: multiset<Response>): multiset<MessageId>
    decreases |m|
  {
    if m == multiset{} then multiset{}
    else
      var r :| r in m;
      IdBag(m - multiset{r}) + multiset{r.id}
  }

  lemma BagSwap<T>(a: multiset<T>, b: multiset<T>, c: multiset<T>)
    ensures a + b + c == a + c + b
  {
  }

  lemma BagAddEqual<T>(a: multiset<T>, q: multiset<T>, x: multiset<T>, y: multiset<T>)
    requires a <= q && x <= y
    ensures a + x <= q + y
    ensures a + x == q + y <==> a == q && x == y
  {
    if a + x == q + y {
      forall id: T ensures a[id] == q[id] && x[id] == y[id] {
        assert (a + x)[id] == (q + y)[id];
      }
    }
  }

  lemma {:induction false} IdBagSplit(m: multiset<Response>, r: Response)
    requires r in m
    ensures IdBag(m) == IdBag(m - multiset{r}) + multiset{r.id}
    decreases |m|
  {
    var q :| q in m && IdBag(m) == IdBag(m - multiset{q}) + multiset{q.id};
    if q != r {
      var inner := m - multiset{q} - multiset{r};
      assert r in m - multiset{q} && q in m - multiset{r};
      assert m - multiset{r} - multiset{q} == inner;
      IdBagSplit(m - multiset{q}, r);
      IdBagSplit(m - multiset{r}, q);
      BagSwap(IdBag(inner), multiset{q.id}, multiset{r.id});
    }
  }

  lemma IdBagAdd(m: multiset<Response>, r: Response)
    ensures IdBag(m + multiset{r}) == IdBag(m) + multiset{r.id}
  {
    IdBagSplit(m + multiset{r}, r);
    assert m + multiset{r} - multiset{r} == m;
  }

  // The ids of the requests that are answered, and of all that have one.
  ghost function AnsweredIds(received: seq<Receipt>): multiset<MessageId> {
    if received == [] then multiset{}
    else
      var receipt := received[|received| - 1];
      AnsweredIds(received[..|received| - 1])
      + if receipt.request.id.Some? && (receipt.request.id.value != NullId || FailsAtOnce(receipt))
        then multiset{receipt.request.id.value} else multiset{}
  }

  ghost function RequestIds(received: seq<Receipt>): multiset<MessageId> {
    if received == [] then multiset{}
    else RequestIds(received[..|received| - 1]) + Bag(received[|received| - 1].request.id)
  }

  lemma {:induction false} DueIds(received: seq<Receipt>)
    ensures IdBag(DueAll(received)) == AnsweredIds(received)
  {
    hide Due, FailsAtOnce;
    if received != [] {
      var receipt, before := received[|received| - 1], received[..|received| - 1];
      DueIds(before);
      WhoIsAnswered(receipt);
      if Due(receipt).Some? {
        IdBagAdd(DueAll(before), Due(receipt).value);
      } else {
        assert DueAll(received) == DueAll(before);
      }
    }
  }

  // The ids of the responses written are the ids of the requests answered.
  lemma ResponsesMatchRequests(b: seq<State>, initialThreads: nat, maxThreads: nat)
    requires Behavior(b, initialThreads, maxThreads) && Settled(b[|b| - 1])
    ensures var s := b[|b| - 1]; IdBag(Sent(s.written)) == AnsweredIds(s.received)
  {
    hide Next, Initial, Settled;
    EveryDueResponseIsWritten(b, initialThreads, maxThreads);
    DueIds(b[|b| - 1].received);
  }

  lemma {:induction false} AnsweredAtMostAll(received: seq<Receipt>)
    ensures AnsweredIds(received) <= RequestIds(received)
    ensures AnsweredIds(received) == RequestIds(received) <==>
      forall receipt | receipt in received :: receipt.request.id == Some(NullId) ==> FailsAtOnce(receipt)
  {
    hide FailsAtOnce;
    if received != [] {
      var receipt, before := received[|received| - 1], received[..|received| - 1];
      AnsweredAtMostAll(before);
      assert forall r | r in received :: r in before || r == receipt;
      BagAddEqual(AnsweredIds(before), RequestIds(before),
                  if receipt.request.id.Some? && (receipt.request.id.value != NullId || FailsAtOnce(receipt))
                  then multiset{receipt.request.id.value} else multiset{},
                  Bag(receipt.request.id));
      assert receipt.request.id == Some(NullId) && !FailsAtOnce(receipt) ==>
          NullId in Bag(receipt.request.id);
    }
  }

  // JSON-RPC asks for one response to every request that has an id, null
  // included (JSON-RPC 2.0, section 4).  A run does so exactly when every
  // request with an explicit null id fails at once.
  lemma EveryRequestIsAnswered(b: seq<State>, initialThreads: nat, maxThreads: nat)
    requires Behavior(b, initialThreads, maxThreads) && Settled(b[|b| - 1])
    ensures var s := b[|b| - 1];
      IdBag(Sent(s.written)) == RequestIds(s.received) <==>
      forall receipt | receipt in s.received :: receipt.request.id == Some(NullId) ==> FailsAtOnce(receipt)
  {
    hide Next, Initial, Settled;
    ResponsesMatchRequests(b, initialThreads, maxThreads);
    AnsweredAtMostAll(b[|b| - 1].received);
  }
}
