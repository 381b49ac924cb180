// lsp/threadpool.cpp: one mutex and one condition variable, shared by the
// workers, by callers blocked in addTask, and by waitUntilFinished.
//
// The class holds the fields the mutex protects, one method for each critical
// section.  The protocol is a state machine whose steps are those sections, the
// notifications that follow them, and wake-ups, spurious ones included.
module ThreadPool {
  import opened Wrappers

  type Task = nat
  type ThreadId = nat

  // The fields guarded by m_mutex.
  datatype Shared = Shared(accepting: bool, maxThreads: nat, threads: seq<ThreadId>, queue: seq<Task>)

  // What the worker finds to do in its critical section.
  datatype WorkerAction = Wait | Take(task: Task) | Exit

  // ---------------------------------------------------------------- critical sections

  // Whether addTask starts a thread, once its task is in the queue.
  predicate NeedsThread(s: Shared) {
    (|s.queue| > 1 && |s.threads| < s.maxThreads) || s.threads == []
  }

  // addTask past its wait: the task is queued, and a thread may be started.
  function Added(s: Shared, task: Task, newId: ThreadId): Shared {
    var s' := s.(queue := s.queue + [task]);
    if NeedsThread(s') then s'.(threads := s'.threads + [newId]) else s'
  }

  function ActionOf(s: Shared): WorkerAction {
    if s.accepting && s.queue == [] then Wait
    else if s.queue != [] then Take(s.queue[0])
    else Exit
  }

  function Taken(s: Shared): Shared {
    if s.queue == [] then s else s.(queue := s.queue[1..])
  }

  class ThreadPool {
    var waitForNewTasks: bool
    const maxThreads: nat
    var threads: seq<ThreadId>
    var taskQueue: seq<Task>

    ghost function Fields(): Shared
      reads this
    {
      Shared(waitForNewTasks, maxThreads, threads, taskQueue)
    }

    constructor (initialThreads: nat, maxThreads: nat)
      ensures Fields() == InitialFields(initialThreads, maxThreads)
    {
      this.maxThreads := if maxThreads > 1 then maxThreads else 1;
      waitForNewTasks := true;
      threads := [];
      taskQueue := [];
      new;
      for i := 0 to initialThreads
        invariant threads == seq(i, k => k)
        invariant waitForNewTasks && taskQueue == []
      {
        AddThread(i);
      }
    }

    method AddThread(id: ThreadId)
      modifies this`threads
      ensures threads == old(threads) + [id]
    {
      threads := threads + [id];
    }

    // addTask from its lock to its unlock, or to the wait that releases the lock.
    method AddTask(task: Task, newId: ThreadId) returns (added: bool)
      modifies this
      ensures added == old(waitForNewTasks)
      ensures Fields() == if added then Added(old(Fields()), task, newId) else old(Fields())
    {
      if !waitForNewTasks {
        return false;
      }
      taskQueue := taskQueue + [task];
      if (|taskQueue| > 1 && |threads| < maxThreads) || threads == [] {
        AddThread(newId);
      }
      added := true;
    }

    // The critical section of the worker loop, up to the wait or the unlock.
    method TakeTask() returns (action: WorkerAction)
      modifies this
      ensures action == ActionOf(old(Fields())) && Fields() == Taken(old(Fields()))
    {
      if waitForNewTasks && taskQueue == [] {
        return Wait;
      }
      if taskQueue != [] {
        action := Take(taskQueue[0]);
        taskQueue := taskQueue[1..];
      } else {
        action := Exit;
      }
    }

    // The two critical sections of waitUntilFinished.
    method StopWaiting()
      modifies this
      ensures Fields() == old(Fields()).(accepting := false)
    {
      waitForNewTasks := false;
    }

    method Reopen()
      modifies this
      ensures Fields() == old(Fields()).(threads := [], accepting := true)
    {
      threads := [];
      waitForNewTasks := true;
    }
  }

  function InitialFields(initialThreads: nat, maxThreads: nat): Shared {
    Shared(true, if maxThreads > 1 then maxThreads else 1, seq(initialThreads, k => k), [])
  }

  // ---------------------------------------------------------------- states

  // Ready: outside the wait set, at the lock or about to ask for it again.
  datatype Worker = Ready | Waiting | Running(task: Task) | Exited

  // A call of addTask: at the lock; in the wait set; notified or woken for no
  // reason, and not yet back; unlocked, with notify_one still to come.
  datatype Caller = Entering(task: Task) | Blocked(task: Task) | Woken(task: Task) | OwesNotify

  // A call of waitUntilFinished, between its steps.
  datatype Drain = NotDraining | OwesStopNotify | Joining(joined: nat) | OwesReopenNotify

  datatype State = State(
    shared: Shared,
    workers: map<ThreadId, Worker>,
    callers: map<nat, Caller>,
    drain: Drain,
    // history: the order of submission, who took what, and what ran to its end
    submitted: seq<Task>,
    started: seq<(Task, ThreadId)>,
    settled: set<Task>,
    limit: nat)

  datatype Waiter = WorkerWaiter(worker: ThreadId) | CallerWaiter(caller: nat)

  datatype Step =
    | CallAdd(caller: nat, task: Task)
    | Enter(caller: nat, newId: ThreadId)
    | NotifyOne(caller: nat, woken: Option<Waiter>)
    | Spurious(waiter: Waiter)
    | WorkerSection(worker: ThreadId)
    | Finish(worker: ThreadId)
    | BeginDrain
    | StopNotifyAll
    | Join
    | FinishJoin
    | ReopenNotifyAll

  predicate IsWaiting(s: State, w: Waiter) {
    match w
    case WorkerWaiter(i) => i in s.workers && s.workers[i] == Waiting
    case CallerWaiter(c) => c in s.callers && s.callers[c].Blocked?
  }

  function Wake(s: State, w: Waiter): State
    requires IsWaiting(s, w)
  {
    match w
    case WorkerWaiter(i) => s.(workers := s.workers[i := Ready])
    case CallerWaiter(c) => s.(callers := s.callers[c := Woken(s.callers[c].task)])
  }

  function WakeAll(s: State): State {
    s.(workers := map i | i in s.workers :: if s.workers[i] == Waiting then Ready else s.workers[i],
       callers := map c | c in s.callers ::
         if s.callers[c].Blocked? then Woken(s.callers[c].task) else s.callers[c])
  }

  // Tasks that have been handed to addTask.
  ghost predicate Known(s: State, task: Task) {
    task in s.submitted ||
    exists c | c in s.callers :: s.callers[c] != OwesNotify && s.callers[c].task == task
  }

  ghost predicate Enabled(s: State, step: Step) {
    match step
    case CallAdd(c, task) => c !in s.callers && !Known(s, task)
    case Enter(c, newId) =>
      c in s.callers && (s.callers[c].Entering? || s.callers[c].Woken?) && newId !in s.workers
    case NotifyOne(c, woken) =>
      c in s.callers && s.callers[c] == OwesNotify &&
      (match woken
       case Some(w) => IsWaiting(s, w)
       case None => forall w :: !IsWaiting(s, w))
    case Spurious(w) => IsWaiting(s, w)
    case WorkerSection(i) => i in s.workers && s.workers[i] == Ready
    case Finish(i) => i in s.workers && s.workers[i].Running?
    case BeginDrain => s.drain == NotDraining
    case StopNotifyAll => s.drain == OwesStopNotify
    case Join =>
      s.drain.Joining? && s.drain.joined < |s.shared.threads| &&
      var i := s.shared.threads[s.drain.joined];
      i in s.workers && s.workers[i] == Exited
    case FinishJoin => s.drain.Joining? && s.drain.joined == |s.shared.threads|
    case ReopenNotifyAll => s.drain == OwesReopenNotify
  }

  // The worker's critical section.
  ghost function WorkerStep(s: State, i: ThreadId): State
    requires i in s.workers
  {
    match ActionOf(s.shared)
    case Wait => s.(workers := s.workers[i := Waiting])
    case Take(task) =>
      s.(shared := Taken(s.shared), workers := s.workers[i := Running(task)], started := s.started + [(task, i)])
    case Exit => s.(workers := s.workers[i := Exited])
  }

  // The critical section of addTask.
  ghost function EnterStep(s: State, c: nat, task: Task, newId: ThreadId): State {
    if s.shared.accepting then
      var shared := Added(s.shared, task, newId);
      s.(shared := shared,
         workers := if shared.threads == s.shared.threads then s.workers else s.workers[newId := Ready],
         callers := s.callers[c := OwesNotify],
         submitted := s.submitted + [task])
    else s.(callers := s.callers[c := Blocked(task)])
  }

  ghost function Apply(s: State, step: Step): State
    requires Enabled(s, step)
  {
    match step
    case CallAdd(c, task) => s.(callers := s.callers[c := Entering(task)])
    case Enter(c, newId) => EnterStep(s, c, s.callers[c].task, newId)
    case NotifyOne(c, woken) =>
      var s' := if woken.Some? then Wake(s, woken.value) else s;
      s'.(callers := s'.callers - {c})
    case Spurious(w) => Wake(s, w)
    case WorkerSection(i) => WorkerStep(s, i)
    case Finish(i) =>
      s.(workers := s.workers[i := Ready], settled := s.settled + {s.workers[i].task})
    case BeginDrain => s.(shared := s.shared.(accepting := false), drain := OwesStopNotify)
    case StopNotifyAll => WakeAll(s).(drain := Joining(0))
    case Join => s.(drain := Joining(s.drain.joined + 1))
    case FinishJoin => s.(shared := s.shared.(threads := [], accepting := true), drain := OwesReopenNotify)
    case ReopenNotifyAll => WakeAll(s).(drain := NotDraining)
  }

  ghost predicate Next(s: State, s': State) {
    exists step :: Enabled(s, step) && s' == Apply(s, step)
  }

  ghost predicate Initial(s: State, initialThreads: nat, maxThreads: nat) {
    && s.shared == InitialFields(initialThreads, maxThreads)
    && (forall i :: i in s.workers <==> i in s.shared.threads)
    && (forall i | i in s.workers :: s.workers[i] == Ready)
    && s.callers == map[] && s.drain == NotDraining
    && s.submitted == [] && s.started == [] && s.settled == {}
    && s.limit == if initialThreads > s.shared.maxThreads then initialThreads else s.shared.maxThreads
  }

  ghost predicate Behavior(b: seq<State>, initialThreads: nat, maxThreads: nat) {
    && b != [] && Initial(b[0], initialThreads, maxThreads)
    && forall i | 0 <= i < |b| - 1 :: Next(b[i], b[i + 1])
  }

  // ---------------------------------------------------------------- invariants

  ghost predicate Distinct<T>(s: seq<T>) {
    forall i, j | 0 <= i < j < |s| :: s[i] != s[j]
  }

  function TasksOf(started: seq<(Task, ThreadId)>): seq<Task> {
    seq(|started|, i requires 0 <= i < |started| => started[i].0)
  }

  // Threads: every worker is in m_threads until its exit has been joined.
  ghost predicate ThreadsInv(s: State) {
    && Distinct(s.shared.threads)
    && (forall i | i in s.shared.threads :: i in s.workers)
    && (forall i | i in s.workers && i !in s.shared.threads :: s.workers[i] == Exited)
    && |s.shared.threads| <= s.limit && 1 <= s.shared.maxThreads <= s.limit
  }

  // A worker leaves only when nothing is queued, and nothing is queued until
  // the pool is open again, without its old threads.
  ghost predicate ExitInv(s: State) {
    && (s.shared.queue != [] ==> s.shared.threads != [])
    && (s.shared.accepting || s.shared.queue != [] ==>
        forall i | i in s.shared.threads :: i in s.workers && s.workers[i] != Exited)
  }

  ghost predicate DrainInv(s: State) {
    && (s.shared.accepting <==> s.drain == NotDraining || s.drain == OwesReopenNotify)
    && (s.drain.Joining? ==>
          && s.drain.joined <= |s.shared.threads|
          && (forall k | 0 <= k < s.drain.joined ::
                s.shared.threads[k] in s.workers && s.workers[s.shared.threads[k]] == Exited)
          && (forall i | i in s.workers :: s.workers[i] != Waiting))
    && (s.drain == NotDraining ==> forall c | c in s.callers :: !s.callers[c].Blocked?)
  }

  ghost predicate AwakeWorker(s: State, i: ThreadId) {
    i in s.shared.threads && i in s.workers && s.workers[i] != Waiting && s.workers[i] != Exited
  }

  // A queued task always has someone to take it or to wake someone who will.
  ghost predicate WakeInv(s: State) {
    s.drain == NotDraining && s.shared.queue != [] ==>
      (exists i :: AwakeWorker(s, i)) || (exists c | c in s.callers :: s.callers[c] == OwesNotify)
  }

  ghost predicate OrderInv(s: State) {
    && s.submitted == TasksOf(s.started) + s.shared.queue
    && Distinct(s.submitted)
    && (forall c | c in s.callers && s.callers[c] != OwesNotify :: s.callers[c].task !in s.submitted)
    && (forall c, d | c in s.callers && d in s.callers && c != d && s.callers[c] != OwesNotify
        && s.callers[d] != OwesNotify ::
          s.callers[c].task != s.callers[d].task)
  }

  // A task that was taken is running on the worker that took it, or settled.
  ghost predicate RunInv(s: State) {
    && (forall i | i in s.workers && s.workers[i].Running? ::
          (s.workers[i].task, i) in s.started && s.workers[i].task !in s.settled)
    && (forall k | 0 <= k < |s.started| ::
          s.started[k].0 in s.settled
          || (s.started[k].1 in s.workers && s.workers[s.started[k].1] == Running(s.started[k].0)))
    && (forall t | t in s.settled :: t in TasksOf(s.started))
  }

  ghost predicate Inv(s: State) {
    ThreadsInv(s) && ExitInv(s) && DrainInv(s) && WakeInv(s) && OrderInv(s) && RunInv(s)
  }

  lemma InitialInv(s: State, initialThreads: nat, maxThreads: nat)
    requires Initial(s, initialThreads, maxThreads)
    ensures Inv(s)
  {
  }

  lemma NextThreads(s: State, step: Step)
    requires Inv(s) && Enabled(s, step)
    ensures ThreadsInv(Apply(s, step))
  {
    hide Inv, ThreadsInv, Enabled, Apply;
    InvParts(s);
    match step
    case Enter(c, newId) => EnterThreads(s, c, newId);
    case FinishJoin => JoinedThreads(s);
    case WorkerSection(i) => SectionThreads(s, i);
    case _ => SameThreads(s, step);
  }

  lemma InvParts(s: State)
    requires Inv(s)
    ensures ThreadsInv(s) && ExitInv(s) && DrainInv(s) && WakeInv(s) && OrderInv(s) && RunInv(s)
  {
    hide ThreadsInv, ExitInv, DrainInv, WakeInv, OrderInv, RunInv;
  }

  lemma EnterThreads(s: State, c: nat, newId: ThreadId)
    requires ThreadsInv(s) && Enabled(s, Enter(c, newId))
    ensures ThreadsInv(Apply(s, Enter(c, newId)))
  {
    hide Known;
  }

  lemma SectionThreads(s: State, i: ThreadId)
    requires ThreadsInv(s) && Enabled(s, WorkerSection(i))
    ensures ThreadsInv(Apply(s, WorkerSection(i)))
  {
  }

  lemma JoinedThreads(s: State)
    requires ThreadsInv(s) && DrainInv(s) && Enabled(s, FinishJoin)
    ensures ThreadsInv(Apply(s, FinishJoin))
  {
    forall i | i in s.workers ensures s.workers[i] == Exited {
      if i in s.shared.threads {
        var k :| 0 <= k < |s.shared.threads| && s.shared.threads[k] == i;
      }
    }
  }

  lemma SameThreads(s: State, step: Step)
    requires ThreadsInv(s) && Enabled(s, step) && !step.Enter? && !step.FinishJoin? && !step.WorkerSection?
    ensures ThreadsInv(Apply(s, step))
  {
    hide Known;
  }

  lemma NextExit(s: State, step: Step)
    requires Inv(s) && Enabled(s, step)
    ensures ThreadsInv(Apply(s, step)) && ExitInv(Apply(s, step))
  {
    hide Inv, ThreadsInv, ExitInv, DrainInv, Enabled, Apply;
    NextThreads(s, step);
    InvParts(s);
    match step
    case Enter(c, newId) => EnterExit(s, c, newId);
    case FinishJoin => JoinedExit(s);
    case _ => SameExit(s, step);
  }

  lemma EnterExit(s: State, c: nat, newId: ThreadId)
    requires ThreadsInv(s) && ExitInv(s) && Enabled(s, Enter(c, newId))
    ensures ExitInv(Apply(s, Enter(c, newId)))
  {
    hide Known, Distinct;
  }

  lemma JoinedExit(s: State)
    requires ThreadsInv(s) && ExitInv(s) && DrainInv(s) && Enabled(s, FinishJoin)
    ensures ExitInv(Apply(s, FinishJoin))
  {
    if s.shared.threads != [] { assert s.shared.threads[0] in s.shared.threads; }
  }

  lemma SameExit(s: State, step: Step)
    requires ThreadsInv(s) && ExitInv(s) && Enabled(s, step) && !step.Enter? && !step.FinishJoin?
    ensures ExitInv(Apply(s, step))
  {
    hide Known, Distinct;
  }

  lemma NextDrain(s: State, step: Step)
    requires Inv(s) && Enabled(s, step)
    ensures ThreadsInv(Apply(s, step)) && DrainInv(Apply(s, step))
  {
    hide WakeInv, OrderInv, RunInv, ExitInv, Known, ThreadsInv, Added;
    NextThreads(s, step);
    if step.Enter? {
      EnterDrain(s, step.caller, step.newId);
    }
  }

  lemma EnterDrain(s: State, c: nat, newId: ThreadId)
    requires Inv(s) && Enabled(s, Enter(c, newId))
    ensures DrainInv(Apply(s, Enter(c, newId)))
  {
    hide WakeInv, OrderInv, RunInv, ExitInv, Known, ThreadsInv;
  }

  // notify_one cannot be spent on a blocked caller while the pool is open and
  // not being reopened: no caller is in the wait set then.
  lemma NextWake(s: State, step: Step)
    requires Inv(s) && Enabled(s, step)
    ensures WakeInv(Apply(s, step))
  {
    hide OrderInv, RunInv, Known;
    var s' := Apply(s, step);
    if s'.drain == NotDraining && s'.shared.queue != [] {
      match step
      case Enter(c, newId) =>
        if s.shared.accepting { assert c in s'.callers && s'.callers[c] == OwesNotify; }
      case NotifyOne(c, woken) =>
        AfterNotify(s, c, woken);
      case ReopenNotifyAll =>
        var i := s.shared.threads[0];
        assert i in s.shared.threads;
        assert AwakeWorker(s', i);
      case _ =>
        StillAwake(s, step);
    }
  }

  lemma AfterNotify(s: State, c: nat, woken: Option<Waiter>)
    requires Inv(s) && Enabled(s, NotifyOne(c, woken)) && s.drain == NotDraining && s.shared.queue != []
    ensures exists i :: AwakeWorker(Apply(s, NotifyOne(c, woken)), i)
  {
    hide OrderInv, RunInv, Known, WakeInv;
    var s' := Apply(s, NotifyOne(c, woken));
    match woken
    case Some(w) =>
      assert AwakeWorker(s', w.worker);
    case None =>
      var i := s.shared.threads[0];
      assert i in s.shared.threads && !IsWaiting(s, WorkerWaiter(i));
      assert AwakeWorker(s', i);
  }

  lemma StillAwake(s: State, step: Step)
    requires Inv(s) && Enabled(s, step) && !step.Enter? && !step.NotifyOne? && !step.ReopenNotifyAll?
    requires var s' := Apply(s, step); s'.drain == NotDraining && s'.shared.queue != []
    ensures WakeInv(Apply(s, step))
  {
    hide OrderInv, RunInv, Known;
    var s' := Apply(s, step);
    if i :| AwakeWorker(s, i) {
      assert AwakeWorker(s', i);
    } else {
      var c :| c in s.callers && s.callers[c] == OwesNotify;
      assert c in s'.callers && s'.callers[c] == OwesNotify;
    }
  }

  lemma NextOrder(s: State, step: Step)
    requires Inv(s) && Enabled(s, step)
    ensures OrderInv(Apply(s, step))
  {
    hide Inv, OrderInv, Enabled, Apply;
    InvParts(s);
    match step
    case Enter(c, newId) => EnterOrder(s, c, newId);
    case WorkerSection(i) => SectionOrder(s, i);
    case _ => SameOrder(s, step);
  }

  lemma EnterOrder(s: State, c: nat, newId: ThreadId)
    requires OrderInv(s) && Enabled(s, Enter(c, newId))
    ensures OrderInv(Apply(s, Enter(c, newId)))
  {
    hide Known, NeedsThread;
  }

  lemma SectionOrder(s: State, i: ThreadId)
    requires OrderInv(s) && Enabled(s, WorkerSection(i))
    ensures OrderInv(Apply(s, WorkerSection(i)))
  {
    if ActionOf(s.shared).Take? {
      var s' := Apply(s, WorkerSection(i));
      assert TasksOf(s'.started) == TasksOf(s.started) + [s.shared.queue[0]];
      assert s.shared.queue == [s.shared.queue[0]] + s'.shared.queue;
    }
  }

  lemma SameOrder(s: State, step: Step)
    requires OrderInv(s) && Enabled(s, step) && !step.Enter? && !step.WorkerSection?
    ensures OrderInv(Apply(s, step))
  {
    hide Distinct;
  }

  lemma NextRun(s: State, step: Step)
    requires Inv(s) && Enabled(s, step)
    ensures RunInv(Apply(s, step))
  {
    hide WakeInv, ThreadsInv, ExitInv, DrainInv, Known, OrderInv;
    var s' := Apply(s, step);
    if step.WorkerSection? && ActionOf(s.shared).Take? {
      TakeRun(s, step.worker);
    } else if step.Finish? {
      FinishRun(s, step.worker);
    } else if step.Enter? {
      assert forall i | i in s.workers && s.workers[i].Running? :: step.newId != i;
    }
  }

  lemma TakeRun(s: State, i: ThreadId)
    requires Inv(s) && Enabled(s, WorkerSection(i)) && ActionOf(s.shared).Take?
    ensures RunInv(Apply(s, WorkerSection(i)))
  {
    hide WakeInv, ThreadsInv, ExitInv, DrainInv, Known;
    var s', task := Apply(s, WorkerSection(i)), s.shared.queue[0];
    var n := |s.started|;
    assert s'.started[n] == (task, i);
    assert forall k | 0 <= k < n ::
      s'.started[k] == s.started[k] && (s.started[k].1 != i || s.started[k].0 in s.settled);
    assert s.submitted[n] == task;
    forall t | t in s.settled ensures t in TasksOf(s'.started) && t != task {
      var k :| 0 <= k < n && TasksOf(s.started)[k] == t;
      assert TasksOf(s'.started)[k] == t && s.submitted[k] == t;
    }
  }

  lemma FinishRun(s: State, i: ThreadId)
    requires Inv(s) && Enabled(s, Finish(i))
    ensures RunInv(Apply(s, Finish(i)))
  {
    hide WakeInv, ThreadsInv, ExitInv, DrainInv, Known;
    var s', task := Apply(s, Finish(i)), s.workers[i].task;
    var m :| 0 <= m < |s.started| && s.started[m] == (task, i);
    assert TasksOf(s.started)[m] == task && s.submitted[m] == task;
    forall j | j in s'.workers && s'.workers[j].Running? ensures s'.workers[j].task !in s'.settled {
      var k :| 0 <= k < |s.started| && s.started[k] == (s.workers[j].task, j);
      assert s.submitted[k] == s.workers[j].task;
    }
  }

  lemma NextInv(s: State, s': State)
    requires Inv(s) && Next(s, s')
    ensures Inv(s') && s'.limit == s.limit
  {
    hide ThreadsInv, ExitInv, DrainInv, WakeInv, OrderInv, RunInv, Known;
    var step :| Enabled(s, step) && s' == Apply(s, step);
    NextExit(s, step);
    NextDrain(s, step);
    NextWake(s, step);
    NextOrder(s, step);
    NextRun(s, step);
  }

  lemma {:induction false} BehaviorInv(b: seq<State>, initialThreads: nat, maxThreads: nat)
    requires Behavior(b, initialThreads, maxThreads)
    ensures Inv(b[|b| - 1]) && b[|b| - 1].limit == b[0].limit
  {
    hide Inv, Next, Initial;
    if |b| == 1 {
      InitialInv(b[0], initialThreads, maxThreads);
    } else {
      var before := b[..|b| - 1];
      assert before[|before| - 1] == b[|b| - 2];
      BehaviorInv(before, initialThreads, maxThreads);
      assert Next(b[|b| - 2], b[|b| - 1]);
      NextInv(b[|b| - 2], b[|b| - 1]);
    }
  }

  // ---------------------------------------------------------------- theorems

  // A live worker outside the wait set: it will look at the queue again.
  ghost predicate SomeWorkerAwake(s: State) { exists i :: AwakeWorker(s, i) }

  ghost predicate SomeNotifyOwed(s: State) { exists c | c in s.callers :: s.callers[c] == OwesNotify }

  // No lost wake-up: in every reachable state with a queued task, some worker
  // is awake, or an addTask still owes notify_one, or waitUntilFinished still
  // owes a notify_all.
  lemma NoLostWakeUp(b: seq<State>, initialThreads: nat, maxThreads: nat)
    requires Behavior(b, initialThreads, maxThreads)
    requires b[|b| - 1].shared.queue != []
    ensures var s := b[|b| - 1];
      SomeWorkerAwake(s) || SomeNotifyOwed(s) || s.drain == OwesStopNotify || s.drain == OwesReopenNotify
  {
    var s := b[|b| - 1];
    BehaviorInv(b, initialThreads, maxThreads);
    if s.drain.Joining? {
      var i := s.shared.threads[0];
      assert i in s.shared.threads;
      assert AwakeWorker(s, i);
    }
  }

  // First in, first out: what was submitted is what was taken, in order,
  // followed by what is queued; every task is taken at most once, by one
  // worker; and there are never more threads than the constructor allows.
  lemma TasksInOrder(b: seq<State>, initialThreads: nat, maxThreads: nat)
    requires Behavior(b, initialThreads, maxThreads)
    ensures var s := b[|b| - 1];
      && s.submitted == TasksOf(s.started) + s.shared.queue && Distinct(s.submitted)
      && (forall j, k | 0 <= j < k < |s.started| :: s.started[j].0 != s.started[k].0)
      && |s.shared.threads| <= (if initialThreads > maxThreads then initialThreads
          else if maxThreads > 1 then maxThreads else 1)
  {
    var s := b[|b| - 1];
    BehaviorInv(b, initialThreads, maxThreads);
    forall j, k | 0 <= j < k < |s.started| ensures s.started[j].0 != s.started[k].0 {
      assert s.submitted[j] == s.started[j].0 && s.submitted[k] == s.started[k].0;
    }
  }

  // Once waitUntilFinished has joined every worker, the queue is empty and
  // every task that was accepted has run to its end.
  lemma DrainComplete(b: seq<State>, initialThreads: nat, maxThreads: nat)
    requires Behavior(b, initialThreads, maxThreads)
    requires Enabled(b[|b| - 1], FinishJoin)
    ensures var s := b[|b| - 1];
      s.shared.queue == [] && forall t | t in s.submitted :: t in s.settled
  {
    var s := b[|b| - 1];
    BehaviorInv(b, initialThreads, maxThreads);
    JoinedMeansSettled(s);
  }

  lemma JoinedMeansSettled(s: State)
    requires Inv(s) && Enabled(s, FinishJoin)
    ensures s.shared.queue == [] && forall t | t in s.submitted :: t in s.settled
  {
    hide WakeInv, Known;
    forall i | i in s.workers ensures s.workers[i] == Exited {
      if i in s.shared.threads {
        var k :| 0 <= k < |s.shared.threads| && s.shared.threads[k] == i;
      }
    }
    if s.shared.threads != [] { assert s.shared.threads[0] in s.shared.threads; }
    forall t | t in s.submitted ensures t in s.settled {
      var k :| 0 <= k < |s.submitted| && s.submitted[k] == t;
      assert s.started[k].0 == t;
    }
  }

  // A task's promise is settled once: the task was not settled before.
  lemma SettledOnce(b: seq<State>, initialThreads: nat, maxThreads: nat, i: ThreadId)
    requires Behavior(b, initialThreads, maxThreads)
    requires Enabled(b[|b| - 1], Finish(i))
    ensures var s := b[|b| - 1]; s.workers[i].task !in s.settled && (s.workers[i].task, i) in s.started
  {
    BehaviorInv(b, initialThreads, maxThreads);
  }

  // Steps that the pool takes on its own, without new calls and without
  // spurious wake-ups.
  predicate IsProgress(step: Step) {
    !step.CallAdd? && !step.Spurious? && !step.BeginDrain?
  }

  ghost predicate CanProgress(s: State) {
    exists step :: IsProgress(step) && Enabled(s, step)
  }

  // Nothing is left to do: no task queued or running, no call in progress.
  ghost predicate Quiet(s: State) {
    && s.shared.queue == [] && s.callers == map[] && s.drain == NotDraining
    && forall i | i in s.workers :: s.workers[i] == Waiting || s.workers[i] == Exited
  }

  ghost function UnusedId(s: State): (id: ThreadId)
    ensures id !in s.workers
  {
    FreshId(s.workers.Keys)
  }

  ghost function FreshId(used: set<ThreadId>): (id: ThreadId)
    ensures id !in used
  {
    if used == {} then 0 else Largest(used) + 1
  }

  ghost function Largest(used: set<ThreadId>): (m: ThreadId)
    requires used != {}
    ensures m in used && forall i | i in used :: i <= m
  {
    var i :| i in used;
    var rest := used - {i};
    assert used == rest + {i};
    if rest == {} then i
    else if Largest(rest) > i then Largest(rest) else i
  }

  // No deadlock: in every reachable state either nothing is left to do or some
  // step of the pool itself is possible.
  lemma NoDeadlock(b: seq<State>, initialThreads: nat, maxThreads: nat)
    requires Behavior(b, initialThreads, maxThreads)
    ensures Quiet(b[|b| - 1]) || CanProgress(b[|b| - 1])
  {
    var s := b[|b| - 1];
    BehaviorInv(b, initialThreads, maxThreads);
    QuietOrProgress(s);
  }

  lemma QuietOrProgress(s: State)
    requires Inv(s)
    ensures Quiet(s) || CanProgress(s)
  {
    hide OrderInv, RunInv, Known;
    if i :| i in s.workers && s.workers[i] == Ready {
      assert IsProgress(WorkerSection(i)) && Enabled(s, WorkerSection(i));
    } else if i :| i in s.workers && s.workers[i].Running? {
      assert IsProgress(Finish(i)) && Enabled(s, Finish(i));
    } else if c :| c in s.callers && !s.callers[c].Blocked? {
      CallerProgress(s, c);
    } else if s.drain == OwesStopNotify {
      assert IsProgress(StopNotifyAll) && Enabled(s, StopNotifyAll);
    } else if s.drain == OwesReopenNotify {
      assert IsProgress(ReopenNotifyAll) && Enabled(s, ReopenNotifyAll);
    } else if s.drain.Joining? {
      if s.drain.joined < |s.shared.threads| {
        assert s.shared.threads[s.drain.joined] in s.shared.threads;
        assert IsProgress(Join) && Enabled(s, Join);
      } else {
        assert IsProgress(FinishJoin) && Enabled(s, FinishJoin);
      }
    } else {
      assert s.callers == map[];
      forall i ensures !AwakeWorker(s, i) {}
    }
  }

  lemma CallerProgress(s: State, c: nat)
    requires c in s.callers && !s.callers[c].Blocked?
    ensures CanProgress(s)
  {
    hide Known;
    if s.callers[c] == OwesNotify {
      if w :| IsWaiting(s, w) {
        assert IsProgress(NotifyOne(c, Some(w))) && Enabled(s, NotifyOne(c, Some(w)));
      } else {
        assert IsProgress(NotifyOne(c, None)) && Enabled(s, NotifyOne(c, None));
      }
    } else {
      assert IsProgress(Enter(c, UnusedId(s))) && Enabled(s, Enter(c, UnusedId(s)));
    }
  }

  // ---------------------------------------------------------------- waitUntilFinished ends

  ghost function RunningWorkers(s: State): set<ThreadId> { set i | i in s.workers && s.workers[i].Running? }

  ghost function LiveWorkers(s: State): set<ThreadId> { set i | i in s.workers && s.workers[i] != Exited }

  // What a drain still has to do: two steps for a queued task (take and run),
  // one for a running one, one exit for each worker, one join for each thread.
  ghost function DrainWork(s: State): nat
    requires DrainInv(s) && s.drain.Joining?
  {
    2 * |s.shared.queue| + |RunningWorkers(s)| + |LiveWorkers(s)| + (|s.shared.threads| - s.drain.joined)
  }

  predicate IsDrainWork(step: Step) { step.WorkerSection? || step.Finish? || step.Join? || step.FinishJoin? }

  // While workers are being joined, a step of theirs or a join brings the end
  // nearer, and nothing else, calls of addTask included, puts it off.
  lemma DrainEnds(s: State, step: Step)
    requires Inv(s) && s.drain.Joining? && Enabled(s, step)
    ensures var s' := Apply(s, step);
      if step == FinishJoin then s'.drain == OwesReopenNotify
      else
        && DrainInv(s') && s'.drain.Joining?
        && DrainWork(s') <= DrainWork(s)
        && (IsDrainWork(step) ==> DrainWork(s') < DrainWork(s))
  {
    hide OrderInv, RunInv, Known, WakeInv, ExitInv, ThreadsInv;
    NextDrain(s, step);
    match step
    case WorkerSection(i) => DrainSection(s, i);
    case Finish(i) => DrainFinish(s, i);
    case FinishJoin =>
    case _ => DrainOther(s, step);
  }

  lemma DrainSection(s: State, i: ThreadId)
    requires DrainInv(s) && s.drain.Joining? && Enabled(s, WorkerSection(i))
    ensures var s' := WorkerStep(s, i);
      s'.drain == s.drain && (DrainInv(s') ==> DrainWork(s') < DrainWork(s))
  {
    var s' := WorkerStep(s, i);
    if ActionOf(s.shared).Take? {
      assert RunningWorkers(s') == RunningWorkers(s) + {i} && LiveWorkers(s') == LiveWorkers(s);
    } else {
      assert i in LiveWorkers(s);
      assert RunningWorkers(s') == RunningWorkers(s) && LiveWorkers(s') == LiveWorkers(s) - {i};
    }
  }

  lemma DrainFinish(s: State, i: ThreadId)
    requires DrainInv(s) && s.drain.Joining? && Enabled(s, Finish(i))
    ensures var s' := Apply(s, Finish(i));
      s'.drain == s.drain && (DrainInv(s') ==> DrainWork(s') < DrainWork(s))
  {
    var s' := Apply(s, Finish(i));
    assert i in RunningWorkers(s);
    assert RunningWorkers(s') == RunningWorkers(s) - {i} && LiveWorkers(s') == LiveWorkers(s);
  }

  lemma DrainOther(s: State, step: Step)
    requires DrainInv(s) && s.drain.Joining? && Enabled(s, step)
    requires !step.WorkerSection? && !step.Finish? && !step.FinishJoin?
    ensures var s' := Apply(s, step);
      s'.drain.Joining? && (DrainInv(s') ==>
        DrainWork(s') <= DrainWork(s) && (step.Join? ==> DrainWork(s') < DrainWork(s)))
  {
    hide Known, Added;
    var s' := Apply(s, step);
    assert s'.workers == s.workers && s'.shared == s.shared;
    assert RunningWorkers(s') == RunningWorkers(s) && LiveWorkers(s') == LiveWorkers(s);
  }

  // And such a step is always possible, so that a drain ends.
  lemma DrainCanWork(s: State)
    requires Inv(s) && s.drain.Joining?
    ensures exists step :: IsDrainWork(step) && Enabled(s, step)
  {
    hide OrderInv, RunInv, Known, WakeInv;
    if s.drain.joined == |s.shared.threads| {
      assert IsDrainWork(FinishJoin) && Enabled(s, FinishJoin);
    } else {
      var i := s.shared.threads[s.drain.joined];
      assert i in s.shared.threads;
      match s.workers[i]
      case Ready => assert IsDrainWork(WorkerSection(i)) && Enabled(s, WorkerSection(i));
      case Running(_) => assert IsDrainWork(Finish(i)) && Enabled(s, Finish(i));
      case Exited => assert IsDrainWork(Join) && Enabled(s, Join);
    }
  }
}
