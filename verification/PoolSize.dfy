// lsp/threadpool.cpp: how many threads the pool has, and what may happen in it.
module PoolSize {
  import opened Wrappers
  import opened ThreadPool

  // A thread for every queued task, as far as the maximum allows.
  ghost predicate EnoughThreads(s: State) {
    |s.shared.threads| >= |s.shared.queue| || |s.shared.threads| >= s.shared.maxThreads
  }

  lemma NextEnough(s: State, step: Step)
    requires Inv(s) && EnoughThreads(s) && Enabled(s, step)
    ensures EnoughThreads(Apply(s, step))
  {
    hide WakeInv, OrderInv, RunInv;
    if step.FinishJoin? { JoinedMeansSettled(s); }
  }

  // In every run the pool has a thread for every queued task or as many as it may have.
  lemma {:induction false} AlwaysEnough(b: seq<State>, initialThreads: nat, maxThreads: nat)
    requires Behavior(b, initialThreads, maxThreads)
    ensures EnoughThreads(b[|b| - 1])
  {
    hide Inv, Next, Initial, EnoughThreads;
    var n := |b| - 1;
    if n == 0 {
      InitialEnough(b[0], initialThreads, maxThreads);
    } else {
      var before := b[..n];
      assert before[|before| - 1] == b[n - 1];
      AlwaysEnough(before, initialThreads, maxThreads);
      BehaviorInv(before, initialThreads, maxThreads);
      assert Next(b[n - 1], b[n]);
      StepEnough(b[n - 1], b[n]);
    }
  }

  lemma StepEnough(s: State, s': State)
    requires Inv(s) && EnoughThreads(s) && Next(s, s')
    ensures EnoughThreads(s')
  {
    hide Inv, EnoughThreads, Enabled, Apply;
    var step :| Enabled(s, step) && s' == Apply(s, step);
    NextEnough(s, step);
  }

  lemma InitialEnough(s: State, initialThreads: nat, maxThreads: nat)
    requires Initial(s, initialThreads, maxThreads)
    ensures EnoughThreads(s)
  {
  }

  // A thread is started only for a task that has to wait otherwise, or the first one;
  // at most one at a time, and not beyond the maximum but for the first.
  lemma StartedForNeed(s: State, step: Step)
    requires Enabled(s, step) && |Apply(s, step).shared.threads| > |s.shared.threads|
    ensures step.Enter? && s.shared.accepting
    ensures s.shared.threads == [] || (s.shared.queue != [] && |s.shared.threads| < s.shared.maxThreads)
    ensures Apply(s, step).shared.threads == s.shared.threads + [step.newId]
    ensures Apply(s, step).shared.queue == s.shared.queue + [s.callers[step.caller].task]
  {
  }

  // A new pool accepts tasks, has the threads asked for and none queued, and may have
  // one thread at least.
  lemma StartsWith(s: State, initialThreads: nat, maxThreads: nat)
    requires Initial(s, initialThreads, maxThreads)
    ensures s.shared.accepting && |s.shared.threads| == initialThreads && s.shared.queue == []
    ensures s.shared.maxThreads == (if maxThreads == 0 then 1 else maxThreads)
  {
  }

  // ---------------------------------------------------------------- what may happen

  // There is a pool of every size.
  lemma EveryPoolStarts(initialThreads: nat, maxThreads: nat) returns (s: State)
    ensures Initial(s, initialThreads, maxThreads)
  {
    var shared := InitialFields(initialThreads, maxThreads);
    s := State(shared, map i | i in shared.threads :: Ready, map[], NotDraining, [], [], {},
               if initialThreads > shared.maxThreads then initialThreads else shared.maxThreads);
  }

  // No step is kept from happening: who waits may wake up at any time, who is awake may
  // enter, any waiting thread may be the one that is notified, and a drain may begin.
  lemma MayHappen(s: State)
    ensures forall i | i in s.workers ::
      && (s.workers[i] == Ready ==> Enabled(s, WorkerSection(i)))
      && (s.workers[i] == Waiting ==> Enabled(s, Spurious(WorkerWaiter(i))))
      && (s.workers[i].Running? ==> Enabled(s, Finish(i)))
    ensures forall c, i | c in s.callers && i !in s.workers ::
      s.callers[c].Entering? || s.callers[c].Woken? ==> Enabled(s, Enter(c, i))
    ensures forall c | c in s.callers && s.callers[c].Blocked? :: Enabled(s, Spurious(CallerWaiter(c)))
    ensures forall c, i | c in s.callers && i in s.workers && s.workers[i] == Waiting && s.callers[c] == OwesNotify ::
      Enabled(s, NotifyOne(c, Some(WorkerWaiter(i))))
    ensures forall c, d | c in s.callers && d in s.callers && s.callers[d].Blocked? && s.callers[c] == OwesNotify ::
      Enabled(s, NotifyOne(c, Some(CallerWaiter(d))))
    ensures s.drain == NotDraining ==> Enabled(s, BeginDrain)
  {
  }

  // Any thread may add a task at any time.
  lemma AnyoneMayAdd(s: State, c: nat, task: Task)
    requires c !in s.callers && task !in s.submitted
    requires forall d | d in s.callers :: s.callers[d] == OwesNotify || s.callers[d].task != task
    ensures Enabled(s, CallAdd(c, task))
  {
  }
}
