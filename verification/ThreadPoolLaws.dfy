/** What the thread pool keeps over every run, and where its runs end. */
module ThreadPoolLaws {
  import opened Options
  import opened ThreadPool

  lemma StartInv(workers: nat, waiters: nat)
    ensures Inv(Start(workers, waiters))
  {
    NoneInTask(Start(workers, waiters).workers);
  }

  // ---------- each kind of event ----------

  /** One worker changes without starting, ending or leaving a task. */
  lemma WorkerMoves(s: System, t: System, w: nat)
    requires Conserved(s) && w < |s.workers| && |t.workers| == |s.workers|
    requires t.workers == s.workers[w := t.workers[w]]
    requires t.completed == s.completed && |t.started| == |s.started|
    requires InTask(t.workers[w]) == InTask(s.workers[w])
    requires InTask(s.workers[w]) ==> t.workers[w].task == s.workers[w].task
    ensures Conserved(t)
  {
    forall task: nat | task < |t.started| && task !in t.completed
      ensures exists v :: RunsTask(t, v, task)
    {
      var v :| RunsTask(s, v, task);
      assert RunsTask(t, v, task);
    }
  }

  lemma SleepersMove(s: System, t: System, w: nat)
    requires w < |s.workers| && |t.workers| == |s.workers| && t.workers == s.workers[w := t.workers[w]]
    requires t.workers[w].Asleep? ==> s.workers[w].Asleep?
    ensures SomeoneAsleep(t) ==> SomeoneAsleep(s)
  {
  }

  lemma AddInv(s: System)
    requires Inv(s) && Enabled(s, Add)
    ensures Inv(Step(s, Add))
  {
    var t := Step(s, Add);
    assert t.workers == s.workers && t.started == s.started && t.completed == s.completed;
    assert forall w, task :: RunsTask(s, w, task) ==> RunsTask(t, w, task);
  }

  lemma NotifyInv(s: System, woken: Option<nat>)
    requires Inv(s) && Enabled(s, Notify(woken))
    ensures Inv(Step(s, Notify(woken)))
  {
    var t := Step(s, Notify(woken));
    if woken.Some? {
      CountsUpdate(s.workers, woken.value, Awake);
      WorkerMoves(s, t, woken.value);
      SleepersMove(s, t, woken.value);
    } else {
      assert forall w, task :: RunsTask(s, w, task) ==> RunsTask(t, w, task);
    }
  }

  lemma HeadInv(s: System, w: nat)
    requires Inv(s) && Enabled(s, Head(w))
    ensures Inv(Step(s, Head(w)))
  {
    var t := AtHead(s, w);
    CountsUpdate(s.workers, w, t.workers[w]);
    if Decide(s.pool).Run? {
      HeadTakesTask(s, w);
      SleepersMove(s, t, w);
    } else {
      WorkerMoves(s, t, w);
    }
  }

  lemma HeadTakesTask(s: System, w: nat)
    requires Inv(s) && Enabled(s, Head(w)) && Decide(s.pool).Run?
    ensures Fifo(AtHead(s, w)) && Conserved(AtHead(s, w))
  {
    var t := AtHead(s, w);
    assert s.pool.tasks[0] == |s.started|;
    forall task: nat | task < |t.started| && task !in t.completed
      ensures exists v :: RunsTask(t, v, task)
    {
      if task < |s.started| {
        var v :| RunsTask(s, v, task);
        assert RunsTask(t, v, task);
      } else {
        assert RunsTask(t, w, task);
      }
    }
  }

  lemma ReturnInv(s: System, w: nat)
    requires Inv(s) && Enabled(s, Return(w))
    ensures Inv(Step(s, Return(w)))
  {
    var t := Step(s, Return(w));
    CountsUpdate(s.workers, w, t.workers[w]);
    WorkerMoves(s, t, w);
    SleepersMove(s, t, w);
  }

  lemma BehindInv(s: System, w: nat)
    requires Inv(s) && Enabled(s, Behind(w))
    ensures Inv(Step(s, Behind(w)))
  {
    var t := AtEnd(s, w);
    CountsUpdate(s.workers, w, Awake);
    SleepersMove(s, t, w);
    forall task: nat | task < |t.started| && task !in t.completed
      ensures exists v :: RunsTask(t, v, task)
    {
      var v :| RunsTask(s, v, task);
      assert RunsTask(t, v, task);
    }
  }

  lemma SpuriousInv(s: System, w: nat)
    requires Inv(s) && Enabled(s, Spurious(w))
    ensures Inv(Step(s, Spurious(w)))
  {
    var t := Step(s, Spurious(w));
    CountsUpdate(s.workers, w, Awake);
    WorkerMoves(s, t, w);
    SleepersMove(s, t, w);
  }

  lemma WaiterInv(s: System, e: Event)
    requires Inv(s) && Enabled(s, e) && (e.Check? || e.WaitSpurious? || e.StopRequest?)
    ensures Inv(Step(s, e))
  {
    var t := Step(s, e);
    assert t.workers == s.workers;
    assert forall w, task :: RunsTask(s, w, task) ==> RunsTask(t, w, task);
  }

  lemma StopNotifyInv(s: System)
    requires Inv(s) && Enabled(s, StopNotify)
    ensures Inv(Step(s, StopNotify))
  {
    var t := Step(s, StopNotify);
    CountsWakeAll(s.workers);
    assert forall w :: 0 <= w < |s.workers| ==> t.workers[w] == if s.workers[w].Asleep? then Awake else s.workers[w];
    forall task: nat | task < |t.started| && task !in t.completed
      ensures exists v :: RunsTask(t, v, task)
    {
      var v :| RunsTask(s, v, task);
      assert RunsTask(t, v, task);
    }
  }

  /** Every event keeps the whole invariant. */
  lemma StepInv(s: System, e: Event)
    requires Inv(s) && Enabled(s, e)
    ensures Inv(Step(s, e))
  {
    match e
    case Add => AddInv(s);
    case Notify(woken) => NotifyInv(s, woken);
    case Head(w) => HeadInv(s, w);
    case Return(w) => ReturnInv(s, w);
    case Behind(w) => BehindInv(s, w);
    case Spurious(w) => SpuriousInv(s, w);
    case Check(_) => WaiterInv(s, e);
    case WaitSpurious(_) => WaiterInv(s, e);
    case StopRequest => WaiterInv(s, e);
    case StopNotify => StopNotifyInv(s);
  }

  // ---------- runs ----------

  ghost predicate Possible(s: System, events: seq<Event>)
    decreases |events|
  {
    events == [] || (Enabled(s, events[0]) && Possible(Step(s, events[0]), events[1..]))
  }

  ghost function Run(s: System, events: seq<Event>): System
    requires Possible(s, events)
    decreases |events|
  {
    if events == [] then s else Run(Step(s, events[0]), events[1..])
  }

  lemma {:induction false} RunInv(s: System, events: seq<Event>)
    requires Inv(s) && Possible(s, events)
    ensures Inv(Run(s, events))
    decreases |events|
  {
    if events != [] {
      StepInv(s, events[0]);
      RunInv(Step(s, events[0]), events[1..]);
    }
  }

  /** The tasks that are queued, running and completed add up to the tasks that were added. */
  lemma TasksConserved(workers: nat, waiters: nat, events: seq<Event>)
    requires Possible(Start(workers, waiters), events)
    ensures var s := Run(Start(workers, waiters), events);
            s.added == |s.pool.tasks| + s.pool.activeTasks + |s.completed|
    ensures var s := Run(Start(workers, waiters), events);
            s.started == Numbers(|s.started|) && s.pool.tasks == seq(|s.pool.tasks|, k => |s.started| + k)
  {
    StartInv(workers, waiters);
    RunInv(Start(workers, waiters), events);
    StartedInOrder(Run(Start(workers, waiters), events));
    StartedSplit(Run(Start(workers, waiters), events));
  }

  lemma StartedInOrder(s: System)
    requires Inv(s)
    ensures s.started == Numbers(|s.started|) && s.pool.tasks == seq(|s.pool.tasks|, k => |s.started| + k)
  {
  }

  function Numbers(n: nat): seq<nat> {
    seq(n, k => k)
  }

  /** The numbers of the first `n` tasks. */
  function Upto(n: nat): set<nat> {
    if n == 0 then {} else Upto(n - 1) + {n - 1}
  }

  lemma {:induction false} UptoExactly(n: nat)
    ensures |Upto(n)| == n && forall k: nat :: k in Upto(n) <==> k < n
  {
    if n > 0 {
      UptoExactly(n - 1);
    }
  }

  ghost function TasksIn(workers: seq<Worker>): set<nat> {
    set w | 0 <= w < |workers| && InTask(workers[w]) :: workers[w].task
  }

  ghost predicate DistinctTasks(workers: seq<Worker>) {
    forall v, w :: 0 <= v < w < |workers| && InTask(workers[v]) && InTask(workers[w]) ==>
      workers[v].task != workers[w].task
  }

  lemma {:induction false} TasksInCard(workers: seq<Worker>)
    requires DistinctTasks(workers)
    ensures |TasksIn(workers)| == CountInTask(workers)
  {
    if workers != [] {
      var rest := workers[1..];
      assert forall w :: 0 <= w < |rest| ==> rest[w] == workers[w + 1];
      TasksInCard(rest);
      if InTask(workers[0]) {
        assert workers[0].task !in TasksIn(rest);
        assert TasksIn(workers) == TasksIn(rest) + {workers[0].task};
      } else {
        assert TasksIn(workers) == TasksIn(rest);
      }
    }
  }

  lemma StartedSplit(s: System)
    requires Inv(s)
    ensures |s.started| == s.pool.activeTasks + |s.completed|
    ensures Upto(|s.started|) == TasksIn(s.workers) + s.completed
  {
    TasksInCard(s.workers);
    UptoExactly(|s.started|);
    forall task | task in Upto(|s.started|) && task !in s.completed
      ensures task in TasksIn(s.workers)
    {
      var w :| RunsTask(s, w, task);
      assert s.workers[w].task == task;
    }
    assert TasksIn(s.workers) !! s.completed;
    assert Upto(|s.started|) == TasksIn(s.workers) + s.completed;
  }

  /** When `wait` returns, nothing is queued or running: every task added so far is completed. */
  lemma WaitReturnsDone(workers: nat, waiters: nat, events: seq<Event>, v: nat)
    requires Possible(Start(workers, waiters), events)
    requires Enabled(Run(Start(workers, waiters), events), Check(v))
    requires Step(Run(Start(workers, waiters), events), Check(v)).waiters[v].Released?
    ensures var s := Run(Start(workers, waiters), events);
            s.completed == Upto(s.added) && forall w :: 0 <= w < |s.workers| ==> !InTask(s.workers[w])
  {
    StartInv(workers, waiters);
    RunInv(Start(workers, waiters), events);
    var s := Run(Start(workers, waiters), events);
    StartedSplit(s);
    NoneInTask(s.workers);
    assert TasksIn(s.workers) == {};
  }

  /** When the destructor has joined every thread, every task ever added is completed. */
  lemma JoinedMeansDrained(workers: nat, waiters: nat, events: seq<Event>)
    requires Possible(Start(workers, waiters), events) && workers > 0
    requires forall w :: 0 <= w < |Run(Start(workers, waiters), events).workers| ==>
               Run(Start(workers, waiters), events).workers[w].Exited?
    ensures var s := Run(Start(workers, waiters), events); s.pool.stop && s.completed == Upto(s.added)
  {
    StartInv(workers, waiters);
    RunInv(Start(workers, waiters), events);
    SameCrew(Start(workers, waiters), events);
    var s := Run(Start(workers, waiters), events);
    assert s.workers[0].Exited?;
    StartedSplit(s);
    assert TasksIn(s.workers) == {};
  }

  lemma {:induction false} SameCrew(s: System, events: seq<Event>)
    requires Possible(s, events)
    ensures |Run(s, events).workers| == |s.workers| && |Run(s, events).waiters| == |s.waiters|
    decreases |events|
  {
    if events != [] {
      SameCrew(Step(s, events[0]), events[1..]);
    }
  }

  // ---------- no lost wakeups ----------

  /** The events that need no outside cause: no new task, no stop request, no spurious wakeup. */
  predicate Internal(e: Event) {
    e.Notify? || e.Head? || e.Return? || e.Behind? || e.Check? || e.StopNotify?
  }

  /**
   Where nothing can happen any more without an outside cause, nothing was forgotten: no task is queued
   or running, no waiter sleeps, and after a stop request every worker has left.
   */
  lemma QuiescentIsDone(s: System)
    requires Inv(s) && |s.workers| > 0
    requires forall e :: Internal(e) ==> !Enabled(s, e)
    ensures s.pool.Quiet() && s.pending == 0 && s.completed == Upto(s.added)
    ensures forall v :: 0 <= v < |s.waiters| ==> s.waiters[v].Released?
    ensures s.pool.stop ==> forall w :: 0 <= w < |s.workers| ==> s.workers[w].Exited?
  {
    forall w | 0 <= w < |s.workers|
      ensures s.workers[w].Asleep? || s.workers[w].Exited?
    {
      assert !Enabled(s, Head(w)) && !Enabled(s, Return(w)) && !Enabled(s, Behind(w));
    }
    NothingPending(s);
    assert !Enabled(s, StopNotify);
    NoneInTask(s.workers);
    AwakeNone(s.workers);
    assert s.workers[0].Asleep? || s.workers[0].Exited?;
    assert s.pool.tasks == [];
    forall v | 0 <= v < |s.waiters|
      ensures s.waiters[v].Released?
    {
      assert !Enabled(s, Check(v));
    }
    AllCompleted(s);
  }

  lemma AllCompleted(s: System)
    requires Inv(s) && s.pool.Quiet()
    ensures s.completed == Upto(s.added)
  {
    StartedSplit(s);
    NoneInTask(s.workers);
    assert TasksIn(s.workers) == {};
  }

  lemma NothingPending(s: System)
    requires forall e :: Internal(e) ==> !Enabled(s, e)
    ensures s.pending == 0
  {
    if w :| 0 <= w < |s.workers| && s.workers[w].Asleep? {
      assert !Enabled(s, Notify(Some(w)));
    } else {
      assert !Enabled(s, Notify(None));
    }
  }

  lemma {:induction false} AwakeNone(workers: seq<Worker>)
    requires forall w :: 0 <= w < |workers| ==> !workers[w].Awake?
    ensures CountAwake(workers) == 0
  {
    if workers != [] {
      assert forall w :: 0 <= w < |workers[1..]| ==> workers[1..][w] == workers[w + 1];
      AwakeNone(workers[1..]);
    }
  }

  /**
   At no point of any run does a thread sleep in `wait` while nothing is queued or running, or do all workers
   sleep over a queued task without a notification on its way.
   */
  lemma NobodySleepsThrough(workers: nat, waiters: nat, events: seq<Event>)
    requires Possible(Start(workers, waiters), events)
    ensures var s := Run(Start(workers, waiters), events);
            && (forall v :: 0 <= v < |s.waiters| && s.waiters[v].Waiting? ==>
              s.pool.tasks != [] || s.pool.activeTasks > 0)
            && (s.pool.tasks != [] && s.workers != [] && (forall w :: 0 <= w < |s.workers| ==> s.workers[w].Asleep?)
                ==> s.pending >= |s.pool.tasks|)
  {
    StartInv(workers, waiters);
    RunInv(Start(workers, waiters), events);
    var s := Run(Start(workers, waiters), events);
    if s.workers != [] && forall w :: 0 <= w < |s.workers| ==> s.workers[w].Asleep? {
      assert s.workers[0].Asleep?;
      AwakeNone(s.workers);
    }
  }

  // ---------- internal runs end ----------

  function WorkerRank(worker: Worker): nat {
    match worker
    case Asleep => 0
    case Awake => 1
    case Busy(_) => 3
    case Ended(_) => 2
    case Exited => 0
  }

  function RankSum(workers: seq<Worker>): nat {
    if workers == [] then 0 else WorkerRank(workers[0]) + RankSum(workers[1..])
  }

  function CheckingCount(waiters: seq<Waiter>): nat {
    if waiters == [] then 0 else (if waiters[0].Checking? then 1 else 0) + CheckingCount(waiters[1..])
  }

  function Effort(s: System): nat {
    3 * |s.pool.tasks| + 2 * s.pending + RankSum(s.workers) + if s.stopping then |s.workers| + 1 else 0
  }

  lemma {:induction false} RankUpdate(workers: seq<Worker>, w: nat, worker: Worker)
    requires w < |workers|
    ensures RankSum(workers[w := worker]) + WorkerRank(workers[w]) == RankSum(workers) + WorkerRank(worker)
  {
    if w == 0 {
      assert workers[w := worker][1..] == workers[1..];
    } else {
      assert workers[w := worker][1..] == workers[1..][w - 1 := worker];
      RankUpdate(workers[1..], w - 1, worker);
    }
  }

  lemma {:induction false} RankWakeAll(workers: seq<Worker>)
    ensures RankSum(WakeAll(workers)) <= RankSum(workers) + |workers|
  {
    if workers != [] {
      assert WakeAll(workers)[1..] == WakeAll(workers[1..]);
      RankWakeAll(workers[1..]);
    }
  }

  lemma {:induction false} CheckingUpdate(waiters: seq<Waiter>, v: nat, waiter: Waiter)
    requires v < |waiters| && waiters[v].Checking? && !waiter.Checking?
    ensures CheckingCount(waiters[v := waiter]) + 1 == CheckingCount(waiters)
  {
    if v == 0 {
      assert waiters[v := waiter][1..] == waiters[1..];
    } else {
      assert waiters[v := waiter][1..] == waiters[1..][v - 1 := waiter];
      CheckingUpdate(waiters[1..], v - 1, waiter);
    }
  }

  /** An internal event lowers the effort left, or at the same effort the number of waiters about to check. */
  lemma InternalDrops(s: System, e: Event)
    requires Internal(e) && Enabled(s, e)
    ensures var t := Step(s, e);
            Effort(t) < Effort(s) || (Effort(t) == Effort(s) && CheckingCount(t.waiters) < CheckingCount(s.waiters))
  {
    var t := Step(s, e);
    match e
    case Notify(woken) =>
      if woken.Some? {
        RankUpdate(s.workers, woken.value, Awake);
      }
    case Head(w) => RankUpdate(s.workers, w, t.workers[w]);
    case Return(w) => RankUpdate(s.workers, w, t.workers[w]);
    case Behind(w) => RankUpdate(s.workers, w, Awake);
    case Check(v) => CheckingUpdate(s.waiters, v, t.waiters[v]);
    case StopNotify => RankWakeAll(s.workers);
  }

  /**
   From any reachable state, as long as each running task returns, some run of internal events leads to a state
   where all is done; and since every internal event lowers the measure, no run of them avoids it for ever.
   */
  lemma {:induction false} InternalRunsFinish(s: System) returns (events: seq<Event>)
    requires Inv(s) && |s.workers| > 0
    ensures Possible(s, events) && forall k :: 0 <= k < |events| ==> Internal(events[k])
    ensures forall e :: Internal(e) ==> !Enabled(Run(s, events), e)
    decreases Effort(s), CheckingCount(s.waiters)
  {
    if e :| Internal(e) && Enabled(s, e) {
      StepInv(s, e);
      InternalDrops(s, e);
      SameCrew(s, [e]);
      assert [e][1..] == [];
      var rest := InternalRunsFinish(Step(s, e));
      events := [e] + rest;
      assert events[1..] == rest;
    } else {
      events := [];
    }
  }
}
