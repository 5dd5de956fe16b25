/**
 The thread pool: its fields and critical sections, and the system of workers,
 adders, waiters and notifications around them.
 */
module ThreadPool {
  import opened Options

  // ---------- the fields behind the mutex ----------

  /** Tasks are numbered in the order they are added. */
  datatype Pool = Pool(tasks: seq<nat>, activeTasks: int, stop: bool) {
    function Push(task: nat): Pool {
      this.(tasks := tasks + [task])
    }

    /** What the predicate in `wait` asks for. */
    predicate Quiet() {
      tasks == [] && activeTasks == 0
    }

    function Begin(): Pool
      requires tasks != []
    {
      this.(tasks := tasks[1..], activeTasks := activeTasks + 1)
    }

    function End(): Pool {
      this.(activeTasks := activeTasks - 1)
    }

    function Stop(): Pool {
      this.(stop := true)
    }
  }

  /** What a worker's critical section at the head of its loop decides. */
  datatype Decision = Sleep | Exit | Run(task: nat)

  function Decide(pool: Pool): Decision {
    if pool.tasks == [] then (if pool.stop then Exit else Sleep) else Run(pool.tasks[0])
  }

  /** The object itself; each method body is one critical section. */
  class PoolState {
    var tasks: seq<nat>
    var activeTasks: int
    var stop: bool

    function View(): Pool
      reads this
    {
      Pool(tasks, activeTasks, stop)
    }

    constructor ()
      ensures View() == Pool([], 0, false)
    {
      tasks, activeTasks, stop := [], 0, false;
    }

    method AddTask(task: nat)
      modifies this
      ensures View() == old(View()).Push(task)
    {
      tasks := tasks + [task];
    }

    /** The wait predicate of a worker, and what it does once the predicate lets it through. */
    method TakeTask() returns (decision: Decision)
      modifies this
      ensures decision == Decide(old(View()))
      ensures View() == if decision.Run? then old(View()).Begin() else old(View())
    {
      if !(stop || tasks != []) {
        return Sleep;
      }
      if stop && tasks == [] {
        return Exit;
      }
      decision := Run(tasks[0]);
      tasks := tasks[1..];
      activeTasks := activeTasks + 1;
    }

    /** The section behind a task: whether the waiters are notified. */
    method FinishTask() returns (notifyDone: bool)
      modifies this
      ensures View() == old(View()).End()
      ensures notifyDone == View().Quiet()
    {
      activeTasks := activeTasks - 1;
      notifyDone := tasks == [] && activeTasks == 0;
    }

    method BeginStop()
      modifies this
      ensures View() == old(View()).Stop()
    {
      stop := true;
    }
  }

  // ---------- the system ----------

  datatype Worker =
    | Asleep             // waiting on `cv`
    | Awake              // about to enter the section at the head of its loop
    | Busy(task: nat)    // running a task
    | Ended(task: nat)   // task returned, about to enter the section behind it
    | Exited

  datatype Waiter = Waiting | Checking | Released  // asleep on `doneCv`, about to check, returned from `wait`

  /**
   `added`, `started` and `completed` record history. `pending` counts tasks that were pushed
   but whose `notify_one` has not happened yet; `stopping` says that of the destructor's `notify_all`.
   */
  datatype System = System(
    pool: Pool,
    workers: seq<Worker>,
    waiters: seq<Waiter>,
    pending: nat,
    stopping: bool,
    added: nat,
    started: seq<nat>,
    completed: set<nat>)

  datatype Event =
    | Add                          // push a task
    | Notify(woken: Option<nat>)   // its `notify_one`, which wakes a sleeper if there is one
    | Head(w: nat)                 // a worker's section at the head of its loop
    | Return(w: nat)               // a worker's task returns
    | Behind(w: nat)               // a worker's section behind its task
    | Spurious(w: nat)             // a worker wakes up for no reason
    | Check(v: nat)                // a waiter evaluates its predicate
    | WaitSpurious(v: nat)
    | StopRequest                  // the destructor's section
    | StopNotify                   // its `notify_all`

  predicate SomeoneAsleep(s: System) {
    exists w :: 0 <= w < |s.workers| && s.workers[w].Asleep?
  }

  ghost predicate Enabled(s: System, e: Event) {
    match e
    case Add => !s.pool.stop
    case Notify(woken) =>
      s.pending > 0
      && (if woken.Some? then woken.value < |s.workers| && s.workers[woken.value].Asleep? else !SomeoneAsleep(s))
    case Head(w) => w < |s.workers| && s.workers[w].Awake?
    case Return(w) => w < |s.workers| && s.workers[w].Busy?
    case Behind(w) => w < |s.workers| && s.workers[w].Ended?
    case Spurious(w) => w < |s.workers| && s.workers[w].Asleep?
    case Check(v) => v < |s.waiters| && s.waiters[v].Checking?
    case WaitSpurious(v) => v < |s.waiters| && s.waiters[v].Waiting?
    case StopRequest => !s.pool.stop && s.pending == 0
    case StopNotify => s.stopping
  }

  function SetWorker(s: System, w: nat, worker: Worker): System
    requires w < |s.workers|
  {
    s.(workers := s.workers[w := worker])
  }

  function WakeAll(workers: seq<Worker>): seq<Worker> {
    seq(|workers|, w requires 0 <= w < |workers| => if workers[w].Asleep? then Awake else workers[w])
  }

  function ReleaseAll(waiters: seq<Waiter>): seq<Waiter> {
    seq(|waiters|, v requires 0 <= v < |waiters| => if waiters[v].Waiting? then Checking else waiters[v])
  }

  function AtHead(s: System, w: nat): System
    requires w < |s.workers|
  {
    match Decide(s.pool)
    case Sleep => SetWorker(s, w, Asleep)
    case Exit => SetWorker(s, w, Exited)
    case Run(task) => SetWorker(s, w, Busy(task)).(pool := s.pool.Begin(), started := s.started + [task])
  }

  function AtEnd(s: System, w: nat): System
    requires w < |s.workers| && s.workers[w].Ended?
  {
    var pool := s.pool.End();
    SetWorker(s, w, Awake).(pool := pool, completed := s.completed + {s.workers[w].task},
    waiters := if pool.Quiet() then ReleaseAll(s.waiters) else s.waiters)
  }

  ghost function Step(s: System, e: Event): System
    requires Enabled(s, e)
  {
    match e
    case Add => s.(pool := s.pool.Push(s.added), added := s.added + 1, pending := s.pending + 1)
    case Notify(woken) =>
      (if woken.Some? then SetWorker(s, woken.value, Awake) else s).(pending := s.pending - 1)
    case Head(w) => AtHead(s, w)
    case Return(w) => SetWorker(s, w, Ended(s.workers[w].task))
    case Behind(w) => AtEnd(s, w)
    case Spurious(w) => SetWorker(s, w, Awake)
    case Check(v) => s.(waiters := s.waiters[v := if s.pool.Quiet() then Released else Waiting])
    case WaitSpurious(v) => s.(waiters := s.waiters[v := Checking])
    case StopRequest => s.(pool := s.pool.Stop(), stopping := true)
    case StopNotify => s.(workers := WakeAll(s.workers), stopping := false)
  }

  function Start(workers: nat, waiters: nat): System {
    System(Pool([], 0, false), seq(workers, _ => Awake), seq(waiters, _ => Checking), 0, false, 0, [], {})
  }

  // ---------- counting workers ----------

  function CountAwake(workers: seq<Worker>): nat {
    if workers == [] then 0 else (if workers[0].Awake? then 1 else 0) + CountAwake(workers[1..])
  }

  predicate InTask(worker: Worker) {
    worker.Busy? || worker.Ended?
  }

  function CountInTask(workers: seq<Worker>): nat {
    if workers == [] then 0 else (if InTask(workers[0]) then 1 else 0) + CountInTask(workers[1..])
  }

  lemma {:induction false} CountsUpdate(workers: seq<Worker>, w: nat, worker: Worker)
    requires w < |workers|
    ensures CountAwake(workers[w := worker]) + (if workers[w].Awake? then 1 else 0)
            == CountAwake(workers) + (if worker.Awake? then 1 else 0)
    ensures CountInTask(workers[w := worker]) + (if InTask(workers[w]) then 1 else 0)
            == CountInTask(workers) + (if InTask(worker) then 1 else 0)
  {
    if w == 0 {
      assert workers[w := worker][1..] == workers[1..];
    } else {
      assert workers[w := worker][1..] == workers[1..][w - 1 := worker];
      CountsUpdate(workers[1..], w - 1, worker);
    }
  }

  lemma {:induction false} CountsWakeAll(workers: seq<Worker>)
    ensures CountAwake(WakeAll(workers)) >= CountAwake(workers)
    ensures CountInTask(WakeAll(workers)) == CountInTask(workers)
  {
    if workers != [] {
      assert WakeAll(workers)[1..] == WakeAll(workers[1..]);
      CountsWakeAll(workers[1..]);
    }
  }

  lemma {:induction false} NoneInTask(workers: seq<Worker>)
    ensures CountInTask(workers) == 0 <==> forall w :: 0 <= w < |workers| ==> !InTask(workers[w])
  {
    if workers != [] {
      NoneInTask(workers[1..]);
      if forall w :: 0 <= w < |workers| ==> !InTask(workers[w]) {
        assert !InTask(workers[0]);
        assert forall w :: 0 <= w < |workers[1..]| ==> workers[1..][w] == workers[w + 1];
      } else {
        assert CountInTask(workers[1..]) == 0 ==> forall w :: 0 < w < |workers| ==> workers[w] == workers[1..][w - 1];
      }
    }
  }

  lemma {:induction false} NoneAwake(workers: seq<Worker>)
    requires CountAwake(workers) == 0
    ensures forall w :: 0 <= w < |workers| ==> !workers[w].Awake?
  {
    if workers != [] {
      NoneAwake(workers[1..]);
      assert forall w :: 0 < w < |workers| ==> workers[w] == workers[1..][w - 1];
    }
  }

  // ---------- the invariant ----------

  /** `activeTasks` counts exactly the workers that are inside a task. */
  ghost predicate ActiveExact(s: System) {
    s.pool.activeTasks == CountInTask(s.workers)
  }

  /** Tasks start in the order they were added, and the queue is what was added and not started. */
  ghost predicate Fifo(s: System) {
    && |s.started| + |s.pool.tasks| == s.added
    && (forall k :: 0 <= k < |s.started| ==> s.started[k] == k)
    && (forall k :: 0 <= k < |s.pool.tasks| ==> s.pool.tasks[k] == |s.started| + k)
  }

  predicate RunsTask(s: System, w: int, task: nat) {
    0 <= w < |s.workers| && InTask(s.workers[w]) && s.workers[w].task == task
  }

  /** Every started task is completed or inside exactly one worker, never both. */
  ghost predicate Conserved(s: System) {
    && (forall w :: 0 <= w < |s.workers| && InTask(s.workers[w]) ==>
          s.workers[w].task < |s.started| && s.workers[w].task !in s.completed)
    && (forall v, w :: 0 <= v < w < |s.workers| && InTask(s.workers[v]) && InTask(s.workers[w]) ==>
          s.workers[v].task != s.workers[w].task)
    && (forall task :: task in s.completed ==> task < |s.started|)
    && (forall task: nat :: task < |s.started| && task !in s.completed ==> exists w :: RunsTask(s, w, task))
  }

  /** As long as a worker sleeps, every queued task has a notification or an awake worker on its way. */
  ghost predicate NoLostWakeup(s: System) {
    && (SomeoneAsleep(s) ==> |s.pool.tasks| <= s.pending + CountAwake(s.workers))
    && (s.stopping ==> s.pool.stop)
    && (s.pool.stop ==> s.pending == 0)
    && (s.pool.stop && !s.stopping ==> !SomeoneAsleep(s))
  }

  /** A waiter sleeps only while there is something to wait for. */
  ghost predicate NoLostDone(s: System) {
    forall v :: 0 <= v < |s.waiters| && s.waiters[v].Waiting? ==> !s.pool.Quiet()
  }

  /** Workers leave only after the stop request, with the queue empty. */
  ghost predicate ExitsLast(s: System) {
    forall w :: 0 <= w < |s.workers| && s.workers[w].Exited? ==> s.pool.stop && s.pool.tasks == []
  }

  ghost predicate Inv(s: System) {
    ActiveExact(s) && Fifo(s) && Conserved(s) && NoLostWakeup(s) && NoLostDone(s) && ExitsLast(s)
  }
}
