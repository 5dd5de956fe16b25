/**
 The whole parallel download: the engine's workers run as tasks of the thread pool, and the
 downloading thread adds them and then waits for the pool.
 */
module Download {
  import opened Options
  import opened StateFile
  import ChunkFiles
  import E = Engine
  import ES = EngineSafety
  import EP = EngineProgress
  import EE = EndToEnd
  import EO = EngineOutcome
  import P = ThreadPool
  import PL = ThreadPoolLaws
  import Sets

  datatype System = System(pool: P.System, engine: E.State)

  /** A step of the pool, or a step of one engine worker inside its task. */
  datatype Move = Pool(event: P.Event) | Chunk(action: E.Action)

  /** Pool worker `w` is inside the body of the task. */
  predicate InBody(pool: P.System, w: int, task: nat) {
    0 <= w < |pool.workers| && pool.workers[w] == P.Busy(task)
  }

  predicate Back(s: System, task: nat) {
    task < |s.engine.workers| && s.engine.workers[task].Returned?
  }

  predicate Spurious(m: Move) {
    m.Pool? && (m.event.Spurious? || m.event.WaitSpurious?)
  }

  /** The downloading thread adds one task per worker, then waits; a task returns when its worker does. */
  ghost predicate PoolAllowed(s: System, e: P.Event)
    requires P.Enabled(s.pool, e)
  {
    match e
    case Add => s.pool.added < |s.engine.workers|
    case Return(w) => Back(s, s.pool.workers[w].task)
    case Check(_) => s.pool.added == |s.engine.workers|
    case StopRequest => false
    case StopNotify => false
    case _ => true
  }

  ghost predicate Allowed(j: E.Job, s: System, m: Move) {
    match m
    case Pool(e) => P.Enabled(s.pool, e) && PoolAllowed(s, e)
    case Chunk(a) => E.Enabled(j, s.engine, a.worker, a.choice) && exists w :: InBody(s.pool, w, a.worker)
  }

  ghost function Step(j: E.Job, s: System, m: Move): System
    requires Allowed(j, s, m)
  {
    match m
    case Pool(e) => s.(pool := P.Step(s.pool, e))
    case Chunk(a) => s.(engine := E.Next(j, s.engine, a.worker, a.choice))
  }

  /** Nothing is added yet, and the downloading thread is the one that will wait. */
  function Start(j: E.Job, stateFile: Option<string>, downloads: map<int, string>, shared: map<int, string>,
                 workers: nat): System
  {
    System(P.Start(workers, 1), E.Start(j, stateFile, downloads, shared, workers))
  }

  /** `wait` has returned. */
  predicate WaitReturned(s: System) {
    exists v :: 0 <= v < |s.pool.waiters| && s.pool.waiters[v].Released?
  }

  // ---------- the invariant ----------

  /** Only workers inside a task body are on their way; tasks that ended have worker code that returned. */
  ghost predicate Linked(s: System) {
    && s.pool.added <= |s.engine.workers|
    && !s.pool.pool.stop && !s.pool.stopping
    && |s.pool.workers| == |s.engine.workers| && |s.pool.waiters| == 1
    && (forall task :: task in s.pool.completed ==> Back(s, task))
    && (forall w :: 0 <= w < |s.pool.workers| && s.pool.workers[w].Ended? ==> Back(s, s.pool.workers[w].task))
    && (forall t: nat :: t < |s.engine.workers| && !s.engine.workers[t].Idle? && !s.engine.workers[t].Returned? ==>
          exists w :: InBody(s.pool, w, t))
    && (WaitReturned(s) ==> E.AllReturned(s.engine))
  }

  ghost predicate Inv(j: E.Job, s: System) {
    P.Inv(s.pool) && ES.Inv(j, s.engine) && Linked(s)
  }

  lemma StartInv(j: E.Job, stateFile: Option<string>, downloads: map<int, string>, shared: map<int, string>,
                 workers: nat)
    requires workers > 0 && ES.HashesNonempty(j)
    ensures Inv(j, Start(j, stateFile, downloads, shared, workers))
  {
    PL.StartInv(workers, 1);
    ES.StartInv(j, stateFile, downloads, shared, workers);
  }

  lemma ChunkLinked(j: E.Job, s: System, a: E.Action)
    requires Linked(s) && Allowed(j, s, Chunk(a))
    ensures Linked(Step(j, s, Chunk(a)))
  {
    var t := Step(j, s, Chunk(a));
    assert t.engine.workers == s.engine.workers[a.worker := t.engine.workers[a.worker]];
    assert !s.engine.workers[a.worker].Returned?;
  }

  /** Tasks in their bodies stay there, but for one that returns. */
  lemma BodiesStay(s: System, e: P.Event, w: int, task: nat)
    requires P.Enabled(s.pool, e) && PoolAllowed(s, e) && InBody(s.pool, w, task) && !Back(s, task)
    ensures InBody(P.Step(s.pool, e), w, task)
  {
  }

  lemma PoolKeepsCrew(s: System, e: P.Event)
    requires P.Enabled(s.pool, e) && PoolAllowed(s, e) && !s.pool.pool.stop && !s.pool.stopping
    ensures var t := P.Step(s.pool, e);
            |t.workers| == |s.pool.workers| && |t.waiters| == |s.pool.waiters| && !t.pool.stop && !t.stopping
            && t.added == s.pool.added + if e.Add? then 1 else 0
  {
  }

  lemma EndedBack(s: System, e: P.Event)
    requires Linked(s) && P.Enabled(s.pool, e) && PoolAllowed(s, e)
    ensures var t := P.Step(s.pool, e);
            && (forall task :: task in t.completed ==> Back(s, task))
            && (forall w :: 0 <= w < |t.workers| && t.workers[w].Ended? ==> Back(s, t.workers[w].task))
  {
  }

  /** `wait` returns only when every engine worker has returned. */
  lemma ReleaseMeansReturned(s: System, e: P.Event)
    requires P.Inv(s.pool) && Linked(s) && P.Enabled(s.pool, e) && PoolAllowed(s, e)
    requires WaitReturned(s.(pool := P.Step(s.pool, e)))
    ensures E.AllReturned(s.engine)
  {
    if e.Check? && s.pool.pool.Quiet() {
      PL.AllCompleted(s.pool);
      PL.UptoExactly(s.pool.added);
      forall t: nat | t < |s.engine.workers|
        ensures s.engine.workers[t].Returned?
      {
        assert t in s.pool.completed;
        assert Back(s, t);
      }
    } else {
      var v :| 0 <= v < |s.pool.waiters| && P.Step(s.pool, e).waiters[v].Released?;
      assert s.pool.waiters[v].Released?;
    }
  }

  lemma PoolLinked(j: E.Job, s: System, e: P.Event)
    requires P.Inv(s.pool) && Linked(s) && Allowed(j, s, Pool(e))
    ensures Linked(Step(j, s, Pool(e)))
  {
    var t := Step(j, s, Pool(e));
    PoolKeepsCrew(s, e);
    EndedBack(s, e);
    forall task | task in t.pool.completed
      ensures Back(t, task)
    {
      assert Back(s, task);
    }
    forall w | 0 <= w < |t.pool.workers| && t.pool.workers[w].Ended?
      ensures Back(t, t.pool.workers[w].task)
    {
      assert Back(s, t.pool.workers[w].task);
    }
    forall k: nat | k < |s.engine.workers| && !s.engine.workers[k].Idle? && !s.engine.workers[k].Returned?
      ensures exists w :: InBody(t.pool, w, k)
    {
      var w :| InBody(s.pool, w, k);
      BodiesStay(s, e, w, k);
    }
    if WaitReturned(t) {
      ReleaseMeansReturned(s, e);
    }
  }

  /** Every move of the pool and of the engine keeps the whole invariant. */
  lemma StepInv(j: E.Job, s: System, m: Move)
    requires Inv(j, s) && Allowed(j, s, m)
    ensures Inv(j, Step(j, s, m))
  {
    match m
    case Pool(e) =>
      PL.StepInv(s.pool, e);
      PoolLinked(j, s, e);
    case Chunk(a) =>
      ES.StepInv(j, s.engine, a.worker, a.choice);
      ChunkLinked(j, s, a);
  }

  // ---------- runs ----------

  /** The state after `k` moves of a schedule; where a move is not allowed, nothing happens. */
  ghost function At(j: E.Job, s: System, schedule: nat -> Move, k: nat): System {
    if k == 0 then s
    else
      var t := At(j, s, schedule, k - 1);
      if Allowed(j, t, schedule(k - 1)) then Step(j, t, schedule(k - 1)) else t
  }

  lemma {:induction false} AtInv(j: E.Job, s: System, schedule: nat -> Move, k: nat)
    requires Inv(j, s)
    ensures Inv(j, At(j, s, schedule, k))
  {
    if k > 0 {
      AtInv(j, s, schedule, k - 1);
      var t := At(j, s, schedule, k - 1);
      if Allowed(j, t, schedule(k - 1)) {
        StepInv(j, t, schedule(k - 1));
      }
    }
  }

  /**
   However pool threads and workers interleave, whatever fails and whoever wakes up for no reason: when
   `wait` has returned, every chunk is done by scheduler and status vector, and none is missing.
   */
  lemma WaitMeansAllDone(j: E.Job, stateFile: Option<string>, downloads: map<int, string>, shared: map<int, string>,
                         workers: nat, schedule: nat -> Move, k: nat)
    requires workers > 0 && ES.HashesNonempty(j)
    requires WaitReturned(At(j, Start(j, stateFile, downloads, shared, workers), schedule, k))
    ensures var s := At(j, Start(j, stateFile, downloads, shared, workers), schedule, k).engine;
            && s.sched.AllDone() && |s.sched.done| == |s.status| == j.Total()
            && Missing(s.status) == []
  {
    var start := Start(j, stateFile, downloads, shared, workers);
    StartInv(j, stateFile, downloads, shared, workers);
    AtInv(j, start, schedule, k);
    var s := At(j, start, schedule, k).engine;
    EO.AllDoneAtEnd(j, s);
    NoneMissing(s.status);
  }

  // ---------- it never hangs ----------

  /** Some engine worker inside its task can take a step, if any has not returned. */
  lemma WorkerCanMove(j: E.Job, s: System, task: nat)
    requires Linked(s) && task < |s.engine.workers| && !s.engine.workers[task].Returned?
    requires exists w :: InBody(s.pool, w, task)
    ensures exists a :: Allowed(j, s, Chunk(a))
  {
    if s.engine.LockFree() {
      var a := E.Action(task, EP.SomeChoice(j, s.engine.workers[task]));
      assert Allowed(j, s, Chunk(a));
    } else {
      var t :| 0 <= t < |s.engine.workers| && s.engine.workers[t].Locked();
      var a := E.Action(t, EP.SomeChoice(j, s.engine.workers[t]));
      assert Allowed(j, s, Chunk(a));
    }
  }

  ghost predicate CanMove(j: E.Job, s: System) {
    exists m :: Allowed(j, s, m) && !Spurious(m)
  }

  lemma ByPool(j: E.Job, s: System, e: P.Event)
    requires P.Enabled(s.pool, e) && PoolAllowed(s, e) && !e.Spurious? && !e.WaitSpurious?
    ensures CanMove(j, s)
  {
    assert Allowed(j, s, Pool(e)) && !Spurious(Pool(e));
  }

  /** A pool worker that is not asleep can move, or the engine worker in its hands can, or another one. */
  lemma ThreadCanMove(j: E.Job, s: System, w: nat)
    requires P.Inv(s.pool) && Linked(s) && w < |s.pool.workers| && !s.pool.workers[w].Asleep?
    ensures CanMove(j, s)
  {
    var worker := s.pool.workers[w];
    if worker.Awake? {
      ByPool(j, s, P.Head(w));
    } else if worker.Ended? {
      ByPool(j, s, P.Behind(w));
    } else if worker.Busy? {
      assert InBody(s.pool, w, worker.task);
      if Back(s, worker.task) {
        ByPool(j, s, P.Return(w));
      } else {
        WorkerCanMove(j, s, worker.task);
        var a :| Allowed(j, s, Chunk(a));
        assert !Spurious(Chunk(a));
      }
    }
  }

  /** With every thread asleep and every task added, a notification is under way, or the waiter may look. */
  lemma SleepersCanMove(j: E.Job, s: System)
    requires P.Inv(s.pool) && Linked(s) && s.pool.workers != [] && !WaitReturned(s)
    requires forall w :: 0 <= w < |s.pool.workers| ==> s.pool.workers[w].Asleep?
    ensures CanMove(j, s)
  {
    assert s.pool.workers[0].Asleep?;
    if s.pool.added < |s.engine.workers| {
      ByPool(j, s, P.Add);
    } else if s.pool.pending > 0 {
      ByPool(j, s, P.Notify(Some(0)));
    } else {
      PL.AwakeNone(s.pool.workers);
      P.NoneInTask(s.pool.workers);
      assert s.pool.pool.Quiet();
      assert s.pool.waiters[0].Checking?;
      ByPool(j, s, P.Check(0));
    }
  }

  /** Until `wait` returns, some move is always possible that needs no spurious wakeup. */
  lemma NeverHangs(j: E.Job, s: System)
    requires Inv(j, s) && !WaitReturned(s)
    ensures CanMove(j, s)
  {
    if w: nat :| w < |s.pool.workers| && !s.pool.workers[w].Asleep? {
      ThreadCanMove(j, s, w);
    } else {
      SleepersCanMove(j, s);
    }
  }

  // ---------- it ends ----------

  function Ranks(j: E.Job, s: System): nat {
    EP.Sum(EP.RankOf(j), s.engine.workers)
  }

  function Bytes(s: System): nat {
    EP.Sum(EP.UnreadOf(), s.engine.workers)
  }

  function TasksToAdd(s: System): nat {
    if s.pool.added < |s.engine.workers| then |s.engine.workers| - s.pool.added else 0
  }

  /** A step of the pool without a spurious wakeup: a task less to add, or less effort left in the pool. */
  lemma PoolDrops(j: E.Job, s: System, e: P.Event)
    requires Allowed(j, s, Pool(e)) && !Spurious(Pool(e))
    ensures var t := Step(j, s, Pool(e));
            || TasksToAdd(t) < TasksToAdd(s)
            || (TasksToAdd(t) == TasksToAdd(s) && PL.Effort(t.pool) < PL.Effort(s.pool))
            || (TasksToAdd(t) == TasksToAdd(s) && PL.Effort(t.pool) == PL.Effort(s.pool)
                && PL.CheckingCount(t.pool.waiters) < PL.CheckingCount(s.pool.waiters))
  {
    if !e.Add? {
      PL.InternalDrops(s.pool, e);
      AddedKept(s.pool, e);
    }
  }

  lemma AddedKept(s: P.System, e: P.Event)
    requires P.Enabled(s, e) && !e.Add?
    ensures P.Step(s, e).added == s.added
  {
  }

  /** As long as `wait` has not returned, the schedule makes a possible move without a spurious wakeup. */
  ghost predicate Goes(j: E.Job, s: System, schedule: nat -> Move, k: nat) {
    var t := At(j, s, schedule, k);
    WaitReturned(t) || (Allowed(j, t, schedule(k)) && !Spurious(schedule(k)))
  }

  /** `wait` has returned, or too many chunk attempts have failed. */
  predicate Over(s: System, bound: nat) {
    WaitReturned(s) || s.engine.failures > bound
  }

  lemma {:induction false} OverFrom(j: E.Job, s: System, schedule: nat -> Move, bound: nat, k: nat) returns (end: nat)
    requires Inv(j, At(j, s, schedule, k)) && At(j, s, schedule, k).engine.failures <= bound
    requires forall i: nat :: Goes(j, s, schedule, i)
    ensures Over(At(j, s, schedule, end), bound)
    decreases EP.WorkLeft(j, At(j, s, schedule, k).engine, bound), Ranks(j, At(j, s, schedule, k)),
              Bytes(At(j, s, schedule, k)), TasksToAdd(At(j, s, schedule, k)),
              PL.Effort(At(j, s, schedule, k).pool), PL.CheckingCount(At(j, s, schedule, k).pool.waiters)
  {
    end := k;
    var t, m := At(j, s, schedule, k), schedule(k);
    assert Goes(j, s, schedule, k);
    if !WaitReturned(t) {
      var next := At(j, s, schedule, k + 1);
      assert next == Step(j, t, m);
      StepInv(j, t, m);
      if next.engine.failures > bound {
        end := k + 1;
      } else {
        match m {
          case Pool(e) => PoolDrops(j, t, e);
          case Chunk(a) => EP.StepDrops(j, t.engine, a.worker, a.choice, bound);
        }
        end := OverFrom(j, s, schedule, bound, k + 1);
      }
    }
  }

  /**
   Total correctness: whichever possible move is made each time, without spurious wakeups and with any bound on
   failed chunk attempts, `wait` returns after finitely many moves, unless the bound is exceeded.
   */
  lemma EveryDownloadReturns(j: E.Job, stateFile: Option<string>, downloads: map<int, string>, shared: map<int, string>,
                             workers: nat, schedule: nat -> Move, bound: nat)
    requires workers > 0 && ES.HashesNonempty(j)
    requires forall i: nat :: Goes(j, Start(j, stateFile, downloads, shared, workers), schedule, i)
    ensures exists k :: Over(At(j, Start(j, stateFile, downloads, shared, workers), schedule, k), bound)
  {
    var start := Start(j, stateFile, downloads, shared, workers);
    StartInv(j, stateFile, downloads, shared, workers);
    var k := OverFrom(j, start, schedule, bound, 0);
  }

  // ---------- with honest peers ----------

  /** Until the `k`th move every connection was to an honest peer. */
  ghost predicate HonestUntil(j: E.Job, s: System, schedule: nat -> Move, k: nat) {
    forall i: nat :: i < k ==> HonestAt(j, s, schedule, i)
  }

  ghost predicate HonestAt(j: E.Job, s: System, schedule: nat -> Move, i: nat) {
    HonestMove(j, At(j, s, schedule, i), schedule(i))
  }

  ghost predicate HonestMove(j: E.Job, s: System, m: Move) {
    m.Chunk? && Allowed(j, s, m) ==> EE.HonestChoice(j, s.engine.workers[m.action.worker], m.action.choice)
  }

  lemma {:induction false} AtHonest(j: E.Job, s: System, schedule: nat -> Move, k: nat, absent: set<int>,
                                    given: map<int, string>)
    requires EE.HonestJob(j) && Inv(j, s) && EE.HonestInv(j, s.engine, absent, given)
    requires HonestUntil(j, s, schedule, k)
    ensures Inv(j, At(j, s, schedule, k)) && EE.HonestInv(j, At(j, s, schedule, k).engine, absent, given)
  {
    if k > 0 {
      AtHonest(j, s, schedule, k - 1, absent, given);
      var t, m := At(j, s, schedule, k - 1), schedule(k - 1);
      assert HonestAt(j, s, schedule, k - 1);
      HonestKept(j, t, m, At(j, s, schedule, k), absent, given);
    }
  }

  lemma HonestKept(j: E.Job, s: System, m: Move, next: System, absent: set<int>, given: map<int, string>)
    requires EE.HonestJob(j) && Inv(j, s) && EE.HonestInv(j, s.engine, absent, given) && HonestMove(j, s, m)
    requires next == if Allowed(j, s, m) then Step(j, s, m) else s
    ensures Inv(j, next) && EE.HonestInv(j, next.engine, absent, given)
  {
    if Allowed(j, s, m) {
      StepInv(j, s, m);
      if m.Chunk? {
        EE.HonestStep(j, s.engine, m.action.worker, m.action.choice, absent, given);
      }
    }
  }

  /**
   Total delivery: once `wait` has returned, the checks and the merge behind it succeed, against the digest of the
   original, exactly when every chunk counted done at the start had its file; and the output is then the original.
   */
  lemma DownloadSucceedsIff(original: string, size: nat, j: E.Job, stateFile: Option<string>,
                            downloads: map<int, string>, shared: map<int, string>, workers: nat,
                            schedule: nat -> Move, k: nat)
    requires EE.HonestFile(original, size, j) && EE.StartGenuine(j, downloads) && workers > 0
    requires HonestUntil(j, Start(j, stateFile, downloads, shared, workers), schedule, k)
    requires WaitReturned(At(j, Start(j, stateFile, downloads, shared, workers), schedule, k))
    ensures var s := At(j, Start(j, stateFile, downloads, shared, workers), schedule, k).engine;
            var absent := EE.DoneWithoutFile(j, stateFile, downloads, shared);
            && (EO.Finishes(s.sched, s.status, s.downloads, j.digest, Some(j.digest(original))) <==> absent == {})
            && (absent == {} ==> ChunkFiles.JoinFrom(s.downloads, 0, |s.status|) == (true, original))
  {
    var start := Start(j, stateFile, downloads, shared, workers);
    var absent := EE.DoneWithoutFile(j, stateFile, downloads, shared);
    EE.HonestFileIsHonestJob(original, size, j);
    StartInv(j, stateFile, downloads, shared, workers);
    EE.StartHonest(j, stateFile, downloads, shared, workers);
    AtHonest(j, start, schedule, k, absent, downloads);
    WaitMeansAllDone(j, stateFile, downloads, shared, workers, schedule, k);
    var s := At(j, start, schedule, k).engine;
    EE.MergedIff(original, size, j, s, absent, downloads);
    EE.FilesWhenDone(j, s, absent, downloads);
    EndsWell(original, j, s, absent, downloads);
  }

  lemma EndsWell(original: string, j: E.Job, s: E.State, absent: set<int>, given: map<int, string>)
    requires EE.HonestJob(j) && EE.StartGenuine(j, given) && |s.status| == j.Total()
    requires s.sched.AllDone() && Missing(s.status) == []
    requires forall c :: c in absent ==> 0 <= c < j.Total() && c !in s.downloads
    requires forall c :: 0 <= c < j.Total() && c !in absent ==>
               c in s.downloads && s.downloads[c] == if c in given then given[c] else j.chunks[c]
    requires absent == {} ==> ChunkFiles.JoinFrom(s.downloads, 0, j.Total()).1 == original
    ensures EO.Finishes(s.sched, s.status, s.downloads, j.digest, Some(j.digest(original))) <==> absent == {}
  {
    if absent == {} {
      forall c | 0 <= c < |s.status|
        ensures c in s.downloads && s.downloads[c] != ""
      {
        assert c !in absent;
        assert s.downloads[c] == j.chunks[c];
      }
    } else {
      var c := Sets.Member(absent);
      assert c !in s.downloads;
    }
  }
}
