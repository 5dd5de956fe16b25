/** What every step of the parallel download keeps, and so every schedule. */
module EngineSafety {
  import opened Options
  import opened Sets
  import opened Protocol
  import opened StateFile
  import opened Scheduling
  import opened Transfer
  import opened Engine

  // ---------- the invariant, part by part ----------

  ghost predicate Shape(j: Job, s: State) {
    && s.sched.Valid(j.Total()) && |s.status| == j.Total()
    && 0 < |s.workers|
  }

  predicate Holds(s: State, w: int, c: int) {
    0 <= w < |s.workers| && s.workers[w].Busy() && s.workers[w].chunk == c
  }

  /** Claimed chunks and busy workers are in bijection, and no claimed chunk is done. */
  ghost predicate Claims(j: Job, s: State)
    requires Shape(j, s)
  {
    && s.sched.Disjoint()
    && (forall w :: 0 <= w < |s.workers| && s.workers[w].Busy() ==>
          0 <= s.workers[w].chunk < j.Total() && s.sched.claimed[s.workers[w].chunk])
    && (forall v, w :: 0 <= v < w < |s.workers| && s.workers[v].Busy() && s.workers[w].Busy() ==>
          s.workers[v].chunk != s.workers[w].chunk)
    && (forall c :: 0 <= c < j.Total() && s.sched.claimed[c] ==> exists w :: Holds(s, w, c))
  }

  /** At most one worker is inside the second critical section. */
  ghost predicate OneLock(s: State) {
    forall v, w :: 0 <= v < w < |s.workers| ==> !(s.workers[v].Locked() && s.workers[w].Locked())
  }

  predicate MarksDone(s: State, w: int, c: int) {
    0 <= w < |s.workers| && s.workers[w] == Marking(c, true)
  }

  /** A chunk's status is DONE exactly when the scheduler has it done, or is about to be told. */
  ghost predicate Coherent(j: Job, s: State)
    requires Shape(j, s)
  {
    forall c :: 0 <= c < j.Total() ==>
      (s.status[c] == DONE <==> s.sched.done[c] || exists w :: MarksDone(s, w, c))
  }

  /** Outside the critical sections the saved state is the status vector. */
  ghost predicate SavedState(s: State) {
    s.entered && s.LockFree() ==> s.saved == Some(Render(s.status))
  }

  /** The chunk file is there, has the announced size, and its digest is the announced, nonempty one. */
  predicate Whole(j: Job, s: State, c: int) {
    && c in s.downloads && c in s.receipts
    && |s.downloads[c]| == s.receipts[c].size && j.digest(s.downloads[c]) == s.receipts[c].hash != ""
  }

  predicate NoFile(s: State, c: int) {
    c !in s.downloads && c !in s.receipts
  }

  /** What a worker's phase says about the chunk file it is responsible for. */
  predicate FileOf(j: Job, s: State, p: Phase) {
    match p
    case Idle => true
    case Saving => true
    case Returned => true
    case Receiving(c, _, size, hash, remaining, _) =>
      c in s.downloads && c !in s.receipts && |s.downloads[c]| + remaining == size && hash != ""
    case Releasing(c, _, ok) => if ok then Whole(j, s, c) else NoFile(s, c)
    case Finishing(c, ok) => if ok then Whole(j, s, c) else NoFile(s, c)
    case Marking(c, ok) => if ok then Whole(j, s, c) else NoFile(s, c)
    case _ => NoFile(s, p.chunk)
  }

  /** Chunk files: each worker's as its phase says, and of the unclaimed chunks only done ones, all whole. */
  ghost predicate Files(j: Job, s: State)
    requires Shape(j, s)
  {
    && (forall w :: 0 <= w < |s.workers| ==> FileOf(j, s, s.workers[w]))
    && (forall c :: 0 <= c < j.Total() && !s.sched.claimed[c] ==>
          if c in s.downloads then s.sched.done[c] && Whole(j, s, c) else s.sched.done[c] || NoFile(s, c))
  }

  ghost function Undone(j: Job, s: State): set<int>
    requires Shape(j, s)
  {
    set c | 0 <= c < j.Total() && !s.sched.done[c]
  }

  ghost function Running(s: State): set<int> {
    set w | 0 <= w < |s.workers| && !s.workers[w].Returned?
  }

  /** As soon as a worker has returned there are no more undone chunks than running workers. */
  ghost predicate Covered(j: Job, s: State)
    requires Shape(j, s)
  {
    (exists w :: 0 <= w < |s.workers| && s.workers[w].Returned?) ==> |Undone(j, s)| <= |Running(s)|
  }

  ghost predicate Inv(j: Job, s: State) {
    Shape(j, s) && Claims(j, s) && OneLock(s) && Coherent(j, s) && SavedState(s) && Files(j, s) && Covered(j, s)
  }

  // ---------- the start ----------

  ghost predicate HashesNonempty(j: Job) {
    forall text :: j.digest(text) != ""
  }

  lemma StartInv(j: Job, stateFile: Option<string>, downloads: map<int, string>, shared: map<int, string>, workers: nat)
    requires workers > 0 && HashesNonempty(j)
    ensures Inv(j, Start(j, stateFile, downloads, shared, workers))
  {
  }

  // ---------- claims ----------

  /** The worker keeps its chunk and the scheduler is not asked. */
  ghost predicate KeepsChunk(s: State, t: State, w: nat) {
    && w < |s.workers| && t.sched == s.sched
    && |t.workers| == |s.workers| && t.workers == s.workers[w := t.workers[w]]
    && t.workers[w].Busy() == s.workers[w].Busy()
    && (s.workers[w].Busy() ==> t.workers[w].chunk == s.workers[w].chunk)
  }

  lemma ClaimsKept(j: Job, s: State, t: State, w: nat)
    requires Shape(j, s) && Shape(j, t) && Claims(j, s) && KeepsChunk(s, t, w)
    ensures Claims(j, t)
  {
    forall c | 0 <= c < j.Total() && t.sched.claimed[c]
      ensures exists v :: Holds(t, v, c)
    {
      var v :| Holds(s, v, c);
      assert Holds(t, v, c);
    }
  }

  /** Only asking and telling the scheduler changes who holds what. */
  lemma StepKeepsChunk(j: Job, s: State, w: nat, choice: Choice)
    requires Enabled(j, s, w, choice) && !s.workers[w].Idle? && !s.workers[w].Marking?
    ensures KeepsChunk(s, Next(j, s, w, choice), w)
  {
  }

  lemma ShapeKept(j: Job, s: State, w: nat, choice: Choice)
    requires Shape(j, s) && Enabled(j, s, w, choice)
    ensures Shape(j, Next(j, s, w, choice))
  {
  }

  lemma ClaimsAsk(j: Job, s: State, w: nat)
    requires Shape(j, s) && Claims(j, s) && w < |s.workers| && s.workers[w].Idle?
    ensures Shape(j, AskScheduler(s, w)) && Claims(j, AskScheduler(s, w))
  {
    var t := AskScheduler(s, w);
    FirstFreeIsLeast(s.sched, 0);
    forall c | 0 <= c < j.Total() && t.sched.claimed[c]
      ensures exists v :: Holds(t, v, c)
    {
      if s.sched.claimed[c] {
        var v :| Holds(s, v, c);
        assert Holds(t, v, c);
      } else {
        assert Holds(t, w, c);
      }
    }
  }

  lemma ClaimsTell(j: Job, s: State, w: nat, c: int, ok: bool)
    requires Shape(j, s) && Claims(j, s) && w < |s.workers| && s.workers[w] == Marking(c, ok)
    ensures Shape(j, TellScheduler(s, w, c, ok)) && Claims(j, TellScheduler(s, w, c, ok))
  {
    var t := TellScheduler(s, w, c, ok);
    forall d | 0 <= d < j.Total() && t.sched.claimed[d]
      ensures exists v :: Holds(t, v, d)
    {
      var v :| Holds(s, v, d);
      assert Holds(t, v, d);
    }
  }

  lemma ClaimsStep(j: Job, s: State, w: nat, choice: Choice)
    requires Shape(j, s) && Claims(j, s) && Enabled(j, s, w, choice)
    ensures Shape(j, Next(j, s, w, choice)) && Claims(j, Next(j, s, w, choice))
  {
    ShapeKept(j, s, w, choice);
    if s.workers[w].Idle? {
      ClaimsAsk(j, s, w);
    } else if s.workers[w].Marking? {
      ClaimsTell(j, s, w, s.workers[w].chunk, s.workers[w].ok);
    } else {
      StepKeepsChunk(j, s, w, choice);
      ClaimsKept(j, s, Next(j, s, w, choice), w);
    }
  }

  // ---------- the state mutex and the status vector ----------

  lemma OneLockStep(j: Job, s: State, w: nat, choice: Choice)
    requires OneLock(s) && Enabled(j, s, w, choice)
    ensures OneLock(Next(j, s, w, choice))
  {
    var t := Next(j, s, w, choice);
    assert t.workers == s.workers[w := t.workers[w]];
    assert t.workers[w].Locked() ==> s.workers[w].Locked() || s.LockFree();
  }

  /** Status, scheduler bits and the workers about to mark are all as before. */
  ghost predicate KeepsMarks(s: State, t: State, w: nat) {
    && w < |s.workers| && t.status == s.status && t.sched.done == s.sched.done
    && |t.workers| == |s.workers| && t.workers == s.workers[w := t.workers[w]]
    && !s.workers[w].Marking? && !t.workers[w].Marking?
  }

  lemma MarksKept(s: State, t: State, w: nat, c: int)
    requires KeepsMarks(s, t, w)
    ensures (exists v :: MarksDone(s, v, c)) <==> (exists v :: MarksDone(t, v, c))
  {
    if v :| MarksDone(s, v, c) {
      assert MarksDone(t, v, c);
    }
    if v :| MarksDone(t, v, c) {
      assert MarksDone(s, v, c);
    }
  }

  lemma CoherentKept(j: Job, s: State, t: State, w: nat)
    requires Shape(j, s) && Shape(j, t) && Coherent(j, s) && KeepsMarks(s, t, w)
    ensures Coherent(j, t)
  {
    forall c | 0 <= c < j.Total()
      ensures t.status[c] == DONE <==> t.sched.done[c] || exists v :: MarksDone(t, v, c)
    {
      MarksKept(s, t, w, c);
    }
  }

  lemma CoherentBegin(j: Job, s: State, w: nat, c: int)
    requires Shape(j, s) && Claims(j, s) && Coherent(j, s) && w < |s.workers| && s.workers[w] == Claimed(c)
    ensures Shape(j, BeginChunk(s, w, c)) && Coherent(j, BeginChunk(s, w, c))
  {
    var t := BeginChunk(s, w, c);
    forall d | 0 <= d < j.Total()
      ensures t.status[d] == DONE <==> t.sched.done[d] || exists v :: MarksDone(t, v, d)
    {
      if v :| MarksDone(t, v, d) {
        assert MarksDone(s, v, d);
        assert d != c;
      }
      if v :| MarksDone(s, v, d) {
        assert MarksDone(t, v, d);
      }
    }
  }

  lemma CoherentEnd(j: Job, s: State, w: nat, c: int, ok: bool)
    requires Shape(j, s) && Claims(j, s) && Coherent(j, s) && w < |s.workers| && s.workers[w] == Finishing(c, ok)
    ensures Shape(j, EndChunk(s, w, c, ok)) && Coherent(j, EndChunk(s, w, c, ok))
  {
    var t := EndChunk(s, w, c, ok);
    forall d | 0 <= d < j.Total()
      ensures t.status[d] == DONE <==> t.sched.done[d] || exists v :: MarksDone(t, v, d)
    {
      if v :| MarksDone(t, v, d) {
        assert v == w || MarksDone(s, v, d);
      }
      if v :| MarksDone(s, v, d) {
        assert MarksDone(t, v, d);
      }
      assert MarksDone(t, w, c) <==> ok;
    }
  }

  lemma CoherentTell(j: Job, s: State, w: nat, c: int, ok: bool)
    requires Shape(j, s) && Claims(j, s) && Coherent(j, s) && w < |s.workers| && s.workers[w] == Marking(c, ok)
    ensures Shape(j, TellScheduler(s, w, c, ok)) && Coherent(j, TellScheduler(s, w, c, ok))
  {
    var t := TellScheduler(s, w, c, ok);
    forall d | 0 <= d < j.Total()
      ensures t.status[d] == DONE <==> t.sched.done[d] || exists v :: MarksDone(t, v, d)
    {
      assert MarksDone(s, w, c) <==> ok;
      if v :| MarksDone(t, v, d) {
        assert MarksDone(s, v, d);
      }
      if v :| MarksDone(s, v, d) && v != w {
        assert MarksDone(t, v, d);
      }
    }
  }

  lemma CoherentStep(j: Job, s: State, w: nat, choice: Choice)
    requires Shape(j, s) && Claims(j, s) && Coherent(j, s) && Enabled(j, s, w, choice)
    ensures Shape(j, Next(j, s, w, choice)) && Coherent(j, Next(j, s, w, choice))
  {
    ShapeKept(j, s, w, choice);
    var p := s.workers[w];
    if p.Claimed? {
      CoherentBegin(j, s, w, p.chunk);
    } else if p.Finishing? {
      CoherentEnd(j, s, w, p.chunk, p.ok);
    } else if p.Marking? {
      CoherentTell(j, s, w, p.chunk, p.ok);
    } else {
      StepKeepsMarks(j, s, w, choice);
      CoherentKept(j, s, Next(j, s, w, choice), w);
    }
  }

  lemma StepKeepsMarks(j: Job, s: State, w: nat, choice: Choice)
    requires Enabled(j, s, w, choice)
    requires !s.workers[w].Claimed? && !s.workers[w].Finishing? && !s.workers[w].Marking?
    ensures KeepsMarks(s, Next(j, s, w, choice), w)
  {
  }

  lemma SavedStep(j: Job, s: State, w: nat, choice: Choice)
    requires SavedState(s) && Enabled(j, s, w, choice)
    ensures SavedState(Next(j, s, w, choice))
  {
    var t := Next(j, s, w, choice);
    if s.workers[w].Marking? || s.workers[w].Finishing? {
      LockTaken(j, s, w, choice);
    } else if !s.workers[w].Claimed? && !s.workers[w].Saving? {
      LockUntouched(j, s, w, choice);
    }
  }

  lemma LockTaken(j: Job, s: State, w: nat, choice: Choice)
    requires Enabled(j, s, w, choice) && (s.workers[w].Marking? || s.workers[w].Finishing?)
    ensures !Next(j, s, w, choice).LockFree()
  {
    assert Next(j, s, w, choice).workers[w].Locked();
  }

  lemma LockUntouched(j: Job, s: State, w: nat, choice: Choice)
    requires Enabled(j, s, w, choice) && !s.workers[w].Claimed? && !s.workers[w].Finishing? && !s.workers[w].Locked()
    ensures var t := Next(j, s, w, choice);
            t.status == s.status && t.saved == s.saved && t.entered == s.entered && (t.LockFree() ==> s.LockFree())
  {
    var t := Next(j, s, w, choice);
    assert t.workers == s.workers[w := t.workers[w]];
    if t.LockFree() {
      assert forall v :: 0 <= v < |s.workers| && v != w ==> t.workers[v] == s.workers[v];
    }
  }

  // ---------- chunk files ----------

  /** Only the file and receipt of chunk `c` may differ. */
  ghost predicate SameFilesBut(s: State, t: State, c: int) {
    && (forall d :: d != c ==> (d in t.downloads <==> d in s.downloads) && (d in t.receipts <==> d in s.receipts))
    && (forall d :: d != c && d in s.downloads ==> t.downloads[d] == s.downloads[d])
    && (forall d :: d != c && d in s.receipts ==> t.receipts[d] == s.receipts[d])
  }

  function OwnChunk(p: Phase): int {
    if p.Busy() then p.chunk else -1
  }

  lemma OtherFile(j: Job, s: State, t: State, c: int, p: Phase)
    requires SameFilesBut(s, t, c) && FileOf(j, s, p) && (p.Busy() ==> p.chunk != c)
    ensures FileOf(j, t, p)
  {
  }

  lemma FilesKept(j: Job, s: State, t: State, w: nat)
    requires Shape(j, s) && Shape(j, t) && Claims(j, s) && Files(j, s) && KeepsChunk(s, t, w)
    requires SameFilesBut(s, t, OwnChunk(s.workers[w])) && FileOf(j, t, t.workers[w])
    ensures Files(j, t)
  {
    var c := OwnChunk(s.workers[w]);
    forall v | 0 <= v < |t.workers|
      ensures FileOf(j, t, t.workers[v])
    {
      if v != w {
        assert t.workers[v] == s.workers[v];
        OtherFile(j, s, t, c, s.workers[v]);
      }
    }
  }

  /** A step leaves every other chunk's file alone, and its own as its new phase says. */
  lemma OwnFileStep(j: Job, s: State, w: nat, choice: Choice)
    requires Enabled(j, s, w, choice) && FileOf(j, s, s.workers[w])
    requires !s.workers[w].Idle? && !s.workers[w].Marking? && !s.workers[w].Reading? && !s.workers[w].Receiving?
    ensures SameFilesBut(s, Next(j, s, w, choice), OwnChunk(s.workers[w]))
    ensures FileOf(j, Next(j, s, w, choice), Next(j, s, w, choice).workers[w])
  {
  }

  lemma OwnFileReading(j: Job, s: State, w: nat, choice: Choice)
    requires Enabled(j, s, w, choice) && FileOf(j, s, s.workers[w]) && s.workers[w].Reading?
    ensures SameFilesBut(s, Next(j, s, w, choice), OwnChunk(s.workers[w]))
    ensures FileOf(j, Next(j, s, w, choice), Next(j, s, w, choice).workers[w])
  {
    var p := s.workers[w];
    if choice.Recv? {
      var step := HeaderStep(p.accumulated, p.unread[..choice.count]);
      if step.HeaderLine? && Parse(step.line).valid {
        ValidForms(step.line);
      }
    }
  }

  lemma OwnFileReceiving(j: Job, s: State, w: nat, choice: Choice)
    requires Enabled(j, s, w, choice) && FileOf(j, s, s.workers[w]) && s.workers[w].Receiving?
    ensures SameFilesBut(s, Next(j, s, w, choice), OwnChunk(s.workers[w]))
    ensures FileOf(j, Next(j, s, w, choice), Next(j, s, w, choice).workers[w])
  {
  }

  lemma FilesAsk(j: Job, s: State, w: nat)
    requires Shape(j, s) && Claims(j, s) && Files(j, s) && w < |s.workers| && s.workers[w].Idle?
    ensures Shape(j, AskScheduler(s, w)) && Files(j, AskScheduler(s, w))
  {
    var t := AskScheduler(s, w);
    FirstFreeIsLeast(s.sched, 0);
    forall v | 0 <= v < |t.workers|
      ensures FileOf(j, t, t.workers[v])
    {
      if v != w {
        OtherFile(j, s, t, -1, s.workers[v]);
      }
    }
  }

  lemma FilesTell(j: Job, s: State, w: nat, c: int, ok: bool)
    requires Shape(j, s) && Claims(j, s) && Files(j, s) && w < |s.workers| && s.workers[w] == Marking(c, ok)
    ensures Shape(j, TellScheduler(s, w, c, ok)) && Files(j, TellScheduler(s, w, c, ok))
  {
    var t := TellScheduler(s, w, c, ok);
    assert FileOf(j, s, s.workers[w]);
    forall v | 0 <= v < |t.workers|
      ensures FileOf(j, t, t.workers[v])
    {
      if v != w {
        OtherFile(j, s, t, -1, s.workers[v]);
      }
    }
  }

  lemma FilesStep(j: Job, s: State, w: nat, choice: Choice)
    requires Shape(j, s) && Claims(j, s) && Files(j, s) && Enabled(j, s, w, choice)
    ensures Shape(j, Next(j, s, w, choice)) && Files(j, Next(j, s, w, choice))
  {
    ShapeKept(j, s, w, choice);
    if s.workers[w].Idle? {
      FilesAsk(j, s, w);
    } else if s.workers[w].Marking? {
      FilesTell(j, s, w, s.workers[w].chunk, s.workers[w].ok);
    } else {
      StepKeepsChunk(j, s, w, choice);
      if s.workers[w].Reading? {
        OwnFileReading(j, s, w, choice);
      } else if s.workers[w].Receiving? {
        OwnFileReceiving(j, s, w, choice);
      } else {
        OwnFileStep(j, s, w, choice);
      }
      FilesKept(j, s, Next(j, s, w, choice), w);
    }
  }

  // ---------- nothing is stranded ----------

  ghost function BusyWorkers(s: State): set<int> {
    set w | 0 <= w < |s.workers| && s.workers[w].Busy()
  }

  ghost function ChunksOf(s: State, ws: set<int>): set<int>
    requires forall w :: w in ws ==> 0 <= w < |s.workers| && s.workers[w].Busy()
  {
    set w | w in ws :: OwnChunk(s.workers[w])
  }

  lemma {:induction false} FewerChunks(s: State, ws: set<int>)
    requires forall w :: w in ws ==> 0 <= w < |s.workers| && s.workers[w].Busy()
    ensures |ChunksOf(s, ws)| <= |ws|
  {
    if |ws| == 0 {
      assert ChunksOf(s, ws) == {};
    } else {
      var w := Member(ws);
      FewerChunks(s, ws - {w});
      assert ChunksOf(s, ws) == ChunksOf(s, ws - {w}) + {OwnChunk(s.workers[w])};
    }
  }

  /** When the scheduler has nothing to hand out, every undone chunk is in some busy worker's hands. */
  lemma UndoneInHands(j: Job, s: State)
    requires Shape(j, s) && Claims(j, s) && s.sched.NextChunk() == -1
    ensures |Undone(j, s)| <= |BusyWorkers(s)|
  {
    var busy := BusyWorkers(s);
    FirstFreeIsLeast(s.sched, 0);
    forall c | c in Undone(j, s)
      ensures c in ChunksOf(s, busy)
    {
      var v :| Holds(s, v, c);
      assert v in busy && OwnChunk(s.workers[v]) == c;
    }
    SubsetCard(Undone(j, s), ChunksOf(s, busy));
    FewerChunks(s, busy);
  }

  lemma CoveredAsk(j: Job, s: State, w: nat)
    requires Shape(j, s) && Claims(j, s) && Covered(j, s) && w < |s.workers| && s.workers[w].Idle?
    ensures Shape(j, AskScheduler(s, w)) && Covered(j, AskScheduler(s, w))
  {
    var t := AskScheduler(s, w);
    FirstFreeIsLeast(s.sched, 0);
    assert Undone(j, t) == Undone(j, s);
    if s.sched.NextChunk() == -1 {
      UndoneInHands(j, s);
      SubsetCard(BusyWorkers(s), Running(t));
    } else {
      ClaimKeepsRunning(s, w, s.sched.NextChunk());
    }
  }

  lemma ClaimKeepsRunning(s: State, w: nat, c: int)
    requires w < |s.workers| && s.workers[w].Idle?
    ensures var t := s.Move(w, Claimed(c)).(sched := s.sched.Claim(c));
            Running(t) == Running(s) && forall v :: 0 <= v < |s.workers| ==>
              t.workers[v].Returned? == s.workers[v].Returned?
  {
  }

  lemma CoveredStep(j: Job, s: State, w: nat, choice: Choice)
    requires Shape(j, s) && Claims(j, s) && Covered(j, s) && Enabled(j, s, w, choice)
    ensures Shape(j, Next(j, s, w, choice)) && Covered(j, Next(j, s, w, choice))
  {
    if s.workers[w].Idle? {
      CoveredAsk(j, s, w);
    } else {
      UndoneShrinks(j, s, w, choice);
      SameRunning(j, s, w, choice);
      SubsetCard(Undone(j, Next(j, s, w, choice)), Undone(j, s));
    }
  }

  lemma SameRunning(j: Job, s: State, w: nat, choice: Choice)
    requires Enabled(j, s, w, choice) && !s.workers[w].Idle?
    ensures var t := Next(j, s, w, choice);
            Running(t) == Running(s) && |t.workers| == |s.workers|
            && forall v :: 0 <= v < |s.workers| ==> t.workers[v].Returned? == s.workers[v].Returned?
  {
    var t := Next(j, s, w, choice);
    assert t.workers == s.workers[w := t.workers[w]];
    assert !t.workers[w].Returned? && !s.workers[w].Returned?;
  }

  lemma UndoneShrinks(j: Job, s: State, w: nat, choice: Choice)
    requires Shape(j, s) && Enabled(j, s, w, choice)
    ensures Shape(j, Next(j, s, w, choice))
    ensures Undone(j, Next(j, s, w, choice)) <= Undone(j, s)
  {
  }

  // ---------- every step, every schedule ----------

  /** Every step of every worker keeps the whole invariant. */
  lemma StepInv(j: Job, s: State, w: nat, choice: Choice)
    requires Inv(j, s) && Enabled(j, s, w, choice)
    ensures Inv(j, Next(j, s, w, choice))
  {
    ClaimsStep(j, s, w, choice);
    OneLockStep(j, s, w, choice);
    CoherentStep(j, s, w, choice);
    SavedStep(j, s, w, choice);
    FilesStep(j, s, w, choice);
    CoveredStep(j, s, w, choice);
  }

  lemma {:induction false} RunInv(j: Job, s: State, actions: seq<Action>)
    requires Inv(j, s) && Possible(j, s, actions)
    ensures Inv(j, Run(j, s, actions))
    decreases |actions|
  {
    if actions != [] {
      StepInv(j, s, actions[0].worker, actions[0].choice);
      RunInv(j, Next(j, s, actions[0].worker, actions[0].choice), actions[1..]);
    }
  }
}
