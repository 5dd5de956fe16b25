/** What the status vector of a running download says. */
module ChunkStatus {
  import opened Options
  import opened StateFile
  import opened Scheduling
  import opened Engine
  import opened EngineSafety

  /** The chunks that some worker has been through with, behind a schedule. */
  function Tried(j: Job, s: State, actions: seq<Action>, tried: set<int>): set<int>
    requires Possible(j, s, actions)
    decreases |actions|
  {
    if actions == [] then tried
    else
      var w, choice := actions[0].worker, actions[0].choice;
      Tried(j, Next(j, s, w, choice), actions[1..], tried + ThroughWith(s.workers[w]))
  }

  /** The chunk whose outcome a worker's step writes down. */
  function ThroughWith(p: Phase): set<int> {
    if p.Finishing? then {p.chunk} else {}
  }

  /** The status of a chunk that nobody is busy with and that is not done. */
  function Resting(first: seq<Status>, tried: set<int>, c: int): Status
    requires 0 <= c < |first|
  {
    if c in tried then FAILED else first[c]
  }

  /** The status that a worker's chunk has to have. */
  predicate StatusAt(s: State, first: seq<Status>, tried: set<int>, p: Phase) {
    p.Busy() && 0 <= p.chunk < |first| && |first| == |s.status| ==>
      (p.Marking? ==> p.chunk in tried)
      && s.status[p.chunk]
         == if p.Claimed? then Resting(first, tried, p.chunk)
            else if p.InPeerLoop() || p.Finishing? then IN_PROGRESS
            else if p.ok then DONE else FAILED
  }

  ghost predicate Truthful(j: Job, s: State, first: seq<Status>, tried: set<int>)
    requires Shape(j, s) && |first| == j.Total()
  {
    && (forall w :: 0 <= w < |s.workers| ==> StatusAt(s, first, tried, s.workers[w]))
    && (forall c :: 0 <= c < j.Total() && !s.sched.claimed[c] ==>
          s.status[c] == if s.sched.done[c] then DONE else Resting(first, tried, c))
  }

  lemma OtherStatus(s: State, t: State, first: seq<Status>, tried: set<int>, more: set<int>, p: Phase)
    requires StatusAt(s, first, tried, p) && |t.status| == |s.status|
    requires p.Busy() && 0 <= p.chunk < |s.status| ==> t.status[p.chunk] == s.status[p.chunk] && p.chunk !in more
    ensures StatusAt(t, first, tried + more, p)
  {
  }

  /** Only the worker's own chunk changes its status. */
  lemma OnlyOwnStatus(j: Job, s: State, w: nat, choice: Choice, c: int)
    requires Enabled(j, s, w, choice) && 0 <= c < |s.status| && |Next(j, s, w, choice).status| == |s.status|
    requires s.workers[w].Busy() ==> s.workers[w].chunk != c
    ensures Next(j, s, w, choice).status[c] == s.status[c]
  {
  }

  lemma LoopKeepsStatus(j: Job, s: State, w: nat, choice: Choice)
    requires Enabled(j, s, w, choice) && s.workers[w].InPeerLoop()
    ensures var t := Next(j, s, w, choice);
            && t.status == s.status && t.sched == s.sched
            && (t.workers[w].InPeerLoop() || t.workers[w].Finishing?) && t.workers[w].chunk == s.workers[w].chunk
  {
    assert Next(j, s, w, choice) == PeerLoopStep(j, s, w, choice);
  }

  lemma OwnStatus(j: Job, s: State, w: nat, choice: Choice, first: seq<Status>, tried: set<int>)
    requires Shape(j, s) && |first| == j.Total() && Truthful(j, s, first, tried) && Enabled(j, s, w, choice)
    ensures StatusAt(Next(j, s, w, choice), first, tried + ThroughWith(s.workers[w]), Next(j, s, w, choice).workers[w])
  {
    var p := s.workers[w];
    assert StatusAt(s, first, tried, p);
    if p.Idle? {
      FirstFreeIsLeast(s.sched, 0);
    } else if p.InPeerLoop() {
      LoopKeepsStatus(j, s, w, choice);
    }
  }

  lemma OthersStatus(j: Job, s: State, w: nat, choice: Choice, first: seq<Status>, tried: set<int>, v: nat)
    requires Inv(j, s) && |first| == j.Total() && Truthful(j, s, first, tried) && Enabled(j, s, w, choice)
    requires v < |s.workers| && v != w
    ensures StatusAt(Next(j, s, w, choice), first, tried + ThroughWith(s.workers[w]), s.workers[v])
  {
    var p := s.workers[v];
    assert StatusAt(s, first, tried, p);
    if p.Busy() && 0 <= p.chunk < |s.status| {
      assert s.workers[w].Busy() ==> s.workers[w].chunk != p.chunk;
      OnlyOwnStatus(j, s, w, choice, p.chunk);
    }
    OtherStatus(s, Next(j, s, w, choice), first, tried, ThroughWith(s.workers[w]), p);
  }

  /** Claims change only at the two ends of a worker's way with a chunk. */
  lemma ClaimsChange(j: Job, s: State, w: nat, choice: Choice)
    requires Shape(j, s) && Enabled(j, s, w, choice) && !s.workers[w].Idle? && !s.workers[w].Marking?
    ensures Next(j, s, w, choice).sched == s.sched
  {
    if s.workers[w].InPeerLoop() {
      LoopKeepsStatus(j, s, w, choice);
    }
  }

  /** Only the chunk of a worker that tells the scheduler becomes free, with the outcome as its status. */
  lemma FreedStatus(j: Job, s: State, w: nat, first: seq<Status>, tried: set<int>, c: int, ok: bool)
    requires Shape(j, s) && Claims(j, s) && |first| == j.Total() && Truthful(j, s, first, tried) && 0 <= c < j.Total()
    requires w < |s.workers| && s.workers[w] == Marking(c, ok)
    ensures var t := TellScheduler(s, w, c, ok);
            t.status[c] == if t.sched.done[c] then DONE else Resting(first, tried, c)
  {
    assert StatusAt(s, first, tried, s.workers[w]);
  }

  lemma FreeStatus(j: Job, s: State, w: nat, choice: Choice, first: seq<Status>, tried: set<int>, c: int)
    requires Shape(j, s) && Claims(j, s) && |first| == j.Total() && Truthful(j, s, first, tried)
    requires Enabled(j, s, w, choice) && 0 <= c < j.Total()
    requires |Next(j, s, w, choice).sched.claimed| == j.Total() && !Next(j, s, w, choice).sched.claimed[c]
    ensures var t := Next(j, s, w, choice);
            |t.status| == |t.sched.done| == j.Total()
            && t.status[c] == if t.sched.done[c] then DONE else Resting(first, tried + ThroughWith(s.workers[w]), c)
  {
    var p := s.workers[w];
    if p.Marking? && p.chunk == c {
      FreedStatus(j, s, w, first, tried, c, p.ok);
    } else {
      StaysFree(j, s, w, choice, c);
      OnlyOwnStatus(j, s, w, choice, c);
    }
  }

  /** Any other chunk that is free now was free before, and nobody is busy with it. */
  lemma StaysFree(j: Job, s: State, w: nat, choice: Choice, c: int)
    requires Shape(j, s) && Claims(j, s) && Enabled(j, s, w, choice) && 0 <= c < j.Total()
    requires !(s.workers[w].Marking? && s.workers[w].chunk == c)
    requires |Next(j, s, w, choice).sched.claimed| == j.Total() && !Next(j, s, w, choice).sched.claimed[c]
    ensures !s.sched.claimed[c] && Next(j, s, w, choice).sched.done[c] == s.sched.done[c]
    ensures s.workers[w].Busy() ==> s.workers[w].chunk != c
  {
    if !s.workers[w].Idle? && !s.workers[w].Marking? {
      ClaimsChange(j, s, w, choice);
    }
  }

  lemma TruthfulStep(j: Job, s: State, w: nat, choice: Choice, first: seq<Status>, tried: set<int>)
    requires Inv(j, s) && |first| == j.Total() && Truthful(j, s, first, tried) && Enabled(j, s, w, choice)
    ensures Inv(j, Next(j, s, w, choice))
    ensures Truthful(j, Next(j, s, w, choice), first, tried + ThroughWith(s.workers[w]))
  {
    var t := Next(j, s, w, choice);
    StepInv(j, s, w, choice);
    OwnStatus(j, s, w, choice, first, tried);
    forall v | 0 <= v < |t.workers|
      ensures StatusAt(t, first, tried + ThroughWith(s.workers[w]), t.workers[v])
    {
      if v != w {
        OthersStatus(j, s, w, choice, first, tried, v);
      }
    }
    forall c | 0 <= c < j.Total() && !t.sched.claimed[c]
      ensures t.status[c] == if t.sched.done[c] then DONE else Resting(first, tried + ThroughWith(s.workers[w]), c)
    {
      FreeStatus(j, s, w, choice, first, tried, c);
    }
  }

  lemma {:induction false} TruthfulRun(j: Job, s: State, actions: seq<Action>, first: seq<Status>, tried: set<int>)
    requires Inv(j, s) && |first| == j.Total() && Truthful(j, s, first, tried) && Possible(j, s, actions)
    ensures Inv(j, Run(j, s, actions)) && Truthful(j, Run(j, s, actions), first, Tried(j, s, actions, tried))
    decreases |actions|
  {
    if actions != [] {
      var w, choice := actions[0].worker, actions[0].choice;
      TruthfulStep(j, s, w, choice, first, tried);
      TruthfulRun(j, Next(j, s, w, choice), actions[1..], first, tried + ThroughWith(s.workers[w]));
    }
  }

  lemma BusyStatus(j: Job, s: State, first: seq<Status>, tried: set<int>)
    requires Inv(j, s) && |first| == j.Total() && Truthful(j, s, first, tried)
    ensures forall w :: 0 <= w < |s.workers| && (s.workers[w].InPeerLoop() || s.workers[w].Finishing?) ==>
              0 <= s.workers[w].chunk < j.Total() && s.status[s.workers[w].chunk] == IN_PROGRESS
    ensures forall w :: 0 <= w < |s.workers| && s.workers[w].Marking? ==>
              0 <= s.workers[w].chunk < j.Total()
              && s.status[s.workers[w].chunk] == if s.workers[w].ok then DONE else FAILED
  {
    forall w | 0 <= w < |s.workers| && s.workers[w].Busy()
      ensures 0 <= s.workers[w].chunk < j.Total() && StatusAt(s, first, tried, s.workers[w])
    {
    }
  }

  /** What a start makes of the state file and the directories. */
  lemma StartLaw(j: Job, stateFile: Option<string>, downloads: map<int, string>, shared: map<int, string>,
                 workers: nat, c: int)
    requires 0 <= c < j.Total()
    ensures var s, loaded := Start(j, stateFile, downloads, shared, workers), Load(stateFile, j.Total());
            && |s.status| == |s.sched.done| == |s.sched.claimed| == j.Total() && !s.sched.claimed[c]
            && (s.sched.done[c] <==> loaded[c] == DONE || c in downloads || c in shared)
            && s.status[c] == if s.sched.done[c] then DONE else loaded[c]
    ensures stateFile.None? ==> Load(stateFile, j.Total())[c] == NOT_STARTED
  {
  }

  /**
   At any moment of any download: a chunk that nobody claimed is DONE, or FAILED if somebody tried it, or has the
   status that the start gave it; a claimed one is IN_PROGRESS from the first critical section to the second, and
   has the outcome from then on.
   */
  lemma StatusTells(j: Job, stateFile: Option<string>, downloads: map<int, string>, shared: map<int, string>,
                    workers: nat, actions: seq<Action>, s: State)
    requires workers > 0 && HashesNonempty(j)
    requires Possible(j, Start(j, stateFile, downloads, shared, workers), actions)
    requires s == Run(j, Start(j, stateFile, downloads, shared, workers), actions)
    ensures Shape(j, s)
    ensures var start := Start(j, stateFile, downloads, shared, workers);
            var tried := Tried(j, start, actions, {});
            && |start.status| == j.Total()
            && (forall c :: 0 <= c < j.Total() && !s.sched.claimed[c] ==>
                  s.status[c]
                  == if s.sched.done[c] then DONE else if c in tried then FAILED else start.status[c])
            && (forall w :: 0 <= w < |s.workers| && (s.workers[w].InPeerLoop() || s.workers[w].Finishing?) ==>
                  0 <= s.workers[w].chunk < j.Total() && s.status[s.workers[w].chunk] == IN_PROGRESS)
            && (forall w :: 0 <= w < |s.workers| && s.workers[w].Marking? ==>
                  0 <= s.workers[w].chunk < j.Total()
                  && s.status[s.workers[w].chunk] == if s.workers[w].ok then DONE else FAILED)
  {
    var start := Start(j, stateFile, downloads, shared, workers);
    StartInv(j, stateFile, downloads, shared, workers);
    TruthfulRun(j, start, actions, start.status, {});
    BusyStatus(j, s, start.status, Tried(j, start, actions, {}));
  }
}
