/** The parallel download, the ring of peers and the tracker's load counters together. */
module LoadedDownload {
  import opened Options
  import ChunkFiles
  import opened StateFile
  import opened Engine
  import opened EngineSafety
  import EngineOutcome
  import EngineProgress
  import L = LoadLedger
  import PeerList
  import TrackerLaws
  import TrackerStore

  /** The engine's state and the tracker's counters, with whoever else uses them. */
  datatype Loaded = Loaded(engine: State, ledger: L.Ledger)

  datatype Event =
    | Work(w: nat, choice: Choice, lost: bool)  // a worker's step, and whether its request or the reply got lost
    | Elsewhere(move: L.Move)                   // what other downloads, the peers and the clock do

  /** The peer that an attempt for a chunk goes to. */
  function PeerOf(peers: seq<string>, p: Phase): string
    requires peers != [] && p.InPeerLoop()
  {
    peers[PeerList.RingPeer(p.chunk % |peers|, p.attempt, |peers|)]
  }

  /** Between the grant and the release. */
  predicate HoldsLoad(p: Phase) {
    p.Reserved? || p.Reading? || p.Receiving? || p.Releasing?
  }

  /** What a worker's step does at the tracker. */
  function MoveOf(peers: seq<string>, p: Phase, w: nat, choice: Choice, lost: bool): Option<L.Move>
    requires peers != []
  {
    if p.Trying? && p.attempt < |peers| && choice.Reserve? then
      if choice.granted then Some(L.Reserved(w, PeerOf(peers, p)))
      else if lost then Some(L.ReplyLost(PeerOf(peers, p)))
      else Some(L.NotReserved)
    else if p.Releasing? then Some(if lost then L.ReleaseLost(w) else L.Released(w))
    else None
  }

  /** A move of somebody else than these workers. */
  predicate Foreign(m: L.Move, workers: nat) {
    (m.Reserved? || m.Released? || m.ReleaseLost?) ==> m.w >= workers
  }

  ghost predicate Can(j: Job, peers: seq<string>, x: Loaded, e: Event)
    requires peers != []
  {
    match e
    case Work(w, choice, lost) =>
      && Enabled(j, x.engine, w, choice)
      && var m := MoveOf(peers, x.engine.workers[w], w, choice, lost); m.Some? ==> L.Allowed(x.ledger, m.value)
    case Elsewhere(m) =>
      Foreign(m, |x.engine.workers|) && L.Allowed(x.ledger, m) && L.KeepsReservations(x.ledger, m)
  }

  ghost function After(j: Job, peers: seq<string>, x: Loaded, e: Event): Loaded
    requires peers != [] && Can(j, peers, x, e)
  {
    match e
    case Work(w, choice, lost) =>
      var m := MoveOf(peers, x.engine.workers[w], w, choice, lost);
      Loaded(Next(j, x.engine, w, choice), if m.Some? then L.Next(x.ledger, m.value) else x.ledger)
    case Elsewhere(m) => x.(ledger := L.Next(x.ledger, m))
  }

  ghost predicate Events(j: Job, peers: seq<string>, x: Loaded, events: seq<Event>)
    requires peers != []
    decreases |events|
  {
    events == []
    || (Can(j, peers, x, events[0]) && Events(j, peers, After(j, peers, x, events[0]), events[1..]))
  }

  ghost function AfterAll(j: Job, peers: seq<string>, x: Loaded, events: seq<Event>): Loaded
    requires peers != [] && Events(j, peers, x, events)
    decreases |events|
  {
    if events == [] then x else AfterAll(j, peers, After(j, peers, x, events[0]), events[1..])
  }

  // ---------- the engine's part ----------

  function Actions(events: seq<Event>): seq<Action> {
    if events == [] then []
    else if events[0].Work? then [Action(events[0].w, events[0].choice)] + Actions(events[1..])
    else Actions(events[1..])
  }

  /** The workers' part of a run is a schedule of the engine, so everything that holds of its schedules holds here. */
  lemma {:induction false} EngineFollows(j: Job, peers: seq<string>, x: Loaded, events: seq<Event>)
    requires peers != [] && Events(j, peers, x, events)
    ensures Possible(j, x.engine, Actions(events))
            && Run(j, x.engine, Actions(events)) == AfterAll(j, peers, x, events).engine
    decreases |events|
  {
    if events != [] {
      EngineFollows(j, peers, After(j, peers, x, events[0]), events[1..]);
      if events[0].Work? {
        assert Actions(events)[1..] == Actions(events[1..]);
      }
    }
  }

  // ---------- who holds what ----------

  /** A worker of this download holds a reservation exactly between grant and release, at the attempt's peer. */
  ghost predicate HoldsIts(peers: seq<string>, x: Loaded, w: nat)
    requires peers != [] && w < |x.engine.workers|
  {
    var p := x.engine.workers[w];
    if HoldsLoad(p) then w in x.ledger.holders && x.ledger.holders[w] == PeerOf(peers, p)
    else w !in x.ledger.holders
  }

  ghost predicate Held(peers: seq<string>, x: Loaded)
    requires peers != []
  {
    forall w: nat :: w < |x.engine.workers| ==> HoldsIts(peers, x, w)
  }

  /** A step within an attempt keeps the chunk and the attempt. */
  lemma AttemptKept(j: Job, s: State, w: nat, choice: Choice)
    requires Enabled(j, s, w, choice)
    requires s.workers[w].Reserved? || s.workers[w].Reading? || s.workers[w].Receiving?
    ensures var p, q := s.workers[w], Next(j, s, w, choice).workers[w];
            HoldsLoad(q) && q.chunk == p.chunk && q.attempt == p.attempt
  {
    var p := s.workers[w];
    if p.Reading? && choice.Recv? {
      assert Next(j, s, w, choice) == HeaderPiece(s, w, p, choice.count);
    }
  }

  lemma OwnTries(j: Job, peers: seq<string>, x: Loaded, w: nat, choice: Choice, lost: bool)
    requires |peers| == j.peers > 0 && Can(j, peers, x, Work(w, choice, lost)) && HoldsIts(peers, x, w)
    requires x.engine.workers[w].Trying?
    ensures HoldsIts(peers, After(j, peers, x, Work(w, choice, lost)), w)
  {
  }

  lemma OwnReleases(j: Job, peers: seq<string>, x: Loaded, w: nat, choice: Choice, lost: bool)
    requires |peers| == j.peers > 0 && Can(j, peers, x, Work(w, choice, lost)) && HoldsIts(peers, x, w)
    requires x.engine.workers[w].Releasing?
    ensures HoldsIts(peers, After(j, peers, x, Work(w, choice, lost)), w)
  {
  }

  lemma OwnWaits(j: Job, peers: seq<string>, x: Loaded, w: nat, choice: Choice, lost: bool)
    requires |peers| == j.peers > 0 && Can(j, peers, x, Work(w, choice, lost)) && HoldsIts(peers, x, w)
    requires !x.engine.workers[w].InPeerLoop()
    ensures HoldsIts(peers, After(j, peers, x, Work(w, choice, lost)), w)
  {
  }

  lemma OwnHold(j: Job, peers: seq<string>, x: Loaded, w: nat, choice: Choice, lost: bool)
    requires |peers| == j.peers > 0 && Can(j, peers, x, Work(w, choice, lost)) && HoldsIts(peers, x, w)
    ensures HoldsIts(peers, After(j, peers, x, Work(w, choice, lost)), w)
  {
    var p := x.engine.workers[w];
    if p.Trying? {
      OwnTries(j, peers, x, w, choice, lost);
    } else if p.Releasing? {
      OwnReleases(j, peers, x, w, choice, lost);
    } else if p.InPeerLoop() {
      AttemptKept(j, x.engine, w, choice);
    } else {
      OwnWaits(j, peers, x, w, choice, lost);
    }
  }

  lemma StepHeld(j: Job, peers: seq<string>, x: Loaded, e: Event)
    requires |peers| == j.peers > 0 && Can(j, peers, x, e) && Held(peers, x)
    ensures Held(peers, After(j, peers, x, e))
  {
    var y := After(j, peers, x, e);
    forall v: nat | v < |y.engine.workers|
      ensures HoldsIts(peers, y, v)
    {
      assert HoldsIts(peers, x, v);
      if e.Work? && e.w == v {
        OwnHold(j, peers, x, v, e.choice, e.lost);
      }
    }
  }

  // ---------- the counters ----------

  /** Ids that everybody's moves are about. */
  predicate EventOver(ids: set<string>, e: Event) {
    e.Elsewhere? ==> L.AboutMove(e.move) <= ids
  }

  ghost predicate EventsOver(ids: set<string>, events: seq<Event>) {
    forall k :: 0 <= k < |events| ==> EventOver(ids, events[k])
  }

  ghost predicate Accounted(ids: set<string>, l: L.Ledger) {
    L.Balanced(l.redis, l.holders, l.leaked) && L.Known(l, ids)
  }

  lemma StepAccounted(j: Job, peers: seq<string>, ids: set<string>, x: Loaded, e: Event)
    requires peers != [] && Can(j, peers, x, e) && EventOver(ids, e)
    requires TrackerStore.Apart(ids) && (forall k :: 0 <= k < |peers| ==> peers[k] in ids) && Accounted(ids, x.ledger)
    ensures Accounted(ids, After(j, peers, x, e).ledger)
  {
    match e
    case Elsewhere(m) => L.KnownMove(x.ledger, ids, m);
    case Work(w, choice, lost) =>
      var m := MoveOf(peers, x.engine.workers[w], w, choice, lost);
      if m.Some? {
        L.KnownMove(x.ledger, ids, m.value);
      }
  }

  lemma {:induction false} RunHeld(j: Job, peers: seq<string>, ids: set<string>, x: Loaded, events: seq<Event>)
    requires |peers| == j.peers > 0 && Events(j, peers, x, events) && EventsOver(ids, events)
    requires TrackerStore.Apart(ids) && (forall k :: 0 <= k < |peers| ==> peers[k] in ids)
    requires Held(peers, x) && Accounted(ids, x.ledger)
    ensures var y := AfterAll(j, peers, x, events);
            Held(peers, y) && Accounted(ids, y.ledger)
    decreases |events|
  {
    if events != [] {
      assert EventOver(ids, events[0]);
      StepHeld(j, peers, x, events[0]);
      StepAccounted(j, peers, ids, x, events[0]);
      RunHeld(j, peers, ids, After(j, peers, x, events[0]), events[1..]);
    }
  }

  /** The workers of this download that are between grant and release at a peer. */
  function Busy(peers: seq<string>, s: State, peer: string): set<nat>
    requires peers != []
  {
    set w: nat | w < |s.workers| && HoldsLoad(s.workers[w]) && PeerOf(peers, s.workers[w]) == peer
  }

  /** The reservations of everybody else. */
  function Others(x: Loaded, peer: string): set<nat> {
    set w | w in L.HoldersOf(x.ledger.holders, peer) && w >= |x.engine.workers|
  }

  lemma HoldersSplit(peers: seq<string>, x: Loaded, peer: string)
    requires peers != [] && Held(peers, x)
    ensures |L.HoldersOf(x.ledger.holders, peer)| == |Busy(peers, x.engine, peer)| + |Others(x, peer)|
  {
    var own, others := Busy(peers, x.engine, peer), Others(x, peer);
    forall w: nat
      ensures w in L.HoldersOf(x.ledger.holders, peer) <==> w in own + others
    {
      if w < |x.engine.workers| {
        assert HoldsIts(peers, x, w);
      }
    }
    assert L.HoldersOf(x.ledger.holders, peer) == own + others && own !! others;
  }

  /** A download that begins at a tracker whose counters are in balance, and at which none of its workers holds any. */
  ghost predicate Begins(peers: seq<string>, ids: set<string>, x: Loaded) {
    && (forall w: nat :: w < |x.engine.workers| ==> x.engine.workers[w].Idle? && w !in x.ledger.holders)
    && (forall k :: 0 <= k < |peers| ==> peers[k] in ids) && Accounted(ids, x.ledger)
  }

  lemma FreshBegins(j: Job, peers: seq<string>, ids: set<string>, stateFile: Option<string>,
                    downloads: map<int, string>, shared: map<int, string>, workers: nat, now: int)
    requires forall k :: 0 <= k < |peers| ==> peers[k] in ids
    ensures Begins(peers, ids, Loaded(Start(j, stateFile, downloads, shared, workers), L.Begin(now)))
  {
    L.BeginBalanced(now);
  }

  /**
   At any moment of any download, whatever fails, is lost or happens elsewhere: each peer's counter is the workers
   of the download that are between grant and release there, the reservations of others, and the leaked ones.
   */
  lemma CountersExact(j: Job, peers: seq<string>, ids: set<string>, x: Loaded, events: seq<Event>, peer: string)
    requires |peers| == j.peers > 0 && TrackerStore.Apart(ids) && Begins(peers, ids, x)
    requires Events(j, peers, x, events) && EventsOver(ids, events)
    ensures var y := AfterAll(j, peers, x, events);
            TrackerLaws.Counter(y.ledger.redis, peer)
            == |Busy(peers, y.engine, peer)| + |Others(y, peer)| + L.Leaks(y.ledger.leaked, peer)
  {
    assert forall w: nat :: w < |x.engine.workers| ==> HoldsIts(peers, x, w);
    RunHeld(j, peers, ids, x, events);
    HoldersSplit(peers, AfterAll(j, peers, x, events), peer);
  }

  /**
   Once all workers have returned none of them holds a reservation, and what is left on each counter are the
   reservations of others and the leaked ones.
   */
  lemma NothingHeldAtEnd(j: Job, peers: seq<string>, ids: set<string>, x: Loaded, events: seq<Event>, peer: string)
    requires |peers| == j.peers > 0 && TrackerStore.Apart(ids) && Begins(peers, ids, x)
    requires Events(j, peers, x, events) && EventsOver(ids, events)
    requires AllReturned(AfterAll(j, peers, x, events).engine)
    ensures var y := AfterAll(j, peers, x, events);
            && (forall w :: w in y.ledger.holders ==> w >= |y.engine.workers|)
            && TrackerLaws.Counter(y.ledger.redis, peer) == |Others(y, peer)| + L.Leaks(y.ledger.leaked, peer)
  {
    var y := AfterAll(j, peers, x, events);
    assert forall w: nat :: w < |x.engine.workers| ==> HoldsIts(peers, x, w);
    RunHeld(j, peers, ids, x, events);
    forall w: nat | w < |y.engine.workers|
      ensures w !in y.ledger.holders
    {
      assert HoldsIts(peers, y, w);
    }
    CountersExact(j, peers, ids, x, events, peer);
    assert Busy(peers, y.engine, peer) == {};
  }

  /** From an empty store: when all workers have returned every chunk is done, and none of them holds a reservation. */
  lemma FinishedDownload(j: Job, peers: seq<string>, ids: set<string>, stateFile: Option<string>,
                         downloads: map<int, string>, shared: map<int, string>, workers: nat, now: int, x: Loaded,
                         events: seq<Event>, y: Loaded, peer: string)
    requires |peers| == j.peers > 0 && TrackerStore.Apart(ids) && (forall k :: 0 <= k < |peers| ==> peers[k] in ids)
    requires workers > 0 && HashesNonempty(j)
    requires x == Loaded(Start(j, stateFile, downloads, shared, workers), L.Begin(now))
    requires Events(j, peers, x, events) && EventsOver(ids, events) && AfterAll(j, peers, x, events) == y
    requires AllReturned(y.engine)
    ensures y.engine.sched.AllDone() && Missing(y.engine.status) == []
    ensures TrackerLaws.Counter(y.ledger.redis, peer) == |Others(y, peer)| + L.Leaks(y.ledger.leaked, peer)
  {
    FreshBegins(j, peers, ids, stateFile, downloads, shared, workers, now);
    NothingHeldAtEnd(j, peers, ids, x, events, peer);
    EngineFollows(j, peers, x, events);
    EngineOutcome.NothingStranded(j, stateFile, downloads, shared, workers, Actions(events), y.engine);
  }

  // ---------- at which peer ----------

  /** A nonzero multiple is at least as large as the number, with one sign or the other. */
  lemma LargeMultiple(n: int, d: int)
    requires n > 0
    ensures d == 0 || n * d >= n || n * d <= 0 - n
  {
    if d > 0 {
      ChunkFiles.AtLeastOnce(n, d);
    } else if d < 0 {
      ChunkFiles.AtLeastOnce(n, -d);
      assert n * (-d) == -(n * d);
    }
  }

  lemma RemainderIs(n: nat, k: int, r: nat, y: int)
    requires r < n && y == n * k + r
    ensures y % n == r
  {
    var q := y / n;
    assert y == n * q + y % n;
    assert n * (k - q) == n * k - n * q;
    LargeMultiple(n, k - q);
  }

  lemma ModTwice(c: int, a: nat, n: nat)
    requires n > 0
    ensures (c % n + a) % n == (c + a) % n
  {
    var x := c % n + a;
    var q, k := c / n, x / n;
    assert c == n * q + c % n && x == n * k + x % n;
    assert n * (q + k) == n * q + n * k;
    RemainderIs(n, q + k, x % n, c + a);
  }

  /** The attempts for a chunk go round the usable peers from the chunk's own one on. */
  lemma PeerInRing(peers: seq<string>, p: Phase)
    requires peers != [] && p.InPeerLoop()
    ensures PeerOf(peers, p) == peers[(p.chunk + p.attempt) % |peers|]
    ensures p.attempt == 0 ==> PeerOf(peers, p) == peers[p.chunk % |peers|]
  {
    ModTwice(p.chunk, p.attempt, |peers|);
  }

  /** The first attempt for a chunk, if it is granted, reserves at the peer with the chunk's number, round the ring. */
  lemma FirstReservation(j: Job, peers: seq<string>, x: Loaded, w: nat, c: int, lost: bool)
    requires |peers| == j.peers > 0 && w < |x.engine.workers| && x.engine.workers[w] == Trying(c, 0)
    requires Can(j, peers, x, Work(w, Reserve(true), lost))
    ensures var y := After(j, peers, x, Work(w, Reserve(true), lost));
            w in y.ledger.holders && y.ledger.holders[w] == peers[c % |peers|]
  {
    PeerInRing(peers, Trying(c, 0));
  }

  /** A held reservation is at the peer that the worker's attempt comes to in the ring. */
  predicate HeldAt(peers: seq<string>, y: Loaded, w: nat)
    requires peers != [] && w < |y.engine.workers|
  {
    w in y.ledger.holders ==>
      var p := y.engine.workers[w];
      HoldsLoad(p) && y.ledger.holders[w] == peers[(p.chunk + p.attempt) % |peers|]
  }

  lemma HoldsItsInRing(peers: seq<string>, y: Loaded, w: nat)
    requires peers != [] && w < |y.engine.workers| && HoldsIts(peers, y, w)
    ensures HeldAt(peers, y, w)
  {
    if HoldsLoad(y.engine.workers[w]) {
      PeerInRing(peers, y.engine.workers[w]);
    }
  }

  /** At any moment every reservation that a worker holds is at the peer that its attempt comes to in the ring. */
  lemma HeldInRing(j: Job, peers: seq<string>, ids: set<string>, x: Loaded, events: seq<Event>)
    requires |peers| == j.peers > 0 && TrackerStore.Apart(ids) && Begins(peers, ids, x)
    requires Events(j, peers, x, events) && EventsOver(ids, events)
    ensures var y := AfterAll(j, peers, x, events);
            forall w: nat :: w < |y.engine.workers| ==> HeldAt(peers, y, w)
  {
    assert forall v: nat :: v < |x.engine.workers| ==> HoldsIts(peers, x, v);
    RunHeld(j, peers, ids, x, events);
    var y := AfterAll(j, peers, x, events);
    forall w: nat | w < |y.engine.workers|
      ensures HeldAt(peers, y, w)
    {
      HoldsItsInRing(peers, y, w);
    }
  }

  // ---------- nothing lost ----------

  /** No reply to a reservation and no request for a release is lost, here or elsewhere. */
  predicate NoneLost(events: seq<Event>) {
    forall k :: 0 <= k < |events| ==> Lossless(events[k])
  }

  predicate Lossless(e: Event) {
    match e
    case Work(_, _, lost) => !lost
    case Elsewhere(m) => !m.ReplyLost? && !m.ReleaseLost?
  }

  lemma {:induction false} NoneLostNoneLeaked(j: Job, peers: seq<string>, x: Loaded, events: seq<Event>)
    requires peers != [] && Events(j, peers, x, events) && NoneLost(events) && x.ledger.leaked == map[]
    ensures AfterAll(j, peers, x, events).ledger.leaked == map[]
    decreases |events|
  {
    if events != [] {
      assert Lossless(events[0]);
      NoneLostNoneLeaked(j, peers, After(j, peers, x, events[0]), events[1..]);
    }
  }

  /** With nothing lost and nobody else at it, a finished download leaves every counter at zero. */
  lemma ZeroAtEnd(j: Job, peers: seq<string>, ids: set<string>, x: Loaded, events: seq<Event>, peer: string)
    requires |peers| == j.peers > 0 && TrackerStore.Apart(ids) && Begins(peers, ids, x)
    requires Events(j, peers, x, events) && EventsOver(ids, events)
    requires AllReturned(AfterAll(j, peers, x, events).engine)
    requires NoneLost(events) && x.ledger.leaked == map[] && Others(AfterAll(j, peers, x, events), peer) == {}
    ensures TrackerLaws.Counter(AfterAll(j, peers, x, events).ledger.redis, peer) == 0
  {
    NothingHeldAtEnd(j, peers, ids, x, events, peer);
    NoneLostNoneLeaked(j, peers, x, events);
  }

  // ---------- progress ----------

  /** The tracker never blocks the download: while some worker has not returned, some worker can take a step. */
  lemma NeverBlocked(j: Job, peers: seq<string>, x: Loaded)
    requires |peers| == j.peers > 0 && Held(peers, x) && !AllReturned(x.engine)
    ensures exists w: nat, lost :: w < |x.engine.workers|
              && Can(j, peers, x, Work(w, EngineProgress.SomeChoice(j, x.engine.workers[w]), lost))
  {
    EngineProgress.NeverStuck(j, x.engine);
    var w :| 0 <= w < |x.engine.workers|
             && Enabled(j, x.engine, w, EngineProgress.SomeChoice(j, x.engine.workers[w]));
    assert HoldsIts(peers, x, w);
    var lost := x.engine.workers[w].Releasing?;
    assert Can(j, peers, x, Work(w, EngineProgress.SomeChoice(j, x.engine.workers[w]), lost));
  }
}
