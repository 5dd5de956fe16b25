/**
 The load counters against the reservations they stand for: downloads reserve and
 release load at the tracker, replies and requests get lost, peers register again.
 */
module LoadLedger {
  import opened Sets
  import opened TrackerStore
  import opened TrackerLaws

  /** The store, which worker holds a reservation at which peer, and how many reservations leaked. */
  datatype Ledger = Ledger(redis: Redis, holders: map<nat, string>, leaked: map<string, nat>)

  datatype Move =
    | Reserved(w: nat, peer: string)      // applied, and the worker was told so
    | ReplyLost(peer: string)             // applied, but the worker takes it for a failure
    | NotReserved                         // never applied
    | Released(w: nat)                    // applied, whatever became of the reply
    | ReleaseLost(w: nat)                 // never applied
    | Tracker(op: Op)                     // a registration, a heartbeat or a lookup
    | Time(seconds: nat)

  function HoldersOf(holders: map<nat, string>, peer: string): set<nat> {
    set w | w in holders && holders[w] == peer
  }

  function Leaks(leaked: map<string, nat>, peer: string): nat {
    if peer in leaked then leaked[peer] else 0
  }

  function Leak(leaked: map<string, nat>, peer: string): map<string, nat> {
    leaked[peer := Leaks(leaked, peer) + 1]
  }

  /** A reservation or a release is applied only where the counter's key holds no record. */
  predicate Allowed(l: Ledger, m: Move) {
    match m
    case Reserved(w, peer) => w !in l.holders && l.redis.Countable(peer)
    case ReplyLost(peer) => l.redis.Countable(peer)
    case Released(w) => w in l.holders && l.redis.Countable(l.holders[w])
    case ReleaseLost(w) => w in l.holders
    case Tracker(op) => op.Register? || op.Heartbeat? || op.LookUp?
    case NotReserved => true
    case Time(_) => true
  }

  /** The leaks of counters that lapse are gone with them. */
  function StillLeaked(r: Redis, leaked: map<string, nat>): map<string, nat> {
    map p | p in leaked && r.GetLoad(p).Some? :: leaked[p]
  }

  function Next(l: Ledger, m: Move): Ledger
    requires Allowed(l, m)
  {
    match m
    case Reserved(w, peer) => Ledger(Reserve(l.redis, peer), l.holders[w := peer], l.leaked)
    case ReplyLost(peer) => Ledger(Reserve(l.redis, peer), l.holders, Leak(l.leaked, peer))
    case NotReserved => l
    case Released(w) => Ledger(Release(l.redis, l.holders[w]), l.holders - {w}, l.leaked)
    case ReleaseLost(w) => Ledger(l.redis, l.holders - {w}, Leak(l.leaked, l.holders[w]))
    case Tracker(op) => l.(redis := Apply(l.redis, op))
    case Time(seconds) =>
      var later := l.redis.Later(seconds);
      l.(redis := later, leaked := StillLeaked(later, l.leaked))
  }

  /** Each counter is the reservations outstanding at the peer and the leaked ones. */
  ghost predicate Balanced(r: Redis, holders: map<nat, string>, leaked: map<string, nat>) {
    forall peer :: Counter(r, peer) == |HoldersOf(holders, peer)| + Leaks(leaked, peer)
  }

  // ---------- what the store operations do to a counter ----------

  lemma NamesApart(a: string, b: string)
    ensures LoadName(a) == LoadName(b) <==> a == b
    ensures a != LoadName(a)
  {
    SameSuffix(":load", a, b);
    assert |LoadName(a)| == |a| + 5;
  }

  lemma ReserveCounts(r: Redis, peer: string, other: string)
    requires r.Countable(peer)
    ensures Counter(Reserve(r, peer), other) == Counter(r, other) + (if other == peer then 1 else 0)
  {
    NamesApart(peer, other);
  }

  /** A release takes one off; only a counter at zero or below is set to zero instead. */
  lemma ReleaseCounts(r: Redis, peer: string, other: string)
    requires r.Countable(peer)
    ensures Counter(Release(r, peer), other)
            == if other != peer then Counter(r, other) else if Counter(r, peer) <= 0 then 0 else Counter(r, peer) - 1
  {
    NamesApart(peer, other);
  }

  /** A registration leaves every counter at its value, but for one whose key is that of the peer's own record. */
  lemma RegisterCounts(r: Redis, p: PeerInfo, other: string)
    ensures Counter(Upsert(r, p), other) == if p.peerId == LoadName(other) then 0 else Counter(r, other)
  {
    NowKept(r, p.peerId);
    SetsKeepEntries(Renewed(r, p), p.peerId, p.files);
    NamesApart(p.peerId, other);
  }

  /** A registration keeps every counter's value exactly when no counter above or below zero has its record's key. */
  lemma RegisterKeepsCountersIff(r: Redis, p: PeerInfo)
    ensures (forall peer :: Counter(Upsert(r, p), peer) == Counter(r, peer))
            <==> forall peer :: p.peerId == LoadName(peer) ==> Counter(r, peer) == 0
  {
    forall peer
      ensures Counter(Upsert(r, p), peer) == if p.peerId == LoadName(peer) then 0 else Counter(r, peer)
    {
      RegisterCounts(r, p, peer);
    }
  }

  /** A heartbeat and a lookup leave every counter at its value. */
  lemma TrackerKeepsCounters(r: Redis, op: Op, peer: string)
    requires op.Heartbeat? || op.LookUp?
    ensures Counter(Apply(r, op), peer) == Counter(r, peer)
  {
    match op
    case Heartbeat(id) =>
      if r.GetPeer(id).Some? {
        var p := r.GetPeer(id).value;
        SetsKeepEntries(r.SetPeer(id, p.(lastSeen := r.now, online := true)).ExpireLoad(id), id, p.files);
        NamesApart(id, peer);
      }
    case LookUp(_) =>
  }

  // ---------- conservation ----------

  lemma HoldersAdd(holders: map<nat, string>, w: nat, peer: string, other: string)
    requires w !in holders
    ensures |HoldersOf(holders[w := peer], other)| == |HoldersOf(holders, other)| + if other == peer then 1 else 0
  {
    assert HoldersOf(holders[w := peer], other)
        == if other == peer then HoldersOf(holders, other) + {w} else HoldersOf(holders, other);
  }

  lemma HoldersDrop(holders: map<nat, string>, w: nat, other: string)
    requires w in holders
    ensures |HoldersOf(holders - {w}, other)| == |HoldersOf(holders, other)| - if other == holders[w] then 1 else 0
  {
    assert HoldersOf(holders - {w}, other) == HoldersOf(holders, other) - {w};
  }

  /** A counter that lapses by then. */
  predicate Lapses(r: Redis, seconds: nat, peer: string) {
    r.GetLoad(peer).Some? && r.Later(seconds).GetLoad(peer).None?
  }

  lemma LaterCounter(r: Redis, seconds: nat, peer: string)
    ensures Counter(r.Later(seconds), peer) == if Lapses(r, seconds, peer) then 0 else Counter(r, peer)
  {
  }

  /** A registration does not take the key of a counter that is in use. */
  ghost predicate Harmless(r: Redis, m: Move) {
    m.Tracker? && m.op.Register? ==> forall peer :: m.op.peer.peerId == LoadName(peer) ==> Counter(r, peer) == 0
  }

  /** Every move but time keeps the balance, unless a registration takes the key of a counter that is in use. */
  lemma MoveBalanced(l: Ledger, m: Move)
    requires Balanced(l.redis, l.holders, l.leaked) && Allowed(l, m) && !m.Time? && Harmless(l.redis, m)
    ensures Balanced(Next(l, m).redis, Next(l, m).holders, Next(l, m).leaked)
  {
    var t := Next(l, m);
    forall peer
      ensures Counter(t.redis, peer) == |HoldersOf(t.holders, peer)| + Leaks(t.leaked, peer)
    {
      match m
      case Reserved(w, p) =>
        ReserveCounts(l.redis, p, peer);
        HoldersAdd(l.holders, w, p, peer);
      case ReplyLost(p) => ReserveCounts(l.redis, p, peer);
      case NotReserved =>
      case Released(w) =>
        HolderCounted(l, w);
        ReleaseCounts(l.redis, l.holders[w], peer);
        HoldersDrop(l.holders, w, peer);
      case ReleaseLost(w) => HoldersDrop(l.holders, w, peer);
      case Tracker(op) =>
        if op.Register? {
          RegisterCounts(l.redis, op.peer, peer);
        } else {
          TrackerKeepsCounters(l.redis, op, peer);
        }
    }
  }

  /** A worker that holds a reservation finds the counter positive, so its release is never clamped. */
  lemma HolderCounted(l: Ledger, w: nat)
    requires Balanced(l.redis, l.holders, l.leaked) && w in l.holders
    ensures Counter(l.redis, l.holders[w]) >= 1 && l.redis.GetLoad(l.holders[w]).Some?
  {
    assert w in HoldersOf(l.holders, l.holders[w]);
    SubsetCard({w}, HoldersOf(l.holders, l.holders[w]));
  }

  /** The passing of time keeps the counters in balance, with some number of leaks, exactly when no counter
      lapses under an outstanding reservation. */
  lemma TimeBalancedIff(l: Ledger, seconds: nat)
    requires Balanced(l.redis, l.holders, l.leaked)
    ensures (exists leaked :: Balanced(l.redis.Later(seconds), l.holders, leaked))
            <==> forall peer :: Lapses(l.redis, seconds, peer) ==> HoldersOf(l.holders, peer) == {}
  {
    var later := l.redis.Later(seconds);
    if forall peer :: Lapses(l.redis, seconds, peer) ==> HoldersOf(l.holders, peer) == {} {
      TimeBalanced(l, seconds);
      assert Balanced(later, l.holders, StillLeaked(later, l.leaked));
    } else {
      var peer :| Lapses(l.redis, seconds, peer) && HoldersOf(l.holders, peer) != {};
      assert Counter(later, peer) == 0;
    }
  }

  lemma TimeBalanced(l: Ledger, seconds: nat)
    requires Balanced(l.redis, l.holders, l.leaked)
    requires forall peer :: Lapses(l.redis, seconds, peer) ==> HoldersOf(l.holders, peer) == {}
    ensures Balanced(Next(l, Time(seconds)).redis, Next(l, Time(seconds)).holders, Next(l, Time(seconds)).leaked)
  {
    var later := l.redis.Later(seconds);
    forall peer
      ensures Counter(later, peer) == |HoldersOf(l.holders, peer)| + Leaks(StillLeaked(later, l.leaked), peer)
    {
      LaterCounter(l.redis, seconds, peer);
      assert Counter(l.redis, peer) == |HoldersOf(l.holders, peer)| + Leaks(l.leaked, peer);
    }
  }

  // ---------- runs ----------

  /** No counter lapses under an outstanding reservation. */
  ghost predicate KeepsReservations(l: Ledger, m: Move) {
    m.Time? ==> forall peer :: Lapses(l.redis, m.seconds, peer) ==> HoldersOf(l.holders, peer) == {}
  }

  /** Each move is allowed in turn, and no counter lapses under an outstanding reservation. */
  ghost predicate Possible(l: Ledger, moves: seq<Move>)
    decreases |moves|
  {
    moves == [] ||
    (Allowed(l, moves[0]) && KeepsReservations(l, moves[0]) && Possible(Next(l, moves[0]), moves[1..]))
  }

  ghost function Run(l: Ledger, moves: seq<Move>): Ledger
    requires Possible(l, moves)
    decreases |moves|
  {
    if moves == [] then l else Run(Next(l, moves[0]), moves[1..])
  }

  /** The peers a move is about. */
  function AboutMove(m: Move): set<string> {
    match m
    case Reserved(_, peer) => {peer}
    case ReplyLost(peer) => {peer}
    case Tracker(op) => About(op)
    case NotReserved => {}
    case Released(_) => {}
    case ReleaseLost(_) => {}
    case Time(_) => {}
  }

  ghost predicate MovesOver(ids: set<string>, moves: seq<Move>) {
    forall k :: 0 <= k < |moves| ==> AboutMove(moves[k]) <= ids
  }

  /** Reservations are only held, and only leaked, at these peers. */
  ghost predicate Known(l: Ledger, ids: set<string>) {
    (forall w :: w in l.holders ==> l.holders[w] in ids) && forall peer :: peer in l.leaked ==> peer in ids
  }

  lemma KnownIsHarmless(l: Ledger, ids: set<string>, m: Move)
    requires Balanced(l.redis, l.holders, l.leaked) && Known(l, ids) && Apart(ids) && AboutMove(m) <= ids
    ensures Harmless(l.redis, m)
  {
    if m.Tracker? && m.op.Register? {
      assert m.op.peer.peerId in ids;
      forall peer | m.op.peer.peerId == LoadName(peer)
        ensures Counter(l.redis, peer) == 0
      {
        assert peer !in ids;
        assert HoldersOf(l.holders, peer) == {};
      }
    }
  }

  lemma KnownMove(l: Ledger, ids: set<string>, m: Move)
    requires Balanced(l.redis, l.holders, l.leaked) && Known(l, ids) && Apart(ids)
    requires Allowed(l, m) && KeepsReservations(l, m) && AboutMove(m) <= ids
    ensures Balanced(Next(l, m).redis, Next(l, m).holders, Next(l, m).leaked) && Known(Next(l, m), ids)
  {
    KnownIsHarmless(l, ids, m);
    if m.Time? {
      TimeBalanced(l, m.seconds);
    } else {
      MoveBalanced(l, m);
    }
  }

  lemma {:induction false} RunBalanced(l: Ledger, ids: set<string>, moves: seq<Move>)
    requires Balanced(l.redis, l.holders, l.leaked) && Possible(l, moves)
    requires Known(l, ids) && Apart(ids) && MovesOver(ids, moves)
    ensures Balanced(Run(l, moves).redis, Run(l, moves).holders, Run(l, moves).leaked)
    decreases |moves|
  {
    if moves != [] {
      KnownMove(l, ids, moves[0]);
      RunBalanced(Next(l, moves[0]), ids, moves[1..]);
    }
  }

  function Begin(now: int): Ledger {
    Ledger(Empty(now), map[], map[])
  }

  lemma BeginBalanced(now: int)
    ensures Balanced(Begin(now).redis, Begin(now).holders, Begin(now).leaked)
  {
    forall p
      ensures HoldersOf(Begin(now).holders, p) == {}
    {
    }
  }

  /**
   Over every such run from an empty store: a peer's counter is its outstanding reservations and its leaked ones,
   never negative, and the release of a held reservation is applied and takes exactly one off.
   */
  lemma LoadConserved(now: int, ids: set<string>, moves: seq<Move>, peer: string)
    requires Possible(Begin(now), moves) && MovesOver(ids, moves) && Apart(ids)
    ensures var l := Run(Begin(now), moves);
            Counter(l.redis, peer) == |HoldersOf(l.holders, peer)| + Leaks(l.leaked, peer) >= 0
    ensures var l := Run(Begin(now), moves);
            forall w :: w in l.holders && l.holders[w] == peer ==>
              Allowed(l, Released(w)) && Counter(Release(l.redis, peer), peer) == Counter(l.redis, peer) - 1
  {
    BeginBalanced(now);
    RunBalanced(Begin(now), ids, moves);
    var l := Run(Begin(now), moves);
    forall w | w in l.holders && l.holders[w] == peer
      ensures Allowed(l, Released(w)) && Counter(Release(l.redis, peer), peer) == Counter(l.redis, peer) - 1
    {
      HolderCounted(l, w);
      ReleaseCounts(l.redis, peer, peer);
    }
  }

  /** After the run, if it is possible, every counter is in balance. */
  ghost predicate Conserves(now: int, moves: seq<Move>) {
    Possible(Begin(now), moves) ==>
      var l := Run(Begin(now), moves); Balanced(l.redis, l.holders, l.leaked)
  }

  /** Every run on these peers conserves the load exactly when no peer's id is the name of another one's counter. */
  lemma LoadConservedIff(ids: set<string>)
    ensures (forall now, moves :: MovesOver(ids, moves) ==> Conserves(now, moves)) <==> Apart(ids)
  {
    if Apart(ids) {
      forall now, moves | MovesOver(ids, moves)
        ensures Conserves(now, moves)
      {
        if Possible(Begin(now), moves) {
          BeginBalanced(now);
          RunBalanced(Begin(now), ids, moves);
        }
      }
    } else {
      var a, b :| a in ids && b in ids && a == LoadName(b);
      CounterOverwritten(a, b);
      assert MovesOver(ids, OverwritingRun(a, b));
      assert !Conserves(1, OverwritingRun(a, b));
    }
  }

  /** A worker reserves at `b`, and `a` registers. */
  function OverwritingRun(a: string, b: string): seq<Move> {
    [Reserved(0, b), Tracker(Register(Peer(a, [])))]
  }

  lemma TwoMoves(l: Ledger, m: Move, n: Move)
    requires !m.Time? && Allowed(l, m) && !n.Time? && Allowed(Next(l, m), n)
    ensures Possible(l, [m, n]) && Run(l, [m, n]) == Next(Next(l, m), n)
  {
    assert [m, n][1..] == [n] && [n][1..] == [];
    assert Possible(Next(Next(l, m), n), []);
    assert Possible(Next(l, m), [n]) && Run(Next(l, m), [n]) == Next(Next(l, m), n);
  }

  /** Where `b`'s counter has the key of `a`'s record, `a`'s registration takes the reservation at `b` away. */
  lemma CounterOverwritten(a: string, b: string)
    requires a == LoadName(b)
    ensures !Conserves(1, OverwritingRun(a, b))
  {
    var l := Next(Begin(1), Reserved(0, b));
    var m := Tracker(Register(Peer(a, [])));
    TwoMoves(Begin(1), Reserved(0, b), m);
    var t := Next(l, m);
    RegisterCounts(l.redis, Peer(a, []), b);
    assert t.holders == map[0 := b];
    assert 0 in HoldersOf(t.holders, b);
    assert Counter(t.redis, b) == 0;
  }

  /** A reservation is held for twenty seconds in which nobody renews the counter. */
  lemma ReservationLapses(now: int, peer: string)
    ensures var l := Next(Next(Begin(now), Reserved(0, peer)), Time(20));
            Counter(l.redis, peer) == 0 && 0 in HoldersOf(l.holders, peer)
            && forall leaked :: !Balanced(l.redis, l.holders, leaked)
  {
    var l := Next(Next(Begin(now), Reserved(0, peer)), Time(20));
    forall leaked
      ensures !Balanced(l.redis, l.holders, leaked)
    {
      assert Counter(l.redis, peer) == 0 && 0 in HoldersOf(l.holders, peer);
    }
  }
}
