/** One worker's way through the peers for one chunk, among all that the others do. */
module Attempts {
  import opened Engine
  import EngineProgress
  import PeerList

  /** One attempt: its number, whether load was granted, and whether the chunk was delivered. */
  datatype Visit = Visit(attempt: nat, granted: bool, delivered: bool)

  predicate Served(v: Visit) {
    v.granted && v.delivered
  }

  predicate NoneServed(log: seq<Visit>) {
    forall i :: 0 <= i < |log| ==> !Served(log[i])
  }

  /** The attempt that a worker's step brings to its end, if any. */
  function Ends(p: Phase, choice: Choice): seq<Visit> {
    if p.Trying? && choice == Reserve(false) then [Visit(p.attempt, false, false)]
    else if p.Releasing? then [Visit(p.attempt, true, p.ok)]
    else []
  }

  /** The attempts that a worker brings to their end in a schedule. */
  function Log(j: Job, s: State, w: nat, actions: seq<Action>): seq<Visit>
    requires w < |s.workers| && Possible(j, s, actions)
    decreases |actions|
  {
    if actions == [] then []
    else
      var a := actions[0];
      (if a.worker == w then Ends(s.workers[w], a.choice) else [])
      + Log(j, Next(j, s, a.worker, a.choice), w, actions[1..])
  }

  predicate OnChunk(p: Phase) {
    p.Claimed? || p.InPeerLoop()
  }

  /** The worker takes no step that does not belong to the attempts for its chunk. */
  predicate StaysOnChunk(j: Job, s: State, w: nat, actions: seq<Action>)
    requires w < |s.workers| && Possible(j, s, actions)
    decreases |actions|
  {
    actions == [] ||
    ((actions[0].worker == w ==> OnChunk(s.workers[w]))
     && StaysOnChunk(j, Next(j, s, actions[0].worker, actions[0].choice), w, actions[1..]))
  }

  /** The number of the attempt that the worker makes, or makes first. */
  function Number(p: Phase): nat
    requires OnChunk(p)
  {
    if p.Claimed? then 0 else p.attempt
  }

  /** There is a peer for the attempt, or it was the last. */
  predicate Fits(j: Job, p: Phase) {
    p.InPeerLoop() ==> if p.Trying? then p.attempt <= j.peers else p.attempt < j.peers
  }

  /** The attempts are numbered one after another. */
  predicate Numbered(log: seq<Visit>, first: nat) {
    forall i :: 0 <= i < |log| ==> log[i].attempt == first + i
  }

  /** The log ends with the first attempt that served, or all attempts up to the last peer failed. */
  predicate Settled(j: Job, log: seq<Visit>, first: nat, ok: bool) {
    if ok then log != [] && Served(log[|log| - 1]) && NoneServed(log[..|log| - 1]) && first + |log| <= j.peers
    else NoneServed(log) && first + |log| == j.peers
  }

  /** What the worker went through between two phases on the same chunk. */
  predicate Went(j: Job, p: Phase, q: Phase, log: seq<Visit>) {
    if OnChunk(p) then
      && (OnChunk(q) || q.Finishing?) && q.chunk == p.chunk && Numbered(log, Number(p)) && Fits(j, q)
      && (if q.Finishing? then Settled(j, log, Number(p), q.ok)
          else NoneServed(log) && Number(p) + |log| == Number(q))
    else q == p && log == []
  }

  lemma StepOfAttempt(j: Job, s: State, w: nat, choice: Choice)
    requires Enabled(j, s, w, choice) && Fits(j, s.workers[w])
    requires s.workers[w].Reserved? || s.workers[w].Reading? || s.workers[w].Receiving?
    ensures var p, q := s.workers[w], Next(j, s, w, choice).workers[w];
            (q.Reading? || q.Receiving? || q.Releasing?) && q.chunk == p.chunk && q.attempt == p.attempt
  {
    var p := s.workers[w];
    if p.Reading? && choice.Recv? {
      assert Next(j, s, w, choice) == HeaderPiece(s, w, p, choice.count);
    }
  }

  /** A refused reservation and a failed delivery lead to the next attempt, and no peer left to failure. */
  lemma StepBetween(j: Job, s: State, w: nat, choice: Choice)
    requires Enabled(j, s, w, choice) && Fits(j, s.workers[w])
    requires s.workers[w].Claimed? || s.workers[w].Trying? || s.workers[w].Releasing?
    ensures var p, q := s.workers[w], Next(j, s, w, choice).workers[w];
            q == match p
                 case Claimed(c) => Trying(c, 0)
                 case Trying(c, a) =>
                   if a == j.peers then Finishing(c, false)
                   else if choice == Reserve(true) then Reserved(c, a) else Trying(c, a + 1)
                 case Releasing(c, a, ok) => if ok then Finishing(c, true) else Trying(c, a + 1)
                 case _ => q
  {
  }

  /** One step of the worker itself. */
  lemma OwnStep(j: Job, s: State, w: nat, choice: Choice)
    requires Enabled(j, s, w, choice) && OnChunk(s.workers[w]) && Fits(j, s.workers[w])
    ensures Went(j, s.workers[w], Next(j, s, w, choice).workers[w], Ends(s.workers[w], choice))
  {
    var p := s.workers[w];
    if p.Claimed? || p.Trying? || p.Releasing? {
      StepBetween(j, s, w, choice);
    } else {
      StepOfAttempt(j, s, w, choice);
    }
  }

  lemma WentOn(j: Job, p: Phase, q: Phase, r: Phase, a: seq<Visit>, b: seq<Visit>)
    requires OnChunk(p) && Went(j, p, q, a) && Went(j, q, r, b)
    ensures Went(j, p, r, a + b)
  {
    if OnChunk(q) {
      if r.Finishing? && r.ok {
        assert (a + b)[..|a + b| - 1] == a + b[..|b| - 1];
      }
    } else {
      assert a + b == a;
    }
  }

  lemma LogOneMore(j: Job, s: State, w: nat, actions: seq<Action>, t: State)
    requires actions != [] && w < |s.workers| && Possible(j, s, actions)
    requires t == Next(j, s, actions[0].worker, actions[0].choice)
    ensures Possible(j, t, actions[1..]) && Run(j, s, actions) == Run(j, t, actions[1..])
    ensures Log(j, s, w, actions)
            == (if actions[0].worker == w then Ends(s.workers[w], actions[0].choice) else [])
               + Log(j, t, w, actions[1..])
  {
  }

  /**
   In any schedule, whatever the others do meanwhile: from the claim of a chunk on a worker makes attempts 0, 1, 2
   and so on, one after another; it finishes with success behind the first that is granted and delivers, and with
   failure only behind as many as there are peers.
   */
  lemma {:induction false} AttemptsInOrder(j: Job, s: State, w: nat, actions: seq<Action>)
    requires w < |s.workers| && Possible(j, s, actions) && StaysOnChunk(j, s, w, actions)
    requires (OnChunk(s.workers[w]) || s.workers[w].Finishing?) && Fits(j, s.workers[w])
    ensures w < |Run(j, s, actions).workers|
    ensures Went(j, s.workers[w], Run(j, s, actions).workers[w], Log(j, s, w, actions))
    decreases |actions|
  {
    if actions != [] {
      var v, choice := actions[0].worker, actions[0].choice;
      var t := Next(j, s, v, choice);
      LogOneMore(j, s, w, actions, t);
      if v == w {
        OwnStep(j, s, w, choice);
        AttemptsInOrder(j, t, w, actions[1..]);
        WentOn(j, s.workers[w], t.workers[w], Run(j, s, actions).workers[w], Ends(s.workers[w], choice),
               Log(j, t, w, actions[1..]));
      } else {
        AttemptsInOrder(j, t, w, actions[1..]);
        assert [] + Log(j, t, w, actions[1..]) == Log(j, t, w, actions[1..]);
      }
    }
  }

  /** What the network answers lets a worker in the peer loop go on. */
  ghost predicate Answers(j: Job, net: Phase -> Choice) {
    forall s: State, w: nat :: w < |s.workers| && s.workers[w].InPeerLoop() ==> Enabled(j, s, w, net(s.workers[w]))
  }

  /** Whatever the network does, a worker in the peer loop needs nobody else to get through with its chunk. */
  lemma {:induction false} ReachesFinish(j: Job, s: State, w: nat, net: Phase -> Choice) returns (actions: seq<Action>)
    requires w < |s.workers| && s.workers[w].InPeerLoop() && Answers(j, net)
    ensures Possible(j, s, actions) && StaysOnChunk(j, s, w, actions)
    ensures forall k :: 0 <= k < |actions| ==> actions[k].worker == w
    ensures w < |Run(j, s, actions).workers| && Run(j, s, actions).workers[w].Finishing?
    decreases EngineProgress.Rank(j, s.workers[w]), EngineProgress.Unread(s.workers[w])
  {
    var choice := net(s.workers[w]);
    var t := Next(j, s, w, choice);
    EngineProgress.RankStep(j, s, w, choice);
    assert t == PeerLoopStep(j, s, w, choice);
    var rest := [];
    if t.workers[w].InPeerLoop() {
      rest := ReachesFinish(j, t, w, net);
    }
    actions := [Action(w, choice)] + rest;
    assert actions[1..] == rest;
  }

  // ---------- the ring ----------

  /** The attempts go as the table of peers says. */
  predicate AsGiven(peers: PeerList.Peers, n: nat, c: int, log: seq<Visit>)
    requires n > 0 && n == |peers.grants| == |peers.delivers|
  {
    forall i :: 0 <= i < |log| ==>
      log[i].granted == peers.grants[(c + log[i].attempt) % n]
      && (log[i].granted ==> log[i].delivered == peers.delivers[(c + log[i].attempt) % n])
  }

  /** The peers that the attempts of a log went to. */
  function Places(n: nat, c: nat, log: seq<Visit>): seq<nat>
    requires n > 0
  {
    seq(|log|, i requires 0 <= i < |log| => (c + log[i].attempt) % n)
  }

  lemma FirstServedIsLast(log: seq<Visit>)
    requires log != []
    ensures |log| > 1 && Served(log[0]) ==> !NoneServed(log[..|log| - 1])
  {
    if |log| > 1 && Served(log[0]) {
      assert log[..|log| - 1][0] == log[0];
    }
  }

  /** The rest of a settled log whose first attempt did not serve. */
  lemma SettledRest(j: Job, log: seq<Visit>, a: nat, ok: bool)
    requires log != [] && Settled(j, log, a, ok) && Numbered(log, a) && !Served(log[0])
    ensures Settled(j, log[1..], a + 1, ok) && Numbered(log[1..], a + 1)
  {
    if ok {
      assert log[1..][..|log| - 2] == log[..|log| - 1][1..];
    }
  }

  lemma GivenRest(peers: PeerList.Peers, n: nat, c: nat, a: nat, log: seq<Visit>)
    requires n > 0 && n == |peers.grants| == |peers.delivers| && log != [] && log[0].attempt == a
    requires AsGiven(peers, n, c, log)
    ensures AsGiven(peers, n, c, log[1..])
    ensures Places(n, c, log) == [PeerList.RingPeer(c, a, n)] + Places(n, c, log[1..])
    ensures var p := PeerList.RingPeer(c, a, n);
            log[0].granted == peers.grants[p] && (log[0].granted ==> log[0].delivered == peers.delivers[p])
  {
  }

  /** One attempt in the ring. */
  lemma RingFirst(peers: PeerList.Peers, n: nat, c: nat, a: nat, p: nat)
    requires a < n && n == |peers.grants| == |peers.delivers| && p == PeerList.RingPeer(c, a, n)
    ensures var (ok, t), (ok', t') := PeerList.RingFrom(peers, n, c, a), PeerList.RingFrom(peers, n, c, a + 1);
            if peers.grants[p] && peers.delivers[p] then ok && t.visited == [p]
            else ok == ok' && t.visited == [p] + t'.visited
  {
  }

  lemma {:induction false} LogIsRing(j: Job, peers: PeerList.Peers, c: nat, a: nat, log: seq<Visit>, ok: bool)
    requires j.peers > 0 && j.peers == |peers.grants| == |peers.delivers|
    requires Numbered(log, a) && Settled(j, log, a, ok) && AsGiven(peers, j.peers, c, log)
    ensures PeerList.RingFrom(peers, j.peers, c, a).0 == ok
    ensures PeerList.RingFrom(peers, j.peers, c, a).1.visited == Places(j.peers, c, log)
    decreases |log|
  {
    if log != [] {
      GivenRest(peers, j.peers, c, a, log);
      RingFirst(peers, j.peers, c, a, PeerList.RingPeer(c, a, j.peers));
      FirstServedIsLast(log);
      if Served(log[0]) {
        assert log[1..] == [] && Places(j.peers, c, log[1..]) == [];
      } else {
        SettledRest(j, log, a, ok);
        LogIsRing(j, peers, c, a + 1, log[1..], ok);
      }
    }
  }

  /**
   With what each peer grants and delivers given: a worker that claimed a chunk and is through with it has asked the
   peers in ring order from the chunk's own one on, and has the chunk exactly when some peer grants and delivers; when
   it has not, it has asked every peer.
   */
  lemma FailoverIff(j: Job, peers: PeerList.Peers, s: State, w: nat, actions: seq<Action>, c: nat, ok: bool)
    requires j.peers > 0 && j.peers == |peers.grants| == |peers.delivers|
    requires w < |s.workers| && s.workers[w] == Claimed(c)
    requires Possible(j, s, actions) && StaysOnChunk(j, s, w, actions)
    requires w < |Run(j, s, actions).workers| && Run(j, s, actions).workers[w] == Finishing(c, ok)
    requires AsGiven(peers, j.peers, c, Log(j, s, w, actions))
    ensures ok <==> exists p: nat :: p < j.peers && PeerList.Serves(peers, p)
    ensures var log := Log(j, s, w, actions);
            && PeerList.GoesRound(Places(j.peers, c, log), c, j.peers)
            && (forall i :: 0 <= i < |log| ==> log[i].attempt == i) && (!ok ==> |log| == j.peers)
  {
    AttemptsInOrder(j, s, w, actions);
    var log := Log(j, s, w, actions);
    LogIsRing(j, peers, c, 0, log, ok);
    PeerList.RingSucceedsIff(peers, j.peers, c);
    PeerList.VisitsGoRound(peers, j.peers, c);
  }
}
