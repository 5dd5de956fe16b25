/** The parallel download never gets stuck, and ends when chunk attempts stop failing. */
module EngineProgress {
  import opened Engine
  import opened EngineSafety

  // ---------- no deadlock ----------

  /** A step that worker `w` can take now, whatever the network does next. */
  function SomeChoice(j: Job, p: Phase): Choice {
    match p
    case Trying(_, attempt) => if attempt < j.peers then Reserve(false) else Go
    case Reserved(_, _) => NoConnection
    case Reading(_, _, _, _) => RecvEnds
    case Receiving(_, _, _, _, remaining, _) => if remaining == 0 then Go else RecvEnds
    case _ => Go
  }

  /** As long as some worker has not returned, some worker can take a step: the mutex never blocks all of them. */
  lemma NeverStuck(j: Job, s: State)
    requires !AllReturned(s)
    ensures exists w :: 0 <= w < |s.workers| && Enabled(j, s, w, SomeChoice(j, s.workers[w]))
  {
    if s.LockFree() {
      var w :| 0 <= w < |s.workers| && !s.workers[w].Returned?;
      assert Enabled(j, s, w, SomeChoice(j, s.workers[w]));
    } else {
      var w :| 0 <= w < |s.workers| && s.workers[w].Locked();
      assert Enabled(j, s, w, SomeChoice(j, s.workers[w]));
    }
  }

  // ---------- the measure ----------

  /** How many more peers the loop can try behind this attempt. */
  function PeersBehind(j: Job, attempt: nat): nat {
    if attempt < j.peers then j.peers - attempt - 1 else 0
  }

  /** How far a worker is from the end of its work on the present chunk. */
  function Rank(j: Job, p: Phase): nat {
    match p
    case Saving => 6 * j.peers + 6
    case Idle => 6 * j.peers + 5
    case Claimed(_) => 6 * j.peers + 4
    case Trying(_, attempt) => if attempt < j.peers then 6 * PeersBehind(j, attempt) + 9 else 3
    case Reserved(_, attempt) => 6 * PeersBehind(j, attempt) + 7
    case Reading(_, attempt, _, _) => 6 * PeersBehind(j, attempt) + 6
    case Receiving(_, attempt, _, _, _, _) => 6 * PeersBehind(j, attempt) + 5
    case Releasing(_, attempt, _) => 6 * PeersBehind(j, attempt) + 4
    case Finishing(_, _) => 2
    case Marking(_, _) => 1
    case Returned => 0
  }

  /** The bytes a worker's connection can still deliver. */
  function Unread(p: Phase): nat {
    if p.Reading? || p.Receiving? then |p.unread| else 0
  }

  function RankOf(j: Job): Phase -> nat {
    p => Rank(j, p)
  }

  function UnreadOf(): Phase -> nat {
    p => Unread(p)
  }

  function Sum(f: Phase -> nat, ps: seq<Phase>): nat {
    if ps == [] then 0 else f(ps[0]) + Sum(f, ps[1..])
  }

  lemma {:induction false} SumUpdate(f: Phase -> nat, ps: seq<Phase>, w: nat, p: Phase)
    requires w < |ps|
    ensures Sum(f, ps[w := p]) + f(ps[w]) == Sum(f, ps) + f(p)
  {
    if w == 0 {
      assert ps[w := p][1..] == ps[1..];
    } else {
      assert ps[w := p][1..] == ps[1..][w - 1 := p];
      SumUpdate(f, ps[1..], w - 1, p);
    }
  }

  /** Failures still allowed and chunks still undone. */
  ghost function WorkLeft(j: Job, s: State, bound: nat): nat
    requires Shape(j, s) && s.failures <= bound
  {
    bound - s.failures + |Undone(j, s)|
  }

  /** The lexicographic order on work left, sum of ranks, bytes unread. */
  ghost predicate Drops(j: Job, s: State, t: State, bound: nat)
    requires Shape(j, s) && Shape(j, t) && s.failures <= bound && t.failures <= bound
  {
    || WorkLeft(j, t, bound) < WorkLeft(j, s, bound)
    || (WorkLeft(j, t, bound) == WorkLeft(j, s, bound) && Sum(RankOf(j), t.workers) < Sum(RankOf(j), s.workers))
    || (WorkLeft(j, t, bound) == WorkLeft(j, s, bound) && Sum(RankOf(j), t.workers) == Sum(RankOf(j), s.workers)
        && Sum(UnreadOf(), t.workers) < Sum(UnreadOf(), s.workers))
  }

  predicate RankDrops(j: Job, p: Phase, q: Phase) {
    Rank(j, q) < Rank(j, p) || (Rank(j, q) == Rank(j, p) && Unread(q) < Unread(p))
  }

  /** While reading the header a worker goes on reading with fewer bytes unread, or further down the loop. */
  lemma HeaderPieceMoves(s: State, w: nat, p: Phase, count: nat)
    requires w < |s.workers| && p.Reading? && 0 < count <= |p.unread|
    ensures var q := HeaderPiece(s, w, p, count).workers[w];
            (q.Releasing? || q.Receiving? || (q.Reading? && |q.unread| < |p.unread|)) && q.attempt == p.attempt
  {
  }

  lemma RankPiece(j: Job, p: Phase, q: Phase)
    requires p.Reading? && (q.Releasing? || q.Receiving? || (q.Reading? && |q.unread| < |p.unread|))
    requires q.attempt == p.attempt
    ensures RankDrops(j, p, q)
  {
  }

  lemma RankReading(j: Job, s: State, w: nat, choice: Choice)
    requires Enabled(j, s, w, choice) && s.workers[w].Reading?
    ensures RankDrops(j, s.workers[w], Next(j, s, w, choice).workers[w])
  {
    var p := s.workers[w];
    assert Next(j, s, w, choice) == PeerLoopStep(j, s, w, choice);
    if choice.Recv? {
      HeaderPieceMoves(s, w, p, choice.count);
      RankPiece(j, p, HeaderPiece(s, w, p, choice.count).workers[w]);
    } else {
      RankPiece(j, p, Releasing(p.chunk, p.attempt, false));
    }
  }

  lemma RankReceiving(j: Job, s: State, w: nat, choice: Choice)
    requires Enabled(j, s, w, choice) && s.workers[w].Receiving?
    ensures RankDrops(j, s.workers[w], Next(j, s, w, choice).workers[w])
  {
  }

  lemma RankTrying(j: Job, s: State, w: nat, choice: Choice)
    requires Enabled(j, s, w, choice)
    requires s.workers[w].Trying? || s.workers[w].Reserved? || s.workers[w].Releasing?
    ensures RankDrops(j, s.workers[w], Next(j, s, w, choice).workers[w])
  {
  }

  lemma RankElsewhere(j: Job, s: State, w: nat, choice: Choice)
    requires Enabled(j, s, w, choice)
    requires var p := s.workers[w]; p.Idle? || p.Claimed? || p.Finishing? || p.Saving?
    ensures RankDrops(j, s.workers[w], Next(j, s, w, choice).workers[w])
  {
  }

  /** Except for telling the scheduler, a step lowers the worker's rank, or its unread bytes at the same rank. */
  lemma RankStep(j: Job, s: State, w: nat, choice: Choice)
    requires Enabled(j, s, w, choice) && !s.workers[w].Marking?
    ensures RankDrops(j, s.workers[w], Next(j, s, w, choice).workers[w])
  {
    var p := s.workers[w];
    if p.Reading? {
      RankReading(j, s, w, choice);
    } else if p.Receiving? {
      RankReceiving(j, s, w, choice);
    } else if p.Trying? || p.Reserved? || p.Releasing? {
      RankTrying(j, s, w, choice);
    } else {
      RankElsewhere(j, s, w, choice);
    }
  }

  lemma OnlyThisWorker(j: Job, s: State, w: nat, choice: Choice)
    requires Enabled(j, s, w, choice) && !s.workers[w].Marking?
    ensures var t := Next(j, s, w, choice); t.sched.done == s.sched.done && t.failures == s.failures
  {
  }

  /** Telling the scheduler makes one chunk done, or spends one failure. */
  lemma TellStep(j: Job, s: State, w: nat, choice: Choice)
    requires Shape(j, s) && Claims(j, s) && Enabled(j, s, w, choice) && s.workers[w].Marking?
    ensures var t := Next(j, s, w, choice);
            Shape(j, t) && if s.workers[w].ok then |Undone(j, t)| < |Undone(j, s)| && t.failures == s.failures
                           else |Undone(j, t)| == |Undone(j, s)| && t.failures == s.failures + 1
  {
    var t := Next(j, s, w, choice);
    ShapeKept(j, s, w, choice);
    var c := s.workers[w].chunk;
    if s.workers[w].ok {
      assert c in Undone(j, s);
      assert Undone(j, t) == Undone(j, s) - {c};
    } else {
      assert Undone(j, t) == Undone(j, s);
    }
  }

  /** Every step of every worker lowers the measure. */
  lemma StepDrops(j: Job, s: State, w: nat, choice: Choice, bound: nat)
    requires Inv(j, s) && Enabled(j, s, w, choice) && Next(j, s, w, choice).failures <= bound
    ensures Shape(j, Next(j, s, w, choice)) && s.failures <= bound
    ensures Drops(j, s, Next(j, s, w, choice), bound)
  {
    var t := Next(j, s, w, choice);
    ShapeKept(j, s, w, choice);
    if s.workers[w].Marking? {
      TellStep(j, s, w, choice);
    } else {
      RankStep(j, s, w, choice);
      OnlyThisWorker(j, s, w, choice);
      assert Undone(j, t) == Undone(j, s);
      SumUpdate(RankOf(j), s.workers, w, t.workers[w]);
      SumUpdate(UnreadOf(), s.workers, w, t.workers[w]);
    }
  }

  // ---------- every schedule ends ----------

  /** The state after `k` steps of an endless schedule; where a step is impossible, nothing happens. */
  function At(j: Job, s: State, schedule: nat -> Action, k: nat): State {
    if k == 0 then s
    else
      var t, a := At(j, s, schedule, k - 1), schedule(k - 1);
      if Enabled(j, t, a.worker, a.choice) then Next(j, t, a.worker, a.choice) else t
  }

  /** At step `k` the schedule asks for something impossible, or for one failure too many. */
  predicate Ends(j: Job, s: State, schedule: nat -> Action, bound: nat, k: nat) {
    !Enabled(j, At(j, s, schedule, k), schedule(k).worker, schedule(k).choice)
    || At(j, s, schedule, k + 1).failures > bound
  }

  lemma {:induction false} EndsFrom(j: Job, s: State, schedule: nat -> Action, bound: nat, k: nat) returns (end: nat)
    requires Inv(j, At(j, s, schedule, k)) && At(j, s, schedule, k).failures <= bound
    ensures end >= k && Ends(j, s, schedule, bound, end)
    decreases WorkLeft(j, At(j, s, schedule, k), bound), Sum(RankOf(j), At(j, s, schedule, k).workers),
              Sum(UnreadOf(), At(j, s, schedule, k).workers)
  {
    end := k;
    if !Ends(j, s, schedule, bound, k) {
      var t, a := At(j, s, schedule, k), schedule(k);
      StepInv(j, t, a.worker, a.choice);
      StepDrops(j, t, a.worker, a.choice, bound);
      end := EndsFrom(j, s, schedule, bound, k + 1);
    }
  }

  /** With any bound on the number of failed chunk attempts, no schedule goes on for ever. */
  lemma EveryScheduleEnds(j: Job, s: State, schedule: nat -> Action, bound: nat)
    requires Inv(j, s)
    ensures exists k :: Ends(j, s, schedule, bound, k)
  {
    if s.failures > bound {
      FailuresGrow(j, s, schedule);
      assert Ends(j, s, schedule, bound, 0);
    } else {
      var k := EndsFrom(j, s, schedule, bound, 0);
    }
  }

  lemma FailuresGrow(j: Job, s: State, schedule: nat -> Action)
    ensures At(j, s, schedule, 1).failures >= s.failures
  {
    assert At(j, s, schedule, 0) == s;
  }
}
