/**
 The parallel download: worker tasks that share the scheduler, the status vector
 under the state mutex, the saved state file and the download directory.
 One step is one critical section, one call over the network, or one file write;
 any worker may take the next step.
 */
module Engine {
  import opened Options
  import opened Protocol
  import opened StateFile
  import opened Scheduling
  import opened Transfer

  /**
   What stays fixed during one download: the chunks that the peers hold of the
   file, how many usable peers there are, and the digest function.
   */
  datatype Job = Job(fileId: string, chunks: seq<string>, peers: nat, digest: string -> string) {
    function Total(): nat {
      |chunks|
    }
  }

  /** Where a worker is. Every phase but the first, `Saving` and `Returned` holds a claimed chunk. */
  datatype Phase =
    | Idle                                     // about to ask the scheduler for a chunk
    | Claimed(chunk: int)                      // about to enter the first critical section
    | Trying(chunk: int, attempt: nat)         // at the head of the peer loop
    | Reserved(chunk: int, attempt: nat)       // load reserved, about to connect
    | Reading(chunk: int, attempt: nat, accumulated: string, unread: string)  // reading the header line
    | Receiving(chunk: int, attempt: nat, size: nat, hash: string, remaining: nat, unread: string)
    | Releasing(chunk: int, attempt: nat, ok: bool)  // about to release the load
    | Finishing(chunk: int, ok: bool)          // about to enter the second critical section
    | Marking(chunk: int, ok: bool)            // holds the state mutex, about to tell the scheduler
    | Saving                                   // holds the state mutex, about to save and unlock
    | Returned                                 // found no chunk to claim
  {
    predicate Busy() {
      !Idle? && !Saving? && !Returned?
    }

    predicate Locked() {
      Marking? || Saving?
    }

    predicate InPeerLoop() {
      Trying? || Reserved? || Reading? || Receiving? || Releasing?
    }
  }

  /** The size and digest that the accepted header of a finished chunk file announced. */
  datatype Receipt = Receipt(size: nat, hash: string)

  /**
   The shared state. `entered`, `receipts` and `failures` only record history: whether any critical
   section ran, what the accepted headers said, and how many chunk attempts failed.
   */
  datatype State = State(
    sched: Sched,
    status: seq<Status>,
    saved: Option<string>,
    entered: bool,
    downloads: map<int, string>,
    receipts: map<int, Receipt>,
    failures: nat,
    workers: seq<Phase>)
  {
    predicate LockFree() {
      forall w :: 0 <= w < |workers| ==> !workers[w].Locked()
    }

    function Move(w: nat, p: Phase): State
      requires w < |workers|
    {
      this.(workers := workers[w := p])
    }
  }

  /** What the environment decides where a step depends on it. */
  datatype Choice =
    | Go
    | Reserve(granted: bool)
    | Connect(stream: string)  // everything this connection will ever deliver
    | NoConnection             // refused, or the request could not be sent
    | Recv(count: nat)
    | RecvEnds                 // time-out, error or end of stream

  datatype Action = Action(worker: nat, choice: Choice)

  // ---------- the start of a download ----------

  /** Chunks count as done when the state file says so or a chunk file is in either directory. */
  predicate CountedDone(status: seq<Status>, downloads: map<int, string>, shared: map<int, string>, i: int)
    requires 0 <= i < |status|
  {
    status[i] == DONE || i in downloads || i in shared
  }

  function StartStatus(status: seq<Status>, downloads: map<int, string>, shared: map<int, string>): seq<Status> {
    seq(|status|, i requires 0 <= i < |status| => if CountedDone(status, downloads, shared, i) then DONE else status[i])
  }

  function StartSched(status: seq<Status>, downloads: map<int, string>, shared: map<int, string>): Sched {
    Sched(seq(|status|, i requires 0 <= i < |status| => CountedDone(status, downloads, shared, i)),
          seq(|status|, _ => false))
  }

  /** The loop that tells the scheduler which chunks are finished already. */
  method MarkFinishedChunks(chunkStatus: array<Status>, scheduler: ChunkScheduler,
                            downloads: map<int, string>, shared: map<int, string>)
    requires scheduler.Valid() && scheduler.totalChunks == chunkStatus.Length
    requires scheduler.View() == Sched(seq(chunkStatus.Length, _ => false), seq(chunkStatus.Length, _ => false))
    modifies chunkStatus, scheduler.done, scheduler.claimed
    ensures chunkStatus[..] == StartStatus(old(chunkStatus[..]), downloads, shared)
    ensures scheduler.View() == StartSched(old(chunkStatus[..]), downloads, shared)
  {
    ghost var loaded := chunkStatus[..];
    for i := 0 to chunkStatus.Length
      invariant forall k :: 0 <= k < i ==> chunkStatus[k] == StartStatus(loaded, downloads, shared)[k]
      invariant forall k :: i <= k < chunkStatus.Length ==> chunkStatus[k] == loaded[k]
      invariant forall k :: 0 <= k < chunkStatus.Length ==>
        scheduler.View().done[k] == (k < i && CountedDone(loaded, downloads, shared, k))
      invariant forall k :: 0 <= k < chunkStatus.Length ==> !scheduler.View().claimed[k]
    {
      if chunkStatus[i] == DONE || i in downloads || i in shared {
        chunkStatus[i] := DONE;
        scheduler.MarkDone(i);
      }
    }
  }

  /** What the files on disk at the start say about themselves. */
  function StartReceipts(j: Job, downloads: map<int, string>): map<int, Receipt> {
    map i | i in downloads :: Receipt(|downloads[i]|, j.digest(downloads[i]))
  }

  /** The state in which the worker tasks are handed to the pool. */
  function Start(j: Job, stateFile: Option<string>, downloads: map<int, string>, shared: map<int, string>,
                 workerCount: nat): State
  {
    var loaded := Load(stateFile, j.Total());
    State(StartSched(loaded, downloads, shared), StartStatus(loaded, downloads, shared), stateFile, false,
          downloads, StartReceipts(j, downloads), 0, seq(workerCount, _ => Idle))
  }

  // ---------- steps ----------

  predicate RecvAllowed(choice: Choice, unread: string, limit: nat) {
    choice.RecvEnds? || (choice.Recv? && 0 < choice.count <= limit && choice.count <= |unread|)
  }

  /** Which steps worker `w` can take: the mutex makes it wait, the network decides the rest. */
  predicate Enabled(j: Job, s: State, w: nat, choice: Choice) {
    w < |s.workers| &&
    match s.workers[w]
    case Idle => choice.Go?
    case Claimed(_) => choice.Go? && s.LockFree()
    case Trying(_, attempt) => if attempt < j.peers then choice.Reserve? else choice.Go?
    case Reserved(_, _) => choice.Connect? || choice.NoConnection?
    case Reading(_, _, _, unread) => RecvAllowed(choice, unread, TRANSFER_BUFFER)
    case Receiving(_, _, _, _, remaining, unread) =>
      if remaining == 0 then choice.Go? else RecvAllowed(choice, unread, Min(TRANSFER_BUFFER, remaining))
    case Releasing(_, _, _) => choice.Go?
    case Finishing(_, _) => choice.Go? && s.LockFree()
    case Marking(_, _) => choice.Go?
    case Saving => choice.Go?
    case Returned => false
  }

  function SetStatus(status: seq<Status>, i: int, value: Status): seq<Status> {
    if 0 <= i < |status| then status[i := value] else status
  }

  function FileText(s: State, c: int): string {
    if c in s.downloads then s.downloads[c] else ""
  }

  function AskScheduler(s: State, w: nat): State
    requires w < |s.workers|
  {
    var c := s.sched.NextChunk();
    if c == -1 then s.Move(w, Returned) else s.Move(w, Claimed(c)).(sched := s.sched.Claim(c))
  }

  function BeginChunk(s: State, w: nat, c: int): State
    requires w < |s.workers|
  {
    var status := SetStatus(s.status, c, IN_PROGRESS);
    s.Move(w, Trying(c, 0)).(status := status, saved := Some(Render(status)), entered := true)
  }

  /** What a worker does with the header line: it goes on with the payload, or gives the attempt up. */
  function TakeLine(s: State, w: nat, p: Phase, m: ParsedMessage, remainder: string, unread: string): (t: State)
    requires w < |s.workers| && p.Reading?
    ensures |t.workers| == |s.workers| && t == s.Move(w, t.workers[w]).(downloads := t.downloads)
    ensures t.workers[w].Receiving? || t.workers[w] == Releasing(p.chunk, p.attempt, false)
    ensures t.workers[w].chunk == p.chunk && t.workers[w].attempt == p.attempt
  {
    if !m.valid || m.kind != CHUNK then s.Move(w, Releasing(p.chunk, p.attempt, false))
    else
      var first := remainder[..Min(m.chunkSize, |remainder|)];
      s.Move(w, Receiving(p.chunk, p.attempt, m.chunkSize, m.chunkHash, m.chunkSize - |first|, unread))
      .(downloads := s.downloads[p.chunk := first])
  }

  /** One received piece while the header line is being read. */
  function HeaderPiece(s: State, w: nat, p: Phase, count: nat): (t: State)
    requires w < |s.workers| && p.Reading? && count <= |p.unread|
    ensures |t.workers| == |s.workers| && t == s.Move(w, t.workers[w]).(downloads := t.downloads)
    ensures t.workers[w].Reading? || t.workers[w].Receiving? || t.workers[w] == Releasing(p.chunk, p.attempt, false)
    ensures t.workers[w].chunk == p.chunk && t.workers[w].attempt == p.attempt
  {
    match HeaderStep(p.accumulated, p.unread[..count])
    case MoreHeader(all) => s.Move(w, Reading(p.chunk, p.attempt, all, p.unread[count..]))
    case HeaderTooLarge => s.Move(w, Releasing(p.chunk, p.attempt, false))
    case HeaderLine(line, remainder) => TakeLine(s, w, p, Parse(line), remainder, p.unread[count..])
  }

  /** One received piece of the payload, written to the chunk file. */
  function PayloadPiece(s: State, w: nat, p: Phase, count: nat): State
    requires w < |s.workers| && p.Receiving? && count <= |p.unread| && count <= p.remaining
  {
    s.Move(w, p.(remaining := p.remaining - count, unread := p.unread[count..]))
    .(downloads := s.downloads[p.chunk := FileText(s, p.chunk) + p.unread[..count]])
  }

  /** The digest check once the announced number of bytes is written. */
  function CheckDigest(j: Job, s: State, w: nat, p: Phase): State
    requires w < |s.workers| && p.Receiving?
  {
    if p.hash != "" && j.digest(FileText(s, p.chunk)) != p.hash then
      s.Move(w, Releasing(p.chunk, p.attempt, false)).(downloads := s.downloads - {p.chunk})
    else
      s.Move(w, Releasing(p.chunk, p.attempt, true)).(receipts := s.receipts[p.chunk := Receipt(p.size, p.hash)])
  }

  function EndChunk(s: State, w: nat, c: int, ok: bool): State
    requires w < |s.workers|
  {
    s.Move(w, Marking(c, ok)).(status := SetStatus(s.status, c, if ok then DONE else FAILED))
  }

  function TellScheduler(s: State, w: nat, c: int, ok: bool): State
    requires w < |s.workers|
  {
    if ok then s.Move(w, Saving).(sched := s.sched.MarkDone(c))
    else s.Move(w, Saving).(sched := s.sched.MarkFailed(c), failures := s.failures + 1)
  }

  /** A step of the peer loop for one chunk: only this worker and chunk files change, and it keeps its chunk. */
  function PeerLoopStep(j: Job, s: State, w: nat, choice: Choice): (t: State)
    requires Enabled(j, s, w, choice) && s.workers[w].InPeerLoop()
    ensures |t.workers| == |s.workers|
    ensures t == s.Move(w, t.workers[w]).(downloads := t.downloads, receipts := t.receipts)
    ensures (t.workers[w].InPeerLoop() || t.workers[w].Finishing?) && t.workers[w].chunk == s.workers[w].chunk
  {
    var p := s.workers[w];
    match p
    case Trying(c, attempt) =>
      if attempt >= j.peers then s.Move(w, Finishing(c, false))
      else if choice.granted then s.Move(w, Reserved(c, attempt))
      else s.Move(w, Trying(c, attempt + 1))
    case Reserved(c, attempt) =>
      if choice.Connect? then s.Move(w, Reading(c, attempt, "", choice.stream))
      else s.Move(w, Releasing(c, attempt, false))
    case Reading(c, attempt, _, _) =>
      if choice.Recv? then HeaderPiece(s, w, p, choice.count) else s.Move(w, Releasing(c, attempt, false))
    case Receiving(c, attempt, _, _, remaining, _) =>
      if remaining == 0 then CheckDigest(j, s, w, p)
      else if choice.Recv? then PayloadPiece(s, w, p, choice.count)
      else s.Move(w, Releasing(c, attempt, false)).(downloads := s.downloads - {c})
    case Releasing(c, attempt, ok) => if ok then s.Move(w, Finishing(c, true)) else s.Move(w, Trying(c, attempt + 1))
  }

  /** The state after worker `w` took its step: no other worker moves, and a done chunk stays done. */
  function Next(j: Job, s: State, w: nat, choice: Choice): (t: State)
    requires Enabled(j, s, w, choice)
    ensures |t.workers| == |s.workers| && t.workers == s.workers[w := t.workers[w]]
    ensures |t.status| == |s.status|
    ensures |t.sched.done| == |s.sched.done| && |t.sched.claimed| == |s.sched.claimed|
    ensures forall c :: 0 <= c < |s.sched.done| && s.sched.done[c] ==> t.sched.done[c]
    ensures t.workers[w].Returned? ==> s.workers[w].Idle?
  {
    var p := s.workers[w];
    if p.Idle? then AskScheduler(s, w)
    else if p.Claimed? then BeginChunk(s, w, p.chunk)
    else if p.Finishing? then EndChunk(s, w, p.chunk, p.ok)
    else if p.Marking? then TellScheduler(s, w, p.chunk, p.ok)
    else if p.Saving? then s.Move(w, Idle).(saved := Some(Render(s.status)))
    else PeerLoopStep(j, s, w, choice)
  }

  // ---------- schedules ----------

  /** A schedule is possible from `s` when each of its steps is, in turn. */
  predicate Possible(j: Job, s: State, actions: seq<Action>)
    decreases |actions|
  {
    actions == [] ||
    (Enabled(j, s, actions[0].worker, actions[0].choice)
     && Possible(j, Next(j, s, actions[0].worker, actions[0].choice), actions[1..]))
  }

  function Run(j: Job, s: State, actions: seq<Action>): State
    requires Possible(j, s, actions)
    decreases |actions|
  {
    if actions == [] then s else Run(j, Next(j, s, actions[0].worker, actions[0].choice), actions[1..])
  }

  predicate AllReturned(s: State) {
    forall w :: 0 <= w < |s.workers| ==> s.workers[w].Returned?
  }
}
