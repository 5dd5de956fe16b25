/** A download that is stopped at any step, and started again from what is left on disk. */
module Restart {
  import opened Options
  import opened Text
  import opened Protocol
  import opened StateFile
  import opened ChunkFiles
  import opened Transfer
  import opened Delivery
  import opened Engine
  import opened EngineFetch
  import opened EngineSafety
  import opened EngineOutcome
  import opened EndToEnd

  // ---------- the state file at any moment ----------

  /** As much of the rendering as was written. */
  ghost predicate PartOf(text: Option<string>, status: seq<Status>) {
    exists k :: 0 <= k <= |Render(status)| && text == Some(Render(status)[..k])
  }

  /** A worker that may enter the first critical section, and so be writing the state file. */
  predicate MayBegin(s: State, w: int) {
    0 <= w < |s.workers| && s.workers[w].Claimed? && s.LockFree()
  }

  /**
   What the state file can hold when the process stops in this state: what was saved last, or part of what is
   being written, in either critical section or behind the wait for the workers.
   */
  ghost predicate OnDisk(s: State, text: Option<string>) {
    || text == s.saved
    || ((exists w :: 0 <= w < |s.workers| && s.workers[w].Saving?) && PartOf(text, s.status))
    || (exists w :: MayBegin(s, w) && PartOf(text, SetStatus(s.status, s.workers[w].chunk, IN_PROGRESS)))
    || (AllReturned(s) && PartOf(text, s.status))
  }

  /** The state file has no chunk as done that is not. */
  ghost predicate SavedSound(j: Job, s: State)
    requires Shape(j, s)
  {
    forall c :: 0 <= c < j.Total() && Load(s.saved, j.Total())[c] == DONE ==> s.sched.done[c]
  }

  /** A whole or interrupted write of a status vector has no chunk as done that the vector has not. */
  lemma PartSound(status: seq<Status>, text: Option<string>, c: int)
    requires |status| <= INT_MAX && PartOf(text, status) && 0 <= c < |status|
    ensures Load(text, |status|)[c] == DONE ==> status[c] == DONE
  {
    var k :| 0 <= k <= |Render(status)| && text == Some(Render(status)[..k]);
    InterruptedSaveInventsNothing(status, k, |status|);
  }

  /** While nobody is about to tell the scheduler, only chunks that it has done have the status. */
  lemma StatusSound(j: Job, s: State, c: int)
    requires Inv(j, s) && 0 <= c < j.Total() && s.status[c] == DONE
    requires forall w :: 0 <= w < |s.workers| ==> !s.workers[w].Marking?
    ensures s.sched.done[c]
  {
    forall w
      ensures !MarksDone(s, w, c)
    {
    }
  }

  lemma NobodyMarks(s: State, w: int)
    requires OneLock(s) && 0 <= w < |s.workers| && (s.workers[w].Saving? || s.LockFree())
    ensures forall v :: 0 <= v < |s.workers| ==> !s.workers[v].Marking?
  {
    forall v | 0 <= v < |s.workers|
      ensures s.workers[v].Marking? ==> s.workers[v].Locked() && v != w
    {
    }
  }

  lemma WholeIsPart(status: seq<Status>)
    ensures PartOf(Some(Render(status)), status)
  {
    assert Render(status)[..|Render(status)|] == Render(status);
  }

  lemma SavedSoundBegin(j: Job, s: State, w: nat, c: int, text: Option<string>, d: int)
    requires Inv(j, s) && MayBegin(s, w) && s.workers[w].chunk == c && j.Total() <= INT_MAX && 0 <= d < j.Total()
    requires PartOf(text, SetStatus(s.status, c, IN_PROGRESS))
    ensures Load(text, j.Total())[d] == DONE ==> s.sched.done[d]
  {
    NobodyMarks(s, w);
    PartSound(SetStatus(s.status, c, IN_PROGRESS), text, d);
    if s.status[d] == DONE {
      StatusSound(j, s, d);
    }
  }

  lemma SavedSoundEnd(j: Job, s: State, w: nat, text: Option<string>, d: int)
    requires Inv(j, s) && w < |s.workers| && (s.workers[w].Saving? || s.LockFree())
    requires j.Total() <= INT_MAX && 0 <= d < j.Total() && PartOf(text, s.status)
    ensures Load(text, j.Total())[d] == DONE ==> s.sched.done[d]
  {
    NobodyMarks(s, w);
    PartSound(s.status, text, d);
    if s.status[d] == DONE {
      StatusSound(j, s, d);
    }
  }

  lemma SavedUntouched(j: Job, s: State, w: nat, choice: Choice)
    requires Enabled(j, s, w, choice) && !s.workers[w].Claimed? && !s.workers[w].Saving?
    ensures Next(j, s, w, choice).saved == s.saved
  {
  }

  lemma SavedSoundStep(j: Job, s: State, w: nat, choice: Choice)
    requires Inv(j, s) && SavedSound(j, s) && Enabled(j, s, w, choice) && j.Total() <= INT_MAX
    ensures Shape(j, Next(j, s, w, choice)) && SavedSound(j, Next(j, s, w, choice))
  {
    ShapeKept(j, s, w, choice);
    var t := Next(j, s, w, choice);
    forall d | 0 <= d < j.Total() && Load(t.saved, j.Total())[d] == DONE
      ensures t.sched.done[d]
    {
      if s.workers[w].Claimed? {
        WholeIsPart(SetStatus(s.status, s.workers[w].chunk, IN_PROGRESS));
        SavedSoundBegin(j, s, w, s.workers[w].chunk, t.saved, d);
      } else if s.workers[w].Saving? {
        WholeIsPart(s.status);
        SavedSoundEnd(j, s, w, t.saved, d);
      } else {
        SavedUntouched(j, s, w, choice);
      }
    }
  }

  lemma {:induction false} SavedSoundRun(j: Job, s: State, actions: seq<Action>)
    requires Inv(j, s) && SavedSound(j, s) && Possible(j, s, actions) && j.Total() <= INT_MAX
    ensures Inv(j, Run(j, s, actions)) && SavedSound(j, Run(j, s, actions))
    decreases |actions|
  {
    if actions != [] {
      var w, choice := actions[0].worker, actions[0].choice;
      StepInv(j, s, w, choice);
      SavedSoundStep(j, s, w, choice);
      SavedSoundRun(j, Next(j, s, w, choice), actions[1..]);
    }
  }

  /** At whatever step the process stops, and whatever part of a write is done, the file invents no done chunk. */
  lemma DiskSound(j: Job, stateFile: Option<string>, downloads: map<int, string>, shared: map<int, string>,
                  workers: nat, actions: seq<Action>, s: State, text: Option<string>, c: int)
    requires Reached(j, stateFile, downloads, shared, workers, actions, s) && j.Total() <= INT_MAX
    requires OnDisk(s, text) && 0 <= c < j.Total()
    ensures |s.sched.done| == j.Total() && (Load(text, j.Total())[c] == DONE ==> s.sched.done[c])
  {
    var start := Start(j, stateFile, downloads, shared, workers);
    StartInv(j, stateFile, downloads, shared, workers);
    SavedSoundRun(j, start, actions);
    if text != s.saved {
      if w: nat :| w < |s.workers| && s.workers[w].Saving? && PartOf(text, s.status) {
        SavedSoundEnd(j, s, w, text, c);
      } else if w: nat :| MayBegin(s, w) && PartOf(text, SetStatus(s.status, s.workers[w].chunk, IN_PROGRESS)) {
        SavedSoundBegin(j, s, w, s.workers[w].chunk, text, c);
      } else {
        SavedSoundEnd(j, s, 0, text, c);
      }
    }
  }

  /**
   A restart, after a stop at any step with whatever was on disk, counts a chunk done only if it was done, or if a
   file of it lies in one of the directories.
   */
  lemma RestartInventsNothing(j: Job, stateFile: Option<string>, downloads: map<int, string>, shared: map<int, string>,
                              workers: nat, actions: seq<Action>, s: State, text: Option<string>,
                              sharedLater: map<int, string>, workersLater: nat, c: int)
    requires Reached(j, stateFile, downloads, shared, workers, actions, s) && j.Total() <= INT_MAX
    requires OnDisk(s, text) && 0 <= c < j.Total()
    ensures var t := Start(j, text, s.downloads, sharedLater, workersLater);
            |s.sched.done| == |t.sched.done| == j.Total()
            && (t.sched.done[c] ==> s.sched.done[c] || c in s.downloads || c in sharedLater)
  {
    DiskSound(j, stateFile, downloads, shared, workers, actions, s, text, c);
  }

  // ---------- partial files ----------

  /** Every chunk that a start counts as done with a file has its original bytes in it. */
  ghost predicate CountsGenuine(j: Job, s: State) {
    |s.sched.done| == j.Total() && forall c :: 0 <= c < j.Total() && s.sched.done[c] && c in s.downloads ==>
      s.downloads[c] == j.chunks[c]
  }

  /** No worker has part of a chunk in its file. */
  predicate NoneMidFile(s: State) {
    forall w :: 0 <= w < |s.workers| && s.workers[w].Receiving? ==> s.workers[w].remaining == 0
  }

  /** What a stop finds in a chunk's file: the file of the start, the chunk, or the part that was received. */
  lemma FileAtStop(j: Job, s: State, absent: set<int>, given: map<int, string>, c: int)
    requires Inv(j, s) && HonestInv(j, s, absent, given) && 0 <= c < j.Total() && c in s.downloads
    ensures c in given ==> s.downloads[c] == given[c]
    ensures c !in given && s.downloads[c] != j.chunks[c] ==> exists w :: MidFile(s, w, c)
  {
    if c !in given && s.sched.claimed[c] {
      var w :| Holds(s, w, c);
      assert FileOf(j, s, s.workers[w]) && HonestPhase(j, s, s.workers[w]);
      if s.downloads[c] != j.chunks[c] {
        assert MidFile(s, w, c);
      }
    }
  }

  predicate MidFile(s: State, w: int, c: int) {
    Holds(s, w, c) && s.workers[w].Receiving? && s.workers[w].remaining > 0
  }

  /** A worker in the middle of a file has a proper part of its chunk in a file that the start did not have. */
  lemma MidFileIsPart(j: Job, s: State, absent: set<int>, given: map<int, string>, w: int, c: int)
    requires Inv(j, s) && HonestInv(j, s, absent, given) && MidFile(s, w, c)
    ensures 0 <= c < j.Total() && c !in given && c in s.downloads
    ensures s.downloads[c] <= j.chunks[c] && |s.downloads[c]| < |j.chunks[c]|
  {
    assert FileOf(j, s, s.workers[w]) && HonestPhase(j, s, s.workers[w]);
  }

  /**
   Whatever the state file says: every file that a restart counts as done holds its original chunk exactly when
   that was so at the start before, and no worker had part of a chunk in its file when it was stopped.
   */
  lemma RestartSoundIff(j: Job, stateFile: Option<string>, downloads: map<int, string>, shared: map<int, string>,
                        workers: nat, actions: seq<Action>, s: State, text: Option<string>,
                        sharedLater: map<int, string>, workersLater: nat)
    requires HonestJob(j) && ReachedHonestly(j, stateFile, downloads, shared, workers, actions, s)
    ensures CountsGenuine(j, Start(j, text, s.downloads, sharedLater, workersLater))
            <==> StartGenuine(j, downloads) && NoneMidFile(s)
  {
    ReachedHonestInv(j, stateFile, downloads, shared, workers, actions, s);
    CountsFiles(j, text, s.downloads, sharedLater, workersLater);
    FilesGenuineIff(j, s, DoneWithoutFile(j, stateFile, downloads, shared), downloads);
  }

  lemma FilesGenuineIff(j: Job, s: State, absent: set<int>, given: map<int, string>)
    requires Inv(j, s) && HonestInv(j, s, absent, given)
    ensures StartGenuine(j, s.downloads) <==> StartGenuine(j, given) && NoneMidFile(s)
  {
    if StartGenuine(j, given) && NoneMidFile(s) {
      forall c | 0 <= c < j.Total() && c in s.downloads
        ensures s.downloads[c] == j.chunks[c]
      {
        FileAtStop(j, s, absent, given, c);
      }
    } else if !StartGenuine(j, given) {
      var c :| 0 <= c < j.Total() && c in given && given[c] != j.chunks[c];
      assert c in s.downloads && s.downloads[c] == given[c];
    } else {
      var w :| 0 <= w < |s.workers| && s.workers[w].Receiving? && s.workers[w].remaining > 0;
      MidFileIsPart(j, s, absent, given, w, s.workers[w].chunk);
    }
  }

  lemma CountsFiles(j: Job, text: Option<string>, files: map<int, string>, shared: map<int, string>, workers: nat)
    ensures CountsGenuine(j, Start(j, text, files, shared, workers)) <==> StartGenuine(j, files)
  {
    var s := Start(j, text, files, shared, workers);
    assert forall c :: 0 <= c < j.Total() && c in files ==> s.sched.done[c];
  }

  // ---------- a stop that leaves part of a chunk ----------

  ghost predicate LeadsHonestly(j: Job, s: State, actions: seq<Action>, t: State) {
    Possible(j, s, actions) && HonestSchedule(j, s, actions) && Run(j, s, actions) == t
  }

  lemma HonestOneMore(j: Job, s: State, w: nat, choice: Choice, next: State, rest: seq<Action>, t: State)
    requires Enabled(j, s, w, choice) && HonestChoice(j, s.workers[w], choice) && Next(j, s, w, choice) == next
    requires LeadsHonestly(j, next, rest, t)
    ensures LeadsHonestly(j, s, [Action(w, choice)] + rest, t)
  {
    var actions := [Action(w, choice)] + rest;
    assert actions[1..] == rest;
  }

  /** One piece with the header line and the first byte behind it. */
  lemma FirstByte(j: Job, wire: string, header: string, count: nat)
    requires HonestJob(j) && j.Total() > 0 && |j.chunks[0]| > 1
    requires header == AnswerHeader(j, 0) && wire == header + j.chunks[0] && count == |header| + 1
    ensures count <= |wire| && count <= TRANSFER_BUFFER
    ensures HeaderStep("", wire[..count]) == HeaderLine(header, j.chunks[0][..1])
    ensures Parse(header) == Announced(j.fileId, 0, |j.chunks[0]|, j.digest(j.chunks[0]))
  {
    var content := j.chunks[0];
    HeaderLength(j.fileId, 0, |content|, j.digest(content));
    SafeFileIdIsToken(j.fileId);
    HeaderIsFirstLine(header, j.fileId, 0, |content|, j.digest(content), content[..1]);
    assert "" + wire[..count] == header + content[..1];
    assert (header + content[..1])[..|header|] == header && (header + content[..1])[|header|..] == content[..1];
    LineAnnounces(j, 0, header);
  }

  /** The state in which the first worker has the first byte of the first chunk. */
  function AfterFirstByte(j: Job, s: State, rest: string): State
    requires j.Total() > 0 && |j.chunks[0]| > 0 && |s.workers| == 1
  {
    s.Move(0, Receiving(0, 0, |j.chunks[0]|, j.digest(j.chunks[0]), |j.chunks[0]| - 1, rest))
    .(downloads := s.downloads[0 := j.chunks[0][..1]])
  }

  lemma TakesFirstByte(j: Job, s: State, wire: string, header: string, count: nat)
    requires HonestJob(j) && j.Total() > 0 && |j.chunks[0]| > 1 && |s.workers| == 1
    requires header == AnswerHeader(j, 0) && wire == header + j.chunks[0] && count == |header| + 1
    requires s.workers[0] == Reading(0, 0, "", wire)
    ensures count <= |wire| && Enabled(j, s, 0, Recv(count))
    ensures Next(j, s, 0, Recv(count)) == AfterFirstByte(j, s, wire[count..])
  {
    FirstByte(j, wire, header, count);
    assert Next(j, s, 0, Recv(count)) == HeaderPiece(s, 0, s.workers[0], count);
    LineTaken(s, 0, s.workers[0], count, header, j.chunks[0][..1]);
    TakesOne(j, s, s.workers[0], Parse(header), wire[count..]);
  }

  lemma TakesOne(j: Job, s: State, p: Phase, m: ParsedMessage, unread: string)
    requires j.Total() > 0 && |j.chunks[0]| > 1 && |s.workers| == 1 && p.Reading? && p.chunk == 0 && p.attempt == 0
    requires m == Announced(j.fileId, 0, |j.chunks[0]|, j.digest(j.chunks[0]))
    ensures TakeLine(s, 0, p, m, j.chunks[0][..1], unread) == AfterFirstByte(j, s, unread)
  {
    assert j.chunks[0][..1][..1] == j.chunks[0][..1];
  }

  /**
   A run with honest peers that is stopped with part of a chunk in its file: the restart counts that chunk done.
   */
  lemma PartialFileCounted(j: Job) returns (actions: seq<Action>, s: State)
    requires HonestJob(j) && j.peers > 0 && j.Total() > 0 && |j.chunks[0]| > 1
    ensures ReachedHonestly(j, None, map[], map[], 1, actions, s)
    ensures var t := Start(j, s.saved, s.downloads, map[], 1);
            t.sched.done[0] && 0 in t.downloads && t.downloads[0] == j.chunks[0][..1] != j.chunks[0]
  {
    var header := AnswerHeader(j, 0);
    var wire, count := header + j.chunks[0], |header| + 1;
    var s0 := Start(j, None, map[], map[], 1);
    var s1 := s0.Move(0, Claimed(0)).(sched := s0.sched.Claim(0));
    var s2 := BeginChunk(s1, 0, 0);
    var s3 := s2.Move(0, Reserved(0, 0));
    var s4 := s3.Move(0, Reading(0, 0, "", wire));
    s := AfterFirstByte(j, s4, wire[count..]);
    TakesFirstByte(j, s4, wire, header, count);
    assert s0.sched.NextChunk() == 0 by { assert s0.sched.Free(0); }
    actions := [];
    HonestOneMore(j, s4, 0, Recv(count), s, actions, s);
    actions := [Action(0, Recv(count))] + actions;
    HonestOneMore(j, s3, 0, Connect(wire), s4, actions, s);
    actions := [Action(0, Connect(wire))] + actions;
    HonestOneMore(j, s2, 0, Reserve(true), s3, actions, s);
    actions := [Action(0, Reserve(true))] + actions;
    HonestOneMore(j, s1, 0, Go, s2, actions, s);
    actions := [Action(0, Go)] + actions;
    HonestOneMore(j, s0, 0, Go, s1, actions, s);
    actions := [Action(0, Go)] + actions;
  }

  // ---------- parts of chunks stay ----------

  /** No file is longer than its chunk. */
  predicate Fits(j: Job, files: map<int, string>) {
    forall c :: 0 <= c < j.Total() && c in files ==> |files[c]| <= |j.chunks[c]|
  }

  predicate Short(j: Job, files: map<int, string>, c: int) {
    0 <= c < j.Total() && c in files && |files[c]| < |j.chunks[c]|
  }

  /** A stop leaves no file longer than its chunk, short ones as they were, and a short one for a worker in mid-file. */
  lemma StopKeepsShort(j: Job, s: State, absent: set<int>, given: map<int, string>)
    requires Inv(j, s) && HonestInv(j, s, absent, given) && Fits(j, given)
    ensures Fits(j, s.downloads)
    ensures forall c :: Short(j, given, c) ==> Short(j, s.downloads, c)
    ensures !NoneMidFile(s) ==> exists c :: Short(j, s.downloads, c)
  {
    forall c | 0 <= c < j.Total() && c in s.downloads
      ensures |s.downloads[c]| <= |j.chunks[c]|
    {
      FileAtStop(j, s, absent, given, c);
      if c !in given && s.downloads[c] != j.chunks[c] {
        var w :| MidFile(s, w, c);
        MidFileIsPart(j, s, absent, given, w, c);
      }
    }
    if w :| 0 <= w < |s.workers| && s.workers[w].Receiving? && s.workers[w].remaining > 0 {
      MidFileIsPart(j, s, absent, given, w, s.workers[w].chunk);
      assert Short(j, s.downloads, s.workers[w].chunk);
    }
  }

  /** Files no longer than their chunks, one of them shorter, join up to something shorter. */
  lemma {:induction false} ShorterJoin(files: map<int, string>, chunks: seq<string>, i: nat, c: int)
    requires i <= |chunks| && c < |chunks|
    requires forall d :: i <= d < |chunks| ==> d in files && |files[d]| <= |chunks[d]|
    requires i <= c ==> |files[c]| < |chunks[c]|
    ensures |JoinFrom(files, i, |chunks|).1| <= |Join(chunks[i..])|
    ensures i <= c ==> |JoinFrom(files, i, |chunks|).1| < |Join(chunks[i..])|
    decreases |chunks| - i
  {
    if i < |chunks| {
      ShorterJoin(files, chunks, i + 1, c);
      assert chunks[i..][1..] == chunks[i + 1..];
    }
  }

  /** A download that starts with a short file, and with none longer than its chunk, never delivers the original. */
  lemma ShortNeverDelivers(original: string, size: nat, j: Job, text: Option<string>, files: map<int, string>,
                           shared: map<int, string>, workers: nat, actions: seq<Action>, t: State, c: int)
    requires HonestFile(original, size, j) && Fits(j, files) && Short(j, files, c)
    requires ReachedHonestly(j, text, files, shared, workers, actions, t) && AllReturned(t)
    ensures JoinFrom(t.downloads, 0, j.Total()) != (true, original)
  {
    HonestFileIsHonestJob(original, size, j);
    FilesAtEnd(j, text, files, shared, workers, actions, t);
    MergeSucceedsIff(t.downloads, 0, j.Total());
    if JoinFrom(t.downloads, 0, j.Total()).0 {
      ShorterJoin(t.downloads, j.chunks, 0, c);
      SplitShape(original, size);
      assert j.chunks[0..] == j.chunks;
    }
  }

  // ---------- any number of stops ----------

  /** What the workers did until the process was stopped, and what the state file held then. */
  datatype Session = Session(workers: nat, actions: seq<Action>, text: Option<string>)

  function Stopped(j: Job, text: Option<string>, files: map<int, string>, shared: map<int, string>, x: Session): State
    requires Possible(j, Start(j, text, files, shared, x.workers), x.actions)
  {
    Run(j, Start(j, text, files, shared, x.workers), x.actions)
  }

  ghost predicate Goes(j: Job, text: Option<string>, files: map<int, string>, shared: map<int, string>, x: Session) {
    && x.workers > 0 && Possible(j, Start(j, text, files, shared, x.workers), x.actions)
    && HonestSchedule(j, Start(j, text, files, shared, x.workers), x.actions)
    && OnDisk(Stopped(j, text, files, shared, x), x.text)
  }

  /** Each session starts from what the one before left on disk, with the same shared files. */
  ghost predicate Sessions(j: Job, text: Option<string>, files: map<int, string>, shared: map<int, string>,
                           sessions: seq<Session>)
    decreases |sessions|
  {
    sessions == [] ||
    (Goes(j, text, files, shared, sessions[0])
     && Sessions(j, sessions[0].text, Stopped(j, text, files, shared, sessions[0]).downloads, shared, sessions[1..]))
  }

  /** No session is stopped with a worker in the middle of a file. */
  ghost predicate Clean(j: Job, text: Option<string>, files: map<int, string>, shared: map<int, string>,
                        sessions: seq<Session>)
    requires Sessions(j, text, files, shared, sessions)
    decreases |sessions|
  {
    sessions == [] ||
    (NoneMidFile(Stopped(j, text, files, shared, sessions[0]))
     && Clean(j, sessions[0].text, Stopped(j, text, files, shared, sessions[0]).downloads, shared, sessions[1..]))
  }

  /** The state file and the download directory behind the last session. */
  ghost function Left(j: Job, text: Option<string>, files: map<int, string>, shared: map<int, string>,
                      sessions: seq<Session>): (Option<string>, map<int, string>)
    requires Sessions(j, text, files, shared, sessions)
    decreases |sessions|
  {
    if sessions == [] then (text, files)
    else Left(j, sessions[0].text, Stopped(j, text, files, shared, sessions[0]).downloads, shared, sessions[1..])
  }

  /**
   One session: it keeps each chunk's file where there is one, and genuine ones genuine if it is stopped cleanly;
   otherwise there is a short file from then on.
   */
  lemma SessionLaw(j: Job, text: Option<string>, files: map<int, string>, shared: map<int, string>, x: Session)
    requires HonestJob(j) && Goes(j, text, files, shared, x) && Fits(j, files)
    ensures var s := Stopped(j, text, files, shared, x);
            && Fits(j, s.downloads)
            && (StartGenuine(j, files) && NoneMidFile(s) ==> StartGenuine(j, s.downloads))
            && (forall c :: Short(j, files, c) ==> Short(j, s.downloads, c))
            && (!NoneMidFile(s) ==> exists c :: Short(j, s.downloads, c))
  {
    var s := Stopped(j, text, files, shared, x);
    var absent := DoneWithoutFile(j, text, files, shared);
    ReachedHonestInv(j, text, files, shared, x.workers, x.actions, s);
    StopKeepsShort(j, s, absent, files);
    FilesGenuineIff(j, s, absent, files);
  }

  lemma {:induction false} SessionsLaw(j: Job, text: Option<string>, files: map<int, string>, shared: map<int, string>,
                                       sessions: seq<Session>)
    requires HonestJob(j) && Sessions(j, text, files, shared, sessions) && Fits(j, files)
    ensures var left := Left(j, text, files, shared, sessions).1;
            && Fits(j, left)
            && (StartGenuine(j, files) && Clean(j, text, files, shared, sessions) ==> StartGenuine(j, left))
            && (forall c :: Short(j, files, c) ==> Short(j, left, c))
            && (!Clean(j, text, files, shared, sessions) ==> exists c :: Short(j, left, c))
    decreases |sessions|
  {
    if sessions != [] {
      SessionLaw(j, text, files, shared, sessions[0]);
      SessionsLaw(j, sessions[0].text, Stopped(j, text, files, shared, sessions[0]).downloads, shared, sessions[1..]);
    }
  }

  /** The state file has the chunk as done, or it is shared. */
  predicate StillCounted(j: Job, text: Option<string>, shared: map<int, string>, c: int) {
    0 <= c < j.Total() && (c in shared || Load(text, j.Total())[c] == DONE)
  }

  /** A start counts a chunk done without a file exactly if the state file or the shared directory does, and no more. */
  lemma WithoutFileIs(j: Job, text: Option<string>, files: map<int, string>, shared: map<int, string>, c: int)
    ensures c in DoneWithoutFile(j, text, files, shared) <==> StillCounted(j, text, shared, c) && c !in files
  {
  }

  /** One session: a chunk counts as done without a file behind it exactly if it did before and still counts. */
  lemma SessionWithoutFile(j: Job, text: Option<string>, files: map<int, string>, shared: map<int, string>, x: Session,
                           c: int)
    requires HonestJob(j) && Goes(j, text, files, shared, x)
    ensures c in DoneWithoutFile(j, x.text, Stopped(j, text, files, shared, x).downloads, shared)
            <==> c in DoneWithoutFile(j, text, files, shared) && StillCounted(j, x.text, shared, c)
  {
    var s := Stopped(j, text, files, shared, x);
    ReachedHonestInv(j, text, files, shared, x.workers, x.actions, s);
    if 0 <= c < j.Total() {
      DiskSound(j, text, files, shared, x.workers, x.actions, s, x.text, c);
    }
  }

  ghost predicate AlwaysCounted(j: Job, shared: map<int, string>, sessions: seq<Session>, c: int) {
    forall x :: x in sessions ==> StillCounted(j, x.text, shared, c)
  }

  /**
   Over any number of sessions: the chunks that the last start counts as done without a file are those that the
   first one counted so and that after every stop were shared, or done by the state file.
   */
  lemma {:induction false} WithoutFileIff(j: Job, text: Option<string>, files: map<int, string>,
                                          shared: map<int, string>, sessions: seq<Session>, c: int)
    requires HonestJob(j) && Sessions(j, text, files, shared, sessions)
    ensures var (last, left) := Left(j, text, files, shared, sessions);
            c in DoneWithoutFile(j, last, left, shared)
            <==> c in DoneWithoutFile(j, text, files, shared) && AlwaysCounted(j, shared, sessions, c)
    decreases |sessions|
  {
    if sessions != [] {
      var x, rest := sessions[0], sessions[1..];
      SessionWithoutFile(j, text, files, shared, x, c);
      WithoutFileIff(j, x.text, Stopped(j, text, files, shared, x).downloads, shared, rest, c);
      assert sessions == [x] + rest;
      assert AlwaysCounted(j, shared, sessions, c)
        <==> StillCounted(j, x.text, shared, c) && AlwaysCounted(j, shared, rest, c);
    }
  }

  /**
   A download is started from any state file, genuine chunk files and shared files, stopped any number of times at
   any steps, each time resumed from what is on disk, and finished at last: it gives the original bytes exactly when
   at none of the stops a worker was in the middle of a file, and the last start counted no chunk done without its
   file.
   */
  lemma ResumedDeliversIff(original: string, size: nat, j: Job, first: Option<string>, given: map<int, string>,
                           shared: map<int, string>, sessions: seq<Session>, text: Option<string>,
                           files: map<int, string>, workers: nat, actions: seq<Action>, t: State)
    requires HonestFile(original, size, j) && StartGenuine(j, given) && Sessions(j, first, given, shared, sessions)
    requires Left(j, first, given, shared, sessions) == (text, files)
    requires ReachedHonestly(j, text, files, shared, workers, actions, t) && AllReturned(t)
    ensures JoinFrom(t.downloads, 0, j.Total()) == (true, original)
            <==> Clean(j, first, given, shared, sessions) && DoneWithoutFile(j, text, files, shared) == {}
  {
    HonestFileIsHonestJob(original, size, j);
    SessionsLaw(j, first, given, shared, sessions);
    if Clean(j, first, given, shared, sessions) {
      DeliversOriginalIff(original, size, j, text, files, shared, workers, actions, t);
    } else {
      var c :| Short(j, files, c);
      ShortNeverDelivers(original, size, j, text, files, shared, workers, actions, t, c);
    }
  }
}
