/** With honest peers, the parallel download delivers the original file byte for byte. */
module EndToEnd {
  import opened Options
  import opened Text
  import opened Protocol
  import opened StateFile
  import opened Scheduling
  import opened ChunkFiles
  import opened Transfer
  import opened Delivery
  import opened Engine
  import opened EngineSafety
  import opened EngineOutcome

  // ---------- honest peers ----------

  /** Chunks that can be asked for and answered, and a digest whose text fits a header. */
  ghost predicate HonestJob(j: Job) {
    && SafeFileId(j.fileId)
    && j.Total() <= MAX_CHUNK_ID + 1
    && (forall c :: 0 <= c < j.Total() ==> ChunkSizeInRange(|j.chunks[c]|))
    && (forall text :: DigestText(j.digest(text)))
  }

  /** The answer for chunk `c`, or an error line, or as much of either as came before the connection ended. */
  ghost predicate HonestStream(j: Job, c: int, stream: string) {
    0 <= c < j.Total()
    && (stream <= Wire(j.digest, j.fileId, c, j.chunks[c])
        || exists text :: '\n' !in text && stream <= BuildError(text))
  }

  ghost predicate HonestChoice(j: Job, p: Phase, choice: Choice) {
    p.Reserved? && choice.Connect? ==> HonestStream(j, p.chunk, choice.stream)
  }

  ghost predicate HonestSchedule(j: Job, s: State, actions: seq<Action>)
    requires Possible(j, s, actions)
    decreases |actions|
  {
    actions == [] ||
    (HonestChoice(j, s.workers[actions[0].worker], actions[0].choice)
     && HonestSchedule(j, Next(j, s, actions[0].worker, actions[0].choice), actions[1..]))
  }

  // ---------- the first line of an honest stream ----------

  lemma PrefixSplits(all: string, rest: string, whole: string)
    requires all + rest <= whole
    ensures whole == all + whole[|all|..]
  {
    assert whole[..|all|] == (all + rest)[..|all|] == all;
  }

  lemma FirstLineOfPrefix(all: string, rest: string, whole: string)
    requires all + rest <= whole && Find(all, '\n') < |all|
    ensures Find(whole, '\n') == Find(all, '\n')
  {
    assert all[Find(all, '\n')] == '\n';
    PrefixSplits(all, rest, whole);
    FindThrough(all, whole[|all|..], '\n');
  }

  /** What was received up to its first newline is the first line of the answer, and the rest follows on. */
  lemma LineOfAnswer(answer: string, header: string, content: string, all: string, rest: string)
    requires answer == header + content && header != "" && Find(answer, '\n') == |header| - 1
    requires all + rest <= answer && Find(all, '\n') < |all|
    ensures Find(all, '\n') + 1 == |header| && all[..|header|] == header && all[|header|..] + rest <= content
  {
    FirstLineOfPrefix(all, rest, answer);
    SplitPrefix(all, rest, header, content);
  }

  lemma SplitPrefix(all: string, rest: string, header: string, content: string)
    requires all + rest <= header + content && |header| <= |all|
    ensures all[..|header|] == header && all[|header|..] + rest <= content
  {
    var whole := header + content;
    var n := |header|;
    assert all == whole[..|all|];
    assert all[..n] == whole[..n] == header;
    assert all[n..] + rest == (all + rest)[n..] == whole[n..|all + rest|];
    assert whole[n..] == content;
    assert whole[n..|all + rest|] == content[..|all + rest| - n];
  }

  lemma LineAnnounces(j: Job, c: int, line: string)
    requires HonestJob(j) && 0 <= c < j.Total()
    requires line == BuildChunk(j.fileId, c, |j.chunks[c]|, j.digest(j.chunks[c]))
    ensures Parse(line) == Announced(j.fileId, c, |j.chunks[c]|, j.digest(j.chunks[c]))
  {
    SafeFileIdIsToken(j.fileId);
    ParsesChunk(j.fileId, c, |j.chunks[c]|, j.digest(j.chunks[c]));
  }

  lemma WireHeader(header: string, fileId: string, c: int, content: string, hash: string, all: string, rest: string)
    requires IsToken(fileId) && IsToken(hash) && header == BuildChunk(fileId, c, |content|, hash)
    requires all + rest <= header + content && Find(all, '\n') < |all|
    ensures Find(all, '\n') + 1 == |header| && all[..|header|] == header && all[|header|..] + rest <= content
  {
    HeaderIsFirstLine(header, fileId, c, |content|, hash, content);
    LineOfAnswer(header + content, header, content, all, rest);
  }

  lemma LineOfError(text: string, all: string, rest: string)
    requires '\n' !in text && all + rest <= BuildError(text) && Find(all, '\n') < |all|
    ensures Parse(all[..Find(all, '\n') + 1]) == Failed(text)
  {
    ErrorIsOneLine(BuildError(text), text);
    OnlyLine(BuildError(text), all, rest);
    ParsesError(text);
  }

  lemma OnlyLine(line: string, all: string, rest: string)
    requires line != "" && Find(line, '\n') == |line| - 1 && all + rest <= line && Find(all, '\n') < |all|
    ensures all[..Find(all, '\n') + 1] == line
  {
    assert line + "" == line;
    LineOfAnswer(line, line, "", all, rest);
  }

  lemma ErrorIsOneLine(line: string, text: string)
    requires '\n' !in text && line == BuildError(text)
    ensures line != "" && Find(line, '\n') == |line| - 1
  {
    assert line[..|line| - 1] == "ERROR " + text;
    FindIs(line, '\n', |line| - 1);
  }

  // ---------- the invariant ----------

  ghost predicate HonestPhase(j: Job, s: State, p: Phase) {
    match p
    case Reading(c, _, accumulated, unread) => '\n' !in accumulated && HonestStream(j, c, accumulated + unread)
    case Receiving(c, _, size, _, _, unread) =>
      0 <= c < j.Total() && c in s.downloads && size == |j.chunks[c]| && s.downloads[c] + unread <= j.chunks[c]
    case Releasing(c, _, ok) => ok ==> Genuine(j, s, c)
    case Finishing(c, ok) => ok ==> Genuine(j, s, c)
    case Marking(c, ok) => ok ==> Genuine(j, s, c)
    case _ => true
  }

  predicate Genuine(j: Job, s: State, c: int) {
    0 <= c < j.Total() && c in s.downloads && s.downloads[c] == j.chunks[c]
  }

  /**
   Connections deliver honest streams; the files that were there at the start are as they were, and their chunks
   done; every other finished file holds its original chunk; and every done chunk has its file unless it was
   counted done at the start without one.
   */
  ghost predicate HonestInv(j: Job, s: State, absent: set<int>, given: map<int, string>)
    requires Shape(j, s)
  {
    && (forall w :: 0 <= w < |s.workers| ==> HonestPhase(j, s, s.workers[w]))
    && (forall c :: 0 <= c < j.Total() && c in given ==>
      s.sched.done[c] && c in s.downloads && s.downloads[c] == given[c])
    && (forall c :: 0 <= c < j.Total() && c !in given && !s.sched.claimed[c] && c in s.downloads ==> Genuine(j, s, c))
    && (forall c :: 0 <= c < j.Total() && s.sched.done[c] ==> c in s.downloads || c in absent)
    && (forall c :: c in absent ==> 0 <= c < j.Total() && s.sched.done[c] && c !in s.downloads)
  }

  lemma OtherHonest(j: Job, s: State, t: State, c: int, p: Phase)
    requires SameFilesBut(s, t, c) && HonestPhase(j, s, p) && (p.Busy() ==> p.chunk != c)
    ensures HonestPhase(j, t, p)
  {
  }

  lemma HonestKept(j: Job, s: State, t: State, w: nat, absent: set<int>, given: map<int, string>)
    requires Shape(j, s) && Shape(j, t) && Claims(j, s) && HonestInv(j, s, absent, given) && KeepsChunk(s, t, w)
    requires SameFilesBut(s, t, OwnChunk(s.workers[w])) && HonestPhase(j, t, t.workers[w])
    ensures HonestInv(j, t, absent, given)
  {
    var c := OwnChunk(s.workers[w]);
    forall v | 0 <= v < |t.workers|
      ensures HonestPhase(j, t, t.workers[v])
    {
      if v != w {
        assert t.workers[v] == s.workers[v];
        OtherHonest(j, s, t, c, s.workers[v]);
      }
    }
  }

  lemma HonestReading(j: Job, s: State, w: nat, choice: Choice)
    requires HonestJob(j) && Enabled(j, s, w, choice) && s.workers[w].Reading? && HonestPhase(j, s, s.workers[w])
    ensures HonestPhase(j, Next(j, s, w, choice), Next(j, s, w, choice).workers[w])
  {
    if choice.Recv? {
      HonestPiece(j, s, w, s.workers[w], choice.count);
    }
  }

  lemma HonestPiece(j: Job, s: State, w: nat, p: Phase, count: nat)
    requires HonestJob(j) && w < |s.workers| && p.Reading? && count <= |p.unread| && HonestPhase(j, s, p)
    ensures HonestPhase(j, HeaderPiece(s, w, p, count), HeaderPiece(s, w, p, count).workers[w])
  {
    var piece, rest := p.unread[..count], p.unread[count..];
    assert p.accumulated + piece + rest == p.accumulated + p.unread;
    match HeaderStep(p.accumulated, piece)
    case HeaderLine(line, remainder) => HonestLine(j, s, w, p, count, line, remainder);
    case MoreHeader(all) => assert all[..|all|] == all;
    case HeaderTooLarge =>
  }

  lemma HonestLine(j: Job, s: State, w: nat, p: Phase, count: nat, line: string, remainder: string)
    requires HonestJob(j) && w < |s.workers| && p.Reading? && count <= |p.unread|
    requires HeaderStep(p.accumulated, p.unread[..count]) == HeaderLine(line, remainder)
    requires HonestStream(j, p.chunk, p.accumulated + p.unread[..count] + p.unread[count..])
    ensures HonestPhase(j, HeaderPiece(s, w, p, count), HeaderPiece(s, w, p, count).workers[w])
  {
    var piece, rest := p.unread[..count], p.unread[count..];
    if p.accumulated + piece + rest <= Wire(j.digest, j.fileId, p.chunk, j.chunks[p.chunk]) {
      AnswerFacts(j, p.chunk, p.accumulated, piece, rest, line, remainder);
      AcceptedHeader(j, s, w, p, count, line, remainder);
    } else {
      ErrorFacts(p.accumulated, piece, rest, line, remainder);
      RejectedHeader(j, s, w, p, count, line, remainder);
    }
  }

  lemma LineFacts(accumulated: string, piece: string, line: string, remainder: string, all: string)
    requires HeaderStep(accumulated, piece) == HeaderLine(line, remainder) && all == accumulated + piece
    ensures var n := Find(all, '\n') + 1; n <= |all| && line == all[..n] && remainder == all[n..]
  {
  }

  lemma AnswerFacts(j: Job, c: int, accumulated: string, piece: string, rest: string, line: string, remainder: string)
    requires HonestJob(j) && 0 <= c < j.Total()
    requires HeaderStep(accumulated, piece) == HeaderLine(line, remainder)
    requires accumulated + piece + rest <= Wire(j.digest, j.fileId, c, j.chunks[c])
    ensures Parse(line) == Announced(j.fileId, c, |j.chunks[c]|, j.digest(j.chunks[c]))
            && remainder + rest <= j.chunks[c]
  {
    var all := accumulated + piece;
    LineFacts(accumulated, piece, line, remainder, all);
    AnswerLine(j, c, AnswerHeader(j, c), all, rest, Find(all, '\n') + 1);
    LineAnnounces(j, c, line);
  }

  lemma ErrorFacts(accumulated: string, piece: string, rest: string, line: string, remainder: string)
    requires HeaderStep(accumulated, piece) == HeaderLine(line, remainder)
    requires exists text :: '\n' !in text && accumulated + piece + rest <= BuildError(text)
    ensures Parse(line).kind == ERROR
  {
    var text :| '\n' !in text && accumulated + piece + rest <= BuildError(text);
    LineFacts(accumulated, piece, line, remainder, accumulated + piece);
    LineOfError(text, accumulated + piece, rest);
  }

  function AnswerHeader(j: Job, c: int): string
    requires 0 <= c < j.Total()
  {
    BuildChunk(j.fileId, c, |j.chunks[c]|, j.digest(j.chunks[c]))
  }

  /** The line read from an honest answer is its header, and the chunk's bytes follow it. */
  lemma AnswerLine(j: Job, c: int, header: string, all: string, rest: string, n: nat)
    requires HonestJob(j) && 0 <= c < j.Total() && header == AnswerHeader(j, c)
    requires all + rest <= header + j.chunks[c] && n == Find(all, '\n') + 1 <= |all|
    ensures all[..n] == header && all[n..] + rest <= j.chunks[c]
  {
    SafeFileIdIsToken(j.fileId);
    WireHeader(header, j.fileId, c, j.chunks[c], j.digest(j.chunks[c]), all, rest);
  }

  lemma AcceptedHeader(j: Job, s: State, w: nat, p: Phase, count: nat, line: string, remainder: string)
    requires w < |s.workers| && p.Reading? && count <= |p.unread| && 0 <= p.chunk < j.Total()
    requires HeaderStep(p.accumulated, p.unread[..count]) == HeaderLine(line, remainder)
    requires Parse(line) == Announced(j.fileId, p.chunk, |j.chunks[p.chunk]|, j.digest(j.chunks[p.chunk]))
    requires remainder + p.unread[count..] <= j.chunks[p.chunk]
    ensures HonestPhase(j, HeaderPiece(s, w, p, count), HeaderPiece(s, w, p, count).workers[w])
  {
    assert |remainder| <= |j.chunks[p.chunk]|;
    assert remainder[..|remainder|] == remainder;
  }

  lemma RejectedHeader(j: Job, s: State, w: nat, p: Phase, count: nat, line: string, remainder: string)
    requires w < |s.workers| && p.Reading? && count <= |p.unread|
    requires HeaderStep(p.accumulated, p.unread[..count]) == HeaderLine(line, remainder)
    requires Parse(line).kind != CHUNK
    ensures HeaderPiece(s, w, p, count).workers[w] == Releasing(p.chunk, p.attempt, false)
  {
  }

  lemma HonestReceiving(j: Job, s: State, w: nat, choice: Choice)
    requires Enabled(j, s, w, choice) && s.workers[w].Receiving?
    requires HonestPhase(j, s, s.workers[w]) && FileOf(j, s, s.workers[w])
    ensures HonestPhase(j, Next(j, s, w, choice), Next(j, s, w, choice).workers[w])
  {
    var p := s.workers[w];
    if choice.Recv? && p.remaining > 0 {
      assert s.downloads[p.chunk] + p.unread
        == s.downloads[p.chunk] + p.unread[..choice.count] + p.unread[choice.count..];
    } else if p.remaining == 0 {
      assert s.downloads[p.chunk] == j.chunks[p.chunk];
    }
  }

  lemma HonestElsewhere(j: Job, s: State, w: nat, choice: Choice)
    requires Enabled(j, s, w, choice) && HonestPhase(j, s, s.workers[w]) && HonestChoice(j, s.workers[w], choice)
    requires var p := s.workers[w]; !p.Idle? && !p.Marking? && !p.Reading? && !p.Receiving?
    ensures HonestPhase(j, Next(j, s, w, choice), Next(j, s, w, choice).workers[w])
  {
    if choice.Connect? {
      assert "" + choice.stream == choice.stream;
    }
  }

  lemma HonestAsk(j: Job, s: State, w: nat, absent: set<int>, given: map<int, string>)
    requires Shape(j, s) && Claims(j, s) && HonestInv(j, s, absent, given) && w < |s.workers| && s.workers[w].Idle?
    ensures Shape(j, AskScheduler(s, w)) && HonestInv(j, AskScheduler(s, w), absent, given)
  {
    var t := AskScheduler(s, w);
    FirstFreeIsLeast(s.sched, 0);
    forall v | 0 <= v < |t.workers|
      ensures HonestPhase(j, t, t.workers[v])
    {
      if v != w {
        OtherHonest(j, s, t, -1, s.workers[v]);
      }
    }
  }

  lemma HonestTell(j: Job, s: State, w: nat, absent: set<int>, given: map<int, string>, c: int, ok: bool)
    requires Shape(j, s) && Claims(j, s) && Files(j, s) && HonestInv(j, s, absent, given)
    requires w < |s.workers| && s.workers[w] == Marking(c, ok)
    ensures Shape(j, TellScheduler(s, w, c, ok)) && HonestInv(j, TellScheduler(s, w, c, ok), absent, given)
  {
    var t := TellScheduler(s, w, c, ok);
    assert FileOf(j, s, s.workers[w]) && HonestPhase(j, s, s.workers[w]);
    forall v | 0 <= v < |t.workers|
      ensures HonestPhase(j, t, t.workers[v])
    {
      if v != w {
        OtherHonest(j, s, t, -1, s.workers[v]);
      }
    }
  }

  lemma HonestStep(j: Job, s: State, w: nat, choice: Choice, absent: set<int>, given: map<int, string>)
    requires HonestJob(j) && Inv(j, s) && HonestInv(j, s, absent, given)
    requires Enabled(j, s, w, choice) && HonestChoice(j, s.workers[w], choice)
    ensures Shape(j, Next(j, s, w, choice)) && HonestInv(j, Next(j, s, w, choice), absent, given)
  {
    ShapeKept(j, s, w, choice);
    var p := s.workers[w];
    assert FileOf(j, s, p) && HonestPhase(j, s, p);
    if p.Idle? {
      HonestAsk(j, s, w, absent, given);
    } else if p.Marking? {
      HonestTell(j, s, w, absent, given, p.chunk, p.ok);
    } else {
      StepKeepsChunk(j, s, w, choice);
      if p.Reading? {
        OwnFileReading(j, s, w, choice);
        HonestReading(j, s, w, choice);
      } else if p.Receiving? {
        OwnFileReceiving(j, s, w, choice);
        HonestReceiving(j, s, w, choice);
      } else {
        OwnFileStep(j, s, w, choice);
        HonestElsewhere(j, s, w, choice);
      }
      HonestKept(j, s, Next(j, s, w, choice), w, absent, given);
    }
  }

  lemma {:induction false} HonestRun(j: Job, s: State, actions: seq<Action>, absent: set<int>, given: map<int, string>)
    requires HonestJob(j) && Inv(j, s) && HonestInv(j, s, absent, given)
    requires Possible(j, s, actions) && HonestSchedule(j, s, actions)
    ensures Inv(j, Run(j, s, actions)) && HonestInv(j, Run(j, s, actions), absent, given)
    decreases |actions|
  {
    if actions != [] {
      var w, choice := actions[0].worker, actions[0].choice;
      StepInv(j, s, w, choice);
      HonestStep(j, s, w, choice, absent, given);
      HonestRun(j, Next(j, s, w, choice), actions[1..], absent, given);
    }
  }

  // ---------- the whole download ----------

  /** The chunks counted done at the start although the download directory has no file of them. */
  function DoneWithoutFile(j: Job, stateFile: Option<string>, downloads: map<int, string>,
                           shared: map<int, string>): set<int>
  {
    var loaded := Load(stateFile, j.Total());
    set c | 0 <= c < j.Total() && CountedDone(loaded, downloads, shared, c) && c !in downloads
  }

  /** Chunk files that are there at the start belong to the file. */
  predicate StartGenuine(j: Job, downloads: map<int, string>) {
    forall c :: 0 <= c < j.Total() && c in downloads ==> downloads[c] == j.chunks[c]
  }

  lemma StartHonest(j: Job, stateFile: Option<string>, downloads: map<int, string>, shared: map<int, string>,
                    workers: nat)
    requires HonestJob(j) && workers > 0
    ensures var s := Start(j, stateFile, downloads, shared, workers);
            Inv(j, s) && HonestInv(j, s, DoneWithoutFile(j, stateFile, downloads, shared), downloads)
  {
    StartInv(j, stateFile, downloads, shared, workers);
  }

  /** A state that some schedule with honest peers reaches from the start of a download. */
  ghost predicate ReachedHonestly(j: Job, stateFile: Option<string>, downloads: map<int, string>,
                                  shared: map<int, string>, workers: nat, actions: seq<Action>, s: State)
  {
    && workers > 0
    && var start := Start(j, stateFile, downloads, shared, workers);
       Possible(j, start, actions) && HonestSchedule(j, start, actions) && Run(j, start, actions) == s
  }

  lemma ReachedHonestInv(j: Job, stateFile: Option<string>, downloads: map<int, string>, shared: map<int, string>,
                         workers: nat, actions: seq<Action>, s: State)
    requires HonestJob(j) && ReachedHonestly(j, stateFile, downloads, shared, workers, actions, s)
    ensures Inv(j, s) && HonestInv(j, s, DoneWithoutFile(j, stateFile, downloads, shared), downloads)
  {
    var start := Start(j, stateFile, downloads, shared, workers);
    StartHonest(j, stateFile, downloads, shared, workers);
    HonestRun(j, start, actions, DoneWithoutFile(j, stateFile, downloads, shared), downloads);
  }

  /**
   At the end every chunk has its file: the one it had at the start, where it had one, and its original chunk
   otherwise; but for those counted done at the start without a file.
   */
  lemma FilesAtEnd(j: Job, stateFile: Option<string>, downloads: map<int, string>, shared: map<int, string>,
                   workers: nat, actions: seq<Action>, s: State)
    requires HonestJob(j) && ReachedHonestly(j, stateFile, downloads, shared, workers, actions, s) && AllReturned(s)
    ensures var absent := DoneWithoutFile(j, stateFile, downloads, shared);
            forall c :: 0 <= c < j.Total() ==>
              if c in absent then c !in s.downloads
              else c in s.downloads && s.downloads[c] == if c in downloads then downloads[c] else j.chunks[c]
  {
    ReachedHonestInv(j, stateFile, downloads, shared, workers, actions, s);
    FilesWhenDone(j, s, DoneWithoutFile(j, stateFile, downloads, shared), downloads);
  }

  lemma FilesWhenDone(j: Job, s: State, absent: set<int>, given: map<int, string>)
    requires Inv(j, s) && HonestInv(j, s, absent, given) && AllReturned(s)
    ensures forall c :: 0 <= c < j.Total() ==>
              if c in absent then c !in s.downloads
              else c in s.downloads && s.downloads[c] == if c in given then given[c] else j.chunks[c]
  {
    AllDoneAtEnd(j, s);
    assert forall c :: 0 <= c < j.Total() ==> !s.sched.claimed[c];
  }

  /**
   For any file and chunk size from 1 byte to 64 MiB, honest peers holding its split, and any interleaving,
   failures, failover and segmentation in which the workers finish: merging the download directory gives the
   original bytes exactly when every chunk counted done at the start had its file in the download directory.
   */
  lemma DeliversOriginalIff(original: string, size: nat, j: Job, stateFile: Option<string>, downloads: map<int, string>,
                            shared: map<int, string>, workers: nat, actions: seq<Action>, s: State)
    requires HonestFile(original, size, j) && StartGenuine(j, downloads)
    requires ReachedHonestly(j, stateFile, downloads, shared, workers, actions, s) && AllReturned(s)
    ensures JoinFrom(s.downloads, 0, j.Total()) == (true, original)
            <==> DoneWithoutFile(j, stateFile, downloads, shared) == {}
  {
    HonestFileIsHonestJob(original, size, j);
    ReachedHonestInv(j, stateFile, downloads, shared, workers, actions, s);
    MergedIff(original, size, j, s, DoneWithoutFile(j, stateFile, downloads, shared), downloads);
  }

  lemma MergedIff(original: string, size: nat, j: Job, s: State, absent: set<int>, given: map<int, string>)
    requires HonestFile(original, size, j) && StartGenuine(j, given)
    requires Inv(j, s) && HonestInv(j, s, absent, given) && AllReturned(s)
    ensures JoinFrom(s.downloads, 0, j.Total()) == (true, original) <==> absent == {}
  {
    FilesWhenDone(j, s, absent, given);
    MergeSucceedsIff(s.downloads, 0, j.Total());
    if absent == {} {
      forall c | 0 <= c < j.Total()
        ensures c in s.downloads && s.downloads[c] == j.chunks[c]
      {
        assert c !in absent;
      }
      JoinStored(s.downloads, j.chunks, 0);
      assert j.chunks[0..] == j.chunks;
      SplitShape(original, size);
    } else {
      assert exists c :: c in absent && 0 <= c < j.Total() && c !in s.downloads;
    }
  }

  /** The peers hold the split of the file; ids, sizes and digest text fit the protocol. */
  ghost predicate HonestFile(original: string, size: nat, j: Job) {
    && ChunkSizeInRange(size) && j.chunks == Pieces(original, size)
    && SafeFileId(j.fileId) && j.Total() <= MAX_CHUNK_ID + 1
    && forall text :: DigestText(j.digest(text))
  }

  lemma HonestFileIsHonestJob(original: string, size: nat, j: Job)
    requires HonestFile(original, size, j)
    ensures HonestJob(j)
  {
    SplitShape(original, size);
  }

  /** In particular a download that starts from empty directories delivers the original file. */
  lemma FreshDownloadDelivers(original: string, size: nat, j: Job, workers: nat, actions: seq<Action>, s: State)
    requires HonestFile(original, size, j)
    requires ReachedHonestly(j, None, map[], map[], workers, actions, s) && AllReturned(s)
    ensures JoinFrom(s.downloads, 0, j.Total()) == (true, original)
  {
    assert DoneWithoutFile(j, None, map[], map[]) == {};
    DeliversOriginalIff(original, size, j, None, map[], map[], workers, actions, s);
  }

  /** A chunk that lies in the shared directory alone is never fetched, and the merge fails for want of it. */
  lemma SharedAloneIsMissing(original: string, size: nat, j: Job, stateFile: Option<string>,
                             downloads: map<int, string>, shared: map<int, string>, workers: nat, actions: seq<Action>,
                             s: State, c: int)
    requires HonestFile(original, size, j) && 0 <= c < j.Total() && c in shared && c !in downloads
    requires ReachedHonestly(j, stateFile, downloads, shared, workers, actions, s) && AllReturned(s)
    ensures c !in s.downloads && !JoinFrom(s.downloads, 0, j.Total()).0
  {
    HonestFileIsHonestJob(original, size, j);
    assert c in DoneWithoutFile(j, stateFile, downloads, shared);
    FilesAtEnd(j, stateFile, downloads, shared, workers, actions, s);
    MergeSucceedsIff(s.downloads, 0, j.Total());
  }

  /** One run of that kind: the only chunk is shared, so the only worker returns at once. */
  lemma SharedAloneReturns(j: Job) returns (actions: seq<Action>, s: State)
    requires HonestJob(j) && j.Total() == 1
    ensures ReachedHonestly(j, None, map[], map[0 := j.chunks[0]], 1, actions, s) && AllReturned(s)
    ensures 0 in DoneWithoutFile(j, None, map[], map[0 := j.chunks[0]]) && !JoinFrom(s.downloads, 0, 1).0
  {
    var start := Start(j, None, map[], map[0 := j.chunks[0]], 1);
    actions := [Action(0, Go)];
    assert actions[1..] == [];
    FirstFreeIsLeast(start.sched, 0);
    assert start.sched.done[0] && start.sched.NextChunk() == -1;
    s := AskScheduler(start, 0);
    assert Next(j, start, 0, Go) == s;
  }
}
