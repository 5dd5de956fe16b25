/** What servers make of requests, whole or cut, and what that does to the client that asked. */
module Service {
  import opened Options
  import opened Text
  import opened Protocol
  import opened ChunkFiles
  import opened Transfer
  import opened Delivery
  import opened Engine
  import opened EndToEnd
  import opened Restart

  // ---------- the reply to a request ----------

  /** The chunk file that a server answers with: the shared one first. */
  function Content(shared: map<int, string>, downloaded: map<int, string>, c: int): Option<string> {
    if c in shared then Some(shared[c]) else if c in downloaded then Some(downloaded[c]) else None
  }

  lemma AnswerIs(digest: string -> string, shared: map<int, string>, downloaded: map<int, string>, fileId: string,
                 c: int)
    requires SafeFileId(fileId)
    ensures Answer(digest, shared, downloaded, fileId, c)
            == match Content(shared, downloaded, c)
               case Some(content) => Wire(digest, fileId, c, content)
               case None => BuildError("chunk_not_found")
  {
  }

  lemma NoNul(fileId: string, chunkId: nat, k: nat)
    requires SafeFileId(fileId) && k <= |BuildRequest(fileId, chunkId)|
    ensures CString(Glimpsed(fileId, chunkId, k)) == Glimpsed(fileId, chunkId, k)
  {
    DecimalReadsBack(chunkId);
    NoNulInLine(BuildRequest(fileId, chunkId), fileId, Decimal(chunkId));
    var seen := Glimpsed(fileId, chunkId, k);
    assert seen[..|seen|] == seen;
    FindIs(seen, '\0', |seen|);
  }

  lemma NoNulInLine(line: string, fileId: string, digits: string)
    requires SafeFileId(fileId) && AllDigits(digits) && line == "REQUEST " + fileId + " " + digits + "\n"
    ensures '\0' !in line
  {
    assert '\0' !in fileId by { assert forall i :: 0 <= i < |fileId| ==> SafeChar(fileId[i]); }
    assert '\0' !in digits by { assert forall i :: 0 <= i < |digits| ==> IsDigit(digits[i]); }
    assert '\0' !in "REQUEST " && '\0' !in " " && '\0' !in "\n";
  }

  /** The reply to as much of a request as the one read got. */
  lemma ReplyIs(digest: string -> string, shared: map<int, string>, downloaded: map<int, string>, fileId: string,
                chunkId: nat, k: nat)
    requires SafeFileId(fileId) && ChunkIdInRange(chunkId) && k <= |BuildRequest(fileId, chunkId)|
    ensures Reply(digest, shared, downloaded, Glimpsed(fileId, chunkId, k))
            == match SeenChunk(fileId, chunkId, k)
               case Some(d) => Answer(digest, shared, downloaded, fileId, d)
               case None => BuildError("invalid_request")
  {
    NoNul(fileId, chunkId, k);
    SafeFileIdIsToken(fileId);
    RequestSeen(fileId, chunkId, k);
  }

  /** 1 to 128 characters of which each is, by its code, a dash, a dot, a digit, a letter or an underscore. */
  predicate PathName(s: string) {
    1 <= |s| <= 128 && forall i :: 0 <= i < |s| ==>
      var code := s[i] as int;
      code == 45 || code == 46 || 48 <= code <= 57 || 65 <= code <= 90 || code == 95 || 97 <= code <= 122
  }

  lemma SafeIsPathName(s: string)
    ensures SafeFileId(s) <==> PathName(s)
  {
  }

  /** The reply to a line whose meaning is known. */
  lemma ReplyToParsed(digest: string -> string, shared: map<int, string>, downloaded: map<int, string>,
                      fileId: string, c: int, line: string)
    requires CString(line) == line && Parse(line) == Requested(fileId, c)
    ensures Reply(digest, shared, downloaded, line) == Answer(digest, shared, downloaded, fileId, c)
  {
  }

  /** The answer, spelled out. */
  ghost predicate AnswerText(digest: string -> string, shared: map<int, string>, downloaded: map<int, string>,
                             fileId: string, c: int, text: string)
  {
    if !PathName(fileId) then text == "ERROR invalid_file_id\n"
    else if c in shared then text == BuildChunk(fileId, c, |shared[c]|, digest(shared[c])) + shared[c]
    else if c in downloaded then text == BuildChunk(fileId, c, |downloaded[c]|, digest(downloaded[c])) + downloaded[c]
    else text == "ERROR chunk_not_found\n"
  }

  lemma AnswerIsText(digest: string -> string, shared: map<int, string>, downloaded: map<int, string>,
                     fileId: string, c: int)
    ensures AnswerText(digest, shared, downloaded, fileId, c, Answer(digest, shared, downloaded, fileId, c))
  {
    SafeIsPathName(fileId);
  }

  /** What a whole request for any one-word file id is answered with. */
  lemma ReplyToRequest(digest: string -> string, shared: map<int, string>, downloaded: map<int, string>,
                       fileId: string, c: int, line: string)
    requires IsToken(fileId) && '\0' !in fileId && 0 <= c <= 1_000_000 && line == BuildRequest(fileId, c)
    ensures AnswerText(digest, shared, downloaded, fileId, c, Reply(digest, shared, downloaded, line))
  {
    RequestHasNoNul(fileId, c, line);
    ParsesRequest(fileId, c);
    ReplyToParsed(digest, shared, downloaded, fileId, c, line);
    AnswerIsText(digest, shared, downloaded, fileId, c);
  }

  lemma RequestHasNoNul(fileId: string, c: nat, line: string)
    requires '\0' !in fileId && line == BuildRequest(fileId, c)
    ensures CString(line) == line
  {
    DecimalReadsBack(c);
    assert '\0' !in Decimal(c) by { assert forall i :: 0 <= i < |Decimal(c)| ==> IsDigit(Decimal(c)[i]); }
    assert '\0' !in "REQUEST " && '\0' !in " " && '\0' !in "\n";
    assert line[..|line|] == line;
    FindIs(line, '\0', |line|);
  }

  /**
   Only a chunk header with a safe file id is refused as unsupported; other messages than requests are refused for
   the file id that they do not have.
   */
  lemma UnsupportedIff(digest: string -> string, shared: map<int, string>, downloaded: map<int, string>, bytes: string,
                       m: ParsedMessage)
    requires m == Parse(CString(bytes))
    ensures Reply(digest, shared, downloaded, bytes) == "ERROR unsupported_command\n"
            <==> m.kind == CHUNK && SafeFileId(m.fileId)
  {
    KindOf(CString(bytes), m);
    OtherReplies(digest, m.fileId, m.chunkId, Content(shared, downloaded, m.chunkId));
    if m.kind == REQUEST && SafeFileId(m.fileId) {
      AnswerIs(digest, shared, downloaded, m.fileId, m.chunkId);
    }
  }

  lemma KindOf(line: string, m: ParsedMessage)
    requires m == Parse(line)
    ensures m.valid <==> m.kind != UNKNOWN
    ensures m.kind in {CONNECT, COMPLETE, ERROR} ==> m.fileId == ""
  {
  }

  lemma OtherReplies(digest: string -> string, fileId: string, c: int, x: Option<string>)
    ensures x.Some? ==> Wire(digest, fileId, c, x.value) != "ERROR unsupported_command\n"
    ensures BuildError("chunk_not_found") != "ERROR unsupported_command\n"
    ensures BuildError("invalid_request") != "ERROR unsupported_command\n"
    ensures BuildError("invalid_file_id") != "ERROR unsupported_command\n"
    ensures BuildError("unsupported_command") == "ERROR unsupported_command\n"
  {
    if x.Some? {
      assert Wire(digest, fileId, c, x.value)[0] == 'C';
    }
    assert |BuildError("chunk_not_found")| < |"ERROR unsupported_command\n"|;
    assert |BuildError("invalid_request")| < |"ERROR unsupported_command\n"|;
    assert |BuildError("invalid_file_id")| < |"ERROR unsupported_command\n"|;
  }

  // ---------- what the client makes of a reply ----------

  /** What a header read gives is the first line of what was sent. */
  lemma HeaderIsLine(pieces: seq<string>, line: string, body: string, h: HeaderRead)
    requires Pieced(pieces) && Join(pieces) <= line + body && h == ReadHeaderFrom("", pieces) && h.ok
    requires line != "" && Find(line + body, '\n') == |line| - 1
    ensures h.line == line
  {
    HeaderLossless("", pieces);
    assert "" + Join(pieces) == Join(pieces);
    LineIsLine(line, body, Join(pieces), h.line, h.remainder, Join(h.left));
  }

  lemma LineIsLine(line: string, body: string, all: string, got: string, remainder: string, left: string)
    requires all <= line + body && all == got + remainder + left
    requires line != "" && Find(line + body, '\n') == |line| - 1
    requires got != "" && Find(all, '\n') == |got| - 1
    ensures got == line
  {
    assert all + "" == all;
    LineOfAnswer(line + body, line, body, all, "");
    FirstOfThree(all, got, remainder, left);
  }

  /** Behind a first line that announces no chunk the client leaves its file alone, however much of it arrives. */
  lemma FetchRefused(digest: string -> string, before: Option<string>, pieces: seq<string>, line: string, body: string)
    requires Pieced(pieces) && Join(pieces) <= line + body
    requires line != "" && Find(line + body, '\n') == |line| - 1
    requires !Parse(line).valid || Parse(line).kind != CHUNK
    ensures Fetch(digest, before, pieces) == Outcome(false, before)
  {
    if ReadHeaderFrom("", pieces).ok {
      HeaderIsLine(pieces, line, body, ReadHeaderFrom("", pieces));
    }
  }

  lemma FirstOfThree(all: string, a: string, b: string, c: string)
    requires all == a + b + c
    ensures |a| <= |all| && all[..|a|] == a
  {
  }

  lemma FetchOfError(digest: string -> string, before: Option<string>, pieces: seq<string>, text: string)
    requires Pieced(pieces) && '\n' !in text && Join(pieces) <= BuildError(text)
    ensures Fetch(digest, before, pieces) == Outcome(false, before)
  {
    var line := BuildError(text);
    assert line + "" == line;
    ErrorIsOneLine(line, text);
    ParsesError(text);
    FetchRefused(digest, before, pieces, line, "");
  }

  /** The header of an empty file, or of one over 64 MiB, announces no chunk. */
  lemma HeaderOutOfRange(fileId: string, c: int, size: nat, hash: string)
    requires IsToken(fileId) && IsToken(hash) && !ChunkSizeInRange(size)
    ensures !Parse(BuildChunk(fileId, c, size, hash)).valid
  {
    SignedDecimalIsToken(c);
    SignedDecimalIsToken(size);
    ChunkWords(BuildChunk(fileId, c, size, hash), fileId, SignedDecimal(c), SignedDecimal(size), hash);
    SizeReadsBack(size);
  }

  lemma SizeReadsBack(size: nat)
    ensures StoLL(SignedDecimal(size)).Some? ==> StoLL(SignedDecimal(size)).value == size
  {
    ReadPlain(Decimal(size) + "", size, "");
    assert Decimal(size) + "" == Decimal(size);
    DecimalIsToken(size);
  }

  /** What the client makes of the first `n` bytes of an answer: success exactly with a whole, acceptable chunk. */
  lemma FetchOfAnswer(digest: string -> string, before: Option<string>, pieces: seq<string>,
                      shared: map<int, string>, downloaded: map<int, string>, fileId: string, d: int, n: nat)
    requires SafeFileId(fileId) && ChunkIdInRange(d) && (forall text :: DigestText(digest(text)))
    requires n <= |Answer(digest, shared, downloaded, fileId, d)|
    requires Pieced(pieces) && Join(pieces) == Answer(digest, shared, downloaded, fileId, d)[..n]
    ensures var r, x := Fetch(digest, before, pieces), Content(shared, downloaded, d);
            (r.ok <==> x.Some? && ChunkSizeInRange(|x.value|) && n == |Answer(digest, shared, downloaded, fileId, d)|)
            && (r.ok ==> r.file == x)
  {
    AnswerIs(digest, shared, downloaded, fileId, d);
    var x := Content(shared, downloaded, d);
    if x.None? {
      FetchOfError(digest, before, pieces, "chunk_not_found");
    } else if ChunkSizeInRange(|x.value|) {
      FetchPrefixOfWire(digest, before, pieces, fileId, d, x.value, n);
    } else {
      SafeFileIdIsToken(fileId);
      var header := BuildChunk(fileId, d, |x.value|, digest(x.value));
      HeaderOutOfRange(fileId, d, |x.value|, digest(x.value));
      HeaderIsFirstLine(header, fileId, d, |x.value|, digest(x.value), x.value);
      FetchRefused(digest, before, pieces, header, x.value);
    }
  }

  // ---------- is it the right chunk? ----------

  /** The client fails, or has the chunk that it asked for. */
  predicate Right(j: Job, c: int, r: Outcome)
    requires 0 <= c < j.Total()
  {
    r.ok ==> r.file == Some(j.chunks[c])
  }

  /** The server has nothing acceptable under this number but the chunk `c`. */
  predicate NothingWrong(j: Job, shared: map<int, string>, downloaded: map<int, string>, d: int, c: int)
    requires 0 <= c < j.Total()
  {
    var x := Content(shared, downloaded, d);
    x.Some? && ChunkSizeInRange(|x.value|) ==> x.value == j.chunks[c]
  }

  /**
   Any store, any number of bytes that the server's one read got, any part of the reply in any pieces: the client
   fails or has the right chunk exactly when the reply did not arrive whole, or no number was seen, or the server
   has nothing else under the number that it saw.
   */
  lemma ReplyRightIff(j: Job, before: Option<string>, pieces: seq<string>, shared: map<int, string>,
                      downloaded: map<int, string>, c: nat, k: nat, reply: string, n: nat)
    requires HonestJob(j) && c < j.Total() && k <= |BuildRequest(j.fileId, c)|
    requires reply == Reply(j.digest, shared, downloaded, Glimpsed(j.fileId, c, k)) && n <= |reply|
    requires Pieced(pieces) && Join(pieces) == reply[..n]
    ensures Right(j, c, Fetch(j.digest, before, pieces))
            <==> n < |reply|
                 || SeenChunk(j.fileId, c, k).None?
                 || NothingWrong(j, shared, downloaded, SeenChunk(j.fileId, c, k).value, c)
  {
    ReplyIs(j.digest, shared, downloaded, j.fileId, c, k);
    SafeFileIdIsToken(j.fileId);
    RequestSeen(j.fileId, c, k);
    match SeenChunk(j.fileId, c, k)
    case None =>
      PrefixOf(BuildError("invalid_request"), n);
      FetchOfError(j.digest, before, pieces, "invalid_request");
    case Some(d) =>
      FetchOfAnswer(j.digest, before, pieces, shared, downloaded, j.fileId, d, n);
  }

  lemma PrefixOf(s: string, n: nat)
    requires n <= |s|
    ensures s[..n] <= s
  {
  }

  /** The server shares the whole split. */
  ghost predicate Seed(j: Job, shared: map<int, string>) {
    forall c :: 0 <= c < j.Total() ==> c in shared && shared[c] == j.chunks[c]
  }

  /** The chunk whose number is left of the one asked for, when the server's read got `k` bytes of the line. */
  function NumberLeft(fileId: string, c: nat, k: nat): (d: nat)
    ensures d <= c
  {
    if k >= LineEnd(fileId, c) then c
    else
      DropDigitsShrinks(c, LineEnd(fileId, c) - k);
      DropDigits(c, LineEnd(fileId, c) - k)
  }

  lemma SeedHasNumberLeft(j: Job, shared: map<int, string>, downloaded: map<int, string>, c: nat, k: nat)
    requires HonestJob(j) && c < j.Total() && Seed(j, shared)
    ensures NothingWrong(j, shared, downloaded, NumberLeft(j.fileId, c, k), c)
            <==> j.chunks[NumberLeft(j.fileId, c, k)] == j.chunks[c]
  {
    assert ChunkSizeInRange(|j.chunks[NumberLeft(j.fileId, c, k)]|);
  }

  lemma SeedVerdict(j: Job, shared: map<int, string>, downloaded: map<int, string>, c: nat, k: nat, cut: bool,
                    right: bool)
    requires HonestJob(j) && c < j.Total() && k <= |BuildRequest(j.fileId, c)| && Seed(j, shared)
    requires SeenChunk(j.fileId, c, k).Some? ==> SeenChunk(j.fileId, c, k).value == NumberLeft(j.fileId, c, k)
    requires right <==> cut || SeenChunk(j.fileId, c, k).None?
                        || NothingWrong(j, shared, downloaded, SeenChunk(j.fileId, c, k).value, c)
    ensures right <==> k <= NumberStart(j.fileId) || k >= LineEnd(j.fileId, c) || cut
                       || j.chunks[NumberLeft(j.fileId, c, k)] == j.chunks[c]
  {
    SeedHasNumberLeft(j, shared, downloaded, c, k);
  }

  /**
   From a seed the client fails or has the right chunk exactly when the server's read ended before the number or
   behind it, or the reply did not arrive whole, or the chunk whose number was left is the same.
   */
  lemma SeedRightIff(j: Job, before: Option<string>, pieces: seq<string>, shared: map<int, string>,
                     downloaded: map<int, string>, c: nat, k: nat, reply: string, n: nat)
    requires HonestJob(j) && c < j.Total() && k <= |BuildRequest(j.fileId, c)| && Seed(j, shared)
    requires reply == Reply(j.digest, shared, downloaded, Glimpsed(j.fileId, c, k)) && n <= |reply|
    requires Pieced(pieces) && Join(pieces) == reply[..n]
    ensures Right(j, c, Fetch(j.digest, before, pieces))
            <==> k <= NumberStart(j.fileId) || k >= LineEnd(j.fileId, c) || n < |reply|
                 || j.chunks[NumberLeft(j.fileId, c, k)] == j.chunks[c]
  {
    ReplyRightIff(j, before, pieces, shared, downloaded, c, k, reply, n);
    SeedVerdict(j, shared, downloaded, c, k, n < |reply|, Right(j, c, Fetch(j.digest, before, pieces)));
  }

  /** A read that ends inside the number: the client takes the chunk whose number was left, and notices nothing. */
  lemma CutStoresAnother(j: Job, before: Option<string>, pieces: seq<string>, shared: map<int, string>,
                         downloaded: map<int, string>, c: nat, k: nat, reply: string)
    requires HonestJob(j) && c < j.Total() && Seed(j, shared)
    requires NumberStart(j.fileId) < k < LineEnd(j.fileId, c)
    requires reply == Reply(j.digest, shared, downloaded, Glimpsed(j.fileId, c, k))
    requires Pieced(pieces) && Join(pieces) == reply
    ensures var d := NumberLeft(j.fileId, c, k);
            d < c && Fetch(j.digest, before, pieces) == Outcome(true, Some(j.chunks[d]))
  {
    var d := NumberLeft(j.fileId, c, k);
    ReplyIs(j.digest, shared, downloaded, j.fileId, c, k);
    SafeFileIdIsToken(j.fileId);
    RequestSeen(j.fileId, c, k);
    assert reply[..|reply|] == reply;
    FetchOfAnswer(j.digest, before, pieces, shared, downloaded, j.fileId, d, |reply|);
  }

  // ---------- honest servers ----------

  /** What a server has under each number, and how many bytes of the request its one read gets. */
  datatype Server = Server(shared: map<int, string>, downloaded: map<int, string>, read: nat)

  /** The server has nothing under the number of a chunk but that chunk. */
  ghost predicate GenuineStore(j: Job, server: Server) {
    forall c :: 0 <= c < j.Total() ==>
      Content(server.shared, server.downloaded, c) in {None, Some(j.chunks[c])}
  }

  /** The read ends before the number or behind it. */
  predicate ReadsNumber(j: Job, server: Server, c: nat) {
    server.read <= |BuildRequest(j.fileId, c)|
    && (server.read <= NumberStart(j.fileId) || server.read >= LineEnd(j.fileId, c))
  }

  ghost predicate ServedBy(j: Job, c: int, server: Server, stream: string) {
    && 0 <= c < j.Total() && GenuineStore(j, server) && ReadsNumber(j, server, c)
    && stream <= Reply(j.digest, server.shared, server.downloaded, Glimpsed(j.fileId, c, server.read))
  }

  /** Such a server replies with the chunk, or with an error line. */
  lemma ServedReply(j: Job, c: int, server: Server)
    requires HonestJob(j) && 0 <= c < j.Total() && GenuineStore(j, server) && ReadsNumber(j, server, c)
    ensures var reply := Reply(j.digest, server.shared, server.downloaded, Glimpsed(j.fileId, c, server.read));
            reply in
              {Wire(j.digest, j.fileId, c, j.chunks[c]), BuildError("chunk_not_found"), BuildError("invalid_request")}
  {
    ReplyIs(j.digest, server.shared, server.downloaded, j.fileId, c, server.read);
    AnswerIs(j.digest, server.shared, server.downloaded, j.fileId, c);
  }

  lemma PartIsHonest(j: Job, c: int, reply: string, stream: string)
    requires 0 <= c < j.Total() && stream <= reply
    requires reply in
               {Wire(j.digest, j.fileId, c, j.chunks[c]), BuildError("chunk_not_found"), BuildError("invalid_request")}
    ensures HonestStream(j, c, stream)
  {
    if reply != Wire(j.digest, j.fileId, c, j.chunks[c]) {
      var text := if reply == BuildError("chunk_not_found") then "chunk_not_found" else "invalid_request";
      assert '\n' !in text && stream <= BuildError(text);
    }
  }

  /** Whatever part of the reply of such a server arrives is an honest stream. */
  lemma ServedIsHonest(j: Job, c: int, server: Server, stream: string)
    requires HonestJob(j) && ServedBy(j, c, server, stream)
    ensures HonestStream(j, c, stream)
  {
    ServedReply(j, c, server);
    PartIsHonest(j, c, Reply(j.digest, server.shared, server.downloaded, Glimpsed(j.fileId, c, server.read)), stream);
  }

  /** Every connection is to such a server. */
  ghost predicate ServedSchedule(j: Job, s: State, actions: seq<Action>)
    requires Possible(j, s, actions)
    decreases |actions|
  {
    actions == [] ||
    (ServedChoice(j, s.workers[actions[0].worker], actions[0].choice)
     && ServedSchedule(j, Next(j, s, actions[0].worker, actions[0].choice), actions[1..]))
  }

  ghost predicate ServedChoice(j: Job, p: Phase, choice: Choice) {
    p.Reserved? && choice.Connect? ==> exists server :: ServedBy(j, p.chunk, server, choice.stream)
  }

  lemma {:induction false} ServedScheduleHonest(j: Job, s: State, actions: seq<Action>)
    requires HonestJob(j) && Possible(j, s, actions) && ServedSchedule(j, s, actions)
    ensures HonestSchedule(j, s, actions)
    decreases |actions|
  {
    if actions != [] {
      var p, choice := s.workers[actions[0].worker], actions[0].choice;
      if p.Reserved? && choice.Connect? {
        var server :| ServedBy(j, p.chunk, server, choice.stream);
        ServedIsHonest(j, p.chunk, server, choice.stream);
      }
      ServedScheduleHonest(j, Next(j, s, actions[0].worker, choice), actions[1..]);
    }
  }

  /**
   For servers that have nothing but the original chunks and get each number whole, or not at all, in their one
   read: a finished download delivers the original exactly when no chunk was counted done without its file.
   */
  lemma ServedDeliversIff(original: string, size: nat, j: Job, stateFile: Option<string>, downloads: map<int, string>,
                          shared: map<int, string>, workers: nat, actions: seq<Action>, s: State)
    requires HonestFile(original, size, j) && StartGenuine(j, downloads) && workers > 0
    requires Possible(j, Start(j, stateFile, downloads, shared, workers), actions)
    requires ServedSchedule(j, Start(j, stateFile, downloads, shared, workers), actions)
    requires Run(j, Start(j, stateFile, downloads, shared, workers), actions) == s && AllReturned(s)
    ensures JoinFrom(s.downloads, 0, j.Total()) == (true, original)
            <==> DoneWithoutFile(j, stateFile, downloads, shared) == {}
  {
    HonestFileIsHonestJob(original, size, j);
    ServedScheduleHonest(j, Start(j, stateFile, downloads, shared, workers), actions);
    DeliversOriginalIff(original, size, j, stateFile, downloads, shared, workers, actions, s);
  }

  // ---------- peers that are downloading themselves ----------

  /** Whatever part of the answer arrives, in whatever pieces, over whatever file. */
  ghost predicate AlwaysRight(j: Job, c: int, answer: string)
    requires 0 <= c < j.Total()
  {
    forall pieces, before :: RightOn(j, c, answer, pieces, before)
  }

  ghost predicate RightOn(j: Job, c: int, answer: string, pieces: seq<string>, before: Option<string>)
    requires 0 <= c < j.Total()
  {
    Pieced(pieces) && Join(pieces) <= answer ==> Right(j, c, Fetch(j.digest, before, pieces))
  }

  lemma AnswerRightIff(j: Job, shared: map<int, string>, downloaded: map<int, string>, c: int)
    requires HonestJob(j) && 0 <= c < j.Total()
    ensures AlwaysRight(j, c, Answer(j.digest, shared, downloaded, j.fileId, c))
            <==> NothingWrong(j, shared, downloaded, c, c)
  {
    var answer := Answer(j.digest, shared, downloaded, j.fileId, c);
    if NothingWrong(j, shared, downloaded, c, c) {
      forall pieces, before
        ensures RightOn(j, c, answer, pieces, before)
      {
        if Pieced(pieces) && Join(pieces) <= answer {
          FetchOfAnswer(j.digest, before, pieces, shared, downloaded, j.fileId, c, |Join(pieces)|);
        }
      }
    } else {
      AnswerIs(j.digest, shared, downloaded, j.fileId, c);
      var pieces := [answer];
      assert pieces[1..] == [] && Join(pieces) == answer == answer[..|answer|];
      FetchOfAnswer(j.digest, None, pieces, shared, downloaded, j.fileId, c, |answer|);
      assert !RightOn(j, c, answer, pieces, None);
    }
  }

  /**
   A peer serves the files that it is downloading as they are. In every state that honest peers led it to, clients
   that ask it for a chunk which it does not share fail or have the right chunk exactly when no worker has a
   nonempty part of the chunk in its file, and the file was not there, acceptable but wrong, at the start.
   */
  lemma DownloaderServesIff(j: Job, stateFile: Option<string>, downloads: map<int, string>, shared: map<int, string>,
                            workers: nat, actions: seq<Action>, s: State, serving: map<int, string>, c: int)
    requires HonestJob(j) && ReachedHonestly(j, stateFile, downloads, shared, workers, actions, s)
    requires 0 <= c < j.Total() && c !in serving
    ensures AlwaysRight(j, c, Answer(j.digest, serving, s.downloads, j.fileId, c))
            <==> !(exists w :: PartInHand(s, w, c)) && !WrongAtStart(j, downloads, c)
  {
    var absent := DoneWithoutFile(j, stateFile, downloads, shared);
    ReachedHonestInv(j, stateFile, downloads, shared, workers, actions, s);
    AnswerRightIff(j, serving, s.downloads, c);
    if w :| PartInHand(s, w, c) {
      MidFileIsPart(j, s, absent, downloads, w, c);
      assert ChunkSizeInRange(|j.chunks[c]|);
    } else if c in s.downloads {
      FileAtStop(j, s, absent, downloads, c);
      if c !in downloads && s.downloads[c] != j.chunks[c] {
        var w :| MidFile(s, w, c);
        assert !PartInHand(s, w, c);
      }
    }
  }

  predicate PartInHand(s: State, w: int, c: int) {
    MidFile(s, w, c) && c in s.downloads && s.downloads[c] != ""
  }

  predicate WrongAtStart(j: Job, downloads: map<int, string>, c: int)
    requires 0 <= c < j.Total()
  {
    c in downloads && ChunkSizeInRange(|downloads[c]|) && downloads[c] != j.chunks[c]
  }

  /** A client that asks a downloading peer for a chunk of which it has part takes the part for the chunk. */
  lemma PartIsTaken(j: Job, stateFile: Option<string>, downloads: map<int, string>, shared: map<int, string>,
                    workers: nat, actions: seq<Action>, s: State, serving: map<int, string>, w: int, c: int,
                    before: Option<string>, pieces: seq<string>)
    requires HonestJob(j) && ReachedHonestly(j, stateFile, downloads, shared, workers, actions, s)
    requires PartInHand(s, w, c) && c !in serving
    requires Pieced(pieces) && Join(pieces) == Answer(j.digest, serving, s.downloads, j.fileId, c)
    ensures 0 <= c < j.Total() && Fetch(j.digest, before, pieces) == Outcome(true, Some(s.downloads[c]))
    ensures s.downloads[c] <= j.chunks[c] && s.downloads[c] != j.chunks[c]
  {
    ReachedHonestInv(j, stateFile, downloads, shared, workers, actions, s);
    MidFileIsPart(j, s, DoneWithoutFile(j, stateFile, downloads, shared), downloads, w, c);
    assert ChunkSizeInRange(|j.chunks[c]|);
    var answer := Answer(j.digest, serving, s.downloads, j.fileId, c);
    assert answer[..|answer|] == answer;
    FetchOfAnswer(j.digest, before, pieces, serving, s.downloads, j.fileId, c, |answer|);
  }
}
