/**
 Moving one chunk over a connection: the send loop, the header line read out of
 whatever pieces arrive, and the payload written behind it.
 */
module Transfer {
  import opened Options
  import opened Text
  import opened Protocol
  import opened ChunkFiles

  const TRANSFER_BUFFER := 16 * 1024
  const MAX_HEADER := 8192

  // ---------- the connection ----------

  /** How a connection ends once everything that will arrive has been read. */
  datatype Ending = CLOSED | BROKEN

  /** Every piece the network hands over holds at least one byte. */
  ghost predicate Pieced(pieces: seq<string>) {
    forall k :: 0 <= k < |pieces| ==> pieces[k] != ""
  }

  /** One `recv`: at most `limit` bytes off the first piece. */
  function TakePiece(pieces: seq<string>, limit: nat): (string, seq<string>)
    requires pieces != []
  {
    if |pieces[0]| <= limit then (pieces[0], pieces[1..])
    else (pieces[0][..limit], [pieces[0][limit..]] + pieces[1..])
  }

  lemma TakePieceLaw(pieces: seq<string>, limit: nat)
    requires pieces != [] && Pieced(pieces) && limit > 0
    ensures var (data, left) := TakePiece(pieces, limit);
            0 < |data| <= limit && Pieced(left) && Join(pieces) == data + Join(left)
            && |Join(left)| < |Join(pieces)|
  {
    if |pieces[0]| > limit {
      var left := [pieces[0][limit..]] + pieces[1..];
      assert left[1..] == pieces[1..];
      assert pieces[0] == pieces[0][..limit] + pieces[0][limit..];
    }
  }

  class Socket {
    var arriving: seq<string>
    const ending: Ending
    var sent: string
    var room: nat  // how many more bytes the other side takes before the connection breaks

    constructor (arriving: seq<string>, ending: Ending, room: nat)
      ensures this.arriving == arriving && this.ending == ending && this.room == room && sent == ""
    {
      this.arriving, this.ending, this.room, sent := arriving, ending, room, "";
    }

    /** `recv`: the byte count and the bytes, 0 at the end of a closed stream, negative on an error. */
    method Recv(limit: nat) returns (n: int, data: string)
      requires Pieced(arriving) && limit > 0
      modifies this`arriving
      ensures Pieced(arriving)
      ensures old(arriving) != [] ==> (data, arriving) == TakePiece(old(arriving), limit) && n == |data| > 0
      ensures old(arriving) == [] ==> arriving == [] && n <= 0 && (n == 0 <==> ending == CLOSED)
    {
      if arriving == [] {
        return if ending == CLOSED then 0 else -1, "";
      }
      TakePieceLaw(arriving, limit);
      var (bytes, left) := TakePiece(arriving, limit);
      arriving := left;
      n, data := |bytes|, bytes;
    }

    /** `send`: takes one byte or more as long as the connection holds, and none once it is broken. */
    method Send(data: string) returns (n: int)
      requires data != ""
      modifies this`sent, this`room
      ensures if old(room) == 0 then -1 <= n <= 0 else 0 < n <= old(room) && n <= |data|
      ensures var taken := if n < 0 then 0 else n; sent == old(sent) + data[..taken] && room == old(room) - taken
    {
      if room == 0 {
        n :| -1 <= n <= 0;
        return;
      }
      n :| 0 < n <= |data| && n <= room;
      sent, room := sent + data[..n], room - n;
    }
  }

  // ---------- sending ----------

  /** As much of the data was sent as there was room for. */
  predicate SentOf(before: string, room: nat, data: string, after: string, left: nat) {
    var n := Min(room, |data|);
    after == before + data[..n] && left == room - n
  }

  lemma SentShort(before: string, room: nat, first: string, after: string, left: nat, second: string)
    requires SentOf(before, room, first, after, left) && room < |first|
    ensures SentOf(before, room, first + second, after, left)
  {
    assert (first + second)[..room] == first[..room];
  }

  lemma SentBoth(before: string, room: nat, first: string, between: string, rest: nat, second: string, after: string,
                 left: nat)
    requires SentOf(before, room, first, between, rest) && |first| <= room
    requires SentOf(between, rest, second, after, left)
    ensures SentOf(before, room, first + second, after, left)
  {
    var n := Min(rest, |second|);
    assert first[..|first|] == first && (first + second)[..|first| + n] == first + second[..n];
  }

  lemma SliceOnward(data: string, i: nat, n: nat)
    requires i + n <= |data|
    ensures data[..i] + data[i..][..n] == data[..i + n]
  {
  }

  /** Sends all of the data where there is room for it, and what fits otherwise. */
  method SendAll(socket: Socket, data: string) returns (r: int)
    modifies socket`sent, socket`room
    ensures r == if |data| <= old(socket.room) then |data| else -1
    ensures SentOf(old(socket.sent), old(socket.room), data, socket.sent, socket.room)
  {
    var byteSent := 0;
    while byteSent < |data|
      invariant 0 <= byteSent <= |data| && byteSent <= old(socket.room)
      invariant socket.sent == old(socket.sent) + data[..byteSent] && socket.room == old(socket.room) - byteSent
    {
      var byteSend := socket.Send(data[byteSent..]);
      if byteSend == -1 {
        return -1;
      } else if byteSend == 0 {
        return -1;
      }
      SliceOnward(data, byteSent, byteSend);
      byteSent := byteSent + byteSend;
    }
    assert data[..byteSent] == data;
    r := byteSent;
  }

  /** Sends a chunk file buffer by buffer: all of it where there is room, and what fits otherwise. */
  method SendChunkFileInBuffers(socket: Socket, content: string) returns (ok: bool)
    modifies socket`sent, socket`room
    ensures ok <==> |content| <= old(socket.room)
    ensures SentOf(old(socket.sent), old(socket.room), content, socket.sent, socket.room)
  {
    var file := new InFile(content);
    while file.good
      invariant file.Valid() && file.content == content && file.pos <= old(socket.room)
      invariant SentOf(old(socket.sent), old(socket.room), content[..file.pos], socket.sent, socket.room)
      invariant !file.good ==> file.pos == |content|
      decreases file.good, |content| - file.pos
    {
      ghost var from, between, rest := file.pos, socket.sent, socket.room;
      var data := file.Read(TRANSFER_BUFFER);
      if |data| > 0 {
        var r := SendAll(socket, data);
        SentBoth(old(socket.sent), old(socket.room), content[..from], between, rest, data, socket.sent, socket.room);
        assert content[..from] + data == content[..file.pos];
        if r == -1 {
          SentShort(old(socket.sent), old(socket.room), content[..file.pos], socket.sent, socket.room,
                    content[file.pos..]);
          assert content[..file.pos] + content[file.pos..] == content;
          return false;
        }
      }
      assert content[..file.pos] == content[..from] + data;
    }
    assert content[..file.pos] == content;
    ok := true;
  }

  // ---------- the header line ----------

  datatype HeaderProgress = MoreHeader(accumulated: string) | HeaderLine(line: string, remainder: string)
    | HeaderTooLarge

  /** What one received piece does to the header being accumulated. */
  function HeaderStep(accumulated: string, piece: string): HeaderProgress {
    var all := accumulated + piece;
    var newline := Find(all, '\n');
    if newline < |all| then HeaderLine(all[..newline + 1], all[newline + 1..])
    else if |all| > MAX_HEADER then HeaderTooLarge
    else MoreHeader(all)
  }

  datatype HeaderRead = HeaderRead(ok: bool, line: string, remainder: string, left: seq<string>)

  /** Reading a header line from the pieces that will arrive. */
  function ReadHeaderFrom(accumulated: string, pieces: seq<string>): HeaderRead
    requires Pieced(pieces)
    decreases |Join(pieces)|
  {
    if pieces == [] then HeaderRead(false, "", "", [])
    else
      TakePieceLaw(pieces, TRANSFER_BUFFER);
      var (data, left) := TakePiece(pieces, TRANSFER_BUFFER);
      match HeaderStep(accumulated, data)
      case HeaderLine(line, remainder) => HeaderRead(true, line, remainder, left)
      case HeaderTooLarge => HeaderRead(false, "", "", left)
      case MoreHeader(all) => ReadHeaderFrom(all, left)
  }

  method ReadChunkHeader(socket: Socket) returns (ok: bool, headerLine: string, remainder: string)
    requires Pieced(socket.arriving)
    modifies socket`arriving
    ensures Pieced(socket.arriving)
    ensures HeaderRead(ok, headerLine, remainder, socket.arriving) == ReadHeaderFrom("", old(socket.arriving))
  {
    headerLine, remainder := "", "";
    var accumulated := "";
    while true
      invariant Pieced(socket.arriving) && headerLine == "" && remainder == ""
      invariant ReadHeaderFrom(accumulated, socket.arriving) == ReadHeaderFrom("", old(socket.arriving))
      decreases |Join(socket.arriving)|
    {
      if socket.arriving != [] {
        TakePieceLaw(socket.arriving, TRANSFER_BUFFER);
      }
      var n, data := socket.Recv(TRANSFER_BUFFER);
      if n < 0 {
        return false, headerLine, remainder;
      }
      if n == 0 {
        return false, headerLine, remainder;
      }
      accumulated := accumulated + data;
      var newlinePos := Find(accumulated, '\n');
      if newlinePos != |accumulated| {
        headerLine := accumulated[..newlinePos + 1];
        remainder := accumulated[newlinePos + 1..];
        return true, headerLine, remainder;
      }
      if |accumulated| > MAX_HEADER {
        return false, headerLine, remainder;
      }
    }
  }

  /** A header that was read is the first line of the stream, and nothing behind it is lost or repeated. */
  lemma {:induction false} HeaderLossless(accumulated: string, pieces: seq<string>)
    requires Pieced(pieces) && '\n' !in accumulated
    requires ReadHeaderFrom(accumulated, pieces).ok
    ensures var r := ReadHeaderFrom(accumulated, pieces);
            var stream := accumulated + Join(pieces);
            Pieced(r.left) && stream == r.line + r.remainder + Join(r.left)
            && |r.line| == Find(stream, '\n') + 1 <= |stream|
    decreases |Join(pieces)|
  {
    TakePieceLaw(pieces, TRANSFER_BUFFER);
    var (data, left) := TakePiece(pieces, TRANSFER_BUFFER);
    var all := accumulated + data;
    Regroup(accumulated, data, Join(left));
    if Find(all, '\n') < |all| {
      LineLossless(all, Join(left), Find(all, '\n') + 1);
    } else {
      assert all[..|all|] == all;
      HeaderLossless(all, left);
    }
  }

  lemma LineLossless(all: string, later: string, n: nat)
    requires n == Find(all, '\n') + 1 <= |all|
    ensures all + later == all[..n] + all[n..] + later && n == Find(all + later, '\n') + 1
  {
    assert all[n - 1] == '\n';
    FindThrough(all, later, '\n');
    assert all == all[..n] + all[n..];
  }

  /** A first line of at most 8192 bytes before its newline is read whatever the segmentation. */
  lemma {:induction false} ShortHeaderRead(accumulated: string, pieces: seq<string>)
    requires Pieced(pieces) && '\n' !in accumulated
    requires Find(accumulated + Join(pieces), '\n') < |accumulated + Join(pieces)|
    requires Find(accumulated + Join(pieces), '\n') <= MAX_HEADER
    ensures ReadHeaderFrom(accumulated, pieces).ok
    decreases |Join(pieces)|
  {
    var stream := accumulated + Join(pieces);
    var newline := Find(stream, '\n');
    assert stream[newline] == '\n';
    assert pieces != [] by {
      assert pieces == [] ==> stream == accumulated;
    }
    TakePieceLaw(pieces, TRANSFER_BUFFER);
    var (data, left) := TakePiece(pieces, TRANSFER_BUFFER);
    var all := accumulated + data;
    assert stream == all + Join(left);
    if Find(all, '\n') == |all| {
      FindThrough(all, Join(left), '\n');
      ShortHeaderRead(all, left);
    }
  }

  ghost predicate ReadUnder(stream: string, pieces: seq<string>) {
    Pieced(pieces) && Join(pieces) == stream ==> ReadHeaderFrom("", pieces).ok
  }

  /** Exactly the streams whose first line has at most 8192 bytes are read under every segmentation. */
  lemma SegmentationIndependentIff(stream: string)
    ensures (forall pieces :: ReadUnder(stream, pieces))
            <==> Find(stream, '\n') < |stream| && Find(stream, '\n') <= 8192
  {
    var newline := Find(stream, '\n');
    if newline < |stream| && newline <= MAX_HEADER {
      forall pieces
        ensures ReadUnder(stream, pieces)
      {
        if Pieced(pieces) && Join(pieces) == stream {
          assert "" + Join(pieces) == stream;
          ShortHeaderRead("", pieces);
        }
      }
    } else {
      var pieces := BadPieces(stream);
      assert !ReadUnder(stream, pieces);
    }
  }

  /** A segmentation under which the header of such a stream is not read. */
  lemma BadPieces(stream: string) returns (pieces: seq<string>)
    requires Find(stream, '\n') == |stream| || Find(stream, '\n') > MAX_HEADER
    ensures Pieced(pieces) && Join(pieces) == stream && !ReadHeaderFrom("", pieces).ok
  {
    var newline := Find(stream, '\n');
    if newline == |stream| {
      pieces := if stream == "" then [] else [stream];
      if stream != "" {
        assert pieces[1..] == [];
      }
      assert "" + Join(pieces) == stream;
      if ReadHeaderFrom("", pieces).ok {
        HeaderLossless("", pieces);
      }
    } else {
      var first, rest := stream[..MAX_HEADER + 1], stream[MAX_HEADER + 1..];
      pieces := [first, rest];
      assert pieces[1..] == [rest] && [rest][1..] == [];
      assert Join([rest]) == rest;
      assert TakePiece(pieces, TRANSFER_BUFFER) == (first, [rest]);
      assert '\n' !in first by {
        assert forall k :: 0 <= k < |first| ==> first[k] == stream[..newline][k];
      }
      assert HeaderStep("", first) == HeaderTooLarge by { assert "" + first == first; }
    }
  }

  /** The loop goes on only with at most 8192 bytes, and one read adds at most 16384. */
  lemma {:induction false} LineBounded(accumulated: string, pieces: seq<string>)
    requires Pieced(pieces) && |accumulated| <= 8192 && ReadHeaderFrom(accumulated, pieces).ok
    ensures |ReadHeaderFrom(accumulated, pieces).line| <= 24576
    decreases |Join(pieces)|
  {
    TakePieceLaw(pieces, TRANSFER_BUFFER);
    var (data, left) := TakePiece(pieces, TRANSFER_BUFFER);
    var all := accumulated + data;
    if Find(all, '\n') == |all| {
      LineBounded(all, left);
    }
  }

  /** Some segmentation lets a stream's header be read exactly when its first line has at most 24575 bytes. */
  lemma SegmentationPossibleIff(stream: string)
    ensures (exists pieces :: Pieced(pieces) && Join(pieces) == stream && ReadHeaderFrom("", pieces).ok)
            <==> Find(stream, '\n') < |stream| && Find(stream, '\n') <= 24575
  {
    if pieces :| Pieced(pieces) && Join(pieces) == stream && ReadHeaderFrom("", pieces).ok {
      LineBounded("", pieces);
      HeaderLossless("", pieces);
      assert "" + Join(pieces) == stream;
    }
    if Find(stream, '\n') < |stream| && Find(stream, '\n') <= 24575 {
      var pieces := GoodPieces(stream, Find(stream, '\n'));
    }
  }

  /** The first 8192 bytes by themselves, where the line is longer. */
  lemma GoodPieces(stream: string, newline: nat) returns (pieces: seq<string>)
    requires newline == Find(stream, '\n') < |stream| && newline <= 24575
    ensures Pieced(pieces) && Join(pieces) == stream && ReadHeaderFrom("", pieces).ok
  {
    if newline <= 8192 {
      pieces := [stream];
      assert pieces[1..] == [] && Join(pieces) == stream && "" + Join(pieces) == stream;
      ShortHeaderRead("", pieces);
    } else {
      var first, rest := stream[..8192], stream[8192..];
      pieces := [first, rest];
      assert pieces[1..] == [rest] && [rest][1..] == [] && Join([rest]) == rest;
      TwoPiecesRead(stream, first, rest, newline);
    }
  }

  lemma TwoPiecesRead(stream: string, first: string, rest: string, newline: nat)
    requires stream == first + rest && |first| == 8192 < newline < |stream| && newline <= 24575
    requires newline == Find(stream, '\n')
    ensures ReadHeaderFrom("", [first, rest]).ok
  {
    assert '\n' !in first by { assert forall k :: 0 <= k < |first| ==> first[k] == stream[..newline][k]; }
    assert TakePiece([first, rest], TRANSFER_BUFFER) == (first, [first, rest][1..]) && [first, rest][1..] == [rest];
    assert HeaderStep("", first) == MoreHeader(first) by {
      assert "" + first == first && first[..|first|] == first;
    }
    SecondPieceRead(stream, first, rest, newline);
  }

  lemma SecondPieceRead(stream: string, first: string, rest: string, newline: nat)
    requires stream == first + rest && |first| == 8192 < newline < |stream| && newline <= 24575
    requires newline == Find(stream, '\n')
    ensures ReadHeaderFrom(first, [rest]).ok
  {
    var (data, left) := TakePiece([rest], TRANSFER_BUFFER);
    assert data == rest[..|data|] && newline < 8192 + |data|;
    var all := first + data;
    assert all == stream[..|all|] && all[..newline] == stream[..newline];
    FindIs(all, '\n', newline);
  }

  // ---------- the payload ----------

  datatype Received = Received(content: string, remaining: nat, left: seq<string>)

  function Min(a: nat, b: nat): nat {
    if a < b then a else b
  }

  /** Receiving the rest of a payload from the pieces that will arrive. */
  function ReceiveFrom(content: string, remaining: nat, pieces: seq<string>): Received
    requires Pieced(pieces)
    decreases |Join(pieces)|
  {
    if remaining == 0 || pieces == [] then Received(content, remaining, pieces)
    else
      TakePieceLaw(pieces, Min(TRANSFER_BUFFER, remaining));
      var (data, left) := TakePiece(pieces, Min(TRANSFER_BUFFER, remaining));
      ReceiveFrom(content + data, remaining - |data|, left)
  }

  /** However it was cut, exactly the first `remaining` bytes of what arrives are written. */
  lemma {:induction false} ReceiveLaw(content: string, remaining: nat, pieces: seq<string>)
    requires Pieced(pieces)
    ensures var r := ReceiveFrom(content, remaining, pieces);
            var n := Min(remaining, |Join(pieces)|);
            r.content == content + Join(pieces)[..n] && r.remaining == remaining - n
            && Pieced(r.left) && Join(r.left) == Join(pieces)[n..]
    decreases |Join(pieces)|
  {
    if remaining != 0 && pieces != [] {
      var limit := Min(TRANSFER_BUFFER, remaining);
      TakePieceLaw(pieces, limit);
      var (data, left) := TakePiece(pieces, limit);
      ReceiveLaw(content + data, remaining - |data|, left);
      PieceAndRest(Join(pieces), data, Join(left), Min(remaining, |Join(pieces)|));
    }
  }

  lemma PieceAndRest(all: string, data: string, rest: string, n: nat)
    requires all == data + rest && |data| <= n <= |all|
    ensures all[..n] == data + rest[..n - |data|] && all[n..] == rest[n - |data|..]
  {
  }

  /** The outcome of `receiveChunkData`: whether it succeeded, and the output file it leaves, if any. */
  datatype Outcome = Outcome(ok: bool, file: Option<string>)

  function ReceivePayload(digest: string -> string, size: nat, payload: string, hash: string,
                          pieces: seq<string>): Outcome
    requires Pieced(pieces)
  {
    var first := payload[..Min(size, |payload|)];
    var r := ReceiveFrom(first, size - |first|, pieces);
    if r.remaining > 0 then Outcome(false, None)
    else if hash != "" && digest(r.content) != hash then Outcome(false, None)
    else Outcome(true, Some(r.content))
  }

  /** The chunk files with one of them replaced or removed. */
  function WithFile(files: map<int, string>, id: int, file: Option<string>): map<int, string> {
    match file
    case None => files - {id}
    case Some(content) => files[id := content]
  }

  method ReceiveChunkData(socket: Socket, dir: ChunkDir, chunkId: int, chunkSize: nat, initialPayload: string,
                          expectedChunkHash: string, digest: string -> string) returns (ok: bool)
    requires Pieced(socket.arriving)
    modifies socket`arriving, dir
    ensures Pieced(socket.arriving)
    ensures var r := ReceivePayload(digest, chunkSize, initialPayload, expectedChunkHash, old(socket.arriving));
            ok == r.ok && dir.files == WithFile(old(dir.files), chunkId, r.file)
  {
    ghost var before := dir.files;
    var written := "";
    dir.files := dir.files[chunkId := written];
    var remaining := chunkSize;
    if initialPayload != "" {
      var bytesToWrite := Min(remaining, |initialPayload|);
      written := initialPayload[..bytesToWrite];
      dir.files := dir.files[chunkId := written];
      remaining := remaining - bytesToWrite;
    }
    Rewritten(before, chunkId, "", written);
    assert written == initialPayload[..Min(chunkSize, |initialPayload|)];
    ok := ReceiveRest(socket, dir, chunkId, written, remaining);
    ghost var r := ReceiveFrom(written, remaining, old(socket.arriving));
    Rewritten(before, chunkId, written, r.content);
    if !ok {
      return false;
    }
    if expectedChunkHash != "" {
      var actualHash := digest(dir.files[chunkId]);
      if actualHash != expectedChunkHash {
        Rewritten(before, chunkId, r.content, "");
        dir.files := dir.files - {chunkId};
        return false;
      }
    }
  }

  /** The receive loop: the output file grows piece by piece, and is removed where the stream ends too early. */
  method ReceiveRest(socket: Socket, dir: ChunkDir, chunkId: int, start: string, size: nat) returns (ok: bool)
    requires Pieced(socket.arriving) && chunkId in dir.files && dir.files[chunkId] == start
    modifies socket`arriving, dir
    ensures Pieced(socket.arriving)
    ensures var r := ReceiveFrom(start, size, old(socket.arriving));
            ok == (r.remaining == 0)
            && dir.files == if ok then old(dir.files)[chunkId := r.content] else old(dir.files) - {chunkId}
  {
    ghost var before := dir.files;
    ghost var goal := ReceiveFrom(start, size, socket.arriving);
    var remaining := size;
    var written := start;
    while remaining > 0
      invariant Pieced(socket.arriving) && remaining >= 0
      invariant dir.files == before[chunkId := written]
      invariant ReceiveFrom(written, remaining, socket.arriving) == goal
      decreases |Join(socket.arriving)|, remaining
    {
      var toRead := Min(TRANSFER_BUFFER, remaining);
      if socket.arriving != [] {
        TakePieceLaw(socket.arriving, toRead);
      }
      var byteReceived, buffer := socket.Recv(toRead);
      if byteReceived < 0 {
        Rewritten(before, chunkId, written, "");
        dir.files := dir.files - {chunkId};
        return false;
      }
      if byteReceived == 0 {
        Rewritten(before, chunkId, written, "");
        dir.files := dir.files - {chunkId};
        return false;
      }
      Rewritten(before, chunkId, written, written + buffer);
      written := written + buffer;
      dir.files := dir.files[chunkId := written];
      remaining := remaining - byteReceived;
    }
    ok := true;
  }

  /** Writing one file again, or removing it, forgets what was in it. */
  lemma Rewritten(files: map<int, string>, id: int, earlier: string, content: string)
    ensures files[id := earlier] - {id} == files - {id}
    ensures files[id := earlier][id := content] == files[id := content]
  {
  }

  // ---------- one whole request ----------

  /** A file id that is used in a path: 1 to 128 letters, digits, dots, underscores and dashes. */
  predicate SafeFileId(fileId: string) {
    1 <= |fileId| <= 128 && forall i :: 0 <= i < |fileId| ==> SafeChar(fileId[i])
  }

  predicate SafeChar(c: char) {
    'A' <= c <= 'Z' || 'a' <= c <= 'z' || '0' <= c <= '9' || c == '.' || c == '_' || c == '-'
  }

  lemma SafeFileIdIsToken(fileId: string)
    requires SafeFileId(fileId)
    ensures IsToken(fileId)
  {
  }

  /** What the bytes that a peer sends make of the output file, which held `before`. */
  function Fetch(digest: string -> string, before: Option<string>, pieces: seq<string>): Outcome
    requires Pieced(pieces)
  {
    var h := ReadHeaderFrom("", pieces);
    if !h.ok then Outcome(false, before)
    else
      var m := Parse(h.line);
      if !m.valid || m.kind != CHUNK then Outcome(false, before)
      else
        assert "" + Join(pieces) == Join(pieces);
        HeaderLossless("", pieces);
        ReceivePayload(digest, m.chunkSize, h.remainder, m.chunkHash, h.left)
  }

  function FileAt(files: map<int, string>, id: int): Option<string> {
    if id in files then Some(files[id]) else None
  }

  /** The client's side of one request over a connection, which may not have come about. */
  method RequestChunkFromPeer(connection: Option<Socket>, dir: ChunkDir, fileId: string, chunkId: int,
                              digest: string -> string) returns (ok: bool)
    requires connection.Some? ==> Pieced(connection.value.arriving)
    modifies if connection.Some? then {connection.value} else {}, dir
    ensures connection.None? || !SafeFileId(fileId) ==> !ok && dir.files == old(dir.files)
    ensures connection.Some? && !SafeFileId(fileId) ==> connection.value.sent == old(connection.value.sent)
    ensures connection.Some? && SafeFileId(fileId) ==>
              var socket, request := connection.value, BuildRequest(fileId, chunkId);
              var r := Fetch(digest, FileAt(old(dir.files), chunkId), old(socket.arriving));
              && SentOf(old(socket.sent), old(socket.room), request, socket.sent, socket.room)
              && if |request| > old(socket.room) then !ok && dir.files == old(dir.files)
                 else ok == r.ok && dir.files == WithFile(old(dir.files), chunkId, r.file)
  {
    if connection.None? {
      return false;
    }
    var socket := connection.value;
    if !SafeFileId(fileId) {
      return false;
    }
    var requestMessage := BuildRequest(fileId, chunkId);
    var sent := SendAll(socket, requestMessage);
    if sent == -1 {
      return false;
    }
    assert WithFile(dir.files, chunkId, FileAt(dir.files, chunkId)) == dir.files;
    ghost var arriving := socket.arriving;
    var gotHeader, rawHeader, bufferedChunkBytes := ReadChunkHeader(socket);
    if !gotHeader {
      return false;
    }
    assert arriving == old(connection.value.arriving);
    var header := ParseMessage(rawHeader);
    if !header.valid || header.kind != CHUNK {
      return false;
    }
    ok := ReceiveChunkData(socket, dir, chunkId, header.chunkSize, bufferedChunkBytes, header.chunkHash, digest);
  }

  // ---------- the server's side ----------

  /** The bytes an answer to a chunk request consists of. */
  function Wire(digest: string -> string, fileId: string, chunkId: int, content: string): string {
    BuildChunk(fileId, chunkId, |content|, digest(content)) + content
  }

  /** What a server answers: the shared chunk file first, a downloaded one otherwise. */
  function Answer(digest: string -> string, shared: map<int, string>, downloaded: map<int, string>,
                  fileId: string, chunkId: int): string
  {
    if !SafeFileId(fileId) then BuildError("invalid_file_id")
    else if chunkId in shared then Wire(digest, fileId, chunkId, shared[chunkId])
    else if chunkId in downloaded then Wire(digest, fileId, chunkId, downloaded[chunkId])
    else BuildError("chunk_not_found")
  }

  /** Whether there is a chunk file to answer with. */
  predicate Servable(shared: map<int, string>, downloaded: map<int, string>, fileId: string, chunkId: int) {
    SafeFileId(fileId) && (chunkId in shared || chunkId in downloaded)
  }

  method ServeRequestedChunk(socket: Socket, shared: map<int, string>, downloaded: map<int, string>,
                             fileId: string, chunkId: int, digest: string -> string) returns (ok: bool)
    modifies socket`sent, socket`room
    ensures var answer := Answer(digest, shared, downloaded, fileId, chunkId);
            && SentOf(old(socket.sent), old(socket.room), answer, socket.sent, socket.room)
            && (ok <==> Servable(shared, downloaded, fileId, chunkId) && |answer| <= old(socket.room))
  {
    if !SafeFileId(fileId) {
      var r := SendAll(socket, BuildError("invalid_file_id"));
      return false;
    }
    if chunkId !in shared && chunkId !in downloaded {
      var r := SendAll(socket, BuildError("chunk_not_found"));
      return false;
    }
    var content := if chunkId in shared then shared[chunkId] else downloaded[chunkId];
    var header := BuildChunk(fileId, chunkId, |content|, digest(content));
    ok := SendChunk(socket, header, content);
  }

  /** The header line, then the chunk file. */
  method SendChunk(socket: Socket, header: string, content: string) returns (ok: bool)
    modifies socket`sent, socket`room
    ensures ok <==> |header + content| <= old(socket.room)
    ensures SentOf(old(socket.sent), old(socket.room), header + content, socket.sent, socket.room)
  {
    var r := SendAll(socket, header);
    if r == -1 {
      SentShort(old(socket.sent), old(socket.room), header, socket.sent, socket.room, content);
      return false;
    }
    ghost var between, rest := socket.sent, socket.room;
    ok := SendChunkFileInBuffers(socket, content);
    SentBoth(old(socket.sent), old(socket.room), header, between, rest, content, socket.sent, socket.room);
  }

  /** The text up to the first NUL, which is where a C string ends. */
  function CString(bytes: string): string
  {
    bytes[..Find(bytes, '\0')]
  }

  /** What a server sends back for the bytes that its one read of the request got. */
  function Reply(digest: string -> string, shared: map<int, string>, downloaded: map<int, string>,
                 bytes: string): string {
    var m := Parse(CString(bytes));
    if !m.valid then BuildError("invalid_request")
    else if !SafeFileId(m.fileId) then BuildError("invalid_file_id")
    else if m.kind == REQUEST then Answer(digest, shared, downloaded, m.fileId, m.chunkId)
    else BuildError("unsupported_command")
  }

  lemma NoNulText(s: string)
    requires SafeFileId(s) || AllDigits(s)
    ensures '\0' !in s
  {
    assert forall i :: 0 <= i < |s| ==> SafeFileId(s) ==> SafeChar(s[i]);
    assert forall i :: 0 <= i < |s| ==> AllDigits(s) ==> IsDigit(s[i]);
  }

  /** A printed request holds no NUL and fits 145 bytes. */
  lemma RequestFits(fileId: string, chunkId: int, line: string)
    requires SafeFileId(fileId) && 0 <= chunkId <= 1_000_000 && line == BuildRequest(fileId, chunkId)
    ensures |line| <= 145 && '\0' !in line
  {
    DecimalReadsBack(chunkId);
    DecimalWidth(chunkId, 7, 1_000_001) by { assert PowerOfTen(7) == 10_000_000; }
    NoNulText(fileId);
    NoNulText(Decimal(chunkId));
    assert '\0' !in "REQUEST " && '\0' !in " " && '\0' !in "\n";
  }

  /** The reply to a whole request is the answer for its file and chunk. */
  lemma RequestAnswered(digest: string -> string, shared: map<int, string>, downloaded: map<int, string>,
                        fileId: string, chunkId: int, line: string)
    requires SafeFileId(fileId) && 0 <= chunkId <= 1_000_000 && line == BuildRequest(fileId, chunkId)
    ensures Reply(digest, shared, downloaded, line) == Answer(digest, shared, downloaded, fileId, chunkId)
    ensures Parse(CString(line)) == Requested(fileId, chunkId)
  {
    RequestFits(fileId, chunkId, line);
    assert line[..|line|] == line;
    FindIs(line, '\0', |line|);
    SafeFileIdIsToken(fileId);
    ParsesRequest(fileId, chunkId);
  }

  /** The first piece that arrives is a whole request for a safe file id and a chunk in range. */
  predicate AsksFor(arriving: seq<string>, fileId: string, chunkId: int) {
    SafeFileId(fileId) && 0 <= chunkId <= 1_000_000 && arriving != [] && arriving[0] == BuildRequest(fileId, chunkId)
  }

  /** What is asked for in one piece is understood and answered, and it fits the read. */
  ghost predicate Understood(digest: string -> string, shared: map<int, string>, downloaded: map<int, string>,
                             line: string, fileId: string, chunkId: int)
  {
    && |line| <= 145 && Parse(CString(line)) == Requested(fileId, chunkId)
    && Reply(digest, shared, downloaded, line) == Answer(digest, shared, downloaded, fileId, chunkId)
  }

  lemma AskedMeans(digest: string -> string, shared: map<int, string>, downloaded: map<int, string>,
                   arriving: seq<string>)
    ensures forall fileId, chunkId :: AsksFor(arriving, fileId, chunkId) ==>
              Understood(digest, shared, downloaded, arriving[0], fileId, chunkId)
  {
    forall fileId, chunkId | AsksFor(arriving, fileId, chunkId)
      ensures Understood(digest, shared, downloaded, arriving[0], fileId, chunkId)
    {
      RequestAnswered(digest, shared, downloaded, fileId, chunkId, arriving[0]);
      RequestFits(fileId, chunkId, arriving[0]);
    }
  }

  const REQUEST_BUFFER := 1024

  /**
   Answers one request out of one read, which gets the first piece that arrives, up to 1023 bytes of it. So a request
   for a safe file id and a chunk in range that arrives in one piece is answered with that chunk, as far as there is
   room.
   */
  method HandlePeerRequest(socket: Socket, shared: map<int, string>, downloaded: map<int, string>,
                           digest: string -> string) returns (ok: bool)
    requires Pieced(socket.arriving)
    modifies socket
    ensures old(socket.arriving) == [] ==> !ok && socket.sent == old(socket.sent)
    ensures old(socket.arriving) != [] ==>
              var first := old(socket.arriving)[0];
              var bytes := if |first| <= 1023 then first else first[..1023];
              var m, reply := Parse(CString(bytes)), Reply(digest, shared, downloaded, bytes);
              && SentOf(old(socket.sent), old(socket.room), reply, socket.sent, socket.room)
              && (ok <==> m.kind == REQUEST && Servable(shared, downloaded, m.fileId, m.chunkId)
                          && |reply| <= old(socket.room))
    ensures forall fileId, chunkId :: AsksFor(old(socket.arriving), fileId, chunkId) ==>
              var answer := Answer(digest, shared, downloaded, fileId, chunkId);
              && SentOf(old(socket.sent), old(socket.room), answer, socket.sent, socket.room)
              && (ok <==> (chunkId in shared || chunkId in downloaded) && |answer| <= old(socket.room))
  {
    AskedMeans(digest, shared, downloaded, socket.arriving);
    var byteReceive, buffer := socket.Recv(REQUEST_BUFFER - 1);
    if byteReceive <= 0 {
      return false;
    }
    var rawMessage := CString(buffer);
    var msg := ParseMessage(rawMessage);
    if !msg.valid {
      var r := SendAll(socket, BuildError("invalid_request"));
      return false;
    }
    if !SafeFileId(msg.fileId) {
      var r := SendAll(socket, BuildError("invalid_file_id"));
      return false;
    }
    if msg.kind == REQUEST {
      ok := ServeRequestedChunk(socket, shared, downloaded, msg.fileId, msg.chunkId, digest);
      return;
    }
    var r := SendAll(socket, BuildError("unsupported_command"));
    return false;
  }
}
