/** What one chunk request delivers, whatever the network does to the bytes. */
module Delivery {
  import opened Options
  import opened Text
  import opened Protocol
  import opened ChunkFiles
  import opened Transfer

  /** A digest text that fits a header line: at most 128 characters, no white space. */
  predicate DigestText(hash: string) {
    IsToken(hash) && |hash| <= 128
  }

  lemma HeaderLength(fileId: string, chunkId: int, size: nat, hash: string)
    requires SafeFileId(fileId) && ChunkIdInRange(chunkId) && ChunkSizeInRange(size) && DigestText(hash)
    ensures |BuildChunk(fileId, chunkId, size, hash)| <= MAX_HEADER
  {
    PowersOfTen();
    DecimalWidth(chunkId, 7, MAX_CHUNK_ID + 1);
    DecimalWidth(size, 8, MAX_CHUNK_SIZE + 1);
  }

  lemma PowersOfTen()
    ensures PowerOfTen(7) == 10_000_000 && PowerOfTen(8) == 100_000_000
  {
    assert PowerOfTen(2) == 100;
    assert PowerOfTen(4) == 10_000;
    assert PowerOfTen(6) == 1_000_000;
  }

  /** The header is the first line of whatever follows it. */
  lemma HeaderIsFirstLine(header: string, fileId: string, chunkId: int, size: nat, hash: string, body: string)
    requires IsToken(fileId) && IsToken(hash)
    requires header == BuildChunk(fileId, chunkId, size, hash)
    ensures header != "" && Find(header + body, '\n') == |header| - 1
  {
    SignedDecimalIsToken(chunkId);
    SignedDecimalIsToken(size);
    var id, count := SignedDecimal(chunkId), SignedDecimal(size);
    var words := "CHUNK " + fileId + " " + id + " " + count + " " + hash;
    assert header == words + "\n";
    assert '\n' !in words;
    var n := |words|;
    assert (header + body)[..n] == words;
    FindIs(header + body, '\n', n);
  }

  /** A short first line is read back whole, and what follows it is neither lost nor repeated. */
  lemma FirstLineRead(pieces: seq<string>, stream: string)
    requires Find(stream, '\n') < |stream| && Find(stream, '\n') <= MAX_HEADER
    requires Pieced(pieces) && Join(pieces) == stream
    ensures var h := ReadHeaderFrom("", pieces);
            h.ok && Pieced(h.left) && stream == h.line + h.remainder + Join(h.left)
            && |h.line| == Find(stream, '\n') + 1
  {
    assert "" + Join(pieces) == stream;
    ShortHeaderRead("", pieces);
    HeaderLossless("", pieces);
  }

  lemma LineReadBack(pieces: seq<string>, stream: string, header: string, body: string)
    requires stream == header + body && header != ""
    requires Find(stream, '\n') == |header| - 1 < MAX_HEADER
    requires Pieced(pieces) && Join(pieces) == stream
    ensures var h := ReadHeaderFrom("", pieces);
            h.ok && Pieced(h.left) && h.line == header && h.remainder + Join(h.left) == body
  {
    FirstLineRead(pieces, stream);
    var h := ReadHeaderFrom("", pieces);
    SplitThree(stream, h.line, h.remainder, Join(h.left), header, body);
  }

  lemma SplitThree(all: string, a: string, b: string, c: string, header: string, body: string)
    requires all == a + b + c == header + body && |a| == |header|
    ensures a == header && b + c == body
  {
    assert a == all[..|a|] == header;
    assert b + c == all[|a|..] == body;
  }

  lemma HeaderReadBack(pieces: seq<string>, fileId: string, chunkId: int, size: nat, hash: string, body: string)
    requires SafeFileId(fileId) && ChunkIdInRange(chunkId) && ChunkSizeInRange(size) && DigestText(hash)
    requires Pieced(pieces) && Join(pieces) == BuildChunk(fileId, chunkId, size, hash) + body
    ensures var h := ReadHeaderFrom("", pieces);
            h.ok && Pieced(h.left) && h.line == BuildChunk(fileId, chunkId, size, hash)
            && h.remainder + Join(h.left) == body
  {
    var header := BuildChunk(fileId, chunkId, size, hash);
    SafeFileIdIsToken(fileId);
    HeaderLength(fileId, chunkId, size, hash);
    HeaderIsFirstLine(header, fileId, chunkId, size, hash, body);
    LineReadBack(pieces, header + body, header, body);
  }

  /** What the header read brought along and what arrives later, cut at the announced size. */
  lemma FirstBytes(payload: string, arriving: string, size: nat, first: string, n: nat)
    requires first == payload[..Min(size, |payload|)] && n == Min(size - |first|, |arriving|)
    ensures |payload + arriving| >= size <==> n == size - |first|
    ensures |payload + arriving| >= size ==> first + arriving[..n] == (payload + arriving)[..size]
  {
  }

  /** The payload loop keeps exactly the announced number of bytes, if they come and have the announced digest. */
  lemma PayloadLaw(digest: string -> string, size: nat, payload: string, hash: string, pieces: seq<string>)
    requires Pieced(pieces)
    ensures var body := payload + Join(pieces);
            ReceivePayload(digest, size, payload, hash, pieces)
            == if |body| >= size && (hash == "" || digest(body[..size]) == hash) then Outcome(true, Some(body[..size]))
               else Outcome(false, None)
  {
    var first := payload[..Min(size, |payload|)];
    FirstBytes(payload, Join(pieces), size, first, Min(size - |first|, |Join(pieces)|));
    ReceiveLaw(first, size - |first|, pieces);
  }

  /** A valid header and any bytes behind it: the outcome depends on those bytes, not on how they were cut. */
  lemma FetchBehindHeader(digest: string -> string, before: Option<string>, pieces: seq<string>,
                          fileId: string, chunkId: int, size: nat, hash: string, body: string)
    requires SafeFileId(fileId) && ChunkIdInRange(chunkId) && ChunkSizeInRange(size) && DigestText(hash)
    requires Pieced(pieces) && Join(pieces) == BuildChunk(fileId, chunkId, size, hash) + body
    ensures Fetch(digest, before, pieces)
            == if |body| >= size && digest(body[..size]) == hash then Outcome(true, Some(body[..size]))
               else Outcome(false, None)
  {
    HeaderReadBack(pieces, fileId, chunkId, size, hash, body);
    var h := ReadHeaderFrom("", pieces);
    SafeFileIdIsToken(fileId);
    ParsesChunk(fileId, chunkId, size, hash);
    PayloadLaw(digest, size, h.remainder, hash, h.left);
  }

  /** While the newline is missing no header is read. */
  lemma HeaderCut(pieces: seq<string>)
    requires Pieced(pieces) && '\n' !in Join(pieces)
    ensures !ReadHeaderFrom("", pieces).ok
  {
    assert "" + Join(pieces) == Join(pieces);
    if ReadHeaderFrom("", pieces).ok {
      HeaderLossless("", pieces);
    }
  }

  lemma NoLineYet(wire: string, k: nat, n: nat)
    requires n == Find(wire, '\n') && k <= n
    ensures '\n' !in wire[..k]
  {
    assert wire[..k] == wire[..n][..k];
  }

  lemma CutBehind(header: string, content: string, k: nat)
    requires |header| <= k <= |header + content|
    ensures (header + content)[..k] == header + content[..k - |header|]
    ensures k == |header + content| ==> content[..k - |header|] == content
  {
  }

  /** Any prefix of an honest answer, in any pieces, delivers the chunk exactly when nothing of it is missing. */
  lemma FetchPrefixOfWire(digest: string -> string, before: Option<string>, pieces: seq<string>,
                          fileId: string, chunkId: int, content: string, k: nat)
    requires SafeFileId(fileId) && ChunkIdInRange(chunkId) && ChunkSizeInRange(|content|) && DigestText(digest(content))
    requires k <= |Wire(digest, fileId, chunkId, content)|
    requires Pieced(pieces) && Join(pieces) == Wire(digest, fileId, chunkId, content)[..k]
    ensures var header := |Wire(digest, fileId, chunkId, content)| - |content|;
            Fetch(digest, before, pieces)
            == if k == header + |content| then Outcome(true, Some(content))
               else Outcome(false, if k < header then before else None)
  {
    var header := BuildChunk(fileId, chunkId, |content|, digest(content));
    if k < |header| {
      SafeFileIdIsToken(fileId);
      HeaderIsFirstLine(header, fileId, chunkId, |content|, digest(content), content);
      NoLineYet(header + content, k, |header| - 1);
      HeaderCut(pieces);
    } else {
      var body := content[..k - |header|];
      CutBehind(header, content, k);
      FetchBehindHeader(digest, before, pieces, fileId, chunkId, |content|, digest(content), body);
      assert |body| >= |content| ==> body[..|content|] == content;
    }
  }

  /** The file is the one that a valid CHUNK line at the front of the stream announced. */
  ghost predicate Accepted(digest: string -> string, stream: string, line: string, file: string) {
    var m := Parse(line);
    m.valid && m.kind == CHUNK && |file| == m.chunkSize > 0 && digest(file) == m.chunkHash != "" && line <= stream
  }

  /**
   Whatever a peer sends: a successful request leaves a file of the announced size whose digest is the
   announced, nonempty one; a failed request leaves the file as it was or no file, never part of one.
   */
  lemma FetchNeverPartial(digest: string -> string, before: Option<string>, pieces: seq<string>)
    requires Pieced(pieces)
    ensures var r := Fetch(digest, before, pieces);
            if r.ok then r.file.Some? && exists line :: Accepted(digest, Join(pieces), line, r.file.value)
            else r.file == before || r.file == None
  {
    var h := ReadHeaderFrom("", pieces);
    if h.ok {
      var m := Parse(h.line);
      LineLeads(pieces);
      if m.valid && m.kind == CHUNK {
        ValidForms(h.line);
        PayloadLaw(digest, m.chunkSize, h.remainder, m.chunkHash, h.left);
        var r := Fetch(digest, before, pieces);
        assert r.ok ==> Accepted(digest, Join(pieces), h.line, r.file.value);
      }
    }
  }

  lemma LineLeads(pieces: seq<string>)
    requires Pieced(pieces) && ReadHeaderFrom("", pieces).ok
    ensures Pieced(ReadHeaderFrom("", pieces).left) && ReadHeaderFrom("", pieces).line <= Join(pieces)
  {
    var h := ReadHeaderFrom("", pieces);
    HeaderLossless("", pieces);
    assert "" + Join(pieces) == Join(pieces);
    Regroup(h.line, h.remainder, Join(h.left));
  }

  // ---------- the request line on the server ----------

  /** A request of which only the first `k` bytes came with the server's single read. */
  function Glimpsed(fileId: string, chunkId: int, k: nat): string
    requires k <= |BuildRequest(fileId, chunkId)|
  {
    BuildRequest(fileId, chunkId)[..k]
  }

  /** Where the number starts in a request line. */
  function NumberStart(fileId: string): nat {
    |fileId| + 9
  }

  /** The last place of a request line, its newline. */
  function LineEnd(fileId: string, chunkId: int): nat {
    |BuildRequest(fileId, chunkId)| - 1
  }

  /** A number without its last `e` digits. */
  function DropDigits(n: nat, e: nat): nat {
    if e == 0 then n else DropDigits(n / 10, e - 1)
  }

  /**
   The chunk that the server understands when its read got `k` bytes: none before the number starts, the one asked
   for where the number is whole, and otherwise the one whose number is left when the missing digits are dropped.
   */
  function SeenChunk(fileId: string, chunkId: nat, k: nat): Option<nat> {
    if k <= NumberStart(fileId) then None
    else if k >= LineEnd(fileId, chunkId) then Some(chunkId)
    else Some(DropDigits(chunkId, LineEnd(fileId, chunkId) - k))
  }

  lemma RequestLength(fileId: string, chunkId: nat)
    ensures LineEnd(fileId, chunkId) == NumberStart(fileId) + |Decimal(chunkId)|
  {
  }

  /** What the server understands of the first `k` bytes of a request, and that a cut number is a smaller one. */
  lemma RequestSeen(fileId: string, chunkId: nat, k: nat)
    requires IsToken(fileId) && ChunkIdInRange(chunkId) && k <= |BuildRequest(fileId, chunkId)|
    ensures match SeenChunk(fileId, chunkId, k)
            case None => !Parse(Glimpsed(fileId, chunkId, k)).valid
            case Some(d) => Parse(Glimpsed(fileId, chunkId, k)) == Requested(fileId, d) && d <= chunkId
                            && (d == chunkId <==> k >= LineEnd(fileId, chunkId))
  {
    if k >= LineEnd(fileId, chunkId) {
      SeenWhole(fileId, chunkId, k);
    } else if k > NumberStart(fileId) {
      SeenInNumber(fileId, chunkId, k);
    } else {
      SeenEarly(fileId, chunkId, k);
    }
  }

  lemma SeenInNumber(fileId: string, chunkId: nat, k: nat)
    requires IsToken(fileId) && ChunkIdInRange(chunkId) && NumberStart(fileId) < k < LineEnd(fileId, chunkId)
    ensures var d := DropDigits(chunkId, LineEnd(fileId, chunkId) - k);
            Parse(Glimpsed(fileId, chunkId, k)) == Requested(fileId, d) && d < chunkId
  {
    var m := k - NumberStart(fileId);
    RequestLength(fileId, chunkId);
    CutGlimpse(fileId, chunkId, k);
    SeenCut(Glimpsed(fileId, chunkId, k), fileId, chunkId, m);
    assert |Decimal(chunkId)| - m == LineEnd(fileId, chunkId) - k;
  }

  lemma SeenEarly(fileId: string, chunkId: nat, k: nat)
    requires IsToken(fileId) && k <= NumberStart(fileId) && k <= |BuildRequest(fileId, chunkId)|
    ensures !Parse(Glimpsed(fileId, chunkId, k)).valid
  {
    EarlyGlimpse(fileId, chunkId, k);
    ShortRequest(Glimpsed(fileId, chunkId, k), fileId);
  }

  lemma CutGlimpse(fileId: string, chunkId: nat, k: nat)
    requires NumberStart(fileId) < k < LineEnd(fileId, chunkId)
    ensures Glimpsed(fileId, chunkId, k) == "REQUEST " + fileId + " " + Decimal(chunkId)[..k - NumberStart(fileId)]
  {
    var head, number := "REQUEST " + fileId + " ", Decimal(chunkId);
    assert (head + number + "\n")[..k] == (head + number)[..k] == head + number[..k - |head|];
  }

  lemma EarlyGlimpse(fileId: string, chunkId: nat, k: nat)
    requires k <= NumberStart(fileId) && k <= |BuildRequest(fileId, chunkId)|
    ensures Glimpsed(fileId, chunkId, k) == ("REQUEST " + fileId + " ")[..k]
    ensures |Glimpsed(fileId, chunkId, k)| == k
  {
    var head, number := "REQUEST " + fileId + " ", Decimal(chunkId);
    assert (head + number + "\n")[..k] == (head + number)[..k] == head[..k];
  }

  /** The server sees the chunk that was asked for exactly when its one read got the whole number. */
  lemma RequestSeenWholeIff(fileId: string, chunkId: nat, k: nat)
    requires IsToken(fileId) && ChunkIdInRange(chunkId) && k <= |BuildRequest(fileId, chunkId)|
    ensures Parse(Glimpsed(fileId, chunkId, k)) == Requested(fileId, chunkId) <==> k >= LineEnd(fileId, chunkId)
  {
    RequestLength(fileId, chunkId);
    RequestSeen(fileId, chunkId, k);
  }

  lemma SeenWhole(fileId: string, chunkId: int, k: nat)
    requires IsToken(fileId) && ChunkIdInRange(chunkId)
    requires |BuildRequest(fileId, chunkId)| - 1 <= k <= |BuildRequest(fileId, chunkId)|
    ensures Parse(Glimpsed(fileId, chunkId, k)) == Requested(fileId, chunkId)
  {
    var line := "REQUEST " + fileId + " " + SignedDecimal(chunkId);
    var seen := Glimpsed(fileId, chunkId, k);
    SignedDecimalIsToken(chunkId);
    TrimBuilt(line);
    if k == |line| {
      assert seen == line;
      assert TrimNewLine(line) == line by {
        assert line[|line| - 1] == SignedDecimal(chunkId)[|SignedDecimal(chunkId)| - 1];
      }
    } else {
      assert seen == BuildRequest(fileId, chunkId);
    }
    ParsesRequest(fileId, chunkId);
  }

  lemma SeenCut(seen: string, fileId: string, chunkId: nat, m: nat)
    requires IsToken(fileId) && ChunkIdInRange(chunkId) && 0 < m < |Decimal(chunkId)|
    requires seen == "REQUEST " + fileId + " " + Decimal(chunkId)[..m]
    ensures var d := DropDigits(chunkId, |Decimal(chunkId)| - m); Parse(seen) == Requested(fileId, d) && d < chunkId
  {
    var cut := Decimal(chunkId)[..m];
    TokenPart(Decimal(chunkId), m) by { DecimalIsToken(chunkId); }
    ShorterNumber(chunkId, m);
    SeenNumber(seen, fileId, cut, DropDigits(chunkId, |Decimal(chunkId)| - m));
  }

  lemma TokenPart(s: string, m: nat)
    requires NoSpace(s) && 0 < m <= |s|
    ensures IsToken(s[..m])
  {
  }

  lemma SeenNumber(seen: string, fileId: string, number: string, d: nat)
    requires IsToken(fileId) && IsToken(number) && StoLL(number) == Some(d) && ChunkIdInRange(d)
    requires seen == "REQUEST " + fileId + " " + number
    ensures Parse(seen) == Requested(fileId, d)
  {
    assert seen[|seen| - 1] == number[|number| - 1] != '\n';
    NewLineAdded(seen);
    RequestWords(seen + "\n", fileId, number);
  }

  lemma NewLineAdded(line: string)
    requires line != "" && line[|line| - 1] != '\n'
    ensures Parse(line + "\n") == Parse(line)
  {
    TrimBuilt(line);
  }

  lemma {:induction false} DropDigitsShrinks(n: nat, e: nat)
    ensures DropDigits(n, e) <= n && (n > 0 && e > 0 ==> DropDigits(n, e) < n)
  {
    if e > 0 {
      DropDigitsShrinks(n / 10, e - 1);
    }
  }

  /** Cutting the text of a number drops its last digits. */
  lemma {:induction false} CutDropsDigits(n: nat, m: nat)
    requires 0 < m <= |Decimal(n)|
    ensures AllDigits(Decimal(n)[..m]) && Value(Decimal(n)[..m]) == DropDigits(n, |Decimal(n)| - m)
    decreases n
  {
    DecimalReadsBack(n);
    if m == |Decimal(n)| {
      assert Decimal(n)[..m] == Decimal(n);
    } else {
      assert n >= 10;
      assert Decimal(n)[..m] == Decimal(n / 10)[..m];
      CutDropsDigits(n / 10, m);
    }
  }

  /** A number cut short reads as what is left of it, which is smaller. */
  lemma ShorterNumber(n: nat, m: nat)
    requires n <= MAX_CHUNK_ID && 0 < m < |Decimal(n)|
    ensures var d := DropDigits(n, |Decimal(n)| - m); StoLL(Decimal(n)[..m]) == Some(d) && d < n
  {
    CutDropsDigits(n, m);
    assert n >= 10;
    DropDigitsShrinks(n, |Decimal(n)| - m);
    DigitsRead(Decimal(n)[..m]);
  }

  /** A word of digits reads as its value. */
  lemma DigitsRead(digits: string)
    requires digits != "" && AllDigits(digits) && Value(digits) <= LLONG_MAX
    ensures StoLL(digits) == Some(Value(digits))
  {
    DigitCountOf(digits, "");
    assert digits + "" == digits;
    assert SkipSpace(digits) == digits;
    assert digits[..|digits|] == digits;
  }

  /** Without a second word behind the command there is no request. */
  lemma ShortRequest(seen: string, fileId: string)
    requires IsToken(fileId)
    requires |seen| <= |"REQUEST " + fileId + " "| && seen == ("REQUEST " + fileId + " ")[..|seen|]
    ensures !Parse(seen).valid
  {
    if |seen| <= 7 {
      assert seen == "REQUEST"[..|seen|];
      CommandCut(seen);
    } else {
      var k := |seen| - 8;
      var got := fileId[..Min(k, |fileId|)];
      var tail := if k <= |fileId| then "" else " ";
      assert seen == "REQUEST" + (" " + got + tail);
      FileIdCut(seen, " " + got + tail, got, tail);
    }
  }

  lemma CommandCut(seen: string)
    requires |seen| <= 7 && seen == "REQUEST"[..|seen|]
    ensures !Parse(seen).valid
  {
    if seen == "" {
      ReadWordOfBlank(seen);
    } else {
      assert seen[0] == 'R';
      assert NoSpace("REQUEST");
      NotTrimmed(seen);
      ReadWordOf(seen, "", seen, "");
      if |seen| == 7 {
        NoFields("");
      }
    }
  }

  lemma NotTrimmed(seen: string)
    requires seen != "" && seen[|seen| - 1] != '\n'
    ensures TrimNewLine(seen) == seen
  {
  }

  lemma NoFields(rest: string)
    requires rest == "" || rest == " "
    ensures ParseRequest(rest, BLANK.(command := "REQUEST")) == BLANK.(command := "REQUEST")
  {
    ReadWordOfBlank(rest);
  }

  lemma FileIdCut(seen: string, rest: string, got: string, tail: string)
    requires seen == "REQUEST" + rest && rest == " " + got + tail && NoSpace(got) && (tail == "" || tail == " ")
    ensures !Parse(seen).valid
  {
    assert seen[|seen| - 1] != '\n';
    NotTrimmed(seen);
    assert seen == "" + "REQUEST" + rest;
    ReadWordOf(seen, "", "REQUEST", rest);
    if got != "" {
      FieldRead(rest, got, tail);
      ReadWordOfBlank(tail);
    } else if tail == "" {
      NoFields(rest);
    } else {
      BlanksOnly(rest);
    }
  }

  lemma BlanksOnly(rest: string)
    requires rest == "  "
    ensures ReadWord(rest) == None
  {
    assert rest[1..] == " ";
    ReadWordOfBlank(" ");
  }
}
