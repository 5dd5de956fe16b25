/**
 The line protocol between peers: the builders that print a message and the
 parser that reads one back.
 */
module Protocol {
  import opened Options
  import opened Text
  import opened InputStreams

  const MAX_CHUNK_ID := 1_000_000
  const MAX_CHUNK_SIZE := 64 * 1024 * 1024

  datatype MessageType = CONNECT | REQUEST | CHUNK | COMPLETE | ERROR | UNKNOWN

  datatype ParsedMessage = ParsedMessage(
    kind: MessageType,
    command: string,
    fileId: string,
    chunkId: int,
    chunkSize: nat,
    chunkHash: string,
    payload: string,
    valid: bool)

  /** What a message holds before anything was read into it. */
  const BLANK := ParsedMessage(UNKNOWN, "", "", -1, 0, "", "", false)

  // ---------- builders ----------

  function BuildConnect(peerId: string): string {
    "CONNECT " + peerId + "\n"
  }

  function BuildRequest(fileId: string, chunkId: int): string {
    "REQUEST " + fileId + " " + SignedDecimal(chunkId) + "\n"
  }

  function BuildChunk(fileId: string, chunkId: int, chunkSize: nat, chunkHash: string): string {
    "CHUNK " + fileId + " " + SignedDecimal(chunkId) + " " + SignedDecimal(chunkSize) + " " + chunkHash + "\n"
  }

  function BuildComplete(): string {
    "COMPLETE" + "\n"
  }

  function BuildError(errorText: string): string {
    "ERROR " + errorText + "\n"
  }

  // ---------- parser ----------

  function TrimNewLine(s: string): string {
    if s != "" && s[|s| - 1] == '\n' then s[..|s| - 1] else s
  }

  function Connected(peerId: string): ParsedMessage {
    BLANK.(command := "CONNECT", kind := CONNECT, payload := peerId, valid := true)
  }

  function Requested(fileId: string, chunkId: int): ParsedMessage {
    BLANK.(command := "REQUEST", kind := REQUEST, fileId := fileId, chunkId := chunkId, valid := true)
  }

  function Announced(fileId: string, chunkId: int, chunkSize: nat, chunkHash: string): ParsedMessage {
    BLANK.(command := "CHUNK", kind := CHUNK, fileId := fileId, chunkId := chunkId,
    chunkSize := chunkSize, chunkHash := chunkHash, valid := true)
  }

  const COMPLETED := BLANK.(command := "COMPLETE", kind := COMPLETE, valid := true)

  function Failed(errorText: string): ParsedMessage {
    BLANK.(command := "ERROR", kind := ERROR, payload := errorText, valid := true)
  }

  predicate ChunkIdInRange(id: int) {
    0 <= id <= MAX_CHUNK_ID
  }

  predicate ChunkSizeInRange(size: int) {
    0 < size <= MAX_CHUNK_SIZE
  }

  /** What a raw line means: the message it stands for, or an invalid one that keeps only its command word. */
  function Parse(raw: string): ParsedMessage {
    match ReadWord(TrimNewLine(raw))
    case None => BLANK
    case Some((command, rest)) =>
      var invalid := BLANK.(command := command);
      if command == "CONNECT" then
        match ReadWord(rest) {
          case None => invalid
          case Some((peerId, _)) => Connected(peerId)
        }
      else if command == "REQUEST" then ParseRequest(rest, invalid)
      else if command == "CHUNK" then ParseChunk(rest, invalid)
      else if command == "COMPLETE" then COMPLETED
      else if command == "ERROR" then Failed(ErrorText(rest))
      else invalid
  }

  function ParseRequest(rest: string, invalid: ParsedMessage): ParsedMessage {
    match ReadWord(rest)
    case None => invalid
    case Some((fileId, rest)) =>
      match ReadWord(rest)
      case None => invalid
      case Some((chunkText, _)) =>
        match StoLL(chunkText)
        case None => invalid
        case Some(id) => if ChunkIdInRange(id) then Requested(fileId, id) else invalid
  }

  function ParseChunk(rest: string, invalid: ParsedMessage): ParsedMessage {
    match ReadWord(rest)
    case None => invalid
    case Some((fileId, rest)) =>
      match ReadWord(rest)
      case None => invalid
      case Some((chunkText, rest)) =>
        match ReadWord(rest)
        case None => invalid
        case Some((sizeText, rest)) =>
          match ReadWord(rest)
          case None => invalid
          case Some((chunkHash, _)) =>
            match (StoLL(chunkText), StoLL(sizeText))
            case (Some(id), Some(size)) =>
              if ChunkIdInRange(id) && ChunkSizeInRange(size) then Announced(fileId, id, size, chunkHash) else invalid
            case _ => invalid
  }

  /** The text of an error line: up to the next newline, without the one separating space. */
  function ErrorText(rest: string): string {
    var line := rest[..Find(rest, '\n')];
    if line != "" && line[0] == ' ' then line[1..] else line
  }

  /** The parser as it runs: words are taken off a stream and fields filled one by one. */
  method ParseMessage(raw: string) returns (result: ParsedMessage)
    ensures result == Parse(raw)
  {
    result := BLANK;
    var message := TrimNewLine(raw);
    if message == "" {
      return;
    }
    var iss := new InputStream(message);
    var ok, command := iss.ExtractWord();
    if !ok {
      return;
    }
    result := result.(command := command);
    if command == "CONNECT" {
      var peerId;
      ok, peerId := iss.ExtractWord();
      if !ok {
        return;
      }
      result := result.(kind := CONNECT);
      result := result.(payload := peerId);
      result := result.(valid := true);
    } else if command == "REQUEST" {
      var fileId, chunkText;
      ok, fileId := iss.ExtractWord();
      ok, chunkText := iss.ExtractWord();
      if !ok {
        return;
      }
      var parsedChunkId := StoLL(chunkText);
      if parsedChunkId.None? || !ChunkIdInRange(parsedChunkId.value) {
        return;
      }
      result := result.(chunkId := parsedChunkId.value);
      result := result.(kind := REQUEST);
      result := result.(fileId := fileId);
      result := result.(valid := true);
    } else if command == "CHUNK" {
      var fileId, chunkText, chunkSizeText, chunkHash;
      ok, fileId := iss.ExtractWord();
      ok, chunkText := iss.ExtractWord();
      ok, chunkSizeText := iss.ExtractWord();
      if !ok {
        return;
      }
      ok, chunkHash := iss.ExtractWord();
      if !ok {
        return;
      }
      var parsedChunkId := StoLL(chunkText);
      var parsedChunkSize := StoLL(chunkSizeText);
      if parsedChunkId.None? || parsedChunkSize.None? {
        return;
      }
      if !ChunkIdInRange(parsedChunkId.value) {
        return;
      }
      if !ChunkSizeInRange(parsedChunkSize.value) {
        return;
      }
      result := result.(chunkId := parsedChunkId.value);
      result := result.(chunkSize := parsedChunkSize.value);
      result := result.(chunkHash := chunkHash);
      result := result.(kind := CHUNK);
      result := result.(fileId := fileId);
      result := result.(valid := true);
    } else if command == "COMPLETE" {
      result := result.(kind := COMPLETE);
      result := result.(valid := true);
    } else if command == "ERROR" {
      var errorText := iss.GetLine();
      if errorText != "" && errorText[0] == ' ' {
        errorText := errorText[1..];
      }
      result := result.(kind := ERROR);
      result := result.(payload := errorText);
      result := result.(valid := true);
    }
  }

  // ---------- what the parser hands out ----------

  /** Every valid message is one of the five forms, with words as its words and numbers in range. */
  lemma ValidForms(raw: string)
    requires Parse(raw).valid
    ensures var m := Parse(raw);
            match m.kind
            case CONNECT => IsToken(m.payload) && m == Connected(m.payload)
            case REQUEST => IsToken(m.fileId) && ChunkIdInRange(m.chunkId) && m == Requested(m.fileId, m.chunkId)
            case CHUNK => IsToken(m.fileId) && ChunkIdInRange(m.chunkId) && ChunkSizeInRange(m.chunkSize)
                          && IsToken(m.chunkHash) && m == Announced(m.fileId, m.chunkId, m.chunkSize, m.chunkHash)
            case COMPLETE => m == COMPLETED
            case ERROR => '\n' !in m.payload && m == Failed(m.payload)
            case UNKNOWN => false
  {
  }

  // ---------- which lines are which messages ----------

  ghost predicate ConnectLine(line: string, peerId: string, r0: string, r1: string) {
    FirstWord(line, "CONNECT", r0) && FirstWord(r0, peerId, r1)
  }

  /** A line is a CONNECT message exactly when CONNECT and the peer id are its first two words. */
  lemma ConnectLineIff(raw: string, peerId: string)
    ensures Parse(raw) == Connected(peerId)
            <==> exists r0, r1 :: ConnectLine(TrimNewLine(raw), peerId, r0, r1)
  {
    var line := TrimNewLine(raw);
    if Parse(raw) == Connected(peerId) {
      var r0 := ReadWord(line).value.1;
      var r1 := ReadWord(r0).value.1;
      ReadWordIff(line, "CONNECT", r0);
      ReadWordIff(r0, peerId, r1);
      assert ConnectLine(line, peerId, r0, r1);
    }
    if r0, r1 :| ConnectLine(line, peerId, r0, r1) {
      ReadWordIff(line, "CONNECT", r0);
      ReadWordIff(r0, peerId, r1);
    }
  }

  ghost predicate RequestLine(line: string, fileId: string, id: int, r0: string, r1: string, number: string, r2: string)
  {
    && FirstWord(line, "REQUEST", r0) && FirstWord(r0, fileId, r1) && FirstWord(r1, number, r2)
    && StartsWithNumber(number, id) && 0 <= id <= 1_000_000
  }

  /**
   A line requests a chunk exactly when REQUEST, the file id, and a word that starts with the chunk's number are its
   first three words, and the number is at most a million.
   */
  lemma RequestLineIff(raw: string, fileId: string, id: int)
    ensures Parse(raw) == Requested(fileId, id)
            <==> exists r0, r1, number, r2 :: RequestLine(TrimNewLine(raw), fileId, id, r0, r1, number, r2)
  {
    var line := TrimNewLine(raw);
    if Parse(raw) == Requested(fileId, id) {
      var r0, r1, number, r2 := RequestWasRead(raw, fileId, id);
      assert RequestLine(line, fileId, id, r0, r1, number, r2);
    }
    if r0, r1, number, r2 :| RequestLine(line, fileId, id, r0, r1, number, r2) {
      ReadWordIff(line, "REQUEST", r0);
      ReadWordIff(r0, fileId, r1);
      ReadWordIff(r1, number, r2);
      StoLLIff(number, id);
    }
  }

  lemma RequestWasRead(raw: string, fileId: string, id: int)
    returns (r0: string, r1: string, number: string, r2: string)
    requires Parse(raw) == Requested(fileId, id)
    ensures RequestLine(TrimNewLine(raw), fileId, id, r0, r1, number, r2)
  {
    r0 := ReadWord(TrimNewLine(raw)).value.1;
    r1 := ReadWord(r0).value.1;
    number, r2 := ReadWord(r1).value.0, ReadWord(r1).value.1;
    ReadWordIff(TrimNewLine(raw), "REQUEST", r0);
    ReadWordIff(r0, fileId, r1);
    ReadWordIff(r1, number, r2);
    StoLLIff(number, id);
  }

  /** The words of a header line. */
  datatype ChunkParts = ChunkParts(r0: string, r1: string, number: string, r2: string, length: string, r3: string,
                                   r4: string)

  ghost predicate ChunkLineOf(line: string, fileId: string, id: int, size: nat, chunkHash: string, p: ChunkParts) {
    && FirstWord(line, "CHUNK", p.r0) && FirstWord(p.r0, fileId, p.r1) && FirstWord(p.r1, p.number, p.r2)
    && FirstWord(p.r2, p.length, p.r3) && FirstWord(p.r3, chunkHash, p.r4)
    && StartsWithNumber(p.number, id) && 0 <= id <= 1_000_000
    && StartsWithNumber(p.length, size) && 1 <= size <= 67_108_864
  }

  /**
   A line announces a chunk exactly when CHUNK, the file id, words that start with the chunk's number, at most a
   million, and its size, from 1 byte to 64 MiB, and the digest are its first five words.
   */
  lemma ChunkLineIff(raw: string, fileId: string, id: int, size: nat, chunkHash: string)
    ensures Parse(raw) == Announced(fileId, id, size, chunkHash)
            <==> exists p :: ChunkLineOf(TrimNewLine(raw), fileId, id, size, chunkHash, p)
  {
    var line := TrimNewLine(raw);
    if Parse(raw) == Announced(fileId, id, size, chunkHash) {
      var p := ChunkWasRead(raw, fileId, id, size, chunkHash);
      assert ChunkLineOf(line, fileId, id, size, chunkHash, p);
    }
    if p :| ChunkLineOf(line, fileId, id, size, chunkHash, p) {
      ReadWordIff(line, "CHUNK", p.r0);
      ReadWordIff(p.r0, fileId, p.r1);
      ReadWordIff(p.r1, p.number, p.r2);
      ReadWordIff(p.r2, p.length, p.r3);
      ReadWordIff(p.r3, chunkHash, p.r4);
      StoLLIff(p.number, id);
      StoLLIff(p.length, size);
    }
  }

  lemma ChunkWasRead(raw: string, fileId: string, id: int, size: nat, chunkHash: string) returns (p: ChunkParts)
    requires Parse(raw) == Announced(fileId, id, size, chunkHash)
    ensures ChunkLineOf(TrimNewLine(raw), fileId, id, size, chunkHash, p)
  {
    var r0 := ReadWord(TrimNewLine(raw)).value.1;
    var r1 := ReadWord(r0).value.1;
    var (number, r2) := ReadWord(r1).value;
    var (length, r3) := ReadWord(r2).value;
    var r4 := ReadWord(r3).value.1;
    p := ChunkParts(r0, r1, number, r2, length, r3, r4);
    ReadWordIff(TrimNewLine(raw), "CHUNK", r0);
    ReadWordIff(r0, fileId, r1);
    ReadWordIff(r1, number, r2);
    ReadWordIff(r2, length, r3);
    ReadWordIff(r3, chunkHash, r4);
    StoLLIff(number, id);
    StoLLIff(length, size);
  }

  /** A line says COMPLETE exactly when that is its first word. */
  lemma CompleteLineIff(raw: string)
    ensures Parse(raw) == COMPLETED <==> exists r0 :: FirstWord(TrimNewLine(raw), "COMPLETE", r0)
  {
    if Parse(raw) == COMPLETED {
      ReadWordIff(TrimNewLine(raw), "COMPLETE", ReadWord(TrimNewLine(raw)).value.1);
    }
    if r0 :| FirstWord(TrimNewLine(raw), "COMPLETE", r0) {
      ReadWordIff(TrimNewLine(raw), "COMPLETE", r0);
    }
  }

  /** The rest of a line: what stands behind the command, but for one space, up to the next newline or the end. */
  predicate RestOfLine(r0: string, text: string) {
    && '\n' !in text
    && if r0 != "" && r0[0] == ' ' then " " + text <= r0 && (|text| + 1 == |r0| || r0[|text| + 1] == '\n')
       else text <= r0 && (|text| == |r0| || r0[|text|] == '\n')
  }

  ghost predicate ErrorLine(line: string, text: string, r0: string) {
    FirstWord(line, "ERROR", r0) && RestOfLine(r0, text)
  }

  lemma ErrorTextIff(r0: string, text: string)
    ensures ErrorText(r0) == text <==> RestOfLine(r0, text)
  {
    var line := r0[..Find(r0, '\n')];
    if RestOfLine(r0, text) {
      if r0 != "" && r0[0] == ' ' {
        assert r0[..|text| + 1] == " " + text;
        FindIs(r0, '\n', |text| + 1);
      } else {
        assert r0[..|text|] == text;
        FindIs(r0, '\n', |text|);
      }
    }
  }

  /** A line is an error exactly when its first word is ERROR; the text is the rest of that line. */
  lemma ErrorLineIff(raw: string, text: string)
    ensures Parse(raw) == Failed(text) <==> exists r0 :: ErrorLine(TrimNewLine(raw), text, r0)
  {
    if Parse(raw) == Failed(text) {
      var r0 := ReadWord(TrimNewLine(raw)).value.1;
      ReadWordIff(TrimNewLine(raw), "ERROR", r0);
      ErrorTextIff(r0, text);
      assert ErrorLine(TrimNewLine(raw), text, r0);
    }
    if r0 :| ErrorLine(TrimNewLine(raw), text, r0) {
      ReadWordIff(TrimNewLine(raw), "ERROR", r0);
      ErrorTextIff(r0, text);
    }
  }

  // ---------- printing, then parsing ----------

  lemma TrimBuilt(line: string)
    ensures TrimNewLine(line + "\n") == line
  {
  }

  lemma ParsesConnect(peerId: string)
    requires IsToken(peerId)
    ensures Parse(BuildConnect(peerId)) == Connected(peerId)
  {
    TrimBuilt("CONNECT " + peerId);
    ReadWordOf("CONNECT " + peerId, "", "CONNECT", " " + peerId);
    ReadWordOf(" " + peerId, " ", peerId, "");
  }

  /** What a REQUEST line with any two words means. */
  lemma RequestWords(raw: string, fileId: string, number: string)
    requires IsToken(fileId) && IsToken(number)
    requires raw == "REQUEST " + fileId + " " + number + "\n"
    ensures Parse(raw) == match StoLL(number)
                          case Some(id) =>
                            if ChunkIdInRange(id) then Requested(fileId, id) else BLANK.(command := "REQUEST")
                          case None => BLANK.(command := "REQUEST")
  {
    var rest1 := " " + number;
    var rest0 := " " + fileId + rest1;
    TrimBuilt("REQUEST" + rest0);
    assert raw == "REQUEST" + rest0 + "\n";
    ReadWordOf("REQUEST" + rest0, "", "REQUEST", rest0);
    ReadWordOf(rest0, " ", fileId, rest1);
    ReadWordOf(rest1, " ", number, "");
  }

  lemma ParsesRequest(fileId: string, chunkId: int)
    requires IsToken(fileId) && ChunkIdInRange(chunkId)
    ensures Parse(BuildRequest(fileId, chunkId)) == Requested(fileId, chunkId)
  {
    SignedDecimalIsToken(chunkId);
    RequestWords(BuildRequest(fileId, chunkId), fileId, SignedDecimal(chunkId));
    StoLLOf(chunkId);
  }

  /** The command word of a line, and what is left behind it. */
  lemma CommandRead(raw: string, command: string, rest: string)
    requires IsToken(command) && EndsWord(rest) && raw == command + rest + "\n"
    ensures ReadWord(TrimNewLine(raw)) == Some((command, rest))
  {
    TrimBuilt(command + rest);
    ReadWordOf(command + rest, "", command, rest);
  }

  /** One field behind its space. */
  lemma FieldRead(text: string, word: string, rest: string)
    requires IsToken(word) && EndsWord(rest) && text == " " + word + rest
    ensures ReadWord(text) == Some((word, rest))
  {
    ReadWordOf(text, " ", word, rest);
  }

  /** What a CHUNK line with these four words means: out of range, or not numbers, they make it invalid. */
  function ChunkMeaning(fileId: string, id: string, size: string, chunkHash: string): ParsedMessage {
    match (StoLL(id), StoLL(size))
    case (Some(i), Some(n)) =>
      if ChunkIdInRange(i) && ChunkSizeInRange(n) then Announced(fileId, i, n, chunkHash)
      else BLANK.(command := "CHUNK")
    case _ => BLANK.(command := "CHUNK")
  }

  lemma ChunkFields(rest0: string, rest1: string, rest2: string, rest3: string,
                    fileId: string, id: string, size: string, chunkHash: string)
    requires ReadWord(rest0) == Some((fileId, rest1)) && ReadWord(rest1) == Some((id, rest2))
    requires ReadWord(rest2) == Some((size, rest3)) && ReadWord(rest3) == Some((chunkHash, ""))
    ensures ParseChunk(rest0, BLANK.(command := "CHUNK")) == ChunkMeaning(fileId, id, size, chunkHash)
  {
  }

  /** The same line, as a command word and nested fields. */
  lemma ChunkLine(fileId: string, id: string, size: string, chunkHash: string)
    ensures "CHUNK " + fileId + " " + id + " " + size + " " + chunkHash
            == "CHUNK" + (" " + fileId + (" " + id + (" " + size + (" " + chunkHash))))
  {
    var a := "CHUNK " + fileId;
    var b := a + " " + id;
    var c := b + " " + size;
    Regroup(c, " ", chunkHash);
    Regroup(b, " ", size);
    Regroup(b, " " + size, " " + chunkHash);
    Regroup(a, " ", id);
    Regroup(a, " " + id, " " + size + (" " + chunkHash));
    assert "CHUNK " == "CHUNK" + " ";
    Regroup("CHUNK", " ", fileId);
    Regroup("CHUNK", " " + fileId, " " + id + (" " + size + (" " + chunkHash)));
  }

  /** What a CHUNK line with any four words means. */
  lemma ChunkWords(raw: string, fileId: string, id: string, size: string, chunkHash: string)
    requires IsToken(fileId) && IsToken(id) && IsToken(size) && IsToken(chunkHash)
    requires raw == "CHUNK " + fileId + " " + id + " " + size + " " + chunkHash + "\n"
    ensures Parse(raw) == ChunkMeaning(fileId, id, size, chunkHash)
  {
    ChunkLine(fileId, id, size, chunkHash);
    var rest3 := " " + chunkHash;
    var rest2 := " " + size + rest3;
    var rest1 := " " + id + rest2;
    NestedChunkWords(raw, " " + fileId + rest1, rest1, rest2, rest3, fileId, id, size, chunkHash);
  }

  lemma NestedChunkWords(raw: string, rest0: string, rest1: string, rest2: string, rest3: string,
                         fileId: string, id: string, size: string, chunkHash: string)
    requires IsToken(fileId) && IsToken(id) && IsToken(size) && IsToken(chunkHash)
    requires rest3 == " " + chunkHash && rest2 == " " + size + rest3 && rest1 == " " + id + rest2
    requires rest0 == " " + fileId + rest1 && raw == "CHUNK" + rest0 + "\n"
    ensures Parse(raw) == ChunkMeaning(fileId, id, size, chunkHash)
  {
    CommandRead(raw, "CHUNK", rest0);
    ChunkCommand(raw, rest0);
    FieldRead(rest0, fileId, rest1);
    FieldRead(rest1, id, rest2);
    FieldRead(rest2, size, rest3);
    FieldRead(rest3, chunkHash, "");
    ChunkFields(rest0, rest1, rest2, rest3, fileId, id, size, chunkHash);
  }

  lemma ChunkCommand(raw: string, rest: string)
    requires ReadWord(TrimNewLine(raw)) == Some(("CHUNK", rest))
    ensures Parse(raw) == ParseChunk(rest, BLANK.(command := "CHUNK"))
  {
  }

  lemma ParsesChunk(fileId: string, chunkId: int, chunkSize: nat, chunkHash: string)
    requires IsToken(fileId) && ChunkIdInRange(chunkId) && ChunkSizeInRange(chunkSize) && IsToken(chunkHash)
    ensures Parse(BuildChunk(fileId, chunkId, chunkSize, chunkHash)) == Announced(fileId, chunkId, chunkSize, chunkHash)
  {
    SignedDecimalIsToken(chunkId);
    SignedDecimalIsToken(chunkSize);
    StoLLOf(chunkId);
    StoLLOf(chunkSize);
    ChunkWords(BuildChunk(fileId, chunkId, chunkSize, chunkHash),
               fileId, SignedDecimal(chunkId), SignedDecimal(chunkSize), chunkHash);
  }

  lemma ParsesError(errorText: string)
    requires '\n' !in errorText
    ensures Parse(BuildError(errorText)) == Failed(errorText)
  {
    var rest := " " + errorText;
    TrimBuilt("ERROR " + errorText);
    ReadWordOf("ERROR " + errorText, "", "ERROR", rest);
    assert Find(rest, '\n') == |rest|;
    assert rest[..|rest|] == rest && rest[1..] == errorText;
  }

  lemma ParsesComplete()
    ensures Parse(BuildComplete()) == COMPLETED
  {
    CommandRead(BuildComplete(), "COMPLETE", "");
    CompleteCommand(BuildComplete());
  }

  lemma CompleteCommand(raw: string)
    requires ReadWord(TrimNewLine(raw)) == Some(("COMPLETE", ""))
    ensures Parse(raw) == COMPLETED
  {
  }

  // ---------- exactly which messages survive the trip ----------

  /** A CONNECT message comes back exactly when the peer id is one nonempty word. */
  lemma ConnectRoundTrip(peerId: string)
    ensures Parse(BuildConnect(peerId)) == Connected(peerId) <==> IsToken(peerId)
  {
    if IsToken(peerId) {
      ParsesConnect(peerId);
    } else if Parse(BuildConnect(peerId)) == Connected(peerId) {
      ValidForms(BuildConnect(peerId));
    }
  }

  /** A REQUEST comes back exactly when the file id is one word and the chunk id is in range. */
  lemma RequestRoundTrip(fileId: string, chunkId: int)
    ensures Parse(BuildRequest(fileId, chunkId)) == Requested(fileId, chunkId)
            <==> IsToken(fileId) && ChunkIdInRange(chunkId)
  {
    if IsToken(fileId) && ChunkIdInRange(chunkId) {
      ParsesRequest(fileId, chunkId);
    } else if Parse(BuildRequest(fileId, chunkId)) == Requested(fileId, chunkId) {
      ValidForms(BuildRequest(fileId, chunkId));
    }
  }

  /** A CHUNK header comes back exactly when its words are words and its numbers are in range. */
  lemma ChunkRoundTrip(fileId: string, chunkId: int, chunkSize: nat, chunkHash: string)
    ensures Parse(BuildChunk(fileId, chunkId, chunkSize, chunkHash)) == Announced(fileId, chunkId, chunkSize, chunkHash)
            <==> IsToken(fileId) && ChunkIdInRange(chunkId) && ChunkSizeInRange(chunkSize) && IsToken(chunkHash)
  {
    if IsToken(fileId) && ChunkIdInRange(chunkId) && ChunkSizeInRange(chunkSize) && IsToken(chunkHash) {
      ParsesChunk(fileId, chunkId, chunkSize, chunkHash);
    } else if Parse(BuildChunk(fileId, chunkId, chunkSize, chunkHash))
      == Announced(fileId, chunkId, chunkSize, chunkHash) {
      ValidForms(BuildChunk(fileId, chunkId, chunkSize, chunkHash));
    }
  }

  /** An ERROR message comes back exactly when its text holds no newline. */
  lemma ErrorRoundTrip(errorText: string)
    ensures Parse(BuildError(errorText)) == Failed(errorText) <==> '\n' !in errorText
  {
    if '\n' !in errorText {
      ParsesError(errorText);
    } else if Parse(BuildError(errorText)) == Failed(errorText) {
      ValidForms(BuildError(errorText));
    }
  }

  // ---------- parsing, then printing ----------

  /** The line a message would be printed as. */
  function Rebuild(m: ParsedMessage): string {
    match m.kind
    case CONNECT => BuildConnect(m.payload)
    case REQUEST => BuildRequest(m.fileId, m.chunkId)
    case CHUNK => BuildChunk(m.fileId, m.chunkId, m.chunkSize, m.chunkHash)
    case COMPLETE => BuildComplete()
    case ERROR => BuildError(m.payload)
    case UNKNOWN => ""
  }

  /** However loosely a valid line was written, printing what was read and reading that gives the same message. */
  lemma RebuildNormalises(raw: string)
    requires Parse(raw).valid
    ensures Parse(Rebuild(Parse(raw))) == Parse(raw)
  {
    var m := Parse(raw);
    ValidForms(raw);
    match m.kind
    case CONNECT => ParsesConnect(m.payload);
    case REQUEST => ParsesRequest(m.fileId, m.chunkId);
    case CHUNK => ParsesChunk(m.fileId, m.chunkId, m.chunkSize, m.chunkHash);
    case COMPLETE => ParsesComplete();
    case ERROR => ParsesError(m.payload);
  }

  /** A plus sign before a chunk id and letters behind it are accepted, and are gone when it is printed back. */
  lemma LenientRequest(raw: string, fileId: string, chunkId: nat, tail: string)
    requires IsToken(fileId) && ChunkIdInRange(chunkId)
    requires NoSpace(tail) && EndsNumber(tail)
    requires raw == "REQUEST " + fileId + " +" + Decimal(chunkId) + tail + "\n"
    ensures Parse(raw) == Requested(fileId, chunkId) && Rebuild(Parse(raw)) == BuildRequest(fileId, chunkId)
  {
    var number := "+" + Decimal(chunkId) + tail;
    SignedIsToken(number, Decimal(chunkId), tail) by { DecimalIsToken(chunkId); }
    LenientNumber(number, chunkId, tail);
    assert raw == "REQUEST " + fileId + " " + number + "\n" by {
      assert " +" == " " + "+";
      Regroup("REQUEST " + fileId, " ", "+");
      Regroup("REQUEST " + fileId + " ", "+", Decimal(chunkId));
      Regroup("REQUEST " + fileId + " ", "+" + Decimal(chunkId), tail);
    }
    RequestWords(raw, fileId, number);
  }

  lemma SignedIsToken(number: string, digits: string, tail: string)
    requires NoSpace(digits) && NoSpace(tail) && number == "+" + digits + tail
    ensures IsToken(number)
  {
  }

  lemma LenientNumber(number: string, n: nat, tail: string)
    requires n <= LLONG_MAX && EndsNumber(tail)
    requires number == "+" + Decimal(n) + tail
    ensures StoLL(number) == Some(n)
  {
    assert SkipSpace(number) == number;
    var t := number[1..];
    assert t == Decimal(n) + tail;
    DecimalReadsBack(n);
    DigitCountOf(Decimal(n), tail);
    assert t[..|Decimal(n)|] == Decimal(n);
  }
}
