/** The persisted download state: one line `<chunk id> <status>` per chunk. */
module StateFile {
  import opened Options
  import opened Text
  import opened InputStreams

  datatype Status = NOT_STARTED | IN_PROGRESS | DONE | FAILED

  function StatusText(status: Status): string {
    match status
    case NOT_STARTED => "NOT_STARTED"
    case IN_PROGRESS => "IN_PROGRESS"
    case DONE => "DONE"
    case FAILED => "FAILED"
  }

  function TextStatus(text: string): Status {
    if text == "NOT_STARTED" then NOT_STARTED
    else if text == "IN_PROGRESS" then IN_PROGRESS
    else if text == "DONE" then DONE
    else if text == "FAILED" then FAILED
    else NOT_STARTED
  }

  function Line(i: nat, status: Status): string {
    Decimal(i) + " " + StatusText(status) + "\n"
  }

  /** The lines of the chunks from `i` on. */
  function RenderFrom(statuses: seq<Status>, i: nat): string
    requires i <= |statuses|
    decreases |statuses| - i
  {
    if i == |statuses| then "" else Line(i, statuses[i]) + RenderFrom(statuses, i + 1)
  }

  /** The whole state file of a status vector. */
  function Render(statuses: seq<Status>): string {
    RenderFrom(statuses, 0)
  }

  /** What reading a text into a status vector leaves in it. */
  function LoadInto(text: string, statuses: seq<Status>): (r: seq<Status>)
    ensures |r| == |statuses|
    decreases |text|
  {
    match ReadInt(text)
    case None => statuses
    case Some((id, rest)) =>
      match ReadWord(rest)
      case None => statuses
      case Some((word, rest)) =>
        LoadInto(rest, if 0 <= id < |statuses| then statuses[id := TextStatus(word)] else statuses)
  }

  function Untouched(total: nat): seq<Status> {
    seq(total, _ => NOT_STARTED)
  }

  /** The status vector a download starts from: what the state file says, if there is one. */
  function Load(stateFile: Option<string>, total: nat): (r: seq<Status>)
    ensures |r| == total
  {
    match stateFile
    case None => Untouched(total)
    case Some(text) => LoadInto(text, Untouched(total))
  }

  // ---------- the loops ----------

  lemma {:induction false} RenderGrows(statuses: seq<Status>, i: nat, n: nat)
    requires i <= n < |statuses|
    ensures RenderFrom(statuses[..n + 1], i) == RenderFrom(statuses[..n], i) + Line(n, statuses[n])
    decreases n - i
  {
    var longer, shorter := statuses[..n + 1], statuses[..n];
    if i < n {
      RenderGrows(statuses, i + 1, n);
      Regroup(Line(i, statuses[i]), RenderFrom(shorter, i + 1), Line(n, statuses[n]));
    } else {
      assert RenderFrom(longer, n + 1) == "" && RenderFrom(shorter, n) == "";
    }
  }

  method SaveDownloadState(statuses: seq<Status>) returns (out: string)
    ensures out == Render(statuses)
  {
    out := "";
    for i := 0 to |statuses|
      invariant out == Render(statuses[..i])
    {
      RenderGrows(statuses, 0, i);
      out := out + Decimal(i) + " " + StatusText(statuses[i]) + "\n";
    }
    assert statuses[..|statuses|] == statuses;
  }

  /** Reads the state file over a vector that starts out as not started. */
  method LoadDownloadState(stateFile: Option<string>, chunkStatus: array<Status>, totalChunks: int) returns (ok: bool)
    requires totalChunks > 0 ==> chunkStatus.Length == totalChunks
    modifies chunkStatus
    ensures ok <==> totalChunks > 0
    ensures chunkStatus[..] == if ok && stateFile.Some? then LoadInto(stateFile.value, old(chunkStatus[..]))
                               else old(chunkStatus[..])
  {
    if totalChunks <= 0 {
      return false;
    }
    if stateFile.None? {
      return true;
    }
    var input := new InputStream(stateFile.value);
    ghost var goal := LoadInto(stateFile.value, chunkStatus[..]);
    var reading := true;
    while reading
      invariant reading ==> !input.failed && LoadInto(input.rest, chunkStatus[..]) == goal
      invariant !reading ==> chunkStatus[..] == goal
      decreases reading, |input.rest|
    {
      var gotId, chunkId := input.ExtractInt();
      var gotText, statusText := input.ExtractWord();
      reading := gotId && gotText;
      if reading && 0 <= chunkId < totalChunks {
        chunkStatus[chunkId] := TextStatus(statusText);
      }
    }
    ok := true;
  }

  /** The ids of the chunks that are not done, in order. */
  function Missing(statuses: seq<Status>): seq<int> {
    if statuses == [] then []
    else
      var n := |statuses| - 1;
      Missing(statuses[..n]) + if statuses[n] != DONE then [n] else []
  }

  method FindMissingChunks(statuses: seq<Status>) returns (missing: seq<int>)
    ensures missing == Missing(statuses)
  {
    missing := [];
    for i := 0 to |statuses|
      invariant missing == Missing(statuses[..i])
    {
      assert statuses[..i + 1][..i] == statuses[..i];
      if statuses[i] != DONE {
        missing := missing + [i];
      }
    }
    assert statuses[..|statuses|] == statuses;
  }

  /** The missing list holds exactly the chunks that are not done, each once, in ascending order. */
  lemma {:induction false} MissingExactly(statuses: seq<Status>)
    ensures forall id :: id in Missing(statuses) <==> 0 <= id < |statuses| && statuses[id] != DONE
    ensures forall a, b :: 0 <= a < b < |Missing(statuses)| ==> Missing(statuses)[a] < Missing(statuses)[b]
  {
    if statuses != [] {
      var before := Missing(statuses[..|statuses| - 1]);
      MissingExactly(statuses[..|statuses| - 1]);
      forall a | 0 <= a < |before|
        ensures before[a] < |statuses| - 1
      {
        assert before[a] in before;
      }
    }
  }

  lemma {:induction false} NoneMissing(statuses: seq<Status>)
    requires forall k :: 0 <= k < |statuses| ==> statuses[k] == DONE
    ensures Missing(statuses) == []
  {
    if statuses != [] {
      NoneMissing(statuses[..|statuses| - 1]);
    }
  }

  method AllChunksDone(statuses: seq<Status>) returns (all: bool)
    ensures all <==> Missing(statuses) == []
  {
    MissingExactly(statuses);
    for i := 0 to |statuses|
      invariant forall k :: 0 <= k < i ==> statuses[k] == DONE
    {
      if statuses[i] != DONE {
        assert i in Missing(statuses);
        return false;
      }
    }
    NoneMissing(statuses);
    return true;
  }

  // ---------- what a line does ----------

  function Meaning(word: string): Status {
    match word
    case "DONE" => DONE
    case "IN_PROGRESS" => IN_PROGRESS
    case "FAILED" => FAILED
    case _ => NOT_STARTED
  }

  lemma SignedIsFirst(text: string, id: int, rest: string)
    requires text == SignedDecimal(id) + rest && -2_147_483_648 <= id <= 2_147_483_647 && EndsNumber(rest)
    ensures ReadInt(text) == Some((id, rest))
  {
    ReadSignedOf(text, id, rest);
    SignedStartsAtOnce(SignedDecimal(id), id, rest);
  }

  lemma SignedStartsAtOnce(digits: string, id: int, rest: string)
    requires digits == SignedDecimal(id)
    ensures SkipSpace(digits + rest) == digits + rest
  {
    SignedDecimalIsToken(id);
    assert (digits + rest)[0] == digits[0];
  }

  /**
   A line with any 32-bit number and any word sets the chunk of that number, if there is one, to the status that the
   word names, and reading goes on behind it.
   */
  lemma LoadAnyLine(text: string, id: int, word: string, rest: string, tail: string, statuses: seq<Status>)
    requires text == SignedDecimal(id) + rest && rest == " " + word + tail && IsToken(word) && EndsWord(tail)
    requires -2_147_483_648 <= id <= 2_147_483_647
    ensures LoadInto(text, statuses)
            == LoadInto(tail, if 0 <= id < |statuses| then statuses[id := Meaning(word)] else statuses)
  {
    SignedIsFirst(text, id, rest);
    ReadWordOf(rest, " ", word, tail);
    LoadStep(text, id, rest, word, tail, statuses);
  }

  /** Where no 32-bit number with a word behind it comes next, reading is over. */
  lemma LoadStops(text: string, statuses: seq<Status>)
    requires forall n, rest :: FirstNumber(text, n, rest) && -2_147_483_648 <= n <= 2_147_483_647 ==> AllSeparate(rest)
    ensures LoadInto(text, statuses) == statuses
  {
    match ReadInt(text) {
      case Some((n, rest)) =>
        ReadIntIff(text, n, rest);
        NoWordIff(rest);
      case None =>
    }
  }

  // ---------- round trip ----------

  lemma LoadSkipsNewline(text: string, statuses: seq<Status>)
    ensures LoadInto("\n" + text, statuses) == LoadInto(text, statuses)
  {
    assert ("\n" + text)[1..] == text;
    assert SkipSpace("\n" + text) == SkipSpace(text);
  }

  lemma StatusTextIsToken(status: Status)
    ensures IsToken(StatusText(status)) && TextStatus(StatusText(status)) == status
  {
  }

  lemma LoadStep(text: string, id: int, rest: string, word: string, tail: string, statuses: seq<Status>)
    requires ReadInt(text) == Some((id, rest)) && ReadWord(rest) == Some((word, tail))
    ensures LoadInto(text, statuses)
            == LoadInto(tail, if 0 <= id < |statuses| then statuses[id := TextStatus(word)] else statuses)
  {
  }

  /** Reading a number and a word sets that chunk, or nothing where the vector is too short for it. */
  lemma LoadPair(text: string, i: nat, word: string, tail: string, statuses: seq<Status>)
    requires i <= INT_MAX && IsToken(word) && EndsWord(tail)
    requires text == Decimal(i) + (" " + word + tail)
    ensures LoadInto(text, statuses)
            == LoadInto(tail, if i < |statuses| then statuses[i := TextStatus(word)] else statuses)
  {
    var rest := " " + word + tail;
    assert ReadInt(text) == Some((i, rest)) by { ReadIntOf(text, "", i, rest); }
    assert ReadWord(rest) == Some((word, tail)) by { ReadWordOf(rest, " ", word, tail); }
    LoadStep(text, i, rest, word, tail, statuses);
  }

  /** Reading one printed line sets that chunk, or nothing where the vector is too short for it. */
  lemma LoadLine(line: string, i: nat, status: Status, text: string, statuses: seq<Status>)
    requires i <= INT_MAX
    requires line == Line(i, status) + text
    ensures LoadInto(line, statuses) == LoadInto(text, if i < |statuses| then statuses[i := status] else statuses)
  {
    var word := StatusText(status);
    StatusTextIsToken(status);
    LoadPair(line, i, word, "\n" + text, statuses);
    LoadSkipsNewline(text, if i < |statuses| then statuses[i := status] else statuses);
  }

  lemma {:induction false} LoadRendered(saved: seq<Status>, i: nat, statuses: seq<Status>)
    requires i <= |saved| <= INT_MAX
    ensures var r := LoadInto(RenderFrom(saved, i), statuses);
            forall k :: 0 <= k < |statuses| ==> r[k] == if i <= k < |saved| then saved[k] else statuses[k]
    decreases |saved| - i
  {
    if i == |saved| {
      assert LoadInto("", statuses) == statuses;
    } else {
      var next := if i < |statuses| then statuses[i := saved[i]] else statuses;
      LoadLine(RenderFrom(saved, i), i, saved[i], RenderFrom(saved, i + 1), statuses);
      LoadRendered(saved, i + 1, next);
    }
  }

  /** Loading what was saved gives the saved vector, cut or filled up with NOT_STARTED to the new chunk count. */
  lemma StateRoundTrip(saved: seq<Status>, total: nat)
    requires |saved| <= INT_MAX
    ensures var r := Load(Some(Render(saved)), total);
            forall k :: 0 <= k < total ==> r[k] == if k < |saved| then saved[k] else NOT_STARTED
    ensures total == |saved| ==> Load(Some(Render(saved)), total) == saved
  {
    LoadRendered(saved, 0, Untouched(total));
  }

  // ---------- interrupted writes ----------

  /** A proper prefix of one line either changes nothing, or gives its chunk its status or NOT_STARTED. */
  lemma LoadPartialLine(part: string, i: nat, status: Status, statuses: seq<Status>)
    requires i <= INT_MAX
    requires |part| < |Line(i, status)| && part == Line(i, status)[..|part|]
    ensures var r := LoadInto(part, statuses);
            r == statuses || (i < |statuses| && (r == statuses[i := status] || r == statuses[i := NOT_STARTED]))
  {
    var digits := Decimal(i);
    if |part| <= |digits| {
      assert part == digits[..|part|];
      assert AllDigits(digits) by { DecimalReadsBack(i); }
      PartialNumber(part, statuses);
    } else if |part| == |digits| + 1 {
      NumberWithoutWord(part, i, statuses);
    } else {
      PartialWord(part, i, status, |part| - |digits| - 1, statuses);
    }
  }

  lemma PartialWord(part: string, i: nat, status: Status, k: nat, statuses: seq<Status>)
    requires i <= INT_MAX && 0 < k <= |StatusText(status)|
    requires part == Decimal(i) + " " + StatusText(status)[..k]
    ensures var r := LoadInto(part, statuses);
            if i < |statuses| then r == statuses[i := status] || r == statuses[i := NOT_STARTED] else r == statuses
  {
    var cut := StatusText(status)[..k];
    StatusTextIsToken(status);
    LoadPair(part, i, cut, "", statuses);
    PartialStatus(status, k);
    LoadNothing(if i < |statuses| then statuses[i := TextStatus(cut)] else statuses);
  }

  lemma LoadNothing(statuses: seq<Status>)
    ensures LoadInto("", statuses) == statuses
  {
  }

  lemma NumberWithoutWord(text: string, i: nat, statuses: seq<Status>)
    requires i <= INT_MAX && text == Decimal(i) + " "
    ensures LoadInto(text, statuses) == statuses
  {
    ReadIntOf(text, "", i, " ");
    ReadWordOfBlank(" ");
  }

  /** Digits alone carry no status word, so the loop stops there. */
  lemma PartialNumber(digits: string, statuses: seq<Status>)
    requires AllDigits(digits)
    ensures LoadInto(digits, statuses) == statuses
  {
    DigitCountOf(digits, "");
    assert digits + "" == digits;
    if digits != "" {
      assert SkipSpace(digits) == digits && IsDigit(digits[0]);
      assert digits[|digits|..] == "";
    }
    ReadWordOfBlank("");
  }

  /** No cut-off status word reads as another status. */
  lemma PartialStatus(status: Status, k: nat)
    requires k <= |StatusText(status)|
    ensures TextStatus(StatusText(status)[..k]) in {status, NOT_STARTED}
  {
    var cut := StatusText(status)[..k];
    if k == |StatusText(status)| {
      assert cut == StatusText(status);
    } else if k > 0 {
      assert cut[0] == StatusText(status)[0];
    }
  }

  /** A prefix of some text with a line in front of it: part of the line, or the line and a prefix of the text. */
  lemma CutBehindLine(whole: string, line: string, text: string, k: nat)
    requires whole == line + text && k <= |whole|
    ensures k < |line| ==> whole[..k] == line[..k]
    ensures k >= |line| ==> k - |line| <= |text| && whole[..k] == line + text[..k - |line|]
  {
  }

  lemma {:induction false} LoadPrefix(saved: seq<Status>, i: nat, k: nat, statuses: seq<Status>)
    requires i <= |saved| <= INT_MAX && k <= |RenderFrom(saved, i)|
    ensures var r := LoadInto(RenderFrom(saved, i)[..k], statuses);
            forall c :: 0 <= c < |statuses| ==>
              r[c] == statuses[c] || (i <= c < |saved| && r[c] in {saved[c], NOT_STARTED})
    decreases |saved| - i
  {
    if i == |saved| {
      assert RenderFrom(saved, i)[..k] == "";
      LoadNothing(statuses);
    } else {
      var line, text := Line(i, saved[i]), RenderFrom(saved, i + 1);
      CutBehindLine(RenderFrom(saved, i), line, text, k);
      if k < |line| {
        LoadPartialLine(line[..k], i, saved[i], statuses);
      } else {
        LoadLine(line + text[..k - |line|], i, saved[i], text[..k - |line|], statuses);
        LoadPrefix(saved, i + 1, k - |line|, if i < |statuses| then statuses[i := saved[i]] else statuses);
      }
    }
  }

  /** Whatever byte an interrupted write stopped at, every chunk loads as its saved status or as NOT_STARTED. */
  lemma InterruptedSaveInventsNothing(saved: seq<Status>, k: nat, total: nat)
    requires |saved| <= INT_MAX && k <= |Render(saved)|
    ensures var r := Load(Some(Render(saved)[..k]), total);
            forall c :: 0 <= c < total ==> r[c] == NOT_STARTED || (c < |saved| && r[c] == saved[c])
  {
    LoadPrefix(saved, 0, k, Untouched(total));
  }
}
