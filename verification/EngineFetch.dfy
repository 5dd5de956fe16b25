/** The receiving code as it runs in one piece is what one engine worker does step by step. */
module EngineFetch {
  import opened Options
  import opened Protocol
  import opened ChunkFiles
  import opened Transfer
  import opened Engine

  // ---------- one worker's actions ----------

  predicate OnlyBy(w: nat, actions: seq<Action>) {
    forall k :: 0 <= k < |actions| ==> actions[k].worker == w
  }

  /** The actions are possible for worker `w` alone, and lead from `s` to `t`. */
  ghost predicate Leads(j: Job, s: State, w: nat, actions: seq<Action>, t: State) {
    OnlyBy(w, actions) && Possible(j, s, actions) && Run(j, s, actions) == t
  }

  lemma OneMore(j: Job, s: State, w: nat, choice: Choice, next: State, rest: seq<Action>, t: State)
    requires Enabled(j, s, w, choice) && Next(j, s, w, choice) == next && Leads(j, next, w, rest, t)
    ensures Leads(j, s, w, [Action(w, choice)] + rest, t)
  {
    var actions := [Action(w, choice)] + rest;
    assert actions[1..] == rest;
  }

  lemma NoMore(j: Job, s: State, w: nat)
    ensures Leads(j, s, w, [], s)
  {
  }

  // ---------- the payload ----------

  /** The worker is about to release with the outcome, the chunk's file is as the outcome says, and no more changed. */
  predicate Matches(s: State, t: State, w: nat, c: int, attempt: nat, r: Outcome) {
    && w < |s.workers|
    && t == s.Move(w, Releasing(c, attempt, r.ok))
            .(downloads := WithFile(s.downloads, c, r.file), receipts := t.receipts)
  }

  /** What the end of the receive loop and the digest check make of the chunk. */
  function Settled(digest: string -> string, hash: string, r: Received): Outcome {
    if r.remaining > 0 || (hash != "" && digest(r.content) != hash) then Outcome(false, None)
    else Outcome(true, Some(r.content))
  }

  /** What the file and the phase held in between does not matter. */
  lemma MatchesThrough(s: State, t: State, end: State, w: nat, q: Phase, c: int, content: string, attempt: nat,
                       r: Outcome)
    requires w < |s.workers| && t == s.Move(w, q).(downloads := s.downloads[c := content])
    requires Matches(t, end, w, c, attempt, r)
    ensures Matches(s, end, w, c, attempt, r)
  {
    MovedTwice(s.workers, w, q, Releasing(c, attempt, r.ok));
    Rewritten(s.downloads, c, content, if r.file.Some? then r.file.value else "");
  }

  lemma MovedTwice(workers: seq<Phase>, w: nat, p: Phase, q: Phase)
    requires w < |workers|
    ensures workers[w := p][w := q] == workers[w := q]
  {
  }

  lemma FileKept(files: map<int, string>, c: int)
    ensures WithFile(files, c, FileAt(files, c)) == files
  {
  }

  lemma {:induction false} PayloadFollows(j: Job, s: State, w: nat, pieces: seq<string>)
    returns (actions: seq<Action>, end: State)
    requires w < |s.workers| && s.workers[w].Receiving? && Pieced(pieces)
    requires s.workers[w].unread == Join(pieces) && s.workers[w].chunk in s.downloads
    ensures Leads(j, s, w, actions, end)
    ensures var p := s.workers[w];
            Matches(s, end, w, p.chunk, p.attempt,
                    Settled(j.digest, p.hash, ReceiveFrom(s.downloads[p.chunk], p.remaining, pieces)))
    decreases |Join(pieces)|, 1
  {
    var p := s.workers[w];
    if p.remaining == 0 || pieces == [] {
      var choice := if p.remaining == 0 then Go else RecvEnds;
      end := Next(j, s, w, choice);
      FileKept(s.downloads, p.chunk);
      NoMore(j, end, w);
      OneMore(j, s, w, choice, end, [], end);
      actions := [Action(w, choice)] + [];
    } else {
      var limit := Min(TRANSFER_BUFFER, p.remaining);
      TakePieceLaw(pieces, limit);
      var (data, left) := TakePiece(pieces, limit);
      var q := p.(remaining := p.remaining - |data|, unread := Join(left));
      actions, end := PayloadPieceFollows(j, s, w, data, left, q, s.downloads[p.chunk] + data);
    }
  }

  /** The rest of the loop, from a state in which the worker is at `q` and the file holds `content`. */
  lemma {:induction false} PayloadGoesOn(j: Job, t: State, w: nat, q: Phase, content: string, left: seq<string>)
    returns (actions: seq<Action>, end: State)
    requires w < |t.workers| && t.workers[w] == q && q.Receiving? && Pieced(left) && q.unread == Join(left)
    requires q.chunk in t.downloads && t.downloads[q.chunk] == content
    ensures Leads(j, t, w, actions, end)
    ensures Matches(t, end, w, q.chunk, q.attempt, Settled(j.digest, q.hash, ReceiveFrom(content, q.remaining, left)))
    decreases |Join(left)|, 2
  {
    actions, end := PayloadFollows(j, t, w, left);
  }

  lemma {:induction false} PayloadPieceFollows(j: Job, s: State, w: nat, data: string, left: seq<string>,
                                               q: Phase, content: string)
    returns (actions: seq<Action>, end: State)
    requires w < |s.workers| && s.workers[w].Receiving? && s.workers[w].chunk in s.downloads
    requires s.workers[w].unread == data + Join(left) && Pieced(left)
    requires 0 < |data| <= Min(TRANSFER_BUFFER, s.workers[w].remaining)
    requires q == s.workers[w].(remaining := s.workers[w].remaining - |data|, unread := Join(left))
    requires content == s.downloads[q.chunk] + data
    ensures Leads(j, s, w, actions, end)
    ensures Matches(s, end, w, q.chunk, q.attempt, Settled(j.digest, q.hash, ReceiveFrom(content, q.remaining, left)))
    decreases |Join(left)| + |data|, 0
  {
    var t := s.Move(w, q).(downloads := s.downloads[q.chunk := content]);
    var rest;
    rest, end := PayloadGoesOn(j, t, w, q, content, left);
    var r := Settled(j.digest, q.hash, ReceiveFrom(content, q.remaining, left));
    MatchesThrough(s, t, end, w, q, q.chunk, content, q.attempt, r);
    PayloadOneMore(j, s, w, data, Join(left), t, rest, end);
    actions := [Action(w, Recv(|data|))] + rest;
  }

  lemma PayloadNext(j: Job, s: State, w: nat, data: string, unread: string)
    requires w < |s.workers| && s.workers[w].Receiving? && s.workers[w].chunk in s.downloads
    requires 0 < |data| <= Min(TRANSFER_BUFFER, s.workers[w].remaining) && s.workers[w].unread == data + unread
    ensures Enabled(j, s, w, Recv(|data|))
    ensures var p := s.workers[w];
            Next(j, s, w, Recv(|data|))
            == s.Move(w, p.(remaining := p.remaining - |data|, unread := unread))
               .(downloads := s.downloads[p.chunk := s.downloads[p.chunk] + data])
  {
    Front(s.workers[w].unread, data, unread);
    assert Next(j, s, w, Recv(|data|)) == PayloadPiece(s, w, s.workers[w], |data|);
  }

  lemma PayloadOneMore(j: Job, s: State, w: nat, data: string, unread: string, t: State, rest: seq<Action>, end: State)
    requires w < |s.workers| && s.workers[w].Receiving? && s.workers[w].chunk in s.downloads
    requires 0 < |data| <= Min(TRANSFER_BUFFER, s.workers[w].remaining) && s.workers[w].unread == data + unread
    requires var p := s.workers[w];
             t == s.Move(w, p.(remaining := p.remaining - |data|, unread := unread))
                  .(downloads := s.downloads[p.chunk := s.downloads[p.chunk] + data])
    requires Leads(j, t, w, rest, end)
    ensures Leads(j, s, w, [Action(w, Recv(|data|))] + rest, end)
  {
    PayloadNext(j, s, w, data, unread);
    OneMore(j, s, w, Recv(|data|), t, rest, end);
  }

  lemma Front(all: string, data: string, rest: string)
    requires all == data + rest
    ensures |data| <= |all| && all[..|data|] == data && all[|data|..] == rest
  {
  }

  // ---------- the header line, and the whole request ----------

  /** `Fetch`, with part of the header line received already. */
  function FetchFrom(digest: string -> string, before: Option<string>, accumulated: string,
                     pieces: seq<string>): Outcome
    requires Pieced(pieces) && '\n' !in accumulated
  {
    var h := ReadHeaderFrom(accumulated, pieces);
    if !h.ok then Outcome(false, before)
    else
      var m := Parse(h.line);
      if !m.valid || m.kind != CHUNK then Outcome(false, before)
      else
        HeaderLossless(accumulated, pieces);
        ReceivePayload(digest, m.chunkSize, h.remainder, m.chunkHash, h.left)
  }

  lemma {:induction false} HeaderFollows(j: Job, s: State, w: nat, pieces: seq<string>)
    returns (actions: seq<Action>, end: State)
    requires w < |s.workers| && s.workers[w].Reading? && Pieced(pieces)
    requires s.workers[w].unread == Join(pieces) && '\n' !in s.workers[w].accumulated
    ensures Leads(j, s, w, actions, end)
    ensures var p := s.workers[w];
            Matches(s, end, w, p.chunk, p.attempt,
                    FetchFrom(j.digest, FileAt(s.downloads, p.chunk), p.accumulated, pieces))
    decreases |Join(pieces)|
  {
    var p := s.workers[w];
    FileKept(s.downloads, p.chunk);
    if pieces == [] {
      end := Next(j, s, w, RecvEnds);
      NoMore(j, end, w);
      OneMore(j, s, w, RecvEnds, end, [], end);
      actions := [Action(w, RecvEnds)] + [];
    } else {
      actions, end := HeaderPieceFollows(j, s, w, pieces);
    }
  }

  lemma {:induction false} HeaderPieceFollows(j: Job, s: State, w: nat, pieces: seq<string>)
    returns (actions: seq<Action>, end: State)
    requires w < |s.workers| && s.workers[w].Reading? && Pieced(pieces) && pieces != []
    requires s.workers[w].unread == Join(pieces) && '\n' !in s.workers[w].accumulated
    ensures Leads(j, s, w, actions, end)
    ensures var p := s.workers[w];
            Matches(s, end, w, p.chunk, p.attempt,
                    FetchFrom(j.digest, FileAt(s.downloads, p.chunk), p.accumulated, pieces))
    decreases |Join(pieces)|, 0
  {
    var p := s.workers[w];
    FileKept(s.downloads, p.chunk);
    TakePieceLaw(pieces, TRANSFER_BUFFER);
    var (data, left) := TakePiece(pieces, TRANSFER_BUFFER);
    Front(p.unread, data, Join(left));
    var choice := Recv(|data|);
    var t := Next(j, s, w, choice);
    assert t == HeaderPiece(s, w, p, |data|);
    var rest;
    match HeaderStep(p.accumulated, data) {
      case MoreHeader(all) =>
        assert all[..|all|] == all;
        rest, end := HeaderFollows(j, t, w, left);
        MovedTwice(s.workers, w, t.workers[w], end.workers[w]);
      case HeaderTooLarge =>
        NoMore(j, t, w);
        rest, end := [], t;
      case HeaderLine(line, remainder) =>
        LineTaken(s, w, p, |data|, line, remainder);
        rest, end := LineFollows(j, s, w, p, Parse(line), remainder, left);
    }
    OneMore(j, s, w, choice, t, rest, end);
    actions := [Action(w, choice)] + rest;
  }

  lemma LineTaken(s: State, w: nat, p: Phase, count: nat, line: string, remainder: string)
    requires w < |s.workers| && p.Reading? && count <= |p.unread|
    requires HeaderStep(p.accumulated, p.unread[..count]) == HeaderLine(line, remainder)
    ensures HeaderPiece(s, w, p, count) == TakeLine(s, w, p, Parse(line), remainder, p.unread[count..])
  {
  }

  lemma AcceptedFollows(j: Job, s: State, w: nat, q: Phase, remainder: string, first: string, left: seq<string>)
    returns (actions: seq<Action>, end: State)
    requires w < |s.workers| && q.Receiving? && Pieced(left) && q.unread == Join(left)
    requires first == remainder[..Min(q.size, |remainder|)] && q.remaining == q.size - |first|
    ensures Leads(j, s.Move(w, q).(downloads := s.downloads[q.chunk := first]), w, actions, end)
    ensures Matches(s, end, w, q.chunk, q.attempt, ReceivePayload(j.digest, q.size, remainder, q.hash, left))
  {
    var t := s.Move(w, q).(downloads := s.downloads[q.chunk := first]);
    actions, end := PayloadGoesOn(j, t, w, q, first, left);
    MatchesThrough(s, t, end, w, q, q.chunk, first, q.attempt,
                   Settled(j.digest, q.hash, ReceiveFrom(first, q.remaining, left)));
  }

  /** Behind the header line: nothing more, or the payload. */
  lemma LineFollows(j: Job, s: State, w: nat, p: Phase, m: ParsedMessage, remainder: string, left: seq<string>)
    returns (actions: seq<Action>, end: State)
    requires w < |s.workers| && p.Reading? && Pieced(left)
    ensures Leads(j, TakeLine(s, w, p, m, remainder, Join(left)), w, actions, end)
    ensures Matches(s, end, w, p.chunk, p.attempt,
                    if !m.valid || m.kind != CHUNK then Outcome(false, FileAt(s.downloads, p.chunk))
                    else ReceivePayload(j.digest, m.chunkSize, remainder, m.chunkHash, left))
  {
    if !m.valid || m.kind != CHUNK {
      FileKept(s.downloads, p.chunk);
      end := s.Move(w, Releasing(p.chunk, p.attempt, false));
      NoMore(j, end, w);
      actions := [];
    } else {
      var first := remainder[..Min(m.chunkSize, |remainder|)];
      var q := Receiving(p.chunk, p.attempt, m.chunkSize, m.chunkHash, m.chunkSize - |first|, Join(left));
      actions, end := AcceptedFollows(j, s, w, q, remainder, first, left);
    }
  }

  /**
   Whatever a connection delivers, in whatever pieces: an engine worker that connects can take steps, alone, that
   end with the outcome and the chunk file of the receiving code run in one piece, and change nothing else.
   */
  lemma WorkerFollowsFetch(j: Job, s: State, w: nat, c: int, attempt: nat, pieces: seq<string>)
    returns (actions: seq<Action>, end: State)
    requires w < |s.workers| && s.workers[w] == Reserved(c, attempt) && Pieced(pieces)
    ensures Leads(j, s, w, actions, end)
    ensures Matches(s, end, w, c, attempt, Fetch(j.digest, FileAt(s.downloads, c), pieces))
  {
    var choice := Connect(Join(pieces));
    var t := Next(j, s, w, choice);
    assert t == s.Move(w, Reading(c, attempt, "", Join(pieces)));
    var rest;
    rest, end := HeaderFollows(j, t, w, pieces);
    MovedTwice(s.workers, w, t.workers[w], end.workers[w]);
    OneMore(j, s, w, choice, t, rest, end);
    actions := [Action(w, choice)] + rest;
  }
}
