/** What a finished, or an interrupted, parallel download leaves behind. */
module EngineOutcome {
  import opened Options
  import opened Text
  import opened StateFile
  import opened Scheduling
  import opened ChunkFiles
  import opened Transfer
  import opened Engine
  import opened EngineSafety

  /** A state that some schedule reaches from the start of a download. */
  ghost predicate Reached(j: Job, stateFile: Option<string>, downloads: map<int, string>, shared: map<int, string>,
                          workers: nat, actions: seq<Action>, s: State)
  {
    && workers > 0 && HashesNonempty(j)
    && var start := Start(j, stateFile, downloads, shared, workers);
       Possible(j, start, actions) && Run(j, start, actions) == s
  }

  lemma ReachedInv(j: Job, stateFile: Option<string>, downloads: map<int, string>, shared: map<int, string>,
                   workers: nat, actions: seq<Action>, s: State)
    requires Reached(j, stateFile, downloads, shared, workers, actions, s)
    ensures Inv(j, s)
  {
    StartInv(j, stateFile, downloads, shared, workers);
    RunInv(j, Start(j, stateFile, downloads, shared, workers), actions);
  }

  /**
   However the workers interleave and whatever fails: once all of them have returned every chunk is done,
   by the scheduler and by the status vector, and no chunk is missing.
   */
  lemma NothingStranded(j: Job, stateFile: Option<string>, downloads: map<int, string>, shared: map<int, string>,
                        workers: nat, actions: seq<Action>, s: State)
    requires Reached(j, stateFile, downloads, shared, workers, actions, s) && AllReturned(s)
    ensures s.sched.AllDone() && |s.sched.done| == |s.status| == j.Total()
    ensures forall c :: 0 <= c < j.Total() ==> s.status[c] == DONE
    ensures Missing(s.status) == []
  {
    ReachedInv(j, stateFile, downloads, shared, workers, actions, s);
    AllDoneAtEnd(j, s);
    NoneMissing(s.status);
  }

  lemma AllDoneAtEnd(j: Job, s: State)
    requires Inv(j, s) && AllReturned(s)
    ensures forall c :: 0 <= c < j.Total() ==> s.sched.done[c] && s.status[c] == DONE
  {
    assert s.workers[0].Returned?;
    assert Running(s) == {};
    assert Undone(j, s) == {};
    forall c | 0 <= c < j.Total()
      ensures s.sched.done[c]
    {
      assert c !in Undone(j, s);
    }
  }

  /** In every reachable state a chunk is claimed exactly when one worker, and only one, is busy with it. */
  lemma ClaimsExclusive(j: Job, stateFile: Option<string>, downloads: map<int, string>, shared: map<int, string>,
                        workers: nat, actions: seq<Action>, s: State, c: int)
    requires Reached(j, stateFile, downloads, shared, workers, actions, s) && 0 <= c < j.Total()
    ensures |s.sched.done| == |s.sched.claimed| == j.Total()
    ensures s.sched.claimed[c] <==> exists w :: Holds(s, w, c)
    ensures forall v, w :: Holds(s, v, c) && Holds(s, w, c) ==> v == w
    ensures !(s.sched.done[c] && s.sched.claimed[c])
  {
    ReachedInv(j, stateFile, downloads, shared, workers, actions, s);
    if w :| Holds(s, w, c) {
      assert s.workers[w].Busy();
    }
  }

  /** Whenever the state mutex is free, a chunk's status is DONE exactly when the scheduler has it done, and the
      state file, once it was written at all, holds the status vector and loads back as it. */
  lemma CoherentWhenFree(j: Job, stateFile: Option<string>, downloads: map<int, string>, shared: map<int, string>,
                         workers: nat, actions: seq<Action>, s: State)
    requires Reached(j, stateFile, downloads, shared, workers, actions, s) && s.LockFree()
    ensures |s.sched.done| == |s.status| == j.Total()
    ensures forall c :: 0 <= c < j.Total() ==> (s.status[c] == DONE <==> s.sched.done[c])
    ensures s.entered ==> s.saved == Some(Render(s.status))
    ensures s.entered && j.Total() <= INT_MAX ==> Load(s.saved, j.Total()) == s.status
  {
    ReachedInv(j, stateFile, downloads, shared, workers, actions, s);
    forall c | 0 <= c < j.Total()
      ensures s.status[c] == DONE <==> s.sched.done[c]
    {
      if w :| MarksDone(s, w, c) {
        assert s.workers[w].Locked();
      }
    }
    if s.entered && j.Total() <= INT_MAX {
      StateRoundTrip(s.status, j.Total());
    }
  }

  /** Every chunk file without a claim is whole and digest-checked; a partial one is in a receiving worker's hands. */
  lemma UnclaimedFilesWhole(j: Job, stateFile: Option<string>, downloads: map<int, string>, shared: map<int, string>,
                            workers: nat, actions: seq<Action>, s: State, c: int)
    requires Reached(j, stateFile, downloads, shared, workers, actions, s)
    requires 0 <= c < j.Total() && c in s.downloads
    ensures |s.sched.claimed| == j.Total()
    ensures !s.sched.claimed[c] ==> Whole(j, s, c)
    ensures !Whole(j, s, c) ==> exists w :: Holds(s, w, c) && s.workers[w].Receiving?
  {
    ReachedInv(j, stateFile, downloads, shared, workers, actions, s);
    if s.sched.claimed[c] {
      var w :| Holds(s, w, c);
      assert FileOf(j, s, s.workers[w]);
    }
  }

  /** A worker that asks for a chunk gets the first that is neither done nor claimed, and returns if there is none. */
  lemma AsksForFirst(j: Job, s: State, w: nat)
    requires Shape(j, s) && w < |s.workers| && s.workers[w].Idle?
    ensures Enabled(j, s, w, Go)
    ensures var t := Next(j, s, w, Go);
            if t.workers[w].Claimed? then
              var c := t.workers[w].chunk;
              && 0 <= c < j.Total() && !s.sched.done[c] && !s.sched.claimed[c]
              && (forall k :: 0 <= k < c ==> s.sched.done[k] || s.sched.claimed[k])
              && t.sched == Sched(s.sched.done, s.sched.claimed[c := true])
            else
              && t.workers[w].Returned? && t.sched == s.sched
              && (forall k :: 0 <= k < j.Total() ==> s.sched.done[k] || s.sched.claimed[k])
  {
    FirstFreeIsLeast(s.sched, 0);
    var c := s.sched.NextChunk();
    forall k | 0 <= k < c
      ensures s.sched.done[k] || s.sched.claimed[k]
    {
      assert !s.sched.Free(k);
    }
  }

  // ---------- the end of a download ----------

  predicate Present(downloads: map<int, string>, shared: map<int, string>, i: int) {
    if i in downloads then downloads[i] != "" else i in shared && shared[i] != ""
  }

  method VerifyAllChunksComplete(status: seq<Status>, downloads: map<int, string>, shared: map<int, string>)
    returns (ok: bool)
    ensures ok <==> forall i :: 0 <= i < |status| ==>
              status[i] == DONE && (i in downloads || i in shared)
              && (if i in downloads then downloads[i] else shared[i]) != ""
  {
    for i := 0 to |status|
      invariant forall k :: 0 <= k < i ==> status[k] == DONE && Present(downloads, shared, k)
    {
      if status[i] != DONE {
        return false;
      }
      if !Present(downloads, shared, i) {
        return false;
      }
    }
    ok := true;
  }

  /** All chunks are done, all have a nonempty downloaded file, and the merged bytes have the recorded digest. */
  predicate Finishes(sched: Sched, status: seq<Status>, downloads: map<int, string>, digest: string -> string,
                     fileHash: Option<string>)
  {
    && sched.AllDone() && Missing(status) == []
    && (forall i :: 0 <= i < |status| ==> i in downloads && downloads[i] != "")
    && fileHash == Some(digest(JoinFrom(downloads, 0, |status|).1))
  }

  lemma MissingNoneIff(status: seq<Status>)
    ensures Missing(status) == [] <==> forall i :: 0 <= i < |status| ==> status[i] == DONE
  {
    MissingExactly(status);
    if Missing(status) != [] {
      assert Missing(status)[0] in Missing(status);
    }
  }

  /** Done by both records, with a nonempty downloaded file. */
  predicate Ready(sched: Sched, status: seq<Status>, downloads: map<int, string>, i: nat)
    requires i < |status| == |sched.done|
  {
    sched.done[i] && status[i] == DONE && i in downloads && downloads[i] != ""
  }

  /** Chunk by chunk: all are ready, and the bytes of all of them have the digest. */
  lemma FinishesIff(sched: Sched, status: seq<Status>, downloads: map<int, string>, digest: string -> string,
                    fileHash: Option<string>)
    requires |sched.done| == |status|
    ensures Finishes(sched, status, downloads, digest, fileHash)
            <==> (forall i: nat :: i < |status| ==> Ready(sched, status, downloads, i))
                 && fileHash == Some(digest(JoinFrom(downloads, 0, |status|).1))
  {
    MissingNoneIff(status);
    if Finishes(sched, status, downloads, digest, fileHash) {
      assert forall i: nat :: i < |status| ==> Ready(sched, status, downloads, i);
    } else if forall i: nat :: i < |status| ==> Ready(sched, status, downloads, i) {
      forall i | 0 <= i < |status|
        ensures sched.done[i] && status[i] == DONE && i in downloads && downloads[i] != ""
      {
        assert Ready(sched, status, downloads, i);
      }
    }
  }

  /** The checks and the merge behind `pool.wait()`; `fileHash` is what the metadata has for the file, if anything. */
  method FinishDownload(scheduler: ChunkScheduler, status: seq<Status>, downloads: map<int, string>,
                        shared: map<int, string>, digest: string -> string, fileHash: Option<string>)
    returns (ok: bool, output: Option<string>)
    requires scheduler.Valid() && |status| == scheduler.totalChunks
    ensures ok ==> output == Some(JoinFrom(downloads, 0, |status|).1)
    ensures ok <==> Finishes(scheduler.View(), status, downloads, digest, fileHash)
  {
    MergeSucceedsIff(downloads, 0, |status|);
    MissingExactly(status);
    var all := scheduler.AllDone();
    if !all {
      return false, None;
    }
    var missing := FindMissingChunks(status);
    if missing != [] {
      return false, None;
    }
    var complete := VerifyAllChunksComplete(status, downloads, shared);
    if !complete {
      assert exists i :: 0 <= i < |status| && !(i in downloads && downloads[i] != "");
      return false, None;
    }
    ok, output := MergeChunks(downloads, |status|, TRANSFER_BUFFER);
    if !ok {
      return;
    }
    forall i | 0 <= i < |status|
      ensures i in downloads && downloads[i] != ""
    {
      assert Present(downloads, shared, i);
    }
    ok := fileHash == Some(digest(output.value));
  }
}
