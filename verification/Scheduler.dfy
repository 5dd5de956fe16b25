/** The chunk scheduler: which chunks are done, and which are claimed by a worker. */
module Scheduling {
  /** The two bit vectors behind the scheduler's mutex. */
  datatype Sched = Sched(done: seq<bool>, claimed: seq<bool>) {
    ghost predicate Valid(total: nat) {
      |done| == total && |claimed| == total
    }

    /** No chunk is both done and claimed. */
    ghost predicate Disjoint() {
      forall i :: 0 <= i < |done| && i < |claimed| ==> !(done[i] && claimed[i])
    }

    predicate Free(i: int) {
      0 <= i < |done| && i < |claimed| && !done[i] && !claimed[i]
    }

    predicate AllDone() {
      forall i :: 0 <= i < |done| ==> done[i]
    }

    /** The first free chunk from `i` on, or -1. */
    function FirstFree(i: nat): int
      decreases |done| - i
    {
      if i >= |done| then -1 else if Free(i) then i else FirstFree(i + 1)
    }

    function NextChunk(): int {
      FirstFree(0)
    }

    function Claim(i: int): Sched {
      if 0 <= i < |claimed| then this.(claimed := claimed[i := true]) else this
    }

    function MarkDone(i: int): Sched {
      if 0 <= i < |done| && i < |claimed| then Sched(done[i := true], claimed[i := false]) else this
    }

    function MarkFailed(i: int): Sched {
      if 0 <= i < |claimed| then this.(claimed := claimed[i := false]) else this
    }
  }

  /** The scan finds the least free chunk, and gives up only when every chunk is done or claimed. */
  lemma {:induction false} FirstFreeIsLeast(s: Sched, i: nat)
    requires |s.done| == |s.claimed|
    ensures var c := s.FirstFree(i);
            if c == -1 then forall k :: i <= k < |s.done| ==> s.done[k] || s.claimed[k]
            else s.Free(c) && i <= c && forall k :: i <= k < c ==> !s.Free(k)
    decreases |s.done| - i
  {
    if i < |s.done| && !s.Free(i) {
      FirstFreeIsLeast(s, i + 1);
    }
  }

  /** Claiming what the scan returned, finishing and failing all keep done and claimed apart. */
  lemma DisjointKept(s: Sched, i: int)
    requires |s.done| == |s.claimed| && s.Disjoint()
    ensures s.Claim(s.NextChunk()).Disjoint()
    ensures s.MarkDone(i).Disjoint() && s.MarkFailed(i).Disjoint()
  {
    FirstFreeIsLeast(s, 0);
  }

  /** The scheduler itself; each method body runs under the mutex. */
  class ChunkScheduler {
    const totalChunks: nat
    const done: array<bool>
    const claimed: array<bool>

    ghost predicate Valid()
      reads this
    {
      done.Length == totalChunks && claimed.Length == totalChunks && done != claimed
    }

    ghost function View(): Sched
      reads this, done, claimed
    {
      Sched(done[..], claimed[..])
    }

    constructor (totalChunks: nat)
      ensures Valid() && fresh(done) && fresh(claimed)
      ensures this.totalChunks == totalChunks
      ensures View() == Sched(seq(totalChunks, _ => false), seq(totalChunks, _ => false))
    {
      this.totalChunks := totalChunks;
      done := new bool[totalChunks](_ => false);
      claimed := new bool[totalChunks](_ => false);
    }

    method GetNextChunk() returns (chunkId: int)
      requires Valid()
      modifies claimed
      ensures chunkId == old(View()).NextChunk()
      ensures View() == old(View()).Claim(chunkId)
    {
      for i := 0 to totalChunks
        invariant View() == old(View())
        invariant View().NextChunk() == View().FirstFree(i)
      {
        if !done[i] && !claimed[i] {
          assert View().Free(i);
          claimed[i] := true;
          return i;
        }
        assert !View().Free(i);
      }
      return -1;
    }

    method MarkDone(chunkId: int)
      requires Valid()
      modifies done, claimed
      ensures View() == old(View()).MarkDone(chunkId)
    {
      if chunkId >= 0 && chunkId < totalChunks {
        done[chunkId] := true;
        claimed[chunkId] := false;
      }
    }

    method MarkFailed(chunkId: int)
      requires Valid()
      modifies claimed
      ensures View() == old(View()).MarkFailed(chunkId)
    {
      if chunkId >= 0 && chunkId < totalChunks {
        claimed[chunkId] := false;
      }
    }

    method AllDone() returns (all: bool)
      requires Valid()
      ensures all == View().AllDone()
    {
      for i := 0 to totalChunks
        invariant forall k :: 0 <= k < i ==> done[k]
      {
        if !done[i] {
          assert !View().done[i];
          return false;
        }
      }
      return true;
    }
  }
}
