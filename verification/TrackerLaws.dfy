/** The tracker's index agrees with the plain scan over the live records that it replaced. */
module TrackerLaws {
  import opened Options
  import opened TrackerStore

  // ---------- what each command does to membership and deadlines ----------

  /** The deadline of a file's set, where there is one. */
  function SetDeadline(r: Redis, f: string): int {
    if r.HasSet(f) && r.index[f].deadline.By? then r.index[f].deadline.time else r.now
  }

  /** `t` differs from `r` at most in the index. */
  predicate SameRecords(r: Redis, t: Redis) {
    t.now == r.now && t.entries == r.entries
  }

  /** Every set has a deadline, at most one time to live ahead. */
  ghost predicate Bounded(r: Redis) {
    forall f :: f in r.index ==> r.index[f].deadline.By? && r.index[f].deadline.time <= r.now + PEER_RECORD_TTL
  }

  lemma DropLaw(r: Redis, f: string, ids: set<string>, g: string)
    requires Bounded(r)
    ensures var t := r.Drop(f, ids);
            SameRecords(r, t) && Bounded(t)
            && t.Members(g) == (if g == f then r.Members(g) - ids else r.Members(g))
            && (t.Members(g) != {} ==> SetDeadline(t, g) == SetDeadline(r, g))
  {
  }

  lemma {:induction false} RemoveLaw(r: Redis, id: string, files: seq<string>, g: string)
    requires Bounded(r)
    ensures var t := RemoveFromSets(r, id, files);
            SameRecords(r, t) && Bounded(t)
            && t.Members(g) == (if g in files then r.Members(g) - {id} else r.Members(g))
            && (t.Members(g) != {} ==> SetDeadline(t, g) == SetDeadline(r, g))
  {
    if files != [] {
      var n := |files| - 1;
      RemoveLaw(r, id, files[..n], g);
      assert files == files[..n] + [files[n]];
      DropLaw(RemoveFromSets(r, id, files[..n]), files[n], {id}, g);
    }
  }

  lemma AddLaw(r: Redis, f: string, id: string, g: string)
    requires Bounded(r)
    ensures var t := r.SAdd(f, id).ExpireSet(f);
            SameRecords(r, t) && Bounded(t)
            && t.Members(g) == (if g == f then r.Members(g) + {id} else r.Members(g))
            && SetDeadline(t, g) == (if g == f then r.now + PEER_RECORD_TTL else SetDeadline(r, g))
  {
  }

  lemma {:induction false} AddAllLaw(r: Redis, id: string, files: seq<string>, g: string)
    requires Bounded(r)
    ensures var t := AddToSets(r, id, files);
            SameRecords(r, t) && Bounded(t)
            && t.Members(g) == (if g in files then r.Members(g) + {id} else r.Members(g))
            && SetDeadline(t, g) == (if g in files then r.now + PEER_RECORD_TTL else SetDeadline(r, g))
  {
    if files != [] {
      var n := |files| - 1;
      AddAllLaw(r, id, files[..n], g);
      assert files == files[..n] + [files[n]];
      AddLaw(AddToSets(r, id, files[..n]), files[n], id, g);
    }
  }

  lemma {:induction false} ExpireAllLaw(r: Redis, files: seq<string>, g: string)
    requires Bounded(r)
    ensures var t := ExpireSets(r, files);
            SameRecords(r, t) && Bounded(t) && t.Members(g) == r.Members(g) && (r.HasSet(g) <==> t.HasSet(g))
            && SetDeadline(t, g) == (if g in files && r.HasSet(g) then r.now + PEER_RECORD_TTL else SetDeadline(r, g))
  {
    if files != [] {
      var n := |files| - 1;
      ExpireAllLaw(r, files[..n], g);
      assert files == files[..n] + [files[n]];
    }
  }

  // ---------- the invariant ----------

  /** Every stored record was written by a registration or a heartbeat, one time to live before its deadline. */
  ghost predicate Records(r: Redis) {
    && r.now >= 1
    && forall id :: r.HasRecord(id) ==>
         var p := r.Stored(id);
         p.peerId == id && p.online && 1 <= p.lastSeen <= r.now
         && r.entries[id].deadline == By(p.lastSeen + PEER_RECORD_TTL)
  }

  /** A file that a live record lists has the peer in its set, and the set outlives the record. */
  predicate Listed(r: Redis, id: string, f: string)
    requires r.GetPeer(id).Some?
  {
    id in r.Members(f) && SetDeadline(r, f) >= r.GetPeer(id).value.lastSeen + PEER_RECORD_TTL
  }

  ghost predicate Complete(r: Redis) {
    forall id, f :: r.GetPeer(id).Some? && f in r.GetPeer(id).value.files ==> Listed(r, id, f)
  }

  ghost predicate Inv(r: Redis) {
    Bounded(r) && Records(r) && Complete(r)
  }

  /** A member of a file's set that has a live record lists the file. */
  ghost predicate Exact(r: Redis) {
    forall id, f :: id in r.Members(f) && r.GetPeer(id).Some? ==> f in r.GetPeer(id).value.files
  }

  /** The plain scan: every live record that is online and lists the file. */
  ghost function Scan(r: Redis, f: string): set<PeerInfo> {
    set id | id in r.entries && r.GetPeer(id).Some? && r.GetPeer(id).value.online && f in r.GetPeer(id).value.files
      :: r.GetPeer(id).value
  }

  /** A live record is always usable. */
  lemma LiveIsUsable(r: Redis, id: string)
    requires Records(r) && r.GetPeer(id).Some?
    ensures Usable(r, id)
  {
  }

  /** In a reachable state a lookup misses no record that the plain scan returns. */
  lemma LookupMissesNothing(r: Redis, f: string)
    requires Inv(r)
    ensures Scan(r, f) <= Found(r, f)
  {
    forall p | p in Scan(r, f)
      ensures p in Found(r, f)
    {
      var id :| id in r.entries && r.GetPeer(id) == Some(p) && f in p.files;
      assert Listed(r, id, f);
      LiveIsUsable(r, id);
    }
  }

  /** Where membership is exact as well, a lookup returns exactly what the plain scan returns. */
  lemma LookupIsScan(r: Redis, f: string)
    requires Inv(r) && Exact(r)
    ensures Found(r, f) == Scan(r, f)
  {
    LookupMissesNothing(r, f);
    forall p | p in Found(r, f)
      ensures p in Scan(r, f)
    {
      var id :| id in r.Members(f) && Usable(r, id) && r.GetPeer(id).value == p;
      assert id in r.entries;
    }
  }

  /**
   The database query does not look at deadlines but keeps every record seen less than one time to live ago;
   over the same records that is the same set as the plain scan.
   */
  lemma ScanIsRecentRecords(r: Redis, f: string)
    requires Records(r)
    ensures Scan(r, f) == set id | id in r.entries && r.HasRecord(id) && r.Stored(id).online && f in r.Stored(id).files
                                   && r.Stored(id).lastSeen > r.now - PEER_RECORD_TTL :: r.Stored(id)
  {
  }

  // ---------- each operation keeps the invariant ----------

  /** The index before the new entries: the old ones are gone, the record is new. */
  function Renewed(r: Redis, peer: PeerInfo): Redis {
    KeepLoad(Forgotten(r, peer.peerId).SetPeer(peer.peerId, peer.(lastSeen := r.now, online := true)), peer.peerId)
  }

  function FormerFiles(r: Redis, id: string): seq<string> {
    match r.GetPeer(id)
    case Some(p) => p.files
    case None => []
  }

  /** `t` has the same live records as `r`, but for that of `id`, which is `p`. */
  ghost predicate OnlyPeer(r: Redis, t: Redis, id: string, p: PeerInfo) {
    forall other :: t.GetPeer(other) == if other == id then Some(p) else r.GetPeer(other)
  }

  ghost predicate SamePeers(r: Redis, t: Redis) {
    t.now == r.now && forall id :: t.GetPeer(id) == r.GetPeer(id)
  }

  lemma SetPeerLaw(r: Redis, id: string, p: PeerInfo)
    requires Records(r) && p.peerId == id && p.online && p.lastSeen == r.now
    ensures Records(r.SetPeer(id, p)) && OnlyPeer(r, r.SetPeer(id, p), id, p)
  {
  }

  /** A change of the entries that leaves every live record alone. */
  lemma EntryLaw(r: Redis, t: Redis, name: string)
    requires Records(r) && t.now == r.now && !(r.HasRecord(name) && r.Holds(name))
    requires t.entries.Keys == r.entries.Keys + {name} && !t.HasRecord(name)
    requires forall other :: other in r.entries && other != name ==> t.entries[other] == r.entries[other]
    ensures Records(t) && SamePeers(r, t)
  {
    forall id
      ensures t.HasRecord(id) ==> r.HasRecord(id) && t.entries[id] == r.entries[id]
    {
    }
  }

  lemma CountLaw(r: Redis, id: string, entry: Timed<Content>)
    requires Records(r) && r.Countable(id) && entry.value.Count?
    ensures var t := r.(entries := r.entries[LoadName(id) := entry]);
            Records(t) && SamePeers(r, t) && t.Countable(id)
  {
    EntryLaw(r, r.(entries := r.entries[LoadName(id) := entry]), LoadName(id));
  }

  /** Nothing that is done to a counter touches a live record, but for renewing its key's time to live. */
  lemma KeepLoadKeepsPeers(r: Redis, id: string)
    requires Records(r)
    ensures Records(KeepLoad(r, id)) && SamePeers(r, KeepLoad(r, id))
  {
    var t := KeepLoad(r, id);
    if t != r {
      CountLaw(r, id, t.entries[LoadName(id)]);
    }
  }

  lemma ExpireKeepsPeers(r: Redis, id: string)
    requires Records(r) && r.Countable(id)
    ensures Records(r.ExpireLoad(id)) && SamePeers(r, r.ExpireLoad(id)) && r.ExpireLoad(id).Countable(id)
  {
    var t := r.ExpireLoad(id);
    if t != r {
      CountLaw(r, id, t.entries[LoadName(id)]);
    }
  }

  lemma AddKeepsPeers(r: Redis, id: string, change: int)
    requires Records(r) && r.Countable(id)
    ensures Records(r.AddLoad(id, change)) && SamePeers(r, r.AddLoad(id, change)) && r.AddLoad(id, change).Countable(id)
  {
    CountLaw(r, id, r.AddLoad(id, change).entries[LoadName(id)]);
  }

  lemma ReserveKeepsPeers(r: Redis, id: string)
    requires Records(r)
    ensures Records(Reserve(r, id)) && SamePeers(r, Reserve(r, id))
  {
    if r.Countable(id) {
      AddKeepsPeers(r, id, 1);
      ExpireKeepsPeers(r.AddLoad(id, 1), id);
    }
  }

  lemma ReleaseKeepsPeers(r: Redis, id: string)
    requires Records(r)
    ensures Records(Release(r, id)) && SamePeers(r, Release(r, id))
  {
    if r.Countable(id) {
      AddKeepsPeers(r, id, -1);
      var less := r.AddLoad(id, -1).ExpireLoad(id);
      ExpireKeepsPeers(r.AddLoad(id, -1), id);
      CountLaw(less, id, Timed(Count(0), By(r.now + PEER_RECORD_TTL)));
    }
  }

  /** Membership and deadlines after a registration. */
  lemma UpsertLaw(r: Redis, peer: PeerInfo, g: string)
    requires Bounded(r) && Records(r)
    ensures var t := Upsert(r, peer);
            var id := peer.peerId;
            var kept := if g in FormerFiles(r, id) then r.Members(g) - {id} else r.Members(g);
            t.now == r.now && Bounded(t) && Records(t)
            && OnlyPeer(r, t, id, peer.(lastSeen := r.now, online := true))
            && t.Members(g) == (if g in peer.files then kept + {id} else kept)
            && (g in peer.files ==> SetDeadline(t, g) == r.now + PEER_RECORD_TTL)
            && (g !in peer.files && kept != {} ==> SetDeadline(t, g) == SetDeadline(r, g))
  {
    var id := peer.peerId;
    if r.GetPeer(id).Some? {
      RemoveLaw(r, id, FormerFiles(r, id), g);
    }
    var forgotten := Forgotten(r, id);
    assert SameRecords(r, forgotten) && Bounded(forgotten) by {
      if r.GetPeer(id).Some? {
        RemoveLaw(r, id, FormerFiles(r, id), g);
      }
    }
    var renewed := Renewed(r, peer);
    assert renewed.index == forgotten.index && renewed.now == r.now;
    RenewedLaw(r, forgotten, peer);
    AddAllLaw(renewed, id, peer.files, g);
    SameEntries(renewed, Upsert(r, peer));
  }

  lemma RenewedLaw(r: Redis, forgotten: Redis, peer: PeerInfo)
    requires Records(r) && SameRecords(r, forgotten) && forgotten == Forgotten(r, peer.peerId)
    ensures Records(Renewed(r, peer))
    ensures OnlyPeer(r, Renewed(r, peer), peer.peerId, peer.(lastSeen := r.now, online := true))
  {
    var seen := peer.(lastSeen := r.now, online := true);
    SameEntries(r, forgotten);
    SetPeerLaw(forgotten, peer.peerId, seen);
    KeepLoadKeepsPeers(forgotten.SetPeer(peer.peerId, seen), peer.peerId);
  }

  lemma SameEntries(r: Redis, t: Redis)
    requires SameRecords(r, t)
    ensures SamePeers(r, t) && (Records(r) ==> Records(t))
  {
    assert forall id :: t.HasRecord(id) == r.HasRecord(id);
  }

  lemma UpsertInv(r: Redis, peer: PeerInfo)
    requires Inv(r)
    ensures Inv(Upsert(r, peer))
  {
    var t := Upsert(r, peer);
    UpsertLaw(r, peer, "");
    forall id, f | t.GetPeer(id).Some? && f in t.GetPeer(id).value.files
      ensures Listed(t, id, f)
    {
      UpsertLaw(r, peer, f);
      if id != peer.peerId {
        assert r.GetPeer(id) == t.GetPeer(id);
        assert Listed(r, id, f);
        assert id in r.Members(f) - {peer.peerId};
        assert SetDeadline(r, f) <= r.now + PEER_RECORD_TTL;
      }
    }
  }

  /** After a heartbeat, unless the key of the peer's counter holds another peer's record. */
  lemma TouchLaw(r: Redis, id: string, g: string)
    requires Bounded(r) && Records(r) && r.GetPeer(id).Some? && r.Countable(id)
    ensures var (ok, t) := Touch(r, id);
            var p := r.GetPeer(id).value;
            ok && t.now == r.now && Bounded(t) && Records(t)
            && OnlyPeer(r, t, id, p.(lastSeen := r.now, online := true))
            && t.Members(g) == r.Members(g)
            && SetDeadline(t, g) == (if g in p.files && r.HasSet(g) then r.now + PEER_RECORD_TTL else SetDeadline(r, g))
  {
    var p := r.GetPeer(id).value;
    var seen := r.SetPeer(id, p.(lastSeen := r.now, online := true));
    SetPeerLaw(r, id, p.(lastSeen := r.now, online := true));
    assert seen.Countable(id) by { assert |LoadName(id)| == |id| + 5; }
    ExpireKeepsPeers(seen, id);
    ExpireAllLaw(seen.ExpireLoad(id), p.files, g);
    SameEntries(seen.ExpireLoad(id), Touch(r, id).1);
  }

  lemma TouchInv(r: Redis, id: string)
    requires Inv(r) && r.Countable(id)
    ensures Inv(Touch(r, id).1)
  {
    if r.GetPeer(id).Some? {
      var t := Touch(r, id).1;
      TouchLaw(r, id, "");
      forall other, f | t.GetPeer(other).Some? && f in t.GetPeer(other).value.files
        ensures Listed(t, other, f)
      {
        TouchLaw(r, id, f);
        if other == id {
          assert f in r.GetPeer(id).value.files;
          assert Listed(r, id, f);
        } else {
          assert r.GetPeer(other) == t.GetPeer(other);
          assert Listed(r, other, f);
          assert SetDeadline(r, f) <= r.now + PEER_RECORD_TTL;
        }
      }
    }
  }

  function Unusable(r: Redis, f: string): set<string> {
    set id | id in r.Members(f) && !Usable(r, id)
  }

  lemma LookupInv(r: Redis, f: string)
    requires Inv(r)
    ensures Inv(Cleaned(r, f))
  {
    var t := Cleaned(r, f);
    assert t == r.Drop(f, Unusable(r, f));
    DropLaw(r, f, Unusable(r, f), "");
    forall id, g | t.GetPeer(id).Some? && g in t.GetPeer(id).value.files
      ensures Listed(t, id, g)
    {
      DropLaw(r, f, Unusable(r, f), g);
      assert r.GetPeer(id) == t.GetPeer(id);
      assert Listed(r, id, g);
      LiveIsUsable(r, id);
      assert id in t.Members(g);
    }
  }

  lemma LaterInv(r: Redis, seconds: nat)
    requires Inv(r)
    ensures Inv(r.Later(seconds))
  {
    var t := r.Later(seconds);
    forall id, f | t.GetPeer(id).Some? && f in t.GetPeer(id).value.files
      ensures Listed(t, id, f)
    {
      assert r.GetPeer(id) == t.GetPeer(id);
      assert Listed(r, id, f);
    }
  }

  lemma LoadInv(r: Redis, id: string)
    requires Inv(r)
    ensures Inv(Reserve(r, id)) && Inv(Release(r, id))
  {
    ReserveKeepsPeers(r, id);
    ReleaseKeepsPeers(r, id);
    SameIndexInv(r, Reserve(r, id));
    SameIndexInv(r, Release(r, id));
  }

  lemma SameIndexInv(r: Redis, t: Redis)
    requires Inv(r) && Records(t) && SamePeers(r, t) && t.index == r.index
    ensures Inv(t) && (Exact(r) ==> Exact(t))
  {
    assert forall f :: t.Members(f) == r.Members(f);
    forall id, f | t.GetPeer(id).Some? && f in t.GetPeer(id).value.files
      ensures Listed(t, id, f)
    {
      assert Listed(r, id, f);
    }
  }

  // ---------- exactness ----------

  /** The files whose sets still hold a peer that has no live record. */
  ghost predicate StaleEntry(r: Redis, id: string, f: string) {
    id in r.Members(f) && r.GetPeer(id).None?
  }

  /**
   A registration keeps membership exact exactly when it lists every file that still holds a stale entry of the
   peer.
   */
  lemma UpsertExactIff(r: Redis, peer: PeerInfo)
    requires Inv(r) && Exact(r)
    ensures Exact(Upsert(r, peer)) <==> forall f :: StaleEntry(r, peer.peerId, f) ==> f in peer.files
  {
    var t, id := Upsert(r, peer), peer.peerId;
    UpsertLaw(r, peer, "");
    assert t.GetPeer(id) == Some(peer.(lastSeen := r.now, online := true));
    if forall f :: StaleEntry(r, id, f) ==> f in peer.files {
      forall other, f | other in t.Members(f) && t.GetPeer(other).Some?
        ensures f in t.GetPeer(other).value.files
      {
        UpsertLaw(r, peer, f);
        if other != id {
          assert r.GetPeer(other) == t.GetPeer(other);
        } else {
          assert f in peer.files || StaleEntry(r, id, f);
        }
      }
    } else {
      var f :| StaleEntry(r, id, f) && f !in peer.files;
      UpsertLaw(r, peer, f);
      assert id in t.Members(f);
    }
  }

  /**
   A run in which the lookup returns a peer that does not list the file: `p` registers `f`; ten seconds later `q`
   registers `f`, which renews the set; fifteen seconds later `p`, whose record has lapsed, registers without `f`.
   */
  lemma StaleEntryReturned(p: PeerInfo, q: PeerInfo, again: PeerInfo, f: string)
    requires p.peerId == again.peerId != q.peerId
    requires p.files == [f] && q.files == [f] && f !in again.files
    ensures var r := Upsert(Upsert(Upsert(Empty(1), p).Later(10), q).Later(15), again);
            r.GetPeer(p.peerId).Some? && r.GetPeer(p.peerId).value in Found(r, f)
            && f !in r.GetPeer(p.peerId).value.files
            && !(Found(r, f) <= Scan(r, f))
  {
    var r1 := Upsert(Empty(1), p);
    assert Inv(Empty(1));
    UpsertInv(Empty(1), p);
    UpsertLaw(Empty(1), p, f);
    LaterInv(r1, 10);
    var r3 := Upsert(r1.Later(10), q);
    UpsertInv(r1.Later(10), q);
    UpsertLaw(r1.Later(10), q, f);
    LaterInv(r3, 15);
    var r4 := r3.Later(15);
    assert r3.GetPeer(p.peerId) == Some(p.(lastSeen := 1, online := true));
    assert r3.entries[p.peerId].deadline == By(21);
    assert StaleEntry(r4, p.peerId, f);
    UpsertLaw(r4, again, f);
    UpsertInv(r4, again);
    var r := Upsert(r4, again);
    var record := again.(lastSeen := r4.now, online := true);
    assert r.GetPeer(p.peerId) == Some(record);
    assert p.peerId in r.Members(f);
    LiveIsUsable(r, p.peerId);
    assert record in Found(r, f);
    assert record !in Scan(r, f);
  }

  lemma TouchExact(r: Redis, id: string)
    requires Inv(r) && Exact(r) && r.Countable(id)
    ensures Exact(Touch(r, id).1)
  {
    if r.GetPeer(id).Some? {
      var t := Touch(r, id).1;
      forall other, f | other in t.Members(f) && t.GetPeer(other).Some?
        ensures f in t.GetPeer(other).value.files
      {
        TouchLaw(r, id, f);
        assert other != id ==> r.GetPeer(other) == t.GetPeer(other);
      }
    }
  }

  lemma LookupExact(r: Redis, f: string)
    requires Inv(r) && Exact(r)
    ensures Exact(Cleaned(r, f))
  {
    var t := Cleaned(r, f);
    forall id, g | id in t.Members(g) && t.GetPeer(id).Some?
      ensures g in t.GetPeer(id).value.files
    {
      DropLaw(r, f, Unusable(r, f), g);
      assert r.GetPeer(id) == t.GetPeer(id);
    }
  }

  lemma LaterExact(r: Redis, seconds: nat)
    requires Exact(r)
    ensures Exact(r.Later(seconds))
  {
    var t := r.Later(seconds);
    forall id, g | id in t.Members(g) && t.GetPeer(id).Some?
      ensures g in t.GetPeer(id).value.files
    {
      assert r.GetPeer(id) == t.GetPeer(id) && id in r.Members(g);
    }
  }

  // ---------- runs ----------

  datatype Op =
    | Register(peer: PeerInfo)
    | Heartbeat(peerId: string)
    | LookUp(fileId: string)
    | ReserveLoad(peerId: string)
    | ReleaseLoad(peerId: string)
    | Pass(seconds: nat)

  function Apply(r: Redis, op: Op): Redis {
    match op
    case Register(peer) => Upsert(r, peer)
    case Heartbeat(id) => Touch(r, id).1
    case LookUp(f) => Cleaned(r, f)
    case ReserveLoad(id) => Reserve(r, id)
    case ReleaseLoad(id) => Release(r, id)
    case Pass(seconds) => r.Later(seconds)
  }

  /** The state after the operations, the last one last. */
  function After(now: int, ops: seq<Op>): Redis {
    if ops == [] then Empty(now) else Apply(After(now, ops[..|ops| - 1]), ops[|ops| - 1])
  }

  /** The peer an operation is about. */
  function About(op: Op): set<string> {
    match op
    case Register(peer) => {peer.peerId}
    case Heartbeat(id) => {id}
    case ReserveLoad(id) => {id}
    case ReleaseLoad(id) => {id}
    case LookUp(_) => {}
    case Pass(_) => {}
  }

  ghost predicate Over(ids: set<string>, ops: seq<Op>) {
    forall k :: 0 <= k < |ops| ==> About(ops[k]) <= ids
  }

  /** Every stored record is that of one of these peers. */
  ghost predicate Named(r: Redis, ids: set<string>) {
    forall id :: r.HasRecord(id) ==> id in ids
  }

  lemma OpNamed(r: Redis, ids: set<string>, op: Op)
    requires Named(r, ids) && About(op) <= ids
    ensures Named(Apply(r, op), ids)
  {
    match op
    case Register(peer) =>
      NowKept(r, peer.peerId);
      SetsKeepEntries(Renewed(r, peer), peer.peerId, peer.files);
    case Heartbeat(id) =>
      if r.GetPeer(id).Some? {
        var p := r.GetPeer(id).value;
        SetsKeepEntries(r.SetPeer(id, p.(lastSeen := r.now, online := true)).ExpireLoad(id), id, p.files);
      }
    case LookUp(f) =>
    case ReserveLoad(id) =>
    case ReleaseLoad(id) =>
    case Pass(seconds) =>
  }

  lemma {:induction false} SetsKeepEntries(r: Redis, id: string, files: seq<string>)
    ensures AddToSets(r, id, files).entries == r.entries && AddToSets(r, id, files).now == r.now
    ensures ExpireSets(r, files).entries == r.entries && ExpireSets(r, files).now == r.now
  {
    if files != [] {
      SetsKeepEntries(r, id, files[..|files| - 1]);
    }
  }

  lemma OpInv(r: Redis, op: Op)
    requires Inv(r) && (op.Heartbeat? ==> r.Countable(op.peerId))
    ensures Inv(Apply(r, op))
  {
    match op
    case Register(peer) => UpsertInv(r, peer);
    case Heartbeat(id) => TouchInv(r, id);
    case LookUp(f) => LookupInv(r, f);
    case ReserveLoad(id) => LoadInv(r, id);
    case ReleaseLoad(id) => LoadInv(r, id);
    case Pass(seconds) => LaterInv(r, seconds);
  }

  /** Only a registration can leave a member behind that no longer lists the file. */
  lemma OthersKeepExact(r: Redis, op: Op)
    requires Inv(r) && Exact(r) && !op.Register? && (op.Heartbeat? ==> r.Countable(op.peerId))
    ensures Exact(Apply(r, op))
  {
    if op.ReserveLoad? || op.ReleaseLoad? {
      ReserveKeepsPeers(r, op.peerId);
      ReleaseKeepsPeers(r, op.peerId);
    }
    match op
    case Heartbeat(id) => TouchExact(r, id);
    case LookUp(f) => LookupExact(r, f);
    case ReserveLoad(id) => SameIndexInv(r, Reserve(r, id));
    case ReleaseLoad(id) => SameIndexInv(r, Release(r, id));
    case Pass(seconds) => LaterExact(r, seconds);
  }

  lemma {:induction false} AfterInv(now: int, ids: set<string>, ops: seq<Op>)
    requires now >= 1 && Over(ids, ops) && Apart(ids)
    ensures Inv(After(now, ops)) && Named(After(now, ops), ids)
  {
    if ops != [] {
      var n := |ops| - 1;
      var r := After(now, ops[..n]);
      AfterInv(now, ids, ops[..n]);
      NoRecordAtCounters(r, ids, ops[n]);
      OpInv(r, ops[n]);
      OpNamed(r, ids, ops[n]);
    }
  }

  lemma NoRecordAtCounters(r: Redis, ids: set<string>, op: Op)
    requires Named(r, ids) && Apart(ids) && About(op) <= ids
    ensures op.Heartbeat? ==> r.Countable(op.peerId)
  {
    if op.Heartbeat? {
      assert op.peerId in ids;
      assert !r.HasRecord(LoadName(op.peerId));
    }
  }

  /**
   Over every run on such peers: a live record's files have the peer in their sets, and the sets outlive the
   record.
   */
  lemma LiveIsListed(now: int, ids: set<string>, ops: seq<Op>, id: string, f: string)
    requires now >= 1 && Over(ids, ops) && Apart(ids)
    ensures var r := After(now, ops);
            r.GetPeer(id).Some? && f in r.GetPeer(id).value.files ==> Listed(r, id, f)
  {
    AfterInv(now, ids, ops);
  }

  /** After the run a lookup misses no record that the plain scan returns. */
  ghost predicate MissesNothing(now: int, ops: seq<Op>, f: string) {
    Scan(After(now, ops), f) <= Found(After(now, ops), f)
  }

  /**
   Over every run on these peers no lookup misses a record that the plain scan returns, exactly when no peer's id
   is the name of another one's counter.
   */
  lemma NoPeerMissedIff(ids: set<string>, f: string)
    ensures (forall now, ops :: now >= 1 && Over(ids, ops) ==> MissesNothing(now, ops, f)) <==> Apart(ids)
  {
    if Apart(ids) {
      forall now, ops | now >= 1 && Over(ids, ops)
        ensures MissesNothing(now, ops, f)
      {
        AfterInv(now, ids, ops);
        LookupMissesNothing(After(now, ops), f);
      }
    } else {
      var a, b :| a in ids && b in ids && a == LoadName(b);
      ClashMissesPeer(a, b, f);
      assert Over(ids, ClashRun(a, b, f));
      assert !MissesNothing(1, ClashRun(a, b, f), f);
    }
  }

  function Peer(id: string, files: seq<string>): PeerInfo {
    PeerInfo(id, "", 0, files, 0, false)
  }

  /** `a` registers a file, `b` nothing; fourteen seconds later `b` is heard of, and then ten seconds pass. */
  function ClashRun(a: string, b: string, f: string): seq<Op> {
    [Register(Peer(a, [f])), Register(Peer(b, [])), Pass(14), Heartbeat(b), Pass(10)]
  }

  lemma AfterOneMore(now: int, ops: seq<Op>, op: Op, all: seq<Op>)
    requires all == ops + [op]
    ensures After(now, all) == Apply(After(now, ops), op)
  {
    assert all[..|ops|] == ops;
  }

  lemma FiveOps(now: int, a: Op, b: Op, c: Op, d: Op, e: Op)
    ensures After(now, [a, b, c, d, e]) == Apply(Apply(Apply(Apply(Apply(Empty(now), a), b), c), d), e)
  {
    AfterOneMore(now, [], a, [a]);
    AfterOneMore(now, [a], b, [a, b]);
    AfterOneMore(now, [a, b], c, [a, b, c]);
    AfterOneMore(now, [a, b, c], d, [a, b, c, d]);
    AfterOneMore(now, [a, b, c, d], e, [a, b, c, d, e]);
  }

  /** Both registered a moment ago; fourteen seconds later `b` is heard of, and then ten seconds pass. */
  lemma ClashLater(r2: Redis, a: string, b: string, f: string, record: PeerInfo, other: PeerInfo)
    requires a == LoadName(b) && r2.now == 1 && record.online && record.lastSeen == 1 && record.files == [f]
    requires a in r2.entries && r2.entries[a] == Timed(Record(record), By(21))
    requires r2.GetPeer(b) == Some(other) && other.files == [] && b in r2.entries && r2.entries[b].deadline == By(21)
    requires f in r2.index ==> r2.index[f].deadline == By(21)
    ensures var r := Touch(r2.Later(14), b).1.Later(10);
            record in Scan(r, f) && record !in Found(r, f)
  {
    var r3 := r2.Later(14);
    assert a != b by { assert |a| == |b| + 5; }
    var r4 := Touch(r3, b).1;
    assert r4 == r3.SetPeer(b, other.(lastSeen := 15, online := true)).ExpireLoad(b);
    var r := r4.Later(10);
    assert r.GetPeer(a) == Some(record);
    assert r.Members(f) == {};
  }

  /** A first registration in an empty store. */
  lemma FirstOfClash(p: PeerInfo, f: string, r1: Redis)
    requires p.files == [f] && r1 == Upsert(Empty(1), p)
    ensures r1.now == 1 && Bounded(r1) && Records(r1) && f in r1.index && r1.index[f].deadline == By(21)
    ensures forall id :: r1.GetPeer(id) == if id == p.peerId then Some(p.(lastSeen := 1, online := true)) else None
  {
    UpsertLaw(Empty(1), p, f);
    assert p.peerId in r1.Members(f) && SetDeadline(r1, f) == 21;
  }

  /** A second one, without files. */
  lemma SecondOfClash(r1: Redis, q: PeerInfo, r2: Redis)
    requires r1.now == 1 && Bounded(r1) && Records(r1) && r1.GetPeer(q.peerId).None?
    requires q.files == [] && r2 == Upsert(r1, q)
    ensures r2.now == 1 && Records(r2) && r2.index == r1.index
    ensures OnlyPeer(r1, r2, q.peerId, q.(lastSeen := 1, online := true))
  {
    UpsertLaw(r1, q, "");
  }

  /**
   Where `b`'s counter has the key of `a`'s record, `b`'s heartbeat keeps the record alive but not the index
   entry.
   */
  lemma ClashMissesPeer(a: string, b: string, f: string)
    requires a == LoadName(b)
    ensures !MissesNothing(1, ClashRun(a, b, f), f)
  {
    var p, q := Peer(a, [f]), Peer(b, []);
    FiveOps(1, Register(p), Register(q), Pass(14), Heartbeat(b), Pass(10));
    assert a != b by { assert |a| == |b| + 5; }
    ClashMisses(a, b, f, p, q, Upsert(Empty(1), p), Upsert(Upsert(Empty(1), p), q));
  }

  lemma ClashMisses(a: string, b: string, f: string, p: PeerInfo, q: PeerInfo, r1: Redis, r2: Redis)
    requires a == LoadName(b) && a != b && p == Peer(a, [f]) && q == Peer(b, [])
    requires r1 == Upsert(Empty(1), p) && r2 == Upsert(r1, q)
    ensures var r := Touch(r2.Later(14), b).1.Later(10); !(Scan(r, f) <= Found(r, f))
  {
    FirstOfClash(p, f, r1);
    SecondOfClash(r1, q, r2);
    var record, other := p.(lastSeen := 1, online := true), q.(lastSeen := 1, online := true);
    assert r2.GetPeer(a) == Some(record) && r2.GetPeer(b) == Some(other);
    assert r2.HasRecord(a) && r2.HasRecord(b);
    ClashLater(r2, a, b, f, record, other);
  }

  /** The files of a peer's last registration in the run. */
  function LastFiles(ops: seq<Op>, id: string): seq<string> {
    if ops == [] then []
    else
      var n := |ops| - 1;
      if ops[n].Register? && ops[n].peer.peerId == id then ops[n].peer.files else LastFiles(ops[..n], id)
  }

  /** A peer that registers again after its record lapsed lists at least the files it listed before. */
  ghost predicate KeepsFiles(now: int, ops: seq<Op>) {
    ops == [] ||
    var n := |ops| - 1;
    KeepsFiles(now, ops[..n])
    && (ops[n].Register? && After(now, ops[..n]).GetPeer(ops[n].peer.peerId).None? ==>
          forall f :: f in LastFiles(ops[..n], ops[n].peer.peerId) ==> f in ops[n].peer.files)
  }

  /** Members of a set listed the file when they last registered, and records still hold those files. */
  ghost predicate Remembered(r: Redis, ops: seq<Op>) {
    && IndexRemembered(r, ops)
    && (forall id :: r.HasRecord(id) ==> r.Stored(id).files == LastFiles(ops, id))
  }

  ghost predicate IndexRemembered(r: Redis, ops: seq<Op>) {
    forall id, f :: id in r.Members(f) ==> f in LastFiles(ops, id)
  }

  lemma IndexStep(r: Redis, ops: seq<Op>, op: Op)
    requires Inv(r) && Remembered(r, ops) && (op.Heartbeat? ==> r.Countable(op.peerId))
    requires op.Register? && r.GetPeer(op.peer.peerId).None? ==>
               forall f :: f in LastFiles(ops, op.peer.peerId) ==> f in op.peer.files
    ensures IndexRemembered(Apply(r, op), ops + [op])
  {
    var t := Apply(r, op);
    assert (ops + [op])[..|ops|] == ops;
    forall id, f | id in t.Members(f)
      ensures f in LastFiles(ops + [op], id)
    {
      match op
      case Register(peer) =>
        UpsertLaw(r, peer, f);
        assert id == peer.peerId ==> f in peer.files || (id in r.Members(f) && f in LastFiles(ops, id));
      case Heartbeat(p) => if r.GetPeer(p).Some? { TouchLaw(r, p, f); }
      case LookUp(g) => DropLaw(r, g, Unusable(r, g), f);
      case ReserveLoad(_) => assert id in r.Members(f);
      case ReleaseLoad(_) => assert id in r.Members(f);
      case Pass(_) => assert id in r.Members(f);
    }
  }

  /** What an operation leaves in a stored record: it was there before with these files, or was just registered. */
  lemma StoredFiles(r: Redis, op: Op, id: string)
    requires Apply(r, op).HasRecord(id)
    ensures var t := Apply(r, op);
            if op.Register? && op.peer.peerId == id then t.Stored(id).files == op.peer.files
            else r.HasRecord(id) && t.Stored(id).files == r.Stored(id).files
  {
    match op
    case Register(peer) =>
      NowKept(r, peer.peerId);
      SetsKeepEntries(Renewed(r, peer), peer.peerId, peer.files);
    case Heartbeat(p) =>
      if r.GetPeer(p).Some? {
        var info := r.GetPeer(p).value;
        SetsKeepEntries(r.SetPeer(p, info.(lastSeen := r.now, online := true)).ExpireLoad(p), p, info.files);
      }
    case LookUp(f) =>
    case ReserveLoad(p) =>
    case ReleaseLoad(p) =>
    case Pass(seconds) =>
  }

  lemma RememberedStep(r: Redis, ops: seq<Op>, op: Op)
    requires Inv(r) && Remembered(r, ops) && (op.Heartbeat? ==> r.Countable(op.peerId))
    requires op.Register? && r.GetPeer(op.peer.peerId).None? ==>
               forall f :: f in LastFiles(ops, op.peer.peerId) ==> f in op.peer.files
    ensures Remembered(Apply(r, op), ops + [op])
  {
    IndexStep(r, ops, op);
    assert (ops + [op])[..|ops|] == ops;
    forall id | Apply(r, op).HasRecord(id)
      ensures Apply(r, op).Stored(id).files == LastFiles(ops + [op], id)
    {
      StoredFiles(r, op, id);
    }
  }

  lemma {:induction false} AfterRemembered(now: int, ids: set<string>, ops: seq<Op>)
    requires now >= 1 && Over(ids, ops) && Apart(ids) && KeepsFiles(now, ops)
    ensures Inv(After(now, ops)) && Remembered(After(now, ops), ops)
  {
    AfterInv(now, ids, ops);
    if ops != [] {
      var n := |ops| - 1;
      var r := After(now, ops[..n]);
      AfterInv(now, ids, ops[..n]);
      AfterRemembered(now, ids, ops[..n]);
      NoRecordAtCounters(r, ids, ops[n]);
      RememberedStep(r, ops[..n], ops[n]);
      assert ops[..n] + [ops[n]] == ops;
    }
  }

  /** After the run a lookup returns exactly what the plain scan returns. */
  ghost predicate FindsScan(now: int, ops: seq<Op>, f: string) {
    Found(After(now, ops), f) == Scan(After(now, ops), f)
  }

  lemma LookupIsScanAfter(now: int, ids: set<string>, ops: seq<Op>, f: string)
    requires now >= 1 && Over(ids, ops) && Apart(ids) && KeepsFiles(now, ops)
    ensures Exact(After(now, ops)) && FindsScan(now, ops, f)
  {
    var r := After(now, ops);
    AfterRemembered(now, ids, ops);
    forall id, g | id in r.Members(g) && r.GetPeer(id).Some?
      ensures g in r.GetPeer(id).value.files
    {
      assert r.HasRecord(id) && g in LastFiles(ops, id);
    }
    LookupIsScan(r, f);
  }

  /**
   Over the runs on these peers in which nobody who registers after a lapse drops a file, every lookup returns
   exactly what the plain scan returns, exactly when no peer's id is the name of another one's counter.
   */
  lemma LookupIsScanOnRunsIff(ids: set<string>, f: string)
    ensures (forall now, ops :: now >= 1 && Over(ids, ops) && KeepsFiles(now, ops) ==> FindsScan(now, ops, f))
            <==> Apart(ids)
  {
    if Apart(ids) {
      forall now, ops | now >= 1 && Over(ids, ops) && KeepsFiles(now, ops)
        ensures FindsScan(now, ops, f)
      {
        LookupIsScanAfter(now, ids, ops, f);
      }
    } else {
      var a, b :| a in ids && b in ids && a == LoadName(b);
      ClashMissesPeer(a, b, f);
      ClashKeepsFiles(a, b, f);
      assert Over(ids, ClashRun(a, b, f));
      assert !FindsScan(1, ClashRun(a, b, f), f) by { assert !MissesNothing(1, ClashRun(a, b, f), f); }
    }
  }

  lemma ClashKeepsFiles(a: string, b: string, f: string)
    requires a == LoadName(b)
    ensures KeepsFiles(1, ClashRun(a, b, f))
  {
    var ops := ClashRun(a, b, f);
    assert a != b by { assert |a| == |b| + 5; }
    assert ops[..4][..3] == ops[..3] && ops[..3][..2] == ops[..2] && ops[..2][..1] == ops[..1] && ops[..1][..0] == [];
    assert KeepsFiles(1, []);
    assert LastFiles([], a) == [] && LastFiles(ops[..1], b) == LastFiles([], b) == [];
    assert KeepsFiles(1, ops[..1]);
    assert KeepsFiles(1, ops[..2]);
    assert KeepsFiles(1, ops[..3]);
    assert KeepsFiles(1, ops[..4]);
  }

  // ---------- exactly when ----------

  /** Lookups that agree with the plain scan for every file mean exact membership. */
  lemma ScanMeansExact(now: int, ops: seq<Op>)
    requires Inv(After(now, ops)) && forall f :: FindsScan(now, ops, f)
    ensures Exact(After(now, ops))
  {
    var r := After(now, ops);
    forall id, f | id in r.Members(f) && r.GetPeer(id).Some?
      ensures f in r.GetPeer(id).value.files
    {
      LiveIsUsable(r, id);
      assert r.GetPeer(id).value in Found(r, f);
      assert FindsScan(now, ops, f);
    }
  }

  /** A registration lists every file that still holds a stale entry of its peer. */
  ghost predicate ListsStale(r: Redis, op: Op) {
    op.Register? ==> forall f :: StaleEntry(r, op.peer.peerId, f) ==> f in op.peer.files
  }

  lemma OpExactIff(now: int, ids: set<string>, ops: seq<Op>, op: Op, all: seq<Op>)
    requires now >= 1 && Over(ids, ops) && Apart(ids) && About(op) <= ids && Exact(After(now, ops)) && all == ops + [op]
    ensures Exact(After(now, all)) <==> ListsStale(After(now, ops), op)
  {
    AfterInv(now, ids, ops);
    AfterOneMore(now, ops, op, all);
    if op.Register? {
      UpsertExactIff(After(now, ops), op.peer);
    } else {
      NoRecordAtCounters(After(now, ops), ids, op);
      OthersKeepExact(After(now, ops), op);
    }
  }

  ghost predicate ListsStaleAt(now: int, ops: seq<Op>, k: nat)
    requires k < |ops|
  {
    ListsStale(After(now, ops[..k]), ops[k])
  }

  lemma {:induction false} PrefixExact(now: int, ids: set<string>, ops: seq<Op>, k: nat)
    requires now >= 1 && Over(ids, ops) && Apart(ids) && k <= |ops|
    requires forall i :: 0 <= i < |ops| ==> ListsStaleAt(now, ops, i)
    ensures Exact(After(now, ops[..k]))
  {
    if k > 0 {
      PrefixExact(now, ids, ops, k - 1);
      assert ListsStaleAt(now, ops, k - 1);
      assert Over(ids, ops[..k - 1]) && About(ops[k - 1]) <= ids;
      assert ops[..k] == ops[..k - 1] + [ops[k - 1]];
      OpExactIff(now, ids, ops[..k - 1], ops[k - 1], ops[..k]);
    }
  }

  /**
   A run on peers none of whose ids is the name of another one's counter: at every moment every lookup returns
   exactly what the plain scan returns, exactly when every registration lists the files under which a stale entry
   of its peer is left.
   */
  lemma AlwaysScanIff(now: int, ids: set<string>, ops: seq<Op>)
    requires now >= 1 && Over(ids, ops) && Apart(ids)
    ensures (forall k, f :: 0 <= k <= |ops| ==> FindsScan(now, ops[..k], f))
            <==> forall k :: 0 <= k < |ops| ==> ListsStaleAt(now, ops, k)
  {
    if forall k :: 0 <= k < |ops| ==> ListsStaleAt(now, ops, k) {
      forall k, f | 0 <= k <= |ops|
        ensures FindsScan(now, ops[..k], f)
      {
        PrefixExact(now, ids, ops, k);
        AfterInv(now, ids, ops[..k]);
        LookupIsScan(After(now, ops[..k]), f);
      }
    }
    if forall k, f :: 0 <= k <= |ops| ==> FindsScan(now, ops[..k], f) {
      forall k | 0 <= k < |ops|
        ensures ListsStaleAt(now, ops, k)
      {
        ExactAt(now, ids, ops, k);
        ExactAt(now, ids, ops, k + 1);
        OpExactIff(now, ids, ops[..k], ops[k], ops[..k + 1]);
      }
    }
  }

  lemma ExactAt(now: int, ids: set<string>, ops: seq<Op>, k: nat)
    requires now >= 1 && Over(ids, ops) && Apart(ids) && k <= |ops|
    requires forall i, f :: 0 <= i <= |ops| ==> FindsScan(now, ops[..i], f)
    ensures Exact(After(now, ops[..k]))
  {
    AfterInv(now, ids, ops[..k]);
    assert forall f :: FindsScan(now, ops[..k], f);
    ScanMeansExact(now, ops[..k]);
  }

  // ---------- what a lookup removes ----------

  lemma {:induction false} AddsOnly(r: Redis, id: string, files: seq<string>, g: string)
    ensures AddToSets(r, id, files).Members(g) <= r.Members(g) + (if g in files then {id} else {})
  {
    if files != [] {
      AddsOnly(r, id, files[..|files| - 1], g);
      assert files == files[..|files| - 1] + [files[|files| - 1]];
    }
  }

  lemma {:induction false} RemovesOnly(r: Redis, id: string, files: seq<string>, g: string)
    ensures RemoveFromSets(r, id, files).Members(g) <= r.Members(g)
    ensures ExpireSets(r, files).Members(g) <= r.Members(g)
  {
    if files != [] {
      RemovesOnly(r, id, files[..|files| - 1], g);
      SetsKeepEntries(r, id, files[..|files| - 1]);
      RemoveKeepsRest(r, id, files[..|files| - 1]);
    }
  }

  /** The operation is the registration of this peer with this file. */
  predicate Lists(op: Op, id: string, f: string) {
    op.Register? && op.peer.peerId == id && f in op.peer.files
  }

  /** Nothing but a registration that lists the file brings a peer into the file's set. */
  lemma OnlyListingAdds(r: Redis, op: Op, id: string, f: string)
    requires id !in r.Members(f) && !Lists(op, id, f)
    ensures id !in Apply(r, op).Members(f)
  {
    match op
    case Register(peer) =>
      if r.GetPeer(peer.peerId).Some? {
        RemovesOnly(r, r.GetPeer(peer.peerId).value.peerId, r.GetPeer(peer.peerId).value.files, f);
      }
      NowKept(r, peer.peerId);
      AddsOnly(Renewed(r, peer), peer.peerId, peer.files, f);
    case Heartbeat(p) =>
      if r.GetPeer(p).Some? {
        var info := r.GetPeer(p).value;
        RemovesOnly(r.SetPeer(p, info.(lastSeen := r.now, online := true)).ExpireLoad(p), p, info.files, f);
      }
    case LookUp(g) =>
    case ReserveLoad(p) =>
    case ReleaseLoad(p) =>
    case Pass(seconds) =>
  }

  lemma {:induction false} StaysAway(now: int, before: seq<Op>, later: seq<Op>, id: string, f: string)
    requires id !in After(now, before).Members(f) && forall k :: 0 <= k < |later| ==> !Lists(later[k], id, f)
    ensures id !in After(now, before + later).Members(f)
    decreases |later|
  {
    if later == [] {
      assert before + later == before;
    } else {
      var n := |later| - 1;
      StaysAway(now, before, later[..n], id, f);
      AfterOneMore(now, before + later[..n], later[n], before + later) by {
        assert before + later == before + later[..n] + [later[n]];
      }
      OnlyListingAdds(After(now, before + later[..n]), later[n], id, f);
    }
  }

  /**
   A peer that has no live record when somebody looks a file up is in no later lookup of the file, until it registers
   with the file again.
   */
  lemma LookedUpIsGone(now: int, ids: set<string>, before: seq<Op>, later: seq<Op>, id: string, f: string, p: PeerInfo)
    requires now >= 1 && Apart(ids) && Over(ids, before + [LookUp(f)] + later)
    requires After(now, before).GetPeer(id).None? && forall k :: 0 <= k < |later| ==> !Lists(later[k], id, f)
    requires p in Found(After(now, before + [LookUp(f)] + later), f)
    ensures p.peerId != id
  {
    var all := before + [LookUp(f)] + later;
    AfterOneMore(now, before, LookUp(f), before + [LookUp(f)]);
    LookupRemoves(After(now, before), f);
    StaysAway(now, before + [LookUp(f)], later, id, f);
    AfterInv(now, ids, all);
  }

  // ---------- how long a counter lives ----------

  /** The counter is there, and its time to live ends twenty seconds from now. */
  predicate JustRenewed(r: Redis, id: string, load: int) {
    var name := LoadName(id);
    name in r.entries && r.entries[name] == Timed(Count(load), By(r.now + 20))
  }

  /** Every other record and counter, and every set, is as before. */
  ghost predicate OnlyEntry(r: Redis, t: Redis, name: string) {
    && t.now == r.now && t.index == r.index
    && forall other :: other != name ==>
         (other in t.entries <==> other in r.entries) && (other in r.entries ==> t.entries[other] == r.entries[other])
  }

  /** The value of a peer's counter, zero where there is none. */
  function Counter(r: Redis, id: string): int {
    if r.GetLoad(id).Some? then r.GetLoad(id).value else 0
  }

  /** A reservation and a release renew the counter, change it by one, but not below zero, and change nothing else. */
  lemma LoadRenewed(r: Redis, id: string)
    requires r.Countable(id)
    ensures JustRenewed(Reserve(r, id), id, Counter(r, id) + 1) && OnlyEntry(r, Reserve(r, id), LoadName(id))
    ensures JustRenewed(Release(r, id), id, if Counter(r, id) > 0 then Counter(r, id) - 1 else 0)
    ensures OnlyEntry(r, Release(r, id), LoadName(id))
  {
  }

  /** A heartbeat of a live peer renews its counter, if there is one, and leaves its value. */
  lemma HeartbeatRenews(r: Redis, id: string)
    requires r.GetPeer(id).Some? && r.GetLoad(id).Some?
    ensures JustRenewed(Touch(r, id).1, id, Counter(r, id))
  {
    var p := r.GetPeer(id).value.(lastSeen := r.now, online := true);
    SetsKeepEntries(r.SetPeer(id, p).ExpireLoad(id), id, p.files);
    assert |LoadName(id)| == |id| + 5;
  }

  /** A registration renews the peer's counter, or creates it at zero, unless its key holds a record. */
  lemma RegistrationRenews(r: Redis, peer: PeerInfo)
    requires r.Countable(peer.peerId)
    ensures JustRenewed(Upsert(r, peer), peer.peerId, Counter(r, peer.peerId))
  {
    NowKept(r, peer.peerId);
    SetsKeepEntries(Renewed(r, peer), peer.peerId, peer.files);
    assert |LoadName(peer.peerId)| == |peer.peerId| + 5;
  }

  /** The counter will be there until then. */
  predicate LivesUntil(r: Redis, id: string, time: int) {
    var name := LoadName(id);
    name in r.entries && r.entries[name].value.Count?
    && (r.entries[name].deadline.By? ==> time <= r.entries[name].deadline.time)
  }

  /** No operation but the registration of a peer whose record has the counter's key shortens a counter's life. */
  lemma OpKeepsCounter(r: Redis, op: Op, id: string, time: int)
    requires LivesUntil(r, id, time) && r.now < time <= r.now + 20
    requires op.Register? ==> op.peer.peerId != LoadName(id)
    ensures LivesUntil(Apply(r, op), id, time) && r.now <= Apply(r, op).now
  {
    match op
    case Register(peer) => RegisterKeeps(r, peer, id, time);
    case Heartbeat(p) => HeartbeatKeeps(r, p, id, time);
    case LookUp(f) =>
    case ReserveLoad(p) =>
    case ReleaseLoad(p) =>
    case Pass(seconds) =>
  }

  lemma RegisterKeeps(r: Redis, peer: PeerInfo, id: string, time: int)
    requires LivesUntil(r, id, time) && r.now < time <= r.now + 20 && peer.peerId != LoadName(id)
    ensures LivesUntil(Upsert(r, peer), id, time) && Upsert(r, peer).now == r.now
  {
    NowKept(r, peer.peerId);
    SetsKeepEntries(Renewed(r, peer), peer.peerId, peer.files);
    SameSuffix(":load", peer.peerId, id);
  }

  lemma HeartbeatKeeps(r: Redis, p: string, id: string, time: int)
    requires LivesUntil(r, id, time) && r.now < time <= r.now + 20
    ensures LivesUntil(Touch(r, p).1, id, time) && Touch(r, p).1.now == r.now
  {
    if r.GetPeer(p).Some? {
      var info := r.GetPeer(p).value.(lastSeen := r.now, online := true);
      SetsKeepEntries(r.SetPeer(p, info).ExpireLoad(p), p, info.files);
    }
  }

  lemma {:induction false} CounterLives(now: int, before: seq<Op>, later: seq<Op>, id: string, time: int)
    requires LivesUntil(After(now, before), id, time) && time <= After(now, before).now + 20
    requires forall k :: 0 <= k < |later| && later[k].Register? ==> later[k].peer.peerId != LoadName(id)
    requires After(now, before + later).now < time
    ensures LivesUntil(After(now, before + later), id, time) && After(now, before).now <= After(now, before + later).now
    decreases |later|
  {
    if later == [] {
      assert before + later == before;
    } else {
      var n := |later| - 1;
      AfterOneMore(now, before + later[..n], later[n], before + later) by {
        assert before + later == before + later[..n] + [later[n]];
      }
      NeverBack(After(now, before + later[..n]), later[n]);
      CounterLives(now, before, later[..n], id, time);
      OpKeepsCounter(After(now, before + later[..n]), later[n], id, time);
    }
  }

  /** The clock does not go back. */
  lemma NeverBack(r: Redis, op: Op)
    ensures r.now <= Apply(r, op).now
  {
    match op
    case Register(peer) =>
      NowKept(r, peer.peerId);
      SetsKeepEntries(Renewed(r, peer), peer.peerId, peer.files);
    case Heartbeat(p) =>
      if r.GetPeer(p).Some? {
        var info := r.GetPeer(p).value;
        SetsKeepEntries(r.SetPeer(p, info.(lastSeen := r.now, online := true)).ExpireLoad(p), p, info.files);
      }
    case LookUp(f) =>
    case ReserveLoad(p) =>
    case ReleaseLoad(p) =>
    case Pass(seconds) =>
  }

  /** In any run a counter is there for less than twenty seconds from its last reservation or release on. */
  lemma ReservedLives(now: int, before: seq<Op>, op: Op, later: seq<Op>, id: string)
    requires (op == ReserveLoad(id) || op == ReleaseLoad(id)) && After(now, before).Countable(id)
    requires forall k :: 0 <= k < |later| && later[k].Register? ==> later[k].peer.peerId != LoadName(id)
    requires After(now, before + [op] + later).now < After(now, before).now + 20
    ensures After(now, before + [op] + later).GetLoad(id).Some?
  {
    var r := After(now, before);
    AfterOneMore(now, before, op, before + [op]);
    LoadRenewed(r, id);
    CounterLives(now, before + [op], later, id, r.now + 20);
  }
}
