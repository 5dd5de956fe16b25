/**
 The tracker's store: peer records, the index from files to peers and the load
 counters, all in Redis with a time to live, on a clock of whole seconds.
 Records and counters share the keys that start with `peer:`.
 */
module TrackerStore {
  import opened Options
  import opened Sets

  const PEER_RECORD_TTL := 20

  datatype PeerInfo = PeerInfo(peerId: string, ip: string, port: int, files: seq<string>, lastSeen: int, online: bool)

  // ---------- keys ----------

  function PeerKey(peerId: string): string {
    "peer:" + peerId
  }

  function FilePeersKey(fileId: string): string {
    "file:" + fileId + ":peers"
  }

  function PeerLoadKey(peerId: string): string {
    "peer:" + peerId + ":load"
  }

  /** What stands behind `peer:` in the key of a peer's counter. */
  function LoadName(id: string): string {
    id + ":load"
  }

  /** No id is the name of another one's counter. */
  ghost predicate Apart(ids: set<string>) {
    forall a, b :: a in ids && b in ids ==> a != LoadName(b)
  }

  lemma SamePrefix(prefix: string, a: string, b: string)
    ensures prefix + a == prefix + b <==> a == b
  {
    assert (prefix + a)[|prefix|..] == a && (prefix + b)[|prefix|..] == b;
  }

  lemma SameSuffix(suffix: string, a: string, b: string)
    ensures a + suffix == b + suffix <==> a == b
  {
    if a + suffix == b + suffix {
      assert |a + suffix| == |b + suffix|;
      assert (a + suffix)[..|a|] == a && (b + suffix)[..|b|] == b;
    }
  }

  /** The keys of records, file sets and counters are distinct, but for a peer whose id ends in ":load". */
  lemma KeysDistinct(a: string, b: string)
    ensures PeerKey(a) == PeerKey(b) <==> a == b
    ensures FilePeersKey(a) == FilePeersKey(b) <==> a == b
    ensures PeerLoadKey(a) == PeerLoadKey(b) <==> a == b
    ensures PeerKey(a) != FilePeersKey(b) && PeerLoadKey(a) != FilePeersKey(b)
    ensures PeerKey(a) == PeerLoadKey(b) <==> a == LoadName(b)
  {
    SamePrefix("peer:", a, b);
    SamePrefix("file:", a + ":peers", b + ":peers");
    SameSuffix(":peers", a, b);
    assert "file:" + a + ":peers" == "file:" + (a + ":peers") && "file:" + b + ":peers" == "file:" + (b + ":peers");
    SamePrefix("peer:", a + ":load", b + ":load");
    SameSuffix(":load", a, b);
    assert "peer:" + a + ":load" == "peer:" + (a + ":load") && "peer:" + b + ":load" == "peer:" + (b + ":load");
    SamePrefix("peer:", a, b + ":load");
    assert PeerKey(a)[0] == 'p' && PeerLoadKey(a)[0] == 'p' && FilePeersKey(b)[0] == 'f';
  }

  // ---------- Redis ----------

  datatype Deadline = Never | By(time: int)

  datatype Timed<+V> = Timed(value: V, deadline: Deadline)

  datatype Content = Record(info: PeerInfo) | Count(load: int)

  /**
   The keys that start with `peer:`, by what stands behind it, and the peer sets of files, by file; a value whose
   deadline has come is as good as gone.
   */
  datatype Redis = Redis(
    now: int,
    entries: map<string, Timed<Content>>,
    index: map<string, Timed<set<string>>>)
  {
    predicate Alive(d: Deadline) {
      d.Never? || now < d.time
    }

    predicate Holds(name: string) {
      name in entries && Alive(entries[name].deadline)
    }

    /** SET of a key with a time to live, whatever it held */
    function Set(name: string, entry: Content): Redis {
      this.(entries := entries[name := Timed(entry, By(now + PEER_RECORD_TTL))])
    }

    /** GET of a peer record; a number is not one */
    function GetPeer(id: string): Option<PeerInfo> {
      if Holds(id) && entries[id].value.Record? then Some(entries[id].value.info) else None
    }

    /** SET of a peer record with the record's time to live */
    function SetPeer(id: string, info: PeerInfo): Redis {
      Set(id, Record(info))
    }

    /** A record is stored, whether its deadline has come or not. */
    predicate HasRecord(id: string) {
      id in entries && entries[id].value.Record?
    }

    function Stored(id: string): PeerInfo
      requires HasRecord(id)
    {
      entries[id].value.info
    }

    predicate HasSet(f: string) {
      f in index && Alive(index[f].deadline)
    }

    /** SMEMBERS of a file's peer set */
    function Members(f: string): set<string> {
      if HasSet(f) then index[f].value else {}
    }

    /** SADD: a set that is new has no time to live */
    function SAdd(f: string, id: string): Redis {
      if HasSet(f) then this.(index := index[f := Timed(index[f].value + {id}, index[f].deadline)])
      else this.(index := index[f := Timed({id}, Never)])
    }

    /** SREM of several members: a set that becomes empty is deleted */
    function Drop(f: string, ids: set<string>): Redis {
      if !HasSet(f) || index[f].value - ids == index[f].value then this
      else if index[f].value - ids == {} then this.(index := index - {f})
      else this.(index := index[f := Timed(index[f].value - ids, index[f].deadline)])
    }

    function SRem(f: string, id: string): Redis {
      Drop(f, {id})
    }

    /** EXPIRE of a file's peer set */
    function ExpireSet(f: string): Redis {
      if HasSet(f) then this.(index := index[f := Timed(index[f].value, By(now + PEER_RECORD_TTL))]) else this
    }

    /** GET of a load counter; a record is not a number */
    function GetLoad(id: string): Option<int> {
      var name := LoadName(id);
      if Holds(name) && entries[name].value.Count? then Some(entries[name].value.load) else None
    }

    function SetLoad(id: string, load: int): Redis {
      Set(LoadName(id), Count(load))
    }

    /** SETNX with a time to live: anything under the key counts as present */
    function SetLoadIfAbsent(id: string, load: int): Redis {
      if Holds(LoadName(id)) then this else SetLoad(id, load)
    }

    /** INCR and DECR fail on anything but a number. */
    predicate Countable(id: string) {
      Holds(LoadName(id)) ==> entries[LoadName(id)].value.Count?
    }

    /** INCR or DECR: a counter that is new counts from zero and has no time to live */
    function AddLoad(id: string, change: int): Redis {
      var name := LoadName(id);
      if !Countable(id) then this
      else if Holds(name) then
        this.(entries := entries[name := Timed(Count(entries[name].value.load + change), entries[name].deadline)])
      else this.(entries := entries[name := Timed(Count(change), Never)])
    }

    /** EXPIRE of a counter's key, whatever it holds */
    function ExpireLoad(id: string): Redis {
      if Holds(LoadName(id)) then Set(LoadName(id), entries[LoadName(id)].value) else this
    }

    function Later(seconds: nat): Redis {
      this.(now := now + seconds)
    }
  }

  function Empty(now: int): Redis {
    Redis(now, map[], map[])
  }

  // ---------- store operations, as functions of the state ----------

  predicate Fresh(r: Redis, lastSeen: int) {
    lastSeen != 0 && r.now - lastSeen <= PEER_RECORD_TTL
  }

  function RemoveFromSets(r: Redis, id: string, files: seq<string>): Redis {
    if files == [] then r
    else
      var n := |files| - 1;
      RemoveFromSets(r, id, files[..n]).SRem(files[n], id)
  }

  function AddToSets(r: Redis, id: string, files: seq<string>): Redis {
    if files == [] then r
    else
      var n := |files| - 1;
      AddToSets(r, id, files[..n]).SAdd(files[n], id).ExpireSet(files[n])
  }

  function ExpireSets(r: Redis, files: seq<string>): Redis {
    if files == [] then r
    else
      var n := |files| - 1;
      ExpireSets(r, files[..n]).ExpireSet(files[n])
  }

  function Forgotten(r: Redis, id: string): Redis {
    match r.GetPeer(id)
    case Some(former) => RemoveFromSets(r, former.peerId, former.files)
    case None => r
  }

  function KeepLoad(r: Redis, id: string): Redis {
    match r.GetLoad(id)
    case Some(load) => r.SetLoad(id, load)
    case None => r.SetLoadIfAbsent(id, 0)
  }

  /** Registering: the old index entries go, record and load counter are renewed, the new entries come. */
  function Upsert(r: Redis, peer: PeerInfo): Redis {
    var seen := peer.(lastSeen := r.now, online := true);
    AddToSets(KeepLoad(Forgotten(r, peer.peerId).SetPeer(peer.peerId, seen), peer.peerId), peer.peerId, peer.files)
  }

  /** A heartbeat: record, counter and the sets of the record's files are renewed. */
  function Touch(r: Redis, id: string): (bool, Redis) {
    match r.GetPeer(id)
    case None => (false, r)
    case Some(peer) =>
      (true, ExpireSets(r.SetPeer(id, peer.(lastSeen := r.now, online := true)).ExpireLoad(id), peer.files))
  }

  predicate Usable(r: Redis, id: string) {
    r.GetPeer(id).Some? && r.GetPeer(id).value.online && Fresh(r, r.GetPeer(id).value.lastSeen)
  }

  function UsableMembers(r: Redis, f: string): set<string> {
    set id | id in r.Members(f) && Usable(r, id)
  }

  /** What a lookup returns: the usable records of the file's members. */
  function Found(r: Redis, f: string): set<PeerInfo> {
    set id | id in r.Members(f) && Usable(r, id) :: r.GetPeer(id).value
  }

  /** What a lookup leaves: the other members are removed. */
  function Cleaned(r: Redis, f: string): Redis {
    r.Drop(f, set id | id in r.Members(f) && !Usable(r, id))
  }

  /** A reservation; INCR may fail, and then nothing is renewed. */
  function Reserve(r: Redis, id: string): Redis {
    if r.Countable(id) then r.AddLoad(id, 1).ExpireLoad(id) else r
  }

  /** A release, which resets a counter that came out negative. */
  function Release(r: Redis, id: string): Redis {
    if !r.Countable(id) then r
    else
      var less := r.AddLoad(id, -1).ExpireLoad(id);
      if less.GetLoad(id).Some? && less.GetLoad(id).value < 0 then less.SetLoad(id, 0) else less
  }

  /** The peer has a record whose deadline has not come, online and seen in the last twenty seconds. */
  predicate SeenLately(r: Redis, id: string) {
    && id in r.entries && (r.entries[id].deadline.Never? || r.now < r.entries[id].deadline.time)
    && r.entries[id].value.Record?
    && var p := r.entries[id].value.info;
       p.online && p.lastSeen != 0 && r.now - p.lastSeen <= 20
  }

  /**
   A lookup leaves exactly the members that have such a record, and touches no other set, no deadline of a set that
   is left, and no record or counter.
   */
  lemma LookupRemoves(r: Redis, f: string)
    ensures var t := Cleaned(r, f);
            && (forall id :: id in t.Members(f) <==> id in r.Members(f) && SeenLately(r, id))
            && (forall g :: g != f ==> t.Members(g) == r.Members(g) && (g in t.index <==> g in r.index))
            && (forall g :: t.Members(g) != {} ==> t.index[g].deadline == r.index[g].deadline)
            && t.entries == r.entries && t.now == r.now
  {
    forall id
      ensures Usable(r, id) <==> SeenLately(r, id)
    {
    }
  }

  // ---------- the operations as they run ----------

  lemma DropTwice(r: Redis, f: string, a: set<string>, b: set<string>)
    ensures r.Drop(f, a).Drop(f, b) == r.Drop(f, a + b)
  {
    if r.HasSet(f) {
      var m := r.index[f].value;
      assert m - (a + b) == (m - a) - b;
    }
  }

  class Tracker {
    var redis: Redis

    constructor (now: int)
      ensures redis == Empty(now)
    {
      redis := Empty(now);
    }

    method RemovePeerFromFileSets(peerId: string, files: seq<string>)
      modifies this
      ensures redis == RemoveFromSets(old(redis), peerId, files)
    {
      for i := 0 to |files|
        invariant redis == RemoveFromSets(old(redis), peerId, files[..i])
      {
        assert files[..i + 1][..i] == files[..i];
        redis := redis.SRem(files[i], peerId);
      }
      assert files[..|files|] == files;
    }

    method UpsertPeer(peer: PeerInfo)
      modifies this
      ensures redis == Upsert(old(redis), peer)
    {
      var seen := peer.(lastSeen := redis.now);
      seen := seen.(online := true);
      var oldPeer := redis.GetPeer(seen.peerId);
      if oldPeer.Some? {
        RemovePeerFromFileSets(oldPeer.value.peerId, oldPeer.value.files);
      }
      NowKept(old(redis), peer.peerId);
      redis := redis.SetPeer(seen.peerId, seen);
      var currentLoad := redis.GetLoad(seen.peerId);
      if currentLoad.Some? {
        redis := redis.SetLoad(seen.peerId, currentLoad.value);
      } else {
        redis := redis.SetLoadIfAbsent(seen.peerId, 0);
      }
      ghost var before := redis;
      for i := 0 to |seen.files|
        invariant redis == AddToSets(before, seen.peerId, seen.files[..i])
      {
        assert seen.files[..i + 1][..i] == seen.files[..i];
        redis := redis.SAdd(seen.files[i], seen.peerId);
        redis := redis.ExpireSet(seen.files[i]);
      }
      assert seen.files[..|seen.files|] == seen.files;
    }

    method TouchPeer(peerId: string) returns (ok: bool)
      modifies this
      ensures (ok, redis) == Touch(old(redis), peerId)
      ensures old(redis).GetPeer(peerId).None? ==> !ok && redis == old(redis)
    {
      var record := redis.GetPeer(peerId);
      if record.None? {
        return false;
      }
      var peer := record.value.(online := true);
      peer := peer.(lastSeen := redis.now);
      redis := redis.SetPeer(peerId, peer);
      redis := redis.ExpireLoad(peerId);
      ghost var before := redis;
      for i := 0 to |peer.files|
        invariant redis == ExpireSets(before, peer.files[..i])
      {
        assert peer.files[..i + 1][..i] == peer.files[..i];
        redis := redis.ExpireSet(peer.files[i]);
      }
      assert peer.files[..|peer.files|] == peer.files;
      ok := true;
    }

    /** Returns one record for each usable member, and removes the members that are not usable. */
    method PeerForFile(fileId: string) returns (peers: seq<PeerInfo>)
      modifies this
      ensures forall p :: p in peers <==> p in Found(old(redis), fileId)
      ensures |peers| == |UsableMembers(old(redis), fileId)|
      ensures redis == Cleaned(old(redis), fileId)
      ensures forall id :: id in redis.Members(fileId)
                           <==> id in old(redis).Members(fileId) && SeenLately(old(redis), id)
    {
      ghost var r := redis;
      ghost var members := redis.Members(fileId);
      var peerIds := redis.Members(fileId);
      peers := [];
      ghost var gone: set<string>, kept: set<string> := {}, {};
      while peerIds != {}
        invariant peerIds <= members
        invariant forall id :: id in gone <==> id in members && id !in peerIds && !Usable(r, id)
        invariant redis == r.Drop(fileId, gone)
        invariant |peers| == |kept| && forall id :: id in kept <==> id in members && id !in peerIds && Usable(r, id)
        invariant forall p :: p in peers <==> exists id :: id in kept && r.GetPeer(id) == Some(p)
        decreases peerIds
      {
        ghost var any := Member(peerIds);
        var peerId :| peerId in peerIds;
        var record := redis.GetPeer(peerId);
        assert record == r.GetPeer(peerId);
        ghost var before := peerIds;
        peerIds := peerIds - {peerId};
        if record.None? {
          DropTwice(r, fileId, gone, {peerId});
          redis := redis.SRem(fileId, peerId);
          gone := gone + {peerId};
        } else if record.value.online && Fresh(redis, record.value.lastSeen) {
          assert Usable(r, peerId);
          peers := peers + [record.value];
          kept := kept + {peerId};
        } else {
          DropTwice(r, fileId, gone, {peerId});
          redis := redis.SRem(fileId, peerId);
          gone := gone + {peerId};
        }
      }
      assert gone == set id | id in members && !Usable(r, id);
      assert kept == UsableMembers(r, fileId);
      LookupRemoves(r, fileId);
    }

    method ReservePeerLoad(peerId: string) returns (ok: bool, load: int)
      modifies this
      ensures redis == Reserve(old(redis), peerId) && ok == old(redis).Countable(peerId)
      ensures !ok ==> redis == old(redis)
      ensures ok ==> redis.GetLoad(peerId) == Some(load)
    {
      if !redis.Countable(peerId) {
        return false, 0;
      }
      redis := redis.AddLoad(peerId, 1);
      load := redis.GetLoad(peerId).value;
      redis := redis.ExpireLoad(peerId);
      ok := true;
    }

    method ReleasePeerLoad(peerId: string) returns (ok: bool, load: int)
      modifies this
      ensures redis == Release(old(redis), peerId) && ok == old(redis).Countable(peerId)
      ensures !ok ==> redis == old(redis)
      ensures ok ==> redis.GetLoad(peerId) == Some(load) && load >= 0
    {
      if !redis.Countable(peerId) {
        return false, 0;
      }
      redis := redis.AddLoad(peerId, -1);
      load := redis.GetLoad(peerId).value;
      redis := redis.ExpireLoad(peerId);
      if load < 0 {
        redis := redis.SetLoad(peerId, 0);
        load := 0;
      }
      ok := true;
    }
  }

  lemma {:induction false} RemoveKeepsRest(r: Redis, id: string, files: seq<string>)
    ensures var t := RemoveFromSets(r, id, files);
            t.now == r.now && t.entries == r.entries
  {
    if files != [] {
      RemoveKeepsRest(r, id, files[..|files| - 1]);
    }
  }

  lemma NowKept(r: Redis, id: string)
    ensures Forgotten(r, id).now == r.now && Forgotten(r, id).entries == r.entries
  {
    if r.GetPeer(id).Some? {
      RemoveKeepsRest(r, r.GetPeer(id).value.peerId, r.GetPeer(id).value.files);
    }
  }
}
