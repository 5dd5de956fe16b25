/** Which peers a download uses, and in which order one chunk is asked of them. */
module PeerList {
  import opened Text
  import opened ChunkFiles

  datatype PeerEndpoint = PeerEndpoint(peerId: string, ip: string, port: int)

  // ---------- usable peers ----------

  function Key(peer: PeerEndpoint): string {
    peer.ip + ":" + SignedDecimal(peer.port)
  }

  predicate WellFormed(self: string, peer: PeerEndpoint) {
    peer.peerId != self && peer.ip != "" && peer.port > 0
  }

  /** A peer is kept when it is not the downloader, has an address, and no earlier such peer has the same one. */
  predicate Kept(self: string, peers: seq<PeerEndpoint>, i: nat)
    requires i < |peers|
  {
    WellFormed(self, peers[i]) && forall k :: 0 <= k < i && WellFormed(self, peers[k]) ==>
      Key(peers[k]) != Key(peers[i])
  }

  /** The kept ones of the first `n` peers, in order. */
  function Usable(self: string, peers: seq<PeerEndpoint>, n: nat): seq<PeerEndpoint>
    requires n <= |peers|
  {
    if n == 0 then []
    else if Kept(self, peers, n - 1) then Usable(self, peers, n - 1) + [peers[n - 1]]
    else Usable(self, peers, n - 1)
  }

  method FilterUsablePeers(self: string, peers: seq<PeerEndpoint>) returns (usable: seq<PeerEndpoint>)
    ensures usable == Usable(self, peers, |peers|)
    ensures exists at :: Picks(self, peers, usable, at)
  {
    usable := [];
    var seen: set<string> := {};
    for i := 0 to |peers|
      invariant usable == Usable(self, peers, i)
      invariant forall key ::
        key in seen <==> exists k :: 0 <= k < i && WellFormed(self, peers[k]) && Key(peers[k]) == key
    {
      var peer := peers[i];
      if peer.peerId != self && peer.ip != "" && peer.port > 0 {
        var key := peer.ip + ":" + SignedDecimal(peer.port);
        assert key == Key(peers[i]);
        if key !in seen {
          assert Kept(self, peers, i);
          seen := seen + {key};
          usable := usable + [peer];
        }
      }
    }
    ghost var at := UsableInOrder(self, peers);
  }

  /** The key determines address and port, whatever characters the address has. */
  lemma KeyInjective(a: PeerEndpoint, b: PeerEndpoint)
    requires a.port > 0 && b.port > 0
    ensures Key(a) == Key(b) <==> a.ip == b.ip && a.port == b.port
  {
    if Key(a) == Key(b) {
      DecimalReadsBack(a.port);
      DecimalReadsBack(b.port);
      SameColon(a.ip, Decimal(a.port), b.ip, Decimal(b.port));
      DecimalInjective(a.port, b.port);
    }
  }

  lemma SameColon(a: string, m: string, b: string, n: string)
    requires AllDigits(m) && AllDigits(n) && a + ":" + m == b + ":" + n
    ensures a == b && m == n
  {
    var s := a + ":" + m;
    assert s[|a|] == ':' && forall k :: |a| < k < |s| ==> s[k] == m[k - |a| - 1];
    assert s[|b|] == ':' && forall k :: |b| < k < |s| ==> s[k] == n[k - |b| - 1];
    assert |a| == |b|;
    assert a == s[..|a|] && b == s[..|b|];
    assert m == s[|a| + 1..] && n == s[|b| + 1..];
  }

  /** Every usable peer is one of the given ones, well formed. */
  lemma {:induction false} UsableFrom(self: string, peers: seq<PeerEndpoint>, n: nat)
    requires n <= |peers|
    ensures forall p :: p in Usable(self, peers, n) ==> WellFormed(self, p) && p in peers[..n]
  {
    if n > 0 {
      UsableFrom(self, peers, n - 1);
      assert peers[..n] == peers[..n - 1] + [peers[n - 1]];
    }
  }

  predicate DistinctKeys(u: seq<PeerEndpoint>) {
    forall i, k :: 0 <= i < k < |u| ==> Key(u[i]) != Key(u[k])
  }

  lemma DistinctWithOneMore(u: seq<PeerEndpoint>, p: PeerEndpoint)
    requires DistinctKeys(u) && forall q :: q in u ==> Key(q) != Key(p)
    ensures DistinctKeys(u + [p])
  {
    forall i, k | 0 <= i < k < |u + [p]|
      ensures Key((u + [p])[i]) != Key((u + [p])[k])
    {
      assert (u + [p])[i] == u[i] && u[i] in u;
    }
  }

  /** A kept peer has the address of none that was kept before it. */
  lemma KeptIsNew(self: string, peers: seq<PeerEndpoint>, n: nat, q: PeerEndpoint)
    requires n < |peers| && Kept(self, peers, n) && q in Usable(self, peers, n)
    ensures Key(q) != Key(peers[n])
  {
    UsableFrom(self, peers, n);
    var m :| 0 <= m < n && peers[m] == q;
  }

  /** No two usable peers have the same address. */
  lemma {:induction false} UsableDistinct(self: string, peers: seq<PeerEndpoint>, n: nat)
    requires n <= |peers|
    ensures DistinctKeys(Usable(self, peers, n))
  {
    if n > 0 {
      UsableDistinct(self, peers, n - 1);
      if Kept(self, peers, n - 1) {
        forall q | q in Usable(self, peers, n - 1)
          ensures Key(q) != Key(peers[n - 1])
        {
          KeptIsNew(self, peers, n - 1, q);
        }
        DistinctWithOneMore(Usable(self, peers, n - 1), peers[n - 1]);
      }
    }
  }

  predicate HasKey(u: seq<PeerEndpoint>, key: string) {
    exists i :: 0 <= i < |u| && Key(u[i]) == key
  }

  lemma HasKeyWithOneMore(u: seq<PeerEndpoint>, p: PeerEndpoint, key: string)
    requires HasKey(u, key) || Key(p) == key
    ensures HasKey(u + [p], key)
  {
    if Key(p) == key {
      assert (u + [p])[|u|] == p;
    } else {
      var i :| 0 <= i < |u| && Key(u[i]) == key;
      assert (u + [p])[i] == u[i];
    }
  }

  /** A well-formed peer is kept, or an earlier one with its address came before. */
  lemma EarlierOrKept(self: string, peers: seq<PeerEndpoint>, i: nat) returns (m: nat)
    requires i < |peers| && WellFormed(self, peers[i])
    ensures m <= i && WellFormed(self, peers[m]) && Key(peers[m]) == Key(peers[i])
    ensures m < i || Kept(self, peers, i)
  {
    m := i;
    if !Kept(self, peers, i) {
      m :| 0 <= m < i && WellFormed(self, peers[m]) && Key(peers[m]) == Key(peers[i]);
    }
  }

  lemma {:induction false} AddressCovered(self: string, peers: seq<PeerEndpoint>, n: nat, k: nat)
    requires k < n <= |peers| && WellFormed(self, peers[k])
    ensures HasKey(Usable(self, peers, n), Key(peers[k]))
    decreases n
  {
    var m := EarlierOrKept(self, peers, k);
    if m < n - 1 {
      AddressCovered(self, peers, n - 1, m);
    }
    if Kept(self, peers, n - 1) {
      HasKeyWithOneMore(Usable(self, peers, n - 1), peers[n - 1], Key(peers[k]));
    }
  }

  /** The address of every well-formed peer is that of a usable one. */
  lemma UsableCovers(self: string, peers: seq<PeerEndpoint>, n: nat)
    requires n <= |peers|
    ensures forall k :: 0 <= k < n && WellFormed(self, peers[k]) ==> HasKey(Usable(self, peers, n), Key(peers[k]))
  {
    forall k | 0 <= k < n && WellFormed(self, peers[k])
      ensures HasKey(Usable(self, peers, n), Key(peers[k]))
    {
      AddressCovered(self, peers, n, k);
    }
  }

  /** Not the downloader, with an address, and no such peer with the same address and port stands before it. */
  predicate FirstAtAddress(self: string, peers: seq<PeerEndpoint>, i: nat)
    requires i < |peers|
  {
    && peers[i].peerId != self && peers[i].ip != "" && peers[i].port > 0
    && forall k :: 0 <= k < i && peers[k].peerId != self && peers[k].ip != "" && peers[k].port > 0 ==>
         peers[k].ip != peers[i].ip || peers[k].port != peers[i].port
  }

  /** `at` are the places of all those peers, in ascending order, and `usable` are the peers at them. */
  ghost predicate Picks(self: string, peers: seq<PeerEndpoint>, usable: seq<PeerEndpoint>, at: seq<nat>) {
    && |at| == |usable|
    && (forall i, k :: 0 <= i < k < |at| ==> at[i] < at[k])
    && (forall i :: 0 <= i < |at| ==> at[i] < |peers| && usable[i] == peers[at[i]])
    && (forall i: nat :: i < |peers| ==> (i in at <==> FirstAtAddress(self, peers, i)))
  }

  lemma KeptIsFirst(self: string, peers: seq<PeerEndpoint>, i: nat)
    requires i < |peers|
    ensures Kept(self, peers, i) <==> FirstAtAddress(self, peers, i)
  {
    forall k | 0 <= k < i && WellFormed(self, peers[k]) && WellFormed(self, peers[i])
      ensures Key(peers[k]) == Key(peers[i]) <==> peers[k].ip == peers[i].ip && peers[k].port == peers[i].port
    {
      KeyInjective(peers[k], peers[i]);
    }
  }

  /** The places of the kept ones of the first `n` peers. */
  ghost predicate PlacesOf(self: string, peers: seq<PeerEndpoint>, n: nat, usable: seq<PeerEndpoint>, at: seq<nat>)
    requires n <= |peers|
  {
    && |at| == |usable| && (forall i, k :: 0 <= i < k < |at| ==> at[i] < at[k])
    && (forall i :: 0 <= i < |at| ==> at[i] < n && usable[i] == peers[at[i]])
    && (forall i: nat :: i < n ==> (i in at <==> Kept(self, peers, i)))
  }

  lemma OnePlaceMore(self: string, peers: seq<PeerEndpoint>, n: nat, usable: seq<PeerEndpoint>, at: seq<nat>)
    requires n < |peers| && PlacesOf(self, peers, n, usable, at)
    ensures Kept(self, peers, n) ==> PlacesOf(self, peers, n + 1, usable + [peers[n]], at + [n])
    ensures !Kept(self, peers, n) ==> PlacesOf(self, peers, n + 1, usable, at)
  {
    assert n !in at by {
      assert forall i :: 0 <= i < |at| ==> at[i] < n;
    }
    forall i: nat | i < n + 1
      ensures i in at + [n] <==> i in at || i == n
    {
      assert (at + [n])[|at|] == n;
    }
  }

  lemma {:induction false} KeptPlaces(self: string, peers: seq<PeerEndpoint>, n: nat) returns (at: seq<nat>)
    requires n <= |peers|
    ensures PlacesOf(self, peers, n, Usable(self, peers, n), at)
  {
    if n == 0 {
      at := [];
    } else {
      var before := KeptPlaces(self, peers, n - 1);
      var usable := Usable(self, peers, n - 1);
      OnePlaceMore(self, peers, n - 1, usable, before);
      if Kept(self, peers, n - 1) {
        at := before + [n - 1];
        assert Usable(self, peers, n) == usable + [peers[n - 1]];
      } else {
        at := before;
        assert Usable(self, peers, n) == usable;
      }
    }
  }

  /** The usable peers are, in the order given, those at whose address no usable one stands before. */
  lemma UsableInOrder(self: string, peers: seq<PeerEndpoint>) returns (at: seq<nat>)
    ensures Picks(self, peers, Usable(self, peers, |peers|), at)
  {
    at := KeptPlaces(self, peers, |peers|);
    forall i: nat | i < |peers|
      ensures i in at <==> FirstAtAddress(self, peers, i)
    {
      KeptIsFirst(self, peers, i);
    }
  }

  // ---------- the ring of attempts ----------

  /** The peer that attempt number `a` goes to. */
  function RingPeer(start: nat, a: nat, n: nat): nat
    requires n > 0
  {
    (start + a) % n
  }

  /** What happens at each peer: whether it grants a reservation, and whether it then delivers the chunk. */
  datatype Peers = Peers(grants: seq<bool>, delivers: seq<bool>)

  predicate Serves(peers: Peers, p: nat) {
    p < |peers.grants| && p < |peers.delivers| && peers.grants[p] && peers.delivers[p]
  }

  /** What one request left behind: the peers visited, reserved at, and released at, in order. */
  datatype Trace = Trace(visited: seq<nat>, reserved: seq<nat>, released: seq<nat>)

  /** The attempts from number `a` on. */
  function RingFrom(peers: Peers, n: nat, start: nat, a: nat): (bool, Trace)
    requires n > 0 && n == |peers.grants| == |peers.delivers|
    decreases n - a
  {
    if a >= n then (false, Trace([], [], []))
    else
      var p := RingPeer(start, a, n);
      if !peers.grants[p] then
        var (ok, t) := RingFrom(peers, n, start, a + 1);
        (ok, t.(visited := [p] + t.visited))
      else if peers.delivers[p] then (true, Trace([p], [p], [p]))
      else
        var (ok, t) := RingFrom(peers, n, start, a + 1);
        (ok, Trace([p] + t.visited, [p] + t.reserved, [p] + t.released))
  }

  lemma TraceOneMore(t: Trace, p: nat, rest: Trace)
    ensures (t.visited + [p]) + rest.visited == t.visited + ([p] + rest.visited)
    ensures (t.reserved + [p]) + rest.reserved == t.reserved + ([p] + rest.reserved)
    ensures (t.released + [p]) + rest.released == t.released + ([p] + rest.released)
  {
  }

  method RequestChunkFromAnyPeer(peers: Peers, start: nat) returns (ok: bool, trace: Trace)
    requires |peers.grants| == |peers.delivers|
    ensures |peers.grants| == 0 ==> !ok && trace == Trace([], [], [])
    ensures |peers.grants| > 0 ==> ok == RingFrom(peers, |peers.grants|, start, 0).0
    ensures |peers.grants| > 0 ==> trace == RingFrom(peers, |peers.grants|, start, 0).1
    ensures start < |peers.grants| ==> trace.visited != [] && trace.visited[0] == start
    ensures |peers.grants| > 0 ==> GoesRound(trace.visited, start, |peers.grants|)
  {
    var n := |peers.grants|;
    trace := Trace([], [], []);
    if n == 0 {
      return false, trace;
    }
    ghost var goal := RingFrom(peers, n, start, 0);
    for attempt := 0 to n
      invariant goal.0 == RingFrom(peers, n, start, attempt).0
      invariant var rest := RingFrom(peers, n, start, attempt).1;
                goal.1
                == Trace(trace.visited + rest.visited, trace.reserved + rest.reserved, trace.released + rest.released)
    {
      var peerIndex := (start + attempt) % n;
      TraceOneMore(trace, peerIndex, RingFrom(peers, n, start, attempt + 1).1);
      trace := trace.(visited := trace.visited + [peerIndex]);
      if !peers.grants[peerIndex] {
        continue;
      }
      trace := trace.(reserved := trace.reserved + [peerIndex]);
      var delivered := peers.delivers[peerIndex];
      trace := trace.(released := trace.released + [peerIndex]);
      if delivered {
        VisitsGoRound(peers, n, start);
        return true, trace;
      }
    }
    VisitsGoRound(peers, n, start);
    ok := false;
  }

  lemma RingStep(start: nat, a: nat, b: nat, n: nat)
    requires n > 0 && a < b < n
    ensures RingPeer(start, a, n) != RingPeer(start, b, n)
  {
    var x, y := start + a, start + b;
    NotMultiple(y / n - x / n, n, b - a);
    assert x == n * (x / n) + x % n && y == n * (y / n) + y % n;
    assert n * (y / n - x / n) == n * (y / n) - n * (x / n);
  }

  lemma NotMultiple(k: int, n: nat, d: nat)
    requires 0 < d < n
    ensures d != n * k
  {
    if k > 0 {
      AtLeastOnce(n, k);
    } else {
      assert n * k <= 0;
    }
  }

  /** Every peer comes up once in `n` attempts. */
  lemma RingCovers(start: nat, p: nat, n: nat) returns (a: nat)
    requires p < n
    ensures a < n && RingPeer(start, a, n) == p
  {
    var s := start % n;
    a := if p >= s then p - s else p - s + n;
    var q := start / n;
    assert start == n * q + s;
    if p >= s {
      Remainder(start + a, n, q, p);
    } else {
      assert start + a == n * q + n + p == n * (q + 1) + p;
      Remainder(start + a, n, q + 1, p);
    }
  }

  lemma Remainder(x: nat, n: nat, q: nat, p: nat)
    requires p < n && x == n * q + p
    ensures x % n == p
  {
    SameQuotient(x, n, q, p);
  }

  /** The attempts visit the peers in ring order. */
  lemma {:induction false} RingOrder(peers: Peers, n: nat, start: nat, a: nat)
    requires n > 0 && n == |peers.grants| == |peers.delivers| && a <= n
    ensures var t := RingFrom(peers, n, start, a).1;
            a + |t.visited| <= n && forall i :: 0 <= i < |t.visited| ==> t.visited[i] == RingPeer(start, a + i, n)
    decreases n - a
  {
    if a < n {
      RingOrder(peers, n, start, a + 1);
      var p, rest := RingPeer(start, a, n), RingFrom(peers, n, start, a + 1).1;
      assert forall i :: 0 < i < |[p] + rest.visited| ==> ([p] + rest.visited)[i] == rest.visited[i - 1];
    }
  }

  /** Once round, from `start` on: the next peer each time, and the first one behind the last. */
  predicate GoesRound(visited: seq<nat>, start: nat, n: nat)
    requires n > 0
  {
    && |visited| <= n && (visited != [] ==> visited[0] == start % n)
    && forall i :: 0 <= i < |visited| - 1 ==> visited[i + 1] == if visited[i] + 1 == n then 0 else visited[i] + 1
  }

  lemma NextInRing(start: nat, a: nat, n: nat)
    requires n > 0
    ensures var p := RingPeer(start, a, n);
            RingPeer(start, a + 1, n) == if p + 1 == n then 0 else p + 1
  {
    var x := start + a;
    assert x == n * (x / n) + x % n;
    if x % n + 1 == n {
      assert x + 1 == n * (x / n + 1) + 0;
      Remainder(x + 1, n, x / n + 1, 0);
    } else {
      Remainder(x + 1, n, x / n, x % n + 1);
    }
  }

  /** The first peer visited is the start peer, and the attempts go round the ring from there. */
  lemma VisitsGoRound(peers: Peers, n: nat, start: nat)
    requires n > 0 && n == |peers.grants| == |peers.delivers|
    ensures var visited := RingFrom(peers, n, start, 0).1.visited;
            visited != [] && GoesRound(visited, start, n) && (start < n ==> visited[0] == start)
  {
    var visited := RingFrom(peers, n, start, 0).1.visited;
    RingOrder(peers, n, start, 0);
    forall i | 0 <= i < |visited| - 1
      ensures visited[i + 1] == if visited[i] + 1 == n then 0 else visited[i] + 1
    {
      NextInRing(start, i, n);
    }
    if start < n {
      Remainder(start, n, 0, start);
    }
  }

  /** The visited peers that granted a reservation, in order. */
  function Granting(peers: Peers, visited: seq<nat>): seq<nat> {
    if visited == [] then []
    else
      (if visited[0] < |peers.grants| && peers.grants[visited[0]] then [visited[0]] else [])
      + Granting(peers, visited[1..])
  }

  /** A reservation is made at exactly the visited peers that grant one. */
  lemma {:induction false} ReservedIsGranting(peers: Peers, n: nat, start: nat, a: nat)
    requires n > 0 && n == |peers.grants| == |peers.delivers|
    ensures var t := RingFrom(peers, n, start, a).1; t.reserved == Granting(peers, t.visited)
    decreases n - a
  {
    if a < n {
      var p := RingPeer(start, a, n);
      assert [p][1..] == [] && Granting(peers, []) == [];
      if !Serves(peers, p) {
        ReservedIsGranting(peers, n, start, a + 1);
        GrantingFirst(peers, p, RingFrom(peers, n, start, a + 1).1.visited);
      }
    }
  }

  lemma GrantingFirst(peers: Peers, p: nat, rest: seq<nat>)
    ensures Granting(peers, [p] + rest)
            == (if p < |peers.grants| && peers.grants[p] then [p] else []) + Granting(peers, rest)
  {
    assert ([p] + rest)[1..] == rest;
  }

  predicate NoneServes(peers: Peers, visited: seq<nat>) {
    forall i :: 0 <= i < |visited| ==> !Serves(peers, visited[i])
  }

  /** Only the last peer visited served the chunk, or none did. */
  predicate StoppedAtFirst(peers: Peers, ok: bool, visited: seq<nat>) {
    if ok then visited != [] && Serves(peers, visited[|visited| - 1]) && NoneServes(peers, visited[..|visited| - 1])
    else NoneServes(peers, visited)
  }

  lemma StoppedOneEarlier(peers: Peers, ok: bool, p: nat, visited: seq<nat>)
    requires StoppedAtFirst(peers, ok, visited) && !Serves(peers, p)
    ensures StoppedAtFirst(peers, ok, [p] + visited)
  {
    if ok {
      assert ([p] + visited)[..|visited|] == [p] + visited[..|visited| - 1];
    }
  }

  /** They stop behind the first peer that grants and delivers, or after all `n`; every reservation is given back. */
  lemma {:induction false} RingStops(peers: Peers, n: nat, start: nat, a: nat)
    requires n > 0 && n == |peers.grants| == |peers.delivers| && a <= n
    ensures var (ok, t) := RingFrom(peers, n, start, a);
            StoppedAtFirst(peers, ok, t.visited) && (!ok ==> a + |t.visited| == n) && t.released == t.reserved
    decreases n - a
  {
    if a < n {
      var p := RingPeer(start, a, n);
      if !Serves(peers, p) {
        RingStops(peers, n, start, a + 1);
        var (ok, rest) := RingFrom(peers, n, start, a + 1);
        StoppedOneEarlier(peers, ok, p, rest.visited);
      }
    }
  }

  /** A request succeeds exactly when some peer grants and delivers, and visits no peer twice. */
  lemma RingSucceedsIff(peers: Peers, n: nat, start: nat)
    requires n > 0 && n == |peers.grants| == |peers.delivers|
    ensures RingFrom(peers, n, start, 0).0 <==> exists p: nat :: p < n && Serves(peers, p)
    ensures var visited := RingFrom(peers, n, start, 0).1.visited;
            forall i, k :: 0 <= i < k < |visited| ==> visited[i] != visited[k]
  {
    RingOrder(peers, n, start, 0);
    RingStops(peers, n, start, 0);
    var (ok, t) := RingFrom(peers, n, start, 0);
    forall i, k | 0 <= i < k < |t.visited|
      ensures t.visited[i] != t.visited[k]
    {
      RingStep(start, i, k, n);
    }
    forall p: nat | p < n && Serves(peers, p)
      ensures ok
    {
      var a := RingCovers(start, p, n);
      assert a < |t.visited| ==> t.visited[a] == p;
    }
    if ok {
      var last := t.visited[|t.visited| - 1];
      assert last == RingPeer(start, |t.visited| - 1, n) < n;
    }
  }
}
