/** The scan over the tracker's whole answer, for any peers that may have registered. */
module PeerScan {
  import opened Text
  import opened TrackerStore
  import opened PeerList
  import opened PeerJson

  // ---------- text in which no peer id is found ----------

  /** Nowhere a `d`, a quote and a colon in a row, as at the end of the key of a peer id. */
  predicate Quiet(s: string) {
    forall i :: 0 <= i < |s| - 2 ==> !(s[i] == 'd' && s[i + 1] == '"' && s[i + 2] == ':')
  }

  predicate EndsSafely(s: string) {
    s != "" && s[|s| - 1] != 'd' && s[|s| - 1] != '"'
  }

  lemma QuietJoin(s: string, a: string, b: string)
    requires s == a + b && Quiet(a) && Quiet(b) && EndsSafely(a)
    ensures Quiet(s)
  {
    forall i | 0 <= i < |s| - 2
      ensures !(s[i] == 'd' && s[i + 1] == '"' && s[i + 2] == ':')
    {
      if i >= |a| {
        assert s[i] == b[i - |a|] && s[i + 1] == b[i + 1 - |a|] && s[i + 2] == b[i + 2 - |a|];
      }
    }
  }

  lemma QuietPart(s: string, i: nat, k: nat)
    requires Quiet(s) && i <= k <= |s|
    ensures Quiet(s[i..k])
  {
  }

  lemma {:induction false} FoundIs(s: string, needle: string)
    requires FindText(s, needle).Some?
    ensures var i := FindText(s, needle).value; s[i..i + |needle|] == needle
  {
    if needle <= s {
      assert s[0..|needle|] == needle;
    } else {
      FoundIs(s[1..], needle);
      SliceBehind(s, FindText(s[1..], needle).value, |needle|);
    }
  }

  lemma SliceBehind(s: string, i: nat, n: nat)
    requires s != "" && 1 + i + n <= |s|
    ensures s[1..][i..i + n] == s[1 + i..1 + i + n]
  {
  }

  lemma NotQuietWhereFound(item: string)
    requires FindText(item, StringNeedle("peerId")).Some?
    ensures !Quiet(item)
  {
    var needle := StringNeedle("peerId");
    FoundIs(item, needle);
    var i := FindText(item, needle).value;
    var found := item[i..i + |needle|];
    assert needle[6] == 'd' && needle[7] == '"' && needle[8] == ':';
    assert found[6] == item[i + 6] && found[7] == item[i + 7] && found[8] == item[i + 8];
  }

  /** The scan takes no endpoint from such text. */
  lemma QuietGivesNothing(item: string)
    requires Quiet(item)
    ensures Entry(item) == []
  {
    if FindText(item, StringNeedle("peerId")).Some? {
      NotQuietWhereFound(item);
    }
  }

  ghost predicate Deaf(f: string -> seq<PeerEndpoint>) {
    forall item :: Quiet(item) ==> f(item) == []
  }

  // ---------- the text behind a port ----------

  lemma QuietQuoted(s: string, end: char, text: string)
    requires Guarded(s) && (end == ',' || end == ']') && text == Quoted(s) + [end]
    ensures Quiet(text) && EndsSafely(text)
  {
    forall i | 0 <= i < |text| - 2 && text[i + 1] == '"' && text[i + 2] == ':'
      ensures text[i] != 'd'
    {
      assert text[|s| + 1] == '"' && text[|s| + 2] == end;
      assert i < |s|;
      assert text[i + 1] == s[i];
      assert i > 0 ==> text[i] == s[i - 1];
    }
  }

  lemma {:induction false} QuietFiles(files: seq<string>, text: string)
    requires (forall k :: 0 <= k < |files| ==> Guarded(files[k])) && text == FilesText(files) + "]"
    ensures Quiet(text) && EndsSafely(text)
  {
    if files == [] {
      assert text == "]";
    } else if |files| == 1 {
      QuietQuoted(files[0], ']', text);
    } else {
      var first, rest := Quoted(files[0]) + ",", FilesText(files[1..]) + "]";
      QuietQuoted(files[0], ',', first);
      QuietFiles(files[1..], rest);
      Regroup(first, FilesText(files[1..]), "]");
      QuietJoin(text, first, rest);
    }
  }

  lemma QuietNumber(n: int)
    ensures Quiet(SignedDecimal(n)) && EndsSafely(SignedDecimal(n)) && '}' !in SignedDecimal(n)
  {
    DecimalReadsBack(if n < 0 then -n else n);
    NumberMarks(SignedDecimal(n));
  }

  lemma NumberMarks(s: string)
    requires s != "" && forall i :: 0 <= i < |s| ==> IsDigit(s[i]) || s[i] == '-'
    ensures Quiet(s) && EndsSafely(s) && '}' !in s
  {
  }

  const FILES_KEY := ",\"files\":["
  const SEEN_KEY := ",\"lastSeen\":"
  const ONLINE_KEY := ",\"online\":"

  lemma QuietKeys()
    ensures Quiet(FILES_KEY) && EndsSafely(FILES_KEY) && Quiet(SEEN_KEY) && EndsSafely(SEEN_KEY)
    ensures Quiet(ONLINE_KEY) && EndsSafely(ONLINE_KEY)
  {
    assert forall i :: 0 <= i < |FILES_KEY| ==> FILES_KEY[i] != 'd';
    assert forall i :: 0 <= i < |SEEN_KEY| ==> SEEN_KEY[i] != 'd';
    assert forall i :: 0 <= i < |ONLINE_KEY| ==> ONLINE_KEY[i] != 'd';
  }

  lemma QuietFlag(text: string)
    requires text == "true}" || text == "false}"
    ensures Quiet(text)
  {
    assert forall i :: 0 <= i < |text| ==> text[i] != 'd';
  }

  /** Everything behind the port up to the end of the object. */
  function Rest(p: PeerInfo): string {
    Tail(p) + "}"
  }

  /** The same, piece by piece. */
  lemma RestParts(files: string, seen: string, online: string)
    ensures ",\"files\":[" + files + "],\"lastSeen\":" + seen + ",\"online\":" + online + "}"
            == FILES_KEY + ((files + "]") + (SEEN_KEY + (seen + (ONLINE_KEY + (online + "}")))))
  {
    assert "],\"lastSeen\":" == "]" + SEEN_KEY;
    Regroup(FILES_KEY + files, "]", SEEN_KEY);
    Regroup(FILES_KEY, files, "]");
    var a := files + "]";
    Regroup(FILES_KEY + a + SEEN_KEY + seen + ONLINE_KEY, online, "}");
    Regroup(FILES_KEY + a + SEEN_KEY + seen, ONLINE_KEY, online + "}");
    Regroup(FILES_KEY + a + SEEN_KEY, seen, ONLINE_KEY + (online + "}"));
    Regroup(FILES_KEY + a, SEEN_KEY, seen + (ONLINE_KEY + (online + "}")));
    Regroup(FILES_KEY, a, SEEN_KEY + (seen + (ONLINE_KEY + (online + "}"))));
  }

  lemma QuietRest(p: PeerInfo)
    requires Sendable(p)
    ensures Quiet(Rest(p)) && Rest(p) != "" && Rest(p)[0] == ',' && Rest(p)[|Rest(p)| - 1] == '}'
  {
    var files, seen, flag := FilesText(p.files) + "]", SignedDecimal(p.lastSeen), if p.online then "true" else "false";
    QuietFiles(p.files, files);
    QuietNumber(p.lastSeen);
    QuietKeys();
    QuietFlag(flag + "}");
    RestParts(FilesText(p.files), seen, flag);
    var t1 := ONLINE_KEY + (flag + "}");
    QuietJoin(t1, ONLINE_KEY, flag + "}");
    var t2 := seen + t1;
    QuietJoin(t2, seen, t1);
    var t3 := SEEN_KEY + t2;
    QuietJoin(t3, SEEN_KEY, t2);
    var t4 := files + t3;
    QuietJoin(t4, files, t3);
    QuietJoin(FILES_KEY + t4, FILES_KEY, t4);
  }

  // ---------- what the scan does with it ----------

  lemma DropJoin(a: string, b: string, i: nat)
    requires i <= |a|
    ensures (a + b)[i..] == a[i..] + b
  {
  }

  lemma DropBeyond(a: string, b: string, i: nat)
    requires i <= |b|
    ensures (a + b)[|a| + i..] == b[i..]
  {
  }

  lemma TakeJoin(a: string, b: string, n: nat)
    requires n <= |a|
    ensures (a + b)[..n] == a[..n] && (a + b)[n..] == a[n..] + b
  {
  }

  /** Only what follows the first opening brace matters. */
  lemma SameTail(a: string, b: string, tail: string)
    requires Find(a, '{') < |a| && tail == a[Find(a, '{')..] && Find(b, '{') < |b| && tail == b[Find(b, '{')..]
    ensures ObjectTexts(a) == ObjectTexts(b)
  {
    var length := Find(tail, '}');
    if length == |tail| {
      ScanStops(a);
      ScanStops(b);
    } else {
      ScanStep(a, tail, length, tail[..length + 1], tail[length + 1..]);
      ScanStep(b, tail, length, tail[..length + 1], tail[length + 1..]);
    }
  }

  lemma SkipGapBefore(t: string, rest: string)
    requires '{' !in t
    ensures ObjectTexts(t + rest) == ObjectTexts(rest)
  {
    FindThrough(t, rest, '{');
    var i := Find(rest, '{');
    if i == |rest| {
      ScanStops(t + rest);
      ScanStops(rest);
    } else {
      DropBeyond(t, rest, i);
      SameTail(t + rest, rest, rest[i..]);
    }
  }

  lemma FindFirst(t: string, rest: string, c: char)
    requires Find(t, c) < |t|
    ensures Find(t + rest, c) == Find(t, c)
  {
    assert c in t by { assert t[Find(t, c)] == c; }
    FindThrough(t, rest, c);
  }

  /** The first text between braces, where it ends before `rest`. */
  lemma OneText(t: string, rest: string, i: nat, u: string, e: nat, item: string, after: string)
    requires i == Find(t, '{') < |t| && u == t[i..] && e == Find(u, '}') < |u|
    requires item == u[..e + 1] && after == u[e + 1..]
    ensures ObjectTexts(t + rest) == [item] + ObjectTexts(after + rest)
  {
    FindFirst(t, rest, '{');
    DropJoin(t, rest, i);
    FindFirst(u, rest, '}');
    TakeJoin(u, rest, e + 1);
    ScanStep(t + rest, u + rest, e, item, after + rest);
  }

  predicate Closed(t: string) {
    t == "" || t[|t| - 1] == '}'
  }

  /** In text that closes what it opens, the first text between braces, and what is left behind it. */
  lemma FirstPart(t: string, rest: string) returns (item: string, after: string)
    requires Quiet(t) && Closed(t) && Find(t, '{') < |t|
    ensures ObjectTexts(t + rest) == [item] + ObjectTexts(after + rest)
    ensures Quiet(item) && Quiet(after) && Closed(after) && |after| < |t|
  {
    var i := Find(t, '{');
    var u := t[i..];
    LastIsFound(u);
    var e := Find(u, '}');
    item, after := u[..e + 1], u[e + 1..];
    OneText(t, rest, i, u, e, item, after);
    QuietParts(t, i, u, e + 1, item, after);
  }

  lemma QuietParts(t: string, i: nat, u: string, n: nat, item: string, after: string)
    requires Quiet(t) && Closed(t) && i <= |t| && u == t[i..] && 0 < n <= |u| && item == u[..n] && after == u[n..]
    ensures Quiet(item) && Quiet(after) && Closed(after) && |after| < |t|
  {
    assert item == t[i..i + n] && after == t[i + n..|t|];
    QuietPart(t, i, i + n);
    QuietPart(t, i + n, |t|);
  }

  lemma LastIsFound(u: string)
    requires u != "" && u[|u| - 1] == '}'
    ensures Find(u, '}') < |u|
  {
    assert u[..|u|] == u && u[|u| - 1] in u;
  }

  /** Text that closes what it opens and gives the scan nothing is passed over, however it is cut up. */
  lemma {:induction false} LeftoverGivesNothing(f: string -> seq<PeerEndpoint>, t: string, rest: string)
    requires Deaf(f) && Quiet(t) && Closed(t)
    ensures Collect(f, ObjectTexts(t + rest)) == Collect(f, ObjectTexts(rest))
    decreases |t|
  {
    if Find(t, '{') == |t| {
      assert t[..|t|] == t;
      SkipGapBefore(t, rest);
    } else {
      var item, after := FirstPart(t, rest);
      LeftoverGivesNothing(f, after, rest);
      CollectFirst(f, item, ObjectTexts(after + rest));
    }
  }

  lemma CollectFirst(f: string -> seq<PeerEndpoint>, text: string, texts: seq<string>)
    ensures Collect(f, [text] + texts) == f(text) + Collect(f, texts)
  {
    CollectSplit(f, [text], texts);
    assert [] + [text] == [text];
    CollectOneMore(f, [], text);
  }

  lemma {:induction false} CollectSplit(f: string -> seq<PeerEndpoint>, a: seq<string>, b: seq<string>)
    ensures Collect(f, a + b) == Collect(f, a) + Collect(f, b)
  {
    if b == [] {
      assert a + b == a;
    } else {
      var shorter, text := b[..|b| - 1], b[|b| - 1];
      CollectSplit(f, a, shorter);
      assert b == shorter + [text];
      assert a + b == (a + shorter) + [text];
      CollectOneMore(f, a + shorter, text);
      CollectOneMore(f, shorter, text);
      RegroupFound(Collect(f, a), Collect(f, shorter), f(text));
    }
  }

  lemma RegroupFound(a: seq<PeerEndpoint>, b: seq<PeerEndpoint>, c: seq<PeerEndpoint>)
    ensures (a + b) + c == a + (b + c)
  {
  }

  // ---------- one object ----------

  /** The part of an object up to the port, behind its brace. */
  function Front(p: PeerInfo): string {
    Pair("peerId", p.peerId) + "," + (Pair("ip", p.ip) + "," + (PORT_NEEDLE + SignedDecimal(p.port)))
  }

  lemma FrontAndRest(p: PeerInfo, behind: string)
    ensures BehindBrace(p, behind) == Front(p) + behind
  {
    Regroup(PORT_NEEDLE, SignedDecimal(p.port), behind);
    Regroup(Pair("ip", p.ip) + ",", PORT_NEEDLE + SignedDecimal(p.port), behind);
    Regroup(Pair("peerId", p.peerId) + ",", Pair("ip", p.ip) + "," + (PORT_NEEDLE + SignedDecimal(p.port)), behind);
  }

  lemma JoinUnclosed(s: string, a: string, b: string)
    requires s == a + b && '}' !in a && '}' !in b
    ensures '}' !in s
  {
  }

  lemma FrontUnclosed(p: PeerInfo)
    requires Sendable(p)
    ensures '}' !in Front(p)
  {
    PlainHasNoQuote(p.peerId);
    PlainHasNoQuote(p.ip);
    QuietNumber(p.port);
    var port := PORT_NEEDLE + SignedDecimal(p.port);
    JoinUnclosed(port, PORT_NEEDLE, SignedDecimal(p.port));
    PairUnclosed("ip", p.ip);
    PairUnclosed("peerId", p.peerId);
    var ip := Pair("ip", p.ip) + "," + port;
    JoinUnclosed(ip, Pair("ip", p.ip) + ",", port);
    JoinUnclosed(Front(p), Pair("peerId", p.peerId) + ",", ip);
  }

  lemma PairUnclosed(key: string, value: string)
    requires '}' !in key && '}' !in value
    ensures '}' !in Pair(key, value) + ","
  {
  }

  /** What the scan takes for the object: up to the first closing brace behind the port. */
  function Cut(p: PeerInfo): string {
    "{" + (Front(p) + UpTo(Rest(p)))
  }

  function UpTo(t: string): string {
    if Find(t, '}') < |t| then t[..Find(t, '}') + 1] else t
  }

  function Beyond(t: string): string {
    if Find(t, '}') < |t| then t[Find(t, '}') + 1..] else ""
  }

  /** Where an object starts and where the scan ends it. */
  lemma CutPlace(t: string, gap: string, whole: string, front: string, rest: string, k: nat, e: nat)
    requires '{' !in gap && '}' !in front && k == Find(rest, '}') < |rest| && e == 1 + |front| + k
    requires whole == "{" + (front + rest) && t == gap + whole
    ensures Find(t, '{') == |gap| < |t| && t[|gap|..] == whole && Find(whole, '}') == e < |whole|
  {
    FindThrough(gap, whole, '{');
    Regroup("{", front, rest);
    FindThrough("{" + front, rest, '}');
  }

  lemma UpToIs(rest: string, k: nat)
    requires k == Find(rest, '}') < |rest|
    ensures UpTo(rest) == rest[..k + 1] && Beyond(rest) == rest[k + 1..]
  {
  }

  lemma SlicesAt(whole: string, front: string, rest: string, k: nat, e: nat, upTo: string, beyond: string, item: string)
    requires k < |rest| && e == 1 + |front| + k && whole == "{" + (front + rest)
    requires upTo == rest[..k + 1] && beyond == rest[k + 1..] && item == "{" + (front + upTo)
    ensures e < |whole| && item == whole[..e + 1] && beyond == whole[e + 1..]
  {
    Regroup("{", front, rest);
    Regroup("{", front, upTo);
    TakeBehind("{" + front, rest, k + 1);
    assert |"{" + front| + (k + 1) == e + 1;
  }

  lemma TakeBehind(a: string, b: string, n: nat)
    requires n <= |b|
    ensures (a + b)[..|a| + n] == a + b[..n] && (a + b)[|a| + n..] == b[n..]
  {
  }

  lemma CutAt(t: string, gap: string, whole: string, front: string, rest: string, after: string, k: nat, e: nat,
              upTo: string, beyond: string, item: string)
    requires '{' !in gap && '}' !in front && k == Find(rest, '}') < |rest| && e == 1 + |front| + k
    requires whole == "{" + (front + rest) && t == gap + whole && upTo == rest[..k + 1] && beyond == rest[k + 1..]
    requires item == "{" + (front + upTo)
    ensures ObjectTexts(t + after) == [item] + ObjectTexts(beyond + after)
  {
    CutPlace(t, gap, whole, front, rest, k, e);
    SlicesAt(whole, front, rest, k, e, upTo, beyond, item);
    OneText(t, after, |gap|, whole, e, item, beyond);
  }

  /** The scan of an object that starts behind `gap`: its cut, and then what is left of it and the text behind it. */
  lemma CutFirst(t: string, gap: string, whole: string, front: string, rest: string, after: string)
    requires '{' !in gap && '}' !in front && Find(rest, '}') < |rest|
    requires whole == "{" + (front + rest) && t == gap + whole
    ensures ObjectTexts(t + after) == ["{" + (front + UpTo(rest))] + ObjectTexts(Beyond(rest) + after)
  {
    UpToIs(rest, Find(rest, '}'));
    var k := Find(rest, '}');
    CutAt(t, gap, whole, front, rest, after, k, 1 + |front| + k, UpTo(rest), Beyond(rest), "{" + (front + UpTo(rest)));
  }

  lemma CutReads(p: PeerInfo)
    requires Sendable(p)
    ensures Entry(Cut(p)) == [Endpoint(p)]
  {
    QuietRest(p);
    FrontAndRest(p, UpTo(Rest(p)));
    ObjectEntry(Cut(p), p, UpTo(Rest(p)));
  }

  // ---------- the whole list ----------

  ghost predicate Reads(f: string -> seq<PeerEndpoint>, peers: seq<PeerInfo>) {
    forall k :: 0 <= k < |peers| ==> f(Cut(peers[k])) == [Endpoint(peers[k])]
  }

  ghost predicate AllSendable(peers: seq<PeerInfo>) {
    forall k :: 0 <= k < |peers| ==> Sendable(peers[k])
  }

  lemma ObjectsStep(peers: seq<PeerInfo>, gap: string, comma: string)
    requires peers != [] && comma == if |peers| > 1 then "," else ""
    ensures gap + Objects(peers)
            == gap + ("{" + (Front(peers[0]) + Rest(peers[0]))) + (comma + Objects(peers[1..]))
  {
    ObjectParts(peers[0]);
    FrontAndRest(peers[0], Rest(peers[0]));
    Regroup(gap, Object(peers[0]), comma + Objects(peers[1..]));
  }

  lemma {:induction false} ScanFrom(f: string -> seq<PeerEndpoint>, s: string, gap: string, peers: seq<PeerInfo>)
    requires Deaf(f) && Reads(f, peers) && AllSendable(peers) && '{' !in gap && s == gap + Objects(peers)
    ensures Collect(f, ObjectTexts(s)) == Endpoints(peers)
    decreases |peers|
  {
    if peers == [] {
      SkipGapBefore(s, "");
      assert s + "" == s && ObjectTexts("") == [];
    } else {
      ScanFirst(f, s, gap, peers);
    }
  }

  lemma {:induction false} ScanFirst(f: string -> seq<PeerEndpoint>, s: string, gap: string, peers: seq<PeerInfo>)
    requires peers != []
    requires Deaf(f) && Reads(f, peers) && AllSendable(peers) && '{' !in gap && s == gap + Objects(peers)
    ensures Collect(f, ObjectTexts(s)) == Endpoints(peers)
    decreases |peers|, 0
  {
    var comma := if |peers| > 1 then "," else "";
    var after := comma + Objects(peers[1..]);
    ObjectsStep(peers, gap, comma);
    ScanOne(f, gap + ("{" + (Front(peers[0]) + Rest(peers[0]))), gap, peers[0], after);
    ScanFrom(f, after, comma, peers[1..]);
  }

  lemma ScanOne(f: string -> seq<PeerEndpoint>, t: string, gap: string, p: PeerInfo, after: string)
    requires Deaf(f) && f(Cut(p)) == [Endpoint(p)] && Sendable(p)
    requires '{' !in gap && t == gap + ("{" + (Front(p) + Rest(p)))
    ensures Collect(f, ObjectTexts(t + after)) == [Endpoint(p)] + Collect(f, ObjectTexts(after))
  {
    FrontUnclosed(p);
    QuietRest(p);
    LastIsFound(Rest(p));
    CutFirst(t, gap, "{" + (Front(p) + Rest(p)), Front(p), Rest(p), after);
    CollectFirst(f, Cut(p), ObjectTexts(Beyond(Rest(p)) + after));
    QuietBeyond(Rest(p));
    LeftoverGivesNothing(f, Beyond(Rest(p)), after);
  }

  lemma QuietBeyond(t: string)
    requires Quiet(t) && t != "" && t[|t| - 1] == '}'
    ensures Quiet(Beyond(t)) && Closed(Beyond(t))
  {
    var k := Find(t, '}');
    if k < |t| {
      QuietPart(t, k + 1, |t|);
      assert t[k + 1..] == t[k + 1..|t|];
    }
  }

  /** Scanning rendered peers gives exactly the endpoints as they are written there, in order. */
  lemma ScanReadsRendered(peers: seq<PeerInfo>)
    requires AllSendable(peers)
    ensures ScanObjects(PeersText(peers)) == Endpoints(peers)
  {
    forall item | Quiet(item)
      ensures Entry(item) == []
    {
      QuietGivesNothing(item);
    }
    forall k | 0 <= k < |peers|
      ensures Entry(Cut(peers[k])) == [Endpoint(peers[k])]
    {
      CutReads(peers[k]);
    }
    ScanFrom(Entry, PeersText(peers), "[", peers);
  }

  // ---------- what the scan can return at all ----------

  /** Neither empty nor with a quote or a closing brace; a port in range. */
  predicate Returnable(e: PeerEndpoint) {
    e.peerId != "" && Plain(e.peerId) && e.ip != "" && Plain(e.ip) && 1 <= e.port <= INT_MAX
  }

  /** A text that ends with its first closing brace. */
  predicate ClosedOnce(text: string) {
    text != "" && '}' !in text[..|text| - 1]
  }

  lemma {:induction false} TextsClosedOnce(s: string)
    ensures forall k :: 0 <= k < |ObjectTexts(s)| ==> ClosedOnce(ObjectTexts(s)[k])
    decreases |s|
  {
    var i := Find(s, '{');
    if i < |s| {
      var u := s[i..];
      var e := Find(u, '}');
      if e < |u| {
        TextsClosedOnce(u[e + 1..]);
        assert u[..e + 1][..e] == u[..e];
      }
    }
  }

  lemma StringReturnable(item: string, key: string)
    requires ClosedOnce(item)
    ensures Plain(ExtractString(item, key))
  {
    var needle := StringNeedle(key);
    if TextBehind(item, needle).Some? {
      var start := FindText(item, needle).value + |needle|;
      var rest := item[start..];
      var end := Find(rest, '"');
      if end < |rest| {
        PlainPart(item, start, end);
      }
    }
  }

  lemma PlainPart(item: string, start: nat, n: nat)
    requires ClosedOnce(item) && start + n < |item| && '"' !in item[start..][..n]
    ensures Plain(item[start..][..n])
  {
    forall k | 0 <= k < n
      ensures item[start..][..n][k] != '"' && item[start..][..n][k] != '}'
    {
      assert item[start..][..n][k] == item[start + k] == item[..|item| - 1][start + k];
    }
  }

  lemma EntryReturnable(item: string, e: PeerEndpoint)
    requires ClosedOnce(item) && e in Entry(item)
    ensures Returnable(e)
  {
    StringReturnable(item, "peerId");
    StringReturnable(item, "ip");
    PortInRange(item);
    assert Entry(item) == [e];
  }

  lemma PortInRange(item: string)
    ensures ExtractInt(item, "port").Some? ==> ExtractInt(item, "port").value <= INT_MAX
  {
  }

  ghost predicate Returns(f: string -> seq<PeerEndpoint>, text: string) {
    forall e :: e in f(text) ==> Returnable(e)
  }

  lemma {:induction false} CollectReturnable(f: string -> seq<PeerEndpoint>, texts: seq<string>, e: PeerEndpoint)
    requires (forall k :: 0 <= k < |texts| ==> Returns(f, texts[k])) && e in Collect(f, texts)
    ensures Returnable(e)
  {
    if texts != [] {
      var n := |texts| - 1;
      assert Returns(f, texts[n]);
      if e in Collect(f, texts[..n]) {
        CollectReturnable(f, texts[..n], e);
      }
    }
  }

  /** Whatever the text: every endpoint that the scan gives is of that kind. */
  lemma ScanReturnable(s: string, e: PeerEndpoint)
    requires e in ScanObjects(s)
    ensures Returnable(e)
  {
    var texts := ObjectTexts(s);
    TextsClosedOnce(s);
    forall k | 0 <= k < |texts|
      ensures Returns(Entry, texts[k])
    {
      forall x | x in Entry(texts[k])
        ensures Returnable(x)
      {
        EntryReturnable(texts[k], x);
      }
    }
    CollectReturnable(Entry, texts, e);
  }

  // ---------- escapes ----------

  lemma EscapeCharLaw(c: char)
    ensures EscapeChar(c) != "" && (EscapeChar(c) == [c] || |EscapeChar(c)| > 1) && Guarded(EscapeChar(c))
    ensures c != '"' && c != '}' ==> Plain(EscapeChar(c))
  {
  }

  /** Escaping guards every quote, brings none in, and changes nothing exactly where all characters are sent as is. */
  lemma {:induction false} EscapedLaw(s: string)
    ensures |Escaped(s)| >= |s| && Guarded(Escaped(s))
    ensures Plain(s) ==> Plain(Escaped(s))
    ensures |Escaped(s)| == |s| <==> AsIs(s)
    ensures Escaped(s) == s <==> AsIs(s)
  {
    if s != "" {
      var c, rest := s[0], s[1..];
      EscapeCharLaw(c);
      EscapedLaw(rest);
      AsIsSplit(s, c, rest);
      GuardedJoin(Escaped(s), EscapeChar(c), Escaped(rest));
      if AsIs(s) {
        assert s == [c] + rest;
      }
    }
  }

  lemma GuardedJoin(s: string, a: string, b: string)
    requires s == a + b && Guarded(a) && Guarded(b)
    ensures Guarded(s)
  {
    forall i | 0 <= i < |s| && s[i] == '"'
      ensures i > 0 && s[i - 1] == '\\'
    {
      if i >= |a| {
        assert s[i] == b[i - |a|];
      }
    }
  }

  lemma AsIsSplit(s: string, c: char, rest: string)
    requires s == [c] + rest
    ensures AsIs(s) <==> EscapeChar(c) == [c] && AsIs(rest)
  {
    assert s[0] == c;
    assert forall i :: 0 <= i < |rest| ==> rest[i] == s[i + 1];
  }

  lemma {:induction false} EscapedAllGuarded(files: seq<string>)
    ensures forall k :: 0 <= k < |EscapedAll(files)| ==> Guarded(EscapedAll(files)[k])
  {
    if files != [] {
      EscapedLaw(files[0]);
      EscapedAllGuarded(files[1..]);
    }
  }

  lemma EncodedSendable(p: PeerInfo)
    requires Returnable(Endpoint(p))
    ensures Sendable(Encoded(p))
    ensures Endpoint(Encoded(p)) == Endpoint(p) <==> AsIs(p.peerId) && AsIs(p.ip)
  {
    EscapedLaw(p.peerId);
    EscapedLaw(p.ip);
    EscapedAllGuarded(p.files);
  }

  predicate AllReturnable(peers: seq<PeerInfo>) {
    forall k :: 0 <= k < |peers| ==> Returnable(Endpoint(peers[k]))
  }

  predicate AllAsIs(peers: seq<PeerInfo>) {
    forall k :: 0 <= k < |peers| ==> AsIs(peers[k].peerId) && AsIs(peers[k].ip)
  }

  lemma {:induction false} EncodedAllLaw(peers: seq<PeerInfo>)
    requires AllReturnable(peers)
    ensures AllSendable(EncodedAll(peers))
    ensures Endpoints(EncodedAll(peers)) == Endpoints(peers) <==> AllAsIs(peers)
    ensures |Endpoints(EncodedAll(peers))| == |Endpoints(peers)|
  {
    if peers != [] {
      var p, rest := peers[0], peers[1..];
      EncodedSendable(p);
      EncodedAllLaw(rest);
      AllAsIsSplit(peers, p, rest);
      EndpointsSplit(Endpoint(Encoded(p)), Endpoints(EncodedAll(rest)), Endpoint(p), Endpoints(rest));
      assert EncodedAll(peers)[1..] == EncodedAll(rest);
    }
  }

  lemma AllAsIsSplit(peers: seq<PeerInfo>, p: PeerInfo, rest: seq<PeerInfo>)
    requires peers == [p] + rest
    ensures AllAsIs(peers) <==> AsIs(p.peerId) && AsIs(p.ip) && AllAsIs(rest)
  {
    assert peers[0] == p;
    assert forall k :: 0 <= k < |rest| ==> rest[k] == peers[k + 1];
  }

  lemma EndpointsSplit(a: PeerEndpoint, as': seq<PeerEndpoint>, b: PeerEndpoint, bs: seq<PeerEndpoint>)
    ensures [a] + as' == [b] + bs <==> a == b && as' == bs
  {
    if [a] + as' == [b] + bs {
      assert ([a] + as')[0] == a && ([b] + bs)[0] == b;
      assert ([a] + as')[1..] == as' && ([b] + bs)[1..] == bs;
    }
  }

  lemma {:induction false} EndpointIn(peers: seq<PeerInfo>, k: nat)
    requires k < |peers|
    ensures Endpoint(peers[k]) in Endpoints(peers)
  {
    if k > 0 {
      EndpointIn(peers[1..], k - 1);
    }
  }

  // ---------- exactly which peers come through ----------

  /** What a peer's id, address and port have to be; its file names do not matter. */
  predicate Readable(p: PeerInfo) {
    Returnable(Endpoint(p)) && AsIs(p.peerId) && AsIs(p.ip)
  }

  /**
   For any peers whatever: scanning the tracker's answer gives exactly their endpoints, in order, just when every
   id and address is nonempty, sent as it is, and without a closing brace, and every port is in range.
   */
  lemma ScanReadsBackIff(peers: seq<PeerInfo>)
    ensures ScanObjects(AnswerText(peers)) == Endpoints(peers)
            <==> forall k :: 0 <= k < |peers| ==> Readable(peers[k])
  {
    if AllReturnable(peers) {
      EncodedAllLaw(peers);
      ScanReadsRendered(EncodedAll(peers));
      assert (forall k :: 0 <= k < |peers| ==> Readable(peers[k])) <==> AllAsIs(peers);
    } else {
      var k :| 0 <= k < |peers| && !Returnable(Endpoint(peers[k]));
      EndpointIn(peers, k);
      if ScanObjects(AnswerText(peers)) == Endpoints(peers) {
        ScanReturnable(AnswerText(peers), Endpoint(peers[k]));
      }
      assert !Readable(peers[k]);
    }
  }

  // ---------- two peers that do not come through ----------

  lemma OnePeerScanned(p: PeerInfo)
    requires Returnable(Endpoint(p))
    ensures ScanObjects(AnswerText([p])) == [Endpoint(Encoded(p))]
  {
    EncodedSendable(p);
    assert [p][1..] == [];
    assert EncodedAll([p]) == [Encoded(p)] && [Encoded(p)][1..] == [];
    ScanReadsRendered([Encoded(p)]);
  }

  lemma EscapedStep(s: string, c: char, rest: string, escaped: string)
    requires s == [c] + rest && escaped == EscapeChar(c) + Escaped(rest)
    ensures Escaped(s) == escaped
  {
    assert s[1..] == rest;
  }

  lemma AmpersandEscaped()
    ensures Escaped("a&b") == "a\\u0026b"
  {
    EscapedStep("b", 'b', "", "b");
    EscapedStep("&b", '&', "b", "\\u0026b");
    EscapedStep("a&b", 'a', "&b", "a\\u0026b");
  }

  /** An id with an ampersand: the scan returns the escape in its place. */
  lemma AmpersandStaysEscaped(p: PeerInfo)
    requires Returnable(Endpoint(p)) && p.peerId == "a&b"
    ensures ScanObjects(AnswerText([p])) == [PeerEndpoint("a\\u0026b", Escaped(p.ip), p.port)]
    ensures ScanObjects(AnswerText([p])) != [Endpoint(p)]
  {
    OnePeerScanned(p);
    AmpersandEscaped();
    assert Endpoint(Encoded(p)).peerId != p.peerId by { assert |"a\\u0026b"| != |"a&b"|; }
  }

  /** A peer with a quote or a closing brace in its id is never among the peers that a scan gives. */
  lemma BrokenIdIsLost(p: PeerInfo, body: string)
    requires '"' in p.peerId || '}' in p.peerId
    ensures Endpoint(p) !in ScanObjects(body)
  {
    if Endpoint(p) in ScanObjects(body) {
      ScanReturnable(body, Endpoint(p));
      PlainHasNoQuote(p.peerId);
    }
  }
}
