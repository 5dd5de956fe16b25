/** The tracker's JSON answer and the hand-written scan that takes the peers out of it. */
module PeerJson {
  import opened Options
  import opened Hex
  import opened Text
  import opened TrackerStore
  import opened PeerList

  // ---------- finding text ----------

  /** `string::find`: the first position at which `needle` starts. */
  function FindText(s: string, needle: string): (r: Option<nat>)
    ensures r.Some? ==> r.value + |needle| <= |s|
  {
    if needle <= s then Some(0)
    else if s == "" then None
    else Shift(1, FindText(s[1..], needle))
  }

  function Shift(n: nat, r: Option<nat>): Option<nat> {
    match r
    case None => None
    case Some(i) => Some(n + i)
  }

  predicate StartsAt(s: string, needle: string, i: nat) {
    i + |needle| <= |s| && s[i..i + |needle|] == needle
  }

  lemma StartsAtNext(s: string, needle: string, i: nat)
    requires s != "" && i > 0
    ensures StartsAt(s, needle, i) <==> StartsAt(s[1..], needle, i - 1)
  {
    if i + |needle| <= |s| {
      assert s[1..][i - 1..i - 1 + |needle|] == s[i..i + |needle|];
    }
  }

  /** The place is where the text occurs, and it occurs nowhere before; or it occurs nowhere. */
  lemma {:induction false} FindTextIs(s: string, needle: string)
    ensures match FindText(s, needle)
            case Some(n) => StartsAt(s, needle, n) && forall i :: 0 <= i < n ==> !StartsAt(s, needle, i)
            case None => forall i: nat :: !StartsAt(s, needle, i)
  {
    if !(needle <= s) && s != "" {
      FindTextIs(s[1..], needle);
      forall i: nat | i > 0
        ensures StartsAt(s, needle, i) <==> StartsAt(s[1..], needle, i - 1)
      {
        StartsAtNext(s, needle, i);
      }
      assert !StartsAt(s, needle, 0) by { assert s[0..] == s; }
    }
  }

  // ---------- the scan ----------

  /** What stands behind the first occurrence of `needle`. */
  function TextBehind(item: string, needle: string): Option<string> {
    match FindText(item, needle)
    case None => None
    case Some(start) => Some(item[start + |needle|..])
  }

  function ExtractString(item: string, key: string): string {
    match TextBehind(item, "\"" + key + "\":\"")
    case None => ""
    case Some(rest) =>
      var end := Find(rest, '"');
      if end == |rest| then "" else rest[..end]
  }

  function ExtractInt(item: string, key: string): Option<int> {
    match TextBehind(item, "\"" + key + "\":")
    case None => None
    case Some(rest) => LeadingNumber(rest)
  }

  /** The digits at the front, as `stoi` reads them: none, or too large a number, is no number. */
  function LeadingNumber(rest: string): Option<int> {
    var n := DigitCount(rest);
    if n == 0 || Value(rest[..n]) > INT_MAX then None else Some(Value(rest[..n]))
  }

  method ExtractJsonIntField(item: string, key: string) returns (ok: bool, value: int)
    ensures if ok then ExtractInt(item, key) == Some(value) else ExtractInt(item, key) == None
  {
    value := 0;
    var needle := "\"" + key + "\":";
    var found := FindText(item, needle);
    if found.None? {
      return false, value;
    }
    var start := found.value + |needle|;
    var end := start;
    ghost var rest := item[start..];
    assert rest[0..] == rest;
    while end < |item| && IsDigit(item[end])
      invariant start <= end <= |item|
      invariant DigitCount(rest) == end - start + DigitCount(item[end..])
    {
      assert item[end..][1..] == item[end + 1..];
      end := end + 1;
    }
    assert item[start..end] == rest[..DigitCount(rest)];
    if end == start {
      return false, value;
    }
    var number := Value(item[start..end]);
    if number > INT_MAX {
      return false, value;
    }
    ok, value := true, number;
  }

  /** The endpoint of one object, if it has all three fields and a positive port. */
  function Entry(item: string): seq<PeerEndpoint> {
    var peerId, ip, port := ExtractString(item, "peerId"), ExtractString(item, "ip"), ExtractInt(item, "port");
    if peerId != "" && ip != "" && port.Some? && port.value > 0 then [PeerEndpoint(peerId, ip, port.value)] else []
  }

  /** The texts between braces that the scan takes for objects. */
  function ObjectTexts(body: string): seq<string>
    decreases |body|
  {
    var start := Find(body, '{');
    if start == |body| then []
    else
      var rest := body[start..];
      var end := Find(rest, '}');
      if end == |rest| then [] else [rest[..end + 1]] + ObjectTexts(rest[end + 1..])
  }

  /** What `f` gives for each text in turn, put together. */
  function Collect(f: string -> seq<PeerEndpoint>, texts: seq<string>): seq<PeerEndpoint> {
    if texts == [] then []
    else Collect(f, texts[..|texts| - 1]) + f(texts[|texts| - 1])
  }

  /** The endpoints that the scan of a body gives. */
  function ScanObjects(body: string): seq<PeerEndpoint> {
    Collect(Entry, ObjectTexts(body))
  }

  lemma CollectOneMore(f: string -> seq<PeerEndpoint>, texts: seq<string>, text: string)
    ensures Collect(f, texts + [text]) == Collect(f, texts) + f(text)
  {
    assert (texts + [text])[..|texts|] == texts;
  }

  /** Nothing more is found when no object starts, or none ends. */
  lemma ScanStops(rest: string)
    requires Find(rest, '{') == |rest| || Find(rest[Find(rest, '{')..], '}') == |rest[Find(rest, '{')..]|
    ensures ObjectTexts(rest) == []
  {
  }

  /** One object further on. */
  lemma ScanStep(rest: string, tail: string, length: nat, item: string, after: string)
    requires Find(rest, '{') < |rest| && tail == rest[Find(rest, '{')..]
    requires length == Find(tail, '}') < |tail| && item == tail[..length + 1] && after == tail[length + 1..]
    ensures ObjectTexts(rest) == [item] + ObjectTexts(after)
  {
  }

  /** The next object in what is left, as the scan looks for its two braces, and what is left behind it. */
  method NextObject(rest: string) returns (found: bool, objectText: string, after: string)
    ensures if found then |after| < |rest| && ObjectTexts(rest) == [objectText] + ObjectTexts(after)
            else ObjectTexts(rest) == []
  {
    found, objectText, after := false, "", rest;
    var objStart := Find(rest, '{');
    if objStart == |rest| {
      ScanStops(rest);
      return;
    }
    var tail := rest[objStart..];
    var length := Find(tail, '}');
    if length == |tail| {
      ScanStops(rest);
      return;
    }
    found, objectText, after := true, tail[..length + 1], tail[length + 1..];
    ScanStep(rest, tail, length, objectText, after);
  }

  /** What `f` gives for the texts done, when one more is done and the others are still to do. */
  lemma CollectNext(f: string -> seq<PeerEndpoint>, all: seq<string>, texts: seq<string>, left: seq<string>,
                    text: string, left': seq<string>)
    requires all == texts + left && left == [text] + left'
    ensures all == (texts + [text]) + left'
    ensures Collect(f, texts + [text]) == Collect(f, texts) + f(text)
  {
    CollectOneMore(f, texts, text);
  }

  lemma CollectDone(f: string -> seq<PeerEndpoint>, all: seq<string>, texts: seq<string>, left: seq<string>)
    requires all == texts + left && left == []
    ensures Collect(f, texts) == Collect(f, all)
  {
    assert all == texts;
  }

  method ScanPeers(body: string) returns (peers: seq<PeerEndpoint>)
    ensures peers == ScanObjects(body)
  {
    peers := [];
    var rest := body;
    ghost var texts: seq<string>, all, left := [], ObjectTexts(body), ObjectTexts(body);
    while true
      invariant all == texts + left && left == ObjectTexts(rest)
      invariant peers == Collect(Entry, texts)
      decreases |rest|
    {
      var found, objectText, after := NextObject(rest);
      if !found {
        CollectDone(Entry, all, texts, left);
        break;
      }
      var one := ScanObject(objectText);
      peers := peers + one;
      CollectNext(Entry, all, texts, left, objectText, ObjectTexts(after));
      texts, left, rest := texts + [objectText], ObjectTexts(after), after;
    }
  }

  /** The fields of one object, and the endpoint if they are all there. */
  method ScanObject(objectText: string) returns (found: seq<PeerEndpoint>)
    ensures found == Entry(objectText)
  {
    found := [];
    var peerId := ExtractString(objectText, "peerId");
    var ip := ExtractString(objectText, "ip");
    if peerId != "" && ip != "" {
      var ok, port := ExtractJsonIntField(objectText, "port");
      if ok && port > 0 {
        found := [PeerEndpoint(peerId, ip, port)];
      }
    }
  }

  // ---------- what the tracker sends ----------

  /** Neither of the characters that would end the string, or the object, for the scan. */
  predicate Plain(s: string) {
    forall i :: 0 <= i < |s| ==> s[i] != '"' && s[i] != '}'
  }

  /** Every quote has a backslash in front of it. */
  predicate Guarded(s: string) {
    forall i :: 0 <= i < |s| && s[i] == '"' ==> i > 0 && s[i - 1] == '\\'
  }

  /** What the tracker's encoder makes of one character of a string. */
  function EscapeChar(c: char): string {
    if c == '"' then "\\\""
    else if c == '\\' then "\\\\"
    else if c == '\U{0008}' then "\\b"
    else if c == '\U{000C}' then "\\f"
    else if c == '\n' then "\\n"
    else if c == '\r' then "\\r"
    else if c == '\t' then "\\t"
    else if c < ' ' || c == '<' || c == '>' || c == '&' then
      "\\u00" + [HexDigit(c as int / 16), HexDigit(c as int % 16)]
    else if c == '\U{2028}' then "\\u2028"
    else if c == '\U{2029}' then "\\u2029"
    else [c]
  }

  function Escaped(s: string): string {
    if s == "" then "" else EscapeChar(s[0]) + Escaped(s[1..])
  }

  function EscapedAll(files: seq<string>): seq<string> {
    if files == [] then [] else [Escaped(files[0])] + EscapedAll(files[1..])
  }

  /** The characters that are sent as they are. */
  predicate AsIs(s: string) {
    forall i :: 0 <= i < |s| ==> EscapeChar(s[i]) == [s[i]]
  }

  function Quoted(s: string): string {
    "\"" + s + "\""
  }

  function Pair(key: string, value: string): string {
    Quoted(key) + ":" + Quoted(value)
  }

  function FilesText(files: seq<string>): string {
    if files == [] then ""
    else if |files| == 1 then Quoted(files[0])
    else Quoted(files[0]) + "," + FilesText(files[1..])
  }

  /** Everything behind the port. */
  function Tail(p: PeerInfo): string {
    ",\"files\":[" + FilesText(p.files) + "],\"lastSeen\":" + SignedDecimal(p.lastSeen)
    + ",\"online\":" + (if p.online then "true" else "false")
  }

  function Inner(p: PeerInfo): string {
    Pair("peerId", p.peerId) + "," + (Pair("ip", p.ip) + "," + ("\"port\":" + SignedDecimal(p.port) + Tail(p)))
  }

  function Object(p: PeerInfo): string {
    "{" + Inner(p) + "}"
  }

  /** The objects from the first on, each but the last with a comma, and the end of the array. */
  function Objects(peers: seq<PeerInfo>): string {
    if peers == [] then "]\n"
    else Object(peers[0]) + ((if |peers| > 1 then "," else "") + Objects(peers[1..]))
  }

  function PeersText(peers: seq<PeerInfo>): string {
    "[" + Objects(peers)
  }

  function Encoded(p: PeerInfo): PeerInfo {
    p.(peerId := Escaped(p.peerId), ip := Escaped(p.ip), files := EscapedAll(p.files))
  }

  function EncodedAll(peers: seq<PeerInfo>): seq<PeerInfo> {
    if peers == [] then [] else [Encoded(peers[0])] + EncodedAll(peers[1..])
  }

  /** The body of the tracker's answer: the peers with their strings escaped. */
  function AnswerText(peers: seq<PeerInfo>): string {
    PeersText(EncodedAll(peers))
  }

  /** Strings as an object holds them that the scan can read: id and address plain, file names escaped. */
  predicate Sendable(p: PeerInfo) {
    && Plain(p.peerId) && p.peerId != "" && Plain(p.ip) && p.ip != ""
    && 1 <= p.port <= INT_MAX
    && forall k :: 0 <= k < |p.files| ==> Guarded(p.files[k])
  }

  function Endpoint(p: PeerInfo): PeerEndpoint {
    PeerEndpoint(p.peerId, p.ip, p.port)
  }

  function Endpoints(peers: seq<PeerInfo>): seq<PeerEndpoint> {
    if peers == [] then [] else [Endpoint(peers[0])] + Endpoints(peers[1..])
  }

  // ---------- finding a key ----------

  /** Text without a quote is passed over. */
  lemma {:induction false} SkipQuiet(s: string, quiet: string, rest: string, needle: string)
    requires s == quiet + rest && '"' !in quiet && needle != "" && needle[0] == '"'
    ensures FindText(s, needle) == Shift(|quiet|, FindText(rest, needle))
  {
    if quiet == "" {
      assert s == rest;
    } else {
      assert s[0] == quiet[0] && quiet[0] in quiet;
      assert s[1..] == quiet[1..] + rest;
      SkipQuiet(s[1..], quiet[1..], rest, needle);
    }
  }

  lemma SkipOne(s: string, needle: string)
    requires s != "" && !(needle <= s)
    ensures FindText(s, needle) == Shift(1, FindText(s[1..], needle))
  {
  }

  /** A quoted word that is not the key, or that no colon follows, is passed over. */
  lemma SkipQuoted(s: string, word: string, rest: string, needle: string, key: string)
    requires s == Quoted(word) + rest && '"' !in word && '"' !in key
    requires key != "" && Quoted(key) + ":" <= needle
    requires rest != "" && rest[0] != key[0] && (word != key || rest[0] != ':')
    ensures FindText(s, needle) == Shift(|word| + 2, FindText(rest, needle))
  {
    OtherWord(s, word, rest, needle, key);
    QuotedSplit(word, rest);
    NeedleStart(needle, key);
    SkipBehindQuote(s, word + ("\"" + rest), word, "\"" + rest, rest, needle);
  }

  lemma NeedleStart(needle: string, key: string)
    requires key != "" && Quoted(key) + ":" <= needle
    ensures |needle| >= 2 && needle[0] == '"' && needle[1] == key[0]
  {
  }

  lemma QuotedSplit(word: string, rest: string)
    ensures Quoted(word) + rest == "\"" + (word + ("\"" + rest))
  {
    Regroup("\"" + word, "\"", rest);
    Regroup("\"", word, "\"" + rest);
  }

  lemma SkipBehindQuote(s: string, inside: string, word: string, closing: string, rest: string, needle: string)
    requires s == "\"" + inside && inside == word + closing && closing == "\"" + rest
    requires '"' !in word && !(needle <= s) && |needle| >= 2 && needle[0] == '"'
    requires rest != "" && rest[0] != needle[1]
    ensures FindText(s, needle) == Shift(|word| + 2, FindText(rest, needle))
  {
    SkipOne(s, needle);
    assert s[1..] == inside;
    SkipQuiet(inside, word, closing, needle);
    assert closing[1] == rest[0];
    SkipOne(closing, needle);
    assert closing[1..] == rest;
  }

  lemma OtherWord(s: string, word: string, rest: string, needle: string, key: string)
    requires s == Quoted(word) + rest && '"' !in word && '"' !in key
    requires Quoted(key) + ":" <= needle
    requires rest != "" && (word != key || rest[0] != ':')
    ensures !(needle <= s)
  {
    var q := Quoted(key) + ":";
    assert q == needle[..|q|];
    assert needle <= s ==> |q| <= |s| && q == s[..|q|];
    assert s[|word| + 1] == '"' && s[|word| + 2] == rest[0];
    assert forall i :: 0 <= i < |word| ==> s[i + 1] == word[i];
    assert q[|key| + 1] == '"' && q[|key| + 2] == ':';
    assert forall i :: 0 <= i < |key| ==> q[i + 1] == key[i];
    if |word| == |key| && (forall i :: 0 <= i < |key| ==> word[i] == key[i]) {
      assert word == key;
    }
  }

  /** A pair with another key is passed over, whatever its value says. */
  lemma SkipPair(s: string, k: string, value: string, rest: string, needle: string, key: string)
    requires s == Pair(k, value) + "," + rest && '"' !in k && '"' !in value && '"' !in key
    requires key != "" && key[0] != ':' && key[0] != ',' && k != key && Quoted(key) + ":" <= needle
    ensures FindText(s, needle) == Shift(|Pair(k, value)| + 1, FindText(rest, needle))
  {
    PairSplit(Quoted(k), Quoted(value), rest);
    var behindKey := Quoted(value) + ("," + rest);
    SkipParts(s, k, ":" + behindKey, behindKey, value, "," + rest, rest, needle, key);
  }

  lemma PairSplit(q: string, v: string, rest: string)
    ensures q + ":" + v + "," + rest == q + (":" + (v + ("," + rest)))
  {
    Regroup(q + ":" + v, ",", rest);
    Regroup(q + ":", v, "," + rest);
    Regroup(q, ":", v + ("," + rest));
  }

  lemma SkipParts(s: string, k: string, s1: string, s2: string, value: string, s3: string, rest: string,
                  needle: string, key: string)
    requires s == Quoted(k) + s1 && s1 == ":" + s2 && s2 == Quoted(value) + s3 && s3 == "," + rest
    requires '"' !in k && '"' !in value && '"' !in key
    requires key != "" && key[0] != ':' && key[0] != ',' && k != key && Quoted(key) + ":" <= needle
    ensures FindText(s, needle) == Shift(|k| + |value| + 6, FindText(rest, needle))
  {
    SkipWordAndMark(s, k, s1, ":", s2, needle, key);
    SkipWordAndMark(s2, value, s3, ",", rest, needle, key);
  }

  /** A quoted word that is not the key, and the colon or comma behind it. */
  lemma SkipWordAndMark(s: string, word: string, s1: string, mark: string, rest: string, needle: string, key: string)
    requires s == Quoted(word) + s1 && s1 == mark + rest && '"' !in word && '"' !in key
    requires (mark == ":" && word != key) || mark == ","
    requires key != "" && key[0] != mark[0] && Quoted(key) + ":" <= needle
    ensures FindText(s, needle) == Shift(|word| + 3, FindText(rest, needle))
  {
    NeedleStart(needle, key);
    SkipQuoted(s, word, s1, needle, key);
    SkipQuiet(s1, mark, rest, needle);
  }

  lemma PlainHasNoQuote(s: string)
    requires Plain(s)
    ensures '"' !in s && '}' !in s
  {
  }

  // ---------- one object ----------

  function StringNeedle(key: string): string {
    "\"" + key + "\":\""
  }

  /** What stands in front of a value in a pair. */
  lemma PairNeedle(key: string, value: string, rest: string)
    ensures Pair(key, value) + rest == StringNeedle(key) + (value + "\"" + rest)
  {
    var k := "\"" + key;
    var v := "\"" + value;
    assert StringNeedle(key) == k + "\"" + ":" + "\"";
    Regroup(k + "\"" + ":", v + "\"", rest);
    Regroup(v, "\"", rest);
    Regroup("\"", value, "\"" + rest);
    Regroup(k + "\"" + ":", "\"", value + ("\"" + rest));
    Regroup(value, "\"", rest);
  }

  lemma DropFront(s: string, n: nat, behind: string, front: string, rest: string)
    requires n <= |s| && s[n..] == behind && behind == front + rest
    ensures n + |front| <= |s| && s[n + |front|..] == rest
  {
  }

  /** A needle found `n` characters in, at the front of what is behind them. */
  lemma FoundBehind(item: string, n: nat, behind: string, needle: string, rest: string)
    requires FindText(item, needle) == Shift(n, FindText(behind, needle))
    requires n <= |item| && item[n..] == behind && behind == needle + rest
    ensures TextBehind(item, needle) == Some(rest)
  {
    DropFront(item, n, behind, needle, rest);
    FoundAtFront(behind, needle, rest);
    TextAt(item, needle, n, rest);
  }

  lemma TextAt(item: string, needle: string, start: nat, rest: string)
    requires FindText(item, needle) == Some(start) && item[start + |needle|..] == rest
    ensures TextBehind(item, needle) == Some(rest)
  {
  }

  lemma FoundAtFront(behind: string, needle: string, rest: string)
    requires behind == needle + rest
    ensures FindText(behind, needle) == Some(0)
  {
    assert behind[..|needle|] == needle;
  }

  lemma UpToQuote(text: string, value: string, rest: string)
    requires text == value + "\"" + rest && '"' !in value
    ensures Find(text, '"') == |value| < |text| && text[..|value|] == value
  {
    assert text[..|value|] == value;
    FindIs(text, '"', |value|);
  }

  /** A string field that was found `n` characters in. */
  lemma StringField(item: string, n: nat, behind: string, key: string, value: string, rest: string)
    requires FindText(item, StringNeedle(key)) == Shift(n, FindText(behind, StringNeedle(key)))
    requires n <= |item| && item[n..] == behind && '"' !in value
    requires behind == Pair(key, value) + rest
    ensures ExtractString(item, key) == value
  {
    var needle := StringNeedle(key);
    PairNeedle(key, value, rest);
    FoundBehind(item, n, behind, needle, value + "\"" + rest);
    UpToQuote(value + "\"" + rest, value, rest);
  }

  lemma PeerIdField(item: string, behind: string, peerId: string, rest: string)
    requires Plain(peerId) && item == "{" + behind && behind == Pair("peerId", peerId) + rest
    ensures ExtractString(item, "peerId") == peerId
  {
    PlainHasNoQuote(peerId);
    SkipQuiet(item, "{", behind, StringNeedle("peerId"));
    StringField(item, 1, behind, "peerId", peerId, rest);
  }

  /** How far behind the opening brace the field after the peer id starts. */
  function Skipped(peerId: string): nat {
    1 + (|Pair("peerId", peerId)| + 1)
  }

  /** Behind the peer id's pair the search for another field starts afresh. */
  lemma BehindPeerId(item: string, first: string, peerId: string, behind: string, needle: string, key: string)
    requires Plain(peerId) && item == "{" + first && first == Pair("peerId", peerId) + "," + behind
    requires key == "ip" || key == "port"
    requires Quoted(key) + ":" <= needle
    ensures FindText(item, needle) == Shift(Skipped(peerId), FindText(behind, needle))
  {
    PlainHasNoQuote(peerId);
    assert needle[0] == '"';
    SkipQuiet(item, "{", first, needle);
    SkipPair(first, "peerId", peerId, behind, needle, key);
  }

  lemma BehindText(item: string, first: string, peerId: string, behind: string)
    requires item == "{" + first && first == Pair("peerId", peerId) + "," + behind
    ensures Skipped(peerId) <= |item| && item[Skipped(peerId)..] == behind
  {
  }

  lemma IpField(item: string, first: string, peerId: string, ip: string, behind: string, rest: string)
    requires Plain(peerId) && Plain(ip)
    requires item == "{" + first && first == Pair("peerId", peerId) + "," + behind && behind == Pair("ip", ip) + rest
    ensures ExtractString(item, "ip") == ip
  {
    PlainHasNoQuote(ip);
    IpNeedle();
    BehindPeerId(item, first, peerId, behind, StringNeedle("ip"), "ip");
    BehindText(item, first, peerId, behind);
    StringField(item, Skipped(peerId), behind, "ip", ip, rest);
  }

  lemma IpNeedle()
    ensures Quoted("ip") + ":" <= StringNeedle("ip")
  {
    assert StringNeedle("ip") == Quoted("ip") + ":" + "\"";
  }

  const PORT_NEEDLE := "\"port\":"

  lemma PortField(item: string, first: string, peerId: string, ip: string, port: nat, middle: string, behind: string,
                  rest: string)
    requires Plain(peerId) && Plain(ip) && port <= INT_MAX && EndsNumber(rest)
    requires item == "{" + first && first == Pair("peerId", peerId) + "," + middle
    requires middle == Pair("ip", ip) + "," + behind
    requires behind == PORT_NEEDLE + (Decimal(port) + rest)
    ensures ExtractInt(item, "port") == Some(port)
  {
    var n := Skipped(peerId) + (|Pair("ip", ip)| + 1);
    PortNeedle();
    BehindIp(item, first, peerId, ip, middle, behind, PORT_NEEDLE, n);
    BehindTwo(item, first, Pair("peerId", peerId), middle, Pair("ip", ip), behind);
    NumberField(item, "port", PORT_NEEDLE, n, behind, Decimal(port) + rest);
    NumberAtFront(Decimal(port) + rest, port, rest);
  }

  lemma PortNeedle()
    ensures Quoted("port") + ":" == PORT_NEEDLE == "\"" + "port" + "\":"
  {
  }

  /** Behind both pairs the search for the port starts afresh. */
  lemma BehindIp(item: string, first: string, peerId: string, ip: string, middle: string, behind: string,
                 needle: string, n: nat)
    requires Plain(peerId) && Plain(ip) && Quoted("port") + ":" <= needle
    requires item == "{" + first && first == Pair("peerId", peerId) + "," + middle
    requires middle == Pair("ip", ip) + "," + behind && n == Skipped(peerId) + (|Pair("ip", ip)| + 1)
    ensures FindText(item, needle) == Shift(n, FindText(behind, needle))
  {
    BehindPeerId(item, first, peerId, middle, needle, "port");
    SkipIpPair(middle, ip, behind, needle);
    ShiftTwice(Skipped(peerId), |Pair("ip", ip)| + 1, FindText(behind, needle));
  }

  lemma ShiftTwice(m: nat, n: nat, r: Option<nat>)
    ensures Shift(m, Shift(n, r)) == Shift(m + n, r)
  {
  }

  lemma BehindTwo(item: string, first: string, a: string, middle: string, b: string, behind: string)
    requires item == "{" + first && first == a + "," + middle && middle == b + "," + behind
    ensures 1 + (|a| + 1) + (|b| + 1) <= |item| && item[1 + (|a| + 1) + (|b| + 1)..] == behind
  {
    assert item[1..] == first;
    DropFront(item, 1, first, a + ",", middle);
    DropFront(item, 1 + |a + ","|, middle, b + ",", behind);
  }

  lemma SkipIpPair(middle: string, ip: string, behind: string, needle: string)
    requires Plain(ip) && Quoted("port") + ":" <= needle && middle == Pair("ip", ip) + "," + behind
    ensures FindText(middle, needle) == Shift(|Pair("ip", ip)| + 1, FindText(behind, needle))
  {
    PlainHasNoQuote(ip);
    SkipPair(middle, "ip", ip, behind, needle, "port");
  }

  lemma NumberField(item: string, key: string, needle: string, n: nat, behind: string, number: string)
    requires needle == "\"" + key + "\":" && FindText(item, needle) == Shift(n, FindText(behind, needle))
    requires n <= |item| && item[n..] == behind && behind == needle + number
    ensures ExtractInt(item, key) == LeadingNumber(number)
  {
    FoundBehind(item, n, behind, needle, number);
  }

  lemma NumberAtFront(text: string, port: nat, rest: string)
    requires port <= INT_MAX && EndsNumber(rest) && text == Decimal(port) + rest
    ensures LeadingNumber(text) == Some(port)
  {
    DecimalReadsBack(port);
    DigitCountOf(Decimal(port), rest);
    assert text[..|Decimal(port)|] == Decimal(port);
  }

  /** What is behind the address, the id and the brace of an object that goes on with `behind` behind the port. */
  function BehindIpPair(p: PeerInfo, behind: string): string {
    PORT_NEEDLE + (SignedDecimal(p.port) + behind)
  }

  function BehindIdPair(p: PeerInfo, behind: string): string {
    Pair("ip", p.ip) + "," + BehindIpPair(p, behind)
  }

  function BehindBrace(p: PeerInfo, behind: string): string {
    Pair("peerId", p.peerId) + "," + BehindIdPair(p, behind)
  }

  lemma ObjectParts(p: PeerInfo)
    ensures Object(p) == "{" + BehindBrace(p, Tail(p) + "}")
  {
    Wrap(Pair("peerId", p.peerId) + ",", Pair("ip", p.ip) + ",", PORT_NEEDLE, SignedDecimal(p.port), Tail(p), "}");
  }

  lemma Wrap(a: string, b: string, c: string, d: string, e: string, z: string)
    ensures "{" + (a + (b + (c + d + e))) + z == "{" + (a + (b + (c + (d + (e + z)))))
  {
    Regroup("{", a + (b + (c + d + e)), z);
    Regroup(a, b + (c + d + e), z);
    Regroup(b, c + d + e, z);
    Regroup(c + d, e, z);
    Regroup(c, d, e + z);
  }

  /** One object is read back as its endpoint, whatever stands behind its port. */
  lemma ObjectEntry(item: string, p: PeerInfo, behind: string)
    requires Sendable(p) && item == "{" + BehindBrace(p, behind) && behind != "" && behind[0] == ','
    ensures Entry(item) == [Endpoint(p)]
  {
    ObjectPeerId(item, p, behind);
    ObjectIp(item, p, behind);
    PortField(item, BehindBrace(p, behind), p.peerId, p.ip, p.port, BehindIdPair(p, behind), BehindIpPair(p, behind),
              behind);
    EntryOf(item, p.peerId, p.ip, p.port);
  }

  lemma ObjectPeerId(item: string, p: PeerInfo, behind: string)
    requires Sendable(p) && item == "{" + BehindBrace(p, behind)
    ensures ExtractString(item, "peerId") == p.peerId
  {
    Regroup(Pair("peerId", p.peerId), ",", BehindIdPair(p, behind));
    PeerIdField(item, BehindBrace(p, behind), p.peerId, "," + BehindIdPair(p, behind));
  }

  lemma ObjectIp(item: string, p: PeerInfo, behind: string)
    requires Sendable(p) && item == "{" + BehindBrace(p, behind)
    ensures ExtractString(item, "ip") == p.ip
  {
    Regroup(Pair("ip", p.ip), ",", BehindIpPair(p, behind));
    IpField(item, BehindBrace(p, behind), p.peerId, p.ip, BehindIdPair(p, behind), "," + BehindIpPair(p, behind));
  }

  lemma EntryOf(item: string, peerId: string, ip: string, port: int)
    requires ExtractString(item, "peerId") == peerId != "" && ExtractString(item, "ip") == ip != ""
    requires ExtractInt(item, "port") == Some(port) && port > 0
    ensures Entry(item) == [PeerEndpoint(peerId, ip, port)]
  {
  }
}
