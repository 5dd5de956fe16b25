/**
 The character-level reading and printing that the wire protocol, the download
 state file and the peer keys share: what `to_string`, `stoll`, `stoi` and the
 stream extractions `>> string` and `>> int` do with text.
 */
module Text {
  import opened Options

  const INT_MAX := 0x7FFF_FFFF
  const LLONG_MAX := 0x7FFF_FFFF_FFFF_FFFF

  /** `isspace` in the classic locale: space, tab, newline, vertical tab, form feed, return. */
  predicate IsSpace(c: char) {
    c == ' ' || c == '\t' || c == '\n' || c == '\U{000B}' || c == '\U{000C}' || c == '\r'
  }

  predicate IsDigit(c: char) {
    '0' <= c <= '9'
  }

  predicate NoSpace(s: string) {
    forall i :: 0 <= i < |s| ==> !IsSpace(s[i])
  }

  predicate AllDigits(s: string) {
    forall i :: 0 <= i < |s| ==> IsDigit(s[i])
  }

  /** A word that one `>> string` reads back whole. */
  predicate IsToken(s: string) {
    s != "" && NoSpace(s)
  }

  /** Where a run of characters has to stop: at the end of the text or at white space. */
  predicate EndsWord(rest: string) {
    rest == "" || IsSpace(rest[0])
  }

  predicate EndsNumber(rest: string) {
    rest == "" || !IsDigit(rest[0])
  }

  // ---------- decimal numbers ----------

  function Digit(d: nat): (c: char)
    requires d < 10
    ensures IsDigit(c)
  {
    '0' + d as char
  }

  /** `to_string` of a non-negative number. */
  function Decimal(n: nat): string {
    if n < 10 then [Digit(n)] else Decimal(n / 10) + [Digit(n % 10)]
  }

  /** `to_string` of any integer. */
  function SignedDecimal(n: int): string {
    if n < 0 then "-" + Decimal(-n) else Decimal(n)
  }

  function Value(digits: string): nat
    requires AllDigits(digits)
  {
    if digits == "" then 0
    else Value(digits[..|digits| - 1]) * 10 + (digits[|digits| - 1] as int - '0' as int)
  }

  lemma {:induction false} DecimalReadsBack(n: nat)
    ensures Decimal(n) != "" && AllDigits(Decimal(n)) && Value(Decimal(n)) == n
  {
    if n >= 10 {
      DecimalReadsBack(n / 10);
      assert Decimal(n)[..|Decimal(n)| - 1] == Decimal(n / 10);
    } else {
      assert Decimal(n)[..0] == "";
    }
  }

  lemma {:induction false} DecimalInjective(m: nat, n: nat)
    requires Decimal(m) == Decimal(n)
    ensures m == n
  {
    DecimalReadsBack(m);
    DecimalReadsBack(n);
  }

  lemma {:induction false} DecimalWidth(n: nat, width: nat, bound: nat)
    requires 0 < width && n < bound && bound <= PowerOfTen(width)
    ensures |Decimal(n)| <= width
    decreases width
  {
    if n >= 10 {
      DecimalWidth(n / 10, width - 1, PowerOfTen(width - 1));
    }
  }

  function PowerOfTen(e: nat): nat {
    if e == 0 then 1 else 10 * PowerOfTen(e - 1)
  }

  lemma {:induction false} DecimalIsToken(n: nat)
    ensures IsToken(Decimal(n))
  {
    DecimalReadsBack(n);
  }

  lemma {:induction false} SignedDecimalIsToken(n: int)
    ensures IsToken(SignedDecimal(n))
  {
    if n < 0 {
      DecimalIsToken(-n);
    } else {
      DecimalIsToken(n);
    }
  }

  // ---------- scanning ----------

  function SkipSpace(s: string): string {
    if s != "" && IsSpace(s[0]) then SkipSpace(s[1..]) else s
  }

  /** How many characters at the front of `s` are not white space. */
  function WordLength(s: string): (n: nat)
    ensures n <= |s|
  {
    if s == "" || IsSpace(s[0]) then 0 else 1 + WordLength(s[1..])
  }

  /** How many characters at the front of `s` are digits. */
  function DigitCount(s: string): (n: nat)
    ensures n <= |s| && AllDigits(s[..n])
  {
    if s == "" || !IsDigit(s[0]) then 0
    else
      var n := 1 + DigitCount(s[1..]);
      assert s[..n] == [s[0]] + s[1..][..n - 1];
      n
  }

  lemma {:induction false} SkipSpaceShrinks(s: string)
    ensures |SkipSpace(s)| <= |s|
    ensures SkipSpace(s) == "" || !IsSpace(SkipSpace(s)[0])
  {
    if s != "" && IsSpace(s[0]) {
      SkipSpaceShrinks(s[1..]);
    }
  }

  lemma {:induction false} WordLengthStops(s: string)
    ensures NoSpace(s[..WordLength(s)]) && EndsWord(s[WordLength(s)..])
  {
    if s != "" && !IsSpace(s[0]) {
      WordLengthStops(s[1..]);
      var n := WordLength(s);
      assert s[..n] == [s[0]] + s[1..][..n - 1];
      assert s[n..] == s[1..][n - 1..];
    }
  }

  lemma {:induction false} WordLengthOf(word: string, rest: string)
    requires NoSpace(word) && EndsWord(rest)
    ensures WordLength(word + rest) == |word|
  {
    if word == "" {
      assert word + rest == rest;
    } else {
      assert (word + rest)[1..] == word[1..] + rest;
      WordLengthOf(word[1..], rest);
    }
  }

  lemma {:induction false} DigitCountOf(digits: string, rest: string)
    requires AllDigits(digits) && EndsNumber(rest)
    ensures DigitCount(digits + rest) == |digits|
  {
    if digits == "" {
      assert digits + rest == rest;
    } else {
      assert (digits + rest)[1..] == digits[1..] + rest;
      DigitCountOf(digits[1..], rest);
    }
  }

  /** `stream >> word`: the next white-space separated word and the text left behind it. */
  function ReadWord(s: string): (r: Option<(string, string)>)
    ensures r.Some? ==> IsToken(r.value.0) && |r.value.1| < |s|
  {
    var t := SkipSpace(s);
    SkipSpaceShrinks(s);
    if t == "" then None
    else
      WordLengthStops(t);
      var n := WordLength(t);
      Some((t[..n], t[n..]))
  }

  /** An optional sign and the digits behind it: the number and the text left behind it. */
  function ReadSigned(s: string): (r: Option<(int, string)>)
    ensures r.Some? ==> |r.value.1| < |s|
  {
    var signed := s != "" && (s[0] == '-' || s[0] == '+');
    var t := if signed then s[1..] else s;
    var n := DigitCount(t);
    if n == 0 then None
    else
      var magnitude: int := Value(t[..n]);
      Some((if signed && s[0] == '-' then -magnitude else magnitude, t[n..]))
  }

  /** `stoll`: leading space and trailing text are ignored; no digits or an overflow throws. */
  function StoLL(s: string): (r: Option<int>) {
    match ReadSigned(SkipSpace(s))
    case None => None
    case Some((value, rest)) => if -LLONG_MAX - 1 <= value <= LLONG_MAX then Some(value) else None
  }

  /** `stream >> number` for a 32-bit number: no digits or an overflow sets the fail bit. */
  function ReadInt(s: string): (r: Option<(int, string)>)
    ensures r.Some? ==> |r.value.1| < |s|
  {
    SkipSpaceShrinks(s);
    match ReadSigned(SkipSpace(s))
    case None => None
    case Some((value, rest)) => if -INT_MAX - 1 <= value <= INT_MAX then Some((value, rest)) else None
  }

  // ---------- reading back what was printed ----------

  /** A word behind any single separator, or none, is read back with the text behind it. */
  lemma ReadWordOf(s: string, gap: string, word: string, rest: string)
    requires gap == "" || gap == " " || gap == "\n"
    requires IsToken(word) && EndsWord(rest)
    requires s == gap + word + rest
    ensures ReadWord(s) == Some((word, rest))
  {
    var t := word + rest;
    assert s == gap + t;
    SkipGap(s, gap, t);
    WordLengthOf(word, rest);
    assert t[..|word|] == word && t[|word|..] == rest;
  }

  lemma ReadWordOfBlank(s: string)
    requires s == "" || s == " "
    ensures ReadWord(s) == None
  {
    assert " "[1..] == "";
    assert SkipSpace("") == "";
  }

  /** The digits at the front of a text, as a number. */
  lemma DigitsOf(t: string, n: nat, rest: string)
    requires EndsNumber(rest) && t == Decimal(n) + rest
    ensures var k := DigitCount(t); 0 < k && t[..k] == Decimal(n) && Value(t[..k]) == n && t[k..] == rest
    ensures t != "" && IsDigit(t[0])
  {
    DecimalReadsBack(n);
    DigitCountOf(Decimal(n), rest);
  }

  lemma ReadPlain(s: string, n: nat, rest: string)
    requires EndsNumber(rest) && s == Decimal(n) + rest
    ensures ReadSigned(s) == Some((n, rest))
  {
    DigitsOf(s, n, rest);
  }

  lemma ReadMinus(s: string, t: string, n: int, rest: string)
    requires n < 0 && EndsNumber(rest) && s == "-" + t && t == Decimal(-n) + rest
    ensures ReadSigned(s) == Some((n, rest))
  {
    assert s[1..] == t;
    DigitsOf(t, -n, rest);
  }

  lemma ReadSignedOf(s: string, n: int, rest: string)
    requires EndsNumber(rest)
    requires s == SignedDecimal(n) + rest
    ensures ReadSigned(s) == Some((n, rest))
  {
    if n < 0 {
      assert s == "-" + (Decimal(-n) + rest);
      ReadMinus(s, Decimal(-n) + rest, n, rest);
    } else {
      ReadPlain(s, n, rest);
    }
  }

  /** `stoll(to_string(n)) == n` for every 64-bit number. */
  lemma StoLLOf(n: int)
    requires -LLONG_MAX - 1 <= n <= LLONG_MAX
    ensures StoLL(SignedDecimal(n)) == Some(n)
  {
    ReadSignedOf(SignedDecimal(n), n, "");
    SignedDecimalIsToken(n);
  }

  lemma ReadIntOf(s: string, gap: string, n: nat, rest: string)
    requires gap == "" || gap == "\n"
    requires n <= INT_MAX && EndsNumber(rest)
    requires s == gap + Decimal(n) + rest
    ensures ReadInt(s) == Some((n, rest))
  {
    var t := Decimal(n) + rest;
    assert s == gap + t;
    ReadPlain(t, n, rest);
    assert SkipSpace(s) == t by {
      DigitsOf(t, n, rest);
      SkipGap(s, gap, t);
    }
  }

  lemma SkipGap(s: string, gap: string, t: string)
    requires gap == "" || gap == " " || gap == "\n"
    requires t != "" && !IsSpace(t[0])
    requires s == gap + t
    ensures SkipSpace(s) == t
  {
    if gap == "" {
      assert s == t;
    } else {
      assert s[1..] == t;
    }
  }

  lemma Regroup(a: string, b: string, c: string)
    ensures a + b + c == a + (b + c)
  {
  }

  // ---------- what a word and a number are ----------

  /** The white space of the classic locale. */
  predicate Separates(c: char) {
    c in " \t\n\U{000B}\U{000C}\r"
  }

  predicate Numeral(c: char) {
    c in "0123456789"
  }

  lemma CharacterClasses(c: char)
    ensures IsSpace(c) <==> Separates(c)
    ensures IsDigit(c) <==> Numeral(c)
  {
  }

  predicate AllSeparate(s: string) {
    forall i :: 0 <= i < |s| ==> Separates(s[i])
  }

  predicate AllNumerals(s: string) {
    forall i :: 0 <= i < |s| ==> Numeral(s[i])
  }

  predicate NoneSeparates(s: string) {
    forall i :: 0 <= i < |s| ==> !Separates(s[i])
  }

  lemma TextClasses(s: string)
    ensures NoSpace(s) <==> NoneSeparates(s)
    ensures AllDigits(s) <==> AllNumerals(s)
    ensures EndsWord(s) <==> s == "" || Separates(s[0])
    ensures EndsNumber(s) <==> s == "" || !Numeral(s[0])
  {
    forall c
      ensures (IsSpace(c) <==> Separates(c)) && (IsDigit(c) <==> Numeral(c))
    {
      CharacterClasses(c);
    }
  }

  /** A word behind white space, up to the next white space or the end. */
  predicate WordAt(s: string, gap: string, word: string, rest: string) {
    && s == gap + (word + rest) && word != "" && AllSeparate(gap) && NoneSeparates(word)
    && (rest == "" || Separates(rest[0]))
  }

  ghost predicate FirstWord(s: string, word: string, rest: string) {
    exists gap :: WordAt(s, gap, word, rest)
  }

  lemma {:induction false} SkipsAll(gap: string, t: string)
    requires AllSeparate(gap) && (t == "" || !IsSpace(t[0]))
    ensures SkipSpace(gap + t) == t
  {
    if gap == "" {
      assert gap + t == t;
    } else {
      assert (gap + t)[1..] == gap[1..] + t;
      CharacterClasses(gap[0]);
      SkipsAll(gap[1..], t);
    }
  }

  lemma {:induction false} SkippedIsSpace(s: string) returns (gap: string)
    ensures s == gap + SkipSpace(s) && AllSeparate(gap)
  {
    gap := "";
    if s != "" && IsSpace(s[0]) {
      CharacterClasses(s[0]);
      var more := SkippedIsSpace(s[1..]);
      gap := [s[0]] + more;
    }
  }

  lemma WordWasRead(s: string, word: string, rest: string, gap: string, t: string)
    requires ReadWord(s) == Some((word, rest)) && t == SkipSpace(s) && s == gap + t && AllSeparate(gap)
    ensures WordAt(s, gap, word, rest)
  {
    SkipSpaceShrinks(s);
    WordLengthStops(t);
    assert t == t[..WordLength(t)] + t[WordLength(t)..];
    TextClasses(word);
    TextClasses(rest);
  }

  lemma WordIsRead(s: string, gap: string, word: string, rest: string, t: string)
    requires WordAt(s, gap, word, rest) && t == word + rest
    ensures ReadWord(s) == Some((word, rest))
  {
    TextClasses(word);
    TextClasses(rest);
    SkipsAll(gap, t);
    WordLengthOf(word, rest);
    assert t[..|word|] == word && t[|word|..] == rest;
  }

  /** `stream >> word` takes exactly the first word. */
  lemma ReadWordIff(s: string, word: string, rest: string)
    ensures ReadWord(s) == Some((word, rest)) <==> FirstWord(s, word, rest)
  {
    if ReadWord(s) == Some((word, rest)) {
      var gap := SkippedIsSpace(s);
      WordWasRead(s, word, rest, gap, SkipSpace(s));
    } else if FirstWord(s, word, rest) {
      var gap :| WordAt(s, gap, word, rest);
      WordIsRead(s, gap, word, rest, word + rest);
    }
  }

  /** There is no word exactly where all is white space. */
  lemma NoWordIff(s: string)
    ensures ReadWord(s) == None <==> AllSeparate(s)
  {
    var gap := SkippedIsSpace(s);
    if SkipSpace(s) != "" {
      SkipSpaceShrinks(s);
      assert s[|gap|] == SkipSpace(s)[0];
      CharacterClasses(s[|gap|]);
    }
  }

  /** A number behind white space: an optional sign, digits, and something else than a digit behind them. */
  predicate NumberAt(s: string, gap: string, sign: string, digits: string, rest: string, n: int) {
    && s == gap + (sign + (digits + rest)) && AllSeparate(gap) && SignOf(sign, digits, n) && AllNumerals(digits)
    && (rest == "" || !Numeral(rest[0]))
  }

  predicate SignOf(sign: string, digits: string, n: int) {
    && digits != "" && AllDigits(digits) && (sign == "" || sign == "+" || sign == "-")
    && (if sign == "-" then n + Value(digits) == 0 else n == Value(digits))
  }

  ghost predicate FirstNumber(s: string, n: int, rest: string) {
    exists gap, sign, digits :: NumberAt(s, gap, sign, digits, rest, n)
  }

  lemma SignedIsRead(t: string, sign: string, digits: string, rest: string, n: int, u: string)
    requires SignOf(sign, digits, n) && EndsNumber(rest) && t == sign + u && u == digits + rest
    ensures ReadSigned(t) == Some((n, rest))
  {
    DigitCountOf(digits, rest);
    assert u[..|digits|] == digits && u[|digits|..] == rest;
    if sign == "" {
      assert t == u && IsDigit(t[0]);
    } else {
      assert t[1..] == u && t[0] == sign[0];
    }
  }

  lemma SignedStart(t: string, sign: string, digits: string, rest: string, n: int)
    requires SignOf(sign, digits, n) && t == sign + (digits + rest)
    ensures t != "" && !IsSpace(t[0])
  {
    assert t[0] == if sign == "" then digits[0] else sign[0];
  }

  lemma NumberIsRead(s: string, gap: string, sign: string, digits: string, rest: string, n: int, t: string)
    requires NumberAt(s, gap, sign, digits, rest, n) && t == sign + (digits + rest)
    ensures ReadSigned(SkipSpace(s)) == Some((n, rest))
  {
    TextClasses(rest);
    SignedStart(t, sign, digits, rest, n);
    SkipsAll(gap, t);
    SignedIsRead(t, sign, digits, rest, n, digits + rest);
  }

  lemma {:induction false} DigitRunEnds(t: string)
    ensures EndsNumber(t[DigitCount(t)..])
  {
    if t != "" && IsDigit(t[0]) {
      DigitRunEnds(t[1..]);
      assert t[DigitCount(t)..] == t[1..][DigitCount(t[1..])..];
    }
  }

  lemma DigitRun(u: string)
    ensures u == u[..DigitCount(u)] + u[DigitCount(u)..] && EndsNumber(u[DigitCount(u)..])
  {
    DigitRunEnds(u);
  }

  lemma PlainWasRead(t: string, n: int, rest: string, digits: string)
    requires ReadSigned(t) == Some((n, rest)) && t[0] != '-' && t[0] != '+' && digits == t[..DigitCount(t)]
    ensures AllDigits(digits) && digits != "" && n == Value(digits) && t == digits + rest && EndsNumber(rest)
  {
    DigitRun(t);
  }

  lemma MarkedWasRead(t: string, n: int, rest: string, u: string)
    requires ReadSigned(t) == Some((n, rest)) && (t[0] == '-' || t[0] == '+') && u == t[1..]
    ensures SignOf([t[0]], u[..DigitCount(u)], n) && t == [t[0]] + (u[..DigitCount(u)] + rest) && EndsNumber(rest)
  {
    DigitRun(u);
  }

  /** The parts of a number that was read. */
  lemma SignedWasRead(t: string, n: int, rest: string) returns (sign: string, digits: string)
    requires ReadSigned(t) == Some((n, rest))
    ensures SignOf(sign, digits, n) && t == sign + (digits + rest) && EndsNumber(rest)
  {
    if t[0] == '-' || t[0] == '+' {
      MarkedWasRead(t, n, rest, t[1..]);
      sign, digits := [t[0]], t[1..][..DigitCount(t[1..])];
    } else {
      sign, digits := "", t[..DigitCount(t)];
      PlainWasRead(t, n, rest, digits);
      assert sign + (digits + rest) == digits + rest;
    }
  }

  /** The number that is read is exactly the first one. */
  lemma ReadNumberIff(s: string, n: int, rest: string)
    ensures ReadSigned(SkipSpace(s)) == Some((n, rest)) <==> FirstNumber(s, n, rest)
  {
    if ReadSigned(SkipSpace(s)) == Some((n, rest)) {
      var gap := SkippedIsSpace(s);
      var sign, digits := SignedWasRead(SkipSpace(s), n, rest);
      TextClasses(digits);
      TextClasses(rest);
      assert NumberAt(s, gap, sign, digits, rest, n);
    } else if FirstNumber(s, n, rest) {
      var gap, sign, digits :| NumberAt(s, gap, sign, digits, rest, n);
      NumberIsRead(s, gap, sign, digits, rest, n, sign + (digits + rest));
    }
  }

  /** `stream >> number` takes exactly the first number, if it fits 32 bits. */
  lemma ReadIntIff(s: string, n: int, rest: string)
    ensures ReadInt(s) == Some((n, rest))
            <==> FirstNumber(s, n, rest) && -2_147_483_648 <= n <= 2_147_483_647
  {
    ReadNumberIff(s, n, rest);
  }

  ghost predicate StartsWithNumber(s: string, n: int) {
    exists rest :: FirstNumber(s, n, rest)
  }

  /** `stoll` gives the number that a text starts with, if it fits 64 bits, and ignores what is behind it. */
  lemma StoLLIff(s: string, n: int)
    ensures StoLL(s) == Some(n)
            <==> StartsWithNumber(s, n)
                 && -9_223_372_036_854_775_808 <= n <= 9_223_372_036_854_775_807
  {
    match ReadSigned(SkipSpace(s)) {
      case Some((m, rest)) =>
        ReadNumberIff(s, m, rest);
        forall rest' | FirstNumber(s, n, rest')
          ensures n == m
        {
          ReadNumberIff(s, n, rest');
        }
      case None =>
        forall rest'
          ensures !FirstNumber(s, n, rest')
        {
          ReadNumberIff(s, n, rest');
        }
    }
  }

  // ---------- looking for a character ----------

  /** The first position of `c`, or the length of the text where there is none (`string::find`). */
  function Find(s: string, c: char): (i: nat)
    ensures i <= |s| && c !in s[..i] && (i < |s| ==> s[i] == c)
  {
    if s == "" || s[0] == c then 0
    else
      var i := 1 + Find(s[1..], c);
      assert s[..i] == [s[0]] + s[1..][..i - 1];
      i
  }

  lemma {:induction false} FindIs(s: string, c: char, i: nat)
    requires i <= |s| && c !in s[..i] && (i < |s| ==> s[i] == c)
    ensures Find(s, c) == i
  {
    if i > 0 {
      assert s[..i][0] == s[0] && s[1..][..i - 1] == s[..i][1..];
      FindIs(s[1..], c, i - 1);
    }
  }

  lemma FindThrough(a: string, b: string, c: char)
    ensures Find(a + b, c) == if c in a then Find(a, c) else |a| + Find(b, c)
  {
    var i := if c in a then Find(a, c) else |a| + Find(b, c);
    if c in a {
      assert Find(a, c) < |a| by { assert a[..|a|] == a; }
      assert (a + b)[..i] == a[..i];
    } else {
      assert (a + b)[..i] == a + b[..Find(b, c)];
    }
    FindIs(a + b, c, i);
  }
}
