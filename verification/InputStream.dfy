/**
 The string stream that the parsers consume: the text not yet read, and the
 fail bit that makes every later extraction fail as well.
 */
module InputStreams {
  import opened Options
  import opened Text

  /** The text behind the first line. */
  function DropLine(s: string): string {
    var end := Find(s, '\n');
    if end < |s| then s[end + 1..] else ""
  }

  class InputStream {
    var rest: string
    var failed: bool

    constructor (text: string)
      ensures rest == text && !failed
    {
      rest, failed := text, false;
    }

    /** Drops leading white space, as every formatted extraction does first. */
    method SkipWhite()
      modifies this`rest
      ensures rest == SkipSpace(old(rest))
    {
      while rest != "" && IsSpace(rest[0])
        invariant SkipSpace(rest) == SkipSpace(old(rest))
        decreases |rest|
      {
        rest := rest[1..];
      }
    }

    /** `stream >> word` */
    method ExtractWord() returns (ok: bool, word: string)
      modifies this
      ensures ok <==> !old(failed) && ReadWord(old(rest)).Some?
      ensures ok ==> ReadWord(old(rest)) == Some((word, rest)) && !failed
      ensures !ok ==> word == "" && failed
    {
      word := "";
      if failed {
        return false, word;
      }
      SkipWhite();
      if rest == "" {
        failed := true;
        return false, word;
      }
      ghost var t := rest;
      assert t[0..] == t;
      while rest != "" && !IsSpace(rest[0])
        invariant |word| <= |t| && word == t[..|word|] && rest == t[|word|..]
        invariant WordLength(t) == |word| + WordLength(rest)
        invariant !failed
        decreases |rest|
      {
        word, rest := word + [rest[0]], rest[1..];
      }
      ok := true;
    }

    /** Takes the digits at the front off the stream, and their value with them. */
    method TakeDigits() returns (count: nat, value: nat)
      modifies this`rest
      ensures count == DigitCount(old(rest)) && value == Value(old(rest)[..count]) && rest == old(rest)[count..]
    {
      count, value := 0, 0;
      ghost var t := rest;
      assert t[0..] == t && t[..0] == "";
      while rest != "" && IsDigit(rest[0])
        invariant count <= |t| && rest == t[count..]
        invariant DigitCount(t) == count + DigitCount(rest)
        invariant AllDigits(t[..count]) && value == Value(t[..count])
        decreases |rest|
      {
        assert t[..count + 1][..count] == t[..count];
        value := value * 10 + (rest[0] as int - '0' as int);
        rest := rest[1..];
        count := count + 1;
      }
    }

    /** `stream >> number`, a 32-bit signed number in base ten */
    method ExtractInt() returns (ok: bool, value: int)
      modifies this
      ensures ok <==> !old(failed) && ReadInt(old(rest)).Some?
      ensures ok ==> ReadInt(old(rest)) == Some((value, rest)) && !failed
      ensures !ok ==> failed
    {
      value := 0;
      if failed {
        return false, value;
      }
      SkipWhite();
      var negative := rest != "" && rest[0] == '-';
      if rest != "" && (rest[0] == '-' || rest[0] == '+') {
        rest := rest[1..];
      }
      var count;
      count, value := TakeDigits();
      if negative {
        value := -value;
      }
      if count == 0 || value < -INT_MAX - 1 || value > INT_MAX {
        failed := true;
        return false, value;
      }
      ok := true;
    }

    /** `getline`: everything up to the next newline, which is consumed and dropped. */
    method GetLine() returns (line: string)
      modifies this
      ensures !old(failed) ==> line == old(rest)[..Find(old(rest), '\n')]
      ensures old(failed) ==> line == ""
      ensures failed == (old(failed) || old(rest) == "")
      ensures !failed ==> rest == DropLine(old(rest)) && '\n' !in line
      ensures !failed ==> old(rest) == line + "\n" + rest || (old(rest) == line && rest == "")
    {
      if failed || rest == "" {
        failed := true;
        return "";
      }
      var end := Find(rest, '\n');
      line := rest[..end];
      rest := DropLine(rest);
    }
  }
}
