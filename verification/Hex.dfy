/** The text form of a digest: two lower-case hexadecimal characters a byte. */
module Hex {
  import opened Text

  newtype byte = x: int | 0 <= x < 256

  function HexDigit(d: nat): (c: char)
    requires d < 16
    ensures !IsSpace(c)
  {
    if d < 10 then '0' + d as char else 'a' + (d - 10) as char
  }

  function ToHex(data: seq<byte>): string {
    if data == [] then "" else [HexDigit(data[0] as int / 16), HexDigit(data[0] as int % 16)] + ToHex(data[1..])
  }

  lemma {:induction false} ToHexAppend(data: seq<byte>, b: byte)
    ensures ToHex(data + [b]) == ToHex(data) + [HexDigit(b as int / 16), HexDigit(b as int % 16)]
  {
    if data == [] {
      assert data + [b] == [b];
    } else {
      assert (data + [b])[1..] == data[1..] + [b];
      ToHexAppend(data[1..], b);
    }
  }

  method BytesToHex(data: seq<byte>) returns (text: string)
    ensures text == ToHex(data)
  {
    text := "";
    for i := 0 to |data|
      invariant text == ToHex(data[..i])
    {
      assert data[..i + 1] == data[..i] + [data[i]];
      ToHexAppend(data[..i], data[i]);
      text := text + [HexDigit(data[i] as int / 16), HexDigit(data[i] as int % 16)];
    }
    assert data[..|data|] == data;
  }

  /** Each byte is printed as its two digits in base sixteen, the high one first. */
  lemma {:induction false} HexCharacters(data: seq<byte>, i: nat)
    requires i < |data|
    ensures |ToHex(data)| == 2 * |data|
    ensures ToHex(data)[2 * i] == "0123456789abcdef"[data[i] as int / 16]
    ensures ToHex(data)[2 * i + 1] == "0123456789abcdef"[data[i] as int % 16]
  {
    HexDigits();
    if i > 0 {
      HexCharacters(data[1..], i - 1);
    } else {
      HexIsOneWord(data);
    }
  }

  lemma HexDigits()
    ensures forall d: nat :: d < 16 ==> HexDigit(d) == "0123456789abcdef"[d]
  {
  }

  /** A digest text has two characters a byte and no white space: one word of a header line. */
  lemma {:induction false} HexIsOneWord(data: seq<byte>)
    ensures |ToHex(data)| == 2 * |data| && NoSpace(ToHex(data))
    ensures data != [] ==> IsToken(ToHex(data))
  {
    if data != [] {
      HexIsOneWord(data[1..]);
    }
  }

  /** Different digests have different texts. */
  lemma {:induction false} HexInjective(a: seq<byte>, b: seq<byte>)
    requires ToHex(a) == ToHex(b)
    ensures a == b
  {
    HexIsOneWord(a);
    HexIsOneWord(b);
    if a != [] {
      HexDigitInjective(a[0] as int / 16, b[0] as int / 16);
      HexDigitInjective(a[0] as int % 16, b[0] as int % 16);
      assert ToHex(a)[..2] == ToHex(b)[..2];
      assert ToHex(a)[0] == ToHex(b)[0] && ToHex(a)[1] == ToHex(b)[1];
      assert a[0] == b[0];
      assert ToHex(a)[2..] == ToHex(a[1..]) && ToHex(b)[2..] == ToHex(b[1..]);
      HexInjective(a[1..], b[1..]);
      assert a == [a[0]] + a[1..] && b == [b[0]] + b[1..];
    }
  }

  lemma HexDigitInjective(d: nat, e: nat)
    requires d < 16 && e < 16
    ensures HexDigit(d) == HexDigit(e) ==> d == e
  {
  }
}
