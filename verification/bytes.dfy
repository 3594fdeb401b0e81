/** Bytes on the TCP connection and the text <-> bytes conversions used by
    both ends: `str.encode()` (UTF-8) and `bytes.decode(errors="ignore")`,
    the latter over ASCII input only. */
module Bytes {

  newtype Byte = x: int | 0 <= x < 256

  /** Line feed, the line terminator of the protocol. */
  const LF: Byte := 10

  predicate IsAscii(s: string) {
    forall i :: 0 <= i < |s| ==> s[i] as int < 0x80
  }

  /** UTF-8 encoding of one Unicode scalar value. */
  function EncodeChar(c: char): (r: seq<Byte>)
    ensures 1 <= |r| <= 4
    ensures c as int < 0x80 ==> r == [c as int as Byte]
    ensures c as int >= 0x80 ==> forall i :: 0 <= i < |r| ==> r[i] >= 0x80
  {
    var n := c as int;
    if n < 0x80 then [n as Byte]
    else if n < 0x800 then [(0xC0 + n / 0x40) as Byte, (0x80 + n % 0x40) as Byte]
    else if n < 0x1_0000 then
      [(0xE0 + n / 0x1000) as Byte, (0x80 + n / 0x40 % 0x40) as Byte, (0x80 + n % 0x40) as Byte]
    else
      [(0xF0 + n / 0x4_0000) as Byte, (0x80 + n / 0x1000 % 0x40) as Byte,
       (0x80 + n / 0x40 % 0x40) as Byte, (0x80 + n % 0x40) as Byte]
  }

  /** `s.encode()`: UTF-8, one character after another. */
  function Encode(s: string): (r: seq<Byte>)
    ensures |r| >= |s|
    ensures IsAscii(s) ==> |r| == |s| && forall i :: 0 <= i < |s| ==> r[i] as int == s[i] as int
  {
    if s == [] then [] else EncodeChar(s[0]) + Encode(s[1..])
  }

  /** `bs.decode(errors="ignore")` for a stream treated as ASCII: every byte
      below 0x80 is the character with that code, every other byte is dropped. */
  function Decode(bs: seq<Byte>): (r: string)
    ensures IsAscii(r)
    ensures |r| <= |bs|
  {
    if bs == [] then []
    else (if bs[0] < 0x80 then [bs[0] as int as char] else []) + Decode(bs[1..])
  }

  lemma {:induction false} EncodeAppend(a: string, b: string)
    ensures Encode(a + b) == Encode(a) + Encode(b)
  {
    if a == [] {
      assert a + b == b;
    } else {
      assert (a + b)[1..] == a[1..] + b;
      EncodeAppend(a[1..], b);
    }
  }

  lemma {:induction false} DecodeAppend(a: seq<Byte>, b: seq<Byte>)
    ensures Decode(a + b) == Decode(a) + Decode(b)
  {
    if a == [] {
      assert a + b == b;
    } else {
      assert (a + b)[1..] == a[1..] + b;
      DecodeAppend(a[1..], b);
    }
  }

  /** Decoding undoes encoding on ASCII text. */
  lemma {:induction false} DecodeEncode(s: string)
    requires IsAscii(s)
    ensures Decode(Encode(s)) == s
  {
    if s != [] {
      assert IsAscii(s[1..]);
      DecodeEncode(s[1..]);
      DecodeAppend(EncodeChar(s[0]), Encode(s[1..]));
    }
  }

  /** Bytes without a line feed decode to text without '\n'. */
  lemma {:induction false} DecodeNoLF(bs: seq<Byte>)
    requires LF !in bs
    ensures '\n' !in Decode(bs)
  {
    if bs != [] {
      assert LF !in bs[1..] by { assert bs == [bs[0]] + bs[1..]; }
      DecodeNoLF(bs[1..]);
    }
  }

  /** The encoding holds a line feed byte exactly where the text holds '\n':
      every byte of a multi-byte sequence is 0x80 or above. */
  lemma {:induction false} EncodeHasLF(s: string)
    ensures LF in Encode(s) <==> '\n' in s
  {
    if s != [] {
      EncodeHasLF(s[1..]);
      var e := EncodeChar(s[0]);
      assert Encode(s) == e + Encode(s[1..]);
      assert LF in e <==> s[0] == '\n';
      assert '\n' in s <==> s[0] == '\n' || '\n' in s[1..] by { assert s == [s[0]] + s[1..]; }
    }
  }
}
