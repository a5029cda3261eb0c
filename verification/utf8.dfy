/** UTF-8 decoding as `String::from_utf8` performs it on each raw log line:
    a byte sequence is accepted exactly when it is a concatenation of the
    well-formed byte sequences of Table 3-7 in section 3.9 of the Unicode
    Standard (no overlong forms, no surrogates, nothing above U+10FFFF). */
module Utf8 {
  import opened Wrappers

  type byte = b: int | 0 <= b < 256

  /** Unicode scalar values: the code points a Dafny `char` can hold. */
  predicate IsScalar(cp: int) {
    0 <= cp < 0xD800 || 0xE000 <= cp < 0x11_0000
  }

  predicate IsContinuation(b: byte) {
    0x80 <= b <= 0xBF
  }

  /** Admissible second byte of a three-byte sequence led by `b0`. */
  predicate SecondOfThree(b0: byte, b1: byte) {
    if b0 == 0xE0 then 0xA0 <= b1 <= 0xBF
    else if b0 == 0xED then 0x80 <= b1 <= 0x9F
    else IsContinuation(b1)
  }

  /** Admissible second byte of a four-byte sequence led by `b0`. */
  predicate SecondOfFour(b0: byte, b1: byte) {
    if b0 == 0xF0 then 0x90 <= b1 <= 0xBF
    else if b0 == 0xF4 then 0x80 <= b1 <= 0x8F
    else IsContinuation(b1)
  }

  /** Length of the well-formed sequence at the head of `bs`, or 0 when `bs`
      does not start with one. */
  function SequenceLength(bs: seq<byte>): (n: nat)
    ensures n <= 4 && n <= |bs|
    ensures |bs| > 0 && bs[0] < 0x80 ==> n == 1
  {
    if |bs| == 0 then 0
    else if bs[0] <= 0x7F then 1
    else if 0xC2 <= bs[0] <= 0xDF then
      (if |bs| >= 2 && IsContinuation(bs[1]) then 2 else 0)
    else if 0xE0 <= bs[0] <= 0xEF then
      (if |bs| >= 3 && SecondOfThree(bs[0], bs[1]) && IsContinuation(bs[2]) then 3 else 0)
    else if 0xF0 <= bs[0] <= 0xF4 then
      (if |bs| >= 4 && SecondOfFour(bs[0], bs[1]) && IsContinuation(bs[2]) && IsContinuation(bs[3]) then 4 else 0)
    else 0
  }

  /** Smallest code point that needs `n` bytes. */
  function MinCodePoint(n: nat): int {
    if n <= 1 then 0 else if n == 2 then 0x80 else if n == 3 then 0x800 else 0x1_0000
  }

  /** The six payload bits of a continuation byte. */
  function Payload(b: byte): int {
    b as int - 0x80
  }

  /** The scalar value carried by the well-formed sequence at the head of
      `bs`; it is a scalar value and is in shortest form for its length. */
  function CodePoint(bs: seq<byte>): (cp: int)
    requires SequenceLength(bs) > 0
    ensures IsScalar(cp)
    ensures MinCodePoint(SequenceLength(bs)) <= cp
    ensures SequenceLength(bs) < 4 ==> cp < MinCodePoint(SequenceLength(bs) + 1)
  {
    var n := SequenceLength(bs);
    var lead: int := bs[0];
    if n == 1 then lead
    else if n == 2 then (lead - 0xC0) * 64 + Payload(bs[1])
    else if n == 3 then (lead - 0xE0) * 4096 + Payload(bs[1]) * 64 + Payload(bs[2])
    else (lead - 0xF0) * 262144 + Payload(bs[1]) * 4096 + Payload(bs[2]) * 64 + Payload(bs[3])
  }

  /** Decodes a whole line; `None` is the `FromUtf8Error` of the program. */
  function Decode(bs: seq<byte>): Option<string>
    decreases |bs|
  {
    if |bs| == 0 then Some([])
    else
      var n := SequenceLength(bs);
      if n == 0 then None
      else
        match Decode(bs[n..])
        case None => None
        case Some(rest) => Some([CodePoint(bs) as char] + rest)
  }

  /** The UTF-8 encoding of one scalar value. */
  function EncodeScalar(c: char): (bs: seq<byte>)
    ensures 1 <= |bs| <= 4
  {
    var cp := c as int;
    if cp < 0x80 then [cp]
    else if cp < 0x800 then [0xC0 + cp / 64, 0x80 + cp % 64]
    else if cp < 0x1_0000 then [0xE0 + cp / 4096, 0x80 + (cp / 64) % 64, 0x80 + cp % 64]
    else [0xF0 + cp / 262144, 0x80 + (cp / 4096) % 64, 0x80 + (cp / 64) % 64, 0x80 + cp % 64]
  }

  function Encode(s: string): seq<byte>
    decreases |s|
  {
    if |s| == 0 then [] else EncodeScalar(s[0]) + Encode(s[1..])
  }

  /** The decoder reads back exactly the scalar the encoder wrote, whatever
      follows it. */
  lemma DecodeEncodedScalar(c: char, rest: seq<byte>)
    ensures SequenceLength(EncodeScalar(c) + rest) == |EncodeScalar(c)|
    ensures CodePoint(EncodeScalar(c) + rest) == c as int
  {
    var cp := c as int;
    if cp < 0x80 {
    } else if cp < 0x800 {
      DecodeTwo(c, rest);
    } else if cp < 0x1_0000 {
      DecodeThree(c, rest);
    } else {
      DecodeFour(c, rest);
    }
  }

  lemma DecodeTwo(c: char, rest: seq<byte>)
    requires 0x80 <= c as int < 0x800
    ensures SequenceLength(EncodeScalar(c) + rest) == 2
    ensures CodePoint(EncodeScalar(c) + rest) == c as int
  {
  }

  lemma DecodeThree(c: char, rest: seq<byte>)
    requires 0x800 <= c as int < 0x1_0000
    ensures SequenceLength(EncodeScalar(c) + rest) == 3
    ensures CodePoint(EncodeScalar(c) + rest) == c as int
  {
    var cp := c as int;
    var a, b, d := ThreeDigits(cp);
    var bs := EncodeScalar(c) + rest;
    assert bs[0] == 0xE0 + a && bs[1] == 0x80 + b && bs[2] == 0x80 + d;
    assert SequenceLength(bs) == 3;
  }

  /** The digits of a three-byte scalar in base 64, with the bounds that make
      its encoding well-formed. */
  lemma ThreeDigits(cp: int) returns (a: int, b: int, d: int)
    requires 0x800 <= cp < 0x1_0000 && IsScalar(cp)
    ensures a == cp / 4096 && b == (cp / 64) % 64 && d == cp % 64
    ensures 0 <= a < 16 && 0 <= b < 64 && 0 <= d < 64
    ensures cp == a * 4096 + b * 64 + d
    ensures a == 0 ==> b >= 0x20
    ensures a == 0xD ==> b < 0x20
  {
    a, b, d := cp / 4096, (cp / 64) % 64, cp % 64;
    assert cp / 64 == a * 64 + b;
  }

  lemma DecodeFour(c: char, rest: seq<byte>)
    requires 0x1_0000 <= c as int
    ensures SequenceLength(EncodeScalar(c) + rest) == 4
    ensures CodePoint(EncodeScalar(c) + rest) == c as int
  {
    var cp := c as int;
    var a, b, d, e := FourDigits(cp);
    var bs := EncodeScalar(c) + rest;
    assert bs[0] == 0xF0 + a && bs[1] == 0x80 + b && bs[2] == 0x80 + d && bs[3] == 0x80 + e;
    assert SequenceLength(bs) == 4;
  }

  /** The digits of a four-byte scalar in base 64, with the bounds that make
      its encoding well-formed. */
  lemma FourDigits(cp: int) returns (a: int, b: int, d: int, e: int)
    requires 0x1_0000 <= cp < 0x11_0000
    ensures a == cp / 262144 && b == (cp / 4096) % 64 && d == (cp / 64) % 64 && e == cp % 64
    ensures 0 <= a <= 4 && 0 <= b < 64 && 0 <= d < 64 && 0 <= e < 64
    ensures cp == a * 262144 + b * 4096 + d * 64 + e
    ensures a == 0 ==> b >= 0x10
    ensures a == 4 ==> b < 0x10
  {
    a, b, d, e := cp / 262144, (cp / 4096) % 64, (cp / 64) % 64, cp % 64;
    assert cp / 64 == (cp / 4096) * 64 + d;
    assert cp / 4096 == a * 64 + b;
  }

  /** Re-encoding a decoded scalar gives back the bytes it was read from. */
  lemma EncodeDecodedScalar(bs: seq<byte>)
    requires SequenceLength(bs) > 0
    ensures EncodeScalar(CodePoint(bs) as char) == bs[..SequenceLength(bs)]
  {
    var n := SequenceLength(bs);
    if n == 2 {
      EncodeTwo(bs[0], bs[1]);
    } else if n == 3 {
      EncodeThree(bs[0], bs[1], bs[2]);
    } else if n == 4 {
      EncodeFour(bs[0], bs[1], bs[2], bs[3]);
    }
  }

  lemma EncodeTwo(b0: byte, b1: byte)
    requires 0xC2 <= b0 <= 0xDF && IsContinuation(b1)
    ensures var cp := (b0 - 0xC0) * 64 + Payload(b1);
      0xC0 + cp / 64 == b0 && 0x80 + cp % 64 == b1
  {
  }

  lemma EncodeThree(b0: byte, b1: byte, b2: byte)
    requires 0xE0 <= b0 <= 0xEF && IsContinuation(b1) && IsContinuation(b2)
    ensures var cp := (b0 - 0xE0) * 4096 + Payload(b1) * 64 + Payload(b2);
      0xE0 + cp / 4096 == b0 && 0x80 + (cp / 64) % 64 == b1 && 0x80 + cp % 64 == b2
  {
  }

  lemma EncodeFour(b0: byte, b1: byte, b2: byte, b3: byte)
    requires 0xF0 <= b0 <= 0xF4 && IsContinuation(b1) && IsContinuation(b2) && IsContinuation(b3)
    ensures var cp := (b0 - 0xF0) * 262144 + Payload(b1) * 4096 + Payload(b2) * 64 + Payload(b3);
      && 0xF0 + cp / 262144 == b0 && 0x80 + (cp / 4096) % 64 == b1
      && 0x80 + (cp / 64) % 64 == b2 && 0x80 + cp % 64 == b3
  {
    var cp := (b0 - 0xF0) * 262144 + Payload(b1) * 4096 + Payload(b2) * 64 + Payload(b3);
    assert cp / 4096 == (b0 - 0xF0) * 64 + Payload(b1);
    assert cp / 64 == ((b0 - 0xF0) * 64 + Payload(b1)) * 64 + Payload(b2);
  }

  /** Every string survives a trip through its UTF-8 bytes. */
  lemma {:induction false} DecodeEncode(s: string)
    ensures Decode(Encode(s)) == Some(s)
    decreases |s|
  {
    if |s| > 0 {
      var head := EncodeScalar(s[0]);
      var bs := Encode(s);
      DecodeEncodedScalar(s[0], Encode(s[1..]));
      assert bs[|head|..] == Encode(s[1..]);
      assert (CodePoint(bs) as char) == s[0];
      DecodeEncode(s[1..]);
      assert [s[0]] + s[1..] == s;
    }
  }

  /** A line the decoder accepts is exactly the encoding of what it decodes
      to: decoding loses nothing and invents nothing. */
  lemma {:induction false} EncodeDecode(bs: seq<byte>)
    requires Decode(bs).Some?
    ensures Encode(Decode(bs).value) == bs
    decreases |bs|
  {
    if |bs| > 0 {
      var n := SequenceLength(bs);
      var c, rest := CodePoint(bs) as char, Decode(bs[n..]).value;
      assert Decode(bs).value == [c] + rest;
      EncodeDecode(bs[n..]);
      EncodeDecodedScalar(bs);
      EncodeCons(c, rest, bs, n);
    }
  }

  /** Gluing step of `EncodeDecode`: a scalar encoded as the first `n`
      bytes, followed by a string encoded as the rest. */
  lemma EncodeCons(c: char, s: string, bs: seq<byte>, n: nat)
    requires n <= |bs| && EncodeScalar(c) == bs[..n] && Encode(s) == bs[n..]
    ensures Encode([c] + s) == bs
  {
    assert ([c] + s)[1..] == s;
    assert bs == bs[..n] + bs[n..];
  }

  /** Bytes below 0x80 decode one-to-one to the characters with those codes. */
  lemma {:induction false} DecodeAscii(bs: seq<byte>)
    requires forall i :: 0 <= i < |bs| ==> bs[i] < 0x80
    ensures Decode(bs).Some? && |Decode(bs).value| == |bs|
    ensures forall i :: 0 <= i < |bs| ==> Decode(bs).value[i] as int == bs[i]
    decreases |bs|
  {
    if |bs| > 0 {
      DecodeAscii(bs[1..]);
    }
  }
}
