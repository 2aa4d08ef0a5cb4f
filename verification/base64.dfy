/**
 * The basic Base64 encoding of section 4 of RFC 4648 (the alphabet of Table 1,
 * `=` padding, no line breaks), as produced by java.util.Base64.getEncoder().
 * The decoder is not used by the locator: it is the reference inverse that makes
 * the encoder's injectivity provable.
 */
module Base64 {

  /** An unsigned octet. */
  type byte = x: int | 0 <= x < 256

  /** A 6-bit group: the value one encoded character stands for. */
  type Sextet = x: int | 0 <= x < 64

  const Pad: char := '='

  /** The 64 characters of Table 1 of RFC 4648 (the padding character is not one of them). */
  predicate IsAlphabetChar(c: char)
  {
    ('A' <= c <= 'Z') || ('a' <= c <= 'z') || ('0' <= c <= '9') || c == '+' || c == '/'
  }

  /** The value of an alphabet character; anything else decodes as 0. */
  function DecodeChar(c: char): Sextet
  {
    if 'A' <= c <= 'Z' then c as int - 'A' as int
    else if 'a' <= c <= 'z' then c as int - 'a' as int + 26
    else if '0' <= c <= '9' then c as int - '0' as int + 52
    else if c == '+' then 62
    else if c == '/' then 63
    else 0
  }

  /** Table 1 of RFC 4648: the character that stands for a 6-bit value. */
  function EncodeSextet(v: Sextet): (c: char)
    ensures IsAlphabetChar(c)
    ensures DecodeChar(c) == v
  {
    if v < 26 then ('A' as int + v) as char
    else if v < 52 then ('a' as int + (v - 26)) as char
    else if v < 62 then ('0' as int + (v - 52)) as char
    else if v == 62 then '+'
    else '/'
  }

  /** The encoding of the bytes: each full 3-byte group gives 4 characters, a final
      group of 1 or 2 bytes gives 2 or 3 characters followed by `==` or `=`. */
  function Encode(bytes: seq<byte>): (s: string)
    ensures |s| == 4 * ((|bytes| + 2) / 3)
    decreases |bytes|
  {
    if |bytes| == 0 then ""
    else if |bytes| == 1 then
      [EncodeSextet(bytes[0] / 4), EncodeSextet(bytes[0] % 4 * 16), Pad, Pad]
    else if |bytes| == 2 then
      [EncodeSextet(bytes[0] / 4), EncodeSextet(bytes[0] % 4 * 16 + bytes[1] / 16),
       EncodeSextet(bytes[1] % 16 * 4), Pad]
    else
      EncodeGroup(bytes[0], bytes[1], bytes[2]) + Encode(bytes[3..])
  }

  /** The four characters of a full group of three bytes. */
  function EncodeGroup(b0: byte, b1: byte, b2: byte): (s: string)
    ensures |s| == 4
    ensures forall i :: 0 <= i < 4 ==> IsAlphabetChar(s[i])
  {
    [EncodeSextet(b0 / 4), EncodeSextet(b0 % 4 * 16 + b1 / 16),
     EncodeSextet(b1 % 16 * 4 + b2 / 64), EncodeSextet(b2 % 64)]
  }

  /** Reads 4-character groups back into bytes; a group with padding ends the input. */
  function Decode(s: string): seq<byte>
    decreases |s|
  {
    if |s| < 4 then []
    else
      var a, b, c, d := DecodeChar(s[0]), DecodeChar(s[1]), DecodeChar(s[2]), DecodeChar(s[3]);
      if s[2] == Pad then [a * 4 + b / 16]
      else if s[3] == Pad then [a * 4 + b / 16, b % 16 * 16 + c / 4]
      else [a * 4 + b / 16, b % 16 * 16 + c / 4, c % 4 * 64 + d] + Decode(s[4..])
  }

  /** How many `=` close the encoding of n bytes. */
  function PadCount(n: nat): (p: nat)
    ensures p < 3
    ensures (n + p) % 3 == 0
  {
    if n % 3 == 0 then 0 else 3 - n % 3
  }

  /** The arithmetic of one group: the sextets of three bytes give the bytes back. */
  lemma GroupRoundTrip(b0: byte, b1: byte, b2: byte)
    ensures (b0 / 4) * 4 + (b0 % 4 * 16 + b1 / 16) / 16 == b0
    ensures (b0 % 4 * 16 + b1 / 16) % 16 * 16 + (b1 % 16 * 4 + b2 / 64) / 4 == b1
    ensures (b1 % 16 * 4 + b2 / 64) % 4 * 64 + b2 % 64 == b2
    ensures (b0 % 4 * 16 + b1 / 16) % 16 * 16 + (b1 % 16 * 4) / 4 == b1
  {
    assert b1 / 16 < 16 && b2 / 64 < 4;
  }

  /** The bytes four unpadded characters decode to. */
  function DecodeQuad(s0: char, s1: char, s2: char, s3: char): seq<int>
  {
    var a, b, c, d := DecodeChar(s0), DecodeChar(s1), DecodeChar(s2), DecodeChar(s3);
    [a * 4 + b / 16, b % 16 * 16 + c / 4, c % 4 * 64 + d]
  }

  /** A full group's four characters are alphabet characters that decode to its three bytes. */
  lemma DecodeGroup(b0: byte, b1: byte, b2: byte)
    ensures var g := EncodeGroup(b0, b1, b2);
      && g[2] != Pad && g[3] != Pad
      && DecodeQuad(g[0], g[1], g[2], g[3]) == [b0, b1, b2]
  {
    var g := EncodeGroup(b0, b1, b2);
    var v0, v1, v2, v3 := b0 / 4, b0 % 4 * 16 + b1 / 16, b1 % 16 * 4 + b2 / 64, b2 % 64;
    assert g == [EncodeSextet(v0), EncodeSextet(v1), EncodeSextet(v2), EncodeSextet(v3)];
    assert DecodeChar(g[0]) == v0 && DecodeChar(g[1]) == v1 && DecodeChar(g[2]) == v2 && DecodeChar(g[3]) == v3;
    GroupRoundTrip(b0, b1, b2);
  }

  /** Decoding a string that starts with four unpadded characters. */
  lemma DecodeUnpadded(g: string, rest: string)
    requires |g| == 4 && g[2] != Pad && g[3] != Pad
    ensures Decode(g + rest) == DecodeQuad(g[0], g[1], g[2], g[3]) + Decode(rest)
  {
    assert (g + rest)[4..] == rest;
  }

  /** A final group of one byte decodes back to it. */
  lemma DecodeEncodeOne(b0: byte)
    ensures Decode(Encode([b0])) == [b0]
  {
    var s := Encode([b0]);
    var v0, v1 := b0 / 4, b0 % 4 * 16;
    assert s == [EncodeSextet(v0), EncodeSextet(v1), Pad, Pad];
    assert DecodeChar(s[0]) == v0 && DecodeChar(s[1]) == v1;
    assert v0 * 4 + v1 / 16 == b0;
  }

  /** A final group of two bytes decodes back to them. */
  lemma DecodeEncodeTwo(b0: byte, b1: byte)
    ensures Decode(Encode([b0, b1])) == [b0, b1]
  {
    var s := Encode([b0, b1]);
    var v0, v1, v2 := b0 / 4, b0 % 4 * 16 + b1 / 16, b1 % 16 * 4;
    assert s == [EncodeSextet(v0), EncodeSextet(v1), EncodeSextet(v2), Pad];
    assert DecodeChar(s[0]) == v0 && DecodeChar(s[1]) == v1 && DecodeChar(s[2]) == v2;
    assert s[2] != Pad;
    GroupRoundTrip(b0, b1, 0);
  }

  /** Decoding undoes encoding, for every byte sequence. */
  lemma {:induction false} DecodeEncode(bytes: seq<byte>)
    ensures Decode(Encode(bytes)) == bytes
    decreases |bytes|
  {
    if |bytes| == 1 {
      assert bytes == [bytes[0]];
      DecodeEncodeOne(bytes[0]);
    } else if |bytes| == 2 {
      assert bytes == [bytes[0], bytes[1]];
      DecodeEncodeTwo(bytes[0], bytes[1]);
    } else if |bytes| >= 3 {
      var g, rest := EncodeGroup(bytes[0], bytes[1], bytes[2]), bytes[3..];
      DecodeGroup(bytes[0], bytes[1], bytes[2]);
      calc {
        Decode(Encode(bytes));
        Decode(g + Encode(rest));
        { DecodeUnpadded(g, Encode(rest)); }
        DecodeQuad(g[0], g[1], g[2], g[3]) + Decode(Encode(rest));
        { DecodeEncode(rest); }
        [bytes[0], bytes[1], bytes[2]] + rest;
        { assert bytes == [bytes[0], bytes[1], bytes[2]] + rest; }
        bytes;
      }
    }
  }

  /** Encoding is injective: distinct byte sequences have distinct encodings. */
  lemma EncodeInjective(x: seq<byte>, y: seq<byte>)
    requires x != y
    ensures Encode(x) != Encode(y)
  {
    DecodeEncode(x);
    DecodeEncode(y);
  }

  /** s is alphabet characters followed by exactly p `=`. */
  predicate PaddedWith(s: string, p: nat)
  {
    && p <= |s|
    && (forall i :: 0 <= i < |s| - p ==> IsAlphabetChar(s[i]))
    && (forall i :: |s| - p <= i < |s| ==> s[i] == Pad)
  }

  /** Four alphabet characters in front of a string keep its shape. */
  lemma PrependGroupKeepsShape(g: string, rest: string, p: nat)
    requires |g| == 4 && forall i :: 0 <= i < 4 ==> IsAlphabetChar(g[i])
    requires PaddedWith(rest, p)
    ensures PaddedWith(g + rest, p)
  {
    assert forall i :: 4 <= i < |g + rest| ==> (g + rest)[i] == rest[i - 4];
  }

  /** Every character of an encoding is from the alphabet, except the last PadCount
      characters, which are all `=`. */
  lemma {:induction false} EncodeAlphabet(bytes: seq<byte>)
    ensures PaddedWith(Encode(bytes), PadCount(|bytes|))
    decreases |bytes|
  {
    if |bytes| >= 3 {
      var g, rest := EncodeGroup(bytes[0], bytes[1], bytes[2]), Encode(bytes[3..]);
      EncodeAlphabet(bytes[3..]);
      assert PadCount(|bytes|) == PadCount(|bytes| - 3);
      PrependGroupKeepsShape(g, rest, PadCount(|bytes|));
      assert Encode(bytes) == g + rest;
    } else if |bytes| == 2 {
      assert PadCount(2) == 1 && |Encode(bytes)| == 4;
    } else if |bytes| == 1 {
      assert PadCount(1) == 2 && |Encode(bytes)| == 4;
    }
  }

  /** A 32-byte digest encodes to exactly 44 characters: 43 from the alphabet and one `=`. */
  lemma EncodeDigestShape(digest: seq<byte>)
    requires |digest| == 32
    ensures |Encode(digest)| == 44
    ensures forall i :: 0 <= i < 43 ==> IsAlphabetChar(Encode(digest)[i])
    ensures Encode(digest)[43] == Pad
  {
    EncodeAlphabet(digest);
    assert PadCount(32) == 1;
  }
}
