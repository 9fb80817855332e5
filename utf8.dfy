/**
 * UTF-8, as in RFC 3629: the byte form of a Rust `String`.
 *
 * A Dafny `string` is a sequence of Unicode scalar values, which is exactly
 * what a Rust `String` holds; `String::as_bytes` is `Encode` below. The
 * decoder accepts precisely the well-formed byte sequences of section 4 of
 * RFC 3629 (no overlong forms, no surrogates, nothing above U+10FFFF) and is
 * the inverse of the encoder.
 */
module Utf8 {
  import opened Wrappers

  newtype byte = b: int | 0 <= b < 256

  /** The bytes that encode one scalar value. */
  function EncodeChar(c: char): (r: seq<byte>)
    ensures 1 <= |r| <= 4
    ensures (|r| == 1) <==> (c as int < 0x80)
    ensures |r| == 1 ==> r[0] as int == c as int
    ensures |r| > 1 ==> forall i :: 0 <= i < |r| ==> r[i] >= 0x80
  {
    var n := c as int;
    if n < 0x80 then
      [n as byte]
    else if n < 0x800 then
      [(0xC0 + n / 64) as byte, (0x80 + n % 64) as byte]
    else if n < 0x1_0000 then
      [(0xE0 + n / 4096) as byte, (0x80 + (n / 64) % 64) as byte, (0x80 + n % 64) as byte]
    else
      [(0xF0 + n / 262144) as byte, (0x80 + (n / 4096) % 64) as byte,
       (0x80 + (n / 64) % 64) as byte, (0x80 + n % 64) as byte]
  }

  /** The UTF-8 form of a string: the encodings of its characters, in order. */
  function Encode(s: string): seq<byte>
  {
    if s == [] then [] else EncodeChar(s[0]) + Encode(s[1..])
  }

  predicate IsTail(b: byte) { 0x80 <= b < 0xC0 }

  function TailBits(b: byte): int { b as int - 0x80 }

  /** A code point that names a Unicode scalar value, that is, a Dafny char. */
  predicate IsScalar(cp: int) { 0 <= cp < 0xD800 || 0xE000 <= cp < 0x11_0000 }

  /**
   * Decodes the character at the front of `b`, with its length in bytes, or
   * None when `b` does not start with a well-formed UTF-8 sequence.
   */
  function DecodeChar(b: seq<byte>): (r: Option<(char, nat)>)
    ensures r.Some? ==> 1 <= r.value.1 <= |b| && r.value.1 <= 4
  {
    if |b| == 0 then None
    else if b[0] < 0x80 then Some((b[0] as int as char, 1))
    else if 0xC2 <= b[0] < 0xE0 then
      if |b| >= 2 && IsTail(b[1]) then
        var cp := (b[0] as int - 0xC0) * 64 + TailBits(b[1]);
        Some((cp as char, 2))
      else None
    else if 0xE0 <= b[0] < 0xF0 then
      if |b| >= 3 && IsTail(b[1]) && IsTail(b[2]) then
        var cp := (b[0] as int - 0xE0) * 4096 + TailBits(b[1]) * 64 + TailBits(b[2]);
        if 0x800 <= cp && IsScalar(cp) then Some((cp as char, 3)) else None
      else None
    else if 0xF0 <= b[0] < 0xF5 then
      if |b| >= 4 && IsTail(b[1]) && IsTail(b[2]) && IsTail(b[3]) then
        var cp := (b[0] as int - 0xF0) * 262144 + TailBits(b[1]) * 4096
                  + TailBits(b[2]) * 64 + TailBits(b[3]);
        if 0x1_0000 <= cp < 0x11_0000 then Some((cp as char, 4)) else None
      else None
    else None
  }

  /** Decodes a whole byte sequence, or None if it is not well-formed UTF-8. */
  function Decode(b: seq<byte>): Option<string>
    decreases |b|
  {
    if b == [] then Some([])
    else match DecodeChar(b)
      case None => None
      case Some((c, n)) =>
        match Decode(b[n..])
        case None => None
        case Some(rest) => Some([c] + rest)
  }

  lemma TwoByteForm(n: int)
    requires 0x80 <= n < 0x800
    ensures 0xC2 <= 0xC0 + n / 64 < 0xE0 && 0 <= n % 64 < 64
    ensures (n / 64) * 64 + n % 64 == n
  {
  }

  lemma ThreeByteForm(n: int)
    requires 0x800 <= n < 0x1_0000
    ensures 0xE0 <= 0xE0 + n / 4096 < 0xF0
    ensures (n / 4096) * 4096 + ((n / 64) % 64) * 64 + n % 64 == n
  {
    var n1 := n / 64;
    assert n == n1 * 64 + n % 64;
    assert n1 == (n1 / 64) * 64 + n1 % 64;
    assert n / 4096 == n1 / 64;
  }

  lemma FourByteForm(n: int)
    requires 0x1_0000 <= n < 0x11_0000
    ensures 0xF0 <= 0xF0 + n / 262144 < 0xF5
    ensures (n / 262144) * 262144 + ((n / 4096) % 64) * 4096 + ((n / 64) % 64) * 64 + n % 64 == n
  {
    var n1 := n / 64;
    var n2 := n1 / 64;
    assert n == n1 * 64 + n % 64;
    assert n1 == n2 * 64 + n1 % 64;
    assert n2 == (n2 / 64) * 64 + n2 % 64;
    assert n / 4096 == n2;
    assert n / 262144 == n2 / 64;
  }

  /** The decoder reads back the one character that EncodeChar wrote, whatever follows. */
  lemma EncodeCharRoundTrip(c: char, rest: seq<byte>)
    ensures DecodeChar(EncodeChar(c) + rest) == Some((c, |EncodeChar(c)|))
  {
    var n := c as int;
    if 0x80 <= n < 0x800 {
      TwoByteForm(n);
    } else if 0x800 <= n < 0x1_0000 {
      ThreeByteForm(n);
    } else if 0x1_0000 <= n {
      FourByteForm(n);
    }
  }

  /** Decoding undoes encoding: the bytes of a `String` read back as the same string. */
  lemma {:induction false} DecodeEncode(s: string)
    ensures Decode(Encode(s)) == Some(s)
  {
    if s != [] {
      var e := EncodeChar(s[0]);
      EncodeCharRoundTrip(s[0], Encode(s[1..]));
      assert (e + Encode(s[1..]))[|e|..] == Encode(s[1..]);
      DecodeEncode(s[1..]);
      assert [s[0]] + s[1..] == s;
    }
  }

  lemma {:induction false} EncodeAppend(a: string, b: string)
    ensures Encode(a + b) == Encode(a) + Encode(b)
  {
    if a != [] {
      assert (a + b)[0] == a[0];
      assert (a + b)[1..] == a[1..] + b;
      EncodeAppend(a[1..], b);
    } else {
      assert a + b == b;
    }
  }

  /** A string of ASCII characters is encoded one byte per character, each byte its code. */
  lemma {:induction false} EncodeAscii(s: string)
    requires forall i :: 0 <= i < |s| ==> s[i] as int < 0x80
    ensures |Encode(s)| == |s|
    ensures forall i :: 0 <= i < |s| ==> Encode(s)[i] as int == s[i] as int
  {
    if s != [] {
      EncodeAscii(s[1..]);
    }
  }

  /** A character outside ASCII leaves a byte of 0x80 or more in the encoding. */
  lemma NonAsciiLeavesHighByte(s: string, i: nat)
    requires i < |s| && s[i] as int >= 0x80
    ensures exists j :: 0 <= j < |Encode(s)| && Encode(s)[j] >= 0x80
  {
    assert s == s[..i] + [s[i]] + s[i + 1..];
    EncodeAppend(s[..i] + [s[i]], s[i + 1..]);
    EncodeAppend(s[..i], [s[i]]);
    assert Encode([s[i]]) == EncodeChar(s[i]) + Encode([]);
    var j := |Encode(s[..i])|;
    assert Encode(s)[j] == EncodeChar(s[i])[0];
  }
}
