/**
 * The hexadecimal form of a BLAKE3 digest, as `blake3::Hash::from_hex`
 * reads it: exactly 64 bytes, each an ASCII hex digit of either case,
 * read in pairs, high nibble first, into the 32 bytes of a 256-bit digest.
 * The decoder belongs to the `blake3` crate; its behaviour here is the
 * documented one, stated as a partial function.
 */
module Blake3Hex {
  import opened Wrappers
  import opened Utf8

  /** BLAKE3's default output length, `OUT_LEN`, in bytes. */
  const OUT_LEN: nat := 32

  type Digest = d: seq<byte> | |d| == OUT_LEN witness seq(32, _ => 0 as byte)

  datatype HexError = InvalidLen(len: nat) | InvalidByte(b: byte)

  /** The numeric value of one hex digit byte, or None for any other byte. */
  function HexVal(b: byte): (r: Option<byte>)
    ensures r.Some? ==> r.value < 16
    ensures r.Some? <==> ('0' as byte <= b <= '9' as byte) || ('a' as byte <= b <= 'f' as byte)
                         || ('A' as byte <= b <= 'F' as byte)
    ensures '0' as byte <= b <= '9' as byte ==> r == Some(b - '0' as byte)
    ensures 'a' as byte <= b <= 'f' as byte ==> r == Some(b - 'a' as byte + 10)
    ensures 'A' as byte <= b <= 'F' as byte ==> r == Some(b - 'A' as byte + 10)
  {
    if '0' as byte <= b <= '9' as byte then Some(b - '0' as byte)
    else if 'a' as byte <= b <= 'f' as byte then Some(b - 'a' as byte + 10)
    else if 'A' as byte <= b <= 'F' as byte then Some(b - 'A' as byte + 10)
    else None
  }

  predicate IsHexDigit(b: byte) { HexVal(b).Some? }

  /** The first byte of `hex` that is not a hex digit, if any. */
  function FirstBadByte(hex: seq<byte>): (r: Option<nat>)
    ensures r.Some? ==> r.value < |hex| && !IsHexDigit(hex[r.value])
                        && forall i :: 0 <= i < r.value ==> IsHexDigit(hex[i])
    ensures r.None? ==> forall i :: 0 <= i < |hex| ==> IsHexDigit(hex[i])
  {
    if hex == [] then None
    else if !IsHexDigit(hex[0]) then Some(0)
    else match FirstBadByte(hex[1..])
      case None => None
      case Some(k) => Some(k + 1)
  }

  /** `Hash::from_hex`: the length is checked first, then the digits in order. */
  function FromHex(hex: seq<byte>): (r: Result<Digest, HexError>)
    ensures r.Ok? <==> |hex| == 2 * OUT_LEN && forall i :: 0 <= i < |hex| ==> IsHexDigit(hex[i])
    ensures r.Ok? ==> forall i :: 0 <= i < OUT_LEN ==>
      r.value[i] as int == 16 * HexVal(hex[2 * i]).value as int + HexVal(hex[2 * i + 1]).value as int
  {
    if |hex| != 2 * OUT_LEN then Err(InvalidLen(|hex|))
    else match FirstBadByte(hex)
      case Some(k) => Err(InvalidByte(hex[k]))
      case None =>
        Ok(seq(OUT_LEN, i requires 0 <= i < OUT_LEN =>
          16 * HexVal(hex[2 * i]).value + HexVal(hex[2 * i + 1]).value))
  }

  /** The lower-case digit for a nibble, as `Hash::to_hex` writes it. */
  function HexDigit(v: int): (r: byte)
    requires 0 <= v < 16
    ensures HexVal(r) == Some(v as byte)
  {
    if v < 10 then '0' as byte + v as byte else 'a' as byte + (v - 10) as byte
  }

  /** `Hash::to_hex`: two lower-case digits per byte, high nibble first. */
  function ToHex(d: Digest): (r: seq<byte>)
    ensures |r| == 2 * OUT_LEN
  {
    seq(2 * OUT_LEN, j requires 0 <= j < 2 * OUT_LEN =>
      if j % 2 == 0 then HexDigit(d[j / 2] as int / 16) else HexDigit(d[j / 2] as int % 16))
  }

  lemma NibbleRoundTrip(b: byte)
    ensures 16 * HexVal(HexDigit(b as int / 16)).value as int + HexVal(HexDigit(b as int % 16)).value as int == b as int
  {
  }

  lemma ToHexAt(d: Digest, i: nat)
    requires i < OUT_LEN
    ensures ToHex(d)[2 * i] == HexDigit(d[i] as int / 16)
    ensures ToHex(d)[2 * i + 1] == HexDigit(d[i] as int % 16)
  {
    assert (2 * i) % 2 == 0 && (2 * i) / 2 == i;
    assert (2 * i + 1) % 2 == 1 && (2 * i + 1) / 2 == i;
  }

  /** Reading back the hex form of a digest gives the digest. */
  lemma FromHexToHex(d: Digest)
    ensures FromHex(ToHex(d)) == Ok(d)
  {
    var h := ToHex(d);
    forall j | 0 <= j < |h| ensures IsHexDigit(h[j]) {
    }
    var r := FromHex(h);
    forall i | 0 <= i < OUT_LEN ensures r.value[i] == d[i] {
      ToHexAt(d, i);
      NibbleRoundTrip(d[i]);
    }
    assert r.value == d;
  }

  /**
   * The hash string of a source table is a Rust `String`, and `from_hex`
   * reads its UTF-8 bytes: it succeeds exactly when the string is 64 ASCII
   * hex digits.
   */
  lemma FromHexOfString(s: string)
    ensures FromHex(Encode(s)).Ok? <==>
      |s| == 2 * OUT_LEN && forall i :: 0 <= i < |s| ==> s[i] as int < 0x80 && IsHexDigit(s[i] as int as byte)
  {
    if forall i :: 0 <= i < |s| ==> s[i] as int < 0x80 {
      EncodeAscii(s);
      assert forall i :: 0 <= i < |s| ==> Encode(s)[i] == s[i] as int as byte;
    } else {
      var i :| 0 <= i < |s| && s[i] as int >= 0x80;
      NonAsciiLeavesHighByte(s, i);
    }
  }

  /** A non-hex hash string such as "zz" is rejected. */
  lemma ZzIsRejected()
    ensures FromHex(Encode("zz")).Err?
  {
    FromHexOfString("zz");
  }
}
