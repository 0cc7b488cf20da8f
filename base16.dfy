/** Bytes and the Base16 ("hex") alphabet of section 8 of RFC 4648, in the
    upper-case form that both the request signature and percent-encoding emit. */
module Base16 {
  import opened Wrappers

  type Byte = b: int | 0 <= b < 256

  predicate IsUpperHex(c: char) {
    '0' <= c <= '9' || 'A' <= c <= 'F'
  }

  /** The upper-case digit for a value below sixteen. */
  function HexDigit(n: nat): (c: char)
    requires n < 16
    ensures IsUpperHex(c)
  {
    if n < 10 then ('0' as int + n) as char else ('A' as int + n - 10) as char
  }

  /** The value of a hexadecimal digit of either case; decoders accept both. */
  function HexValue(c: char): (r: Option<nat>)
    ensures r.Some? ==> r.value < 16
    ensures r.Some? <==> IsUpperHex(c) || 'a' <= c <= 'f'
  {
    if '0' <= c <= '9' then Some(c as int - '0' as int)
    else if 'A' <= c <= 'F' then Some(c as int - 'A' as int + 10)
    else if 'a' <= c <= 'f' then Some(c as int - 'a' as int + 10)
    else None
  }

  lemma HexValueOfDigit(n: nat)
    requires n < 16
    ensures HexValue(HexDigit(n)) == Some(n)
  {
  }

  /** The two upper-case digits of one byte, high nibble first. */
  function Hex2(b: Byte): (r: string)
    ensures |r| == 2 && IsUpperHex(r[0]) && IsUpperHex(r[1])
  {
    [HexDigit(b / 16), HexDigit(b % 16)]
  }

  /** Base16 encoding with the upper-case alphabet. */
  function Encode(d: seq<Byte>): (r: string)
    ensures |r| == 2 * |d|
    ensures forall i :: 0 <= i < |r| ==> IsUpperHex(r[i])
  {
    if d == [] then "" else Hex2(d[0]) + Encode(d[1..])
  }

  /** Base16 decoding; fails on an odd length or a character outside the alphabet. */
  function Decode(s: string): (r: Option<seq<Byte>>)
    decreases |s|
  {
    if s == [] then Some([])
    else if |s| == 1 then None
    else match (HexValue(s[0]), HexValue(s[1]), Decode(s[2..]))
      case (Some(hi), Some(lo), Some(rest)) => Some([hi * 16 + lo] + rest)
      case _ => None
  }

  /** Decoding inverts encoding, so the upper-case text loses nothing of the digest. */
  lemma {:induction false} DecodeEncode(d: seq<Byte>)
    ensures Decode(Encode(d)) == Some(d)
  {
    if d != [] {
      var e := Encode(d);
      assert e[..2] == Hex2(d[0]) && e[2..] == Encode(d[1..]);
      HexValueOfDigit(d[0] / 16);
      HexValueOfDigit(d[0] % 16);
      DecodeEncode(d[1..]);
      assert [d[0]] + d[1..] == d;
    }
  }
}
