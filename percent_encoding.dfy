/** UTF-8 (RFC 3629) and the percent-encoding of section 2.1 of RFC 3986 as
    ECMAScript's `encodeURIComponent` / `decodeURIComponent` apply it. */
module PercentEncoding {
  import opened Wrappers
  import opened Base16

  /** A Unicode scalar value: what a `char` can hold. */
  predicate IsScalar(n: int) {
    0 <= n < 0xD800 || 0xE000 <= n < 0x110000
  }

  /** The UTF-8 encoding of one code point. */
  function Utf8(c: char): (bs: seq<Byte>)
    ensures 1 <= |bs| <= 4
    ensures |bs| == 1 <==> c as int < 0x80
    ensures |bs| == 1 ==> bs[0] == c as int
    ensures forall k :: 1 <= k < |bs| ==> 0x80 <= bs[k] < 0xC0
  {
    var n := c as int;
    if n < 0x80 then [n]
    else if n < 0x800 then [0xC0 + n / 64, 0x80 + n % 64]
    else if n < 0x10000 then [0xE0 + n / 4096, 0x80 + (n / 64) % 64, 0x80 + n % 64]
    else [0xF0 + n / 262144, 0x80 + (n / 4096) % 64, 0x80 + (n / 64) % 64, 0x80 + n % 64]
  }

  /** The length of the sequence announced by a lead byte, or 0 when the byte cannot lead. */
  function SequenceLength(b: Byte): (n: nat)
    ensures n <= 4
  {
    if b < 0x80 then 1
    else if 0xC0 <= b < 0xE0 then 2
    else if 0xE0 <= b < 0xF0 then 3
    else if 0xF0 <= b < 0xF8 then 4
    else 0
  }

  /** The code point a byte sequence of announced length spells out, before validation. */
  function RawCodePoint(bs: seq<Byte>): int
    requires 1 <= |bs| <= 4
  {
    var b: seq<int> := bs;
    if |b| == 1 then b[0]
    else if |b| == 2 then (b[0] - 0xC0) * 64 + b[1] % 64
    else if |b| == 3 then (b[0] - 0xE0) * 4096 + (b[1] % 64) * 64 + b[2] % 64
    else (b[0] - 0xF0) * 262144 + (b[1] % 64) * 4096 + (b[2] % 64) * 64 + b[3] % 64
  }

  /** Decodes one complete UTF-8 sequence; overlong forms, surrogates, values past
      U+10FFFF and bad continuation bytes are all rejected, because only a sequence
      that is exactly the encoding of its code point is accepted. */
  function Utf8Decode(bs: seq<Byte>): (r: Option<char>)
    ensures r.Some? ==> Utf8(r.value) == bs
  {
    if |bs| == 0 || SequenceLength(bs[0]) != |bs| then None
    else
      var v := RawCodePoint(bs);
      if IsScalar(v) && Utf8(v as char) == bs then Some(v as char) else None
  }

  lemma LeadByteLength(c: char)
    ensures SequenceLength(Utf8(c)[0]) == |Utf8(c)|
  {
  }

  lemma SplitByThree(n: int)
    requires 0 <= n
    ensures n == (n / 4096) * 4096 + ((n / 64) % 64) * 64 + n % 64
  {
    var q := n / 64;
    assert n == q * 64 + n % 64;
    assert q == (q / 64) * 64 + q % 64;
    assert q / 64 == n / 4096;
  }

  lemma SplitByFour(n: int)
    requires 0 <= n
    ensures n == (n / 262144) * 262144 + ((n / 4096) % 64) * 4096 + ((n / 64) % 64) * 64 + n % 64
  {
    var q := n / 64;
    SplitByThree(q);
    assert n == q * 64 + n % 64;
    assert q / 4096 == n / 262144;
    assert (q / 64) == n / 4096;
  }

  /** Decoding the encoding of a code point gives it back. */
  lemma Utf8RoundTrip(c: char)
    ensures Utf8Decode(Utf8(c)) == Some(c)
  {
    var n := c as int;
    var bs := Utf8(c);
    LeadByteLength(c);
    if n < 0x80 {
    } else if n < 0x800 {
      assert RawCodePoint(bs) == n;
    } else if n < 0x10000 {
      SplitByThree(n);
      assert RawCodePoint(bs) == n;
    } else {
      SplitByFour(n);
      assert RawCodePoint(bs) == n;
    }
    assert (n as char) == c;
  }

  /** "%XX" for every byte, with upper-case digits. */
  function PercentBytes(bs: seq<Byte>): (r: string)
    ensures |r| == 3 * |bs|
    ensures forall i :: 0 <= i < |r| ==> r[i] == '%' || IsUpperHex(r[i])
  {
    if bs == [] then "" else "%" + Hex2(bs[0]) + PercentBytes(bs[1..])
  }

  /** The characters `encodeURIComponent` leaves alone: letters, digits and `-_.!~*'()`. */
  predicate IsComponentSafe(c: char) {
    || 'A' <= c <= 'Z' || 'a' <= c <= 'z' || '0' <= c <= '9'
    || c == '-' || c == '_' || c == '.' || c == '!' || c == '~' || c == '*' || c == '\'' || c == '(' || c == ')'
  }

  function EncodeComponentChar(c: char): string {
    if IsComponentSafe(c) then [c] else PercentBytes(Utf8(c))
  }

  /** `encodeURIComponent`: every character outside the safe set becomes the
      percent-encoding of its UTF-8 bytes. */
  function EncodeURIComponent(s: string): (r: string)
    ensures forall i :: 0 <= i < |r| ==> IsComponentSafe(r[i]) || r[i] == '%'
  {
    if s == [] then "" else EncodeComponentChar(s[0]) + EncodeURIComponent(s[1..])
  }

  /** A string made only of safe characters is not changed by the encoder. */
  lemma {:induction false} EncodeSafeIdentity(s: string)
    requires forall i :: 0 <= i < |s| ==> IsComponentSafe(s[i])
    ensures EncodeURIComponent(s) == s
  {
    if s != [] {
      EncodeSafeIdentity(s[1..]);
      assert [s[0]] + s[1..] == s;
    }
  }

  /** The byte spelled by "%XX" at the start of s. */
  function ReadByte(s: string): (r: Option<Byte>)
    ensures r.Some? ==> 3 <= |s| && s[0] == '%'
  {
    if |s| < 3 || s[0] != '%' then None
    else match (HexValue(s[1]), HexValue(s[2]))
      case (Some(hi), Some(lo)) => Some(hi * 16 + lo)
      case _ => None
  }

  /** n consecutive "%XX" triples at the start of s. */
  function ReadBytes(s: string, n: nat): (r: Option<seq<Byte>>)
    ensures r.Some? ==> |r.value| == n && 3 * n <= |s|
    decreases n
  {
    if n == 0 then Some([])
    else match ReadByte(s)
      case None => None
      case Some(b) =>
        match ReadBytes(s[3..], n - 1)
        case None => None
        case Some(rest) => Some([b] + rest)
  }

  function Prepend(c: char, r: Option<string>): Option<string> {
    match r
    case None => None
    case Some(t) => Some([c] + t)
  }

  /** `decodeURIComponent`; `None` stands for the URIError it throws on a stray '%',
      a truncated sequence or invalid UTF-8. */
  function DecodeURIComponent(s: string): (r: Option<string>)
    decreases |s|
  {
    if s == [] then Some("")
    else if s[0] != '%' then Prepend(s[0], DecodeURIComponent(s[1..]))
    else match ReadByte(s)
      case None => None
      case Some(b) =>
        var n := SequenceLength(b);
        if n == 0 then None
        else match ReadBytes(s, n)
          case None => None
          case Some(bs) =>
            match Utf8Decode(bs)
            case None => None
            case Some(c) => Prepend(c, DecodeURIComponent(s[3 * n..]))
  }

  lemma ReadHex2(b: Byte, rest: string)
    ensures ReadByte("%" + Hex2(b) + rest) == Some(b)
  {
    HexValueOfDigit(b / 16);
    HexValueOfDigit(b % 16);
  }

  lemma {:induction false} ReadPercentBytes(bs: seq<Byte>, rest: string)
    ensures ReadBytes(PercentBytes(bs) + rest, |bs|) == Some(bs)
  {
    if bs != [] {
      var s := PercentBytes(bs) + rest;
      ReadHex2(bs[0], PercentBytes(bs[1..]) + rest);
      assert s == "%" + Hex2(bs[0]) + (PercentBytes(bs[1..]) + rest);
      assert s[3..] == PercentBytes(bs[1..]) + rest;
      ReadPercentBytes(bs[1..], rest);
      assert [bs[0]] + bs[1..] == bs;
    }
  }

  /** Decoding the encoding of one character consumes exactly its encoding. */
  lemma DecodeOneChar(c: char, rest: string)
    ensures DecodeURIComponent(EncodeComponentChar(c) + rest) == Prepend(c, DecodeURIComponent(rest))
  {
    var s := EncodeComponentChar(c) + rest;
    if IsComponentSafe(c) {
      assert s[0] == c && s[1..] == rest;
    } else {
      DecodeEncodedBytes(c, rest);
    }
  }

  lemma DecodeEncodedBytes(c: char, rest: string)
    ensures DecodeURIComponent(PercentBytes(Utf8(c)) + rest) == Prepend(c, DecodeURIComponent(rest))
  {
    var bs := Utf8(c);
    var s := PercentBytes(bs) + rest;
    assert s[0] == '%';
    ReadHex2(bs[0], PercentBytes(bs[1..]) + rest);
    assert s == "%" + Hex2(bs[0]) + (PercentBytes(bs[1..]) + rest);
    assert ReadByte(s) == Some(bs[0]);
    LeadByteLength(c);
    ReadPercentBytes(bs, rest);
    Utf8RoundTrip(c);
    assert s[3 * |bs|..] == rest;
  }

  /** Percent-decoding the output of `encodeURIComponent` gives back its input. */
  lemma {:induction false} DecodeEncodeComponent(s: string)
    ensures DecodeURIComponent(EncodeURIComponent(s)) == Some(s)
  {
    if s != [] {
      DecodeOneChar(s[0], EncodeURIComponent(s[1..]));
      DecodeEncodeComponent(s[1..]);
      assert [s[0]] + s[1..] == s;
    }
  }
}
