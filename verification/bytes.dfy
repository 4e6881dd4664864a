/** Bytes and the text encodings the backend puts them through: the URL-safe
    base64 alphabet without padding used for generated API keys, and lower-case
    hexadecimal used for OTLP trace and span identifiers. */
module Bytes {
  type byte = x: int | 0 <= x < 256

  // ---------------------------------------------------------------------------
  // URL-safe base64 without padding (RFC 4648 section 5)

  /** The character for a six-bit value: A-Z, a-z, 0-9, then '-' and '_'. */
  function Base64Char(v: int): (c: char)
    requires 0 <= v < 64
    ensures IsBase64Char(c)
  {
    if v < 26 then ('A' as int + v) as char
    else if v < 52 then ('a' as int + (v - 26)) as char
    else if v < 62 then ('0' as int + (v - 52)) as char
    else if v == 62 then '-'
    else '_'
  }

  predicate IsBase64Char(c: char) {
    'A' <= c <= 'Z' || 'a' <= c <= 'z' || '0' <= c <= '9' || c == '-' || c == '_'
  }

  /** The six-bit value of an alphabet character. */
  function Base64Value(c: char): (v: int)
    requires IsBase64Char(c)
    ensures 0 <= v < 64
  {
    if 'A' <= c <= 'Z' then c as int - 'A' as int
    else if 'a' <= c <= 'z' then c as int - 'a' as int + 26
    else if '0' <= c <= '9' then c as int - '0' as int + 52
    else if c == '-' then 62
    else 63
  }

  /** The alphabet is a bijection between 0..63 and its 64 characters. */
  lemma Base64AlphabetIsBijective(v: int, c: char)
    requires 0 <= v < 64 && IsBase64Char(c)
    ensures Base64Value(Base64Char(v)) == v
    ensures Base64Char(Base64Value(c)) == c
  {
  }

  /** The four characters of a full group of three bytes: the 24 bits are cut
      into four six-bit values, most significant first. */
  function EncodeGroup(b0: byte, b1: byte, b2: byte): (s: string)
    ensures |s| == 4 && IsBase64Char(s[0]) && IsBase64Char(s[1]) && IsBase64Char(s[2]) && IsBase64Char(s[3])
  {
    [Base64Char(b0 / 4), Base64Char(b0 % 4 * 16 + b1 / 16), Base64Char(b1 % 16 * 4 + b2 / 64), Base64Char(b2 % 64)]
  }

  /** `URL_SAFE_NO_PAD.encode`: each group of three bytes becomes four
      characters; a final pair of bytes becomes the first three characters of its
      group and a final single byte the first two, with no '=' padding. */
  function EncodeBase64Url(bs: seq<byte>): (s: string)
    decreases |bs|
  {
    if |bs| >= 3 then EncodeGroup(bs[0], bs[1], bs[2]) + EncodeBase64Url(bs[3..])
    else if |bs| == 2 then EncodeGroup(bs[0], bs[1], 0)[..3]
    else if |bs| == 1 then EncodeGroup(bs[0], 0, 0)[..2]
    else []
  }

  /** The unpadded length: four characters per full group, plus one more than
      the number of bytes left over when the length is not a multiple of three. */
  function Base64UrlLength(n: nat): nat {
    4 * (n / 3) + (if n % 3 == 0 then 0 else n % 3 + 1)
  }

  lemma {:induction false} EncodeBase64UrlShape(bs: seq<byte>)
    ensures |EncodeBase64Url(bs)| == Base64UrlLength(|bs|)
    ensures forall i :: 0 <= i < |EncodeBase64Url(bs)| ==> IsBase64Char(EncodeBase64Url(bs)[i])
    decreases |bs|
  {
    if |bs| >= 3 {
      EncodeBase64UrlShape(bs[3..]);
      var rest := EncodeBase64Url(bs[3..]);
      var head := EncodeGroup(bs[0], bs[1], bs[2]);
      assert EncodeBase64Url(bs) == head + rest;
      assert |bs| / 3 == |bs[3..]| / 3 + 1 && |bs| % 3 == |bs[3..]| % 3;
      forall i | 0 <= i < |head + rest|
        ensures IsBase64Char((head + rest)[i])
      {
        if i >= 4 {
          assert (head + rest)[i] == rest[i - 4];
        }
      }
    }
  }

  /** Encoding works group by group: whole groups of three at the front encode
      independently of what follows. */
  lemma {:induction false} EncodeBase64UrlAppend(a: seq<byte>, b: seq<byte>)
    requires |a| % 3 == 0
    ensures EncodeBase64Url(a + b) == EncodeBase64Url(a) + EncodeBase64Url(b)
    decreases |a|
  {
    if |a| > 0 {
      assert (a + b)[3..] == a[3..] + b;
      assert (a + b)[..3] == a[..3];
      EncodeBase64UrlAppend(a[3..], b);
    } else {
      assert a + b == b;
    }
  }

  /** The 32 random bytes of a generated API key encode to 43 characters. */
  lemma KeyBytesEncodeTo43(bs: seq<byte>)
    requires |bs| == 32
    ensures |EncodeBase64Url(bs)| == 43
  {
    EncodeBase64UrlShape(bs);
  }

  // ---------------------------------------------------------------------------
  // lower-case hexadecimal

  function HexDigit(v: int): (c: char)
    requires 0 <= v < 16
    ensures IsHexDigit(c)
  {
    if v < 10 then ('0' as int + v) as char else ('a' as int + (v - 10)) as char
  }

  predicate IsHexDigit(c: char) { '0' <= c <= '9' || 'a' <= c <= 'f' }

  function HexValue(c: char): (v: int)
    requires IsHexDigit(c)
    ensures 0 <= v < 16
  {
    if '0' <= c <= '9' then c as int - '0' as int else c as int - 'a' as int + 10
  }

  /** `hex::encode`: two lower-case digits per byte, high nibble first. */
  function EncodeHex(bs: seq<byte>): (s: string)
    decreases |bs|
  {
    if |bs| == 0 then [] else [HexDigit(bs[0] as int / 16), HexDigit(bs[0] as int % 16)] + EncodeHex(bs[1..])
  }

  /** The inverse of `EncodeHex` on strings of even length made of hex digits. */
  function DecodeHex(s: string): (r: seq<byte>)
    requires |s| % 2 == 0
    requires forall i :: 0 <= i < |s| ==> IsHexDigit(s[i])
    decreases |s|
  {
    if |s| == 0 then [] else [HexValue(s[0]) * 16 + HexValue(s[1])] + DecodeHex(s[2..])
  }

  lemma {:induction false} EncodeHexShape(bs: seq<byte>)
    ensures |EncodeHex(bs)| == 2 * |bs|
    ensures forall i :: 0 <= i < |EncodeHex(bs)| ==> IsHexDigit(EncodeHex(bs)[i])
    decreases |bs|
  {
    if |bs| > 0 {
      EncodeHexShape(bs[1..]);
      var head := [HexDigit(bs[0] as int / 16), HexDigit(bs[0] as int % 16)];
      var rest := EncodeHex(bs[1..]);
      forall i | 0 <= i < |head + rest|
        ensures IsHexDigit((head + rest)[i])
      {
        if i >= 2 {
          assert (head + rest)[i] == rest[i - 2];
        }
      }
    }
  }

  /** Hex encoding loses nothing: decoding gives the bytes back. */
  lemma {:induction false} HexRoundTrip(bs: seq<byte>)
    ensures |EncodeHex(bs)| % 2 == 0
    ensures forall i :: 0 <= i < |EncodeHex(bs)| ==> IsHexDigit(EncodeHex(bs)[i])
    ensures DecodeHex(EncodeHex(bs)) == bs
    decreases |bs|
  {
    EncodeHexShape(bs);
    if |bs| > 0 {
      var s := EncodeHex(bs);
      EncodeHexShape(bs[1..]);
      assert s[2..] == EncodeHex(bs[1..]);
      HexRoundTrip(bs[1..]);
      assert HexValue(s[0]) * 16 + HexValue(s[1]) == bs[0];
    }
  }
}
