/** The "base64url" alphabet of section 5 of RFC 4648, without the `=` padding
    (section 3.2 of RFC 4648 allows dropping it when the length is known).

    The engine configured in 01/src/pb/mod.rs is `GeneralPurpose::new(&URL_SAFE, NO_PAD)`.
    With that configuration the decoder is strict: it refuses any character outside
    the alphabet (so also `=`), a final group of a single character, and a final
    group whose unused low bits are not zero. The decoder therefore accepts exactly
    the texts the encoder produces, which `DecodeAcceptsExactlyEncodings` states.

    The codec has two layers: bytes to 6-bit values (`EncodeValues`/`DecodeValues`)
    and 6-bit values to characters (`Chars`/`Values`).
 */
module Base64Url {
  import opened Wrappers

  type Sextet = x: int | 0 <= x < 64

  /** The 64 characters of Table 2 of RFC 4648, with `-` and `_` for 62 and 63. */
  predicate IsAlphabetChar(c: char) {
    ('A' <= c <= 'Z') || ('a' <= c <= 'z') || ('0' <= c <= '9') || c == '-' || c == '_'
  }

  predicate IsToken(t: string) {
    forall i :: 0 <= i < |t| ==> IsAlphabetChar(t[i])
  }

  /** The character that stands for a 6-bit value. */
  function CharOf(v: Sextet): (c: char)
    ensures IsAlphabetChar(c)
  {
    if v < 26 then (v + 'A' as int) as char
    else if v < 52 then (v - 26 + 'a' as int) as char
    else if v < 62 then (v - 52 + '0' as int) as char
    else if v == 62 then '-'
    else '_'
  }

  /** The 6-bit value a character stands for, if it belongs to the alphabet. */
  function ValueOf(c: char): (r: Option<Sextet>)
    ensures r.Some? <==> IsAlphabetChar(c)
    ensures r.Some? ==> CharOf(r.value) == c
  {
    if 'A' <= c <= 'Z' then Some(c as int - 'A' as int)
    else if 'a' <= c <= 'z' then Some(c as int - 'a' as int + 26)
    else if '0' <= c <= '9' then Some(c as int - '0' as int + 52)
    else if c == '-' then Some(62)
    else if c == '_' then Some(63)
    else None
  }

  /** The alphabet is a bijection between 6-bit values and its 64 characters. */
  lemma ValueOfCharOf(v: Sextet)
    ensures ValueOf(CharOf(v)) == Some(v)
  {
  }

  function Chars(vs: seq<Sextet>): (t: string)
    ensures |t| == |vs|
    ensures IsToken(t)
  {
    seq(|vs|, i requires 0 <= i < |vs| => CharOf(vs[i]))
  }

  /** The values of a text's characters; `None` if one is outside the alphabet. */
  function Values(t: string): (r: Option<seq<Sextet>>)
    ensures r.Some? ==> |r.value| == |t|
  {
    if |t| == 0 then Some([])
    else
      match ValueOf(t[0])
      case None => None
      case Some(v) =>
        match Values(t[1..])
        case None => None
        case Some(vs) => Some([v] + vs)
  }

  lemma {:induction false} ValuesChars(vs: seq<Sextet>)
    ensures Values(Chars(vs)) == Some(vs)
  {
    if |vs| > 0 {
      ValueOfCharOf(vs[0]);
      assert Chars(vs)[1..] == Chars(vs[1..]);
      ValuesChars(vs[1..]);
      assert vs == [vs[0]] + vs[1..];
    }
  }

  lemma {:induction false} CharsValues(t: string, vs: seq<Sextet>)
    requires Values(t) == Some(vs)
    ensures Chars(vs) == t
  {
    if |t| > 0 {
      CharsValues(t[1..], vs[1..]);
    }
  }

  /** Values exist exactly for texts drawn from the alphabet. */
  lemma {:induction false} ValuesDefinedOnTokens(t: string)
    ensures Values(t).Some? <==> IsToken(t)
  {
    if |t| > 0 {
      ValuesDefinedOnTokens(t[1..]);
      assert IsToken(t) <==> IsAlphabetChar(t[0]) && IsToken(t[1..]);
    }
  }

  /** Length of the unpadded encoding of `n` bytes: the ceiling of 4n/3. */
  function EncodedLength(n: nat): nat {
    (4 * n + 2) / 3
  }

  /** Three bytes become four 6-bit values. */
  function EncodeGroup(b0: u8, b1: u8, b2: u8): seq<Sextet> {
    [b0 / 4, (b0 % 4) * 16 + b1 / 16, (b1 % 16) * 4 + b2 / 64, b2 % 64]
  }

  /** Four 6-bit values become three bytes. */
  function DecodeGroup(v0: Sextet, v1: Sextet, v2: Sextet, v3: Sextet): Bytes {
    var b0: u8 := v0 * 4 + v1 / 16;
    var b1: u8 := (v1 % 16) * 16 + v2 / 4;
    var b2: u8 := (v2 % 4) * 64 + v3;
    [b0, b1, b2]
  }

  lemma GroupRoundTrip(b0: u8, b1: u8, b2: u8)
    ensures var g := EncodeGroup(b0, b1, b2);
            DecodeGroup(g[0], g[1], g[2], g[3]) == [b0, b1, b2]
  {
  }

  lemma GroupRoundTripBack(v0: Sextet, v1: Sextet, v2: Sextet, v3: Sextet)
    ensures var b := DecodeGroup(v0, v1, v2, v3);
            EncodeGroup(b[0], b[1], b[2]) == [v0, v1, v2, v3]
  {
    var b := DecodeGroup(v0, v1, v2, v3);
    assert b[0] / 4 == v0 && b[0] % 4 == v1 / 16;
    assert b[1] / 16 == v1 % 16 && b[1] % 16 == v2 / 4;
    assert b[2] / 64 == v2 % 4 && b[2] % 64 == v3;
  }

  /** Full groups of three bytes give four values each; a final group of one byte
      gives two values and one of two bytes gives three, their unused low bits zero. */
  function EncodeValues(data: Bytes): (vs: seq<Sextet>)
    ensures |vs| == EncodedLength(|data|)
    decreases |data|
  {
    if |data| == 0 then []
    else if |data| == 1 then
      [data[0] / 4, (data[0] % 4) * 16]
    else if |data| == 2 then
      [data[0] / 4, (data[0] % 4) * 16 + data[1] / 16, (data[1] % 16) * 4]
    else
      EncodeGroup(data[0], data[1], data[2]) + EncodeValues(data[3..])
  }

  /** Inverse of `EncodeValues`, refusing a lone final value and non-zero unused bits. */
  function DecodeValues(vs: seq<Sextet>): (r: Option<Bytes>)
    decreases |vs|
  {
    if |vs| == 0 then Some([])
    else if |vs| == 1 then None
    else if |vs| == 2 then
      if vs[1] % 16 == 0 then Some(DecodeGroup(vs[0], vs[1], 0, 0)[..1]) else None
    else if |vs| == 3 then
      if vs[2] % 4 == 0 then Some(DecodeGroup(vs[0], vs[1], vs[2], 0)[..2]) else None
    else
      match DecodeValues(vs[4..])
      case None => None
      case Some(rest) => Some(DecodeGroup(vs[0], vs[1], vs[2], vs[3]) + rest)
  }

  lemma {:induction false} DecodeEncodeValues(data: Bytes)
    ensures DecodeValues(EncodeValues(data)) == Some(data)
    decreases |data|
  {
    var vs := EncodeValues(data);
    if |data| == 1 {
      var g := DecodeGroup(vs[0], vs[1], 0, 0);
      assert vs[1] % 16 == 0;
      assert g[0] == data[0];
      assert g[..1] == data;
    } else if |data| == 2 {
      var g := DecodeGroup(vs[0], vs[1], vs[2], 0);
      assert vs[2] % 4 == 0;
      assert g[0] == data[0] && g[1] == data[1];
      assert g[..2] == data;
    } else if |data| > 2 {
      var g := EncodeGroup(data[0], data[1], data[2]);
      assert vs == g + EncodeValues(data[3..]);
      assert vs[..4] == g && vs[4..] == EncodeValues(data[3..]);
      GroupRoundTrip(data[0], data[1], data[2]);
      DecodeEncodeValues(data[3..]);
      assert DecodeValues(vs) == Some(DecodeGroup(g[0], g[1], g[2], g[3]) + data[3..]);
      assert data == [data[0], data[1], data[2]] + data[3..];
    }
  }

  lemma {:induction false} EncodeDecodeValues(vs: seq<Sextet>, data: Bytes)
    requires DecodeValues(vs) == Some(data)
    ensures EncodeValues(data) == vs
    decreases |vs|
  {
    if |vs| > 3 {
      var rest := DecodeValues(vs[4..]).value;
      var g := DecodeGroup(vs[0], vs[1], vs[2], vs[3]);
      assert data == g + rest;
      EncodeDecodeValues(vs[4..], rest);
      GroupRoundTripBack(vs[0], vs[1], vs[2], vs[3]);
      assert data[3..] == rest;
      assert data[0] == g[0] && data[1] == g[1] && data[2] == g[2];
      assert vs == vs[..4] + vs[4..];
    }
  }

  /** The text of a byte string: never padded, drawn from the alphabet only, and
      exactly the ceiling of 4n/3 characters long for n bytes. */
  function Encode(data: Bytes): (t: string)
    ensures |t| == EncodedLength(|data|)
    ensures IsToken(t)
    ensures '=' !in t
  {
    Chars(EncodeValues(data))
  }

  /** Strict decoding; `None` stands for every error the decoder reports. Text
      with a character outside the alphabet is refused, and whatever is accepted
      is the encoding of the bytes returned. */
  function Decode(t: string): (r: Option<Bytes>)
    ensures !IsToken(t) ==> r.None?
    ensures r.Some? ==> Encode(r.value) == t
  {
    ValuesDefinedOnTokens(t);
    match Values(t)
    case None => None
    case Some(vs) =>
      var r := DecodeValues(vs);
      assert r.Some? ==> Encode(r.value) == t by {
        if r.Some? {
          EncodeDecodeValues(vs, r.value);
          CharsValues(t, vs);
        }
      }
      r
  }

  /** Decoding undoes encoding, for every byte string including the empty one. */
  lemma DecodeEncode(data: Bytes)
    ensures Decode(Encode(data)) == Some(data)
  {
    ValuesChars(EncodeValues(data));
    DecodeEncodeValues(data);
  }

  /** A text is accepted exactly when it is the encoding of some byte string. */
  lemma DecodeAcceptsExactlyEncodings(t: string)
    ensures Decode(t).Some? <==> exists data :: Encode(data) == t
  {
    if data :| Encode(data) == t {
      DecodeEncode(data);
    }
  }

  /** Encoding is injective: distinct byte strings give distinct texts. */
  lemma EncodeInjective(a: Bytes, b: Bytes)
    requires Encode(a) == Encode(b)
    ensures a == b
  {
    DecodeEncode(a);
    DecodeEncode(b);
  }

  lemma {:induction false} DecodeValuesRejectsBadLength(vs: seq<Sextet>)
    requires |vs| % 4 == 1
    ensures DecodeValues(vs) == None
    decreases |vs|
  {
    if |vs| > 4 {
      var q := |vs| / 4;
      assert |vs| == 4 * q + 1;
      assert |vs[4..]| == 4 * (q - 1) + 1;
      DecodeValuesRejectsBadLength(vs[4..]);
    } else {
      assert |vs| == 1;
    }
  }

  /** Texts whose length is 1 modulo 4 are refused, and so is any text holding a
      character outside the alphabet, the `=` pad among them. */
  lemma DecodeRejects(t: string)
    requires |t| % 4 == 1 || !IsToken(t)
    ensures Decode(t) == None
  {
    ValuesDefinedOnTokens(t);
    if Values(t).Some? {
      DecodeValuesRejectsBadLength(Values(t).value);
    }
  }
}
