/**
 * The byte encodings behind an HTTP Basic credential: `Encoding.ASCII`
 * (characters above U+007F become '?') and `Convert.ToBase64String` (the
 * standard alphabet of RFC 4648 section 4, with '=' padding and no line
 * breaks), with the decoder a receiving server applies.
 */
module Base64 {
  import opened Wrappers

  type byte = bv8

  /** The byte `Encoding.ASCII` writes for a character: its code below
      U+0080, '?' for any other. */
  function AsciiByte(c: char): byte
  {
    if c as int < 128 then (c as int) as byte else 0x3F
  }

  /** `Encoding.ASCII.GetBytes`: one byte per character. */
  function AsciiBytes(s: string): (bytes: seq<byte>)
    ensures |bytes| == |s|
    ensures forall i :: 0 <= i < |s| ==> bytes[i] == AsciiByte(s[i])
  {
    if s == [] then [] else [AsciiByte(s[0])] + AsciiBytes(s[1..])
  }

  /** Encoding two texts one after the other. */
  lemma AsciiBytesAppend(a: string, b: string)
    ensures AsciiBytes(a + b) == AsciiBytes(a) + AsciiBytes(b)
  {
    var l, r := AsciiBytes(a + b), AsciiBytes(a) + AsciiBytes(b);
    assert |l| == |r|;
    forall i | 0 <= i < |l|
      ensures l[i] == r[i]
    {
      if i < |a| {
        assert (a + b)[i] == a[i];
      } else {
        assert (a + b)[i] == b[i - |a|];
      }
    }
  }

  /** Only ':' is written as the byte of ':'; any other character, '?' for
      those outside ASCII included, is written as another byte. */
  lemma AsciiByteOfColon(c: char)
    ensures AsciiByte(c) == 0x3A <==> c == ':'
  {
    if c as int < 128 {
      assert AsciiByte(c) as int == c as int;
    }
  }

  /** A text without ':' encodes to bytes without the byte of ':'. */
  lemma AsciiBytesWithoutColon(s: string)
    requires ':' !in s
    ensures 0x3A !in AsciiBytes(s)
  {
    var bytes := AsciiBytes(s);
    forall i | 0 <= i < |bytes|
      ensures bytes[i] != 0x3A
    {
      AsciiByteOfColon(s[i]);
    }
  }

  /** The character of a 6-bit value. */
  function CharOf(v: byte): (c: char)
    requires v < 64
    ensures c != '='
  {
    if v < 26 then ('A' as int + v as int) as char
    else if v < 52 then ('a' as int + (v as int - 26)) as char
    else if v < 62 then ('0' as int + (v as int - 52)) as char
    else if v == 62 then '+'
    else '/'
  }

  /** The 6-bit value of a character of the alphabet, None for any other. */
  function ValueOf(c: char): (v: Option<byte>)
    ensures v.Some? ==> v.value < 64
  {
    if 'A' <= c <= 'Z' then Some((c as int - 'A' as int) as byte)
    else if 'a' <= c <= 'z' then Some((c as int - 'a' as int + 26) as byte)
    else if '0' <= c <= '9' then Some((c as int - '0' as int + 52) as byte)
    else if c == '+' then Some(62)
    else if c == '/' then Some(63)
    else None
  }

  lemma ValueOfCharOf(v: byte)
    requires v < 64
    ensures ValueOf(CharOf(v)) == Some(v)
  {
    var c := CharOf(v);
    if v < 26 {
      assert c as int == 'A' as int + v as int;
    } else if v < 52 {
      assert c as int == 'a' as int + v as int - 26;
    } else if v < 62 {
      assert c as int == '0' as int + v as int - 52;
    }
  }

  /** The four 6-bit pieces of three bytes, most significant first. */
  function Sextets(a: byte, b: byte, c: byte): (vs: seq<byte>)
    ensures |vs| == 4 && forall i :: 0 <= i < 4 ==> vs[i] < 64
  {
    var n: bv24 := (a as bv24 << 16) | (b as bv24 << 8) | c as bv24;
    [((n >> 18) & 63) as byte, ((n >> 12) & 63) as byte, ((n >> 6) & 63) as byte, (n & 63) as byte]
  }

  /** Three bytes as four characters. */
  function EncodeGroup(a: byte, b: byte, c: byte): (s: string)
    ensures |s| == 4
  {
    var vs := Sextets(a, b, c);
    [CharOf(vs[0]), CharOf(vs[1]), CharOf(vs[2]), CharOf(vs[3])]
  }

  /** Four 6-bit values as three bytes. */
  function DecodeGroup(w: byte, x: byte, y: byte, z: byte): (bytes: seq<byte>)
    requires w < 64 && x < 64 && y < 64 && z < 64
    ensures |bytes| == 3
  {
    var n: bv24 := (w as bv24 << 18) | (x as bv24 << 12) | (y as bv24 << 6) | z as bv24;
    [((n >> 16) & 0xFF) as byte, ((n >> 8) & 0xFF) as byte, (n & 0xFF) as byte]
  }

  /** The 6-bit pieces of three bytes put back together are those bytes. */
  lemma GroupRoundTrip(a: byte, b: byte, c: byte)
    ensures var vs := Sextets(a, b, c);
      DecodeGroup(vs[0], vs[1], vs[2], vs[3]) == [a, b, c]
  {
  }

  /** Zero bytes at the end give zero pieces at the end. */
  lemma PaddedSextets(a: byte, b: byte)
    ensures Sextets(a, 0, 0)[2] == 0 && Sextets(a, 0, 0)[3] == 0
    ensures Sextets(a, b, 0)[3] == 0
  {
  }

  /** `Convert.ToBase64String`. */
  function Encode(bytes: seq<byte>): (s: string)
    ensures |s| % 4 == 0
    decreases |bytes|
  {
    if |bytes| == 0 then ""
    else if |bytes| == 1 then EncodeGroup(bytes[0], 0, 0)[..2] + "=="
    else if |bytes| == 2 then EncodeGroup(bytes[0], bytes[1], 0)[..3] + "="
    else EncodeGroup(bytes[0], bytes[1], bytes[2]) + Encode(bytes[3..])
  }

  /** The four 6-bit values of the first four characters, when all four
      are in the alphabet. */
  function Values(s: string): (vs: Option<seq<byte>>)
    requires |s| >= 4
    ensures vs.Some? ==> |vs.value| == 4 && forall i :: 0 <= i < 4 ==> vs.value[i] < 64
  {
    match (ValueOf(s[0]), ValueOf(s[1]), ValueOf(s[2]), ValueOf(s[3]))
    case (Some(w), Some(x), Some(y), Some(z)) => Some([w, x, y, z])
    case _ => None
  }

  /** The three bytes of a group of four characters of the alphabet. */
  function DecodeFull(group: string): (bytes: Option<seq<byte>>)
    requires |group| == 4
  {
    match Values(group)
    case Some(vs) => Some(DecodeGroup(vs[0], vs[1], vs[2], vs[3]))
    case None => None
  }

  /** A last group ending in "==" holds one byte, one ending in "=" two. */
  function DecodePadded(group: string): (bytes: Option<seq<byte>>)
    requires |group| == 4 && group[3] == '='
  {
    if group[2] == '=' then
      match Values(group[..2] + "AA")
      case Some(vs) => Some(DecodeGroup(vs[0], vs[1], 0, 0)[..1])
      case None => None
    else
      match Values(group[..3] + "A")
      case Some(vs) => Some(DecodeGroup(vs[0], vs[1], vs[2], 0)[..2])
      case None => None
  }

  /** Base64 decoding: groups of four characters, of which only the last
      may be padded with '='. None for any other text. */
  function Decode(s: string): (bytes: Option<seq<byte>>)
    decreases |s|
  {
    if |s| == 0 then Some([])
    else if |s| < 4 then None
    else if |s| == 4 && s[3] == '=' then DecodePadded(s)
    else
      match (DecodeFull(s[..4]), Decode(s[4..]))
      case (Some(group), Some(rest)) => Some(group + rest)
      case _ => None
  }

  /** The characters of a full group give back its pieces. */
  lemma ValuesOfGroup(a: byte, b: byte, c: byte, rest: string)
    ensures Values(EncodeGroup(a, b, c) + rest) == Some(Sextets(a, b, c))
  {
    var vs := Sextets(a, b, c);
    ValueOfCharOf(vs[0]);
    ValueOfCharOf(vs[1]);
    ValueOfCharOf(vs[2]);
    ValueOfCharOf(vs[3]);
  }

  /** The last, padded group of one byte decodes to that byte. */
  lemma OneByteRoundTrip(bytes: seq<byte>)
    requires |bytes| == 1
    ensures Decode(Encode(bytes)) == Some(bytes)
  {
    var a := bytes[0];
    assert bytes == [a];
    var g := EncodeGroup(a, 0, 0);
    var s := Encode([a]);
    var vs := Sextets(a, 0, 0);
    assert s == g[..2] + "==";
    assert s[..2] + "AA" == g by {
      PaddedSextets(a, 0);
      assert CharOf(0) == 'A';
    }
    ValuesOfGroup(a, 0, 0, "");
    assert g + "" == g;
    GroupRoundTrip(a, 0, 0);
    PaddedSextets(a, 0);
    assert DecodeGroup(vs[0], vs[1], 0, 0) == [a, 0, 0];
    assert Values(s[..2] + "AA") == Some(vs);
    assert |s| == 4 && s[2] == '=' && s[3] == '=';
    assert DecodePadded(s) == Some(DecodeGroup(vs[0], vs[1], 0, 0)[..1]);
    assert DecodeGroup(vs[0], vs[1], 0, 0)[..1] == [a];
  }

  /** The last, padded group of two bytes decodes to those bytes. */
  lemma TwoBytesRoundTrip(bytes: seq<byte>)
    requires |bytes| == 2
    ensures Decode(Encode(bytes)) == Some(bytes)
  {
    var a, b := bytes[0], bytes[1];
    assert bytes == [a, b];
    var g := EncodeGroup(a, b, 0);
    var s := Encode([a, b]);
    var vs := Sextets(a, b, 0);
    assert s == g[..3] + "=";
    assert s[..3] + "A" == g by {
      PaddedSextets(a, b);
      assert CharOf(0) == 'A';
    }
    ValuesOfGroup(a, b, 0, "");
    assert g + "" == g;
    GroupRoundTrip(a, b, 0);
    PaddedSextets(a, b);
    assert DecodeGroup(vs[0], vs[1], vs[2], 0) == [a, b, 0];
    assert Values(s[..3] + "A") == Some(vs);
    assert |s| == 4 && s[2] != '=' && s[3] == '=';
    assert DecodePadded(s) == Some(DecodeGroup(vs[0], vs[1], vs[2], 0)[..2]);
    assert DecodeGroup(vs[0], vs[1], vs[2], 0)[..2] == [a, b];
  }

  /** A full group decodes to its bytes. */
  lemma DecodeFullOfGroup(a: byte, b: byte, c: byte)
    ensures DecodeFull(EncodeGroup(a, b, c)) == Some([a, b, c])
  {
    ValuesOfGroup(a, b, c, "");
    assert EncodeGroup(a, b, c) + "" == EncodeGroup(a, b, c);
    GroupRoundTrip(a, b, c);
  }

  /** A full group in front of decodable text decodes to its bytes in
      front of what that text decodes to. */
  lemma DecodeFullGroup(a: byte, b: byte, c: byte, rest: string)
    requires Decode(rest).Some?
    ensures Decode(EncodeGroup(a, b, c) + rest) == Some([a, b, c] + Decode(rest).value)
  {
    var g := EncodeGroup(a, b, c);
    var s := g + rest;
    DecodeFullOfGroup(a, b, c);
    assert s[3] == g[3] != '=';
    assert s[..4] == g;
    assert s[4..] == rest;
  }

  /** Decoding undoes encoding. */
  lemma {:induction false} DecodeEncode(bytes: seq<byte>)
    ensures Decode(Encode(bytes)) == Some(bytes)
    decreases |bytes|
  {
    if |bytes| >= 3 {
      var rest := Encode(bytes[3..]);
      assert Encode(bytes) == EncodeGroup(bytes[0], bytes[1], bytes[2]) + rest;
      DecodeEncode(bytes[3..]);
      DecodeFullGroup(bytes[0], bytes[1], bytes[2], rest);
      assert bytes == [bytes[0], bytes[1], bytes[2]] + bytes[3..];
    } else if |bytes| == 1 {
      OneByteRoundTrip(bytes);
    } else if |bytes| == 2 {
      TwoBytesRoundTrip(bytes);
    }
  }
}
