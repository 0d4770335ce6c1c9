/** The export obfuscation shared by src/js/apis/exporting.ts and
    src/js/apis/profiles.ts (the two classes carry the same code):
    every UTF-16 code unit is XORed with 2, the result is percent-encoded
    with `encodeURIComponent` and then base64-encoded with `btoa`
    (RFC 4648 section 4 alphabet with `=` padding); decryption runs the
    steps backwards through the forgiving `atob`. Strings here are
    sequences of UTF-16 code units. */
module Obfuscation {
  import opened Wrappers

  type Unit = bv16
  type Units = seq<Unit>

  /** The XOR layer, unit by unit. */
  function Flip(u: Unit): Unit { u ^ 2 }

  function Xor2(s: Units): (r: Units)
    ensures |r| == |s|
    ensures forall k :: 0 <= k < |s| ==> r[k] == Flip(s[k])
  {
    if s == [] then [] else [Flip(s[0])] + Xor2(s[1..])
  }

  /** The XOR layer undoes itself. */
  lemma Xor2Involution(s: Units)
    ensures Xor2(Xor2(s)) == s
  {
    forall k | 0 <= k < |s|
      ensures Xor2(Xor2(s))[k] == s[k]
    {
      FlipFlip(s[k]);
    }
  }

  lemma FlipFlip(u: Unit)
    ensures Flip(Flip(u)) == u
  {
  }

  /** The loop of `base6xorEncrypt` and `base6xorDecrypt`. */
  method XorEach(text: Units) returns (output: Units)
    ensures output == Xor2(text)
  {
    output := [];
    var i := 0;
    while i < |text|
      invariant 0 <= i <= |text|
      invariant |output| == i
      invariant forall k :: 0 <= k < i ==> output[k] == Flip(text[k])
    {
      output := output + [text[i] ^ 2];
      i := i + 1;
    }
  }

  predicate IsHigh(u: Unit) { 0xD800 <= u <= 0xDBFF }
  predicate IsLow(u: Unit) { 0xDC00 <= u <= 0xDFFF }

  /** Every surrogate is half of a pair: what `encodeURIComponent` accepts. */
  predicate WellFormed(s: Units) {
    && (forall k :: 0 <= k < |s| && IsHigh(s[k]) ==> k + 1 < |s| && IsLow(s[k + 1]))
    && (forall k :: 0 <= k < |s| && IsLow(s[k]) ==> k > 0 && IsHigh(s[k - 1]))
  }

  lemma XorKeepsKind(u: Unit)
    ensures IsHigh(Flip(u)) <==> IsHigh(u)
    ensures IsLow(Flip(u)) <==> IsLow(u)
  {
  }

  /** The XOR layer keeps surrogate pairs intact and lone surrogates lone,
      so percent-encoding fails on the XORed text exactly when it would
      fail on the text. */
  lemma Xor2WellFormed(s: Units)
    ensures WellFormed(Xor2(s)) <==> WellFormed(s)
  {
    forall k | 0 <= k < |s|
      ensures IsHigh(Xor2(s)[k]) <==> IsHigh(s[k])
      ensures IsLow(Xor2(s)[k]) <==> IsLow(s[k])
    {
      XorKeepsKind(s[k]);
    }
  }

  // ---------------------------------------------------------------------
  // Base64, RFC 4648 section 4, as `btoa` and the forgiving `atob`.

  /** The alphabet character of a sextet. */
  function B64Char(v: bv8): (c: Unit)
    requires v < 64
  {
    if v < 26 then 0x41 + v as Unit
    else if v < 52 then 0x61 + (v - 26) as Unit
    else if v < 62 then 0x30 + (v - 52) as Unit
    else if v == 62 then 0x2B
    else 0x2F
  }

  /** The sextet of an alphabet character, `None` for anything else. */
  function B64Value(c: Unit): (r: Option<bv8>)
    ensures r.Some? ==> r.value < 64
  {
    if 0x41 <= c <= 0x5A then Some((c - 0x41) as bv8)
    else if 0x61 <= c <= 0x7A then Some((c - 0x61 + 26) as bv8)
    else if 0x30 <= c <= 0x39 then Some((c - 0x30 + 52) as bv8)
    else if c == 0x2B then Some(62)
    else if c == 0x2F then Some(63)
    else None
  }

  const Pad: Unit := 0x3D

  predicate InAlphabet(c: Unit) { B64Value(c).Some? }

  lemma B64ValueOfChar(v: bv8)
    requires v < 64
    ensures B64Value(B64Char(v)) == Some(v)
  {
  }

  // The four sextets of a three-byte group, and the bytes back.
  function Hi6(b0: bv8): (v: bv8) ensures v < 64 { b0 >> 2 }
  function Mid6(b0: bv8, b1: bv8): (v: bv8) ensures v < 64 { ((b0 & 3) << 4) | (b1 >> 4) }
  function Low6(b1: bv8, b2: bv8): (v: bv8) ensures v < 64 { ((b1 & 15) << 2) | (b2 >> 6) }
  function Last6(b2: bv8): (v: bv8) ensures v < 64 { b2 & 63 }

  function Byte0(v0: bv8, v1: bv8): bv8 { (v0 << 2) | (v1 >> 4) }
  function Byte1(v1: bv8, v2: bv8): bv8 { (v1 << 4) | (v2 >> 2) }
  function Byte2(v2: bv8, v3: bv8): bv8 { (v2 << 6) | v3 }

  /** Each byte of a group comes back from its sextets; a missing byte
      reads as zero in the shortened last group. */
  lemma GroupRoundTrip(b0: bv8, b1: bv8, b2: bv8)
    ensures Byte0(Hi6(b0), Mid6(b0, b1)) == b0
    ensures Byte1(Mid6(b0, b1), Low6(b1, b2)) == b1
    ensures Byte2(Low6(b1, b2), Last6(b2)) == b2
  {
  }

  /** The sextets of a byte string, three bytes to four sextets, the last
      group shortened to two or three sextets. */
  function Sextets(b: seq<bv8>): (r: seq<bv8>)
    ensures forall k :: 0 <= k < |r| ==> r[k] < 64
    ensures |r| % 4 != 1
    ensures |r| == 4 * (|b| / 3) + (if |b| % 3 == 0 then 0 else |b| % 3 + 1)
    decreases |b|
  {
    if |b| == 0 then []
    else if |b| == 1 then [Hi6(b[0]), Mid6(b[0], 0)]
    else if |b| == 2 then [Hi6(b[0]), Mid6(b[0], b[1]), Low6(b[1], 0)]
    else
      ThirdsStep(|b|);
      [Hi6(b[0]), Mid6(b[0], b[1]), Low6(b[1], b[2]), Last6(b[2])] + Sextets(b[3..])
  }

  /** Dropping one group of three bytes. */
  lemma ThirdsStep(n: nat)
    requires n >= 3
    ensures (n - 3) / 3 == n / 3 - 1 && (n - 3) % 3 == n % 3
  {
  }

  lemma QuadMod(q: nat, c: nat)
    ensures (4 * q + c) % 4 == c % 4
  {
  }

  /** Bytes back from sextets, four sextets to three bytes. */
  function Bytes(v: seq<bv8>): seq<bv8>
    requires |v| % 4 != 1
    decreases |v|
  {
    if |v| == 0 then []
    else if |v| == 2 then [Byte0(v[0], v[1])]
    else if |v| == 3 then [Byte0(v[0], v[1]), Byte1(v[1], v[2])]
    else [Byte0(v[0], v[1]), Byte1(v[1], v[2]), Byte2(v[2], v[3])] + Bytes(v[4..])
  }

  lemma {:induction false} BytesOfSextets(b: seq<bv8>)
    ensures Bytes(Sextets(b)) == b
    decreases |b|
  {
    if |b| == 1 {
      GroupRoundTrip(b[0], 0, 0);
    } else if |b| == 2 {
      GroupRoundTrip(b[0], b[1], 0);
    } else if |b| >= 3 {
      GroupRoundTrip(b[0], b[1], b[2]);
      BytesOfSextets(b[3..]);
      var s := Sextets(b);
      assert s[4..] == Sextets(b[3..]);
      assert Bytes(s) == [Byte0(s[0], s[1]), Byte1(s[1], s[2]), Byte2(s[2], s[3])] + Bytes(s[4..]);
      assert b == [b[0], b[1], b[2]] + b[3..];
    }
  }

  function Chars(v: seq<bv8>): (r: Units)
    requires forall k :: 0 <= k < |v| ==> v[k] < 64
    ensures |r| == |v|
    ensures forall k :: 0 <= k < |v| ==> r[k] == B64Char(v[k])
  {
    if v == [] then [] else [B64Char(v[0])] + Chars(v[1..])
  }

  /** The sextets of alphabet characters; `None` if one is not. */
  function Values(s: Units): (r: Option<seq<bv8>>)
    ensures r.Some? ==> |r.value| == |s| && forall k :: 0 <= k < |s| ==> r.value[k] < 64
  {
    if s == [] then Some([])
    else match (B64Value(s[0]), Values(s[1..]))
      case (Some(v), Some(rest)) => Some([v] + rest)
      case _ => None
  }

  lemma {:induction false} ValuesOfChars(v: seq<bv8>)
    requires forall k :: 0 <= k < |v| ==> v[k] < 64
    ensures Values(Chars(v)) == Some(v)
  {
    if v != [] {
      var u := Chars(v);
      B64ValueOfChar(v[0]);
      ValuesOfChars(v[1..]);
      assert u == [B64Char(v[0])] + Chars(v[1..]);
      ValuesCons(B64Char(v[0]), Chars(v[1..]));
      assert v == [v[0]] + v[1..];
    }
  }

  lemma ValuesCons(c: Unit, rest: Units)
    requires B64Value(c).Some? && Values(rest).Some?
    ensures Values([c] + rest) == Some([B64Value(c).value] + Values(rest).value)
  {
    assert ([c] + rest)[1..] == rest;
  }

  function Padding(n: nat): Units {
    if n % 3 == 1 then [Pad, Pad] else if n % 3 == 2 then [Pad] else []
  }

  /** Base64 of a byte string. */
  function Encode(b: seq<bv8>): (r: Units)
    ensures |r| % 4 == 0
  {
    QuadMod(|b| / 3, if |b| % 3 == 0 then 0 else 4);
    Chars(Sextets(b)) + Padding(|b|)
  }

  /** The encoding is made of the alphabet and trailing `=` only. */
  lemma EncodeAlphabet(b: seq<bv8>)
    ensures forall k :: 0 <= k < |Encode(b)| ==> InAlphabet(Encode(b)[k]) || Encode(b)[k] == Pad
    ensures forall k :: 0 <= k < |Encode(b)| && Encode(b)[k] == Pad ==> k >= |Encode(b)| - 2
  {
    var v := Sextets(b);
    forall k | 0 <= k < |v|
      ensures InAlphabet(Chars(v)[k])
    {
      B64ValueOfChar(v[k]);
    }
  }

  /** ASCII white space, which the forgiving decoder skips. */
  predicate IsAsciiSpace(c: Unit) {
    c == 0x09 || c == 0x0A || c == 0x0C || c == 0x0D || c == 0x20
  }

  function RemoveSpace(s: Units): (r: Units)
    ensures |r| <= |s|
  {
    if s == [] then [] else (if IsAsciiSpace(s[0]) then [] else [s[0]]) + RemoveSpace(s[1..])
  }

  lemma {:induction false} RemoveSpaceNone(s: Units)
    requires forall k :: 0 <= k < |s| ==> !IsAsciiSpace(s[k])
    ensures RemoveSpace(s) == s
  {
    if s != [] {
      RemoveSpaceNone(s[1..]);
      assert s == [s[0]] + s[1..];
    }
  }

  /** One or two trailing `=` removed from a length divisible by four. */
  function StripPadding(s: Units): Units {
    if |s| % 4 == 0 && |s| >= 2 && s[|s| - 1] == Pad && s[|s| - 2] == Pad then s[..|s| - 2]
    else if |s| % 4 == 0 && |s| >= 1 && s[|s| - 1] == Pad then s[..|s| - 1]
    else s
  }

  /** The forgiving base64 decode on bytes: `None` where `atob` throws. */
  function Decode(s: Units): Option<seq<bv8>> {
    var t := StripPadding(RemoveSpace(s));
    if |t| % 4 == 1 then None
    else match Values(t)
      case None => None
      case Some(v) => Some(Bytes(v))
  }

  /** Alphabet characters are neither white space, padding nor commas. */
  lemma CharIsPlain(v: bv8)
    requires v < 64
    ensures !IsAsciiSpace(B64Char(v)) && B64Char(v) != Pad && B64Char(v) != Comma
  {
  }

  lemma EncodePlain(b: seq<bv8>)
    ensures forall k :: 0 <= k < |Encode(b)| ==> !IsAsciiSpace(Encode(b)[k]) && Encode(b)[k] != Comma
  {
    var v := Sextets(b);
    var e := Encode(b);
    forall k | 0 <= k < |e|
      ensures !IsAsciiSpace(e[k]) && e[k] != Comma
    {
      if k < |v| {
        CharIsPlain(v[k]);
      }
    }
  }

  /** Removing the padding leaves the alphabet characters. */
  lemma StripEncode(b: seq<bv8>)
    ensures StripPadding(Encode(b)) == Chars(Sextets(b))
  {
    var v := Sextets(b);
    var core := Chars(v);
    var e := Encode(b);
    if |core| > 0 {
      CharIsPlain(v[|v| - 1]);
    }
    if |b| % 3 == 1 {
      assert e[..|e| - 2] == core;
    } else if |b| % 3 == 2 {
      assert e[|e| - 2] == core[|core| - 1];
      assert e[..|e| - 1] == core;
    } else {
      assert e == core;
    }
  }

  lemma DecodeEncode(b: seq<bv8>)
    ensures Decode(Encode(b)) == Some(b)
  {
    EncodePlain(b);
    RemoveSpaceNone(Encode(b));
    StripEncode(b);
    ValuesOfChars(Sextets(b));
    BytesOfSextets(b);
  }

  /** A string whose every unit fits in a byte (what `btoa` accepts). */
  predicate Latin1(s: Units) {
    forall k :: 0 <= k < |s| ==> s[k] <= 0xFF
  }

  function ByteOf(u: Unit): bv8
    requires u <= 0xFF
  {
    u as bv8
  }

  function UnitOf(b: bv8): (u: Unit)
    ensures u <= 0xFF
  {
    b as Unit
  }

  lemma UnitOfByteOf(u: Unit)
    requires u <= 0xFF
    ensures UnitOf(ByteOf(u)) == u
  {
  }

  function ToBytes(s: Units): (b: seq<bv8>)
    requires Latin1(s)
    ensures |b| == |s|
    ensures forall k :: 0 <= k < |s| ==> b[k] == ByteOf(s[k])
  {
    if s == [] then [] else [ByteOf(s[0])] + ToBytes(s[1..])
  }

  function FromBytes(b: seq<bv8>): (s: Units)
    ensures |s| == |b| && Latin1(s)
    ensures forall k :: 0 <= k < |b| ==> s[k] == UnitOf(b[k])
  {
    if b == [] then [] else [UnitOf(b[0])] + FromBytes(b[1..])
  }

  lemma FromToBytes(s: Units)
    requires Latin1(s)
    ensures FromBytes(ToBytes(s)) == s
  {
    forall k | 0 <= k < |s|
      ensures FromBytes(ToBytes(s))[k] == s[k]
    {
      UnitOfByteOf(s[k]);
    }
  }

  /** `btoa`: `None` (InvalidCharacterError) on a unit above 0xFF. */
  function Btoa(s: Units): Option<Units> {
    if Latin1(s) then Some(Encode(ToBytes(s))) else None
  }

  /** `atob`: `None` (InvalidCharacterError) on malformed input. */
  function Atob(s: Units): Option<Units> {
    match Decode(s)
    case None => None
    case Some(b) => Some(FromBytes(b))
  }

  lemma AtobBtoa(s: Units)
    requires Latin1(s)
    ensures Btoa(s).Some? && Atob(Btoa(s).value) == Some(s)
  {
    DecodeEncode(ToBytes(s));
    FromToBytes(s);
  }

  // ---------------------------------------------------------------------
  // The pipeline. `encodeURIComponent` and `decodeURIComponent` are
  // parameters; `None` is the URIError they throw.

  type Codec = Units -> Option<Units>

  /** `decodeURIComponent` undoes `encodeURIComponent`. */
  ghost predicate Inverse(encode: Codec, decode: Codec) {
    forall s :: encode(s).Some? ==> decode(encode(s).value) == Some(s)
  }

  /** `encodeURIComponent` produces ASCII only. */
  ghost predicate AsciiOutput(encode: Codec) {
    forall s :: encode(s).Some? ==> forall k :: 0 <= k < |encode(s).value| ==> encode(s).value[k] < 0x80
  }

  /** `base6xorEncrypt`; `None` where it throws. */
  function Encrypted(text: Units, encode: Codec): (r: Option<Units>)
    ensures r.Some? <==> encode(Xor2(text)).Some? && Latin1(encode(Xor2(text)).value)
    ensures r.Some? ==> |r.value| % 4 == 0
  {
    match encode(Xor2(text))
    case None => None
    case Some(e) => Btoa(e)
  }

  /** `base6xorDecrypt`; `None` where it throws. */
  function Decrypted(data: Units, decode: Codec): (r: Option<Units>)
    ensures r.Some? <==> Atob(data).Some? && decode(Atob(data).value).Some?
    ensures r.Some? ==> Xor2(r.value) == decode(Atob(data).value).value
  {
    match Atob(data)
    case None => None
    case Some(d) =>
      match decode(d)
      case None => None
      case Some(t) => Xor2Involution(t); Some(Xor2(t))
  }

  method Base6xorEncrypt(text: Units, encode: Codec) returns (r: Option<Units>)
    ensures r == Encrypted(text, encode)
  {
    var output := XorEach(text);
    var e := encode(output);
    if e.None? {
      return None;
    }
    r := Btoa(e.value);
  }

  method Base6xorDecrypt(data: Units, decode: Codec) returns (r: Option<Units>)
    ensures r == Decrypted(data, decode)
  {
    var decoded := Atob(data);
    if decoded.None? {
      return None;
    }
    var t := decode(decoded.value);
    if t.None? {
      return None;
    }
    var output := XorEach(t.value);
    r := Some(output);
  }

  /** Decryption recovers whatever encryption accepted. */
  lemma RoundTrip(text: Units, encode: Codec, decode: Codec)
    requires Inverse(encode, decode) && AsciiOutput(encode)
    requires Encrypted(text, encode).Some?
    ensures Decrypted(Encrypted(text, encode).value, decode) == Some(text)
  {
    var e := encode(Xor2(text)).value;
    assert Latin1(e);
    AtobBtoa(e);
    Xor2Involution(text);
  }

  /** With an ASCII percent-encoder, encryption fails only where the
      encoder does, and its output is base64 text. */
  lemma EncryptedAlphabet(text: Units, encode: Codec)
    requires AsciiOutput(encode)
    ensures Encrypted(text, encode).None? <==> encode(Xor2(text)).None?
    ensures Encrypted(text, encode).Some? ==>
      forall k :: 0 <= k < |Encrypted(text, encode).value| ==>
        InAlphabet(Encrypted(text, encode).value[k]) || Encrypted(text, encode).value[k] == Pad
  {
    if encode(Xor2(text)).Some? {
      var e := encode(Xor2(text)).value;
      assert Latin1(e);
      EncodeAlphabet(ToBytes(e));
    }
  }

  // ---------------------------------------------------------------------
  // `decodeBase64` of exporting.ts.

  const Comma: Unit := 0x2C

  /** The JavaScript string "undefined", which `atob(undefined)` decodes. */
  const UndefinedText: Units := [0x75, 0x6E, 0x64, 0x65, 0x66, 0x69, 0x6E, 0x65, 0x64]

  function IndexOfUnit(s: Units, c: Unit): (i: int)
    ensures -1 <= i < |s|
    ensures i == -1 ==> c !in s
    ensures i >= 0 ==> s[i] == c && c !in s[..i]
  {
    if s == [] then -1
    else if s[0] == c then 0
    else var j := IndexOfUnit(s[1..], c); if j == -1 then -1 else j + 1
  }

  /** `split(",")[1]`: the text between the first and second comma (or the
      end), `None` for `undefined` when there is no comma. */
  function SecondField(s: Units): (r: Option<Units>)
    ensures r.Some? ==> Comma !in r.value
    ensures r.None? <==> Comma !in s
    ensures r.Some? ==>
      var i := IndexOfUnit(s, Comma);
      i + 1 + |r.value| <= |s| && r.value == s[i + 1..i + 1 + |r.value|]
      && (i + 1 + |r.value| == |s| || s[i + 1 + |r.value|] == Comma)
  {
    var i := IndexOfUnit(s, Comma);
    if i == -1 then None
    else
      var rest := s[i + 1..];
      var j := IndexOfUnit(rest, Comma);
      Some(if j == -1 then rest else rest[..j])
  }

  /** `decodeBase64`. */
  function DecodeBase64(dataUrl: Units): (r: Option<Units>)
    ensures r.Some? ==> Comma in dataUrl
  {
    match SecondField(dataUrl)
    case Some(b) => Atob(b)
    case None => UndefinedFails(); Atob(UndefinedText)
  }

  /** `atob("undefined")` throws: nine letters are no base64 text. */
  lemma UndefinedFails()
    ensures Atob(UndefinedText) == None
  {
    var u := UndefinedText;
    assert forall k :: 0 <= k < |u| ==> u[k] >= 0x61;
    DecodeLengthOne(u);
  }

  /** A data URL's payload after its first comma is decoded. */
  lemma DecodeBase64Payload(header: Units, payload: seq<bv8>)
    requires Comma !in header
    ensures DecodeBase64(header + [Comma] + Encode(payload)) == Some(FromBytes(payload))
  {
    var e := Encode(payload);
    var s := header + [Comma] + e;
    assert s[..|header|] == header;
    IndexOfFirst(s, Comma, |header|);
    assert s[|header| + 1..] == e;
    EncodePlain(payload);
    assert Comma !in e;
    DecodeEncode(payload);
  }

  /** A length that leaves one on division by four cannot be decoded. */
  lemma DecodeLengthOne(s: Units)
    requires forall k :: 0 <= k < |s| ==> !IsAsciiSpace(s[k])
    requires |s| % 4 == 1
    ensures Decode(s) == None
  {
    RemoveSpaceNone(s);
  }

  lemma {:induction false} IndexOfFirst(s: Units, c: Unit, i: nat)
    requires i < |s| && s[i] == c && c !in s[..i]
    ensures IndexOfUnit(s, c) == i
    decreases i
  {
    if i > 0 {
      assert s[0] == s[..i][0];
      assert s[1..][i - 1] == c;
      assert s[1..][..i - 1] == s[..i][1..];
      IndexOfFirst(s[1..], c, i - 1);
    }
  }
}
