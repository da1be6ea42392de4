/**
  The base64url helpers of src/lib/device-identity.ts. The browser's `btoa` and `atob` are modelled as the
  base64 encoding of section 4 of RFC 4648; the helpers turn it into the encoding of section 5, without padding.
  */
module Base64Url {
  import opened Wrappers

  type Byte = b: int | 0 <= b < 256

  type Sextet = v: int | 0 <= v < 64

  /** The alphabet of section 4. */
  function ToChar(v: Sextet): char {
    if v < 26 then (v + 'A' as int) as char
    else if v < 52 then (v - 26 + 'a' as int) as char
    else if v < 62 then (v - 52 + '0' as int) as char
    else if v == 62 then '+'
    else '/'
  }

  /** The value of a character of the alphabet. */
  function FromChar(c: char): Option<Sextet> {
    if 'A' <= c <= 'Z' then Some(c as int - 'A' as int)
    else if 'a' <= c <= 'z' then Some(c as int - 'a' as int + 26)
    else if '0' <= c <= '9' then Some(c as int - '0' as int + 52)
    else if c == '+' then Some(62)
    else if c == '/' then Some(63)
    else None
  }

  // ---------------------------------------------------------------------------
  // base64, section 4 of RFC 4648

  function Encode(bytes: seq<Byte>): string {
    if bytes == [] then ""
    else if |bytes| == 1 then
      [ToChar(bytes[0] / 4), ToChar(bytes[0] % 4 * 16), '=', '=']
    else if |bytes| == 2 then
      [ToChar(bytes[0] / 4), ToChar(bytes[0] % 4 * 16 + bytes[1] / 16), ToChar(bytes[1] % 16 * 4), '=']
    else
      [ToChar(bytes[0] / 4), ToChar(bytes[0] % 4 * 16 + bytes[1] / 16),
       ToChar(bytes[1] % 16 * 4 + bytes[2] / 64), ToChar(bytes[2] % 64)] + Encode(bytes[3..])
  }

  /** The bytes of the last group of four characters, which may be padded. */
  function DecodeLast(s: string): Option<seq<Byte>>
    requires |s| == 4
  {
    match (FromChar(s[0]), FromChar(s[1]))
    case (Some(a), Some(b)) =>
      if s[2] == '=' && s[3] == '=' then Some([a * 4 + b / 16])
      else
        (match FromChar(s[2])
         case None => None
         case Some(c) =>
           if s[3] == '=' then Some([a * 4 + b / 16, b % 16 * 16 + c / 4])
           else
             match FromChar(s[3])
             case None => None
             case Some(d) => Some([a * 4 + b / 16, b % 16 * 16 + c / 4, c % 4 * 64 + d]))
    case _ => None
  }

  /** None stands for the exception on a malformed text. Bits left over by padding are dropped. */
  function Decode(s: string): Option<seq<Byte>>
    decreases |s|
  {
    if s == "" then Some([])
    else if |s| < 4 then None
    else if |s| == 4 then DecodeLast(s)
    else
      match (DecodeLast(s[..4]), Decode(s[4..]))
      case (Some(head), Some(tail)) => if |head| == 3 then Some(head + tail) else None
      case _ => None
  }

  /** The bytes that a string of characters below 256 stands for. */
  function Bytes(binary: string): (bytes: seq<Byte>)
    requires forall i :: 0 <= i < |binary| ==> binary[i] as int < 256
    ensures |bytes| == |binary| && forall i :: 0 <= i < |binary| ==> bytes[i] == binary[i] as int
  {
    if binary == "" then [] else [binary[0] as int] + Bytes(binary[1..])
  }

  function Btoa(binary: string): string
    requires forall i :: 0 <= i < |binary| ==> binary[i] as int < 256
  {
    Encode(Bytes(binary))
  }

  function Atob(s: string): Option<string> {
    match Decode(s)
    case None => None
    case Some(bytes) => Some(seq(|bytes|, i requires 0 <= i < |bytes| => bytes[i] as char))
  }

  // ---------------------------------------------------------------------------
  // The helpers

  function Replace(s: string, from: char, to: char): (r: string)
    ensures |r| == |s| && forall i :: 0 <= i < |s| ==> r[i] == if s[i] == from then to else s[i]
  {
    seq(|s|, i requires 0 <= i < |s| => if s[i] == from then to else s[i])
  }

  function WithoutPadding(s: string): string {
    if s != "" && s[|s| - 1] == '=' then WithoutPadding(s[..|s| - 1]) else s
  }

  function Repeat(c: char, n: nat): string {
    seq(n, _ => c)
  }

  function UrlSafe(s: string): string {
    Replace(Replace(s, '+', '-'), '/', '_')
  }

  function Normalized(value: string): string {
    Replace(Replace(value, '-', '+'), '_', '/')
  }

  function EncodeUrl(bytes: seq<Byte>): string {
    WithoutPadding(UrlSafe(Encode(bytes)))
  }

  function Padded(value: string): string {
    Normalized(value) + Repeat('=', (4 - |Normalized(value)| % 4) % 4)
  }

  method ToBase64Url(bytes: seq<Byte>) returns (text: string)
    ensures text == EncodeUrl(bytes)
  {
    var binary := "";
    for i := 0 to |bytes|
      invariant |binary| == i && forall k :: 0 <= k < i ==> binary[k] == bytes[k] as char
    {
      binary := binary + [bytes[i] as char];
    }
    assert Bytes(binary) == bytes;
    text := WithoutPadding(UrlSafe(Btoa(binary)));
  }

  /** None stands for the exception that `atob` throws. */
  method FromBase64Url(value: string) returns (bytes: Option<array<Byte>>)
    ensures bytes.Some? <==> Decode(Padded(value)).Some?
    ensures bytes.Some? ==> bytes.value[..] == Decode(Padded(value)).value && fresh(bytes.value)
  {
    var binary := Atob(Padded(value));
    if binary == None {
      return None;
    }
    var buffer := new Byte[|binary.value|];
    for i := 0 to |binary.value|
      invariant forall k :: 0 <= k < i ==> buffer[k] == Decode(Padded(value)).value[k]
    {
      buffer[i] := binary.value[i] as int;
    }
    return Some(buffer);
  }

  // ---------------------------------------------------------------------------
  // The round trip

  /** The alphabet of section 5 of RFC 4648. */
  predicate IsUrlChar(c: char) {
    'A' <= c <= 'Z' || 'a' <= c <= 'z' || '0' <= c <= '9' || c == '-' || c == '_'
  }

  /** The characters are those of table 1 of RFC 4648, in its order. */
  lemma AlphabetIsTable1(v: Sextet)
    ensures v < 26 ==> ToChar(v) == "ABCDEFGHIJKLMNOPQRSTUVWXYZ"[v]
    ensures 26 <= v < 52 ==> ToChar(v) == "abcdefghijklmnopqrstuvwxyz"[v - 26]
    ensures 52 <= v ==> ToChar(v) == "0123456789+/"[v - 52]
  {
    var upper, lower, digits := "ABCDEFGHIJKLMNOPQRSTUVWXYZ", "abcdefghijklmnopqrstuvwxyz", "0123456789+/";
    assert v < 26 ==> upper[v] as int == v + 'A' as int;
    assert 26 <= v < 52 ==> lower[v - 26] as int == v - 26 + 'a' as int;
    assert 52 <= v < 62 ==> digits[v - 52] as int == v - 52 + '0' as int;
  }

  lemma CharRoundTrip(v: Sextet)
    ensures FromChar(ToChar(v)) == Some(v) && ToChar(v) !in {'=', '-', '_'}
  {
  }

  function EncodeGroup(bytes: seq<Byte>): string
    requires |bytes| >= 3
  {
    [ToChar(bytes[0] / 4), ToChar(bytes[0] % 4 * 16 + bytes[1] / 16),
     ToChar(bytes[1] % 16 * 4 + bytes[2] / 64), ToChar(bytes[2] % 64)]
  }

  /** One group of sextets, however many of its bytes are there. */
  lemma GroupRoundTrip(x: Byte, y: Byte, z: Byte)
    ensures DecodeLast(EncodeGroup([x, y, z])) == Some([x, y, z])
    ensures DecodeLast(Encode([x, y])) == Some([x, y])
    ensures DecodeLast(Encode([x])) == Some([x])
  {
    hide ToChar, FromChar;
    CharRoundTrip(x / 4);
    CharRoundTrip(x % 4 * 16 + y / 16);
    CharRoundTrip(x % 4 * 16);
    CharRoundTrip(y % 16 * 4 + z / 64);
    CharRoundTrip(y % 16 * 4);
    CharRoundTrip(z % 64);
  }

  /** The four characters of a group are the sextets of its 24 bits, most significant first. */
  lemma GroupIsBigEndian(x: Byte, y: Byte, z: Byte)
    ensures var group := EncodeGroup([x, y, z]);
      && (forall i :: 0 <= i < 4 ==> FromChar(group[i]).Some?)
      && FromChar(group[0]).value * 0x40000 + FromChar(group[1]).value * 0x1000 +
         FromChar(group[2]).value * 0x40 + FromChar(group[3]).value == x * 0x10000 + y * 0x100 + z
  {
    hide ToChar, FromChar;
    CharRoundTrip(x / 4);
    CharRoundTrip(x % 4 * 16 + y / 16);
    CharRoundTrip(y % 16 * 4 + z / 64);
    CharRoundTrip(z % 64);
  }

  lemma {:induction false} DecodeEncode(bytes: seq<Byte>)
    ensures Decode(Encode(bytes)) == Some(bytes)
    ensures bytes != [] ==> |Encode(bytes)| >= 4
  {
    hide ToChar, DecodeLast;
    var s := Encode(bytes);
    if |bytes| == 1 {
      GroupRoundTrip(bytes[0], 0, 0);
      assert bytes == [bytes[0]];
    } else if |bytes| == 2 {
      GroupRoundTrip(bytes[0], bytes[1], 0);
      assert bytes == [bytes[0], bytes[1]];
    } else if bytes != [] {
      var head, rest := [bytes[0], bytes[1], bytes[2]], bytes[3..];
      DecodeEncode(rest);
      GroupRoundTrip(bytes[0], bytes[1], bytes[2]);
      assert s[..4] == EncodeGroup(head) && s[4..] == Encode(rest);
      assert bytes == head + rest;
      if rest == [] {
        assert s[..4] == s && bytes == head;
      }
    }
  }

  /** An encoding is a text without '=', '-' and '_', followed by the padding that fills its last group. */
  lemma {:induction false} EncodingShape(bytes: seq<Byte>) returns (core: string, padding: nat)
    ensures Encode(bytes) == core + Repeat('=', padding) && padding <= 2 && (|core| + padding) % 4 == 0
    ensures forall i :: 0 <= i < |core| ==> FromChar(core[i]).Some? && core[i] !in {'=', '-', '_'}
    ensures 8 * |bytes| <= 6 * |core| < 8 * |bytes| + 6
  {
    forall v: Sextet {
      CharRoundTrip(v);
    }
    hide ToChar, FromChar;
    if |bytes| == 0 {
      core, padding := "", 0;
      assert Encode(bytes) == core + Repeat('=', padding);
    } else if |bytes| < 3 {
      padding := 3 - |bytes|;
      core := Encode(bytes)[..4 - padding];
    } else {
      var rest := bytes[3..];
      var tail;
      tail, padding := EncodingShape(rest);
      core := EncodeGroup(bytes) + tail;
      assert Encode(bytes) == EncodeGroup(bytes) + Encode(rest);
      assert (|tail| + padding + 4) % 4 == 0;
    }
  }

  lemma {:induction false} PaddingStripped(core: string, padding: nat)
    requires forall i :: 0 <= i < |core| ==> core[i] != '='
    ensures WithoutPadding(core + Repeat('=', padding)) == core
    decreases padding
  {
    var s := core + Repeat('=', padding);
    if padding == 0 {
      assert s == core;
    } else {
      assert s[..|s| - 1] == core + Repeat('=', padding - 1);
      PaddingStripped(core, padding - 1);
    }
  }

  /** Making a text url-safe and back changes nothing if it has no '-' and no '_'; padding is left alone. */
  lemma UrlSafeRoundTrip(core: string, padding: nat)
    requires forall i :: 0 <= i < |core| ==> FromChar(core[i]).Some? && core[i] !in {'=', '-', '_'}
    ensures Normalized(UrlSafe(core)) == core
    ensures UrlSafe(core + Repeat('=', padding)) == UrlSafe(core) + Repeat('=', padding)
    ensures |UrlSafe(core)| == |core| && forall i :: 0 <= i < |core| ==> IsUrlChar(UrlSafe(core)[i])
  {
  }

  lemma NoPaddingChars(text: string)
    requires forall i :: 0 <= i < |text| ==> IsUrlChar(text[i])
    ensures forall i :: 0 <= i < |text| ==> text[i] != '='
  {
  }

  lemma PaddingCount(length: nat, padding: nat)
    requires padding <= 2 && (length + padding) % 4 == 0
    ensures (4 - length % 4) % 4 == padding
  {
  }

  /** Padding the url-safe text again gives back the plain encoding. */
  lemma PaddedEncodeUrl(bytes: seq<Byte>)
    ensures Padded(EncodeUrl(bytes)) == Encode(bytes)
    ensures forall i :: 0 <= i < |EncodeUrl(bytes)| ==> IsUrlChar(EncodeUrl(bytes)[i])
    ensures 8 * |bytes| <= 6 * |EncodeUrl(bytes)| < 8 * |bytes| + 6
  {
    hide Encode, UrlSafe, Normalized, FromChar, WithoutPadding, Repeat, IsUrlChar;
    var core, padding := EncodingShape(bytes);
    UrlSafeRoundTrip(core, padding);
    NoPaddingChars(UrlSafe(core));
    PaddingStripped(UrlSafe(core), padding);
    PaddingCount(|core|, padding);
  }

  /**
    For every byte sequence: the url-safe text uses only the alphabet of section 5 and no padding, has no
    more characters of six bits than the bytes need, and decodes to the bytes.
    */
  lemma UrlRoundTrip(bytes: seq<Byte>)
    ensures Decode(Padded(EncodeUrl(bytes))) == Some(bytes)
    ensures forall i :: 0 <= i < |EncodeUrl(bytes)| ==> IsUrlChar(EncodeUrl(bytes)[i])
    ensures 8 * |bytes| <= 6 * |EncodeUrl(bytes)| < 8 * |bytes| + 6
  {
    PaddedEncodeUrl(bytes);
    DecodeEncode(bytes);
  }

  /** The two helpers in sequence. */
  method RoundTrip(bytes: seq<Byte>) returns (copy: array<Byte>)
    ensures copy[..] == bytes
  {
    var text := ToBase64Url(bytes);
    UrlRoundTrip(bytes);
    var result := FromBase64Url(text);
    copy := result.value;
  }
}
