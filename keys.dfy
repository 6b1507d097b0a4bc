/** Keys as text (main.rs): the `hex` crate's encoding and decoding, `Key`'s
    conversions to and from hex, space-separated key pairs, and the sharded
    CDN path of a key. */
module Keys {
  import opened Common

  /** The number of bytes of `c` in UTF-8: `hex::decode` of a `&str` works on
      those bytes. */
  function Utf8Len(c: char): nat
  {
    if c as int < 0x80 then 1
    else if c as int < 0x800 then 2
    else if c as int < 0x1_0000 then 3
    else 4
  }

  /** The length of `s` in UTF-8 bytes (`str::len`). */
  function Utf8Length(s: string): nat
  {
    if |s| == 0 then 0 else Utf8Len(s[0]) + Utf8Length(s[1..])
  }

  predicate IsHexDigit(c: char)
  {
    '0' <= c <= '9' || 'a' <= c <= 'f' || 'A' <= c <= 'F'
  }

  predicate AllHex(s: string)
  {
    forall i :: 0 <= i < |s| ==> IsHexDigit(s[i])
  }

  /** The value of a hex digit, either case. */
  function HexValue(c: char): (v: nat)
    requires IsHexDigit(c)
    ensures v < 16
  {
    if '0' <= c <= '9' then c as int - '0' as int
    else if 'a' <= c <= 'f' then c as int - 'a' as int + 10
    else c as int - 'A' as int + 10
  }

  /** The lowercase digit `hex::encode` writes for `v`. */
  function HexDigit(v: nat): (c: char)
    requires v < 16
    ensures IsHexDigit(c) && HexValue(c) == v && !('A' <= c <= 'F')
  {
    if v < 10 then (v + '0' as int) as char else (v - 10 + 'a' as int) as char
  }

  /** ASCII lowercasing of the digits `A`..`F`; other characters stay. */
  function LowerChar(c: char): char
  {
    if 'A' <= c <= 'F' then (c as int - 'A' as int + 'a' as int) as char else c
  }

  function Lower(s: string): string
  {
    seq(|s|, i requires 0 <= i < |s| => LowerChar(s[i]))
  }

  /** The digit written for a digit's value is that digit in lowercase. */
  lemma DigitOfValue(c: char)
    requires IsHexDigit(c)
    ensures HexDigit(HexValue(c)) == LowerChar(c)
  {
  }

  /** `hex::encode`: two lowercase digits per byte, high nibble first. */
  function HexEncode(b: seq<byte>): (r: string)
    ensures |r| == 2 * |b|
  {
    seq(2 * |b|, i requires 0 <= i < 2 * |b| =>
      if i % 2 == 0 then HexDigit(b[i / 2] / 16) else HexDigit(b[i / 2] % 16))
  }

  /** What `hex::encode` writes is lowercase hex digits. */
  lemma HexEncodeDigits(b: seq<byte>)
    ensures AllHex(HexEncode(b)) && Lower(HexEncode(b)) == HexEncode(b)
  {
  }

  /** The bytes of a string of hex digits of even length, two digits each. */
  function DecodePairs(s: string): (r: seq<byte>)
    requires AllHex(s) && |s| % 2 == 0
    ensures 2 * |r| == |s|
  {
    seq(|s| / 2, i requires 0 <= i < |s| / 2 => HexValue(s[2 * i]) * 16 + HexValue(s[2 * i + 1]))
  }

  /** Hex digits are one byte each in UTF-8. */
  lemma {:induction false} AllHexLength(s: string)
    ensures AllHex(s) ==> Utf8Length(s) == |s|
  {
    if |s| > 0 && AllHex(s) {
      assert AllHex(s[1..]) by {
        forall i | 0 <= i < |s| - 1 ensures IsHexDigit(s[1..][i]) {
          assert s[1..][i] == s[i + 1];
        }
      }
      AllHexLength(s[1..]);
    }
  }

  /** `hex::decode`: an odd number of bytes fails first, then a character
      that is no hex digit; otherwise two digits give each byte. */
  function HexDecode(s: string): (r: Result<seq<byte>>)
    ensures r.Ok? <==> Utf8Length(s) % 2 == 0 && AllHex(s)
    ensures r.Err? ==> (r.error == OddLength <==> Utf8Length(s) % 2 != 0)
    ensures r.Err? ==> r.error == OddLength || r.error == InvalidHexCharacter
    ensures r.Ok? ==> 2 * |r.value| == |s|
  {
    if Utf8Length(s) % 2 != 0 then Err(OddLength)
    else if !AllHex(s) then Err(InvalidHexCharacter)
    else
      AllHexLength(s);
      Ok(DecodePairs(s))
  }

  /** Decoding undoes encoding. */
  lemma DecodeEncode(b: seq<byte>)
    ensures AllHex(HexEncode(b)) && |HexEncode(b)| % 2 == 0
    ensures DecodePairs(HexEncode(b)) == b
  {
    HexEncodeDigits(b);
    var e := HexEncode(b);
    forall i | 0 <= i < |b|
      ensures DecodePairs(e)[i] == b[i]
    {
      assert (2 * i) / 2 == i && (2 * i + 1) / 2 == i && (2 * i) % 2 == 0 && (2 * i + 1) % 2 == 1;
    }
  }

  /** Encoding what was decoded gives the digits back in lowercase. */
  lemma EncodeDecode(s: string)
    requires AllHex(s) && |s| % 2 == 0
    ensures HexEncode(DecodePairs(s)) == Lower(s)
  {
    var b := DecodePairs(s);
    forall i | 0 <= i < |s|
      ensures HexEncode(b)[i] == LowerChar(s[i])
    {
      var j := i / 2;
      var v := HexValue(s[2 * j]) * 16 + HexValue(s[2 * j + 1]);
      assert b[j] == v;
      assert v / 16 == HexValue(s[2 * j]) && v % 16 == HexValue(s[2 * j + 1]);
      DigitOfValue(s[i]);
      if i % 2 == 0 {
        assert i == 2 * j;
      } else {
        assert i == 2 * j + 1;
      }
    }
  }

  /** A 128-bit key (`Key`, also content and encoding keys). */
  type Key = u128

  /** `Key::from_str`: hex-decode, then the 16 bytes big-endian; a decoded
      length other than 16 panics at the `unwrap` of `try_into`. */
  function KeyFromStr(s: string): (r: Result<Key>)
    ensures r.Ok? <==> AllHex(s) && |s| == 32
    ensures r.Err? && r.error == Panic <==> AllHex(s) && |s| % 2 == 0 && |s| != 32
  {
    match HexDecode(s)
    case Err(e) =>
      AllHexLength(s);
      Err(e)
    case Ok(k) =>
      AllHexLength(s);
      if |k| != 16 then Err(Panic)
      else
        FromBeBound(k);
        Pow256Of16();
        Ok(FromBe(k))
  }

  /** `Key::as_hex_string`: the 32 lowercase digits of the big-endian bytes. */
  function AsHex(k: Key): (r: string)
    ensures |r| == 32 && AllHex(r) && Lower(r) == r
    ensures forall i :: 0 <= i < |r| ==> r[i] as int < 0x80
  {
    Pow256Of16();
    HexEncodeDigits(ToBe(k, 16));
    HexEncode(ToBe(k, 16))
  }

  /** Every key survives the trip through its hex string. */
  lemma KeyRoundTrip(k: Key)
    ensures KeyFromStr(AsHex(k)) == Ok(k)
  {
    Pow256Of16();
    var b := ToBe(k, 16);
    DecodeEncode(b);
    AllHexLength(AsHex(k));
    FromBeToBe(k, 16);
  }

  /** A string that parses as a key is that key's hex string up to the case
      of its digits. */
  lemma KeyFromStrAsHex(s: string)
    requires KeyFromStr(s).Ok?
    ensures AsHex(KeyFromStr(s).value) == Lower(s)
  {
    AllHexLength(s);
    var b := DecodePairs(s);
    ToBeFromBe(b);
    Pow256Of16();
    EncodeDecode(s);
  }

  /** `FileKeys`: a content key and the encoding key of its data. */
  datatype FileKeys = FileKeys(ckey: Key, ekey: Key)

  /** `FileKeys::from_str`: split on spaces; the content key is parsed
      before the second piece is looked for; pieces after the second are
      ignored. */
  function FileKeysFromStr(s: string): (r: Result<FileKeys>)
    ensures r.Ok? ==> |Split(s, ' ')| >= 2
                      && KeyFromStr(Split(s, ' ')[0]) == Ok(r.value.ckey)
                      && KeyFromStr(Split(s, ' ')[1]) == Ok(r.value.ekey)
    ensures r.Err? && r.error == MissingKey <==> KeyFromStr(Split(s, ' ')[0]).Ok? && |Split(s, ' ')| < 2
  {
    var parts := Split(s, ' ');
    match KeyFromStr(parts[0])
    case Err(e) => Err(e)
    case Ok(ckey) =>
      if |parts| < 2 then Err(MissingKey)
      else
        match KeyFromStr(parts[1])
        case Err(e) => Err(e)
        case Ok(ekey) => Ok(FileKeys(ckey, ekey))
  }

  /** Two keys written as hex with a space between parse back to themselves. */
  lemma FileKeysRoundTrip(c: Key, e: Key)
    ensures FileKeysFromStr(AsHex(c) + " " + AsHex(e)) == Ok(FileKeys(c, e))
  {
    var parts := [AsHex(c), AsHex(e)];
    NoSpaceInHex(AsHex(c));
    NoSpaceInHex(AsHex(e));
    assert Join(parts, ' ') == AsHex(c) + " " + AsHex(e) by {
      assert parts[1..] == [AsHex(e)];
    }
    SplitJoin(parts, ' ');
    KeyRoundTrip(c);
    KeyRoundTrip(e);
  }

  lemma NoSpaceInHex(s: string)
    requires AllHex(s)
    ensures ' ' !in s && '/' !in s
  {
    forall i | 0 <= i < |s|
      ensures s[i] != ' ' && s[i] != '/'
    {
      assert IsHexDigit(s[i]);
    }
  }

  /** `format_hex_key`: the path `ab/cd/abcd…` that shards data by the first
      two bytes of the key. The byte slices `[0..2]` and `[2..4]` of the code
      need four bytes on character boundaries; the model asks for four ASCII
      characters. */
  function FormatHexKey(hex: string): (r: string)
    requires |hex| >= 4 && forall i :: 0 <= i < 4 ==> hex[i] as int < 0x80
    ensures |r| == |hex| + 6
  {
    hex[0..2] + "/" + hex[2..4] + "/" + hex
  }

  /** The path splits at its slashes into the two shard names and the key. */
  lemma FormatHexKeySplit(hex: string)
    requires |hex| >= 4 && forall i :: 0 <= i < 4 ==> hex[i] as int < 0x80
    requires '/' !in hex
    ensures Split(FormatHexKey(hex), '/') == [hex[0..2], hex[2..4], hex]
  {
    var parts := [hex[0..2], hex[2..4], hex];
    assert '/' !in hex[0..2] && '/' !in hex[2..4] by {
      forall i | 0 <= i < 4 ensures hex[i] != '/' {
        assert hex[i] in hex;
      }
    }
    assert Join(parts, '/') == FormatHexKey(hex) by {
      assert parts[1..][1..] == [hex];
      assert Join(parts[1..], '/') == hex[2..4] + "/" + hex;
      assert Join(parts, '/') == hex[0..2] + "/" + (hex[2..4] + "/" + hex);
    }
    SplitJoin(parts, '/');
  }

  /** The path of a key's data: 38 characters, sharded by its first two bytes. */
  lemma KeyPath(k: Key)
    ensures |AsHex(k)| == 32 && |FormatHexKey(AsHex(k))| == 38
    ensures Split(FormatHexKey(AsHex(k)), '/') == [AsHex(k)[0..2], AsHex(k)[2..4], AsHex(k)]
  {
    var h := AsHex(k);
    NoSpaceInHex(h);
    FormatHexKeySplit(h);
  }
}
