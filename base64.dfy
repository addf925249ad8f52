/**
 * Base64 as the browser provides it: `window.atob`, which follows the decode of the "Forgiving
 * base64" section of the WHATWG Infra standard, and the encoding `FileReader.readAsDataURL` writes after
 * the `data:<type>;base64,` prefix, which is the padded standard alphabet of section 4 of RFC 4648.
 */
module Base64 {
  import opened JsRuntime

  /** An octet, as stored in a `Uint8Array`. */
  type Byte = b: int | 0 <= b < 256

  /** The 64 characters of the standard alphabet: `A`-`Z`, `a`-`z`, `0`-`9`, `+`, `/`. */
  predicate IsBase64Char(c: char) {
    ('A' <= c <= 'Z') || ('a' <= c <= 'z') || ('0' <= c <= '9') || c == '+' || c == '/'
  }

  /** The 6-bit value a character of the alphabet stands for. */
  function CharValue(c: char): (v: nat)
    requires IsBase64Char(c)
    ensures v < 64
  {
    if 'A' <= c <= 'Z' then c as int - 'A' as int
    else if 'a' <= c <= 'z' then c as int - 'a' as int + 26
    else if '0' <= c <= '9' then c as int - '0' as int + 52
    else if c == '+' then 62
    else 63
  }

  /** The character of the alphabet that stands for a 6-bit value; the inverse of `CharValue`. */
  function ValueChar(v: nat): (c: char)
    requires v < 64
    ensures IsBase64Char(c) && CharValue(c) == v
  {
    if v < 26 then ('A' as int + v) as char
    else if v < 52 then ('a' as int + (v - 26)) as char
    else if v < 62 then ('0' as int + (v - 52)) as char
    else if v == 62 then '+'
    else '/'
  }

  /** ASCII whitespace in the sense of the Infra standard: TAB, LF, FF, CR and SPACE. */
  predicate IsAsciiSpace(c: char) {
    c == '\t' || c == '\n' || c == '\U{000C}' || c == '\r' || c == ' '
  }

  /** Step 1 of forgiving-base64 decode: remove all ASCII whitespace. */
  function RemoveAsciiSpace(s: string): (r: string)
    ensures |r| <= |s|
    ensures forall i :: 0 <= i < |r| ==> !IsAsciiSpace(r[i])
    ensures (forall i :: 0 <= i < |s| ==> !IsAsciiSpace(s[i])) ==> r == s
  {
    if s == [] then []
    else if IsAsciiSpace(s[0]) then RemoveAsciiSpace(s[1..])
    else [s[0]] + RemoveAsciiSpace(s[1..])
  }

  /** Step 2: when the length is a multiple of four, one or two trailing `=` are removed. */
  function StripPadding(s: string): (r: string)
    ensures |r| <= |s| && r == s[..|r|]
    ensures forall i :: |r| <= i < |s| ==> s[i] == '='
  {
    if |s| % 4 != 0 then s
    else if |s| >= 2 && s[|s| - 2..] == "==" then s[..|s| - 2]
    else if |s| >= 1 && s[|s| - 1] == '=' then s[..|s| - 1]
    else s
  }

  /** A string step 5 can decode: characters of the alphabet only, and a length that is not 1 modulo 4. */
  predicate Decodable(t: string) {
    |t| % 4 != 1 && forall i :: 0 <= i < |t| ==> IsBase64Char(t[i])
  }

  predicate AllSextets(v: seq<nat>) {
    forall i :: 0 <= i < |v| ==> v[i] < 64
  }

  /** The 6-bit values of the characters of a decodable string. */
  function Values(t: string): (v: seq<nat>)
    requires forall i :: 0 <= i < |t| ==> IsBase64Char(t[i])
    ensures |v| == |t| && AllSextets(v)
  {
    seq(|t|, i requires 0 <= i < |t| => CharValue(t[i]))
  }

  /** The characters of the alphabet for some 6-bit values. */
  function Chars(v: seq<nat>): (t: string)
    requires AllSextets(v)
    ensures |t| == |v| && forall i :: 0 <= i < |t| ==> IsBase64Char(t[i])
  {
    seq(|v|, i requires 0 <= i < |v| => ValueChar(v[i]))
  }

  lemma ValuesChars(v: seq<nat>)
    requires AllSextets(v)
    ensures Values(Chars(v)) == v
  {
  }

  /** Four 6-bit values give three octets, high bits first. */
  function JoinSextets(a: nat, b: nat, c: nat, d: nat): (r: seq<Byte>)
    requires a < 64 && b < 64 && c < 64 && d < 64
  {
    [a * 4 + b / 16, (b % 16) * 16 + c / 4, (c % 4) * 64 + d]
  }

  /** Three octets give four 6-bit values, high bits first. */
  function SplitOctets(x: Byte, y: Byte, z: Byte): (v: seq<nat>)
    ensures |v| == 4 && AllSextets(v)
  {
    [x / 4, (x % 4) * 16 + y / 16, (y % 16) * 4 + z / 64, z % 64]
  }

  lemma JoinSplit(x: Byte, y: Byte, z: Byte)
    ensures var v := SplitOctets(x, y, z); JoinSextets(v[0], v[1], v[2], v[3]) == [x, y, z]
  {
    var v := SplitOctets(x, y, z);
    assert v[0] * 4 + v[1] / 16 == x;
    assert (v[1] % 16) * 16 + v[2] / 4 == y;
    assert (v[2] % 4) * 64 + v[3] == z;
  }

  /**
   * Step 5 on the values: every four give three octets; a remainder of two or three values gives
   * one or two octets, the extra low bits discarded.
   */
  function DecodeValues(v: seq<nat>): seq<Byte>
    requires AllSextets(v) && |v| % 4 != 1
  {
    if |v| == 0 then []
    else if |v| == 2 then JoinSextets(v[0], v[1], 0, 0)[..1]
    else if |v| == 3 then JoinSextets(v[0], v[1], v[2], 0)[..2]
    else JoinSextets(v[0], v[1], v[2], v[3]) + DecodeValues(v[4..])
  }

  /** The string `atob` returns for some octets: one character per octet, its code the octet. */
  function Latin1(bytes: seq<Byte>): (s: string)
    ensures |s| == |bytes| && forall i :: 0 <= i < |s| ==> s[i] as int == bytes[i]
  {
    seq(|bytes|, i requires 0 <= i < |bytes| => bytes[i] as char)
  }

  /**
   * `window.atob(s)`: the decoded octets as a string of character codes below 256, or `None` where
   * `atob` throws an `InvalidCharacterError`.
   */
  function Atob(s: string): (r: Option<string>)
    ensures r.Some? ==> forall i :: 0 <= i < |r.value| ==> r.value[i] as int < 256
  {
    var t := StripPadding(RemoveAsciiSpace(s));
    if Decodable(t) then Some(Latin1(DecodeValues(Values(t)))) else None
  }

  /** The 6-bit values of the encoding: four per three octets, two or three for a remainder. */
  function SplitAll(bytes: seq<Byte>): (v: seq<nat>)
    ensures AllSextets(v)
  {
    if |bytes| == 0 then []
    else if |bytes| == 1 then SplitOctets(bytes[0], 0, 0)[..2]
    else if |bytes| == 2 then SplitOctets(bytes[0], bytes[1], 0)[..3]
    else SplitOctets(bytes[0], bytes[1], bytes[2]) + SplitAll(bytes[3..])
  }

  /** The encoding has four characters per three octets and two or three for a remainder of one or two. */
  lemma {:induction false} SplitAllLength(bytes: seq<Byte>)
    ensures |SplitAll(bytes)| % 4 == (if |bytes| % 3 == 0 then 0 else |bytes| % 3 + 1)
    decreases |bytes|
  {
    if |bytes| >= 3 {
      SplitAllLength(bytes[3..]);
    }
  }

  /** The `=` characters that bring the encoding to a multiple of four characters. */
  function Padding(n: nat): string {
    if n % 3 == 1 then "==" else if n % 3 == 2 then "=" else ""
  }

  /** The data-URL body `readAsDataURL` writes for a blob's octets. */
  function Encode(bytes: seq<Byte>): (s: string)
    ensures |s| % 4 == 0
  {
    SplitAllLength(bytes);
    Chars(SplitAll(bytes)) + Padding(|bytes|)
  }

  lemma {:induction false} DecodeSplitAll(bytes: seq<Byte>)
    ensures |SplitAll(bytes)| % 4 != 1
    ensures DecodeValues(SplitAll(bytes)) == bytes
    decreases |bytes|
  {
    SplitAllLength(bytes);
    var v := SplitAll(bytes);
    if |bytes| == 0 {
    } else if |bytes| == 1 {
      JoinSplit(bytes[0], 0, 0);
    } else if |bytes| == 2 {
      JoinSplit(bytes[0], bytes[1], 0);
    } else {
      JoinSplit(bytes[0], bytes[1], bytes[2]);
      assert v[4..] == SplitAll(bytes[3..]);
      DecodeSplitAll(bytes[3..]);
      assert bytes == [bytes[0], bytes[1], bytes[2]] + bytes[3..];
    }
  }

  /** Every character of the encoding is in the alphabet or is padding. */
  lemma EncodeChar(bytes: seq<Byte>, i: nat)
    requires i < |Encode(bytes)|
    ensures IsBase64Char(Encode(bytes)[i]) || Encode(bytes)[i] == '='
  {
    var t := Chars(SplitAll(bytes));
    if i < |t| {
      assert Encode(bytes)[i] == t[i];
    }
  }

  lemma EncodeHasNoSpace(bytes: seq<Byte>)
    ensures RemoveAsciiSpace(Encode(bytes)) == Encode(bytes)
  {
    var s := Encode(bytes);
    forall i | 0 <= i < |s|
      ensures !IsAsciiSpace(s[i])
    {
      EncodeChar(bytes, i);
    }
  }

  /** Padding that completes the last group is removed, and nothing else. */
  lemma StripPadded(t: string, pad: string)
    requires forall i :: 0 <= i < |t| ==> IsBase64Char(t[i])
    requires (pad == "" && |t| % 4 == 0) || (pad == "=" && |t| % 4 == 3) || (pad == "==" && |t| % 4 == 2)
    ensures StripPadding(t + pad) == t
  {
    if pad == "" {
      StripUnpadded(t);
    } else if pad == "=" {
      StripOnePad(t);
    } else {
      StripTwoPads(t);
    }
  }

  lemma StripUnpadded(t: string)
    requires forall i :: 0 <= i < |t| ==> IsBase64Char(t[i])
    ensures StripPadding(t + "") == t
  {
    assert t + "" == t;
    if |t| >= 2 {
      assert t[|t| - 2..][1] == t[|t| - 1];
    }
    assert |t| > 0 ==> IsBase64Char(t[|t| - 1]);
  }

  lemma StripOnePad(t: string)
    requires |t| % 4 == 3 && forall i :: 0 <= i < |t| ==> IsBase64Char(t[i])
    ensures StripPadding(t + "=") == t
  {
    var s := t + "=";
    assert s[|s| - 2..][0] == t[|t| - 1];
    assert IsBase64Char(t[|t| - 1]);
    assert s[|s| - 1] == '=';
    assert s[..|s| - 1] == t;
  }

  lemma StripTwoPads(t: string)
    requires |t| % 4 == 2
    ensures StripPadding(t + "==") == t
  {
    var s := t + "==";
    assert s[|s| - 2..] == "==";
    assert s[..|s| - 2] == t;
  }

  /** Whitespace removal and padding removal give back exactly the unpadded encoding. */
  lemma StripEncode(bytes: seq<Byte>)
    ensures StripPadding(RemoveAsciiSpace(Encode(bytes))) == Chars(SplitAll(bytes))
  {
    SplitAllLength(bytes);
    EncodeHasNoSpace(bytes);
    StripPadded(Chars(SplitAll(bytes)), Padding(|bytes|));
  }

  /** `atob` decodes what `readAsDataURL` encodes: the octets come back, one character each. */
  lemma AtobEncode(bytes: seq<Byte>)
    ensures Atob(Encode(bytes)) == Some(Latin1(bytes))
  {
    StripEncode(bytes);
    DecodeSplitAll(bytes);
    ValuesChars(SplitAll(bytes));
  }

  /** A stray character outside the alphabet and not whitespace makes `atob` throw. */
  lemma AtobRejectsForeignChar(s: string, k: nat)
    requires k < |s| && !IsBase64Char(s[k]) && !IsAsciiSpace(s[k]) && s[k] != '='
    ensures Atob(s).None?
  {
    var u := RemoveAsciiSpace(s);
    KeptChar(s, k);
    var t := StripPadding(u);
    var j :| 0 <= j < |u| && u[j] == s[k];
    assert j < |t|;
    assert t[j] == s[k];
  }

  /** A character that is not whitespace survives whitespace removal. */
  lemma {:induction false} KeptChar(s: string, k: nat)
    requires k < |s| && !IsAsciiSpace(s[k])
    ensures exists j :: 0 <= j < |RemoveAsciiSpace(s)| && RemoveAsciiSpace(s)[j] == s[k]
  {
    if k == 0 {
      assert RemoveAsciiSpace(s)[0] == s[0];
    } else {
      KeptChar(s[1..], k - 1);
      var j :| 0 <= j < |RemoveAsciiSpace(s[1..])| && RemoveAsciiSpace(s[1..])[j] == s[1..][k - 1];
      if IsAsciiSpace(s[0]) {
        assert RemoveAsciiSpace(s)[j] == s[k];
      } else {
        assert RemoveAsciiSpace(s)[j + 1] == s[k];
      }
    }
  }

  /** The octets a `Uint8Array` holds after `bytes[i] = s.charCodeAt(i)`: each code modulo 256. */
  function Codes(s: string): (r: seq<Byte>)
    ensures |r| == |s|
  {
    seq(|s|, i requires 0 <= i < |s| => s[i] as int % 256)
  }

  lemma CodesLatin1(bytes: seq<Byte>)
    ensures Codes(Latin1(bytes)) == bytes
  {
  }

  /** The blob `base64ToBlob` builds from an encoding holds exactly the encoded octets. */
  lemma BlobRoundTrip(bytes: seq<Byte>)
    ensures Atob(Encode(bytes)).Some? && Codes(Atob(Encode(bytes)).value) == bytes
  {
    AtobEncode(bytes);
    CodesLatin1(bytes);
  }

  /**
   * `base64ToBlob`: decode with `atob`, then copy the character codes into a fresh byte array, or
   * `None` where `atob` throws.
   */
  method Base64ToBlob(base64: string) returns (blob: Option<array<Byte>>)
    ensures blob.None? <==> Atob(base64).None?
    ensures blob.Some? ==> fresh(blob.value) && blob.value[..] == Codes(Atob(base64).value)
  {
    var decoded := Atob(base64);
    if decoded.None? {
      return None;
    }
    var bytes := CopyCodes(decoded.value);
    return Some(bytes);
  }

  /** The loop of `base64ToBlob`: a `Uint8Array` as long as the string, entry `i` the code of character `i`. */
  method CopyCodes(binaryString: string) returns (bytes: array<Byte>)
    ensures fresh(bytes) && bytes[..] == Codes(binaryString)
  {
    bytes := new Byte[|binaryString|];
    for i := 0 to |binaryString|
      invariant forall j :: 0 <= j < i ==> bytes[j] == binaryString[j] as int % 256
    {
      bytes[i] := binaryString[i] as int % 256;
    }
    assert bytes[..] == Codes(binaryString);
  }
}
