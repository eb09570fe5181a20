/** Extended resource names of AFUs (pkg/fpga/devtypes.go): hex decoding (section 8 of
    RFC 4648) followed by unpadded base64url (sections 3.2 and 5). */
module DevTypes {
  import opened Common

  type Byte = b: int | 0 <= b < 256

  // -------------------------------------------------------------------- hex

  predicate IsLowerHex(c: char) { '0' <= c <= '9' || 'a' <= c <= 'f' }

  predicate IsHex(c: char) { IsLowerHex(c) || 'A' <= c <= 'F' }

  predicate LowerHex(s: string) { forall c | c in s :: IsLowerHex(c) }

  function HexValue(c: char): (v: int)
    requires IsHex(c)
    ensures 0 <= v < 16
  {
    if c <= '9' then c as int - '0' as int
    else if c <= 'F' then c as int - 'A' as int + 10
    else c as int - 'a' as int + 10
  }

  /** `hex.DecodeString`: fails on odd length and on other characters. */
  function HexDecode(s: string): Option<seq<Byte>> {
    if s == [] then Some([])
    else if |s| == 1 || !IsHex(s[0]) || !IsHex(s[1]) then None
    else
      match HexDecode(s[2..])
      case None => None
      case Some(rest) => Some([16 * HexValue(s[0]) + HexValue(s[1])] + rest)
  }

  lemma {:induction false} HexDecodes(s: string)
    requires LowerHex(s)
    ensures HexDecode(s).Some? <==> |s| % 2 == 0
    ensures HexDecode(s).Some? ==> |s| == 2 * |HexDecode(s).value|
  {
    if |s| == 1 {
    } else if s != [] {
      assert IsLowerHex(s[0]) && IsLowerHex(s[1]);
      HexDecodes(s[2..]);
    }
  }

  lemma {:induction false} HexInjective(s: string, t: string)
    requires LowerHex(s) && LowerHex(t)
    requires HexDecode(s).Some? && HexDecode(s) == HexDecode(t)
    ensures s == t
  {
    HexDecodes(s);
    HexDecodes(t);
    if s != [] {
      assert IsLowerHex(s[0]) && IsLowerHex(s[1]) && IsLowerHex(t[0]) && IsLowerHex(t[1]);
      var rs, rt := HexDecode(s[2..]).value, HexDecode(t[2..]).value;
      assert HexDecode(s).value[0] == HexDecode(t).value[0];
      assert HexDecode(s).value[1..] == rs && HexDecode(t).value[1..] == rt;
      HexInjective(s[2..], t[2..]);
      assert s == [s[0], s[1]] + s[2..] && t == [t[0], t[1]] + t[2..];
    }
  }

  // -------------------------------------------------------------- base64url

  type Sextet = v: int | 0 <= v < 64

  function SextetChar(v: Sextet): char {
    if v < 26 then (v + 'A' as int) as char
    else if v < 52 then (v - 26 + 'a' as int) as char
    else if v < 62 then (v - 52 + '0' as int) as char
    else if v == 62 then '-' else '_'
  }

  function CharSextet(c: char): Option<Sextet> {
    if 'A' <= c <= 'Z' then Some(c as int - 'A' as int)
    else if 'a' <= c <= 'z' then Some(c as int - 'a' as int + 26)
    else if '0' <= c <= '9' then Some(c as int - '0' as int + 52)
    else if c == '-' then Some(62)
    else if c == '_' then Some(63)
    else None
  }

  /** The bytes regrouped into six-bit values, the last one filled up with zero bits. */
  function Sextets(bytes: seq<Byte>): seq<Sextet> {
    if bytes == [] then []
    else if |bytes| == 1 then [bytes[0] / 4, bytes[0] % 4 * 16]
    else if |bytes| == 2 then [bytes[0] / 4, bytes[0] % 4 * 16 + bytes[1] / 16, bytes[1] % 16 * 4]
    else
      [bytes[0] / 4, bytes[0] % 4 * 16 + bytes[1] / 16, bytes[1] % 16 * 4 + bytes[2] / 64, bytes[2] % 64] +
      Sextets(bytes[3..])
  }

  /** The bytes written by six-bit values. */
  function Bytes(v: seq<Sextet>): seq<Byte> {
    if |v| < 2 then []
    else
      var b0: Byte := v[0] as int * 4 + v[1] / 16;
      if |v| == 2 then [b0]
      else
        var b1: Byte := v[1] as int % 16 * 16 + v[2] / 4;
        if |v| == 3 then [b0, b1]
        else [b0, b1, v[2] as int % 4 * 64 + v[3]] + Bytes(v[4..])
  }

  /** `base64.RawURLEncoding.EncodeToString`. */
  function Base64Url(bytes: seq<Byte>): (r: string)
    ensures |r| == |Sextets(bytes)|
  {
    var v := Sextets(bytes);
    seq(|v|, i requires 0 <= i < |v| => SextetChar(v[i]))
  }

  function Base64UrlDecode(s: string): Option<seq<Byte>> {
    if exists i | 0 <= i < |s| :: CharSextet(s[i]).None? then None
    else Some(Bytes(seq(|s|, i requires 0 <= i < |s| => CharSextet(s[i]).value)))
  }

  lemma {:induction false} BytesOfSextets(bytes: seq<Byte>)
    ensures Bytes(Sextets(bytes)) == bytes
    ensures |Sextets(bytes)| == (4 * |bytes| + 2) / 3
  {
    if |bytes| == 1 {
      assert Bytes(Sextets(bytes)) == [bytes[0]];
    } else if |bytes| == 2 {
      assert Bytes(Sextets(bytes)) == [bytes[0], bytes[1]];
    } else if |bytes| > 2 {
      BytesOfSextets(bytes[3..]);
      var v := Sextets(bytes);
      assert v[4..] == Sextets(bytes[3..]);
      assert Bytes(v) == [bytes[0], bytes[1], bytes[2]] + Bytes(v[4..]);
    }
  }

  lemma Base64UrlRoundTrip(bytes: seq<Byte>)
    ensures Base64UrlDecode(Base64Url(bytes)) == Some(bytes)
    ensures |Base64Url(bytes)| == (4 * |bytes| + 2) / 3
  {
    var v, s := Sextets(bytes), Base64Url(bytes);
    forall i | 0 <= i < |s|
      ensures CharSextet(s[i]) == Some(v[i])
    {
    }
    assert seq(|s|, i requires 0 <= i < |s| => CharSextet(s[i]).value) == v;
    BytesOfSextets(bytes);
  }

  // ----------------------------------------------------------- device types

  /** Slices the first three characters of both ids without a check. */
  function GetAfuDevType(interfaceID: string, afuID: string): Result<string>
    requires HexDecode(interfaceID + afuID).Some? ==> |interfaceID| >= 3 && |afuID| >= 3
  {
    match HexDecode(interfaceID + afuID)
    case None => Err("failed to decode " + interfaceID + " and " + afuID)
    case Some(bin) => Ok(DevTypeName(interfaceID[..3], afuID[..3], Base64Url(bin)))
  }

  function DevTypeName(interfaceStart: string, afuStart: string, encoded: string): string {
    "af-" + interfaceStart + "." + afuStart + "." + encoded
  }

  /** The part of a device type before the encoded ids has a fixed length. */
  lemma DevTypeParts(i: string, a: string)
    requires |i| >= 3 && |a| >= 3 && HexDecode(i + a).Some?
    ensures var name := GetAfuDevType(i, a).value;
            && |name| == 11 + |Base64Url(HexDecode(i + a).value)|
            && name[3..6] == i[..3] && name[7..10] == a[..3]
            && name[11..] == Base64Url(HexDecode(i + a).value)
            && name[..3] == "af-" && name[6] == name[10] == '.'
  {
    NameParts(i[..3], a[..3], Base64Url(HexDecode(i + a).value));
  }

  lemma NameParts(x: string, y: string, e: string)
    requires |x| == |y| == 3
    ensures var name := DevTypeName(x, y, e);
            && |name| == 11 + |e| && name[3..6] == x && name[7..10] == y && name[11..] == e
            && name[..3] == "af-" && name[6] == name[10] == '.'
  {
  }

  lemma NamesEqual(x: string, y: string, e: string, u: string, v: string, f: string)
    requires |x| == |y| == |u| == |v| == 3
    ensures DevTypeName(x, y, e) == DevTypeName(u, v, f) <==> x == u && y == v && e == f
  {
    NameParts(x, y, e);
    NameParts(u, v, f);
  }

  /** Two texts of lowercase digits are the same when their encoded bytes are. */
  lemma SameEncoding(s: string, t: string)
    requires LowerHex(s) && LowerHex(t) && HexDecode(s).Some? && HexDecode(t).Some?
    ensures Base64Url(HexDecode(s).value) == Base64Url(HexDecode(t).value) <==> s == t
  {
    if Base64Url(HexDecode(s).value) == Base64Url(HexDecode(t).value) {
      Base64UrlRoundTrip(HexDecode(s).value);
      Base64UrlRoundTrip(HexDecode(t).value);
      HexInjective(s, t);
    }
  }

  /** Two pairs of lowercase ids share a device type exactly when the ids written one after
      the other are the same text and the AFU ids start alike. */
  lemma DevTypesEqual(i: string, a: string, j: string, b: string)
    requires |i| >= 3 && |a| >= 3 && |j| >= 3 && |b| >= 3
    requires LowerHex(i + a) && LowerHex(j + b)
    requires HexDecode(i + a).Some? && HexDecode(j + b).Some?
    ensures GetAfuDevType(i, a) == GetAfuDevType(j, b) <==> i + a == j + b && a[..3] == b[..3]
  {
    EqualWhenJoinedAlike(i, a, i + a, j, b, j + b);
  }

  lemma EqualWhenJoinedAlike(i: string, a: string, s: string, j: string, b: string, t: string)
    requires |i| >= 3 && |a| >= 3 && |j| >= 3 && |b| >= 3 && s == i + a && t == j + b
    requires LowerHex(s) && LowerHex(t) && HexDecode(s).Some? && HexDecode(t).Some?
    ensures GetAfuDevType(i, a) == GetAfuDevType(j, b) <==> s == t && a[..3] == b[..3]
  {
    SameEncoding(s, t);
    NamesEqual(i[..3], a[..3], Base64Url(HexDecode(s).value), j[..3], b[..3], Base64Url(HexDecode(t).value));
    SameStart(i, a, j, b);
  }

  lemma SameStart(i: string, a: string, j: string, b: string)
    requires |i| >= 3 && |j| >= 3
    ensures i + a == j + b ==> i[..3] == j[..3]
  {
    assert i[..3] == (i + a)[..3] && j[..3] == (j + b)[..3];
  }

  /** Among interface ids of one length the device type determines both ids. */
  lemma DevTypeInjective(i: string, a: string, j: string, b: string)
    requires |i| >= 3 && |a| >= 3 && |b| >= 3 && |i| == |j|
    requires LowerHex(i + a) && LowerHex(j + b)
    requires HexDecode(i + a).Some? && HexDecode(j + b).Some?
    requires GetAfuDevType(i, a) == GetAfuDevType(j, b)
    ensures i == j && a == b
  {
    DevTypesEqual(i, a, j, b);
    assert i == (i + a)[..|i|] && j == (j + b)[..|i|];
    assert a == (i + a)[|i|..] && b == (j + b)[|i|..];
  }

  /** Ids of different lengths can collide. */
  lemma DevTypeCollision()
    ensures AllowedIds("aaaaaaaa", "aaaaaaaaaa") && AllowedIds("aaaaaaaaaa", "aaaaaaaa")
    ensures GetAfuDevType("aaaaaaaa", "aaaaaaaaaa").Ok?
    ensures GetAfuDevType("aaaaaaaa", "aaaaaaaaaa") == GetAfuDevType("aaaaaaaaaa", "aaaaaaaa")
  {
    DevTypeFits("aaaaaaaa", "aaaaaaaaaa");
    DevTypeFits("aaaaaaaaaa", "aaaaaaaa");
    DevTypesEqual("aaaaaaaa", "aaaaaaaaaa", "aaaaaaaaaa", "aaaaaaaa");
  }

  /** The lengths the custom resource definitions allow. */
  predicate AllowedIds(interfaceID: string, afuID: string) {
    LowerHex(interfaceID) && LowerHex(afuID) && 8 <= |interfaceID| <= 32 && 8 <= |afuID| <= 40
  }

  /** Every allowed pair with an even number of digits gets a name of at most 63 characters; an odd
      number of digits does not decode. */
  lemma DevTypeFits(interfaceID: string, afuID: string)
    requires AllowedIds(interfaceID, afuID)
    ensures GetAfuDevType(interfaceID, afuID).Ok? <==> (|interfaceID| + |afuID|) % 2 == 0
    ensures GetAfuDevType(interfaceID, afuID).Ok? ==> |GetAfuDevType(interfaceID, afuID).value| <= 63
  {
    var s := interfaceID + afuID;
    assert LowerHex(s);
    HexDecodes(s);
    if HexDecode(s).Some? {
      DevTypeParts(interfaceID, afuID);
      Base64UrlRoundTrip(HexDecode(s).value);
    }
  }
}
