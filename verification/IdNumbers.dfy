/** What the encoded part of an AFU device type says (pkg/fpga/devtypes.go): the number the two
    ids write in base 16, written in base 64; and when the name is one Kubernetes accepts. */
module IdNumbers {
  import opened Common
  import opened DevTypes
  import LabelSplit

  // --------------------------------------------------------------- alphabets

  const UPPER := "ABCDEFGHIJKLMNOPQRSTUVWXYZ"
  const LOWER := "abcdefghijklmnopqrstuvwxyz"
  const DECIMAL := "0123456789"

  /** Table 2 of RFC 4648. */
  const BASE64 := UPPER + LOWER + DECIMAL + "-_"

  lemma UpperTable(v: nat)
    requires v < 26
    ensures |UPPER| == 26 && SextetChar(v) == UPPER[v]
  {
  }

  lemma LowerTable(v: nat)
    requires v < 26
    ensures |LOWER| == 26 && SextetChar(26 + v) == LOWER[v]
  {
  }

  lemma DecimalTable(v: nat)
    requires v < 10
    ensures |DECIMAL| == 10 && SextetChar(52 + v) == DECIMAL[v]
  {
  }

  /** Where a character of four texts in a row comes from. */
  lemma InFour(a: string, b: string, c: string, d: string, i: nat)
    requires i < |a + b + c + d|
    ensures (a + b + c + d)[i] ==
            if i < |a| then a[i] else if i < |a + b| then b[i-|a|]
            else if i < |a + b + c| then c[i-|a + b|] else d[i-|a + b + c|]
  {
  }

  /** Six-bit values are written with the characters of the table. */
  lemma Base64Table(v: Sextet)
    ensures |BASE64| == 64 && SextetChar(v) == BASE64[v]
  {
    UpperTable(0);
    LowerTable(0);
    DecimalTable(0);
    InFour(UPPER, LOWER, DECIMAL, "-_", v);
    if v < 26 {
      UpperTable(v);
    } else if v < 52 {
      LowerTable(v - 26);
    } else if v < 62 {
      DecimalTable(v - 52);
    }
  }

  /** And these characters read as their places. */
  lemma Base64Reads(v: Sextet)
    ensures CharSextet(SextetChar(v)) == Some(v)
  {
  }

  /** Hexadecimal digits of either case read as their places. */
  lemma HexTable(v: nat)
    requires v < 16
    ensures |"0123456789abcdef"| == |"0123456789ABCDEF"| == 16
    ensures IsLowerHex("0123456789abcdef"[v]) && HexValue("0123456789abcdef"[v]) == v
    ensures IsHex("0123456789ABCDEF"[v]) && HexValue("0123456789ABCDEF"[v]) == v
  {
  }

  // ----------------------------------------------------------------- numbers

  /** The number lowercase hexadecimal digits write after `sofar`. */
  function HexNumber(sofar: nat, s: string): nat
    requires LowerHex(s)
    decreases |s|
  {
    if s == [] then sofar
    else
      assert s[0] in s;
      HexNumber(16 * sofar + HexValue(s[0]), s[1..])
  }

  function ByteNumber(sofar: nat, bytes: seq<Byte>): nat
    decreases |bytes|
  {
    if bytes == [] then sofar else ByteNumber(256 * sofar + bytes[0], bytes[1..])
  }

  function SextetNumber(sofar: nat, v: seq<Sextet>): nat
    decreases |v|
  {
    if v == [] then sofar else SextetNumber(64 * sofar + v[0], v[1..])
  }

  predicate IsBase64(s: string) { forall i | 0 <= i < |s| :: CharSextet(s[i]).Some? }

  /** The number base64url characters write after `sofar`. */
  function Base64Number(sofar: nat, s: string): nat
    requires IsBase64(s)
    decreases |s|
  {
    if s == [] then sofar else Base64Number(64 * sofar + CharSextet(s[0]).value, s[1..])
  }

  /** The number with the zero bits that fill up the last six-bit value of `n` bytes. */
  function Padded(n: nat, number: nat): nat {
    if n % 3 == 0 then number else if n % 3 == 1 then 16 * number else 4 * number
  }

  lemma ThreeLess(n: nat)
    requires n >= 3
    ensures (n - 3) % 3 == n % 3
  {
  }

  lemma {:induction false} DecodedNumber(sofar: nat, s: string)
    requires LowerHex(s) && HexDecode(s).Some?
    ensures ByteNumber(sofar, HexDecode(s).value) == HexNumber(sofar, s)
    decreases |s|
  {
    if s == [] {
    } else {
      assert s[0] in s && s[1] in s && s[1..][1..] == s[2..];
      var bytes, rest := HexDecode(s).value, HexDecode(s[2..]).value;
      assert bytes[1..] == rest;
      assert LowerHex(s[1..]) && LowerHex(s[2..]);
      var next := 256 * sofar + bytes[0];
      assert next == 16 * (16 * sofar + HexValue(s[0])) + HexValue(s[1]);
      DecodedNumber(next, s[2..]);
      TwoDigits(sofar, s);
    }
  }

  lemma TwoDigits(sofar: nat, s: string)
    requires LowerHex(s) && |s| >= 2
    ensures IsHex(s[0]) && IsHex(s[1]) && LowerHex(s[2..])
    ensures HexNumber(sofar, s) == HexNumber(256 * sofar + 16 * HexValue(s[0]) + HexValue(s[1]), s[2..])
  {
    assert s[0] in s && s[1] in s && s[1..][1..] == s[2..] && s[1..][0] == s[1];
    assert 16 * (16 * sofar + HexValue(s[0])) + HexValue(s[1]) == 256 * sofar + 16 * HexValue(s[0]) + HexValue(s[1]);
  }

  lemma ThreeBytes(sofar: nat, bytes: seq<Byte>)
    requires |bytes| >= 3
    ensures ByteNumber(sofar, bytes) ==
            ByteNumber(0x100_0000 * sofar + 0x1_0000 * bytes[0] as int + 256 * bytes[1] as int + bytes[2], bytes[3..])
  {
    assert bytes[1..][1..] == bytes[2..] && bytes[2..][1..] == bytes[3..];
    assert bytes[1..][0] == bytes[1] && bytes[2..][0] == bytes[2];
    var one := 256 * sofar + bytes[0];
    var two := 256 * one + bytes[1];
    assert ByteNumber(sofar, bytes) == ByteNumber(one, bytes[1..]) == ByteNumber(two, bytes[2..]);
  }

  lemma FourSextets(sofar: nat, v: seq<Sextet>)
    requires |v| >= 4
    ensures SextetNumber(sofar, v) ==
            SextetNumber(0x100_0000 * sofar + 0x4_0000 * v[0] as int + 4096 * v[1] as int + 64 * v[2] as int + v[3], v[4..])
  {
    assert v[1..][1..] == v[2..] && v[2..][1..] == v[3..] && v[3..][1..] == v[4..];
    assert v[1..][0] == v[1] && v[2..][0] == v[2] && v[3..][0] == v[3];
    var one := 64 * sofar + v[0];
    var two := 64 * one + v[1];
    var three := 64 * two + v[2];
    assert SextetNumber(sofar, v) == SextetNumber(one, v[1..]) == SextetNumber(two, v[2..]);
    assert SextetNumber(two, v[2..]) == SextetNumber(three, v[3..]);
  }

  lemma {:induction false} RegroupedNumber(sofar: nat, bytes: seq<Byte>)
    ensures SextetNumber(sofar, Sextets(bytes)) == Padded(|bytes|, ByteNumber(sofar, bytes))
    decreases |bytes|
  {
    if |bytes| < 3 {
      FewBytes(sofar, bytes);
    } else {
      var v := Sextets(bytes);
      assert v[4..] == Sextets(bytes[3..]);
      var next := 0x100_0000 * sofar + 0x1_0000 * bytes[0] as int + 256 * bytes[1] as int + bytes[2];
      SameBits(bytes[0], bytes[1], bytes[2]);
      FourSextets(sofar, v);
      ThreeBytes(sofar, bytes);
      RegroupedNumber(next, bytes[3..]);
      ThreeLess(|bytes|);
    }
  }

  lemma SameBits(a: Byte, b: Byte, c: Byte)
    ensures 0x4_0000 * (a / 4) + 4096 * (a % 4 * 16 + b / 16) + 64 * (b % 16 * 4 + c / 64) + c % 64 ==
            0x1_0000 * a + 256 * b + c
  {
  }

  lemma FewBytes(sofar: nat, bytes: seq<Byte>)
    requires |bytes| < 3
    ensures SextetNumber(sofar, Sextets(bytes)) == Padded(|bytes|, ByteNumber(sofar, bytes))
  {
    if |bytes| == 1 {
      OneByte(sofar, bytes[0]);
      assert bytes == [bytes[0]];
    } else if |bytes| == 2 {
      TwoBytes(sofar, bytes[0], bytes[1]);
      assert bytes == [bytes[0], bytes[1]];
    }
  }

  lemma OneByte(sofar: nat, a: Byte)
    ensures SextetNumber(sofar, [a / 4, a % 4 * 16]) == 16 * ByteNumber(sofar, [a])
  {
    var v: seq<Sextet> := [a / 4, a % 4 * 16];
    var one := 64 * sofar + v[0];
    assert v[1..] == [v[1]];
    assert SextetNumber(one, v[1..]) == SextetNumber(64 * one + v[1], []);
    assert ByteNumber(sofar, [a]) == ByteNumber(256 * sofar + a, []);
  }

  lemma TwoBytes(sofar: nat, a: Byte, b: Byte)
    ensures SextetNumber(sofar, [a / 4, a % 4 * 16 + b / 16, b % 16 * 4]) == 4 * ByteNumber(sofar, [a, b])
  {
    var v: seq<Sextet> := [a / 4, a % 4 * 16 + b / 16, b % 16 * 4];
    var one := 64 * sofar + v[0];
    var two := 64 * one + v[1];
    assert v[1..] == [v[1], v[2]] && [v[1], v[2]][1..] == [v[2]];
    assert SextetNumber(one, v[1..]) == SextetNumber(two, [v[2]]) == SextetNumber(64 * two + v[2], []);
    assert [a, b][1..] == [b];
    assert ByteNumber(sofar, [a, b]) == ByteNumber(256 * sofar + a, [b]);
    assert ByteNumber(256 * sofar + a, [b]) == ByteNumber(256 * (256 * sofar + a) + b, []);
  }

  lemma {:induction false} WrittenNumber(sofar: nat, s: string, v: seq<Sextet>)
    requires |s| == |v| && forall i | 0 <= i < |s| :: CharSextet(s[i]) == Some(v[i])
    ensures IsBase64(s) && Base64Number(sofar, s) == SextetNumber(sofar, v)
    decreases |s|
  {
    if s == [] {
    } else {
      WrittenNumber(64 * sofar + v[0], s[1..], v[1..]);
    }
  }

  /** The encoded part is the number both ids write one after the other, in base 64, with zero bits
      to fill up the last digit. */
  lemma EncodedNumber(s: string)
    requires LowerHex(s) && HexDecode(s).Some?
    ensures var e := Base64Url(HexDecode(s).value);
            IsBase64(e) && Base64Number(0, e) == Padded(|s| / 2, HexNumber(0, s))
  {
    EncodedIs(s, HexDecode(s).value);
  }

  lemma EncodedIs(s: string, bytes: seq<Byte>)
    requires LowerHex(s) && HexDecode(s) == Some(bytes)
    ensures IsBase64(Base64Url(bytes)) && Base64Number(0, Base64Url(bytes)) == Padded(|s| / 2, HexNumber(0, s))
  {
    DecodedLength(s, bytes);
    DecodedNumber(0, s);
    EncodedBytes(bytes);
  }

  lemma DecodedLength(s: string, bytes: seq<Byte>)
    requires LowerHex(s) && HexDecode(s) == Some(bytes)
    ensures |s| / 2 == |bytes|
  {
    HexDecodes(s);
  }

  lemma EncodedBytes(bytes: seq<Byte>)
    ensures IsBase64(Base64Url(bytes))
    ensures Base64Number(0, Base64Url(bytes)) == Padded(|bytes|, ByteNumber(0, bytes))
  {
    var v, e := Sextets(bytes), Base64Url(bytes);
    RegroupedNumber(0, bytes);
    forall i | 0 <= i < |e|
      ensures CharSextet(e[i]) == Some(v[i])
    {
      Base64Reads(v[i]);
    }
    WrittenNumber(0, e, v);
  }

  // ------------------------------------------------------------- legal names

  lemma CharIsLegal(v: Sextet)
    ensures LabelSplit.IsLabelChar(SextetChar(v)) && (LabelSplit.IsAlphaNum(SextetChar(v)) <==> v < 62)
  {
  }

  function LastBits(n: nat, b: Byte): Sextet {
    if n % 3 == 0 then b % 64 else if n % 3 == 1 then b % 4 * 16 else b % 16 * 4
  }

  lemma {:induction false} LastSextet(bytes: seq<Byte>)
    requires bytes != []
    ensures var v := Sextets(bytes); v != [] && v[|v|-1] == LastBits(|bytes|, bytes[|bytes|-1])
    decreases |bytes|
  {
    if |bytes| > 3 {
      LastSextet(bytes[3..]);
      LaterLast(bytes);
      ThreeLess(|bytes|);
    } else if |bytes| == 3 {
      assert Sextets(bytes[3..]) == [];
    }
  }

  lemma LaterLast(bytes: seq<Byte>)
    requires |bytes| > 3 && Sextets(bytes[3..]) != []
    ensures var v, rest := Sextets(bytes), Sextets(bytes[3..]); v != [] && v[|v|-1] == rest[|rest|-1]
  {
  }

  /** The last byte the digits write. */
  lemma {:induction false} LastByte(s: string, bytes: seq<Byte>)
    requires s != [] && LowerHex(s) && HexDecode(s) == Some(bytes)
    ensures |s| >= 2 && bytes != [] && IsHex(s[|s|-2]) && IsHex(s[|s|-1])
    ensures bytes[|bytes|-1] == 16 * HexValue(s[|s|-2]) + HexValue(s[|s|-1])
    decreases |s|
  {
    HexDecodes(s);
    if |s| > 2 {
      LastByte(s[2..], HexDecode(s[2..]).value);
    } else {
      assert s[2..] == [];
    }
  }

  /** The last six bits of the ids, where they are a six-bit value of their own. */
  predicate EndsPlain(s: string)
    requires |s| >= 2 && IsHex(s[|s|-2]) && IsHex(s[|s|-1])
  {
    |s| / 2 % 3 == 0 ==> (16 * HexValue(s[|s|-2]) + HexValue(s[|s|-1])) % 64 < 62
  }

  lemma EncodedChars(bytes: seq<Byte>)
    requires bytes != []
    ensures var e := Base64Url(bytes);
            && e != [] && LabelSplit.LabelChars(e)
            && (LabelSplit.IsAlphaNum(e[|e|-1]) <==> LastBits(|bytes|, bytes[|bytes|-1]) < 62)
  {
    LastSextet(bytes);
    var v, e := Sextets(bytes), Base64Url(bytes);
    forall i | 0 <= i < |e|
      ensures LabelSplit.IsLabelChar(e[i])
    {
      CharIsLegal(v[i]);
    }
    CharIsLegal(v[|v|-1]);
  }

  lemma EncodedEnd(s: string, bytes: seq<Byte>)
    requires s != [] && LowerHex(s) && HexDecode(s) == Some(bytes)
    ensures |s| >= 2 && IsHex(s[|s|-2]) && IsHex(s[|s|-1])
    ensures var e := Base64Url(bytes);
            e != [] && LabelSplit.LabelChars(e) && (LabelSplit.IsAlphaNum(e[|e|-1]) <==> EndsPlain(s))
  {
    DecodedLength(s, bytes);
    LastByte(s, bytes);
    EncodedChars(bytes);
  }

  /** Kubernetes accepts the name exactly when the number of bytes is no multiple of three or their
      last six bits are not 62 or 63, which are written `-` and `_`. */
  lemma DevTypeLegal(i: string, a: string)
    requires AllowedIds(i, a) && (|i| + |a|) % 2 == 0
    ensures |i + a| >= 2 && IsHex((i + a)[|i + a|-2]) && IsHex((i + a)[|i + a|-1])
    ensures GetAfuDevType(i, a).Ok?
    ensures LabelSplit.LegalValue(GetAfuDevType(i, a).value) <==> EndsPlain(i + a)
  {
    DevTypeFits(i, a);
    LegalIs(i, a, i + a);
  }

  lemma LegalIs(i: string, a: string, s: string)
    requires AllowedIds(i, a) && s == i + a && HexDecode(s).Some? && |GetAfuDevType(i, a).value| <= 63
    ensures |s| >= 2 && IsHex(s[|s|-2]) && IsHex(s[|s|-1])
    ensures LabelSplit.LegalValue(GetAfuDevType(i, a).value) <==> EndsPlain(s)
  {
    assert LowerHex(s);
    var e := Base64Url(HexDecode(s).value);
    EncodedEnd(s, HexDecode(s).value);
    NameLegal(i[..3], a[..3], e);
  }

  lemma NameLegal(x: string, y: string, e: string)
    requires |x| == |y| == 3 && LowerHex(x) && LowerHex(y) && e != [] && LabelSplit.LabelChars(e)
    requires |DevTypeName(x, y, e)| <= 63
    ensures LabelSplit.LegalValue(DevTypeName(x, y, e)) <==> LabelSplit.IsAlphaNum(e[|e|-1])
  {
    var name := DevTypeName(x, y, e);
    forall k | 0 <= k < |name|
      ensures LabelSplit.IsLabelChar(name[k])
    {
      if 3 <= k < 6 { assert name[k] == x[k-3] && x[k-3] in x; }
      if 7 <= k < 10 { assert name[k] == y[k-7] && y[k-7] in y; }
      if 11 <= k { assert name[k] == e[k-11]; }
    }
    assert name[|name|-1] == e[|e|-1];
  }

  /** Allowed ids can have a name Kubernetes refuses. */
  lemma DevTypeIllegal()
    ensures AllowedIds("00000000", "00000000ff") && GetAfuDevType("00000000", "00000000ff").Ok?
    ensures !LabelSplit.LegalValue(GetAfuDevType("00000000", "00000000ff").value)
  {
    var s := "00000000" + "00000000ff";
    assert |s| == 18 && s[16] == 'f' && s[17] == 'f';
    DevTypeLegal("00000000", "00000000ff");
  }
}
