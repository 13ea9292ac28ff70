/** The Unicode conversions of the s390 guest: CU41, CU14, CU12, CU21, CU24 and CU42. */
module Utf8 {
  import opened Wrappers
  import opened Bits

  type Word = w: int | 0 <= w < 0x1_0000_0000

  /** Converted bytes as one number, how many they are, and whether the source is refused. */
  datatype Converted = Converted(data: nat, count: nat, invalid: bool)

  /** A Unicode scalar value. */
  predicate IsScalar(c: int) {
    0 <= c < 0xD800 || 0xE000 <= c <= 0x10FFFF
  }

  predicate IsHighSurrogate(c: int) {
    0xD800 <= c < 0xDC00
  }

  // ---------- The helpers ----------

  function Join2(b1: nat, b2: nat): nat {
    0x100 * b1 + b2
  }

  function Join3(b1: nat, b2: nat, b3: nat): nat {
    0x1_0000 * b1 + 0x100 * b2 + b3
  }

  function Join4(b1: nat, b2: nat, b3: nat, b4: nat): nat {
    0x100_0000 * b1 + 0x1_0000 * b2 + 0x100 * b3 + b4
  }

  /** UTF-32 to UTF-8. */
  function Cu41(c: Word): Converted {
    if c <= 0x7F then
      Converted(c, 1, false)
    else if c <= 0x7FF then
      Converted(Join2(0xC0 + c / 0x40, 0x80 + c % 0x40), 2, false)
    else if c <= 0xD7FF || 0xDC00 <= c <= 0xFFFF then
      Converted(Join3(0xE0 + c / 0x1000, 0x80 + c / 0x40 % 0x40, 0x80 + c % 0x40), 3, false)
    else if 0x1_0000 <= c <= 0x10_FFFF then
      Converted(Join4(0xF0 + c / 0x4_0000 % 8, 0x80 + c / 0x1_0000 % 4 * 0x10 + c / 0x1000 % 0x10,
                      0x80 + c / 0x40 % 0x40, 0x80 + c % 0x40), 4, false)
    else
      Converted(0, 0, true)
  }

  /** UTF-32 to UTF-16. */
  function Cu42(c: Word): Converted {
    if c <= 0xD7FF || 0xDC00 <= c <= 0xFFFF then
      Converted(c, 2, false)
    else if 0x1_0000 <= c <= 0x10_FFFF then
      var abcd := (c / 0x1_0000 - 1) % 0x10;
      Converted(0x1_0000 * (0xD800 + 0x40 * abcd + c / 0x400 % 0x40) + 0xDC00 + c % 0x400, 4, false)
    else
      Converted(0, 0, true)
  }

  /** UTF-16 to UTF-32; the low surrogate matters after a high one only. */
  function Cu24(unit: Word, low: Word): Converted {
    var c := unit % 0x1_0000;
    if c <= 0xD7FF || 0xDC00 <= c then
      Converted(c, 4, false)
    else
      var uvwxy := c / 0x40 % 0x10 + 1;
      Converted(0x1_0000 * uvwxy + 0x400 * (c % 0x40) + low % 0x400, 4, low / 0x400 % 0x40 != 0x37)
  }

  /** UTF-16 to UTF-8. */
  function Cu21(unit: Word, low: Word): Converted {
    var c := unit % 0x1_0000;
    if c <= 0x7F then
      Converted(c, 1, false)
    else if c <= 0x7FF then
      Converted(Join2(0xC0 + c / 0x40, 0x80 + c % 0x40), 2, false)
    else if c <= 0xD7FF || 0xDC00 <= c then
      Converted(Join3(0xE0 + c / 0x1000, 0x80 + c / 0x40 % 0x40, 0x80 + c % 0x40), 3, false)
    else
      var uvwxy := c / 0x40 % 0x10 + 1;
      Converted(Join4(0xF0 + uvwxy / 4, 0x80 + uvwxy % 4 * 0x10 + c / 4 % 0x10,
                      0x80 + c % 4 * 0x10 + low / 0x40 % 0x10, 0x80 + low % 0x40), 4, low / 0x400 % 0x40 != 0x37)
  }

  /** How many bytes the first byte announces; refused are continuation bytes and those from 0xF8 on. */
  function Announced(b1: Byte, strict: bool): Option<nat> {
    if 0x80 <= b1 <= 0xBF || b1 >= 0xF8 then None
    else if strict && (b1 == 0xC0 || b1 == 0xC1 || 0xF5 <= b1) then None
    else Some(if b1 <= 0x7F then 1 else if b1 <= 0xDF then 2 else if b1 <= 0xEF then 3 else 4)
  }

  predicate IsTail(b: Byte) {
    0x80 <= b <= 0xBF
  }

  /** What the strict check refuses once the first byte is known. */
  predicate Refused(b1: Byte, b2: Byte, b3: Byte, b4: Byte, n: nat) {
    match n
    case 2 => !IsTail(b2)
    case 3 =>
      || (b1 == 0xE0 && !(0xA0 <= b2 <= 0xBF && IsTail(b3)))
      || ((0xE1 <= b1 <= 0xEC || b1 == 0xEE || b1 == 0xEF) && !(IsTail(b2) && IsTail(b3)))
      || (b1 == 0xED && !(0x80 <= b2 <= 0x9F && IsTail(b3)))
    case 4 =>
      || (b1 == 0xF0 && !(0x90 <= b2 <= 0xBF && IsTail(b3) && IsTail(b4)))
      || (0xF1 <= b1 <= 0xF3 && !(IsTail(b2) && IsTail(b3) && IsTail(b4)))
      || (b1 == 0xF4 && !(0x80 <= b2 <= 0x8F && IsTail(b3) && IsTail(b4)))
    case _ => false
  }

  /** The character of a group of bytes: UTF-32, or UTF-16 if `to16`. */
  function Assembled(b1: Byte, b2: Byte, b3: Byte, b4: Byte, n: nat, to16: bool): nat {
    match n
    case 1 => b1
    case 2 => 0x40 * (b1 % 0x20) + b2 % 0x40
    case 3 => 0x1000 * (b1 % 0x10) + 0x40 * (b2 % 0x40) + b3 % 0x40
    case _ =>
      var uvwxy := 4 * (b1 % 8) + b2 / 0x10 % 4;
      if to16 then
        0x1_0000 * (0xD800 + 0x40 * ((uvwxy - 1) % 0x10) + 4 * (b2 % 0x10) + b3 / 0x10 % 4) + 0xDC00
          + 0x40 * (b3 % 0x10) + b4 % 0x40
      else
        0x1_0000 * uvwxy + 0x1000 * (b2 % 0x10) + 0x400 * (b3 / 0x10 % 4) + 0x40 * (b3 % 0x10) + b4 % 0x40
  }

  /** CU12 and CU14 for a group whose first byte is accepted. */
  function Cu1x(b1: Byte, b2: Byte, b3: Byte, b4: Byte, n: nat, strict: bool, to16: bool): Converted
    requires 1 <= n <= 4
  {
    if strict && Refused(b1, b2, b3, b4, n) then Converted(0, if to16 then 0 else 4, true)
    else Converted(Assembled(b1, b2, b3, b4, n, to16), if to16 && n < 4 then 2 else 4, false)
  }

  // ---------- Bytes in memory ----------

  /** The lowest `n` bytes of a number, highest first. */
  function BigEndian(data: nat, n: nat): (s: seq<Byte>)
    ensures |s| == n
  {
    if n == 0 then [] else BigEndian(data / 0x100, n - 1) + [data % 0x100]
  }

  /** Stores the lowest bytes left to right. */
  method CUxy(address: array<Byte>, at: nat, data0: nat, numBytes: nat)
    requires 1 <= numBytes <= 4 && at + numBytes <= address.Length
    modifies address
    ensures address[..] == old(address[..at]) + BigEndian(data0, numBytes) + old(address[at + numBytes..])
  {
    var data := data0;
    var i := 1;
    while i <= numBytes
      invariant 1 <= i <= numBytes + 1
      invariant address[..at] == old(address[..at]) && address[at + numBytes..] == old(address[at + numBytes..])
      invariant BigEndian(data, numBytes + 1 - i) + address[at + numBytes + 1 - i..at + numBytes]
          == BigEndian(data0, numBytes)
    {
      ghost var was := address[..];
      address[at + numBytes - i] := data % 0x100;
      assert address[at + numBytes - i..at + numBytes] == [data % 0x100] + was[at + numBytes + 1 - i..at + numBytes];
      data := data / 0x100;
      i := i + 1;
    }
    assert address[..] == address[..at] + address[at..at + numBytes] + address[at + numBytes..];
  }

  /** The bytes CU41 stores for a character it accepts. */
  function Encode(c: Word): seq<Byte> {
    BigEndian(Cu41(c).data, Cu41(c).count)
  }

  /** The byte at a place, zero behind the group. */
  function ByteAt(s: seq<Byte>, i: nat, n: nat): Byte {
    if i < n && i < |s| then s[i] else 0
  }

  /** Nothing left to read or an incomplete group, a refused group, or a character and the bytes it took. */
  datatype Reading = Exhausted | Invalid | Char(value: Converted, size: nat)

  /** The first character of a string. */
  function Decode(s: seq<Byte>, strict: bool, to16: bool): (r: Reading)
    ensures r.Char? ==> 1 <= r.size <= 4 && r.size <= |s|
  {
    if s == [] then Exhausted
    else
      match Announced(s[0], strict)
      case None => Invalid
      case Some(n) =>
        if |s| < n then Exhausted
        else
          var v := Cu1x(s[0], ByteAt(s, 1, n), ByteAt(s, 2, n), ByteAt(s, 3, n), n, strict, to16);
          if v.invalid then Invalid else Char(v, n)
  }

  // ---------- One character ----------

  lemma NextByte(data: nat, b: Byte, n: nat)
    ensures BigEndian(0x100 * data + b, n + 1) == BigEndian(data, n) + [b]
  {
    assert (0x100 * data + b) / 0x100 == data && (0x100 * data + b) % 0x100 == b;
  }

  lemma Bytes1(b1: Byte)
    ensures BigEndian(b1, 1) == [b1]
  {
    NextByte(0, b1, 0);
  }

  lemma Bytes2(b1: Byte, b2: Byte)
    ensures BigEndian(Join2(b1, b2), 2) == [b1, b2]
  {
    hide BigEndian;
    Bytes1(b1);
    NextByte(b1, b2, 1);
  }

  lemma JoinsGrow(b1: nat, b2: nat, b3: nat, b4: nat)
    ensures Join3(b1, b2, b3) == 0x100 * Join2(b1, b2) + b3 && Join4(b1, b2, b3, b4) == 0x100 * Join3(b1, b2, b3) + b4
  {
  }

  lemma Bytes3(b1: Byte, b2: Byte, b3: Byte)
    ensures BigEndian(Join3(b1, b2, b3), 3) == [b1, b2, b3]
  {
    JoinsGrow(b1, b2, b3, 0);
    hide BigEndian, Join2, Join3;
    Bytes2(b1, b2);
    NextByte(Join2(b1, b2), b3, 2);
    assert [b1, b2] + [b3] == [b1, b2, b3];
  }

  lemma Bytes4(b1: Byte, b2: Byte, b3: Byte, b4: Byte)
    ensures BigEndian(Join4(b1, b2, b3, b4), 4) == [b1, b2, b3, b4]
  {
    JoinsGrow(b1, b2, b3, b4);
    hide BigEndian, Join3, Join4;
    Bytes3(b1, b2, b3);
    NextByte(Join3(b1, b2, b3), b4, 3);
    assert [b1, b2, b3] + [b4] == [b1, b2, b3, b4];
  }

  /** The groups of bytes section 4 of RFC 3629 allows. */
  predicate IsUtf8Char(s: seq<Byte>) {
    || (|s| == 1 && s[0] <= 0x7F)
    || (|s| == 2 && 0xC2 <= s[0] <= 0xDF && IsTail(s[1]))
    || (|s| == 3 && IsTail(s[2])
        && ((s[0] == 0xE0 && 0xA0 <= s[1] <= 0xBF) || (0xE1 <= s[0] <= 0xEC && IsTail(s[1]))
            || (s[0] == 0xED && 0x80 <= s[1] <= 0x9F) || (0xEE <= s[0] <= 0xEF && IsTail(s[1]))))
    || (|s| == 4 && IsTail(s[2]) && IsTail(s[3])
        && ((s[0] == 0xF0 && 0x90 <= s[1] <= 0xBF) || (0xF1 <= s[0] <= 0xF3 && IsTail(s[1]))
            || (s[0] == 0xF4 && 0x80 <= s[1] <= 0x8F)))
  }

  // A character by its digits to the base of 64: `k` the lowest, then `i`, `e`, `u`.

  lemma Encode2(i: nat, k: nat)
    requires 2 <= i < 0x20 && k < 0x40
    ensures Cu41(0x40 * i + k) == Converted(Join2(0xC0 + i, 0x80 + k), 2, false)
    ensures Encode(0x40 * i + k) == [0xC0 + i, 0x80 + k]
  {
    hide BigEndian;
    Bytes2(0xC0 + i, 0x80 + k);
    var c := 0x40 * i + k;
    assert c / 0x40 == i && c % 0x40 == k;
  }

  lemma Encode3(e: nat, i: nat, k: nat)
    requires e < 0x10 && i < 0x40 && k < 0x40
    requires var c := 0x1000 * e + 0x40 * i + k; 0x800 <= c && !IsHighSurrogate(c)
    ensures Cu41(0x1000 * e + 0x40 * i + k) == Converted(Join3(0xE0 + e, 0x80 + i, 0x80 + k), 3, false)
    ensures Encode(0x1000 * e + 0x40 * i + k) == [0xE0 + e, 0x80 + i, 0x80 + k]
  {
    hide BigEndian;
    Bytes3(0xE0 + e, 0x80 + i, 0x80 + k);
    var c := 0x1000 * e + 0x40 * i + k;
    Digits(0, e, i, k);
    assert c / 0x1000 == e && c / 0x40 % 0x40 == i && c % 0x40 == k;
  }

  lemma Encode4(u: nat, e: nat, i: nat, k: nat)
    requires u < 8 && e < 0x40 && i < 0x40 && k < 0x40
    requires 0x1_0000 <= 0x4_0000 * u + 0x1000 * e + 0x40 * i + k <= 0x10_FFFF
    ensures Cu41(0x4_0000 * u + 0x1000 * e + 0x40 * i + k)
        == Converted(Join4(0xF0 + u, 0x80 + e, 0x80 + i, 0x80 + k), 4, false)
    ensures Encode(0x4_0000 * u + 0x1000 * e + 0x40 * i + k) == [0xF0 + u, 0x80 + e, 0x80 + i, 0x80 + k]
  {
    hide BigEndian;
    Bytes4(0xF0 + u, 0x80 + e, 0x80 + i, 0x80 + k);
    Digits(u, e, i, k);
  }

  lemma Digits(u: nat, e: nat, i: nat, k: nat)
    requires e < 0x40 && i < 0x40 && k < 0x40
    ensures var c := 0x4_0000 * u + 0x1000 * e + 0x40 * i + k;
      && c % 0x40 == k && c / 0x40 % 0x40 == i && c / 0x1000 == 0x40 * u + e && c / 0x4_0000 == u
      && c / 0x1000 % 0x10 == e % 0x10 && c / 0x1_0000 % 4 == e / 0x10
  {
    var c := 0x4_0000 * u + 0x1000 * e + 0x40 * i + k;
    assert c / 0x40 == 0x40 * (0x40 * u + e) + i;
    assert c / 0x1000 == 0x40 * u + e;
    assert c / 0x1_0000 == 4 * u + e / 0x10;
  }

  lemma Encode1(c: nat)
    requires c < 0x80
    ensures Cu41(c) == Converted(c, 1, false) && Encode(c) == [c]
  {
    hide BigEndian;
    Bytes1(c);
  }

  // ---------- Reading what was written ----------

  /** What the decoder makes of each length, the first byte and the following ones given by their digits. */
  lemma Assembled2(i: nat, k: nat)
    requires i < 0x20 && k < 0x40
    ensures Assembled(0xC0 + i, 0x80 + k, 0, 0, 2, false) == 0x40 * i + k
  {
  }

  lemma Assembled3(e: nat, i: nat, k: nat)
    requires e < 0x10 && i < 0x40 && k < 0x40
    ensures Assembled(0xE0 + e, 0x80 + i, 0x80 + k, 0, 3, false) == 0x1000 * e + 0x40 * i + k
  {
  }

  lemma Assembled4(u: nat, e: nat, i: nat, k: nat)
    requires u < 8 && e < 0x40 && i < 0x40 && k < 0x40
    ensures Assembled(0xF0 + u, 0x80 + e, 0x80 + i, 0x80 + k, 4, false) == 0x4_0000 * u + 0x1000 * e + 0x40 * i + k
  {
    TailParts(e);
    TailParts(i);
  }

  lemma TailParts(e: nat)
    requires e < 0x40
    ensures (0x80 + e) / 0x10 % 4 == e / 0x10 && (0x80 + e) % 0x10 == e % 0x10 && (0x80 + e) % 0x40 == e
  {
  }

  lemma Read1(s: seq<Byte>, strict: bool)
    requires |s| >= 1 && s[0] < 0x80
    ensures Decode(s, strict, false) == Char(Converted(s[0], 4, false), 1)
  {
  }

  lemma Read2(s: seq<Byte>, i: nat, k: nat, strict: bool)
    requires 2 <= i < 0x20 && k < 0x40 && |s| >= 2 && s[0] == 0xC0 + i && s[1] == 0x80 + k
    ensures Decode(s, strict, false) == Char(Converted(0x40 * i + k, 4, false), 2)
  {
    hide Assembled;
    Assembled2(i, k);
  }

  lemma Read3(s: seq<Byte>, e: nat, i: nat, k: nat, strict: bool)
    requires e < 0x10 && i < 0x40 && k < 0x40 && |s| >= 3 && s[0] == 0xE0 + e && s[1] == 0x80 + i && s[2] == 0x80 + k
    ensures var c := 0x1000 * e + 0x40 * i + k;
      Decode(s, strict, false)
        == if !strict || (c >= 0x800 && IsScalar(c)) then Char(Converted(c, 4, false), 3) else Invalid
  {
    hide Assembled;
    Assembled3(e, i, k);
  }

  lemma Read4(s: seq<Byte>, u: nat, e: nat, i: nat, k: nat, strict: bool)
    requires u < 8 && e < 0x40 && i < 0x40 && k < 0x40
    requires |s| >= 4 && s[0] == 0xF0 + u && s[1] == 0x80 + e && s[2] == 0x80 + i && s[3] == 0x80 + k
    ensures var c := 0x4_0000 * u + 0x1000 * e + 0x40 * i + k;
      Decode(s, strict, false)
        == if !strict || 0x1_0000 <= c <= 0x10_FFFF then Char(Converted(c, 4, false), 4) else Invalid
  {
    hide Assembled;
    Assembled4(u, e, i, k);
  }

  /** Encoded characters are read back: all of them without the strict check, exactly the scalar values with it. */
  lemma DecodeEncoded(c: Word, rest: seq<Byte>, strict: bool)
    requires !Cu41(c).invalid
    ensures Decode(Encode(c) + rest, strict, false)
      == if !strict || IsScalar(c) then Char(Converted(c, 4, false), Cu41(c).count) else Invalid
  {
    hide Encode, Decode, Join2, Join3, Join4;
    var s := Encode(c) + rest;
    if c < 0x80 {
      Encode1(c);
      Read1(s, strict);
    } else {
      var i, k := c / 0x40, c % 0x40;
      var e := i / 0x40;
      if c < 0x800 {
        Encode2(i, k);
        Read2(s, i, k, strict);
      } else if c < 0x1_0000 {
        Encode3(e, i % 0x40, k);
        Read3(s, e, i % 0x40, k, strict);
      } else {
        Encode4(e / 0x40, e % 0x40, i % 0x40, k);
        Read4(s, e / 0x40, e % 0x40, i % 0x40, k, strict);
      }
    }
  }

  /** What passes the strict check has the shape RFC 3629 asks for. */
  lemma StrictShape(s: seq<Byte>)
    requires Decode(s, true, false).Char?
    ensures IsUtf8Char(s[..Decode(s, true, false).size])
  {
    hide Assembled;
  }

  /** What the strict check lets pass is an encoded scalar value, and nothing else. */
  lemma StrictReadsEncoded(s: seq<Byte>)
    requires Decode(s, true, false).Char?
    ensures var r := Decode(s, true, false);
      r.value.data < 0x11_0000 && IsScalar(r.value.data) && Encode(r.value.data) == s[..r.size] &&
        IsUtf8Char(s[..r.size])
  {
    StrictShape(s);
    hide Encode, Decode, IsUtf8Char;
    var n := Decode(s, true, false).size;
    if n == 1 {
      Encode1(s[0]);
      Read1(s, true);
    } else if n == 2 {
      Group2(s);
    } else if n == 3 {
      Group3(s);
    } else {
      Group4(s);
    }
  }

  lemma Group2(s: seq<Byte>)
    requires |s| >= 2 && IsUtf8Char(s[..2])
    ensures exists c: Word ::
      IsScalar(c) && Encode(c) == s[..2] && Decode(s, true, false) == Char(Converted(c, 4, false), 2)
  {
    hide Encode, Decode;
    Encode2(s[0] - 0xC0, s[1] - 0x80);
    Read2(s, s[0] - 0xC0, s[1] - 0x80, true);
    assert s[..2] == [s[0], s[1]];
  }

  lemma Group3(s: seq<Byte>)
    requires |s| >= 3 && IsUtf8Char(s[..3])
    ensures exists c: Word ::
      IsScalar(c) && Encode(c) == s[..3] && Decode(s, true, false) == Char(Converted(c, 4, false), 3)
  {
    hide Encode, Decode;
    Encode3(s[0] - 0xE0, s[1] - 0x80, s[2] - 0x80);
    Read3(s, s[0] - 0xE0, s[1] - 0x80, s[2] - 0x80, true);
    assert s[..3] == [s[0], s[1], s[2]];
  }

  lemma Group4(s: seq<Byte>)
    requires |s| >= 4 && IsUtf8Char(s[..4])
    ensures exists c: Word ::
      IsScalar(c) && Encode(c) == s[..4] && Decode(s, true, false) == Char(Converted(c, 4, false), 4)
  {
    hide Encode, Decode;
    Encode4(s[0] - 0xF0, s[1] - 0x80, s[2] - 0x80, s[3] - 0x80);
    Read4(s, s[0] - 0xF0, s[1] - 0x80, s[2] - 0x80, s[3] - 0x80, true);
    assert s[..4] == [s[0], s[1], s[2], s[3]];
  }

  /**
   * A group of bytes passes the strict check exactly if RFC 3629 allows it, and exactly if it encodes a scalar
   * value.
   */
  lemma StrictIsRfc3629(s: seq<Byte>)
    ensures IsUtf8Char(s) <==> Decode(s, true, false).Char? && Decode(s, true, false).size == |s|
    ensures IsUtf8Char(s) <==> exists c: Word :: IsScalar(c) && Encode(c) == s
  {
    hide Encode, Assembled;
    if Decode(s, true, false).Char? {
      var r := Decode(s, true, false);
      StrictReadsEncoded(s);
      if r.size == |s| {
        assert s[..|s|] == s;
        var c: Word := r.value.data;
        assert IsScalar(c) && Encode(c) == s;
      }
    }
    forall c: Word | IsScalar(c) && Encode(c) == s
      ensures Decode(s, true, false).Char? && Decode(s, true, false).size == |s|
    {
      DecodeEncoded(c, [], true);
      assert Encode(c) + [] == s;
    }
  }

  // ---------- Strings ----------

  /** CU41 over a string, until a character is refused. */
  function EncodeAll(cs: seq<Word>): Option<seq<Byte>> {
    if cs == [] then Some([])
    else if Cu41(cs[0]).invalid then None
    else
      match EncodeAll(cs[1..])
      case None => None
      case Some(rest) => Some(Encode(cs[0]) + rest)
  }

  /** CU14 over a string: the characters and the bytes that are left. */
  function DecodeAll(s: seq<Byte>, strict: bool): (r: (seq<nat>, seq<Byte>))
    decreases |s|
  {
    match Decode(s, strict, false)
    case Char(v, n) => (var r := DecodeAll(s[n..], strict); ([v.data] + r.0, r.1))
    case _ => ([], s)
  }

  lemma Utf8Lengths(c: Word)
    ensures Cu41(c).invalid <==> IsHighSurrogate(c) || c > 0x10_FFFF
    ensures |Encode(c)| == Cu41(c).count
  {
    hide BigEndian;
  }

  /**
   * A string of scalar values comes back whole, and every byte is consumed; without the strict check any
   * accepted string does.
   */
  lemma {:induction false} DecodeAllEncoded(cs: seq<Word>, strict: bool)
    requires EncodeAll(cs).Some? && (strict ==> forall i :: 0 <= i < |cs| ==> IsScalar(cs[i]))
    ensures DecodeAll(EncodeAll(cs).value, strict) == (cs, [])
  {
    hide Encode, Decode;
    if cs == [] {
      assert Decode([], strict, false) == Exhausted by { EmptyIsExhausted(strict); }
    } else {
      var c, rest := cs[0], EncodeAll(cs[1..]).value;
      DecodeAllEncoded(cs[1..], strict);
      DecodeEncoded(c, rest, strict);
      Utf8Lengths(c);
      assert (Encode(c) + rest)[|Encode(c)|..] == rest;
      assert [c] + cs[1..] == cs;
    }
  }

  lemma EmptyIsExhausted(strict: bool)
    ensures Decode([], strict, false) == Exhausted
  {
  }

  /** Scalar values whose encoding, with what is left, is the string. */
  ghost predicate Spells(cs: seq<nat>, rest: seq<Byte>, s: seq<Byte>) {
    && (forall i :: 0 <= i < |cs| ==> cs[i] < 0x11_0000 && IsScalar(cs[i]))
    && EncodeAll(cs).Some? && EncodeAll(cs).value + rest == s
  }

  /** Whatever the string, what the strict check let pass encodes back to the bytes consumed. */
  lemma {:induction false} EncodeAllDecoded(s: seq<Byte>)
    ensures Spells(DecodeAll(s, true).0, DecodeAll(s, true).1, s)
    decreases |s|
  {
    if Decode(s, true, false).Char? {
      hide Encode, Decode, Spells;
      var r := Decode(s, true, false);
      StrictReadsEncoded(s);
      EncodeAllDecoded(s[r.size..]);
      var (cs, rest) := DecodeAll(s[r.size..], true);
      SpellsMore(s, r.size, r.value.data, cs, rest);
    } else {
      EncodeNone();
      hide Decode, EncodeAll;
    }
  }

  lemma SpellsMore(s: seq<Byte>, n: nat, c: Word, cs: seq<nat>, rest: seq<Byte>)
    requires n <= |s| && IsScalar(c) && c < 0x11_0000 && Encode(c) == s[..n] && Spells(cs, rest, s[n..])
    ensures Spells([c] + cs, rest, s)
  {
    EncodeMore(c, cs);
    hide Encode, EncodeAll, IsScalar;
    assert s == s[..n] + s[n..];
  }

  lemma EncodeNone()
    ensures EncodeAll([]) == Some([])
  {
  }

  lemma EncodeMore(c: Word, cs: seq<Word>)
    requires IsScalar(c) && EncodeAll(cs).Some?
    ensures EncodeAll([c] + cs) == Some(Encode(c) + EncodeAll(cs).value)
  {
    hide Encode;
    assert ([c] + cs)[1..] == cs;
  }

  // ---------- Conversions through UTF-32 ----------

  lemma SurrogateParts(c: nat, low: nat)
    requires IsHighSurrogate(c)
    ensures var w, y := c / 0x40 % 0x10 + 1, c % 0x40;
      var v := 0x1_0000 * w + 0x400 * y + low % 0x400;
      && 1 <= w <= 0x10 && c == 0xD800 + 0x40 * (w - 1) + y && 0x1_0000 <= v <= 0x10_FFFF
      && v == 0x4_0000 * (w / 4) + 0x1000 * (w % 4 * 0x10 + c / 4 % 0x10) + 0x40 * (c % 4 * 0x10 + low / 0x40 % 0x10)
         + low % 0x40
  {
    var d := c - 0xD800;
    assert c / 0x40 == 0x360 + d / 0x40;
    assert d / 0x40 < 0x10 && c / 0x40 % 0x10 == d / 0x40;
    assert c % 0x40 == 4 * (c / 4 % 0x10) + c % 4;
    assert low % 0x400 == 0x40 * (low / 0x40 % 0x10) + low % 0x40;
  }

  predicate IsLowSurrogate(c: int) {
    0xDC00 <= c < 0xE000
  }

  /**
   * A pair is refused exactly if its first unit is a high surrogate and its second is no low one; a character is
   * refused exactly if it is a high surrogate or too large.
   */
  lemma Refusals(unit: Word, low: Word, c: Word)
    ensures var pair := !IsHighSurrogate(unit % 0x1_0000) || IsLowSurrogate(low % 0x1_0000);
      (Cu24(unit, low).invalid <==> !pair) && (Cu21(unit, low).invalid <==> !pair)
    ensures var large := IsHighSurrogate(c) || c > 0x10_FFFF;
      (Cu41(c).invalid <==> large) && (Cu42(c).invalid <==> large)
  {
    SecondUnit(low);
  }

  lemma SecondUnit(low: Word)
    ensures low / 0x400 % 0x40 == 0x37 <==> IsLowSurrogate(low % 0x1_0000)
  {
    var q, r := low / 0x1_0000, low % 0x1_0000;
    assert low / 0x400 == 0x40 * q + r / 0x400;
    assert r / 0x400 < 0x40;
  }

  /** Without the strict check the first byte's leading ones tell the length: none, or two to four and then a zero. */
  lemma LeadingOnes(b1: Byte)
    ensures Announced(b1, false) == (
      if b1 / 0x80 == 0 then Some(1) else if b1 / 0x20 == 0x6 then Some(2) else if b1 / 0x10 == 0xE then Some(3)
      else if b1 / 8 == 0x1E then Some(4) else None)
  {
  }

  /** From UTF-16 to UTF-8 directly is from UTF-16 to UTF-32 and on to UTF-8, for every pair of units. */
  lemma Cu21ThroughUtf32(unit: Word, low: Word)
    ensures Cu24(unit, low).data < 0x11_0000
    ensures Cu21(unit, low) == Cu41(Cu24(unit, low).data).(invalid := Cu24(unit, low).invalid)
  {
    hide Join2, Join3, Join4;
    var c := unit % 0x1_0000;
    if IsHighSurrogate(c) {
      SurrogateParts(c, low);
      hide Cu41;
      var w := c / 0x40 % 0x10 + 1;
      Encode4(w / 4, w % 4 * 0x10 + c / 4 % 0x10, c % 4 * 0x10 + low / 0x40 % 0x10, low % 0x40);
    }
  }

  /** A character written as UTF-16 is read back. */
  lemma Cu24UndoesCu42(c: Word)
    requires !Cu42(c).invalid
    ensures var units := Cu42(c);
      if units.count == 2 then Cu24(units.data, 0) == Converted(c, 4, false)
      else
        && units.data < 0x1_0000_0000
        && Cu24(units.data / 0x1_0000, units.data % 0x1_0000) == Converted(c, 4, false)
  {
    if c >= 0x1_0000 {
      var w, y, z := c / 0x1_0000, c / 0x400 % 0x40, c % 0x400;
      SurrogatesOf(w, y, z);
      SurrogatesReturn(w, y, z);
      DigitsOfUnits(c);
      hide Cu24, Cu42;
    }
  }

  lemma DigitsOfUnits(c: nat)
    ensures c == 0x1_0000 * (c / 0x1_0000) + 0x400 * (c / 0x400 % 0x40) + c % 0x400
  {
  }

  lemma SurrogatesOf(w: nat, y: nat, z: nat)
    requires 1 <= w <= 0x10 && y < 0x40 && z < 0x400
    ensures var units := Cu42(0x1_0000 * w + 0x400 * y + z);
      && units.count == 4 && !units.invalid && units.data < 0x1_0000_0000
      && units.data / 0x1_0000 == 0xD800 + 0x40 * (w - 1) + y && units.data % 0x1_0000 == 0xDC00 + z
  {
    UnitDigits(w, y, z);
    var high, low := 0xD800 + 0x40 * (w - 1) + y, 0xDC00 + z;
    assert (0x1_0000 * high + low) / 0x1_0000 == high && (0x1_0000 * high + low) % 0x1_0000 == low;
  }

  lemma UnitDigits(w: nat, y: nat, z: nat)
    requires y < 0x40 && z < 0x400
    ensures var c := 0x1_0000 * w + 0x400 * y + z; c / 0x1_0000 == w && c / 0x400 % 0x40 == y && c % 0x400 == z
  {
    assert (0x1_0000 * w + 0x400 * y + z) / 0x400 == 0x40 * w + y;
  }

  lemma SurrogatesReturn(w: nat, y: nat, z: nat)
    requires 1 <= w <= 0x10 && y < 0x40 && z < 0x400
    ensures Cu24(0xD800 + 0x40 * (w - 1) + y, 0xDC00 + z) == Converted(0x1_0000 * w + 0x400 * y + z, 4, false)
  {
    var high, low := 0xD800 + 0x40 * (w - 1) + y, 0xDC00 + z;
    assert high == 0x40 * (0x360 + (w - 1)) + y;
    assert high / 0x40 == 0x360 + (w - 1) && high % 0x40 == y;
    assert low / 0x400 == 0x37 && low % 0x400 == z;
  }

  /** From UTF-8 to UTF-16 directly is through UTF-32 exactly for characters UTF-16 can hold that are not overlong. */
  lemma Cu12ThroughUtf32(b1: Byte, b2: Byte, b3: Byte, b4: Byte, n: nat, strict: bool)
    requires 1 <= n <= 4 && !Cu1x(b1, b2, b3, b4, n, strict, true).invalid
    ensures var c := Cu1x(b1, b2, b3, b4, n, strict, false).data;
      c < 0x20_0000 &&
        (Cu1x(b1, b2, b3, b4, n, strict, true) == Cu42(c) <==> !Cu42(c).invalid && (n == 4 ==> c >= 0x1_0000))
  {
    if n == 4 {
      UnitDigits(4 * (b1 % 8) + b2 / 0x10 % 4, 4 * (b2 % 0x10) + b3 / 0x10 % 4, 0x40 * (b3 % 0x10) + b4 % 0x40);
      hide Refused;
    }
  }

  /** With the strict check that is every character. */
  lemma StrictCu12ThroughUtf32(s: seq<Byte>)
    requires Decode(s, true, false).Char?
    ensures var r := Decode(s, true, false);
      r.value.data < 0x11_0000 && Decode(s, true, true) == Char(Cu42(r.value.data), r.size)
  {
    hide Assembled, Refused, Encode;
    var n := Announced(s[0], true).value;
    StrictReadsEncoded(s);
    Cu12ThroughUtf32(s[0], ByteAt(s, 1, n), ByteAt(s, 2, n), ByteAt(s, 3, n), n, true);
    Utf8Lengths(Decode(s, true, false).value.data);
  }
}
