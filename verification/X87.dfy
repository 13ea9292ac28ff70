/** The conversions as the helpers make them, byte by byte. */
module X87 {
  import opened Bits
  import opened Floats

  /** A byte as a number. */
  function At(s: seq<Byte>, i: nat): int
    requires i < |s|
  {
    s[i]
  }

  /** The fields of a double stored as eight bytes, lowest first. */
  ghost function DoubleOf(s: seq<Byte>): (d: Double)
    requires |s| == 8
    ensures d.Valid()
  {
    ByteValues(s[..7]);
    Double(At(s, 7) / 128, At(s, 7) % 128 * 16 + Value(s[..7]) / TWO_52, Value(s[..7]) % TWO_52)
  }

  ghost function ExtendedOf(s: seq<Byte>): (x: Extended)
    requires |s| == 10
    ensures x.Valid()
  {
    ByteValues(s[..8]);
    Extended(At(s, 9) / 128, At(s, 9) % 128 * 256 + At(s, 8), Value(s[..8]))
  }

  lemma {:induction false} BytesBelow(s: seq<Byte>)
    ensures Value(s) < Shl(1, 8 * |s|)
  {
    if s != [] {
      BytesBelow(s[1..]);
      ShlTwice(1, 8 * (|s| - 1), 8);
      ShlByte(Shl(1, 8 * (|s| - 1)));
    }
  }

  lemma ByteValues(s: seq<Byte>)
    ensures |s| == 7 ==> Value(s) < 16 * TWO_52
    ensures |s| == 8 ==> Value(s) < TWO_64
  {
    BytesBelow(s);
    Powers();
    hide Value;
    if |s| == 7 {
      ShlTwice(1, 52, 4);
      assert Shl(TWO_52, 4) == 16 * TWO_52;
    }
  }

  lemma ValueSteps(s: seq<Byte>, i: nat)
    requires i < |s|
    ensures Value(s[i..]) == At(s, i) + 256 * Value(s[i + 1..])
  {
    assert s[i..][1..] == s[i + 1..];
  }

  lemma ValueOfSeven(s: seq<Byte>)
    requires |s| == 7
    ensures Value(s) == At(s, 0) + 0x100 * At(s, 1) + 0x1_0000 * At(s, 2) + TWO_24 * At(s, 3) + 0x1_0000_0000 * At(s, 4)
                      + 0x100_0000_0000 * At(s, 5) + 0x1_0000_0000_0000 * At(s, 6)
  {
    assert s[0..] == s && s[7..] == [];
    assert Value(s[7..]) == 0;
    hide Value, At;
    ValueSteps(s, 0); ValueSteps(s, 1); ValueSteps(s, 2); ValueSteps(s, 3);
    ValueSteps(s, 4); ValueSteps(s, 5); ValueSteps(s, 6);
  }

  lemma ValueOfEight(s: seq<Byte>)
    requires |s| == 8
    ensures Value(s) == At(s, 0) + 0x100 * At(s, 1) + 0x1_0000 * At(s, 2) + TWO_24 * At(s, 3) + 0x1_0000_0000 * At(s, 4)
                      + 0x100_0000_0000 * At(s, 5) + 0x1_0000_0000_0000 * At(s, 6) + 0x100_0000_0000_0000 * At(s, 7)
  {
    ValueOfSeven(s[1..]);
  }

  // ---------- Fields and bits of the arrays ----------

  ghost function Fraction(s: seq<Byte>): nat
    requires |s| == 8
  {
    At(s, 0) + 0x100 * At(s, 1) + 0x1_0000 * At(s, 2) + TWO_24 * At(s, 3) + 0x1_0000_0000 * At(s, 4)
    + 0x100_0000_0000 * At(s, 5) + 0x1_0000_0000_0000 * (At(s, 6) % 16)
  }

  lemma FieldsOfDouble(s: seq<Byte>)
    requires |s| == 8
    ensures DoubleOf(s) == Double(At(s, 7) / 128, At(s, 7) % 128 * 16 + At(s, 6) / 16, Fraction(s))
    ensures Value(s[..7]) == Fraction(s) + TWO_52 * (At(s, 6) / 16) && Fraction(s) < TWO_52
  {
    ValueOfSeven(s[..7]);
    hide Value;
  }

  lemma FractionBit(s: seq<Byte>, i: nat)
    requires |s| == 8 && i < 52
    ensures ReadBit(s, i) == BitOf(DoubleOf(s).frac, i)
  {
    FieldsOfDouble(s);
    hide Shr, Shl, Value, Fraction, DoubleOf;
    ReadBitOfValue(s[..7], i);
    LowBit(Fraction(s), At(s, 6) / 16, i);
  }

  lemma LowBit(f: nat, h: nat, i: nat)
    requires i < 52
    ensures BitOf(f + TWO_52 * h, i) == BitOf(f, i)
  {
    ShlFiftyTwo(h);
    ShrBelow(f, h, 52, i);
    assert Shl(h, 52 - i) == 2 * Shl(h, 51 - i);
    hide Shr, Shl;
  }

  lemma ShlFiftyTwo(v: nat)
    ensures Shl(v, 52) == TWO_52 * v
  {
    ShlEleven(v);
    ShlTwice(v, 11, 11);
    ShlEleven(0x800 * v);
    ShlTwice(v, 22, 11);
    ShlEleven(0x40_0000 * v);
    ShlTwice(v, 33, 11);
    ShlEleven(0x2_0000_0000 * v);
    ShlTwice(v, 44, 8);
    ShlByte(0x1000_0000_0000 * v);
  }

  method WriteBitArray(arr: array<Byte>, n: nat, b: nat)
    requires n / 8 < arr.Length && b < 2
    modifies arr
    ensures arr[..] == WriteBit(old(arr[..]), n, b)
  {
    var c := arr[n / 8];
    ByteWidth();
    BitFits(c, n % 8, 8, 0);
    BitFits(c, n % 8, 8, b);
    arr[n / 8] := c - Shl(BitOf(c, n % 8), n % 8) + Shl(b, n % 8);
  }

  lemma WriteBitInFront(s: seq<Byte>, m: nat, n: nat, b: nat)
    requires m <= |s| && n / 8 < m && b < 2
    ensures WriteBit(s, n, b)[..m] == WriteBit(s[..m], n, b)
    ensures WriteBit(s, n, b)[m..] == s[m..]
  {
  }

  // ---------- From double to extended ----------

  lemma TopBit(v: nat, i: nat)
    requires v < Shl(1, i + 1)
    ensures BitOf(v, i) == 0 <==> v < Shl(1, i)
  {
    ShrKeeps(v, i);
    assert Shl(1, i + 1) == 2 * Shl(1, i);
    ShlDouble(1, i);
    if Shr(v, i) >= 2 { ShlOrder(2, Shr(v, i), i); }
    if Shr(v, i) == 1 { assert Shl(Shr(v, i), i) == Shl(1, i); }
    ShlNothing(i);
    hide Shr, Shl;
  }

  lemma {:induction false} WidthIs(v: nat, w: nat)
    requires w > 0 && Shl(1, w - 1) <= v < Shl(1, w)
    ensures Width(v) == w
  {
    if w > 1 { WidthIs(v / 2, w - 1); }
  }

  /** Copying one more bit of the fraction into the significand. */
  lemma CopyStep(v: nat, i: nat, j: nat, sig: nat)
    requires sig == Shl(Shr(v, i + 1), j + 1)
    ensures BitOf(sig, j) == 0 && sig + Shl(BitOf(v, i), j) == Shl(Shr(v, i), j)
  {
    var q := Shr(v, i + 1);
    ShrStep(v, i);
    ShlAdd(2 * q, BitOf(v, i), j);
    ShlDouble(q, j);
    ShrOf(2 * q, 0, j);
    assert sig == 2 * Shl(q, j);
    hide Shr, Shl;
  }

  /** How far the fraction is from having its highest bit set. */
  method LeadingZeros(f64: array<Byte>) returns (shift: nat)
    requires f64.Length == 8 && DoubleOf(f64[..]).frac > 0
    ensures shift < 52 && shift == 52 - Width(DoubleOf(f64[..]).frac)
  {
    ghost var frac := DoubleOf(f64[..]).frac;
    shift := 0;
    var i := 51;
    Powers();
    ShlOfNothing();
    hide DoubleOf, Shl, Width;
    while i >= 0
      invariant -1 <= i <= 51 && shift == 51 - i && frac == DoubleOf(f64[..]).frac
      invariant frac < Shl(1, i + 1)
    {
      FractionBit(f64[..], i);
      TopBit(frac, i);
      if ReadBit(f64[..], i) == 1 {
        WidthIs(frac, i + 1);
        return;
      }
      shift, i := shift + 1, i - 1;
    }
  }

  lemma ShlOfNothing()
    ensures Shl(1, 0) == 1
  {
  }

  /** Copies the fraction, from its highest bit down, to the top of the significand. */
  method CopyUp(f64: array<Byte>, f80: array<Byte>, shift: nat)
    requires f64.Length == 8 && f80.Length == 10 && f64 != f80 && shift < 52
    requires DoubleOf(f64[..]).frac < Shl(1, 52 - shift) && Value(f80[..8]) == 0
    modifies f80
    ensures Value(f80[..8]) == Shl(DoubleOf(f64[..]).frac, 12 + shift)
    ensures f80[8..] == old(f80[8..])
  {
    hide DoubleOf, Shl, Shr, Value;
    ghost var frac := DoubleOf(f64[..]).frac;
    var j, i := 63, 51 - shift;
    CopyStarts(frac, i + 1, j + 1);
    while i >= 0
      invariant -1 <= i && j == i + 12 + shift <= 63 && frac == DoubleOf(f64[..]).frac
      invariant Value(f80[..8]) == Shl(Shr(frac, i + 1), j + 1)
      invariant f80[8..] == old(f80[8..])
    {
      FractionBit(f64[..], i);
      CopyStep(frac, i, j, Value(f80[..8]));
      WriteBitInFront(f80[..], 8, j, ReadBit(f64[..], i));
      ValueOfWriteBit(f80[..8], j, ReadBit(f64[..], i));
      ShlNothing(j);
      ghost var before := f80[..];
      assert before[..8] == f80[..8] && before[8..] == f80[8..];
      WriteBitArray(f80, j, ReadBit(f64[..], i));
      assert f80[..8] == f80[..][..8] && f80[8..] == f80[..][8..];
      j, i := j - 1, i - 1;
    }
    ShrNothing(frac);
  }

  lemma CopyStarts(v: nat, i: nat, j: nat)
    requires v < Shl(1, i)
    ensures Shl(Shr(v, i), j) == 0
  {
    ShlNothing(i);
    ShrOf(0, v, i);
  }

  lemma ShrNothing(v: nat)
    ensures Shr(v, 0) == v
  {
  }

  lemma FieldsOfExtended(s: seq<Byte>)
    requires |s| == 10
    ensures ExtendedOf(s) == Extended(At(s, 9) / 128, At(s, 9) % 128 * 256 + At(s, 8),
      At(s, 0) + 0x100 * At(s, 1) + 0x1_0000 * At(s, 2) + TWO_24 * At(s, 3) + 0x1_0000_0000 * At(s, 4)
      + 0x100_0000_0000 * At(s, 5) + 0x1_0000_0000_0000 * At(s, 6) + 0x100_0000_0000_0000 * At(s, 7))
  {
    ValueOfEight(s[..8]);
    hide Value;
  }

  /** Shifting the bytes of a fraction up by three bits. */
  lemma NormalBytes(s: seq<Byte>, t: seq<Byte>)
    requires |s| == 8 && |t| == 10
    requires At(t, 7) == 128 + At(s, 6) % 16 * 8 + At(s, 5) / 32
    requires At(t, 6) == At(s, 5) % 32 * 8 + At(s, 4) / 32 && At(t, 5) == At(s, 4) % 32 * 8 + At(s, 3) / 32
    requires At(t, 4) == At(s, 3) % 32 * 8 + At(s, 2) / 32 && At(t, 3) == At(s, 2) % 32 * 8 + At(s, 1) / 32
    requires At(t, 2) == At(s, 1) % 32 * 8 + At(s, 0) / 32 && At(t, 1) == At(s, 0) % 32 * 8 && At(t, 0) == 0
    ensures ExtendedOf(t).sig == TWO_63 + DoubleOf(s).frac * 0x800
  {
    FieldsOfExtended(t);
    FieldsOfDouble(s);
    hide At, ExtendedOf, DoubleOf;
  }

  /** Converts a double to an extended number: both stored little-endian. */
  method ConvertF64ToF80(f64: array<Byte>, f80: array<Byte>)
    requires f64.Length == 8 && f80.Length == 10 && f64 != f80
    modifies f80
    ensures ExtendedOf(f80[..]) == Extend(DoubleOf(f64[..]))
  {
    hide DoubleOf, ExtendedOf;
    FieldsOfDouble(f64[..]);
    var sign: nat := f64[7] / 128;
    var bexp: nat := At(f64[..], 7) % 128 * 16 + f64[6] / 16;
    var mantissaIsZero := f64[6] % 16 == 0
      && f64[5] == 0 && f64[4] == 0 && f64[3] == 0 && f64[2] == 0 && f64[1] == 0 && f64[0] == 0;
    assert mantissaIsZero <==> DoubleOf(f64[..]).frac == 0;
    if bexp == 0 {
      ExtendSmall(f64, f80, sign, mantissaIsZero);
    } else if bexp == 0x7FF {
      ExtendSpecial(f64, f80, sign, mantissaIsZero);
    } else {
      ExtendNormal(f64, f80, sign, bexp);
    }
  }

  method ExtendNormal(f64: array<Byte>, f80: array<Byte>, sign: nat, exp: nat)
    requires f64.Length == 8 && f80.Length == 10 && f64 != f80 && 0 < exp < 2047
    requires DoubleOf(f64[..]).sign == sign && DoubleOf(f64[..]).exp == exp
    modifies f80
    ensures ExtendedOf(f80[..]) == Extend(DoubleOf(f64[..]))
  {
    hide DoubleOf, ExtendedOf;
    var bexp := exp + REBIAS;
    f80[9], f80[8] := sign * 128 + bexp / 256, bexp % 256;
    f80[7] := 128 + f64[6] % 16 * 8 + f64[5] / 32;
    f80[6] := f64[5] % 32 * 8 + f64[4] / 32;
    f80[5] := f64[4] % 32 * 8 + f64[3] / 32;
    f80[4] := f64[3] % 32 * 8 + f64[2] / 32;
    f80[3] := f64[2] % 32 * 8 + f64[1] / 32;
    f80[2] := f64[1] % 32 * 8 + f64[0] / 32;
    f80[1] := f64[0] % 32 * 8;
    f80[0] := 0;
    NormalBytes(f64[..], f80[..]);
    ExtendedFrom(f80[..]);
  }

  method ExtendSmall(f64: array<Byte>, f80: array<Byte>, sign: nat, mantissaIsZero: bool)
    requires f64.Length == 8 && f80.Length == 10 && f64 != f80
    requires var d := DoubleOf(f64[..]); d.exp == 0 && d.sign == sign && (mantissaIsZero <==> d.frac == 0)
    modifies f80
    ensures ExtendedOf(f80[..]) == Extend(DoubleOf(f64[..]))
  {
    hide DoubleOf, ExtendedOf, Shl;
    f80[9] := sign * 128;
    f80[8], f80[7], f80[6], f80[5], f80[4], f80[3], f80[2], f80[1], f80[0] := 0, 0, 0, 0, 0, 0, 0, 0, 0;
    FieldsOfExtended(f80[..]);
    if mantissaIsZero { return; }
    ValueOfEight(f80[..8]);
    var shift := LeadingZeros(f64);
    WidthBounds(DoubleOf(f64[..]).frac);
    CopyUp(f64, f80, shift);
    var bexp := REBIAS - shift;
    f80[9], f80[8] := sign * 128 + bexp / 256, bexp % 256;
    assert f80[..8] == f80[..][..8];
    ExtendedFrom(f80[..]);
  }

  lemma ExtendedFrom(s: seq<Byte>)
    requires |s| == 10
    ensures ExtendedOf(s) == Extended(At(s, 9) / 128, At(s, 9) % 128 * 256 + At(s, 8), Value(s[..8]))
  {
  }

  method ExtendSpecial(f64: array<Byte>, f80: array<Byte>, sign: nat, mantissaIsZero: bool)
    requires f64.Length == 8 && f80.Length == 10 && f64 != f80
    requires var d := DoubleOf(f64[..]); d.exp == 2047 && d.sign == sign && (mantissaIsZero <==> d.frac == 0)
    modifies f80
    ensures ExtendedOf(f80[..]) == Extend(DoubleOf(f64[..]))
  {
    hide DoubleOf, ExtendedOf;
    FieldsOfDouble(f64[..]);
    f80[9], f80[8] := sign * 128 + 0x7F, 0xFF;
    if mantissaIsZero {
      SetSignificand(f80, 0x80, 0);
    } else if f64[6] / 8 % 2 == 1 {
      SetSignificand(f80, 0xC0, 0);
    } else {
      SetSignificand(f80, 0xBF, 0xFF);
    }
    ExtendedFrom(f80[..]);
    assert f80[..8] == f80[..][..8];
  }

  /** Sets the highest byte of the significand, and all others alike. */
  method SetSignificand(f80: array<Byte>, top: Byte, fill: Byte)
    requires f80.Length == 10
    modifies f80
    ensures f80[8..] == old(f80[8..])
    ensures var t: int, f: int := top, fill; Value(f80[..8]) == 0x100_0000_0000_0000 * t + 0x1_0101_0101_0101 * f
  {
    f80[7] := top;
    f80[6], f80[5], f80[4], f80[3], f80[2], f80[1], f80[0] := fill, fill, fill, fill, fill, fill, fill;
    ValueOfEight(f80[..8]);
  }

  // ---------- From extended to double ----------

  /** Sets sign and exponent byte, the byte below, and all others alike. */
  method SetDouble(f64: array<Byte>, top: Byte, next: Byte, fill: Byte)
    requires f64.Length == 8
    modifies f64
    ensures var t: int, n: int, f: int := top, next, fill;
      DoubleOf(f64[..]) == Double(t / 128, t % 128 * 16 + n / 16, 0x1_0101_0101_01 * f + 0x1_0000_0000_0000 * (n % 16))
  {
    f64[7], f64[6] := top, next;
    f64[5], f64[4], f64[3], f64[2], f64[1], f64[0] := fill, fill, fill, fill, fill, fill;
    hide DoubleOf;
    FilledDouble(f64[..], fill);
  }

  lemma FilledDouble(s: seq<Byte>, fill: int)
    requires |s| == 8 && At(s, 0) == At(s, 1) == At(s, 2) == At(s, 3) == At(s, 4) == At(s, 5) == fill && fill >= 0
    ensures DoubleOf(s) == Double(At(s, 7) / 128, At(s, 7) % 128 * 16 + At(s, 6) / 16,
                                  0x1_0101_0101_01 * fill + 0x1_0000_0000_0000 * (At(s, 6) % 16))
  {
    FieldsOfDouble(s);
    hide DoubleOf, At;
  }

  ghost function LowBytes(s: seq<Byte>): nat
    requires |s| == 8
  {
    At(s, 0) + 0x100 * At(s, 1) + 0x1_0000 * At(s, 2)
  }

  ghost function HighBytes(s: seq<Byte>): nat
    requires |s| == 8
  {
    At(s, 3) + 0x100 * At(s, 4) + 0x1_0000 * At(s, 5) + TWO_24 * (At(s, 6) % 16)
  }

  lemma LowAndHigh(s: seq<Byte>)
    requires |s| == 8
    ensures DoubleOf(s)
        == Double(At(s, 7) / 128, At(s, 7) % 128 * 16 + At(s, 6) / 16, LowBytes(s) + TWO_24 * HighBytes(s))
    ensures LowBytes(s) < TWO_24 && (LowBytes(s) == TWO_24 - 1 <==> At(s, 0) == At(s, 1) == At(s, 2) == 255)
  {
    FieldsOfDouble(s);
    hide DoubleOf;
  }

  lemma BumpLow(low: nat, high: nat)
    requires low < TWO_24
    ensures Bump(low + TWO_24 * high) == if low == TWO_24 - 1 then low + TWO_24 * high else low + 1 + TWO_24 * high
  {
  }

  /** Rounds up, but lets a carry out of the three lowest bytes get lost. */
  method RoundUp(f64: array<Byte>)
    requires f64.Length == 8
    modifies f64
    ensures var d := old(DoubleOf(f64[..])); DoubleOf(f64[..]) == d.(frac := Bump(d.frac))
  {
    hide DoubleOf, Bump;
    LowAndHigh(f64[..]);
    BumpLow(LowBytes(f64[..]), HighBytes(f64[..]));
    if f64[0] != 0xFF {
      f64[0] := f64[0] + 1;
    } else if f64[1] != 0xFF {
      f64[0] := 0;
      f64[1] := f64[1] + 1;
    } else if f64[2] != 0xFF {
      f64[0] := 0;
      f64[1] := 0;
      f64[2] := f64[2] + 1;
    }
    LowAndHigh(f64[..]);
  }

  lemma DoubleFrom(s: seq<Byte>)
    requires |s| == 8
    ensures DoubleOf(s) == Double(At(s, 7) / 128, At(s, 7) % 128 * 16 + Value(s[..7]) / TWO_52, Value(s[..7]) % TWO_52)
  {
  }

  /** Copies the significand's upper bits down into the fraction of a zero. */
  method CopyDown(f80: array<Byte>, f64: array<Byte>, bexp: int)
    requires f64.Length == 8 && f80.Length == 10 && f64 != f80 && -52 <= bexp <= 0
    requires Value(f64[..7]) == 0
    modifies f64
    ensures Value(f64[..7]) == Shr(Value(f80[..8]), 12 - bexp) && f64[7] == old(f64[7])
  {
    ByteValues(f80[..8]);
    Powers();
    hide Shl, Shr, Value;
    ghost var sig := Value(f80[..8]);
    var i, j := 63, 51 + bexp;
    CopyStarts(sig, 64, j + 1);
    while i >= 0
      invariant -1 <= i && j == i - 12 + bexp && j >= -1 && sig == Value(f80[..8])
      invariant Value(f64[..7]) == Shl(Shr(sig, i + 1), j + 1) && f64[7] == old(f64[7])
    {
      if j < 0 { break; }
      assert 0 <= j < 52;
      CopyStep(sig, i, j, Value(f64[..7]));
      ShlNothing(j);
      CopyBit(f80, f64, i, j);
      i, j := i - 1, j - 1;
    }
    ShlByNothing(Shr(sig, 12 - bexp));
  }

  method CopyBit(f80: array<Byte>, f64: array<Byte>, i: nat, j: nat)
    requires f64.Length == 8 && f80.Length == 10 && f64 != f80 && i < 64 && j < 52
    modifies f64
    ensures Value(f64[..7])
        == old(Value(f64[..7])) - Shl(BitOf(old(Value(f64[..7])), j), j) + Shl(BitOf(Value(f80[..8]), i), j)
    ensures f64[7] == old(f64[7])
  {
    hide Shl, Shr, Value;
    ReadBitOfValue(f80[..8], i);
    assert ReadBit(f80[..8], i) == ReadBit(f80[..], i);
    WriteBitInFront(f64[..], 7, j, ReadBit(f80[..], i));
    ValueOfWriteBit(f64[..7], j, ReadBit(f80[..], i));
    ghost var before := f64[..];
    assert before[..7] == f64[..7];
    WriteBitArray(f64, j, ReadBit(f80[..], i));
    assert f64[..7] == f64[..][..7] && f64[7] == f64[..][7] == before[7];
  }

  function High(s: seq<Byte>, i: nat): int
    requires i < |s|
  {
    s[i] / 8
  }

  function Low(s: seq<Byte>, i: nat): int
    requires i < |s|
  {
    s[i] % 8
  }

  lemma HighLow(s: seq<Byte>, i: nat)
    requires i < |s|
    ensures At(s, i) == 8 * High(s, i) + Low(s, i) && 0 <= Low(s, i) < 8 && 0 <= High(s, i) < 32
  {
  }

  /** The bytes of a significand shifted down by eleven bits. */
  ghost function Shifted(s: seq<Byte>): int
    requires |s| == 10
  {
    High(s, 1) + Low(s, 2) * 32 + 0x100 * (High(s, 2) + Low(s, 3) * 32) + 0x1_0000 * (High(s, 3) + Low(s, 4) * 32)
    + TWO_24 * (High(s, 4) + Low(s, 5) * 32) + 0x1_0000_0000 * (High(s, 5) + Low(s, 6) * 32)
    + 0x100_0000_0000 * (High(s, 6) + Low(s, 7) * 32) + 0x1_0000_0000_0000 * High(s, 7)
  }

  lemma SignificandShifted(s: seq<Byte>)
    requires |s| == 10
    ensures var sig := ExtendedOf(s).sig;
      sig / 0x800 == Shifted(s) && sig % 0x800 == At(s, 0) + 256 * Low(s, 1) && sig / 0x800 % 2 == High(s, 1) % 2
  {
    HighLow(s, 1); HighLow(s, 2); HighLow(s, 3); HighLow(s, 4); HighLow(s, 5); HighLow(s, 6); HighLow(s, 7);
    assert 0 <= At(s, 0) < 256;
    hide At, High, Low, ExtendedOf;
    FieldsOfExtended(s);
    ShiftedSum(At(s, 0), Low(s, 1), High(s, 1), Low(s, 2), High(s, 2), Low(s, 3), High(s, 3), Low(s, 4), High(s, 4),
               Low(s, 5), High(s, 5), Low(s, 6), High(s, 6), Low(s, 7), High(s, 7));
  }

  lemma FractionShifted(s: seq<Byte>, t: seq<Byte>, nibble: nat)
    requires |s| == 10 && |t| == 8 && High(s, 7) >= 16 && nibble < 16
    requires forall k :: 0 <= k < 6 ==> At(t, k) == High(s, k + 1) + Low(s, k + 2) * 32
    requires At(t, 6) == nibble * 16 + (High(s, 7) - 16)
    ensures DoubleOf(t).frac == Shifted(s) - TWO_52
  {
    HighLow(s, 7);
    LowNibble(At(t, 6), nibble, High(s, 7) - 16);
    hide At, High, Low, DoubleOf;
    FieldsOfDouble(t);
  }

  /** Shifting the bytes of a significand down by eleven bits. */
  lemma NarrowBytes(s: seq<Byte>, t: seq<Byte>, nibble: nat)
    requires |s| == 10 && |t| == 8 && High(s, 7) >= 16 && nibble < 16
    requires forall k :: 0 <= k < 6 ==> At(t, k) == High(s, k + 1) + Low(s, k + 2) * 32
    requires At(t, 6) == nibble * 16 + (High(s, 7) - 16)
    ensures var sig := ExtendedOf(s).sig;
      && DoubleOf(t).frac == sig / 0x800 - TWO_52
      && sig % 0x800 == At(s, 0) + 256 * Low(s, 1)
      && sig / 0x800 % 2 == High(s, 1) % 2
  {
    hide At, High, Low, ExtendedOf, DoubleOf, Shifted;
    SignificandShifted(s);
    FractionShifted(s, t, nibble);
  }

  lemma LowNibble(b: int, nibble: nat, rest: nat)
    requires rest < 16 && b == nibble * 16 + rest
    ensures b % 16 == rest
  {
  }

  /** The bytes of a number as 8 h + l, regrouped around bit 11. */
  lemma ShiftedSum(s0: nat, l1: nat, h1: nat, l2: nat, h2: nat, l3: nat, h3: nat, l4: nat, h4: nat,
                   l5: nat, h5: nat, l6: nat, h6: nat, l7: nat, h7: nat)
    requires s0 < 256 && l1 < 8
    ensures var sum := s0 + 0x100 * (8 * h1 + l1) + 0x1_0000 * (8 * h2 + l2) + TWO_24 * (8 * h3 + l3)
        + 0x1_0000_0000 * (8 * h4 + l4) + 0x100_0000_0000 * (8 * h5 + l5) + 0x1_0000_0000_0000 * (8 * h6 + l6)
        + 0x100_0000_0000_0000 * (8 * h7 + l7);
      && sum / 0x800 == h1 + l2 * 32 + 0x100 * (h2 + l3 * 32) + 0x1_0000 * (h3 + l4 * 32) + TWO_24 * (h4 + l5 * 32)
           + 0x1_0000_0000 * (h5 + l6 * 32) + 0x100_0000_0000 * (h6 + l7 * 32) + 0x1_0000_0000_0000 * h7
      && sum % 0x800 == s0 + 256 * l1
      && sum / 0x800 % 2 == h1 % 2
  {
  }

  /** The guard bit, and a tie above an even number. */
  lemma GuardBits(s0: int, s1: int)
    requires 0 <= s0 < 256 && 0 <= s1 < 256
    ensures s0 + 256 * (s1 % 8) >= 0x400 <==> s1 / 4 % 2 == 1
    ensures s0 + 256 * (s1 % 8) == 0x400 && s1 / 8 % 2 == 0 <==> s1 % 16 == 4 && s0 == 0
  {
    var h, l := s1 / 8, s1 % 8;
    NibbleParts(s1, h / 2, h % 2, l);
  }

  lemma NibbleParts(b: int, e: int, o: int, l: int)
    requires 0 <= o < 2 && 0 <= l < 8 && b == 16 * e + 8 * o + l
    ensures b % 16 == 8 * o + l && b / 4 % 2 == l / 4
  {
    var carry := if l >= 4 then 1 else 0;
    Sixteenth(b, e, 8 * o + l);
    Fourth(b, 2 * (2 * e + o) + carry, l - 4 * carry);
    Odd(2 * e + o, carry);
  }

  lemma Sixteenth(b: int, q: int, r: int)
    requires b == 16 * q + r && 0 <= r < 16
    ensures b % 16 == r
  {
  }

  lemma Fourth(b: int, q: int, r: int)
    requires b == 4 * q + r && 0 <= r < 4
    ensures b / 4 == q
  {
  }

  lemma Odd(q: int, r: int)
    requires 0 <= r < 2
    ensures (2 * q + r) % 2 == r
  {
  }

  lemma NormalFraction(sig: nat)
    requires TWO_63 <= sig < TWO_64
    ensures var q, r := sig / 0x800, sig % 0x800;
      Normal(sig) % TWO_52 == if r >= 0x400 && !(r == 0x400 && q % 2 == 0) then Bump(q - TWO_52) else q - TWO_52
  {
    var q := sig / 0x800;
    assert (q - TWO_52) % TWO_24 == q % TWO_24;
    NormalMonotone(sig, sig);
  }

  /** Converts an extended number to a double: both stored little-endian. */
  method ConvertF80ToF64(f80: array<Byte>, f64: array<Byte>)
    requires f80.Length == 10 && f64.Length == 8 && f64 != f80
    modifies f64
    ensures DoubleOf(f64[..]) == Narrow(ExtendedOf(f80[..]))
  {
    hide DoubleOf, ExtendedOf, Narrow;
    ExtendedFrom(f80[..]);
    var sign: nat := f80[9] / 128;
    var bexp: int := At(f80[..], 9) % 128 * 256 + At(f80[..], 8);
    SmallOrSpecial(ExtendedOf(f80[..]));
    SignificandTop(f80[..]);
    if bexp == 0 {
      SetDouble(f64, sign * 128, 0, 0);
    } else if bexp == 0x7FFF {
      NarrowSpecial(f80, f64, sign);
    } else if f80[7] / 128 == 0 {
      SetDouble(f64, 255, 0xF8, 0);
    } else {
      bexp := bexp - REBIAS;
      if bexp >= 0x7FF {
        SetDouble(f64, sign * 128 + 0x7F, 0xF0, 0);
      } else if bexp <= 0 {
        NarrowSmall(f80, f64, sign, bexp);
      } else {
        NarrowNormal(f80, f64, sign, bexp);
      }
    }
  }

  /** The cases of narrowing that do not look at the significand's bits. */
  lemma SmallOrSpecial(x: Extended)
    requires x.Valid()
    ensures x.exp == 0 ==> Narrow(x) == Double(x.sign, 0, 0)
    ensures 0 < x.exp < 0x7FFF && x.sig < TWO_63 ==> Narrow(x) == INDEFINITE
    ensures x.exp < 0x7FFF && x.sig >= TWO_63 && x.exp - REBIAS >= 2047 ==> Narrow(x) == Double(x.sign, 2047, 0)
  {
    hide Normal, Denormal;
  }

  lemma SignificandTop(s: seq<Byte>)
    requires |s| == 10
    ensures var sig := ExtendedOf(s).sig;
      && (sig >= TWO_63 <==> At(s, 7) / 128 == 1)
      && sig / TWO_62 == At(s, 7) / 64
      && (sig % TWO_63 == 0 <==>
            At(s, 7) % 128 == 0 &&
            At(s, 6) == At(s, 5) == At(s, 4) == At(s, 3) == At(s, 2) == At(s, 1) == At(s, 0) == 0)
  {
    FieldsOfExtended(s);
    hide ExtendedOf;
    var rest := At(s, 0) + 0x100 * At(s, 1) + 0x1_0000 * At(s, 2) + TWO_24 * At(s, 3) + 0x1_0000_0000 * At(s, 4)
      + 0x100_0000_0000 * At(s, 5) + 0x1_0000_0000_0000 * At(s, 6);
    TopByte(At(s, 7), rest);
  }

  lemma TopByte(b: int, rest: nat)
    requires 0 <= b < 256 && rest < 0x100_0000_0000_0000
    ensures var sig := rest + 0x100_0000_0000_0000 * b;
      && (sig >= TWO_63 <==> b / 128 == 1) && (sig % TWO_63 == 0 <==> b % 128 == 0 && rest == 0) &&
         sig / TWO_62 == b / 64
  {
    var sig := rest + 0x100_0000_0000_0000 * b;
    assert sig == TWO_63 * (b / 128) + (rest + 0x100_0000_0000_0000 * (b % 128));
    assert sig == TWO_62 * (b / 64) + (rest + 0x100_0000_0000_0000 * (b % 64));
  }

  method NarrowSpecial(f80: array<Byte>, f64: array<Byte>, sign: nat)
    requires f80.Length == 10 && f64.Length == 8 && f64 != f80
    requires ExtendedOf(f80[..]).sign == sign && ExtendedOf(f80[..]).exp == 0x7FFF
    modifies f64
    ensures DoubleOf(f64[..]) == Narrow(ExtendedOf(f80[..]))
  {
    hide DoubleOf, ExtendedOf, Normal, Denormal;
    SignificandTop(f80[..]);
    var isInf := f80[7] % 128 == 0 && f80[6] == 0 && f80[5] == 0 && f80[4] == 0
      && f80[3] == 0 && f80[2] == 0 && f80[1] == 0 && f80[0] == 0;
    if isInf {
      if f80[7] / 128 == 0 {
        SetDouble(f64, 255, 0xF8, 0);
      } else {
        SetDouble(f64, sign * 128 + 0x7F, 0xF0, 0);
      }
    } else if f80[7] / 64 % 2 == 1 {
      SetDouble(f64, sign * 128 + 0x7F, 0xF8, 0);
    } else {
      SetDouble(f64, sign * 128 + 0x7F, 0xF7, 0xFF);
    }
  }

  method NarrowSmall(f80: array<Byte>, f64: array<Byte>, sign: nat, bexp: int)
    requires f80.Length == 10 && f64.Length == 8 && f64 != f80
    requires var x := ExtendedOf(f80[..]);
      x.sign == sign && x.exp == bexp + REBIAS && x.exp > 0 && x.sig >= TWO_63 && bexp <= 0
    modifies f64
    ensures DoubleOf(f64[..]) == Narrow(ExtendedOf(f80[..]))
  {
    hide ExtendedOf, DoubleOf, Bump, Shr;
    ZeroDouble(f64, sign);
    if bexp < -52 { return; }
    ghost var sig := ExtendedOf(f80[..]).sig;
    TruncateSmall(f80, f64, sign, bexp);
    SignificandBit(f80[..], 11 - bexp);
    if ReadBit(f80[..], 11 - bexp) == 1 { RoundUp(f64); }
  }

  method ZeroDouble(f64: array<Byte>, sign: nat)
    requires f64.Length == 8 && sign < 2
    modifies f64
    ensures Value(f64[..7]) == 0 && f64[7] == sign * 128 && DoubleOf(f64[..]) == Double(sign, 0, 0)
  {
    f64[7] := sign * 128;
    f64[6], f64[5], f64[4], f64[3], f64[2], f64[1], f64[0] := 0, 0, 0, 0, 0, 0, 0;
    ValueOfSeven(f64[..7]);
    FieldsOfDouble(f64[..]);
    hide DoubleOf, Value;
  }

  method TruncateSmall(f80: array<Byte>, f64: array<Byte>, sign: nat, bexp: int)
    requires f80.Length == 10 && f64.Length == 8 && f64 != f80 && -52 <= bexp <= 0 && sign < 2
    requires Value(f64[..7]) == 0 && f64[7] == sign * 128
    modifies f64
    ensures DoubleOf(f64[..]) == Double(sign, 0, Shr(ExtendedOf(f80[..]).sig, 12 - bexp))
  {
    ExtendedFrom(f80[..]);
    assert f80[..8] == f80[..][..8];
    hide ExtendedOf, Shr, Value, DoubleOf;
    CopyDown(f80, f64, bexp);
    DenormalBelow(ExtendedOf(f80[..]).sig, 12 - bexp);
    DoubleFrom(f64[..]);
    assert f64[..7] == f64[..][..7];
  }

  lemma SignificandBit(s: seq<Byte>, n: nat)
    requires |s| == 10 && n < 64
    ensures ReadBit(s, n) == BitOf(ExtendedOf(s).sig, n)
  {
    ReadBitOfValue(s[..8], n);
    hide Value, Shr;
  }

  method NarrowNormal(f80: array<Byte>, f64: array<Byte>, sign: nat, bexp: nat)
    requires f80.Length == 10 && f64.Length == 8 && f64 != f80
    requires var x := ExtendedOf(f80[..]);
      x.sign == sign && x.exp == bexp + REBIAS && x.sig >= TWO_63 && 0 < bexp < 2047
    modifies f64
    ensures DoubleOf(f64[..]) == Narrow(ExtendedOf(f80[..]))
  {
    NormalFraction(ExtendedOf(f80[..]).sig);
    GuardBits(At(f80[..], 0), At(f80[..], 1));
    hide ExtendedOf, DoubleOf, Normal, Bump;
    TruncateNormal(f80, f64, sign, bexp);
    if f80[1] / 4 % 2 == 1 {
      if f80[1] % 16 == 4 && f80[0] == 0 { return; }
      RoundUp(f64);
    }
  }

  method TruncateNormal(f80: array<Byte>, f64: array<Byte>, sign: nat, bexp: nat)
    requires f80.Length == 10 && f64.Length == 8 && f64 != f80 && 0 < bexp < 2047 && sign < 2
    requires ExtendedOf(f80[..]).sig >= TWO_63
    modifies f64
    ensures var sig := ExtendedOf(f80[..]).sig;
      && DoubleOf(f64[..]) == Double(sign, bexp, sig / 0x800 - TWO_52)
      && sig % 0x800 == At(f80[..], 0) + 256 * (At(f80[..], 1) % 8)
      && sig / 0x800 % 2 == At(f80[..], 1) / 8 % 2
  {
    SignificandTop(f80[..]);
    hide ExtendedOf, DoubleOf;
    ShiftDown(f80, f64);
    ghost var low := f64[..];
    f64[6] := bexp % 16 * 16 + f80[7] / 8 % 16;
    f64[7] := sign * 128 + bexp / 16 % 128;
    assert forall k :: 0 <= k < 6 ==> At(f64[..], k) == At(low, k);
    NarrowBytes(f80[..], f64[..], bexp % 16);
    DoubleFields(f64[..], sign, bexp);
    LowHighOf(f80[..], 1);
  }

  lemma LowHighOf(s: seq<Byte>, i: nat)
    requires i < |s|
    ensures Low(s, i) == At(s, i) % 8 && High(s, i) == At(s, i) / 8
  {
  }

  method ShiftDown(f80: array<Byte>, f64: array<Byte>)
    requires f80.Length == 10 && f64.Length == 8 && f64 != f80
    modifies f64
    ensures forall k :: 0 <= k < 6 ==> At(f64[..], k) == High(f80[..], k + 1) + Low(f80[..], k + 2) * 32
  {
    f64[0] := f80[1] / 8 + f80[2] % 8 * 32;
    f64[1] := f80[2] / 8 + f80[3] % 8 * 32;
    f64[2] := f80[3] / 8 + f80[4] % 8 * 32;
    f64[3] := f80[4] / 8 + f80[5] % 8 * 32;
    f64[4] := f80[5] / 8 + f80[6] % 8 * 32;
    f64[5] := f80[6] / 8 + f80[7] % 8 * 32;
  }

  lemma DoubleFields(s: seq<Byte>, sign: nat, exp: nat)
    requires |s| == 8 && sign < 2 && exp < 2048
    requires At(s, 7) == sign * 128 + exp / 16 && At(s, 6) / 16 == exp % 16
    ensures DoubleOf(s).sign == sign && DoubleOf(s).exp == exp
  {
    FieldsOfDouble(s);
    hide DoubleOf;
  }
}
