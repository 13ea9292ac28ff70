/** Splitting a double into significand and exponent. */
module Fxtract {
  import opened Bits
  import opened Floats

  /** A double as the 64-bit number it travels in. */
  function Unpack(v: nat): (d: Double)
    requires v < TWO_64
    ensures d.Valid()
  {
    Double(v / TWO_63, v / TWO_52 % 2048, v % TWO_52)
  }

  lemma PackedFields(sign: nat, exp: nat, frac: nat)
    requires sign < 2 && exp < 2048 && frac < TWO_52
    ensures var v := sign * TWO_63 + exp * TWO_52 + frac;
      v < TWO_64 && v / TWO_63 == sign && v / TWO_52 % 2048 == exp && v % TWO_52 == frac
  {
    var v := sign * TWO_63 + exp * TWO_52 + frac;
    assert v == TWO_52 * (2048 * sign + exp) + frac;
    assert v / TWO_52 == 2048 * sign + exp;
  }

  lemma UnpackIsInjective(v: nat, w: nat)
    requires v < TWO_64 && w < TWO_64 && Unpack(v) == Unpack(w)
    ensures v == w
  {
    assert v == TWO_52 * (v / TWO_52) + v % TWO_52 && w == TWO_52 * (w / TWO_52) + w % TWO_52;
    assert v / TWO_52 == 2048 * (v / TWO_63) + v / TWO_52 % 2048;
    assert w / TWO_52 == 2048 * (w / TWO_63) + w / TWO_52 % 2048;
  }

  predicate IsZero(d: Double) {
    d.exp == 0 && d.frac == 0
  }

  /** The exponent of a finite number that is not zero. */
  function Exponent(d: Double): (e: int)
    requires d.Valid() && d.IsFinite() && !IsZero(d)
  {
    if d.exp > 0 then d.exp - 1023 else Width(d.frac) - 1075
  }

  /** A number of magnitude between one and two: biased exponent 1023. */
  predicate IsSignificand(s: Double) {
    s.Valid() && s.exp == 1023
  }

  /** `s` times two to the power of `e` is `d`, in units of two to the power of -1126. */
  ghost predicate Splits(d: Double, s: Double, e: int) {
    && IsSignificand(s) && s.sign == d.sign && e + 1074 >= 0
    && Shl(TWO_52 + s.frac, e + 1074) == Shl(Units(d), 52)
  }

  /** The double is exactly the integer. */
  ghost predicate IsInteger(d: Double, e: int) {
    if e == 0 then d == Double(0, 0, 0)
    else
      && d.Valid() && d.exp >= 1023 && d.sign == (if e < 0 then 1 else 0)
      && Shl(TWO_52 + d.frac, d.exp - 1023) == Shl(if e < 0 then -e else e, 52)
  }

  /** What the instruction gives for infinities, NaNs and zeros. */
  function SpecialResult(d: Double, getExp: bool): Double {
    if d.exp == 2047 then
      if d.frac == 0 then Double(if getExp then 0 else d.sign, 2047, 0) else Double(d.sign, 2047, TWO_51)
    else if getExp then Double(1, 2047, 0)
    else d
  }

  method FXTRACT(arg: nat, getExp: bool) returns (r: nat)
    requires arg < TWO_64
    ensures r < TWO_64
    ensures var d := Unpack(arg);
      if !d.IsFinite() || IsZero(d) then Unpack(r) == SpecialResult(d, getExp)
      else if getExp then IsInteger(Unpack(r), Exponent(d))
      else Splits(d, Unpack(r), Exponent(d))
  {
    ghost var d := Unpack(arg);
    var posInf, negInf, posZero, negZero := 0x7FF0_0000_0000_0000, 0xFFF0_0000_0000_0000, 0, TWO_63;
    SpecialPatterns(arg);
    if arg == posInf { return posInf; }
    if arg == negInf { return if getExp then posInf else negInf; }
    if arg / TWO_52 % 2048 == 2047 {
      r := 0x7FF8_0000_0000_0000 + arg / TWO_63 * TWO_63;
      PackedFields(arg / TWO_63, 2047, TWO_51);
      return;
    }
    if arg == posZero { return if getExp then negInf else posZero; }
    if arg == negZero { return if getExp then negInf else negZero; }
    r := FxtractFinite(arg, getExp);
  }

  method FxtractFinite(arg: nat, getExp: bool) returns (r: nat)
    requires arg < TWO_64 && Unpack(arg).IsFinite() && !IsZero(Unpack(arg))
    ensures r < TWO_64
    ensures var d := Unpack(arg);
      if getExp then IsInteger(Unpack(r), Exponent(d)) else Splits(d, Unpack(r), Exponent(d))
  {
    hide Unpack, IsInteger, Shl, Width;
    ghost var d := Unpack(arg);
    var sign, uSig, sExp := arg / TWO_63, arg % TWO_52, arg / TWO_52 % 2048;
    FieldsOf(arg);
    if sExp == 0 {
      uSig, sExp := Normalise(uSig);
      DenormalSplits(d);
    } else {
      uSig := uSig + TWO_52;
      NormalSplits(d);
    }
    sExp := sExp - 1023;
    if getExp {
      r := FromInteger(sExp);
    } else {
      r := sign * TWO_63 + 0x3FF0_0000_0000_0000 + (uSig - TWO_52);
      UnpackIs(sign, 1023, uSig - TWO_52);
    }
  }

  lemma FieldsOf(v: nat)
    requires v < TWO_64
    ensures Unpack(v) == Double(v / TWO_63, v / TWO_52 % 2048, v % TWO_52) && v / TWO_63 < 2
  {
  }

  lemma DenormalSplits(d: Double)
    requires d.Valid() && d.exp == 0 && d.frac > 0 && Width(d.frac) <= 52
    ensures Width(d.frac) > 0 && Shl(Shl(d.frac, 53 - Width(d.frac)), Width(d.frac) - 1) == Shl(Units(d), 52)
  {
    WidthBounds(d.frac);
    ShlTwice(d.frac, 53 - Width(d.frac), Width(d.frac) - 1);
  }

  lemma SpecialPatterns(v: nat)
    requires v < TWO_64
    ensures v == 0x7FF0_0000_0000_0000 <==> Unpack(v) == Double(0, 2047, 0)
    ensures v == 0xFFF0_0000_0000_0000 <==> Unpack(v) == Double(1, 2047, 0)
    ensures v == 0 <==> Unpack(v) == Double(0, 0, 0)
    ensures v == TWO_63 <==> Unpack(v) == Double(1, 0, 0)
    ensures Unpack(0x7FF0_0000_0000_0000) == Double(0, 2047, 0) && Unpack(0xFFF0_0000_0000_0000) == Double(1, 2047, 0)
  {
    hide Unpack;
    UnpackConstants();
    if Unpack(v) == Double(0, 2047, 0) { UnpackIsInjective(v, 0x7FF0_0000_0000_0000); }
    if Unpack(v) == Double(1, 2047, 0) { UnpackIsInjective(v, 0xFFF0_0000_0000_0000); }
    if Unpack(v) == Double(0, 0, 0) { UnpackIsInjective(v, 0); }
    if Unpack(v) == Double(1, 0, 0) { UnpackIsInjective(v, TWO_63); }
  }

  lemma UnpackConstants()
    ensures Unpack(0x7FF0_0000_0000_0000) == Double(0, 2047, 0) && Unpack(0xFFF0_0000_0000_0000) == Double(1, 2047, 0)
    ensures Unpack(0) == Double(0, 0, 0) && Unpack(TWO_63) == Double(1, 0, 0)
  {
  }

  /**
   * Infinities are their own significands and have an infinite exponent, zeros are their own and have the exponent
   * minus infinity, and a NaN is quiet with the same sign.
   */
  lemma SpecialNumbers(v: nat, getExp: bool, r: nat)
    requires v < TWO_64 && r < TWO_64 && Unpack(r) == SpecialResult(Unpack(v), getExp)
    ensures v == 0x7FF0_0000_0000_0000 ==> r == 0x7FF0_0000_0000_0000
    ensures v == 0xFFF0_0000_0000_0000 ==> r == if getExp then 0x7FF0_0000_0000_0000 else v
    ensures v == 0 || v == 0x8000_0000_0000_0000 ==> r == if getExp then 0xFFF0_0000_0000_0000 else v
    ensures 0x7FF0_0000_0000_0000 < v < 0x8000_0000_0000_0000 ==> r == 0x7FF8_0000_0000_0000
    ensures 0xFFF0_0000_0000_0000 < v ==> r == 0xFFF8_0000_0000_0000
  {
    SpecialPatterns(v);
    SpecialPatterns(r);
    if 0x7FF0_0000_0000_0000 < v < 0x8000_0000_0000_0000 {
      PackedFields(0, 2047, v - 0x7FF0_0000_0000_0000);
      QuietIs(r, 0);
    } else if 0xFFF0_0000_0000_0000 < v {
      PackedFields(1, 2047, v - 0xFFF0_0000_0000_0000);
      QuietIs(r, 1);
    }
  }

  lemma QuietIs(r: nat, sign: nat)
    requires r < TWO_64 && sign < 2 && Unpack(r) == Double(sign, 2047, TWO_51)
    ensures r == 0x7FF8_0000_0000_0000 + sign * TWO_63
  {
    PackedFields(sign, 2047, TWO_51);
    UnpackIsInjective(r, 0x7FF8_0000_0000_0000 + sign * TWO_63);
  }

  /** Shifts the fraction of a denormal until its highest bit is bit 52, counting the exponent down. */
  method Normalise(frac: nat) returns (uSig: nat, sExp: int)
    requires 0 < frac < TWO_52
    ensures Width(frac) <= 52 && TWO_52 <= uSig < 2 * TWO_52
    ensures sExp == Width(frac) - 52 && uSig == Shl(frac, 53 - Width(frac))
  {
    hide Width, Shl;
    Powers();
    WidthBounds(frac);
    WidthAtMost(frac, 52);
    uSig, sExp := frac, 0;
    ghost var n: nat := 0;
    ShlByNothing(frac);
    for i := 0 to 52
      invariant n == i && uSig == Shl(frac, i) < TWO_52 && sExp == -i && i <= 52 - Width(frac)
    {
      TopSet(frac, i);
      if uSig / TWO_51 % 2 == 1 { break; }
      NextShift(frac, i);
      uSig, sExp, n := 2 * uSig, sExp - 1, n + 1;
    }
    TopSet(frac, n);
    NextShift(frac, n);
    uSig := 2 * uSig;
  }

  /** The highest bit arrives at bit 51 after as many shifts as it was away. */
  lemma TopSet(v: nat, n: nat)
    requires 0 < v && Width(v) + n <= 52
    ensures Shl(v, n) < TWO_52 && (Shl(v, n) >= TWO_51 <==> Width(v) + n == 52)
  {
    Powers();
    hide Width, Shl;
    WidthBounds(v);
    AlignedBounds(v, Width(v), n);
    ShlLonger(Width(v) + n, 51);
    ShlLonger(Width(v) + n, 52);
  }

  lemma ShlLonger(m: nat, n: nat)
    ensures m <= n ==> Shl(1, m) <= Shl(1, n)
    ensures m > n ==> Shl(1, m) >= 2 * Shl(1, n)
  {
    if m <= n {
      ShlTwice(1, m, n - m);
      ShlGrows(Shl(1, m), n - m);
    } else {
      ShlTwice(1, n + 1, m - n - 1);
      ShlGrows(Shl(1, n + 1), m - n - 1);
    }
  }

  lemma ShlGrows(v: nat, n: nat)
    ensures Shl(v, n) >= v
  {
  }

  lemma NormalSplits(d: Double)
    requires d.Valid() && d.IsFinite() && d.exp > 0
    ensures Shl(TWO_52 + d.frac, d.exp + 51) == Shl(Units(d), 52)
  {
    ShlTwice(TWO_52 + d.frac, d.exp - 1, 52);
  }

  /** A small integer as a double: shifts it until its highest bit is bit 52. */
  method FromInteger(sExp: int) returns (r: nat)
    requires -1074 <= sExp <= 1023
    ensures r < TWO_64 && IsInteger(Unpack(r), sExp)
  {
    if sExp == 0 {
      UnpackConstants();
      return 0;
    }
    hide Shl, Unpack;
    var m: nat := if sExp < 0 then -sExp else sExp;
    var uExp, expExp := ShiftUp(m);
    ShlTwice(m, 1075 - expExp, expExp - 1023);
    var sign: nat := if sExp < 0 then 1 else 0;
    r := sign * TWO_63 + expExp * TWO_52 + (uExp - TWO_52);
    UnpackIs(sign, expExp, uExp - TWO_52);
  }

  method ShiftUp(m: nat) returns (uExp: nat, expExp: nat)
    requires 0 < m < 2048
    ensures 1023 <= expExp <= 1033 && uExp == Shl(m, 1075 - expExp) && TWO_52 <= uExp < 2 * TWO_52
  {
    hide Shl;
    uExp, expExp := Shl(m, 42), 0x3FF + 52 - 42;
    FitsAtFirst(m);
    FullShift(m);
    for i := 0 to 10
      invariant uExp == Shl(m, 42 + i) < 2 * TWO_52 && expExp == 1033 - i
    {
      if uExp / TWO_52 % 2 == 1 { return; }
      NextShift(m, 42 + i);
      uExp, expExp := 2 * uExp, expExp - 1;
    }
  }

  lemma UnpackIs(sign: nat, exp: nat, frac: nat)
    requires sign < 2 && exp < 2048 && frac < TWO_52
    ensures var v := sign * TWO_63 + exp * TWO_52 + frac; v < TWO_64 && Unpack(v) == Double(sign, exp, frac)
  {
    PackedFields(sign, exp, frac);
  }

  lemma FitsAtFirst(m: nat)
    requires m < 2048
    ensures Shl(m, 42) < 2 * TWO_52
  {
    Powers();
    ShlEleven(1);
    ShlTwice(1, 11, 42);
    ShlOrder(m + 1, 2048, 42);
    ShlAdd(m, 1, 42);
    assert Shl(1, 53) == 2 * Shl(1, 52);
    hide Shl;
  }

  lemma FullShift(m: nat)
    requires m > 0
    ensures Shl(m, 52) >= TWO_52
  {
    Powers();
    ShlOrder(1, m, 52);
    hide Shl;
  }
}
