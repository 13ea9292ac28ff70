/** 64-bit and 80-bit floating point numbers, and the conversions between them. */
module Floats {
  import opened Bits

  const TWO_24 := 0x100_0000
  const TWO_51 := 0x8_0000_0000_0000
  const TWO_52 := 0x10_0000_0000_0000
  const TWO_62 := 0x4000_0000_0000_0000
  const TWO_63 := 0x8000_0000_0000_0000

  /** The exponent of a double is biased by 1023, that of an extended number by 16383. */
  const REBIAS := 15360

  datatype Double = Double(sign: nat, exp: nat, frac: nat) {
    predicate Valid() {
      sign < 2 && exp < 2048 && frac < TWO_52
    }

    predicate IsFinite() {
      exp < 2047
    }

    predicate IsNaN() {
      exp == 2047 && frac != 0
    }
  }

  /** The integer bit of an extended number is part of its significand. */
  datatype Extended = Extended(sign: nat, exp: nat, sig: nat) {
    predicate Valid() {
      sign < 2 && exp < 0x8000 && sig < TWO_64
    }
  }

  /** How many bits a number has. */
  function Width(v: nat): nat {
    if v == 0 then 0 else 1 + Width(v / 2)
  }

  lemma {:induction false} WidthBounds(v: nat)
    requires v > 0
    ensures Width(v) > 0 && Shl(1, Width(v) - 1) <= v < Shl(1, Width(v))
  {
    if v > 1 { WidthBounds(v / 2); }
  }

  lemma {:induction false} WidthAtMost(v: nat, n: nat)
    requires v < Shl(1, n)
    ensures Width(v) <= n
  {
    if v > 0 { WidthAtMost(v / 2, n - 1); }
  }

  lemma Powers()
    ensures Shl(1, 11) == 0x800 && Shl(1, 24) == TWO_24 && Shl(1, 51) == TWO_51 && Shl(1, 52) == TWO_52
    ensures Shl(1, 62) == TWO_62 && Shl(1, 63) == TWO_63 && Shl(1, 64) == TWO_64
  {
    assert Shl(1, 8) == 256;
    assert Shl(1, 16) == 0x1_0000;
    assert Shl(1, 24) == TWO_24;
    assert Shl(1, 32) == 0x1_0000_0000;
    assert Shl(1, 40) == 0x100_0000_0000;
    assert Shl(1, 48) == 0x1_0000_0000_0000;
    assert Shl(1, 56) == 0x100_0000_0000_0000;
  }

  // ---------- The specification ----------

  function Extend(d: Double): Extended
    requires d.Valid()
  {
    if d.exp == 0 then
      if d.frac == 0 then Extended(d.sign, 0, 0)
      else
        var w := Width(d.frac);
        Extended(d.sign, REBIAS - 52 + w, Shl(d.frac, if w <= 64 then 64 - w else 0))
    else if d.exp == 2047 then
      Extended(d.sign, 0x7FFF,
               if d.frac == 0 then TWO_63
               else if d.frac >= TWO_51 then TWO_63 + TWO_62
               else TWO_63 + TWO_62 - 1)
    else Extended(d.sign, d.exp + REBIAS, TWO_63 + d.frac * 0x800)
  }

  /** Adds one, except that a carry out of the lowest three bytes is not made. */
  function Bump(v: nat): nat {
    if v % TWO_24 == TWO_24 - 1 then v else v + 1
  }

  const INDEFINITE := Double(1, 2047, TWO_51)

  /** A number too small for a normal double: `n` is how far the significand is shifted. */
  function Denormal(sig: nat, n: nat): nat
    requires n > 0
  {
    var q := Shr(sig, n);
    if BitOf(sig, n - 1) == 1 then Bump(q) else q
  }

  function Normal(sig: nat): nat {
    var q, r := sig / 0x800, sig % 0x800;
    if r >= 0x400 && !(r == 0x400 && q % 2 == 0) then Bump(q) else q
  }

  function Narrow(x: Extended): Double
    requires x.Valid()
  {
    if x.exp == 0 then Double(x.sign, 0, 0)
    else if x.exp == 0x7FFF then
      if x.sig == TWO_63 then Double(x.sign, 2047, 0)
      else if x.sig == 0 then INDEFINITE
      else if x.sig / TWO_62 % 2 == 1 then Double(x.sign, 2047, TWO_51)
      else Double(x.sign, 2047, TWO_51 - 1)
    else if x.sig < TWO_63 then INDEFINITE
    else if x.exp - REBIAS >= 2047 then Double(x.sign, 2047, 0)
    else if x.exp - REBIAS < -52 then Double(x.sign, 0, 0)
    else if x.exp <= REBIAS then Double(x.sign, 0, Denormal(x.sig, 12 + REBIAS - x.exp))
    else Double(x.sign, x.exp - REBIAS, Normal(x.sig) % TWO_52)
  }

  /** NaNs keep their sign and their quietness only. */
  function Canonical(d: Double): Double {
    if d.IsNaN() then d.(frac := if d.frac >= TWO_51 then TWO_51 else TWO_51 - 1) else d
  }

  // ---------- Extending ----------

  lemma ExtendIsValid(d: Double)
    requires d.Valid()
    ensures Extend(d).Valid()
    ensures d.frac > 0 && d.exp == 0 ==> 0 < Width(d.frac) <= 52
    ensures Extend(d).exp > 0 ==> Extend(d).sig >= TWO_63
  {
    if d.exp == 0 && d.frac > 0 {
      Powers();
      hide Shl, Width;
      WidthAtMost(d.frac, 52);
      WidthBounds(d.frac);
      AlignedBounds(d.frac, Width(d.frac), 64 - Width(d.frac));
    }
  }

  /** A number of width w, shifted, has its highest bit shifted. */
  lemma AlignedBounds(v: nat, w: nat, n: nat)
    requires w > 0 && Shl(1, w - 1) <= v < Shl(1, w)
    ensures Shl(1, w + n - 1) <= Shl(v, n) < Shl(1, w + n)
  {
    hide Shl;
    ShlOrder(Shl(1, w - 1), v, n);
    ShlTwice(1, w - 1, n);
    ShlOrder(v + 1, Shl(1, w), n);
    ShlTwice(1, w, n);
    ShlAdd(v, 1, n);
  }

  /** The value of a finite double in units of two to the power of -1074. */
  function Units(d: Double): nat {
    if d.exp == 0 then d.frac else Shl(TWO_52 + d.frac, d.exp - 1)
  }

  /** Extending is exact: an extended number of exponent e has units of two to the power of e - 16446. */
  lemma ExtendIsExact(d: Double)
    requires d.Valid() && d.IsFinite() && Units(d) > 0
    ensures var x := Extend(d); x.exp >= 15309 && x.sign == d.sign && Shl(x.sig, x.exp - 15309) == Shl(Units(d), 63)
  {
    var x := Extend(d);
    ExtendIsValid(d);
    if d.exp == 0 {
      var w := Width(d.frac);
      ShlTwice(d.frac, 64 - w, w - 1);
    } else {
      ShlTwice(TWO_52 + d.frac, 11, d.exp + 51);
      ShlTwice(TWO_52 + d.frac, d.exp - 1, 63);
      assert Shl(TWO_52 + d.frac, 11) == x.sig by { ShlEleven(TWO_52 + d.frac); }
    }
  }

  lemma ShlEleven(v: int)
    ensures Shl(v, 11) == 0x800 * v
  {
    ShlByte(v);
    assert Shl(v, 10) == 2 * Shl(v, 9) == 4 * Shl(v, 8);
  }

  // ---------- Zeros, infinities and NaNs ----------

  /** Above an infinity are the NaNs, told from it by what follows the integer bit. */
  predicate IsInfinite(x: Extended) {
    x.exp == 0x7FFF && x.sig == TWO_63
  }

  predicate IsExtendedNaN(x: Extended) {
    x.exp == 0x7FFF && x.sig > TWO_63
  }

  /** Both conversions keep the sign, zeros, infinities, NaNs, and whether a NaN is quiet. */
  lemma SpecialsAreKept(d: Double, x: Extended)
    requires d.Valid() && x.Valid()
    ensures Extend(d).sign == d.sign && (Extend(d).exp == 0 <==> d.exp == 0 && d.frac == 0)
    ensures d.exp == 2047 && d.frac == 0 <==> IsInfinite(Extend(d))
    ensures d.IsNaN() <==> IsExtendedNaN(Extend(d))
    ensures d.IsNaN() ==> (d.frac / TWO_51 == 1 <==> Extend(d).sig / TWO_62 == 3)
    ensures x.exp == 0 ==> Narrow(x) == Double(x.sign, 0, 0)
    ensures IsInfinite(x) ==> Narrow(x) == Double(x.sign, 2047, 0)
    ensures IsExtendedNaN(x) ==> Narrow(x).IsNaN() && Narrow(x).sign == x.sign
    ensures IsExtendedNaN(x) ==> (Narrow(x).frac / TWO_51 == 1 <==> x.sig / TWO_62 == 3)
  {
    ExtendIsValid(d);
  }

  /** A number whose integer bit is clear has no value the processor accepts: it becomes the indefinite. */
  lemma UnnormalIsIndefinite(x: Extended)
    requires x.Valid() && 0 < x.exp < 0x7FFF && x.sig < TWO_63
    ensures Narrow(x).IsNaN() && Narrow(x).sign == 1 && Narrow(x).frac == TWO_51
  {
  }

  // ---------- There and back ----------

  /** Extending and narrowing gives back every number, and the canonical NaN for a NaN. */
  lemma ExtendThenNarrow(d: Double)
    requires d.Valid()
    ensures Extend(d).Valid() && Narrow(Extend(d)) == Canonical(d)
  {
    ExtendIsValid(d);
    hide Shl, Shr, Width;
    if d.exp == 0 && d.frac > 0 {
      DenormalBack(d.frac, Width(d.frac));
    }
  }

  lemma DenormalBack(frac: nat, w: nat)
    requires w == Width(frac) && 0 < w <= 52 && frac < TWO_52
    ensures Denormal(Shl(frac, 64 - w), 64 - w) == frac
  {
    var n := 64 - w;
    ShrOf(frac, 0, n);
    ShrOf(2 * frac, 0, n - 1);
    ShlDouble(frac, n - 1);
  }

  /** A second trip changes nothing. */
  lemma CanonicalStays(d: Double)
    requires d.Valid()
    ensures Canonical(d).Valid() && Extend(Canonical(d)).Valid() && Narrow(Extend(Canonical(d))) == Canonical(d)
  {
    ExtendThenNarrow(Canonical(d));
  }

  // ---------- Rounding ----------

  /** `q` is the nearest multiple of two to the power of n, with ties to even. */
  ghost predicate IsNearestEven(sig: nat, n: nat, q: nat)
    requires n > 0
  {
    var error := Shl(q, n) - sig;
    && -Shl(1, n - 1) <= error <= Shl(1, n - 1)
    && (error == Shl(1, n - 1) || error == -Shl(1, n - 1) ==> q % 2 == 0)
  }

  /** The rounding kludge strikes: the carry would leave the lowest three bytes. */
  predicate CarryLost(q: nat) {
    q % TWO_24 == TWO_24 - 1
  }

  /**
   * A significand in the range of normal doubles is rounded to nearest, ties to even, exactly unless it
   * has to be rounded up and the carry is lost; then it is truncated. The error is under one unit.
   */
  lemma NormalRounds(sig: nat)
    requires TWO_63 <= sig < TWO_64
    ensures var q, r := sig / 0x800, sig % 0x800;
      && TWO_52 <= Normal(sig) < 2 * TWO_52
      && (IsNearestEven(sig, 11, Normal(sig)) <==> !(CarryLost(q) && r >= 0x400))
      && -0x800 < Shl(Normal(sig), 11) - sig <= 0x400
  {
    ShlEleven(Normal(sig));
    assert Shl(1, 10) == 0x400;
  }

  /**
   * Below the normal doubles ties go up: the result is nearest with ties to even exactly unless the
   * carry is lost or an even number was rounded up from a tie.
   */
  lemma DenormalRounds(sig: nat, n: nat)
    requires TWO_63 <= sig < TWO_64 && 12 <= n <= 64
    ensures var q := Shr(sig, n);
      && Denormal(sig, n) < TWO_52
      && (IsNearestEven(sig, n, Denormal(sig, n)) <==>
            BitOf(sig, n - 1) == 0 || (!CarryLost(q) && (q % 2 == 0 ==> sig != Shl(q, n) + Shl(1, n - 1))))
      && -Shl(1, n) < Shl(Denormal(sig, n), n) - sig <= Shl(1, n - 1)
  {
    DenormalBelow(sig, n);
    DenormalParts(sig, n);
    hide Shr, BitOf;
    NearestBelow(sig, n, Shr(sig, n));
    NearestAbove(sig, n, Shr(sig, n));
    hide Shl, IsNearestEven;
  }

  /** When the lower neighbour is nearest. */
  lemma NearestBelow(sig: nat, n: nat, q: nat)
    requires n > 0 && 0 <= sig - Shl(q, n) < Shl(1, n)
    ensures IsNearestEven(sig, n, q) <==>
      sig - Shl(q, n) < Shl(1, n - 1) || (sig - Shl(q, n) == Shl(1, n - 1) && q % 2 == 0)
  {
    assert Shl(1, n) == 2 * Shl(1, n - 1);
    hide Shl;
  }

  /** When the upper neighbour is nearest. */
  lemma NearestAbove(sig: nat, n: nat, q: nat)
    requires n > 0 && 0 <= sig - Shl(q, n) < Shl(1, n)
    ensures Shl(1, n) == 2 * Shl(1, n - 1) && Shl(q + 1, n) == Shl(q, n) + Shl(1, n)
    ensures IsNearestEven(sig, n, q + 1) <==>
      sig - Shl(q, n) > Shl(1, n - 1) || (sig - Shl(q, n) == Shl(1, n - 1) && q % 2 == 1)
  {
    ShlAdd(q, 1, n);
    assert Shl(1, n) == 2 * Shl(1, n - 1);
    hide Shl;
  }

  /** A number is its upper part, one bit below, and less than half a unit. */
  lemma DenormalParts(sig: nat, n: nat)
    requires n > 0
    ensures var rest := sig - Shl(Shr(sig, n), n) - (if BitOf(sig, n - 1) == 1 then Shl(1, n - 1) else 0);
      0 <= rest < Shl(1, n - 1) && Shl(1, n) == 2 * Shl(1, n - 1)
  {
    var q, b := Shr(sig, n), BitOf(sig, n - 1);
    ShrStep(sig, n - 1);
    ShrKeeps(sig, n - 1);
    ShlAdd(2 * q, b, n - 1);
    ShlDouble(q, n - 1);
    assert Shl(q, n) == 2 * Shl(q, n - 1);
    hide Shl, Shr;
    if b == 0 { ShlNothing(n - 1); }
  }

  lemma DenormalBelow(sig: nat, n: nat)
    requires sig < TWO_64 && 12 <= n <= 64
    ensures Shr(sig, n) < TWO_52 && Denormal(sig, n) < TWO_52
  {
    Powers();
    ShrKeeps(sig, 12);
    ShlTwice(TWO_52, 12, 0);
    if Shr(sig, 12) >= TWO_52 { ShlOrder(TWO_52, Shr(sig, 12), 12); ShlTwelve(TWO_52); }
    ShrTwice(sig, 12, n - 12);
    ShrShrinks(Shr(sig, 12), n - 12);
  }

  lemma ShlTwelve(v: int)
    ensures Shl(v, 12) == 0x1000 * v
  {
    ShlEleven(v);
  }

  // ---------- Order ----------

  /** Zero, a number with its integer bit set, or an infinity. */
  predicate Ordered(x: Extended) {
    && x.Valid()
    && (x.exp == 0 || (x.exp < 0x7FFF && x.sig >= TWO_63) || (x.exp == 0x7FFF && x.sig == TWO_63))
  }

  predicate AtMost(x: Extended, y: Extended) {
    x.exp < y.exp || (x.exp == y.exp && x.sig <= y.sig)
  }

  /** Doubles of one sign are ordered as their fields, read as one number. */
  function Magnitude(d: Double): nat {
    d.exp * TWO_52 + d.frac
  }

  lemma NormalMonotone(a: nat, b: nat)
    requires TWO_63 <= a <= b < TWO_64
    ensures TWO_52 <= Normal(a) <= Normal(b) < 2 * TWO_52
  {
  }

  lemma DenormalMonotone(a: nat, b: nat, n: nat)
    requires a <= b && n > 0
    ensures Denormal(a, n) <= Denormal(b, n)
  {
    DenormalParts(a, n);
    DenormalParts(b, n);
    ShrOrder(a, b, n);
    hide Shr, Shl, BitOf;
  }

  /** Where the results of one exponent lie. */
  lemma DenormalRange(sig: nat, n: nat)
    requires TWO_63 <= sig < TWO_64 && 12 <= n <= 64
    ensures Denormal(sig, n) <= Shl(1, 64 - n)
    ensures Denormal(sig, n) >= if n < 64 then Shl(1, 63 - n) else 1
  {
    QuotientRange(sig, n);
    if n == 64 {
      DenormalParts(sig, 64);
      ShlNothing(64);
      Powers();
    }
    hide Shl, Shr, BitOf;
  }

  lemma QuotientRange(sig: nat, n: nat)
    requires TWO_63 <= sig < TWO_64 && n <= 64
    ensures Shr(sig, n) < Shl(1, 64 - n) && (n < 64 ==> Shr(sig, n) >= Shl(1, 63 - n))
  {
    Powers();
    ShrKeeps(sig, n);
    ShlTwice(1, 64 - n, n);
    ShlAdd(Shr(sig, n), 1, n);
    if n < 64 { ShlTwice(1, 63 - n, n); }
    hide Shl, Shr;
    if Shr(sig, n) >= Shl(1, 64 - n) { ShlOrder(Shl(1, 64 - n), Shr(sig, n), n); }
    if n < 64 && Shr(sig, n) + 1 <= Shl(1, 63 - n) { ShlOrder(Shr(sig, n) + 1, Shl(1, 63 - n), n); }
  }

  lemma ResultRange(x: Extended)
    requires Ordered(x)
    ensures var m, k := Magnitude(Narrow(x)), x.exp - REBIAS;
      && (k < -52 || x.exp == 0 ==> m == 0)
      && (-52 <= k <= 0 && x.exp > 0 ==> m == Denormal(x.sig, 12 - k))
      && (0 < k < 2047 ==> m == k * TWO_52 + Normal(x.sig) - TWO_52)
      && (k >= 2047 ==> m == 2047 * TWO_52)
  {
    if x.sig >= TWO_63 { NormalMonotone(x.sig, x.sig); }
    hide Normal;
  }

  /** Narrowing keeps the order of numbers of one sign, through denormals, normals and overflow. */
  lemma NarrowIsMonotone(x: Extended, y: Extended)
    requires Ordered(x) && Ordered(y) && AtMost(x, y)
    ensures Magnitude(Narrow(x)) <= Magnitude(Narrow(y))
  {
    ResultRange(x);
    ResultRange(y);
    hide Narrow, Normal, Denormal;
    var k, l := x.exp - REBIAS, y.exp - REBIAS;
    if -52 <= k <= 0 && x.exp > 0 {
      DenormalBelow(x.sig, 12 - k);
      DenormalRange(x.sig, 12 - k);
      if l == k {
        DenormalMonotone(x.sig, y.sig, 12 - k);
      } else if l <= 0 {
        DenormalRange(y.sig, 12 - l);
        ShlTwice(1, 52 + k, l - 1 - k);
      } else if l < 2047 {
        NormalMonotone(y.sig, y.sig);
      }
    } else if 0 < k < 2047 {
      if l == k {
        NormalMonotone(x.sig, y.sig);
      } else {
        NormalMonotone(x.sig, x.sig);
        if l < 2047 { NormalMonotone(y.sig, y.sig); }
      }
    }
  }
}
