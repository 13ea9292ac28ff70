/** Multiplication in the field of AES: by tables of exponents, and by its definition. */
module AesField {
  import opened AesTables

  /** Addition. */
  function Plus(x: bv8, y: bv8): bv8 {
    x ^ y
  }

  /** The sum of two exponents, with one turn of the cycle taken off. */
  function Sum(i: bv8, j: bv8): bv8 {
    var ui := (i as bv16) + (j as bv16);
    if ui >= 255 then ((ui - 255) & 0xFF) as bv8 else ui as bv8
  }

  /** Multiplication by the tables. */
  function FfMul(u1: bv8, u2: bv8): bv8 {
    if u1 > 0 && u2 > 0 then Power(Sum(Log(u1), Log(u2))) else 0
  }

  /** The element if the lowest bit of a factor is set. */
  function Pick(a: bv8, b: bv8): bv8 {
    (a & 1) * b
  }

  function Rest(a: bv8): bv8 {
    a >> 1
  }

  /** The product of the lowest `n` bits of one factor with another element, by Horner's rule. */
  function Times(a: bv8, b: bv8, n: nat): bv8 {
    if n == 0 then 0 else Plus(Double(Times(Rest(a), b, n - 1)), Pick(a, b))
  }

  /** The product of two polynomials over the field of two elements, modulo x^8 + x^4 + x^3 + x + 1. */
  function Product(a: bv8, b: bv8): bv8 {
    Times(a, b, 8)
  }

  // ---------- Addition ----------

  lemma PlusZero(x: bv8)
    ensures Plus(x, 0) == x && Plus(0, x) == x && Plus(x, x) == 0
  {
  }

  lemma PlusSwaps(x: bv8, y: bv8)
    ensures Plus(x, y) == Plus(y, x)
  {
  }

  lemma PlusGroups(x: bv8, y: bv8, z: bv8)
    ensures Plus(Plus(x, y), z) == Plus(x, Plus(y, z))
  {
  }

  lemma PlusPairs(p: bv8, q: bv8, r: bv8, s: bv8)
    ensures Plus(Plus(p, q), Plus(r, s)) == Plus(Plus(p, r), Plus(q, s))
  {
    hide Plus;
    PlusGroups(p, q, Plus(r, s));
    PlusGroups(q, r, s);
    PlusSwaps(q, r);
    PlusGroups(r, q, s);
    PlusGroups(p, r, Plus(q, s));
  }

  lemma DoublePlus(x: bv8, y: bv8)
    ensures Double(Plus(x, y)) == Plus(Double(x), Double(y))
  {
  }

  lemma PickPlus(a: bv8, c: bv8, b: bv8)
    ensures Pick(Plus(a, c), b) == Plus(Pick(a, b), Pick(c, b))
  {
  }

  lemma RestPlus(a: bv8, c: bv8)
    ensures Rest(Plus(a, c)) == Plus(Rest(a), Rest(c))
  {
  }

  // ---------- The product is linear in its first factor ----------

  lemma TimesZero(a: bv8, b: bv8)
    ensures Times(a, b, 0) == 0
  {
  }

  lemma TimesStep(a: bv8, b: bv8, n: nat)
    requires n > 0
    ensures Times(a, b, n) == Plus(Double(Times(Rest(a), b, n - 1)), Pick(a, b))
  {
    hide Double, Plus, Pick, Rest;
  }

  lemma {:induction false} TimesPlus(a: bv8, c: bv8, b: bv8, n: nat)
    ensures Times(Plus(a, c), b, n) == Plus(Times(a, b, n), Times(c, b, n))
    decreases n
  {
    hide Times, Double, Plus, Pick, Rest;
    if n > 0 {
      var p, q := Times(Rest(a), b, n - 1), Times(Rest(c), b, n - 1);
      TimesPlus(Rest(a), Rest(c), b, n - 1);
      PickPlus(a, c, b);
      RestPlus(a, c);
      TimesStep(Plus(a, c), b, n);
      TimesStep(a, b, n);
      TimesStep(c, b, n);
      DoublePlus(p, q);
      PlusPairs(Double(p), Double(q), Pick(a, b), Pick(c, b));
    } else {
      TimesZero(a, b);
      TimesZero(c, b);
      TimesZero(Plus(a, c), b);
      PlusZero(0);
    }
  }

  lemma DoubleZero()
    ensures Double(0) == 0
  {
  }

  lemma PickConstants(b: bv8)
    ensures Pick(0, b) == 0 && Pick(1, b) == b && Pick(2, b) == 0 && Pick(3, b) == b && Pick(4, b) == 0
    ensures Pick(5, b) == b && Pick(6, b) == 0 && Pick(7, b) == b && Pick(9, b) == b && Pick(0xB, b) == b
    ensures Pick(0xD, b) == b && Pick(0xE, b) == 0 && Pick(0x1B, b) == b && Pick(0x80, b) == 0
  {
  }

  lemma RestConstants()
    ensures Rest(0) == 0 && Rest(1) == 0 && Rest(2) == 1 && Rest(3) == 1 && Rest(4) == 2 && Rest(5) == 2
    ensures Rest(6) == 3 && Rest(7) == 3 && Rest(9) == 4 && Rest(0xB) == 5 && Rest(0xD) == 6 && Rest(0xE) == 7
    ensures Rest(0x1B) == 0xD && Rest(0x80) == 0x40 && Rest(0x40) == 0x20 && Rest(0x20) == 0x10
    ensures Rest(0x10) == 8 && Rest(8) == 4
  {
  }

  lemma {:induction false} TimesNothing(b: bv8, n: nat)
    ensures Times(0, b, n) == 0
  {
    hide Times, Double, Plus, Pick, Rest;
    if n > 0 {
      TimesNothing(b, n - 1);
      TimesStep(0, b, n);
      RestConstants();
      PickConstants(b);
      DoubleZero();
      PlusZero(0);
    } else {
      TimesZero(0, b);
    }
  }

  lemma TimesOne(b: bv8, n: nat)
    requires n > 0
    ensures Times(1, b, n) == b
  {
    hide Times, Double, Plus, Pick, Rest;
    TimesNothing(b, n - 1);
    TimesStep(1, b, n);
    RestConstants();
    PickConstants(b);
    DoubleZero();
    PlusZero(b);
  }

  /** Small factors. */
  lemma TimesSmall(b: bv8, n: nat)
    requires n >= 3
    ensures Times(2, b, n) == Double(b) && Times(3, b, n) == Plus(Double(b), b)
    ensures Times(4, b, n) == Double(Double(b)) && Times(5, b, n) == Plus(Double(Double(b)), b)
    ensures Times(6, b, n) == Double(Plus(Double(b), b)) && Times(7, b, n) == Plus(Double(Plus(Double(b), b)), b)
  {
    hide Times, Double, Plus, Pick, Rest;
    TimesOne(b, n - 1);
    TimesOne(b, n - 2);
    TimesStep(2, b, n - 1);
    TimesStep(3, b, n - 1);
    TimesStep(2, b, n);
    TimesStep(3, b, n);
    TimesStep(4, b, n);
    TimesStep(5, b, n);
    TimesStep(6, b, n);
    TimesStep(7, b, n);
    RestConstants();
    PickConstants(b);
    PlusZero(Double(b));
    PlusZero(Double(Double(b)));
    PlusZero(Double(Plus(Double(b), b)));
  }

  /** The factors of the column mixing. */
  lemma ProductOfConstants(b: bv8)
    ensures Product(1, b) == b && Product(2, b) == Double(b) && Product(3, b) == Plus(Double(b), b)
    ensures Product(9, b) == Plus(Double(Double(Double(b))), b)
    ensures Product(0xB, b) == Plus(Double(Plus(Double(Double(b)), b)), b)
    ensures Product(0xD, b) == Plus(Double(Double(Plus(Double(b), b))), b)
    ensures Product(0xE, b) == Double(Plus(Double(Plus(Double(b), b)), b))
  {
    hide Times, Double, Plus, Pick, Rest;
    TimesOne(b, 8);
    TimesSmall(b, 8);
    TimesSmall(b, 7);
    TimesStep(9, b, 8);
    TimesStep(0xB, b, 8);
    TimesStep(0xD, b, 8);
    TimesStep(0xE, b, 8);
    RestConstants();
    PickConstants(b);
    PlusZero(Double(Plus(Double(Plus(Double(b), b)), b)));
  }

  // ---------- Doubling and tripling a factor ----------

  /** Nothing in the bits from the given one on. */
  predicate Below(a: bv8, n: nat) {
    if n == 0 then a == 0 else Below(Rest(a), n - 1)
  }

  lemma {:induction false} TimesBelow(a: bv8, b: bv8, n: nat)
    requires Below(a, n)
    ensures Times(a, b, n + 1) == Times(a, b, n)
    decreases n
  {
    hide Times, Double, Plus, Pick, Rest;
    if n == 0 {
      TimesNothing(b, 1);
      TimesNothing(b, 0);
    } else {
      TimesBelow(Rest(a), b, n - 1);
      TimesStep(a, b, n + 1);
      TimesStep(a, b, n);
    }
  }

  lemma LowBelow(a: bv8)
    requires a < 0x80
    ensures Below(a, 7)
  {
    assert Below(a, 7) == Below(a >> 1, 6) == Below(a >> 2, 5) == Below(a >> 3, 4);
    assert Below(a >> 3, 4) == Below(a >> 4, 3) == Below(a >> 5, 2) == Below(a >> 6, 1) == Below(a >> 7, 0);
  }

  lemma LowDoubled(a: bv8, b: bv8)
    requires a < 0x80
    ensures Rest(Double(a)) == a && Pick(Double(a), b) == 0
  {
  }

  /** Doubling a factor without its highest bit doubles the product. */
  lemma LowFactor(a: bv8, b: bv8)
    requires a < 0x80
    ensures Product(Double(a), b) == Double(Product(a, b))
  {
    hide Times, Double, Plus, Pick, Rest;
    LowBelow(a);
    TimesBelow(a, b, 7);
    LowDoubled(a, b);
    TimesStep(Double(a), b, 8);
    PlusZero(Double(Times(a, b, 7)));
  }

  /** The reduction: eight times doubled. */
  lemma EightTimes(b: bv8)
    ensures Double(Double(Double(Double(Double(Double(Double(Double(b))))))))
         == Plus(Double(Plus(Double(Double(Plus(Double(b), b))), b)), b)
  {
  }

  lemma TimesEven(a: bv8, b: bv8, n: nat)
    requires n > 0 && Pick(a, b) == 0
    ensures Times(a, b, n) == Double(Times(Rest(a), b, n - 1))
  {
    hide Times, Double, Plus, Pick, Rest;
    TimesStep(a, b, n);
    PlusZero(Double(Times(Rest(a), b, n - 1)));
  }

  lemma HighProduct(b: bv8)
    ensures Product(0x80, b) == Double(Double(Double(Double(Double(Double(Double(b)))))))
  {
    assert Pick(0x40, b) == Pick(0x20, b) == Pick(0x10, b) == Pick(8, b) == 0;
    hide Times, Double, Plus, Pick, Rest;
    PickConstants(b);
    RestConstants();
    TimesEven(0x80, b, 8);
    TimesEven(0x40, b, 7);
    TimesEven(0x20, b, 6);
    TimesEven(0x10, b, 5);
    TimesEven(8, b, 4);
    TimesSmall(b, 3);
  }

  /** The highest bit alone. */
  lemma HighFactor(b: bv8)
    ensures Product(Double(0x80), b) == Double(Product(0x80, b))
  {
    EightTimes(b);
    assert Double(0x80) == 0x1B;
    hide Times, Double, Plus, Pick, Rest;
    HighProduct(b);
    PickConstants(b);
    RestConstants();
    TimesStep(0x1B, b, 8);
    TimesStep(0xD, b, 7);
    TimesSmall(b, 6);
  }

  lemma Halves(a: bv8)
    ensures Plus(a & 0x7F, a & 0x80) == a && a & 0x7F < 0x80 && (a & 0x80 == 0 || a & 0x80 == 0x80)
  {
  }

  lemma ProductPlus(a: bv8, c: bv8, b: bv8)
    ensures Product(Plus(a, c), b) == Plus(Product(a, b), Product(c, b))
  {
    hide Times, Plus;
    TimesPlus(a, c, b, 8);
  }

  /** Doubling a factor doubles the product. */
  lemma ProductDoubled(a: bv8, b: bv8)
    ensures Product(Double(a), b) == Double(Product(a, b))
  {
    hide Double, Plus, Product;
    var low, high := a & 0x7F, a & 0x80;
    Halves(a);
    LowFactor(low, b);
    if high == 0 { LowFactor(high, b); } else { HighFactor(b); }
    DoublePlus(low, high);
    ProductPlus(low, high, b);
    ProductPlus(Double(low), Double(high), b);
    DoublePlus(Product(low, b), Product(high, b));
  }

  lemma TripleIs(a: bv8)
    ensures Triple(a) == Plus(Double(a), a)
  {
  }

  lemma ProductTripled(a: bv8, b: bv8)
    ensures Product(Triple(a), b) == Triple(Product(a, b))
  {
    hide Double, Plus, Product, Triple;
    TripleIs(a);
    TripleIs(Product(a, b));
    ProductDoubled(a, b);
    ProductPlus(Double(a), a, b);
  }

  // ---------- The tables multiply ----------

  lemma SumStep(i: bv8, j: bv8)
    requires i != 0 && i != 255 && j != 255
    ensures Sum(i - 1, j) != 255 && Sum(i, j) == if Sum(i - 1, j) == 254 then 0 else Sum(i - 1, j) + 1
  {
  }

  lemma SumZero(j: bv8)
    requires j != 255
    ensures Sum(0, j) == j
  {
  }

  lemma PowerEnds()
    ensures Power(0) == 1 && Power(255) == 1
  {
  }

  /** Adding exponents multiplies the powers. */
  lemma {:induction false} PowerOfSum(i: bv8, j: bv8)
    requires i != 255 && j != 255
    ensures Power(Sum(i, j)) == Product(Power(i), Power(j))
    decreases i
  {
    hide Power, Sum, Product, Triple;
    PowerEnds();
    if i == 0 {
      SumZero(j);
      ProductOfConstants(Power(j));
    } else {
      PowerOfSum(i - 1, j);
      SumStep(i, j);
      PowerStep(i - 1);
      PowerStep(Sum(i - 1, j));
      ProductTripled(Power(i - 1), Power(j));
    }
  }

  lemma {:induction false} TimesByZero(a: bv8, n: nat)
    ensures Times(a, 0, n) == 0
    decreases n
  {
    if n > 0 {
      hide Times, Double, Plus, Rest;
      TimesByZero(Rest(a), n - 1);
      TimesStep(a, 0, n);
      DoubleZero();
      PlusZero(0);
    }
  }

  /** Multiplication by the tables is multiplication in the field, for all elements. */
  lemma FfMulIsProduct(u1: bv8, u2: bv8)
    ensures FfMul(u1, u2) == Product(u1, u2)
  {
    hide Power, Log, Sum, Times;
    if u1 > 0 && u2 > 0 {
      PowerOfLog(u1);
      PowerOfLog(u2);
      hide Product;
      PowerOfSum(Log(u1), Log(u2));
    } else if u1 == 0 {
      TimesNothing(u2, 8);
    } else {
      TimesByZero(u1, 8);
    }
  }

  // ---------- The product is linear in its second factor ----------

  lemma PickRight(a: bv8, x: bv8, y: bv8)
    ensures Pick(a, Plus(x, y)) == Plus(Pick(a, x), Pick(a, y))
  {
    PickIs(a, x);
    PickIs(a, y);
    PickIs(a, Plus(x, y));
    PlusZero(0);
    hide Pick, Plus;
  }

  lemma PickIs(a: bv8, b: bv8)
    ensures Pick(a, b) == if a & 1 == 0 then 0 else b
  {
    if a & 1 != 0 { assert a & 1 == 1; }
  }

  lemma {:induction false} TimesRight(a: bv8, x: bv8, y: bv8, n: nat)
    ensures Times(a, Plus(x, y), n) == Plus(Times(a, x, n), Times(a, y, n))
    decreases n
  {
    hide Times, Double, Plus, Pick, Rest;
    if n > 0 {
      var p, q := Times(Rest(a), x, n - 1), Times(Rest(a), y, n - 1);
      TimesRight(Rest(a), x, y, n - 1);
      PickRight(a, x, y);
      TimesStep(a, Plus(x, y), n);
      TimesStep(a, x, n);
      TimesStep(a, y, n);
      DoublePlus(p, q);
      PlusPairs(Double(p), Double(q), Pick(a, x), Pick(a, y));
    } else {
      TimesZero(a, x);
      TimesZero(a, y);
      TimesZero(a, Plus(x, y));
      PlusZero(0);
    }
  }

  lemma FfMulPlus(a: bv8, x: bv8, y: bv8)
    ensures FfMul(a, Plus(x, y)) == Plus(FfMul(a, x), FfMul(a, y))
  {
    hide FfMul, Times, Plus;
    FfMulIsProduct(a, Plus(x, y));
    FfMulIsProduct(a, x);
    FfMulIsProduct(a, y);
    TimesRight(a, x, y, 8);
  }

  // ---------- The substitution ----------

  lemma SumIsTurn(i: bv8)
    ensures Sum(i, 255 - i) == 0 && Sum(0, 0) == 0
  {
  }

  /**
   * The table of substitutions holds, for each byte, the affine map of the byte's inverse in the field; zero, which has
   * none, counts as its own.
   */
  lemma SboxIsAffineInverse(u: bv8)
    ensures var v := Unaffine(Sbox(u));
      Sbox(u) == Affine(v) && FfMul(u, v) == (if u == 0 then 0 else 1) && (u == 0 ==> v == 0)
  {
    AffineUnaffine(Sbox(u));
    SboxEnds();
    PowerEnds();
    SumIsTurn(Log(u));
    hide Sbox, Log, Power, Affine, Unaffine, Sum;
    if u > 1 { SboxLogs(u); }
  }
}
