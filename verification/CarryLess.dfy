/** Carry-less multiplication: the windowed computation returns the product of polynomials over two elements. */
module CarryLess {
  /** A machine word or a longer number: its bits, lowest first. */
  type Word = seq<bool>

  function At(x: Word, i: int): bool {
    0 <= i < |x| && x[i]
  }

  function Xor(x: Word, y: Word): (r: Word)
    requires |x| == |y|
    ensures |r| == |x| && forall i :: At(r, i) <==> At(x, i) != At(y, i)
  {
    seq(|x|, i requires 0 <= i < |x| => x[i] != y[i])
  }

  function Shl(x: Word, n: nat): (r: Word)
    ensures |r| == |x| && forall i :: At(r, i) <==> i < |x| && At(x, i - n)
  {
    seq(|x|, i requires 0 <= i < |x| => At(x, i - n))
  }

  function Shr(x: Word, n: nat): (r: Word)
    ensures |r| == |x| && forall i :: At(r, i) <==> 0 <= i && At(x, i + n)
  {
    seq(|x|, i requires 0 <= i < |x| => At(x, i + n))
  }

  function Zero(n: nat): (r: Word)
    ensures |r| == n && forall i :: !At(r, i)
  {
    seq(n, _ => false)
  }

  /** The word with more zero bits above. */
  function Widen(x: Word, n: nat): (r: Word)
    ensures |r| == n && forall i :: At(r, i) <==> i < n && At(x, i)
  {
    seq(n, i requires 0 <= i < n => At(x, i))
  }

  lemma Same(x: Word, y: Word)
    requires |x| == |y| && forall i :: At(x, i) <==> At(y, i)
    ensures x == y
  {
    forall i | 0 <= i < |x|
      ensures x[i] == y[i]
    {
      assert At(x, i) <==> At(y, i);
    }
  }

  lemma XorZero(x: Word)
    ensures Xor(x, Zero(|x|)) == x && Xor(Zero(|x|), x) == x
  {
    Same(Xor(x, Zero(|x|)), x);
    Same(Xor(Zero(|x|), x), x);
  }

  lemma XorAssociates(x: Word, y: Word, z: Word)
    requires |x| == |y| == |z|
    ensures Xor(Xor(x, y), z) == Xor(x, Xor(y, z))
  {
    Same(Xor(Xor(x, y), z), Xor(x, Xor(y, z)));
  }

  /** Four summands regrouped. */
  lemma XorRegroups(w: Word, x: Word, y: Word, z: Word)
    requires |w| == |x| == |y| == |z|
    ensures Xor(Xor(w, x), Xor(y, z)) == Xor(Xor(w, y), Xor(x, z))
  {
    Same(Xor(Xor(w, x), Xor(y, z)), Xor(Xor(w, y), Xor(x, z)));
  }

  lemma ShlXor(x: Word, y: Word, n: nat)
    requires |x| == |y|
    ensures Shl(Xor(x, y), n) == Xor(Shl(x, n), Shl(y, n))
  {
    Same(Shl(Xor(x, y), n), Xor(Shl(x, n), Shl(y, n)));
  }

  lemma ShlTwice(x: Word, m: nat, n: nat)
    ensures Shl(Shl(x, m), n) == Shl(x, m + n)
  {
    Same(Shl(Shl(x, m), n), Shl(x, m + n));
  }

  lemma ShrTwice(x: Word, m: nat, n: nat)
    ensures Shr(Shr(x, m), n) == Shr(x, m + n)
  {
    Same(Shr(Shr(x, m), n), Shr(x, m + n));
  }

  lemma NoShift(x: Word)
    ensures Shl(x, 0) == x && Shr(x, 0) == x
  {
    Same(Shl(x, 0), x);
    Same(Shr(x, 0), x);
  }

  // ---------- The product ----------

  function Pick(bit: bool, a: Word): (r: Word)
    ensures |r| == 128
  {
    if bit then Widen(a, 128) else Zero(128)
  }

  /** The product of `a` and the lowest `n` coefficients of `b`: Horner's rule on polynomials. */
  function Product(a: Word, b: Word, n: nat): (r: Word)
    ensures |r| == 128
    decreases n
  {
    if n == 0 then Zero(128) else Xor(Shl(Product(a, Shr(b, 1), n - 1), 1), Pick(At(b, 0), a))
  }

  /** Every coefficient of the product is the sum of the products of coefficients whose places add up to its own. */
  ghost function Convolution(a: Word, b: Word, n: nat, k: int): bool {
    if n == 0 then false else Convolution(a, b, n - 1, k) != (At(b, n - 1) && At(a, k - (n - 1)))
  }

  lemma {:induction false} ProductSplits(a: Word, b: Word, m: nat, n: nat)
    ensures Product(a, b, m + n) == Xor(Shl(Product(a, Shr(b, m), n), m), Product(a, b, m))
    decreases m
  {
    hide Xor, Shl, Shr, Pick, Zero;
    if m == 0 {
      NoShift(b);
      NoShift(Product(a, b, n));
      XorZero(Product(a, b, n));
    } else {
      ProductSplits(a, Shr(b, 1), m - 1, n);
      ShrTwice(b, 1, m - 1);
      var top, low := Product(a, Shr(b, m), n), Product(a, Shr(b, 1), m - 1);
      ShlXor(Shl(top, m - 1), low, 1);
      ShlTwice(top, m - 1, 1);
      XorAssociates(Shl(top, m), Shl(low, 1), Pick(At(b, 0), a));
    }
  }

  lemma {:induction false} ProductIsConvolution(a: Word, b: Word, n: nat, k: int)
    requires 0 <= k < 128
    ensures At(Product(a, b, n), k) <==> Convolution(a, b, n, k)
  {
    hide Xor, Shl, Shr, Pick, Product, Zero;
    if n > 0 {
      ProductIsConvolution(a, b, n - 1, k);
      ProductSplits(a, b, n - 1, 1);
      OneCoefficient(a, Shr(b, n - 1));
      PickBit(At(b, n - 1), a, k - (n - 1));
      assert At(Shr(b, n - 1), 0) == At(b, n - 1);
    } else {
      NoCoefficients(a, b);
    }
  }

  lemma NoCoefficients(a: Word, b: Word)
    ensures Product(a, b, 0) == Zero(128)
  {
  }

  lemma PickBit(bit: bool, a: Word, k: int)
    requires k < 128
    ensures At(Pick(bit, a), k) <==> bit && At(a, k)
  {
  }

  lemma OneCoefficient(a: Word, b: Word)
    ensures Product(a, b, 1) == Pick(At(b, 0), a)
  {
    var p := Pick(At(b, 0), a);
    assert Product(a, Shr(b, 1), 0) == Zero(128);
    assert Product(a, b, 1) == Xor(Shl(Zero(128), 1), p);
    hide Xor, Shl, Pick, Product;
    Same(Xor(Shl(Zero(128), 1), p), p);
  }

  /** Only the coefficients asked for count. */
  lemma {:induction false} ProductIsLocal(a: Word, b: Word, c: Word, n: nat)
    requires forall i :: 0 <= i < n ==> (At(b, i) <==> At(c, i))
    ensures Product(a, b, n) == Product(a, c, n)
    decreases n
  {
    hide Xor, Shl, Pick, Zero;
    if n > 0 {
      forall i | 0 <= i < n - 1
        ensures At(Shr(b, 1), i) <==> At(Shr(c, 1), i)
      {
        assert At(b, i + 1) <==> At(c, i + 1);
      }
      hide Shr;
      ProductIsLocal(a, Shr(b, 1), Shr(c, 1), n - 1);
    }
  }

  // ---------- Halves ----------

  function Low(x: Word): (r: Word)
    requires |x| == 128
    ensures |r| == 64 && forall i :: At(r, i) <==> i < 64 && At(x, i)
  {
    x[..64]
  }

  function High(x: Word): (r: Word)
    requires |x| == 128
    ensures |r| == 64 && forall i :: At(r, i) <==> 0 <= i && At(x, i + 64)
  {
    x[64..]
  }

  lemma LowXor(x: Word, y: Word)
    requires |x| == |y| == 128
    ensures Low(Xor(x, y)) == Xor(Low(x), Low(y)) && High(Xor(x, y)) == Xor(High(x), High(y))
  {
    Same(Low(Xor(x, y)), Xor(Low(x), Low(y)));
    Same(High(Xor(x, y)), Xor(High(x), High(y)));
  }

  lemma LowShl(x: Word, n: nat)
    requires |x| == 128
    ensures Low(Shl(x, n)) == Shl(Low(x), n)
  {
    Same(Low(Shl(x, n)), Shl(Low(x), n));
  }

  function Or(x: Word, y: Word): (r: Word)
    requires |x| == |y|
    ensures |r| == |x| && forall i :: At(r, i) <==> At(x, i) || At(y, i)
  {
    seq(|x|, i requires 0 <= i < |x| => x[i] || y[i])
  }

  function And(x: Word, y: Word): (r: Word)
    requires |x| == |y|
    ensures |r| == |x| && forall i :: At(r, i) <==> At(x, i) && At(y, i)
  {
    seq(|x|, i requires 0 <= i < |x| => x[i] && y[i])
  }

  /** Shifting a double word by a byte moves the top byte of its lower half up. */
  lemma HighShl(x: Word)
    requires |x| == 128
    ensures High(Shl(x, 8)) == Xor(Shl(High(x), 8), Shr(Low(x), 56))
  {
    Same(High(Shl(x, 8)), Xor(Shl(High(x), 8), Shr(Low(x), 56)));
  }

  lemma OrIsXor(x: Word, y: Word)
    requires |x| == |y| == 64
    ensures Or(Shl(x, 8), Shr(y, 56)) == Xor(Shl(x, 8), Shr(y, 56))
  {
    Same(Or(Shl(x, 8), Shr(y, 56)), Xor(Shl(x, 8), Shr(y, 56)));
  }

  // ---------- The table of nibble products ----------

  /** The number as a word. */
  function NibbleWord(k: nat): (r: Word)
    ensures |r| == 64
    ensures forall i :: At(r, i) <==>
      (i == 0 && k % 2 == 1) || (i == 1 && k / 2 % 2 == 1) || (i == 2 && k / 4 % 2 == 1) || (i == 3 && k / 8 % 2 == 1)
  {
    [k % 2 == 1, k / 2 % 2 == 1, k / 4 % 2 == 1, k / 8 % 2 == 1] + Zero(60)
  }

  /** Four bits of a word as a number. */
  function Nibble(b: Word, pos: nat): (k: nat)
    ensures k < 16
    ensures k % 2 == 1 <==> At(b, pos)
    ensures k / 2 % 2 == 1 <==> At(b, pos + 1)
    ensures k / 4 % 2 == 1 <==> At(b, pos + 2)
    ensures k / 8 % 2 == 1 <==> At(b, pos + 3)
  {
    (if At(b, pos) then 1 else 0) + (if At(b, pos + 1) then 2 else 0)
    + (if At(b, pos + 2) then 4 else 0) + (if At(b, pos + 3) then 8 else 0)
  }

  /** The lower half of the product with a nibble. */
  function Entry(a: Word, k: nat): (r: Word)
    ensures |r| == 64
  {
    Low(Product(a, NibbleWord(k), 4))
  }

  lemma EntryOfBits(a: Word, b: Word, pos: nat)
    ensures Low(Product(a, Shr(b, pos), 4)) == Entry(a, Nibble(b, pos))
  {
    hide Product;
    ProductIsLocal(a, Shr(b, pos), NibbleWord(Nibble(b, pos)), 4);
  }

  lemma EntryStep(a: Word, k: nat, c: nat)
    requires |a| == 64 && k < 8 && c < 2
    ensures Entry(a, 2 * k + c) == if c == 0 then Shl(Entry(a, k), 1) else Xor(Shl(Entry(a, k), 1), a)
  {
    var w, v := NibbleWord(2 * k + c), NibbleWord(k);
    assert Product(a, w, 4) == Xor(Shl(Product(a, Shr(w, 1), 3), 1), Pick(At(w, 0), a));
    hide Product, Xor, Shl, Shr, Pick, Low;
    HalfNibble(k, c);
    ProductIsLocal(a, Shr(w, 1), v, 3);
    ProductSplits(a, v, 3, 1);
    OneCoefficient(a, Shr(v, 3));
    assert !At(Shr(v, 3), 0);
    NothingPicked(a, 3);
    XorZero(Product(a, v, 3));
    LowXor(Shl(Product(a, v, 3), 1), Pick(At(w, 0), a));
    LowShl(Product(a, v, 3), 1);
    LowPick(At(w, 0), a);
    XorZero(Shl(Entry(a, k), 1));
  }

  lemma HalfNibble(k: nat, c: nat)
    requires k < 8 && c < 2
    ensures At(NibbleWord(2 * k + c), 0) <==> c == 1
    ensures forall i :: 0 <= i < 3 ==> (At(Shr(NibbleWord(2 * k + c), 1), i) <==> At(NibbleWord(k), i))
    ensures !At(NibbleWord(k), 3)
  {
    var n := 2 * k + c;
    assert n / 2 == k && n / 4 == k / 2 && n / 8 == k / 4;
  }

  lemma NothingPicked(a: Word, n: nat)
    ensures Shl(Pick(false, a), n) == Zero(128)
  {
    Same(Shl(Pick(false, a), n), Zero(128));
  }

  lemma LowPick(bit: bool, a: Word)
    requires |a| == 64
    ensures Low(Pick(bit, a)) == if bit then a else Zero(64)
  {
    Same(Low(Pick(bit, a)), if bit then a else Zero(64));
  }

  lemma FirstEntries(a: Word)
    requires |a| == 64
    ensures Entry(a, 0) == Zero(64) && Entry(a, 1) == a
  {
    hide Product;
    ProductIsLocal(a, NibbleWord(0), Zero(64), 4);
    ZeroProduct(a, 4);
    EntryStep(a, 0, 1);
    assert Entry(a, 0) == Zero(64) by { Same(Low(Zero(128)), Zero(64)); }
    Same(Shl(Zero(64), 1), Zero(64));
    XorZero(a);
  }

  lemma {:induction false} ZeroProduct(a: Word, n: nat)
    ensures Product(a, Zero(64), n) == Zero(128)
  {
    if n > 0 {
      ZeroProduct(a, n - 1);
      assert Shr(Zero(64), 1) == Zero(64) by { Same(Shr(Zero(64), 1), Zero(64)); }
      assert Xor(Shl(Zero(128), 1), Zero(128)) == Zero(128) by { Same(Xor(Shl(Zero(128), 1), Zero(128)), Zero(128)); }
      assert Pick(At(Zero(64), 0), a) == Zero(128);
      hide Shr, Shl, Xor, Zero, Pick, At;
    }
  }

  // ---------- Bytes ----------

  /** The lower half of the product with the byte at `pos`, from two table entries. */
  function ByteEntry(a: Word, b: Word, pos: nat): (r: Word)
    requires |a| == 64
    ensures |r| == 64
  {
    Xor(Shl(Entry(a, Nibble(b, pos + 4)), 4), Entry(a, Nibble(b, pos)))
  }

  lemma ByteEntryIsLow(a: Word, b: Word, pos: nat)
    requires |a| == 64
    ensures Low(Product(a, Shr(b, pos), 8)) == ByteEntry(a, b, pos)
  {
    hide Product, Xor, Shl, Shr, Low, Entry, Nibble;
    ProductSplits(a, Shr(b, pos), 4, 4);
    ShrTwice(b, pos, 4);
    EntryOfBits(a, b, pos);
    EntryOfBits(a, b, pos + 4);
    LowXor(Shl(Product(a, Shr(b, pos + 4), 4), 4), Product(a, Shr(b, pos), 4));
    LowShl(Product(a, Shr(b, pos + 4), 4), 4);
  }

  // ---------- The bits that the table loses ----------

  /** Of every byte, the bits from `t` up. */
  function Mask(t: nat): (r: Word)
    ensures |r| == 64 && forall i :: At(r, i) <==> 0 <= i < 64 && i % 8 >= t
  {
    seq(64, i => i % 8 >= t)
  }

  /** Minus one or zero: the same bit everywhere. */
  function Fill(bit: bool): (r: Word)
    ensures |r| == 64 && forall i :: At(r, i) <==> 0 <= i < 64 && bit
  {
    seq(64, _ => bit)
  }

  /** What bit 64 - t of `a` adds to the upper half. */
  function RepairTerm(a: Word, b: Word, t: nat): (r: Word)
    requires |b| == 64
    ensures |r| == 64
  {
    And(Fill(At(a, 64 - t)), Shr(And(b, Mask(t)), t))
  }

  function Repair(a: Word, b: Word, t: nat): (r: Word)
    requires |b| == 64
    ensures |r| == 64
  {
    if t == 0 then Zero(64) else Xor(Repair(a, b, t - 1), RepairTerm(a, b, t))
  }

  /** The lowest byte alone. */
  function LowByte(b: Word): (r: Word)
    requires |b| == 64
    ensures |r| == 64 && forall i :: At(r, i) <==> i < 8 && At(b, i)
  {
    seq(64, i requires 0 <= i < 64 => i < 8 && b[i])
  }

  lemma TermByByte(a: Word, b: Word, t: nat)
    requires |b| == 64 && 0 < t < 8
    ensures RepairTerm(a, b, t) == Xor(Shl(RepairTerm(a, Shr(b, 8), t), 8), RepairTerm(a, LowByte(b), t))
  {
    hide RepairTerm;
    var x, y, z := RepairTerm(a, b, t), RepairTerm(a, Shr(b, 8), t), RepairTerm(a, LowByte(b), t);
    forall i
      ensures At(x, i) <==> At(Xor(Shl(y, 8), z), i)
    {
      TermBits(a, b, t, i);
    }
    Same(x, Xor(Shl(y, 8), z));
  }

  lemma TermBits(a: Word, b: Word, t: nat, i: int)
    requires |b| == 64 && 0 < t < 8
    ensures At(RepairTerm(a, b, t), i) <==>
      (i < 64 && At(RepairTerm(a, Shr(b, 8), t), i - 8)) != At(RepairTerm(a, LowByte(b), t), i)
  {
    hide RepairTerm;
    TermBit(a, b, t, i);
    TermBit(a, Shr(b, 8), t, i - 8);
    TermBit(a, LowByte(b), t, i);
    assert (i - 8 + t) % 8 == (i + t) % 8;
  }

  lemma TermBit(a: Word, b: Word, t: nat, i: int)
    requires |b| == 64
    ensures At(RepairTerm(a, b, t), i) <==> 0 <= i && At(a, 64 - t) && At(b, i + t) && (i + t) % 8 >= t
  {
  }

  lemma {:induction false} RepairByByte(a: Word, b: Word, t: nat)
    requires |b| == 64 && t < 8
    ensures Repair(a, b, t) == Xor(Shl(Repair(a, Shr(b, 8), t), 8), Repair(a, LowByte(b), t))
  {
    hide RepairTerm, Xor, Shl, Shr, LowByte;
    if t > 0 {
      RepairByByte(a, b, t - 1);
      TermByByte(a, b, t);
      var up, here := Repair(a, Shr(b, 8), t - 1), Repair(a, LowByte(b), t - 1);
      var u, h := RepairTerm(a, Shr(b, 8), t), RepairTerm(a, LowByte(b), t);
      XorRegroups(Shl(up, 8), here, Shl(u, 8), h);
      ShlXor(up, u, 8);
    } else {
      ShlZero(8);
      XorZero(Zero(64));
    }
  }

  lemma ShlZero(n: nat)
    ensures Shl(Zero(64), n) == Zero(64)
  {
    Same(Shl(Zero(64), n), Zero(64));
  }

  ghost function Summand(a: Word, b: Word, k: int, i: nat): bool {
    At(b, i) && At(a, k - i)
  }

  lemma EightSummands(a: Word, b: Word, k: int)
    ensures Convolution(a, b, 8, k) <==>
      (((((((Summand(a, b, k, 0) != Summand(a, b, k, 1)) != Summand(a, b, k, 2)) != Summand(a, b, k, 3))
        != Summand(a, b, k, 4)) != Summand(a, b, k, 5)) != Summand(a, b, k, 6)) != Summand(a, b, k, 7))
  {
    assert Convolution(a, b, 1, k) <==> Summand(a, b, k, 0);
    assert Convolution(a, b, 3, k) <==> (Convolution(a, b, 2, k) != Summand(a, b, k, 2));
    assert Convolution(a, b, 5, k) <==> (Convolution(a, b, 4, k) != Summand(a, b, k, 4));
    assert Convolution(a, b, 7, k) <==> (Convolution(a, b, 6, k) != Summand(a, b, k, 6));
  }

  ghost function RepairSum(a: Word, b: Word, p: nat, t: nat): bool {
    if t == 0 then false else RepairSum(a, b, p, t - 1) != Repaired(a, b, p, t)
  }

  lemma {:induction false} RepairIsSum(a: Word, b: Word, p: nat, t: nat)
    requires |b| == 64 && t < 8
    ensures At(Repair(a, LowByte(b), t), p) <==> RepairSum(a, b, p, t)
  {
    if t > 0 {
      RepairIsSum(a, b, p, t - 1);
      RepairBit(a, b, p, t);
      hide Repair, LowByte, Repaired;
    }
  }

  lemma SevenTerms(a: Word, b: Word, p: nat)
    ensures RepairSum(a, b, p, 7) <==>
      ((((((Repaired(a, b, p, 1) != Repaired(a, b, p, 2)) != Repaired(a, b, p, 3)) != Repaired(a, b, p, 4))
        != Repaired(a, b, p, 5)) != Repaired(a, b, p, 6)) != Repaired(a, b, p, 7))
  {
    assert RepairSum(a, b, p, 1) <==> Repaired(a, b, p, 1);
    assert RepairSum(a, b, p, 3) <==> (RepairSum(a, b, p, 2) != Repaired(a, b, p, 3));
    assert RepairSum(a, b, p, 5) <==> (RepairSum(a, b, p, 4) != Repaired(a, b, p, 5));
  }

  ghost function Repaired(a: Word, b: Word, p: nat, t: nat): bool {
    p + t < 8 && At(b, p + t) && At(a, 64 - t)
  }

  lemma RepairBit(a: Word, b: Word, p: nat, t: nat)
    requires |b| == 64 && 0 < t < 8
    ensures At(Repair(a, LowByte(b), t), p) <==> (At(Repair(a, LowByte(b), t - 1), p) != Repaired(a, b, p, t))
  {
    TermBit(a, LowByte(b), t, p);
    if p + t < 8 { assert (p + t) % 8 == p + t; }
  }

  /** The seven terms are the upper half of the product with one byte. */
  lemma RepairIsHigh(a: Word, b: Word)
    requires |a| == |b| == 64
    ensures High(Product(a, b, 8)) == Repair(a, LowByte(b), 7)
  {
    hide Product, Repair, Convolution, RepairSum;
    var x, y := High(Product(a, b, 8)), Repair(a, LowByte(b), 7);
    forall p
      ensures At(x, p) <==> At(y, p)
    {
      if 0 <= p < 64 {
        ProductIsConvolution(a, b, 8, 64 + p);
        EightSummands(a, b, 64 + p);
        RepairIsSum(a, b, p, 7);
        SevenTerms(a, b, p);
        SummandsAreTerms(a, b, p);
      }
    }
    Same(x, y);
  }

  lemma SummandsAreTerms(a: Word, b: Word, p: nat)
    requires |a| == 64 && p < 64
    ensures forall i: nat :: Summand(a, b, 64 + p, i) <==> i > p && At(b, i) && At(a, 64 + p - i)
    ensures forall t: nat :: Repaired(a, b, p, t) <==> p + t < 8 && Summand(a, b, 64 + p, p + t)
  {
  }

  // ---------- The helper ----------

  /** After some bytes of `b`: the lower half is right, and the upper half up to the repair. */
  ghost predicate InStep(a: Word, b: Word, n: nat, hi: Word, lo: Word)
    requires |a| == |b| == 64
  {
    && |hi| == |lo| == 64
    && lo == Low(Product(a, b, n))
    && Xor(hi, Repair(a, b, 7)) == High(Product(a, b, n))
  }

  /** One more byte. */
  lemma ByteStep(a: Word, b: Word, n: nat, hi: Word, lo: Word)
    requires |a| == |b| == 64 && InStep(a, Shr(b, 8), n, hi, lo)
    ensures InStep(a, b, n + 8, Or(Shl(hi, 8), Shr(lo, 56)), Xor(Shl(lo, 8), ByteEntry(a, b, 0)))
  {
    hide Product, Repair, Xor, Shl, Shr, Or, Low, High, LowByte, ByteEntry;
    var q, p, r := Product(a, Shr(b, 8), n), Product(a, b, 8), Repair(a, Shr(b, 8), 7);
    ProductSplits(a, b, 8, n);
    LowXor(Shl(q, 8), p);
    LowShl(q, 8);
    HighShl(q);
    NoShift(b);
    ByteEntryIsLow(a, b, 0);
    RepairIsHigh(a, b);
    RepairByByte(a, b, 7);
    OrIsXor(hi, lo);
    XorRegroups(Shl(hi, 8), Shr(lo, 56), Shl(r, 8), High(p));
    ShlXor(hi, r, 8);
    XorAssociates(Shl(High(q), 8), Shr(lo, 56), High(p));
  }

  lemma ByteAt(a: Word, b: Word, pos: nat)
    requires |a| == |b| == 64
    ensures ByteEntry(a, Shr(b, pos), 0) == Xor(Shl(Entry(a, Nibble(b, pos + 4)), 4), Entry(a, Nibble(b, pos)))
  {
    hide Entry, Xor, Shl;
    assert Nibble(Shr(b, pos), 0) == Nibble(b, pos) && Nibble(Shr(b, pos), 4) == Nibble(b, pos + 4);
  }

  /** The products of `a` with all nibbles, each entry from the one for half its number. */
  method FillTable(a: Word) returns (A: array<Word>)
    requires |a| == 64
    ensures fresh(A) && A.Length == 16 && forall k :: 0 <= k < 16 ==> A[k] == Entry(a, k)
  {
    hide Entry, Xor, Shl;
    A := new Word[16](_ => Zero(64));
    A[1] := a;
    FirstEntries(a);
    FillPair(A, a, 1);
    FillPair(A, a, 2);
    FillPair(A, a, 3);
    FillPair(A, a, 4);
    FillPair(A, a, 5);
    FillPair(A, a, 6);
    FillPair(A, a, 7);
  }

  method FillPair(A: array<Word>, a: Word, k: nat)
    requires |a| == 64 && A.Length == 16 && 1 <= k < 8 && forall i :: 0 <= i < 2 * k ==> A[i] == Entry(a, i)
    modifies A
    ensures forall i :: 0 <= i < 2 * k + 2 ==> A[i] == Entry(a, i)
  {
    hide Entry, Xor, Shl;
    EntryStep(a, k, 0);
    EntryStep(a, k, 1);
    A[2 * k] := Shl(A[k], 1);
    A[2 * k + 1] := Xor(A[2 * k], a);
  }

  /** Moves both halves up by a byte and adds the entries of the byte at `pos`. */
  method AddByte(A: array<Word>, ghost a: Word, b: Word, pos: nat, hi: Word, lo: Word) returns (hi': Word, lo': Word)
    requires |a| == |b| == 64 && pos <= 56 && A.Length == 16 && forall k :: 0 <= k < 16 ==> A[k] == Entry(a, k)
    requires InStep(a, Shr(b, pos + 8), 56 - pos, hi, lo)
    ensures InStep(a, Shr(b, pos), 64 - pos, hi', lo')
  {
    ByteStepAt(a, b, pos, hi, lo);
    hide Entry, Nibble, Xor, Shl, Shr, Or, InStep;
    hi' := Or(Shl(hi, 8), Shr(lo, 56));
    lo' := Xor(Xor(Shl(lo, 8), Shl(A[Nibble(b, pos + 4)], 4)), A[Nibble(b, pos)]);
  }

  lemma ByteStepAt(a: Word, b: Word, pos: nat, hi: Word, lo: Word)
    requires |a| == |b| == 64 && pos <= 56 && InStep(a, Shr(b, pos + 8), 56 - pos, hi, lo)
    ensures |hi| == |lo| == 64
    ensures InStep(a, Shr(b, pos), 64 - pos, Or(Shl(hi, 8), Shr(lo, 56)),
      Xor(Xor(Shl(lo, 8), Shl(Entry(a, Nibble(b, pos + 4)), 4)), Entry(a, Nibble(b, pos))))
  {
    hide InStep, Entry, ByteEntry, Nibble, Xor, Shl, Shr, Or, At;
    InStepGives(a, Shr(b, pos + 8), 56 - pos, hi, lo);
    ShrTwice(b, pos, 8);
    var c := Shr(b, pos);
    ByteStep(a, c, 56 - pos, hi, lo);
    ByteAt(a, b, pos);
    XorAssociates(Shl(lo, 8), Shl(Entry(a, Nibble(b, pos + 4)), 4), Entry(a, Nibble(b, pos)));
  }

  lemma StartsEmpty(a: Word, b: Word)
    requires |a| == |b| == 64
    ensures InStep(a, Shr(b, 64), 0, Zero(64), Zero(64))
  {
    Same(Shr(b, 64), Zero(64));
    RepairOfZero(a, 7);
    XorZero(Zero(64));
    Same(Low(Zero(128)), Zero(64));
    Same(High(Zero(128)), Zero(64));
    hide Repair;
  }

  lemma {:induction false} RepairOfZero(a: Word, t: nat)
    ensures Repair(a, Zero(64), t) == Zero(64)
  {
    if t > 0 {
      RepairOfZero(a, t - 1);
      Same(RepairTerm(a, Zero(64), t), Zero(64));
      XorZero(Zero(64));
    }
  }

  lemma RepairNext(a: Word, b: Word, hi: Word, t: nat)
    requires |b| == |hi| == 64
    ensures Xor(Xor(hi, Repair(a, b, t)), RepairTerm(a, b, t + 1)) == Xor(hi, Repair(a, b, t + 1))
  {
    XorAssociates(hi, Repair(a, b, t), RepairTerm(a, b, t + 1));
  }

  /** Adds the seven terms for the bits of `a` that the table lost. */
  method AddRepairs(a: Word, b: Word, hi0: Word) returns (hi: Word)
    requires |a| == |b| == |hi0| == 64
    ensures hi == Xor(hi0, Repair(a, b, 7))
  {
    hide RepairTerm, Xor;
    XorZero(hi0);
    RepairNext(a, b, hi0, 0);
    hi := Xor(hi0, RepairTerm(a, b, 1));
    RepairNext(a, b, hi0, 1);
    hi := Xor(hi, RepairTerm(a, b, 2));
    RepairNext(a, b, hi0, 2);
    hi := Xor(hi, RepairTerm(a, b, 3));
    RepairNext(a, b, hi0, 3);
    hi := Xor(hi, RepairTerm(a, b, 4));
    RepairNext(a, b, hi0, 4);
    hi := Xor(hi, RepairTerm(a, b, 5));
    RepairNext(a, b, hi0, 5);
    hi := Xor(hi, RepairTerm(a, b, 6));
    RepairNext(a, b, hi0, 6);
    hi := Xor(hi, RepairTerm(a, b, 7));
  }

  /** The helper: either half of the product of two 64-bit polynomials. */
  method Pclmul(a: Word, b: Word, which: bool) returns (r: Word)
    requires |a| == |b| == 64
    ensures r == if which then High(Product(a, b, 64)) else Low(Product(a, b, 64))
  {
    hide Entry, InStep, Xor, Shl, Shr, Product, Repair, High, Low;
    var A := FillTable(a);
    var hi, lo := Zero(64), Zero(64);
    StartsEmpty(a, b);
    hi, lo := AddByte(A, a, b, 56, hi, lo);
    hi, lo := AddByte(A, a, b, 48, hi, lo);
    hi, lo := AddByte(A, a, b, 40, hi, lo);
    hi, lo := AddByte(A, a, b, 32, hi, lo);
    hi, lo := AddByte(A, a, b, 24, hi, lo);
    hi, lo := AddByte(A, a, b, 16, hi, lo);
    hi, lo := AddByte(A, a, b, 8, hi, lo);
    hi, lo := AddByte(A, a, b, 0, hi, lo);
    NoShift(b);
    InStepGives(a, b, 64, hi, lo);
    hi := AddRepairs(a, b, hi);
    return if which then hi else lo;
  }

  lemma InStepGives(a: Word, b: Word, n: nat, hi: Word, lo: Word)
    requires |a| == |b| == 64 && InStep(a, b, n, hi, lo)
    ensures |hi| == |lo| == 64 && lo == Low(Product(a, b, n)) && Xor(hi, Repair(a, b, 7)) == High(Product(a, b, n))
  {
  }

  /** What the two halves are: bit k of the double word is the sum of all products a[k - i] b[i]. */
  lemma HalvesAreConvolution(a: Word, b: Word, k: nat)
    requires |a| == |b| == 64 && k < 128
    ensures Convolution(a, b, 64, k) <==>
      if k < 64 then At(Low(Product(a, b, 64)), k) else At(High(Product(a, b, 64)), k - 64)
  {
    hide Convolution, Product;
    ProductIsConvolution(a, b, 64, k);
  }
}
