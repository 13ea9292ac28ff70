/** Words of the processors' widths: their bits, and what bitwise operations do to them. */
module Words {
  import opened Bits
  import opened Amd64Flags

  datatype BitOp = AndOp | OrOp | XorOp

  datatype Compare = EQ | NE | LTU | LEU | LTS | LES

  function Combine(op: BitOp, p: int, q: int): int {
    match op
    case AndOp => if p == 1 && q == 1 then 1 else 0
    case OrOp => if p == 1 || q == 1 then 1 else 0
    case XorOp => if p != q then 1 else 0
  }

  /** The lowest `n` bits combined. */
  function Word(op: BitOp, x: nat, y: nat, n: nat): nat {
    if n == 0 then 0 else Combine(op, x % 2, y % 2) + 2 * Word(op, x / 2, y / 2, n - 1)
  }

  function Compares(c: Compare, w: Width, x: int, y: int): bool {
    match c
    case EQ => x == y
    case NE => x != y
    case LTU => x < y
    case LEU => x <= y
    case LTS => Signed(x, w) < Signed(y, w)
    case LES => Signed(x, w) <= Signed(y, w)
  }

  lemma {:induction false} WordFits(op: BitOp, x: nat, y: nat, n: nat)
    ensures Word(op, x, y, n) < Shl(1, n)
  {
    if n > 0 { WordFits(op, x / 2, y / 2, n - 1); }
  }

  lemma SixtyFour()
    ensures Shl(1, 64) == TWO_64
  {
    ShlSize(1, Q);
    hide Shl;
  }

  /** Words of a width combined bit by bit. */
  function And(x: nat, y: nat, w: Width): Wide {
    WordIsWide(AndOp, x, y, w);
    Word(AndOp, x, y, Size(w))
  }

  function Or(x: nat, y: nat, w: Width): Wide {
    WordIsWide(OrOp, x, y, w);
    Word(OrOp, x, y, Size(w))
  }

  function Xor(x: nat, y: nat, w: Width): Wide {
    WordIsWide(XorOp, x, y, w);
    Word(XorOp, x, y, Size(w))
  }

  lemma WordIsWide(op: BitOp, x: nat, y: nat, w: Width)
    ensures Word(op, x, y, Size(w)) < TWO_64
  {
    WordFits(op, x, y, Size(w));
    ShlSize(1, w);
    hide Word, Shl;
  }

  // ---------- Low bits and the highest bit ----------

  function LowBits(x: nat, n: nat): nat {
    if n == 0 then 0 else x % 2 + 2 * LowBits(x / 2, n - 1)
  }

  lemma {:induction false} LowBitsRest(x: nat, n: nat)
    ensures LowBits(x, n) < Shl(1, n) && x == LowBits(x, n) + Shl(Shr(x, n), n)
  {
    if n > 0 { LowBitsRest(x / 2, n - 1); }
  }

  lemma {:induction false} HighestLowBit(x: nat, n: nat)
    ensures BitOf(x, n) == 1 <==> LowBits(x, n + 1) >= Shl(1, n)
  {
    LowBitsRest(x, n + 1);
    if n > 0 { HighestLowBit(x / 2, n - 1); }
  }

  lemma LowBitsAreCut(x: nat, w: Width)
    ensures LowBits(x, Size(w)) == Cut(x, w) && Shl(1, Size(w) - 1) == Half(w)
  {
    LowBitsRest(x, Size(w));
    ShlSize(Shr(x, Size(w)), w);
    ShlSize(1, w);
    assert Shl(1, Size(w)) == 2 * Shl(1, Size(w) - 1);
    hide Shl, Shr, LowBits;
    DivisionIs(x, Range(w), Shr(x, Size(w)), LowBits(x, Size(w)));
  }

  lemma SizeIs(w: Width)
    ensures 8 <= Size(w) <= 64 && Shl(1, Size(w)) == Range(w)
  {
    ShlSize(1, w);
    hide Shl, Range;
  }

  lemma TopIsBit(x: nat, w: Width)
    ensures BitOf(x, Size(w) - 1) == 1 <==> Top(x, w)
  {
    hide Shr, Shl, LowBits, Cut, Range;
    HighestLowBit(x, Size(w) - 1);
    LowBitsAreCut(x, w);
  }

  lemma TopOf(x: nat, w: Width)
    requires x < Range(w)
    ensures Shr(x, Size(w) - 1) == Number(Top(x, w))
  {
    hide Shl, Shr, Range, Size, Top;
    SizeIs(w);
    TopIsBit(x, w);
    ShrKeeps(x, Size(w) - 1);
    NextShift(1, Size(w) - 1);
    if Shr(x, Size(w) - 1) >= 2 {
      ShlOrder(2, Shr(x, Size(w) - 1), Size(w) - 1);
      ShlDouble(1, Size(w) - 1);
    }
  }

  lemma CutCut(x: int, w: Width)
    ensures Cut(Cut(x, w), w) == Cut(x, w) && Top(Cut(x, w), w) == Top(x, w)
  {
    CutNear(Cut(x, w), w);
    hide Cut, Half;
  }

  // ---------- Bitwise operations ----------

  lemma {:induction false} NothingAnded(x: nat, n: nat)
    ensures Word(AndOp, x, 0, n) == 0
  {
    if n > 0 { NothingAnded(x / 2, n - 1); }
  }

  /** And with a mask of low ones keeps the low bits. */
  lemma {:induction false} MaskKeeps(x: nat, k: nat, n: nat)
    requires k <= n
    ensures Shl(1, k) >= 1 && Word(AndOp, x, Shl(1, k) - 1, n) == LowBits(x, k)
  {
    if k == 0 {
      NothingAnded(x, n);
    } else {
      MaskKeeps(x / 2, k - 1, n - 1);
    }
  }

  lemma {:induction false} NoXor(n: nat)
    ensures Word(XorOp, 0, 0, n) == 0
  {
    if n > 0 { NoXor(n - 1); }
  }

  lemma {:induction false} XorNothing(x: nat, n: nat)
    requires x < Shl(1, n)
    ensures Word(XorOp, x, 0, n) == x
  {
    if n > 0 { XorNothing(x / 2, n - 1); }
  }

  lemma {:induction false} WordBit(op: BitOp, x: nat, y: nat, n: nat, i: nat)
    requires i < n
    ensures BitOf(Word(op, x, y, n), i) == Combine(op, BitOf(x, i), BitOf(y, i))
  {
    var low, rest := Combine(op, x % 2, y % 2), Word(op, x / 2, y / 2, n - 1);
    assert (low + 2 * rest) / 2 == rest && (low + 2 * rest) % 2 == low;
    if i > 0 { WordBit(op, x / 2, y / 2, n - 1, i - 1); }
  }

  lemma {:induction false} NotBit(x: nat, n: nat, i: nat)
    requires i < n && x < Shl(1, n)
    ensures BitOf(Shl(1, n) - 1 - x, i) == 1 - BitOf(x, i)
  {
    assert (Shl(1, n) - 1 - x) / 2 == Shl(1, n - 1) - 1 - x / 2;
    if i > 0 { NotBit(x / 2, n - 1, i - 1); }
  }

  lemma WordTop(op: BitOp, x: nat, y: nat, w: Width)
    ensures var z := Word(op, x, y, Size(w));
      && z < Range(w)
      && (Top(z, w) <==> Combine(op, Number(Top(x, w)), Number(Top(y, w))) == 1)
  {
    hide Word, Shl, Shr, Range, Size, Top;
    SizeIs(w);
    WordFits(op, x, y, Size(w));
    WordBit(op, x, y, Size(w), Size(w) - 1);
    TopIsBit(x, w);
    TopIsBit(y, w);
    TopIsBit(Word(op, x, y, Size(w)), w);
  }
}
