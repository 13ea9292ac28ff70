/** The lazy flags of arm and arm64: what the helpers compute from a thunk, and that it is the arithmetic truth. */
module ArmFlags {
  import opened Wrappers
  import opened Bits
  import opened Amd64Flags
  import opened Words

  datatype Isa = Arm32 | Arm64

  datatype ArmOp = Copy | Add | Sub | Adc | Sbc | Logic | Mul | Mull

  type ArmWidth = w: Width | w == L || w == Q witness L

  datatype ArmThunk = ArmThunk(isa: Isa, op: ArmOp, width: ArmWidth, dep1: Wide, dep2: Wide, dep3: Wide)
  {
    /** Words of arm have 32 bits. */
    predicate Valid() {
      isa.Arm32? ==> width == L && dep1 < Range(L) && dep2 < Range(L) && dep3 < Range(L)
    }

    function ArgL(): nat { Cut(dep1, width) }

    function ArgR(): nat { Cut(dep2, width) }

    function OldC(): nat { Cut(dep3, width) }
  }

  /** The result the sign and zero flags are taken from; none where the old carry is no bit. */
  function ResultOf(t: ArmThunk): Option<nat> {
    var argL, argR, oldC, w := t.ArgL(), t.ArgR(), t.OldC(), t.width;
    match t.op
    case Add => Some(Cut(argL + argR, w))
    case Sub => Some(Cut(argL - argR, w))
    case Adc => if oldC > 1 then None else Some(Cut(argL + argR + oldC, w))
    case Sbc => if oldC > 1 then None else Some(Cut(argL - argR - (1 - oldC), w))
    case Logic => Some(argL)
    case Mul => if t.isa.Arm32? then Some(argL) else None
    case _ => None
  }

  function FlagN(t: ArmThunk): Option<nat> {
    match t.op
    case Copy => Some(BitOf(t.dep1, 31))
    case Mull => if t.isa.Arm32? then Some(Shr(t.dep2, 31)) else None
    case _ =>
      match ResultOf(t)
      case None => None
      case Some(res) => Some(Shr(res, Size(t.width) - 1))
  }

  function FlagZ(t: ArmThunk): Option<nat> {
    match t.op
    case Copy => Some(BitOf(t.dep1, 30))
    case Mull => if t.isa.Arm32? then Some(Number(Or(t.dep2, t.dep1, L) == 0)) else None
    case _ =>
      match ResultOf(t)
      case None => None
      case Some(res) => Some(Number(res == 0))
  }

  /** A bit of the old flags that multiplications keep; the other bits of the word must be clear. */
  function Kept(t: ArmThunk, k: nat): Option<nat> {
    if t.isa.Arm32? && t.dep3 <= 3 then Some(BitOf(t.dep3, k)) else None
  }

  /** What a logical operation keeps: on arm a bit of the thunk, on arm64 nothing. */
  function KeptByLogic(isa: Isa, bit: nat): Option<nat> {
    if isa.Arm64? then Some(0) else if bit > 1 then None else Some(bit)
  }

  function FlagC(t: ArmThunk): Option<nat> {
    var argL, argR, oldC := t.ArgL(), t.ArgR(), t.OldC();
    match t.op
    case Copy => Some(BitOf(t.dep1, 29))
    case Add => Some(Number(Cut(argL + argR, t.width) < argL))
    case Sub => Some(Number(argL >= argR))
    case Adc =>
      (match ResultOf(t)
       case None => None
       case Some(res) => Some(Number(if oldC != 0 then res <= argL else res < argL)))
    case Sbc => if oldC > 1 then None else Some(Number(if oldC != 0 then argL >= argR else argL > argR))
    case Logic => KeptByLogic(t.isa, t.dep2)
    case _ => Kept(t, 1)
  }

  /** The highest bit of what the operands and the result mix to. */
  function OverflowBit(argL: nat, argR: nat, res: nat, w: Width, adds: bool): nat {
    var mixed := if adds then And(Xor(res, argL, w), Xor(res, argR, w), w)
                 else And(Xor(argL, argR, w), Xor(argL, res, w), w);
    Shr(mixed, Size(w) - 1)
  }

  function FlagV(t: ArmThunk): Option<nat> {
    match t.op
    case Copy => Some(BitOf(t.dep1, 28))
    case Logic => KeptByLogic(t.isa, t.dep3)
    case Mul => Kept(t, 0)
    case Mull => Kept(t, 0)
    case _ =>
      match ResultOf(t)
      case None => None
      case Some(res) => Some(OverflowBit(t.ArgL(), t.ArgR(), res, t.width, t.op in {Add, Adc}))
  }

  /** The width of a machine word. */
  function WordWidth(isa: Isa): ArmWidth {
    if isa.Arm32? then L else Q
  }

  /** The four flags at the places they have in the status register. */
  function FlagsNzcv(t: ArmThunk): Option<nat> {
    var n, z, c, v, w := FlagN(t), FlagZ(t), FlagC(t), FlagV(t), WordWidth(t.isa);
    if n.None? || z.None? || c.None? || v.None? then None
    else Some(Or(Or(Or(Or(0, Shl(n.value, 31), w), Shl(z.value, 30), w), Shl(c.value, 29), w), Shl(v.value, 28), w))
  }

  function Inverted(inv: nat, flag: bool): Option<nat> {
    Some(Number(if inv == 0 then flag else !flag))
  }

  /** Condition codes come in pairs, the odd one the negation; the helper has no result for codes without meaning. */
  function Condition(code: nat, t: ArmThunk): Option<nat> {
    var n, z, c, v, inv := FlagN(t), FlagZ(t), FlagC(t), FlagV(t), code % 2;
    match code / 2
    case 0 => if z.None? then None else Inverted(inv, z.value == 1)
    case 1 => if c.None? then None else Inverted(inv, c.value == 1)
    case 2 => if n.None? then None else Inverted(inv, n.value == 1)
    case 3 => if v.None? then None else Inverted(inv, v.value == 1)
    case 4 => if c.None? || z.None? then None else Inverted(inv, c.value == 1 && z.value == 0)
    case 5 => if n.None? || v.None? then None else Inverted(inv, n.value == v.value)
    case 6 => if n.None? || v.None? || z.None? then None else Inverted(inv, z.value == 0 && n.value == v.value)
    case 7 => if inv == 0 || t.isa.Arm64? then Some(1) else None
    case _ => None
  }

  // ---------- Top bits ----------

  lemma AddOverflowTop(x: nat, y: nat, res: nat, w: Width)
    ensures OverflowBit(x, y, res, w, true) == Number(Top(x, w) == Top(y, w) && Top(x, w) != Top(res, w))
  {
    hide Word, Shr, Range, Size, Top;
    WordTop(XorOp, res, x, w);
    WordTop(XorOp, res, y, w);
    WordTop(AndOp, Xor(res, x, w), Xor(res, y, w), w);
    TopOf(And(Xor(res, x, w), Xor(res, y, w), w), w);
  }

  lemma SubOverflowTop(x: nat, y: nat, res: nat, w: Width)
    ensures OverflowBit(x, y, res, w, false) == Number(Top(x, w) != Top(y, w) && Top(x, w) != Top(res, w))
  {
    hide Word, Shr, Range, Size, Top;
    WordTop(XorOp, x, y, w);
    WordTop(XorOp, x, res, w);
    WordTop(AndOp, Xor(x, y, w), Xor(x, res, w), w);
    TopOf(And(Xor(x, y, w), Xor(x, res, w), w), w);
  }

  // ---------- The flags tell the truth ----------

  /** The flags say of an exact value and a carry what the arithmetic says. */
  ghost predicate Tells(t: ArmThunk, carry: bool, signed: int, exact: int) {
    && FlagN(t) == Some(Number(Signed(exact, t.width) < 0)) && FlagZ(t) == Some(Number(Cut(exact, t.width) == 0))
    && FlagC(t) == Some(Number(carry)) && FlagV(t) == Some(Number(Overflows(signed, t.width)))
  }

  lemma ResultSign(t: ArmThunk, exact: int)
    requires t.op in {Add, Sub, Adc, Sbc} && ResultOf(t) == Some(Cut(exact, t.width))
    ensures FlagN(t) == Some(Number(Signed(exact, t.width) < 0)) && FlagZ(t) == Some(Number(Cut(exact, t.width) == 0))
    ensures Top(Cut(exact, t.width), t.width) == Top(exact, t.width)
  {
    hide Cut, Range, Half, Size, Shr, ResultOf, Top, Signed;
    var w := t.width;
    CutCut(exact, w);
    TopOf(Cut(exact, w), w);
    SignedParts(exact, w);
  }

  /** Adding, with or without the old carry: carry out, signed overflow, zero and sign. */
  lemma AddTells(t: ArmThunk)
    requires t.op == Add || (t.op == Adc && t.OldC() <= 1)
    ensures var w, c := t.width, if t.op == Adc then t.OldC() else 0;
      Tells(t, t.ArgL() + t.ArgR() + c >= Range(w), Signed(t.ArgL(), w) + Signed(t.ArgR(), w) + c,
            t.ArgL() + t.ArgR() + c)
  {
    hide Cut, Range, Half, Size, Shr, Top, Signed, OverflowBit, Overflows;
    var x, y, c, w := t.ArgL(), t.ArgR(), if t.op == Adc then t.OldC() else 0, t.width;
    CutCut(t.dep1, w);
    CutCut(t.dep2, w);
    AddTruth(x, y, c, w);
    ResultSign(t, x + y + c);
    AddOverflowTop(x, y, Cut(x + y + c, w), w);
  }

  /** Subtracting: the carry is clear exactly if there is a borrow. */
  lemma SubTells(t: ArmThunk)
    requires t.op == Sub || (t.op == Sbc && t.OldC() <= 1)
    ensures var w, b := t.width, if t.op == Sbc then 1 - t.OldC() else 0;
      Tells(t, t.ArgL() - t.ArgR() - b >= 0, Signed(t.ArgL(), w) - Signed(t.ArgR(), w) - b, t.ArgL() - t.ArgR() - b)
  {
    hide Cut, Range, Half, Size, Shr, Top, Signed, OverflowBit, Overflows;
    var x: int, y: int := t.ArgL(), t.ArgR();
    var b: int, w := if t.op == Sbc then 1 - t.OldC() else 0, t.width;
    CutCut(t.dep1, w);
    CutCut(t.dep2, w);
    SubTruth(x, y, b, w);
    ResultSign(t, x - y - b);
    SubOverflowTop(x, y, Cut(x - y - b, w), w);
  }

  /** A 64-bit product in two words, the high one in the second. */
  ghost predicate HoldsProduct(t: ArmThunk, product: int) {
    Cut(product, Q) == Range(L) * t.dep2 + t.dep1
  }

  /** After a long multiplication: sign and zero of the whole product. */
  lemma LongMultiplicationTells(t: ArmThunk, product: int)
    requires t.Valid() && t.isa.Arm32? && t.op == Mull && HoldsProduct(t, product)
    ensures FlagN(t) == Some(Number(Signed(product, Q) < 0)) && FlagZ(t) == Some(Number(Cut(product, Q) == 0))
  {
    hide Shr, Word, Signed;
    TopOf(t.dep2, L);
    SignedParts(product, Q);
    OrIsZero(t.dep2, t.dep1);
  }

  lemma OrIsZero(x: Wide, y: Wide)
    requires x < Range(L) && y < Range(L)
    ensures Or(x, y, L) == 0 <==> x == 0 && y == 0
  {
    ShlSize(1, L);
    hide Shl, Shr, BitOf, Word, Range;
    if x == 0 && y == 0 {
      NothingOred(32);
    } else if Or(x, y, L) == 0 {
      forall i: nat | i < 32
        ensures BitOf(x, i) == BitOf(0, i) && BitOf(y, i) == BitOf(0, i)
      {
        WordBit(OrOp, x, y, 32, i);
        ZeroBits(i);
      }
      SameBits(x, 0, 32);
      SameBits(y, 0, 32);
    }
  }

  lemma {:induction false} NothingOred(n: nat)
    ensures Word(OrOp, 0, 0, n) == 0
  {
    if n > 0 { NothingOred(n - 1); }
  }

  /** Of signed factors: the sign of the exact product, and zero exactly if a factor is. */
  lemma SignedMultiplicationTells(t: ArmThunk, x: int, y: int)
    requires t.Valid() && t.isa.Arm32? && t.op == Mull && HoldsProduct(t, x * y)
    requires -Half(L) <= x < Half(L) && -Half(L) <= y < Half(L)
    ensures FlagN(t) == Some(Number((x < 0 && y > 0) || (x > 0 && y < 0)))
    ensures FlagZ(t) == Some(Number(x == 0 || y == 0))
  {
    LongMultiplicationTells(t, x * y);
    ProductSign(x, y);
    hide FlagN, FlagZ;
  }

  lemma ProductSign(x: int, y: int)
    requires -Half(L) <= x < Half(L) && -Half(L) <= y < Half(L)
    ensures Signed(x * y, Q) == x * y
    ensures x * y < 0 <==> (x < 0 && y > 0) || (x > 0 && y < 0)
    ensures Cut(x * y, Q) == 0 <==> x == 0 || y == 0
  {
    SignedBound(x, y, L);
    SignedFits(x * y, Q);
    SignedParts(x * y, Q);
  }

  /** After a multiplication: sign and zero of the low word of the product. */
  lemma MultiplicationTells(t: ArmThunk, product: int)
    requires t.Valid() && t.isa.Arm32? && t.op == Mul && t.dep1 == Cut(product, L)
    ensures FlagN(t) == Some(Number(Signed(product, L) < 0)) && FlagZ(t) == Some(Number(Cut(product, L) == 0))
  {
    hide Shr, Signed, Cut;
    CutCut(product, L);
    TopOf(t.dep1, L);
    SignedParts(product, L);
  }

  /** Multiplications keep carry and overflow, which the thunk holds as a number of two bits. */
  lemma MultiplicationsKeep(t: ArmThunk, carry: bool, overflow: bool)
    requires t.isa.Arm32? && t.op in {Mul, Mull} && t.dep3 == 2 * Number(carry) + Number(overflow)
    ensures FlagC(t) == Some(Number(carry)) && FlagV(t) == Some(Number(overflow))
  {
  }

  /** After a logical operation: sign and zero of the result, and the carry and overflow of the thunk, or none. */
  lemma LogicTells(t: ArmThunk, carry: bool, overflow: bool)
    requires t.Valid() && t.op == Logic && t.dep2 == Number(carry) && t.dep3 == Number(overflow)
    ensures FlagN(t) == Some(Number(Signed(t.dep1, t.width) < 0))
    ensures FlagZ(t) == Some(Number(Cut(t.dep1, t.width) == 0))
    ensures FlagC(t) == Some(Number(carry && t.isa.Arm32?)) && FlagV(t) == Some(Number(overflow && t.isa.Arm32?))
  {
    hide Shr, Signed, Cut, Top;
    CutCut(t.dep1, t.width);
    TopOf(t.ArgL(), t.width);
    SignedParts(t.dep1, t.width);
  }

  /** The comparison a condition stands for after a subtraction. */
  predicate AfterSub(code: nat, x: nat, y: nat, w: Width) {
    match code
    case 0 => x == y
    case 1 => x != y
    case 2 => x >= y
    case 3 => x < y
    case 4 => Signed(x - y, w) < 0
    case 5 => Signed(x - y, w) >= 0
    case 6 => Overflows(Signed(x, w) - Signed(y, w), w)
    case 7 => !Overflows(Signed(x, w) - Signed(y, w), w)
    case 8 => x > y
    case 9 => x <= y
    case 10 => Signed(x, w) >= Signed(y, w)
    case 11 => Signed(x, w) < Signed(y, w)
    case 12 => Signed(x, w) > Signed(y, w)
    case 13 => Signed(x, w) <= Signed(y, w)
    case _ => true
  }

  /** Fourteen conditions after a subtraction are the comparisons of the operands; the others always hold. */
  lemma ConditionsAfterSub(code: nat, t: ArmThunk)
    requires t.op == Sub && (code < 15 || (code == 15 && t.isa.Arm64?))
    ensures Condition(code, t) == Some(Number(AfterSub(code, t.ArgL(), t.ArgR(), t.width)))
  {
    hide Cut, Range, Half, Signed, FlagN, FlagZ, FlagC, FlagV, Overflows;
    var x: int, y: int, w := t.ArgL(), t.ArgR(), t.width;
    SubTells(t);
    CutCut(t.dep1, w);
    CutCut(t.dep2, w);
    SubTruth(x, y, 0, w);
    SignedParts(x - y, w);
    EqualSigned(x, y, w);
    hide Top;
  }

  lemma EqualSigned(x: nat, y: nat, w: Width)
    requires Cut(x, w) == x && Cut(y, w) == y
    ensures x == y <==> Signed(x, w) == Signed(y, w)
  {
    SignedParts(x, w);
    SignedParts(y, w);
    hide Range, Half, Cut;
  }

  // ---------- The status word ----------

  lemma FlagsAreBits(t: ArmThunk)
    requires t.Valid()
    ensures FlagN(t).Some? ==> FlagN(t).value < 2
    ensures FlagZ(t).Some? ==> FlagZ(t).value < 2
    ensures FlagC(t).Some? ==> FlagC(t).value < 2
    ensures FlagV(t).Some? ==> FlagV(t).value < 2
  {
    hide Cut, Shr, Range, Size, OverflowBit, Or, Top;
    SignIsBit(t);
    OverflowIsBit(t);
  }

  lemma SignIsBit(t: ArmThunk)
    requires t.Valid()
    ensures FlagN(t).Some? ==> FlagN(t).value < 2
  {
    hide Cut, Shr, Range, Top;
    if t.op == Mull && t.isa.Arm32? {
      TopOf(t.dep2, L);
    } else if t.op != Mull && ResultOf(t).Some? {
      TopOf(ResultOf(t).value, t.width);
    }
  }

  lemma OverflowIsBit(t: ArmThunk)
    ensures FlagV(t).Some? ==> FlagV(t).value < 2
  {
    hide Cut, Shr, Range, Size, OverflowBit, Top;
    if ResultOf(t).Some? {
      AddOverflowTop(t.ArgL(), t.ArgR(), ResultOf(t).value, t.width);
      SubOverflowTop(t.ArgL(), t.ArgR(), ResultOf(t).value, t.width);
    }
  }

  /** The bits of the status word are the flags, and all others are clear. */
  lemma NzcvBits(t: ArmThunk, i: nat)
    requires t.Valid() && FlagsNzcv(t).Some? && i < Size(WordWidth(t.isa))
    ensures BitOf(FlagsNzcv(t).value, i) ==
      if i == 31 then FlagN(t).value else if i == 30 then FlagZ(t).value
      else if i == 29 then FlagC(t).value else if i == 28 then FlagV(t).value else 0
  {
    hide FlagN, FlagZ, FlagC, FlagV, Shl, BitOf, Word, Size;
    FlagsAreBits(t);
    var w := WordWidth(t.isa);
    var n, z, c, v := FlagN(t).value, FlagZ(t).value, FlagC(t).value, FlagV(t).value;
    ZeroBits(i);
    OneBit(n, 31, i);
    OneBit(z, 30, i);
    OneBit(c, 29, i);
    OneBit(v, 28, i);
    var w1 := Or(0, Shl(n, 31), w);
    var w2 := Or(w1, Shl(z, 30), w);
    var w3 := Or(w2, Shl(c, 29), w);
    WordBit(OrOp, 0, Shl(n, 31), Size(w), i);
    WordBit(OrOp, w1, Shl(z, 30), Size(w), i);
    WordBit(OrOp, w2, Shl(c, 29), Size(w), i);
    WordBit(OrOp, w3, Shl(v, 28), Size(w), i);
  }

  lemma NzcvFits(t: ArmThunk)
    requires FlagsNzcv(t).Some?
    ensures FlagsNzcv(t).value < Range(WordWidth(t.isa))
  {
    hide FlagN, FlagZ, FlagC, FlagV, Shl, Word, Range;
    var n, z, c, v, w := FlagN(t).value, FlagZ(t).value, FlagC(t).value, FlagV(t).value, WordWidth(t.isa);
    WordTop(OrOp, Or(Or(Or(0, Shl(n, 31), w), Shl(z, 30), w), Shl(c, 29), w), Shl(v, 28), w);
  }

  /** The thunk that holds a status word. */
  function Copied(t: ArmThunk, nzcv: Wide): ArmThunk {
    ArmThunk(t.isa, Copy, t.width, nzcv, 0, 0)
  }

  /** Computing the status word and reading the flags back from it changes no flag and no condition. */
  lemma CopyKeepsFlags(t: ArmThunk, code: nat)
    requires t.Valid() && FlagsNzcv(t).Some?
    ensures FlagsNzcv(t).value < Range(WordWidth(t.isa))
    ensures var u := Copied(t, FlagsNzcv(t).value);
      && FlagN(u) == FlagN(t) && FlagZ(u) == FlagZ(t) && FlagC(u) == FlagC(t) && FlagV(u) == FlagV(t)
      && Condition(code, u) == Condition(code, t)
  {
    hide BitOf, Shl, Word;
    NzcvFits(t);
    assert Size(WordWidth(t.isa)) >= 32;
    NzcvBits(t, 31);
    NzcvBits(t, 30);
    NzcvBits(t, 29);
    NzcvBits(t, 28);
  }
}
