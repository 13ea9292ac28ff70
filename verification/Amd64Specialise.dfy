/** The specialiser of amd64 flag helpers: calls become shorter expressions of the same value. */
module Amd64Specialise {
  import opened Wrappers
  import opened Bits
  import opened Amd64Flags
  import opened Words

  /** Expressions over 64-bit words. A comparison at a width cuts nothing itself: its operands are narrowed first. */
  datatype Expr =
    | Atom(id: nat)
    | Const(n: Wide)
    | Add64(a: Expr, b: Expr)
    | Sub64(a: Expr, b: Expr)
    | Bitwise(op: BitOp, a: Expr, b: Expr)
    | Not64(a: Expr)
    | Shr64(a: Expr, count: nat)
    | Shl64(a: Expr, count: nat)
    | Narrow(width: Width, a: Expr)
    | Test(compare: Compare, width: Width, a: Expr, b: Expr)

  function Eval(e: Expr, env: nat -> Wide): Wide {
    match e
    case Atom(id) => env(id)
    case Const(n) => n
    case Add64(a, b) => (Eval(a, env) + Eval(b, env)) % TWO_64
    case Sub64(a, b) => (Eval(a, env) - Eval(b, env)) % TWO_64
    case Bitwise(op, a, b) => WordOf(op, Eval(a, env), Eval(b, env))
    case Not64(a) => TWO_64 - 1 - Eval(a, env)
    case Shr64(a, count) => Shifted(Eval(a, env), count)
    case Shl64(a, count) => Shl(Eval(a, env), count) % TWO_64
    case Narrow(w, a) => (CutBelow(Eval(a, env), w); Cut(Eval(a, env), w))
    case Test(c, w, a, b) => if Compares(c, w, Eval(a, env), Eval(b, env)) then 1 else 0
  }

  lemma CutBelow(x: int, w: Width)
    ensures Cut(x, w) < TWO_64
  {
  }

  function Shifted(x: Wide, count: nat): Wide {
    ShrShrinks(x, count);
    Shr(x, count)
  }

  function WordOf(op: BitOp, x: Wide, y: Wide): Wide {
    WordFits(op, x, y, 64);
    SixtyFour();
    Word(op, x, y, 64)
  }

  // ---------- The specialiser ----------

  function Xor1(e: Expr): Expr {
    Bitwise(XorOp, e, Const(1))
  }

  /** One bit of an expression. */
  function BitAt(e: Expr, k: nat): Expr {
    Bitwise(AndOp, Shr64(e, k), Const(1))
  }

  /** The bits in which the operand differs from both others. */
  function SubOverflow(dep1: Expr, dep2: Expr): Expr {
    Bitwise(AndOp, Bitwise(XorOp, dep1, dep2), Bitwise(XorOp, dep1, Sub64(dep1, dep2)))
  }

  function AddOverflow(dep1: Expr, dep2: Expr): Expr {
    Bitwise(AndOp, Not64(Bitwise(XorOp, dep1, dep2)), Bitwise(XorOp, dep1, Add64(dep1, dep2)))
  }

  function Masked(e: Expr, mask: Wide): Expr {
    Bitwise(AndOp, e, Const(mask))
  }

  /** The comparison a condition stands for after a subtraction. */
  function Comparison(cond: Cond, w: Width, a: Expr, b: Expr): Option<Expr> {
    match cond
    case CB => Some(Test(LTU, w, a, b))
    case NB => Some(Test(LEU, w, b, a))
    case Z => Some(Test(EQ, w, a, b))
    case NZ => Some(Test(NE, w, a, b))
    case BE => Some(Test(LEU, w, a, b))
    case NBE => Some(Test(LTU, w, b, a))
    case CL => Some(Test(LTS, w, a, b))
    case NL => Some(Test(LES, w, b, a))
    case LE => Some(Test(LES, w, a, b))
    case NLE => Some(Test(LTS, w, b, a))
    case _ => None
  }

  function SpecialiseSubQ(cond: Cond, dep1: Expr, dep2: Expr): Option<Expr> {
    match cond
    case O => Some(Shr64(SubOverflow(dep1, dep2), 64))
    case NBE => Some(Xor1(Test(LEU, Q, dep1, dep2)))
    case S => Some(Shr64(Sub64(dep1, dep2), 63))
    case NS => Some(Xor1(Shr64(Sub64(dep1, dep2), 63)))
    case _ => Comparison(cond, Q, dep1, dep2)
  }

  function SpecialiseSubL(cond: Cond, dep1: Expr, dep2: Expr): Option<Expr> {
    match cond
    case O => Some(BitAt(SubOverflow(dep1, dep2), 31))
    case S => Some(BitAt(Sub64(dep1, dep2), 31))
    case NS => Some(Xor1(BitAt(Sub64(dep1, dep2), 31)))
    case _ => Comparison(cond, L, Narrow(L, dep1), Narrow(L, dep2))
  }

  function SpecialiseSubW(cond: Cond, dep1: Expr, dep2: Expr): Option<Expr> {
    match cond
    case Z => Some(Test(EQ, W, Narrow(W, dep1), Narrow(W, dep2)))
    case NZ => Some(Test(NE, W, Narrow(W, dep1), Narrow(W, dep2)))
    case BE => Some(Test(LEU, Q, Shl64(dep1, 48), Shl64(dep2, 48)))
    case LE => Some(Test(LES, Q, Shl64(dep1, 48), Shl64(dep2, 48)))
    case _ => None
  }

  /** The sign conditions are specialised for a comparison with zero only. */
  function SpecialiseSubB(cond: Cond, dep1: Expr, dep2: Expr): Option<Expr> {
    match cond
    case CB => Some(Test(LTU, Q, Masked(dep1, 0xFF), Masked(dep2, 0xFF)))
    case NB => Some(Test(LEU, Q, Masked(dep2, 0xFF), Masked(dep1, 0xFF)))
    case Z => Some(Test(EQ, B, Narrow(B, dep1), Narrow(B, dep2)))
    case NZ => Some(Test(NE, B, Narrow(B, dep1), Narrow(B, dep2)))
    case BE => Some(Test(LEU, Q, Masked(dep1, 0xFF), Masked(dep2, 0xFF)))
    case S => if dep2 == Const(0) then Some(BitAt(dep1, 7)) else None
    case NS => if dep2 == Const(0) then Some(Xor1(BitAt(dep1, 7))) else None
    case _ => None
  }

  function SpecialiseLogic(cond: Cond, w: Width, dep1: Expr): Option<Expr> {
    match (w, cond)
    case (Q, Z) => Some(Test(EQ, Q, dep1, Const(0)))
    case (Q, NZ) => Some(Test(NE, Q, dep1, Const(0)))
    case (Q, CL) => Some(Test(LTS, Q, dep1, Const(0)))
    case (L, Z) => Some(Test(EQ, L, Narrow(L, dep1), Const(0)))
    case (L, NZ) => Some(Test(NE, L, Narrow(L, dep1), Const(0)))
    case (L, LE) => Some(Test(LES, L, Narrow(L, dep1), Const(0)))
    case (L, S) => Some(BitAt(dep1, 31))
    case (L, NS) => Some(Xor1(BitAt(dep1, 31)))
    case (W, Z) => Some(Test(EQ, Q, Masked(dep1, 0xFFFF), Const(0)))
    case (W, NZ) => Some(Test(NE, Q, Masked(dep1, 0xFFFF), Const(0)))
    case (B, Z) => Some(Test(EQ, Q, Masked(dep1, 0xFF), Const(0)))
    case (B, NZ) => Some(Test(NE, Q, Masked(dep1, 0xFF), Const(0)))
    case (B, S) => Some(BitAt(dep1, 7))
    case (B, NS) => Some(Xor1(BitAt(dep1, 7)))
    case _ => None
  }

  function SpecialiseStep(cond: Cond, op: Op, w: Width, dep1: Expr): Option<Expr> {
    match (op, w, cond)
    case (INC, B, LE) => Some(BitAt(Sub64(dep1, Const(1)), 7))
    case (INC, W, Z) => Some(Test(EQ, Q, Shl64(dep1, 48), Const(0)))
    case (DEC, L, Z) => Some(Test(EQ, L, Narrow(L, dep1), Const(0)))
    case (DEC, W, NZ) => Some(Test(NE, Q, Shl64(dep1, 48), Const(0)))
    case _ => None
  }

  function SpecialiseCopy(cond: Cond, dep1: Expr): Option<Expr> {
    match cond
    case BE => Some(Test(EQ, Q, CarryOrZero(dep1), Const(1)))
    case NBE => Some(Test(EQ, Q, CarryOrZero(dep1), Const(0)))
    case CB => Some(Test(NE, Q, BitAt(dep1, 0), Const(0)))
    case Z => Some(Test(EQ, Q, BitAt(dep1, 6), Const(1)))
    case NZ => Some(Test(EQ, Q, BitAt(dep1, 6), Const(0)))
    case P => Some(Test(NE, Q, BitAt(dep1, 2), Const(0)))
    case _ => None
  }

  function SpecialiseAdd(cond: Cond, w: Width, dep1: Expr, dep2: Expr): Option<Expr> {
    match (w, cond)
    case (Q, Z) => Some(Test(EQ, Q, Add64(dep1, dep2), Const(0)))
    case (L, O) => Some(BitAt(AddOverflow(dep1, dep2), 31))
    case _ => None
  }

  /** The condition helper specialised; the operation and the condition are known, the operands are expressions. */
  function SpecialiseCondition(cond: Cond, op: Op, w: Width, dep1: Expr, dep2: Expr): Option<Expr> {
    match op
    case ADD => SpecialiseAdd(cond, w, dep1, dep2)
    case SUB =>
      (match w
       case Q => SpecialiseSubQ(cond, dep1, dep2)
       case L => SpecialiseSubL(cond, dep1, dep2)
       case W => SpecialiseSubW(cond, dep1, dep2)
       case B => SpecialiseSubB(cond, dep1, dep2))
    case LOGIC => SpecialiseLogic(cond, w, dep1)
    case INC => SpecialiseStep(cond, INC, w, dep1)
    case DEC => SpecialiseStep(cond, DEC, w, dep1)
    case COPY => SpecialiseCopy(cond, dep1)
    case _ => None
  }

  function CarryOrZero(dep1: Expr): Expr {
    Bitwise(AndOp, Bitwise(OrOp, Shr64(dep1, 0), Shr64(dep1, 6)), Const(1))
  }

  /** The carry helper specialised. */
  function SpecialiseCarry(op: Op, w: Width, dep1: Expr, dep2: Expr, ndep: Expr): Option<Expr> {
    match (op, w)
    case (SUB, Q) => Some(Test(LTU, Q, dep1, dep2))
    case (SUB, L) => Some(Test(LTU, L, Narrow(L, dep1), Narrow(L, dep2)))
    case (SUB, B) => Some(Test(LTU, Q, Masked(dep1, 0xFF), Masked(dep2, 0xFF)))
    case (LOGIC, _) => Some(Const(0))
    case (INC, L) => Some(ndep)
    case (INC, Q) => Some(ndep)
    case (DEC, L) => Some(ndep)
    case (DEC, Q) => Some(ndep)
    case _ => None
  }

  // ---------- Bits and ranges ----------

  lemma MaskedIsCut(x: Wide, w: Width)
    requires w != Q
    ensures WordOf(AndOp, x, Range(w) - 1) == Cut(x, w)
  {
    MaskKeeps(x, Size(w), 64);
    ShlSize(1, w);
    LowBitsAreCut(x, w);
    hide Shl, LowBits, Word;
  }

  lemma AndOne(x: Wide)
    ensures WordOf(AndOp, x, 1) == x % 2
  {
    MaskKeeps(x, 1, 64);
    assert LowBits(x, 1) == x % 2;
    assert Shl(1, 1) == 2;
    hide Word, LowBits;
  }

  lemma XorOneNegates(x: Wide)
    requires x < 2
    ensures WordOf(XorOp, x, 1) == 1 - x
  {
    NoXor(63);
    assert Word(XorOp, x, 1, 64) == Combine(XorOp, x, 1) + 2 * Word(XorOp, 0, 0, 63);
  }

  lemma BitAtIs(e: Expr, k: nat, env: nat -> Wide)
    ensures Eval(BitAt(e, k), env) == BitOf(Eval(e, env), k)
    ensures Eval(Xor1(BitAt(e, k)), env) == 1 - BitOf(Eval(e, env), k)
  {
    AndOne(Shifted(Eval(e, env), k));
    XorOneNegates(BitOf(Eval(e, env), k));
    hide WordOf;
  }

  // ---------- The expressions have the helper's value ----------

  function ThunkOf(op: Op, w: Width, dep1: Expr, dep2: Expr, env: nat -> Wide, ndep: Wide): Thunk {
    Thunk(op, w, Eval(dep1, env), Eval(dep2, env), ndep)
  }

  ghost predicate Means(e: Option<Expr>, env: nat -> Wide, value: int) {
    e.Some? ==> Eval(e.value, env) == value
  }

  /** Narrowing changes neither what is cut nor the sign; 64-bit words are cut already. */
  lemma CutAgain(x: Wide, w: Width)
    ensures Cut(Cut(x, w), w) == Cut(x, w) && Signed(Cut(x, w), w) == Signed(x, w) && (w == Q ==> Cut(x, w) == x)
  {
    CutNear(Cut(x, w), w);
    if w == Q { CutNear(x, Q); }
    hide Cut, Half;
  }

  /** The highest bit of a 64-bit word is all that is left of it after 63 shifts. */
  lemma ShrTop(x: Wide)
    ensures Shr(x, 63) == BitOf(x, 63)
  {
    SixtyFour();
    ShrKeeps(x, 63);
    if Shr(x, 63) >= 2 {
      ShlOrder(2, Shr(x, 63), 63);
      ShlDouble(1, 63);
    }
    hide Shl, Shr;
  }

  /** Moving a 16-bit operand to the top of a word keeps its order, signed and unsigned. */
  lemma TopSixteen(x: Wide)
    ensures var v := Shl(x, 48) % TWO_64;
      v == 0x1_0000_0000_0000 * Cut(x, W) && Signed(v, Q) == 0x1_0000_0000_0000 * Signed(x, W)
  {
    hide Shl;
    var q := CutParts(x, W);
    ShlFortyEight(x);
    DivisionIs(0x1_0000_0000_0000 * x, TWO_64, q, 0x1_0000_0000_0000 * Cut(x, W));
  }

  lemma ShlFortyEight(x: int)
    ensures Shl(x, 48) == 0x1_0000_0000_0000 * x
  {
    ShlSixteen(x);
    ShlTwice(x, 16, 32);
    ShlThirtyTwo(0x1_0000 * x);
  }

  /** Comparing operands whose values are cut to the width is the condition. */
  lemma ComparisonMeans(cond: Cond, w: Width, a: Expr, b: Expr, env: nat -> Wide, t: Thunk)
    requires t.op == SUB && t.width == w && Eval(a, env) == Cut(t.dep1, w) && Eval(b, env) == Cut(t.dep2, w)
    ensures Means(Comparison(cond, w, a, b), env, Condition(cond, t))
  {
    hide FlagsOf, Holds, Signed, Cut, Range;
    ConditionsAfterSub(t);
    CutAgain(t.dep1, w);
    CutAgain(t.dep2, w);
    match cond
    case CB => assert Eval(Test(LTU, w, a, b), env) == Condition(cond, t);
    case NB => assert Eval(Test(LEU, w, b, a), env) == Condition(cond, t);
    case Z => assert Eval(Test(EQ, w, a, b), env) == Condition(cond, t);
    case NZ => assert Eval(Test(NE, w, a, b), env) == Condition(cond, t);
    case BE => assert Eval(Test(LEU, w, a, b), env) == Condition(cond, t);
    case NBE => assert Eval(Test(LTU, w, b, a), env) == Condition(cond, t);
    case CL => assert Eval(Test(LTS, w, a, b), env) == Condition(cond, t);
    case NL => assert Eval(Test(LES, w, b, a), env) == Condition(cond, t);
    case LE => assert Eval(Test(LES, w, a, b), env) == Condition(cond, t);
    case NLE => assert Eval(Test(LTS, w, b, a), env) == Condition(cond, t);
    case _ =>
  }

  /** The sign bit of a difference of 64-bit words at a width. */
  lemma SubBit(dep1: Expr, dep2: Expr, w: Width, env: nat -> Wide)
    ensures BitOf(Eval(Sub64(dep1, dep2), env), Size(w) - 1)
         == if Top(Eval(dep1, env) - Eval(dep2, env), w) then 1 else 0
  {
    TopIsBit(Eval(Sub64(dep1, dep2), env), w);
    SumFlags(Eval(dep1, env) - Eval(dep2, env), w);
    hide Shr, Range, Half;
  }

  lemma SubQMeans(cond: Cond, dep1: Expr, dep2: Expr, env: nat -> Wide, t: Thunk)
    requires cond != O && t.op == SUB && t.width == Q && t.dep1 == Eval(dep1, env) && t.dep2 == Eval(dep2, env)
    ensures Means(SpecialiseSubQ(cond, dep1, dep2), env, Condition(cond, t))
  {
    hide FlagsOf, Holds, Signed, Cut, Range, Comparison, Shr, WordOf;
    CutAgain(t.dep1, Q);
    CutAgain(t.dep2, Q);
    ConditionsAfterSub(t);
    match cond
    case NBE =>
      XorOneNegates(Eval(Test(LEU, Q, dep1, dep2), env));
      assert Eval(Xor1(Test(LEU, Q, dep1, dep2)), env) == Condition(cond, t);
    case S =>
      SignAt63(dep1, dep2, env);
    case NS =>
      SignAt63(dep1, dep2, env);
    case _ =>
      ComparisonMeans(cond, Q, dep1, dep2, env, t);
  }

  lemma SignAt63(dep1: Expr, dep2: Expr, env: nat -> Wide)
    ensures var top := if Top(Eval(dep1, env) - Eval(dep2, env), Q) then 1 else 0;
      Eval(Shr64(Sub64(dep1, dep2), 63), env) == top && Eval(Xor1(Shr64(Sub64(dep1, dep2), 63)), env) == 1 - top
  {
    hide Shr, WordOf, Top;
    var e := Shr64(Sub64(dep1, dep2), 63);
    SubBit(dep1, dep2, Q, env);
    ShrTop(Eval(Sub64(dep1, dep2), env));
    XorOneNegates(Eval(e, env));
  }

  lemma SubLMeans(cond: Cond, dep1: Expr, dep2: Expr, env: nat -> Wide, t: Thunk)
    requires cond != O && t.op == SUB && t.width == L && t.dep1 == Eval(dep1, env) && t.dep2 == Eval(dep2, env)
    ensures Means(SpecialiseSubL(cond, dep1, dep2), env, Condition(cond, t))
  {
    hide FlagsOf, Holds, Signed, Cut, Range, Comparison, Shr, WordOf, BitAt;
    ComparisonMeans(cond, L, Narrow(L, dep1), Narrow(L, dep2), env, t);
    ConditionsAfterSub(t);
    SubBit(dep1, dep2, L, env);
    BitAtIs(Sub64(dep1, dep2), 31, env);
  }

  lemma SubWMeans(cond: Cond, dep1: Expr, dep2: Expr, env: nat -> Wide, t: Thunk)
    requires t.op == SUB && t.width == W && t.dep1 == Eval(dep1, env) && t.dep2 == Eval(dep2, env)
    ensures Means(SpecialiseSubW(cond, dep1, dep2), env, Condition(cond, t))
  {
    hide FlagsOf, Holds, Signed, Cut, Shl;
    ConditionsAfterSub(t);
    TopSixteen(t.dep1);
    TopSixteen(t.dep2);
    match cond
    case Z => assert Eval(Test(EQ, W, Narrow(W, dep1), Narrow(W, dep2)), env) == Condition(cond, t);
    case NZ => assert Eval(Test(NE, W, Narrow(W, dep1), Narrow(W, dep2)), env) == Condition(cond, t);
    case BE => assert Eval(Test(LEU, Q, Shl64(dep1, 48), Shl64(dep2, 48)), env) == Condition(cond, t);
    case LE => assert Eval(Test(LES, Q, Shl64(dep1, 48), Shl64(dep2, 48)), env) == Condition(cond, t);
    case _ =>
  }

  lemma MaskedMeans(e: Expr, w: Width, env: nat -> Wide)
    requires w != Q
    ensures Range(w) - 1 < TWO_64 && Eval(Masked(e, Range(w) - 1), env) == Cut(Eval(e, env), w)
  {
    MaskedIsCut(Eval(e, env), w);
    hide WordOf, Cut;
  }

  lemma SubBMeans(cond: Cond, dep1: Expr, dep2: Expr, env: nat -> Wide, t: Thunk)
    requires t.op == SUB && t.width == B && t.dep1 == Eval(dep1, env) && t.dep2 == Eval(dep2, env)
    ensures Means(SpecialiseSubB(cond, dep1, dep2), env, Condition(cond, t))
  {
    hide FlagsOf, Holds, WordOf, Signed, Cut, Top, Shr, BitAt, Masked;
    ConditionsAfterSub(t);
    MaskedMeans(dep1, B, env);
    MaskedMeans(dep2, B, env);
    match cond
    case CB => assert Eval(Test(LTU, Q, Masked(dep1, 0xFF), Masked(dep2, 0xFF)), env) == Condition(cond, t);
    case NB => assert Eval(Test(LEU, Q, Masked(dep2, 0xFF), Masked(dep1, 0xFF)), env) == Condition(cond, t);
    case Z => assert Eval(Test(EQ, B, Narrow(B, dep1), Narrow(B, dep2)), env) == Condition(cond, t);
    case NZ => assert Eval(Test(NE, B, Narrow(B, dep1), Narrow(B, dep2)), env) == Condition(cond, t);
    case BE => assert Eval(Test(LEU, Q, Masked(dep1, 0xFF), Masked(dep2, 0xFF)), env) == Condition(cond, t);
    case _ =>
      TopIsBit(t.dep1, B);
      BitAtIs(dep1, 7, env);
  }

  // ---------- Additions, logic, steps and copies ----------

  /** The mixed bits of a difference hold the overflow at the width's highest place. */
  lemma SubOverflowBit(dep1: Expr, dep2: Expr, w: Width, env: nat -> Wide, ndep: Wide)
    ensures BitOf(Eval(SubOverflow(dep1, dep2), env), Size(w) - 1)
        == Condition(O, ThunkOf(SUB, w, dep1, dep2, env, ndep))
  {
    hide Top, Cut, Range, Shr, Parity, Bit, Word;
    var x, y, i := Eval(dep1, env), Eval(dep2, env), Size(w) - 1;
    var d := Eval(Sub64(dep1, dep2), env);
    TopIsBit(x, w);
    TopIsBit(y, w);
    TopIsBit(d, w);
    WordBit(XorOp, x, y, 64, i);
    WordBit(XorOp, x, d, 64, i);
    WordBit(AndOp, WordOf(XorOp, x, y), WordOf(XorOp, x, d), 64, i);
  }

  lemma AddOverflowBit(dep1: Expr, dep2: Expr, w: Width, env: nat -> Wide, ndep: Wide)
    ensures BitOf(Eval(AddOverflow(dep1, dep2), env), Size(w) - 1)
        == Condition(O, ThunkOf(ADD, w, dep1, dep2, env, ndep))
  {
    hide Top, Cut, Range, Shl, Shr, Parity, Bit, Word;
    var x, y, i := Eval(dep1, env), Eval(dep2, env), Size(w) - 1;
    var d := Eval(Add64(dep1, dep2), env);
    TopIsBit(x, w);
    TopIsBit(y, w);
    TopIsBit(d, w);
    WordBit(XorOp, x, y, 64, i);
    WordBit(XorOp, x, d, 64, i);
    SixtyFour();
    NotBit(WordOf(XorOp, x, y), 64, i);
    var differ := Bitwise(XorOp, dep1, dep2);
    assert Eval(Not64(differ), env) == TWO_64 - 1 - WordOf(XorOp, x, y) by {
      assert Eval(differ, env) == WordOf(XorOp, x, y);
    }
    assert Eval(Bitwise(XorOp, dep1, Add64(dep1, dep2)), env) == WordOf(XorOp, x, d);
    WordBit(AndOp, TWO_64 - 1 - WordOf(XorOp, x, y), WordOf(XorOp, x, d), 64, i);
  }

  lemma AddMeans(cond: Cond, w: Width, dep1: Expr, dep2: Expr, env: nat -> Wide, ndep: Wide)
    ensures Means(SpecialiseAdd(cond, w, dep1, dep2), env, Condition(cond, ThunkOf(ADD, w, dep1, dep2, env, ndep)))
  {
    hide FlagsOf, BitAt, Shr, AddOverflow, Word, WordOf;
    match (w, cond)
    case (Q, Z) =>
      var x, y := Eval(dep1, env), Eval(dep2, env);
      AddFlags(ThunkOf(ADD, w, dep1, dep2, env, ndep), y);
      assert Cut(x + y + 0, Q) == (x + y) % TWO_64 == Eval(Add64(dep1, dep2), env);
      assert Eval(Test(EQ, Q, Add64(dep1, dep2), Const(0)), env)
          == Condition(cond, ThunkOf(ADD, w, dep1, dep2, env, ndep));
    case (L, O) =>
      AddOverflowBit(dep1, dep2, L, env, ndep);
      BitAtIs(AddOverflow(dep1, dep2), 31, env);
    case _ =>
  }

  lemma LogicFlags(t: Thunk)
    requires t.op == LOGIC
    ensures FlagsOf(t).z == (Cut(t.dep1, t.width) == 0) && FlagsOf(t).s == Top(t.dep1, t.width) && !FlagsOf(t).o
    ensures !FlagsOf(t).c
  {
    hide Parity, Cut, Top;
  }

  lemma LogicSign(w: Width, dep1: Expr, env: nat -> Wide, t: Thunk)
    requires t.op == LOGIC && t.width == w && t.dep1 == Eval(dep1, env)
    ensures Eval(BitAt(dep1, Size(w) - 1), env) == Condition(S, t)
    ensures Eval(Xor1(BitAt(dep1, Size(w) - 1)), env) == Condition(NS, t)
  {
    hide FlagsOf, BitAt, Shr, Top;
    LogicFlags(t);
    TopIsBit(t.dep1, w);
    BitAtIs(dep1, Size(w) - 1, env);
  }

  lemma LogicCompare(w: Width, dep1: Expr, e: Expr, env: nat -> Wide, t: Thunk)
    requires t.op == LOGIC && t.width == w && t.dep1 == Eval(dep1, env) && Eval(e, env) == Cut(t.dep1, w)
    ensures Eval(Test(EQ, w, e, Const(0)), env) == Condition(Z, t)
    ensures Eval(Test(NE, w, e, Const(0)), env) == Condition(NZ, t)
    ensures Eval(Test(LTS, w, e, Const(0)), env) == Condition(CL, t)
    ensures Eval(Test(LES, w, e, Const(0)), env) == Condition(LE, t)
    ensures Eval(Test(EQ, Q, e, Const(0)), env) == Condition(Z, t)
    ensures Eval(Test(NE, Q, e, Const(0)), env) == Condition(NZ, t)
  {
    hide FlagsOf, Cut, Top, Signed;
    LogicFlags(t);
    SignedParts(t.dep1, w);
    CutAgain(t.dep1, w);
    ZeroSigned(w);
    SignedIsCut(t.dep1, 0, w);
  }

  lemma NarrowIsCut(e: Expr, w: Width, env: nat -> Wide)
    ensures Eval(Narrow(w, e), env) == Cut(Eval(e, env), w)
  {
  }

  lemma LogicMeans(cond: Cond, w: Width, dep1: Expr, dep2: Expr, env: nat -> Wide, ndep: Wide)
    ensures Means(SpecialiseLogic(cond, w, dep1), env, Condition(cond, ThunkOf(LOGIC, w, dep1, dep2, env, ndep)))
  {
    hide FlagsOf, BitAt, Masked, Cut, Condition, Eval;
    var t := ThunkOf(LOGIC, w, dep1, dep2, env, ndep);
    LogicSign(w, dep1, env, t);
    match w
    case Q =>
      CutAgain(t.dep1, Q);
      LogicCompare(Q, dep1, dep1, env, t);
    case L =>
      NarrowIsCut(dep1, L, env);
      LogicCompare(L, dep1, Narrow(L, dep1), env, t);
    case _ =>
      MaskedMeans(dep1, w, env);
      LogicCompare(w, dep1, Masked(dep1, Range(w) - 1), env, t);
  }

  lemma ZeroSigned(w: Width)
    ensures Signed(0, w) == 0 && Cut(0, w) == 0
  {
  }

  /** Nothing is left at the top of a word exactly if the 16-bit operand is zero. */
  lemma TopZero(e: Expr, env: nat -> Wide)
    ensures Eval(Shl64(e, 48), env) == 0 <==> Cut(Eval(e, env), W) == 0
  {
    hide Shl, Cut;
    TopSixteen(Eval(e, env));
  }

  lemma IncrementMeans(dep1: Expr, t: Thunk, env: nat -> Wide)
    requires t.op == INC && t.width == B && t.dep1 == Eval(dep1, env)
    ensures Eval(BitAt(Sub64(dep1, Const(1)), 7), env) == Condition(LE, t)
  {
    hide FlagsOf, Holds, BitAt, Shr, Top;
    AfterIncrement(t);
    SubBit(dep1, Const(1), B, env);
    BitAtIs(Sub64(dep1, Const(1)), 7, env);
  }

  lemma StepMeans(cond: Cond, op: Op, w: Width, dep1: Expr, dep2: Expr, env: nat -> Wide, ndep: Wide)
    requires op == INC || op == DEC
    ensures Means(SpecialiseStep(cond, op, w, dep1), env, Condition(cond, ThunkOf(op, w, dep1, dep2, env, ndep)))
  {
    hide FlagsOf, BitAt, Shl, Shr, Cut, Signed, Range;
    var t := ThunkOf(op, w, dep1, dep2, env, ndep);
    StepFlags(t);
    match (op, w, cond)
    case (INC, B, LE) =>
      IncrementMeans(dep1, t, env);
    case (INC, W, Z) =>
      TopZero(dep1, env);
      assert Eval(Test(EQ, Q, Shl64(dep1, 48), Const(0)), env) == Condition(cond, t);
    case (DEC, W, NZ) =>
      TopZero(dep1, env);
      assert Eval(Test(NE, Q, Shl64(dep1, 48), Const(0)), env) == Condition(cond, t);
    case (DEC, L, Z) =>
      assert Eval(Test(EQ, L, Narrow(L, dep1), Const(0)), env) == Condition(cond, t);
    case _ =>
  }

  /** The result of an increment is at most zero exactly if what was incremented is negative. */
  lemma AfterIncrement(t: Thunk)
    requires t.op == INC
    ensures Holds(LE, FlagsOf(t)) == Top(t.dep1 - 1, t.width)
  {
    hide Parity, Bit, Range, Half, Cut;
    CutOfSum(t.dep1, 1, 0, t.width);
    StepCut(t.dep1, t.width);
    CutNear(Cut(t.dep1, t.width) - 1, t.width);
  }

  lemma ShrSixteen(h: nat)
    ensures Shr(h, 4) == h / 16
  {
    assert Shr(h, 4) == Shr(h / 2, 3) == Shr(h / 2 / 2, 2) == Shr(h / 2 / 2 / 2, 1) == Shr(h / 2 / 2 / 2 / 2, 0);
  }

  lemma CopiedBits(x: Wide)
    ensures Bit(x, 1) == (BitOf(x, 0) == 1) && Bit(x, 4) == (BitOf(x, 2) == 1) && Bit(x, 64) == (BitOf(x, 6) == 1)
  {
    var h := x / 2 / 2;
    assert Shr(x, 2) == Shr(x / 2, 1) == Shr(h, 0) == h;
    assert Shr(x, 6) == Shr(x / 2, 5) == Shr(h, 4) == h / 16 by { ShrSixteen(h); }
  }

  lemma CarryOrZeroIs(dep1: Expr, env: nat -> Wide)
    ensures Eval(CarryOrZero(dep1), env) == Combine(OrOp, BitOf(Eval(dep1, env), 0), BitOf(Eval(dep1, env), 6))
  {
    hide Word;
    var x := Eval(dep1, env);
    var either := Bitwise(OrOp, Shr64(dep1, 0), Shr64(dep1, 6));
    WordBit(OrOp, Shifted(x, 0), Shifted(x, 6), 64, 0);
    AndOne(WordOf(OrOp, Shifted(x, 0), Shifted(x, 6)));
    assert Eval(either, env) == WordOf(OrOp, Shifted(x, 0), Shifted(x, 6)) by {
      assert Eval(Shr64(dep1, 0), env) == Shifted(x, 0) && Eval(Shr64(dep1, 6), env) == Shifted(x, 6);
    }
  }

  lemma CopyMeans(cond: Cond, w: Width, dep1: Expr, dep2: Expr, env: nat -> Wide, ndep: Wide)
    ensures Means(SpecialiseCopy(cond, dep1), env, Condition(cond, ThunkOf(COPY, w, dep1, dep2, env, ndep)))
  {
    hide BitAt, Shr, WordOf, CarryOrZero, Bit;
    CopiedBits(Eval(dep1, env));
    CarryOrZeroIs(dep1, env);
    BitAtIs(dep1, 0, env);
    BitAtIs(dep1, 2, env);
    BitAtIs(dep1, 6, env);
    var t := ThunkOf(COPY, w, dep1, dep2, env, ndep);
    match cond
    case BE => assert Eval(Test(EQ, Q, CarryOrZero(dep1), Const(1)), env) == Condition(cond, t);
    case NBE => assert Eval(Test(EQ, Q, CarryOrZero(dep1), Const(0)), env) == Condition(cond, t);
    case CB => assert Eval(Test(NE, Q, BitAt(dep1, 0), Const(0)), env) == Condition(cond, t);
    case Z => assert Eval(Test(EQ, Q, BitAt(dep1, 6), Const(1)), env) == Condition(cond, t);
    case NZ => assert Eval(Test(EQ, Q, BitAt(dep1, 6), Const(0)), env) == Condition(cond, t);
    case P => assert Eval(Test(NE, Q, BitAt(dep1, 2), Const(0)), env) == Condition(cond, t);
    case _ =>
  }

  // ---------- The main results ----------

  /** The one entry whose shift count is too large: it yields zero whatever the operands are. */
  predicate ShiftsOut(cond: Cond, op: Op, w: Width) {
    op == SUB && w == Q && cond == O
  }

  lemma {:induction false} NothingLeft(x: nat, n: nat)
    requires x < Shl(1, n)
    ensures Shr(x, n) == 0
  {
    if n > 0 { NothingLeft(x / 2, n - 1); }
  }

  lemma ShiftedOut(dep1: Expr, dep2: Expr, env: nat -> Wide)
    ensures Eval(Shr64(SubOverflow(dep1, dep2), 64), env) == 0
  {
    SixtyFour();
    NothingLeft(Eval(SubOverflow(dep1, dep2), env), 64);
    hide Shl, Shr;
  }

  lemma SubMeans(cond: Cond, w: Width, dep1: Expr, dep2: Expr, env: nat -> Wide, ndep: Wide)
    requires !ShiftsOut(cond, SUB, w)
    ensures Means(SpecialiseCondition(cond, SUB, w, dep1, dep2), env,
                  Condition(cond, ThunkOf(SUB, w, dep1, dep2, env, ndep)))
  {
    hide FlagsOf, BitAt, Shr, SubOverflow, SpecialiseSubQ, SpecialiseSubW, SpecialiseSubB, Comparison, WordOf, Word;
    var t := ThunkOf(SUB, w, dep1, dep2, env, ndep);
    match w
    case Q => SubQMeans(cond, dep1, dep2, env, t);
    case W => SubWMeans(cond, dep1, dep2, env, t);
    case B => SubBMeans(cond, dep1, dep2, env, t);
    case L =>
      if cond == O {
        SubOverflowBit(dep1, dep2, L, env, ndep);
        BitAtIs(SubOverflow(dep1, dep2), 31, env);
      } else {
        hide SpecialiseSubL;
        SubLMeans(cond, dep1, dep2, env, t);
      }
  }

  /**
   * What the specialiser returns has the helper's value, whatever the operands, their values, the operation
   * and the condition - except for the overflow of a 64-bit subtraction, which is right exactly if there is none.
   */
  lemma SpecialisedCondition(cond: Cond, op: Op, w: Width, dep1: Expr, dep2: Expr, env: nat -> Wide, ndep: Wide)
    ensures var t := ThunkOf(op, w, dep1, dep2, env, ndep);
      Means(SpecialiseCondition(cond, op, w, dep1, dep2), env, Condition(cond, t))
      <==> !(ShiftsOut(cond, op, w) && Overflows(Signed(t.dep1, Q) - Signed(t.dep2, Q), Q))
  {
    hide FlagsOf, SpecialiseAdd, SpecialiseSubL, SpecialiseSubW, SpecialiseSubB, SpecialiseLogic;
    hide SpecialiseStep, SpecialiseCopy, Signed, Overflows;
    match op
    case ADD => AddMeans(cond, w, dep1, dep2, env, ndep);
    case LOGIC => LogicMeans(cond, w, dep1, dep2, env, ndep);
    case INC => StepMeans(cond, op, w, dep1, dep2, env, ndep);
    case DEC => StepMeans(cond, op, w, dep1, dep2, env, ndep);
    case COPY => CopyMeans(cond, w, dep1, dep2, env, ndep);
    case SUB =>
      if ShiftsOut(cond, op, w) {
        ShiftedOut(dep1, dep2, env);
        SubFlags(ThunkOf(op, w, dep1, dep2, env, ndep), Eval(dep2, env));
      } else {
        SubMeans(cond, w, dep1, dep2, env, ndep);
      }
    case _ =>
  }

  /** The least number minus one overflows, and the specialised expression does not say so. */
  lemma OverflowIsLost(env: nat -> Wide, ndep: Wide)
    ensures var least, one := Const(0x8000_0000_0000_0000), Const(1);
      !Means(SpecialiseCondition(O, SUB, Q, least, one), env, Condition(O, ThunkOf(SUB, Q, least, one, env, ndep)))
  {
    hide FlagsOf, SpecialiseCondition, Means, Condition;
    var least, one := Const(0x8000_0000_0000_0000), Const(1);
    assert Signed(Eval(least, env), Q) == -0x8000_0000_0000_0000 && Signed(Eval(one, env), Q) == 1;
    SpecialisedCondition(O, SUB, Q, least, one, env, ndep);
  }

  lemma SubCarry(w: Width, dep1: Expr, dep2: Expr, ndep: Expr, env: nat -> Wide, t: Thunk)
    requires t.op == SUB && t.width == w && t.dep1 == Eval(dep1, env) && t.dep2 == Eval(dep2, env)
    ensures Means(SpecialiseCarry(SUB, w, dep1, dep2, ndep), env, Condition(CB, t))
  {
    hide FlagsOf, Holds, WordOf, Masked, Cut, Signed;
    ConditionsAfterSub(t);
    match w
    case Q =>
      CutAgain(t.dep1, Q);
      CutAgain(t.dep2, Q);
      assert Eval(Test(LTU, Q, dep1, dep2), env) == Condition(CB, t);
    case L =>
      assert Eval(Test(LTU, L, Narrow(L, dep1), Narrow(L, dep2)), env) == Condition(CB, t);
    case B =>
      MaskedMeans(dep1, B, env);
      MaskedMeans(dep2, B, env);
      assert Eval(Test(LTU, Q, Masked(dep1, 0xFF), Masked(dep2, 0xFF)), env) == Condition(CB, t);
    case W =>
  }

  /** A specialised carry is the helper's; after a step it is the old carry as given, so that must be one bit. */
  lemma SpecialisedCarry(op: Op, w: Width, dep1: Expr, dep2: Expr, ndep: Expr, env: nat -> Wide)
    ensures var t := ThunkOf(op, w, dep1, dep2, env, Eval(ndep, env));
      Means(SpecialiseCarry(op, w, dep1, dep2, ndep), env, Condition(CB, t))
      <==> !((op == INC || op == DEC) && (w == L || w == Q) && t.ndep >= 2)
  {
    hide FlagsOf, WordOf, Masked, Cut, Signed;
    var t := ThunkOf(op, w, dep1, dep2, env, Eval(ndep, env));
    match op
    case SUB => SubCarry(w, dep1, dep2, ndep, env, t);
    case LOGIC => LogicFlags(t);
    case INC => StepFlags(t);
    case DEC => StepFlags(t);
    case _ =>
  }
}
