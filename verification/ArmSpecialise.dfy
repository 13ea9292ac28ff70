/** The specialisers of the arm and arm64 flag helpers: which calls they replace, and where the replacement is wrong. */
module ArmSpecialise {
  import opened Wrappers
  import opened Bits
  import opened Amd64Flags
  import opened ArmFlags
  import opened Words

  /** Expressions over words of the machine's width. */
  datatype Expr =
    | Atom(id: nat)
    | Const(n: nat)
    | Minus(a: Expr, b: Expr)
    | Bitwise(op: BitOp, a: Expr, b: Expr)
    | Down(a: Expr, count: nat)
    | Low(a: Expr)
    | Test(compare: Compare, width: Width, a: Expr, b: Expr)
    | Choose(cond: Expr, yes: Expr, no: Expr)

  type Env = nat -> Wide

  function Eval(e: Expr, w: ArmWidth, env: Env): (r: nat)
    ensures r < Range(w)
  {
    match e
    case Atom(id) => Cut(env(id), w)
    case Const(n) => Cut(n, w)
    case Minus(a, b) => Cut(Eval(a, w, env) - Eval(b, w, env), w)
    case Bitwise(op, a, b) =>
      WordTop(op, Eval(a, w, env), Eval(b, w, env), w);
      Word(op, Eval(a, w, env), Eval(b, w, env), Size(w))
    case Down(a, count) =>
      ShrShrinks(Eval(a, w, env), count);
      Shr(Eval(a, w, env), count)
    case Low(a) => Cut(Eval(a, w, env), L)
    case Test(c, width, a, b) => Number(Compares(c, width, Eval(a, w, env), Eval(b, w, env)))
    case Choose(cond, yes, no) => if Eval(cond, w, env) != 0 then Eval(yes, w, env) else Eval(no, w, env)
  }

  // ---------- The specialisers ----------

  function XorOne(e: Expr): Expr {
    Bitwise(XorOp, e, Const(1))
  }

  function AndOne(e: Expr): Expr {
    Bitwise(AndOp, e, Const(1))
  }

  /** The comparison a condition stands for after a subtraction. */
  function Compared(code: nat, w: Width, a: Expr, b: Expr): Option<Expr> {
    match code
    case 0 => Some(Test(EQ, w, a, b))
    case 1 => Some(Test(NE, w, a, b))
    case 2 => Some(Test(LEU, w, b, a))
    case 3 => Some(Test(LTU, w, a, b))
    case 8 => Some(Test(LTU, w, b, a))
    case 9 => Some(Test(LEU, w, a, b))
    case 10 => Some(Test(LES, w, b, a))
    case 11 => Some(Test(LTS, w, a, b))
    case 12 => Some(Test(LTS, w, b, a))
    case 13 => Some(Test(LES, w, a, b))
    case _ => None
  }

  /** No borrow, by the old carry. */
  function NoBorrow(a: Expr, b: Expr, oldC: Expr): Expr {
    Choose(Test(NE, L, oldC, Const(0)), Test(LEU, L, b, a), Test(LTU, L, b, a))
  }

  function SpecialiseLogic(code: nat, dep1: Expr): Option<Expr> {
    match code
    case 0 => Some(Test(EQ, L, dep1, Const(0)))
    case 1 => Some(Test(NE, L, dep1, Const(0)))
    case 4 => Some(Test(EQ, L, Down(dep1, 31), Const(1)))
    case 5 => Some(Test(EQ, L, Down(dep1, 31), Const(0)))
    case _ => None
  }

  function SpecialiseCopy(isa: Isa, code: nat, dep1: Expr): Option<Expr> {
    match code
    case 0 => if isa.Arm64? then Some(AndOne(Down(dep1, 30))) else None
    case 1 => Some(AndOne(XorOne(Down(dep1, 30))))
    case _ => None
  }

  /** The condition helper; condition and operation are known. */
  function SpecialiseCondition(isa: Isa, code: nat, op: ArmOp, w: ArmWidth, dep1: Expr, dep2: Expr,
                               dep3: Expr): Option<Expr> {
    match op
    case Sub =>
      if isa.Arm64? && w == L then Compared(code, L, Low(dep1), Low(dep2)) else Compared(code, w, dep1, dep2)
    case Copy => SpecialiseCopy(isa, code, dep1)
    case Sbc => if isa.Arm32? && code == 2 then Some(NoBorrow(dep1, dep2, dep3)) else None
    case Logic => if isa.Arm32? then SpecialiseLogic(code, dep1) else None
    case _ => None
  }

  /** The carry helper of arm. */
  function SpecialiseCarry(op: ArmOp, dep1: Expr, dep2: Expr, dep3: Expr): Option<Expr> {
    match op
    case Logic => Some(dep2)
    case Sub => Some(Test(LEU, L, dep2, dep1))
    case Sbc => Some(NoBorrow(dep1, dep2, dep3))
    case _ => None
  }

  function Mixed(dep1: Expr, dep2: Expr, res: Expr): Expr {
    Bitwise(AndOp, Bitwise(XorOp, dep1, dep2), Bitwise(XorOp, dep1, res))
  }

  function Borrowed(dep1: Expr, dep2: Expr, oldC: Expr): Expr {
    Minus(Minus(dep1, dep2), XorOne(oldC))
  }

  /** The overflow helper of arm; the last entry takes the lowest bit where the overflow is in the highest. */
  function SpecialiseOverflow(op: ArmOp, dep1: Expr, dep2: Expr, dep3: Expr): Option<Expr> {
    match op
    case Logic => Some(dep3)
    case Sub => Some(Down(Mixed(dep1, dep2, Minus(dep1, dep2)), 31))
    case Sbc => Some(AndOne(Mixed(dep1, dep2, Borrowed(dep1, dep2, dep3))))
    case _ => None
  }

  // ---------- The expressions have the helpers' values ----------

  function ThunkOf(isa: Isa, op: ArmOp, w: ArmWidth, dep1: Expr, dep2: Expr, dep3: Expr, env: Env): ArmThunk {
    var word := WordWidth(isa);
    ArmThunk(isa, op, w, Eval(dep1, word, env), Eval(dep2, word, env), Eval(dep3, word, env))
  }

  /** A replacement has the value the helper returns, if the helper returns. */
  ghost predicate Means(e: Option<Expr>, w: ArmWidth, env: Env, value: Option<nat>) {
    e.Some? && value.Some? ==> Eval(e.value, w, env) == value.value
  }

  lemma Smalls(w: ArmWidth)
    ensures Cut(0, w) == 0 && Cut(1, w) == 1
  {
  }

  lemma CutFits(x: int, w: Width)
    requires 0 <= x < Range(w)
    ensures Cut(x, w) == x
  {
    CutNear(x, w);
    hide Range;
  }

  lemma ComparedMeans(code: nat, word: ArmWidth, a: Expr, b: Expr, env: Env, t: ArmThunk)
    requires t.op == Sub && Eval(a, word, env) == t.ArgL() && Eval(b, word, env) == t.ArgR()
    ensures Means(Compared(code, t.width, a, b), word, env, ArmFlags.Condition(code, t))
  {
    hide ArmFlags.Condition, Cut, Range, Signed;
    if code < 14 { ArmFlags.ConditionsAfterSub(code, t); }
    match code
    case 0 => assert Eval(Test(EQ, t.width, a, b), word, env) == Number(t.ArgL() == t.ArgR());
    case 1 => assert Eval(Test(NE, t.width, a, b), word, env) == Number(t.ArgL() != t.ArgR());
    case 2 => assert Eval(Test(LEU, t.width, b, a), word, env) == Number(t.ArgL() >= t.ArgR());
    case 3 => assert Eval(Test(LTU, t.width, a, b), word, env) == Number(t.ArgL() < t.ArgR());
    case 8 => assert Eval(Test(LTU, t.width, b, a), word, env) == Number(t.ArgL() > t.ArgR());
    case 9 => assert Eval(Test(LEU, t.width, a, b), word, env) == Number(t.ArgL() <= t.ArgR());
    case 10 =>
      assert Eval(Test(LES, t.width, b, a), word, env) == Number(AfterSub(10, t.ArgL(), t.ArgR(), t.width));
    case 11 =>
      assert Eval(Test(LTS, t.width, a, b), word, env) == Number(AfterSub(11, t.ArgL(), t.ArgR(), t.width));
    case 12 =>
      assert Eval(Test(LTS, t.width, b, a), word, env) == Number(AfterSub(12, t.ArgL(), t.ArgR(), t.width));
    case 13 =>
      assert Eval(Test(LES, t.width, a, b), word, env) == Number(AfterSub(13, t.ArgL(), t.ArgR(), t.width));
    case _ =>
  }

  lemma AndOdd(x: nat, n: nat)
    requires n > 0
    ensures Word(AndOp, x, 1, n) == x % 2
  {
    NothingAnded(x / 2, n - 1);
    WordStep(AndOp, x, 1, n);
    hide Word;
  }

  lemma WordStep(op: BitOp, x: nat, y: nat, n: nat)
    requires n > 0
    ensures Word(op, x, y, n) == Combine(op, x % 2, y % 2) + 2 * Word(op, x / 2, y / 2, n - 1)
  {
  }

  lemma XorOdd(x: nat, n: nat)
    requires n > 0
    ensures Word(XorOp, x, 1, n) % 2 == 1 - x % 2
    ensures x < 2 ==> Word(XorOp, x, 1, n) == 1 - x
  {
    WordStep(XorOp, x, 1, n);
    NoXor(n - 1);
    hide Word;
  }

  lemma CopyMeans(isa: Isa, code: nat, dep1: Expr, env: Env, t: ArmThunk)
    requires t.op == Copy && t.isa == isa && Eval(dep1, WordWidth(isa), env) == t.dep1
    ensures Means(SpecialiseCopy(isa, code, dep1), WordWidth(isa), env, ArmFlags.Condition(code, t))
  {
    hide Word, Shr, Cut, Range;
    var w := WordWidth(isa);
    Smalls(w);
    var z := Shr(t.dep1, 30);
    AndOdd(z, Size(w));
    XorOdd(z, Size(w));
    AndOdd(Xor(z, 1, w), Size(w));
    assert Eval(Down(dep1, 30), w, env) == z;
    assert Eval(Const(1), w, env) == 1;
    assert Eval(AndOne(Down(dep1, 30)), w, env) == And(z, 1, w);
    assert Eval(XorOne(Down(dep1, 30)), w, env) == Xor(z, 1, w);
    assert Eval(AndOne(XorOne(Down(dep1, 30))), w, env) == And(Xor(z, 1, w), 1, w);
  }

  lemma NoBorrowMeans(dep1: Expr, dep2: Expr, dep3: Expr, env: Env, t: ArmThunk)
    requires t == ThunkOf(Arm32, Sbc, L, dep1, dep2, dep3, env)
    ensures Means(Some(NoBorrow(dep1, dep2, dep3)), L, env, FlagC(t))
    ensures Means(Some(NoBorrow(dep1, dep2, dep3)), L, env, ArmFlags.Condition(2, t))
  {
    hide Cut, Range;
    Smalls(L);
    CutFits(t.dep1, L);
    CutFits(t.dep2, L);
    CutFits(t.dep3, L);
    assert Eval(Const(0), L, env) == 0;
    assert Eval(Test(NE, L, dep3, Const(0)), L, env) == Number(t.OldC() != 0);
    assert Eval(Test(LEU, L, dep2, dep1), L, env) == Number(t.ArgL() >= t.ArgR());
    assert Eval(Test(LTU, L, dep2, dep1), L, env) == Number(t.ArgL() > t.ArgR());
  }

  lemma LogicMeans(code: nat, dep1: Expr, dep2: Expr, dep3: Expr, env: Env, t: ArmThunk)
    requires t == ThunkOf(Arm32, Logic, L, dep1, dep2, dep3, env)
    ensures Means(SpecialiseLogic(code, dep1), L, env, ArmFlags.Condition(code, t))
  {
    hide Cut, Range, Shr, Top, FlagC, FlagV;
    Smalls(L);
    CutFits(t.dep1, L);
    TopOf(t.dep1, L);
    assert Eval(Const(0), L, env) == 0 && Eval(Const(1), L, env) == 1;
    assert Eval(Down(dep1, 31), L, env) == Shr(t.dep1, 31);
    match code
    case 0 => assert Eval(Test(EQ, L, dep1, Const(0)), L, env) == Number(t.dep1 == 0);
    case 1 => assert Eval(Test(NE, L, dep1, Const(0)), L, env) == Number(t.dep1 != 0);
    case 4 => assert Eval(Test(EQ, L, Down(dep1, 31), Const(1)), L, env) == Number(Shr(t.dep1, 31) == 1);
    case 5 => assert Eval(Test(EQ, L, Down(dep1, 31), Const(0)), L, env) == Number(Shr(t.dep1, 31) == 0);
    case _ =>
  }

  /** Every replacement of a condition has the condition's value, on both machines. */
  lemma SpecialisedCondition(isa: Isa, code: nat, op: ArmOp, w: ArmWidth, dep1: Expr, dep2: Expr, dep3: Expr, env: Env)
    requires isa.Arm32? ==> w == L
    ensures Means(SpecialiseCondition(isa, code, op, w, dep1, dep2, dep3), WordWidth(isa), env,
                  ArmFlags.Condition(code, ThunkOf(isa, op, w, dep1, dep2, dep3, env)))
  {
    hide ArmFlags.Condition, Cut, Range, Eval, Compared, SpecialiseCopy, SpecialiseLogic;
    var t := ThunkOf(isa, op, w, dep1, dep2, dep3, env);
    match op
    case Sub =>
      CutFits(t.dep1, WordWidth(isa));
      CutFits(t.dep2, WordWidth(isa));
      LowIs(dep1, env);
      LowIs(dep2, env);
      if isa.Arm64? && w == L {
        ComparedMeans(code, Q, Low(dep1), Low(dep2), env, t);
      } else {
        ComparedMeans(code, w, dep1, dep2, env, t);
      }
    case Copy => CopyMeans(isa, code, dep1, env, t);
    case Sbc => if isa.Arm32? { NoBorrowMeans(dep1, dep2, dep3, env, t); }
    case Logic => if isa.Arm32? { LogicMeans(code, dep1, dep2, dep3, env, t); }
    case _ =>
  }

  lemma LowIs(e: Expr, env: Env)
    ensures Eval(Low(e), Q, env) == Cut(Eval(e, Q, env), L)
  {
    hide Cut;
  }

  /** Every replacement of the carry has the carry's value. */
  lemma SpecialisedCarry(op: ArmOp, dep1: Expr, dep2: Expr, dep3: Expr, env: Env)
    ensures Means(SpecialiseCarry(op, dep1, dep2, dep3), L, env,
                  FlagC(ThunkOf(Arm32, op, L, dep1, dep2, dep3, env)))
  {
    hide Cut, Range;
    var t := ThunkOf(Arm32, op, L, dep1, dep2, dep3, env);
    match op
    case Sub =>
      CutFits(t.dep1, L);
      CutFits(t.dep2, L);
      assert Eval(Test(LEU, L, dep2, dep1), L, env) == Number(t.ArgL() >= t.ArgR());
    case Sbc => NoBorrowMeans(dep1, dep2, dep3, env, t);
    case _ =>
  }

  lemma MixedIs(dep1: Expr, dep2: Expr, res: Expr, env: Env)
    ensures var x, y, r := Eval(dep1, L, env), Eval(dep2, L, env), Eval(res, L, env);
      Eval(Mixed(dep1, dep2, res), L, env) == And(Xor(x, y, L), Xor(x, r, L), L)
  {
    hide Cut, Word;
    var differ, change := Bitwise(XorOp, dep1, dep2), Bitwise(XorOp, dep1, res);
    assert Eval(differ, L, env) == Xor(Eval(dep1, L, env), Eval(dep2, L, env), L);
    assert Eval(change, L, env) == Xor(Eval(dep1, L, env), Eval(res, L, env), L);
  }

  lemma SubOverflowMeans(dep1: Expr, dep2: Expr, dep3: Expr, env: Env, t: ArmThunk)
    requires t == ThunkOf(Arm32, Sub, L, dep1, dep2, dep3, env)
    ensures Means(SpecialiseOverflow(Sub, dep1, dep2, dep3), L, env, FlagV(t))
  {
    hide Cut, Range, Shr, And, Xor, Mixed;
    CutFits(t.dep1, L);
    CutFits(t.dep2, L);
    MixedIs(dep1, dep2, Minus(dep1, dep2), env);
    assert Eval(Minus(dep1, dep2), L, env) == Cut(t.dep1 - t.dep2, L);
  }

  /** Where the replacement of the overflow after a subtraction with carry sets its bit. */
  predicate OddMixed(x: nat, y: nat, oldC: nat) {
    x % 2 != y % 2 && x % 2 != oldC
  }

  lemma ParityOff(v: int, c: int, k: int)
    requires v == c + 2 * k
    ensures c % 2 == v % 2
  {
  }

  lemma CutParity(v: int, w: Width)
    ensures Cut(v, w) % 2 == v % 2
  {
    hide Cut, Range, Half;
    var q := CutParts(v, w);
    EvenTimes(Half(w), q);
    ParityOff(v, Cut(v, w), Half(w) * q);
  }

  lemma EvenTimes(h: int, q: int)
    ensures 2 * h * q == 2 * (h * q)
  {
  }

  lemma BorrowedEval(dep1: Expr, dep2: Expr, dep3: Expr, env: Env)
    requires Eval(dep3, L, env) <= 1
    ensures var d: int := Eval(dep1, L, env) - Eval(dep2, L, env);
      Eval(Borrowed(dep1, dep2, dep3), L, env) == Cut(Cut(d, L) - (1 - Eval(dep3, L, env)), L)
  {
    hide Word, Cut, Range;
    ConstIs(1, env);
    XorOdd(Eval(dep3, L, env), 32);
    assert Eval(XorOne(dep3), L, env) == Xor(Eval(dep3, L, env), 1, L);
    var d: int := Eval(dep1, L, env) - Eval(dep2, L, env);
    assert Eval(Minus(dep1, dep2), L, env) == Cut(d, L);
  }

  lemma BorrowedIs(dep1: Expr, dep2: Expr, dep3: Expr, env: Env)
    requires Eval(dep3, L, env) <= 1
    ensures var d: int := Eval(dep1, L, env) - Eval(dep2, L, env);
      Eval(Borrowed(dep1, dep2, dep3), L, env) % 2 == (d - (1 - Eval(dep3, L, env))) % 2
  {
    hide Eval, Cut, Borrowed, Range;
    BorrowedEval(dep1, dep2, dep3, env);
    var d: int := Eval(dep1, L, env) - Eval(dep2, L, env);
    var b: int := 1 - Eval(dep3, L, env);
    CutParity(d, L);
    CutParity(Cut(d, L) - b, L);
  }

  lemma BitZero(x: nat)
    ensures BitOf(x, 0) == x % 2
  {
  }

  /** The lowest bit of the mixed word. */
  lemma MixedOdd(x: nat, y: nat, r: nat)
    ensures And(Xor(x, y, L), Xor(x, r, L), L) % 2 == Number(x % 2 != y % 2 && x % 2 != r % 2)
  {
    hide Word;
    WordBit(XorOp, x, y, 32, 0);
    WordBit(XorOp, x, r, 32, 0);
    WordBit(AndOp, Xor(x, y, L), Xor(x, r, L), 32, 0);
    BitZero(x);
    BitZero(y);
    BitZero(r);
    BitZero(Xor(x, y, L));
    BitZero(Xor(x, r, L));
    BitZero(And(Xor(x, y, L), Xor(x, r, L), L));
  }

  lemma SbcOverflowIs(dep1: Expr, dep2: Expr, dep3: Expr, env: Env)
    requires Eval(dep3, L, env) <= 1
    ensures Eval(SpecialiseOverflow(Sbc, dep1, dep2, dep3).value, L, env)
         == Number(OddMixed(Eval(dep1, L, env), Eval(dep2, L, env), Eval(dep3, L, env)))
  {
    hide Eval, Word, Mixed, Borrowed, Cut, And, Xor;
    var res := Borrowed(dep1, dep2, dep3);
    MixedIs(dep1, dep2, res, env);
    BorrowedIs(dep1, dep2, dep3, env);
    MixedOdd(Eval(dep1, L, env), Eval(dep2, L, env), Eval(res, L, env));
    AndOneIs(Mixed(dep1, dep2, res), env);
    OddSum(Eval(dep1, L, env), Eval(dep2, L, env), Eval(dep3, L, env));
  }

  lemma OddSum(x: nat, y: nat, c: nat)
    requires c <= 1
    ensures var d: int := x - y; x % 2 != y % 2 ==> (d - (1 - c)) % 2 == c
  {
  }

  lemma ConstIs(n: nat, env: Env)
    requires n < Range(L)
    ensures Eval(Const(n), L, env) == n
  {
    CutFits(n, L);
    hide Cut;
  }

  lemma AndOneIs(e: Expr, env: Env)
    ensures Eval(AndOne(e), L, env) == Eval(e, L, env) % 2
  {
    hide Word, Cut;
    ConstIs(1, env);
    AndOdd(Eval(e, L, env), 32);
  }

  /**
   * The overflow of arm: after logic and subtraction the replacement has the helper's value. After a
   * subtraction with carry it has it exactly if the lowest bits of the operands and the old carry
   * happen to tell the overflow.
   */
  lemma SpecialisedOverflow(op: ArmOp, dep1: Expr, dep2: Expr, dep3: Expr, env: Env)
    ensures var t := ThunkOf(Arm32, op, L, dep1, dep2, dep3, env);
      && (op != Sbc ==> Means(SpecialiseOverflow(op, dep1, dep2, dep3), L, env, FlagV(t)))
      && (op == Sbc && t.dep3 <= 1 ==>
            (Means(SpecialiseOverflow(op, dep1, dep2, dep3), L, env, FlagV(t)) <==>
             (OddMixed(t.dep1, t.dep2, t.dep3) <==>
              Overflows(Signed(t.dep1, L) - Signed(t.dep2, L) - (1 - t.dep3), L))))
  {
    hide Cut, Range, Signed, Overflows, OverflowBit;
    var t := ThunkOf(Arm32, op, L, dep1, dep2, dep3, env);
    CutFits(t.dep1, L);
    CutFits(t.dep2, L);
    CutFits(t.dep3, L);
    match op
    case Sub => SubOverflowMeans(dep1, dep2, dep3, env, t);
    case Sbc =>
      if t.dep3 <= 1 {
        SbcOverflowIs(dep1, dep2, dep3, env);
        SubTells(t);
        hide SpecialiseOverflow, OddMixed, FlagV;
      }
    case _ =>
  }

  /** One minus zero with a borrow does not overflow, and the least number minus two does: both come out wrong. */
  lemma OverflowIsWrong(env: Env)
    ensures FlagV(ArmThunk(Arm32, Sbc, L, 1, 0, 0)) == Some(0)
    ensures Eval(SpecialiseOverflow(Sbc, Const(1), Const(0), Const(0)).value, L, env) == 1
    ensures FlagV(ArmThunk(Arm32, Sbc, L, 0x8000_0000, 2, 1)) == Some(1)
    ensures Eval(SpecialiseOverflow(Sbc, Const(0x8000_0000), Const(2), Const(1)).value, L, env) == 0
  {
    hide OverflowBit, SpecialiseOverflow, Eval;
    ConstIs(1, env);
    ConstIs(0, env);
    ConstIs(0x8000_0000, env);
    ConstIs(2, env);
    SubTells(ArmThunk(Arm32, Sbc, L, 1, 0, 0));
    SubTells(ArmThunk(Arm32, Sbc, L, 0x8000_0000, 2, 1));
    SbcOverflowIs(Const(1), Const(0), Const(0), env);
    SbcOverflowIs(Const(0x8000_0000), Const(2), Const(1), env);
  }

  // ---------- The condition that always holds ----------

  datatype Stmt = WrTmp(tmp: nat, data: Expr) | Other

  const ALWAYS: nat := 0xE0

  predicate IsAlways(s: Stmt, tmp: nat) {
    s.WrTmp? && s.tmp == tmp && s.data.Bitwise? && s.data.op == OrOp && s.data.b == Const(ALWAYS)
  }

  /** Looks for the word's definition in the sixteen statements in front, the nearest first. */
  method FindAlways(stmts: seq<Stmt>, tmp: nat) returns (found: bool)
    ensures found <==> exists j :: 0 <= j < |stmts| && |stmts| - 16 <= j && IsAlways(stmts[j], tmp)
  {
    var limit := if |stmts| < 16 then 0 else |stmts| - 16;
    var j := |stmts|;
    while j > limit
      invariant limit <= j <= |stmts|
      invariant forall k :: j <= k < |stmts| ==> !IsAlways(stmts[k], tmp)
    {
      j := j - 1;
      if IsAlways(stmts[j], tmp) { return true; }
    }
    return false;
  }

  /** The values of the temporaries after some statements. */
  function Exec(stmts: seq<Stmt>, env: Env): Env {
    if stmts == [] then env
    else
      var before := Exec(stmts[..|stmts| - 1], env);
      match stmts[|stmts| - 1]
      case WrTmp(tmp, data) => (k => if k == tmp then Eval(data, L, before) else before(k))
      case Other => before
  }

  /** Every temporary is written once. */
  ghost predicate OnceWritten(stmts: seq<Stmt>) {
    forall i, j :: 0 <= i < j < |stmts| && stmts[i].WrTmp? && stmts[j].WrTmp? ==> stmts[i].tmp != stmts[j].tmp
  }

  lemma {:induction false} ValueStays(stmts: seq<Stmt>, env: Env, j: nat)
    requires OnceWritten(stmts) && j < |stmts| && stmts[j].WrTmp?
    ensures Exec(stmts, env)(stmts[j].tmp) == Eval(stmts[j].data, L, Exec(stmts[..j], env))
  {
    hide Eval;
    var n := |stmts| - 1;
    if j < n {
      ValueStays(stmts[..n], env, j);
      assert stmts[..n][..j] == stmts[..j];
    }
  }

  /** Operations by their number in the condition word. */
  function OpOf(n: nat): Option<ArmOp> {
    match n
    case 0 => Some(Copy)
    case 1 => Some(Add)
    case 2 => Some(Sub)
    case 3 => Some(Adc)
    case 4 => Some(Sbc)
    case 5 => Some(Logic)
    case 6 => Some(Mul)
    case 7 => Some(Mull)
    case _ => None
  }

  /** The helper itself: it splits the condition word, and looks at the operation only if it needs a flag. */
  function ConditionHelper(word: nat, dep1: Wide, dep2: Wide, dep3: Wide): Option<nat> {
    if word / 16 == 14 then Some(1)
    else match OpOf(word % 16)
      case None => None
      case Some(op) => ArmFlags.Condition(word / 16, ArmThunk(Arm32, op, L, dep1, dep2, dep3))
  }

  /** No bits in the places of the condition and above it, other than those the condition sets. */
  predicate LeavesCondition(x: nat) {
    x < 256 && x / 16 % 2 == 0
  }

  lemma {:induction false} OrNone(x: nat, n: nat)
    requires x < Shl(1, n)
    ensures Word(OrOp, x, 0, n) == x
  {
    if n > 0 { OrNone(x / 2, n - 1); }
  }

  lemma TwentyFour()
    ensures Shl(1, 24) == 0x100_0000
  {
    ShlByte(1);
    ShlTwice(1, 8, 16);
    ShlSixteen(256);
    hide Shl;
  }

  /** The condition part of the word. */
  lemma OrCondition(h: nat)
    requires h < 0x1000_0000
    ensures Word(OrOp, h, 14, 28) == h - h % 16 + 14 + h % 2
  {
    hide Word, Shl;
    var h1, h2, h3, h4 := h / 2, h / 4, h / 8, h / 16;
    WordStep(OrOp, h, 14, 28);
    WordStep(OrOp, h1, 7, 27);
    WordStep(OrOp, h2, 3, 26);
    WordStep(OrOp, h3, 1, 25);
    TwentyFour();
    OrNone(h4, 24);
    assert h1 / 2 == h2 && h2 / 2 == h3 && h3 / 2 == h4;
  }

  lemma OrLow(x: nat)
    requires x < 0x1_0000_0000
    ensures Word(OrOp, x, ALWAYS, 32) / 16 == Word(OrOp, x / 16, 14, 28)
  {
    hide Word;
    var x1, x2, x3, x4 := x / 2, x / 4, x / 8, x / 16;
    WordStep(OrOp, x, 0xE0, 32);
    WordStep(OrOp, x1, 0x70, 31);
    WordStep(OrOp, x2, 0x38, 30);
    WordStep(OrOp, x3, 0x1C, 29);
    assert x1 / 2 == x2 && x2 / 2 == x3 && x3 / 2 == x4;
    var w1, w2, w3, w4 := Word(OrOp, x1, 0x70, 31), Word(OrOp, x2, 0x38, 30),
                          Word(OrOp, x3, 0x1C, 29), Word(OrOp, x4, 14, 28);
    var w := Word(OrOp, x, 0xE0, 32);
    assert w / 2 == w1 && w1 / 2 == w2 && w2 / 2 == w3 && w3 / 2 == w4;
  }

  /** With other bits in the way, the word names no condition the helper knows. */
  lemma AlwaysWord(x: nat, dep1: Wide, dep2: Wide, dep3: Wide)
    requires x < 0x1_0000_0000
    ensures ConditionHelper(Word(OrOp, x, ALWAYS, 32), dep1, dep2, dep3)
         == if LeavesCondition(x) then Some(1) else None
  {
    hide Word, FlagN, FlagZ, FlagC, FlagV;
    OrLow(x);
    OrCondition(x / 16);
  }

  /**
   * A word found by the search stands for the condition that always holds exactly if the other operand
   * has no bit that changes the condition; otherwise the helper would not return, and the replacement does.
   */
  lemma AlwaysMeans(stmts: seq<Stmt>, tmp: nat, j: nat, env: Env, dep1: Wide, dep2: Wide, dep3: Wide)
    requires OnceWritten(stmts) && j < |stmts| && IsAlways(stmts[j], tmp)
    ensures ConditionHelper(Exec(stmts, env)(tmp), dep1, dep2, dep3)
         == if LeavesCondition(Eval(stmts[j].data.a, L, Exec(stmts[..j], env))) then Some(1) else None
  {
    hide ConditionHelper, LeavesCondition, Word;
    ValueStays(stmts, env, j);
    var before := Exec(stmts[..j], env);
    AlwaysWord(Eval(stmts[j].data.a, L, before), dep1, dep2, dep3);
    assert Eval(Const(ALWAYS), L, before) == ALWAYS;
  }
}
