/** What the graphs take for the uses and definitions of an instruction, against the emulator. */
module UsesCorrect {
  import opened Ir
  import opened DeadCode
  import opened DeadCodeCorrect
  import opened Vm

  /** The effects differ in memory, in control, or in a register that one of them changed. */
  ghost predicate Shows<M>(regs: Regs, regs': Regs, e: Effect<M>, e': Effect<M>) {
    e.mem != e'.mem || e.control != e'.control || exists w :: ShowsIn(regs, regs', e, e', w)
  }

  ghost predicate ShowsIn<M>(regs: Regs, regs': Regs, e: Effect<M>, e': Effect<M>, w: Var) {
    Get(e.regs, w) != Get(e'.regs, w) && (Get(e.regs, w) != Get(regs, w) || Get(e'.regs, w) != Get(regs', w))
  }

  ghost predicate DifferAt(regs: Regs, regs': Regs, v: Var) {
    forall w :: w != v ==> Get(regs, w) == Get(regs', w)
  }

  /** Two register files that differ in the variable alone make the instruction do different things. */
  ghost predicate Tells<M>(m: Machine<M>, arch: Arch, insn: Insn, v: Var, regs: Regs, regs': Regs, mem: M)
    requires insn.WellFormed()
  {
    && DifferAt(regs, regs', v)
    && Shows(regs, regs', Execute(m, arch, insn, regs, mem), Execute(m, arch, insn, regs', mem))
  }

  ghost predicate Matters(arch: Arch, insn: Insn, v: Var)
    requires insn.WellFormed()
  {
    exists m: Machine<int>, regs, regs', mem :: Tells(m, arch, insn, v, regs, regs', mem)
  }

  /** A jump whose condition is no variable and zero. */
  predicate NeverTaken(insn: Insn) {
    !insn.a.VarArg? && (insn.a.Const? ==> Truncate(insn.a.val, insn.a.size) == 0)
  }

  /** Uses that make no difference: nothing is written, the jump is never taken, or operand b is not looked at. */
  predicate Ignored(arch: Arch, insn: Insn, v: Var) {
    match insn.op
    case NONE => false
    case UNK => insn.Dst() == []
    case STM => v in ArgVars(insn.b) && v !in ArgVars(insn.a) && v !in ArgVars(insn.c)
    case LDM => !insn.c.VarArg? || (v in ArgVars(insn.b) && v !in ArgVars(insn.a))
    case JCC =>
      v !in ArgVars(insn.a) &&
      (NeverTaken(insn) ||
       (v in ArgVars(insn.b) && v !in ArgVars(insn.c) && (insn.flags.call ==> v !in arch.General())))
    case _ => !insn.c.VarArg?
  }

  // ---------- A machine that tells ----------

  function Num(x: Operand): int {
    if x.Operand? then x.val else 0
  }

  function Sum(vals: seq<int>): int {
    if vals == [] then 0 else vals[0] + Sum(vals[1..])
  }

  function Telling(): Machine<int> {
    Machine((op, x, y) => 10 + Num(x) + 2 * Num(y), (mem, addr, size) => 10 + addr,
            (mem, addr, size, val) => addr + 2 * val, (at, vals, v) => 10 + Sum(vals), (at, vals, mem, v) => 0,
            (at, vals, mem) => 1 + Sum(vals))
  }

  /** All variables zero but the condition of a jump, and the variable in question. */
  function Probed(insn: Insn, v: Var, n: nat): Regs {
    (if insn.op == JCC && insn.a.VarArg? then map[insn.a.v := 1] else map[])[v := n]
  }

  lemma ProbedAre(insn: Insn, v: Var)
    ensures DifferAt(Probed(insn, v, 0), Probed(insn, v, 1), v)
    ensures forall w, n: nat :: n < 2 ==>
      Get(Probed(insn, v, n), w)
        == if w == v then n else if insn.op == JCC && insn.a.VarArg? && w == insn.a.v then 1 else 0
  {
  }

  lemma ProbedValue(insn: Insn, v: Var, arg: Arg)
    ensures var x, y := Value(arg, Probed(insn, v, 0)), Value(arg, Probed(insn, v, 1));
      if v in ArgVars(arg) then x == 0 && y == 1 else x == y
    ensures insn.op == JCC && arg == insn.a && v !in ArgVars(arg) && !NeverTaken(insn) ==>
      Value(arg, Probed(insn, v, 0)) != 0
  {
    assert forall size :: Truncate(0, size) == 0 && Truncate(1, size) == 1 by { Small(); }
    hide Modulus;
  }

  lemma Small()
    ensures forall size :: Truncate(0, size) == 0 && Truncate(1, size) == 1
  {
  }

  lemma {:induction false} SumGrows(vs: seq<Var>, insn: Insn, v: Var)
    ensures Sum(Values(vs, Probed(insn, v, 0))) <= Sum(Values(vs, Probed(insn, v, 1)))
    ensures v in vs ==> Sum(Values(vs, Probed(insn, v, 0))) < Sum(Values(vs, Probed(insn, v, 1)))
  {
    ProbedAre(insn, v);
    hide Probed;
    if vs != [] {
      SumGrows(vs[1..], insn, v);
      assert Values(vs, Probed(insn, v, 0))[0] == Get(Probed(insn, v, 0), vs[0]);
      assert Values(vs, Probed(insn, v, 1))[0] == Get(Probed(insn, v, 1), vs[0]);
      assert Values(vs, Probed(insn, v, 0))[1..] == Values(vs[1..], Probed(insn, v, 0));
      assert Values(vs, Probed(insn, v, 1))[1..] == Values(vs[1..], Probed(insn, v, 1));
    }
  }

  lemma {:induction false} SumOfCall(x: int, vals: seq<int>)
    ensures Sum([x] + vals) == x + Sum(vals)
  {
    assert ([x] + vals)[1..] == vals;
  }

  // ---------- Every use but the ignored ones tells ----------

  lemma WrittenTells(arch: Arch, insn: Insn, v: Var, w: Var)
    requires insn.WellFormed()
    requires var e, e' := Execute(Telling(), arch, insn, Probed(insn, v, 0), 0),
                          Execute(Telling(), arch, insn, Probed(insn, v, 1), 0);
      Get(e.regs, w) != Get(e'.regs, w) && Get(e.regs, w) >= 10
    ensures Matters(arch, insn, v)
  {
    hide Execute;
    ProbedAre(insn, v);
    hide Probed;
    var e := Execute(Telling(), arch, insn, Probed(insn, v, 0), 0);
    var e' := Execute(Telling(), arch, insn, Probed(insn, v, 1), 0);
    assert ShowsIn(Probed(insn, v, 0), Probed(insn, v, 1), e, e', w);
    assert Tells(Telling(), arch, insn, v, Probed(insn, v, 0), Probed(insn, v, 1), 0);
  }

  lemma EffectTells(arch: Arch, insn: Insn, v: Var)
    requires insn.WellFormed()
    requires var e, e' := Execute(Telling(), arch, insn, Probed(insn, v, 0), 0),
                          Execute(Telling(), arch, insn, Probed(insn, v, 1), 0);
      e.mem != e'.mem || e.control != e'.control
    ensures Matters(arch, insn, v)
  {
    hide Execute;
    ProbedAre(insn, v);
    hide Probed;
    assert Tells(Telling(), arch, insn, v, Probed(insn, v, 0), Probed(insn, v, 1), 0);
  }

  lemma UnknownTells(arch: Arch, insn: Insn, v: Var)
    requires insn.WellFormed() && insn.op == UNK && v in Uses(arch, insn) && !Ignored(arch, insn, v)
    ensures Matters(arch, insn, v)
  {
    SumGrows(insn.Src(), insn, v);
    SumIsNatural(insn.Src(), insn, v);
    hide Probed;
    WrittenTells(arch, insn, v, insn.Dst()[0]);
  }

  lemma {:induction false} SumIsNatural(vs: seq<Var>, insn: Insn, v: Var)
    ensures Sum(Values(vs, Probed(insn, v, 0))) >= 0
  {
    ProbedAre(insn, v);
    hide Probed;
    if vs != [] {
      SumIsNatural(vs[1..], insn, v);
      assert Values(vs, Probed(insn, v, 0))[0] == Get(Probed(insn, v, 0), vs[0]);
      assert Values(vs, Probed(insn, v, 0))[1..] == Values(vs[1..], Probed(insn, v, 0));
    }
  }

  lemma StoreTells(arch: Arch, insn: Insn, v: Var)
    requires insn.WellFormed() && insn.op == STM && v in Uses(arch, insn) && !Ignored(arch, insn, v)
    ensures Matters(arch, insn, v)
  {
    ProbedValue(insn, v, insn.a);
    ProbedValue(insn, v, insn.c);
    hide Probed, Value;
    EffectTells(arch, insn, v);
  }

  lemma LoadTells(arch: Arch, insn: Insn, v: Var)
    requires insn.WellFormed() && insn.op == LDM && v in Uses(arch, insn) && !Ignored(arch, insn, v)
    ensures Matters(arch, insn, v)
  {
    ProbedValue(insn, v, insn.a);
    hide Probed, Value;
    WrittenTells(arch, insn, v, insn.c.v);
  }

  lemma ArithmeticTells(arch: Arch, insn: Insn, v: Var)
    requires insn.WellFormed() && insn.op !in {NONE, UNK, JCC, STM, LDM}
    requires v in Uses(arch, insn) && !Ignored(arch, insn, v)
    ensures Matters(arch, insn, v)
  {
    ProbedOperand(insn, v, insn.a);
    ProbedOperand(insn, v, insn.b);
    hide Probed, OperandOf, Num;
    WrittenTells(arch, insn, v, insn.c.v);
  }

  lemma ProbedOperand(insn: Insn, v: Var, arg: Arg)
    ensures var x, y := Num(OperandOf(arg, Probed(insn, v, 0))), Num(OperandOf(arg, Probed(insn, v, 1)));
      x >= 0 && if v in ArgVars(arg) then x == 0 && y == 1 else x == y
  {
    ProbedValue(insn, v, arg);
    hide Probed, Truncate;
  }

  lemma JumpTells(arch: Arch, insn: Insn, v: Var)
    requires insn.WellFormed() && insn.op == JCC && !insn.flags.call && v in Uses(arch, insn) && !Ignored(arch, insn, v)
    ensures Matters(arch, insn, v)
  {
    ProbedValue(insn, v, insn.a);
    ProbedValue(insn, v, insn.c);
    hide Probed, Value, NeverTaken;
    EffectTells(arch, insn, v);
  }

  lemma CallTells(arch: Arch, insn: Insn, v: Var)
    requires insn.WellFormed() && insn.op == JCC && insn.flags.call && v in Uses(arch, insn) && !Ignored(arch, insn, v)
    ensures Matters(arch, insn, v)
  {
    ProbedValue(insn, v, insn.a);
    ProbedValue(insn, v, insn.c);
    SumGrows(arch.General(), insn, v);
    SumIsNatural(arch.General(), insn, v);
    TellingCall(arch, insn, Probed(insn, v, 0));
    TellingCall(arch, insn, Probed(insn, v, 1));
    hide Probed, Value, NeverTaken, Sum, Arch.General, Values, Execute, Telling;
    EffectTells(arch, insn, v);
  }

  lemma TellingCall(arch: Arch, insn: Insn, regs: Regs)
    requires insn.WellFormed() && insn.op == JCC && insn.flags.call
    ensures Execute(Telling(), arch, insn, regs, 0).mem
         == if Value(insn.a, regs) == 0 then 0 else 1 + Value(insn.c, regs) + Sum(Values(arch.General(), regs))
  {
    SumOfCall(Value(insn.c, regs), Values(arch.General(), regs));
    hide Value, Sum, Values, Arch.General;
  }

  // ---------- Nothing else tells ----------

  lemma UnusedIsSilent<M>(m: Machine<M>, arch: Arch, insn: Insn, v: Var, regs: Regs, regs': Regs, mem: M)
    requires insn.WellFormed() && DifferAt(regs, regs', v) && v !in Uses(arch, insn)
    ensures !Shows(regs, regs', Execute(m, arch, insn, regs, mem), Execute(m, arch, insn, regs', mem))
  {
    assert AgreeOn(regs, regs', Uses(arch, insn));
    EffectSame(m, arch, insn, regs, regs', mem);
    hide Execute, Uses, Defs, Insn.WellFormed;
    var e, e' := Execute(m, arch, insn, regs, mem), Execute(m, arch, insn, regs', mem);
    forall w
      ensures !ShowsIn(regs, regs', e, e', w)
    {
      if w !in Defs(arch, insn) {
        ExecuteFrame(m, arch, insn, regs, mem, w);
        ExecuteFrame(m, arch, insn, regs', mem, w);
      }
    }
  }

  lemma ArgSame(arg: Arg, v: Var, regs: Regs, regs': Regs)
    requires DifferAt(regs, regs', v) && v !in ArgVars(arg)
    ensures Value(arg, regs) == Value(arg, regs')
  {
    assert arg.VarArg? ==> arg.v in ArgVars(arg);
  }

  lemma IgnoredIsSilent<M>(m: Machine<M>, arch: Arch, insn: Insn, v: Var, regs: Regs, regs': Regs, mem: M)
    requires insn.WellFormed() && DifferAt(regs, regs', v) && Ignored(arch, insn, v)
    ensures !Shows(regs, regs', Execute(m, arch, insn, regs, mem), Execute(m, arch, insn, regs', mem))
  {
    if v !in ArgVars(insn.a) { ArgSame(insn.a, v, regs, regs'); }
    if v !in ArgVars(insn.c) { ArgSame(insn.c, v, regs, regs'); }
    hide Value, ArgVars;
    if insn.op == JCC {
      JumpIsSilent(m, arch, insn, v, regs, regs', mem);
    } else if insn.op == LDM && insn.c.VarArg? {
      SameWritten(m, arch, insn, v, regs, regs', mem);
    } else {
      NoWriteIsSilent(m, arch, insn, v, regs, regs', mem);
    }
  }

  lemma NoWriteIsSilent<M>(m: Machine<M>, arch: Arch, insn: Insn, v: Var, regs: Regs, regs': Regs, mem: M)
    requires insn.WellFormed() && Ignored(arch, insn, v) && insn.op != JCC && !(insn.op == LDM && insn.c.VarArg?)
    requires v !in ArgVars(insn.a) ==> Value(insn.a, regs) == Value(insn.a, regs')
    requires v !in ArgVars(insn.c) ==> Value(insn.c, regs) == Value(insn.c, regs')
    ensures !Shows(regs, regs', Execute(m, arch, insn, regs, mem), Execute(m, arch, insn, regs', mem))
  {
    hide Value, OperandOf, Values;
    NothingWritten(regs, regs', Execute(m, arch, insn, regs, mem), Execute(m, arch, insn, regs', mem));
  }

  lemma NothingWritten<M>(regs: Regs, regs': Regs, e: Effect<M>, e': Effect<M>)
    requires e.regs == regs && e'.regs == regs' && e.mem == e'.mem && e.control == e'.control
    ensures !Shows(regs, regs', e, e')
  {
  }

  lemma SameWritten<M>(m: Machine<M>, arch: Arch, insn: Insn, v: Var, regs: Regs, regs': Regs, mem: M)
    requires insn.WellFormed() && DifferAt(regs, regs', v) && insn.op == LDM && insn.c.VarArg?
    requires Value(insn.a, regs) == Value(insn.a, regs')
    ensures !Shows(regs, regs', Execute(m, arch, insn, regs, mem), Execute(m, arch, insn, regs', mem))
  {
    hide Value;
    var val := m.load(mem, Value(insn.a, regs), ArgSize(insn.c));
    assert Write(regs, [insn.c.v], _ => val) == regs[insn.c.v := val];
    assert Write(regs', [insn.c.v], _ => val) == regs'[insn.c.v := val];
  }

  lemma JumpIsSilent<M>(m: Machine<M>, arch: Arch, insn: Insn, v: Var, regs: Regs, regs': Regs, mem: M)
    requires insn.WellFormed() && DifferAt(regs, regs', v) && insn.op == JCC && Ignored(arch, insn, v)
    requires Value(insn.a, regs) == Value(insn.a, regs')
    requires v !in ArgVars(insn.c) ==> Value(insn.c, regs) == Value(insn.c, regs')
    ensures !Shows(regs, regs', Execute(m, arch, insn, regs, mem), Execute(m, arch, insn, regs', mem))
  {
    var e, e' := Execute(m, arch, insn, regs, mem), Execute(m, arch, insn, regs', mem);
    if Value(insn.a, regs) == 0 || !insn.flags.call {
      NothingWritten(regs, regs', e, e');
    } else {
      assert !NeverTaken(insn);
      CallIsSilent(m, arch, insn, v, regs, regs', mem);
    }
  }

  lemma CallIsSilent<M>(m: Machine<M>, arch: Arch, insn: Insn, v: Var, regs: Regs, regs': Regs, mem: M)
    requires insn.WellFormed() && DifferAt(regs, regs', v) && insn.op == JCC && insn.flags.call
    requires Value(insn.a, regs) == Value(insn.a, regs') != 0 && Value(insn.c, regs) == Value(insn.c, regs')
    requires v !in arch.General()
    ensures !Shows(regs, regs', Execute(m, arch, insn, regs, mem), Execute(m, arch, insn, regs', mem))
  {
    hide Value, Arch.General;
    assert Values(arch.General(), regs) == Values(arch.General(), regs');
    var e, e' := Execute(m, arch, insn, regs, mem), Execute(m, arch, insn, regs', mem);
    assert e.mem == e'.mem && e.control == e'.control;
  }

  /**
   * The uses of an instruction are exactly the variables that can make a difference to it, but for those that only an
   * operand names that is not looked at, or whose instruction writes nothing or is a jump that is never taken.
   */
  lemma UsesMatter(arch: Arch, insn: Insn, v: Var)
    requires insn.WellFormed()
    ensures Matters(arch, insn, v) <==> v in Uses(arch, insn) && !Ignored(arch, insn, v)
  {
    if m: Machine<int>, regs, regs', mem :| Tells(m, arch, insn, v, regs, regs', mem) {
      if v !in Uses(arch, insn) { UnusedIsSilent(m, arch, insn, v, regs, regs', mem); }
      if Ignored(arch, insn, v) { IgnoredIsSilent(m, arch, insn, v, regs, regs', mem); }
    }
    hide Matters, Ignored, Execute;
    if v in Uses(arch, insn) && !Ignored(arch, insn, v) {
      match insn.op
      case UNK => UnknownTells(arch, insn, v);
      case STM => StoreTells(arch, insn, v);
      case LDM => LoadTells(arch, insn, v);
      case JCC => if insn.flags.call { CallTells(arch, insn, v); } else { JumpTells(arch, insn, v); }
      case NONE =>
      case _ => ArithmeticTells(arch, insn, v);
    }
  }

  // ---------- Definitions, and what may be removed ----------

  /** Every write gives seven, every store and every call a new memory. */
  function Seven(): Machine<int> {
    Machine((op, x, y) => 7, (mem, addr, size) => 7, (mem, addr, size, val) => mem + 1, (at, vals, v) => 7,
            (at, vals, mem, v) => 7, (at, vals, mem) => mem + 1)
  }

  /** Registers with which a jump that can be taken is. */
  function Taking(insn: Insn): Regs {
    if insn.a.VarArg? then map[insn.a.v := 1] else map[]
  }

  lemma TakingIs(insn: Insn)
    ensures !NeverTaken(insn) ==> Value(insn.a, Taking(insn)) != 0
    ensures forall v :: Get(Taking(insn), v) != 7
  {
    Small();
    hide Truncate;
  }

  lemma NeverIs(insn: Insn, regs: Regs)
    requires NeverTaken(insn)
    ensures Value(insn.a, regs) == 0
  {
  }

  ghost predicate ChangesIn<M>(m: Machine<M>, arch: Arch, insn: Insn, v: Var, regs: Regs, mem: M)
    requires insn.WellFormed()
  {
    Get(Execute(m, arch, insn, regs, mem).regs, v) != Get(regs, v)
  }

  ghost predicate Changes(arch: Arch, insn: Insn, v: Var)
    requires insn.WellFormed()
  {
    exists m: Machine<int>, regs, mem :: ChangesIn(m, arch, insn, v, regs, mem)
  }

  lemma SevenWritten(arch: Arch, insn: Insn, v: Var)
    requires insn.WellFormed() && v in Defs(arch, insn) && !(insn.op == JCC && NeverTaken(insn))
    ensures Get(Execute(Seven(), arch, insn, Taking(insn), 0).regs, v) == 7
  {
    TakingIs(insn);
    hide Taking, Value, NeverTaken, Arch.General, Values, OperandOf;
  }

  lemma UntakenKeeps<M>(m: Machine<M>, arch: Arch, insn: Insn, regs: Regs, mem: M)
    requires insn.WellFormed() && insn.op == JCC && NeverTaken(insn)
    ensures Execute(m, arch, insn, regs, mem) == Effect(regs, mem, Fall)
  {
    NeverIs(insn, regs);
    hide Value;
  }

  /** The definitions are exactly the variables that the instruction may change, but for a call that is never made. */
  lemma DefsChange(arch: Arch, insn: Insn, v: Var)
    requires insn.WellFormed()
    ensures Changes(arch, insn, v) <==> v in Defs(arch, insn) && !(insn.op == JCC && NeverTaken(insn))
  {
    hide Execute, Defs, NeverTaken;
    if m: Machine<int>, regs, mem :| ChangesIn(m, arch, insn, v, regs, mem) {
      if v !in Defs(arch, insn) { ExecuteFrame(m, arch, insn, regs, mem, v); }
      if insn.op == JCC && NeverTaken(insn) { UntakenKeeps(m, arch, insn, regs, mem); }
    }
    if v in Defs(arch, insn) && !(insn.op == JCC && NeverTaken(insn)) {
      SevenWritten(arch, insn, v);
      TakingIs(insn);
      hide Taking;
      assert ChangesIn(Seven(), arch, insn, v, Taking(insn), 0);
    }
  }

  ghost predicate ActsOutside<M>(m: Machine<M>, arch: Arch, insn: Insn, regs: Regs, mem: M)
    requires insn.WellFormed()
  {
    var e := Execute(m, arch, insn, regs, mem);
    e.mem != mem || e.control != Fall
  }

  lemma TakenActs(arch: Arch, insn: Insn)
    requires insn.WellFormed() && insn.op in {JCC, STM} && !(insn.op == JCC && NeverTaken(insn))
    ensures ActsOutside(Seven(), arch, insn, Taking(insn), 0)
  {
    TakingIs(insn);
    hide Taking, Value, NeverTaken, Arch.General, Values;
  }

  /**
   * Elimination may remove exactly the instructions that never touch memory or control - but for those that do nothing
   * at all and for jumps that are never taken, which it leaves alone.
   */
  lemma RemovableExactly(arch: Arch, insn: Insn)
    requires insn.WellFormed()
    ensures (exists m: Machine<int>, regs, mem :: ActsOutside(m, arch, insn, regs, mem)) <==>
      !Removable(insn) && insn.op != NONE && !(insn.op == JCC && NeverTaken(insn))
  {
    if insn.op in {JCC, STM} && !(insn.op == JCC && NeverTaken(insn)) { TakenActs(arch, insn); }
    if m: Machine<int>, regs, mem :| ActsOutside(m, arch, insn, regs, mem) {
      if insn.op == JCC && NeverTaken(insn) { UntakenKeeps(m, arch, insn, regs, mem); }
    }
  }
}
