/** The successors that the graphs give an instruction are the places the emulator goes to behind it. */
module Successors {
  import opened Wrappers
  import opened Ir
  import opened Code
  import opened Cfg
  import opened Vm

  /** The arithmetic of this machine does not matter: only jumps decide where control goes. */
  function AnyMachine(): Machine<int> {
    Machine((op, x, y) => 0, (mem, addr, size) => 0, (mem, addr, size, val) => mem, (at, vals, v) => 0,
            (at, vals, mem, v) => 0, (at, vals, mem) => mem)
  }

  /** From some registers and memory the emulator steps from the instruction to the place. */
  ghost predicate StepsTo<M>(items: Items, m: Machine<M>, arch: Arch, k: IRAddr, regs: Regs, mem: M, t: IRAddr)
    requires forall k :: k in items ==> items[k].WellFormed()
  {
    var c := Step(items, m, arch, Running(k, regs, mem));
    c.Running? && c.ip == t
  }

  ghost predicate MayStep(items: Items, arch: Arch, k: IRAddr, t: IRAddr)
    requires forall k :: k in items ==> items[k].WellFormed()
  {
    exists m: Machine<int>, regs, mem :: StepsTo(items, m, arch, k, regs, mem, t)
  }

  /**
   * Whether the condition of a jump can be, or not be, zero: the instruction pointer holds the machine address, and at
   * the start of a machine instruction temporaries are gone.
   */
  predicate CanBe(arch: Arch, insn: Insn, taken: bool) {
    match insn.a
    case Const(val, size) => (Truncate(val, size) != 0) == taken
    case VarArg(v, size) =>
      if v == InstructionPointer(arch) then (Truncate(insn.ir.addr, size) != 0) == taken
      else v.Reg? || insn.ir.inum > 0 || !taken
    case _ => !taken
  }

  /** The place that a jump's target operand names. */
  predicate Aims(insn: Insn, t: IRAddr) {
    match insn.c
    case Loc(loc) => loc == t
    case Const(val, size) => t == IRAddr(Truncate(val, size), 0)
    case _ => false
  }

  /** Places the graphs follow though the emulator never goes there. */
  predicate OnlyInGraph(arch: Arch, insn: Insn, t: IRAddr) {
    insn.op == JCC &&
    ((Aims(insn, t) && (insn.flags.call || !CanBe(arch, insn, true))) ||
     (!insn.flags.call && !CanBe(arch, insn, false) &&
      (insn.forcedNext == Some(t) ||
       (insn.a.VarArg? && insn.forcedNext.None? && !insn.flags.ret && t == insn.Following()))))
  }

  /** Registers that give the condition the wanted value. */
  function Chosen(insn: Insn, taken: bool): Regs {
    match insn.a
    case VarArg(v, _) => map[v := if taken then 1 else 0]
    case _ => map[]
  }

  lemma ChosenValue(arch: Arch, insn: Insn, taken: bool)
    requires CanBe(arch, insn, taken)
    ensures (Value(insn.a, Prepared(arch, insn.ir, Chosen(insn, taken))) != 0) == taken
  {
    if insn.a.VarArg? {
      var v, regs := insn.a.v, Chosen(insn, taken);
      if v == InstructionPointer(arch) {
        assert Get(Prepared(arch, insn.ir, regs), v) == insn.ir.addr;
      } else if v.Reg? || insn.ir.inum > 0 {
        assert Get(Prepared(arch, insn.ir, regs), v) == if taken then 1 else 0;
        SmallStays(if taken then 1 else 0, insn.a.size);
      } else {
        assert Get(Prepared(arch, insn.ir, regs), v) == 0;
        SmallStays(0, insn.a.size);
      }
    }
  }

  lemma SmallStays(n: nat, size: Size)
    requires n < 2
    ensures Truncate(n, size) == n
  {
  }

  /** No registers give it a value that it cannot have. */
  lemma CannotBe(arch: Arch, insn: Insn, taken: bool, regs: Regs)
    requires !CanBe(arch, insn, taken)
    ensures (Value(insn.a, Prepared(arch, insn.ir, regs)) != 0) != taken
  {
    if insn.a.VarArg? {
      var v := insn.a.v;
      if v == InstructionPointer(arch) {
        assert Get(Prepared(arch, insn.ir, regs), v) == insn.ir.addr;
      } else {
        assert Get(Prepared(arch, insn.ir, regs), v) == 0;
        SmallStays(0, insn.a.size);
      }
    }
  }

  /** What an instruction does to control. */
  lemma ControlIs<M>(m: Machine<M>, arch: Arch, insn: Insn, regs: Regs, mem: M)
    requires insn.WellFormed()
    ensures var control := Execute(m, arch, insn, regs, mem).control;
      if insn.op != JCC || insn.flags.call || Value(insn.a, regs) == 0 then control == Fall
      else if insn.c.Loc? || insn.c.Const? then control.Jump? && Aims(insn, control.to)
      else control.Away?
  {
  }

  lemma AimsOnce(insn: Insn, t: IRAddr, t': IRAddr)
    requires Aims(insn, t) && Aims(insn, t')
    ensures t == t'
  {
  }

  /** Where one step from an instruction goes. */
  lemma StepGoes<M>(items: Items, m: Machine<M>, arch: Arch, k: IRAddr, regs: Regs, mem: M, t: IRAddr)
    requires forall k :: k in items ==> items[k].WellFormed()
    requires k in items && items[k].ir == k
    ensures var insn, taken := items[k], Value(items[k].a, Prepared(arch, k, regs)) != 0;
      StepsTo(items, m, arch, k, regs, mem, t) <==>
        if insn.op == JCC && !insn.flags.call && taken then Aims(insn, t) else insn.Next() == Some(t)
  {
    hide Value, Prepared, Insn.Next, Insn.WellFormed, Aims;
    ControlIs(m, arch, items[k], Prepared(arch, k, regs), mem);
    var e := Execute(m, arch, items[k], Prepared(arch, k, regs), mem);
    hide Execute;
    if e.control.Jump? && Aims(items[k], t) { AimsOnce(items[k], t, e.control.to); }
    if e.control.Away? { NoAim(items[k], t); }
  }

  lemma NoAim(insn: Insn, t: IRAddr)
    ensures Aims(insn, t) ==> insn.c.Loc? || insn.c.Const?
  {
  }

  /** The emulator may go to a place exactly if falling through or jumping leads there and can happen. */
  lemma MayStepIs(items: Items, arch: Arch, k: IRAddr, t: IRAddr)
    requires forall k :: k in items ==> items[k].WellFormed()
    requires k in items && items[k].ir == k
    ensures var insn := items[k]; var jumps := insn.op == JCC && !insn.flags.call;
      MayStep(items, arch, k, t) <==>
        || (insn.Next() == Some(t) && (jumps ==> CanBe(arch, insn, false)))
        || (jumps && Aims(insn, t) && CanBe(arch, insn, true))
  {
    hide CanBe, Value, Prepared, Insn.Next, Insn.WellFormed, Aims, StepsTo, Chosen;
    var insn := items[k];
    forall taken: bool | CanBe(arch, insn, taken)
      ensures (Value(insn.a, Prepared(arch, k, Chosen(insn, taken))) != 0) == taken
    {
      ChosenValue(arch, insn, taken);
    }
    StepGoes(items, AnyMachine(), arch, k, Chosen(insn, false), 0, t);
    StepGoes(items, AnyMachine(), arch, k, Chosen(insn, true), 0, t);
    if m: Machine<int>, regs, mem :| StepsTo(items, m, arch, k, regs, mem, t) {
      StepGoes(items, m, arch, k, regs, mem, t);
      var taken := Value(insn.a, Prepared(arch, k, regs)) != 0;
      if !CanBe(arch, insn, taken) { CannotBe(arch, insn, taken, regs); }
    }
  }

  /** The memory and the arithmetic of a machine make no difference to where it can go. */
  lemma AnyStep<M>(items: Items, m: Machine<M>, arch: Arch, k: IRAddr, regs: Regs, mem: M, t: IRAddr)
    requires forall k :: k in items ==> items[k].WellFormed()
    requires k in items && items[k].ir == k && StepsTo(items, m, arch, k, regs, mem, t)
    ensures MayStep(items, arch, k, t)
  {
    hide Value, Prepared, Insn.Next, Insn.WellFormed, Aims, StepsTo;
    StepGoes(items, m, arch, k, regs, mem, t);
    StepGoes(items, AnyMachine(), arch, k, regs, 0, t);
  }

  lemma SuccessorsAre(arch: Arch, insn: Insn, t: IRAddr)
    ensures var jumps := insn.op == JCC && !insn.flags.call;
      t in insn.Successors() <==>
        || (insn.Next() == Some(t) && (jumps ==> CanBe(arch, insn, false)))
        || (jumps && Aims(insn, t) && CanBe(arch, insn, true))
        || OnlyInGraph(arch, insn, t)
  {
    AimsIsLocation(insn, t);
    if insn.op == JCC && !insn.flags.call && !CanBe(arch, insn, false) { ForcedOrNot(arch, insn, t); }
    hide CanBe, Aims, Insn.Next, Insn.JccLoc;
  }

  lemma AimsIsLocation(insn: Insn, t: IRAddr)
    ensures insn.JccLoc() == Some(t) <==> insn.op == JCC && Aims(insn, t)
  {
  }

  /** Behind a jump whose condition is never zero the graphs fall through only if they cannot know. */
  lemma ForcedOrNot(arch: Arch, insn: Insn, t: IRAddr)
    requires insn.op == JCC && !insn.flags.call && !CanBe(arch, insn, false)
    ensures insn.Next() == Some(t) <==>
      || insn.forcedNext == Some(t)
      || (insn.a.VarArg? && insn.forcedNext.None? && !insn.flags.ret && t == insn.Following())
  {
  }

  /**
   * The edges of the control flow graph, against the emulator: a place follows a block exactly if from some registers
   * and memory of some machine the step from the block's last instruction goes there, or if it is the target of a call
   * or of a jump that is never taken, or lies behind a jump that is always taken though its condition is no constant or
   * an attribute names what follows.
   */
  lemma SuccessorsAreSteps(items: Items, arch: Arch, at: IRAddr, t: IRAddr)
    requires WellFormedCode(items) && Resolves(items, at) && BlockAt(items, at).Ok?
    ensures var bb := BlockAt(items, at).value;
      && |bb| > 0 && (forall k :: k in items ==> items[k].WellFormed())
      && var last := bb[|bb| - 1];
         t in SuccBlocks(items, at) <==> MayStep(items, arch, last.ir, t) || OnlyInGraph(arch, last, t)
  {
    BlockShape(items, at);
    var bb := BlockAt(items, at).value;
    var last := bb[|bb| - 1];
    hide BlockAt, MayStep, OnlyInGraph, Insn.Next, CanBe, Aims, Insn.WellFormed, Resolves, Insn.Successors;
    SuccessorsAre(arch, last, t);
    MayStepIs(items, arch, last.ir, t);
  }
}
