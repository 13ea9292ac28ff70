/** The emulator: one IR instruction at a time. */
module Vm {
  import opened Wrappers
  import opened Ir
  import opened Code

  datatype Operand = NoOperand | Operand(val: int, size: Size)

  /**
   * What the semantics leaves open: arithmetic, memory, and, as black boxes over the variables they
   * list, unknown instructions and called functions.
   */
  datatype Machine<!M> = Machine(
    alu: (Op, Operand, Operand) -> int,
    load: (M, int, Size) -> int,
    store: (M, int, Size, int) -> M,
    unknown: (IRAddr, seq<int>, Var) -> int,
    callReg: (IRAddr, seq<int>, M, Var) -> int,
    callMem: (IRAddr, seq<int>, M) -> M)

  type Regs = map<Var, int>

  /** A register that was never set reads as zero. */
  function Get(regs: Regs, v: Var): int {
    if v in regs then regs[v] else 0
  }

  function Value(arg: Arg, regs: Regs): int {
    match arg
    case VarArg(v, size) => Truncate(Get(regs, v), size)
    case Const(val, size) => Truncate(val, size)
    case _ => 0
  }

  function OperandOf(arg: Arg, regs: Regs): Operand {
    match arg
    case VarArg(_, size) => Operand(Value(arg, regs), size)
    case Const(_, size) => Operand(Value(arg, regs), size)
    case _ => NoOperand
  }

  function Values(vs: seq<Var>, regs: Regs): seq<int> {
    seq(|vs|, i requires 0 <= i < |vs| => Get(regs, vs[i]))
  }

  /** The registers with new values for the listed variables. */
  function Write(regs: Regs, vs: seq<Var>, val: Var -> int): (r: Regs)
    ensures forall v :: v in r <==> v in vs || v in regs
    ensures forall v :: v in r ==> r[v] == if v in vs then val(v) else regs[v]
  {
    if vs == [] then regs
    else
      var n := |vs| - 1;
      assert forall v :: v in vs <==> v in vs[..n] || v == vs[n];
      Write(regs, vs[..n], val)[vs[n] := val(vs[n])]
  }

  /** Temporaries live inside one machine instruction. */
  function DropTemps(regs: Regs): Regs {
    regs - set v | v in regs && v.Temp?
  }

  /** Where an instruction sends control: to what follows, to a place in the code, or away by a computed address. */
  datatype Control = Fall | Jump(to: IRAddr) | Away(addr: int)

  datatype Effect<M> = Effect(regs: Regs, mem: M, control: Control)

  /** What a called function gets: the target it was called by, and all general registers. */
  function CallValues(arch: Arch, insn: Insn, regs: Regs): seq<int> {
    [Value(insn.c, regs)] + Values(arch.General(), regs)
  }

  function Execute<M>(m: Machine<M>, arch: Arch, insn: Insn, regs: Regs, mem: M): Effect<M>
    requires insn.WellFormed()
  {
    match insn.op
    case NONE => Effect(regs, mem, Fall)
    case UNK =>
      var vals := Values(insn.Src(), regs);
      Effect(Write(regs, insn.Dst(), v => m.unknown(insn.ir, vals, v)), mem, Fall)
    case JCC =>
      if Value(insn.a, regs) == 0 then Effect(regs, mem, Fall)
      else if insn.flags.call then
        var vals := CallValues(arch, insn, regs);
        Effect(Write(regs, arch.General(), v => m.callReg(insn.ir, vals, mem, v)),
               m.callMem(insn.ir, vals, mem), Fall)
      else if insn.c.Loc? then Effect(regs, mem, Jump(insn.c.loc))
      else if insn.c.Const? then Effect(regs, mem, Jump(IRAddr(Truncate(insn.c.val, insn.c.size), 0)))
      else Effect(regs, mem, Away(Value(insn.c, regs)))
    case STM =>
      Effect(regs, m.store(mem, Value(insn.c, regs), ArgSize(insn.a), Value(insn.a, regs)), Fall)
    case LDM =>
      Effect(Write(regs, ArgVars(insn.c), _ => m.load(mem, Value(insn.a, regs), ArgSize(insn.c))), mem, Fall)
    case _ =>
      Effect(Write(regs, ArgVars(insn.c), _ => m.alu(insn.op, OperandOf(insn.a, regs), OperandOf(insn.b, regs))),
             mem, Fall)
  }

  /** A run inside a function: at an instruction, or after the function was left. */
  datatype Config<M> =
    | Running(ip: IRAddr, regs: Regs, mem: M)
    | Left(at: IRAddr, target: Option<int>, regs: Regs, mem: M)
    | Stuck(ip: IRAddr)

  /** Registers as an instruction at `ip` finds them: the instruction pointer set, old temporaries gone. */
  function Prepared(arch: Arch, ip: IRAddr, regs: Regs): Regs {
    (if ip.inum == 0 then DropTemps(regs) else regs)[InstructionPointer(arch) := ip.addr]
  }

  function Step<M>(items: Items, m: Machine<M>, arch: Arch, c: Config<M>): Config<M>
    requires forall k :: k in items ==> items[k].WellFormed()
  {
    match c
    case Running(ip, regs, mem) =>
      if ip !in items then Stuck(ip)
      else
        var e := Execute(m, arch, items[ip], Prepared(arch, ip, regs), mem);
        (match e.control
         case Jump(to) => Running(to, e.regs, e.mem)
         case Away(addr) => Left(ip, Some(addr), e.regs, e.mem)
         case Fall =>
           match items[ip].Next()
           case None => Left(ip, None, e.regs, e.mem)
           case Some(next) => Running(next, e.regs, e.mem))
    case _ => c
  }

  function Run<M>(items: Items, m: Machine<M>, arch: Arch, c: Config<M>, n: nat): Config<M>
    requires forall k :: k in items ==> items[k].WellFormed()
  {
    if n == 0 then c else Step(items, m, arch, Run(items, m, arch, c, n - 1))
  }

  lemma OneStep<M>(items: Items, m: Machine<M>, arch: Arch, c: Config<M>)
    requires forall k :: k in items ==> items[k].WellFormed()
    ensures Run(items, m, arch, c, 1) == Step(items, m, arch, c) && Run(items, m, arch, c, 0) == c
  {
    hide Step;
    assert Run(items, m, arch, c, 0) == c;
  }

  lemma {:induction false} RunTwice<M>(items: Items, m: Machine<M>, arch: Arch, c: Config<M>, a: nat, b: nat)
    requires forall k :: k in items ==> items[k].WellFormed()
    ensures Run(items, m, arch, Run(items, m, arch, c, a), b) == Run(items, m, arch, c, a + b)
  {
    hide Step;
    if b > 0 { RunTwice(items, m, arch, c, a, b - 1); }
  }
}
