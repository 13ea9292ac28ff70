/** The REIL instruction: operands, attributes, and where control goes next. */
module Ir {
  import opened Wrappers

  /** Address of an IR instruction: machine address and number inside the machine instruction. */
  datatype IRAddr = IRAddr(addr: nat, inum: nat)

  /** The order in which tuples (addr, inum) sort. */
  predicate Before(x: IRAddr, y: IRAddr) {
    x.addr < y.addr || (x.addr == y.addr && x.inum < y.inum)
  }

  datatype Size = U1 | U8 | U16 | U32 | U64

  function Modulus(size: Size): (n: nat)
    ensures n >= 2
  {
    match size
    case U1 => 2
    case U8 => 0x100
    case U16 => 0x1_0000
    case U32 => 0x1_0000_0000
    case U64 => 0x1_0000_0000_0000_0000
  }

  /** `val & mask`, which Python defines for negative numbers as two's complement. */
  function Truncate(val: int, size: Size): nat {
    val % Modulus(size)
  }

  /** CPU registers are named R_..., temporaries V_...; the two name spaces never meet. */
  datatype Var = Reg(name: string) | Temp(name: string)

  datatype Arg =
    | NoArg
    | VarArg(v: Var, size: Size)
    | Const(val: int, size: Size)
    | Loc(loc: IRAddr)

  datatype Op =
    | NONE | UNK | JCC | STR | STM | LDM
    | ADD | SUB | NEG | MUL | DIV | MOD | SMUL | SDIV | SMOD
    | SHL | SHR | AND | OR | XOR | NOT | EQ | LT

  /** Length in bytes of a machine instruction. */
  type Length = n: nat | n > 0 witness 1

  datatype Flags = Flags(call: bool, ret: bool, bbEnd: bool, asmEnd: bool, eliminated: bool)

  datatype Insn = Insn(
    ir: IRAddr, size: Length, op: Op, a: Arg, b: Arg, c: Arg, flags: Flags,
    forcedNext: Option<IRAddr>,
    unkSrc: Option<seq<Var>>,
    unkDst: Option<seq<Var>>)
  {
    /** Variables written: operand c, unless it is a jump target or a store address. */
    function Dst(): seq<Var> {
      if op == UNK then
        if unkDst.Some? then unkDst.value else []
      else if op in {NONE, JCC, STM} then []
      else ArgVars(c)
    }

    /** Asking an unknown instruction with a destination list but no source list for its sources is an error. */
    predicate LacksSources() {
      op == UNK && unkDst.Some? && unkSrc.None?
    }

    /** Variables read. An unknown instruction lists its sources only beside a destination list. */
    function Src(): seq<Var> {
      if op == UNK then
        if unkDst.Some? && unkSrc.Some? then unkSrc.value else []
      else if op == NONE then []
      else ArgVars(a) + ArgVars(b) + (if op in {JCC, STM} then ArgVars(c) else [])
    }

    predicate AlwaysJumps() {
      op == JCC && a.Const? && Truncate(a.val, a.size) != 0 && !flags.call
    }

    /** The instruction right behind this one in the code. */
    function Following(): IRAddr {
      if flags.asmEnd then IRAddr(ir.addr + size, 0) else IRAddr(ir.addr, ir.inum + 1)
    }

    function Next(): Option<IRAddr> {
      if forcedNext.Some? then forcedNext
      else if flags.ret then None
      else if AlwaysJumps() then None
      else Some(Following())
    }

    function JccLoc(): Option<IRAddr> {
      if op == JCC && c.Const? then Some(IRAddr(Truncate(c.val, c.size), 0))
      else if op == JCC && c.Loc? then Some(c.loc)
      else None
    }

    function Successors(): set<IRAddr> {
      (if Next().Some? then {Next().value} else {}) + (if JccLoc().Some? then {JccLoc().value} else {})
    }

    /** What `eliminate` leaves: a no-op at the same place. */
    function Eliminate(): Insn {
      this.(op := NONE, a := NoArg, b := NoArg, c := NoArg, flags := flags.(eliminated := true))
    }

    /** The elimination flag alone. */
    function Mark(): Insn {
      this.(flags := flags.(eliminated := true))
    }

    /** The shape the translator gives: only calls branch inside a basic block. */
    predicate WellFormed() {
      && (flags.call ==> op == JCC)
      && (!flags.bbEnd ==> !flags.ret && forcedNext.None? && (op == JCC ==> flags.call))
      && (forcedNext.Some? ==> Before(ir, forcedNext.value))
    }
  }

  function ArgVars(arg: Arg): seq<Var> {
    if arg.VarArg? then [arg.v] else []
  }

  function ArgSize(arg: Arg): Size {
    match arg
    case VarArg(_, size) => size
    case Const(_, size) => size
    case _ => U1
  }

  datatype Arch = X86 | Arm {
    /** Registers that a called function is assumed to read and write. */
    function General(): seq<Var> {
      match this
      case X86 => [Reg("R_EAX"), Reg("R_EBX"), Reg("R_ECX"), Reg("R_EDX"),
                   Reg("R_ESI"), Reg("R_EDI"), Reg("R_EBP"), Reg("R_ESP")]
      case Arm => [Reg("R_R0"), Reg("R_R1"), Reg("R_R2"), Reg("R_R3"),
                   Reg("R_R4"), Reg("R_R5"), Reg("R_R6"), Reg("R_R7"),
                   Reg("R_R8"), Reg("R_R9"), Reg("R_R10"), Reg("R_R11"),
                   Reg("R_R12"), Reg("R_R13"), Reg("R_R14"), Reg("R_R15T")]
    }

    /** The status flags. */
    function StatusFlags(): seq<Var> {
      match this
      case X86 => [Reg("R_ZF"), Reg("R_PF"), Reg("R_CF"), Reg("R_AF"), Reg("R_SF"), Reg("R_OF"), Reg("R_DFLAG")]
      case Arm => [Reg("R_NF"), Reg("R_ZF"), Reg("R_CF"), Reg("R_VF")]
    }
  }

  /** The register that holds the machine address being executed. */
  function InstructionPointer(arch: Arch): Var {
    if arch.X86? then Reg("R_EIP") else Reg("R_R15T")
  }

  /** The elimination does not ask which architecture the code is for. */
  predicate IsFlag(v: Var) {
    v in X86.StatusFlags() || v in Arm.StatusFlags()
  }

  /** Variables an instruction uses and defines as data flow sees it; a call is all general registers. */
  function Uses(arch: Arch, insn: Insn): seq<Var>
    requires insn.WellFormed()
  {
    if insn.flags.call then insn.Src() + arch.General() else insn.Src()
  }

  function Defs(arch: Arch, insn: Insn): seq<Var> {
    if insn.flags.call then arch.General() else insn.Dst()
  }
}
