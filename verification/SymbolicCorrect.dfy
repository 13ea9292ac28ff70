/** Symbolic execution agrees with the emulator on straight code over registers and memory. */
module SymbolicCorrect {
  import opened Wrappers
  import opened Ir
  import opened Code
  import opened Symbolic
  import opened Vm

  function ResultSize(op: Op, size: Size): Size {
    if op in {EQ, LT} then U1 else size
  }

  function SizeOf(e: Sym): Size {
    match e
    case Val(_, size) => size
    case Ptr(_, size) => size
    case Number(_, size) => size
    case Apply(op, a, _) => ResultSize(op, SizeOf(a))
    case _ => U1
  }

  /** What the code finds. */
  datatype Start<M> = Start(regs: Regs, mem: M)

  /** The value of an expression when registers and memory are as the code found them. */
  ghost function Eval<M>(m: Machine<M>, e: Sym, start: Start<M>): nat {
    match e
    case Val(name, size) => Truncate(Get(start.regs, name.v), size)
    case Ptr(val, size) => Truncate(m.load(start.mem, Eval(m, val, start), size), size)
    case Number(num, size) => Truncate(num, size)
    case Apply(op, a, b) =>
      Truncate(m.alu(op, Operand(Eval(m, a, start), SizeOf(a)),
                     if b == Nothing then NoOperand else Operand(Eval(m, b, start), SizeOf(b))),
               ResultSize(op, SizeOf(a)))
    case _ => 0
  }

  /** The place an expression for the instruction pointer names. */
  ghost function EvalPlace<M>(m: Machine<M>, e: Sym, start: Start<M>): IRAddr {
    match e
    case Place(at) => at
    case Cond(cond, yes, no) => if Eval(m, cond, start) != 0 then EvalPlace(m, yes, start) else EvalPlace(m, no, start)
    case _ => IRAddr(Eval(m, e, start), 0)
  }

  /** Copying hands the operand on. */
  ghost predicate Copies<M>(m: Machine<M>) {
    forall val, size, other :: m.alu(STR, Operand(val, size), other) == val
  }

  // ---------- Straight code ----------

  predicate Readable(arg: Arg) {
    arg.VarArg? || arg.Const?
  }

  /** An instruction that only computes: operands are registers and constants, the result goes to a register. */
  predicate Computes(insn: Insn) {
    insn.op == NONE ||
    (insn.op !in {NONE, UNK, STM, LDM, JCC} && Readable(insn.a) && (Readable(insn.b) || insn.b.NoArg?) &&
      insn.c.VarArg?)
  }

  predicate Loads(insn: Insn) {
    insn.op == LDM && Readable(insn.a) && insn.b.NoArg? && insn.c.VarArg?
  }

  predicate Stores(insn: Insn) {
    insn.op == STM && Readable(insn.a) && insn.b.NoArg? && Readable(insn.c)
  }

  predicate Plain(insn: Insn) {
    Computes(insn) || Loads(insn) || Stores(insn)
  }

  /** A jump to a fixed place or through a register. */
  predicate Jumps(insn: Insn) {
    insn.op == JCC && !insn.flags.call && Readable(insn.a) && (Readable(insn.c) || insn.c.Loc?)
    && (insn.a.VarArg? ==> insn.Next().Some?)
  }

  /** Every variable has one size, and results have the size of their destination. */
  ghost predicate Sized(sizes: Name -> Size, insn: Insn) {
    && ArgSized(sizes, insn, insn.a) && ArgSized(sizes, insn, insn.b) && ArgSized(sizes, insn, insn.c)
    && (insn.op !in {NONE, JCC, LDM, STM} ==> ArgSize(insn.c) == ResultSize(insn.op, ArgSize(insn.a)))
  }

  ghost predicate ArgSized(sizes: Name -> Size, insn: Insn, arg: Arg) {
    arg.VarArg? ==> arg.size == sizes(NameOf(insn, arg.v))
  }

  predicate IsPointer(arch: Arch, arg: Arg) {
    arg.VarArg? && arg.v == InstructionPointer(arch)
  }

  predicate ReadsPointer(arch: Arch, insn: Insn) {
    IsPointer(arch, insn.a) || IsPointer(arch, insn.b) || (insn.op in {JCC, STM} && IsPointer(arch, insn.c))
  }

  /** Temporaries written so far in the machine instruction that the first `n` instructions end in. */
  function Live(code: seq<Insn>, n: nat): set<Var>
    requires n <= |code|
    decreases n, 0
  {
    if n == 0 then {} else LiveAt(code, n - 1) + (set v | v in code[n - 1].Dst() && v.Temp?)
  }

  /** Temporaries that hold a value when instruction `n` starts. */
  function LiveAt(code: seq<Insn>, n: nat): set<Var>
    requires n < |code|
    decreases n, 1
  {
    if code[n].ir.inum == 0 then {} else Live(code, n)
  }

  /** Temporaries are written before they are read. */
  ghost predicate WrittenBeforeRead(code: seq<Insn>) {
    forall i, v :: 0 <= i < |code| && code[i].op != UNK && v in code[i].Src() && v.Temp? ==> v in LiveAt(code, i)
  }

  /** A load finds the memory that the code found. */
  ghost predicate LoadsFirst(code: seq<Insn>) {
    forall i, j :: 0 <= i < j < |code| && code[i].op == STM ==> code[j].op != LDM
  }

  ghost predicate Straight(items: Items, sizes: Name -> Size, code: seq<Insn>) {
    && |code| > 0 && IsChain(items, code) && WrittenBeforeRead(code) && LoadsFirst(code)
    && (forall i :: 0 <= i < |code| ==> Sized(sizes, code[i]))
    && (forall i :: 0 <= i < |code| - 1 ==> Plain(code[i]) && code[i].Next() == Some(code[i].Following()))
    && (Plain(code[|code| - 1]) || Jumps(code[|code| - 1]))
  }

  // ---------- The state follows the registers ----------

  /** Expressions that data operands have. */
  predicate Proper(e: Sym) {
    e.Val? || e.Apply? || e.Ptr? || (e.Number? && e.num < Modulus(e.size))
  }

  function Key(sizes: Name -> Size, name: Name): Sym {
    Val(name, sizes(name))
  }

  /** What the state keeps for a variable is the value the variable has. */
  ghost predicate Follows<M>(m: Machine<M>, sizes: Name -> Size, start: Start<M>, regs: Regs, s: Entries, name: Name) {
    match Lookup(s, Key(sizes, name))
    case Some(e) =>
      Proper(e) && SizeOf(e) == sizes(name) && Truncate(Get(regs, name.v), sizes(name)) == Eval(m, e, start)
    case None => name.v.Reg? && Get(regs, name.v) == Get(start.regs, name.v)
  }

  ghost predicate RegsFollow<M>(m: Machine<M>, arch: Arch, sizes: Name -> Size, start: Start<M>, regs: Regs,
                                s: Entries) {
    forall v: Var :: v.Reg? && v != InstructionPointer(arch) ==> Follows(m, sizes, start, regs, s, Name(v, None))
  }

  ghost predicate TempsFollow<M>(m: Machine<M>, sizes: Name -> Size, start: Start<M>, regs: Regs, s: Entries,
                                 home: nat, live: set<Var>) {
    forall v :: v in live ==> v.Temp? && Follows(m, sizes, start, regs, s, Name(v, Some(home)))
  }

  /** Numbers are never keys. */
  ghost predicate NoNumbers(s: Entries) {
    forall num, size :: Lookup(s, Number(num, size)).None?
  }

  /** Control has not been decided, and all live variables follow. */
  ghost predicate Agrees<M>(m: Machine<M>, arch: Arch, sizes: Name -> Size, start: Start<M>, regs: Regs, s: Entries,
                            home: nat, live: set<Var>) {
    && RegsFollow(m, arch, sizes, start, regs, s)
    && TempsFollow(m, sizes, start, regs, s, home, live)
    && Lookup(s, IP).None? && NoNumbers(s)
  }

  lemma PreparedAgrees<M>(m: Machine<M>, arch: Arch, sizes: Name -> Size, start: Start<M>, regs: Regs, s: Entries,
                          home: nat, live: set<Var>, ip: IRAddr)
    requires Agrees(m, arch, sizes, start, regs, s, home, live)
    requires ip.inum > 0 ==> home == ip.addr
    ensures Agrees(m, arch, sizes, start, Prepared(arch, ip, regs), s, ip.addr, if ip.inum == 0 then {} else live)
  {
    hide Lookup, Eval;
    assert forall v: Var :: v.Reg? && v != InstructionPointer(arch) ==>
        Get(Prepared(arch, ip, regs), v) == Get(regs, v);
  }

  /** If the operand is the instruction pointer register, its expression is right. */
  ghost predicate PointerAgrees<M>(m: Machine<M>, arch: Arch, start: Start<M>, regs: Regs, s: Entries, insn: Insn,
                                   arg: Arg) {
    IsPointer(arch, arg) ==>
      var e := ArgIn(insn, arg, s);
      Proper(e) && SizeOf(e) == ArgSize(arg) && Eval(m, e, start) == Value(arg, regs)
  }

  ghost predicate PointersAgree<M>(m: Machine<M>, arch: Arch, start: Start<M>, regs: Regs, s: Entries, insn: Insn) {
    && PointerAgrees(m, arch, start, regs, s, insn, insn.a) && PointerAgrees(m, arch, start, regs, s, insn, insn.b)
    && (insn.op in {JCC, STM} ==> PointerAgrees(m, arch, start, regs, s, insn, insn.c))
  }

  /** An operand's expression has the operand's value and size. */
  lemma OperandAgrees<M>(m: Machine<M>, arch: Arch, sizes: Name -> Size, start: Start<M>, regs: Regs, s: Entries,
                         insn: Insn, arg: Arg, live: set<Var>)
    requires Agrees(m, arch, sizes, start, regs, s, insn.ir.addr, live)
    requires Readable(arg) && ArgSized(sizes, insn, arg) && PointerAgrees(m, arch, start, regs, s, insn, arg)
    requires arg.VarArg? && arg.v.Temp? ==> arg.v in live
    ensures var e := ArgIn(insn, arg, s);
      Proper(e) && SizeOf(e) == ArgSize(arg) && Eval(m, e, start) == Value(arg, regs)
  {
    hide Lookup;
    if arg.VarArg? && !IsPointer(arch, arg) {
      assert Follows(m, sizes, start, regs, s, NameOf(insn, arg.v));
    }
  }

  /** Recording the new value of a variable keeps the state following. */
  lemma RecordAgrees<M>(m: Machine<M>, arch: Arch, sizes: Name -> Size, start: Start<M>, regs: Regs, s: Entries,
                        insn: Insn, live: set<Var>, v: Var, val: int, e: Sym)
    requires Agrees(m, arch, sizes, start, regs, s, insn.ir.addr, live)
    requires var size := sizes(NameOf(insn, v));
      Proper(e) && SizeOf(e) == size && Truncate(val, size) == Eval(m, e, start)
    ensures Agrees(m, arch, sizes, start, regs[v := val], Updated(s, Key(sizes, NameOf(insn, v)), e),
                   insn.ir.addr, live + (set t | t in [v] && t.Temp?))
  {
    hide Lookup, Updated, Eval;
    var key, s' := Key(sizes, NameOf(insn, v)), Updated(s, Key(sizes, NameOf(insn, v)), e);
    LookupUpdated(s, key, e, IP);
    forall num, size
      ensures Lookup(s', Number(num, size)).None?
    {
      LookupUpdated(s, key, e, Number(num, size));
    }
    forall w: Var | w.Reg? && w != InstructionPointer(arch)
      ensures Follows(m, sizes, start, regs[v := val], s', Name(w, None))
    {
      LookupUpdated(s, key, e, Key(sizes, Name(w, None)));
      assert Follows(m, sizes, start, regs, s, Name(w, None));
    }
    forall w | w in live + (set t | t in [v] && t.Temp?)
      ensures w.Temp? && Follows(m, sizes, start, regs[v := val], s', Name(w, Some(insn.ir.addr)))
    {
      LookupUpdated(s, key, e, Key(sizes, Name(w, Some(insn.ir.addr))));
      assert w in live ==> Follows(m, sizes, start, regs, s, Name(w, Some(insn.ir.addr)));
    }
  }

  /** An instruction that computes, executed both ways. */
  lemma ComputeStep<M>(m: Machine<M>, arch: Arch, sizes: Name -> Size, start: Start<M>, regs: Regs, s: Entries,
                       insn: Insn, live: set<Var>, mem: M)
    requires Copies(m) && insn.WellFormed() && Computes(insn) && Sized(sizes, insn)
    requires PointersAgree(m, arch, start, regs, s, insn)
    requires Agrees(m, arch, sizes, start, regs, s, insn.ir.addr, live)
    requires forall v :: v in insn.Src() && v.Temp? ==> v in live
    ensures SymbolicOf(insn, s).Ok?
    ensures var e := Execute(m, arch, insn, regs, mem);
      && e.control == Fall && e.mem == mem
      && Agrees(m, arch, sizes, start, e.regs, SymbolicOf(insn, s).value, insn.ir.addr,
                live + set v | v in insn.Dst() && v.Temp?)
  {
    hide Agrees, Lookup, Updated, PointersAgree;
    if insn.op == NONE {
      assert live + (set v | v in insn.Dst() && v.Temp?) == live;
    } else {
      ExecuteComputes(m, arch, insn, regs, mem);
      hide Execute, ArgIn, Resolve, OperandOf;
      var val := m.alu(insn.op, OperandOf(insn.a, regs), OperandOf(insn.b, regs));
      ResultAgrees(m, arch, sizes, start, regs, s, insn, live);
      var v := insn.c.v;
      var exp := if insn.op == STR then ArgIn(insn, insn.a, s)
        else Apply(insn.op, ArgIn(insn, insn.a, s), ArgIn(insn, insn.b, s));
      RecordAgrees(m, arch, sizes, start, regs, s, insn, live, v, val, exp);
    }
  }

  lemma ExecuteComputes<M>(m: Machine<M>, arch: Arch, insn: Insn, regs: Regs, mem: M)
    requires insn.WellFormed() && Computes(insn) && insn.op != NONE
    ensures var val := m.alu(insn.op, OperandOf(insn.a, regs), OperandOf(insn.b, regs));
      Execute(m, arch, insn, regs, mem) == Effect(regs[insn.c.v := val], mem, Fall)
    ensures insn.Dst() == [insn.c.v]
  {
    var val := m.alu(insn.op, OperandOf(insn.a, regs), OperandOf(insn.b, regs));
    assert Write(regs, [insn.c.v], _ => val) == regs[insn.c.v := val];
  }

  lemma ResultAgrees<M>(m: Machine<M>, arch: Arch, sizes: Name -> Size, start: Start<M>, regs: Regs, s: Entries,
                        insn: Insn, live: set<Var>)
    requires Copies(m) && insn.WellFormed() && Computes(insn) && insn.op != NONE && Sized(sizes, insn)
    requires PointersAgree(m, arch, start, regs, s, insn)
    requires Agrees(m, arch, sizes, start, regs, s, insn.ir.addr, live)
    requires forall v :: v in insn.Src() && v.Temp? ==> v in live
    ensures var a, b := ArgIn(insn, insn.a, s), ArgIn(insn, insn.b, s);
      var exp := if insn.op == STR then a else Apply(insn.op, a, b);
      && a != Nothing && Proper(exp) && SizeOf(exp) == ArgSize(insn.c)
      && Truncate(m.alu(insn.op, OperandOf(insn.a, regs), OperandOf(insn.b, regs)), ArgSize(insn.c))
         == Eval(m, exp, start)
  {
    OperandsLive(insn, live);
    hide Agrees, Lookup, ArgIn, Truncate, Value, Insn.Src, Insn.WellFormed;
    OperandAgrees(m, arch, sizes, start, regs, s, insn, insn.a, live);
    OperandIs(insn.a, regs);
    if insn.b.NoArg? {
      assert ArgIn(insn, insn.b, s) == Nothing by { NoOperandIn(insn, s); }
    } else {
      OperandAgrees(m, arch, sizes, start, regs, s, insn, insn.b, live);
      OperandIs(insn.b, regs);
    }
  }

  /** A load is the expression of a pointer to what the emulator loads from. */
  lemma LoadStep<M>(m: Machine<M>, arch: Arch, sizes: Name -> Size, start: Start<M>, regs: Regs, s: Entries,
                    insn: Insn, live: set<Var>)
    requires insn.WellFormed() && Loads(insn) && Sized(sizes, insn)
    requires PointersAgree(m, arch, start, regs, s, insn)
    requires Agrees(m, arch, sizes, start, regs, s, insn.ir.addr, live)
    requires forall v :: v in insn.Src() && v.Temp? ==> v in live
    ensures SymbolicOf(insn, s).Ok?
    ensures var e := Execute(m, arch, insn, regs, start.mem);
      && e.control == Fall && e.mem == start.mem
      && Agrees(m, arch, sizes, start, e.regs, SymbolicOf(insn, s).value, insn.ir.addr,
                live + set v | v in insn.Dst() && v.Temp?)
  {
    LoadOperand(insn, live);
    ExecuteLoads(m, arch, insn, regs, start.mem);
    hide Agrees, Lookup, Updated, ArgIn, Resolve, Truncate, Value, Execute, Insn.Src, Insn.WellFormed;
    OperandAgrees(m, arch, sizes, start, regs, s, insn, insn.a, live);
    var v, size, a := insn.c.v, ArgSize(insn.c), ArgIn(insn, insn.a, s);
    var val := m.load(start.mem, Value(insn.a, regs), size);
    RecordAgrees(m, arch, sizes, start, regs, s, insn, live, v, val, Ptr(a, size));
  }

  lemma LoadOperand(insn: Insn, live: set<Var>)
    requires Loads(insn) && forall v :: v in insn.Src() && v.Temp? ==> v in live
    ensures insn.a.VarArg? && insn.a.v.Temp? ==> insn.a.v in live
  {
    assert insn.a.VarArg? ==> insn.a.v in ArgVars(insn.a);
  }

  lemma ExecuteLoads<M>(m: Machine<M>, arch: Arch, insn: Insn, regs: Regs, mem: M)
    requires insn.WellFormed() && Loads(insn)
    ensures Execute(m, arch, insn, regs, mem)
         == Effect(regs[insn.c.v := m.load(mem, Value(insn.a, regs), ArgSize(insn.c))], mem, Fall)
    ensures insn.Dst() == [insn.c.v]
  {
    var val := m.load(mem, Value(insn.a, regs), ArgSize(insn.c));
    assert Write(regs, [insn.c.v], _ => val) == regs[insn.c.v := val];
  }

  /** A store: where to, how many bits, and what. */
  datatype Stored = Stored(at: Sym, size: Size, val: Sym)

  /** The entry a store makes in the state. */
  function StoredBy(insn: Insn, s: Entries): Stored {
    Stored(Queried(s, ArgSym(insn, insn.c)), ArgSize(insn.a), ArgIn(insn, insn.a, s))
  }

  /** A store makes an entry whose expressions have the address and the value that the emulator stores. */
  lemma StoreStep<M>(m: Machine<M>, arch: Arch, sizes: Name -> Size, start: Start<M>, regs: Regs, s: Entries,
                     insn: Insn, live: set<Var>, mem: M)
    requires insn.WellFormed() && Stores(insn) && Sized(sizes, insn)
    requires PointersAgree(m, arch, start, regs, s, insn)
    requires Agrees(m, arch, sizes, start, regs, s, insn.ir.addr, live)
    requires forall v :: v in insn.Src() && v.Temp? ==> v in live
    ensures var w := StoredBy(insn, s);
      && SymbolicOf(insn, s) == Ok(Updated(s, Ptr(w.at, w.size), w.val))
      && Execute(m, arch, insn, regs, mem)
         == Effect(regs, m.store(mem, Eval(m, w.at, start), w.size, Eval(m, w.val, start)), Fall)
      && Agrees(m, arch, sizes, start, regs, SymbolicOf(insn, s).value, insn.ir.addr, live)
  {
    StoreOperands(insn, live);
    hide Agrees, Lookup, Updated, ArgIn, Truncate, Insn.Src, Eval;
    OperandAgrees(m, arch, sizes, start, regs, s, insn, insn.a, live);
    OperandAgrees(m, arch, sizes, start, regs, s, insn, insn.c, live);
    AddressIn(m, arch, sizes, start, regs, s, insn, live);
    PointerRecorded(m, arch, sizes, start, regs, s, insn.ir.addr, live, StoredBy(insn, s));
  }

  lemma StoreOperands(insn: Insn, live: set<Var>)
    requires Stores(insn) && forall v :: v in insn.Src() && v.Temp? ==> v in live
    ensures insn.a.VarArg? && insn.a.v.Temp? ==> insn.a.v in live
    ensures insn.c.VarArg? && insn.c.v.Temp? ==> insn.c.v in live
  {
    assert insn.a.VarArg? ==> insn.a.v in ArgVars(insn.a);
    assert insn.c.VarArg? ==> insn.c.v in ArgVars(insn.c);
  }

  /** The query for the address of a store finds what an operand would. */
  lemma AddressIn<M>(m: Machine<M>, arch: Arch, sizes: Name -> Size, start: Start<M>, regs: Regs, s: Entries,
                     insn: Insn, live: set<Var>)
    requires Stores(insn) && Agrees(m, arch, sizes, start, regs, s, insn.ir.addr, live)
    requires Proper(ArgIn(insn, insn.c, s))
    ensures Queried(s, ArgSym(insn, insn.c)) == ArgIn(insn, insn.c, s)
  {
    hide Lookup, RegsFollow, TempsFollow;
    if insn.c.Const? { assert Lookup(s, ArgSym(insn, insn.c)).None?; }
  }

  lemma PointerRecorded<M>(m: Machine<M>, arch: Arch, sizes: Name -> Size, start: Start<M>, regs: Regs, s: Entries,
                           home: nat, live: set<Var>, w: Stored)
    requires Agrees(m, arch, sizes, start, regs, s, home, live)
    ensures Agrees(m, arch, sizes, start, regs, Updated(s, Ptr(w.at, w.size), w.val), home, live)
  {
    hide Lookup, Updated, Eval;
    forall key: Sym | !key.Ptr?
      ensures Lookup(Updated(s, Ptr(w.at, w.size), w.val), key) == Lookup(s, key)
    {
      LookupUpdated(s, Ptr(w.at, w.size), w.val, key);
    }
  }

  lemma NoOperandIn(insn: Insn, s: Entries)
    requires insn.b.NoArg?
    ensures ArgIn(insn, insn.b, s) == Nothing
  {
  }

  lemma OperandsLive(insn: Insn, live: set<Var>)
    requires insn.WellFormed() && Computes(insn) && insn.op != NONE
    requires forall v :: v in insn.Src() && v.Temp? ==> v in live
    ensures insn.a.VarArg? && insn.a.v.Temp? ==> insn.a.v in live
    ensures insn.b.VarArg? && insn.b.v.Temp? ==> insn.b.v in live
  {
    assert insn.a.VarArg? ==> insn.a.v in ArgVars(insn.a);
    assert insn.b.VarArg? ==> insn.b.v in ArgVars(insn.b);
  }

  lemma OperandIs(arg: Arg, regs: Regs)
    requires Readable(arg)
    ensures OperandOf(arg, regs) == Operand(Value(arg, regs), ArgSize(arg))
    ensures Truncate(Value(arg, regs), ArgSize(arg)) == Value(arg, regs)
  {
  }

  // ---------- Memory ----------

  /** The stores of the code, in order. */
  function StoresOf(code: seq<Insn>): seq<Stored> {
    if code == [] then []
    else
      var init, last := code[..|code| - 1], code[|code| - 1];
      StoresOf(init) + match SymbolicOfAll(init)
                       case Ok(s) => if last.op == STM then [StoredBy(last, s)] else []
                       case Err(_) => []
  }

  /** The memory that the stores leave. */
  ghost function MemoryAfter<M>(m: Machine<M>, start: Start<M>, stores: seq<Stored>): M {
    if stores == [] then start.mem
    else
      var w := stores[|stores| - 1];
      m.store(MemoryAfter(m, start, stores[..|stores| - 1]), Eval(m, w.at, start), w.size, Eval(m, w.val, start))
  }

  /** What the last store to an address stored. */
  function Latest(stores: seq<Stored>, at: Sym): Option<Sym> {
    if stores == [] then None
    else
      var w := stores[|stores| - 1];
      if Matches(w.at, at) then Some(w.val) else Latest(stores[..|stores| - 1], at)
  }

  /** The entries for memory are those of the last stores. */
  ghost predicate StoresKept(s: Entries, stores: seq<Stored>) {
    forall at, size :: Lookup(s, Ptr(at, size)) == Latest(stores, at)
  }

  lemma StoresNext(code: seq<Insn>, n: nat)
    requires n < |code| && SymbolicOfAll(code[..n]).Ok?
    ensures var s := SymbolicOfAll(code[..n]).value;
      StoresOf(code[..n + 1])
        == if code[n].op == STM then StoresOf(code[..n]) + [StoredBy(code[n], s)] else StoresOf(code[..n])
  {
    hide SymbolicOfAll, StoredBy;
    assert code[..n + 1][..n] == code[..n];
  }

  lemma {:induction false} NoStoreYet(code: seq<Insn>)
    requires forall i :: 0 <= i < |code| ==> code[i].op != STM
    ensures StoresOf(code) == []
  {
    hide SymbolicOfAll;
    if code != [] { NoStoreYet(code[..|code| - 1]); }
  }

  lemma StoreAdded<M>(m: Machine<M>, start: Start<M>, stores: seq<Stored>, w: Stored, s: Entries)
    requires StoresKept(s, stores)
    ensures StoresKept(Updated(s, Ptr(w.at, w.size), w.val), stores + [w])
    ensures MemoryAfter(m, start, stores + [w])
         == m.store(MemoryAfter(m, start, stores), Eval(m, w.at, start), w.size, Eval(m, w.val, start))
  {
    hide Lookup, Updated, Eval;
    assert (stores + [w])[..|stores|] == stores;
    forall at, size
      ensures Lookup(Updated(s, Ptr(w.at, w.size), w.val), Ptr(at, size)) == Latest(stores + [w], at)
    {
      LookupUpdated(s, Ptr(w.at, w.size), w.val, Ptr(at, size));
    }
  }

  /** An entry for a variable or for the instruction pointer leaves those for memory alone. */
  lemma MemoryUntouched(s: Entries, key: Sym, e: Sym, stores: seq<Stored>)
    requires StoresKept(s, stores) && !key.Ptr?
    ensures StoresKept(Updated(s, key, e), stores)
  {
    hide Lookup, Updated, Latest;
    forall at, size
      ensures Lookup(Updated(s, key, e), Ptr(at, size)) == Latest(stores, at)
    {
      LookupUpdated(s, key, e, Ptr(at, size));
    }
  }

  /** What an instruction that loads or computes adds to the state is not for memory. */
  lemma PlainUntouched(insn: Insn, s: Entries, stores: seq<Stored>)
    requires StoresKept(s, stores) && (Computes(insn) || Loads(insn)) && SymbolicOf(insn, s).Ok?
    ensures StoresKept(SymbolicOf(insn, s).value, stores)
  {
    hide StoresKept, Lookup, Updated;
    if insn.op != NONE {
      var a, b := ArgIn(insn, insn.a, s), ArgIn(insn, insn.b, s);
      var e := if insn.op == STR then a else if insn.op == LDM then Ptr(a, ArgSize(insn.c)) else Apply(insn.op, a, b);
      MemoryUntouched(s, ArgSym(insn, insn.c), e, stores);
    }
  }

  /** A plain instruction at place `n` of straight code, executed both ways. */
  lemma PlainStep<M>(m: Machine<M>, arch: Arch, sizes: Name -> Size, code: seq<Insn>, start: Start<M>, regs: Regs,
                     s: Entries, n: nat, mem: M)
    requires n < |code| && SymbolicOfAll(code[..n]) == Ok(s) && LoadsFirst(code)
    requires Copies(m) && code[n].WellFormed() && Plain(code[n]) && Sized(sizes, code[n])
    requires PointersAgree(m, arch, start, regs, s, code[n])
    requires Agrees(m, arch, sizes, start, regs, s, code[n].ir.addr, LiveAt(code, n))
    requires forall v :: v in code[n].Src() && v.Temp? ==> v in LiveAt(code, n)
    requires mem == MemoryAfter(m, start, StoresOf(code[..n])) && StoresKept(s, StoresOf(code[..n]))
    ensures SymbolicOfAll(code[..n + 1]).Ok?
    ensures var e, s' := Execute(m, arch, code[n], regs, mem), SymbolicOfAll(code[..n + 1]).value;
      && e.control == Fall && e.mem == MemoryAfter(m, start, StoresOf(code[..n + 1]))
      && StoresKept(s', StoresOf(code[..n + 1]))
      && Agrees(m, arch, sizes, start, e.regs, s', code[n].ir.addr, Live(code, n + 1))
  {
    hide Agrees, PointersAgree, Sized, Copies, Computes, Loads, Stores, Execute, Updated, StoredBy, StoresKept;
    hide SymbolicOf, SymbolicOfAll, StoresOf, MemoryAfter, Live, LiveAt, Insn.WellFormed, Insn.Src, Insn.Dst;
    var insn, live := code[n], LiveAt(code, n);
    SymbolicOfNext(code, n);
    StoresNext(code, n);
    LiveNext(code, n);
    PlainKinds(insn);
    if Computes(insn) {
      ComputeStep(m, arch, sizes, start, regs, s, insn, live, mem);
      PlainUntouched(insn, s, StoresOf(code[..n]));
    } else if Loads(insn) {
      LoadMemory(m, start, code, n);
      LoadStep(m, arch, sizes, start, regs, s, insn, live);
      PlainUntouched(insn, s, StoresOf(code[..n]));
    } else {
      StoreStep(m, arch, sizes, start, regs, s, insn, live, mem);
      StoreAdded(m, start, StoresOf(code[..n]), StoredBy(insn, s), s);
      assert live + (set v | v in insn.Dst() && v.Temp?) == live;
    }
  }

  lemma PlainKinds(insn: Insn)
    requires Plain(insn)
    ensures insn.op == STM <==> !Computes(insn) && !Loads(insn)
    ensures Loads(insn) ==> insn.op == LDM
    ensures Stores(insn) ==> (set v | v in insn.Dst() && v.Temp?) == {}
  {
  }

  lemma LoadMemory<M>(m: Machine<M>, start: Start<M>, code: seq<Insn>, n: nat)
    requires n < |code| && LoadsFirst(code) && code[n].op == LDM
    ensures MemoryAfter(m, start, StoresOf(code[..n])) == start.mem
  {
    NoStoreYet(code[..n]);
  }

  // ---------- The instruction pointer register ----------

  ghost predicate Written(code: seq<Insn>, n: nat, v: Var)
    requires n <= |code|
  {
    exists i :: 0 <= i < n && v in code[i].Dst()
  }

  /**
   * The emulator sets the instruction pointer register before every instruction, symbolic execution does not. So code
   * may read it only where it did not write it, and where it holds the address that it held before the code ran.
   */
  ghost predicate PointerKnown(arch: Arch, sizes: Name -> Size, code: seq<Insn>, regs0: Regs) {
    forall i :: 0 <= i < |code| && ReadsPointer(arch, code[i]) ==> KnownAt(arch, sizes, code, regs0, i)
  }

  ghost predicate KnownAt(arch: Arch, sizes: Name -> Size, code: seq<Insn>, regs0: Regs, i: nat)
    requires i < |code|
  {
    var v, size := InstructionPointer(arch), sizes(Name(InstructionPointer(arch), None));
    !Written(code, i, v) && Truncate(Get(regs0, v), size) == Truncate(code[i].ir.addr, size)
  }

  lemma UnwrittenPointer<M>(m: Machine<M>, arch: Arch, sizes: Name -> Size, start: Start<M>, regs: Regs, s: Entries,
                            insn: Insn, arg: Arg)
    requires ArgSized(sizes, insn, arg) && IsPointer(arch, arg)
    requires Lookup(s, Val(Name(arg.v, None), arg.size)).None?
    requires Truncate(Get(start.regs, arg.v), arg.size) == Truncate(insn.ir.addr, arg.size)
    ensures PointerAgrees(m, arch, start, Prepared(arch, insn.ir, regs), s, insn, arg)
  {
    hide Lookup;
    assert Get(Prepared(arch, insn.ir, regs), arg.v) == insn.ir.addr;
  }

  lemma PointersKnown<M>(m: Machine<M>, arch: Arch, sizes: Name -> Size, code: seq<Insn>, start: Start<M>, regs: Regs,
                         n: nat)
    requires n < |code| && SymbolicOfAll(code[..n]).Ok? && PointerKnown(arch, sizes, code, start.regs)
    requires Sized(sizes, code[n]) && forall i :: 0 <= i < n ==> Plain(code[i])
    ensures PointersAgree(m, arch, start, Prepared(arch, code[n].ir, regs), SymbolicOfAll(code[..n]).value, code[n])
  {
    hide SymbolicOfAll, PointerAgrees, Written, Plain, Lookup, Prepared, Truncate;
    var insn, s := code[n], SymbolicOfAll(code[..n]).value;
    forall arg | (arg == insn.a || arg == insn.b || (insn.op in {JCC, STM} && arg == insn.c)) && IsPointer(arch, arg)
      ensures PointerAgrees(m, arch, start, Prepared(arch, insn.ir, regs), s, insn, arg)
    {
      assert KnownAt(arch, sizes, code, start.regs, n);
      HeldIsWritten(code, n, arg.v, arg.size);
      UnwrittenPointer(m, arch, sizes, start, regs, s, insn, arg);
    }
    NoPointer(m, arch, start, Prepared(arch, insn.ir, regs), s, insn);
  }

  lemma NoPointer<M>(m: Machine<M>, arch: Arch, start: Start<M>, regs: Regs, s: Entries, insn: Insn)
    ensures forall arg :: !IsPointer(arch, arg) ==> PointerAgrees(m, arch, start, regs, s, insn, arg)
  {
  }

  // ---------- Runs ----------

  /** The machine instruction that the first `n` instructions end in. */
  function Home(code: seq<Insn>, n: nat): nat
    requires n <= |code| && |code| > 0
  {
    if n == 0 then code[0].ir.addr else code[n - 1].ir.addr
  }

  /** The run and the state after `n` plain instructions. */
  ghost predicate InStep<M>(m: Machine<M>, arch: Arch, sizes: Name -> Size, code: seq<Insn>, start: Start<M>,
                            n: nat, c: Config<M>)
    requires n <= |code| && |code| > 0
  {
    && SymbolicOfAll(code[..n]).Ok?
    && c.Running? && (n < |code| ==> c.ip == code[n].ir)
    && c.mem == MemoryAfter(m, start, StoresOf(code[..n]))
    && StoresKept(SymbolicOfAll(code[..n]).value, StoresOf(code[..n]))
    && Agrees(m, arch, sizes, start, c.regs, SymbolicOfAll(code[..n]).value, Home(code, n), Live(code, n))
  }

  lemma HomeStays(items: Items, code: seq<Insn>, n: nat)
    requires IsChain(items, code) && n < |code| && code[n].ir.inum > 0
    ensures Home(code, n) == code[n].ir.addr
  {
    if n > 0 { assert code[n - 1 + 1].ir == code[n - 1].Following(); }
  }

  /** Agreement when an instruction starts to execute. */
  lemma StartsInStep<M>(items: Items, m: Machine<M>, arch: Arch, sizes: Name -> Size, code: seq<Insn>,
                        start: Start<M>, n: nat, c: Config<M>)
    requires IsChain(items, code) && n < |code| && InStep(m, arch, sizes, code, start, n, c)
    ensures c.ip in items && items[c.ip] == code[n]
    ensures Agrees(m, arch, sizes, start, Prepared(arch, c.ip, c.regs), SymbolicOfAll(code[..n]).value,
                   code[n].ir.addr, LiveAt(code, n))
  {
    hide Agrees, Prepared, SymbolicOfAll;
    if code[n].ir.inum > 0 { HomeStays(items, code, n); }
    PreparedAgrees(m, arch, sizes, start, c.regs, SymbolicOfAll(code[..n]).value, Home(code, n), Live(code, n), c.ip);
  }

  lemma SourcesLive(code: seq<Insn>, n: nat)
    requires WrittenBeforeRead(code) && n < |code| && (Plain(code[n]) || Jumps(code[n]))
    ensures forall v :: v in code[n].Src() && v.Temp? ==> v in LiveAt(code, n)
  {
  }

  lemma {:induction false} StraightRun<M>(items: Items, m: Machine<M>, arch: Arch, sizes: Name -> Size,
                                          code: seq<Insn>, start: Start<M>, n: nat)
    requires Copies(m) && forall k :: k in items ==> items[k].WellFormed()
    requires Straight(items, sizes, code) && PointerKnown(arch, sizes, code, start.regs) && n < |code|
    ensures InStep(m, arch, sizes, code, start, n, Run(items, m, arch, Running(code[0].ir, start.regs, start.mem), n))
  {
    hide PointersAgree, PointerKnown, StoresKept, StoresOf, MemoryAfter, LoadsFirst;
    hide Sized, Plain, Copies, WrittenBeforeRead, Live, LiveAt, SymbolicOf, SymbolicOfAll, Execute, Prepared;
    hide Insn.WellFormed, Insn.Next;
    if n == 0 {
      StartsAgreed(m, arch, sizes, code, start);
    } else {
      StraightRun(items, m, arch, sizes, code, start, n - 1);
      hide Agrees;
      var c := Run(items, m, arch, Running(code[0].ir, start.regs, start.mem), n - 1);
      StartsInStep(items, m, arch, sizes, code, start, n - 1, c);
      SourcesLive(code, n - 1);
      var regs, s := Prepared(arch, c.ip, c.regs), SymbolicOfAll(code[..n - 1]).value;
      PointersKnown(m, arch, sizes, code, start, c.regs, n - 1);
      PlainStep(m, arch, sizes, code, start, regs, s, n - 1, c.mem);
      assert code[n - 1 + 1].ir == code[n - 1].Following();
    }
  }

  lemma LiveNext(code: seq<Insn>, n: nat)
    requires n < |code|
    ensures Live(code, n + 1) == LiveAt(code, n) + set v | v in code[n].Dst() && v.Temp?
  {
  }

  lemma StartsAgreed<M>(m: Machine<M>, arch: Arch, sizes: Name -> Size, code: seq<Insn>, start: Start<M>)
    requires |code| > 0
    ensures SymbolicOfAll(code[..0]) == Ok([])
    ensures Agrees(m, arch, sizes, start, start.regs, [], Home(code, 0), Live(code, 0))
    ensures MemoryAfter(m, start, StoresOf(code[..0])) == start.mem && StoresKept([], StoresOf(code[..0]))
  {
  }

  /** Where a run is or has gone. */
  ghost predicate IsAt<M>(c: Config<M>, at: IRAddr) {
    (c.Running? && c.ip == at) || (c.Left? && c.target == Some(at.addr) && at.inum == 0)
  }

  /**
   * The registers after the run are what their expressions say on the registers and the memory before it; the memory
   * is what the stores make of it, of which the entries for memory are the last to each address; and control is where
   * the instruction pointer's expression says, or behind the last instruction.
   */
  ghost predicate Described<M>(m: Machine<M>, arch: Arch, sizes: Name -> Size, start: Start<M>, s: Entries,
                               stores: seq<Stored>, last: Insn, c: Config<M>) {
    && !c.Stuck? && c.mem == MemoryAfter(m, start, stores) && StoresKept(s, stores)
    && RegsFollow(m, arch, sizes, start, c.regs, s)
    && match Lookup(s, IP)
       case Some(e) => IsAt(c, EvalPlace(m, e, start))
       case None => if last.Next().Some? then c.Running? && c.ip == last.Next().value else c.Left? && c.target.None?
  }

  lemma LastIsPlain<M>(items: Items, m: Machine<M>, arch: Arch, sizes: Name -> Size, code: seq<Insn>, start: Start<M>)
    requires Copies(m) && forall k :: k in items ==> items[k].WellFormed()
    requires Straight(items, sizes, code) && PointerKnown(arch, sizes, code, start.regs) && Plain(code[|code| - 1])
    ensures SymbolicOfAll(code).Ok?
    ensures Described(m, arch, sizes, start, SymbolicOfAll(code).value, StoresOf(code), code[|code| - 1],
                      Run(items, m, arch, Running(code[0].ir, start.regs, start.mem), |code|))
  {
    hide PointersAgree, PointerKnown, StoresKept, StoresOf, MemoryAfter, LoadsFirst;
    hide Sized, Plain, Copies, WrittenBeforeRead, Live, LiveAt, SymbolicOf, SymbolicOfAll, Execute, Prepared;
    hide Insn.WellFormed, Insn.Next, RegsFollow, TempsFollow;
    var n := |code| - 1;
    StraightRun(items, m, arch, sizes, code, start, n);
    var c := Run(items, m, arch, Running(code[0].ir, start.regs, start.mem), n);
    StartsInStep(items, m, arch, sizes, code, start, n, c);
    SourcesLive(code, n);
    var regs, s := Prepared(arch, c.ip, c.regs), SymbolicOfAll(code[..n]).value;
    PointersKnown(m, arch, sizes, code, start, c.regs, n);
    PlainStep(m, arch, sizes, code, start, regs, s, n, c.mem);
    assert code[..n + 1] == code;
  }

  // ---------- The jump at the end ----------

  /** The target of a jump through a register is in the state if an earlier instruction wrote it. */
  ghost predicate TargetHeld(insn: Insn, s: Entries) {
    insn.c.VarArg? ==> Lookup(s, ArgSym(insn, insn.c)).Some?
  }

  /** The jump's target expression names the place the emulator jumps to. */
  lemma TargetAgrees<M>(m: Machine<M>, arch: Arch, sizes: Name -> Size, start: Start<M>, regs: Regs, s: Entries,
                        insn: Insn, live: set<Var>, mem: M)
    requires insn.WellFormed() && Jumps(insn) && Sized(sizes, insn)
    requires Agrees(m, arch, sizes, start, regs, s, insn.ir.addr, live)
    requires insn.c.VarArg? && insn.c.v.Temp? ==> insn.c.v in live
    requires TargetHeld(insn, s) && PointersAgree(m, arch, start, regs, s, insn)
    ensures TargetSym(insn, s) != Nothing
    ensures Value(insn.a, regs) == 0 ==> Execute(m, arch, insn, regs, mem) == Effect(regs, mem, Fall)
    ensures Value(insn.a, regs) != 0 ==>
      var e, at := Execute(m, arch, insn, regs, mem), EvalPlace(m, TargetSym(insn, s), start);
      e == Effect(regs, mem, Jump(at)) || (e == Effect(regs, mem, Away(at.addr)) && at.inum == 0)
  {
    ExecuteJump(m, arch, insn, regs, mem);
    hide Agrees, Lookup, Modulus, Insn.Next, Execute, Insn.WellFormed, Eval;
    if insn.c.VarArg? {
      OperandAgrees(m, arch, sizes, start, regs, s, insn, insn.c, live);
      var e := ArgIn(insn, insn.c, s);
      assert Lookup(s, ArgSym(insn, insn.c)) == Some(e);
      PlaceOfNumber(m, e, start);
    }
  }

  lemma ExecuteJump<M>(m: Machine<M>, arch: Arch, insn: Insn, regs: Regs, mem: M)
    requires insn.WellFormed() && Jumps(insn)
    ensures Execute(m, arch, insn, regs, mem) == Effect(regs, mem,
      if Value(insn.a, regs) == 0 then Fall
      else if insn.c.Loc? then Jump(insn.c.loc)
      else if insn.c.Const? then Jump(IRAddr(Truncate(insn.c.val, insn.c.size), 0))
      else Away(Value(insn.c, regs)))
  {
  }

  /** A data expression names the place at its value, also when the jump turns its number into a place. */
  lemma PlaceOfNumber<M>(m: Machine<M>, e: Sym, start: Start<M>)
    requires Proper(e)
    ensures EvalPlace(m, e, start) == IRAddr(Eval(m, e, start), 0)
    ensures e.Number? ==> Eval(m, e, start) == e.num
  {
  }

  lemma IPRecorded<M>(m: Machine<M>, arch: Arch, sizes: Name -> Size, start: Start<M>, regs: Regs, s: Entries, e: Sym)
    requires RegsFollow(m, arch, sizes, start, regs, s)
    ensures RegsFollow(m, arch, sizes, start, regs, Updated(s, IP, e))
    ensures Lookup(Updated(s, IP, e), IP) == Some(e)
    ensures forall stores :: StoresKept(s, stores) ==> StoresKept(Updated(s, IP, e), stores)
  {
    forall stores | StoresKept(s, stores)
      ensures StoresKept(Updated(s, IP, e), stores)
    {
      MemoryUntouched(s, IP, e, stores);
    }
    hide Lookup, Updated, Eval;
    LookupUpdated(s, IP, e, IP);
    forall v: Var | v.Reg? && v != InstructionPointer(arch)
      ensures Follows(m, sizes, start, regs, Updated(s, IP, e), Name(v, None))
    {
      LookupUpdated(s, IP, e, Key(sizes, Name(v, None)));
      assert Follows(m, sizes, start, regs, s, Name(v, None));
    }
  }

  lemma JumpOperandsLive(insn: Insn, live: set<Var>)
    requires insn.WellFormed() && Jumps(insn)
    requires forall v :: v in insn.Src() && v.Temp? ==> v in live
    ensures insn.a.VarArg? && insn.a.v.Temp? ==> insn.a.v in live
    ensures insn.c.VarArg? && insn.c.v.Temp? ==> insn.c.v in live
  {
    assert insn.a.VarArg? ==> insn.a.v in ArgVars(insn.a);
    assert insn.c.VarArg? ==> insn.c.v in ArgVars(insn.c);
  }

  /** Control goes where the instruction pointer's expression says, and falls through if there is none. */
  ghost predicate Steered<M>(m: Machine<M>, start: Start<M>, s: Entries, insn: Insn, control: Control) {
    match Lookup(s, IP)
    case Some(exp) =>
      var at := EvalPlace(m, exp, start);
      control == Jump(at) || (control == Away(at.addr) && at.inum == 0) || (control == Fall && insn.Next() == Some(at))
    case None => control == Fall
  }

  /** The jump that ends the code, taken or not. */
  lemma JumpStep<M>(m: Machine<M>, arch: Arch, sizes: Name -> Size, start: Start<M>, regs: Regs, s: Entries,
                    insn: Insn, live: set<Var>, mem: M)
    requires insn.WellFormed() && Jumps(insn) && Sized(sizes, insn)
    requires Agrees(m, arch, sizes, start, regs, s, insn.ir.addr, live)
    requires forall v :: v in insn.Src() && v.Temp? ==> v in live
    requires TargetHeld(insn, s) && PointersAgree(m, arch, start, regs, s, insn)
    ensures SymbolicOf(insn, s).Ok?
    ensures var e, s' := Execute(m, arch, insn, regs, mem), SymbolicOf(insn, s).value;
      && e.regs == regs && e.mem == mem
      && RegsFollow(m, arch, sizes, start, regs, s')
      && (forall stores :: StoresKept(s, stores) ==> StoresKept(s', stores))
      && Steered(m, start, s', insn, e.control)
  {
    hide Lookup, Updated, TargetSym, RegsFollow, TempsFollow, StoresKept, Truncate, ArgIn, Execute;
    JumpOperandsLive(insn, live);
    assert insn.op == JCC && Readable(insn.a) && (insn.a.VarArg? ==> insn.Next().Some?);
    TargetAgrees(m, arch, sizes, start, regs, s, insn, live, mem);
    OperandAgrees(m, arch, sizes, start, regs, s, insn, insn.a, live);
    hide Insn.Next, Insn.Src, Insn.WellFormed, Sized, Jumps;
    if insn.a.Const? {
      if Truncate(insn.a.val, insn.a.size) != 0 {
        IPRecorded(m, arch, sizes, start, regs, s, TargetSym(insn, s));
      }
    } else {
      var next := insn.Next().value;
      assert EvalPlace(m, Place(next), start) == next;
      IPRecorded(m, arch, sizes, start, regs, s, Cond(ArgIn(insn, insn.a, s), TargetSym(insn, s), Place(next)));
    }
  }

  // ---------- The theorems ----------

  /** The state holds a register exactly if some instruction wrote it. */
  lemma {:induction false} HeldIsWritten(code: seq<Insn>, n: nat, v: Var, size: Size)
    requires n <= |code| && forall i :: 0 <= i < n ==> Plain(code[i])
    requires v.Reg? && SymbolicOfAll(code[..n]).Ok?
    ensures Lookup(SymbolicOfAll(code[..n]).value, Val(Name(v, None), size)).Some? <==> Written(code, n, v)
  {
    hide Lookup, Updated, Plain, SymbolicOf, SymbolicOfAll, Insn.Dst, Written;
    if n > 0 {
      SymbolicOfNext(code, n - 1);
      HeldIsWritten(code, n - 1, v, size);
      WrittenNext(code, n - 1, v);
      HeldNext(code[n - 1], SymbolicOfAll(code[..n - 1]).value, v, size);
    } else {
      NothingWritten(code, v);
      NothingHeld(Val(Name(v, None), size));
    }
  }

  lemma HeldNext(insn: Insn, s: Entries, v: Var, size: Size)
    requires Plain(insn) && v.Reg? && SymbolicOf(insn, s).Ok?
    ensures var val := Val(Name(v, None), size);
      Lookup(SymbolicOf(insn, s).value, val).Some? <==> Lookup(s, val).Some? || v in insn.Dst()
  {
    hide Lookup, Updated;
    if insn.op == STM {
      var w := StoredBy(insn, s);
      LookupUpdated(s, Ptr(w.at, w.size), w.val, Val(Name(v, None), size));
    } else if insn.op != NONE {
      var a, b := ArgIn(insn, insn.a, s), ArgIn(insn, insn.b, s);
      var e := if insn.op == STR then a else if insn.op == LDM then Ptr(a, ArgSize(insn.c)) else Apply(insn.op, a, b);
      LookupUpdated(s, ArgSym(insn, insn.c), e, Val(Name(v, None), size));
    }
  }

  lemma WrittenNext(code: seq<Insn>, n: nat, v: Var)
    requires n < |code|
    ensures Written(code, n + 1, v) <==> Written(code, n, v) || v in code[n].Dst()
  {
  }

  lemma NothingWritten(code: seq<Insn>, v: Var)
    ensures !Written(code, 0, v) && SymbolicOfAll(code[..0]) == Ok([])
  {
    hide SymbolicOf;
  }

  lemma NothingHeld(val: Sym)
    ensures Lookup([], val).None?
  {
  }

  /** If the code ends by a jump through a register, an earlier instruction wrote the register. */
  ghost predicate TargetWritten(code: seq<Insn>)
    requires |code| > 0
  {
    var last := code[|code| - 1];
    last.op == JCC && last.c.VarArg? && last.c.v.Reg? ==> Written(code, |code| - 1, last.c.v)
  }

  lemma WrittenTargetIsHeld<M>(items: Items, m: Machine<M>, arch: Arch, sizes: Name -> Size, code: seq<Insn>,
                               start: Start<M>, regs: Regs, s: Entries, live: set<Var>)
    requires Straight(items, sizes, code) && Jumps(code[|code| - 1])
    requires SymbolicOfAll(code[..|code| - 1]) == Ok(s)
    requires Agrees(m, arch, sizes, start, regs, s, code[|code| - 1].ir.addr, live)
    requires var last := code[|code| - 1]; last.c.VarArg? && last.c.v.Temp? ==> last.c.v in live
    ensures TargetWritten(code) <==> TargetHeld(code[|code| - 1], s)
  {
    hide SymbolicOfAll, Lookup, Plain, Written;
    var last := code[|code| - 1];
    if last.c.VarArg? {
      if last.c.v.Reg? {
        HeldIsWritten(code, |code| - 1, last.c.v, last.c.size);
      } else {
        assert Follows(m, sizes, start, regs, s, NameOf(last, last.c.v));
      }
    }
  }

  lemma LastJumps<M>(items: Items, m: Machine<M>, arch: Arch, sizes: Name -> Size, code: seq<Insn>, start: Start<M>)
    requires Copies(m) && forall k :: k in items ==> items[k].WellFormed()
    requires Straight(items, sizes, code) && PointerKnown(arch, sizes, code, start.regs)
    requires Jumps(code[|code| - 1]) && TargetWritten(code)
    ensures SymbolicOfAll(code).Ok?
    ensures Described(m, arch, sizes, start, SymbolicOfAll(code).value, StoresOf(code), code[|code| - 1],
                      Run(items, m, arch, Running(code[0].ir, start.regs, start.mem), |code|))
  {
    hide PointersAgree, PointerKnown, StoresKept, MemoryAfter, LoadsFirst, StoredBy;
    hide Sized, Plain, Jumps, Copies, WrittenBeforeRead, TargetWritten, TargetHeld, Live, LiveAt, SymbolicOf;
    hide SymbolicOfAll, Execute, Prepared, Insn.WellFormed, Insn.Next, RegsFollow, TempsFollow, Lookup, EvalPlace;
    var n := |code| - 1;
    StraightRun(items, m, arch, sizes, code, start, n);
    var c := Run(items, m, arch, Running(code[0].ir, start.regs, start.mem), n);
    StartsInStep(items, m, arch, sizes, code, start, n, c);
    SourcesLive(code, n);
    var regs, s := Prepared(arch, c.ip, c.regs), SymbolicOfAll(code[..n]).value;
    JumpOperandsLive(code[n], LiveAt(code, n));
    WrittenTargetIsHeld(items, m, arch, sizes, code, start, regs, s, LiveAt(code, n));
    PointersKnown(m, arch, sizes, code, start, c.regs, n);
    JumpStep(m, arch, sizes, start, regs, s, code[n], LiveAt(code, n), c.mem);
    SymbolicOfNext(code, n);
    StoresNext(code, n);
    assert code[n].op == JCC by { IsJump(code[n]); }
    assert code[..n + 1] == code;
  }

  lemma IsJump(insn: Insn)
    requires Jumps(insn)
    ensures insn.op == JCC
  {
  }

  /** Dropping the temporaries keeps the description. */
  lemma LastingDescribes<M>(m: Machine<M>, arch: Arch, sizes: Name -> Size, start: Start<M>, s: Entries,
                            stores: seq<Stored>, last: Insn, c: Config<M>)
    requires Described(m, arch, sizes, start, s, stores, last, c)
    ensures Described(m, arch, sizes, start, Lasting(s), stores, last, c)
  {
    hide Lookup, Eval, EvalPlace, Lasting, Insn.Next;
    LookupLasting(s, IP);
    forall at, size
      ensures Lookup(Lasting(s), Ptr(at, size)) == Latest(stores, at)
    {
      LookupLasting(s, Ptr(at, size));
    }
    forall v: Var | v.Reg? && v != InstructionPointer(arch)
      ensures Follows(m, sizes, start, c.regs, Lasting(s), Name(v, None))
    {
      LookupLasting(s, Key(sizes, Name(v, None)));
      assert Follows(m, sizes, start, c.regs, s, Name(v, None));
    }
  }

  /**
   * Straight code that loads before it stores, executed symbolically and by the emulator, from any registers and
   * memory, with any arithmetic and any memory: every register's expression has the value the register ends with, the
   * memory is that left by the recorded stores, and the instruction pointer's expression names the place control goes
   * to. Where the code reads the instruction pointer register, it has to hold the address it held before.
   */
  lemma SymbolicAgrees<M>(items: Items, m: Machine<M>, arch: Arch, sizes: Name -> Size, code: seq<Insn>,
                          start: Start<M>)
    requires Copies(m) && forall k :: k in items ==> items[k].WellFormed()
    requires Straight(items, sizes, code) && PointerKnown(arch, sizes, code, start.regs) && TargetWritten(code)
    ensures SymbolicOfAll(code).Ok?
    ensures var s, last, c := SymbolicOfAll(code).value, code[|code| - 1],
                              Run(items, m, arch, Running(code[0].ir, start.regs, start.mem), |code|);
      && Described(m, arch, sizes, start, s, StoresOf(code), last, c)
      && Described(m, arch, sizes, start, Lasting(s), StoresOf(code), last, c)
  {
    hide Described, Plain, Jumps, Sized, StoresOf, PointerKnown, TargetWritten, Copies, Run, SymbolicOfAll;
    hide Insn.WellFormed;
    if Plain(code[|code| - 1]) {
      LastIsPlain(items, m, arch, sizes, code, start);
    } else {
      LastJumps(items, m, arch, sizes, code, start);
    }
    LastingDescribes(m, arch, sizes, start, SymbolicOfAll(code).value, StoresOf(code), code[|code| - 1],
                     Run(items, m, arch, Running(code[0].ir, start.regs, start.mem), |code|));
  }

  /**
   * A jump through a register that the code did not write has no expression: a conditional one ends
   * symbolic execution, an unconditional one leaves no expression for the instruction pointer.
   */
  lemma UnwrittenTargetIsLost(items: Items, sizes: Name -> Size, code: seq<Insn>)
    requires Straight(items, sizes, code) && Jumps(code[|code| - 1]) && !TargetWritten(code)
    requires SymbolicOfAll(code[..|code| - 1]).Ok?
    ensures var a := code[|code| - 1].a;
      && (a.VarArg? ==> SymbolicOfAll(code) == Err(NoTarget))
      && (a.Const? && Truncate(a.val, a.size) != 0 ==>
            SymbolicOfAll(code).Ok? && Lookup(SymbolicOfAll(code).value, IP) == Some(Nothing))
  {
    hide Lookup, Updated, Written, Plain, Sized, SymbolicOfAll;
    var n := |code| - 1;
    var last, s := code[n], SymbolicOfAll(code[..n]).value;
    HeldIsWritten(code, n, last.c.v, last.c.size);
    SymbolicOfNext(code, n);
    assert code[..n + 1] == code;
    LookupUpdated(s, IP, Nothing, IP);
  }

  // ---------- Expressions that match ----------

  /** Expressions of one width, without comparisons and differences. */
  predicate Uniform(e: Sym, size: Size) {
    match e
    case Val(_, width) => width == size
    case Ptr(val, width) => width == size && Uniform(val, size)
    case Number(_, width) => width == size
    case Apply(op, a, b) => op !in {EQ, LT, SUB} && Uniform(a, size) && (b == Nothing || Uniform(b, size))
    case _ => false
  }

  /** Arithmetic in which sums, products of bits, and their like do not depend on the order. */
  ghost predicate Commutes<M>(m: Machine<M>) {
    forall op, x, y :: op in {ADD, AND, XOR, OR} ==> m.alu(op, x, y) == m.alu(op, y, x)
  }

  /** Apart from differences, what matches has the same value. */
  lemma {:induction false} MatchingIsEqual<M>(m: Machine<M>, start: Start<M>, x: Sym, y: Sym, size: Size)
    requires Commutes(m) && Matches(x, y) && Uniform(x, size) && Uniform(y, size)
    ensures Eval(m, x, start) == Eval(m, y, start) && SizeOf(x) == size && SizeOf(y) == size
    decreases x
  {
    match x
    case Ptr(val, _) => MatchingIsEqual(m, start, val, y.val, size);
    case Apply(op, a, b) =>
      if Matches(a, y.a) && Matches(b, y.b) {
        MatchingIsEqual(m, start, a, y.a, size);
        if b != Nothing { MatchingIsEqual(m, start, b, y.b, size); }
      } else {
        MatchingIsEqual(m, start, a, y.b, size);
        MatchingIsEqual(m, start, b, y.a, size);
      }
    case _ =>
  }

  /** The other operators do not match in the other order, unless the operands do. */
  lemma SwappedMatches(op: Op, a: Sym, b: Sym)
    ensures Matches(Apply(op, a, b), Apply(op, b, a)) <==> op in {ADD, SUB, AND, XOR, OR} || Matches(a, b)
  {
    MatchesItself(a);
    MatchesItself(b);
    if Matches(a, b) { MatchesBothWays(a, b); }
  }

  /** Two stores at a difference and at its opposite leave one entry, for both. */
  lemma OppositeIsOverwritten(s: Entries, a: Sym, b: Sym, size: Size, val: Sym, val': Sym)
    ensures var x, y := Ptr(Apply(SUB, a, b), size), Ptr(Apply(SUB, b, a), size);
      Lookup(Updated(Updated(s, x, val), y, val'), x) == Some(val')
  {
    hide Lookup, Updated, Matches;
    var x, y := Ptr(Apply(SUB, a, b), size), Ptr(Apply(SUB, b, a), size);
    SwappedMatches(SUB, b, a);
    assert Matches(y, x) by { PointersMatch(y, x); }
    LookupUpdated(Updated(s, x, val), y, val', x);
  }

  lemma PointersMatch(x: Sym, y: Sym)
    requires x.Ptr? && y.Ptr?
    ensures Matches(x, y) <==> Matches(x.val, y.val)
  {
  }

  // ---------- Loading behind a store ----------

  /**
   * A load does not look for what was stored before. Whatever memory it finds, the expression of its destination is
   * right exactly if the load gives what it would have given from the memory that the code found.
   */
  lemma LoadFollows<M>(m: Machine<M>, arch: Arch, sizes: Name -> Size, start: Start<M>, regs: Regs, s: Entries,
                       insn: Insn, live: set<Var>, mem: M)
    requires insn.WellFormed() && Loads(insn) && Sized(sizes, insn) && insn.c.v.Reg?
    requires PointersAgree(m, arch, start, regs, s, insn)
    requires Agrees(m, arch, sizes, start, regs, s, insn.ir.addr, live)
    requires forall v :: v in insn.Src() && v.Temp? ==> v in live
    ensures SymbolicOf(insn, s).Ok?
    ensures var size, at := ArgSize(insn.c), Value(insn.a, regs);
      Follows(m, sizes, start, Execute(m, arch, insn, regs, mem).regs, SymbolicOf(insn, s).value,
              Name(insn.c.v, None))
      <==> Truncate(m.load(mem, at, size), size) == Truncate(m.load(start.mem, at, size), size)
  {
    LoadOperand(insn, live);
    ExecuteLoads(m, arch, insn, regs, mem);
    hide Agrees, Lookup, Updated, ArgIn, Resolve, Truncate, Value, Execute, Insn.Src, Insn.WellFormed;
    OperandAgrees(m, arch, sizes, start, regs, s, insn, insn.a, live);
    var key, e := ArgSym(insn, insn.c), Ptr(ArgIn(insn, insn.a, s), ArgSize(insn.c));
    LookupUpdated(s, key, e, Key(sizes, Name(insn.c.v, None)));
  }

  /** Memory that keeps what is stored. */
  function Cells(): Machine<map<int, int>> {
    Machine((op: Op, x: Operand, y: Operand) => if x.Operand? then x.val else 0,
            (mem: map<int, int>, at: int, size: Size) => if at in mem then mem[at] else 0,
            (mem: map<int, int>, at: int, size: Size, val: int) => mem[at := val],
            (ir: IRAddr, vals: seq<int>, v: Var) => 0,
            (ir: IRAddr, vals: seq<int>, mem: map<int, int>, v: Var) => 0,
            (ir: IRAddr, vals: seq<int>, mem: map<int, int>) => mem)
  }

  /** Stores 5 at the address in ECX and loads it into EAX. */
  function StoreThenLoad(): seq<Insn> {
    var at, flags := VarArg(Reg("R_ECX"), U32), Flags(false, false, false, true, false);
    [Insn(IRAddr(0, 0), 1, STM, Const(5, U32), NoArg, at, flags, None, None, None),
     Insn(IRAddr(1, 0), 1, LDM, at, NoArg, VarArg(Reg("R_EAX"), U32), flags, None, None, None)]
  }

  /** The emulator ends with 5 in EAX, and its expression has the value that stood in memory before. */
  lemma StoredIsNotLoaded()
    ensures var items := map[IRAddr(0, 0) := StoreThenLoad()[0], IRAddr(1, 0) := StoreThenLoad()[1]];
      var c := Run(items, Cells(), X86, Running(IRAddr(0, 0), map[], map[]), 2);
      && c.Running? && Value(VarArg(Reg("R_EAX"), U32), c.regs) == 5
      && SymbolicOfAll(StoreThenLoad()).Ok?
      && var e := Lookup(SymbolicOfAll(StoreThenLoad()).value, Val(Name(Reg("R_EAX"), None), U32));
         && e == Some(Ptr(Val(Name(Reg("R_ECX"), None), U32), U32))
         && Eval(Cells(), e.value, Start(map[], map[])) == 0
  {
    StoreThenLoadRuns();
    StoreThenLoadState();
  }

  lemma StoreThenLoadRuns()
    ensures var items := map[IRAddr(0, 0) := StoreThenLoad()[0], IRAddr(1, 0) := StoreThenLoad()[1]];
      var c := Run(items, Cells(), X86, Running(IRAddr(0, 0), map[], map[]), 2);
      c.Running? && Value(VarArg(Reg("R_EAX"), U32), c.regs) == 5
  {
    var items := map[IRAddr(0, 0) := StoreThenLoad()[0], IRAddr(1, 0) := StoreThenLoad()[1]];
    var c := Running(IRAddr(0, 0), map[], map[]);
    OneStep(items, Cells(), X86, c);
    var c1 := Run(items, Cells(), X86, c, 1);
    assert c1 == Running(IRAddr(1, 0), map[Reg("R_EIP") := 0], map[0 := 5]);
    var load := StoreThenLoad()[1];
    ExecuteLoads(Cells(), X86, load, Prepared(X86, load.ir, c1.regs), c1.mem);
  }

  lemma StoreThenLoadState()
    ensures SymbolicOfAll(StoreThenLoad()).Ok?
    ensures Lookup(SymbolicOfAll(StoreThenLoad()).value, Val(Name(Reg("R_EAX"), None), U32))
         == Some(Ptr(Val(Name(Reg("R_ECX"), None), U32), U32))
  {
    var code := StoreThenLoad();
    OneSymbolic(code[0]);
    assert code[..1] == [code[0]] && code[..2] == code;
    SymbolicOfNext(code, 1);
    var s, at := SymbolicOf(code[0], []).value, Val(Name(Reg("R_ECX"), None), U32);
    NothingHeld(at);
    assert Lookup(s, at).None? by { StoredEntry(at, Number(5, U32), at); }
    hide SymbolicOfAll, Lookup, Updated;
    LookupUpdated(s, ArgSym(code[1], code[1].c), Ptr(at, U32), Val(Name(Reg("R_EAX"), None), U32));
  }

  lemma StoredEntry(at: Sym, val: Sym, key: Sym)
    requires key.Val?
    ensures var s := [Entry(Ptr(at, U32), val)];
      Updated([], Ptr(at, U32), val) == s && Lookup(s, key).None?
  {
  }

  // ---------- Reading the instruction pointer ----------

  /**
   * The emulator sets the instruction pointer register before every instruction, symbolic execution does
   * not. A copy of the register therefore has the right expression exactly if the register held the
   * address of the machine instruction before the code ran.
   */
  lemma PointerReadAgrees<M>(items: Items, m: Machine<M>, arch: Arch, sizes: Name -> Size, insn: Insn, start: Start<M>)
    requires Copies(m) && forall k :: k in items ==> items[k].WellFormed()
    requires insn.ir in items && items[insn.ir] == insn && insn.op == STR && IsPointer(arch, insn.a)
    requires insn.c.VarArg? && insn.c.v.Reg? && ArgSized(sizes, insn, insn.a) && ArgSized(sizes, insn, insn.c)
    requires insn.c.size == insn.a.size && (insn.b.NoArg? || insn.b.Const?)
    ensures SymbolicOfAll([insn]).Ok?
    ensures var c := Run(items, m, arch, Running(insn.ir, start.regs, start.mem), 1);
      (c.Running? || c.Left?) &&
      (Follows(m, sizes, start, c.regs, SymbolicOfAll([insn]).value, Name(insn.c.v, None)) <==>
       Truncate(Get(start.regs, insn.a.v), insn.a.size) == Truncate(insn.ir.addr, insn.a.size))
  {
    hide Run, Lookup, Updated, Execute, SymbolicOfAll, Truncate, Insn.WellFormed, Insn.Next;
    var regs := Prepared(arch, insn.ir, start.regs);
    OneStep(items, m, arch, Running(insn.ir, start.regs, start.mem));
    ExecuteComputes(m, arch, insn, regs, start.mem);
    OperandIs(insn.a, regs);
    assert Get(regs, insn.a.v) == insn.ir.addr;
    OneSymbolic(insn);
    EmptyIn(insn, insn.a);
    LookupUpdated([], ArgSym(insn, insn.c), ArgSym(insn, insn.a), Key(sizes, Name(insn.c.v, None)));
  }

  lemma OneSymbolic(insn: Insn)
    ensures SymbolicOfAll([insn]) == SymbolicOf(insn, [])
  {
    hide SymbolicOf;
    assert [insn][..0] == [];
    assert SymbolicOfAll([]) == Ok([]);
  }

  lemma EmptyIn(insn: Insn, arg: Arg)
    ensures ArgIn(insn, arg, []) == ArgSym(insn, arg)
  {
    NothingHeld(ArgSym(insn, arg));
  }
}
