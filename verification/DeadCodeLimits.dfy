/** Programs whose registers dead code elimination does not keep: why its theorem excepts them. */
module DeadCodeLimits {
  import opened Wrappers
  import opened Ir
  import opened Code
  import opened Graphs
  import opened Cfg
  import opened Dfg
  import opened DeadCode
  import opened DeadCodeCorrect
  import opened Optimizer
  import opened Vm

  const EBX := Reg("R_EBX")
  const ECX := Reg("R_ECX")
  const EAX := Reg("R_EAX")
  const ZF := Reg("R_ZF")
  const ESI := Reg("R_ESI")

  const PLAIN := Flags(false, false, false, true, false)
  const LAST := Flags(false, true, true, true, false)

  function Copy(at: nat, src: Var, dst: Var): Insn {
    Insn(IRAddr(at, 0), 1, STR, VarArg(src, U32), NoArg, VarArg(dst, U32), PLAIN, None, None, None)
  }

  function ReturnInsn(at: nat): Insn {
    Insn(IRAddr(at, 0), 1, JCC, Const(1, U1), NoArg, VarArg(ESI, U32), LAST, None, None, None)
  }

  // ---------- An unknown instruction that writes a flag and a register ----------
  // IR of this shape need not come from the translator: put_insn and from_file store any.

  const START := IRAddr(0, 0)
  const UNKNOWN := IRAddr(1, 0)
  const FINAL := IRAddr(2, 0)

  function MixedInsn(): Insn {
    Insn(UNKNOWN, 1, UNK, NoArg, NoArg, NoArg, PLAIN, None, Some([]), Some([ZF, EAX]))
  }

  function Mixed(): Items {
    map[START := Copy(0, EBX, ECX), UNKNOWN := MixedInsn(), FINAL := ReturnInsn(2)]
  }

  function MixedCode(): seq<Insn> {
    [Copy(0, EBX, ECX), MixedInsn(), ReturnInsn(2)]
  }

  lemma MixedBlock()
    ensures WellFormedCode(Mixed()) && Resolves(Mixed(), START)
    ensures BlockAt(Mixed(), START) == Ok(MixedCode())
    ensures forall x :: Reachable(Mixed(), START, x) <==> x == START
    ensures forall p :: IsPath(Mixed(), START, p) <==> p == [START]
  {
    MixedBlockAt();
    MixedIsCode();
    hide WellFormedCode, BlockAt, Resolves;
    assert SuccBlocks(Mixed(), START) == {};
    assert IsPath(Mixed(), START, [START]);
    forall p | IsPath(Mixed(), START, p)
      ensures p == [START]
    {
      NoSuccessors(Mixed(), START, p);
    }
  }

  lemma MixedIsCode()
    ensures WellFormedCode(Mixed()) && Resolves(Mixed(), START)
  {
  }

  lemma MixedBlockAt()
    ensures BlockAt(Mixed(), START) == Ok(MixedCode())
  {
    var items, c, u, r := Mixed(), Copy(0, EBX, ECX), MixedInsn(), ReturnInsn(2);
    assert MachineCode(items, START) == Ok([c]) && MachineCode(items, UNKNOWN) == Ok([u]) &&
        MachineCode(items, FINAL) == Ok([r]);
    assert AsmBlock(items, 2) == Ok([r]);
    assert AsmBlock(items, 1) == Ok([u] + [r]);
    assert AsmBlock(items, 0) == Ok([c] + ([u] + [r]));
    assert [c] + ([u] + [r]) == MixedCode() && MixedCode()[0..] == MixedCode();
    MixedCut(c, u, r);
  }

  lemma MixedCut(c: Insn, u: Insn, r: Insn)
    requires !c.flags.bbEnd && !u.flags.bbEnd && r.flags.bbEnd
    ensures CutAtEnd([c, u, r]) == Some([c, u, r])
  {
    assert [u, r][1..] == [r] && [c, u, r][1..] == [u, r];
    assert CutAtEnd([r]) == Some([r]);
    assert CutAtEnd([u, r]) == Some([u] + [r]);
    assert [u] + [r] == [u, r] && [c] + [u, r] == [c, u, r];
    assert CutAtEnd([c, u, r]) == Some([c] + [u, r]);
  }

  lemma NoSuccessors(items: Items, from: IRAddr, p: seq<IRAddr>)
    requires SuccBlocks(items, from) == {} && IsPath(items, from, p)
    ensures p == [from]
  {
    assert |p| > 0 && p[0] == from;
    hide SuccBlocks, IsPath;
    if |p| > 1 {
      PathStep(items, from, p, 1);
      assert false;
    }
  }

  lemma PathStep(items: Items, from: IRAddr, p: seq<IRAddr>, i: nat)
    requires IsPath(items, from, p) && 0 < i < |p|
    ensures p[i] in SuccBlocks(items, p[i - 1])
  {
  }

  /** The instruction feeds nobody but the exit, and its first destination, a flag, drops all its edges there. */
  lemma MixedFeedsNobody(nodes: Nodes, edges: set<DFGEdge>)
    requires IsDFG(Mixed(), X86, START, nodes, edges)
    ensures forall e :: e in LiveEdges(nodes, edges, false) ==> e.src != At(UNKNOWN)
  {
    hide FlowEdge, InFunction, EntryDefines, BlockOf, BlockEdge;
    MixedNodes(nodes, edges);
    MixedFlows();
    assert nodes[At(UNKNOWN)] == Some(MixedInsn());
    assert DropsAtExit(MixedInsn(), false);
  }

  lemma MixedIsDeleted(nodes: Nodes, edges: set<DFGEdge>, deleted: set<Key>)
    requires Setting(Mixed(), X86, START, nodes, edges, false, deleted)
    requires Sustained(nodes, LiveEdges(nodes, edges, false), nodes.Keys - deleted)
    ensures At(UNKNOWN) in deleted && At(START) !in deleted && At(FINAL) !in deleted
  {
    hide IsDFG, LiveEdges, WellFormedCode;
    MixedNodes(nodes, edges);
    MixedFeedsNobody(nodes, edges);
    assert Removable(MixedInsn());
    assert At(UNKNOWN) in deleted;
    if At(FINAL) in deleted {
      DeletedIsRemovable(Mixed(), X86, START, nodes, edges, false, deleted, FINAL);
      assert false;
    }
  }

  lemma MixedNodes(nodes: Nodes, edges: set<DFGEdge>)
    requires IsDFG(Mixed(), X86, START, nodes, edges)
    ensures At(START) in nodes && At(UNKNOWN) in nodes && Entry in nodes && Exit in nodes
    ensures nodes[At(START)] == Some(Copy(0, EBX, ECX)) && nodes[At(UNKNOWN)] == Some(MixedInsn())
    ensures Edge(At(START), Exit, ECX) in LiveEdges(nodes, edges, false)
    ensures Edge(Entry, At(START), EBX) in LiveEdges(nodes, edges, false)
  {
    hide FlowEdge, BlockEdge, Reachable, WellFormedCode, EntryDefines, BlockOf, InBlock, InFunction, MixedInsn, Copy;
    MixedFlows();
    MixedInFunction();
    MixedValues();
  }

  lemma MixedValues()
    ensures START in Mixed() && Mixed()[START] == Copy(0, EBX, ECX)
    ensures UNKNOWN in Mixed() && Mixed()[UNKNOWN] == MixedInsn()
    ensures !DropsAtExit(Copy(0, EBX, ECX), false)
  {
  }

  lemma MixedInFunction()
    ensures InFunction(Mixed(), START, START) && InFunction(Mixed(), START, UNKNOWN)
  {
    hide WellFormedCode, BlockAt, Reachable;
    MixedBlock();
    var bb := MixedCode();
    assert BlockOf(Mixed(), START) == bb;
    assert InFront(bb, 3, START) by { assert bb[0].ir == START; }
    assert InFront(bb, 3, UNKNOWN) by { assert bb[1].ir == UNKNOWN; }
  }

  /** All value flows of the program. */
  lemma MixedFlows()
    ensures EntryDefines(Mixed(), X86, START)
    ensures BlockEdge(X86, BlockOf(Mixed(), START), map[], Edge(At(START), Exit, ECX))
    ensures BlockEdge(X86, BlockOf(Mixed(), START), map[], Edge(Entry, At(START), EBX))
    ensures forall e :: FlowEdge(Mixed(), X86, START, e) && e.src == At(UNKNOWN) ==> e.dst == Exit
  {
    hide WellFormedCode, BlockAt, Reachable, BlockEdge, IsPath, AfterAll;
    MixedBlock();
    MixedStates();
    var bb := MixedCode();
    assert BlockOf(Mixed(), START) == bb;
    assert ECX in AfterAll(X86, bb, map[]);
    MixedEdges();
  }

  lemma MixedEdges()
    ensures var bb := MixedCode();
      && BlockEdge(X86, bb, map[], Edge(At(START), Exit, ECX))
      && BlockEdge(X86, bb, map[], Edge(Entry, At(START), EBX))
      && forall e :: BlockEdge(X86, bb, map[], e) ==> e.src == Entry || e.dst == Exit
  {
    hide AfterAll;
    MixedStates();
    var bb := MixedCode();
    assert ExitEdge(X86, bb, map[], Edge(At(START), Exit, ECX));
    assert UseEdge(X86, bb, map[], 0, Edge(Entry, At(START), EBX));
    assert MixedInsn().Src() == [];
    assert forall i: nat, e :: UseEdge(X86, bb, map[], i, e) ==> (i == 0 || i == 2) && e.src == Entry;
  }

  lemma MixedStates()
    ensures var bb := MixedCode();
      && AfterAll(X86, bb[..0], map[]) == map[]
      && AfterAll(X86, bb[..2], map[]) == map[ECX := START, ZF := UNKNOWN, EAX := UNKNOWN]
      && AfterAll(X86, bb, map[]) == map[ECX := START, ZF := UNKNOWN, EAX := UNKNOWN]
  {
    var c, u, bb := Copy(0, EBX, ECX), MixedInsn(), MixedCode();
    assert bb[..0] == [] && bb[..2] == [c, u] && [c, u][..1] == [c] && [c][..0] == [];
    assert AfterAll(X86, [c], map[]) == map[ECX := START];
    assert AfterAll(X86, [c, u], map[]) == After(X86, u, map[ECX := START]);
    assert ReturnInsn(2).Dst() == [];
  }

  /**
   * Whatever the optimiser returns for this program, the value that the unknown instruction gives the
   * register EAX is gone: the original run ends with it, the optimised run with the old value.
   */
  lemma MixedDestinationIsLost<M>(r: Result<set<Key>, OptimizationError>, m: Machine<M>, regs: Regs, mem: M)
    requires IsOptimization(Mixed(), X86, START, false, r)
    ensures r.Ok? && forall k :: k in Mixed() ==> Mixed()[k].WellFormed()
    ensures forall k :: k in Optimized(Mixed(), r.value) ==> Optimized(Mixed(), r.value)[k].WellFormed()
    ensures var c, c' := Run(Mixed(), m, X86, Running(START, regs, mem), 3),
                         Run(Optimized(Mixed(), r.value), m, X86, Running(START, regs, mem), 3);
      && c.Left? && c'.Left? && CleanExit(Mixed(), c.at)
      && Get(c.regs, EAX) == m.unknown(UNKNOWN, [], EAX)
      && Get(c'.regs, EAX) == Get(regs, EAX)
  {
    MixedBlock();
    MixedSucceeds(r);
    var nodes, edges :|
      Setting(Mixed(), X86, START, nodes, edges, false, r.value)
      && Sustained(nodes, LiveEdges(nodes, edges, false), nodes.Keys - r.value);
    MixedIsDeleted(nodes, edges, r.value);
    OptimizedIsWellFormed(Mixed(), X86, START, nodes, edges, false, r.value);
    MixedRuns(m, r.value, regs, mem);
  }

  lemma MixedSucceeds(r: Result<set<Key>, OptimizationError>)
    requires IsOptimization(Mixed(), X86, START, false, r)
    ensures r.Ok?
  {
    hide IsDFG, LiveEdges, WellFormedCode, BlockAt;
    MixedBlock();
    if r.Err? && r.error.Elimination? {
      var nodes, edges :|
        IsDFG(Mixed(), X86, START, nodes, edges)
        && forall s :: Sustained(nodes, LiveEdges(nodes, edges, false), s) ==> Entry !in s;
      MixedNodes(nodes, edges);
      EntryIsSustained(nodes, LiveEdges(nodes, edges, false));
      assert false;
    }
  }

  lemma EntryIsSustained(nodes: Nodes, live: set<DFGEdge>)
    requires Entry in nodes && At(START) in nodes && Exit in nodes
    requires Edge(At(START), Exit, ECX) in live && Edge(Entry, At(START), EBX) in live
    ensures Sustained(nodes, live, {Entry, At(START), Exit})
  {
    assert Stays(nodes, Exit);
  }

  lemma MixedRuns<M>(m: Machine<M>, deleted: set<Key>, regs: Regs, mem: M)
    requires At(UNKNOWN) in deleted && At(START) !in deleted && At(FINAL) !in deleted
    requires forall k :: k in Mixed() ==> Mixed()[k].WellFormed()
    requires forall k :: k in Optimized(Mixed(), deleted) ==> Optimized(Mixed(), deleted)[k].WellFormed()
    ensures var c, c' := Run(Mixed(), m, X86, Running(START, regs, mem), 3),
                         Run(Optimized(Mixed(), deleted), m, X86, Running(START, regs, mem), 3);
      && c.Left? && c'.Left? && CleanExit(Mixed(), c.at)
      && Get(c.regs, EAX) == m.unknown(UNKNOWN, [], EAX)
      && Get(c'.regs, EAX) == Get(regs, EAX)
  {
    hide Execute, Prepared, Copy, Mixed, MixedInsn, ReturnInsn, Optimized, Run, CleanExit, Insn.WellFormed, Insn.Next;
    var items, items' := Mixed(), Optimized(Mixed(), deleted);
    MixedItems(deleted);
    var start := Prepared(X86, START, regs);
    PreparedKeeps(START, regs);
    MixedCopies(m, start, mem);
    var e := Execute(m, X86, Copy(0, EBX, ECX), start, mem);
    FirstStep(items, m, START, UNKNOWN, regs, mem);
    FirstStep(items', m, START, UNKNOWN, regs, mem);
    var unknown := Prepared(X86, UNKNOWN, e.regs);
    PreparedKeeps(UNKNOWN, e.regs);
    MixedPasses(m, unknown, e.mem);
    var f := Execute(m, X86, MixedInsn(), unknown, e.mem);
    PreparedKeeps(FINAL, f.regs);
    PreparedKeeps(FINAL, unknown);
    MixedEnds(m, Prepared(X86, FINAL, f.regs), f.mem);
    MixedEnds(m, Prepared(X86, FINAL, unknown), e.mem);
    TwoSteps(items, m, UNKNOWN, FINAL, e.regs, e.mem);
    TwoSteps(items', m, UNKNOWN, FINAL, e.regs, e.mem);
    RunTwice(items, m, X86, Running(START, regs, mem), 1, 2);
    RunTwice(items', m, X86, Running(START, regs, mem), 1, 2);
  }

  /** One instruction that falls through. */
  lemma FirstStep<M>(items: Items, m: Machine<M>, first: IRAddr, second: IRAddr, regs: Regs, mem: M)
    requires forall k :: k in items ==> items[k].WellFormed()
    requires first in items && items[first].Next() == Some(second)
    requires Execute(m, X86, items[first], Prepared(X86, first, regs), mem).control == Fall
    ensures var e := Execute(m, X86, items[first], Prepared(X86, first, regs), mem);
      Run(items, m, X86, Running(first, regs, mem), 1) == Running(second, e.regs, e.mem)
  {
    hide Execute, Prepared, Insn.WellFormed, Insn.Next;
    OneStep(items, m, X86, Running(first, regs, mem));
  }

  /** A run of two instructions, the second of which leaves the function. */
  lemma TwoSteps<M>(items: Items, m: Machine<M>, first: IRAddr, second: IRAddr, regs: Regs, mem: M)
    requires forall k :: k in items ==> items[k].WellFormed()
    requires first in items && second in items && items[first].Next() == Some(second)
    requires Execute(m, X86, items[first], Prepared(X86, first, regs), mem).control == Fall
    requires var e := Execute(m, X86, items[first], Prepared(X86, first, regs), mem);
      var e' := Execute(m, X86, items[second], Prepared(X86, second, e.regs), e.mem);
      e'.control.Away? || (e'.control == Fall && items[second].Next() == None)
    ensures var e := Execute(m, X86, items[first], Prepared(X86, first, regs), mem);
      var e' := Execute(m, X86, items[second], Prepared(X86, second, e.regs), e.mem);
      var c := Run(items, m, X86, Running(first, regs, mem), 2);
      c.Left? && c.at == second && c.regs == e'.regs
  {
    hide Execute, Prepared, Insn.WellFormed, Insn.Next;
    var c := Running(first, regs, mem);
    assert Run(items, m, X86, c, 1) == Step(items, m, X86, c);
  }

  lemma MixedItems(deleted: set<Key>)
    requires At(UNKNOWN) in deleted && At(START) !in deleted
    ensures START in Mixed() && UNKNOWN in Mixed() && FINAL in Mixed() && CleanExit(Mixed(), FINAL)
    ensures Mixed()[START] == Optimized(Mixed(), deleted)[START] == Copy(0, EBX, ECX)
    ensures Mixed()[UNKNOWN] == MixedInsn() && Optimized(Mixed(), deleted)[UNKNOWN] == MixedInsn().Eliminate()
    ensures Mixed()[FINAL] == ReturnInsn(2)
    ensures At(FINAL) !in deleted ==> Optimized(Mixed(), deleted)[FINAL] == ReturnInsn(2)
  {
  }

  lemma PreparedKeeps(ip: IRAddr, regs: Regs)
    ensures forall v: Var :: v.Reg? && v.name != "R_EIP" ==> Get(Prepared(X86, ip, regs), v) == Get(regs, v)
  {
  }

  lemma MixedCopies<M>(m: Machine<M>, regs: Regs, mem: M)
    ensures var c := Copy(0, EBX, ECX);
      && c.WellFormed() && Execute(m, X86, c, regs, mem).control == Fall && c.Next() == Some(UNKNOWN)
      && Execute(m, X86, c, regs, mem).mem == mem
      && Get(Execute(m, X86, c, regs, mem).regs, EAX) == Get(regs, EAX)
  {
  }

  lemma MixedPasses<M>(m: Machine<M>, regs: Regs, mem: M)
    ensures var u := MixedInsn();
      && u.WellFormed() && Execute(m, X86, u, regs, mem).control == Fall && u.Next() == Some(FINAL)
      && Get(Execute(m, X86, u, regs, mem).regs, EAX) == m.unknown(UNKNOWN, [], EAX)
    ensures var u := MixedInsn().Eliminate();
      && u.WellFormed() && Execute(m, X86, u, regs, mem) == Effect(regs, mem, Fall) && u.Next() == Some(FINAL)
  {
    assert Values([], regs) == [];
  }

  lemma MixedEnds<M>(m: Machine<M>, regs: Regs, mem: M)
    ensures ReturnInsn(2).WellFormed()
    ensures var e := Execute(m, X86, ReturnInsn(2), regs, mem); e.control.Away? && e.regs == regs
  {
  }

  // ---------- A conditional jump to a computed address ----------

  const EDX := Reg("R_EDX")
  const BRANCH := IRAddr(1, 0)
  const BEHIND := IRAddr(2, 0)
  const RETURN := IRAddr(3, 0)

  function BranchInsn(): Insn {
    Insn(BRANCH, 1, JCC, VarArg(ZF, U1), NoArg, VarArg(ECX, U32), PLAIN.(bbEnd := true), None, None, None)
  }

  function Branching(): Items {
    map[START := Copy(0, EBX, EAX), BRANCH := BranchInsn(), BEHIND := Copy(2, EDX, EAX), RETURN := ReturnInsn(3)]
  }

  function Front(): seq<Insn> { [Copy(0, EBX, EAX), BranchInsn()] }
  function Back(): seq<Insn> { [Copy(2, EDX, EAX), ReturnInsn(3)] }

  lemma TwoInsnBlock(items: Items, addr: nat, x: Insn, y: Insn)
    requires IRAddr(addr, 0) in items && items[IRAddr(addr, 0)] == x
    requires IRAddr(addr + 1, 0) in items && items[IRAddr(addr + 1, 0)] == y
    requires x.flags.asmEnd && !x.flags.bbEnd && x.size == 1 && y.flags.asmEnd && y.flags.bbEnd
    ensures BlockAt(items, IRAddr(addr, 0)) == Ok([x, y])
  {
    assert MachineCode(items, IRAddr(addr, 0)) == Ok([x]) && MachineCode(items, IRAddr(addr + 1, 0)) == Ok([y]);
    assert AsmBlock(items, addr + 1) == Ok([y]);
    assert AsmBlock(items, addr) == Ok([x] + [y]);
    assert ([x] + [y])[0..] == [x, y];
    assert CutAtEnd([y]) == Some([y]);
    assert [x, y][1..] == [y];
    assert CutAtEnd([x, y]) == Some([x] + [y]);
  }

  lemma BranchingBlocks()
    ensures WellFormedCode(Branching()) && Resolves(Branching(), START)
    ensures BlockOf(Branching(), START) == Front() && BlockOf(Branching(), BEHIND) == Back()
    ensures BlockAt(Branching(), START).Ok? && BlockAt(Branching(), BEHIND).Ok?
    ensures SuccBlocks(Branching(), START) == {BEHIND} && SuccBlocks(Branching(), BEHIND) == {}
  {
    hide BlockAt, WellFormedCode;
    BranchingCode();
    BranchingBlockAt();
  }

  lemma BranchingCode()
    ensures WellFormedCode(Branching()) && Resolves(Branching(), START)
  {
  }

  lemma BranchingBlockAt()
    ensures BlockAt(Branching(), START) == Ok(Front()) && BlockAt(Branching(), BEHIND) == Ok(Back())
  {
    hide BlockAt;
    TwoInsnBlock(Branching(), 0, Copy(0, EBX, EAX), BranchInsn());
    TwoInsnBlock(Branching(), 2, Copy(2, EDX, EAX), ReturnInsn(3));
  }

  lemma {:induction false} BranchingPaths(p: seq<IRAddr>)
    requires IsPath(Branching(), START, p)
    ensures p == [START] || p == [START, BEHIND]
  {
    hide WellFormedCode, BlockOf, BlockAt, SuccBlocks;
    BranchingBlocks();
    if |p| > 1 {
      var q := p[..|p| - 1];
      BranchingPaths(q);
      PathStep(Branching(), START, p, |p| - 1);
      assert p == q + [p[|p| - 1]] && p[|p| - 2] == q[|q| - 1];
    } else {
      assert p == [p[0]];
    }
  }

  lemma BranchingStates()
    ensures AfterAll(X86, Front()[..0], map[]) == map[]
    ensures AfterAll(X86, Front()[..1], map[]) == map[EAX := START]
    ensures AfterAll(X86, Front(), map[]) == map[EAX := START]
    ensures AfterAll(X86, Back()[..0], map[EAX := START]) == map[EAX := START]
    ensures AfterAll(X86, Back()[..1], map[EAX := START]) == map[EAX := BEHIND]
    ensures AfterAll(X86, Back(), map[EAX := START]) == map[EAX := BEHIND]
  {
    assert Front()[..1] == [Copy(0, EBX, EAX)] && Front()[..1][..0] == [];
    assert Back()[..1] == [Copy(2, EDX, EAX)] && Back()[..1][..0] == [];
    assert After(X86, Copy(0, EBX, EAX), map[]) == map[EAX := START];
    assert After(X86, Copy(2, EDX, EAX), map[EAX := START]) == map[EAX := BEHIND];
    assert AfterAll(X86, Front(), map[]) == After(X86, BranchInsn(), AfterAll(X86, Front()[..1], map[]));
    assert AfterAll(X86, Back(), map[EAX := START])
        == After(X86, ReturnInsn(3), AfterAll(X86, Back()[..1], map[EAX := START]));
  }

  /** The first instruction feeds nobody: the exit is reached only behind the second copy. */
  lemma BranchingEdges(e: DFGEdge)
    requires BlockEdge(X86, Front(), map[], e) || BlockEdge(X86, Back(), map[EAX := START], e)
    ensures e.src != At(START)
  {
    hide AfterAll, BlockEdge;
    if BlockEdge(X86, Front(), map[], e) { FrontEdges(e); } else { BackEdges(e); }
  }

  lemma FrontEdges(e: DFGEdge)
    requires BlockEdge(X86, Front(), map[], e)
    ensures e.src == Entry
  {
    hide AfterAll;
    BranchingStates();
    assert Uses(X86, BranchInsn()) == [ZF, ECX] && Uses(X86, Copy(0, EBX, EAX)) == [EBX];
    assert forall i: nat :: UseEdge(X86, Front(), map[], i, e) ==> i <= 1 && e.src == Entry;
  }

  lemma BackEdges(e: DFGEdge)
    requires BlockEdge(X86, Back(), map[EAX := START], e)
    ensures e.src == Entry || e.src == At(BEHIND)
  {
    hide AfterAll;
    BranchingStates();
    assert Uses(X86, ReturnInsn(3)) == [ESI] && Uses(X86, Copy(2, EDX, EAX)) == [EDX];
    assert forall i: nat :: UseEdge(X86, Back(), map[EAX := START], i, e) ==> i <= 1 && e.src == Entry;
  }

  lemma BranchingFlows(e: DFGEdge)
    requires FlowEdge(Branching(), X86, START, e)
    ensures e.src != At(START)
  {
    hide BlockEdge, AfterAll, BlockOf;
    BranchingBlocks();
    BranchingStates();
    var p :| IsPath(Branching(), START, p) &&
      BlockEdge(X86, BlockOf(Branching(), p[|p| - 1]), PathState(Branching(), X86, p), e);
    BranchingPaths(p);
    assert [START, BEHIND][..1] == [START] && [START, BEHIND][0] == START && [START, BEHIND][1] == BEHIND;
    BranchingPathStates();
    BranchingEdges(e);
  }

  lemma BranchingPathStates()
    ensures PathState(Branching(), X86, [START]) == map[]
    ensures PathState(Branching(), X86, [START, BEHIND]) == map[EAX := START]
  {
    hide AfterAll, BlockOf;
    BranchingBlocks();
    BranchingStates();
    assert [START, BEHIND][..1] == [START];
  }

  lemma BranchingNodes(nodes: Nodes, edges: set<DFGEdge>)
    requires IsDFG(Branching(), X86, START, nodes, edges)
    ensures Entry in nodes && At(START) in nodes && nodes[At(START)] == Some(Copy(0, EBX, EAX))
    ensures At(BRANCH) in nodes && nodes[At(BRANCH)] == Some(BranchInsn())
    ensures Edge(Entry, At(BRANCH), ZF) in LiveEdges(nodes, edges, false)
    ensures forall e :: e in LiveEdges(nodes, edges, false) ==> e.src != At(START)
  {
    hide FlowEdge, Reachable, WellFormedCode, BlockOf, AfterAll, InFunction, EntryDefines;
    BranchingBlocks();
    BranchingStates();
    var e := Edge(Entry, At(BRANCH), ZF);
    assert UseEdge(X86, Front(), map[], 1, e);
    forall e | e in edges
      ensures e.src != At(START)
    {
      BranchingFlows(e);
    }
    BranchingInFunction();
  }

  lemma BranchingInFunction()
    ensures EntryDefines(Branching(), X86, START)
    ensures InFunction(Branching(), START, START) && InFunction(Branching(), START, BRANCH)
  {
    hide WellFormedCode, BlockOf, AfterAll, Reachable;
    BranchingBlocks();
    BranchingStates();
    assert EAX in AfterAll(X86, Front(), map[]);
    ReachableStart(Branching(), START);
    assert Front()[0].ir == START && Front()[1].ir == BRANCH;
    assert InFront(Front(), 2, START) && InFront(Front(), 2, BRANCH);
  }

  /**
   * Whatever the optimiser returns for this program, the run that leaves it by the conditional jump
   * ends without the value the first instruction gave EAX: the graph has no exit edges there.
   */
  lemma ComputedBranchLosesValue<M>(r: Result<set<Key>, OptimizationError>, m: Machine<M>, regs: Regs, mem: M)
    requires IsOptimization(Branching(), X86, START, false, r)
    requires Truncate(Get(regs, ZF), U1) != 0
    ensures r.Ok? && forall k :: k in Branching() ==> Branching()[k].WellFormed()
    ensures forall k :: k in Optimized(Branching(), r.value) ==> Optimized(Branching(), r.value)[k].WellFormed()
    ensures var c, c' := Run(Branching(), m, X86, Running(START, regs, mem), 2),
                         Run(Optimized(Branching(), r.value), m, X86, Running(START, regs, mem), 2);
      && c.Left? && c'.Left? && !CleanExit(Branching(), c.at)
      && Get(c.regs, EAX) == m.alu(STR, Operand(Truncate(Get(regs, EBX), U32), U32), NoOperand)
      && Get(c'.regs, EAX) == Get(regs, EAX)
  {
    hide WellFormedCode, BlockAt, Reachable, IsDFG, LiveEdges;
    BranchingBlocks();
    BranchingSucceeds(r);
    var nodes, edges :|
      Setting(Branching(), X86, START, nodes, edges, false, r.value)
      && Sustained(nodes, LiveEdges(nodes, edges, false), nodes.Keys - r.value);
    BranchingNodes(nodes, edges);
    assert Removable(Copy(0, EBX, EAX)) && At(START) in r.value;
    assert At(BRANCH) !in r.value;
    OptimizedIsWellFormed(Branching(), X86, START, nodes, edges, false, r.value);
    BranchingIsWellFormed();
    BranchingRuns(m, r.value, regs, mem);
  }

  lemma BranchingIsWellFormed()
    ensures forall k :: k in Branching() ==> Branching()[k].WellFormed()
  {
  }

  lemma BranchingSucceeds(r: Result<set<Key>, OptimizationError>)
    requires IsOptimization(Branching(), X86, START, false, r)
    ensures r.Ok?
  {
    hide IsDFG, LiveEdges, WellFormedCode, BlockAt;
    BranchingBlocks();
    if r.Err? && r.error.Elimination? {
      var nodes, edges :|
        IsDFG(Branching(), X86, START, nodes, edges)
        && forall s :: Sustained(nodes, LiveEdges(nodes, edges, false), s) ==> Entry !in s;
      BranchingNodes(nodes, edges);
      BranchIsSustained(nodes, LiveEdges(nodes, edges, false));
      assert false;
    }
    if r.Err? && r.error.Search? {
      hide Searched;
      assert r.error.search.Lookup?;
      var x, p :|
        IsPath(Branching(), START, p) && p[|p| - 1] == x && BlockAt(Branching(), x) == Err(r.error.search.fault);
      BranchingPaths(p);
      assert false;
    }
  }

  lemma BranchIsSustained(nodes: Nodes, live: set<DFGEdge>)
    requires Entry in nodes && At(BRANCH) in nodes && nodes[At(BRANCH)] == Some(BranchInsn())
    requires Edge(Entry, At(BRANCH), ZF) in live
    ensures Sustained(nodes, live, {Entry, At(BRANCH)})
  {
    assert Stays(nodes, At(BRANCH));
  }

  lemma BranchingRuns<M>(m: Machine<M>, deleted: set<Key>, regs: Regs, mem: M)
    requires At(START) in deleted && At(BRANCH) !in deleted && Truncate(Get(regs, ZF), U1) != 0
    requires forall k :: k in Branching() ==> Branching()[k].WellFormed()
    requires forall k :: k in Optimized(Branching(), deleted) ==> Optimized(Branching(), deleted)[k].WellFormed()
    ensures var c, c' := Run(Branching(), m, X86, Running(START, regs, mem), 2),
                         Run(Optimized(Branching(), deleted), m, X86, Running(START, regs, mem), 2);
      && c.Left? && c'.Left? && !CleanExit(Branching(), c.at)
      && Get(c.regs, EAX) == m.alu(STR, Operand(Truncate(Get(regs, EBX), U32), U32), NoOperand)
      && Get(c'.regs, EAX) == Get(regs, EAX)
  {
    hide Execute, Prepared, Copy, BranchInsn, Branching, Optimized, Run, CleanExit, Insn.WellFormed, Insn.Next;
    var items, items' := Branching(), Optimized(Branching(), deleted);
    var copy := Copy(0, EBX, EAX);
    BranchingItems(deleted);
    PreparedKeeps(START, regs);
    CopyStarts(m, Prepared(X86, START, regs), mem);
    var e := Execute(m, X86, copy, Prepared(X86, START, regs), mem);
    PreparedKeeps(BRANCH, e.regs);
    PreparedKeeps(BRANCH, Prepared(X86, START, regs));
    BranchLeaves(m, Prepared(X86, BRANCH, e.regs), mem);
    BranchLeaves(m, Prepared(X86, BRANCH, Prepared(X86, START, regs)), mem);
    TwoSteps(items, m, START, BRANCH, regs, mem);
    TwoSteps(items', m, START, BRANCH, regs, mem);
  }

  lemma BranchingItems(deleted: set<Key>)
    requires At(START) in deleted && At(BRANCH) !in deleted
    ensures START in Branching() && BRANCH in Branching() && !CleanExit(Branching(), BRANCH)
    ensures Branching()[START] == Copy(0, EBX, EAX)
    ensures Optimized(Branching(), deleted)[START] == Copy(0, EBX, EAX).Eliminate()
    ensures Branching()[BRANCH] == Optimized(Branching(), deleted)[BRANCH] == BranchInsn()
  {
  }

  lemma CopyStarts<M>(m: Machine<M>, regs: Regs, mem: M)
    ensures var c := Copy(0, EBX, EAX);
      var e := Execute(m, X86, c, regs, mem);
      && c.WellFormed() && e.control == Fall && e.mem == mem && c.Next() == Some(BRANCH)
      && e.regs == regs[EAX := m.alu(STR, Operand(Truncate(Get(regs, EBX), U32), U32), NoOperand)]
    ensures var c := Copy(0, EBX, EAX).Eliminate();
      c.WellFormed() && Execute(m, X86, c, regs, mem) == Effect(regs, mem, Fall) && c.Next() == Some(BRANCH)
  {
  }

  lemma BranchLeaves<M>(m: Machine<M>, regs: Regs, mem: M)
    requires Truncate(Get(regs, ZF), U1) != 0
    ensures BranchInsn().WellFormed()
    ensures var e := Execute(m, X86, BranchInsn(), regs, mem); e.control.Away? && e.regs == regs
  {
  }
}
