/** Elimination marks that an earlier elimination left in the storage: what the next optimisation loses by them. */
module StaleMarks {
  import opened Wrappers
  import opened Ir
  import opened Code
  import opened Graphs
  import opened Cfg
  import opened Dfg
  import opened DfgBuilder
  import opened DeadCode
  import opened DeadCodeCorrect
  import opened DeadCodeLimits
  import opened Renumbering
  import opened Gaps
  import opened RenumberingCorrect
  import opened Removal
  import opened Store
  import opened StoredRuns
  import opened Optimizer
  import opened Vm

  // ---------- What is lost ----------

  /**
   * An instruction of the graph that is not deleted now goes exactly if it was marked before: of what the elimination
   * keeps, the storage gets what had no mark.
   */
  lemma KeptIsLostIfMarked(items: Items, arch: Arch, from: IRAddr, deleted: set<Key>, nodes: Nodes, left: Items,
                           k: IRAddr)
    requires WellFormedCode(items) && Resolves(items, from) && BlocksStored(items, from)
    requires GraphAfter(items, arch, from, deleted, nodes) && Survivors(items, nodes, left)
    requires At(k) in nodes && At(k) !in deleted
    ensures k in items && (k !in left <==> items[k].flags.eliminated)
  {
    hide WellFormedCode, Resolves, BlocksStored, Searched, InFunction, Taken;
    SearchedIsStored(items, arch, from);
    assert Touched(nodes, k.addr);
    BlockIsTaken(items, from, k, k);
  }

  /** What is stored in the end, and which of the kept instructions are missing in it. */
  lemma MarkedIsLost(items: Items, arch: Arch, from: IRAddr, keepFlags: bool, deleted: set<Key>, nodes: Nodes,
                     items': Items)
    returns (left: Items, kept: Items)
    requires IsOptimization(items, arch, from, keepFlags, Ok(deleted))
    requires GraphAfter(items, arch, from, deleted, nodes) && Restored(items, nodes, deleted, items')
    ensures IsKept(items, nodes, deleted, left, kept) && Renumbered(kept, items')
    ensures forall k :: At(k) in nodes && At(k) !in deleted ==>
      k in items && (k !in left <==> items[k].flags.eliminated)
  {
    OptimizedIsThere(items, arch, from, keepFlags, deleted);
    hide IsOptimization, WellFormedCode, Resolves, BlocksStored, GraphAfter, Restored, HasInsns, IsGraph, Renumbered;
    hide Survivors, Filled;
    StoredHasInsns(items, arch, from, deleted, nodes);
    GraphIsGraph(items, arch, from, deleted, nodes);
    left, kept := RestoredIsRenumbered(items, nodes, deleted, items');
    forall k | At(k) in nodes && At(k) !in deleted
      ensures k in items && (k !in left <==> items[k].flags.eliminated)
    {
      KeptIsLostIfMarked(items, arch, from, deleted, nodes, left, k);
    }
  }

  lemma OptimizedIsThere(items: Items, arch: Arch, from: IRAddr, keepFlags: bool, deleted: set<Key>)
    requires IsOptimization(items, arch, from, keepFlags, Ok(deleted))
    ensures WellFormedCode(items) && Resolves(items, from) && BlocksStored(items, from)
  {
    hide WellFormedCode, Resolves, IsDFG, LiveEdges, Deletable, Sustained, Reachable, BlockAt;
  }

  /** The condition on marks under which storing keeps the meaning: kept instructions that are marked do nothing. */
  lemma DropsIdleExactly(items: Items, arch: Arch, from: IRAddr, deleted: set<Key>, nodes: Nodes)
    requires GraphAfter(items, arch, from, deleted, nodes)
    ensures DropsIdle(nodes) <==>
      && (forall k :: At(k) in nodes && At(k) !in deleted && items[k].flags.eliminated ==> Idle(items[k]))
      && (forall k :: At(k) in deleted ==> items[k].forcedNext.None? && !items[k].flags.ret)
  {
    hide Searched;
  }

  // ---------- Two eliminations, the second of which keeps flags ----------

  const MIDDLE := IRAddr(0, 1)
  const CLOSE := IRAddr(1, 0)

  const OPEN := PLAIN.(asmEnd := false)

  function Give(at: IRAddr, dst: Var, flags: Flags): Insn {
    Insn(at, 1, STR, VarArg(EBX, U32), NoArg, VarArg(dst, U32), flags, None, None, None)
  }

  function Register(): Insn { Give(START, EAX, OPEN) }
  function Flag(marked: bool): Insn { Give(MIDDLE, ZF, PLAIN.(eliminated := marked)) }

  /** A machine instruction that sets a register and a flag, and a return. */
  function Flagging(marked: bool): Items {
    map[START := Register(), MIDDLE := Flag(marked), CLOSE := ReturnInsn(1)]
  }

  function FlaggingCode(marked: bool): seq<Insn> {
    [Register(), Flag(marked), ReturnInsn(1)]
  }

  lemma FlaggingIsCode(marked: bool)
    ensures WellFormedCode(Flagging(marked)) && Resolves(Flagging(marked), START)
    ensures forall k :: k in Flagging(marked) ==> Flagging(marked)[k].WellFormed()
  {
  }

  lemma FlaggingBlockAt(marked: bool)
    ensures BlockAt(Flagging(marked), START) == Ok(FlaggingCode(marked))
  {
    var items, f, s, r := Flagging(marked), Register(), Flag(marked), ReturnInsn(1);
    assert MachineCode(items, MIDDLE) == Ok([s]) && MachineCode(items, CLOSE) == Ok([r]);
    assert MachineCode(items, START) == Ok([f] + [s]);
    assert AsmBlock(items, 1) == Ok([r]);
    assert AsmBlock(items, 0) == Ok([f] + [s] + [r]);
    assert [f] + [s] + [r] == FlaggingCode(marked) && FlaggingCode(marked)[0..] == FlaggingCode(marked);
    MixedCut(f, s, r);
  }

  lemma FlaggingPaths(marked: bool)
    ensures forall p :: IsPath(Flagging(marked), START, p) <==> p == [START]
    ensures forall x :: Reachable(Flagging(marked), START, x) <==> x == START
    ensures BlocksStored(Flagging(marked), START) && EndsFunction(FlaggingCode(marked))
  {
    FlaggingBlockAt(marked);
    hide BlockAt;
    var items := Flagging(marked);
    assert SuccBlocks(items, START) == {};
    assert IsPath(items, START, [START]);
    forall p | IsPath(items, START, p)
      ensures p == [START]
    {
      NoSuccessors(items, START, p);
    }
  }

  lemma FlaggingStates(marked: bool)
    ensures var bb := FlaggingCode(marked);
      && AfterAll(X86, bb[..0], map[]) == map[] && AfterAll(X86, bb[..1], map[]) == map[EAX := START]
      && AfterAll(X86, bb[..2], map[]) == map[EAX := START, ZF := MIDDLE]
      && AfterAll(X86, bb, map[]) == map[EAX := START, ZF := MIDDLE]
  {
    var f, s, bb := Register(), Flag(marked), FlaggingCode(marked);
    assert bb[..0] == [] && bb[..1] == [f] && bb[..2] == [f, s] && [f, s][..1] == [f] && [f][..0] == [];
    assert AfterAll(X86, [f], map[]) == map[EAX := START];
    assert AfterAll(X86, [f, s], map[]) == After(X86, s, map[EAX := START]);
    assert ReturnInsn(1).Dst() == [];
  }

  /** The values that leave the function are those of the register and of the flag; both come from the entry. */
  lemma FlaggingEdges(marked: bool)
    ensures var bb := FlaggingCode(marked);
      && BlockEdge(X86, bb, map[], Edge(At(START), Exit, EAX)) && BlockEdge(X86, bb, map[], Edge(At(MIDDLE), Exit, ZF))
      && BlockEdge(X86, bb, map[], Edge(Entry, At(START), EBX))
      && forall e :: BlockEdge(X86, bb, map[], e) ==> e.src == Entry || e.dst == Exit
  {
    FlaggingStates(marked);
    FlaggingPaths(marked);
    hide AfterAll;
    var bb := FlaggingCode(marked);
    assert ExitEdge(X86, bb, map[], Edge(At(START), Exit, EAX));
    assert ExitEdge(X86, bb, map[], Edge(At(MIDDLE), Exit, ZF));
    assert UseEdge(X86, bb, map[], 0, Edge(Entry, At(START), EBX));
    assert forall i: nat, e :: UseEdge(X86, bb, map[], i, e) ==> i <= 2 && e.src == Entry;
  }

  lemma FlaggingFunction(marked: bool)
    ensures EntryDefines(Flagging(marked), X86, START) && BlockOf(Flagging(marked), START) == FlaggingCode(marked)
    ensures forall k :: k in Flagging(marked) <==> InFunction(Flagging(marked), START, k)
    ensures forall k :: k in Flagging(marked) ==> !Flagging(marked)[k].LacksSources()
  {
    FlaggingBlockAt(marked);
    FlaggingPaths(marked);
    FlaggingStates(marked);
    hide BlockAt, AfterAll, Reachable;
    var bb := FlaggingCode(marked);
    assert BlockOf(Flagging(marked), START) == bb;
    assert EAX in AfterAll(X86, bb, map[]);
    assert bb[0].ir == START && bb[1].ir == MIDDLE && bb[2].ir == CLOSE;
    assert InFront(bb, 3, START) && InFront(bb, 3, MIDDLE) && InFront(bb, 3, CLOSE);
  }

  lemma FlaggingGraph(marked: bool, nodes: Nodes, edges: set<DFGEdge>)
    requires IsDFG(Flagging(marked), X86, START, nodes, edges)
    ensures Entry in nodes && Exit in nodes && At(START) in nodes && At(MIDDLE) in nodes && At(CLOSE) in nodes
    ensures forall k :: At(k) in nodes ==> k in Flagging(marked) && nodes[At(k)] == Some(Flagging(marked)[k])
    ensures Edge(At(START), Exit, EAX) in edges && Edge(At(MIDDLE), Exit, ZF) in edges
    ensures Edge(Entry, At(START), EBX) in edges
    ensures forall e :: e in edges ==> e.src == Entry || e.dst == Exit
  {
    FlaggingFunction(marked);
    FlaggingEdges(marked);
    FlaggingPaths(marked);
    hide BlockEdge, BlockOf, AfterAll, InFunction, EntryDefines, Flagging;
    forall e | e in edges
      ensures e.src == Entry || e.dst == Exit
    {
      var p :| IsPath(Flagging(marked), START, p) &&
        BlockEdge(X86, BlockOf(Flagging(marked), p[|p| - 1]), PathState(Flagging(marked), X86, p), e);
      assert p == [START] && PathState(Flagging(marked), X86, p) == map[];
    }
    FlaggingKeys(marked);
  }

  lemma FlaggingKeys(marked: bool)
    ensures START in Flagging(marked) && MIDDLE in Flagging(marked) && CLOSE in Flagging(marked)
    ensures Flagging(marked)[START] == Register() && Flagging(marked)[MIDDLE] == Flag(marked)
    ensures Flagging(marked)[CLOSE] == ReturnInsn(1)
    ensures forall k :: k in Flagging(marked) ==> k == START || k == MIDDLE || k == CLOSE
  {
  }

  /** The flag's edge to the exit is dropped exactly if flags are not kept. */
  lemma FlaggingLive(marked: bool, nodes: Nodes, edges: set<DFGEdge>, keepFlags: bool)
    requires IsDFG(Flagging(marked), X86, START, nodes, edges)
    ensures var live := LiveEdges(nodes, edges, keepFlags);
      && Edge(At(START), Exit, EAX) in live && Edge(Entry, At(START), EBX) in live
      && (keepFlags ==> Edge(At(MIDDLE), Exit, ZF) in live)
      && (!keepFlags ==> forall e :: e in live ==> e.src != At(MIDDLE))
  {
    FlaggingGraph(marked, nodes, edges);
    FlaggingKeys(marked);
    FlaggingDrops(marked, keepFlags);
    hide IsDFG, Flagging, DropsAtExit, Register, Flag;
  }

  lemma FlaggingDrops(marked: bool, keepFlags: bool)
    ensures !DropsAtExit(Register(), keepFlags) && (DropsAtExit(Flag(marked), keepFlags) <==> !keepFlags)
    ensures Removable(Flag(marked)) && !Removable(ReturnInsn(1))
  {
  }

  /** Of three instructions one feeds the exit, one cannot be removed, and one goes exactly if it feeds nobody. */
  lemma DeletedOfThree(nodes: Nodes, live: set<DFGEdge>, deleted: set<Key>, feeds: IRAddr, may: IRAddr, stays: IRAddr,
                       goes: bool, v: Var, w: Var)
    requires Deletable(nodes, live, deleted) && Sustained(nodes, live, nodes.Keys - deleted)
    requires forall k :: At(k) in nodes ==> k == feeds || k == may || k == stays
    requires At(may) in nodes && nodes[At(may)].Some? && Removable(nodes[At(may)].value)
    requires At(stays) in nodes && nodes[At(stays)].Some? && !Removable(nodes[At(stays)].value)
    requires Edge(At(feeds), Exit, v) in live
    requires if goes then forall e :: e in live ==> e.src != At(may) else Edge(At(may), Exit, w) in live
    ensures deleted == if goes then {At(may)} else {}
  {
    hide Sustained, Deletable, Removable;
    DeletedHere(nodes, live, deleted);
    Undeletable(nodes, live, deleted, Edge(At(feeds), Exit, v));
    if goes {
      Unfed(nodes, live, nodes.Keys - deleted, At(may));
    } else {
      Undeletable(nodes, live, deleted, Edge(At(may), Exit, w));
    }
    assert forall k :: k in deleted ==> k == At(k.ir);
  }

  /** Exactly the flag goes, and only if flags are not kept. */
  lemma FlaggingDeleted(marked: bool, nodes: Nodes, edges: set<DFGEdge>, keepFlags: bool, deleted: set<Key>)
    requires IsDFG(Flagging(marked), X86, START, nodes, edges)
    requires Deletable(nodes, LiveEdges(nodes, edges, keepFlags), deleted)
    requires Sustained(nodes, LiveEdges(nodes, edges, keepFlags), nodes.Keys - deleted)
    ensures deleted == if keepFlags then {} else {At(MIDDLE)}
  {
    FlaggingGraph(marked, nodes, edges);
    FlaggingLive(marked, nodes, edges, keepFlags);
    FlaggingKeys(marked);
    FlaggingDrops(marked, keepFlags);
    hide IsDFG, LiveEdges, Flagging, Register, Flag, ReturnInsn, Removable, Sustained, Deletable, EAX, ZF, EBX;
    DeletedOfThree(nodes, LiveEdges(nodes, edges, keepFlags), deleted, START, MIDDLE, CLOSE, !keepFlags, EAX, ZF);
  }

  lemma Undeletable(nodes: Nodes, live: set<DFGEdge>, deleted: set<Key>, e: DFGEdge)
    requires Deletable(nodes, live, deleted) && e in live && e.dst == Exit
    ensures e.src !in deleted
  {
  }

  lemma DeletedHere(nodes: Nodes, live: set<DFGEdge>, deleted: set<Key>)
    requires Deletable(nodes, live, deleted)
    ensures forall k :: k in deleted ==> k.At? && k in nodes && nodes[k].Some? && Removable(nodes[k].value)
  {
  }

  lemma Unfed(nodes: Nodes, live: set<DFGEdge>, s: set<Key>, k: Key)
    requires Sustained(nodes, live, s) && k in nodes && !Stays(nodes, k) && forall e :: e in live ==> e.src != k
    ensures k !in s
  {
  }

  lemma FlaggingEntry(nodes: Nodes, live: set<DFGEdge>)
    requires Entry in nodes && At(START) in nodes && Exit in nodes
    requires Edge(At(START), Exit, EAX) in live && Edge(Entry, At(START), EBX) in live
    ensures Sustained(nodes, live, {Entry, At(START), Exit})
  {
    assert Stays(nodes, Exit);
  }

  /** Neither elimination fails. */
  lemma FlaggingSucceeds(marked: bool, keepFlags: bool, r: Result<set<Key>, OptimizationError>)
    requires IsOptimization(Flagging(marked), X86, START, keepFlags, r)
    ensures r == Ok(if keepFlags then {} else {At(MIDDLE)})
  {
    FlaggingPaths(marked);
    FlaggingFunction(marked);
    hide IsDFG, LiveEdges, WellFormedCode, Resolves, Flagging, BlockAt, Deletable, Sustained, InFunction, EntryDefines;
    match r
    case Ok(deleted) =>
      var nodes, edges :| Setting(Flagging(marked), X86, START, nodes, edges, keepFlags, deleted)
        && Sustained(nodes, LiveEdges(nodes, edges, keepFlags), nodes.Keys - deleted);
      FlaggingDeleted(marked, nodes, edges, keepFlags, deleted);
    case Err(Elimination(_)) =>
      var nodes, edges :| IsDFG(Flagging(marked), X86, START, nodes, edges)
        && forall s :: Sustained(nodes, LiveEdges(nodes, edges, keepFlags), s) ==> Entry !in s;
      FlaggingGraph(marked, nodes, edges);
      FlaggingLive(marked, nodes, edges, keepFlags);
      FlaggingEntry(nodes, LiveEdges(nodes, edges, keepFlags));
      assert false;
    case Err(_) =>
  }

  /** The first elimination leaves the code with the flag marked. */
  lemma FlagIsMarked(r: Result<set<Key>, OptimizationError>, marked: Items)
    requires IsElimination(Flagging(false), X86, START, false, r, marked)
    ensures r == Ok({At(MIDDLE)}) && marked == Flagging(true)
  {
    hide IsOptimization;
    FlaggingSucceeds(false, false, r);
    assert Flag(false).Mark() == Flag(true);
    assert marked == Flagging(true);
  }

  /** The code without the flag's instruction. */
  function Unflagged(end: bool): Items {
    map[START := Give(START, EAX, OPEN.(asmEnd := end)), CLOSE := ReturnInsn(1)]
  }

  lemma FlaggingNodes(deleted: set<Key>, nodes: Nodes)
    requires GraphAfter(Flagging(true), X86, START, deleted, nodes) && deleted == {}
    ensures At(START) in nodes && At(MIDDLE) in nodes && At(CLOSE) in nodes
    ensures forall k :: At(k) in nodes ==> k in Flagging(true) && nodes[At(k)] == Some(Flagging(true)[k])
  {
    FlaggingFunction(true);
    FlaggingKeys(true);
    hide InFunction, EntryDefines, Flagging;
  }

  /** No walk from an eliminated start: the flag is not the first of its machine instruction. */
  lemma FlaggingWhole(nodes: Nodes)
    requires forall k :: At(k) in nodes ==> k in Flagging(true) && nodes[At(k)] == Some(Flagging(true)[k])
    ensures !IsBroken(nodes)
  {
    forall addr: nat, n: nat
      ensures !Broken(nodes, addr, n)
    {
      assert !Passed(nodes, IRAddr(addr, 0));
    }
  }

  lemma FlaggingLeft(nodes: Nodes, left: Items, kept: Items)
    requires forall k :: At(k) in nodes ==> k in Flagging(true) && nodes[At(k)] == Some(Flagging(true)[k])
    requires IsKept(Flagging(true), nodes, {}, left, kept)
    requires forall k :: k in Flagging(true) ==> At(k) in nodes && (k !in left <==> k == MIDDLE)
    ensures kept == Unflagged(false)
  {
    FlaggingKeys(true);
    hide Taken, Touched, HasCode, Flagging;
    forall k
      ensures k in kept <==> k in left
    {
      if k in left { assert Code.Stored(kept, k, left[k]); }
    }
    assert Survives(nodes, START) && Survives(nodes, CLOSE) by {
      assert !Register().flags.eliminated && !ReturnInsn(1).flags.eliminated;
    }
    assert forall k :: k in kept <==> k == START || k == CLOSE;
    assert Code.Stored(kept, START, left[START]) && Code.Stored(kept, CLOSE, left[CLOSE]);
    assert kept[START] == Register() && kept[CLOSE] == ReturnInsn(1);
    assert kept == Unflagged(false);
  }

  lemma UnflaggedPlaces()
    ensures Place(Unflagged(false), START) == START && Place(Unflagged(false), CLOSE) == CLOSE
    ensures Redirected(Unflagged(false), Moved(Unflagged(false), START)) == Unflagged(true)[START]
    ensures Redirected(Unflagged(false), Moved(Unflagged(false), CLOSE)) == Unflagged(true)[CLOSE]
  {
    var items := Unflagged(false);
    assert InFrontOf(items, START) == {} && InFrontOf(items, CLOSE) == {};
    assert Closed(items, START) by {
      assert CLOSE in items && CLOSE.addr > START.addr;
    }
  }

  lemma UnflaggedRenumbered(items': Items)
    requires Renumbered(Unflagged(false), items')
    ensures items' == Unflagged(true)
  {
    UnflaggedPlaces();
    hide Place, Moved, Redirected;
    var items := Unflagged(false);
    MovedIs(items, items', START);
    MovedIs(items, items', CLOSE);
    forall k | k in items'
      ensures k == START || k == CLOSE
    {
      var j :| j in items && Place(items, j) == k;
    }
    assert items' == Unflagged(true);
  }

  lemma FlaggingRestored(nodes: Nodes, items': Items)
    requires IsOptimization(Flagging(true), X86, START, true, Ok({}))
    requires GraphAfter(Flagging(true), X86, START, {}, nodes) && Restored(Flagging(true), nodes, {}, items')
    ensures items' == Unflagged(true)
  {
    hide IsOptimization, GraphAfter, Restored, Flagging, Unflagged, IsKept, Renumbered;
    FlaggingNodes({}, nodes);
    var left, kept := MarkedIsLost(Flagging(true), X86, START, true, {}, nodes, items');
    FlaggingMarks();
    FlaggingKeys(true);
    FlaggingLeft(nodes, left, kept);
    UnflaggedRenumbered(items');
  }

  lemma FlaggingStores(nodes: Nodes)
    requires GraphAfter(Flagging(true), X86, START, {}, nodes)
    ensures !IsBroken(nodes)
  {
    hide GraphAfter, IsBroken, Flagging;
    FlaggingNodes({}, nodes);
    FlaggingWhole(nodes);
  }

  /** The second optimisation keeps the flag and nevertheless stores the function without it. */
  lemma FlagIsDropped(r: Result<set<Key>, OptimizationError>, items': Items)
    requires IsStoring(Flagging(true), X86, START, true, r, items')
    ensures r == Ok({}) && items' == Unflagged(true)
  {
    hide IsOptimization, GraphAfter, Restored, IsStarved, Cleared, Flagging, IsBroken, Unflagged;
    match r
    case Ok(deleted) =>
      FlaggingSucceeds(true, true, r);
      var nodes :| GraphAfter(Flagging(true), X86, START, {}, nodes) && Restored(Flagging(true), nodes, {}, items');
      FlaggingRestored(nodes, items');
    case Err(Storing(_)) =>
      var deleted, nodes :| IsOptimization(Flagging(true), X86, START, true, Ok(deleted))
        && GraphAfter(Flagging(true), X86, START, deleted, nodes) && IsBroken(nodes);
      FlaggingSucceeds(true, true, Ok(deleted));
      FlaggingStores(nodes);
      assert false;
    case Err(_) =>
      FlaggingSucceeds(true, true, r);
      assert false;
  }

  lemma FlaggingMarks()
    ensures forall k :: k in Flagging(true) ==> (Flagging(true)[k].flags.eliminated <==> k == MIDDLE)
  {
  }

  lemma GiveRuns<M>(m: Machine<M>, at: IRAddr, dst: Var, flags: Flags, regs: Regs, mem: M)
    requires !flags.call && !flags.bbEnd && !flags.ret
    ensures var e := Execute(m, X86, Give(at, dst, flags), regs, mem);
      && Give(at, dst, flags).WellFormed() && e.control == Fall && e.mem == mem
      && Give(at, dst, flags).Next() == Some(Give(at, dst, flags).Following())
      && Get(e.regs, dst) == m.alu(STR, Operand(Truncate(Get(regs, EBX), U32), U32), NoOperand)
      && forall v :: v != dst ==> Get(e.regs, v) == Get(regs, v)
  {
  }

  lemma ReturnLeaves<M>(m: Machine<M>, regs: Regs, mem: M)
    ensures ReturnInsn(1).WellFormed()
    ensures var e := Execute(m, X86, ReturnInsn(1), regs, mem); e.control.Away? && e.regs == regs
  {
  }

  /** The original run ends with the flag that it sets. */
  lemma FlaggingRun<M>(m: Machine<M>, regs: Regs, mem: M)
    requires forall k :: k in Flagging(false) ==> Flagging(false)[k].WellFormed()
    ensures var c := Run(Flagging(false), m, X86, Running(START, regs, mem), 3);
      c.Left? && Get(c.regs, ZF) == m.alu(STR, Operand(Truncate(Get(regs, EBX), U32), U32), NoOperand)
  {
    hide Execute, Prepared, Give, Flagging, ReturnInsn, Run, Insn.WellFormed, Insn.Next;
    var items := Flagging(false);
    FlaggingKeys(false);
    FlaggingFollows();
    var start := Prepared(X86, START, regs);
    PreparedKeeps(START, regs);
    GiveRuns(m, START, EAX, OPEN, start, mem);
    var e := Execute(m, X86, Register(), start, mem);
    FirstStep(items, m, START, MIDDLE, regs, mem);
    var middle := Prepared(X86, MIDDLE, e.regs);
    PreparedKeeps(MIDDLE, e.regs);
    GiveRuns(m, MIDDLE, ZF, PLAIN, middle, e.mem);
    var f := Execute(m, X86, Flag(false), middle, e.mem);
    PreparedKeeps(CLOSE, f.regs);
    ReturnLeaves(m, Prepared(X86, CLOSE, f.regs), f.mem);
    TwoSteps(items, m, MIDDLE, CLOSE, e.regs, e.mem);
    RunTwice(items, m, X86, Running(START, regs, mem), 1, 2);
  }

  lemma FlaggingFollows()
    ensures Register().Following() == MIDDLE && Flag(false).Following() == CLOSE
    ensures PLAIN.(eliminated := false) == PLAIN
    ensures Unflagged(true)[START].Following() == CLOSE && Unflagged(true)[START] == Give(START, EAX, PLAIN)
    ensures START in Unflagged(true) && CLOSE in Unflagged(true) && Unflagged(true)[CLOSE] == ReturnInsn(1)
    ensures forall k :: k in Unflagged(true) ==> Unflagged(true)[k].WellFormed()
  {
  }

  /** What is stored in the end does not set it. */
  lemma UnflaggedRun<M>(m: Machine<M>, regs: Regs, mem: M)
    requires forall k :: k in Unflagged(true) ==> Unflagged(true)[k].WellFormed()
    ensures var c := Run(Unflagged(true), m, X86, Running(START, regs, mem), 2);
      c.Left? && Get(c.regs, ZF) == Get(regs, ZF)
  {
    hide Execute, Prepared, Give, Unflagged, ReturnInsn, Run, Insn.WellFormed, Insn.Next;
    var items := Unflagged(true);
    FlaggingFollows();
    var start := Prepared(X86, START, regs);
    PreparedKeeps(START, regs);
    GiveRuns(m, START, EAX, PLAIN, start, mem);
    var e := Execute(m, X86, items[START], start, mem);
    PreparedKeeps(CLOSE, e.regs);
    ReturnLeaves(m, Prepared(X86, CLOSE, e.regs), e.mem);
    TwoSteps(items, m, START, CLOSE, regs, mem);
  }

  /**
   * An elimination without storing that drops flags, and then an optimisation that keeps them: the second one keeps the
   * instruction that sets the flag, and the function it stores ends without the flag, whatever the machine.
   */
  lemma KeptFlagIsLost<M>(r: Result<set<Key>, OptimizationError>, marked: Items,
                          r': Result<set<Key>, OptimizationError>, items': Items, m: Machine<M>, regs: Regs, mem: M)
    requires IsElimination(Flagging(false), X86, START, false, r, marked)
    requires IsStoring(marked, X86, START, true, r', items')
    ensures r == Ok({At(MIDDLE)}) && r' == Ok({})
    ensures forall k :: k in Flagging(false) ==> Flagging(false)[k].WellFormed()
    ensures forall k :: k in items' ==> items'[k].WellFormed()
    ensures var c, c' := Run(Flagging(false), m, X86, Running(START, regs, mem), 3),
                         Run(items', m, X86, Running(START, regs, mem), 2);
      && c.Left? && Get(c.regs, ZF) == m.alu(STR, Operand(Truncate(Get(regs, EBX), U32), U32), NoOperand)
      && c'.Left? && Get(c'.regs, ZF) == Get(regs, ZF)
  {
    hide IsElimination, IsStoring, Run, Flagging, Unflagged, Insn.WellFormed;
    FlagIsMarked(r, marked);
    FlagIsDropped(r', items');
    FlaggingIsCode(false);
    FlaggingFollows();
    FlaggingRun(m, regs, mem);
    UnflaggedRun(m, regs, mem);
  }

  // ---------- An elimination that fails ----------

  const SPARE := Temp("V_00")

  function Spare(): Insn { Give(START, SPARE, OPEN) }

  function JumpBack(): Insn {
    Insn(MIDDLE, 1, JCC, Const(1, U1), NoArg, Loc(START), PLAIN.(bbEnd := true), None, None, None)
  }

  /** A loop without end that sets a temporary. */
  function Looping(): Items {
    map[START := Spare(), MIDDLE := JumpBack()]
  }

  lemma LoopingIsCode()
    ensures WellFormedCode(Looping()) && Resolves(Looping(), START)
    ensures forall k :: k in Looping() ==> !Looping()[k].LacksSources()
  {
  }

  lemma LoopingBlock()
    ensures BlockAt(Looping(), START) == Ok([Spare(), JumpBack()]) && SuccBlocks(Looping(), START) == {START}
  {
    var items, x, y := Looping(), Spare(), JumpBack();
    assert MachineCode(items, MIDDLE) == Ok([y]) && MachineCode(items, START) == Ok([x] + [y]);
    assert AsmBlock(items, 0) == Ok([x] + [y]);
    assert ([x] + [y])[0..] == [x, y] && [x, y][1..] == [y];
    assert CutAtEnd([y]) == Some([y]);
    assert CutAtEnd([x, y]) == Some([x] + [y]);
  }

  lemma LoopingStates(s: State)
    requires EBX !in s
    ensures var bb := [Spare(), JumpBack()];
      AfterAll(X86, bb[..0], s) == s && AfterAll(X86, bb, s) == s[SPARE := START]
  {
    var bb := [Spare(), JumpBack()];
    assert bb[..0] == [] && bb[..1] == [Spare()] && [Spare()][..0] == [];
    assert AfterAll(X86, [Spare()], s) == After(X86, Spare(), s);
    assert AfterAll(X86, bb, s) == After(X86, JumpBack(), AfterAll(X86, bb[..1], s));
    assert After(X86, Spare(), s) == s[SPARE := START] && JumpBack().Dst() == [];
  }

  lemma {:induction false} LoopingPath(p: seq<IRAddr>)
    requires IsPath(Looping(), START, p)
    ensures p[|p| - 1] == START && EBX !in PathState(Looping(), X86, p)
  {
    LoopingBlock();
    hide BlockAt, AfterAll, SuccBlocks, Looping, Spare, JumpBack;
    if |p| > 1 {
      var q := p[..|p| - 1];
      assert IsPath(Looping(), START, q);
      LoopingPath(q);
      PathStep(Looping(), START, p, |p| - 1);
      LoopingStates(PathState(Looping(), X86, q));
      assert BlockOf(Looping(), START) == [Spare(), JumpBack()];
      assert p[|p| - 2] == q[|q| - 1];
      assert EBX != SPARE;
    }
  }

  /** All that flows is the register the temporary is set from. */
  lemma LoopingEdges(s: State, e: DFGEdge)
    requires EBX !in s
    ensures BlockEdge(X86, [Spare(), JumpBack()], s, e) <==> e == Edge(Entry, At(START), EBX)
  {
    LoopingStates(s);
    hide AfterAll;
    var bb := [Spare(), JumpBack()];
    assert Uses(X86, Spare()) == [EBX] && Uses(X86, JumpBack()) == [];
    assert forall i: nat :: UseEdge(X86, bb, s, i, e) ==> i == 0;
    assert UseEdge(X86, bb, s, 0, e) <==> e == Edge(Entry, At(START), EBX);
    assert !EndsFunction(bb);
  }

  lemma LoopingFunction()
    ensures BlocksStored(Looping(), START) && BlockOf(Looping(), START) == [Spare(), JumpBack()]
    ensures EntryDefines(Looping(), X86, START)
    ensures InFunction(Looping(), START, START)
  {
    LoopingBlock();
    LoopingStates(map[]);
    hide BlockAt, AfterAll, SuccBlocks, Looping;
    var bb := [Spare(), JumpBack()];
    forall x | Reachable(Looping(), START, x)
      ensures BlockAt(Looping(), x).Ok?
    {
      var p :| IsPath(Looping(), START, p) && p[|p| - 1] == x;
      LoopingPath(p);
    }
    ReachableStart(Looping(), START);
    assert SPARE in AfterAll(X86, bb, map[]);
    assert bb[0].ir == START && InFront(bb, 2, START);
  }

  lemma GraphEdges(items: Items, nodes: Nodes, edges: set<DFGEdge>, e: DFGEdge)
    requires IsDFG(items, X86, START, nodes, edges)
    ensures e in edges ==> FlowEdge(items, X86, START, e)
    ensures BlockEdge(X86, BlockOf(items, START), map[], e) ==> e in edges
  {
    hide BlockEdge, BlockOf, InFunction, EntryDefines, FlowEdge;
  }

  lemma LoopingEdgesAre(nodes: Nodes, edges: set<DFGEdge>)
    requires IsDFG(Looping(), X86, START, nodes, edges)
    ensures edges == {Edge(Entry, At(START), EBX)}
  {
    LoopingFunction();
    hide IsDFG, BlockEdge, BlockOf, AfterAll, InFunction, EntryDefines, Looping, Spare, JumpBack, FlowEdge, EBX;
    var entry := Edge(Entry, At(START), EBX);
    LoopingEdges(map[], entry);
    GraphEdges(Looping(), nodes, edges, entry);
    forall e | e in edges
      ensures e == entry
    {
      GraphEdges(Looping(), nodes, edges, e);
      LoopingFlow(e);
    }
  }

  lemma LoopingNodes(nodes: Nodes, edges: set<DFGEdge>)
    requires IsDFG(Looping(), X86, START, nodes, edges)
    ensures Entry in nodes && At(START) in nodes && nodes[At(START)] == Some(Spare())
    ensures forall k :: At(k) in nodes ==> k in Looping() && nodes[At(k)] == Some(Looping()[k])
  {
    LoopingFunction();
    LoopingKeys();
    hide BlockEdge, BlockOf, AfterAll, InFunction, EntryDefines, Looping, Spare, JumpBack, FlowEdge;
  }

  lemma LoopingFlow(e: DFGEdge)
    requires FlowEdge(Looping(), X86, START, e)
    ensures e == Edge(Entry, At(START), EBX)
  {
    LoopingFunction();
    hide BlockEdge, BlockOf, AfterAll, InFunction, EntryDefines, Looping, Spare, JumpBack, EBX;
    var p :| IsPath(Looping(), START, p) &&
      BlockEdge(X86, BlockOf(Looping(), p[|p| - 1]), PathState(Looping(), X86, p), e);
    LoopingPath(p);
    LoopingEdges(PathState(Looping(), X86, p), e);
  }

  lemma LoopingKeys()
    ensures START in Looping() && Looping()[START] == Spare() && MIDDLE in Looping() && Looping()[MIDDLE] == JumpBack()
    ensures forall k :: k in Looping() ==> k == START || k == MIDDLE
    ensures Removable(Spare()) && !Removable(JumpBack())
  {
  }

  /** The entry node loses its only edge, whatever is kept at the end: the elimination fails. */
  lemma LoopingFails(keepFlags: bool, r: Result<set<Key>, OptimizationError>)
    requires IsOptimization(Looping(), X86, START, keepFlags, r)
    ensures r.Err? && r.error.Elimination?
  {
    LoopingFunction();
    LoopingIsCode();
    hide IsDFG, WellFormedCode, Resolves, BlockAt, Deletable, Sustained, InFunction, EntryDefines, Looping;
    match r
    case Ok(deleted) =>
      var nodes, edges :| Setting(Looping(), X86, START, nodes, edges, keepFlags, deleted)
        && Sustained(nodes, LiveEdges(nodes, edges, keepFlags), nodes.Keys - deleted);
      LoopingNodes(nodes, edges);
      LoopingEdgesAre(nodes, edges);
      LoopingKeys();
      DeletedHere(nodes, LiveEdges(nodes, edges, keepFlags), deleted);
      LoopingUnsustained(nodes, LiveEdges(nodes, edges, keepFlags), nodes.Keys - deleted);
      assert false;
    case Err(Search(error)) =>
      LoopingIsFound(error);
      assert false;
    case Err(_) =>
  }

  lemma LoopingIsFound(error: DFGError)
    ensures !GraphOutcome(Looping(), X86, START, Some(error))
  {
    LoopingFunction();
    LoopingIsCode();
    hide WellFormedCode, BlockAt, Searched, Looping, Reachable;
  }

  lemma LoopingUnsustained(nodes: Nodes, live: set<DFGEdge>, s: set<Key>)
    requires Sustained(nodes, live, s) && Entry in nodes && At(START) in nodes && nodes[At(START)] == Some(Spare())
    requires live <= {Edge(Entry, At(START), EBX)}
    ensures Entry !in s
  {
    Unfed(nodes, live, s, At(START));
  }

  /** And leaves the instruction as it was but for the mark. */
  lemma FailureMarks(keepFlags: bool, r: Result<set<Key>, OptimizationError>, items': Items)
    requires IsElimination(Looping(), X86, START, keepFlags, r, items')
    ensures r.Err? && r.error.Elimination?
    ensures items' == Looping()[START := Looping()[START].Mark()]
  {
    LoopingFails(keepFlags, r);
    hide IsOptimization, Looping;
    LoopingMarked(keepFlags, items');
  }

  lemma LoopingMarked(keepFlags: bool, items': Items)
    requires IsStarved(Looping(), X86, START, keepFlags, items')
    ensures items' == Looping()[START := Looping()[START].Mark()]
  {
    hide IsDFG, LiveEdges, Deletable, Looping, IsMarked, EntryStarves, EBX;
    var nodes, edges, deleted :| IsDFG(Looping(), X86, START, nodes, edges)
      && Deletable(nodes, LiveEdges(nodes, edges, keepFlags), deleted)
      && EntryStarves(LiveEdges(nodes, edges, keepFlags), deleted) && IsMarked(Looping(), deleted, items');
    LoopingNodes(nodes, edges);
    LoopingEdgesAre(nodes, edges);
    LoopingLive(nodes, edges, keepFlags);
    LoopingDeleted(nodes, edges, deleted);
    OneMarked(deleted, items');
  }

  lemma OneMarked(deleted: set<Key>, items': Items)
    requires IsMarked(Looping(), deleted, items') && At(START) in deleted && At(MIDDLE) !in deleted
    ensures items' == Looping()[START := Looping()[START].Mark()]
  {
    LoopingKeys();
    hide Looping, Spare, JumpBack;
  }

  lemma LoopingDeleted(nodes: Nodes, live: set<DFGEdge>, deleted: set<Key>)
    requires Deletable(nodes, live, deleted) && EntryStarves(live, deleted) && live == {Edge(Entry, At(START), EBX)}
    requires forall k :: At(k) in nodes ==> k in Looping() && nodes[At(k)] == Some(Looping()[k])
    ensures At(START) in deleted && At(MIDDLE) !in deleted
  {
    LoopingKeys();
    DeletedHere(nodes, live, deleted);
    hide Deletable, Removable, Looping, Spare, JumpBack, EBX;
    assert Edge(Entry, At(START), EBX).dst in deleted;
  }

  lemma LoopingLive(nodes: Nodes, edges: set<DFGEdge>, keepFlags: bool)
    requires edges == {Edge(Entry, At(START), EBX)}
    ensures LiveEdges(nodes, edges, keepFlags) == edges
  {
  }
}
