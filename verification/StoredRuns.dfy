/** The stored program runs like the program whose dead instructions were only turned into no-ops. */
module StoredRuns {
  import opened Wrappers
  import opened Ir
  import opened Code
  import opened Cfg
  import opened Dfg
  import opened DfgBuilder
  import opened DeadCode
  import opened DeadCodeCorrect
  import opened Renumbering
  import opened Gaps
  import opened RenumberingCorrect
  import opened Removal
  import opened Store
  import opened StoreCorrect
  import opened Vm

  // ---------- Where runs stay ----------

  ghost function FunctionCode(items: Items, from: IRAddr): set<IRAddr> {
    set k | k in items && InFunction(items, from, k)
  }

  /** An instruction of the function stands in a block that is one. */
  lemma InFunctionBlock(items: Items, from: IRAddr, k: IRAddr) returns (x: IRAddr, i: nat)
    requires WellFormedCode(items) && Resolves(items, from) && BlocksStored(items, from) && InFunction(items, from, k)
    ensures Reachable(items, from, x) && Resolves(items, x) && BlockAt(items, x).Ok?
    ensures var bb := BlockOf(items, x);
      IsBlock(items, x, bb) && Continued(items, bb) && i < |bb| && bb[i].ir == k && k in items && items[k] == bb[i]
  {
    hide BlockAt, WellFormedCode, SuccBlocks, Resolves;
    x :| Reachable(items, from, x) && InBlock(BlockOf(items, x), k);
    ReachableResolves(items, from, x);
    BlockShape(items, x);
    var bb := BlockOf(items, x);
    i :| 0 <= i < |bb| && bb[i].ir == k;
  }

  lemma ReachableResolves(items: Items, from: IRAddr, x: IRAddr)
    requires WellFormedCode(items) && Resolves(items, from) && Reachable(items, from, x)
    ensures Resolves(items, x)
  {
    hide WellFormedCode, Resolves, SuccBlocks;
    var p :| IsPath(items, from, p) && p[|p| - 1] == x;
    PathResolves(items, from, p);
  }

  /** Control inside a function goes to its instructions, or to code that is not there. */
  lemma FunctionIsDomain(items: Items, from: IRAddr)
    requires WellFormedCode(items) && Resolves(items, from) && BlocksStored(items, from)
    ensures IsDomain(items, FunctionCode(items, from))
  {
    hide WellFormedCode, BlockAt, Resolves, BlocksStored, IsBlock, Continued, InFunction;
    var d := FunctionCode(items, from);
    forall k | k in d
      ensures k in items && (!items[k].flags.asmEnd ==> items[k].Following() in items)
    {
      GoesOnStored(items, from, k);
    }
    forall k, t | k in d && Goes(items[k], t) && t in items
      ensures t in d
    {
      StaysInFunction(items, from, k, t);
    }
  }

  lemma GoesOnStored(items: Items, from: IRAddr, k: IRAddr)
    requires WellFormedCode(items) && Resolves(items, from) && BlocksStored(items, from) && InFunction(items, from, k)
    ensures k in items && (!items[k].flags.asmEnd ==> items[k].Following() in items)
  {
    hide WellFormedCode, BlockAt, Resolves, BlocksStored, InFunction, BlockOf;
    var x, i := InFunctionBlock(items, from, k);
    var bb := BlockOf(items, x);
    assert i + 1 < |bb| ==> bb[i + 1].ir == bb[i].Following();
  }

  lemma StaysInFunction(items: Items, from: IRAddr, k: IRAddr, t: IRAddr)
    requires WellFormedCode(items) && Resolves(items, from) && BlocksStored(items, from) && InFunction(items, from, k)
    requires k in items && Goes(items[k], t) && t in items
    ensures InFunction(items, from, t)
  {
    assert items[k].WellFormed();
    hide WellFormedCode, BlockAt, Resolves, BlocksStored, InFunction, BlockOf, SuccBlocks, Reachable, Insn.WellFormed;
    var x, i := InFunctionBlock(items, from, k);
    var bb := BlockOf(items, x);
    if i + 1 < |bb| {
      assert !bb[i].flags.bbEnd && bb[i + 1].ir == bb[i].Following();
      InnerGoes(bb[i], t);
      InBlockIs(items, from, x, i + 1);
    } else {
      GoesToSuccessor(bb[i], t);
      BlockSuccessor(items, x, t);
      SuccessorIsIn(items, from, x, t);
    }
  }

  lemma InnerGoes(insn: Insn, t: IRAddr)
    requires insn.WellFormed() && !insn.flags.bbEnd && Goes(insn, t)
    ensures t == insn.Following()
  {
  }

  lemma GoesToSuccessor(insn: Insn, t: IRAddr)
    requires Goes(insn, t)
    ensures t in insn.Successors()
  {
  }

  lemma InBlockIs(items: Items, from: IRAddr, x: IRAddr, i: nat)
    requires Reachable(items, from, x) && i < |BlockOf(items, x)|
    ensures InFunction(items, from, BlockOf(items, x)[i].ir)
  {
    hide BlockOf, Reachable;
    assert InFront(BlockOf(items, x), |BlockOf(items, x)|, BlockOf(items, x)[i].ir);
  }

  lemma SuccessorIsIn(items: Items, from: IRAddr, x: IRAddr, t: IRAddr)
    requires WellFormedCode(items) && Resolves(items, x) && BlocksStored(items, from)
    requires Reachable(items, from, x) && t in SuccBlocks(items, x)
    ensures InFunction(items, from, t)
  {
    hide WellFormedCode, BlockAt, Resolves, SuccBlocks, Reachable;
    ReachableStep(items, from, x, t);
    SuccessorResolves(items, x, t);
    StartIsIn(items, from, t);
  }

  /** A reachable block starts where it is asked for. */
  lemma StartIsIn(items: Items, from: IRAddr, t: IRAddr)
    requires WellFormedCode(items) && Resolves(items, t) && BlocksStored(items, from) && Reachable(items, from, t)
    ensures InFunction(items, from, t)
  {
    hide WellFormedCode, Resolves, Reachable;
    BlockShape(items, t);
    var bb := BlockOf(items, t);
    assert bb[0].ir == t && InFront(bb, |bb|, t);
  }

  /** Eliminating instructions that were no jumps adds no ways to go. */
  lemma DomainKept(items: Items, deleted: set<Key>, d: set<IRAddr>)
    requires IsDomain(items, d) && forall k :: k in items && At(k) in deleted ==> Removable(items[k])
    ensures IsDomain(Optimized(items, deleted), d)
  {
    hide Goes, Optimized;
    var full := Optimized(items, deleted);
    forall k | k in d
      ensures k in full && (!full[k].flags.asmEnd ==> full[k].Following() in full)
    {
      EliminatedGoes(items[k]);
    }
    forall k, t | k in d && Goes(full[k], t) && t in full
      ensures t in d
    {
      EliminatedGoes(items[k]);
      assert Goes(items[k], t);
    }
  }

  lemma EliminatedGoes(insn: Insn)
    ensures Removable(insn) ==> forall t :: Goes(insn.Eliminate(), t) ==> Goes(insn, t)
    ensures insn.Eliminate().Following() == insn.Following() && insn.Eliminate().flags.asmEnd == insn.flags.asmEnd
  {
  }

  lemma OptimizedGapless(items: Items, deleted: set<Key>)
    requires WellFormedCode(items) && forall k :: k in items && At(k) in deleted ==> Removable(items[k])
    ensures Gapless(Optimized(items, deleted)) && Keyed(Optimized(items, deleted))
  {
    WellFormedIsGapless(items);
    hide WellFormedCode, Insn.WellFormed;
    var full := Optimized(items, deleted);
    forall k, n: nat | k in full && n < k.inum
      ensures Inner(full, k.addr, n)
    {
      assert items[k].ir == items[k].ir && Inner(items, k.addr, n);
    }
    forall k, t {:trigger full[k], Resolves(full, t)} |
      k in full && (full[k].JccLoc() == Some(t) || full[k].forcedNext == Some(t))
      ensures Resolves(full, t)
    {
      assert items[k].JccLoc() == Some(t) || items[k].forcedNext == Some(t);
      assert Resolves(items, t);
    }
  }

  // ---------- Machine instructions are read whole ----------

  lemma {:induction false} AsmBlockReads(items: Items, addr: nat, i: nat)
    requires WellFormedCode(items) && AsmBlock(items, addr).Ok? && i < |AsmBlock(items, addr).value|
    ensures MachineCode(items, IRAddr(AsmBlock(items, addr).value[i].ir.addr, 0)).Ok?
    decreases KeysFrom(items, IRAddr(addr, 0))
  {
    var at := IRAddr(addr, 0);
    MachineCodeChain(items, addr);
    var code := MachineCode(items, at).value;
    var last := code[|code| - 1];
    if i >= |code| {
      assert at in KeysFrom(items, at) && at !in KeysFrom(items, IRAddr(addr + last.size, 0));
      AsmBlockReads(items, addr + last.size, i - |code|);
    } else {
      assert AsmBlock(items, addr).value[i] == code[i];
    }
  }

  lemma {:induction false} CutIsPrefix(code: seq<Insn>)
    requires CutAtEnd(code).Some?
    ensures CutAtEnd(code).value <= code
  {
    if !code[0].flags.bbEnd { CutIsPrefix(code[1..]); }
  }

  lemma BlockIsCut(items: Items, x: IRAddr)
    requires BlockAt(items, x).Ok?
    ensures AsmBlock(items, x.addr).Ok? && x.inum <= |AsmBlock(items, x.addr).value|
    ensures CutAtEnd(AsmBlock(items, x.addr).value[x.inum..]) == Some(BlockOf(items, x))
  {
    hide AsmBlock;
    assert CutAtEnd([]) == None;
  }

  /** What a block takes its instructions from is read whole, so deleting it takes all of it. */
  lemma BlockIsTaken(items: Items, from: IRAddr, k: IRAddr, j: IRAddr)
    requires WellFormedCode(items) && Resolves(items, from) && BlocksStored(items, from)
    requires InFunction(items, from, k) && j in items && j.addr == k.addr
    ensures Taken(items, j)
  {
    hide WellFormedCode, Resolves, BlocksStored, InFunction, AsmBlock, MachineCode, CutAtEnd, Reachable;
    var x, i := InFunctionBlock(items, from, k);
    var bb := BlockOf(items, x);
    BlockIsCut(items, x);
    var code := AsmBlock(items, x.addr).value;
    CutIsPrefix(code[x.inum..]);
    assert bb[i] == code[x.inum + i];
    AsmBlockReads(items, x.addr, x.inum + i);
    MachineCodeChain(items, k.addr);
  }

  // ---------- What is stored ----------

  /**
   * The graph after elimination: nodes of the function, holding the instructions with the dead ones turned into
   * no-ops.
   */
  ghost predicate HoldsCode(items: Items, from: IRAddr, full: Items, nodes: Nodes, deleted: set<Key>) {
    && full.Keys == items.Keys
    && (forall k :: At(k) in nodes ==> k in items && InFunction(items, from, k) && nodes[At(k)] == Some(full[k]))
    && (forall k :: k in items && At(k) !in deleted ==> full[k] == items[k])
    && (forall k :: k in deleted ==> k.At? && k in nodes)
    && (forall k :: At(k) in deleted ==> full[k].flags.eliminated)
    && (forall k :: k in items ==> full[k].ir == items[k].ir && full[k].size == items[k].size)
  }

  /** The survivors under their old numbers, and no-ops for machine instructions that went entirely. */
  ghost predicate IsKept(items: Items, nodes: Nodes, deleted: set<Key>, left: Items, kept: Items) {
    Survivors(items, nodes, left) && Filled(left, nodes, deleted, kept)
  }

  /** What is finally stored is one renumbering of the survivors and the stand-ins. */
  lemma RestoredIsRenumbered(items: Items, nodes: Nodes, deleted: set<Key>, items': Items)
    returns (left: Items, kept: Items)
    requires IsGraph(nodes) && HasInsns(nodes) && Restored(items, nodes, deleted, items')
    ensures IsKept(items, nodes, deleted, left, kept) && Renumbered(kept, items')
  {
    hide Survivors, Renumbered, HasCode, IsStandIn;
    var l, compact, filled :| Survivors(items, nodes, l) && Renumbered(l, compact)
      && Filled(compact, nodes, deleted, filled) && Renumbered(filled, items');
    left := l;
    forall k: IRAddr | k in filled && k !in compact
      ensures k.inum == 0 && !Redirectable(filled[k])
    {
      StandInIdle(nodes, deleted, k, filled[k]);
    }
    kept := OneRenumbering(left, compact, filled, items');
    SameCode(left, compact);
  }

  lemma StandInIdle(nodes: Nodes, deleted: set<Key>, k: IRAddr, insn: Insn)
    requires IsGraph(nodes) && IsStandIn(nodes, deleted, k, insn)
    ensures k.inum == 0 && insn.op == NONE && !Redirectable(insn) && insn.ir == k
  {
  }

  /**
   * When storing keeps the meaning of the function. Instructions of a machine instruction with a node have nodes,
   * what is eliminated falls through, something of every machine instruction survives or was deleted just now, and
   * the IR instructions of a machine instruction have one length.
   */
  ghost predicate Storable(items: Items, from: IRAddr, nodes: Nodes, deleted: set<Key>) {
    && (forall k :: k in items && InFunction(items, from, k) && Touched(nodes, k.addr) ==> At(k) in nodes)
    && DropsIdle(nodes)
    && (forall addr :: Touched(nodes, addr) ==> Leaves(nodes, deleted, addr))
    && (forall j, k :: j in items && k in items && j.addr == k.addr ==> items[j].size == items[k].size)
  }

  /** What carries the mark, and so does not survive, does nothing. */
  ghost predicate DropsIdle(nodes: Nodes) {
    forall k :: At(k) in nodes && nodes[At(k)].Some? && nodes[At(k)].value.flags.eliminated ==>
      Idle(nodes[At(k)].value)
  }

  /** Something of a machine instruction survives or was deleted just now. */
  ghost predicate Leaves(nodes: Nodes, deleted: set<Key>, addr: nat) {
    exists j: IRAddr :: j.addr == addr && At(j) in nodes && (At(j) in deleted || Survives(nodes, j))
  }

  /** A removed instruction of the function is idle. */
  lemma RemovedIsIdle(items: Items, from: IRAddr, full: Items, nodes: Nodes, deleted: set<Key>, left: Items, k: IRAddr)
    requires HoldsCode(items, from, full, nodes, deleted) && Storable(items, from, nodes, deleted)
    requires Survivors(items, nodes, left)
    requires k in items && InFunction(items, from, k) && k !in left
    ensures Touched(nodes, k.addr) && At(k) in nodes && Idle(full[k])
  {
    hide Taken, InFunction, Idle, Leaves;
    assert Touched(nodes, k.addr);
  }

  /** A kept survivor is the instruction of the full code. */
  lemma SurvivorIsSame(items: Items, from: IRAddr, full: Items, nodes: Nodes, deleted: set<Key>, left: Items, k: IRAddr)
    requires WellFormedCode(items) && Resolves(items, from) && BlocksStored(items, from)
    requires HoldsCode(items, from, full, nodes, deleted) && Survivors(items, nodes, left) && k in left
    ensures k in full && left[k] == full[k]
  {
    hide Taken, InFunction, WellFormedCode, Resolves, BlocksStored;
    if !Survives(nodes, k) {
      if At(k) in nodes {
        assert Touched(nodes, k.addr);
        BlockIsTaken(items, from, k, k);
        assert false;
      }
    }
  }

  lemma StandInStands(items: Items, from: IRAddr, full: Items, nodes: Nodes, deleted: set<Key>, left: Items,
                      kept: Items, k: IRAddr)
    requires HoldsCode(items, from, full, nodes, deleted) && Storable(items, from, nodes, deleted)
    requires IsKept(items, nodes, deleted, left, kept)
    requires k in kept && k !in left && k in items && InFunction(items, from, k)
    ensures k in full && Stands(full, kept, k)
  {
    hide Taken, InFunction, Survivors, HasCode, IsStandIn, HoldsCode, Storable;
    RemovedIsIdle(items, from, full, nodes, deleted, left, k);
    StandInLike(items, from, full, nodes, deleted, k, kept[k]);
    AloneThere(left, nodes, deleted, kept, k);
  }

  /** A stand-in is idle and as long as the instructions it stands for. */
  lemma StandInLike(items: Items, from: IRAddr, full: Items, nodes: Nodes, deleted: set<Key>, k: IRAddr, insn: Insn)
    requires HoldsCode(items, from, full, nodes, deleted) && Storable(items, from, nodes, deleted)
    requires IsStandIn(nodes, deleted, k, insn) && k in items
    ensures Idle(insn) && insn.size == full[k].size && k in full
  {
    hide HoldsCode, Storable, Idle;
    var d: IRAddr :| At(d) in deleted && At(d) in nodes && nodes[At(d)].Some? && d.addr == k.addr
      && insn == StandIn(nodes[At(d)].value);
    DeletedIdle(items, from, full, nodes, deleted, d);
    OneSize(items, from, full, nodes, deleted, d, k);
    IdleStandIn(full[d]);
  }

  lemma IdleStandIn(insn: Insn)
    ensures Idle(insn) ==> Idle(StandIn(insn))
    ensures StandIn(insn).size == insn.size
  {
  }

  lemma DeletedIdle(items: Items, from: IRAddr, full: Items, nodes: Nodes, deleted: set<Key>, d: IRAddr)
    requires HoldsCode(items, from, full, nodes, deleted) && Storable(items, from, nodes, deleted)
    requires At(d) in deleted && At(d) in nodes
    ensures d in items && d in full && nodes[At(d)] == Some(full[d]) && Idle(full[d])
  {
    hide Touched, Leaves, InFunction, Idle;
    assert full[d].flags.eliminated;
  }

  lemma OneSize(items: Items, from: IRAddr, full: Items, nodes: Nodes, deleted: set<Key>, j: IRAddr, k: IRAddr)
    requires HoldsCode(items, from, full, nodes, deleted) && Storable(items, from, nodes, deleted)
    requires j in items && k in items && j.addr == k.addr
    ensures j in full && k in full && full[j].size == full[k].size
  {
    hide Touched, Leaves, InFunction, Idle;
    assert items[j].size == items[k].size;
  }

  lemma AloneThere(left: Items, nodes: Nodes, deleted: set<Key>, kept: Items, k: IRAddr)
    requires Filled(left, nodes, deleted, kept) && k in kept && k !in left
    ensures forall j :: j in kept && j.addr == k.addr ==> j == k
  {
    assert !HasCode(left, k.addr) && k.inum == 0;
  }

  /** What is stored, before renumbering, is the full code without idle instructions. */
  lemma KeptIsThinned(items: Items, from: IRAddr, full: Items, nodes: Nodes, deleted: set<Key>, left: Items,
                      kept: Items)
    requires WellFormedCode(items) && Resolves(items, from) && BlocksStored(items, from)
    requires HoldsCode(items, from, full, nodes, deleted) && Storable(items, from, nodes, deleted)
    requires IsKept(items, nodes, deleted, left, kept) && IsGraph(nodes)
    requires Gapless(full) && IsDomain(full, FunctionCode(items, from))
    ensures Thinned(full, kept, FunctionCode(items, from))
  {
    hide WellFormedCode, Resolves, BlocksStored, InFunction, HoldsCode, Storable, Survivors, Filled, Gapless, IsDomain,
      Stands, Idle, HasCode, IsGraph, IsKept, Keyed;
    KeptKeys(items, from, full, nodes, deleted, left, kept);
    KeptSizes(items, from, full, nodes, deleted, left, kept);
    forall k | k in FunctionCode(items, from)
      ensures k in full && HasCode(kept, k.addr)
      ensures k in kept ==> Stands(full, kept, k)
      ensures k !in kept ==> Idle(full[k])
    {
      KeptHere(items, from, full, nodes, deleted, left, kept, k);
    }
    AllThinned(full, kept, FunctionCode(items, from));
  }

  lemma AllThinned(full: Items, kept: Items, d: set<IRAddr>)
    requires Keyed(full) && Keyed(kept) && kept.Keys <= full.Keys && IsDomain(full, d)
    requires forall k :: k in d ==> k in full && HasCode(kept, k.addr)
    requires forall k :: k in d && k in kept ==> Stands(full, kept, k)
    requires forall k :: k in d && k !in kept ==> Idle(full[k])
    requires forall j, k :: j in kept && k in full && j.addr == k.addr ==> kept[j].size == full[k].size
    ensures Thinned(full, kept, d)
  {
    hide IsDomain, Stands, Idle, HasCode, Keyed;
  }

  lemma KeptHere(items: Items, from: IRAddr, full: Items, nodes: Nodes, deleted: set<Key>, left: Items, kept: Items,
                 k: IRAddr)
    requires WellFormedCode(items) && Resolves(items, from) && BlocksStored(items, from)
    requires HoldsCode(items, from, full, nodes, deleted) && Storable(items, from, nodes, deleted)
    requires IsKept(items, nodes, deleted, left, kept) && k in items && InFunction(items, from, k)
    ensures k in full && HasCode(kept, k.addr)
    ensures k in kept ==> Stands(full, kept, k)
    ensures k !in kept ==> Idle(full[k])
  {
    hide WellFormedCode, Resolves, BlocksStored, InFunction, HoldsCode, Storable, Survivors, Idle, HasCode, IsStandIn;
    assert full.Keys == items.Keys by { SameKeys(items, from, full, nodes, deleted); }
    if k in left {
      SurvivorIsSame(items, from, full, nodes, deleted, left, k);
      assert Code.Stored(kept, k, left[k]);
      HasCodeAt(kept, k);
    } else {
      RemovedIsIdle(items, from, full, nodes, deleted, left, k);
      if k in kept { StandInStands(items, from, full, nodes, deleted, left, kept, k); }
      LeavesCode(items, from, nodes, deleted, left, kept, k.addr);
    }
  }

  lemma SameKeys(items: Items, from: IRAddr, full: Items, nodes: Nodes, deleted: set<Key>)
    requires HoldsCode(items, from, full, nodes, deleted)
    ensures full.Keys == items.Keys
  {
  }

  lemma LeavesCode(items: Items, from: IRAddr, nodes: Nodes, deleted: set<Key>, left: Items, kept: Items, addr: nat)
    requires Storable(items, from, nodes, deleted) && IsKept(items, nodes, deleted, left, kept) && Touched(nodes, addr)
    ensures HasCode(kept, addr)
  {
    hide InFunction, Taken, Idle, IsStandIn;
    assert Leaves(nodes, deleted, addr);
    var j: IRAddr :| j.addr == addr && At(j) in nodes && (At(j) in deleted || Survives(nodes, j));
    if Survives(nodes, j) {
      assert j in left && Code.Stored(kept, j, left[j]);
    }
  }

  lemma KeptKeys(items: Items, from: IRAddr, full: Items, nodes: Nodes, deleted: set<Key>, left: Items, kept: Items)
    requires WellFormedCode(items) && HoldsCode(items, from, full, nodes, deleted)
    requires IsKept(items, nodes, deleted, left, kept) && IsGraph(nodes) && Gapless(full)
    ensures kept.Keys <= full.Keys && Keyed(full) && Keyed(kept)
  {
    hide InFunction, Taken, HasCode, Touched, Gapless, Resolves, Insn.WellFormed;
    forall k | k in kept
      ensures k in full && kept[k].ir == k
    {
      if k in left {
        assert Code.Stored(kept, k, left[k]);
      } else {
        StandInIdle(nodes, deleted, k, kept[k]);
        var d: IRAddr :| At(d) in deleted && At(d) in nodes && nodes[At(d)].Some? && d.addr == k.addr
          && kept[k] == StandIn(nodes[At(d)].value);
        GaplessStart(full, d);
      }
    }
  }

  lemma KeptSizes(items: Items, from: IRAddr, full: Items, nodes: Nodes, deleted: set<Key>, left: Items, kept: Items)
    requires WellFormedCode(items) && Resolves(items, from) && BlocksStored(items, from)
    requires HoldsCode(items, from, full, nodes, deleted) && Storable(items, from, nodes, deleted)
    requires IsKept(items, nodes, deleted, left, kept) && kept.Keys <= full.Keys
    ensures forall j, k :: j in kept && k in full && j.addr == k.addr ==> kept[j].size == full[k].size
  {
    hide WellFormedCode, Resolves, BlocksStored, InFunction, Survivors, HasCode, IsStandIn, Touched, Leaves, Idle;
    forall j, k | j in kept && k in full && j.addr == k.addr
      ensures kept[j].size == full[k].size
    {
      assert full[j].size == items[j].size == items[k].size == full[k].size;
      if j in left {
        SurvivorIsSame(items, from, full, nodes, deleted, left, j);
        assert Code.Stored(kept, j, left[j]);
      } else {
        StandInLike(items, from, full, nodes, deleted, j, kept[j]);
      }
    }
  }

  // ---------- Runs of the stored program ----------

  /**
   * What the stored program shows of a moment of the full program's run: the same outcome, or the next kept
   * instruction under its new number with the same memory and the same registers but for temporaries, or lost code.
   */
  ghost predicate StoredView<M>(kept: Items, arch: Arch, c: Config<M>, s: Config<M>) {
    match c
    case Left(at, target, regs, mem) => s == Left(Place(kept, at), target, regs, mem)
    case Running(ip, regs, mem) =>
      if Onto(kept, ip) in kept then
        && s.Running? && s.ip == Place(kept, Onto(kept, ip)) && s.mem == mem
        && forall v: Var :: v.Reg? && v != InstructionPointer(arch) ==> Get(s.regs, v) == Get(regs, v)
      else !s.Left?
    case Stuck(_) => !s.Left?
  }

  /** The code before elimination's no-ops were removed, what was kept of it, and what is stored. */
  ghost predicate IsStored(items: Items, from: IRAddr, full: Items, nodes: Nodes, deleted: set<Key>, left: Items,
                           kept: Items, items': Items) {
    && WellFormedCode(items) && Resolves(items, from) && BlocksStored(items, from)
    && HoldsCode(items, from, full, nodes, deleted) && Storable(items, from, nodes, deleted)
    && IsGraph(nodes) && Gapless(full) && IsDomain(full, FunctionCode(items, from))
    && IsKept(items, nodes, deleted, left, kept) && Renumbered(kept, items')
    && Steady(kept) && Unmoved(kept, from)
    && (forall k :: k in full ==> full[k].WellFormed())
    && (forall k :: k in kept ==> kept[k].WellFormed())
  }

  lemma RegistersSeen(arch: Arch, j: IRAddr, p: IRAddr, regs: Regs, regs': Regs, v: Var)
    requires Prepared(arch, p, regs') == Prepared(arch, j, regs) && v.Reg? && v != InstructionPointer(arch)
    ensures Get(regs', v) == Get(regs, v)
  {
    assert Get(Prepared(arch, p, regs'), v) == Get(regs', v);
    assert Get(Prepared(arch, j, regs), v) == Get(regs, v);
  }

  lemma ArrivingSeen(kept: Items, at: IRAddr, regs: Regs, v: Var)
    requires v.Reg?
    ensures Get(Arriving(kept, at, regs), v) == Get(regs, v)
  {
    hide Onto;
  }

  lemma SeenStored<M>(full: Items, kept: Items, items': Items, arch: Arch, d: set<IRAddr>, c: Config<M>, g: Config<M>,
                      s: Config<M>)
    requires Mirrors(full, kept, arch, d, c, g) && Alike(kept, items', arch, g, s)
    ensures StoredView(kept, arch, c, s)
  {
    hide Onto, Place, Prepared, Arriving;
    if c.Running? && Onto(kept, c.ip) in kept {
      forall v: Var | v.Reg? && v != InstructionPointer(arch)
        ensures Get(s.regs, v) == Get(c.regs, v)
      {
        RegistersSeen(arch, g.ip, s.ip, Arriving(kept, c.ip, c.regs), s.regs, v);
        ArrivingSeen(kept, c.ip, c.regs, v);
      }
    }
  }

  /** Both runs start alike. */
  lemma StoredStarts<M>(items: Items, from: IRAddr, full: Items, nodes: Nodes, deleted: set<Key>, left: Items,
                        kept: Items, items': Items, arch: Arch, regs: Regs, mem: M)
    requires IsStored(items, from, full, nodes, deleted, left, kept, items')
    ensures Thinned(full, kept, FunctionCode(items, from))
    ensures var c := Running(from, regs, mem);
      && Mirrors(full, kept, arch, FunctionCode(items, from), c, Landed(kept, c))
      && Alike(kept, items', arch, Landed(kept, c), c)
  {
    hide WellFormedCode, Resolves, BlocksStored, HoldsCode, Storable, IsGraph, Gapless, IsDomain, IsKept, Renumbered,
      Steady, Onto, Place, Prepared, Arriving, Thinned, InFunction, Insn.WellFormed;
    KeptIsThinned(items, from, full, nodes, deleted, left, kept);
    StartStored(items, from);
    FullKeys(items, from, full, nodes, deleted);
    if Onto(kept, from) in kept { UnmovedStarts(kept, from); } else { LostStays(kept, items', from); }
    SentOn(kept, items', arch, from, from, regs, mem);
  }

  lemma FullKeys(items: Items, from: IRAddr, full: Items, nodes: Nodes, deleted: set<Key>)
    requires HoldsCode(items, from, full, nodes, deleted)
    ensures full.Keys == items.Keys
  {
  }

  lemma StartStored(items: Items, from: IRAddr)
    requires WellFormedCode(items) && Resolves(items, from) && BlocksStored(items, from)
    ensures from in items && from in FunctionCode(items, from)
  {
    hide WellFormedCode, Resolves;
    ReachableStart(items, from);
    BlockShape(items, from);
    StartIsIn(items, from, from);
  }

  /** For every moment of the full program's run the stored program's run has one that shows it. */
  lemma StoredFollows<M(!new)>(items: Items, from: IRAddr, full: Items, nodes: Nodes, deleted: set<Key>, left: Items,
                               kept: Items, items': Items, m: Machine<M>, m': Machine<M>, arch: Arch,
                               regs: Regs, mem: M, n: nat) returns (n': nat)
    requires IsStored(items, from, full, nodes, deleted, left, kept, items') && Follows(kept, m, m')
    ensures forall k :: k in items' ==> items'[k].WellFormed()
    ensures n' <= n
    ensures StoredView(kept, arch, Run(full, m, arch, Running(from, regs, mem), n),
                       Run(items', m', arch, Running(from, regs, mem), n'))
  {
    hide WellFormedCode, Resolves, BlocksStored, HoldsCode, Storable, IsGraph, Gapless, IsDomain, IsKept, Renumbered,
      Steady, Thinned, Follows, Mirrors, Alike, Landed, StoredView, Insn.WellFormed, Unmoved;
    var c, d := Running(from, regs, mem), FunctionCode(items, from);
    StoredStarts(items, from, full, nodes, deleted, left, kept, items', arch, regs, mem);
    KeptKeys(items, from, full, nodes, deleted, left, kept);
    n' := KeptRunFollows(full, kept, m, arch, d, c, c, n);
    RenumberingPreservesRuns(kept, items', m, m', arch, c, c, n');
    SeenStored(full, kept, items', arch, d, Run(full, m, arch, c, n), GapRun(kept, m, arch, c, n'),
               Run(items', m', arch, c, n'));
  }

  /** And for every moment of the stored program's run the full program's run has one that it shows. */
  lemma FullFollows<M(!new)>(items: Items, from: IRAddr, full: Items, nodes: Nodes, deleted: set<Key>, left: Items,
                             kept: Items, items': Items, m: Machine<M>, m': Machine<M>, arch: Arch,
                             regs: Regs, mem: M, n: nat) returns (n': nat)
    requires IsStored(items, from, full, nodes, deleted, left, kept, items') && Follows(kept, m, m')
    ensures forall k :: k in items' ==> items'[k].WellFormed()
    ensures StoredView(kept, arch, Run(full, m, arch, Running(from, regs, mem), n'),
                       Run(items', m', arch, Running(from, regs, mem), n))
  {
    hide WellFormedCode, Resolves, BlocksStored, HoldsCode, Storable, IsGraph, Gapless, IsDomain, IsKept, Renumbered,
      Steady, Thinned, Follows, Mirrors, Alike, Landed, StoredView, Insn.WellFormed, Unmoved;
    var c, d := Running(from, regs, mem), FunctionCode(items, from);
    StoredStarts(items, from, full, nodes, deleted, left, kept, items', arch, regs, mem);
    KeptKeys(items, from, full, nodes, deleted, left, kept);
    n' := FullRunFollows(full, kept, m, arch, d, c, c, n);
    RenumberingPreservesRuns(kept, items', m, m', arch, c, c, n);
    SeenStored(full, kept, items', arch, d, Run(full, m, arch, c, n'), GapRun(kept, m, arch, c, n),
               Run(items', m', arch, c, n));
  }
}
