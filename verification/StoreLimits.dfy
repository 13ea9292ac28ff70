/** When storing an optimised function keeps its meaning, and programs for which it does not. */
module StoreLimits {
  import opened Wrappers
  import opened Ir
  import opened Code
  import opened Dfg
  import opened DeadCode
  import opened Renumbering
  import opened Gaps
  import opened RenumberingCorrect
  import opened Removal
  import opened Store
  import opened StoreCorrect
  import opened StoredRuns
  import opened Optimizer
  import opened Vm

  // ---------- The conditions ----------

  /** If the entry block sets a variable, everything of the function has a node. */
  lemma EntryDefinesCovers(items: Items, arch: Arch, from: IRAddr, deleted: set<Key>, nodes: Nodes)
    requires EntryDefines(items, arch, from) && GraphAfter(items, arch, from, deleted, nodes)
    ensures forall k :: k in items && InFunction(items, from, k) && Touched(nodes, k.addr) ==> At(k) in nodes
  {
    hide EntryDefines, InFunction, Touched;
    forall k | k in items && InFunction(items, from, k)
      ensures At(k) in nodes
    {
      assert Searched(items, arch, from, k);
    }
  }

  /** Storing then never misses a node. */
  lemma StorableIsWhole(items: Items, from: IRAddr, full: Items, nodes: Nodes, deleted: set<Key>)
    requires HoldsCode(items, from, full, nodes, deleted) && Storable(items, from, nodes, deleted)
    requires Keyed(full) && IsDomain(full, FunctionCode(items, from))
    ensures !IsBroken(nodes)
  {
    hide HoldsCode, Storable, IsDomain, Keyed, Passed;
    if IsBroken(nodes) {
      var addr: nat, n: nat :| Broken(nodes, addr, n);
      PassedOn(items, from, full, nodes, deleted, IRAddr(addr, n));
      assert false;
    }
  }

  /** Behind an eliminated instruction that does not end its machine instruction there is a node. */
  lemma PassedOn(items: Items, from: IRAddr, full: Items, nodes: Nodes, deleted: set<Key>, k: IRAddr)
    requires HoldsCode(items, from, full, nodes, deleted) && Storable(items, from, nodes, deleted)
    requires Keyed(full) && IsDomain(full, FunctionCode(items, from)) && Passed(nodes, k)
    ensures At(IRAddr(k.addr, k.inum + 1)) in nodes
  {
    hide InFunction, Leaves, Touched, Goes;
    TouchedBy(nodes, k);
    IdleGoes(full[k]);
    assert full[k].ir == k && k in FunctionCode(items, from);
  }

  lemma IdleGoes(insn: Insn)
    ensures Idle(insn) ==> Goes(insn, insn.Following())
  {
  }

  lemma TouchedBy(nodes: Nodes, k: IRAddr)
    requires At(k) in nodes
    ensures Touched(nodes, k.addr)
  {
  }

  /**
   * A machine instruction of the graph is still there afterwards exactly if something of it survived or was deleted
   * just now. So a no-op left by an earlier optimisation is lost by the next.
   */
  lemma LeavesExactly(items: Items, nodes: Nodes, deleted: set<Key>, items': Items, addr: nat)
    requires IsGraph(nodes) && Restored(items, nodes, deleted, items') && Touched(nodes, addr)
    requires forall k :: k in items && k.addr == addr ==> Taken(items, k)
    requires forall k :: k in deleted ==> k.At? && k in nodes
    ensures HasCode(items', addr) <==> Leaves(nodes, deleted, addr)
  {
    hide Touched, Taken, Survives, Renumbered, HasInsns;
    TouchedHasInsns(nodes, addr);
    var left, kept := RestoredIsRenumbered(items, nodes, deleted, items');
    SameCode(kept, items');
    if j :| j in kept && j.addr == addr {
      if j in left { assert Survives(nodes, j); }
      SurvivesIsNode(nodes);
    }
    if j: IRAddr :| j.addr == addr && At(j) in nodes && (At(j) in deleted || Survives(nodes, j)) {
      if Survives(nodes, j) { assert j in left && Code.Stored(kept, j, left[j]); }
    }
  }

  lemma SurvivesIsNode(nodes: Nodes)
    ensures forall k :: Survives(nodes, k) ==> At(k) in nodes
  {
  }

  /**
   * Registers found at the new place of a redirected target are those found at the old one exactly if no
   * temporary is lost.
   */
  lemma TempsKept(items: Items, arch: Arch, t: IRAddr, regs: Regs)
    requires t in items
    ensures Prepared(arch, Place(items, t), regs) == Prepared(arch, t, regs)
      <==> KeepsTemps(items, t) || forall v :: v in regs ==> v.Reg?
  {
    PlaceIsBefore(items, t);
    PlaceAddr(items, t);
    hide Place;
    if exists v :: v in regs && v.Temp? {
      var v :| v in regs && v.Temp?;
      assert v in Prepared(arch, IRAddr(t.addr, 1), regs) && v !in Prepared(arch, IRAddr(t.addr, 0), regs);
    } else {
      assert DropTemps(regs) == regs;
    }
  }

  /** Code whose jumps name starts or stored instructions, and none of whose attributes names a successor, is steady. */
  lemma OrdinaryIsSteady(items: Items)
    requires forall k :: k in items ==> items[k].forcedNext.None?
    requires forall k, t {:trigger items[k].JccLoc(), Onto(items, t)} ::
      k in items && items[k].JccLoc() == Some(t) ==>
        t.inum == 0 || (Redirectable(items[k]) && t in items && KeepsTemps(items, t))
    ensures Steady(items)
  {
    hide Onto, Insn.JccLoc;
    forall k, t | k in items && Named(items, items[k], t)
      ensures Unmoved(items, t)
    {
      assert items[k].JccLoc() == Some(t) && (Onto(items, t) == Onto(items, t));
      OntoStart(items, t.addr);
    }
    forall k | k in items && Redirectable(items[k]) && items[k].c.loc in items
      ensures KeepsTemps(items, items[k].c.loc)
    {
      JumpNames(items[k]);
      assert Onto(items, items[k].c.loc) == Onto(items, items[k].c.loc);
    }
  }

  lemma JumpNames(insn: Insn)
    ensures Redirectable(insn) ==> insn.JccLoc() == Some(insn.c.loc)
  {
  }

  // ---------- A jump that skips ----------

  const JUMP := IRAddr(0, 0)
  const SECOND := IRAddr(0, 2)
  const FOURTH := IRAddr(0, 4)
  const FIFTH := IRAddr(0, 5)
  const TARGET := IRAddr(0, 3)

  const INNER := Flags(false, false, false, false, false)
  const JUMPING := Flags(false, false, true, false, false)
  const ENDING := Flags(false, true, true, true, false)

  function Move(at: IRAddr, flags: Flags): Insn {
    Insn(at, 1, STR, VarArg(Reg("R_EBX"), U32), NoArg, VarArg(Reg("R_EAX"), U32), flags, None, None, None)
  }

  function Always(to: IRAddr): Insn {
    Insn(JUMP, 1, JCC, Const(1, U8), NoArg, Loc(to), JUMPING, None, None, None)
  }

  /** A machine instruction whose IR instructions 1 and 3 were deleted, the latter a jump target. */
  function Skipping(): Items {
    map[JUMP := Always(TARGET), SECOND := Move(SECOND, INNER), FOURTH := Move(FOURTH, INNER),
      FIFTH := Move(FIFTH, ENDING)]
  }

  lemma SkippingPlaces()
    ensures Place(Skipping(), SECOND) == IRAddr(0, 1) && Place(Skipping(), FOURTH) == IRAddr(0, 2)
    ensures Place(Skipping(), FIFTH) == TARGET && Place(Skipping(), JUMP) == JUMP
    ensures Onto(Skipping(), TARGET) == FOURTH
  {
    var items := Skipping();
    assert InFrontOf(items, JUMP) == {};
    assert InFrontOf(items, SECOND) == {JUMP};
    assert InFrontOf(items, FOURTH) == {JUMP, SECOND};
    assert InFrontOf(items, FIFTH) == {JUMP, SECOND, FOURTH};
    assert IsFirst(items, TARGET, FOURTH);
    FirstIsOnto(items, TARGET, FOURTH);
  }

  /**
   * The jump goes on to instruction 4 if missing instructions do nothing; after renumbering, whatever the result, it
   * goes to what was instruction 5 and skips instruction 4, though the next instruction's place is not its number.
   */
  lemma JumpSkips<M(!new)>(items': Items, m: Machine<M>, m': Machine<M>, regs: Regs, mem: M)
    requires Renumbered(Skipping(), items')
    ensures Keyed(Skipping()) && !Unmoved(Skipping(), TARGET)
    ensures forall k :: k in Skipping() ==> Skipping()[k].WellFormed()
    ensures forall k :: k in items' ==> items'[k].WellFormed()
    ensures var g, c := GapRun(Skipping(), m, X86, Running(JUMP, regs, mem), 1),
                        Run(items', m', X86, Running(JUMP, regs, mem), 1);
      && g.Running? && g.ip == FOURTH
      && c.Running? && c.ip == Place(Skipping(), FIFTH)
  {
    hide Place, Onto, Renumbered, Skipping, Insn.WellFormed, Landed, Run, GapRun;
    SkippingItems();
    SkippingPlaces();
    RenumberedWellFormed(Skipping(), items');
    GapJump(Skipping(), m, regs, mem);
    JumpStays(items');
    PlainJump(items', m', regs, mem);
  }

  lemma SkippingItems()
    ensures Keyed(Skipping()) && forall k :: k in Skipping() ==> Skipping()[k].WellFormed()
    ensures JUMP in Skipping() && FOURTH in Skipping() && Skipping()[JUMP] == Always(TARGET) && TARGET !in Skipping()
  {
  }

  lemma JumpStays(items': Items)
    requires Renumbered(Skipping(), items')
    ensures JUMP in items' && items'[JUMP] == Always(TARGET)
  {
    hide Place, Onto, Renumbered, Skipping;
    SkippingItems();
    SkippingPlaces();
    MovedIs(Skipping(), items', JUMP);
    assert !Closed(Skipping(), JUMP) by {
      assert FOURTH in Skipping() && FOURTH.addr == JUMP.addr && FOURTH.inum > JUMP.inum;
    }
  }

  lemma GapJump<M>(items: Items, m: Machine<M>, regs: Regs, mem: M)
    requires forall k :: k in items ==> items[k].WellFormed()
    requires JUMP in items && items[JUMP] == Always(TARGET)
    ensures var g := GapRun(items, m, X86, Running(JUMP, regs, mem), 1); g.Running? && g.ip == Onto(items, TARGET)
  {
    hide Onto, Prepared, Execute;
    StoredStays(items, JUMP);
    AlwaysJumpsTo(m, items[JUMP], Prepared(X86, JUMP, regs), mem);
    assert GapRun(items, m, X86, Running(JUMP, regs, mem), 0) == Running(JUMP, regs, mem);
  }

  lemma PlainJump<M>(items: Items, m: Machine<M>, regs: Regs, mem: M)
    requires forall k :: k in items ==> items[k].WellFormed()
    requires JUMP in items && items[JUMP] == Always(TARGET)
    ensures var c := Run(items, m, X86, Running(JUMP, regs, mem), 1); c.Running? && c.ip == TARGET
  {
    hide Prepared, Execute;
    AlwaysJumpsTo(m, items[JUMP], Prepared(X86, JUMP, regs), mem);
    OneStep(items, m, X86, Running(JUMP, regs, mem));
  }

  lemma AlwaysJumpsTo<M>(m: Machine<M>, insn: Insn, regs: Regs, mem: M)
    requires insn.WellFormed() && insn.op == JCC && insn.a == Const(1, U8) && insn.c == Loc(TARGET) && !insn.flags.call
    ensures Execute(m, X86, insn, regs, mem) == Effect(regs, mem, Jump(TARGET))
  {
  }
}
