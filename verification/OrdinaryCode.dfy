/** Optimising ordinary code: conditions on the code alone under which the stored program runs like the original. */
module OrdinaryCode {
  import opened Wrappers
  import opened Ir
  import opened Code
  import opened Cfg
  import opened Dfg
  import opened DeadCode
  import opened DeadCodeCorrect
  import opened Renumbering
  import opened Gaps
  import opened RenumberingCorrect
  import opened Removal
  import opened Store
  import opened StoredRuns
  import opened Optimizer
  import opened OptimizerCorrect
  import opened StoreLimits
  import opened Vm

  /** Nothing is marked, jumps name starts, only instructions that stay can return, and lengths are the machine's. */
  ghost predicate Plain(insn: Insn) {
    && insn.forcedNext.None? && !insn.flags.eliminated && (insn.flags.ret ==> !Removable(insn))
    && (insn.JccLoc().Some? ==> insn.JccLoc().value.inum == 0)
  }

  ghost predicate Ordinary(items: Items, arch: Arch, from: IRAddr) {
    && EntryDefines(items, arch, from) && from.inum == 0
    && (forall k :: k in items ==> Plain(items[k]))
    && (forall j, k :: j in items && k in items && j.addr == k.addr ==> items[j].size == items[k].size)
  }

  /** What is eliminated just now does nothing. */
  lemma EliminatedIsIdle(insn: Insn)
    requires Plain(insn) && Removable(insn)
    ensures Idle(insn.Eliminate()) && insn.Eliminate().JccLoc().None?
  {
  }

  lemma DeletedArePlain(items: Items, arch: Arch, from: IRAddr, keepFlags: bool, deleted: set<Key>, k: IRAddr)
    requires IsOptimization(items, arch, from, keepFlags, Ok(deleted)) && Ordinary(items, arch, from)
    requires k in items && At(k) in deleted
    ensures Removable(items[k]) && Idle(items[k].Eliminate())
  {
    hide IsDFG, LiveEdges, WellFormedCode, Resolves, Reachable, BlockAt, Sustained, Deletable, EntryDefines, Plain;
    var nodes, edges :| Setting(items, arch, from, nodes, edges, keepFlags, deleted)
      && Sustained(nodes, LiveEdges(nodes, edges, keepFlags), nodes.Keys - deleted);
    DeletedIsRemovable(items, arch, from, nodes, edges, keepFlags, deleted, k);
    EliminatedIsIdle(items[k]);
  }

  lemma OrdinaryDropsIdle(items: Items, arch: Arch, from: IRAddr, keepFlags: bool, deleted: set<Key>, nodes: Nodes)
    requires IsOptimization(items, arch, from, keepFlags, Ok(deleted)) && Ordinary(items, arch, from)
    requires GraphAfter(items, arch, from, deleted, nodes)
    ensures DropsIdle(nodes)
  {
    hide IsOptimization, Searched, EntryDefines, Idle, Insn.JccLoc;
    forall k | At(k) in nodes && nodes[At(k)].Some? && nodes[At(k)].value.flags.eliminated
      ensures Idle(nodes[At(k)].value)
    {
      assert Plain(items[k]);
      if At(k) in deleted { DeletedArePlain(items, arch, from, keepFlags, deleted, k); }
    }
  }

  /** Something of every machine instruction survives or was deleted just now. */
  lemma OrdinaryLeaves(items: Items, arch: Arch, from: IRAddr, deleted: set<Key>, nodes: Nodes, addr: nat)
    requires Ordinary(items, arch, from) && GraphAfter(items, arch, from, deleted, nodes) && Touched(nodes, addr)
    ensures Leaves(nodes, deleted, addr)
  {
    hide Searched, EntryDefines, Insn.JccLoc;
    var k :| At(k) in nodes && k.addr == addr;
    assert Plain(items[k]);
    assert At(k) in deleted || Survives(nodes, k);
  }

  lemma OrdinaryIsStorable(items: Items, arch: Arch, from: IRAddr, keepFlags: bool, deleted: set<Key>, nodes: Nodes)
    requires IsOptimization(items, arch, from, keepFlags, Ok(deleted)) && Ordinary(items, arch, from)
    requires GraphAfter(items, arch, from, deleted, nodes)
    ensures Storable(items, from, nodes, deleted)
  {
    OrdinaryDropsIdle(items, arch, from, keepFlags, deleted, nodes);
    EntryDefinesCovers(items, arch, from, deleted, nodes);
    hide IsOptimization, GraphAfter, EntryDefines, InFunction, Touched, Leaves, DropsIdle, Plain;
    forall addr: nat | Touched(nodes, addr)
      ensures Leaves(nodes, deleted, addr)
    {
      OrdinaryLeaves(items, arch, from, deleted, nodes, addr);
    }
  }

  /** What is kept names starts only. */
  lemma KeptIsPlain(items: Items, arch: Arch, from: IRAddr, keepFlags: bool, deleted: set<Key>, nodes: Nodes,
                    left: Items, kept: Items, k: IRAddr)
    requires IsOptimization(items, arch, from, keepFlags, Ok(deleted)) && Ordinary(items, arch, from)
    requires GraphAfter(items, arch, from, deleted, nodes) && IsKept(items, nodes, deleted, left, kept) && k in kept
    ensures kept[k].forcedNext.None? && (kept[k].JccLoc().Some? ==> kept[k].JccLoc().value.inum == 0)
  {
    hide IsOptimization, EntryDefines, Taken, HasCode, Searched, Insn.JccLoc;
    if k in left {
      assert Code.Stored(kept, k, left[k]);
      if At(k) in nodes { assert Plain(items[k]); EliminatedNames(items[k]); }
    } else {
      var d: IRAddr :| At(d) in deleted && At(d) in nodes && nodes[At(d)].Some? && d.addr == k.addr
        && kept[k] == StandIn(nodes[At(d)].value);
      assert Plain(items[d]);
      EliminatedNames(items[d]);
      StandInNames(nodes[At(d)].value);
    }
  }

  lemma EliminatedNames(insn: Insn)
    ensures insn.Eliminate().forcedNext == insn.forcedNext && insn.Eliminate().JccLoc().None?
  {
  }

  lemma StandInNames(insn: Insn)
    ensures StandIn(insn).forcedNext == insn.forcedNext && StandIn(insn).JccLoc().None?
  {
  }

  lemma OrdinaryIsKeptSteady(items: Items, arch: Arch, from: IRAddr, keepFlags: bool, deleted: set<Key>, nodes: Nodes)
    requires IsOptimization(items, arch, from, keepFlags, Ok(deleted)) && Ordinary(items, arch, from)
    requires GraphAfter(items, arch, from, deleted, nodes)
    ensures KeptSteady(items, from, nodes, deleted)
  {
    hide IsOptimization, GraphAfter, EntryDefines, IsKept, Steady, Unmoved, Insn.JccLoc, Plain;
    forall left: Items, kept: Items | IsKept(items, nodes, deleted, left, kept)
      ensures Steady(kept) && Unmoved(kept, from)
    {
      forall k | k in kept
        ensures kept[k].forcedNext.None? && (kept[k].JccLoc().Some? ==> kept[k].JccLoc().value.inum == 0)
      {
        KeptIsPlain(items, arch, from, keepFlags, deleted, nodes, left, kept, k);
      }
      OrdinaryIsSteady(kept);
      StartIsUnmoved(kept, from);
    }
  }

  lemma StartIsUnmoved(items: Items, at: IRAddr)
    requires at.inum == 0
    ensures Unmoved(items, at)
  {
    OntoStart(items, at.addr);
    hide Onto;
  }

  /** Storing does not fail. */
  lemma OrdinaryStores(items: Items, arch: Arch, from: IRAddr, keepFlags: bool, r: Result<set<Key>, OptimizationError>,
                       items': Items)
    requires Ordinary(items, arch, from) && IsStoring(items, arch, from, keepFlags, r, items')
    ensures r.Err? ==> !r.error.Storing?
  {
    hide IsOptimization, GraphAfter, Restored, Cleared, Ordinary, IsElimination, IsBroken;
    if r.Err? && r.error.Storing? {
      var deleted, nodes :|
        IsOptimization(items, arch, from, keepFlags, Ok(deleted)) && GraphAfter(items, arch, from, deleted, nodes)
        && IsBroken(nodes);
      OrdinaryIsWhole(items, arch, from, keepFlags, deleted, nodes);
      assert false;
    }
  }

  lemma OrdinaryIsWhole(items: Items, arch: Arch, from: IRAddr, keepFlags: bool, deleted: set<Key>, nodes: Nodes)
    requires IsOptimization(items, arch, from, keepFlags, Ok(deleted)) && Ordinary(items, arch, from)
    requires GraphAfter(items, arch, from, deleted, nodes)
    ensures !IsBroken(nodes)
  {
    OrdinaryIsStorable(items, arch, from, keepFlags, deleted, nodes);
    hide WellFormedCode, Resolves, IsDFG, Deletable, Sustained, GraphAfter, Storable, HoldsCode, Gapless, IsDomain,
      Optimized, IsGraph, LiveEdges, Ordinary, BlockAt, Reachable, IsBroken;
    var before, edges :| Setting(items, arch, from, before, edges, keepFlags, deleted)
      && Sustained(before, LiveEdges(before, edges, keepFlags), before.Keys - deleted);
    FullProgram(items, arch, from, before, edges, keepFlags, deleted, nodes);
    var full := Optimized(items, deleted);
    FullIsKeyed(items, deleted);
    StorableIsWhole(items, from, full, nodes, deleted);
  }

  lemma FullIsKeyed(items: Items, deleted: set<Key>)
    requires WellFormedCode(items)
    ensures Keyed(Optimized(items, deleted))
  {
    hide Insn.WellFormed, Resolves;
  }

  /**
   * The optimisation of ordinary code, from the call to the runs: if it succeeds, the stored program runs like the
   * original on every machine, moved along with the code, from all registers and memory.
   */
  lemma OptimizedRunsLikeOriginal<M(!new)>(items: Items, arch: Arch, from: IRAddr, keepFlags: bool,
                                           deleted: set<Key>, items': Items, m: Machine<M>)
    returns (kept: Items, m': Machine<M>)
    requires Ordinary(items, arch, from) && IsStoring(items, arch, from, keepFlags, Ok(deleted), items')
    ensures Renumbered(kept, items') && Follows(kept, m, m')
    ensures forall k :: k in items ==> items[k].WellFormed()
    ensures forall k :: k in items' ==> items'[k].WellFormed()
    ensures ShowsAll(items, items', kept, deleted, keepFlags, m, m', arch, from)
  {
    hide IsOptimization, GraphAfter, Restored, Ordinary, Storable, KeptSteady, ShowsAll, Renumbered, Follows;
    var nodes :| GraphAfter(items, arch, from, deleted, nodes) && Restored(items, nodes, deleted, items');
    OrdinaryIsStorable(items, arch, from, keepFlags, deleted, nodes);
    OrdinaryIsKeptSteady(items, arch, from, keepFlags, deleted, nodes);
    kept, m' := StoredRunsLikeOriginal(items, arch, from, keepFlags, deleted, nodes, items', m);
  }
}
