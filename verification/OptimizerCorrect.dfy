/** Optimising and storing a function keeps what it does. */
module OptimizerCorrect {
  import opened Wrappers
  import opened Ir
  import opened Code
  import opened Cfg
  import opened Dfg
  import opened DfgBuilder
  import opened DeadCode
  import opened DeadCodeCorrect
  import opened Renumbering
  import opened Gaps
  import opened RenumberingCorrect
  import opened Removal
  import opened Store
  import opened StoredRuns
  import opened Optimizer
  import opened Vm

  /**
   * What the stored program shows of a moment of the original run: outside the function the same exit, target and
   * memory and, at a clean exit, the same registers but those a deleted instruction writes unseen; inside it the next
   * kept instruction under its new number, with the same memory.
   */
  ghost predicate EndView<M>(items: Items, kept: Items, deleted: set<Key>, keepFlags: bool, c: Config<M>,
                             s: Config<M>) {
    match c
    case Left(at, target, regs, mem) =>
      && s.Left? && s.at == Place(kept, at) && s.target == target && s.mem == mem
      && (CleanExit(items, at) ==> forall v :: Get(regs, v) == Get(s.regs, v) || Lost(items, deleted, keepFlags, v))
    case Running(ip, _, mem) =>
      if Onto(kept, ip) in kept then s.Running? && s.ip == Place(kept, Onto(kept, ip)) && s.mem == mem else !s.Left?
    case Stuck(_) => false
  }

  /** The original run's moment `n` is shown by a moment of the stored run, no later. */
  ghost predicate IsShown<M>(items: Items, items': Items, kept: Items, deleted: set<Key>, keepFlags: bool,
                             m: Machine<M>, m': Machine<M>, arch: Arch, start: Config<M>, n: nat)
    requires forall k :: k in items ==> items[k].WellFormed()
    requires forall k :: k in items' ==> items'[k].WellFormed()
  {
    exists n': nat :: n' <= n
      && EndView(items, kept, deleted, keepFlags, Run(items, m, arch, start, n), Run(items', m', arch, start, n'))
  }

  /** The stored run's moment `n` shows a moment of the original run. */
  ghost predicate Shows<M>(items: Items, items': Items, kept: Items, deleted: set<Key>, keepFlags: bool,
                           m: Machine<M>, m': Machine<M>, arch: Arch, start: Config<M>, n: nat)
    requires forall k :: k in items ==> items[k].WellFormed()
    requires forall k :: k in items' ==> items'[k].WellFormed()
  {
    exists n': nat ::
      EndView(items, kept, deleted, keepFlags, Run(items, m, arch, start, n'), Run(items', m', arch, start, n))
  }

  /** Every moment of each run is shown by one of the other, from all registers and memory. */
  ghost predicate ShowsAll<M(!new)>(items: Items, items': Items, kept: Items, deleted: set<Key>, keepFlags: bool,
                                    m: Machine<M>, m': Machine<M>, arch: Arch, from: IRAddr)
    requires forall k :: k in items ==> items[k].WellFormed()
    requires forall k :: k in items' ==> items'[k].WellFormed()
  {
    forall regs: Regs, mem: M, n: nat ::
      && IsShown(items, items', kept, deleted, keepFlags, m, m', arch, Running(from, regs, mem), n)
      && Shows(items, items', kept, deleted, keepFlags, m, m', arch, Running(from, regs, mem), n)
  }

  /** The jumps and attributes of what was kept still name the right instructions. */
  ghost predicate KeptSteady(items: Items, from: IRAddr, nodes: Nodes, deleted: set<Key>) {
    forall left, kept :: IsKept(items, nodes, deleted, left, kept) ==> Steady(kept) && Unmoved(kept, from)
  }

  lemma SeenThrough<M>(items: Items, kept: Items, deleted: set<Key>, keepFlags: bool, arch: Arch,
                       c: Config<M>, o: Config<M>, s: Config<M>)
    requires SameView(items, deleted, keepFlags, c, o) && StoredView(kept, arch, o, s)
    ensures EndView(items, kept, deleted, keepFlags, c, s)
  {
    hide Onto, Place, CleanExit, Lost;
  }

  /** The full program of the elimination and the graph after it. */
  lemma FullProgram(items: Items, arch: Arch, from: IRAddr, before: Nodes, edges: set<DFGEdge>, keepFlags: bool,
                    deleted: set<Key>, nodes: Nodes)
    requires Setting(items, arch, from, before, edges, keepFlags, deleted)
    requires GraphAfter(items, arch, from, deleted, nodes)
    ensures var full := Optimized(items, deleted);
      && HoldsCode(items, from, full, nodes, deleted) && IsGraph(nodes) && Gapless(full)
      && IsDomain(full, FunctionCode(items, from)) && BlocksStored(items, from)
      && forall k :: k in full ==> full[k].WellFormed()
  {
    hide WellFormedCode, Resolves, BlockAt, IsDFG, Deletable, Reachable, GraphAfter, Optimized, Gapless;
    hide IsDomain, LiveEdges;
    forall k | k in items && At(k) in deleted
      ensures Removable(items[k])
    {
      DeletedIsRemovable(items, arch, from, before, edges, keepFlags, deleted, k);
    }
    GraphIsGraph(items, arch, from, deleted, nodes);
    OptimizedGapless(items, deleted);
    FunctionIsDomain(items, from);
    DomainKept(items, deleted, FunctionCode(items, from));
    OptimizedIsWellFormed(items, arch, from, before, edges, keepFlags, deleted);
    SearchedIsStored(items, arch, from);
    GraphHolds(items, arch, from, deleted, nodes);
  }

  lemma GraphHolds(items: Items, arch: Arch, from: IRAddr, deleted: set<Key>, nodes: Nodes)
    requires WellFormedCode(items) && GraphAfter(items, arch, from, deleted, nodes)
    requires forall k :: Searched(items, arch, from, k) ==> k in items && InFunction(items, from, k)
    ensures HoldsCode(items, from, Optimized(items, deleted), nodes, deleted)
  {
    hide Searched, InFunction, WellFormedCode;
  }

  lemma KeptWellFormed(items: Items, from: IRAddr, full: Items, nodes: Nodes, deleted: set<Key>, left: Items,
                       kept: Items)
    requires WellFormedCode(items) && Resolves(items, from) && BlocksStored(items, from)
    requires HoldsCode(items, from, full, nodes, deleted) && Storable(items, from, nodes, deleted)
    requires IsKept(items, nodes, deleted, left, kept) && forall k :: k in full ==> full[k].WellFormed()
    ensures forall k :: k in kept ==> kept[k].WellFormed()
  {
    hide WellFormedCode, Resolves, BlocksStored, HoldsCode, Storable, Survivors, Insn.WellFormed, HasCode;
    forall k | k in kept
      ensures kept[k].WellFormed()
    {
      if k in left {
        SurvivorIsSame(items, from, full, nodes, deleted, left, k);
        assert Code.Stored(kept, k, left[k]);
      } else {
        var d: IRAddr :| At(d) in deleted && At(d) in nodes && nodes[At(d)].Some? && d.addr == k.addr
          && kept[k] == StandIn(nodes[At(d)].value);
        DeletedIdle(items, from, full, nodes, deleted, d);
        StandInWellFormed(full[d]);
      }
    }
  }

  lemma StandInWellFormed(insn: Insn)
    requires insn.WellFormed() && Idle(insn)
    ensures StandIn(insn).WellFormed()
  {
  }

  /** Everything the theorem needs to know about what is stored. */
  lemma StoredIs(items: Items, arch: Arch, from: IRAddr, keepFlags: bool, deleted: set<Key>, nodes: Nodes,
                 items': Items)
    returns (left: Items, kept: Items)
    requires IsOptimization(items, arch, from, keepFlags, Ok(deleted))
    requires GraphAfter(items, arch, from, deleted, nodes) && Restored(items, nodes, deleted, items')
    requires Storable(items, from, nodes, deleted) && KeptSteady(items, from, nodes, deleted)
    ensures IsStored(items, from, Optimized(items, deleted), nodes, deleted, left, kept, items')
  {
    hide WellFormedCode, Resolves, IsDFG, Deletable, Sustained, GraphAfter, Restored, Storable, BlocksStored,
      HoldsCode, Gapless, IsDomain, IsKept, Renumbered, Steady, Unmoved, Optimized, IsGraph, LiveEdges, HasInsns;
    var before, edges :| Setting(items, arch, from, before, edges, keepFlags, deleted)
      && Sustained(before, LiveEdges(before, edges, keepFlags), before.Keys - deleted);
    FullProgram(items, arch, from, before, edges, keepFlags, deleted, nodes);
    StoredHasInsns(items, arch, from, deleted, nodes);
    left, kept := RestoredIsRenumbered(items, nodes, deleted, items');
    KeptWellFormed(items, from, Optimized(items, deleted), nodes, deleted, left, kept);
  }

  /**
   * If the function could be stored without loss, the stored program runs like the original: for every machine there
   * is one whose unknown instructions and calls are found at the new places, such that from all registers and memory
   * every moment of the original run is shown by one of the stored run, no later, and the other way round.
   */
  lemma StoredRunsLikeOriginal<M(!new)>(items: Items, arch: Arch, from: IRAddr, keepFlags: bool, deleted: set<Key>,
                                        nodes: Nodes, items': Items, m: Machine<M>)
    returns (kept: Items, m': Machine<M>)
    requires IsOptimization(items, arch, from, keepFlags, Ok(deleted))
    requires GraphAfter(items, arch, from, deleted, nodes) && Restored(items, nodes, deleted, items')
    requires Storable(items, from, nodes, deleted) && KeptSteady(items, from, nodes, deleted)
    ensures Renumbered(kept, items') && Follows(kept, m, m')
    ensures forall k :: k in items ==> items[k].WellFormed()
    ensures forall k :: k in items' ==> items'[k].WellFormed()
    ensures ShowsAll(items, items', kept, deleted, keepFlags, m, m', arch, from)
  {
    var before, edges :| Setting(items, arch, from, before, edges, keepFlags, deleted)
      && Sustained(before, LiveEdges(before, edges, keepFlags), before.Keys - deleted);
    var left;
    left, kept := StoredIs(items, arch, from, keepFlags, deleted, nodes, items');
    m' := FollowerExists(kept, m);
    hide Setting, IsStored, Follows, Renumbered, EndView, Sustained, GraphAfter, Restored, Storable;
    hide KeptSteady, Optimized;
    MomentsShown(items, arch, from, before, edges, keepFlags, deleted, nodes, left, kept, items', m, m');
  }

  lemma MomentsShown<M(!new)>(items: Items, arch: Arch, from: IRAddr, before: Nodes, edges: set<DFGEdge>,
                              keepFlags: bool, deleted: set<Key>, nodes: Nodes, left: Items, kept: Items, items': Items,
                              m: Machine<M>, m': Machine<M>)
    requires Setting(items, arch, from, before, edges, keepFlags, deleted) && Follows(kept, m, m')
    requires IsStored(items, from, Optimized(items, deleted), nodes, deleted, left, kept, items')
    ensures forall k :: k in items ==> items[k].WellFormed()
    ensures forall k :: k in items' ==> items'[k].WellFormed()
    ensures ShowsAll(items, items', kept, deleted, keepFlags, m, m', arch, from)
    ensures Renumbered(kept, items')
  {
    StoredWellFormed(items, from, Optimized(items, deleted), nodes, deleted, left, kept, items');
    hide Setting, IsStored, Follows, Optimized, Insn.WellFormed, IsShown, Shows;
    forall regs: Regs, mem: M, n: nat
      ensures IsShown(items, items', kept, deleted, keepFlags, m, m', arch, Running(from, regs, mem), n)
      ensures Shows(items, items', kept, deleted, keepFlags, m, m', arch, Running(from, regs, mem), n)
    {
      MomentShown(items, arch, from, before, edges, keepFlags, deleted, nodes, left, kept, items', m, m', regs, mem, n);
      MomentShows(items, arch, from, before, edges, keepFlags, deleted, nodes, left, kept, items', m, m', regs, mem, n);
    }
  }

  lemma StoredWellFormed(items: Items, from: IRAddr, full: Items, nodes: Nodes, deleted: set<Key>, left: Items,
                         kept: Items, items': Items)
    requires IsStored(items, from, full, nodes, deleted, left, kept, items')
    ensures forall k :: k in items ==> items[k].WellFormed()
    ensures forall k :: k in items' ==> items'[k].WellFormed()
    ensures Renumbered(kept, items')
  {
    hide Insn.WellFormed, Renumbered, HoldsCode, Storable, IsKept, Steady, Gapless, IsDomain, Keyed, Resolves;
    KeptKeys(items, from, full, nodes, deleted, left, kept);
    RenumberedWellFormed(kept, items');
  }

  lemma MomentShown<M(!new)>(items: Items, arch: Arch, from: IRAddr, before: Nodes, edges: set<DFGEdge>,
                             keepFlags: bool, deleted: set<Key>, nodes: Nodes, left: Items, kept: Items, items': Items,
                             m: Machine<M>, m': Machine<M>, regs: Regs, mem: M, n: nat)
    requires Setting(items, arch, from, before, edges, keepFlags, deleted) && Follows(kept, m, m')
    requires IsStored(items, from, Optimized(items, deleted), nodes, deleted, left, kept, items')
    requires forall k :: k in items ==> items[k].WellFormed()
    ensures forall k :: k in items' ==> items'[k].WellFormed()
    ensures IsShown(items, items', kept, deleted, keepFlags, m, m', arch, Running(from, regs, mem), n)
  {
    hide Setting, IsStored, Follows, EndView, SameView, StoredView, Optimized, Insn.WellFormed, Run;
    var full, c := Optimized(items, deleted), Running(from, regs, mem);
    EliminationPreservesRuns(items, m, arch, from, before, edges, keepFlags, deleted, regs, mem, n);
    var n' := StoredFollows(items, from, full, nodes, deleted, left, kept, items', m, m', arch, regs, mem, n);
    SeenThrough(items, kept, deleted, keepFlags, arch, Run(items, m, arch, c, n), Run(full, m, arch, c, n),
                Run(items', m', arch, c, n'));
  }

  lemma MomentShows<M(!new)>(items: Items, arch: Arch, from: IRAddr, before: Nodes, edges: set<DFGEdge>,
                             keepFlags: bool, deleted: set<Key>, nodes: Nodes, left: Items, kept: Items, items': Items,
                             m: Machine<M>, m': Machine<M>, regs: Regs, mem: M, n: nat)
    requires Setting(items, arch, from, before, edges, keepFlags, deleted) && Follows(kept, m, m')
    requires IsStored(items, from, Optimized(items, deleted), nodes, deleted, left, kept, items')
    requires forall k :: k in items ==> items[k].WellFormed()
    ensures forall k :: k in items' ==> items'[k].WellFormed()
    ensures Shows(items, items', kept, deleted, keepFlags, m, m', arch, Running(from, regs, mem), n)
  {
    hide Setting, IsStored, Follows, EndView, SameView, StoredView, Optimized, Insn.WellFormed, Run;
    var full, c := Optimized(items, deleted), Running(from, regs, mem);
    var n' := FullFollows(items, from, full, nodes, deleted, left, kept, items', m, m', arch, regs, mem, n);
    EliminationPreservesRuns(items, m, arch, from, before, edges, keepFlags, deleted, regs, mem, n');
    SeenThrough(items, kept, deleted, keepFlags, arch, Run(items, m, arch, c, n'), Run(full, m, arch, c, n'),
                Run(items', m', arch, c, n));
  }
}
