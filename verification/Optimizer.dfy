/** From stored code to stored code without dead instructions. */
module Optimizer {
  import opened Wrappers
  import opened Ir
  import opened Code
  import opened Storage
  import opened Cfg
  import opened Dfg
  import opened DfgBuilder
  import opened DeadCode
  import opened DeadCodeCorrect
  import opened Renumbering
  import opened Store
  import opened StoredRuns
  import opened Marks
  import opened Vm

  datatype OptimizationError =
    | Search(search: DFGError)
    | Elimination(error: EliminationError)
    | Storing(store: StoreError)

  /** Both programs run alike on every machine, from all registers and memory, for any number of steps. */
  ghost predicate RunsAlike<M(!new)>(items: Items, arch: Arch, from: IRAddr, keepFlags: bool, deleted: set<Key>,
                                     m: Machine<M>)
    requires forall k :: k in items ==> items[k].WellFormed()
    requires forall k :: k in Optimized(items, deleted) ==> Optimized(items, deleted)[k].WellFormed()
  {
    forall regs: Regs, mem: M, n: nat ::
      SameView(items, deleted, keepFlags,
               Run(items, m, arch, Running(from, regs, mem), n),
               Run(Optimized(items, deleted), m, arch, Running(from, regs, mem), n))
  }

  lemma OptimizedRunsAlike<M(!new)>(items: Items, arch: Arch, from: IRAddr, nodes: Nodes, edges: set<DFGEdge>,
                                    keepFlags: bool, deleted: set<Key>)
    requires Setting(items, arch, from, nodes, edges, keepFlags, deleted)
    ensures forall k :: k in Optimized(items, deleted) ==> Optimized(items, deleted)[k].WellFormed()
    ensures forall m: Machine<M> :: RunsAlike(items, arch, from, keepFlags, deleted, m)
  {
    hide SameView, Optimized, IsDFG, BlockAt, Deletable, Reachable;
    OptimizedIsWellFormed(items, arch, from, nodes, edges, keepFlags, deleted);
    forall m: Machine<M>, regs: Regs, mem: M, n: nat
      ensures SameView(items, deleted, keepFlags,
                       Run(items, m, arch, Running(from, regs, mem), n),
                       Run(Optimized(items, deleted), m, arch, Running(from, regs, mem), n))
    {
      EliminationPreservesRuns(items, m, arch, from, nodes, edges, keepFlags, deleted, regs, mem, n);
    }
  }

  /** Edges to the exit start at instructions. */
  lemma ExitEdgesStartAtInsns(items: Items, arch: Arch, from: IRAddr, nodes: Nodes, edges: set<DFGEdge>)
    requires IsDFG(items, arch, from, nodes, edges)
    ensures IsItems(nodes)
    ensures forall e :: e in edges && e.dst == Exit ==> e.src.At?
  {
    hide Reachable, BlockOf, PathState, InFunction, EntryDefines;
    forall e | e in edges && e.dst == Exit
      ensures e.src.At?
    {
      var p :| IsPath(items, from, p) && BlockEdge(arch, BlockOf(items, p[|p| - 1]), PathState(items, arch, p), e);
    }
    assert forall k :: k in nodes ==> (k.At? <==> nodes[k].Some?);
  }

  /**
   * Which instructions go: on the data flow graph of the function, those outside the greatest sustained
   * set. Optimisation fails on code that is not there, and if no surviving instruction uses a value
   * from before the function.
   */
  ghost predicate IsOptimization(items: Items, arch: Arch, from: IRAddr, keepFlags: bool,
                                 r: Result<set<Key>, OptimizationError>) {
    match r
    case Ok(deleted) => exists nodes, edges ::
      Setting(items, arch, from, nodes, edges, keepFlags, deleted)
      && Sustained(nodes, LiveEdges(nodes, edges, keepFlags), nodes.Keys - deleted)
    case Err(Search(error)) => GraphOutcome(items, arch, from, Some(error))
    case Err(Elimination(_)) => exists nodes, edges ::
      IsDFG(items, arch, from, nodes, edges)
      && forall s :: Sustained(nodes, LiveEdges(nodes, edges, keepFlags), s) ==> Entry !in s
    case Err(Storing(_)) => false
  }

  /** The nodes after elimination: what the search looked at, the dead instructions turned into no-ops. */
  ghost predicate GraphAfter(items: Items, arch: Arch, from: IRAddr, deleted: set<Key>, nodes: Nodes) {
    && IsItems(nodes)
    && (forall k :: At(k) in nodes <==> k in items && Searched(items, arch, from, k))
    && (forall k :: At(k) in nodes ==> nodes[At(k)] == Some(Optimized(items, deleted)[k]))
    && (forall k :: k in deleted ==> k.At? && k in nodes)
  }

  /**
   * What elimination leaves in the storage: the code as it was, with exactly the eliminated instructions marked. If
   * it ends at the entry node, marked is what was deleted until then, which is everything the entry node feeds.
   */
  ghost predicate IsElimination(items: Items, arch: Arch, from: IRAddr, keepFlags: bool,
                                r: Result<set<Key>, OptimizationError>, items': Items) {
    && IsOptimization(items, arch, from, keepFlags, r)
    && match r
       case Ok(deleted) => IsMarked(items, deleted, items')
       case Err(Elimination(_)) => IsStarved(items, arch, from, keepFlags, items')
       case Err(_) => items' == items
  }

  ghost predicate IsStarved(items: Items, arch: Arch, from: IRAddr, keepFlags: bool, items': Items) {
    exists nodes, edges, deleted ::
      && IsDFG(items, arch, from, nodes, edges) && Deletable(nodes, LiveEdges(nodes, edges, keepFlags), deleted)
      && EntryStarves(LiveEdges(nodes, edges, keepFlags), deleted) && IsMarked(items, deleted, items')
  }

  /** Builds the data flow graph of the function at `from` and eliminates its dead code; nothing is written back. */
  method EliminateFunction<M(!new)>(storage: CodeStorageMem, arch: Arch, from: IRAddr, keepFlags: bool)
    returns (r: Result<set<Key>, OptimizationError>, nodes: Nodes)
    requires WellFormedCode(storage.items) && Resolves(storage.items, from)
    modifies storage
    ensures r.Ok? ==> forall k ::
      k in Optimized(old(storage.items), r.value) ==> Optimized(old(storage.items), r.value)[k].WellFormed()
    ensures r.Ok? ==> forall m: Machine<M> :: RunsAlike(old(storage.items), arch, from, keepFlags, r.value, m)
    ensures IsElimination(old(storage.items), arch, from, keepFlags, r, storage.items)
    ensures r.Ok? ==> GraphAfter(old(storage.items), arch, from, r.value, nodes)
  {
    hide RunsAlike, WellFormedCode, Reachable, BlockAt, IsDFG, Deletable, Sustained, Optimized, GraphAfter, Eliminated;
    hide IsMarked, EntryStarves;
    ghost var items := storage.items;
    nodes := map[];
    var builder := new DFGraphBuilder(storage, arch);
    var dfg := builder.Traverse(from);
    if dfg.Err? { return Err(Search(dfg.error)), nodes; }
    ghost var before, edges := dfg.value.nodes, dfg.value.edges;
    ExitEdgesStartAtInsns(items, arch, from, before, edges);
    NodesAreRead(items, arch, from, before, edges);
    var deleted := EliminateDeadCode(dfg.value, storage, keepFlags);
    if deleted.Err? { return Err(Elimination(deleted.error)), nodes; }
    OptimizedRunsAlike<M>(items, arch, from, before, edges, keepFlags, deleted.value);
    nodes := dfg.value.nodes;
    NodesAfter(items, arch, from, before, edges, keepFlags, deleted.value, nodes);
    return Ok(deleted.value), nodes;
  }

  lemma NodesAreRead(items: Items, arch: Arch, from: IRAddr, nodes: Nodes, edges: set<DFGEdge>)
    requires IsDFG(items, arch, from, nodes, edges)
    ensures IsReadFrom(items, nodes)
  {
    hide InFunction, FlowEdge, BlockEdge, EntryDefines, BlockOf;
  }

  lemma NodesAfter(items: Items, arch: Arch, from: IRAddr, before: Nodes, edges: set<DFGEdge>, keepFlags: bool,
                   deleted: set<Key>, nodes: Nodes)
    requires Setting(items, arch, from, before, edges, keepFlags, deleted) && IsItems(before)
    requires Eliminated(before, deleted, nodes)
    ensures GraphAfter(items, arch, from, deleted, nodes)
  {
    hide BlockAt, Reachable, WellFormedCode, FlowEdge, LiveEdges, BlockOf, BlockEdge, Resolves;
    SearchedIsStored(items, arch, from);
    hide InFunction, InBlock, EntryDefines;
    forall k | At(k) in nodes
      ensures nodes[At(k)] == Some(Optimized(items, deleted)[k])
    {
      assert At(k) in before && before[At(k)] == Some(items[k]);
    }
  }

  lemma SearchedIsStored(items: Items, arch: Arch, from: IRAddr)
    requires WellFormedCode(items) && Resolves(items, from) && BlocksStored(items, from)
    ensures forall k :: Searched(items, arch, from, k) ==> k in items && InFunction(items, from, k)
  {
    hide WellFormedCode, Resolves, EntryDefines, BlockOf, InBlock, BlocksStored, BlockAt, Reachable;
    forall k | Searched(items, arch, from, k)
      ensures k in items && InFunction(items, from, k)
    {
      ReachableStart(items, from);
      var x, i := InFunctionBlock(items, from, k);
    }
  }

  /** Everything that is marked is deleted by the storing. */
  lemma MarkedCleared(items: Items, arch: Arch, from: IRAddr, deleted: set<Key>, nodes: Nodes, marked: Items, k: IRAddr)
    requires WellFormedCode(items) && Resolves(items, from) && BlocksStored(items, from)
    requires GraphAfter(items, arch, from, deleted, nodes) && IsMarked(items, deleted, marked)
    requires k in items && !(Touched(nodes, k.addr) && Taken(items, k))
    ensures marked[k] == items[k]
  {
    hide WellFormedCode, Resolves, BlocksStored, Searched, InFunction, Taken;
    if At(k) in deleted {
      SearchedIsStored(items, arch, from);
      assert At(k) in nodes && Touched(nodes, k.addr);
      BlockIsTaken(items, from, k, k);
      assert false;
    }
  }

  /** The graph has the entry block's instructions. */
  lemma StoredHasInsns(items: Items, arch: Arch, from: IRAddr, deleted: set<Key>, nodes: Nodes)
    requires WellFormedCode(items) && Resolves(items, from) && BlocksStored(items, from)
    requires GraphAfter(items, arch, from, deleted, nodes)
    ensures At(from) in nodes && HasInsns(nodes)
  {
    hide WellFormedCode, Resolves, Reachable, EntryDefines, BlockAt, BlockOf, InBlock;
    StartStored(items, from);
    StartSearched(items, arch, from);
  }

  lemma StartSearched(items: Items, arch: Arch, from: IRAddr)
    requires WellFormedCode(items) && Resolves(items, from) && BlocksStored(items, from)
    ensures Searched(items, arch, from, from)
  {
    hide WellFormedCode, Resolves, Reachable, EntryDefines, InFunction;
    StartStored(items, from);
    ReachableStart(items, from);
    BlockShape(items, from);
    var bb := BlockOf(items, from);
    assert bb[0].ir == from && InFront(bb, |bb|, from);
  }

  /** So storing the graph leaves no mark. */
  lemma StoringUnmarks(items: Items, arch: Arch, from: IRAddr, deleted: set<Key>, nodes: Nodes, marked: Items,
                       items': Items)
    requires WellFormedCode(items) && Resolves(items, from) && BlocksStored(items, from)
    requires GraphAfter(items, arch, from, deleted, nodes) && IsMarked(items, deleted, marked)
    ensures Cleared(marked, nodes, items') ==> Cleared(items, nodes, items')
    ensures Restored(marked, nodes, deleted, items') ==> Restored(items, nodes, deleted, items')
  {
    hide WellFormedCode, Resolves, BlocksStored, GraphAfter, Taken, Touched, Survives, Renumbered, Filled, HasInsns;
    StoredHasInsns(items, arch, from, deleted, nodes);
    MarkedTaken(items, deleted, marked);
    forall k | k in items && !(Touched(nodes, k.addr) && Taken(items, k))
      ensures marked[k] == items[k]
    {
      MarkedCleared(items, arch, from, deleted, nodes, marked, k);
    }
    if HasInsns(nodes) && Restored(marked, nodes, deleted, items') {
      var left, compact, filled :| Survivors(marked, nodes, left) && Renumbered(left, compact)
        && Filled(compact, nodes, deleted, filled) && Renumbered(filled, items');
      assert Survivors(items, nodes, left);
    }
  }

  /**
   * The outcome of storing: the optimised function, or deleted machine instructions, or what an elimination that
   * failed left.
   */
  ghost predicate IsStoring(items: Items, arch: Arch, from: IRAddr, keepFlags: bool,
                            r: Result<set<Key>, OptimizationError>, items': Items) {
    match r
    case Ok(deleted) =>
      && IsOptimization(items, arch, from, keepFlags, r)
      && exists nodes :: GraphAfter(items, arch, from, deleted, nodes) && Restored(items, nodes, deleted, items')
    case Err(Storing(_)) => exists deleted, nodes ::
      && IsOptimization(items, arch, from, keepFlags, Ok(deleted)) && GraphAfter(items, arch, from, deleted, nodes)
      && IsBroken(nodes) && Cleared(items, nodes, items')
    case Err(_) => IsElimination(items, arch, from, keepFlags, r, items')
  }

  /** Eliminates the dead code of the function at `from` and writes the graph back to the storage. */
  method OptimizeFunction<M(!new)>(storage: CodeStorageMem, arch: Arch, from: IRAddr, keepFlags: bool)
    returns (r: Result<set<Key>, OptimizationError>)
    requires WellFormedCode(storage.items) && Resolves(storage.items, from)
    modifies storage
    ensures IsStoring(old(storage.items), arch, from, keepFlags, r, storage.items)
  {
    hide RunsAlike, WellFormedCode, Resolves, IsOptimization, IsStarved, Restored, Cleared, IsBroken, GraphAfter;
    hide IsMarked, BlocksStored, IsGraph, Keyed;
    ghost var items := storage.items;
    var nodes;
    r, nodes := EliminateFunction<M>(storage, arch, from, keepFlags);
    if r.Err? {
      NotStoring(items, arch, from, keepFlags, r);
      return;
    }
    GraphIsGraph(items, arch, from, r.value, nodes);
    ghost var marked := storage.items;
    MarkedKeyed(items, r.value, marked);
    FunctionStored(items, arch, from, keepFlags, r.value);
    var error := StoreGraph(storage, nodes, r.value);
    StoringUnmarks(items, arch, from, r.value, nodes, marked, storage.items);
    if error.Some? { r := Err(Storing(error.value)); }
  }

  lemma MarkedKeyed(items: Items, marks: set<Key>, items': Items)
    requires WellFormedCode(items) && IsMarked(items, marks, items')
    ensures Keyed(items')
  {
    hide Resolves, Insn.WellFormed;
  }

  lemma FunctionStored(items: Items, arch: Arch, from: IRAddr, keepFlags: bool, deleted: set<Key>)
    requires IsOptimization(items, arch, from, keepFlags, Ok(deleted))
    ensures BlocksStored(items, from)
  {
    hide WellFormedCode, Resolves, IsDFG, LiveEdges, Deletable, Sustained, Reachable, BlockAt;
  }

  lemma NotStoring(items: Items, arch: Arch, from: IRAddr, keepFlags: bool, r: Result<set<Key>, OptimizationError>)
    requires r.Err? && IsOptimization(items, arch, from, keepFlags, r)
    ensures !r.error.Storing?
  {
  }

  lemma GraphIsGraph(items: Items, arch: Arch, from: IRAddr, deleted: set<Key>, nodes: Nodes)
    requires WellFormedCode(items) && GraphAfter(items, arch, from, deleted, nodes)
    ensures IsGraph(nodes) && Keyed(items)
    ensures forall k :: k in deleted ==> k.At? && k in nodes
  {
    hide Searched, Insn.WellFormed, Resolves;
  }
}
