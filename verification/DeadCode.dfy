/** Dead code elimination on the data flow graph. */
module DeadCode {
  import opened Wrappers
  import opened Ir
  import opened Code
  import opened Storage
  import opened Dfg

  /** The entry node has no instruction; asking for its opcode ends the elimination. */
  datatype EliminationError = EntryHasNoInsn

  type Nodes = map<Key, Option<Insn>>

  /** Variables whose last value may be lost at the end of the function. */
  predicate Droppable(v: Var, keepFlags: bool) {
    v.Temp? || (!keepFlags && IsFlag(v))
  }

  /** The elimination looks at the first destination only. */
  predicate DropsAtExit(insn: Insn, keepFlags: bool) {
    insn.Dst() != [] && Droppable(insn.Dst()[0], keepFlags)
  }

  predicate Removable(insn: Insn) {
    insn.op !in {JCC, STM, NONE}
  }

  ghost predicate IsItems(nodes: Nodes) {
    Entry in nodes && Exit in nodes && forall k :: k in nodes ==> (k.At? <==> nodes[k].Some?)
  }

  /** The edges without those to the exit that carry droppable values. */
  ghost function LiveEdges(nodes: Nodes, edges: set<DFGEdge>, keepFlags: bool): set<DFGEdge> {
    set e | e in edges &&
      !(e.dst == Exit && e.src in nodes && nodes[e.src].Some? && DropsAtExit(nodes[e.src].value, keepFlags))
  }

  ghost predicate Stays(nodes: Nodes, k: Key)
    requires k in nodes
  {
    k == Exit || (k.At? && nodes[k].Some? && !Removable(nodes[k].value))
  }

  /** A set of nodes each of which must stay or feeds another one of the set. */
  ghost predicate Sustained(nodes: Nodes, edges: set<DFGEdge>, s: set<Key>) {
    forall k :: k in s ==> k in nodes && (Stays(nodes, k) || exists e :: e in edges && e.src == k && e.dst in s)
  }

  ghost predicate Within(edges: set<DFGEdge>, deleted: set<Key>, rest: set<DFGEdge>) {
    forall e :: e in rest <==> e in edges && e.src !in deleted && e.dst !in deleted
  }

  /** What is deleted is removable, feeds only deleted nodes, and keeps no sustained set from standing. */
  ghost predicate Deletable(nodes: Nodes, edges: set<DFGEdge>, deleted: set<Key>) {
    && (forall k :: k in deleted ==> k.At? && k in nodes && nodes[k].Some? && Removable(nodes[k].value))
    && (forall e :: e in edges && e.src in deleted ==> e.dst in deleted)
    && (forall s, k :: Sustained(nodes, edges, s) && k in deleted ==> k !in s)
  }

  ghost predicate Eliminated(nodes: Nodes, deleted: set<Key>, nodes': Nodes) {
    && nodes'.Keys == nodes.Keys
    && (forall k :: k in nodes ==>
          nodes'[k] == if k in deleted && nodes[k].Some? then Some(nodes[k].value.Eliminate()) else nodes[k])
  }

  /** Deleting a node marks the instruction it was read from, in the storage. */
  ghost predicate IsMarked(items: Items, marks: set<Key>, items': Items) {
    && items'.Keys == items.Keys
    && (forall k :: k in items ==> items'[k] == if At(k) in marks then items[k].Mark() else items[k])
  }

  /** The instructions of the nodes are stored. */
  ghost predicate IsReadFrom(items: Items, nodes: Nodes) {
    forall k :: At(k) in nodes ==> k in items
  }

  /** Nothing is left that the entry node feeds. */
  ghost predicate EntryStarves(live: set<DFGEdge>, deleted: set<Key>) {
    forall e :: e in live && e.src == Entry ==> e.dst in deleted
  }

  /** Deleting one more node that feeds nobody. */
  lemma DeletableGrows(nodes: Nodes, edges: set<DFGEdge>, deleted: set<Key>, rest: set<DFGEdge>, k: Key)
    requires Deletable(nodes, edges, deleted) && Within(edges, deleted, rest)
    requires k.At? && k in nodes && nodes[k].Some? && Removable(nodes[k].value) && k !in deleted
    requires forall e :: e in rest ==> e.src != k
    ensures Deletable(nodes, edges, deleted + {k})
  {
    assert forall e :: e in edges && e.src == k ==> e !in rest;
  }

  /**
   * Removes, until nothing changes, nodes that feed nobody. The order of the visits does not matter:
   * exactly the nodes outside the greatest sustained set go. If the entry node is outside too, its
   * missing instruction ends the elimination. In the storage the graph was read from, whatever was deleted
   * is marked, also when the elimination ends early.
   */
  method EliminateDeadCode(dfg: DFGraph, storage: CodeStorageMem, keepFlags: bool)
    returns (r: Result<set<Key>, EliminationError>)
    requires dfg.Valid() && IsItems(dfg.nodes) && IsReadFrom(storage.items, dfg.nodes)
    requires forall e :: e in dfg.edges && e.dst == Exit ==> e.src.At?
    modifies dfg, storage
    ensures dfg.Valid()
    ensures r.Ok? ==> IsMarked(old(storage.items), r.value, storage.items)
    ensures var live := LiveEdges(old(dfg.nodes), old(dfg.edges), keepFlags);
      match r
      case Ok(deleted) =>
        && Deletable(old(dfg.nodes), live, deleted)
        && Sustained(old(dfg.nodes), live, old(dfg.nodes).Keys - deleted)
        && Within(live, deleted, dfg.edges)
        && Eliminated(old(dfg.nodes), deleted, dfg.nodes)
      case Err(_) =>
        && (forall s :: Sustained(old(dfg.nodes), live, s) ==> Entry !in s)
        && exists deleted :: Deletable(old(dfg.nodes), live, deleted) && EntryStarves(live, deleted)
                             && IsMarked(old(storage.items), deleted, storage.items)
  {
    ghost var items := storage.items;
    DropAtExit(dfg, keepFlags);
    ghost var nodes, live := dfg.nodes, dfg.edges;
    var deleted: set<Key> := {};
    while true
      invariant dfg.Valid() && Underway(nodes, live, items, deleted, dfg.edges, dfg.nodes, storage.items)
      decreases nodes.Keys - deleted
    {
      var ok, count;
      ok, count, deleted := Pass(dfg, storage, deleted, nodes, live, items);
      if !ok { return Err(EntryHasNoInsn); }
      if count == 0 { return Ok(deleted); }
    }
  }

  ghost predicate Fed(nodes: Nodes, edges: set<DFGEdge>, deleted: set<Key>, k: Key)
    requires k in nodes
  {
    Stays(nodes, k) || exists e :: e in edges && e.src == k && e.dst !in deleted
  }

  lemma EntryUnsustained(nodes: Nodes, edges: set<DFGEdge>, deleted: set<Key>, rest: set<DFGEdge>)
    requires Deletable(nodes, edges, deleted) && Within(edges, deleted, rest)
    requires Entry in nodes && forall e :: e in rest ==> e.src != Entry
    ensures forall s :: Sustained(nodes, edges, s) ==> Entry !in s
  {
  }

  lemma AllFedIsSustained(nodes: Nodes, edges: set<DFGEdge>, deleted: set<Key>)
    requires forall k :: k in nodes && k !in deleted ==> Fed(nodes, edges, deleted, k)
    requires forall e :: e in edges ==> e.dst in nodes
    ensures Sustained(nodes, edges, nodes.Keys - deleted)
  {
  }

  lemma MarkedMore(items: Items, marks: set<Key>, items': Items, k: IRAddr)
    requires IsMarked(items, marks, items') && k in items
    ensures IsMarked(items, marks + {At(k)}, items'[k := items'[k].Mark()])
  {
  }

  /** An elimination under way: the graph and the storage, from what they were at its start. */
  ghost predicate Underway(nodes: Nodes, live: set<DFGEdge>, items: Items, deleted: set<Key>, rest: set<DFGEdge>,
                           nodes': Nodes, items': Items) {
    && Deletable(nodes, live, deleted) && Within(live, deleted, rest)
    && Eliminated(nodes, deleted, nodes') && IsMarked(items, deleted, items')
  }

  /** The deletion of a node that feeds nobody. */
  lemma UnderwayMore(nodes: Nodes, live: set<DFGEdge>, items: Items, deleted: set<Key>, rest: set<DFGEdge>,
                     nodes': Nodes, items': Items, k: Key)
    requires Underway(nodes, live, items, deleted, rest, nodes', items') && IsItems(nodes) && IsReadFrom(items, nodes)
    requires k in nodes' && k.At? && nodes'[k].Some? && Removable(nodes'[k].value)
    requires forall e :: e in rest ==> e.src != k
    ensures k in nodes && k !in deleted && k.ir in items'
    ensures Underway(nodes, live, items, deleted + {k}, (set e | e in rest && e.src != k && e.dst != k),
                     nodes'[k := Some(nodes'[k].value.Eliminate())], items'[k.ir := items'[k.ir].Mark()])
  {
    assert k !in deleted && nodes[k] == nodes'[k];
    DeletableGrows(nodes, live, deleted, rest, k);
    MarkedMore(items, deleted, items', k.ir);
    hide Deletable, IsMarked;
  }

  /** Removes the edges of a node that feeds nobody and turns its instruction into a no-op. */
  method Delete(dfg: DFGraph, storage: CodeStorageMem, k: Key, ghost deleted: set<Key>, ghost nodes: Nodes,
                ghost live: set<DFGEdge>, ghost items: Items)
    requires dfg.Valid() && k in dfg.nodes && dfg.nodes[k].Some? && k.At? && Removable(dfg.nodes[k].value)
    requires dfg.outEdges[k] == {}
    requires IsItems(nodes) && IsReadFrom(items, nodes)
    requires Underway(nodes, live, items, deleted, dfg.edges, dfg.nodes, storage.items)
    modifies dfg, storage
    ensures dfg.Valid() && k in nodes && k !in deleted
    ensures Underway(nodes, live, items, deleted + {k}, dfg.edges, dfg.nodes, storage.items)
  {
    hide Underway, IsItems, IsReadFrom;
    assert forall e :: e in dfg.edges ==> e.src != k;
    ghost var rest := set e | e in dfg.edges && e.src != k && e.dst != k;
    UnderwayMore(nodes, live, items, deleted, dfg.edges, dfg.nodes, storage.items, k);
    dfg.DelNode(k, false);
    dfg.SetItem(k, Some(dfg.nodes[k].value.Eliminate()));
    assert dfg.edges == rest;
    storage.MarkEliminated(k.ir);
  }

  /** A node that keeps an edge, or must stay, is fed. */
  lemma VisitedFed(nodes: Nodes, live: set<DFGEdge>, deleted: set<Key>, rest: set<DFGEdge>, nodes': Nodes, k: Key)
    requires Within(live, deleted, rest) && Eliminated(nodes, deleted, nodes') && IsItems(nodes)
    requires k in nodes && k !in deleted
    requires (exists e :: e in rest && e.src == k) || k == Exit || (nodes'[k].Some? && !Removable(nodes'[k].value))
    ensures Fed(nodes, live, deleted, k)
  {
  }

  lemma EntryEnds(nodes: Nodes, live: set<DFGEdge>, deleted: set<Key>, rest: set<DFGEdge>)
    requires Deletable(nodes, live, deleted) && Within(live, deleted, rest)
    requires Entry in nodes && forall e :: e in rest ==> e.src != Entry
    ensures EntryStarves(live, deleted) && forall s :: Sustained(nodes, live, s) ==> Entry !in s
  {
    EntryUnsustained(nodes, live, deleted, rest);
  }

  /** One round over all nodes; false if it meets the entry node without edges. */
  method Pass(dfg: DFGraph, storage: CodeStorageMem, deleted: set<Key>, ghost nodes: Nodes, ghost live: set<DFGEdge>,
              ghost items: Items)
    returns (ok: bool, count: nat, deleted': set<Key>)
    requires dfg.Valid() && IsItems(nodes) && IsReadFrom(items, nodes) && forall e :: e in live ==> e.dst in nodes
    requires Underway(nodes, live, items, deleted, dfg.edges, dfg.nodes, storage.items)
    modifies dfg, storage
    ensures dfg.Valid() && Underway(nodes, live, items, deleted', dfg.edges, dfg.nodes, storage.items)
    ensures ok && count == 0 ==> deleted' == deleted && Sustained(nodes, live, nodes.Keys - deleted)
    ensures ok && count > 0 ==> nodes.Keys - deleted' < nodes.Keys - deleted
    ensures !ok ==> EntryStarves(live, deleted') && forall s :: Sustained(nodes, live, s) ==> Entry !in s
  {
    hide Deletable, Sustained, Within, IsMarked, IsReadFrom, EntryStarves, Fed, Removable;
    ok, count, deleted' := true, 0, deleted;
    var todo := dfg.nodes.Keys;
    while todo != {}
      invariant dfg.Valid() && todo <= nodes.Keys
      invariant Underway(nodes, live, items, deleted', dfg.edges, dfg.nodes, storage.items)
      invariant count == 0 ==> deleted' == deleted
      invariant count == 0 ==>
        forall k :: k in nodes && k !in todo && k !in deleted ==> Fed(nodes, live, deleted, k)
      invariant count > 0 ==> nodes.Keys - deleted' < nodes.Keys - deleted
    {
      var k :| k in todo;
      todo := todo - {k};
      if dfg.outEdges[k] == {} && k != Exit {
        if dfg.nodes[k].None? {
          assert k == Entry && forall e :: e in dfg.edges ==> e.src != k;
          EntryEnds(nodes, live, deleted', dfg.edges);
          return false, count, deleted';
        }
        if Removable(dfg.nodes[k].value) {
          Delete(dfg, storage, k, deleted', nodes, live, items);
          assert k in nodes.Keys - deleted' && k !in nodes.Keys - (deleted' + {k});
          deleted', count := deleted' + {k}, count + 1;
        }
      }
      if count == 0 && k !in deleted { VisitedFed(nodes, live, deleted, dfg.edges, dfg.nodes, k); }
    }
    if count == 0 { AllFedIsSustained(nodes, live, deleted); }
  }

  /** Removes the edges to the exit that carry droppable values. */
  method DropAtExit(dfg: DFGraph, keepFlags: bool)
    requires dfg.Valid() && IsItems(dfg.nodes)
    requires forall e :: e in dfg.edges && e.dst == Exit ==> e.src.At?
    modifies dfg
    ensures dfg.Valid() && dfg.nodes == old(dfg.nodes)
    ensures dfg.edges == LiveEdges(old(dfg.nodes), old(dfg.edges), keepFlags)
  {
    var todo := dfg.inEdges[Exit];
    while todo != {}
      invariant dfg.Valid() && dfg.nodes == old(dfg.nodes) && todo <= dfg.edges
      invariant forall e :: e in todo ==> e.dst == Exit
      invariant forall e :: e in dfg.edges <==>
        e in old(dfg.edges) && (e in todo || e in LiveEdges(old(dfg.nodes), old(dfg.edges), keepFlags))
    {
      var e :| e in todo;
      todo := todo - {e};
      if DropsAtExit(dfg.nodes[e.src].value, keepFlags) { dfg.DelEdge(e); }
    }
  }
}
