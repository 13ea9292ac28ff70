/** Writing a data flow graph back to the storage: survivors only, renumbered, and a no-op for what went entirely. */
module Store {
  import opened Wrappers
  import opened Ir
  import opened Code
  import opened Storage
  import opened Renumbering
  import opened Gaps
  import opened Dfg
  import opened DeadCode

  /** Looking for the instruction behind an eliminated one ends where the graph has no node. */
  datatype StoreError = NoNode(at: IRAddr)

  /** Instruction nodes hold the instruction at their address. */
  ghost predicate IsGraph(nodes: Nodes) {
    && IsItems(nodes)
    && (forall k :: At(k) in nodes ==> nodes[At(k)].Some? && nodes[At(k)].value.ir == k)
  }

  /** Machine instructions with a node. */
  ghost predicate Touched(nodes: Nodes, addr: nat) {
    exists k :: At(k) in nodes && k.addr == addr
  }

  /** The IR that deleting a machine instruction takes: nothing if its end flag is missing. */
  ghost predicate Taken(items: Items, k: IRAddr) {
    match MachineCode(items, IRAddr(k.addr, 0))
    case Ok(code) => k.inum < |code|
    case Err(_) => false
  }

  predicate Survives(nodes: Nodes, k: IRAddr) {
    At(k) in nodes && nodes[At(k)].Some? && !nodes[At(k)].value.flags.eliminated
  }

  /** What is left after the machine instructions of the graph were deleted. */
  ghost predicate Cleared(items: Items, nodes: Nodes, items': Items) {
    && (forall k :: k in items' <==> k in items && !(Touched(nodes, k.addr) && Taken(items, k)))
    && (forall k :: k in items' ==> items'[k] == items[k])
  }

  /** And after the survivors were put back. */
  ghost predicate Survivors(items: Items, nodes: Nodes, items': Items) {
    && (forall k :: k in items' <==> Survives(nodes, k) || (k in items && !(Touched(nodes, k.addr) && Taken(items, k))))
    && (forall k :: k in items' ==> items'[k] == if Survives(nodes, k) then nodes[At(k)].value else items[k])
  }

  /** The no-op that stands for a machine instruction. */
  function StandIn(insn: Insn): Insn {
    insn.Eliminate().(ir := IRAddr(insn.ir.addr, 0))
  }

  ghost predicate IsStandIn(nodes: Nodes, deleted: set<Key>, k: IRAddr, insn: Insn) {
    k.inum == 0 && exists d: IRAddr ::
      At(d) in deleted && At(d) in nodes && nodes[At(d)].Some? && d.addr == k.addr &&
        insn == StandIn(nodes[At(d)].value)
  }

  /** Machine instructions of which nothing is left get a no-op made of one of their deleted instructions. */
  ghost predicate Filled(base: Items, nodes: Nodes, deleted: set<Key>, items': Items) {
    && (forall k :: k in base ==> Stored(items', k, base[k]))
    && (forall k :: k in items' && k !in base ==> !HasCode(base, k.addr) && IsStandIn(nodes, deleted, k, items'[k]))
    && (forall d :: At(d) in deleted ==> HasCode(items', d.addr))
  }

  /** The walk from an eliminated start that meets no survivor and no end before the nodes run out. */
  ghost predicate Broken(nodes: Nodes, addr: nat, n: nat) {
    && (forall i: nat :: i <= n ==> Passed(nodes, IRAddr(addr, i)))
    && At(IRAddr(addr, n + 1)) !in nodes
  }

  predicate Passed(nodes: Nodes, k: IRAddr) {
    At(k) in nodes && nodes[At(k)].Some? && nodes[At(k)].value.flags.eliminated && !nodes[At(k)].value.flags.asmEnd
  }

  ghost predicate IsBroken(nodes: Nodes) {
    exists addr, n :: Broken(nodes, addr, n)
  }

  ghost predicate HasInsns(nodes: Nodes) {
    exists k :: At(k) in nodes
  }

  /** The code that is finally stored; a graph without instructions changes nothing. */
  ghost predicate Restored(items: Items, nodes: Nodes, deleted: set<Key>, items': Items) {
    if HasInsns(nodes) then Rewritten(items, nodes, deleted, items') else items' == items
  }

  ghost predicate Rewritten(items: Items, nodes: Nodes, deleted: set<Key>, items': Items) {
    exists left, compact, filled ::
      && Survivors(items, nodes, left) && Renumbered(left, compact)
      && Filled(compact, nodes, deleted, filled) && Renumbered(filled, items')
  }

  // ---------- Deleting machine instructions ----------

  /** What else is stored does not matter to a machine instruction. */
  lemma {:induction false} SameMachineCode(items: Items, items': Items, at: IRAddr)
    requires forall k: IRAddr :: k.addr == at.addr ==>
        (k in items <==> k in items') && (k in items ==> items[k] == items'[k])
    ensures MachineCode(items, at) == MachineCode(items', at)
    decreases KeysFrom(items, at)
  {
    if at in items && !items[at].flags.asmEnd {
      assert at in KeysFrom(items, at) && at !in KeysFrom(items, IRAddr(at.addr, at.inum + 1));
      SameMachineCode(items, items', IRAddr(at.addr, at.inum + 1));
    }
  }

  /** All IR of a machine instruction, or nothing if it cannot be read. */
  method DelMachineInsn(storage: CodeStorageMem, addr: nat)
    requires Keyed(storage.items)
    modifies storage
    ensures forall k :: k in storage.items <==>
        k in old(storage.items) && !(k.addr == addr && Taken(old(storage.items), k))
    ensures forall k :: k in storage.items ==> storage.items[k] == old(storage.items)[k]
  {
    var code := storage.GetInsn(addr);
    if code.Err? { return; }
    MachineCodeShape(storage.items, IRAddr(addr, 0));
    ghost var items := storage.items;
    for n := 0 to |code.value|
      invariant forall k :: k in storage.items <==> k in items && !(k.addr == addr && k.inum < n)
      invariant forall k :: k in storage.items ==> storage.items[k] == items[k]
    {
      assert Code.Stored(items, IRAddr(addr, 0 + n), code.value[n]);
      storage.DelInsn(code.value[n].ir);
    }
  }

  /** Deletes every machine instruction of the graph. */
  method ClearMachineInsns(storage: CodeStorageMem, nodes: Nodes)
    requires Keyed(storage.items)
    modifies storage
    ensures Cleared(old(storage.items), nodes, storage.items)
  {
    ghost var items := storage.items;
    var todo := set k | k in nodes && k.At? :: k.ir.addr;
    ghost var all := todo;
    hide Taken;
    while todo != {}
      invariant todo <= all
      invariant forall k :: k in storage.items <==> k in items && !(k.addr in all - todo && Taken(items, k))
      invariant forall k :: k in storage.items ==> storage.items[k] == items[k]
    {
      var addr :| addr in todo;
      SameTaken(items, storage.items, addr);
      DelMachineInsn(storage, addr);
      todo := todo - {addr};
    }
    assert forall addr :: Touched(nodes, addr) <==> addr in all;
  }

  lemma SameTaken(items: Items, items': Items, addr: nat)
    requires forall k: IRAddr :: k.addr == addr ==>
        (k in items <==> k in items') && (k in items ==> items[k] == items'[k])
    ensures forall k: IRAddr :: k.addr == addr ==> (Taken(items, k) <==> Taken(items', k))
  {
    SameMachineCode(items, items', IRAddr(addr, 0));
  }

  /** Looks for the instruction that takes over what is known about a machine instruction. */
  method CheckStarts(nodes: Nodes) returns (error: Option<StoreError>)
    ensures error.Some? ==> error.value.at.inum > 0 && Broken(nodes, error.value.at.addr, error.value.at.inum - 1)
    ensures error.None? ==> !IsBroken(nodes)
  {
    hide Passed;
    var todo := set k | k in nodes && k.At? && k.ir.inum == 0 :: k.ir.addr;
    ghost var all := todo;
    while todo != {}
      invariant todo <= all
      invariant forall addr, n :: addr in all - todo ==> !Broken(nodes, addr, n)
    {
      var addr :| addr in todo;
      var at := IRAddr(addr, 0);
      while Passed(nodes, at)
        invariant at.addr == addr && At(at) in nodes
        invariant forall i: nat :: i < at.inum ==> Passed(nodes, IRAddr(addr, i))
        invariant forall i: nat :: i <= at.inum ==> At(IRAddr(addr, i)) in nodes
        decreases NodesFrom(nodes, at)
      {
        var next := IRAddr(addr, at.inum + 1);
        NodesShrink(nodes, at);
        if At(next) !in nodes { return Some(NoNode(next)); }
        at := next;
      }
      forall n: nat
        ensures !Broken(nodes, addr, n)
      {
        assert n < at.inum ==> At(IRAddr(addr, n + 1)) in nodes;
        assert n >= at.inum ==> !Passed(nodes, IRAddr(addr, at.inum));
      }
      todo := todo - {addr};
    }
    forall addr, n
      ensures !Broken(nodes, addr, n)
    {
      if Broken(nodes, addr, n) { BrokenStarts(nodes, addr, n); }
    }
    error := None;
  }

  lemma BrokenStarts(nodes: Nodes, addr: nat, n: nat)
    requires Broken(nodes, addr, n)
    ensures At(IRAddr(addr, 0)) in nodes
  {
    assert Passed(nodes, IRAddr(addr, 0));
  }

  ghost function NodesFrom(nodes: Nodes, at: IRAddr): set<Key> {
    set k | k in nodes && k.At? && k.ir.addr == at.addr && at.inum <= k.ir.inum
  }

  lemma NodesShrink(nodes: Nodes, at: IRAddr)
    requires At(at) in nodes
    ensures NodesFrom(nodes, IRAddr(at.addr, at.inum + 1)) < NodesFrom(nodes, at)
  {
    assert At(at) in NodesFrom(nodes, at) && At(at) !in NodesFrom(nodes, IRAddr(at.addr, at.inum + 1));
  }

  // ---------- Putting back ----------

  /** Puts the survivors back; the code is to be relinked if any node holds an instruction. */
  method PutSurvivors(storage: CodeStorageMem, nodes: Nodes) returns (relink: bool)
    requires IsGraph(nodes)
    modifies storage
    ensures relink <==> HasInsns(nodes)
    ensures forall k :: k in storage.items <==> Survives(nodes, k) || k in old(storage.items)
    ensures forall k :: k in storage.items ==>
      storage.items[k] == if Survives(nodes, k) then nodes[At(k)].value else old(storage.items)[k]
  {
    ghost var items := storage.items;
    relink := false;
    var todo := set k | k in nodes && k.At? :: k.ir;
    ghost var all := todo;
    while todo != {}
      invariant todo <= all && (relink <==> todo < all)
      invariant forall k :: k in storage.items <==> (k in all - todo && Survives(nodes, k)) || k in items
      invariant forall k :: k in storage.items ==>
        storage.items[k] == if k in all - todo && Survives(nodes, k) then nodes[At(k)].value else items[k]
    {
      var k :| k in todo;
      assert At(k) in nodes;
      if Survives(nodes, k) { storage.PutInsn(nodes[At(k)].value); }
      todo, relink := todo - {k}, true;
    }
    InsnsThere(nodes, all);
  }

  lemma InsnsThere(nodes: Nodes, all: set<IRAddr>)
    requires all == set k | k in nodes && k.At? :: k.ir
    ensures HasInsns(nodes) <==> all != {}
  {
    if k: IRAddr :| At(k) in nodes {
      assert At(k).ir in all;
    }
    if k :| k in all {
      assert At(k) in nodes;
    }
  }

  /** Gives every machine instruction that lost all its IR a no-op; the code is to be relinked if there was any. */
  method PutStandIns(storage: CodeStorageMem, nodes: Nodes, deleted: set<Key>) returns (relink: bool)
    requires IsGraph(nodes) && (deleted != {} ==> Settled(storage.items))
    requires forall k :: k in deleted ==> k.At? && k in nodes
    modifies storage
    ensures Filled(old(storage.items), nodes, deleted, storage.items)
    ensures !relink ==> storage.items == old(storage.items)
    ensures relink ==> deleted != {}
  {
    ghost var items := storage.items;
    relink := false;
    var todo := deleted;
    hide IsStandIn, Settled, HasCode, StandIn;
    while todo != {}
      invariant todo <= deleted && (!relink ==> storage.items == items) && (relink ==> deleted != {})
      invariant forall k :: k in items ==> Code.Stored(storage.items, k, items[k])
      invariant forall k :: k in storage.items && k !in items ==>
        !HasCode(items, k.addr) && IsStandIn(nodes, deleted, k, storage.items[k])
      invariant forall d :: At(d) in deleted - todo ==> HasCode(storage.items, d.addr)
    {
      var d :| d in todo;
      var start := IRAddr(d.ir.addr, 0);
      if start !in storage.items {
        SettledStart(items, start.addr);
        var insn := StandIn(nodes[d].value);
        StandInIs(nodes, deleted, d.ir);
        ghost var before := storage.items;
        storage.PutInsn(insn);
        relink := true;
        HasCodeGrows(before, storage.items);
      }
      HasCodeAt(storage.items, start);
      todo := todo - {d};
    }
  }

  lemma HasCodeAt(items: Items, k: IRAddr)
    requires k in items
    ensures HasCode(items, k.addr)
  {
  }

  lemma HasCodeGrows(items: Items, items': Items)
    requires items.Keys <= items'.Keys
    ensures forall addr :: HasCode(items, addr) ==> HasCode(items', addr)
  {
  }

  lemma SettledStart(items: Items, addr: nat)
    requires Settled(items)
    ensures HasCode(items, addr) ==> IRAddr(addr, 0) in items
  {
    OntoStart(items, addr);
  }

  lemma StandInIs(nodes: Nodes, deleted: set<Key>, d: IRAddr)
    requires IsGraph(nodes) && At(d) in deleted && At(d) in nodes
    ensures IsStandIn(nodes, deleted, IRAddr(d.addr, 0), StandIn(nodes[At(d)].value))
    ensures StandIn(nodes[At(d)].value).ir == IRAddr(d.addr, 0)
  {
  }

  /**
   * Writes the graph back. If an instruction is missing in the graph, the deleted machine instructions stay
   * deleted.
   */
  method StoreGraph(storage: CodeStorageMem, nodes: Nodes, deleted: set<Key>) returns (error: Option<StoreError>)
    requires Keyed(storage.items) && IsGraph(nodes)
    requires forall k :: k in deleted ==> k.At? && k in nodes
    modifies storage
    ensures error.Some? <==> IsBroken(nodes)
    ensures error.Some? ==> Cleared(old(storage.items), nodes, storage.items)
    ensures error.None? ==> Restored(old(storage.items), nodes, deleted, storage.items)
  {
    hide Renumbered, Settled, Survives, Touched, Taken, Broken, Keyed, Place, HasInsns;
    ghost var items := storage.items;
    ClearMachineInsns(storage, nodes);
    error := CheckStarts(nodes);
    if error.Some? { return; }
    var relink := PutSurvivors(storage, nodes);
    ghost var left := storage.items;
    assert Survivors(items, nodes, left);
    SurvivorsAreKeyed(items, nodes, left);
    if relink {
      storage.FixInumsAndFlags();
      RenumberedIsSettled(left, storage.items);
    } else {
      NothingStored(items, nodes, deleted, left);
    }
    ghost var compact := storage.items;
    var more := PutStandIns(storage, nodes, deleted);
    ghost var filled := storage.items;
    if more {
      FilledIsKeyed(compact, nodes, deleted, filled);
      storage.FixInumsAndFlags();
    } else if relink {
      SettledStays(compact, compact);
    }
  }

  lemma HasInsn(nodes: Nodes, k: Key)
    requires k in nodes && k.At?
    ensures HasInsns(nodes)
  {
    assert At(k.ir) in nodes;
  }

  lemma TouchedHasInsns(nodes: Nodes, addr: nat)
    requires Touched(nodes, addr)
    ensures HasInsns(nodes)
  {
  }

  lemma NothingStored(items: Items, nodes: Nodes, deleted: set<Key>, left: Items)
    requires !HasInsns(nodes) && Survivors(items, nodes, left) && forall k :: k in deleted ==> k.At? && k in nodes
    ensures left == items && deleted == {}
  {
    hide Taken;
    if k :| k in deleted {
      HasInsn(nodes, k);
      assert false;
    }
    assert forall k :: k in left <==> k in items;
  }

  lemma SurvivorsAreKeyed(items: Items, nodes: Nodes, left: Items)
    requires Keyed(items) && IsGraph(nodes) && Survivors(items, nodes, left)
    ensures Keyed(left)
  {
    hide Taken, Touched;
  }

  lemma FilledIsKeyed(base: Items, nodes: Nodes, deleted: set<Key>, filled: Items)
    requires Settled(base) && IsGraph(nodes) && Filled(base, nodes, deleted, filled)
    ensures Keyed(filled)
  {
    hide HasCode, Place;
  }
}
