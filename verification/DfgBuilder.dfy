/** The worklist that builds the data flow graph. */
module DfgBuilder {
  import opened Wrappers
  import opened Ir
  import opened Code
  import opened Storage
  import opened Graphs
  import opened Cfg
  import opened Dfg

  ghost predicate UsesInFront(arch: Arch, bb: seq<Insn>, s: State, n: nat, e: DFGEdge) {
    exists i: nat :: i < n && UseEdge(arch, bb, s, i, e)
  }

  lemma FrontNext(arch: Arch, bb: seq<Insn>, s: State, n: nat)
    requires n < |bb| && bb[n].WellFormed()
    ensures forall k :: InFront(bb, n + 1, k) <==> InFront(bb, n, k) || k == bb[n].ir
    ensures forall e :: UsesInFront(arch, bb, s, n + 1, e) <==>
      UsesInFront(arch, bb, s, n, e) || InsnEdge(arch, bb[n], AfterAll(arch, bb[..n], s), e)
  {
    forall e
      ensures UsesInFront(arch, bb, s, n + 1, e) <==>
        UsesInFront(arch, bb, s, n, e) || InsnEdge(arch, bb[n], AfterAll(arch, bb[..n], s), e)
    {
      assert UseEdge(arch, bb, s, n, e) <==> InsnEdge(arch, bb[n], AfterAll(arch, bb[..n], s), e);
    }
  }

  lemma BlockEdgeKinds(arch: Arch, bb: seq<Insn>, s: State)
    ensures forall e :: BlockEdge(arch, bb, s, e) <==> UsesInFront(arch, bb, s, |bb|, e) || ExitEdge(arch, bb, s, e)
  {
  }

  /** What the state of the worklist says about the block on top of the stack. */
  lemma TopBlock(items: Items, arch: Arch, from: IRAddr, blocks: map<IRAddr, seq<Insn>>, edges: set<DFGEdge>,
                 input: map<IRAddr, set<Def>>, stack: seq<Todo>, nodes: map<Key, Option<Insn>>)
    requires WellFormedCode(items) && IsBlocks(items, from, blocks)
    requires stack != [] && Flowing(items, arch, from, blocks, edges, input, stack, nodes)
    ensures var t := stack[|stack| - 1];
      && t.at in blocks && |blocks[t.at]| > 0 && IsChain(items, blocks[t.at])
      && (forall i :: 0 <= i < |blocks[t.at]| ==> blocks[t.at][i].WellFormed())
      && IsNodes(items, nodes) && KnowsState(nodes, t.state)
  {
    hide Reachable, BlockAt, SuccBlocks, Sound, Complete, StopsAtEntry, Pairs, Known, InBlock;
    assert stack[|stack| - 1] in stack;
  }

  /** The error names an instruction looked at whose sources are not listed. */
  ghost predicate Unlisted(items: Items, arch: Arch, from: IRAddr, error: DFGError) {
    error.NoSources? && error.at in items && items[error.at].LacksSources() && Searched(items, arch, from, error.at)
  }

  /** When the search fails, and with what. */
  ghost predicate GraphOutcome(items: Items, arch: Arch, from: IRAddr, error: Option<DFGError>) {
    match error
    case Some(Lookup(fault)) => exists x :: Reachable(items, from, x) && BlockAt(items, x) == Err(fault)
    case Some(NoSources(_)) => BlocksStored(items, from) && Unlisted(items, arch, from, error.value)
    case None =>
      BlocksStored(items, from) && forall k :: k in items && Searched(items, arch, from, k) ==> !items[k].LacksSources()
  }

  ghost predicate BlocksStored(items: Items, from: IRAddr) {
    forall x :: Reachable(items, from, x) ==> BlockAt(items, x).Ok?
  }

  lemma BlocksAreThere(items: Items, from: IRAddr, blocks: map<IRAddr, seq<Insn>>)
    requires IsBlocks(items, from, blocks)
    ensures BlocksStored(items, from)
  {
    hide Reachable, BlockAt, SuccBlocks;
  }

  /** The block on top of the stack is one the search looks at. */
  lemma TopIsSearched(items: Items, arch: Arch, from: IRAddr, blocks: map<IRAddr, seq<Insn>>, edges: set<DFGEdge>,
                      input: map<IRAddr, set<Def>>, stack: seq<Todo>, nodes: map<Key, Option<Insn>>)
    requires IsBlocks(items, from, blocks)
    requires stack != [] && Flowing(items, arch, from, blocks, edges, input, stack, nodes)
    ensures var t := stack[|stack| - 1];
      t.at in blocks && forall k :: InBlock(blocks[t.at], k) ==> Searched(items, arch, from, k)
  {
    hide Reachable, BlockAt, SuccBlocks, Sound, Complete, NodesOf, Pairs, Known, InBlock, EntryDefines;
    var t := stack[|stack| - 1];
    assert t in stack;
    assert BlockOf(items, t.at) == blocks[t.at];
  }

  lemma InBlockLacks(items: Items, arch: Arch, from: IRAddr, bb: seq<Insn>, error: DFGError)
    requires IsChain(items, bb) && forall k :: InBlock(bb, k) ==> Searched(items, arch, from, k)
    requires exists i :: 0 <= i < |bb| && bb[i].LacksSources() && error == NoSources(bb[i].ir)
    ensures Unlisted(items, arch, from, error)
  {
    hide Searched;
  }

  lemma BlockListed(items: Items, nodes: map<Key, Option<Insn>>, bb: seq<Insn>, nodes': map<Key, Option<Insn>>)
    requires IsNodes(items, nodes) && IsNodes(items, nodes') && Listed(nodes) && IsChain(items, bb)
    requires forall i :: 0 <= i < |bb| ==> !bb[i].LacksSources()
    requires forall k :: k in nodes' <==> k in nodes || (k.At? && InBlock(bb, k.ir))
    ensures Listed(nodes')
  {
    forall k | k in nodes' && nodes'[k].Some?
      ensures !nodes'[k].value.LacksSources()
    {
      assert k.At?;
      if k in nodes {
        assert nodes[k] == Some(items[k.ir]) == nodes'[k];
      }
    }
  }

  class DFGraphBuilder {
    const storage: CodeStorageMem
    const arch: Arch
    var input: map<IRAddr, set<Def>>

    constructor (storage: CodeStorageMem, arch: Arch)
      ensures this.storage == storage && this.arch == arch
    {
      this.storage, this.arch, input := storage, arch, map[];
    }

    /** Merges a state into the record of a block; tells if anything was new. */
    method ProcessState(at: IRAddr, state: State) returns (updated: bool)
      modifies this`input
      ensures input == old(input)[at := InputOf(old(input), at) + Pairs(state)]
      ensures updated <==> !(Pairs(state) <= InputOf(old(input), at))
    {
      updated := false;
      if at !in input { input := input[at := {}]; }
      var todo := state.Keys;
      while todo != {}
        invariant todo <= state.Keys && at in input
        invariant input == old(input)[at := input[at]]
        invariant forall d :: d in input[at] <==>
          d in InputOf(old(input), at) || (Holds(state, d) && d.v !in todo)
        invariant updated <==> exists v :: v in state && v !in todo && Def(v, state[v]) !in InputOf(old(input), at)
      {
        var v :| v in todo;
        var d := Def(v, state[v]);
        if d !in input[at] {
          input := input[at := input[at] + {d}];
          updated := true;
        }
        todo := todo - {v};
      }
      assert input[at] == InputOf(old(input), at) + Pairs(state);
    }

    /** Edges to one instruction from the last writers of what it uses. */
    method ProcessInsn(insn: Insn, state: State, dfg: DFGraph) returns (out: State)
      requires insn.WellFormed() && !insn.LacksSources() && dfg.Valid() && Entry in dfg.nodes
      requires forall v :: v in state ==> At(state[v]) in dfg.nodes
      modifies dfg
      ensures dfg.Valid() && out == After(arch, insn, state)
      ensures dfg.nodes
           == if At(insn.ir) in old(dfg.nodes) then old(dfg.nodes) else old(dfg.nodes)[At(insn.ir) := Some(insn)]
      ensures forall e :: e in dfg.edges <==> e in old(dfg.edges) || InsnEdge(arch, insn, state, e)
    {
      dfg.AddNode(At(insn.ir), Some(insn));
      var src := insn.Src();
      var dst := insn.Dst();
      if insn.flags.call {
        dst := arch.General();
        src := src + dst;
      }
      AddEdges(src, insn.ir, state, dfg);
      out := Assign(dst, insn.ir, state);
    }

    method AddEdges(src: seq<Var>, at: IRAddr, state: State, dfg: DFGraph)
      requires dfg.Valid() && Entry in dfg.nodes && At(at) in dfg.nodes
      requires forall v :: v in state ==> At(state[v]) in dfg.nodes
      modifies dfg
      ensures dfg.Valid() && dfg.nodes == old(dfg.nodes)
      ensures forall e :: e in dfg.edges <==>
        e in old(dfg.edges) || (e.dst == At(at) && e.name in src && e.src == Source(state, e.name))
    {
      for n := 0 to |src|
        invariant dfg.Valid() && dfg.nodes == old(dfg.nodes)
        invariant forall e :: e in dfg.edges <==>
          e in old(dfg.edges) || (e.dst == At(at) && e.name in src[..n] && e.src == Source(state, e.name))
      {
        dfg.AddEdge(Source(state, src[n]), At(at), src[n]);
        assert forall v :: v in src[..n + 1] <==> v in src[..n] || v == src[n];
      }
      assert src[..|src|] == src;
    }

    method Assign(dst: seq<Var>, at: IRAddr, state: State) returns (out: State)
      ensures out == Assigned(dst, at, state)
    {
      out := state;
      for n := 0 to |dst|
        invariant out == Assigned(dst[..n], at, state)
      {
        out := out[dst[n] := at];
        assert dst[..n + 1][..n] == dst[..n];
      }
      assert dst[..|dst|] == dst;
    }

    /** One basic block: edges to its instructions, and to the exit if the function ends here. */
    method ProcessBb(bb: seq<Insn>, state: State, dfg: DFGraph, ghost items: Items) returns (r: Result<State, DFGError>)
      requires IsChain(items, bb) && |bb| > 0
      requires forall i :: 0 <= i < |bb| ==> bb[i].WellFormed()
      requires dfg.Valid() && IsNodes(items, dfg.nodes) && KnowsState(dfg.nodes, state)
      modifies dfg
      ensures dfg.Valid()
      ensures r.Err? ==> exists i :: 0 <= i < |bb| && bb[i].LacksSources() && r == Err(NoSources(bb[i].ir))
      ensures r.Ok? ==> IsNodes(items, dfg.nodes) && KnowsState(dfg.nodes, r.value)
      ensures r.Ok? ==> r.value == AfterAll(arch, bb, state) && forall i :: 0 <= i < |bb| ==> !bb[i].LacksSources()
      ensures r.Ok? ==> forall k :: k in dfg.nodes <==> k in old(dfg.nodes) || (k.At? && InBlock(bb, k.ir))
      ensures r.Ok? ==> forall e :: e in dfg.edges <==> e in old(dfg.edges) || BlockEdge(arch, bb, state, e)
    {
      hide AfterAll, InFront, UsesInFront, BlockEdge, IsChain;
      BlockEdgeKinds(arch, bb, state);
      r := ProcessInsns(bb, state, dfg, items);
      if r.Err? { return; }
      var out := r.value;
      assert bb[..|bb|] == bb;
      if bb[|bb| - 1].Next().None? && bb[|bb| - 1].JccLoc().None? {
        AddExitEdges(out, dfg);
      }
    }

    method ProcessInsns(bb: seq<Insn>, state: State, dfg: DFGraph, ghost items: Items)
      returns (r: Result<State, DFGError>)
      requires IsChain(items, bb)
      requires forall i :: 0 <= i < |bb| ==> bb[i].WellFormed()
      requires dfg.Valid() && IsNodes(items, dfg.nodes) && KnowsState(dfg.nodes, state)
      modifies dfg
      ensures dfg.Valid()
      ensures r.Err? ==> exists i :: 0 <= i < |bb| && bb[i].LacksSources() && r == Err(NoSources(bb[i].ir))
      ensures r.Ok? ==> IsNodes(items, dfg.nodes) && KnowsState(dfg.nodes, r.value)
      ensures r.Ok? ==> r.value == AfterAll(arch, bb[..|bb|], state)
      ensures r.Ok? ==> forall i :: 0 <= i < |bb| ==> !bb[i].LacksSources()
      ensures r.Ok? ==> forall k :: k in dfg.nodes <==> k in old(dfg.nodes) || (k.At? && InBlock(bb, k.ir))
      ensures r.Ok? ==> forall e :: e in dfg.edges <==> e in old(dfg.edges) || UsesInFront(arch, bb, state, |bb|, e)
    {
      hide After, AfterAll, InFront, UsesInFront, InsnEdge;
      var out := state;
      FrontStart(arch, bb, state);
      for n := 0 to |bb|
        invariant dfg.Valid() && IsNodes(items, dfg.nodes) && KnowsState(dfg.nodes, out)
        invariant out == AfterAll(arch, bb[..n], state) && forall i :: 0 <= i < n ==> !bb[i].LacksSources()
        invariant forall k :: k in dfg.nodes <==> k in old(dfg.nodes) || (k.At? && InFront(bb, n, k.ir))
        invariant forall e :: e in dfg.edges <==> e in old(dfg.edges) || UsesInFront(arch, bb, state, n, e)
      {
        if bb[n].LacksSources() { return Err(NoSources(bb[n].ir)); }
        FrontNext(arch, bb, state, n);
        AfterAllNext(arch, bb, n, state);
        AfterKnown(arch, bb[n], out);
        out := ProcessInsn(bb[n], out, dfg);
      }
      return Ok(out);
    }

    /**
     * Builds the control flow graph and from it the data flow graph. It fails if a reachable block is not
     * stored and, all of them stored, exactly if an instruction looked at lacks its sources.
     */
    method Traverse(from: IRAddr) returns (r: Result<DFGraph, DFGError>)
      requires WellFormedCode(storage.items) && Resolves(storage.items, from)
      modifies this
      ensures r.Ok? ==> fresh(r.value) && r.value.Valid()
      ensures r.Ok? ==> IsDFG(storage.items, arch, from, r.value.nodes, r.value.edges)
      ensures GraphOutcome(storage.items, arch, from, if r.Err? then Some(r.error) else None)
    {
      hide IsDFG, WellFormedCode, Searched, IsBlocks;
      var builder := new CFGraphBuilder(storage);
      var cfg := builder.Traverse(from);
      if cfg.Err? { return Err(Lookup(cfg.error)); }
      var blocks := cfg.value.nodes;
      CFGIsBlocks(storage.items, from, blocks, cfg.value.edges);
      BlocksAreThere(storage.items, from, blocks);
      var dfg := new Graph<Key, Var, Option<Insn>>();
      dfg.AddNode(Entry, None);
      dfg.AddNode(Exit, None);
      var error := Flow(from, blocks, dfg);
      if error.Some? { return Err(error.value); }
      ListedIsSearched(storage.items, arch, from, dfg.nodes, dfg.edges);
      return Ok(dfg);
    }

    method Flow(from: IRAddr, blocks: map<IRAddr, seq<Insn>>, dfg: DFGraph) returns (error: Option<DFGError>)
      requires WellFormedCode(storage.items) && IsBlocks(storage.items, from, blocks)
      requires dfg.Valid() && dfg.nodes == map[Entry := None, Exit := None] && dfg.edges == {}
      modifies this`input, dfg
      ensures dfg.Valid()
      ensures error.Some? ==> Unlisted(storage.items, arch, from, error.value)
      ensures error.None? ==> IsDFG(storage.items, arch, from, dfg.nodes, dfg.edges) && Listed(dfg.nodes)
    {
      hide WellFormedCode, IsBlocks, Flowing, Missing, IsDFG, Unlisted;
      ghost var items := storage.items;
      var stack := [Todo(from, map[])];
      input := map[];
      EntryStarts(items, arch, from, blocks);
      while stack != []
        invariant storage.items == items && dfg.Valid()
        invariant Flowing(items, arch, from, blocks, dfg.edges, input, stack, dfg.nodes) && Listed(dfg.nodes)
        decreases |Missing(items, arch, blocks.Keys, input)|, |stack|
      {
        error, stack := Turn(blocks, stack, dfg, items, from);
        if error.Some? { return; }
      }
      FlowingDone(items, arch, from, blocks, dfg.edges, input, dfg.nodes);
      error := None;
    }

    /** One turn of the worklist: the top block is processed and, if that told anything new, its successors wait. */
    method Turn(blocks: map<IRAddr, seq<Insn>>, stack: seq<Todo>, dfg: DFGraph, ghost items: Items, ghost from: IRAddr)
      returns (error: Option<DFGError>, stack': seq<Todo>)
      requires WellFormedCode(items) && IsBlocks(items, from, blocks)
      requires dfg.Valid() && stack != []
      requires Flowing(items, arch, from, blocks, dfg.edges, input, stack, dfg.nodes) && Listed(dfg.nodes)
      modifies this`input, dfg
      ensures dfg.Valid()
      ensures error.Some? ==> Unlisted(items, arch, from, error.value)
      ensures error.None? ==>
          Flowing(items, arch, from, blocks, dfg.edges, input, stack', dfg.nodes) && Listed(dfg.nodes)
      ensures error.None? ==>
        || |Missing(items, arch, blocks.Keys, input)| < old(|Missing(items, arch, blocks.Keys, input)|)
        || (|Missing(items, arch, blocks.Keys, input)| == old(|Missing(items, arch, blocks.Keys, input)|)
            && |stack'| < |stack|)
    {
      hide AfterAll, BlockEdge, Pairs, InputOf, Flowing, NextStack, Missing, IsBlocks, WellFormedCode,
        KnowsState, IsChain, InBlock, IsNodes, Listed, Unlisted;
      var t := stack[|stack| - 1];
      TopBlock(items, arch, from, blocks, dfg.edges, input, stack, dfg.nodes);
      var bb := blocks[t.at];
      ghost var edges0, nodes0, input0 := dfg.edges, dfg.nodes, input;
      var out := ProcessBb(bb, t.state, dfg, items);
      if out.Err? {
        TopIsSearched(items, arch, from, blocks, edges0, input0, stack, nodes0);
        InBlockLacks(items, arch, from, bb, out.error);
        return Some(out.error), stack;
      }
      BlockListed(items, nodes0, bb, dfg.nodes);
      var updated := ProcessState(t.at, out.value);
      stack' := stack[..|stack| - 1];
      if updated { stack' := PushSuccessors(stack', bb[|bb| - 1], out.value); }
      FlowingStep(items, arch, from, blocks, edges0, input0, stack, nodes0, dfg.edges, stack', dfg.nodes);
      error := None;
    }

    method PushSuccessors(rest: seq<Todo>, last: Insn, out: State) returns (stack: seq<Todo>)
      ensures stack == NextStack(rest, last, out)
    {
      stack := rest;
      var lhs, rhs := last.Next(), last.JccLoc();
      if rhs.Some? { stack := stack + [Todo(rhs.value, out)]; }
      if lhs.Some? { stack := stack + [Todo(lhs.value, out)]; }
    }

    method AddExitEdges(state: State, dfg: DFGraph)
      requires dfg.Valid() && Exit in dfg.nodes && KnowsState(dfg.nodes, state)
      modifies dfg
      ensures dfg.Valid() && dfg.nodes == old(dfg.nodes)
      ensures forall e :: e in dfg.edges <==>
        e in old(dfg.edges) || (e.dst == Exit && e.name in state && e.src == At(state[e.name]))
    {
      var todo := state.Keys;
      while todo != {}
        invariant dfg.Valid() && dfg.nodes == old(dfg.nodes) && todo <= state.Keys
        invariant forall e :: e in dfg.edges <==>
          e in old(dfg.edges) || (e.dst == Exit && e.name in state && e.name !in todo && e.src == At(state[e.name]))
      {
        var v :| v in todo;
        dfg.AddEdge(At(state[v]), Exit, v);
        todo := todo - {v};
      }
    }
  }

  lemma AfterKnown(arch: Arch, insn: Insn, s: State)
    ensures forall v :: v in After(arch, insn, s) ==>
      After(arch, insn, s)[v] == insn.ir || (v in s && After(arch, insn, s)[v] == s[v])
  {
  }

  lemma FrontStart(arch: Arch, bb: seq<Insn>, s: State)
    ensures forall k :: !InFront(bb, 0, k)
    ensures forall e :: !UsesInFront(arch, bb, s, 0, e)
    ensures AfterAll(arch, bb[..0], s) == s
  {
  }
}
