/** The control flow graph of a function and the worklist that builds it. */
module Cfg {
  import opened Wrappers
  import opened Ir
  import opened Code
  import opened Storage
  import opened Graphs

  type CFGEdge = Edge<IRAddr, Option<Var>>
  type CFGraph = Graph<IRAddr, Option<Var>, seq<Insn>>

  /** Where control may go from the end of the block at `at`. */
  ghost function SuccBlocks(items: Items, at: IRAddr): set<IRAddr>
  {
    match BlockAt(items, at)
    case Err(_) => {}
    case Ok(bb) => if |bb| > 0 then bb[|bb| - 1].Successors() else {}
  }

  ghost predicate IsSuccEdge(items: Items, e: CFGEdge)
  {
    e.name == None && e.dst in SuccBlocks(items, e.src)
  }

  /** A walk over basic blocks. */
  ghost predicate IsPath(items: Items, from: IRAddr, p: seq<IRAddr>)
  {
    && |p| > 0 && p[0] == from
    && forall i :: 0 < i < |p| ==> p[i] in SuccBlocks(items, p[i - 1])
  }

  ghost predicate Reachable(items: Items, from: IRAddr, at: IRAddr)
  {
    exists p :: IsPath(items, from, p) && p[|p| - 1] == at
  }

  lemma ReachableStart(items: Items, from: IRAddr)
    ensures Reachable(items, from, from)
  {
    assert IsPath(items, from, [from]);
  }

  lemma ReachableStep(items: Items, from: IRAddr, at: IRAddr, next: IRAddr)
    requires Reachable(items, from, at) && next in SuccBlocks(items, at)
    ensures Reachable(items, from, next)
  {
    var p :| IsPath(items, from, p) && p[|p| - 1] == at;
    assert IsPath(items, from, p + [next]);
  }

  /** A set that holds the start and is closed under successors holds every reachable block. */
  lemma {:induction false} ClosedHoldsPath(items: Items, from: IRAddr, p: seq<IRAddr>, s: set<IRAddr>)
    requires IsPath(items, from, p)
    requires from in s
    requires forall x, y :: x in s && y in SuccBlocks(items, x) ==> y in s
    ensures p[|p| - 1] in s
  {
    if |p| > 1 {
      ClosedHoldsPath(items, from, p[..|p| - 1], s);
    }
  }

  lemma ClosedHoldsReachable(items: Items, from: IRAddr, s: set<IRAddr>)
    requires from in s
    requires forall x, y :: x in s && y in SuccBlocks(items, x) ==> y in s
    ensures forall x :: Reachable(items, from, x) ==> x in s
  {
    forall x | Reachable(items, from, x)
      ensures x in s
    {
      var p :| IsPath(items, from, p) && p[|p| - 1] == x;
      ClosedHoldsPath(items, from, p, s);
    }
  }

  /** Jump targets and the entry resolve, so every reachable block starts where it is asked for. */
  lemma {:induction false} PathResolves(items: Items, from: IRAddr, p: seq<IRAddr>)
    requires WellFormedCode(items) && Resolves(items, from)
    requires IsPath(items, from, p)
    ensures Resolves(items, p[|p| - 1])
  {
    if |p| > 1 {
      var q := p[..|p| - 1];
      PathResolves(items, from, q);
      SuccessorResolves(items, q[|q| - 1], p[|p| - 1]);
    }
  }

  lemma SuccessorResolves(items: Items, at: IRAddr, next: IRAddr)
    requires WellFormedCode(items) && Resolves(items, at)
    requires next in SuccBlocks(items, at)
    ensures Resolves(items, next)
  {
    BlockShape(items, at);
  }


  lemma {:induction false} ChainOrdered(items: Items, code: seq<Insn>, i: nat)
    requires WellFormedCode(items) && IsChain(items, code) && i < |code|
    ensures code[i].ir == code[0].ir || Before(code[0].ir, code[i].ir)
  {
    if i > 0 {
      ChainOrdered(items, code, i - 1);
      assert code[i].ir == code[i - 1].Following();
    }
  }

  /** Without a jump, control moves to a later address. */
  lemma NextIsLater(items: Items, at: IRAddr)
    requires WellFormedCode(items) && Resolves(items, at) && BlockAt(items, at).Ok?
    ensures var bb := BlockAt(items, at).value;
      |bb| > 0 && (bb[|bb| - 1].Next().Some? ==> Before(at, bb[|bb| - 1].Next().value))
  {
    BlockShape(items, at);
    var bb := BlockAt(items, at).value;
    ChainOrdered(items, bb, |bb| - 1);
  }

  /** How often a pending address can still make work: a visited one as long as its fall-through chain. */
  ghost function Weight(items: Items, visited: set<IRAddr>, at: IRAddr): nat {
    if at in visited then 2 * |KeysFrom(items, at)| + 1 else 1
  }

  ghost function Weights(items: Items, visited: set<IRAddr>, stack: seq<IRAddr>): nat {
    if stack == [] then 0
    else Weights(items, visited, stack[..|stack| - 1]) + Weight(items, visited, stack[|stack| - 1])
  }

  lemma PushWeight(items: Items, visited: set<IRAddr>, stack: seq<IRAddr>, at: IRAddr)
    ensures Weights(items, visited, stack + [at])
         == Weights(items, visited, stack) + Weight(items, visited, at)
  {
    assert (stack + [at])[..|stack|] == stack;
  }

  lemma RevisitShrinks(items: Items, visited: set<IRAddr>, at: IRAddr, next: IRAddr)
    requires at in items && at in visited && Before(at, next)
    ensures Weight(items, visited, at) > Weight(items, visited, next) + 1
  {
    var smaller, larger := KeysFrom(items, next), KeysFrom(items, at);
    assert at in larger;
    assert smaller <= larger - {at};
    SubsetCount(smaller, larger - {at});
  }

  ghost function Unvisited(items: Items, nodes: map<IRAddr, seq<Insn>>): nat {
    |items.Keys - nodes.Keys|
  }

  lemma FirstVisitShrinks(items: Items, nodes: map<IRAddr, seq<Insn>>, at: IRAddr, bb: seq<Insn>)
    requires at in items && at !in nodes
    ensures Unvisited(items, Visited(nodes, at, bb)) < Unvisited(items, nodes)
  {
    assert items.Keys - nodes.Keys == (items.Keys - nodes[at := bb].Keys) + {at};
  }

  lemma {:induction false} CutAtEndFinds(code: seq<Insn>, j: nat)
    requires j < |code| && code[j].flags.bbEnd
    requires forall k :: 0 <= k < j ==> !code[k].flags.bbEnd
    ensures CutAtEnd(code) == Some(code[..j + 1])
  {
    if j == 0 {
      assert [code[0]] == code[..1];
    } else {
      CutAtEndFinds(code[1..], j - 1);
      assert [code[0]] + code[1..][..j] == code[..j + 1];
    }
  }

  lemma {:induction false} CutAtEndNone(code: seq<Insn>)
    requires forall k :: 0 <= k < |code| ==> !code[k].flags.bbEnd
    ensures CutAtEnd(code) == None
  {
    if code != [] { CutAtEndNone(code[1..]); }
  }

  class CFGraphBuilder {
    const storage: CodeStorageMem

    constructor (storage: CodeStorageMem)
      ensures this.storage == storage
    {
      this.storage := storage;
    }

    /** Machine instructions from `addr` on until one ends a basic block. */
    method GetAsmBlock(addr: nat) returns (r: Result<seq<Insn>, Fault>)
      ensures r == AsmBlock(storage.items, addr)
    {
      var next: nat := addr;
      var code: seq<Insn> := [];
      BehindNothing(AsmBlock(storage.items, addr));
      while true
        invariant AsmBlock(storage.items, addr) == Behind(code, AsmBlock(storage.items, next))
        decreases KeysFrom(storage.items, IRAddr(next, 0))
      {
        var part := storage.GetInsn(next);
        if part.Err? { return Err(part.error); }
        MachineCodeShape(storage.items, IRAddr(next, 0));
        var last := part.value[|part.value| - 1];
        assert IRAddr(next, 0) in KeysFrom(storage.items, IRAddr(next, 0));
        assert IRAddr(next, 0) !in KeysFrom(storage.items, IRAddr(next + last.size, 0));
        BehindBehind(code, part.value, AsmBlock(storage.items, next + last.size));
        code := code + part.value;
        next := next + last.size;
        if last.flags.bbEnd { return Ok(code); }
      }
    }

    /** The basic block at `at`, cut out of the machine code around it. */
    method GetBb(at: IRAddr) returns (r: Result<seq<Insn>, Fault>)
      ensures r == BlockAt(storage.items, at)
    {
      var list := GetAsmBlock(at.addr);
      if list.Err? { return Err(list.error); }
      var code := list.value;
      var last := at.inum;
      while last < |code|
        invariant at.inum <= last
        invariant at.inum <= |code| ==> last <= |code| && forall k :: at.inum <= k < last ==> !code[k].flags.bbEnd
      {
        last := last + 1;
        if code[last - 1].flags.bbEnd {
          CutAtEndFinds(code[at.inum..], last - 1 - at.inum);
          assert code[at.inum..][..last - at.inum] == code[at.inum..last];
          return Ok(code[at.inum..last]);
        }
      }
      CutAtEndNone(if at.inum <= |code| then code[at.inum..] else []);
      return Err(NoBlock(at));
    }

    /**
     * Pre-order traversal. The fall-through successor is pushed even when it was visited already,
     * yet the walk ends with exactly the reachable blocks and all their successor edges.
     */
    method Traverse(from: IRAddr) returns (r: Result<CFGraph, Fault>)
      requires WellFormedCode(storage.items) && Resolves(storage.items, from)
      ensures r.Ok? ==> fresh(r.value) && r.value.Valid()
      ensures r.Ok? ==> IsCFG(storage.items, from, r.value.nodes, r.value.edges)
      ensures r.Err? ==> exists x ::
        Reachable(storage.items, from, x) && BlockAt(storage.items, x) == Err(r.error)
    {
      var cfg := new Graph<IRAddr, Option<Var>, seq<Insn>>();
      var edges := Explore(cfg, from);
      if edges.Err? { return Err(edges.error); }
      WalkDone(storage.items, from, cfg.nodes, edges.value);
      AddEdges(cfg, edges.value);
      return Ok(cfg);
    }

    /** The worklist: fills the nodes and lists the edges between them. */
    method Explore(cfg: CFGraph, from: IRAddr) returns (r: Result<seq<CFGEdge>, Fault>)
      requires WellFormedCode(storage.items) && Resolves(storage.items, from)
      requires cfg.Valid() && cfg.nodes == map[] && cfg.edges == {}
      modifies cfg
      ensures cfg.Valid() && cfg.edges == {}
      ensures r.Ok? ==> Walk(storage.items, from, cfg.nodes, r.value, [])
      ensures r.Err? ==> exists x ::
        Reachable(storage.items, from, x) && BlockAt(storage.items, x) == Err(r.error)
    {
      hide Walk, Weights, Reachable, BlockAt;
      var stack: seq<IRAddr>, nodes: seq<IRAddr>, edges: seq<CFGEdge> := [from], [], [];
      WalkStart(storage.items, from);
      while stack != []
        invariant cfg.Valid() && cfg.edges == {}
        invariant forall x :: x in nodes <==> x in cfg.nodes
        invariant Walk(storage.items, from, cfg.nodes, edges, stack)
        decreases Unvisited(storage.items, cfg.nodes), Weights(storage.items, cfg.nodes.Keys, stack)
      {
        var fault;
        fault, nodes, edges, stack := Turn(cfg, from, nodes, edges, stack);
        if fault.Some? { return Err(fault.value); }
      }
      return Ok(edges);
    }

    /** One turn: fetches the block on top of the stack and visits it. */
    method Turn(cfg: CFGraph, from: IRAddr, nodes: seq<IRAddr>, edges: seq<CFGEdge>, stack: seq<IRAddr>)
      returns (fault: Option<Fault>, nodes': seq<IRAddr>, edges': seq<CFGEdge>, stack': seq<IRAddr>)
      requires WellFormedCode(storage.items) && Resolves(storage.items, from)
      requires cfg.Valid() && cfg.edges == {} && stack != []
      requires forall x :: x in nodes <==> x in cfg.nodes
      requires Walk(storage.items, from, cfg.nodes, edges, stack)
      modifies cfg
      ensures cfg.Valid() && cfg.edges == {}
      ensures fault.Some? ==> exists x ::
        Reachable(storage.items, from, x) && BlockAt(storage.items, x) == Err(fault.value)
      ensures fault.None? ==> forall x :: x in nodes' <==> x in cfg.nodes
      ensures fault.None? ==> Walk(storage.items, from, cfg.nodes, edges', stack')
      ensures fault.None? ==>
        || Unvisited(storage.items, cfg.nodes) < Unvisited(storage.items, old(cfg.nodes))
        || (cfg.nodes == old(cfg.nodes) &&
            Weights(storage.items, cfg.nodes.Keys, stack') < Weights(storage.items, cfg.nodes.Keys, stack))
    {
      hide Walk, Weights, Pushed, Noted, Reachable, BlockAt, WellFormedCode;
      var at := stack[|stack| - 1];
      WalkOn(storage.items, from, cfg.nodes, edges, stack);
      var bb := GetBb(at);
      if bb.Err? { return Some(bb.error), nodes, edges, stack; }
      BlockShape(storage.items, at);
      WalkStep(storage.items, from, cfg.nodes, edges, stack, bb.value);
      if at in cfg.nodes {
        PushedWeight(storage.items, cfg.nodes, stack, bb.value);
      } else {
        FirstVisitShrinks(storage.items, cfg.nodes, at, bb.value);
      }
      nodes', edges', stack' := Visit(cfg, nodes, edges, stack[..|stack| - 1], at, bb.value);
      fault := None;
    }

    /** A visit: the block becomes a node, its edges and successors are noted. */
    method Visit(cfg: CFGraph, nodes: seq<IRAddr>, edges: seq<CFGEdge>, stack: seq<IRAddr>,
                 at: IRAddr, bb: seq<Insn>)
      returns (nodes': seq<IRAddr>, edges': seq<CFGEdge>, stack': seq<IRAddr>)
      requires cfg.Valid() && |bb| > 0
      requires forall x :: x in nodes <==> x in cfg.nodes
      modifies cfg
      ensures cfg.Valid() && cfg.edges == old(cfg.edges)
      ensures cfg.nodes == Visited(old(cfg.nodes), at, bb)
      ensures forall x :: x in nodes' <==> x in cfg.nodes
      ensures edges' == Noted(edges, at, bb[|bb| - 1])
      ensures stack' == Pushed(stack, cfg.nodes, bb[|bb| - 1])
    {
      nodes', edges', stack' := nodes, edges, stack;
      cfg.AddNode(at, bb);
      if at !in nodes { nodes' := nodes + [at]; }
      var lhs, rhs := bb[|bb| - 1].Next(), bb[|bb| - 1].JccLoc();
      if rhs.Some? {
        if Edge(at, rhs.value, None) !in edges' { edges' := edges' + [Edge(at, rhs.value, None)]; }
        if rhs.value !in nodes' { stack' := stack' + [rhs.value]; }
      }
      if lhs.Some? {
        if Edge(at, lhs.value, None) !in edges' { edges' := edges' + [Edge(at, lhs.value, None)]; }
        stack' := stack' + [lhs.value];
      }
    }

    /** Adds the collected edges; no end of an edge is missing. */
    method AddEdges(cfg: CFGraph, edges: seq<CFGEdge>)
      requires cfg.Valid() && cfg.edges == {}
      requires forall e :: e in edges ==> e.src in cfg.nodes && e.dst in cfg.nodes
      modifies cfg
      ensures cfg.Valid() && cfg.nodes == old(cfg.nodes)
      ensures cfg.edges == set e | e in edges
    {
      for n := 0 to |edges|
        invariant cfg.Valid() && cfg.nodes == old(cfg.nodes)
        invariant forall e :: e in cfg.edges <==> e in edges[..n]
      {
        assert edges[n] in edges && edges[..n + 1] == edges[..n] + [edges[n]];
        cfg.AddEdge(edges[n].src, edges[n].dst, edges[n].name);
      }
      assert edges[..|edges|] == edges;
    }
  }

  /**
   * The state of the walk: what was visited is reachable, has its edges, and has its successors
   * visited or still to do.
   */
  ghost predicate Walk(items: Items, from: IRAddr, nodes: map<IRAddr, seq<Insn>>,
                       edges: seq<CFGEdge>, todo: seq<IRAddr>)
  {
    && (forall x :: x in nodes ==> x in items && Explored(items, from, nodes, x))
    && (forall e :: e in edges <==> e.src in nodes && IsSuccEdge(items, e))
    && (forall e :: IsSuccEdge(items, e) && e.src in nodes ==> e.dst in nodes || e.dst in todo)
    && (from in nodes || from in todo)
    && (forall y :: y in todo ==> Reachable(items, from, y))
  }

  /** What one visit leaves on the stack. */
  ghost function Pushed(stack: seq<IRAddr>, nodes: map<IRAddr, seq<Insn>>, last: Insn): (r: seq<IRAddr>)
    ensures forall y :: y in stack ==> y in r
    ensures forall y :: y in r ==> y in stack || y in last.Successors()
    ensures forall y :: y in last.Successors() ==> y in nodes || y in r
  {
    stack
    + (if last.JccLoc().Some? && last.JccLoc().value !in nodes then [last.JccLoc().value] else [])
    + (if last.Next().Some? then [last.Next().value] else [])
  }

  /** The list of edges with those to the successors of `at`, each once. */
  ghost function Noted(edges: seq<CFGEdge>, at: IRAddr, last: Insn): (r: seq<CFGEdge>)
    ensures forall e :: e in r <==> e in edges || (e.src == at && e.dst in last.Successors() && e.name == None)
  {
    var some := if last.JccLoc().Some? then AddOnce(edges, Edge(at, last.JccLoc().value, None)) else edges;
    if last.Next().Some? then AddOnce(some, Edge(at, last.Next().value, None)) else some
  }

  ghost function AddOnce(edges: seq<CFGEdge>, e: CFGEdge): (r: seq<CFGEdge>)
    ensures forall x :: x in r <==> x in edges || x == e
  {
    if e in edges then edges else edges + [e]
  }

  ghost function Visited(nodes: map<IRAddr, seq<Insn>>, at: IRAddr, bb: seq<Insn>): map<IRAddr, seq<Insn>> {
    if at in nodes then nodes else nodes[at := bb]
  }

  /** One visit keeps the walk going. */
  lemma WalkStep(items: Items, from: IRAddr, nodes: map<IRAddr, seq<Insn>>, edges: seq<CFGEdge>,
                 stack: seq<IRAddr>, bb: seq<Insn>)
    requires stack != []
    requires Walk(items, from, nodes, edges, stack)
    requires var at := stack[|stack| - 1]; at in items && BlockAt(items, at) == Ok(bb) && |bb| > 0
    ensures var at := stack[|stack| - 1];
      var nodes' := Visited(nodes, at, bb);
      Walk(items, from, nodes', Noted(edges, at, bb[|bb| - 1]),
           Pushed(stack[..|stack| - 1], nodes', bb[|bb| - 1]))
  {
    hide Pushed, Noted, Reachable, BlockAt;
    var at := stack[|stack| - 1];
    var rest := stack[..|stack| - 1];
    assert forall y :: y in stack <==> y in rest || y == at;
    var last := bb[|bb| - 1];
    var nodes' := Visited(nodes, at, bb);
    var stack' := Pushed(rest, nodes', last);
    forall y | y in stack'
      ensures Reachable(items, from, y)
    {
      if y !in rest { ReachableStep(items, from, at, y); }
    }
  }

  /** Visiting a block again shrinks what is to do. */
  lemma PushedWeight(items: Items, nodes: map<IRAddr, seq<Insn>>, stack: seq<IRAddr>, bb: seq<Insn>)
    requires WellFormedCode(items) && stack != []
    requires var at := stack[|stack| - 1];
      && Resolves(items, at) && at in nodes && at in items
      && BlockAt(items, at) == Ok(bb) && |bb| > 0
    ensures Weights(items, nodes.Keys, Pushed(stack[..|stack| - 1], nodes, bb[|bb| - 1]))
          < Weights(items, nodes.Keys, stack)
  {
    var at := stack[|stack| - 1];
    var rest := stack[..|stack| - 1];
    var last := bb[|bb| - 1];
    var mid := rest;
    if last.JccLoc().Some? && last.JccLoc().value !in nodes {
      PushWeight(items, nodes.Keys, rest, last.JccLoc().value);
      mid := rest + [last.JccLoc().value];
    }
    if last.Next().Some? {
      NextIsLater(items, at);
      PushWeight(items, nodes.Keys, mid, last.Next().value);
      RevisitShrinks(items, nodes.Keys, at, last.Next().value);
      assert Pushed(rest, nodes, last) == mid + [last.Next().value];
    } else {
      assert Pushed(rest, nodes, last) == mid;
      VisitedIsHeavy(items, nodes.Keys, at);
    }
  }

  lemma VisitedIsHeavy(items: Items, visited: set<IRAddr>, at: IRAddr)
    requires at in items && at in visited
    ensures Weight(items, visited, at) > 1
  {
    assert at in KeysFrom(items, at);
  }

  lemma WalkStart(items: Items, from: IRAddr)
    ensures Walk(items, from, map[], [], [from])
  {
    ReachableStart(items, from);
  }

  lemma WalkOn(items: Items, from: IRAddr, nodes: map<IRAddr, seq<Insn>>,
               edges: seq<CFGEdge>, stack: seq<IRAddr>)
    requires WellFormedCode(items) && Resolves(items, from)
    requires Walk(items, from, nodes, edges, stack) && stack != []
    ensures Reachable(items, from, stack[|stack| - 1]) && Resolves(items, stack[|stack| - 1])
  {
    var at := stack[|stack| - 1];
    assert at in stack;
    var p :| IsPath(items, from, p) && p[|p| - 1] == at;
    PathResolves(items, from, p);
  }

  /** When nothing is left to do, the visited blocks and the noted edges are the control flow graph. */
  lemma WalkDone(items: Items, from: IRAddr, nodes: map<IRAddr, seq<Insn>>, edges: seq<CFGEdge>)
    requires Walk(items, from, nodes, edges, [])
    ensures IsCFG(items, from, nodes, set e | e in edges)
    ensures forall e :: e in edges ==> e.src in nodes && e.dst in nodes
  {
    hide Reachable, BlockAt;
    forall x, y | x in nodes && y in SuccBlocks(items, x)
      ensures y in nodes
    {
      assert IsSuccEdge(items, Edge(x, y, None));
    }
    ClosedHoldsReachable(items, from, nodes.Keys);
  }

  /** The control flow graph: the reachable blocks and an edge to each successor. */
  ghost predicate IsCFG(items: Items, from: IRAddr, nodes: map<IRAddr, seq<Insn>>, edges: set<CFGEdge>)
  {
    && (forall x :: x in nodes <==> Reachable(items, from, x))
    && (forall x :: x in nodes ==> BlockAt(items, x) == Ok(nodes[x]))
    && (forall e :: e in edges <==> e.src in nodes && IsSuccEdge(items, e))
    && (forall e :: e in edges ==> e.dst in nodes)
  }

  ghost predicate Explored(items: Items, from: IRAddr, nodes: map<IRAddr, seq<Insn>>, at: IRAddr)
  {
    at in nodes && Reachable(items, from, at) && BlockAt(items, at) == Ok(nodes[at])
  }
}
