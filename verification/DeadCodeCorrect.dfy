/** Eliminating dead code preserves every run. */
module DeadCodeCorrect {
  import opened Wrappers
  import opened Ir
  import opened Code
  import opened Graphs
  import opened Cfg
  import opened Dfg
  import opened DeadCode
  import opened Vm

  /** The code with the deleted instructions turned into no-ops. */
  ghost function Optimized(items: Items, deleted: set<Key>): (r: Items)
    ensures r.Keys == items.Keys
    ensures forall k :: k in items ==> r[k] == if At(k) in deleted then items[k].Eliminate() else items[k]
  {
    EliminatedAt(items, set k | k in items && At(k) in deleted)
  }

  ghost function EliminatedAt(items: Items, ks: set<IRAddr>): (r: Items)
    requires ks <= items.Keys
    ensures r.Keys == items.Keys
    ensures forall k :: k in items ==> r[k] == if k in ks then items[k].Eliminate() else items[k]
  {
    if ks == {} then items
    else
      var k :| k in ks;
      EliminatedAt(items, ks - {k})[k := items[k].Eliminate()]
  }

  /** The registers agree on every variable whose last writer was not deleted. */
  ghost predicate Agree(regs: Regs, regs': Regs, s: State, deleted: set<Key>) {
    forall v :: (v in s && At(s[v]) in deleted) || Get(regs, v) == Get(regs', v)
  }

  ghost predicate AgreeOn(regs: Regs, regs': Regs, vs: seq<Var>) {
    forall v :: v in vs ==> Get(regs, v) == Get(regs', v)
  }

  lemma PreparedAgree(arch: Arch, ip: IRAddr, regs: Regs, regs': Regs, s: State, deleted: set<Key>)
    requires Agree(regs, regs', s, deleted)
    ensures Agree(Prepared(arch, ip, regs), Prepared(arch, ip, regs'), s, deleted)
  {
    forall v
      ensures (v in s && At(s[v]) in deleted) || Get(Prepared(arch, ip, regs), v) == Get(Prepared(arch, ip, regs'), v)
    {
      assert (v in s && At(s[v]) in deleted) || Get(regs, v) == Get(regs', v);
    }
  }

  lemma ValuesAgree(vs: seq<Var>, regs: Regs, regs': Regs)
    requires AgreeOn(regs, regs', vs)
    ensures Values(vs, regs) == Values(vs, regs')
  {
  }

  /** Execution writes the defined variables only. */
  lemma ExecuteFrame<M>(m: Machine<M>, arch: Arch, insn: Insn, regs: Regs, mem: M, v: Var)
    requires insn.WellFormed() && v !in Defs(arch, insn)
    ensures Get(Execute(m, arch, insn, regs, mem).regs, v) == Get(regs, v)
  {
  }

  /** What is defined gets a value that depends on what is used. */
  ghost predicate SameEffect<M>(m: Machine<M>, arch: Arch, insn: Insn, regs: Regs, regs': Regs, mem: M)
    requires insn.WellFormed()
  {
    var e, e' := Execute(m, arch, insn, regs, mem), Execute(m, arch, insn, regs', mem);
    e.mem == e'.mem && e.control == e'.control && AgreeOn(e.regs, e'.regs, Defs(arch, insn))
  }

  lemma UnknownSame<M>(m: Machine<M>, arch: Arch, insn: Insn, regs: Regs, regs': Regs, mem: M)
    requires insn.WellFormed() && AgreeOn(regs, regs', Uses(arch, insn)) && insn.op == UNK
    ensures SameEffect(m, arch, insn, regs, regs', mem)
  {
    ValuesAgree(insn.Src(), regs, regs');
  }

  lemma JumpSame<M>(m: Machine<M>, arch: Arch, insn: Insn, regs: Regs, regs': Regs, mem: M)
    requires insn.WellFormed() && AgreeOn(regs, regs', Uses(arch, insn)) && insn.op == JCC
    ensures SameEffect(m, arch, insn, regs, regs', mem)
  {
    hide Value, Arch.General;
    ArgsAgree(arch, insn, regs, regs');
    if insn.flags.call {
      GeneralIsUsed(arch, insn);
      ValuesAgree(arch.General(), regs, regs');
    }
  }

  lemma GeneralIsUsed(arch: Arch, insn: Insn)
    requires insn.WellFormed() && insn.flags.call
    ensures forall v :: v in Defs(arch, insn) ==> v in Uses(arch, insn)
  {
  }

  lemma StoreSame<M>(m: Machine<M>, arch: Arch, insn: Insn, regs: Regs, regs': Regs, mem: M)
    requires insn.WellFormed() && AgreeOn(regs, regs', Uses(arch, insn)) && insn.op == STM
    ensures SameEffect(m, arch, insn, regs, regs', mem)
  {
    hide Value, Uses, ArgVars;
    ArgsAgree(arch, insn, regs, regs');
    assert Defs(arch, insn) == [];
  }

  lemma LoadSame<M>(m: Machine<M>, arch: Arch, insn: Insn, regs: Regs, regs': Regs, mem: M)
    requires insn.WellFormed() && AgreeOn(regs, regs', Uses(arch, insn)) && insn.op == LDM
    ensures SameEffect(m, arch, insn, regs, regs', mem)
  {
    ArgsAgree(arch, insn, regs, regs');
    hide Value, Uses, ArgVars, AgreeOn;
    var val := m.load(mem, Value(insn.a, regs), ArgSize(insn.c));
    WriteSame(insn.Dst(), regs, regs', val);
    assert Execute(m, arch, insn, regs, mem).regs == Write(regs, insn.Dst(), _ => val);
  }

  lemma ArithmeticSame<M>(m: Machine<M>, arch: Arch, insn: Insn, regs: Regs, regs': Regs, mem: M)
    requires insn.WellFormed() && AgreeOn(regs, regs', Uses(arch, insn)) && insn.op !in {UNK, JCC, NONE, LDM, STM}
    ensures SameEffect(m, arch, insn, regs, regs', mem)
  {
    ArgsAgree(arch, insn, regs, regs');
    hide Value, Uses, ArgVars, AgreeOn;
    var val := m.alu(insn.op, OperandOf(insn.a, regs), OperandOf(insn.b, regs));
    assert OperandOf(insn.a, regs) == OperandOf(insn.a, regs') && OperandOf(insn.b, regs) == OperandOf(insn.b, regs');
    WriteSame(insn.Dst(), regs, regs', val);
  }

  /** Writing one value to the same variables makes them agree. */
  lemma WriteSame(vs: seq<Var>, regs: Regs, regs': Regs, val: int)
    ensures AgreeOn(Write(regs, vs, _ => val), Write(regs', vs, _ => val), vs)
  {
  }

  /** An instruction that finds equal values in all it uses does the same. */
  lemma EffectSame<M>(m: Machine<M>, arch: Arch, insn: Insn, regs: Regs, regs': Regs, mem: M)
    requires insn.WellFormed() && AgreeOn(regs, regs', Uses(arch, insn))
    ensures SameEffect(m, arch, insn, regs, regs', mem)
  {
    hide SameEffect, Uses, AgreeOn, Execute;
    if insn.op == UNK {
      UnknownSame(m, arch, insn, regs, regs', mem);
    } else if insn.op == JCC {
      JumpSame(m, arch, insn, regs, regs', mem);
    } else if insn.op == STM {
      StoreSame(m, arch, insn, regs, regs', mem);
    } else if insn.op == LDM {
      LoadSame(m, arch, insn, regs, regs', mem);
    } else if insn.op != NONE {
      ArithmeticSame(m, arch, insn, regs, regs', mem);
    } else {
      NoneSame(m, arch, insn, regs, regs', mem);
    }
  }

  lemma NoneSame<M>(m: Machine<M>, arch: Arch, insn: Insn, regs: Regs, regs': Regs, mem: M)
    requires insn.WellFormed() && insn.op == NONE
    ensures SameEffect(m, arch, insn, regs, regs', mem)
  {
  }

  /** And so its effects agree on everything whose last writer was not deleted. */
  lemma ExecuteAgree<M>(m: Machine<M>, arch: Arch, insn: Insn, regs: Regs, regs': Regs, mem: M,
                        s: State, deleted: set<Key>)
    requires insn.WellFormed() && At(insn.ir) !in deleted
    requires Agree(regs, regs', s, deleted) && AgreeOn(regs, regs', Uses(arch, insn))
    ensures var e, e' := Execute(m, arch, insn, regs, mem), Execute(m, arch, insn, regs', mem);
      && e.mem == e'.mem && e.control == e'.control
      && Agree(e.regs, e'.regs, After(arch, insn, s), deleted)
  {
    EffectSame(m, arch, insn, regs, regs', mem);
    hide Execute, Uses;
    var e, e' := Execute(m, arch, insn, regs, mem), Execute(m, arch, insn, regs', mem);
    forall v
      ensures (v in After(arch, insn, s) && At(After(arch, insn, s)[v]) in deleted) || Get(e.regs, v) == Get(e'.regs, v)
    {
      if v !in Defs(arch, insn) {
        ExecuteFrame(m, arch, insn, regs, mem, v);
        ExecuteFrame(m, arch, insn, regs', mem, v);
        assert (v in s && At(s[v]) in deleted) || Get(regs, v) == Get(regs', v);
      }
    }
  }

  lemma ArgsAgree(arch: Arch, insn: Insn, regs: Regs, regs': Regs)
    requires insn.WellFormed() && AgreeOn(regs, regs', Uses(arch, insn)) && insn.op !in {UNK, NONE}
    ensures Value(insn.a, regs) == Value(insn.a, regs')
    ensures Value(insn.b, regs) == Value(insn.b, regs')
    ensures insn.op in {JCC, STM} ==> Value(insn.c, regs) == Value(insn.c, regs')
  {
    var vs := Uses(arch, insn);
    assert forall v :: v in insn.Src() ==> v in vs;
    assert forall v :: v in ArgVars(insn.a) ==> v in insn.Src();
    assert forall v :: v in ArgVars(insn.b) ==> v in insn.Src();
    assert insn.op in {JCC, STM} ==> forall v :: v in ArgVars(insn.c) ==> v in insn.Src();
    assert insn.a.VarArg? ==> insn.a.v in ArgVars(insn.a);
    assert insn.b.VarArg? ==> insn.b.v in ArgVars(insn.b);
    assert insn.c.VarArg? ==> insn.c.v in ArgVars(insn.c);
  }

  /** A deleted instruction changes nothing but its destinations, and the no-op left changes nothing at all. */
  lemma ExecuteDeleted<M>(m: Machine<M>, arch: Arch, insn: Insn, regs: Regs, regs': Regs, mem: M,
                          s: State, deleted: set<Key>)
    requires insn.WellFormed() && At(insn.ir) in deleted && Removable(insn)
    requires Agree(regs, regs', s, deleted)
    ensures insn.Eliminate().WellFormed()
    ensures var e, e' := Execute(m, arch, insn, regs, mem), Execute(m, arch, insn.Eliminate(), regs', mem);
      && e.mem == e'.mem == mem && e.control == e'.control == Fall
      && Agree(e.regs, e'.regs, After(arch, insn, s), deleted)
    ensures insn.Next() == insn.Eliminate().Next()
  {
    var e := Execute(m, arch, insn, regs, mem);
    forall v
      ensures (v in After(arch, insn, s) && At(After(arch, insn, s)[v]) in deleted) || Get(e.regs, v) == Get(regs', v)
    {
      if v !in Defs(arch, insn) {
        assert (v in s && At(s[v]) in deleted) || Get(regs, v) == Get(regs', v);
      }
    }
  }

  // ---------- Where a run is ----------

  /** The facts about the function, its data flow graph and the deleted nodes that the proof uses. */
  ghost predicate Setting(items: Items, arch: Arch, from: IRAddr, nodes: Nodes, edges: set<DFGEdge>,
                          keepFlags: bool, deleted: set<Key>) {
    && WellFormedCode(items) && Resolves(items, from)
    && (forall x :: Reachable(items, from, x) ==> BlockAt(items, x).Ok?)
    && IsDFG(items, arch, from, nodes, edges)
    && Deletable(nodes, LiveEdges(nodes, edges, keepFlags), deleted)
  }

  /** The run is at instruction `i` of the last block of the walk `p`. */
  ghost predicate OnPath(items: Items, from: IRAddr, p: seq<IRAddr>, i: nat, ip: IRAddr) {
    && IsPath(items, from, p)
    && i < |BlockOf(items, p[|p| - 1])| && BlockOf(items, p[|p| - 1])[i].ir == ip
  }

  ghost function StateAt(items: Items, arch: Arch, p: seq<IRAddr>, i: nat): State
    requires |p| > 0 && i <= |BlockOf(items, p[|p| - 1])|
  {
    AfterAll(arch, BlockOf(items, p[|p| - 1])[..i], PathState(items, arch, p))
  }

  /** The block at the end of a walk is a block that starts where the walk arrives. */
  lemma PathBlock(items: Items, from: IRAddr, p: seq<IRAddr>)
    requires WellFormedCode(items) && Resolves(items, from) && IsPath(items, from, p)
    requires forall x :: Reachable(items, from, x) ==> BlockAt(items, x).Ok?
    ensures var x := p[|p| - 1]; Reachable(items, from, x) && IsBlock(items, x, BlockOf(items, x))
  {
    hide BlockAt, SuccBlocks;
    PathResolves(items, from, p);
    assert Reachable(items, from, p[|p| - 1]);
    BlockShape(items, p[|p| - 1]);
  }

  /** A walk's state maps variables to instructions that define them. */
  lemma {:induction false} PathStateKnown(items: Items, arch: Arch, from: IRAddr, p: seq<IRAddr>)
    requires WellFormedCode(items) && Resolves(items, from) && IsPath(items, from, p)
    requires forall x :: Reachable(items, from, x) ==> BlockAt(items, x).Ok?
    ensures Pairs(PathState(items, arch, p)) <= Known(items, arch)
  {
    hide BlockAt, SuccBlocks, Known, Reachable, WellFormedCode;
    if |p| > 1 {
      var q := p[..|p| - 1];
      PathStateKnown(items, arch, from, q);
      PathBlock(items, from, q);
      AfterAllKnown(items, arch, BlockOf(items, q[|q| - 1]), PathState(items, arch, q));
    }
  }

  lemma StateAtKnown(items: Items, arch: Arch, from: IRAddr, p: seq<IRAddr>, i: nat)
    requires WellFormedCode(items) && Resolves(items, from) && IsPath(items, from, p)
    requires forall x :: Reachable(items, from, x) ==> BlockAt(items, x).Ok?
    requires i <= |BlockOf(items, p[|p| - 1])|
    ensures Pairs(StateAt(items, arch, p, i)) <= Known(items, arch)
  {
    hide BlockAt, SuccBlocks, Known, Reachable, WellFormedCode, PathState;
    PathStateKnown(items, arch, from, p);
    PathBlock(items, from, p);
    AfterAllKnown(items, arch, BlockOf(items, p[|p| - 1])[..i], PathState(items, arch, p));
  }

  /** A flow out of a deleted node is an edge of the graph, whether or not the worklist got past the entry block. */
  lemma DeletedFlowIsEdge(items: Items, arch: Arch, from: IRAddr, nodes: Nodes, edges: set<DFGEdge>,
                          keepFlags: bool, deleted: set<Key>, e: DFGEdge)
    requires Setting(items, arch, from, nodes, edges, keepFlags, deleted)
    requires FlowEdge(items, arch, from, e) && e.src in deleted
    requires e.src.At? && Def(e.name, e.src.ir) in Known(items, arch)
    ensures e in edges
  {
    hide FlowEdge, Reachable, BlockAt, InFunction;
    if !EntryDefines(items, arch, from) {
      ReachableStart(items, from);
      EntryBlockIs(items, from);
      var bb := BlockOf(items, from);
      var i :| 0 <= i < |bb| && bb[i].ir == e.src.ir;
      var j := LocalIsLastWriter(arch, bb, e.name);
    }
  }

  lemma EntryBlockIs(items: Items, from: IRAddr)
    requires WellFormedCode(items) && Resolves(items, from) && BlockAt(items, from).Ok?
    ensures IsBlock(items, from, BlockOf(items, from))
  {
    hide BlockAt;
    BlockShape(items, from);
  }

  // ---------- The simulation ----------

  /** A deleted value is used by deleted instructions only. */
  lemma UserIsDeleted(items: Items, arch: Arch, from: IRAddr, nodes: Nodes, edges: set<DFGEdge>,
                      keepFlags: bool, deleted: set<Key>, p: seq<IRAddr>, i: nat, ip: IRAddr, v: Var)
    requires Setting(items, arch, from, nodes, edges, keepFlags, deleted) && OnPath(items, from, p, i, ip)
    requires BlockOf(items, p[|p| - 1])[i].WellFormed() && v in Uses(arch, BlockOf(items, p[|p| - 1])[i])
    requires v in StateAt(items, arch, p, i) && At(StateAt(items, arch, p, i)[v]) in deleted
    ensures At(ip) in deleted
  {
    assert |p| > 0;
    hide BlockAt, BlockOf, Reachable, IsDFG, WellFormedCode, Known, IsPath, Deletable, FlowEdge, StateAt;
    var e := Edge(At(StateAt(items, arch, p, i)[v]), At(ip), v);
    UseFlow(items, arch, from, p, i, ip, v);
    DeletedFlowIsEdge(items, arch, from, nodes, edges, keepFlags, deleted, e);
    FedIsDeleted(nodes, edges, keepFlags, deleted, e);
  }

  /** A value that an instruction on the walk uses flows to it from its last writer. */
  lemma UseFlow(items: Items, arch: Arch, from: IRAddr, p: seq<IRAddr>, i: nat, ip: IRAddr, v: Var)
    requires WellFormedCode(items) && Resolves(items, from) && OnPath(items, from, p, i, ip)
    requires forall x :: Reachable(items, from, x) ==> BlockAt(items, x).Ok?
    requires BlockOf(items, p[|p| - 1])[i].WellFormed() && v in Uses(arch, BlockOf(items, p[|p| - 1])[i])
    requires v in StateAt(items, arch, p, i)
    ensures var d := StateAt(items, arch, p, i)[v];
      FlowEdge(items, arch, from, Edge(At(d), At(ip), v)) && Def(v, d) in Known(items, arch)
  {
    assert |p| > 0;
    hide BlockAt, BlockOf, PathState, AfterAll, Reachable, Known, FlowEdge, IsPath, WellFormedCode;
    var s := StateAt(items, arch, p, i);
    var e := Edge(At(s[v]), At(ip), v);
    assert UseEdge(arch, BlockOf(items, p[|p| - 1]), PathState(items, arch, p), i, e);
    PathFlows(items, arch, from, p, e);
    StateAtKnown(items, arch, from, p, i);
    assert Def(v, s[v]) in Pairs(s);
  }

  lemma FedIsDeleted(nodes: Nodes, edges: set<DFGEdge>, keepFlags: bool, deleted: set<Key>, e: DFGEdge)
    requires Deletable(nodes, LiveEdges(nodes, edges, keepFlags), deleted)
    requires e in edges && e.src in deleted && e.dst != Exit
    ensures e.dst in deleted
  {
  }

  /** One instruction, original and optimised, from registers that agree. */
  lemma ExecuteSim<M>(items: Items, m: Machine<M>, arch: Arch, from: IRAddr, nodes: Nodes, edges: set<DFGEdge>,
                      keepFlags: bool, deleted: set<Key>, p: seq<IRAddr>, i: nat, ip: IRAddr,
                      regs: Regs, regs': Regs, mem: M)
    requires Setting(items, arch, from, nodes, edges, keepFlags, deleted) && OnPath(items, from, p, i, ip)
    requires Agree(regs, regs', StateAt(items, arch, p, i), deleted)
    ensures ip in items && ip in Optimized(items, deleted)
    ensures items[ip] == BlockOf(items, p[|p| - 1])[i]
    ensures items[ip].WellFormed() && Optimized(items, deleted)[ip].WellFormed()
    ensures items[ip].Next() == Optimized(items, deleted)[ip].Next()
    ensures var e := Execute(m, arch, items[ip], Prepared(arch, ip, regs), mem);
      var e' := Execute(m, arch, Optimized(items, deleted)[ip], Prepared(arch, ip, regs'), mem);
      && e.mem == e'.mem && e.control == e'.control
      && Agree(e.regs, e'.regs, StateAt(items, arch, p, i + 1), deleted)
  {
    assert |p| > 0;
    hide BlockAt, Reachable, IsDFG, Known, PathState, AfterAll, IsPath, Execute, Prepared, Agree, LiveEdges;
    var bb, s := BlockOf(items, p[|p| - 1]), StateAt(items, arch, p, i);
    AtOnPath(items, from, p, i, ip);
    PreparedAgree(arch, ip, regs, regs', s, deleted);
    StateAtNext(items, arch, p, i);
    var r, r' := Prepared(arch, ip, regs), Prepared(arch, ip, regs');
    if At(ip) in deleted {
      DeletedIsRemovable(items, arch, from, nodes, edges, keepFlags, deleted, ip);
      ExecuteDeleted(m, arch, bb[i], r, r', mem, s, deleted);
    } else {
      forall v | v in Uses(arch, bb[i])
        ensures Get(r, v) == Get(r', v)
      {
        if v in s && At(s[v]) in deleted {
          UserIsDeleted(items, arch, from, nodes, edges, keepFlags, deleted, p, i, ip, v);
        }
        AgreeGives(r, r', s, deleted, v);
      }
      ExecuteAgree(m, arch, bb[i], r, r', mem, s, deleted);
    }
  }

  lemma AgreeGives(regs: Regs, regs': Regs, s: State, deleted: set<Key>, v: Var)
    requires Agree(regs, regs', s, deleted) && !(v in s && At(s[v]) in deleted)
    ensures Get(regs, v) == Get(regs', v)
  {
  }

  lemma AtOnPath(items: Items, from: IRAddr, p: seq<IRAddr>, i: nat, ip: IRAddr)
    requires WellFormedCode(items) && Resolves(items, from) && OnPath(items, from, p, i, ip)
    requires forall x :: Reachable(items, from, x) ==> BlockAt(items, x).Ok?
    ensures var bb := BlockOf(items, p[|p| - 1]);
      ip in items && items[ip] == bb[i] && bb[i].WellFormed() && IsBlock(items, p[|p| - 1], bb)
  {
    hide BlockAt, Reachable, IsPath;
    PathBlock(items, from, p);
  }

  lemma StateAtNext(items: Items, arch: Arch, p: seq<IRAddr>, i: nat)
    requires |p| > 0 && i < |BlockOf(items, p[|p| - 1])|
    ensures StateAt(items, arch, p, i + 1)
         == After(arch, BlockOf(items, p[|p| - 1])[i], StateAt(items, arch, p, i))
  {
    hide PathState, BlockOf;
    AfterAllNext(arch, BlockOf(items, p[|p| - 1]), i, PathState(items, arch, p));
  }

  lemma DeletedIsRemovable(items: Items, arch: Arch, from: IRAddr, nodes: Nodes, edges: set<DFGEdge>,
                           keepFlags: bool, deleted: set<Key>, ip: IRAddr)
    requires Setting(items, arch, from, nodes, edges, keepFlags, deleted) && At(ip) in deleted
    ensures ip in items && Removable(items[ip])
  {
    hide BlockAt, Reachable, WellFormedCode, FlowEdge, InFunction, LiveEdges;
  }

  /** Both runs are at the same instruction of the same walk, with agreeing registers. */
  ghost predicate SimRunning(items: Items, arch: Arch, from: IRAddr, deleted: set<Key>,
                             ip: IRAddr, regs: Regs, regs': Regs) {
    exists p, i: nat :: OnPath(items, from, p, i, ip) && Agree(regs, regs', StateAt(items, arch, p, i), deleted)
  }

  /** Both runs left the function at the end of the same walk, with agreeing registers. */
  ghost predicate SimLeft(items: Items, arch: Arch, from: IRAddr, deleted: set<Key>,
                          at: IRAddr, regs: Regs, regs': Regs) {
    exists p, i: nat :: OnPath(items, from, p, i, at) && i == |BlockOf(items, p[|p| - 1])| - 1
      && Agree(regs, regs', StateAt(items, arch, p, i + 1), deleted)
  }

  ghost predicate Sim<M>(items: Items, arch: Arch, from: IRAddr, deleted: set<Key>, c: Config<M>, c': Config<M>) {
    match (c, c')
    case (Running(ip, regs, mem), Running(ip', regs', mem')) =>
      ip == ip' && mem == mem' && SimRunning(items, arch, from, deleted, ip, regs, regs')
    case (Left(at, target, regs, mem), Left(at', target', regs', mem')) =>
      at == at' && target == target' && mem == mem' && SimLeft(items, arch, from, deleted, at, regs, regs')
    case _ => false
  }

  /** Inside a block control falls through to the next instruction of the block. */
  lemma ControlInside<M>(items: Items, m: Machine<M>, arch: Arch, x: IRAddr, bb: seq<Insn>, i: nat, regs: Regs, mem: M)
    requires IsBlock(items, x, bb) && i + 1 < |bb| && bb[i].WellFormed()
    ensures Execute(m, arch, bb[i], regs, mem).control == Fall
    ensures bb[i].Next() == Some(bb[i + 1].ir)
  {
    assert bb[i + 1].ir == bb[i].Following();
  }

  lemma ControlJumps<M>(m: Machine<M>, arch: Arch, insn: Insn, regs: Regs, mem: M)
    requires insn.WellFormed()
    ensures var c := Execute(m, arch, insn, regs, mem).control;
      && (c.Jump? ==> insn.JccLoc() == Some(c.to))
      && (c.Fall? || insn.op == JCC)
  {
  }

  /** Control that goes on to a successor block starts it in the state the walk ends in. */
  lemma ArriveSim(items: Items, arch: Arch, from: IRAddr, deleted: set<Key>, p: seq<IRAddr>, y: IRAddr,
                  regs: Regs, regs': Regs)
    requires WellFormedCode(items) && Resolves(items, from) && IsPath(items, from, p)
    requires forall x :: Reachable(items, from, x) ==> BlockAt(items, x).Ok?
    requires y in SuccBlocks(items, p[|p| - 1])
    requires Agree(regs, regs', StateAt(items, arch, p, |BlockOf(items, p[|p| - 1])|), deleted)
    ensures SimRunning(items, arch, from, deleted, y, regs, regs')
  {
    hide BlockAt, SuccBlocks, Agree, WellFormedCode, PathState, Reachable;
    var bb := BlockOf(items, p[|p| - 1]);
    assert bb[..|bb|] == bb;
    PathNext(items, arch, from, p, y);
    var q := p + [y];
    PathBlock(items, from, q);
    assert BlockOf(items, y)[..0] == [];
    assert q[|q| - 1] == y && OnPath(items, from, q, 0, y);
    assert StateAt(items, arch, q, 0) == StateAt(items, arch, p, |bb|);
  }

  lemma MoveSim<M>(items: Items, m: Machine<M>, arch: Arch, from: IRAddr, deleted: set<Key>,
                   p: seq<IRAddr>, i: nat, ip: IRAddr, e: Effect<M>, e': Effect<M>, regs: Regs, mem: M,
                   target: IRAddr)
    requires WellFormedCode(items) && Resolves(items, from) && OnPath(items, from, p, i, ip)
    requires forall x :: Reachable(items, from, x) ==> BlockAt(items, x).Ok?
    requires Agree(e.regs, e'.regs, StateAt(items, arch, p, i + 1), deleted)
    requires ip in items && items[ip] == BlockOf(items, p[|p| - 1])[i] && items[ip].WellFormed()
    requires e == Execute(m, arch, items[ip], regs, mem)
    requires e.control == Jump(target) || (e.control == Fall && items[ip].Next() == Some(target))
    ensures SimRunning(items, arch, from, deleted, target, e.regs, e'.regs)
  {
    hide BlockAt, Agree, Reachable, Execute, PathState;
    PathBlock(items, from, p);
    var bb := BlockOf(items, p[|p| - 1]);
    if i + 1 < |bb| {
      ControlInside(items, m, arch, p[|p| - 1], bb, i, regs, mem);
      assert OnPath(items, from, p, i + 1, target);
    } else {
      ControlJumps(m, arch, bb[i], regs, mem);
      BlockSuccessor(items, p[|p| - 1], target);
      ArriveSim(items, arch, from, deleted, p, target, e.regs, e'.regs);
    }
  }

  lemma BlockSuccessor(items: Items, x: IRAddr, y: IRAddr)
    requires IsBlock(items, x, BlockOf(items, x))
    requires y in BlockOf(items, x)[|BlockOf(items, x)| - 1].Successors()
    ensures y in SuccBlocks(items, x)
  {
  }

  /** Leaving the function happens at the end of a block. */
  lemma LeaveSim<M>(items: Items, m: Machine<M>, arch: Arch, from: IRAddr, deleted: set<Key>,
                    p: seq<IRAddr>, i: nat, ip: IRAddr, e: Effect<M>, e': Effect<M>, regs: Regs, mem: M)
    requires WellFormedCode(items) && Resolves(items, from) && OnPath(items, from, p, i, ip)
    requires forall x :: Reachable(items, from, x) ==> BlockAt(items, x).Ok?
    requires Agree(e.regs, e'.regs, StateAt(items, arch, p, i + 1), deleted)
    requires ip in items && items[ip] == BlockOf(items, p[|p| - 1])[i] && items[ip].WellFormed()
    requires e == Execute(m, arch, items[ip], regs, mem)
    requires e.control.Away? || (e.control == Fall && items[ip].Next() == None)
    ensures SimLeft(items, arch, from, deleted, ip, e.regs, e'.regs)
  {
    hide BlockAt, Agree, Reachable, Execute, PathState;
    PathBlock(items, from, p);
    var bb := BlockOf(items, p[|p| - 1]);
    if i + 1 < |bb| {
      ControlInside(items, m, arch, p[|p| - 1], bb, i, regs, mem);
    }
  }

  lemma OptimizedWellFormed(items: Items, deleted: set<Key>)
    requires forall k :: k in items ==> items[k].WellFormed()
    requires forall k :: k in items && At(k) in deleted ==> Removable(items[k])
    ensures forall k :: k in Optimized(items, deleted) ==> Optimized(items, deleted)[k].WellFormed()
  {
  }

  /** One step of both runs. */
  lemma StepSim<M>(items: Items, m: Machine<M>, arch: Arch, from: IRAddr, nodes: Nodes, edges: set<DFGEdge>,
                   keepFlags: bool, deleted: set<Key>, c: Config<M>, c': Config<M>)
    requires Setting(items, arch, from, nodes, edges, keepFlags, deleted)
    requires forall k :: k in Optimized(items, deleted) ==> Optimized(items, deleted)[k].WellFormed()
    requires Sim(items, arch, from, deleted, c, c')
    ensures Sim(items, arch, from, deleted, Step(items, m, arch, c), Step(Optimized(items, deleted), m, arch, c'))
  {
    hide BlockAt, Agree, Reachable, Execute, PathState, IsDFG, Deletable, LiveEdges, StateAt, Prepared, Optimized;
    if c.Running? {
      var ip, regs, regs', mem := c.ip, c.regs, c'.regs, c.mem;
      var p, i: nat :| OnPath(items, from, p, i, ip) && Agree(regs, regs', StateAt(items, arch, p, i), deleted);
      ExecuteSim(items, m, arch, from, nodes, edges, keepFlags, deleted, p, i, ip, regs, regs', mem);
      var e := Execute(m, arch, items[ip], Prepared(arch, ip, regs), mem);
      var e' := Execute(m, arch, Optimized(items, deleted)[ip], Prepared(arch, ip, regs'), mem);
      if e.control.Jump? || (e.control.Fall? && items[ip].Next().Some?) {
        var target := if e.control.Jump? then e.control.to else items[ip].Next().value;
        MoveSim(items, m, arch, from, deleted, p, i, ip, e, e', Prepared(arch, ip, regs), mem, target);
      } else {
        LeaveSim(items, m, arch, from, deleted, p, i, ip, e, e', Prepared(arch, ip, regs), mem);
      }
    }
  }

  // ---------- The theorems ----------

  lemma {:induction false} RunSim<M>(items: Items, m: Machine<M>, arch: Arch, from: IRAddr, nodes: Nodes,
                                     edges: set<DFGEdge>, keepFlags: bool, deleted: set<Key>,
                                     regs: Regs, mem: M, n: nat)
    requires Setting(items, arch, from, nodes, edges, keepFlags, deleted)
    requires forall k :: k in Optimized(items, deleted) ==> Optimized(items, deleted)[k].WellFormed()
    ensures Sim(items, arch, from, deleted,
                Run(items, m, arch, Running(from, regs, mem), n),
                Run(Optimized(items, deleted), m, arch, Running(from, regs, mem), n))
  {
    hide BlockAt, Agree, PathState, IsDFG, Deletable, LiveEdges, Optimized, Step, SimLeft;
    if n == 0 {
      StartSim(items, arch, from, nodes, edges, keepFlags, deleted, regs);
    } else {
      RunSim(items, m, arch, from, nodes, edges, keepFlags, deleted, regs, mem, n - 1);
      StepSim(items, m, arch, from, nodes, edges, keepFlags, deleted,
              Run(items, m, arch, Running(from, regs, mem), n - 1),
              Run(Optimized(items, deleted), m, arch, Running(from, regs, mem), n - 1));
    }
  }

  lemma StartSim(items: Items, arch: Arch, from: IRAddr, nodes: Nodes, edges: set<DFGEdge>, keepFlags: bool,
                 deleted: set<Key>, regs: Regs)
    requires Setting(items, arch, from, nodes, edges, keepFlags, deleted)
    ensures SimRunning(items, arch, from, deleted, from, regs, regs)
  {
    hide BlockAt, IsDFG, Deletable, LiveEdges, SuccBlocks, WellFormedCode;
    assert IsPath(items, from, [from]);
    PathBlock(items, from, [from]);
    assert OnPath(items, from, [from], 0, from);
    assert Agree(regs, regs, StateAt(items, arch, [from], 0), deleted);
  }

  /** An instruction after which the graph builder, too, sees the function end. */
  ghost predicate CleanExit(items: Items, at: IRAddr) {
    at in items && items[at].Next().None? && items[at].JccLoc().None?
  }

  /** Some deleted instruction whose first destination may be dropped at the exit also writes `v`. */
  ghost predicate Lost(items: Items, deleted: set<Key>, keepFlags: bool, v: Var) {
    exists d :: d in items && At(d) in deleted && v in items[d].Dst() && DropsAtExit(items[d], keepFlags)
  }

  /** At a clean exit only values written by such an instruction can differ. */
  lemma ExitAgrees(items: Items, arch: Arch, from: IRAddr, nodes: Nodes, edges: set<DFGEdge>, keepFlags: bool,
                   deleted: set<Key>, at: IRAddr, regs: Regs, regs': Regs, v: Var)
    requires Setting(items, arch, from, nodes, edges, keepFlags, deleted)
    requires SimLeft(items, arch, from, deleted, at, regs, regs') && CleanExit(items, at)
    ensures Get(regs, v) == Get(regs', v) || Lost(items, deleted, keepFlags, v)
  {
    hide BlockAt, PathState, AfterAll, Reachable, Known, FlowEdge, IsDFG, LiveEdges, Deletable, WellFormedCode;
    hide CleanExit, Lost;
    var p, i: nat :| OnPath(items, from, p, i, at) && i == |BlockOf(items, p[|p| - 1])| - 1
      && Agree(regs, regs', StateAt(items, arch, p, i + 1), deleted);
    var s := StateAt(items, arch, p, i + 1);
    if v in s && At(s[v]) in deleted {
      var e := Edge(At(s[v]), Exit, v);
      ExitFlow(items, arch, from, p, i, at, v);
      DeletedFlowIsEdge(items, arch, from, nodes, edges, keepFlags, deleted, e);
      DroppedEdge(items, arch, from, nodes, edges, keepFlags, deleted, e);
    }
  }

  /** At a clean exit every value of the state flows to the exit node. */
  lemma ExitFlow(items: Items, arch: Arch, from: IRAddr, p: seq<IRAddr>, i: nat, at: IRAddr, v: Var)
    requires WellFormedCode(items) && Resolves(items, from)
    requires forall x :: Reachable(items, from, x) ==> BlockAt(items, x).Ok?
    requires OnPath(items, from, p, i, at) && i == |BlockOf(items, p[|p| - 1])| - 1 && CleanExit(items, at)
    requires v in StateAt(items, arch, p, i + 1)
    ensures var d := StateAt(items, arch, p, i + 1)[v];
      FlowEdge(items, arch, from, Edge(At(d), Exit, v)) && Def(v, d) in Known(items, arch)
  {
    assert |p| > 0;
    hide BlockAt, PathState, AfterAll, Reachable, Known, FlowEdge, IsPath, WellFormedCode;
    var bb, s := BlockOf(items, p[|p| - 1]), StateAt(items, arch, p, i + 1);
    AtOnPath(items, from, p, i, at);
    assert bb[..|bb|] == bb;
    var e := Edge(At(s[v]), Exit, v);
    assert ExitEdge(arch, bb, PathState(items, arch, p), e);
    PathFlows(items, arch, from, p, e);
    StateAtKnown(items, arch, from, p, i + 1);
    assert Def(v, s[v]) in Pairs(s);
  }

  lemma PathFlows(items: Items, arch: Arch, from: IRAddr, p: seq<IRAddr>, e: DFGEdge)
    requires IsPath(items, from, p) && BlockEdge(arch, BlockOf(items, p[|p| - 1]), PathState(items, arch, p), e)
    ensures FlowEdge(items, arch, from, e)
  {
    hide BlockEdge;
  }

  lemma DroppedEdge(items: Items, arch: Arch, from: IRAddr, nodes: Nodes, edges: set<DFGEdge>, keepFlags: bool,
                    deleted: set<Key>, e: DFGEdge)
    requires Setting(items, arch, from, nodes, edges, keepFlags, deleted)
    requires e in edges && e.src in deleted && e.src.At? && e.dst == Exit
    requires Def(e.name, e.src.ir) in Known(items, arch)
    ensures Lost(items, deleted, keepFlags, e.name)
  {
    hide BlockAt, Reachable, FlowEdge, InFunction;
    var d := e.src.ir;
    assert e !in LiveEdges(nodes, edges, keepFlags);
    assert nodes[At(d)] == Some(items[d]) && !items[d].flags.call;
  }

  /** What the outside sees of a configuration: the place, the memory and, at a clean exit, the registers. */
  ghost predicate SameView<M>(items: Items, deleted: set<Key>, keepFlags: bool, c: Config<M>, c': Config<M>) {
    match (c, c')
    case (Running(ip, _, mem), Running(ip', _, mem')) => ip == ip' && mem == mem'
    case (Left(at, target, regs, mem), Left(at', target', regs', mem')) =>
      && at == at' && target == target' && mem == mem'
      && (CleanExit(items, at) ==>
            forall v :: Get(regs, v) == Get(regs', v) || Lost(items, deleted, keepFlags, v))
    case _ => false
  }

  lemma OptimizedIsWellFormed(items: Items, arch: Arch, from: IRAddr, nodes: Nodes, edges: set<DFGEdge>,
                              keepFlags: bool, deleted: set<Key>)
    requires Setting(items, arch, from, nodes, edges, keepFlags, deleted)
    ensures forall k :: k in Optimized(items, deleted) ==> Optimized(items, deleted)[k].WellFormed()
  {
    hide BlockAt, IsDFG, Deletable, LiveEdges, Reachable;
    forall k | k in items && At(k) in deleted
      ensures Removable(items[k])
    {
      DeletedIsRemovable(items, arch, from, nodes, edges, keepFlags, deleted, k);
    }
    OptimizedWellFormed(items, deleted);
  }

  /**
   * After any number of steps from any registers and memory, on any machine, the original and the
   * optimised code are at the same place with the same memory; when they have left the function at a
   * clean exit they agree on all registers but those a deleted instruction with a droppable first
   * destination writes.
   */
  lemma EliminationPreservesRuns<M>(items: Items, m: Machine<M>, arch: Arch, from: IRAddr, nodes: Nodes,
                                    edges: set<DFGEdge>, keepFlags: bool, deleted: set<Key>,
                                    regs: Regs, mem: M, n: nat)
    requires Setting(items, arch, from, nodes, edges, keepFlags, deleted)
    ensures forall k :: k in Optimized(items, deleted) ==> Optimized(items, deleted)[k].WellFormed()
    ensures SameView(items, deleted, keepFlags,
                     Run(items, m, arch, Running(from, regs, mem), n),
                     Run(Optimized(items, deleted), m, arch, Running(from, regs, mem), n))
  {
    hide BlockAt, Agree, Run, Lost, CleanExit, LiveEdges, Reachable, SimLeft, SimRunning;
    OptimizedIsWellFormed(items, arch, from, nodes, edges, keepFlags, deleted);
    RunSim(items, m, arch, from, nodes, edges, keepFlags, deleted, regs, mem, n);
    var c := Run(items, m, arch, Running(from, regs, mem), n);
    var c' := Run(Optimized(items, deleted), m, arch, Running(from, regs, mem), n);
    if c.Left? && CleanExit(items, c.at) {
      forall v
        ensures Get(c.regs, v) == Get(c'.regs, v) || Lost(items, deleted, keepFlags, v)
      {
        ExitAgrees(items, arch, from, nodes, edges, keepFlags, deleted, c.at, c.regs, c'.regs, v);
      }
    }
  }

  /** Unknown instructions whose droppable first destination hides one that must be kept. */
  ghost predicate Mixes(insn: Insn, keepFlags: bool) {
    DropsAtExit(insn, keepFlags) && exists v :: v in insn.Dst() && !Droppable(v, keepFlags)
  }

  /** Without such instructions every register that must be kept is kept. */
  lemma UnmixedKeepsRegisters(items: Items, deleted: set<Key>, keepFlags: bool, v: Var)
    requires forall k :: k in items && At(k) in deleted ==> !Mixes(items[k], keepFlags)
    requires !Droppable(v, keepFlags)
    ensures !Lost(items, deleted, keepFlags, v)
  {
  }

  /**
   * Registers that hold the results of a function are never dropped at its end, on neither architecture; status flags
   * are, unless they are to be kept.
   */
  lemma OnlyFlagsAreDropped(arch: Arch, keepFlags: bool)
    ensures forall v :: v in arch.General() ==> !Droppable(v, keepFlags)
    ensures !Droppable(InstructionPointer(arch), keepFlags)
    ensures forall v :: v in arch.StatusFlags() ==> (Droppable(v, keepFlags) <==> !keepFlags)
    ensures forall name :: Droppable(Temp(name), keepFlags)
  {
    GeneralIsNoFlag(arch);
    hide IsFlag;
    if arch.X86? { assert forall v :: v in arch.StatusFlags() ==> v.Reg? && IsFlag(v) by { FlagsAreFlags(arch); } }
    if arch.Arm? { assert forall v :: v in arch.StatusFlags() ==> v.Reg? && IsFlag(v) by { FlagsAreFlags(arch); } }
  }

  /** The flags by their names. */
  lemma NamedFlagsAreDropped()
    ensures forall name :: name in {"R_ZF", "R_PF", "R_CF", "R_AF", "R_SF", "R_OF", "R_DFLAG", "R_NF", "R_VF"} ==>
      Droppable(Reg(name), false) && !Droppable(Reg(name), true)
  {
  }

  /** The general registers by their names. */
  lemma NamedGeneralRegisters(name: string)
    ensures Reg(name) in X86.General() <==>
      name in {"R_EAX", "R_EBX", "R_ECX", "R_EDX", "R_ESI", "R_EDI", "R_EBP", "R_ESP"}
    ensures Reg(name) in Arm.General() <==>
      name in {"R_R0", "R_R1", "R_R2", "R_R3", "R_R4", "R_R5", "R_R6", "R_R7", "R_R8", "R_R9", "R_R10", "R_R11",
               "R_R12", "R_R13", "R_R14", "R_R15T"}
  {
  }

  lemma FlagsAreFlags(arch: Arch)
    ensures forall v :: v in arch.StatusFlags() ==> v.Reg? && IsFlag(v)
  {
  }

  /** Names of flags differ from those of general registers in their length or their third letter. */
  predicate FlagShaped(v: Var) {
    v.Reg? && (|v.name| == 7 || (|v.name| == 4 && v.name[2] != 'R'))
  }

  lemma FlagsAreShaped(v: Var)
    requires IsFlag(v)
    ensures FlagShaped(v)
  {
  }

  lemma GeneralIsNotShaped(arch: Arch)
    ensures forall v :: v in arch.General() ==> v.Reg? && !FlagShaped(v)
    ensures InstructionPointer(arch).Reg? && !FlagShaped(InstructionPointer(arch))
  {
  }

  lemma GeneralIsNoFlag(arch: Arch)
    ensures forall v :: v in arch.General() ==> v.Reg? && !IsFlag(v)
    ensures InstructionPointer(arch).Reg? && !IsFlag(InstructionPointer(arch))
  {
    GeneralIsNotShaped(arch);
    hide IsFlag, FlagShaped;
    forall v | IsFlag(v)
      ensures FlagShaped(v)
    {
      FlagsAreShaped(v);
    }
  }

  /**
   * At a clean exit of code that does not mix destinations every general register has the value the original gives it,
   * whether flags are kept or not; if they are, so has every register.
   */
  lemma GeneralRegistersKept<M>(items: Items, m: Machine<M>, arch: Arch, from: IRAddr, nodes: Nodes,
                                edges: set<DFGEdge>, keepFlags: bool, deleted: set<Key>,
                                regs: Regs, mem: M, n: nat)
    requires Setting(items, arch, from, nodes, edges, keepFlags, deleted)
    requires forall k :: k in items && At(k) in deleted ==> !Mixes(items[k], keepFlags)
    ensures forall k :: k in Optimized(items, deleted) ==> Optimized(items, deleted)[k].WellFormed()
    ensures var c, c' := Run(items, m, arch, Running(from, regs, mem), n),
                         Run(Optimized(items, deleted), m, arch, Running(from, regs, mem), n);
      c.Left? && CleanExit(items, c.at) ==>
        && c'.Left? && c'.at == c.at
        && (forall v :: v in arch.General() ==> Get(c'.regs, v) == Get(c.regs, v))
        && (keepFlags ==> forall v: Var :: v.Reg? ==> Get(c'.regs, v) == Get(c.regs, v))
  {
    hide Setting, Run, CleanExit, Lost, Mixes, Optimized;
    EliminationPreservesRuns(items, m, arch, from, nodes, edges, keepFlags, deleted, regs, mem, n);
    OnlyFlagsAreDropped(arch, keepFlags);
    hide IsFlag;
    forall v | !Droppable(v, keepFlags)
      ensures !Lost(items, deleted, keepFlags, v)
    {
      UnmixedKeepsRegisters(items, deleted, keepFlags, v);
    }
  }

  /** Only unknown instructions have more than one destination, so only they can mix. */
  lemma OnlyUnknownMixes(insn: Insn, keepFlags: bool)
    requires Mixes(insn, keepFlags)
    ensures insn.op == UNK && insn.unkDst.Some? && |insn.unkDst.value| > 1
  {
    var v :| v in insn.Dst() && !Droppable(v, keepFlags);
    assert insn.Dst()[0] != v;
  }
}
