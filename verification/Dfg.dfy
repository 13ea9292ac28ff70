/** The data flow graph of a function: definitions, the uses they reach, and the worklist that finds them. */
module Dfg {
  import opened Wrappers
  import opened Ir
  import opened Code
  import opened Graphs
  import opened Cfg

  /** Nodes: one for values from before the function, one for its end, one per instruction. */
  datatype Key = Entry | Exit | At(ir: IRAddr)

  type DFGEdge = Edge<Key, Var>
  type DFGraph = Graph<Key, Var, Option<Insn>>

  /** Which instruction set each variable last. */
  type State = map<Var, IRAddr>

  datatype Def = Def(v: Var, at: IRAddr)

  /** The state with `at` as the last writer of the listed variables. */
  function Assigned(vs: seq<Var>, at: IRAddr, s: State): (r: State)
    ensures forall v :: v in r <==> v in vs || v in s
    ensures forall v :: v in r ==> r[v] == if v in vs then at else s[v]
  {
    if vs == [] then s
    else
      var n := |vs| - 1;
      assert forall v :: v in vs <==> v in vs[..n] || v == vs[n];
      Assigned(vs[..n], at, s)[vs[n] := at]
  }

  function After(arch: Arch, insn: Insn, s: State): State {
    Assigned(Defs(arch, insn), insn.ir, s)
  }

  function AfterAll(arch: Arch, code: seq<Insn>, s: State): State {
    if code == [] then s
    else After(arch, code[|code| - 1], AfterAll(arch, code[..|code| - 1], s))
  }

  /** What a piece of code defines, whatever came before it. */
  ghost function Local(arch: Arch, code: seq<Insn>): State {
    AfterAll(arch, code, map[])
  }

  lemma {:induction false} AfterAllIsLocal(arch: Arch, code: seq<Insn>, s: State)
    ensures AfterAll(arch, code, s) == s + Local(arch, code)
  {
    hide Assigned;
    if code != [] {
      var init, last := code[..|code| - 1], code[|code| - 1];
      AfterAllIsLocal(arch, init, s);
      AssignedOver(Defs(arch, last), last.ir, s, Local(arch, init));
    }
  }

  lemma AssignedOver(vs: seq<Var>, at: IRAddr, s: State, t: State)
    ensures Assigned(vs, at, s + t) == s + Assigned(vs, at, t)
  {
    hide Assigned;
  }

  lemma AfterAllNext(arch: Arch, code: seq<Insn>, n: nat, s: State)
    requires n < |code|
    ensures AfterAll(arch, code[..n + 1], s) == After(arch, code[n], AfterAll(arch, code[..n], s))
  {
    hide After;
    assert code[..n + 1][..n] == code[..n];
  }

  ghost predicate IsLastWriter(arch: Arch, code: seq<Insn>, v: Var, i: int) {
    0 <= i < |code| && v in Defs(arch, code[i]) && forall j :: i < j < |code| ==> v !in Defs(arch, code[j])
  }

  /** Local names the last writer: the last instruction of the code that defines the variable. */
  lemma {:induction false} LocalIsLastWriter(arch: Arch, code: seq<Insn>, v: Var) returns (i: int)
    ensures v in Local(arch, code) ==> IsLastWriter(arch, code, v, i) && Local(arch, code)[v] == code[i].ir
    ensures v !in Local(arch, code) ==> forall j :: 0 <= j < |code| ==> v !in Defs(arch, code[j])
  {
    i := |code| - 1;
    if code != [] && v !in Defs(arch, code[i]) {
      hide Defs, AfterAll;
      var init := code[..i];
      LocalKeeps(arch, code, v);
      i := LocalIsLastWriter(arch, init, v);
      assert forall j :: 0 <= j < |init| ==> init[j] == code[j];
      assert forall j :: 0 <= j < |code| && j != |init| ==> code[j] == init[j];
    }
  }

  lemma LocalKeeps(arch: Arch, code: seq<Insn>, v: Var)
    requires code != [] && v !in Defs(arch, code[|code| - 1])
    ensures var init := code[..|code| - 1];
      && (v in Local(arch, code) <==> v in Local(arch, init))
      && (v in Local(arch, code) ==> Local(arch, code)[v] == Local(arch, init)[v])
  {
    hide Defs;
  }

  ghost predicate EndsFunction(bb: seq<Insn>) {
    |bb| > 0 && bb[|bb| - 1].Next().None? && bb[|bb| - 1].JccLoc().None?
  }

  function Source(s: State, v: Var): Key {
    if v in s then At(s[v]) else Entry
  }

  /** Edges of one block entered in state `s`: to the uses in it, and at a function end to the exit. */
  ghost predicate UseEdge(arch: Arch, bb: seq<Insn>, s: State, i: nat, e: DFGEdge) {
    i < |bb| && bb[i].WellFormed() && InsnEdge(arch, bb[i], AfterAll(arch, bb[..i], s), e)
  }

  ghost predicate InsnEdge(arch: Arch, insn: Insn, s: State, e: DFGEdge)
    requires insn.WellFormed()
  {
    e.dst == At(insn.ir) && e.name in Uses(arch, insn) && e.src == Source(s, e.name)
  }

  ghost predicate ExitEdge(arch: Arch, bb: seq<Insn>, s: State, e: DFGEdge) {
    && EndsFunction(bb) && e.dst == Exit
    && e.name in AfterAll(arch, bb, s)
    && e.src == At(AfterAll(arch, bb, s)[e.name])
  }

  ghost predicate BlockEdge(arch: Arch, bb: seq<Insn>, s: State, e: DFGEdge) {
    (exists i: nat :: UseEdge(arch, bb, s, i, e)) || ExitEdge(arch, bb, s, e)
  }

  /** The state in which a walk enters its last block. */
  ghost function PathState(items: Items, arch: Arch, p: seq<IRAddr>): State {
    if |p| <= 1 then map[]
    else AfterAll(arch, BlockOf(items, p[|p| - 2]), PathState(items, arch, p[..|p| - 1]))
  }

  ghost function BlockOf(items: Items, at: IRAddr): seq<Insn> {
    match BlockAt(items, at)
    case Ok(bb) => bb
    case Err(_) => []
  }

  /** Some walk from the function entry carries the source's value of the variable to the destination. */
  ghost predicate FlowEdge(items: Items, arch: Arch, from: IRAddr, e: DFGEdge) {
    exists p :: IsPath(items, from, p) &&
      BlockEdge(arch, BlockOf(items, p[|p| - 1]), PathState(items, arch, p), e)
  }

  /** Edges of a block for a definition that is carried into it. */
  ghost predicate PassEdge(arch: Arch, bb: seq<Insn>, d: Def, e: DFGEdge) {
    && e.src == At(d.at) && e.name == d.v
    && ((exists i: nat :: PassUse(arch, bb, d, i, e)) ||
        (EndsFunction(bb) && e.dst == Exit && d.v !in Local(arch, bb)))
  }

  ghost predicate PassUse(arch: Arch, bb: seq<Insn>, d: Def, i: nat, e: DFGEdge) {
    && i < |bb| && e.dst == At(bb[i].ir)
    && bb[i].WellFormed() && d.v in Uses(arch, bb[i])
    && d.v !in Local(arch, bb[..i])
  }

  ghost predicate Holds(s: State, d: Def) {
    d.v in s && s[d.v] == d.at
  }

  /** An edge comes from a definition in the block itself or from one carried into it. */
  lemma EdgeSplits(arch: Arch, bb: seq<Insn>, s: State, e: DFGEdge)
    requires BlockEdge(arch, bb, s, e) && e.src.At?
    ensures BlockEdge(arch, bb, map[], e) || PassEdge(arch, bb, Def(e.name, e.src.ir), e)
    ensures !BlockEdge(arch, bb, map[], e) ==> Holds(s, Def(e.name, e.src.ir))
  {
    var d := Def(e.name, e.src.ir);
    if ExitEdge(arch, bb, s, e) {
      AfterAllIsLocal(arch, bb, s);
    } else {
      var i: nat :| UseEdge(arch, bb, s, i, e);
      AfterAllIsLocal(arch, bb[..i], s);
      if e.name in Local(arch, bb[..i]) {
        assert UseEdge(arch, bb, map[], i, e);
      } else {
        assert PassUse(arch, bb, d, i, e);
      }
    }
  }

  /** Conversely, entering a block in a state gives the edges of every definition the state holds. */
  lemma EdgeJoins(arch: Arch, bb: seq<Insn>, s: State, e: DFGEdge)
    requires e.src.At?
    requires BlockEdge(arch, bb, map[], e) ||
      (Holds(s, Def(e.name, e.src.ir)) && PassEdge(arch, bb, Def(e.name, e.src.ir), e))
    ensures BlockEdge(arch, bb, s, e)
  {
    AfterAllIsLocal(arch, bb, s);
    if i: nat :| UseEdge(arch, bb, map[], i, e) {
      AfterAllIsLocal(arch, bb[..i], s);
      assert UseEdge(arch, bb, s, i, e);
    } else if !ExitEdge(arch, bb, map[], e) {
      if i: nat :| PassUse(arch, bb, Def(e.name, e.src.ir), i, e) {
        AfterAllIsLocal(arch, bb[..i], s);
        assert UseEdge(arch, bb, s, i, e);
      }
    }
  }

  // ---------- The worklist ----------

  datatype Todo = Todo(at: IRAddr, state: State)

  /** The state belongs to some walk to the block. */
  ghost predicate Arrives(items: Items, arch: Arch, from: IRAddr, t: Todo) {
    exists p :: IsPath(items, from, p) && p[|p| - 1] == t.at && PathState(items, arch, p) == t.state
  }

  /** Variable and definition pairs of a state. */
  ghost predicate Recorded(input: set<Def>, s: State) {
    forall v :: v in s ==> Def(v, s[v]) in input
  }

  /** A definition carried into a block has its edges, and is recorded unless the block kills it. */
  ghost predicate Handled(items: Items, arch: Arch, edges: set<DFGEdge>, input: map<IRAddr, set<Def>>,
                          at: IRAddr, d: Def) {
    && (forall e :: PassEdge(arch, BlockOf(items, at), d, e) ==> e in edges)
    && (d.v !in Local(arch, BlockOf(items, at)) ==> at in input && d in input[at])
  }

  ghost predicate Waits(stack: seq<Todo>, at: IRAddr, d: Def) {
    exists t :: t in stack && t.at == at && Holds(t.state, d)
  }

  /** A processed block has the edges of its own definitions, and these are recorded. */
  ghost predicate Processed(items: Items, arch: Arch, edges: set<DFGEdge>, input: map<IRAddr, set<Def>>, at: IRAddr) {
    && at in input
    && Recorded(input[at], Local(arch, BlockOf(items, at)))
    && (forall e :: BlockEdge(arch, BlockOf(items, at), map[], e) && e.src.At? ==> e in edges)
  }

  ghost predicate Sound(items: Items, arch: Arch, from: IRAddr, edges: set<DFGEdge>, stack: seq<Todo>) {
    && (forall e :: e in edges ==> FlowEdge(items, arch, from, e))
    && (forall t :: t in stack ==> Arrives(items, arch, from, t))
  }

  ghost predicate Complete(items: Items, arch: Arch, from: IRAddr, edges: set<DFGEdge>,
                           input: map<IRAddr, set<Def>>, stack: seq<Todo>) {
    && (Todo(from, map[]) in stack ||
        (from in input && forall e :: BlockEdge(arch, BlockOf(items, from), map[], e) ==> e in edges))
    && (forall x :: x in input ==> Processed(items, arch, edges, input, x))
    && (forall x, y, d :: x in input && d in input[x] && y in SuccBlocks(items, x) ==>
          Handled(items, arch, edges, input, y, d) || Waits(stack, y, d))
    && (forall x, y, d :: x in input && d in input[x] && y in SuccBlocks(items, x) ==>
          y in input || Waits(stack, y, d))
  }

  /** What processing block `bb` in state `s` adds. */
  ghost function NextInput(arch: Arch, input: map<IRAddr, set<Def>>, at: IRAddr, bb: seq<Insn>,
                           s: State): map<IRAddr, set<Def>> {
    input[at := InputOf(input, at) + Pairs(AfterAll(arch, bb, s))]
  }

  ghost function InputOf(input: map<IRAddr, set<Def>>, at: IRAddr): set<Def> {
    if at in input then input[at] else {}
  }

  ghost function Pairs(s: State): (r: set<Def>)
    ensures forall d :: d in r <==> Holds(s, d)
  {
    set v | v in s :: Def(v, s[v])
  }

  ghost function NextStack(rest: seq<Todo>, last: Insn, out: State): (r: seq<Todo>)
    ensures forall t :: t in r <==> t in rest || (t.at in last.Successors() && t.state == out)
  {
    var some := if last.JccLoc().Some? then rest + [Todo(last.JccLoc().value, out)] else rest;
    if last.Next().Some? then some + [Todo(last.Next().value, out)] else some
  }

  lemma ArrivesFlow(items: Items, arch: Arch, from: IRAddr, t: Todo, e: DFGEdge)
    requires Arrives(items, arch, from, t) && BlockEdge(arch, BlockOf(items, t.at), t.state, e)
    ensures FlowEdge(items, arch, from, e)
  {
    hide BlockEdge;
  }

  lemma ArrivesNext(items: Items, arch: Arch, from: IRAddr, t: Todo, y: IRAddr)
    requires Arrives(items, arch, from, t) && y in SuccBlocks(items, t.at)
    ensures Arrives(items, arch, from, Todo(y, AfterAll(arch, BlockOf(items, t.at), t.state)))
  {
    var p :| IsPath(items, from, p) && p[|p| - 1] == t.at && PathState(items, arch, p) == t.state;
    PathNext(items, arch, from, p, y);
  }

  lemma PathNext(items: Items, arch: Arch, from: IRAddr, p: seq<IRAddr>, y: IRAddr)
    requires IsPath(items, from, p) && y in SuccBlocks(items, p[|p| - 1])
    ensures IsPath(items, from, p + [y])
    ensures PathState(items, arch, p + [y]) == AfterAll(arch, BlockOf(items, p[|p| - 1]), PathState(items, arch, p))
  {
    hide AfterAll, BlockOf, SuccBlocks;
    var q := p + [y];
    assert q[..|q| - 1] == p;
    assert q[|q| - 2] == p[|p| - 1];
  }

  /** The stack after a turn holds nothing but what it held and the block's successors. */
  ghost predicate Stacked(items: Items, arch: Arch, stack: seq<Todo>, stack': seq<Todo>)
    requires stack != []
  {
    var t := stack[|stack| - 1];
    forall u :: u in stack' ==>
      (u in stack ||
       (u.at in SuccBlocks(items, t.at) && u.state == AfterAll(arch, BlockOf(items, t.at), t.state)))
  }

  /** The step of the worklist keeps it sound. */
  lemma SoundStep(items: Items, arch: Arch, from: IRAddr, edges: set<DFGEdge>, stack: seq<Todo>,
                  edges': set<DFGEdge>, stack': seq<Todo>)
    requires stack != [] && Sound(items, arch, from, edges, stack)
    requires var t := stack[|stack| - 1];
      forall e :: e in edges' ==> e in edges || BlockEdge(arch, BlockOf(items, t.at), t.state, e)
    requires Stacked(items, arch, stack, stack')
    ensures Sound(items, arch, from, edges', stack')
  {
    hide Arrives, FlowEdge, BlockEdge, BlockOf, AfterAll, SuccBlocks;
    var t := stack[|stack| - 1];
    assert t in stack;
    forall e | e in edges' && e !in edges
      ensures FlowEdge(items, arch, from, e)
    {
      ArrivesFlow(items, arch, from, t, e);
    }
    forall u | u in stack' && u !in stack
      ensures Arrives(items, arch, from, u)
    {
      ArrivesNext(items, arch, from, t, u.at);
    }
  }

  ghost predicate Grows(input: map<IRAddr, set<Def>>, input': map<IRAddr, set<Def>>) {
    forall x :: x in input ==> x in input' && input[x] <= input'[x]
  }

  lemma HandledGrows(items: Items, arch: Arch, edges: set<DFGEdge>, input: map<IRAddr, set<Def>>,
                     edges': set<DFGEdge>, input': map<IRAddr, set<Def>>, at: IRAddr, d: Def)
    requires edges <= edges' && Grows(input, input')
    requires Handled(items, arch, edges, input, at, d)
    ensures Handled(items, arch, edges', input', at, d)
  {
  }

  /** Processing a block in a state handles every definition of the state. */
  lemma TopHandled(items: Items, arch: Arch, edges: set<DFGEdge>, input: map<IRAddr, set<Def>>, t: Todo, d: Def)
    requires forall e :: BlockEdge(arch, BlockOf(items, t.at), t.state, e) ==> e in edges
    requires t.at in input && Recorded(input[t.at], AfterAll(arch, BlockOf(items, t.at), t.state))
    requires Holds(t.state, d)
    ensures Handled(items, arch, edges, input, t.at, d)
  {
    var bb := BlockOf(items, t.at);
    forall e | PassEdge(arch, bb, d, e)
      ensures e in edges
    {
      EdgeJoins(arch, bb, t.state, e);
    }
    AfterAllIsLocal(arch, bb, t.state);
  }

  lemma TopProcessed(items: Items, arch: Arch, edges: set<DFGEdge>, input: map<IRAddr, set<Def>>, t: Todo)
    requires forall e :: BlockEdge(arch, BlockOf(items, t.at), t.state, e) ==> e in edges
    requires t.at in input && Recorded(input[t.at], AfterAll(arch, BlockOf(items, t.at), t.state))
    ensures Processed(items, arch, edges, input, t.at)
  {
    var bb := BlockOf(items, t.at);
    forall e | BlockEdge(arch, bb, map[], e) && e.src.At?
      ensures e in edges
    {
      EdgeJoins(arch, bb, t.state, e);
    }
    AfterAllIsLocal(arch, bb, t.state);
  }

  /** The step of the worklist keeps it complete: successors wait whenever something new is recorded. */
  lemma CompleteStep(items: Items, arch: Arch, from: IRAddr,
                     edges: set<DFGEdge>, input: map<IRAddr, set<Def>>, stack: seq<Todo>,
                     edges': set<DFGEdge>, stack': seq<Todo>)
    requires stack != [] && Complete(items, arch, from, edges, input, stack)
    requires edges <= edges'
    requires var t := stack[|stack| - 1]; var bb := BlockOf(items, t.at); var out := AfterAll(arch, bb, t.state);
      && (forall e :: BlockEdge(arch, bb, t.state, e) ==> e in edges')
      && (forall u :: u in stack ==> u in stack' || u == t)
      && (forall y :: y in SuccBlocks(items, t.at) ==>
            Todo(y, out) in stack' || Pairs(out) <= InputOf(input, t.at))
    ensures var t := stack[|stack| - 1];
      Complete(items, arch, from, edges', NextInput(arch, input, t.at, BlockOf(items, t.at), t.state), stack')
  {
    hide BlockEdge, BlockOf, AfterAll, SuccBlocks, Local, Handled;
    var t := stack[|stack| - 1];
    var out := AfterAll(arch, BlockOf(items, t.at), t.state);
    var input' := NextInput(arch, input, t.at, BlockOf(items, t.at), t.state);
    assert Grows(input, input');
    forall x | x in input'
      ensures Processed(items, arch, edges', input', x)
    {
      if x == t.at { TopProcessed(items, arch, edges', input', t); }
    }
    forall x, y, d | x in input' && d in input'[x] && y in SuccBlocks(items, x)
      ensures Handled(items, arch, edges', input', y, d) || Waits(stack', y, d)
      ensures y in input' || Waits(stack', y, d)
    {
      PendingStep(items, arch, from, edges, input, stack, edges', stack', x, y, d);
    }
  }

  lemma PendingStep(items: Items, arch: Arch, from: IRAddr,
                    edges: set<DFGEdge>, input: map<IRAddr, set<Def>>, stack: seq<Todo>,
                    edges': set<DFGEdge>, stack': seq<Todo>, x: IRAddr, y: IRAddr, d: Def)
    requires stack != [] && Complete(items, arch, from, edges, input, stack)
    requires edges <= edges'
    requires var t := stack[|stack| - 1]; var bb := BlockOf(items, t.at); var out := AfterAll(arch, bb, t.state);
      && (forall e :: BlockEdge(arch, bb, t.state, e) ==> e in edges')
      && (forall u :: u in stack ==> u in stack' || u == t)
      && (forall y :: y in SuccBlocks(items, t.at) ==>
            Todo(y, out) in stack' || Pairs(out) <= InputOf(input, t.at))
    requires var t := stack[|stack| - 1];
      var input' := NextInput(arch, input, t.at, BlockOf(items, t.at), t.state);
      x in input' && d in input'[x] && y in SuccBlocks(items, x)
    ensures var t := stack[|stack| - 1];
      var input' := NextInput(arch, input, t.at, BlockOf(items, t.at), t.state);
      && (Handled(items, arch, edges', input', y, d) || Waits(stack', y, d))
      && (y in input' || Waits(stack', y, d))
  {
    hide BlockEdge, BlockOf, AfterAll, SuccBlocks, Local, Handled, Processed;
    var t := stack[|stack| - 1];
    var out := AfterAll(arch, BlockOf(items, t.at), t.state);
    var input' := NextInput(arch, input, t.at, BlockOf(items, t.at), t.state);
    if x in input && d in input[x] {
      if Handled(items, arch, edges, input, y, d) {
        HandledGrows(items, arch, edges, input, edges', input', y, d);
      }
      if u :| u in stack && u.at == y && Holds(u.state, d) {
        if u == t { TopHandled(items, arch, edges', input', t, d); }
      }
    } else {
      assert x == t.at && Holds(out, d);
      assert Todo(y, out) in stack';
    }
  }

  /** The entry block sets a variable; only then does the worklist get past it. */
  ghost predicate EntryDefines(items: Items, arch: Arch, from: IRAddr) {
    Local(arch, BlockOf(items, from)) != map[]
  }

  lemma {:induction false} PathHandled(items: Items, arch: Arch, from: IRAddr,
                                       edges: set<DFGEdge>, input: map<IRAddr, set<Def>>, p: seq<IRAddr>)
    requires Complete(items, arch, from, edges, input, []) && EntryDefines(items, arch, from)
    requires IsPath(items, from, p)
    ensures p[|p| - 1] in input
    ensures |p| > 1 ==> PathState(items, arch, p) != map[]
    ensures forall d :: Holds(PathState(items, arch, p), d) ==>
      Handled(items, arch, edges, input, p[|p| - 1], d)
  {
    hide BlockEdge, BlockOf, AfterAll, SuccBlocks;
    if |p| > 1 {
      var q := p[..|p| - 1];
      var x, y := q[|q| - 1], p[|p| - 1];
      PathHandled(items, arch, from, edges, input, q);
      var s, s' := PathState(items, arch, q), PathState(items, arch, p);
      var bb := BlockOf(items, x);
      AfterAllIsLocal(arch, bb, s);
      forall d | Holds(s', d)
        ensures d in input[x]
      {
        if d.v !in Local(arch, bb) { assert Holds(s, d); }
      }
      assert s' != map[] by {
        if |q| == 1 {
          assert Local(arch, bb) != map[];
        }
        assert s' == s + Local(arch, bb);
        var v :| v in s || v in Local(arch, bb);
        assert v in s';
      }
      var v :| v in s';
      assert Def(v, s'[v]) in input[x];
    }
  }

  /** When nothing waits, every value flow of the function is an edge. */
  lemma AllFlowsFound(items: Items, arch: Arch, from: IRAddr, edges: set<DFGEdge>,
                      input: map<IRAddr, set<Def>>, e: DFGEdge)
    requires Complete(items, arch, from, edges, input, []) && EntryDefines(items, arch, from)
    requires FlowEdge(items, arch, from, e) && e.src.At?
    ensures e in edges
  {
    hide SuccBlocks, BlockEdge, PassEdge, BlockOf, PathState, Local;
    var p :| IsPath(items, from, p) &&
      BlockEdge(arch, BlockOf(items, p[|p| - 1]), PathState(items, arch, p), e);
    PathHandled(items, arch, from, edges, input, p);
    EdgeSplits(arch, BlockOf(items, p[|p| - 1]), PathState(items, arch, p), e);
  }

  // ---------- Why the worklist ends ----------

  datatype Cell = Cell(at: IRAddr, d: Def)

  /** All pairs of a variable and an instruction that defines it. */
  ghost function Known(items: Items, arch: Arch): set<Def> {
    set k, v | k in items && v in Defs(arch, items[k]) :: Def(v, k)
  }

  /** What could still be recorded. */
  ghost function Missing(items: Items, arch: Arch, blocks: set<IRAddr>, input: map<IRAddr, set<Def>>): set<Cell> {
    set x, d | x in blocks && d in Known(items, arch) && d !in InputOf(input, x) :: Cell(x, d)
  }

  lemma NewShrinks(items: Items, arch: Arch, blocks: set<IRAddr>, input: map<IRAddr, set<Def>>, at: IRAddr, s: State)
    requires at in blocks && Pairs(s) <= Known(items, arch)
    ensures var input' := input[at := InputOf(input, at) + Pairs(s)];
      if Pairs(s) <= InputOf(input, at)
      then Missing(items, arch, blocks, input') == Missing(items, arch, blocks, input)
      else |Missing(items, arch, blocks, input')| < |Missing(items, arch, blocks, input)|
  {
    hide Known, Pairs, Missing;
    var input' := input[at := InputOf(input, at) + Pairs(s)];
    var less, more := Missing(items, arch, blocks, input'), Missing(items, arch, blocks, input);
    forall c
      ensures c in less <==> c in more && !(c.at == at && c.d in Pairs(s))
    {
      MissingHas(items, arch, blocks, input, c);
      MissingHas(items, arch, blocks, input', c);
    }
    if Pairs(s) <= InputOf(input, at) {
      forall c | c in more
        ensures c in less
      {
        MissingHas(items, arch, blocks, input, c);
      }
      assert less == more;
    } else {
      var d :| d in Pairs(s) && d !in InputOf(input, at);
      MissingHas(items, arch, blocks, input, Cell(at, d));
      SubsetCount(less, more - {Cell(at, d)});
    }
  }

  lemma MissingHas(items: Items, arch: Arch, blocks: set<IRAddr>, input: map<IRAddr, set<Def>>, c: Cell)
    ensures c in Missing(items, arch, blocks, input) <==>
      c.at in blocks && c.d in Known(items, arch) && c.d !in InputOf(input, c.at)
  {
    hide Known;
    assert c == Cell(c.at, c.d);
  }

  lemma {:induction false} AfterAllKnown(items: Items, arch: Arch, code: seq<Insn>, s: State)
    requires forall i :: 0 <= i < |code| ==> code[i].ir in items && items[code[i].ir] == code[i]
    requires Pairs(s) <= Known(items, arch)
    ensures Pairs(AfterAll(arch, code, s)) <= Known(items, arch)
  {
    if code != [] {
      var init := code[..|code| - 1];
      AfterAllKnown(items, arch, init, s);
      var out, last := AfterAll(arch, init, s), code[|code| - 1];
      forall d | d in Pairs(AfterAll(arch, code, s))
        ensures d in Known(items, arch)
      {
        if d.v !in Defs(arch, last) { assert d in Pairs(out); }
      }
    }
  }

  // ---------- The state of the worklist ----------

  /** The blocks of a control flow graph: all present, and closed under successors. */
  ghost predicate IsBlocks(items: Items, from: IRAddr, blocks: map<IRAddr, seq<Insn>>) {
    && (forall x :: x in blocks <==> Reachable(items, from, x))
    && (forall x :: x in blocks ==> BlockAt(items, x) == Ok(blocks[x]) && IsBlock(items, x, blocks[x]))
    && (forall x, y :: x in blocks && y in SuccBlocks(items, x) ==> y in blocks)
  }

  lemma CFGIsBlocks(items: Items, from: IRAddr, blocks: map<IRAddr, seq<Insn>>, edges: set<CFGEdge>)
    requires WellFormedCode(items) && Resolves(items, from)
    requires IsCFG(items, from, blocks, edges)
    ensures IsBlocks(items, from, blocks)
  {
    hide BlockAt;
    forall x | x in blocks
      ensures IsBlock(items, x, blocks[x])
    {
      var p :| IsPath(items, from, p) && p[|p| - 1] == x;
      PathResolves(items, from, p);
      BlockShape(items, x);
    }
    forall x, y | x in blocks && y in SuccBlocks(items, x)
      ensures y in blocks
    {
      assert Edge(x, y, None) in edges;
    }
  }

  /** Nodes of instructions hold the stored instruction. */
  ghost predicate IsNodes(items: Items, nodes: map<Key, Option<Insn>>) {
    && Entry in nodes && Exit in nodes && nodes[Entry] == None && nodes[Exit] == None
    && (forall k :: At(k) in nodes ==> k in items && nodes[At(k)] == Some(items[k]))
  }

  ghost predicate KnowsState(nodes: map<Key, Option<Insn>>, s: State) {
    forall v :: v in s ==> At(s[v]) in nodes
  }

  ghost predicate InBlock(bb: seq<Insn>, k: IRAddr) {
    InFront(bb, |bb|, k)
  }

  ghost predicate InFront(bb: seq<Insn>, n: nat, k: IRAddr)
    requires n <= |bb|
  {
    exists i :: 0 <= i < n && bb[i].ir == k
  }

  ghost predicate OnBlocks(items: Items, arch: Arch, blocks: map<IRAddr, seq<Insn>>,
                           input: map<IRAddr, set<Def>>, stack: seq<Todo>) {
    && (forall x :: x in input ==> x in blocks)
    && (forall t :: t in stack ==> t.at in blocks && Pairs(t.state) <= Known(items, arch))
  }

  /** The instruction nodes are those of the blocks processed so far. */
  ghost predicate NodesOf(items: Items, blocks: map<IRAddr, seq<Insn>>, input: map<IRAddr, set<Def>>,
                          stack: seq<Todo>, nodes: map<Key, Option<Insn>>) {
    && IsNodes(items, nodes)
    && (forall k :: At(k) in nodes <==> exists x :: x in input && x in blocks && InBlock(blocks[x], k))
    && (forall t :: t in stack ==> KnowsState(nodes, t.state))
  }

  /** If the entry block defines nothing, the worklist stops behind it. */
  ghost predicate StopsAtEntry(items: Items, arch: Arch, from: IRAddr, input: map<IRAddr, set<Def>>, stack: seq<Todo>) {
    EntryDefines(items, arch, from)
    || (stack == [Todo(from, map[])] && input == map[])
    || (stack == [] && input.Keys == {from})
  }

  ghost predicate Flowing(items: Items, arch: Arch, from: IRAddr, blocks: map<IRAddr, seq<Insn>>, edges: set<DFGEdge>,
                          input: map<IRAddr, set<Def>>, stack: seq<Todo>, nodes: map<Key, Option<Insn>>) {
    && Sound(items, arch, from, edges, stack)
    && Complete(items, arch, from, edges, input, stack)
    && OnBlocks(items, arch, blocks, input, stack)
    && NodesOf(items, blocks, input, stack, nodes)
    && StopsAtEntry(items, arch, from, input, stack)
  }

  lemma OnBlocksStep(items: Items, arch: Arch, from: IRAddr, blocks: map<IRAddr, seq<Insn>>,
                     input: map<IRAddr, set<Def>>, stack: seq<Todo>, stack': seq<Todo>)
    requires IsBlocks(items, from, blocks) && stack != [] && OnBlocks(items, arch, blocks, input, stack)
    requires Stacked(items, arch, stack, stack')
    ensures var t := stack[|stack| - 1];
      && t.at in blocks && BlockOf(items, t.at) == blocks[t.at]
      && Pairs(AfterAll(arch, blocks[t.at], t.state)) <= Known(items, arch)
      && OnBlocks(items, arch, blocks, NextInput(arch, input, t.at, blocks[t.at], t.state), stack')
  {
    hide AfterAll, Pairs, Known, SuccBlocks, Reachable;
    var t := stack[|stack| - 1];
    assert t in stack;
    AfterAllKnown(items, arch, blocks[t.at], t.state);
  }

  lemma NodesOfStep(items: Items, blocks: map<IRAddr, seq<Insn>>,
                    input: map<IRAddr, set<Def>>, stack: seq<Todo>, nodes: map<Key, Option<Insn>>,
                    at: IRAddr, out: State,
                    input': map<IRAddr, set<Def>>, stack': seq<Todo>, nodes': map<Key, Option<Insn>>)
    requires NodesOf(items, blocks, input, stack, nodes) && at in blocks
    requires input'.Keys == input.Keys + {at}
    requires IsNodes(items, nodes') && KnowsState(nodes', out)
    requires forall k :: k in nodes' <==> k in nodes || (k.At? && InBlock(blocks[at], k.ir))
    requires forall u :: u in stack' ==> u in stack || u.state == out
    ensures NodesOf(items, blocks, input', stack', nodes')
  {
    hide InBlock;
    forall k
      ensures At(k) in nodes' <==> exists x :: x in input' && x in blocks && InBlock(blocks[x], k)
    {
      if x :| x in input' && x in blocks && InBlock(blocks[x], k) {
        assert x == at || x in input;
      }
      if At(k) in nodes' && At(k) !in nodes {
        assert at in input' && at in blocks && InBlock(blocks[at], k);
      }
      if At(k) in nodes {
        var x :| x in input && x in blocks && InBlock(blocks[x], k);
        assert x in input';
      }
    }
  }

  /** What one turn does: the edges of the block, its nodes, and the new stack. */
  ghost predicate IsTurn(arch: Arch, bb: seq<Insn>, t: Todo, edges: set<DFGEdge>, input: map<IRAddr, set<Def>>,
                         stack: seq<Todo>, nodes: map<Key, Option<Insn>>,
                         edges': set<DFGEdge>, stack': seq<Todo>, nodes': map<Key, Option<Insn>>)
    requires |bb| > 0 && stack != []
  {
    var out := AfterAll(arch, bb, t.state);
    && (forall e :: e in edges' <==> e in edges || BlockEdge(arch, bb, t.state, e))
    && (forall k :: k in nodes' <==> k in nodes || (k.At? && InBlock(bb, k.ir)))
    && KnowsState(nodes', out)
    && stack' == (if Pairs(out) <= InputOf(input, t.at) then stack[..|stack| - 1]
                  else NextStack(stack[..|stack| - 1], bb[|bb| - 1], out))
  }

  lemma TurnStacks(items: Items, arch: Arch, blocks: map<IRAddr, seq<Insn>>, edges: set<DFGEdge>,
                   input: map<IRAddr, set<Def>>, stack: seq<Todo>, nodes: map<Key, Option<Insn>>,
                   edges': set<DFGEdge>, stack': seq<Todo>, nodes': map<Key, Option<Insn>>)
    requires stack != []
    requires var t := stack[|stack| - 1];
      && t.at in blocks && BlockAt(items, t.at) == Ok(blocks[t.at]) && |blocks[t.at]| > 0
      && IsTurn(arch, blocks[t.at], t, edges, input, stack, nodes, edges', stack', nodes')
    ensures Stacked(items, arch, stack, stack')
    ensures var t := stack[|stack| - 1]; var out := AfterAll(arch, blocks[t.at], t.state);
      && (forall u :: u in stack ==> u in stack' || u == t)
      && (forall u :: u in stack' ==> u in stack || u.state == out)
      && (forall y :: y in SuccBlocks(items, t.at) ==>
            Todo(y, out) in stack' || Pairs(out) <= InputOf(input, t.at))
  {
    hide AfterAll, BlockAt, NextStack, InBlock, Pairs, KnowsState, InputOf;
    var t := stack[|stack| - 1];
    assert forall u :: u in stack ==> u in stack[..|stack| - 1] || u == t;
  }

  /** One turn of the worklist keeps its state and comes closer to the end. */
  lemma FlowingStep(items: Items, arch: Arch, from: IRAddr, blocks: map<IRAddr, seq<Insn>>, edges: set<DFGEdge>,
                    input: map<IRAddr, set<Def>>, stack: seq<Todo>, nodes: map<Key, Option<Insn>>,
                    edges': set<DFGEdge>, stack': seq<Todo>, nodes': map<Key, Option<Insn>>)
    requires IsBlocks(items, from, blocks) && stack != []
    requires Flowing(items, arch, from, blocks, edges, input, stack, nodes)
    requires var t := stack[|stack| - 1];
      t.at in blocks && |blocks[t.at]| > 0 &&
        IsTurn(arch, blocks[t.at], t, edges, input, stack, nodes, edges', stack', nodes')
    requires IsNodes(items, nodes')
    ensures var t := stack[|stack| - 1];
      var input' := NextInput(arch, input, t.at, blocks[t.at], t.state);
      && Flowing(items, arch, from, blocks, edges', input', stack', nodes')
      && (|Missing(items, arch, blocks.Keys, input')| < |Missing(items, arch, blocks.Keys, input)|
          || (|Missing(items, arch, blocks.Keys, input')| == |Missing(items, arch, blocks.Keys, input)|
              && |stack'| < |stack|))
  {
    hide AfterAll, BlockAt, NextStack, InBlock, Pairs, KnowsState, InputOf, Sound, Complete, OnBlocks, NodesOf,
      StopsAtEntry, Known, Missing, Reachable, SuccBlocks, IsTurn, Stacked;
    var t := stack[|stack| - 1];
    var bb := blocks[t.at];
    TurnStacks(items, arch, blocks, edges, input, stack, nodes, edges', stack', nodes');
    OnBlocksStep(items, arch, from, blocks, input, stack, stack');
    TurnEdges(arch, bb, t, edges, input, stack, nodes, edges', stack', nodes');
    SoundStep(items, arch, from, edges, stack, edges', stack');
    CompleteStep(items, arch, from, edges, input, stack, edges', stack');
    NewShrinks(items, arch, blocks.Keys, input, t.at, AfterAll(arch, bb, t.state));
    NodesOfStep(items, blocks, input, stack, nodes, t.at, AfterAll(arch, bb, t.state),
                NextInput(arch, input, t.at, bb, t.state), stack', nodes');
    StopsStep(items, arch, from, bb, edges, input, stack, nodes, edges', stack', nodes');
  }

  lemma TurnEdges(arch: Arch, bb: seq<Insn>, t: Todo, edges: set<DFGEdge>, input: map<IRAddr, set<Def>>,
                  stack: seq<Todo>, nodes: map<Key, Option<Insn>>,
                  edges': set<DFGEdge>, stack': seq<Todo>, nodes': map<Key, Option<Insn>>)
    requires |bb| > 0 && stack != []
    requires IsTurn(arch, bb, t, edges, input, stack, nodes, edges', stack', nodes')
    ensures edges <= edges'
    ensures forall e :: e in edges' <==> e in edges || BlockEdge(arch, bb, t.state, e)
    ensures forall k :: k in nodes' <==> k in nodes || (k.At? && InBlock(bb, k.ir))
    ensures KnowsState(nodes', AfterAll(arch, bb, t.state))
    ensures Pairs(AfterAll(arch, bb, t.state)) <= InputOf(input, t.at) ==> stack' == stack[..|stack| - 1]
  {
    hide BlockEdge, InBlock, NextStack, AfterAll, KnowsState;
  }

  lemma StopsStep(items: Items, arch: Arch, from: IRAddr, bb: seq<Insn>, edges: set<DFGEdge>,
                  input: map<IRAddr, set<Def>>, stack: seq<Todo>, nodes: map<Key, Option<Insn>>,
                  edges': set<DFGEdge>, stack': seq<Todo>, nodes': map<Key, Option<Insn>>)
    requires |bb| > 0 && stack != [] && StopsAtEntry(items, arch, from, input, stack)
    requires bb == BlockOf(items, stack[|stack| - 1].at)
    requires IsTurn(arch, bb, stack[|stack| - 1], edges, input, stack, nodes, edges', stack', nodes')
    ensures var t := stack[|stack| - 1];
      StopsAtEntry(items, arch, from, NextInput(arch, input, t.at, bb, t.state), stack')
  {
    hide AfterAll, BlockOf, NextStack, BlockEdge;
  }

  // ---------- The result ----------

  /** The exceptions the search can end in: a missing block, or an unknown instruction whose sources are not listed. */
  datatype DFGError = Lookup(fault: Fault) | NoSources(at: IRAddr)

  /** Instructions the search looks at: those of the function, or of its entry block if that sets no variable. */
  ghost predicate Searched(items: Items, arch: Arch, from: IRAddr, k: IRAddr) {
    if EntryDefines(items, arch, from) then InFunction(items, from, k) else InBlock(BlockOf(items, from), k)
  }

  /** No instruction looked at lacks its sources. */
  ghost predicate Listed(nodes: map<Key, Option<Insn>>) {
    forall k :: k in nodes && nodes[k].Some? ==> !nodes[k].value.LacksSources()
  }

  lemma ListedIsSearched(items: Items, arch: Arch, from: IRAddr, nodes: map<Key, Option<Insn>>, edges: set<DFGEdge>)
    requires IsDFG(items, arch, from, nodes, edges) && Listed(nodes)
    ensures forall k :: k in items && Searched(items, arch, from, k) ==> !items[k].LacksSources()
  {
    hide BlockOf, InFunction, InBlock, EntryDefines, FlowEdge, BlockEdge;
    forall k | k in items && Searched(items, arch, from, k)
      ensures !items[k].LacksSources()
    {
      assert At(k) in nodes;
    }
  }

  ghost predicate InFunction(items: Items, from: IRAddr, k: IRAddr) {
    exists x :: Reachable(items, from, x) && InBlock(BlockOf(items, x), k)
  }

  /**
   * The data flow graph. Every edge is a value flow of the function, and all flows into the entry
   * block as the function starts are edges. If the entry block sets a variable, every instruction is
   * a node and every flow from an instruction is an edge; if it sets none, only its own instructions
   * are nodes.
   */
  ghost predicate IsDFG(items: Items, arch: Arch, from: IRAddr, nodes: map<Key, Option<Insn>>, edges: set<DFGEdge>) {
    && IsNodes(items, nodes)
    && (forall k :: At(k) in nodes ==> InFunction(items, from, k))
    && (forall e :: e in edges ==> FlowEdge(items, arch, from, e))
    && (forall e :: BlockEdge(arch, BlockOf(items, from), map[], e) ==> e in edges)
    && (EntryDefines(items, arch, from) ==>
          && (forall k :: InFunction(items, from, k) ==> At(k) in nodes)
          && (forall e :: FlowEdge(items, arch, from, e) && e.src.At? ==> e in edges))
    && (!EntryDefines(items, arch, from) ==>
          forall k :: At(k) in nodes <==> InBlock(BlockOf(items, from), k))
  }

  lemma EntryStarts(items: Items, arch: Arch, from: IRAddr, blocks: map<IRAddr, seq<Insn>>)
    requires IsBlocks(items, from, blocks)
    ensures Flowing(items, arch, from, blocks, {}, map[], [Todo(from, map[])], map[Entry := None, Exit := None])
  {
    hide BlockAt, SuccBlocks, Known, BlockEdge, BlockOf;
    ReachableStart(items, from);
    assert IsPath(items, from, [from]) && PathState(items, arch, [from]) == map[];
    assert Arrives(items, arch, from, Todo(from, map[]));
  }

  /** When the stack is empty, the graph is the data flow graph. */
  lemma FlowingDone(items: Items, arch: Arch, from: IRAddr, blocks: map<IRAddr, seq<Insn>>, edges: set<DFGEdge>,
                    input: map<IRAddr, set<Def>>, nodes: map<Key, Option<Insn>>)
    requires IsBlocks(items, from, blocks)
    requires Flowing(items, arch, from, blocks, edges, input, [], nodes)
    ensures IsDFG(items, arch, from, nodes, edges)
  {
    hide BlockAt, SuccBlocks, Known, BlockEdge, FlowEdge, InBlock, EntryDefines, Handled, Waits, Processed, Recorded;
    forall k | At(k) in nodes
      ensures InFunction(items, from, k)
    {
      var x :| x in input && x in blocks && InBlock(blocks[x], k);
      assert BlockOf(items, x) == blocks[x];
    }
    if EntryDefines(items, arch, from) {
      forall k | InFunction(items, from, k)
        ensures At(k) in nodes
      {
        var x :| Reachable(items, from, x) && InBlock(BlockOf(items, x), k);
        var p :| IsPath(items, from, p) && p[|p| - 1] == x;
        PathHandled(items, arch, from, edges, input, p);
        assert BlockOf(items, x) == blocks[x];
      }
      forall e | FlowEdge(items, arch, from, e) && e.src.At?
        ensures e in edges
      {
        AllFlowsFound(items, arch, from, edges, input, e);
      }
    } else {
      assert input.Keys == {from};
      assert from in blocks && BlockOf(items, from) == blocks[from];
    }
  }
}
