/** Renumbering preserves control flow and every run, over whatever gaps it closes. */
module RenumberingCorrect {
  import opened Wrappers
  import opened Ir
  import opened Code
  import opened Renumbering
  import opened Gaps
  import opened Vm

  lemma MovedIs(items: Items, items': Items, k: IRAddr)
    requires Renumbered(items, items') && k in items
    ensures Place(items, k) in items' && items'[Place(items, k)] == Redirected(items, Moved(items, k))
  {
    assert Stored(items', Place(items, k), Redirected(items, Moved(items, k)));
  }

  /** Control sent to `t` in the code with gaps is sent to `t'` in the renumbered code, or is lost in both. */
  ghost predicate Kept(items: Items, items': Items, t: IRAddr, t': IRAddr) {
    if Onto(items, t) in items then t' == Place(items, Onto(items, t)) else t' !in items'
  }

  /** A place that names, under the new numbers too, the instruction control arrives at. */
  ghost predicate Unmoved(items: Items, t: IRAddr) {
    Onto(items, t) in items ==> Place(items, Onto(items, t)) == t
  }

  /** Behind an instruction that is not the last of its machine instruction. */
  lemma InnerKept(items: Items, k: IRAddr, j: IRAddr)
    requires k in items && IsFirst(items, IRAddr(k.addr, k.inum + 1), j)
    ensures Onto(items, IRAddr(k.addr, k.inum + 1)) == j
    ensures Place(items, j) == IRAddr(k.addr, Place(items, k).inum + 1) && !LastOfMachineInsn(items, k)
  {
    FirstIsOnto(items, IRAddr(k.addr, k.inum + 1), j);
    assert InFrontOf(items, j) == InFrontOf(items, k) + {k};
  }

  /** Behind the last instruction, closed by the pass or before it. */
  lemma OuterKept(items: Items, items': Items, k: IRAddr)
    requires Renumbered(items, items') && IsLast(items, k.addr, k)
    ensures var t, next := IRAddr(k.addr, k.inum + 1), IRAddr(k.addr + items[k].size, 0);
      && Onto(items, t) == Onto(items, next) && Kept(items, items', next, next)
      && (!HigherCode(items, k) ==> Onto(items, t) !in items && IRAddr(k.addr, Place(items, k).inum + 1) !in items')
  {
    hide Place, Onto, Renumbered;
    var next := IRAddr(k.addr + items[k].size, 0);
    OntoNext(items, IRAddr(k.addr, k.inum + 1), k);
    OntoStart(items, next.addr);
    if Onto(items, next) !in items { LostStays(items, items', next); }
    NothingBeyond(items, items', k);
  }

  lemma NothingBeyond(items: Items, items': Items, k: IRAddr)
    requires Renumbered(items, items') && IsLast(items, k.addr, k)
    ensures IRAddr(k.addr, Place(items, k).inum + 1) !in items'
  {
    hide Place;
    var beyond := IRAddr(k.addr, Place(items, k).inum + 1);
    if beyond in items' {
      var j :| j in items && Place(items, j) == beyond;
      PlaceKeepsOrder(items, k, j);
      PlaceAddr(items, k);
      PlaceAddr(items, j);
      assert false;
    }
  }

  /** What follows without an attribute is kept, over gaps and missing end flags. */
  lemma FollowingKept(items: Items, items': Items, k: IRAddr)
    requires Keyed(items) && Renumbered(items, items') && k in items
    ensures Kept(items, items', items[k].Following(), Redirected(items, Moved(items, k)).Following())
  {
    hide Place, Renumbered, Onto;
    var t := items[k].Following();
    RedirectedKeeps(items, Moved(items, k));
    RedirectedSize(items, Moved(items, k));
    PlaceAddr(items, k);
    if items[k].flags.asmEnd {
      OntoStart(items, t.addr);
      if Onto(items, t) !in items { LostStays(items, items', t); }
    } else if i :| i in items && i.addr == k.addr && k.inum < i.inum {
      var j := FirstExists(items, t, i);
      InnerKept(items, k, j);
    } else {
      OuterKept(items, items', k);
    }
  }

  lemma RedirectedSize(items: Items, insn: Insn)
    ensures Redirected(items, insn).size == insn.size
  {
  }

  /** What comes next is kept exactly if no attribute names it, or the attribute still does. */
  lemma NextKept(items: Items, items': Items, k: IRAddr, t: IRAddr)
    requires Keyed(items) && Renumbered(items, items') && k in items && items[k].Next() == Some(t)
    ensures Place(items, k) in items' && items'[Place(items, k)].Next().Some?
    ensures Kept(items, items', t, items'[Place(items, k)].Next().value)
      <==> items[k].forcedNext.None? || Unmoved(items, t)
  {
    hide Place, Onto;
    MovedIs(items, items', k);
    if items[k].forcedNext.None? {
      FollowingKept(items, items', k);
    } else if Onto(items, t) !in items {
      LostStays(items, items', t);
    }
  }

  /**
   * A jump keeps its meaning exactly if the pass redirects it to a stored target, or if the next surviving
   * instruction at or behind its target gets the number the jump names.
   */
  lemma JumpKept(items: Items, items': Items, k: IRAddr, t: IRAddr)
    requires Renumbered(items, items') && k in items && items[k].JccLoc() == Some(t)
    ensures Place(items, k) in items' && items'[Place(items, k)].JccLoc().Some?
    ensures Kept(items, items', t, items'[Place(items, k)].JccLoc().value)
      <==> (Redirectable(items[k]) && t in items) || Unmoved(items, t)
  {
    hide Place, Closed, Onto;
    MovedIs(items, items', k);
    if t in items { StoredStays(items, t); }
    if Onto(items, t) !in items { LostStays(items, items', t); }
  }

  /** An instruction inside a machine instruction does not become its first, where temporaries are dropped. */
  ghost predicate KeepsTemps(items: Items, t: IRAddr) {
    t.inum > 0 ==> Place(items, t).inum > 0
  }

  /**
   * What the pass does not redirect still names the right instruction, and what it redirects does not become a
   * start.
   */
  ghost predicate Steady(items: Items) {
    && (forall k, t :: k in items && Named(items, items[k], t) ==> Unmoved(items, t))
    && (forall k :: k in items && Redirectable(items[k]) && items[k].c.loc in items ==>
       KeepsTemps(items, items[k].c.loc))
  }

  predicate Named(items: Items, insn: Insn, t: IRAddr) {
    insn.forcedNext == Some(t)
    || (insn.JccLoc() == Some(t) && !insn.flags.call && !(Redirectable(insn) && t in items))
  }

  /** The machine whose unknown instructions and called functions are found at their new places. */
  ghost predicate Follows<M(!new)>(items: Items, m: Machine<M>, m': Machine<M>) {
    && m' == m.(unknown := m'.unknown, callReg := m'.callReg, callMem := m'.callMem)
    && (forall k, vals, v :: k in items ==> m'.unknown(Place(items, k), vals, v) == m.unknown(k, vals, v))
    && (forall k, vals, mem, v :: k in items ==>
          m'.callReg(Place(items, k), vals, mem, v) == m.callReg(k, vals, mem, v))
    && (forall k, vals, mem :: k in items ==> m'.callMem(Place(items, k), vals, mem) == m.callMem(k, vals, mem))
  }

  /** Such a machine exists for every machine, because no two instructions share a place. */
  lemma FollowerExists<M(!new)>(items: Items, m: Machine<M>) returns (m': Machine<M>)
    ensures Follows(items, m, m')
  {
    m' := m.(unknown := (at, vals, v) => m.unknown(Origin(items, at), vals, v),
             callReg := (at, vals, mem, v) => m.callReg(Origin(items, at), vals, mem, v),
             callMem := (at, vals, mem) => m.callMem(Origin(items, at), vals, mem));
    forall k | k in items
      ensures Origin(items, Place(items, k)) == k
    {
      PlaceKeepsOrder(items, k, Origin(items, Place(items, k)));
    }
  }

  ghost function Origin(items: Items, at: IRAddr): (k: IRAddr)
    ensures (exists j :: j in items && Place(items, j) == at) ==> k in items && Place(items, k) == at
  {
    if exists j :: j in items && Place(items, j) == at then
      var j :| j in items && Place(items, j) == at; j
    else at
  }

  /**
   * The same moment of both runs: at the same instruction under its old and its new number, with the same
   * memory and registers that the instruction finds the same, or outside with the same registers and memory, or
   * at a place where nothing is stored.
   */
  ghost predicate Alike<M>(items: Items, items': Items, arch: Arch, c: Config<M>, c': Config<M>) {
    match (c, c')
    case (Running(ip, regs, mem), Running(ip', regs', mem')) =>
      if ip in items then
        && ip' == Place(items, ip) && ip' in items' && mem' == mem
        && Prepared(arch, ip', regs') == Prepared(arch, ip, regs)
      else ip' !in items'
    case (Left(at, target, regs, mem), Left(at', target', regs', mem')) =>
      at' == Place(items, at) && target' == target && regs' == regs && mem' == mem
    case (Stuck(_), Stuck(_)) => true
    case _ => false
  }

  lemma RedirectedIsWellFormed(items: Items, k: IRAddr)
    requires k in items && items[k].ir == k && items[k].WellFormed()
    ensures Redirected(items, Moved(items, k)).WellFormed()
  {
    PlaceIsBefore(items, k);
  }

  lemma RenumberedWellFormed(items: Items, items': Items)
    requires Keyed(items) && Renumbered(items, items')
    requires forall k :: k in items ==> items[k].WellFormed()
    ensures forall k :: k in items' ==> items'[k].WellFormed()
  {
    hide Place, Moved, Redirected, Insn.WellFormed;
    forall k' | k' in items'
      ensures items'[k'].WellFormed()
    {
      var k :| k in items && Place(items, k) == k';
      MovedIs(items, items', k);
      RedirectedIsWellFormed(items, k);
    }
  }

  /** The registers an instruction finds when control arrives over a gap. */
  lemma ArrivingPrepared(items: Items, arch: Arch, t: IRAddr, regs: Regs)
    requires var j := Onto(items, t); Place(items, j).inum == 0 <==> j.inum == 0 || PassesStart(t, j)
    ensures var j := Onto(items, t);
      Prepared(arch, Place(items, j), regs) == Prepared(arch, j, Arriving(items, t, regs))
  {
    hide Onto;
    PlaceAddr(items, Onto(items, t));
    DropTwice(regs);
    hide Place;
  }

  lemma DropTwice(regs: Regs)
    ensures DropTemps(DropTemps(regs)) == DropTemps(regs)
  {
  }

  /** Where temporaries are dropped on the way to what follows. */
  lemma FollowingStarts(items: Items, k: IRAddr)
    requires Keyed(items) && k in items && Onto(items, items[k].Following()) in items
    ensures var t := items[k].Following(); var j := Onto(items, t);
      Place(items, j).inum == 0 <==> j.inum == 0 || PassesStart(t, j)
  {
    hide Place, Onto;
    var t := items[k].Following();
    if items[k].flags.asmEnd {
      OntoStart(items, t.addr);
    } else if i :| i in items && i.addr == k.addr && k.inum < i.inum {
      var j := FirstExists(items, t, i);
      InnerKept(items, k, j);
    } else {
      OntoNext(items, t, k);
      OntoStart(items, t.addr + items[k].size);
    }
  }

  lemma UnmovedStarts(items: Items, t: IRAddr)
    requires Onto(items, t) in items && Unmoved(items, t)
    ensures var j := Onto(items, t); Place(items, j).inum == 0 <==> j.inum == 0 || PassesStart(t, j)
  {
    hide Place, Onto;
    var j := Onto(items, t);
    PlaceIsBefore(items, j);
    PlaceAddr(items, j);
  }

  ghost function Onward(items: Items, insn: Insn, control: Control): Control {
    if control.Jump? && Redirectable(insn) && control.to in items then Jump(Place(items, control.to)) else control
  }

  /** An instruction with the same operands, but another place and perhaps another jump location. */
  ghost predicate Twin(insn: Insn, insn': Insn) {
    && insn' == insn.(ir := insn'.ir, flags := insn'.flags, c := insn'.c)
    && insn'.flags == insn.flags.(asmEnd := insn'.flags.asmEnd)
    && (insn'.c == insn.c || (Redirectable(insn) && insn'.c.Loc?))
  }

  lemma UnknownMoved<M>(m: Machine<M>, m': Machine<M>, arch: Arch, insn: Insn, insn': Insn, regs: Regs, mem: M)
    requires Twin(insn, insn') && insn.WellFormed() && insn'.WellFormed() && insn.op == UNK
    requires forall vals, v :: m'.unknown(insn'.ir, vals, v) == m.unknown(insn.ir, vals, v)
    ensures Execute(m, arch, insn, regs, mem) == Execute(m', arch, insn', regs, mem)
  {
    assert insn'.Src() == insn.Src() && insn'.Dst() == insn.Dst();
    ExecuteUnknown(m, arch, insn, regs, mem);
    ExecuteUnknown(m', arch, insn', regs, mem);
    hide Execute, Answered, Twin;
    SameAnswered(m, m', insn.ir, insn'.ir, Values(insn.Src(), regs), insn.Dst(), regs);
  }

  /** The registers after an unknown instruction. */
  ghost function Answered<M>(m: Machine<M>, ir: IRAddr, vals: seq<int>, dst: seq<Var>, regs: Regs): Regs {
    Write(regs, dst, v => m.unknown(ir, vals, v))
  }

  lemma SameAnswered<M>(m: Machine<M>, m': Machine<M>, ir: IRAddr, ir': IRAddr, vals: seq<int>, dst: seq<Var>,
                        regs: Regs)
    requires forall v :: m'.unknown(ir', vals, v) == m.unknown(ir, vals, v)
    ensures Answered(m', ir', vals, dst, regs) == Answered(m, ir, vals, dst, regs)
  {
    hide Write;
  }

  lemma ExecuteUnknown<M>(m: Machine<M>, arch: Arch, insn: Insn, regs: Regs, mem: M)
    requires insn.WellFormed() && insn.op == UNK
    ensures Execute(m, arch, insn, regs, mem)
         == Effect(Answered(m, insn.ir, Values(insn.Src(), regs), insn.Dst(), regs), mem, Fall)
  {
    hide Write, Values;
    assert Execute(m, arch, insn, regs, mem).regs == Answered(m, insn.ir, Values(insn.Src(), regs), insn.Dst(), regs);
  }

  lemma CallMoved<M>(m: Machine<M>, m': Machine<M>, arch: Arch, insn: Insn, insn': Insn, regs: Regs, mem: M)
    requires Twin(insn, insn') && insn.WellFormed() && insn'.WellFormed() && insn.flags.call
    requires var vals := CallValues(arch, insn, regs);
      && m'.callMem(insn'.ir, vals, mem) == m.callMem(insn.ir, vals, mem)
      && forall v :: m'.callReg(insn'.ir, vals, mem, v) == m.callReg(insn.ir, vals, mem, v)
    ensures Execute(m, arch, insn, regs, mem) == Execute(m', arch, insn', regs, mem)
  {
    SameCall(arch, insn, insn', regs);
    ExecuteCall(m, arch, insn, regs, mem);
    ExecuteCall(m', arch, insn', regs, mem);
    hide Execute, Value, Arch.General, CallValues, Called, Twin;
    var vals := CallValues(arch, insn, regs);
    SameCalled(m, m', arch, insn, insn', regs, mem, vals);
  }

  /** The registers after a called function. */
  ghost function Called<M>(m: Machine<M>, arch: Arch, ir: IRAddr, vals: seq<int>, regs: Regs, mem: M): Regs {
    Write(regs, arch.General(), v => m.callReg(ir, vals, mem, v))
  }

  lemma SameCalled<M>(m: Machine<M>, m': Machine<M>, arch: Arch, insn: Insn, insn': Insn, regs: Regs, mem: M,
                      vals: seq<int>)
    requires forall v :: m'.callReg(insn'.ir, vals, mem, v) == m.callReg(insn.ir, vals, mem, v)
    ensures Called(m', arch, insn'.ir, vals, regs, mem) == Called(m, arch, insn.ir, vals, regs, mem)
  {
    hide Arch.General, Write;
  }

  lemma ExecuteCall<M>(m: Machine<M>, arch: Arch, insn: Insn, regs: Regs, mem: M)
    requires insn.WellFormed() && insn.flags.call
    ensures var vals := CallValues(arch, insn, regs);
      Execute(m, arch, insn, regs, mem) ==
        if Value(insn.a, regs) == 0 then Effect(regs, mem, Fall)
        else Effect(Called(m, arch, insn.ir, vals, regs, mem), m.callMem(insn.ir, vals, mem), Fall)
  {
    hide Arch.General, Uses, Value, Write, Values;
    if Value(insn.a, regs) != 0 {
      var vals := CallValues(arch, insn, regs);
      assert Execute(m, arch, insn, regs, mem).regs == Called(m, arch, insn.ir, vals, regs, mem);
    }
  }

  lemma SameCall(arch: Arch, insn: Insn, insn': Insn, regs: Regs)
    requires Twin(insn, insn') && insn.WellFormed() && insn'.WellFormed() && insn.flags.call
    ensures insn'.a == insn.a && insn'.flags.call && CallValues(arch, insn', regs) == CallValues(arch, insn, regs)
  {
    SameUses(arch, insn, insn');
  }

  lemma SameUses(arch: Arch, insn: Insn, insn': Insn)
    requires Twin(insn, insn') && insn.WellFormed() && insn'.WellFormed() && insn.flags.call
    ensures insn'.c == insn.c && Uses(arch, insn') == Uses(arch, insn)
  {
  }

  lemma JumpMoved<M>(m: Machine<M>, m': Machine<M>, arch: Arch, insn: Insn, insn': Insn, regs: Regs, mem: M)
    requires Twin(insn, insn') && insn.WellFormed() && insn'.WellFormed() && insn.op == JCC && !insn.flags.call
    ensures var e, e' := Execute(m, arch, insn, regs, mem), Execute(m', arch, insn', regs, mem);
      e' == e.(control := if e.control.Jump? && insn'.c.Loc? then Jump(insn'.c.loc) else e.control)
  {
    hide Uses;
  }

  lemma OtherMoved<M>(m: Machine<M>, m': Machine<M>, arch: Arch, insn: Insn, insn': Insn, regs: Regs, mem: M)
    requires Twin(insn, insn') && insn.WellFormed() && insn'.WellFormed() && insn.op !in {UNK, JCC}
    requires m'.alu == m.alu && m'.load == m.load && m'.store == m.store
    ensures Execute(m, arch, insn, regs, mem) == Execute(m', arch, insn', regs, mem)
  {
    hide Uses, Value;
    assert insn'.Dst() == insn.Dst() && OperandOf(insn'.a, regs) == OperandOf(insn.a, regs);
    var e, e' := Execute(m, arch, insn, regs, mem), Execute(m', arch, insn', regs, mem);
    assert e.regs == e'.regs;
  }

  /** A moved instruction has the same effect, and jumps to the new place of its target. */
  lemma ExecuteMoved<M(!new)>(items: Items, m: Machine<M>, m': Machine<M>, arch: Arch, k: IRAddr, regs: Regs, mem: M)
    requires Follows(items, m, m') && k in items && items[k].ir == k && items[k].WellFormed()
    ensures var insn := Redirected(items, Moved(items, k));
      && insn.WellFormed()
      && var e, e' := Execute(m, arch, items[k], regs, mem), Execute(m', arch, insn, regs, mem);
         e' == e.(control := Onward(items, items[k], e.control))
  {
    hide Place, Closed, Execute, Insn.WellFormed;
    RedirectedIsWellFormed(items, k);
    var insn := Redirected(items, Moved(items, k));
    assert Twin(items[k], insn) && insn.ir == Place(items, k);
    JumpIsTarget(m, arch, items[k], regs, mem);
    if items[k].op == UNK {
      UnknownMoved(m, m', arch, items[k], insn, regs, mem);
    } else if items[k].op != JCC {
      OtherMoved(m, m', arch, items[k], insn, regs, mem);
    } else if items[k].flags.call {
      CallMoved(m, m', arch, items[k], insn, regs, mem);
    } else {
      JumpMoved(m, m', arch, items[k], insn, regs, mem);
    }
  }

  lemma JumpIsTarget<M>(m: Machine<M>, arch: Arch, insn: Insn, regs: Regs, mem: M)
    requires insn.WellFormed()
    ensures var control := Execute(m, arch, insn, regs, mem).control;
      control.Jump? ==> insn.op == JCC && !insn.flags.call && insn.JccLoc() == Some(control.to)
  {
    hide Uses, Value;
  }

  /** Control is sent on in both codes. */
  lemma SentOn<M>(items: Items, items': Items, arch: Arch, t: IRAddr, t': IRAddr, regs: Regs, mem: M)
    requires Renumbered(items, items') && Kept(items, items', t, t')
    requires var j := Onto(items, t); j in items ==> (Place(items, j).inum == 0 <==> j.inum == 0 || PassesStart(t, j))
    ensures Alike(items, items', arch, Landed(items, Running(t, regs, mem)), Running(t', regs, mem))
  {
    var j := Onto(items, t);
    hide Place, Onto, Prepared;
    if j in items {
      ArrivingPrepared(items, arch, t, regs);
      MovedIs(items, items', j);
    }
  }

  /** After an instruction that falls through. */
  lemma FallAlike<M>(items: Items, items': Items, arch: Arch, k: IRAddr, t: IRAddr, regs: Regs, mem: M)
    requires Keyed(items) && Steady(items) && Renumbered(items, items') && k in items && items[k].Next() == Some(t)
    ensures Place(items, k) in items' && items'[Place(items, k)].Next().Some?
    ensures Alike(items, items', arch, Landed(items, Running(t, regs, mem)),
                  Running(items'[Place(items, k)].Next().value, regs, mem))
  {
    hide Place, Onto, Renumbered, Alike, Unmoved, Landed;
    assert items[k].forcedNext.Some? ==> Named(items, items[k], t);
    NextKept(items, items', k, t);
    if Onto(items, t) in items {
      if items[k].forcedNext.None? { FollowingStarts(items, k); } else { UnmovedStarts(items, t); }
    }
    SentOn(items, items', arch, t, items'[Place(items, k)].Next().value, regs, mem);
  }

  /** After a jump. */
  lemma JumpAlike<M>(items: Items, items': Items, arch: Arch, k: IRAddr, t: IRAddr, regs: Regs, mem: M)
    requires Keyed(items) && Steady(items) && Renumbered(items, items')
    requires k in items && items[k].JccLoc() == Some(t) && !items[k].flags.call
    ensures Place(items, k) in items' && items'[Place(items, k)].JccLoc().Some?
    ensures Alike(items, items', arch, Landed(items, Running(t, regs, mem)),
                  Running(items'[Place(items, k)].JccLoc().value, regs, mem))
  {
    hide Place, Onto, Renumbered, Alike, Unmoved, Landed;
    JumpKept(items, items', k, t);
    if Redirectable(items[k]) && t in items {
      StoredStays(items, t);
      PlaceIsBefore(items, t);
    } else {
      assert Named(items, items[k], t);
      if Onto(items, t) in items { UnmovedStarts(items, t); }
    }
    SentOn(items, items', arch, t, items'[Place(items, k)].JccLoc().value, regs, mem);
  }

  /** One step over the code with gaps is one step of the renumbered code. */
  lemma StepMoved<M(!new)>(items: Items, items': Items, m: Machine<M>, m': Machine<M>, arch: Arch,
                           c: Config<M>, c': Config<M>)
    requires Keyed(items) && Steady(items) && Renumbered(items, items') && Follows(items, m, m')
    requires forall k :: k in items ==> items[k].WellFormed()
    requires forall k :: k in items' ==> items'[k].WellFormed()
    requires Alike(items, items', arch, c, c')
    ensures Alike(items, items', arch, Landed(items, Step(items, m, arch, c)), Step(items', m', arch, c'))
  {
    hide Place, Execute, Prepared, Moved, Redirected, Renumbered, Follows, Steady, Insn.WellFormed, Onto;
    hide Insn.Next, Insn.JccLoc;
    if c.Running? && c.ip in items {
      var k := c.ip;
      MovedIs(items, items', k);
      var regs := Prepared(arch, k, c.regs);
      ExecuteMoved(items, m, m', arch, k, regs, c.mem);
      var e := Execute(m, arch, items[k], regs, c.mem);
      JumpIsTarget(m, arch, items[k], regs, c.mem);
      NextNone(items, k);
      if e.control.Jump? {
        RedirectedJump(items, k, e.control.to);
        JumpAlike(items, items', arch, k, e.control.to, e.regs, e.mem);
      } else if e.control.Fall? && items[k].Next().Some? {
        FallAlike(items, items', arch, k, items[k].Next().value, e.regs, e.mem);
      }
    }
  }

  lemma NextNone(items: Items, k: IRAddr)
    requires k in items
    ensures items[k].Next().None? ==> Redirected(items, Moved(items, k)).Next().None?
  {
    hide Place, Closed;
  }

  /** Where the moved jump goes. */
  lemma RedirectedJump(items: Items, k: IRAddr, t: IRAddr)
    requires k in items && items[k].JccLoc() == Some(t)
    ensures var insn := Redirected(items, Moved(items, k));
      Some(Onward(items, items[k], Jump(t)).to) == insn.JccLoc()
  {
    hide Place, Closed;
  }

  /**
   * After any number of steps from the same registers and memory, the renumbered code is where the code with
   * gaps is, under the new number, with the same registers and memory: a missing instruction does nothing and a
   * missing end flag is no obstacle.
   */
  lemma {:induction false} RenumberingPreservesRuns<M(!new)>(
      items: Items, items': Items, m: Machine<M>, m': Machine<M>, arch: Arch, c: Config<M>, c': Config<M>, n: nat)
    requires Keyed(items) && Steady(items) && Renumbered(items, items') && Follows(items, m, m')
    requires forall k :: k in items ==> items[k].WellFormed()
    requires Alike(items, items', arch, Landed(items, c), c')
    ensures forall k :: k in items' ==> items'[k].WellFormed()
    ensures Alike(items, items', arch, GapRun(items, m, arch, c, n), Run(items', m', arch, c', n))
  {
    hide Renumbered, Follows, Steady, Insn.WellFormed, Alike, Landed, Step;
    RenumberedWellFormed(items, items');
    if n > 0 {
      RenumberingPreservesRuns(items, items', m, m', arch, c, c', n - 1);
      StepMoved(items, items', m, m', arch, GapRun(items, m, arch, c, n - 1), Run(items', m', arch, c', n - 1));
    }
  }

  /** From a stored start both runs are alike at once. */
  lemma StartAlike<M>(items: Items, items': Items, arch: Arch, from: IRAddr, regs: Regs, mem: M)
    requires Renumbered(items, items') && from in items && KeepsTemps(items, from)
    ensures Alike(items, items', arch, Landed(items, Running(from, regs, mem)), Running(Place(items, from), regs, mem))
  {
    hide Place, Onto, Renumbered, Alike, Landed;
    StoredStays(items, from);
    PlaceIsBefore(items, from);
    SentOn(items, items', arch, from, Place(items, from), regs, mem);
  }

  // ---------- Code for the graph builders ----------

  ghost predicate TargetsResolve(items: Items, insn: Insn) {
    forall t :: insn.JccLoc() == Some(t) || insn.forcedNext == Some(t) ==> Resolves(items, t)
  }

  /** End flags stand on last instructions only. */
  ghost predicate EndsInOrder(items: Items) {
    forall k :: k in items && items[k].flags.asmEnd ==> LastOfMachineInsn(items, k)
  }

  /** Some instruction gets the place, if its machine instruction is there at all. */
  ghost predicate Found(items: Items, t: IRAddr) {
    HasCode(items, t.addr) ==> exists j :: j in items && Place(items, j) == t
  }

  /** What an instruction names, and the pass does not redirect. */
  predicate Fixed(items: Items, insn: Insn, t: IRAddr) {
    insn.forcedNext == Some(t) || (insn.JccLoc() == Some(t) && !(Redirectable(insn) && t in items))
  }

  /** Renumbering makes code fit for building its graphs exactly if end flags stand last and fixed targets are found. */
  lemma RenumberedIsWellFormedCode(items: Items, items': Items)
    requires Keyed(items) && Renumbered(items, items')
    requires forall k :: k in items ==> items[k].WellFormed()
    ensures WellFormedCode(items') <==>
      EndsInOrder(items) && forall k, t :: k in items && Fixed(items, items[k], t) ==> Found(items, t)
  {
    if EndsInOrder(items) && forall k, t :: k in items && Fixed(items, items[k], t) ==> Found(items, t) {
      FitForGraphs(items, items');
    }
    if WellFormedCode(items') {
      FitEnds(items, items');
      forall k, t | k in items && Fixed(items, items[k], t)
        ensures Found(items, t)
      {
        FitTarget(items, items', k, t);
      }
    }
  }

  lemma FitForGraphs(items: Items, items': Items)
    requires Keyed(items) && Renumbered(items, items') && EndsInOrder(items)
    requires forall k :: k in items ==> items[k].WellFormed()
    requires forall k, t :: k in items && Fixed(items, items[k], t) ==> Found(items, t)
    ensures WellFormedCode(items')
  {
    RenumberedWellFormed(items, items');
    RenumberedIsSettled(items, items');
    hide Place, Insn.WellFormed, Redirected, Moved, Renumbered, Closed, EndsInOrder, TargetsResolve, Resolves,
      Insn.JccLoc, Found, Fixed;
    forall k', n: nat | k' in items' && n < k'.inum
      ensures IRAddr(k'.addr, n) in items' && !items'[IRAddr(k'.addr, n)].flags.asmEnd
    {
      var k := PlaceOrigin(items, items', k');
      NoGap(items, items', k, n);
    }
    forall k' | k' in items'
      ensures TargetsResolve(items', items'[k'])
    {
      var k := PlaceOrigin(items, items', k');
      MovedTargetsResolve(items, items', k);
    }
    ResolvedIsWellFormed(items');
  }

  lemma FitEnds(items: Items, items': Items)
    requires Renumbered(items, items') && WellFormedCode(items')
    ensures EndsInOrder(items)
  {
    hide Place, Renumbered, Insn.WellFormed, Insn.JccLoc, Resolves, Redirected;
    forall k, j | k in items && items[k].flags.asmEnd && j in items && j.addr == k.addr
      ensures j.inum <= k.inum
    {
      MovedIs(items, items', k);
      MovedIs(items, items', j);
      RedirectedKeeps(items, Moved(items, k));
      RedirectedKeeps(items, Moved(items, j));
      PlaceKeepsOrder(items, k, j);
      PlaceAddr(items, k);
      PlaceAddr(items, j);
      assert Place(items, k) == IRAddr(Place(items, j).addr, Place(items, k).inum);
    }
  }

  lemma FitTarget(items: Items, items': Items, k: IRAddr, t: IRAddr)
    requires Renumbered(items, items') && WellFormedCode(items') && k in items && Fixed(items, items[k], t)
    ensures Found(items, t)
  {
    MovedIs(items, items', k);
    FixedStays(items, k, t);
    FoundResolves(items, items', t);
  }

  lemma FixedStays(items: Items, k: IRAddr, t: IRAddr)
    requires k in items && Fixed(items, items[k], t)
    ensures var insn := Redirected(items, Moved(items, k)); insn.JccLoc() == Some(t) || insn.forcedNext == Some(t)
  {
    hide Place, Closed;
  }

  lemma FoundResolves(items: Items, items': Items, t: IRAddr)
    requires Renumbered(items, items')
    ensures Resolves(items', t) <==> Found(items, t)
  {
    var start := IRAddr(t.addr, 0);
    OntoStart(items, t.addr);
    hide Place, Onto;
    if HasCode(items, t.addr) { MovedIs(items, items', Onto(items, start)); }
    if start in items' {
      var j := PlaceOrigin(items, items', start);
      PlaceAddr(items, j);
    }
    if j :| j in items && Place(items, j) == t { MovedIs(items, items', j); }
    if t in items' { var j := PlaceOrigin(items, items', t); }
  }

  lemma ResolvedIsWellFormed(items: Items)
    requires Keyed(items) && forall k :: k in items ==> items[k].WellFormed() && TargetsResolve(items, items[k])
    requires forall k, n: nat {:trigger items[k], IRAddr(k.addr, n)} :: k in items && n < k.inum ==>
      IRAddr(k.addr, n) in items && !items[IRAddr(k.addr, n)].flags.asmEnd
    ensures WellFormedCode(items)
  {
    hide Insn.WellFormed, Insn.JccLoc, Resolves;
    forall k, n: nat | k in items && n < k.inum
      ensures IRAddr(k.addr, n) in items && !items[IRAddr(k.addr, n)].flags.asmEnd
    {
      assert items[k].ir == k;
    }
    forall k, t {:trigger items[k], Resolves(items, t)} | k in items &&
        (items[k].JccLoc() == Some(t) || items[k].forcedNext == Some(t))
      ensures Resolves(items, t)
    {
      assert TargetsResolve(items, items[k]);
    }
  }

  lemma PlaceOrigin(items: Items, items': Items, k': IRAddr) returns (k: IRAddr)
    requires Renumbered(items, items') && k' in items'
    ensures k in items && Place(items, k) == k' && items'[k'] == Redirected(items, Moved(items, k))
  {
    k :| k in items && Place(items, k) == k';
    MovedIs(items, items', k);
  }

  lemma NoGap(items: Items, items': Items, k: IRAddr, n: nat)
    requires Renumbered(items, items') && k in items && n < Place(items, k).inum && EndsInOrder(items)
    ensures IRAddr(k.addr, n) in items' && !items'[IRAddr(k.addr, n)].flags.asmEnd
  {
    hide Renumbered;
    var j := PlacesAreContiguous(items, k, n);
    MovedIs(items, items', j);
    PlaceKeepsOrder(items, j, k);
    assert !LastOfMachineInsn(items, j);
  }

  lemma MovedTargetsResolve(items: Items, items': Items, k: IRAddr)
    requires Renumbered(items, items') && k in items
    requires forall t :: Fixed(items, items[k], t) ==> Found(items, t)
    ensures Place(items, k) in items' && TargetsResolve(items', items'[Place(items, k)])
  {
    MovedIs(items, items', k);
    hide Place, Renumbered, Resolves, Redirected, Redirectable, Insn.JccLoc, Found, Fixed;
    var insn := items'[Place(items, k)];
    forall t | insn.JccLoc() == Some(t) || insn.forcedNext == Some(t)
      ensures Resolves(items', t)
    {
      if RedirectedTo(items, items[k], t) {
        MovedIs(items, items', items[k].c.loc);
        StoredResolves(items', t);
      } else {
        MovedTarget(items, k, t);
        FoundResolves(items, items', t);
      }
    }
  }

  ghost predicate RedirectedTo(items: Items, insn: Insn, t: IRAddr) {
    Redirectable(insn) && insn.c.loc in items && t == Place(items, insn.c.loc)
  }

  lemma MovedTarget(items: Items, k: IRAddr, t: IRAddr)
    requires k in items && !RedirectedTo(items, items[k], t)
    requires var insn := Redirected(items, Moved(items, k)); insn.JccLoc() == Some(t) || insn.forcedNext == Some(t)
    ensures Fixed(items, items[k], t)
  {
    hide Place, Closed;
  }

  lemma StoredResolves(items: Items, t: IRAddr)
    requires t in items
    ensures Resolves(items, t)
  {
  }
}
