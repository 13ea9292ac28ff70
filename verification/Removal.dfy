/** Removing instructions that do nothing: the code with gaps runs like the full code, in fewer steps. */
module Removal {
  import opened Wrappers
  import opened Ir
  import opened Code
  import opened Renumbering
  import opened Gaps
  import opened RenumberingCorrect
  import opened Vm

  /** Does nothing and falls through. */
  predicate Idle(insn: Insn) {
    insn.op == NONE && insn.forcedNext.None? && !insn.flags.ret
  }

  /** Where an instruction may send control. */
  predicate Goes(insn: Insn, t: IRAddr) {
    insn.Next() == Some(t) || (insn.JccLoc() == Some(t) && !insn.flags.call)
  }

  /**
   * Instructions that runs stay among, as long as they are at stored code; a machine instruction goes on to its
   * end flag.
   */
  ghost predicate IsDomain(full: Items, d: set<IRAddr>) {
    && (forall k :: k in d ==> k in full && (!full[k].flags.asmEnd ==> full[k].Following() in full))
    && (forall k, t :: k in d && Goes(full[k], t) && t in full ==> t in d)
  }

  /** A kept instruction is the one of the full code, or an idle one that stands for an idle machine instruction. */
  ghost predicate Stands(full: Items, kept: Items, k: IRAddr)
    requires k in full && k in kept
  {
    || kept[k] == full[k]
    || (Idle(full[k]) && Idle(kept[k]) && kept[k].size == full[k].size &&
        forall j :: j in kept && j.addr == k.addr ==> j == k)
  }

  /** What is removed is idle, and nothing of a machine instruction goes without a trace. */
  ghost predicate Thinned(full: Items, kept: Items, d: set<IRAddr>) {
    && Keyed(full) && Keyed(kept) && kept.Keys <= full.Keys && IsDomain(full, d)
    && (forall k :: k in d ==> HasCode(kept, k.addr))
    && (forall k :: k in d && k in kept ==> Stands(full, kept, k))
    && (forall k :: k in d && k !in kept ==> Idle(full[k]))
    && (forall j, k :: j in kept && k in d && j.addr == k.addr ==> kept[j].size == full[k].size)
  }

  ghost predicate Inner(full: Items, addr: nat, n: nat) {
    IRAddr(addr, n) in full && !full[IRAddr(addr, n)].flags.asmEnd
  }

  /** Numbers without gaps, inner instructions without end flag, and targets that are there. */
  ghost predicate Gapless(full: Items) {
    && (forall k, n: nat {:trigger full[k], Inner(full, k.addr, n)} :: k in full && n < k.inum ==>
       Inner(full, k.addr, n))
    && (forall k, t {:trigger full[k], Resolves(full, t)} ::
          k in full && (full[k].JccLoc() == Some(t) || full[k].forcedNext == Some(t)) ==> Resolves(full, t))
  }

  lemma WellFormedIsGapless(full: Items)
    requires WellFormedCode(full)
    ensures Gapless(full)
  {
    hide Insn.WellFormed, Insn.JccLoc, Resolves;
    forall k, n: nat | k in full && n < k.inum
      ensures Inner(full, k.addr, n)
    {
      var at := IRAddr(k.addr, n);
      var insn := full[k];
      if at in full { assert full[at].ir == at; }
    }
  }

  /** The same moment of both runs. */
  ghost predicate Mirrors<M>(full: Items, kept: Items, arch: Arch, d: set<IRAddr>, c: Config<M>, g: Config<M>) {
    match c
    case Running(ip, regs, mem) =>
      && (ip in full ==> ip in d)
      && (if Onto(kept, ip) in kept then
            && ip in full && g.Running? && g.ip == Onto(kept, ip) && g.mem == mem
            && Prepared(arch, g.ip, g.regs) == Prepared(arch, g.ip, Arriving(kept, ip, regs))
          else IsLost(kept, g))
    case Left(_, _, _, _) => g == c
    case Stuck(_) => IsLost(kept, g)
  }

  /** At a place where nothing is stored. */
  ghost predicate IsLost<M>(kept: Items, g: Config<M>) {
    g.Stuck? || (g.Running? && g.ip !in kept)
  }

  lemma GaplessStart(full: Items, j: IRAddr)
    requires Gapless(full) && j in full
    ensures IRAddr(j.addr, 0) in full
  {
    assert full[j].ir == full[j].ir && (j.inum > 0 ==> Inner(full, j.addr, 0));
    assert j.inum == 0 ==> j == IRAddr(j.addr, 0);
  }

  /** What the full code does not have is lost in the kept code too. */
  lemma MissingIsLost(full: Items, kept: Items, t: IRAddr)
    requires kept.Keys <= full.Keys && Gapless(full) && t !in full && Resolves(full, t)
    ensures Onto(kept, t) !in kept
  {
    OntoCases(kept, t);
    if HasCode(kept, t.addr) {
      var j :| j in kept && j.addr == t.addr;
      GaplessStart(full, j);
    }
  }

  lemma GoesResolves(full: Items, d: set<IRAddr>, k: IRAddr, t: IRAddr)
    requires Gapless(full) && IsDomain(full, d) && k in d && Goes(full[k], t)
    ensures Resolves(full, t) && (t in full ==> t in d)
  {
    hide Resolves, Insn.JccLoc;
    if t == full[k].Following() && t !in full {
      assert full[k].flags.asmEnd;
      StartResolves(full, t.addr);
    } else if t in full {
      StoredResolves(full, t);
    } else {
      assert full[k].JccLoc() == Some(t) || full[k].forcedNext == Some(t);
    }
  }

  lemma StartResolves(full: Items, addr: nat)
    ensures Resolves(full, IRAddr(addr, 0))
  {
  }

  /** Behind the end of a machine instruction. */
  lemma EndPasses(full: Items, kept: Items, d: set<IRAddr>, k: IRAddr)
    requires Gapless(full) && Thinned(full, kept, d) && k in d && k !in kept && full[k].flags.asmEnd
    ensures Onto(kept, k) == Onto(kept, full[k].Following()) && Onto(kept, k).addr != k.addr
    ensures Onto(kept, k) in kept ==> Place(kept, Onto(kept, k)).inum == 0
  {
    var i :| i in kept && i.addr == k.addr;
    var last := LastExists(kept, i);
    assert full[last].ir == full[last].ir && (k.inum < last.inum ==> Inner(full, last.addr, k.inum));
    assert last.inum < k.inum;
    OntoNext(kept, k, last);
    OntoStart(kept, k.addr + full[k].size);
    hide Place, Onto;
  }

  /** Inside a machine instruction. */
  lemma InnerPasses(kept: Items, k: IRAddr)
    requires k !in kept
    ensures Onto(kept, k) == Onto(kept, IRAddr(k.addr, k.inum + 1)) ||
        (!HasCode(kept, k.addr) && Onto(kept, k) !in kept)
  {
    var t := IRAddr(k.addr, k.inum + 1);
    if i :| i in kept && i.addr == k.addr && k.inum <= i.inum {
      var j := FirstExists(kept, k, i);
      FirstIsOnto(kept, k, j);
      FirstIsOnto(kept, t, j);
    } else if i :| i in kept && i.addr == k.addr {
      var last := LastExists(kept, i);
      OntoNext(kept, k, last);
      OntoNext(kept, t, last);
    } else {
      OntoCases(kept, k);
    }
  }

  /** An idle instruction that is not kept sends control where it would have arrived anyway, with the same registers. */
  lemma IdlePasses(full: Items, kept: Items, arch: Arch, d: set<IRAddr>, k: IRAddr, regs: Regs)
    requires Gapless(full) && Thinned(full, kept, d) && k in d && k !in kept
    ensures kept.Keys <= full.Keys
    ensures var t := full[k].Following();
      && full[k].Next() == Some(t) && (t in full ==> t in d)
      && (Onto(kept, k) in kept <==> Onto(kept, t) in kept)
      && (Onto(kept, k) in kept ==> t in full && Onto(kept, t) == Onto(kept, k))
    ensures var t, j := full[k].Following(), Onto(kept, k);
      j in kept ==>
        Prepared(arch, j, Arriving(kept, t, Prepared(arch, k, regs))) == Prepared(arch, j, Arriving(kept, k, regs))
  {
    hide Onto, Place, Gapless, Prepared;
    var t := full[k].Following();
    assert Idle(full[k]) && Goes(full[k], t) && HasCode(kept, k.addr) && full[k].ir == k;
    GoesResolves(full, d, k, t);
    if full[k].flags.asmEnd { EndPasses(full, kept, d, k); } else { InnerPasses(kept, k); }
    assert t in full ==> t in d;
    hide Thinned;
    if t !in full { MissingIsLost(full, kept, t); }
    if Onto(kept, k) in kept { PassedRegisters(full, kept, arch, k, t, regs); }
  }

  /** Temporaries are dropped alike on both ways. */
  lemma PassedRegisters(full: Items, kept: Items, arch: Arch, k: IRAddr, t: IRAddr, regs: Regs)
    requires k !in kept && Onto(kept, k) == Onto(kept, t) && Onto(kept, k) in kept
    requires t == IRAddr(k.addr, k.inum + 1) || (t.inum == 0 && Onto(kept, k).addr != k.addr)
    ensures var j := Onto(kept, k);
      Prepared(arch, j, Arriving(kept, t, Prepared(arch, k, regs))) == Prepared(arch, j, Arriving(kept, k, regs))
  {
    hide Onto;
    DropPrepared(arch, k, Onto(kept, k), regs);
  }

  lemma DropPrepared(arch: Arch, k: IRAddr, j: IRAddr, regs: Regs)
    ensures Prepared(arch, j, DropTemps(Prepared(arch, k, regs))) == Prepared(arch, j, DropTemps(regs))
    ensures k.inum == 0 ==> Prepared(arch, j, Prepared(arch, k, regs)) == Prepared(arch, j, DropTemps(regs))
    ensures k.inum > 0 || j.inum == 0 ==> Prepared(arch, j, Prepared(arch, k, regs)) == Prepared(arch, j, regs)
    ensures j.inum == 0 ==> Prepared(arch, j, DropTemps(regs)) == Prepared(arch, j, regs)
  {
    DropTwice(regs);
    DropKeepsPointer(arch, regs, k.addr);
    DropKeepsPointer(arch, DropTemps(regs), k.addr);
    hide DropTemps;
  }

  lemma DropKeepsPointer(arch: Arch, regs: Regs, addr: nat)
    ensures DropTemps(regs[InstructionPointer(arch) := addr]) == DropTemps(regs)[InstructionPointer(arch) := addr]
  {
  }

  // ---------- One step ----------

  /** An idle instruction that is not kept is no step of the kept code. */
  lemma IdleStep<M>(full: Items, kept: Items, m: Machine<M>, arch: Arch, d: set<IRAddr>, c: Config<M>, g: Config<M>)
    requires Gapless(full) && Thinned(full, kept, d) && Mirrors(full, kept, arch, d, c, g)
    requires forall k :: k in full ==> full[k].WellFormed()
    requires c.Running? && c.ip in full && c.ip !in kept
    ensures Mirrors(full, kept, arch, d, Step(full, m, arch, c), g)
    ensures Step(full, m, arch, c).Running? && Before(c.ip, Step(full, m, arch, c).ip)
  {
    hide Onto, Prepared, Gapless, Arriving, Insn.WellFormed;
    var k := c.ip;
    assert Idle(full[k]) && full[k].ir == k;
    hide Thinned;
    IdlePasses(full, kept, arch, d, k, c.regs);
  }

  /** Two ways on that arrive at the same place with the same registers, or are lost. */
  lemma GoOnMirrors<M>(full: Items, kept: Items, arch: Arch, d: set<IRAddr>, t: IRAddr, t': IRAddr, regs: Regs, mem: M)
    requires Gapless(full) && kept.Keys <= full.Keys && (t in full ==> t in d) && (t !in full ==> Resolves(full, t))
    requires t' == t || (Onto(kept, t') == Onto(kept, t) || (Onto(kept, t) !in kept && Onto(kept, t') !in kept))
    requires var j := Onto(kept, t);
      j in kept ==> Prepared(arch, j, Arriving(kept, t', regs)) == Prepared(arch, j, Arriving(kept, t, regs))
    ensures Mirrors(full, kept, arch, d, Running(t, regs, mem), Landed(kept, Running(t', regs, mem)))
  {
    if t !in full { MissingIsLost(full, kept, t); }
    hide Onto, Prepared, Gapless, Arriving;
  }

  /** An idle instruction that stands for a whole machine instruction. */
  lemma StandInPasses(full: Items, kept: Items, arch: Arch, d: set<IRAddr>, k: IRAddr, regs: Regs)
    requires Gapless(full) && Thinned(full, kept, d) && k in d && k in kept && kept[k] != full[k]
    ensures var t, t' := full[k].Following(), kept[k].Following();
      && (Onto(kept, t') == Onto(kept, t) || (Onto(kept, t) !in kept && Onto(kept, t') !in kept))
      && var j := Onto(kept, t);
         j in kept ==> Prepared(arch, j, Arriving(kept, t', regs)) == Prepared(arch, j, Arriving(kept, t, regs))
  {
    hide Onto, Gapless, Thinned, Prepared, Arriving;
    StandInSize(full, kept, d, k);
    StandInLeaves(full, kept, arch, d, k, regs, full[k].Following());
    StandInLeaves(full, kept, arch, d, k, regs, kept[k].Following());
  }

  lemma StandInSize(full: Items, kept: Items, d: set<IRAddr>, k: IRAddr)
    requires Thinned(full, kept, d) && k in d && k in kept
    ensures k in full && full[k].ir == k && kept[k].ir == k && full[k].size == kept[k].size
  {
    hide IsDomain;
  }

  /** Whichever way it falls through, the next instruction kept is that behind the machine instruction. */
  lemma StandInLeaves(full: Items, kept: Items, arch: Arch, d: set<IRAddr>, k: IRAddr, regs: Regs, t: IRAddr)
    requires Gapless(full) && Thinned(full, kept, d) && k in d && k in kept && kept[k] != full[k]
    requires t in {IRAddr(k.addr, k.inum + 1), IRAddr(k.addr + full[k].size, 0)}
    ensures var j := Onto(kept, IRAddr(k.addr + full[k].size, 0));
      && (Onto(kept, t) == j || (Onto(kept, t) !in kept && j !in kept))
      && (j in kept ==> Prepared(arch, j, Arriving(kept, t, regs)) == Prepared(arch, j, DropTemps(regs)))
  {
    hide Onto, Gapless, Prepared, Place, DropTemps, IsDomain;
    assert Stands(full, kept, k) && full[k].ir == k && kept[k].ir == k;
    hide Thinned;
    var outer := IRAddr(k.addr + full[k].size, 0);
    assert IsLast(kept, k.addr, k);
    OntoNext(kept, IRAddr(k.addr, k.inum + 1), k);
    OntoStart(kept, outer.addr);
    if Onto(kept, outer) in kept {
      DropPrepared(arch, k, Onto(kept, outer), regs);
      StartAtZero(kept, arch, outer, regs);
    }
  }

  /** Arriving at the start of a machine instruction, temporaries are gone in any case. */
  lemma StartAtZero(kept: Items, arch: Arch, t: IRAddr, regs: Regs)
    requires t.inum == 0
    ensures Prepared(arch, Onto(kept, t), Arriving(kept, t, regs)) == Prepared(arch, Onto(kept, t), DropTemps(regs))
  {
    hide Onto;
    DropTwice(regs);
  }

  /** An instruction that is kept is one step of both. */
  lemma KeptStep<M>(full: Items, kept: Items, m: Machine<M>, arch: Arch, d: set<IRAddr>, c: Config<M>, g: Config<M>)
    requires Gapless(full) && Thinned(full, kept, d) && Mirrors(full, kept, arch, d, c, g)
    requires forall k :: k in full ==> full[k].WellFormed()
    requires forall k :: k in kept ==> kept[k].WellFormed()
    requires c.Running? && c.ip in full ==> c.ip in kept
    ensures Mirrors(full, kept, arch, d, Step(full, m, arch, c), Landed(kept, Step(kept, m, arch, g)))
  {
    hide Onto, Prepared, Gapless, Insn.WellFormed, Execute, Insn.Next, Insn.JccLoc, IsDomain;
    if c.Running? && c.ip in full {
      var k := c.ip;
      StoredStays(kept, k);
      assert Prepared(arch, k, g.regs) == Prepared(arch, k, c.regs);
      assert kept.Keys <= full.Keys && Stands(full, kept, k) && full[k].ir == k;
      var regs := Prepared(arch, k, c.regs);
      if kept[k] == full[k] {
        hide Thinned, Mirrors, Arriving;
        SameStep(full, kept, m, arch, d, k, regs, c.mem);
      } else {
        StandInPasses(full, kept, arch, d, k, regs);
        IdleExecutes(m, arch, full[k], regs, c.mem);
        IdleExecutes(m, arch, kept[k], regs, c.mem);
        GoesResolves(full, d, k, full[k].Following());
        hide Thinned, Mirrors, Arriving;
        GoOnMirrors(full, kept, arch, d, full[k].Following(), kept[k].Following(), regs, c.mem);
      }
    }
  }

  lemma IdleExecutes<M>(m: Machine<M>, arch: Arch, insn: Insn, regs: Regs, mem: M)
    requires insn.WellFormed() && Idle(insn)
    ensures Execute(m, arch, insn, regs, mem) == Effect(regs, mem, Fall)
    ensures insn.Next() == Some(insn.Following()) && Goes(insn, insn.Following())
  {
  }

  /** The same instruction goes on to the same place. */
  lemma SameStep<M>(full: Items, kept: Items, m: Machine<M>, arch: Arch, d: set<IRAddr>, k: IRAddr, regs: Regs, mem: M)
    requires Gapless(full) && kept.Keys <= full.Keys && IsDomain(full, d) && k in d
    requires full[k].WellFormed()
    ensures var e := Execute(m, arch, full[k], regs, mem);
      && (e.control.Jump? ==>
            Mirrors(full, kept, arch, d, Running(e.control.to, e.regs, e.mem),
                    Landed(kept, Running(e.control.to, e.regs, e.mem))))
      && (full[k].Next().Some? ==>
            Mirrors(full, kept, arch, d, Running(full[k].Next().value, e.regs, e.mem),
                    Landed(kept, Running(full[k].Next().value, e.regs, e.mem))))
  {
    assert k in full;
    hide Mirrors, Landed, Execute, Insn.WellFormed, Insn.Next, Insn.JccLoc, Gapless, IsDomain, Resolves;
    var e := Execute(m, arch, full[k], regs, mem);
    JumpIsTarget(m, arch, full[k], regs, mem);
    if e.control.Jump? {
      GoesResolves(full, d, k, e.control.to);
      GoOnMirrors(full, kept, arch, d, e.control.to, e.control.to, e.regs, e.mem);
    }
    if full[k].Next().Some? {
      GoesResolves(full, d, k, full[k].Next().value);
      GoOnMirrors(full, kept, arch, d, full[k].Next().value, full[k].Next().value, e.regs, e.mem);
    }
  }

  // ---------- Runs ----------

  /** For every moment of the full run there is one of the run over the gaps, no later. */
  lemma {:induction false} KeptRunFollows<M>(full: Items, kept: Items, m: Machine<M>, arch: Arch, d: set<IRAddr>,
                                             c: Config<M>, g: Config<M>, n: nat) returns (n': nat)
    requires Gapless(full) && Thinned(full, kept, d) && Mirrors(full, kept, arch, d, c, Landed(kept, g))
    requires forall k :: k in full ==> full[k].WellFormed()
    requires forall k :: k in kept ==> kept[k].WellFormed()
    ensures n' <= n && Mirrors(full, kept, arch, d, Run(full, m, arch, c, n), GapRun(kept, m, arch, g, n'))
  {
    hide Gapless, Thinned, Mirrors, Insn.WellFormed, Landed, Step;
    n' := 0;
    if n > 0 {
      n' := KeptRunFollows(full, kept, m, arch, d, c, g, n - 1);
      var now := Run(full, m, arch, c, n - 1);
      if now.Running? && now.ip in full && now.ip !in kept {
        IdleStep(full, kept, m, arch, d, now, GapRun(kept, m, arch, g, n'));
      } else {
        KeptStep(full, kept, m, arch, d, now, GapRun(kept, m, arch, g, n'));
        n' := n' + 1;
      }
    }
  }

  /** The full run gets through idle instructions that are not kept. */
  lemma {:induction false} GetsThrough<M>(full: Items, kept: Items, m: Machine<M>, arch: Arch, d: set<IRAddr>,
                                          c: Config<M>, g: Config<M>) returns (n: nat)
    requires Gapless(full) && Thinned(full, kept, d) && Mirrors(full, kept, arch, d, c, g)
    requires forall k :: k in full ==> full[k].WellFormed()
    ensures var c' := Run(full, m, arch, c, n);
      Mirrors(full, kept, arch, d, c', g) && (c'.Running? && c'.ip in full ==> c'.ip in kept)
    decreases if c.Running? then |KeysFrom(full, c.ip)| else 0
  {
    hide Gapless, Thinned, Mirrors, Insn.WellFormed;
    n := 0;
    if c.Running? && c.ip in full && c.ip !in kept {
      var next := Step(full, m, arch, c);
      IdleStep(full, kept, m, arch, d, c, g);
      hide Step;
      KeysShrink(full, c.ip, next.ip);
      n := GetsThrough(full, kept, m, arch, d, next, g);
      assert Run(full, m, arch, c, 1) == next by { OneStep(full, m, arch, c); }
      RunTwice(full, m, arch, c, 1, n);
      n := 1 + n;
    }
  }

  lemma KeysShrink(items: Items, at: IRAddr, next: IRAddr)
    requires at in items && Before(at, next)
    ensures |KeysFrom(items, next)| < |KeysFrom(items, at)|
  {
    assert at in KeysFrom(items, at) && at !in KeysFrom(items, next);
    SubsetCount(KeysFrom(items, next), KeysFrom(items, at) - {at});
  }

  /** For every moment of the run over the gaps there is one of the full run. */
  lemma {:induction false} FullRunFollows<M>(full: Items, kept: Items, m: Machine<M>, arch: Arch, d: set<IRAddr>,
                                             c: Config<M>, g: Config<M>, n: nat) returns (n': nat)
    requires Gapless(full) && Thinned(full, kept, d) && Mirrors(full, kept, arch, d, c, Landed(kept, g))
    requires forall k :: k in full ==> full[k].WellFormed()
    requires forall k :: k in kept ==> kept[k].WellFormed()
    ensures Mirrors(full, kept, arch, d, Run(full, m, arch, c, n'), GapRun(kept, m, arch, g, n))
  {
    hide Gapless, Thinned, Mirrors, Insn.WellFormed, Landed, Step;
    n' := 0;
    if n == 0 {
      OneStep(full, m, arch, c);
    } else {
      var before := FullRunFollows(full, kept, m, arch, d, c, g, n - 1);
      var now := Run(full, m, arch, c, before);
      var more := GetsThrough(full, kept, m, arch, d, now, GapRun(kept, m, arch, g, n - 1));
      RunTwice(full, m, arch, c, before, more);
      var ready := Run(full, m, arch, c, before + more);
      KeptStep(full, kept, m, arch, d, ready, GapRun(kept, m, arch, g, n - 1));
      n' := before + more + 1;
    }
  }
}
