/** Elimination marks in stored code: only the storing of graphs looks at them. */
module Marks {
  import opened Wrappers
  import opened Ir
  import opened Code
  import opened Dfg
  import opened DeadCode
  import opened RenumberingCorrect
  import opened Store
  import opened Vm

  /** A mark changes nothing but the elimination flag. */
  lemma MarkIs(insn: Insn)
    ensures insn.Mark().ir == insn.ir && insn.Mark().size == insn.size && insn.Mark().Next() == insn.Next()
    ensures insn.Mark().JccLoc() == insn.JccLoc() && insn.Mark().WellFormed() == insn.WellFormed()
    ensures insn.Mark().Src() == insn.Src() && insn.Mark().Dst() == insn.Dst()
    ensures insn.Mark().flags.asmEnd == insn.flags.asmEnd && insn.Mark().forcedNext == insn.forcedNext
  {
  }

  lemma MarkedResolves(items: Items, marks: set<Key>, items': Items)
    requires IsMarked(items, marks, items')
    ensures forall at :: Resolves(items, at) <==> Resolves(items', at)
  {
  }

  lemma MarkedTargets(items: Items, marks: set<Key>, items': Items, k: IRAddr)
    requires WellFormedCode(items) && IsMarked(items, marks, items') && k in items
    ensures TargetsResolve(items', items'[k])
  {
    hide Insn.WellFormed, Insn.JccLoc, Insn.Mark, Resolves;
    MarkedResolves(items, marks, items');
    MarkIs(items[k]);
    forall t | items'[k].JccLoc() == Some(t) || items'[k].forcedNext == Some(t)
      ensures Resolves(items', t)
    {
      assert items[k].JccLoc() == Some(t) || items[k].forcedNext == Some(t);
      assert Resolves(items, t);
    }
  }

  lemma MarkedNumbers(items: Items, marks: set<Key>, items': Items, k: IRAddr, n: nat)
    requires WellFormedCode(items) && IsMarked(items, marks, items') && k in items && n < k.inum
    ensures IRAddr(k.addr, n) in items' && !items'[IRAddr(k.addr, n)].flags.asmEnd
  {
    hide Insn.WellFormed, Resolves;
    var at := IRAddr(k.addr, n);
    assert items[k].ir == k && (at in items ==> items[at] == items[at]);
  }

  /** Marked code is fit for building its graphs as before. */
  lemma MarkedIsWellFormed(items: Items, marks: set<Key>, items': Items)
    requires WellFormedCode(items) && IsMarked(items, marks, items')
    ensures WellFormedCode(items')
    ensures forall at :: Resolves(items, at) <==> Resolves(items', at)
  {
    MarkedResolves(items, marks, items');
    hide Insn.WellFormed, Insn.JccLoc, Insn.Mark, Resolves, TargetsResolve;
    forall k | k in items'
      ensures items'[k].ir == k && items'[k].WellFormed() && TargetsResolve(items', items'[k])
    {
      MarkIs(items[k]);
      MarkedTargets(items, marks, items', k);
    }
    forall k, n: nat | k in items' && n < k.inum
      ensures IRAddr(k.addr, n) in items' && !items'[IRAddr(k.addr, n)].flags.asmEnd
    {
      MarkedNumbers(items, marks, items', k, n);
    }
    hide IsMarked;
    ResolvedIsWellFormed(items');
  }

  lemma MarkedExecute<M>(m: Machine<M>, arch: Arch, insn: Insn, regs: Regs, mem: M)
    requires insn.WellFormed()
    ensures insn.Mark().WellFormed() && Execute(m, arch, insn.Mark(), regs, mem) == Execute(m, arch, insn, regs, mem)
  {
  }

  /** Marks do not show in any run. */
  lemma {:induction false} MarkedRuns<M>(items: Items, marks: set<Key>, items': Items, m: Machine<M>, arch: Arch,
                                         c: Config<M>, n: nat)
    requires IsMarked(items, marks, items') && forall k :: k in items ==> items[k].WellFormed()
    ensures forall k :: k in items' ==> items'[k].WellFormed()
    ensures Run(items', m, arch, c, n) == Run(items, m, arch, c, n)
  {
    hide Insn.WellFormed, Execute, Prepared, Insn.Next, Insn.Mark;
    forall k | k in items
      ensures items'[k].WellFormed() && items'[k].Next() == items[k].Next()
    {
      MarkIs(items[k]);
    }
    if n > 0 {
      MarkedRuns(items, marks, items', m, arch, c, n - 1);
      var before := Run(items, m, arch, c, n - 1);
      if before.Running? && before.ip in items {
        MarkedExecute(m, arch, items[before.ip], Prepared(arch, before.ip, before.regs), before.mem);
      }
    }
  }

  lemma {:induction false} MarkedMachineCode(items: Items, marks: set<Key>, items': Items, at: IRAddr)
    requires IsMarked(items, marks, items')
    ensures MachineCode(items', at).Ok? == MachineCode(items, at).Ok?
    ensures MachineCode(items, at).Ok? ==> |MachineCode(items', at).value| == |MachineCode(items, at).value|
    decreases KeysFrom(items, at)
  {
    if at in items && !items[at].flags.asmEnd {
      assert at in KeysFrom(items, at) && at !in KeysFrom(items, IRAddr(at.addr, at.inum + 1));
      MarkedMachineCode(items, marks, items', IRAddr(at.addr, at.inum + 1));
    }
  }

  lemma MarkedTaken(items: Items, marks: set<Key>, items': Items)
    requires IsMarked(items, marks, items')
    ensures forall k :: Taken(items', k) <==> Taken(items, k)
  {
    hide IsMarked;
    forall k
      ensures Taken(items', k) <==> Taken(items, k)
    {
      MarkedMachineCode(items, marks, items', IRAddr(k.addr, 0));
    }
  }
}
