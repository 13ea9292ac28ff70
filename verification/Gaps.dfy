/** Code with gaps: where control arrives when it is sent to an instruction that was deleted. */
module Gaps {
  import opened Ir
  import opened Code
  import opened Renumbering
  import opened Vm

  /** The first stored instruction of a machine instruction at or behind a place. */
  ghost predicate IsFirst(items: Items, at: IRAddr, j: IRAddr) {
    && j in items && j.addr == at.addr && at.inum <= j.inum
    && (forall i :: i in items && i.addr == at.addr && at.inum <= i.inum ==> j.inum <= i.inum)
  }

  ghost predicate IsLast(items: Items, addr: nat, k: IRAddr) {
    k in items && k.addr == addr && LastOfMachineInsn(items, k)
  }

  ghost predicate HasCode(items: Items, addr: nat) {
    exists j :: j in items && j.addr == addr
  }

  ghost function NextIn(items: Items, at: IRAddr): (j: IRAddr)
    ensures (exists i :: IsFirst(items, at, i)) ==> IsFirst(items, at, j)
    ensures !(exists i :: IsFirst(items, at, i)) ==> j == at
  {
    if i :| IsFirst(items, at, i) then i else at
  }

  /**
   * Where control that is sent to a place arrives: a missing instruction does nothing. Behind the last
   * instruction of a machine instruction comes the machine instruction after it.
   */
  ghost function Onto(items: Items, at: IRAddr): IRAddr {
    if exists j :: IsFirst(items, at, j) then NextIn(items, at)
    else if k :| IsLast(items, at.addr, k) then NextIn(items, IRAddr(at.addr + items[k].size, 0))
    else at
  }

  lemma {:induction false} LeastOf(s: set<IRAddr>, addr: nat) returns (j: IRAddr)
    requires s != {} && forall i :: i in s ==> i.addr == addr
    ensures j in s && forall i :: i in s ==> j.inum <= i.inum
  {
    j :| j in s;
    if s != {j} {
      var i := LeastOf(s - {j}, addr);
      if i.inum < j.inum { j := i; }
    }
  }

  /** If anything is stored at or behind a place there is a first. */
  lemma FirstExists(items: Items, at: IRAddr, i: IRAddr) returns (j: IRAddr)
    requires i in items && i.addr == at.addr && at.inum <= i.inum
    ensures IsFirst(items, at, j)
  {
    var s := set x | x in items && x.addr == at.addr && at.inum <= x.inum;
    assert i in s;
    j := LeastOf(s, at.addr);
  }

  lemma LastExists(items: Items, i: IRAddr) returns (k: IRAddr)
    requires i in items
    ensures IsLast(items, i.addr, k)
  {
    var s := set x | x in items && x.addr == i.addr;
    assert i in s;
    k := Greatest(s, i.addr);
  }

  lemma FirstIsOnto(items: Items, at: IRAddr, j: IRAddr)
    requires IsFirst(items, at, j)
    ensures Onto(items, at) == j
  {
    var i := NextIn(items, at);
    assert IsFirst(items, at, i);
    assert i.inum == j.inum;
  }

  lemma StoredStays(items: Items, at: IRAddr)
    requires at in items
    ensures Onto(items, at) == at
  {
    FirstIsOnto(items, at, at);
  }

  /** Behind the last instruction. */
  lemma OntoNext(items: Items, at: IRAddr, k: IRAddr)
    requires IsLast(items, at.addr, k) && k.inum < at.inum
    ensures Onto(items, at) == NextIn(items, IRAddr(at.addr + items[k].size, 0))
  {
    forall j
      ensures !IsFirst(items, at, j)
    {
    }
    assert forall i :: IsLast(items, at.addr, i) ==> i == k;
  }

  /** The three ways to arrive. */
  lemma OntoCases(items: Items, at: IRAddr)
    ensures var j := Onto(items, at);
      || IsFirst(items, at, j)
      || (HasCode(items, at.addr) && (forall i :: i in items && i.addr == at.addr ==> i.inum < at.inum)
          && exists k :: IsLast(items, at.addr, k) && j == NextIn(items, IRAddr(at.addr + items[k].size, 0)))
      || (!HasCode(items, at.addr) && j == at)
  {
    if i :| i in items && i.addr == at.addr && at.inum <= i.inum {
      var j := FirstExists(items, at, i);
      FirstIsOnto(items, at, j);
    } else if i :| i in items && i.addr == at.addr {
      var k := LastExists(items, i);
      OntoNext(items, at, k);
    }
  }

  /** The start of a machine instruction: its first stored instruction, if it has one. */
  lemma OntoStart(items: Items, addr: nat)
    ensures var at := IRAddr(addr, 0); var j := Onto(items, at);
      && NextIn(items, at) == j
      && (HasCode(items, addr) ==> j in items && j.addr == addr && Place(items, j) == at)
      && (!HasCode(items, addr) ==> j == at && at !in items)
  {
    var at := IRAddr(addr, 0);
    OntoCases(items, at);
    if i :| i in items && i.addr == addr {
      var j := FirstExists(items, at, i);
      FirstIsOnto(items, at, j);
      assert InFrontOf(items, j) == {};
    }
  }

  /** What is sent to a place that is not reached is not found after renumbering either. */
  lemma LostStays(items: Items, items': Items, t: IRAddr)
    requires Renumbered(items, items') && Onto(items, t) !in items
    ensures t !in items'
  {
    hide Place;
    OntoCases(items, t);
    if t in items' {
      var j :| j in items && Place(items, j) == t;
      PlaceIsBefore(items, j);
      PlaceAddr(items, j);
      assert false;
    }
  }

  lemma PlaceAddr(items: Items, k: IRAddr)
    ensures Place(items, k).addr == k.addr
  {
  }

  // ---------- Runs over gaps ----------

  /** Whether control on its way passes the start of a machine instruction, where temporaries are dropped. */
  predicate PassesStart(at: IRAddr, j: IRAddr) {
    j != at && (at.inum == 0 || j.addr != at.addr)
  }

  ghost function Arriving(items: Items, at: IRAddr, regs: Regs): Regs {
    if PassesStart(at, Onto(items, at)) then DropTemps(regs) else regs
  }

  ghost function Landed<M>(items: Items, c: Config<M>): Config<M> {
    match c
    case Running(at, regs, mem) => Running(Onto(items, at), Arriving(items, at, regs), mem)
    case _ => c
  }

  /** A run that takes missing instructions for instructions that do nothing. */
  ghost function GapRun<M>(items: Items, m: Machine<M>, arch: Arch, c: Config<M>, n: nat): Config<M>
    requires forall k :: k in items ==> items[k].WellFormed()
  {
    if n == 0 then Landed(items, c) else Landed(items, Step(items, m, arch, GapRun(items, m, arch, c, n - 1)))
  }

  /** Without gaps on its way it is an ordinary run. */
  lemma {:induction false} GapRunIsRun<M>(items: Items, m: Machine<M>, arch: Arch, c: Config<M>, n: nat)
    requires forall k :: k in items ==> items[k].WellFormed()
    requires forall i: nat :: i <= n && Run(items, m, arch, c, i).Running? ==> Run(items, m, arch, c, i).ip in items
    ensures GapRun(items, m, arch, c, n) == Run(items, m, arch, c, n)
  {
    hide Step, Onto;
    if n > 0 { GapRunIsRun(items, m, arch, c, n - 1); }
    var d := Run(items, m, arch, c, n);
    assert n <= n;
    if d.Running? { StoredStays(items, d.ip); }
  }
}
