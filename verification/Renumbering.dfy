/** Renumbering IR code: what the pass that closes gaps and repairs end flags leaves. */
module Renumbering {
  import opened Wrappers
  import opened Ir
  import opened Code

  /** Every instruction is stored under its own address. */
  ghost predicate Keyed(items: Items) {
    forall k :: k in items ==> items[k].ir == k
  }

  /** The IR instructions of the same machine instruction in front of `k`. */
  ghost function InFrontOf(items: Items, k: IRAddr): set<IRAddr> {
    set j | j in items && j.addr == k.addr && j.inum < k.inum
  }

  /** Where renumbering puts `k`: numbers count the instructions in front. */
  ghost function Place(items: Items, k: IRAddr): IRAddr {
    IRAddr(k.addr, |InFrontOf(items, k)|)
  }

  ghost predicate LastOfMachineInsn(items: Items, k: IRAddr) {
    forall j :: j in items && j.addr == k.addr ==> j.inum <= k.inum
  }

  ghost predicate HigherCode(items: Items, k: IRAddr) {
    exists j :: j in items && j.addr > k.addr
  }

  /** Only the machine instruction with the highest address is not closed by an end flag. */
  ghost predicate Closed(items: Items, k: IRAddr) {
    LastOfMachineInsn(items, k) && HigherCode(items, k)
  }

  /** Jumps whose location operand is rewritten: not those of calls and returns. */
  predicate Redirectable(insn: Insn) {
    insn.op == JCC && insn.c.Loc? && !insn.flags.call && !insn.flags.ret
  }

  /** The instruction at its new place, with its end flag. */
  ghost function Moved(items: Items, k: IRAddr): Insn
    requires k in items
  {
    items[k].(ir := Place(items, k), flags := items[k].flags.(asmEnd := items[k].flags.asmEnd || Closed(items, k)))
  }

  ghost function Redirected(items: Items, insn: Insn): Insn {
    if Redirectable(insn) && insn.c.loc in items then insn.(c := Loc(Place(items, insn.c.loc))) else insn
  }

  /** The code after renumbering: each instruction at its new place, its jump pointing to the target's new place. */
  ghost predicate Renumbered(items: Items, items': Items) {
    && (forall k :: k in items ==> Stored(items', Place(items, k), Redirected(items, Moved(items, k))))
    && (forall k' :: k' in items' ==> exists k :: k in items && Place(items, k) == k')
  }

  /**
   * What the pass leaves alone: operations, sizes and lists; every operand but a stored location that an instruction
   * jumps to without calling or returning; and every flag but a missing end flag.
   */
  lemma WhatChanges(items: Items, items': Items, k: IRAddr)
    requires Renumbered(items, items') && k in items
    ensures Place(items, k) in items'
    ensures var insn, insn' := items[k], items'[Place(items, k)];
      && insn' == insn.(ir := insn'.ir, c := insn'.c, flags := insn.flags.(asmEnd := insn'.flags.asmEnd))
      && (insn'.c != insn.c ==> insn.JccLoc() == Some(insn.c.loc) && insn.c.loc in items)
      && (insn.c.Loc? && insn.c.loc in items && insn.op == JCC ==>
            insn'.c == if insn.flags.call || insn.flags.ret then insn.c else Loc(Place(items, insn.c.loc)))
    ensures items'[Place(items, k)].flags.asmEnd == (
      || items[k].flags.asmEnd
      || ((exists j :: j in items && j.addr > k.addr) &&
          forall j :: j in items && j.addr == k.addr ==> j.inum <= k.inum))
  {
    hide Place;
    assert Stored(items', Place(items, k), Redirected(items, Moved(items, k)));
  }

  // ---------- Places ----------

  lemma InFrontGrows(items: Items, j: IRAddr, k: IRAddr)
    requires j in items && j.addr == k.addr && j.inum < k.inum
    ensures |InFrontOf(items, j)| < |InFrontOf(items, k)|
  {
    assert j in InFrontOf(items, k) && j !in InFrontOf(items, j);
    SubsetCount(InFrontOf(items, j), InFrontOf(items, k) - {j});
  }

  /** The order of the code stays. */
  lemma PlaceKeepsOrder(items: Items, j: IRAddr, k: IRAddr)
    requires j in items && k in items
    ensures Before(j, k) <==> Before(Place(items, j), Place(items, k))
    ensures j == k <==> Place(items, j) == Place(items, k)
  {
    if j.addr == k.addr && j.inum < k.inum { InFrontGrows(items, j, k); }
    if j.addr == k.addr && k.inum < j.inum { InFrontGrows(items, k, j); }
  }

  lemma PlaceIsBefore(items: Items, k: IRAddr)
    ensures Place(items, k).inum <= k.inum
  {
    InumsBelow(items, k, k.inum);
  }

  lemma {:induction false} InumsBelow(items: Items, k: IRAddr, n: nat)
    ensures |set j | j in items && j.addr == k.addr && j.inum < n| <= n
  {
    var s := set j | j in items && j.addr == k.addr && j.inum < n;
    if n > 0 {
      InumsBelow(items, k, n - 1);
      var less := set j | j in items && j.addr == k.addr && j.inum < n - 1;
      var last := IRAddr(k.addr, n - 1);
      assert s <= less + {last};
      SubsetCount(s, less + {last});
    } else {
      assert s == {};
    }
  }

  /** The new numbers of a machine instruction leave no gap. */
  lemma {:induction false} PlacesAreContiguous(items: Items, k: IRAddr, n: nat) returns (j: IRAddr)
    requires k in items && n <= Place(items, k).inum
    ensures j in items && Place(items, j) == IRAddr(k.addr, n) && j.addr == k.addr && j.inum <= k.inum
    decreases k.inum
  {
    j := k;
    if n < Place(items, k).inum {
      var front := InFrontOf(items, k);
      assert front != {};
      var last := Greatest(front, k.addr);
      assert front == InFrontOf(items, last) + {last};
      j := PlacesAreContiguous(items, last, n);
    }
  }

  lemma {:induction false} Greatest(s: set<IRAddr>, addr: nat) returns (k: IRAddr)
    requires s != {} && forall j :: j in s ==> j.addr == addr
    ensures k in s && forall j :: j in s ==> j.inum <= k.inum
  {
    k :| k in s;
    if s != {k} {
      var k' := Greatest(s - {k}, addr);
      if k'.inum > k.inum { k := k'; }
    }
  }

  // ---------- What the pass promises ----------

  /** Numbers without gaps from zero, and an end flag on every machine instruction but the highest. */
  ghost predicate Settled(items: Items) {
    && Keyed(items)
    && (forall k :: k in items ==> Place(items, k) == k)
    && (forall k :: k in items && Closed(items, k) ==> items[k].flags.asmEnd)
  }

  /** Instructions in front of a place are the moved instructions in front. */
  lemma {:induction false} PlaceOfPlace(items: Items, items': Items, k: IRAddr)
    requires Renumbered(items, items') && k in items
    ensures Place(items', Place(items, k)) == Place(items, k)
  {
    var p := Place(items, k);
    var front := InFrontOf(items', p);
    forall n: nat | n < p.inum
      ensures IRAddr(p.addr, n) in front
    {
      var j := PlacesAreContiguous(items, k, n);
      assert Stored(items', Place(items, j), Redirected(items, Moved(items, j)));
    }
    assert front == set n | 0 <= n < p.inum :: IRAddr(p.addr, n);
    Numbers(p.addr, p.inum);
  }

  lemma {:induction false} Numbers(addr: nat, n: nat)
    ensures |set i | 0 <= i < n :: IRAddr(addr, i)| == n
  {
    var s := set i | 0 <= i < n :: IRAddr(addr, i);
    if n > 0 {
      Numbers(addr, n - 1);
      var less := set i | 0 <= i < n - 1 :: IRAddr(addr, i);
      assert IRAddr(addr, n - 1) !in less;
      assert s == less + {IRAddr(addr, n - 1)} by {
        forall x | x in less + {IRAddr(addr, n - 1)}
          ensures x in s
        {
          assert x == IRAddr(addr, x.inum);
        }
      }
    } else {
      assert s == {};
    }
  }

  /** Renumbered code is settled. */
  lemma RenumberedIsSettled(items: Items, items': Items)
    requires Renumbered(items, items')
    ensures Settled(items')
  {
    hide Place, Redirected;
    forall k' | k' in items'
      ensures items'[k'].ir == k' && Place(items', k') == k'
      ensures Closed(items', k') ==> items'[k'].flags.asmEnd
    {
      var k :| k in items && Place(items, k) == k';
      assert Stored(items', Place(items, k), Redirected(items, Moved(items, k)));
      RedirectedKeeps(items, Moved(items, k));
      PlaceOfPlace(items, items', k);
      if Closed(items', k') { ClosedBefore(items, items', k); }
    }
  }

  lemma RedirectedKeeps(items: Items, insn: Insn)
    ensures Redirected(items, insn).ir == insn.ir && Redirected(items, insn).flags == insn.flags
  {
  }

  lemma ClosedBefore(items: Items, items': Items, k: IRAddr)
    requires Renumbered(items, items') && k in items
    ensures Closed(items', Place(items, k)) <==> Closed(items, k)
  {
    hide Redirected, Moved;
    var k' := Place(items, k);
    forall j | j in items
      ensures Place(items, j) in items'
    {
      assert Stored(items', Place(items, j), Redirected(items, Moved(items, j)));
    }
    if LastOfMachineInsn(items', k') {
      forall j | j in items && j.addr == k.addr
        ensures j.inum <= k.inum
      {
        PlaceKeepsOrder(items, k, j);
      }
    }
    if LastOfMachineInsn(items, k) {
      forall j' | j' in items' && j'.addr == k'.addr
        ensures j'.inum <= k'.inum
      {
        var j :| j in items && Place(items, j) == j';
        PlaceKeepsOrder(items, k, j);
      }
    }
    if HigherCode(items, k) {
      var j :| j in items && j.addr > k.addr;
      assert Place(items, j) in items';
    }
    if j' :| j' in items' && j'.addr > k'.addr {
      var j :| j in items && Place(items, j) == j';
    }
  }

  /** Settled code is its own renumbering, and no other code is. */
  lemma SettledStays(items: Items, items': Items)
    requires Settled(items)
    ensures Renumbered(items, items') <==> items' == items
  {
    hide Place, Closed;
    forall k | k in items
      ensures Redirected(items, Moved(items, k)) == items[k]
    {
    }
    if Renumbered(items, items') {
      assert forall k :: k in items ==> Stored(items', Place(items, k), Redirected(items, Moved(items, k)));
      assert items.Keys == items'.Keys;
    }
  }

  /** Renumbering twice changes nothing more. */
  lemma RenumberingIsIdempotent(items: Items, items': Items, items'': Items)
    requires Renumbered(items, items') && Renumbered(items', items'')
    ensures items'' == items'
  {
    RenumberedIsSettled(items, items');
    SettledStays(items', items'');
  }

  // ---------- The scan over the code in order ----------

  /** The keys as the storage sorts them. */
  ghost predicate InOrder(items: Items, keys: seq<IRAddr>) {
    && (forall k :: k in keys <==> k in items)
    && (forall i, j :: 0 <= i < j < |keys| ==> Before(keys[i], keys[j]))
  }

  lemma PlaceInOrder(items: Items, keys: seq<IRAddr>, n: nat)
    requires InOrder(items, keys) && n < |keys|
    ensures Place(items, keys[n]).addr == keys[n].addr
    ensures Place(items, keys[n]).inum ==
      if n > 0 && keys[n - 1].addr == keys[n].addr then Place(items, keys[n - 1]).inum + 1 else 0
  {
    var front := InFrontOf(items, keys[n]);
    forall k | k in front
      ensures n > 0 && keys[n - 1].addr == keys[n].addr && k in InFrontOf(items, keys[n - 1]) + {keys[n - 1]}
    {
      var i :| 0 <= i < |keys| && keys[i] == k;
      assert i < n;
      assert i < n - 1 ==> Before(keys[i], keys[n - 1]);
      assert n - 1 >= 0 && (keys[n - 1] == k || Before(keys[n - 1], keys[n]));
    }
    if n > 0 && keys[n - 1].addr == keys[n].addr {
      assert Before(keys[n - 1], keys[n]);
      assert front == InFrontOf(items, keys[n - 1]) + {keys[n - 1]};
    } else {
      assert front == {};
    }
  }

  /** What the list of updates leaves at a place: the latest entry. */
  function Latest(updated: seq<Insn>, at: IRAddr): Option<Insn> {
    if updated == [] then None
    else if updated[|updated| - 1].ir == at then Some(updated[|updated| - 1])
    else Latest(updated[..|updated| - 1], at)
  }

  lemma LatestOfMore(updated: seq<Insn>, insn: Insn)
    ensures forall at :: Latest(updated + [insn], at) == if insn.ir == at then Some(insn) else Latest(updated, at)
  {
    assert (updated + [insn])[..|updated|] == updated;
  }

  /** In the first `n` keys, the machine instruction of key `i` ends with it and another one follows. */
  predicate ClosedInScan(keys: seq<IRAddr>, n: nat, i: nat)
    requires n <= |keys|
  {
    i + 1 < n && keys[i + 1].addr != keys[i].addr
  }

  ghost function UpdateOf(items: Items, keys: seq<IRAddr>, n: nat, i: nat): Option<Insn>
    requires n <= |keys| && i < n && keys[i] in items
  {
    var insn := items[keys[i]];
    var closed := ClosedInScan(keys, n, i) && !insn.flags.asmEnd;
    if Place(items, keys[i]) != keys[i] || closed
    then Some(insn.(ir := Place(items, keys[i]), flags := insn.flags.(asmEnd := insn.flags.asmEnd || closed)))
    else None
  }

  ghost predicate ScannedUpdates(items: Items, keys: seq<IRAddr>, n: nat, updated: seq<Insn>) {
    && n <= |keys|
    && (forall i :: 0 <= i < n && keys[i] in items ==>
          Latest(updated, Place(items, keys[i])) == UpdateOf(items, keys, n, i))
    && (forall at :: Latest(updated, at).Some? ==> exists i :: 0 <= i < n && Place(items, keys[i]) == at)
  }

  /** The old places of moved instructions, and where they go. */
  ghost predicate ScannedMoves(items: Items, keys: seq<IRAddr>, n: nat, deleted: seq<IRAddr>,
                               moved: map<IRAddr, IRAddr>) {
    && n <= |keys|
    && (forall k :: k in moved <==> k in keys[..n] && Place(items, k) != k)
    && (forall k :: k in moved ==> moved[k] == Place(items, k))
    && (forall k :: k in deleted <==> k in moved)
    && (forall i, j :: 0 <= i < j < |deleted| ==> deleted[i] != deleted[j])
  }

  lemma PlacesDiffer(items: Items, keys: seq<IRAddr>, i: nat, j: nat)
    requires InOrder(items, keys) && i < j < |keys|
    ensures Place(items, keys[i]) != Place(items, keys[j])
  {
    assert Before(keys[i], keys[j]);
    PlaceKeepsOrder(items, keys[i], keys[j]);
  }

  lemma NoUpdateYet(items: Items, keys: seq<IRAddr>, n: nat, updated: seq<Insn>)
    requires InOrder(items, keys) && n < |keys| && ScannedUpdates(items, keys, n, updated)
    ensures Latest(updated, Place(items, keys[n])).None?
  {
    hide Place, Latest, InOrder;
    if Latest(updated, Place(items, keys[n])).Some? {
      var j :| 0 <= j < n && Place(items, keys[j]) == Place(items, keys[n]);
      PlacesDiffer(items, keys, j, n);
    }
  }

  /** The entry of the instruction in front when key `n` starts another machine instruction. */
  ghost function ClosingUpdate(items: Items, keys: seq<IRAddr>, n: nat): Option<Insn>
    requires n < |keys|
  {
    if n > 0 && keys[n - 1] in items && keys[n - 1].addr != keys[n].addr && !items[keys[n - 1]].flags.asmEnd then
      var last := items[keys[n - 1]];
      Some(last.(ir := Place(items, keys[n - 1]), flags := last.flags.(asmEnd := true)))
    else None
  }

  /** The entry of an instruction that moves. */
  ghost function MovingUpdate(items: Items, k: IRAddr): Option<Insn>
    requires k in items
  {
    if Place(items, k) != k then Some(items[k].(ir := Place(items, k))) else None
  }

  ghost function Added(updated: seq<Insn>, more: Option<Insn>): seq<Insn> {
    if more.Some? then updated + [more.value] else updated
  }

  lemma LatestOfAdded(updated: seq<Insn>, more: Option<Insn>, at: IRAddr)
    ensures Latest(Added(updated, more), at)
         == if more.Some? && more.value.ir == at then more else Latest(updated, at)
  {
    if more.Some? { LatestOfMore(updated, more.value); }
  }

  lemma UpdateStepAt(items: Items, keys: seq<IRAddr>, n: nat, updated: seq<Insn>, i: nat)
    requires Keyed(items) && InOrder(items, keys) && n < |keys| && i <= n
    requires ScannedUpdates(items, keys, n, updated) && keys[n] in items && keys[i] in items
    ensures Latest(Added(Added(updated, ClosingUpdate(items, keys, n)), MovingUpdate(items, keys[n])),
                   Place(items, keys[i]))
         == UpdateOf(items, keys, n + 1, i)
  {
    hide Place, Latest, InOrder, Added, Keyed;
    var at := Place(items, keys[i]);
    LatestOfAdded(updated, ClosingUpdate(items, keys, n), at);
    LatestOfAdded(Added(updated, ClosingUpdate(items, keys, n)), MovingUpdate(items, keys[n]), at);
    if i < n { PlacesDiffer(items, keys, i, n); } else { NoUpdateYet(items, keys, n, updated); }
    if i < n - 1 { PlacesDiffer(items, keys, i, n - 1); }
    if i == n && n > 0 { PlacesDiffer(items, keys, n - 1, n); }
    if i < n { UpdateGrows(items, keys, n, i); }
  }

  lemma UpdateGrows(items: Items, keys: seq<IRAddr>, n: nat, i: nat)
    requires i < n < |keys| && keys[i] in items
    ensures UpdateOf(items, keys, n + 1, i)
         == if i == n - 1 && ClosingUpdate(items, keys, n).Some? then ClosingUpdate(items, keys, n)
            else UpdateOf(items, keys, n, i)
  {
    hide Place;
  }

  /** The updates after one more key: the end flag of the key in front, and the new place. */
  lemma UpdatesStep(items: Items, keys: seq<IRAddr>, n: nat, updated: seq<Insn>)
    requires Keyed(items) && InOrder(items, keys) && n < |keys| && keys[n] in items
    requires ScannedUpdates(items, keys, n, updated)
    ensures ScannedUpdates(items, keys, n + 1,
      Added(Added(updated, ClosingUpdate(items, keys, n)), MovingUpdate(items, keys[n])))
  {
    hide Place, Latest, Added, UpdateOf, InOrder;
    var updated' := Added(Added(updated, ClosingUpdate(items, keys, n)), MovingUpdate(items, keys[n]));
    forall i | 0 <= i < n + 1 && keys[i] in items
      ensures Latest(updated', Place(items, keys[i])) == UpdateOf(items, keys, n + 1, i)
    {
      UpdateStepAt(items, keys, n, updated, i);
    }
    forall at | Latest(updated', at).Some?
      ensures exists i :: 0 <= i < n + 1 && Place(items, keys[i]) == at
    {
      LatestOfAdded(updated, ClosingUpdate(items, keys, n), at);
      LatestOfAdded(Added(updated, ClosingUpdate(items, keys, n)), MovingUpdate(items, keys[n]), at);
      if Latest(updated, at).Some? {
        var i :| 0 <= i < n && Place(items, keys[i]) == at;
      } else {
        assert at == Place(items, keys[n]) || (n > 0 && at == Place(items, keys[n - 1]));
      }
    }
  }

  lemma MovesStep(items: Items, keys: seq<IRAddr>, n: nat, deleted: seq<IRAddr>, moved: map<IRAddr, IRAddr>)
    requires InOrder(items, keys) && n < |keys| && ScannedMoves(items, keys, n, deleted, moved)
    ensures var k := keys[n]; var at := Place(items, k);
      if at != k then ScannedMoves(items, keys, n + 1, deleted + [k], moved[k := at])
      else ScannedMoves(items, keys, n + 1, deleted, moved)
  {
    hide Place;
    assert keys[..n + 1] == keys[..n] + [keys[n]];
    assert forall i :: 0 <= i < n ==> Before(keys[i], keys[n]);
  }

  lemma ScanStarts(items: Items, keys: seq<IRAddr>)
    ensures ScannedUpdates(items, keys, 0, []) && ScannedMoves(items, keys, 0, [], map[])
  {
  }

  // ---------- The commit ----------

  /** The code after the updates are put into it. */
  ghost predicate Committed(base: Items, updated: seq<Insn>, items': Items) {
    && (forall at :: at in items' <==> at in base || Latest(updated, at).Some?)
    && (forall at :: at in items' && Latest(updated, at).Some? ==> items'[at] == Latest(updated, at).value)
    && (forall at :: at in items' && Latest(updated, at).None? ==> items'[at] == base[at])
  }

  lemma CommitStarts(items: Items)
    ensures Committed(items, [], items)
  {
  }

  lemma DeletedOnce(items: Items, keys: seq<IRAddr>, deleted: seq<IRAddr>, moved: map<IRAddr, IRAddr>)
    requires InOrder(items, keys) && ScannedMoves(items, keys, |keys|, deleted, moved)
    ensures forall k :: k in deleted ==> k in items
    ensures forall i, j :: 0 <= i < j < |deleted| ==> deleted[i] != deleted[j]
  {
    assert keys[..|keys|] == keys;
  }

  lemma TakeOneMore<T>(s: seq<T>, n: nat)
    requires n < |s| && forall i, j :: 0 <= i < j < |s| ==> s[i] != s[j]
    ensures s[n] in s && s[n] !in s[..n] && forall x :: x in s[..n + 1] <==> x in s[..n] || x == s[n]
  {
    assert s[..n + 1] == s[..n] + [s[n]];
  }

  lemma MovesLeave(items: Items, keys: seq<IRAddr>, deleted: seq<IRAddr>, moved: map<IRAddr, IRAddr>, base: Items)
    requires InOrder(items, keys) && ScannedMoves(items, keys, |keys|, deleted, moved)
    requires forall k :: k in base <==> k in items && k !in deleted
    ensures forall k :: k in base <==> k in items && Place(items, k) == k
  {
    assert keys[..|keys|] == keys;
  }

  lemma AllMovedIsKeyed(items: Items, items': Items)
    requires AllMoved(items, items')
    ensures Keyed(items')
  {
    hide Place;
    forall k' | k' in items'
      ensures items'[k'].ir == k'
    {
      var k :| k in items && Place(items, k) == k';
      assert Stored(items', Place(items, k), Moved(items, k));
    }
  }

  /** Every instruction is at its new place with its end flag; jumps still name old places. */
  ghost predicate AllMoved(items: Items, items': Items) {
    && (forall k :: k in items ==> Stored(items', Place(items, k), Moved(items, k)))
    && (forall k' :: k' in items' ==> exists k :: k in items && Place(items, k) == k')
  }

  lemma ClosedInScanIsClosed(items: Items, keys: seq<IRAddr>, i: nat)
    requires InOrder(items, keys) && i < |keys|
    ensures ClosedInScan(keys, |keys|, i) <==> Closed(items, keys[i])
  {
    if ClosedInScan(keys, |keys|, i) {
      assert Before(keys[i], keys[i + 1]) && keys[i + 1] in keys;
      forall j | j in items && j.addr == keys[i].addr
        ensures j.inum <= keys[i].inum
      {
        assert Before(j, keys[i + 1]);
        AtOrBefore(items, keys, i, j);
      }
    }
    if Closed(items, keys[i]) {
      var j :| j in items && j.addr > keys[i].addr;
      var m :| 0 <= m < |keys| && keys[m] == j;
      assert m < i ==> Before(keys[m], keys[i]);
      assert i + 1 < |keys| && keys[i + 1] in keys && Before(keys[i], keys[i + 1]);
    }
  }

  lemma AtOrBefore(items: Items, keys: seq<IRAddr>, i: nat, j: IRAddr)
    requires InOrder(items, keys) && i + 1 < |keys| && j in items && Before(j, keys[i + 1])
    ensures j == keys[i] || Before(j, keys[i])
  {
    var m :| 0 <= m < |keys| && keys[m] == j;
    assert m <= i;
  }

  lemma UpdateIsMoved(items: Items, keys: seq<IRAddr>, i: nat)
    requires Keyed(items) && InOrder(items, keys) && i < |keys| && keys[i] in items
    ensures var u := UpdateOf(items, keys, |keys|, i);
      if u.Some? then u.value == Moved(items, keys[i])
      else Place(items, keys[i]) == keys[i] && items[keys[i]] == Moved(items, keys[i])
  {
    hide Place, Closed, ClosedInScan;
    ClosedInScanIsClosed(items, keys, i);
  }

  /** Deleting the old places and putting the updates moves every instruction. */
  lemma CommitMoves(items: Items, keys: seq<IRAddr>, updated: seq<Insn>, base: Items, items': Items)
    requires Keyed(items) && InOrder(items, keys) && ScannedUpdates(items, keys, |keys|, updated)
    requires forall k :: k in base <==> k in items && Place(items, k) == k
    requires forall k :: k in base ==> base[k] == items[k]
    requires Committed(base, updated, items')
    ensures AllMoved(items, items')
  {
    hide Place, Latest, UpdateOf, Moved;
    forall k | k in items
      ensures Stored(items', Place(items, k), Moved(items, k))
    {
      var i :| 0 <= i < |keys| && keys[i] == k;
      UpdateIsMoved(items, keys, i);
      assert Latest(updated, Place(items, k)) == UpdateOf(items, keys, |keys|, i);
    }
    forall k' | k' in items'
      ensures exists k :: k in items && Place(items, k) == k'
    {
      if Latest(updated, k').Some? {
        var i :| 0 <= i < |keys| && Place(items, keys[i]) == k';
        assert keys[i] in keys;
      }
    }
  }

  /** A jump after the pass has looked its location up among the moved places. */
  function Relinked(insn: Insn, moved: map<IRAddr, IRAddr>): Insn {
    if Redirectable(insn) && insn.c.loc in moved then insn.(c := Loc(moved[insn.c.loc])) else insn
  }

  lemma RelinkingRenumbers(items: Items, keys: seq<IRAddr>, deleted: seq<IRAddr>, moved: map<IRAddr, IRAddr>,
                           items': Items, items'': Items)
    requires InOrder(items, keys) && ScannedMoves(items, keys, |keys|, deleted, moved)
    requires AllMoved(items, items')
    requires items''.Keys == items'.Keys && forall k :: k in items' ==> items''[k] == Relinked(items'[k], moved)
    ensures Renumbered(items, items'')
  {
    hide Place, Moved;
    assert keys[..|keys|] == keys;
    forall k | k in items
      ensures Stored(items'', Place(items, k), Redirected(items, Moved(items, k)))
    {
      assert Stored(items', Place(items, k), Moved(items, k));
      assert Relinked(Moved(items, k), moved) == Redirected(items, Moved(items, k));
    }
  }
}
