/** In-memory storage of IR code. */
module Storage {
  import opened Wrappers
  import opened Ir
  import opened Code
  import opened Renumbering

  class CodeStorageMem {
    var items: Items

    constructor (items: Items)
      ensures this.items == items
    {
      this.items := items;
    }

    /** All IR instructions of the machine instruction at `addr`. */
    method GetInsn(addr: nat) returns (r: Result<seq<Insn>, Fault>)
      ensures r == MachineCode(items, IRAddr(addr, 0))
    {
      var at := IRAddr(addr, 0);
      var code: seq<Insn> := [];
      BehindNothing(MachineCode(items, at));
      while true
        invariant at.addr == addr
        invariant MachineCode(items, IRAddr(addr, 0)) == Behind(code, MachineCode(items, at))
        decreases KeysFrom(items, at)
      {
        if at !in items { return Err(NoInsn(at)); }
        ghost var before := code;
        code := code + [items[at]];
        if items[at].flags.asmEnd { return Ok(code); }
        assert at in KeysFrom(items, at) && at !in KeysFrom(items, IRAddr(addr, at.inum + 1));
        at := IRAddr(addr, at.inum + 1);
        BehindBehind(before, [code[|code| - 1]], MachineCode(items, at));
      }
    }

    method DelInsn(at: IRAddr)
      requires at in items
      modifies this
      ensures items == old(items) - {at}
    {
      items := items - {at};
    }

    method PutInsn(insn: Insn)
      modifies this
      ensures items == old(items)[insn.ir := insn]
    {
      items := items[insn.ir := insn];
    }

    /** The flags of a stored instruction are shared with the instructions that were read from it. */
    method MarkEliminated(at: IRAddr)
      requires at in items
      modifies this
      ensures items == old(items)[at := old(items)[at].Mark()]
    {
      items := items[at := items[at].Mark()];
    }

    /** The keys in the order the storage is read. */
    method SortedKeys() returns (keys: seq<IRAddr>)
      ensures InOrder(items, keys)
    {
      keys := [];
      var todo := items.Keys;
      while todo != {}
        invariant todo <= items.Keys
        invariant forall k :: k in keys <==> k in items && k !in todo
        invariant forall i, j :: 0 <= i < j < |keys| ==> Before(keys[i], keys[j])
        invariant forall i, k :: 0 <= i < |keys| && k in todo ==> Before(keys[i], k)
      {
        var k := First(todo);
        keys, todo := keys + [k], todo - {k};
      }
    }

    static method First(s: set<IRAddr>) returns (k: IRAddr)
      requires s != {}
      ensures k in s && forall j :: j in s ==> j == k || Before(k, j)
    {
      k :| k in s;
      var rest := s - {k};
      while rest != {}
        invariant k in s && rest <= s
        invariant forall j :: j in s && j !in rest ==> j == k || Before(k, j)
        decreases rest
      {
        var j :| j in rest;
        rest := rest - {j};
        if Before(j, k) { k := j; }
      }
    }

    /**
     * Renumbers the IR code of every machine instruction, repairs end flags, and lets jumps follow
     * their targets.
     */
    method FixInumsAndFlags()
      requires Keyed(items)
      modifies this
      ensures Renumbered(old(items), items)
    {
      hide Renumbered, ScannedUpdates, ScannedMoves, Committed, AllMoved, InOrder, Keyed;
      ghost var before := items;
      var keys := SortedKeys();
      var updated, deleted, moved := Scan(keys);
      DeletedOnce(before, keys, deleted, moved);
      DeleteAll(deleted);
      ghost var base := items;
      PutAll(updated);
      MovesLeave(before, keys, deleted, moved, base);
      CommitMoves(before, keys, updated, base, items);
      ghost var mid := items;
      AllMovedIsKeyed(before, mid);
      Relink(moved);
      RelinkingRenumbers(before, keys, deleted, moved, mid, items);
    }

    /** Reads the code in order and lists what changes. */
    method Scan(keys: seq<IRAddr>) returns (updated: seq<Insn>, deleted: seq<IRAddr>, moved: map<IRAddr, IRAddr>)
      requires Keyed(items) && InOrder(items, keys)
      ensures ScannedUpdates(items, keys, |keys|, updated)
      ensures ScannedMoves(items, keys, |keys|, deleted, moved)
    {
      hide ScannedUpdates, ScannedMoves, Place;
      var addr: Option<nat>, prev: Option<Insn>, inum: nat := None, None, 0;
      updated, deleted, moved := [], [], map[];
      ScanStarts(items, keys);
      for n := 0 to |keys|
        invariant n == 0 ==> addr.None? && prev.None?
        invariant n > 0 ==> keys[n - 1] in items && addr == Some(keys[n - 1].addr)
        invariant n > 0 ==> inum == Place(items, keys[n - 1]).inum + 1
        invariant n > 0 ==> prev == Some(items[keys[n - 1]].(ir := Place(items, keys[n - 1])))
        invariant ScannedUpdates(items, keys, n, updated)
        invariant ScannedMoves(items, keys, n, deleted, moved)
      {
        assert keys[n] in keys;
        PlaceInOrder(items, keys, n);
        UpdatesStep(items, keys, n, updated);
        MovesStep(items, keys, n, deleted, moved);
        var insn := items[keys[n]];
        if addr != Some(insn.ir.addr) {
          addr, inum := Some(insn.ir.addr), 0;
          if prev.Some? && !prev.value.flags.asmEnd {
            updated := updated + [prev.value.(flags := prev.value.flags.(asmEnd := true))];
          }
        }
        if insn.ir.inum != inum {
          var at := IRAddr(insn.ir.addr, inum);
          deleted, moved := deleted + [insn.ir], moved[insn.ir := at];
          insn := insn.(ir := at);
          updated := updated + [insn];
        }
        inum, prev := inum + 1, Some(insn);
      }
    }

    method DeleteAll(deleted: seq<IRAddr>)
      requires forall k :: k in deleted ==> k in items
      requires forall i, j :: 0 <= i < j < |deleted| ==> deleted[i] != deleted[j]
      modifies this
      ensures forall k :: k in items <==> k in old(items) && k !in deleted
      ensures forall k :: k in items ==> items[k] == old(items)[k]
    {
      for n := 0 to |deleted|
        invariant forall k :: k in items <==> k in old(items) && k !in deleted[..n]
        invariant forall k :: k in items ==> items[k] == old(items)[k]
      {
        TakeOneMore(deleted, n);
        DelInsn(deleted[n]);
      }
      assert deleted[..|deleted|] == deleted;
    }

    method PutAll(updated: seq<Insn>)
      modifies this
      ensures Committed(old(items), updated, items)
    {
      hide Latest;
      CommitStarts(items);
      for n := 0 to |updated|
        invariant Committed(old(items), updated[..n], items)
      {
        LatestOfMore(updated[..n], updated[n]);
        assert updated[..n + 1] == updated[..n] + [updated[n]];
        PutInsn(updated[n]);
      }
      assert updated[..|updated|] == updated;
    }

    /** Rewrites the locations of jumps whose target moved. */
    method Relink(moved: map<IRAddr, IRAddr>)
      requires Keyed(items)
      modifies this
      ensures items.Keys == old(items).Keys
      ensures forall k :: k in items ==> items[k] == Relinked(old(items)[k], moved)
    {
      var keys := SortedKeys();
      ghost var before := items;
      for n := 0 to |keys|
        invariant items.Keys == before.Keys
        invariant forall i :: 0 <= i < n ==> keys[i] in items && items[keys[i]] == Relinked(before[keys[i]], moved)
        invariant forall i :: n <= i < |keys| ==> keys[i] in items && items[keys[i]] == before[keys[i]]
      {
        var insn := items[keys[n]];
        assert insn.ir == keys[n];
        if insn.op == JCC && insn.c.Loc? && !insn.flags.call && !insn.flags.ret {
          if insn.c.loc in moved {
            PutInsn(insn.(c := Loc(moved[insn.c.loc])));
          }
        }
        assert forall i :: n < i < |keys| ==> Before(keys[n], keys[i]);
        assert forall i :: 0 <= i < n ==> Before(keys[i], keys[n]);
      }
    }
  }
}
