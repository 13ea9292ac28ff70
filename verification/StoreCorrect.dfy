/** Renumbering, filling in no-ops and renumbering again is one renumbering of the code with the no-ops. */
module StoreCorrect {
  import opened Ir
  import opened Code
  import opened Renumbering
  import opened Gaps
  import opened RenumberingCorrect
  import opened Store

  // ---------- One renumbering ----------

  /** Code that fills machine instructions of which nothing was left. */
  ghost predicate Fills(base: Items, filled: Items) {
    && (forall k :: k in base ==> Code.Stored(filled, k, base[k]))
    && (forall k :: k in filled && k !in base ==> k.inum == 0 && !HasCode(base, k.addr))
  }

  lemma FillsPlace(base: Items, filled: Items, k: IRAddr)
    requires Fills(base, filled) && k in filled
    ensures Place(filled, k) == if k in base then Place(base, k) else k
    ensures k in base ==> (LastOfMachineInsn(filled, k) <==> LastOfMachineInsn(base, k))
    ensures k !in base ==> LastOfMachineInsn(filled, k)
  {
    assert k in base ==> InFrontOf(filled, k) == InFrontOf(base, k);
    assert k !in base ==> InFrontOf(filled, k) == {};
  }

  /** Filling renumbered code fills the code. */
  lemma FillsBefore(left: Items, compact: Items, filled: Items) returns (kept: Items)
    requires Renumbered(left, compact) && Fills(compact, filled)
    ensures Fills(left, kept)
    ensures forall k :: k in kept <==> k in left || (k in filled && k !in compact)
    ensures forall k :: k in kept && k !in left ==> kept[k] == filled[k]
    ensures forall k :: k in filled && k !in compact ==> k !in left
    ensures forall addr :: HasCode(kept, addr) <==> HasCode(filled, addr)
  {
    hide Renumbered, HasCode;
    SameCode(left, compact);
    var more := filled - compact.Keys;
    forall k | k in more
      ensures k !in left
    {
      if k in left { HasCodeAt(left, k); }
    }
    kept := left + more;
    JoinedCode(left, more, kept);
    JoinedCode(compact, more, filled);
  }

  lemma JoinedCode(base: Items, more: Items, all: Items)
    requires forall k :: k in all <==> k in base || k in more
    ensures forall addr :: HasCode(all, addr) <==> HasCode(base, addr) || HasCode(more, addr)
  {
    forall addr
      ensures HasCode(all, addr) <==> HasCode(base, addr) || HasCode(more, addr)
    {
      if j :| j in base && j.addr == addr { assert j in all; }
      if j :| j in more && j.addr == addr { assert j in all; }
    }
  }

  lemma SameCode(left: Items, compact: Items)
    requires Renumbered(left, compact)
    ensures forall addr :: HasCode(left, addr) <==> HasCode(compact, addr)
  {
    hide Place, Renumbered;
    forall addr
      ensures HasCode(left, addr) <==> HasCode(compact, addr)
    {
      if j :| j in left && j.addr == addr {
        MovedIs(left, compact, j);
        PlaceAddr(left, j);
      }
      if j' :| j' in compact && j'.addr == addr {
        var j := PlaceOrigin(left, compact, j');
        PlaceAddr(left, j);
      }
    }
  }

  /** Closing is decided alike before and after renumbering. */
  lemma ClosedAlike(left: Items, compact: Items, kept: Items, filled: Items, k: IRAddr)
    requires Renumbered(left, compact) && Fills(compact, filled) && Fills(left, kept) && k in left
    requires forall addr :: HasCode(kept, addr) <==> HasCode(filled, addr)
    ensures Closed(filled, Place(left, k)) <==> Closed(kept, k)
    ensures Closed(left, k) ==> Closed(kept, k)
  {
    hide Renumbered, Place, Fills, LastOfMachineInsn;
    MovedIs(left, compact, k);
    PlaceAddr(left, k);
    ClosedBefore(left, compact, k);
    LastBefore(left, compact, k);
    assert Fills(left, kept) && Fills(compact, filled);
    FilledPlace(left, kept, k);
    FilledPlace(compact, filled, Place(left, k));
    HigherIsCode(kept, k);
    HigherIsCode(filled, Place(left, k));
    HigherIsCode(left, k);
    HigherGrows(left, kept, k);
  }

  lemma FilledPlace(base: Items, filled: Items, k: IRAddr)
    requires Fills(base, filled) && k in base
    ensures k in filled && Place(filled, k) == Place(base, k)
    ensures LastOfMachineInsn(filled, k) <==> LastOfMachineInsn(base, k)
  {
    assert Code.Stored(filled, k, base[k]);
    FillsPlace(base, filled, k);
  }

  lemma LastBefore(left: Items, compact: Items, k: IRAddr)
    requires Renumbered(left, compact) && k in left
    ensures LastOfMachineInsn(compact, Place(left, k)) <==> LastOfMachineInsn(left, k)
  {
    hide Place, Renumbered;
    MovedIs(left, compact, k);
    PlaceAddr(left, k);
    if LastOfMachineInsn(left, k) {
      forall j' | j' in compact && j'.addr == k.addr
        ensures j'.inum <= Place(left, k).inum
      {
        var j := PlaceOrigin(left, compact, j');
        PlaceAddr(left, j);
        PlaceKeepsOrder(left, k, j);
      }
    }
    if LastOfMachineInsn(compact, Place(left, k)) {
      forall j | j in left && j.addr == k.addr
        ensures j.inum <= k.inum
      {
        MovedIs(left, compact, j);
        PlaceAddr(left, j);
        PlaceKeepsOrder(left, k, j);
      }
    }
  }

  lemma HigherIsCode(items: Items, k: IRAddr)
    ensures HigherCode(items, k) <==> exists addr :: addr > k.addr && HasCode(items, addr)
  {
    if addr :| addr > k.addr && HasCode(items, addr) {
      var j :| j in items && j.addr == addr;
    }
    if j :| j in items && j.addr > k.addr {
      assert HasCode(items, j.addr);
    }
  }

  lemma HigherGrows(base: Items, filled: Items, k: IRAddr)
    requires Fills(base, filled)
    ensures HigherCode(base, k) ==> HigherCode(filled, k)
  {
    if j :| j in base && j.addr > k.addr { assert Code.Stored(filled, j, base[j]); }
  }

  /** Filled settled code: every instruction is at its place. */
  lemma FilledPlaces(compact: Items, filled: Items)
    requires Settled(compact) && Fills(compact, filled)
    ensures forall k :: k in filled ==> Place(filled, k) == k
  {
    hide Place, Fills;
    forall k | k in filled
      ensures Place(filled, k) == k
    {
      FillsPlace(compact, filled, k);
    }
  }

  /** A survivor, renumbered twice, is where one renumbering puts it, and is the same instruction. */
  lemma MovedTwice(left: Items, compact: Items, kept: Items, filled: Items, k: IRAddr)
    requires Renumbered(left, compact) && Fills(compact, filled) && Fills(left, kept) && k in left
    requires forall addr :: HasCode(kept, addr) <==> HasCode(filled, addr)
    requires forall j :: j in filled ==> Place(filled, j) == j
    requires forall j :: j in kept && j !in left ==> Place(kept, j) == j
    ensures k in kept && Place(left, k) in filled && Place(kept, k) == Place(left, k)
    ensures Redirected(filled, Moved(filled, Place(left, k))) == Redirected(kept, Moved(kept, k))
  {
    hide Place, Closed, Fills, Renumbered, HasCode, Moved, Redirected, LastOfMachineInsn;
    var p := Place(left, k);
    MovedIs(left, compact, k);
    FilledPlace(left, kept, k);
    FilledPlace(compact, filled, p);
    FillsStored(compact, filled, p);
    FillsStored(left, kept, k);
    ClosedAlike(left, compact, kept, filled, k);
    if Redirectable(left[k]) && left[k].c.loc in left { FilledPlace(left, kept, left[k].c.loc); }
    MovedAgain(left, kept, filled, k, p);
  }

  lemma FillsStored(base: Items, filled: Items, k: IRAddr)
    requires Fills(base, filled) && k in base
    ensures k in filled && filled[k] == base[k]
  {
    assert Code.Stored(filled, k, base[k]);
  }

  lemma MovedAgain(left: Items, kept: Items, filled: Items, k: IRAddr, p: IRAddr)
    requires k in left && k in kept && kept[k] == left[k] && p in filled &&
        filled[p] == Redirected(left, Moved(left, k))
    requires p == Place(left, k) == Place(kept, k) == Place(filled, p)
    requires Closed(filled, p) == Closed(kept, k) && (Closed(left, k) ==> Closed(kept, k))
    requires forall j :: j in filled ==> Place(filled, j) == j
    requires forall j :: j in kept && j !in left ==> Place(kept, j) == j
    requires Redirectable(left[k]) && left[k].c.loc in left ==>
      left[k].c.loc in kept && Place(kept, left[k].c.loc) == Place(left, left[k].c.loc)
    ensures Redirected(filled, Moved(filled, p)) == Redirected(kept, Moved(kept, k))
  {
    hide Place, Closed;
  }

  lemma StandInMoves(kept: Items, filled: Items, k: IRAddr)
    requires k in kept && k in filled && kept[k] == filled[k] && !Redirectable(kept[k])
    requires Place(kept, k) == k && Place(filled, k) == k && (Closed(kept, k) <==> Closed(filled, k))
    ensures Redirected(filled, Moved(filled, k)) == Redirected(kept, Moved(kept, k))
  {
    hide Place, Closed;
  }

  /** Renumbering, filling and renumbering again is one renumbering of the filled code. */
  lemma OneRenumbering(left: Items, compact: Items, filled: Items, items': Items) returns (kept: Items)
    requires Renumbered(left, compact) && Fills(compact, filled) && Renumbered(filled, items')
    requires forall k :: k in filled && k !in compact ==> !Redirectable(filled[k])
    ensures Fills(left, kept) && Renumbered(kept, items')
    ensures forall k :: k in kept && k !in left ==> k in filled && k !in compact && kept[k] == filled[k]
    ensures forall addr :: HasCode(kept, addr) <==> HasCode(filled, addr)
  {
    hide Place, Moved, Redirected, Fills, HasCode, Settled, Closed, Renumbered;
    RenumberedIsSettled(left, compact);
    FilledPlaces(compact, filled);
    kept := FillsBefore(left, compact, filled);
    StandInsStay(left, compact, kept, filled);
    KeptMoves(left, compact, kept, filled, items');
    OriginsExist(left, compact, kept, filled, items');
    IsRenumbered(kept, items');
  }

  lemma IsRenumbered(kept: Items, items': Items)
    requires forall k :: k in kept ==> Code.Stored(items', Place(kept, k), Redirected(kept, Moved(kept, k)))
    requires forall k' :: k' in items' ==> exists k :: k in kept && Place(kept, k) == k'
    ensures Renumbered(kept, items')
  {
    hide Place, Moved, Redirected;
  }

  lemma StandInsStay(left: Items, compact: Items, kept: Items, filled: Items)
    requires Fills(compact, filled) && Fills(left, kept)
    requires forall k :: k in kept && k !in left ==> k in filled && k !in compact
    requires forall addr :: HasCode(kept, addr) <==> HasCode(filled, addr)
    ensures forall k :: k in kept && k !in left ==> Place(kept, k) == k && (Closed(kept, k) <==> Closed(filled, k))
  {
    hide Place, Fills, HasCode, Closed, LastOfMachineInsn;
    forall k | k in kept && k !in left
      ensures Place(kept, k) == k && (Closed(kept, k) <==> Closed(filled, k))
    {
      FillsPlace(left, kept, k);
      FillsPlace(compact, filled, k);
      ClosedStandIn(kept, filled, k);
    }
  }

  lemma OriginsExist(left: Items, compact: Items, kept: Items, filled: Items, items': Items)
    requires Renumbered(left, compact) && Fills(compact, filled) && Fills(left, kept) && Renumbered(filled, items')
    requires forall j :: j in filled ==> Place(filled, j) == j
    requires forall k :: k in filled && k !in compact ==> k in kept && Place(kept, k) == k
    ensures forall k' :: k' in items' ==> exists k :: k in kept && Place(kept, k) == k'
  {
    hide Place, Fills, Renumbered;
    forall k' | k' in items'
      ensures exists k :: k in kept && Place(kept, k) == k'
    {
      var k := KeptOrigin(left, compact, kept, filled, items', k');
    }
  }

  lemma KeptMoves(left: Items, compact: Items, kept: Items, filled: Items, items': Items)
    requires Renumbered(left, compact) && Fills(compact, filled) && Fills(left, kept) && Renumbered(filled, items')
    requires forall addr :: HasCode(kept, addr) <==> HasCode(filled, addr)
    requires forall j :: j in filled ==> Place(filled, j) == j
    requires forall k :: k in kept && k !in left ==>
      && k in filled && kept[k] == filled[k] && !Redirectable(filled[k])
      && Place(kept, k) == k && (Closed(kept, k) <==> Closed(filled, k))
    ensures forall k :: k in kept ==> Code.Stored(items', Place(kept, k), Redirected(kept, Moved(kept, k)))
  {
    hide Place, Moved, Redirected, Redirectable, Fills, HasCode, Closed, Renumbered;
    forall k | k in kept
      ensures Code.Stored(items', Place(kept, k), Redirected(kept, Moved(kept, k)))
    {
      if k in left {
        MovedTwice(left, compact, kept, filled, k);
        MovedIs(filled, items', Place(left, k));
      } else {
        StandInMoves(kept, filled, k);
        MovedIs(filled, items', k);
      }
    }
  }

  lemma KeptOrigin(left: Items, compact: Items, kept: Items, filled: Items, items': Items, k': IRAddr)
    returns (k: IRAddr)
    requires Renumbered(left, compact) && Fills(compact, filled) && Fills(left, kept) && Renumbered(filled, items')
    requires forall j :: j in filled ==> Place(filled, j) == j
    requires forall k :: k in filled && k !in compact ==> k in kept && Place(kept, k) == k
    requires k' in items'
    ensures k in kept && Place(kept, k) == k'
  {
    hide Place, Moved, Redirected, Fills, Renumbered;
    var p := PlaceOrigin(filled, items', k');
    if p in compact {
      k := PlaceOrigin(left, compact, p);
      FilledPlace(left, kept, k);
    } else {
      k := p;
    }
  }

  lemma ClosedStandIn(kept: Items, filled: Items, k: IRAddr)
    requires LastOfMachineInsn(kept, k) && LastOfMachineInsn(filled, k)
    requires forall addr :: HasCode(kept, addr) <==> HasCode(filled, addr)
    ensures Closed(kept, k) <==> Closed(filled, k)
  {
    HigherIsCode(kept, k);
    HigherIsCode(filled, k);
    hide HasCode, HigherCode;
  }
}
