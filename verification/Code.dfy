/** IR code as a dictionary of instructions, and the basic blocks read from it. */
module Code {
  import opened Wrappers
  import opened Ir

  type Items = map<IRAddr, Insn>

  /** The exceptions a lookup can end in. */
  datatype Fault = NoInsn(at: IRAddr) | NoBlock(at: IRAddr)

  /** Keys at or after a place: what a forward walk has left. */
  ghost function KeysFrom(items: Items, at: IRAddr): set<IRAddr> {
    set k | k in items && !Before(k, at)
  }

  lemma {:induction false} SubsetCount<T>(s: set<T>, t: set<T>)
    requires s <= t
    ensures |s| <= |t|
  {
    if s != {} {
      var x :| x in s;
      SubsetCount(s - {x}, t - {x});
    }
  }

  /** A target inside a translated machine instruction names one of its IR instructions. */
  ghost predicate Resolves(items: Items, at: IRAddr) {
    IRAddr(at.addr, 0) in items ==> at in items
  }

  /** Code as the translator and the renumbering pass leave it. */
  ghost predicate WellFormedCode(items: Items) {
    && (forall k :: k in items ==> items[k].ir == k && items[k].WellFormed())
    && (forall k, n: nat
          {:trigger items[k], items[IRAddr(k.addr, n)]} {:trigger items[k], IRAddr(k.addr, n) in items} ::
          k in items && n < k.inum ==> IRAddr(k.addr, n) in items && !items[IRAddr(k.addr, n)].flags.asmEnd)
    && (forall k, t {:trigger items[k], Resolves(items, t)} ::
          k in items && (items[k].JccLoc() == Some(t) || items[k].forcedNext == Some(t)) ==> Resolves(items, t))
  }

  /** All IR instructions of a machine instruction from `at` to its end flag. */
  function MachineCode(items: Items, at: IRAddr): Result<seq<Insn>, Fault>
    decreases KeysFrom(items, at)
  {
    if at !in items then Err(NoInsn(at))
    else if items[at].flags.asmEnd then Ok([items[at]])
    else
      assert at in KeysFrom(items, at) && at !in KeysFrom(items, IRAddr(at.addr, at.inum + 1));
      match MachineCode(items, IRAddr(at.addr, at.inum + 1))
      case Err(f) => Err(f)
      case Ok(rest) => Ok([items[at]] + rest)
  }

  /** Stored one behind the other from (addr, inum), with the end flag on the last one only. */
  ghost predicate IsMachineCode(items: Items, addr: nat, inum: nat, code: seq<Insn>) {
    && |code| > 0
    && (forall i :: 0 <= i < |code| ==>
          Stored(items, IRAddr(addr, inum + i), code[i]) && (code[i].flags.asmEnd <==> i == |code| - 1))
  }

  ghost predicate Stored(items: Items, k: IRAddr, insn: Insn) {
    k in items && items[k] == insn
  }

  lemma {:induction false} MachineCodeShape(items: Items, at: IRAddr)
    requires MachineCode(items, at).Ok?
    ensures IsMachineCode(items, at.addr, at.inum, MachineCode(items, at).value)
    decreases KeysFrom(items, at)
  {
    var code := MachineCode(items, at).value;
    var next := IRAddr(at.addr, at.inum + 1);
    if !items[at].flags.asmEnd {
      assert at in KeysFrom(items, at) && at !in KeysFrom(items, next);
      MachineCodeShape(items, next);
    }
    forall i | 0 <= i < |code|
      ensures Stored(items, IRAddr(at.addr, at.inum + i), code[i])
      ensures code[i].flags.asmEnd <==> i == |code| - 1
    {
      if i == 0 {
        assert IRAddr(at.addr, at.inum + i) == at;
      } else {
        assert code[i] == MachineCode(items, next).value[i - 1];
        assert IRAddr(next.addr, next.inum + (i - 1)) == IRAddr(at.addr, at.inum + i);
      }
    }
  }

  /** Machine instructions from `addr` on, up to one whose last IR instruction ends a block. */
  function AsmBlock(items: Items, addr: nat): Result<seq<Insn>, Fault>
    decreases KeysFrom(items, IRAddr(addr, 0))
  {
    match MachineCode(items, IRAddr(addr, 0))
    case Err(f) => Err(f)
    case Ok(code) =>
      MachineCodeShape(items, IRAddr(addr, 0));
      var last := code[|code| - 1];
      if last.flags.bbEnd then Ok(code)
      else
        assert IRAddr(addr, 0) in KeysFrom(items, IRAddr(addr, 0));
        assert IRAddr(addr, 0) !in KeysFrom(items, IRAddr(addr + last.size, 0));
        match AsmBlock(items, addr + last.size)
        case Err(f) => Err(f)
        case Ok(rest) => Ok(code + rest)
  }

  /** The instructions up to and including the first that ends a block; none if no one does. */
  function CutAtEnd(code: seq<Insn>): Option<seq<Insn>> {
    if code == [] then None
    else if code[0].flags.bbEnd then Some([code[0]])
    else match CutAtEnd(code[1..])
      case None => None
      case Some(rest) => Some([code[0]] + rest)
  }

  /** The basic block requested at `at`. */
  function BlockAt(items: Items, at: IRAddr): Result<seq<Insn>, Fault>
  {
    match AsmBlock(items, at.addr)
    case Err(f) => Err(f)
    case Ok(code) =>
      match CutAtEnd(if at.inum <= |code| then code[at.inum..] else [])
      case None => Err(NoBlock(at))
      case Some(bb) => Ok(bb)
  }

  /** A straight piece of code: every instruction is stored and is followed by the next one. */
  ghost predicate IsChain(items: Items, code: seq<Insn>) {
    && (forall i :: 0 <= i < |code| ==> code[i].ir in items && items[code[i].ir] == code[i])
    && (forall i :: 0 <= i < |code| - 1 ==> code[i + 1].ir == code[i].Following())
  }

  /** What a basic block is: a chain from `at` in which exactly the last instruction ends the block. */
  ghost predicate IsBlock(items: Items, at: IRAddr, bb: seq<Insn>) {
    && |bb| > 0
    && bb[0].ir == at
    && IsChain(items, bb)
    && (forall i :: 0 <= i < |bb| ==> (bb[i].flags.bbEnd <==> i == |bb| - 1))
  }

  lemma MachineCodeChain(items: Items, addr: nat)
    requires WellFormedCode(items) && MachineCode(items, IRAddr(addr, 0)).Ok?
    ensures var code := MachineCode(items, IRAddr(addr, 0)).value;
      && |code| > 0 && code[|code| - 1].flags.asmEnd
      && IsChain(items, code)
      && (forall i :: 0 <= i < |code| ==> code[i].ir == IRAddr(addr, i))
      && (forall n: nat :: IRAddr(addr, n) in items ==> n < |code|)
  {
    MachineCodeShape(items, IRAddr(addr, 0));
    var code := MachineCode(items, IRAddr(addr, 0)).value;
    StoredIsChain(items, addr, code);
    var last := IRAddr(addr, |code| - 1);
    assert items[last].flags.asmEnd;
    assert forall n: nat :: IRAddr(addr, n) in items ==> n <= last.inum;
  }

  lemma StoredIsChain(items: Items, addr: nat, code: seq<Insn>)
    requires forall k :: k in items ==> items[k].ir == k
    requires IsMachineCode(items, addr, 0, code)
    ensures IsChain(items, code)
    ensures forall i :: 0 <= i < |code| ==> code[i].ir == IRAddr(addr, i)
    ensures var last := IRAddr(addr, |code| - 1); Stored(items, last, code[|code| - 1])
  {
    assert forall i :: 0 <= i < |code| ==> code[i].ir == IRAddr(addr, 0 + i);
  }

  lemma ChainConcat(items: Items, code: seq<Insn>, rest: seq<Insn>)
    requires IsChain(items, code) && IsChain(items, rest)
    requires |code| > 0 && |rest| > 0 && rest[0].ir == code[|code| - 1].Following()
    ensures IsChain(items, code + rest)
  {
    var all := code + rest;
    forall i | 0 <= i < |all| - 1
      ensures all[i + 1].ir == all[i].Following()
    {
      if i >= |code| { assert all[i] == rest[i - |code|] && all[i + 1] == rest[i + 1 - |code|]; }
    }
  }

  lemma {:induction false} AsmBlockShape(items: Items, addr: nat)
    requires WellFormedCode(items) && AsmBlock(items, addr).Ok?
    ensures var code := AsmBlock(items, addr).value;
      && |code| > 0
      && IsChain(items, code)
      && code[0].ir == IRAddr(addr, 0)
      && (forall n: nat :: IRAddr(addr, n) in items ==> n < |code| && code[n].ir == IRAddr(addr, n))
      && code[|code| - 1].flags.bbEnd && code[|code| - 1].flags.asmEnd
    decreases KeysFrom(items, IRAddr(addr, 0))
  {
    var at := IRAddr(addr, 0);
    MachineCodeChain(items, addr);
    var code := MachineCode(items, at).value;
    var last := code[|code| - 1];
    if !last.flags.bbEnd {
      assert at in KeysFrom(items, at) && at !in KeysFrom(items, IRAddr(addr + last.size, 0));
      AsmBlockShape(items, addr + last.size);
      ChainConcat(items, code, AsmBlock(items, addr + last.size).value);
    }
  }

  lemma {:induction false} CutAtEndShape(items: Items, code: seq<Insn>)
    requires IsChain(items, code) && |code| > 0 && code[|code| - 1].flags.bbEnd
    ensures CutAtEnd(code).Some? && IsBlock(items, code[0].ir, CutAtEnd(code).value)
    ensures CutAtEnd(code).value <= code
  {
    if !code[0].flags.bbEnd {
      var tail := code[1..];
      assert forall i :: 0 <= i < |tail| ==> tail[i] == code[i + 1];
      CutAtEndShape(items, tail);
      var rest := CutAtEnd(tail).value;
      var bb := [code[0]] + rest;
      assert forall i :: 0 < i < |bb| ==> bb[i] == rest[i - 1];
      assert bb <= code;
    }
  }

  /** A requested block starts where it was requested and is one straight run to its only block end. */
  lemma BlockShape(items: Items, at: IRAddr)
    requires WellFormedCode(items) && Resolves(items, at) && BlockAt(items, at).Ok?
    ensures at in items && IsBlock(items, at, BlockAt(items, at).value)
    ensures Continued(items, BlockAt(items, at).value)
  {
    AsmBlockShape(items, at.addr);
    MachineCodeShape(items, IRAddr(at.addr, 0));
    var code := AsmBlock(items, at.addr).value;
    ChainTail(items, code, at.inum);
    CutAtEndShape(items, code[at.inum..]);
    PrefixContinued(items, code, at.inum, BlockAt(items, at).value);
  }

  /** Unless the last instruction ends its machine instruction, the next one is stored too. */
  ghost predicate Continued(items: Items, bb: seq<Insn>) {
    |bb| > 0 && (!bb[|bb| - 1].flags.asmEnd ==> bb[|bb| - 1].Following() in items)
  }

  lemma PrefixContinued(items: Items, code: seq<Insn>, n: nat, bb: seq<Insn>)
    requires IsChain(items, code) && |code| > 0 && code[|code| - 1].flags.asmEnd
    requires n <= |code| && 0 < |bb| && bb <= code[n..]
    ensures Continued(items, bb)
  {
    var j := n + |bb| - 1;
    assert bb[|bb| - 1] == code[n..][|bb| - 1] == code[j];
    if !code[j].flags.asmEnd {
      assert code[j + 1].ir == code[j].Following();
    }
  }

  lemma ChainTail(items: Items, code: seq<Insn>, n: nat)
    requires IsChain(items, code) && n <= |code|
    ensures IsChain(items, code[n..])
  {
    var tail := code[n..];
    assert forall i :: 0 <= i < |tail| ==> tail[i] == code[i + n];
    forall i | 0 <= i < |tail| - 1
      ensures tail[i + 1].ir == tail[i].Following()
    {
      assert tail[i] == code[i + n] && tail[i + 1] == code[i + n + 1];
    }
  }

  /** A result with code put in front of it. */
  ghost function Behind(code: seq<Insn>, r: Result<seq<Insn>, Fault>): Result<seq<Insn>, Fault> {
    match r
    case Err(f) => Err(f)
    case Ok(rest) => Ok(code + rest)
  }

  lemma BehindNothing(r: Result<seq<Insn>, Fault>)
    ensures Behind([], r) == r
  {
    if r.Ok? { assert [] + r.value == r.value; }
  }

  lemma BehindBehind(front: seq<Insn>, code: seq<Insn>, r: Result<seq<Insn>, Fault>)
    ensures Behind(front, Behind(code, r)) == Behind(front + code, r)
  {
    if r.Ok? { assert front + (code + r.value) == (front + code) + r.value; }
  }
}
