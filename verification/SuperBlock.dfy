/** The superblock builder: chains instructions from an arbitrary disassembler into one block. */
module SuperBlock {
  import opened Wrappers

  const SPACE := 0x1_0000_0000_0000_0000

  /** Guest addresses are machine words and wrap around. */
  type Addr = a: int | 0 <= a < SPACE witness 0

  function Advance(a: Addr, n: int): Addr {
    (a + n) % SPACE
  }

  /** A stretch of guest code. */
  datatype Extent = Extent(base: Addr, len: nat)

  datatype WhatNext = StopHere | Continue | ResteerU | ResteerC

  datatype Stmt =
    | NoOp
    | IMark(addr: Addr, len: nat, delta: nat)
    | PutIP
    | Other(id: nat)
    | SelfCheck(part: nat, code: Extent, firstWord: int, words: int)

  /** What the disassembler reports about one instruction, with the statements it appends. */
  datatype DisResult = DisResult(len: nat, whatNext: WhatNext, jumpKind: Option<nat>, continueAt: Addr,
    stmts: seq<Stmt>) {
    predicate Resteers() {
      whatNext in {ResteerU, ResteerC}
    }
  }

  /** Step number, where chasing is allowed, whether conditional chasing is, and the instruction's address. */
  type Disassembler = (nat, Addr -> bool, bool, Addr) -> DisResult

  type Limit = n: int | 1 <= n <= 100 witness 1

  /** The limits a caller sets: how many instructions, and before which of them chasing may start. */
  datatype Control = Control(maxInsns: Limit, chaseThresh: nat, arm: bool) {
    predicate Valid() {
      chaseThresh < maxInsns
    }
  }

  function Never(): Addr -> bool {
    _ => false
  }

  /** The contract between the builder and the disassembler, whether or not chasing is allowed. */
  ghost predicate Obeys(dis: Disassembler, chase: Addr -> bool) {
    && (forall step, cond, ip :: Allowed(dis(step, chase, cond, ip), chase, cond))
    && (forall step, cond, ip :: Allowed(dis(step, Never(), cond, ip), Never(), cond))
  }

  ghost predicate Allowed(r: DisResult, ok: Addr -> bool, cond: bool) {
    && r.len <= 20
    && (if r.Resteers() then ok(r.continueAt) else r.continueAt == 0)
    && (r.whatNext == ResteerC ==> cond)
    && (r.jumpKind.Some? <==> r.whatNext == StopHere)
    && |r.stmts| > 0 && r.stmts[|r.stmts| - 1] == PutIP
  }

  // ---------- What a run is ----------

  /** Where the instruction after a list of results starts. */
  ghost function IpAfter(start: Addr, rs: seq<DisResult>): Addr {
    if rs == [] then start
    else
      var r := rs[|rs| - 1];
      if r.Resteers() then r.continueAt else Advance(IpAfter(start, rs[..|rs| - 1]), r.len)
  }

  ghost function Count(rs: seq<DisResult>, kinds: set<WhatNext>): nat {
    if rs == [] then 0 else Count(rs[..|rs| - 1], kinds) + (if rs[|rs| - 1].whatNext in kinds then 1 else 0)
  }

  ghost function Resteered(rs: seq<DisResult>): nat {
    Count(rs, {ResteerU, ResteerC})
  }

  ghost predicate MayChase(control: Control, rs: seq<DisResult>) {
    |rs| < control.chaseThresh && Resteered(rs) < 2
  }

  /** The disassembler's answer after the given ones. */
  ghost function Answer(control: Control, dis: Disassembler, chase: Addr -> bool, start: Addr,
                        rs: seq<DisResult>): DisResult {
    dis(|rs|, if MayChase(control, rs) then chase else Never(), Count(rs, {ResteerC}) < 2, IpAfter(start, rs))
  }

  /** The answers so far, none of which but the last ended the block. */
  ghost predicate IsRun(control: Control, dis: Disassembler, chase: Addr -> bool, start: Addr, rs: seq<DisResult>) {
    rs == [] ||
    (var init := rs[..|rs| - 1];
     && IsRun(control, dis, chase, start, init)
     && (init != [] ==> init[|init| - 1].whatNext != StopHere)
     && rs[|rs| - 1] == Answer(control, dis, chase, start, init))
  }

  /** The block ends when the disassembler says so or the limit is reached. */
  ghost predicate IsComplete(control: Control, rs: seq<DisResult>) {
    |rs| > 0 && (rs[|rs| - 1].whatNext == StopHere || (|rs| == control.maxInsns && rs[|rs| - 1].whatNext == Continue))
  }

  /** The last extent longer by an instruction, and a new one if the instruction is chased. */
  ghost function Grown(extents: seq<Extent>, r: DisResult): (s: seq<Extent>)
    requires |extents| > 0
    ensures |s| > 0
  {
    var longer := Longer(extents, r.len);
    if r.Resteers() then longer + [Extent(r.continueAt, 0)] else longer
  }

  ghost function Longer(extents: seq<Extent>, n: nat): (s: seq<Extent>)
    requires |extents| > 0
    ensures |s| == |extents|
  {
    var last := extents[|extents| - 1];
    extents[|extents| - 1 := last.(len := last.len + n)]
  }

  /** The extents a run fills: each chase opens a new one. */
  ghost function ExtentsOf(start: Addr, rs: seq<DisResult>): (r: seq<Extent>)
    ensures |r| > 0
  {
    if rs == [] then [Extent(start, 0)] else Grown(ExtentsOf(start, rs[..|rs| - 1]), rs[|rs| - 1])
  }

  /** The addresses of a stretch of code. */
  ghost function Bytes(base: Addr, len: nat): seq<Addr> {
    seq(len, i => Advance(base, i))
  }

  /** The bytes of the first `n` extents. */
  ghost function ExtentBytes(extents: seq<Extent>, n: nat): seq<Addr>
    requires n <= |extents|
  {
    if n == 0 then [] else ExtentBytes(extents, n - 1) + Bytes(extents[n - 1].base, extents[n - 1].len)
  }

  /** The bytes of the instructions in the order they were disassembled. */
  ghost function InsnBytes(start: Addr, rs: seq<DisResult>): seq<Addr> {
    if rs == [] then []
    else InsnBytes(start, rs[..|rs| - 1]) + Bytes(IpAfter(start, rs[..|rs| - 1]), rs[|rs| - 1].len)
  }

  /** The current address is the end of the last extent. */
  lemma {:induction false} IpIsEndOfExtent(start: Addr, rs: seq<DisResult>)
    ensures var extents := ExtentsOf(start, rs);
      var last := extents[|extents| - 1];
      IpAfter(start, rs) == Advance(last.base, last.len)
  {
    hide Advance;
    if rs != [] {
      var before := ExtentsOf(start, rs[..|rs| - 1]);
      IpIsEndOfExtent(start, rs[..|rs| - 1]);
      AdvanceTwice(before[|before| - 1].base, before[|before| - 1].len, rs[|rs| - 1].len);
      AdvanceNothing(rs[|rs| - 1].continueAt);
    } else {
      AdvanceNothing(start);
    }
  }

  lemma AdvanceNothing(a: Addr)
    ensures Advance(a, 0) == a
  {
  }

  lemma BytesOfMore(base: Addr, m: nat, n: nat)
    ensures Bytes(base, m + n) == Bytes(base, m) + Bytes(Advance(base, m), n)
  {
  }

  lemma {:induction false} SameFront(extents: seq<Extent>, extents': seq<Extent>, n: nat)
    requires n <= |extents| && n <= |extents'| && forall i :: 0 <= i < n ==> extents[i] == extents'[i]
    ensures ExtentBytes(extents, n) == ExtentBytes(extents', n)
  {
    if n > 0 { SameFront(extents, extents', n - 1); }
  }

  lemma GrownBytes(extents: seq<Extent>, r: DisResult)
    requires |extents| > 0
    ensures var grown, last := Grown(extents, r), extents[|extents| - 1];
      ExtentBytes(grown, |grown|) == ExtentBytes(extents, |extents|) + Bytes(Advance(last.base, last.len), r.len)
  {
    hide Bytes, Advance;
    var grown, n, last := Grown(extents, r), |extents|, extents[|extents| - 1];
    SameFront(extents, grown, n - 1);
    BytesOfMore(last.base, last.len, r.len);
    Associative(ExtentBytes(extents, n - 1), Bytes(last.base, last.len), Bytes(Advance(last.base, last.len), r.len));
    assert ExtentBytes(grown, n) == ExtentBytes(extents, n - 1) + Bytes(last.base, last.len + r.len);
    NoBytes(r.continueAt);
  }

  lemma Associative<T>(a: seq<T>, b: seq<T>, c: seq<T>)
    ensures a + (b + c) == (a + b) + c
  {
  }

  lemma NoBytes(a: Addr)
    ensures Bytes(a, 0) == []
  {
  }

  /** The extents, laid end to end, are exactly the instructions, laid end to end. */
  lemma {:induction false} ExtentsCoverInsns(start: Addr, rs: seq<DisResult>)
    ensures var extents := ExtentsOf(start, rs); ExtentBytes(extents, |extents|) == InsnBytes(start, rs)
  {
    hide Bytes, Grown, IpAfter;
    if rs == [] {
      NoBytes(start);
    } else {
      var init := rs[..|rs| - 1];
      ExtentsCoverInsns(start, init);
      IpIsEndOfExtent(start, init);
      GrownBytes(ExtentsOf(start, init), rs[|rs| - 1]);
    }
  }

  /** The answer to an allowed question is an allowed answer. */
  lemma AnswerIsAllowed(control: Control, dis: Disassembler, chase: Addr -> bool, start: Addr, rs: seq<DisResult>)
    requires Obeys(dis, chase)
    ensures var r := Answer(control, dis, chase, start, rs);
      Allowed(r, if MayChase(control, rs) then chase else Never(), Count(rs, {ResteerC}) < 2)
  {
    hide Count, IpAfter, Allowed;
  }

  /** Runs stay within the budget: three extents, two conditional chases, no chase by the last instruction. */
  lemma {:induction false} RunIsBounded(control: Control, dis: Disassembler, chase: Addr -> bool, start: Addr,
                                        rs: seq<DisResult>)
    requires control.Valid() && Obeys(dis, chase) && IsRun(control, dis, chase, start, rs)
    ensures |ExtentsOf(start, rs)| == Resteered(rs) + 1 && Resteered(rs) <= 2 && Count(rs, {ResteerC}) <= 2
    ensures rs != [] && rs[|rs| - 1].Resteers() ==> |rs| < control.maxInsns
    ensures forall e :: e in ExtentsOf(start, rs) ==> e.len <= 20 * |rs|
  {
    hide Obeys, Answer;
    if rs != [] {
      var init := rs[..|rs| - 1];
      RunIsBounded(control, dis, chase, start, init);
      AnswerIsAllowed(control, dis, chase, start, init);
    }
  }

  // ---------- The builder ----------

  /** The value of a 64-bit signed integer. */
  function ToLong(x: int): int {
    (x + SPACE / 2) % SPACE - SPACE / 2
  }

  lemma LongAdvances(start: Addr, x: int)
    ensures Advance(start, ToLong(x)) == Advance(start, x)
    ensures 0 <= start + x < SPACE ==> Advance(start, x) == start + x
  {
    var q := (x + SPACE / 2) / SPACE;
    assert ToLong(x) == x - q * SPACE;
    assert (start + x - q * SPACE) % SPACE == (start + x) % SPACE;
  }

  lemma AdvanceTwice(start: Addr, d: int, n: int)
    ensures Advance(start, d + n) == Advance(Advance(start, d), n)
  {
  }

  /**
   * The mark of an instruction: on ARM the lowest address bit tells the instruction set and moves to the delta
   * field.
   */
  function MarkOf(control: Control, ip: Addr, len: nat): Stmt {
    if control.arm && ip % 2 == 1 then IMark(ip - 1, len, 1) else IMark(ip, len, 0)
  }

  ghost function StmtsOf(control: Control, start: Addr, rs: seq<DisResult>): seq<Stmt> {
    if rs == [] then []
    else
      var init, r := rs[..|rs| - 1], rs[|rs| - 1];
      StmtsOf(control, start, init) + ([MarkOf(control, IpAfter(start, init), r.len)] + r.stmts)
  }

  // ---------- Reading a block ----------

  /** The marks among statements, in order. */
  function Marks(stmts: seq<Stmt>): (r: seq<Stmt>)
    ensures forall i :: 0 <= i < |r| ==> r[i].IMark?
  {
    if stmts == [] then []
    else
      var last := stmts[|stmts| - 1];
      Marks(stmts[..|stmts| - 1]) + (if last.IMark? then [last] else [])
  }

  /** Reads the code back from marks: an address with its delta bit, and a length. */
  ghost function MarkedBytes(marks: seq<Stmt>): seq<Addr>
    requires forall i :: 0 <= i < |marks| ==> marks[i].IMark?
  {
    if marks == [] then []
    else
      var last := marks[|marks| - 1];
      MarkedBytes(marks[..|marks| - 1]) + Bytes(Advance(last.addr, last.delta), last.len)
  }

  lemma {:induction false} MarksOfBoth(front: seq<Stmt>, back: seq<Stmt>)
    ensures Marks(front + back) == Marks(front) + Marks(back)
    decreases |back|
  {
    if back == [] {
      assert front + back == front;
    } else {
      var init := back[..|back| - 1];
      MarksOfBoth(front, init);
      assert (front + back)[..|front + back| - 1] == front + init;
    }
  }

  lemma {:induction false} NoMarks(stmts: seq<Stmt>)
    requires forall i :: 0 <= i < |stmts| ==> !stmts[i].IMark?
    ensures Marks(stmts) == []
  {
    if stmts != [] { NoMarks(stmts[..|stmts| - 1]); }
  }

  /** The disassembler leaves marking to the builder. */
  ghost predicate LeavesMarking(rs: seq<DisResult>) {
    forall i, j :: 0 <= i < |rs| && 0 <= j < |rs[i].stmts| ==> !rs[i].stmts[j].IMark?
  }

  lemma MarksOfMore(control: Control, start: Addr, rs: seq<DisResult>)
    requires LeavesMarking(rs) && rs != []
    ensures var init, r := rs[..|rs| - 1], rs[|rs| - 1];
      && LeavesMarking(init)
      && Marks(StmtsOf(control, start, rs))
         == Marks(StmtsOf(control, start, init)) + [MarkOf(control, IpAfter(start, init), r.len)]
  {
    hide MarkOf, IpAfter;
    var init, r := rs[..|rs| - 1], rs[|rs| - 1];
    var mark := MarkOf(control, IpAfter(start, init), r.len);
    assert mark.IMark? by { MarkTells(control, IpAfter(start, init), r.len); }
    NoMarks(r.stmts);
    assert [mark][..0] == [];
    MarksOfBoth([mark], r.stmts);
    MarksOfBoth(StmtsOf(control, start, init), [mark] + r.stmts);
  }

  /** A mark gives the address back; on ARM its own address is even and the delta is the instruction set's bit. */
  lemma MarkTells(control: Control, ip: Addr, len: nat)
    ensures var mark := MarkOf(control, ip, len);
      && mark.IMark? && mark.len == len && mark.addr + mark.delta == ip == Advance(mark.addr, mark.delta)
      && (if control.arm then mark.addr % 2 == 0 && mark.delta < 2 else mark.delta == 0)
  {
  }

  /** The marks of a block, read in order, are the instructions in the order they were disassembled. */
  lemma {:induction false} MarksAreInsns(control: Control, start: Addr, rs: seq<DisResult>)
    requires LeavesMarking(rs)
    ensures var marks := Marks(StmtsOf(control, start, rs));
      && |marks| == |rs| && (forall i :: 0 <= i < |rs| ==>
            marks[i].len == rs[i].len && marks[i].addr + marks[i].delta == IpAfter(start, rs[..i]))
      && (control.arm ==> forall i :: 0 <= i < |rs| ==> marks[i].addr % 2 == 0 && marks[i].delta < 2)
      && MarkedBytes(marks) == InsnBytes(start, rs)
  {
    hide MarkOf, IpAfter, Bytes, Marks, StmtsOf;
    if rs == [] {
      assert Marks(StmtsOf(control, start, rs)) == [] by { NothingMarked(control, start); }
    } else {
      var init, r := rs[..|rs| - 1], rs[|rs| - 1];
      MarksOfMore(control, start, rs);
      MarksAreInsns(control, start, init);
      MarkTells(control, IpAfter(start, init), r.len);
      var marks := Marks(StmtsOf(control, start, rs));
      assert marks[..|marks| - 1] == Marks(StmtsOf(control, start, init));
      forall i | 0 <= i < |init|
        ensures init[..i] == rs[..i]
      {
      }
    }
  }

  lemma NothingMarked(control: Control, start: Addr)
    ensures Marks(StmtsOf(control, start, [])) == []
  {
  }

  // ---------- Chasing ----------

  /** A disassembler that chases to `at` whenever it may, conditionally if that is allowed. */
  function Eager(at: Addr): Disassembler {
    (step: nat, ok: Addr -> bool, cond: bool, ip: Addr) =>
      if ok(at) then DisResult(1, if cond then ResteerC else ResteerU, None, at, [PutIP])
      else DisResult(1, Continue, None, 0, [PutIP])
  }

  /** Chasing goes on as long as the threshold and the room for extents allow, and the first two may be conditional. */
  lemma {:induction false} EagerChases(control: Control, chase: Addr -> bool, start: Addr, at: Addr,
                                       rs: seq<DisResult>)
    requires chase(at) && IsRun(control, Eager(at), chase, start, rs)
    ensures Resteered(rs) == Count(rs, {ResteerC})
         == if |rs| < control.chaseThresh && |rs| < 2 then |rs| else if control.chaseThresh < 2 then control.chaseThresh
            else 2
  {
    if rs != [] { EagerChases(control, chase, start, at, rs[..|rs| - 1]); }
  }

  /** The guest code a block was made from: at most three stretches. */
  class GuestExtents {
    const base: array<Addr>
    const len: array<nat>
    var used: nat

    ghost predicate Valid()
      reads this
    {
      base.Length == 3 && len.Length == 3 && used <= 3
    }

    ghost function Contents(): seq<Extent>
      requires Valid()
      reads this, base, len
    {
      seq(used, i requires 0 <= i < used reads this, base, len requires Valid() => Extent(base[i], len[i]))
    }

    constructor ()
      ensures Valid() && used == 0 && fresh(base) && fresh(len)
    {
      base, len, used := new Addr[3], new nat[3], 0;
    }

    method Open(at: Addr)
      requires Valid() && used < 3
      modifies this, base, len
      ensures Valid() && Contents() == old(Contents()) + [Extent(at, 0)]
    {
      base[used], len[used] := at, 0;
      used := used + 1;
    }

    /** Lengths are 16-bit. */
    method Lengthen(n: nat)
      requires Valid() && used > 0
      modifies len
      ensures Valid()
      ensures var last := old(len[used - 1]) + n;
        last < 0x10000 ==> Contents() == Longer(old(Contents()), n)
    {
      len[used - 1] := (len[used - 1] + n) % 0x10000;
    }
  }

  class IRSB {
    var stmts: seq<Stmt>
    var leavesByIP: bool
    var jumpKind: Option<nat>

    constructor ()
      ensures stmts == [] && !leavesByIP && jumpKind == None
    {
      stmts, leavesByIP, jumpKind := [], false, None;
    }
  }

  /** Between two instructions: the variables tell the run so far, and there is room for another instruction. */
  ghost predicate Building(control: Control, dis: Disassembler, chase: Addr -> bool, start: Addr, rs: seq<DisResult>,
                           nInstrs: nat, delta: int, condAllowed: int) {
    && IsRun(control, dis, chase, start, rs) && nInstrs == |rs| < control.maxInsns
    && (rs != [] ==> rs[|rs| - 1].whatNext != StopHere)
    && condAllowed == 2 - Count(rs, {ResteerC})
    && Advance(start, delta) == IpAfter(start, rs)
  }

  lemma BuildingStarts(control: Control, dis: Disassembler, chase: Addr -> bool, start: Addr)
    ensures Building(control, dis, chase, start, [], 0, 0, 2)
    ensures ExtentsOf(start, []) == [Extent(start, 0)] && StmtsOf(control, start, []) == []
  {
  }

  lemma MoreIsRun(control: Control, dis: Disassembler, chase: Addr -> bool, start: Addr, rs: seq<DisResult>,
                  r: DisResult)
    requires IsRun(control, dis, chase, start, rs) && (rs != [] ==> rs[|rs| - 1].whatNext != StopHere)
    requires r == Answer(control, dis, chase, start, rs)
    ensures var rs' := rs + [r];
      && IsRun(control, dis, chase, start, rs')
      && Count(rs', {ResteerC}) == Count(rs, {ResteerC}) + (if r.whatNext == ResteerC then 1 else 0)
      && IpAfter(start, rs') == (if r.Resteers() then r.continueAt else Advance(IpAfter(start, rs), r.len))
      && ExtentsOf(start, rs') == Grown(ExtentsOf(start, rs), r)
      && StmtsOf(control, start, rs')
         == StmtsOf(control, start, rs) + ([MarkOf(control, IpAfter(start, rs), r.len)] + r.stmts)
  {
    hide Answer, Grown, Advance, MarkOf;
    assert (rs + [r])[..|rs|] == rs;
  }

  /** Appends an instruction's mark and statements, then fills in its length. */
  method AddInsn(irsb: IRSB, mark: Stmt, r: DisResult)
    requires mark.IMark? && mark.len == 0 && |r.stmts| > 0 && r.stmts[|r.stmts| - 1] == PutIP
    modifies irsb`stmts
    ensures irsb.stmts == old(irsb.stmts) + ([mark.(len := r.len)] + r.stmts)
  {
    var first := |irsb.stmts|;
    irsb.stmts := irsb.stmts + [mark];
    irsb.stmts := irsb.stmts + r.stmts;
    assert irsb.stmts[first].IMark? && irsb.stmts[first].len == 0;
    irsb.stmts := irsb.stmts[first := irsb.stmts[first].(len := r.len)];
    assert irsb.stmts[|irsb.stmts| - 1] == PutIP;
  }

  /** One instruction: disassembles it, lengthens the last extent, and goes on, chases or stops. */
  method DisassembleOne(control: Control, dis: Disassembler, chase: Addr -> bool, start: Addr, vge: GuestExtents,
                        irsb: IRSB,
                        nInstrs: nat, delta: int, condAllowed: int, ghost rs: seq<DisResult>, ghost front: seq<Stmt>)
    returns (done: bool, delta': int, condAllowed': int, ghost rs': seq<DisResult>)
    requires control.Valid() && Obeys(dis, chase) &&
        Building(control, dis, chase, start, rs, nInstrs, delta, condAllowed)
    requires vge.Valid() && vge.Contents() == ExtentsOf(start, rs)
    requires !irsb.leavesByIP && irsb.jumpKind == None && irsb.stmts == front + StmtsOf(control, start, rs)
    modifies vge, vge.base, vge.len, irsb
    ensures |rs'| == nInstrs + 1 && Follows(control, dis, chase, start, rs', done, nInstrs + 1, delta', condAllowed')
    ensures vge.Valid() && vge.Contents() == ExtentsOf(start, rs')
    ensures irsb.stmts == front + StmtsOf(control, start, rs')
    ensures if done then irsb.leavesByIP && irsb.jumpKind == rs'[|rs'| - 1].jumpKind
            else !irsb.leavesByIP && irsb.jumpKind == None
  {
    hide Obeys, Building, Follows, Answer, ExtentsOf, Grown, StmtsOf, Advance, ToLong;
    BuildingBounds(control, dis, chase, start, rs, nInstrs, delta, condAllowed);
    var resteerOK := nInstrs < control.chaseThresh && vge.used < 3;
    var resteerOKfn := if resteerOK then chase else Never();
    assert 0 <= condAllowed <= 2;
    var r := dis(nInstrs, resteerOKfn, condAllowed > 0, Advance(start, delta));
    StepBuilds(control, dis, chase, start, rs, nInstrs, delta, condAllowed, resteerOK, r);
    rs' := rs + [r];
    AddInsn(irsb, MarkOf(control, Advance(start, delta), 0), r);
    assert vge.Contents()[vge.used - 1] in vge.Contents();
    assert vge.len[vge.used - 1] < 5000;
    vge.Lengthen(r.len);
    done, delta', condAllowed' :=
      GoOn(control, start, vge, irsb, nInstrs + 1, delta, condAllowed, resteerOK, resteerOKfn, r);
    OpenGrows(ExtentsOf(start, rs), r);
  }

  /** After an instruction: goes on behind it, chases into another extent, or ends the block. */
  method GoOn(control: Control, start: Addr, vge: GuestExtents, irsb: IRSB, nInstrs: nat, delta: int, condAllowed: int,
              resteerOK: bool, resteerOKfn: Addr -> bool, r: DisResult)
    returns (done: bool, delta': int, condAllowed': int)
    requires vge.Valid() && !irsb.leavesByIP && irsb.jumpKind == None
    requires Allowed(r, resteerOKfn, condAllowed > 0) && (r.Resteers() ==> resteerOK) && (resteerOK ==> vge.used < 3)
    modifies vge, vge.base, vge.len, irsb`leavesByIP, irsb`jumpKind
    ensures done == Ends(control, nInstrs, r) && delta' == DeltaAfter(start, delta, r)
    ensures condAllowed' == if r.whatNext == ResteerC then condAllowed - 1 else condAllowed
    ensures vge.Valid()
    ensures vge.Contents() == old(vge.Contents()) + (if r.Resteers() then [Extent(r.continueAt, 0)] else [])
    ensures irsb.leavesByIP == done && irsb.jumpKind == if done then r.jumpKind else None
  {
    delta', condAllowed', done := ToLong(delta + r.len), condAllowed, false;
    match r.whatNext
    case Continue =>
      assert r.continueAt == 0 && r.jumpKind == None;
      if nInstrs >= control.maxInsns {
        irsb.leavesByIP, done := true, true;
      }
    case StopHere =>
      assert r.continueAt == 0 && r.jumpKind != None;
      irsb.leavesByIP, irsb.jumpKind, done := true, r.jumpKind, true;
    case _ =>
      assert resteerOK;
      ChaseIsOk(r, resteerOKfn, condAllowed > 0);
      if r.whatNext == ResteerC { condAllowed' := condAllowed - 1; }
      assert resteerOKfn(r.continueAt);
      delta' := ToLong(r.continueAt - start);
      vge.Open(r.continueAt);
  }

  lemma ChaseIsOk(r: DisResult, ok: Addr -> bool, cond: bool)
    requires Allowed(r, ok, cond) && r.Resteers()
    ensures ok(r.continueAt) && (r.whatNext == ResteerC ==> cond)
  {
  }

  lemma OpenGrows(extents: seq<Extent>, r: DisResult)
    requires |extents| > 0
    ensures Grown(extents, r) == Longer(extents, r.len) + (if r.Resteers() then [Extent(r.continueAt, 0)] else [])
  {
  }

  lemma BuildingBounds(control: Control, dis: Disassembler, chase: Addr -> bool, start: Addr, rs: seq<DisResult>,
                       nInstrs: nat, delta: int, condAllowed: int)
    requires control.Valid() && Obeys(dis, chase) &&
        Building(control, dis, chase, start, rs, nInstrs, delta, condAllowed)
    ensures |rs| == nInstrs < control.maxInsns && 0 <= condAllowed <= 2
    ensures condAllowed == 2 - Count(rs, {ResteerC}) && Advance(start, delta) == IpAfter(start, rs)
    ensures IsRun(control, dis, chase, start, rs) && (rs != [] ==> rs[|rs| - 1].whatNext != StopHere)
    ensures 0 < |ExtentsOf(start, rs)| <= 3 && |ExtentsOf(start, rs)| == Resteered(rs) + 1
    ensures forall e :: e in ExtentsOf(start, rs) ==> e.len < 2000
  {
    hide IsRun, Obeys, ExtentsOf;
    RunIsBounded(control, dis, chase, start, rs);
  }

  /** The builder's variables after a result. */
  ghost predicate Follows(control: Control, dis: Disassembler, chase: Addr -> bool, start: Addr, rs: seq<DisResult>,
                          done: bool, nInstrs: nat, delta: int, condAllowed: int) {
    if done then IsRun(control, dis, chase, start, rs) && IsComplete(control, rs)
    else Building(control, dis, chase, start, rs, nInstrs, delta, condAllowed)
  }

  /** The next answer keeps the contract, and the builder's variables follow the run. */
  lemma StepBuilds(control: Control, dis: Disassembler, chase: Addr -> bool, start: Addr, rs: seq<DisResult>,
                   nInstrs: nat, delta: int, condAllowed: int, resteerOK: bool, r: DisResult)
    requires control.Valid() && Obeys(dis, chase) &&
        Building(control, dis, chase, start, rs, nInstrs, delta, condAllowed)
    requires resteerOK <==> nInstrs < control.chaseThresh && |ExtentsOf(start, rs)| < 3
    requires r == dis(nInstrs, if resteerOK then chase else Never(), condAllowed > 0, Advance(start, delta))
    ensures Allowed(r, if resteerOK then chase else Never(), condAllowed > 0) && (r.Resteers() ==> resteerOK)
    ensures ExtentsOf(start, rs + [r]) == Grown(ExtentsOf(start, rs), r)
    ensures StmtsOf(control, start, rs + [r])
         == StmtsOf(control, start, rs) + ([MarkOf(control, Advance(start, delta), r.len)] + r.stmts)
    ensures Follows(control, dis, chase, start, rs + [r], Ends(control, nInstrs + 1, r), nInstrs + 1,
                    DeltaAfter(start, delta, r), if r.whatNext == ResteerC then condAllowed - 1 else condAllowed)
  {
    hide Obeys, IsRun, Answer, ExtentsOf, StmtsOf, IpAfter, Count, Advance, ToLong, Grown, MarkOf, DeltaAfter;
    hide Building, Follows;
    BuildingBounds(control, dis, chase, start, rs, nInstrs, delta, condAllowed);
    AllowedAnswer(control, dis, chase, start, rs, if resteerOK then chase else Never(), condAllowed > 0);
    MoreIsRun(control, dis, chase, start, rs, r);
    NeverSaysNo(r.continueAt);
    DeltaFollows(start, delta, r);
    StepFollows(control, dis, chase, start, rs, r, nInstrs, delta, condAllowed);
  }

  predicate Ends(control: Control, nInstrs: nat, r: DisResult) {
    r.whatNext == StopHere || (r.whatNext == Continue && nInstrs >= control.maxInsns)
  }

  function DeltaAfter(start: Addr, delta: int, r: DisResult): int {
    ToLong(if r.Resteers() then r.continueAt - start else delta + r.len)
  }

  lemma DeltaFollows(start: Addr, delta: int, r: DisResult)
    ensures Advance(start, DeltaAfter(start, delta, r)) ==
      if r.Resteers() then r.continueAt else Advance(Advance(start, delta), r.len)
  {
    hide ToLong, Advance;
    if r.Resteers() {
      LongAdvances(start, r.continueAt - start);
    } else {
      LongAdvances(start, delta + r.len);
      AdvanceTwice(start, delta, r.len);
    }
  }

  lemma StepFollows(control: Control, dis: Disassembler, chase: Addr -> bool, start: Addr, rs: seq<DisResult>,
                    r: DisResult, nInstrs: nat, delta: int, condAllowed: int)
    requires control.Valid() && nInstrs == |rs| < control.maxInsns
    requires IsRun(control, dis, chase, start, rs + [r]) && (r.Resteers() ==> nInstrs < control.chaseThresh)
    requires condAllowed == 2 - Count(rs, {ResteerC})
    requires Count(rs + [r], {ResteerC}) == Count(rs, {ResteerC}) + (if r.whatNext == ResteerC then 1 else 0)
    requires Advance(start, DeltaAfter(start, delta, r)) == IpAfter(start, rs + [r])
    ensures Follows(control, dis, chase, start, rs + [r], Ends(control, nInstrs + 1, r), nInstrs + 1,
                    DeltaAfter(start, delta, r), if r.whatNext == ResteerC then condAllowed - 1 else condAllowed)
  {
    hide IsRun, IpAfter, Count, Advance, DeltaAfter;
  }

  lemma AllowedAnswer(control: Control, dis: Disassembler, chase: Addr -> bool, start: Addr, rs: seq<DisResult>,
                      ok: Addr -> bool, cond: bool)
    requires Obeys(dis, chase) && ok == if MayChase(control, rs) then chase else Never()
    requires cond == (Count(rs, {ResteerC}) < 2)
    ensures var r := dis(|rs|, ok, cond, IpAfter(start, rs));
      r == Answer(control, dis, chase, start, rs) && Allowed(r, ok, cond)
  {
    AskedIsAnswer(control, dis, chase, start, rs, ok, cond);
    AnswerIsAllowed(control, dis, chase, start, rs);
  }

  lemma NeverSaysNo(a: Addr)
    ensures !Never()(a)
  {
  }

  lemma AskedIsAnswer(control: Control, dis: Disassembler, chase: Addr -> bool, start: Addr, rs: seq<DisResult>,
                      ok: Addr -> bool, cond: bool)
    requires ok == if MayChase(control, rs) then chase else Never()
    requires cond == (Count(rs, {ResteerC}) < 2)
    ensures dis(|rs|, ok, cond, IpAfter(start, rs)) == Answer(control, dis, chase, start, rs)
  {
  }

  /**
   * Builds a superblock from the code at `start`. The preamble may complete the block alone; otherwise
   * the block holds the run of the disassembler.
   */
  method BbToIR(control: Control, start: Addr, dis: Disassembler, chase: Addr -> bool,
                preamble: Option<(seq<Stmt>, bool)>, vge: GuestExtents, irsb: IRSB)
    returns (nInstrs: nat, ghost rs: seq<DisResult>)
    requires control.Valid() && Obeys(dis, chase) && vge.Valid()
    requires irsb.stmts == [] && !irsb.leavesByIP && irsb.jumpKind == None
    modifies vge, vge.base, vge.len, irsb
    ensures vge.Valid() && vge.Contents() == ExtentsOf(start, rs)
    ensures irsb.stmts == Front(preamble) + StmtsOf(control, start, rs) && nInstrs == |rs| <= control.maxInsns
    ensures preamble.Some? && preamble.value.1 ==> rs == [] && !irsb.leavesByIP
    ensures !(preamble.Some? && preamble.value.1) ==> IsRun(control, dis, chase, start, rs) && IsComplete(control, rs)
    ensures rs != [] ==> irsb.leavesByIP && irsb.jumpKind == rs[|rs| - 1].jumpKind
  {
    hide Obeys, IsRun, ExtentsOf, StmtsOf, Count, Advance, IpAfter;
    vge.used := 0;
    vge.Open(start);
    BuildingStarts(control, dis, chase, start);
    nInstrs, rs := 0, [];
    irsb.stmts := Slots();
    if preamble.Some? {
      irsb.stmts := irsb.stmts + preamble.value.0;
      if preamble.value.1 { return; }
    }
    ghost var front := irsb.stmts;
    assert front == Front(preamble);
    var done, delta, condAllowed := false, 0, 2;
    while !done
      invariant nInstrs == |rs| <= control.maxInsns && (!done ==> nInstrs < control.maxInsns)
      invariant Follows(control, dis, chase, start, rs, done, nInstrs, delta, condAllowed)
      invariant vge.Valid() && vge.Contents() == ExtentsOf(start, rs) &&
          irsb.stmts == front + StmtsOf(control, start, rs)
      invariant irsb.leavesByIP == done && irsb.jumpKind == if done then rs[|rs| - 1].jumpKind else None
      decreases control.maxInsns - nInstrs, if done then 0 else 1
    {
      assert nInstrs < control.maxInsns;
      done, delta, condAllowed, rs :=
        DisassembleOne(control, dis, chase, start, vge, irsb, nInstrs, delta, condAllowed, rs, front);
      nInstrs := nInstrs + 1;
    }
  }

  /** Room for the self checks: five statements for each of three extents. */
  function Slots(): seq<Stmt> {
    seq(15, _ => NoOp)
  }

  function Front(preamble: Option<(seq<Stmt>, bool)>): seq<Stmt> {
    Slots() + (if preamble.Some? then preamble.value.0 else [])
  }
}
