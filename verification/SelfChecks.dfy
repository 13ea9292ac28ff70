/** Self checks of a superblock: which words of guest code are summed, and when its assertions hold. */
module SelfChecks {
  import opened Wrappers
  import opened Bits
  import opened SuperBlock

  /** Bytes in a host word. */
  const WORD := 8

  function FirstWord(e: Extent): int {
    e.base - e.base % WORD
  }

  /** The word of the last byte, in arithmetic that wraps around. */
  function LastWord(e: Extent): int {
    var last := Advance(e.base, e.len - 1);
    last - last % WORD
  }

  function Words(e: Extent): int {
    (LastWord(e) - FirstWord(e) + WORD) / WORD
  }

  /** The assertions on the way to a check. */
  predicate Checkable(e: Extent) {
    && e.len < 1000
    && (e.len > 0 ==>
          FirstWord(e) <= LastWord(e) && (LastWord(e) - FirstWord(e)) % WORD == 0 && 0 < Words(e) < 1004 / WORD)
  }

  /** The words of an extent that does not wrap around. */
  lemma WordsOf(e: Extent)
    requires e.len > 0 && e.base + e.len <= SPACE
    ensures LastWord(e) == FirstWord(e) + WORD * ((e.base % WORD + e.len - 1) / WORD)
    ensures Words(e) == (e.base % WORD + e.len - 1) / WORD + 1
  {
    var last, x := e.base + e.len - 1, e.base % WORD + e.len - 1;
    assert Advance(e.base, e.len - 1) == last;
    assert last == WORD * (e.base / WORD) + x;
    assert last - last % WORD == WORD * (last / WORD) == WORD * (e.base / WORD + x / WORD);
  }

  lemma WrappedWords(e: Extent)
    requires 0 < e.len < 1000 && e.base + e.len > SPACE
    ensures LastWord(e) < FirstWord(e)
  {
    assert Advance(e.base, e.len - 1) == e.base + e.len - 1 - SPACE;
  }

  /** They hold exactly for code that does not wrap around and ends at most 992 bytes behind its first word's start. */
  lemma CheckableIff(e: Extent)
    requires e.len > 0
    ensures Checkable(e) <==> e.base + e.len <= SPACE && e.base % WORD + e.len <= 992
  {
    hide LastWord, FirstWord, Words;
    if e.base + e.len <= SPACE {
      WordsOf(e);
    } else if e.len < 1000 {
      WrappedWords(e);
    }
  }

  predicate Aligned(a: int) {
    a % WORD == 0
  }

  predicate InCode(e: Extent, b: int) {
    e.base <= b < e.base + e.len
  }

  predicate InWord(a: int, b: int) {
    a <= b < a + WORD
  }

  /** The words summed are the aligned words that hold a byte of the code, and no others. */
  lemma WordsOverlapCode(e: Extent, a: int)
    requires e.len > 0 && Checkable(e) && Aligned(a)
    ensures FirstWord(e) <= a < FirstWord(e) + WORD * Words(e) <==> exists b :: InCode(e, b) && InWord(a, b)
  {
    CheckableIff(e);
    WordsOf(e);
    if FirstWord(e) <= a <= LastWord(e) {
      var b := if a < e.base then e.base else a;
      assert InCode(e, b) && InWord(a, b);
    }
    if b :| InCode(e, b) && InWord(a, b) {
      assert a >= FirstWord(e);
    }
  }

  /** With at most 49 instructions in a block every check can be built, wherever the code is. */
  lemma SelfChecksFit(control: Control, dis: Disassembler, chase: Addr -> bool, start: Addr, rs: seq<DisResult>,
                      e: Extent)
    requires control.Valid() && Obeys(dis, chase) && IsRun(control, dis, chase, start, rs) && |rs| <= control.maxInsns
    requires control.maxInsns <= 49 && e in ExtentsOf(start, rs) && e.base + e.len <= SPACE
    ensures Checkable(e)
  {
    hide IsRun, ExtentsOf, Obeys;
    RunIsBounded(control, dis, chase, start, rs);
    if e.len > 0 { CheckableIff(e); }
  }

  // ---------- Why not more ----------

  /** A disassembler that finds instructions of the greatest length only. */
  function Longest(): Disassembler {
    (step, ok, cond, ip) => LongestInsn()
  }

  function LongestInsn(): DisResult {
    DisResult(20, Continue, None, 0, [PutIP])
  }

  ghost function LongestRun(n: nat): seq<DisResult> {
    seq(n, _ => LongestInsn())
  }

  lemma {:induction false} LongestIsRun(control: Control, chase: Addr -> bool, start: Addr, n: nat)
    ensures IsRun(control, Longest(), chase, start, LongestRun(n))
    ensures ExtentsOf(start, LongestRun(n)) == [Extent(start, 20 * n)]
  {
    if n > 0 {
      LongestIsRun(control, chase, start, n - 1);
      assert LongestRun(n)[..n - 1] == LongestRun(n - 1);
    }
  }

  /** With 50 instructions or more, a lawful disassembler makes a block whose self check fails an assertion. */
  lemma SelfChecksFail(control: Control, chase: Addr -> bool, start: Addr) returns (rs: seq<DisResult>, e: Extent)
    requires control.Valid() && control.maxInsns >= 50
    ensures Obeys(Longest(), chase) && IsRun(control, Longest(), chase, start, rs) && IsComplete(control, rs)
    ensures e in ExtentsOf(start, rs) && !Checkable(e)
  {
    rs := LongestRun(control.maxInsns);
    LongestIsRun(control, chase, start, control.maxInsns);
    e := Extent(start, 20 * control.maxInsns);
  }

  // ---------- Building the checks ----------

  predicate Bit(mask: nat, i: nat) {
    BitOf(mask, i) == 1
  }

  /** What stands in one of the fifteen slots. */
  function SlotOf(extents: seq<Extent>, n: nat, mask: nat, k: nat): Stmt {
    var i := k / 5;
    if i < n && i < |extents| && Bit(mask, i) && extents[i].len > 0
    then SelfCheck(k % 5, extents[i], FirstWord(extents[i]), Words(extents[i]))
    else NoOp
  }

  ghost predicate Slotted(extents: seq<Extent>, n: nat, mask: nat, before: seq<Stmt>, stmts: seq<Stmt>) {
    && |stmts| == |before|
    && (forall k :: 0 <= k < 15 && k < |stmts| ==> stmts[k] == SlotOf(extents, n, mask, k))
    && (forall k :: 15 <= k < |stmts| ==> stmts[k] == before[k])
  }

  function Wanted(mask: nat, n: nat): nat {
    if n == 0 then 0 else Wanted(mask, n - 1) + (if Bit(mask, n - 1) then 1 else 0)
  }

  ghost predicate NamesExisting(mask: nat, n: nat) {
    forall i: nat :: Bit(mask, i) ==> i < n
  }

  lemma {:induction false} SomeBit(mask: nat) returns (i: nat)
    requires mask > 0
    ensures Bit(mask, i)
  {
    if mask % 2 == 1 { return 0; }
    i := SomeBit(mask / 2);
    i := i + 1;
  }

  /** The shifted mask is zero exactly if every bit of the mask names an existing extent. */
  lemma {:induction false} NoneBeyond(mask: nat, n: nat)
    ensures Shr(mask, n) == 0 <==> NamesExisting(mask, n)
  {
    hide Shr;
    if Shr(mask, n) == 0 {
      forall i: nat | Bit(mask, i)
        ensures i < n
      {
        if i >= n {
          ShrTwice(mask, n, i - n);
          ZeroBits(i - n);
          assert false;
        }
      }
    } else {
      var i := SomeBit(Shr(mask, n));
      ShrTwice(mask, n, i);
      assert Bit(mask, n + i);
    }
  }

  /**
   * Fills the slots of the extents that need a check. An assertion fails for a mask that names an extent that
   * does not exist, and for an extent that cannot have a check.
   */
  method AddSelfChecks(vge: GuestExtents, mask: nat, irsb: IRSB) returns (count: Option<nat>)
    requires vge.Valid() && 1 <= vge.used <= 3
    requires |irsb.stmts| >= 15 && forall k :: 0 <= k < 15 ==> irsb.stmts[k] == NoOp
    modifies irsb`stmts
    ensures |irsb.stmts| == |old(irsb.stmts)| && irsb.stmts[15..] == old(irsb.stmts)[15..]
    ensures count.Some? <==>
      NamesExisting(mask, vge.used) && forall i :: 0 <= i < vge.used && Bit(mask, i) ==> Checkable(vge.Contents()[i])
    ensures count.Some? ==> count.value == Wanted(mask, vge.used)
    ensures count.Some? ==> Slotted(vge.Contents(), vge.used, mask, old(irsb.stmts), irsb.stmts)
  {
    hide Checkable, FirstWord, LastWord, Words, Bit, Shr, NamesExisting;
    NoneBeyond(mask, vge.used);
    if Shr(mask, vge.used) != 0 { return None; }
    var sc: nat := 0;
    for i := 0 to vge.used
      invariant sc == Wanted(mask, i)
      invariant forall j :: 0 <= j < i && Bit(mask, j) ==> Checkable(vge.Contents()[j])
      invariant Slotted(vge.Contents(), i, mask, old(irsb.stmts), irsb.stmts)
    {
      if Bit(mask, i) {
        sc := sc + 1;
        var e := Extent(vge.base[i], vge.len[i]);
        assert e == vge.Contents()[i];
        if !Checkable(e) { return None; }
        if e.len > 0 { AddCheck(irsb, i, e); }
      }
    }
    return Some(sc);
  }

  method AddCheck(irsb: IRSB, i: nat, e: Extent)
    requires i < 3 && |irsb.stmts| >= 15
    modifies irsb`stmts
    ensures |irsb.stmts| == |old(irsb.stmts)|
    ensures forall k :: 0 <= k < |irsb.stmts| ==>
      irsb.stmts[k] == if k / 5 == i then SelfCheck(k % 5, e, FirstWord(e), Words(e)) else old(irsb.stmts)[k]
  {
    hide FirstWord, LastWord, Words;
    for part := 0 to 5
      invariant |irsb.stmts| == |old(irsb.stmts)|
      invariant forall k :: 0 <= k < |irsb.stmts| ==>
        irsb.stmts[k] == if k / 5 == i && k % 5 < part then SelfCheck(k % 5, e, FirstWord(e), Words(e))
                         else old(irsb.stmts)[k]
    {
      irsb.stmts := irsb.stmts[i * 5 + part := SelfCheck(part, e, FirstWord(e), Words(e))];
    }
  }

  ghost predicate NoWrap(extents: seq<Extent>) {
    forall e :: e in extents ==> e.base + e.len <= SPACE
  }

  /** The whole translation: the block, then the self checks its caller wants. */
  method Translate(control: Control, start: Addr, dis: Disassembler, chase: Addr -> bool,
                   preamble: Option<(seq<Stmt>, bool)>, mask: nat, vge: GuestExtents, irsb: IRSB)
    returns (count: Option<nat>, ghost rs: seq<DisResult>)
    requires control.Valid() && Obeys(dis, chase) && vge.Valid()
    requires irsb.stmts == [] && !irsb.leavesByIP && irsb.jumpKind == None
    modifies vge, vge.base, vge.len, irsb
    ensures vge.Valid() && vge.Contents() == ExtentsOf(start, rs) && |irsb.stmts| >= 15
    ensures irsb.stmts[15..] == (if preamble.Some? then preamble.value.0 else []) + StmtsOf(control, start, rs)
    ensures preamble.Some? && preamble.value.1 ==> rs == [] && count == Some(0)
    ensures !(preamble.Some? && preamble.value.1) ==> IsRun(control, dis, chase, start, rs) && IsComplete(control, rs)
    ensures control.maxInsns <= 49 && NoWrap(ExtentsOf(start, rs)) ==>
      count.Some? || !NamesExisting(mask, |ExtentsOf(start, rs)|)
  {
    hide NamesExisting;
    hide IsRun, ExtentsOf, StmtsOf, Obeys, IsComplete, Checkable, Slotted;
    var n;
    n, rs := BbToIR(control, start, dis, chase, preamble, vge, irsb);
    ghost var before := irsb.stmts;
    var code := if preamble.Some? then preamble.value.0 else [];
    assert before[15..] == code + StmtsOf(control, start, rs) by { DropSlots(preamble, StmtsOf(control, start, rs)); }
    if preamble.Some? && preamble.value.1 { return Some(0), rs; }
    RunIsBounded(control, dis, chase, start, rs);
    count := AddSelfChecks(vge, mask, irsb);
    if control.maxInsns <= 49 && NoWrap(ExtentsOf(start, rs)) {
      forall i | 0 <= i < vge.used
        ensures Checkable(vge.Contents()[i])
      {
        SelfChecksFit(control, dis, chase, start, rs, vge.Contents()[i]);
      }
    }
  }

  lemma DropSlots(preamble: Option<(seq<Stmt>, bool)>, code: seq<Stmt>)
    ensures (Front(preamble) + code)[15..] == (if preamble.Some? then preamble.value.0 else []) + code
  {
  }
}
