/** Saving the floating point state to memory and restoring it: FNSAVE/FRSTOR, FXSAVE/FXRSTOR, FSTENV/FLDENV. */
module FpuState {
  import opened Bits
  import opened Floats
  import opened X87

  type F64 = s: seq<Byte> | |s| == 8 witness [0, 0, 0, 0, 0, 0, 0, 0]

  type F80 = s: seq<Byte> | |s| == 10 witness [0, 0, 0, 0, 0, 0, 0, 0, 0, 0]

  type Half = w: int | 0 <= w < 0x1_0000

  const ZERO: F64 := [0, 0, 0, 0, 0, 0, 0, 0]

  datatype Note = NoNote | X87Exceptions | X87Precision | SseExceptions | FlushToZero | DenormalsAreZero

  /** The guest's floating point state as a value. A register is empty if its tag is zero. */
  datatype Fpu = Fpu(ftop: nat, c3210: nat, fpround: nat, sseround: nat, tags: seq<Byte>, regs: seq<F64>) {
    ghost predicate Valid() {
      |tags| == 8 && |regs| == 8
    }
  }

  class GuestFpu {
    var ftop: nat
    var c3210: nat
    var fpround: nat
    var sseround: nat
    const tags: array<Byte>
    const regs: array<F64>

    ghost predicate Valid()
      reads this
    {
      tags.Length == 8 && regs.Length == 8
    }

    ghost function View(): (v: Fpu)
      reads this, tags, regs
      requires Valid()
      ensures v.Valid()
    {
      Fpu(ftop, c3210, fpround, sseround, tags[..], regs[..])
    }

    /** An empty stack. */
    constructor ()
      ensures Valid() && fresh(tags) && fresh(regs)
      ensures View() == Fpu(0, 0, 0, 0, seq(8, _ => 0), seq(8, _ => ZERO))
    {
      ftop, c3210, fpround, sseround := 0, 0, 0, 0;
      tags := new Byte[8](_ => 0);
      regs := new F64[8](_ => ZERO);
    }
  }

  /** The environment words and the registers in stack order, as the processor lays them out. */
  class FpuImage {
    const env: array<Half>
    const slots: array<F80>

    ghost predicate Valid(words: nat)
      reads this
    {
      env.Length == words && slots.Length == 8
    }

    constructor (words: nat)
      ensures Valid(words) && fresh(env) && fresh(slots)
    {
      env := new Half[words](_ => 0);
      slots := new F80[8](_ => [0, 0, 0, 0, 0, 0, 0, 0, 0, 0]);
    }
  }

  // ---------- Control and status words ----------

  /** The condition code bits of a status word: those of the mask 0x4700. */
  function StatusFlags(x: nat): nat {
    x / 0x100 % 8 * 0x100 + x / 0x4000 % 2 * 0x4000
  }

  function StatusWord(ftop: nat, c3210: nat): Half {
    ftop % 8 * 0x800 + StatusFlags(c3210)
  }

  function CreateFpucw(fpround: nat): Half {
    0x037F + fpround % 4 * 0x400
  }

  function CheckFldcw(fpucw: nat): (Note, nat) {
    (if fpucw % 0x40 != 0x3F then X87Exceptions
     else if fpucw / 0x100 % 4 != 3 then X87Precision
     else NoNote,
     fpucw / 0x400 % 4)
  }

  function CreateMxcsr(sseround: nat): Half {
    0x1F80 + sseround % 4 * 0x2000
  }

  function CheckLdmxcsr(mxcsr: nat): (Note, nat) {
    (if mxcsr / 0x80 % 0x40 != 0x3F then SseExceptions
     else if mxcsr / 0x8000 % 2 == 1 then FlushToZero
     else if mxcsr / 0x40 % 2 == 1 then DenormalsAreZero
     else NoNote,
     mxcsr / 0x2000 % 4)
  }

  lemma ControlWordsReturn(round: nat)
    ensures CheckFldcw(CreateFpucw(round)) == (NoNote, round % 4)
    ensures CheckLdmxcsr(CreateMxcsr(round)) == (NoNote, round % 4)
  {
    var r := round % 4;
    assert r == 0 || r == 1 || r == 2 || r == 3;
  }

  lemma StatusReturns(ftop: nat, c3210: nat)
    ensures var w := StatusWord(ftop, c3210); w / 0x800 % 8 == ftop % 8 && StatusFlags(w) == StatusFlags(c3210)
  {
    var t, c, c3 := ftop % 8, c3210 / 0x100 % 8, c3210 / 0x4000 % 2;
    var w := StatusWord(ftop, c3210);
    assert w / 0x100 == c + 8 * t + 64 * c3;
    assert w / 0x800 == t + 8 * c3;
    assert w / 0x4000 == c3;
  }

  lemma StatusAlone(c3210: nat)
    ensures StatusWord(0, c3210) == StatusFlags(c3210)
  {
  }

  // ---------- The words bit by bit ----------

  lemma Places()
    ensures Shl(1, 6) == 0x40 && Shl(1, 7) == 0x80 && Shl(1, 8) == 0x100 && Shl(1, 10) == 0x400
    ensures Shl(1, 2) == 4 && Shl(1, 3) == 8
    ensures Shl(1, 11) == 0x800 && Shl(1, 13) == 0x2000 && Shl(1, 14) == 0x4000 && Shl(1, 15) == 0x8000
  {
    assert Shl(1, 4) == 16;
    assert Shl(1, 8) == 16 * Shl(1, 4);
    assert Shl(1, 12) == 16 * Shl(1, 8);
  }

  /** The six lowest bits mask the exceptions, bits 8 and 9 are the precision, and bits 10 and 11 the rounding. */
  lemma ControlWordNotes(w: nat)
    ensures CheckFldcw(w) == (
      if !Ones(w, 0, 6) then X87Exceptions else if !Ones(w, 8, 10) then X87Precision else NoNote,
      BitOf(w, 10) + 2 * BitOf(w, 11))
  {
    Places();
    OnesAre(w, 0, 6, 0x40);
    OnesAre(w, 8, 2, 4);
    ShrIs(w, 8, 0x100);
    ShrIs(w, 10, 0x400);
    TwoBits(w, 10);
    assert Shr(w, 0) == w;
  }

  lemma TwoBits(w: nat, n: nat)
    ensures Shr(w, n) % 4 == BitOf(w, n) + 2 * BitOf(w, n + 1)
  {
    ShrStep(w, n);
    ShrStep(w, n + 1);
    hide Shr;
  }

  /** Bits 7 to 12 mask exceptions, 13 and 14 are the rounding, 15 flushes to zero and 6 takes denormals for zero. */
  lemma MxcsrNotes(w: nat)
    ensures CheckLdmxcsr(w) == (
      if !Ones(w, 7, 13) then SseExceptions
      else if BitOf(w, 15) == 1 then FlushToZero
      else if BitOf(w, 6) == 1 then DenormalsAreZero
      else NoNote,
      BitOf(w, 13) + 2 * BitOf(w, 14))
  {
    Places();
    OnesAre(w, 7, 6, 0x40);
    ShrIs(w, 6, 0x40);
    ShrIs(w, 7, 0x80);
    ShrIs(w, 13, 0x2000);
    ShrIs(w, 15, 0x8000);
    TwoBits(w, 13);
  }

  /** The created words mask all exceptions, ask for the longest precision, and hold the rounding. */
  lemma CreatedBits(round: nat, n: nat)
    ensures BitOf(CreateFpucw(round), n) ==
      if n < 7 || n == 8 || n == 9 then 1 else if n == 10 || n == 11 then BitOf(round, n - 10) else 0
    ensures BitOf(CreateMxcsr(round), n) ==
      if 7 <= n < 13 then 1 else if n == 13 || n == 14 then BitOf(round, n - 13) else 0
  {
    Places();
    ShlTimes(round % 4, 10);
    ShlTimes(round % 4, 13);
    hide Shl, Shr;
    MasksBits(n);
    BitOfJoined(0x37F, round % 4, 10, n);
    BitOfJoined(0x1F80, round % 4, 13, n);
    if n >= 10 { BitOfRemainder(round, 2, 4, n - 10); }
    if n >= 13 { BitOfRemainder(round, 2, 4, n - 13); }
  }

  lemma MasksBits(n: nat)
    ensures BitOf(0x37F, n) == if n < 7 || n == 8 || n == 9 then 1 else 0
    ensures BitOf(0x1F80, n) == if 7 <= n < 13 then 1 else 0
  {
    Places();
    LowOnes(7, n);
    assert 0x37F == 0x7F + Shl(6, 7) && 0x1F80 == Shl(0x3F, 7) by {
      ShlTimes(6, 7);
      ShlTimes(0x3F, 7);
    }
    hide Shl, Shr;
    BitOfJoined(0x7F, 6, 7, n);
    BitOfJoined(0, 0x3F, 7, n);
    if n >= 7 {
      LowOnes(6, n - 7);
      Six(n - 7);
    } else {
      ZeroBits(n);
    }
  }

  lemma Six(n: nat)
    ensures BitOf(6, n) == if n == 1 || n == 2 then 1 else 0
  {
    if n >= 3 {
      assert BitOf(6, n) == BitOf(3, n - 1) == BitOf(1, n - 2) == BitOf(0, n - 3);
      ZeroBits(n - 3);
    }
  }

  lemma {:induction false} LowOnes(k: nat, n: nat)
    ensures Shl(1, k) > 0 && BitOf(Shl(1, k) - 1, n) == if n < k then 1 else 0
  {
    if k == 0 {
      ZeroBits(n);
    } else {
      LowOnes(k - 1, if n == 0 then 0 else n - 1);
    }
  }

  /** A status word has the stack pointer at bits 11 to 13 and the condition codes at their places. */
  lemma StatusBits(ftop: nat, c3210: nat, n: nat)
    ensures BitOf(StatusWord(ftop, c3210), n) ==
      if 11 <= n < 14 then BitOf(ftop, n - 11) else if n in {8, 9, 10, 14} then BitOf(c3210, n) else 0
  {
    var w, low, t, high := StatusWord(ftop, c3210), c3210 / 0x100 % 8, ftop % 8, c3210 / 0x4000 % 2;
    Places();
    ShlTimes(high, 3);
    ShlTimes(t + 8 * high, 3);
    ShlTimes(low + 8 * (t + 8 * high), 8);
    hide Shl, Shr;
    BitOfJoined(0, low + 8 * (t + 8 * high), 8, n);
    ZeroBits(n);
    if n >= 8 {
      BitOfJoined(low, t + 8 * high, 3, n - 8);
      ConditionBits(c3210, n - 8);
    }
    if n >= 11 {
      BitOfJoined(t, high, 3, n - 11);
      BitOfRemainder(ftop, 3, 8, n - 11);
    }
    if n >= 14 {
      OneBit(high, 0, n - 14);
      ShlByNothing(high);
      ShrIs(c3210, 14, 0x4000);
    }
  }

  lemma ConditionBits(c3210: nat, n: nat)
    ensures BitOf(c3210 / 0x100 % 8, n) == if n < 3 then BitOf(c3210, n + 8) else 0
  {
    Places();
    ShrIs(c3210, 8, 0x100);
    ShrTwice(c3210, 8, n);
    hide Shl, Shr;
    BitOfRemainder(c3210 / 0x100, 3, 8, n);
  }

  // ---------- Tags ----------

  /** The two tag bits of a register. */
  function Slot(w: nat, p: nat): nat {
    Shr(w, 2 * p) % 4
  }

  lemma {:induction false} MarkSlot(w: nat, p: nat, q: nat)
    requires Slot(w, p) == 0
    ensures Slot(w + Shl(3, 2 * p), q) == if q == p then 3 else Slot(w, q)
  {
    if p == 0 {
      NextSlot(w, q);
      NextSlot(w + 3, q);
    } else {
      NextSlot(w, p);
      NextSlot(w, q);
      var x := Shl(3, 2 * (p - 1));
      ShlNext(3, 2 * (p - 1));
      assert (w + 4 * x) / 4 == w / 4 + x;
      NextSlot(w + 4 * x, q);
      if q > 0 { MarkSlot(w / 4, p - 1, q - 1); }
    }
  }

  lemma ShlNext(v: int, n: nat)
    ensures Shl(v, n + 2) == 4 * Shl(v, n)
  {
    assert Shl(v, n + 2) == 2 * Shl(v, n + 1);
  }

  lemma NextSlot(w: nat, p: nat)
    ensures Slot(w, p) == if p == 0 then w % 4 else Slot(w / 4, p - 1)
  {
    if p > 0 {
      assert Shr(w, 2 * p) == Shr(w / 2, 2 * p - 1) == Shr(w / 2 / 2, 2 * p - 2);
    }
  }

  lemma SlotOfHalf(w: nat, p: nat)
    requires p < 8
    ensures Slot(w % 0x1_0000, p) == Slot(w, p)
  {
    hide Shl, Shr;
    var c, rest, n := w % 0x1_0000, w / 0x1_0000, 2 * p;
    ShlSixteen(rest);
    ShrBelow(c, rest, 16, n);
    ShlNext(rest, 14 - n);
    assert Shr(w, n) == Shr(c, n) + 4 * Shl(rest, 14 - n);
  }

  lemma {:induction false} SetBit(w: nat, p: nat, q: nat)
    requires BitOf(w, p) == 0
    ensures BitOf(w + Shl(1, p), q) == if q == p then 1 else BitOf(w, q)
  {
    if p > 0 && q > 0 {
      assert (w + 2 * Shl(1, p - 1)) / 2 == w / 2 + Shl(1, p - 1);
      SetBit(w / 2, p - 1, q - 1);
    } else if p == 0 {
      assert (w + 1) / 2 == w / 2;
    }
  }

  lemma {:induction false} NoBits(p: nat)
    ensures Shr(0, p) == 0
  {
    if p > 0 { NoBits(p - 1); }
  }

  /** Which registers a tag word, and which a summary of the tags, calls empty. */
  ghost function EmptyByTags(tagw: nat): (e: seq<bool>)
    ensures |e| == 8
  {
    seq(8, (p: nat) => Slot(tagw, p) == 3)
  }

  ghost function EmptyBySummary(summary: nat): (e: seq<bool>)
    ensures |e| == 8
  {
    seq(8, (p: nat) => BitOf(summary, p) == 0)
  }

  /** Where a register stands in the stack. */
  function StackPlace(p: nat, ftop: nat): (st: nat)
    ensures st < 8
  {
    (p - ftop) % 8
  }

  lemma PlacesAreOneToOne(stno: nat, ftop: nat)
    requires stno < 8
    ensures forall p: nat :: p < 8 ==> (StackPlace(p, ftop) == stno <==> p == (stno + ftop) % 8)
    ensures forall p: nat :: StackPlace(p, ftop % 8) == StackPlace(p, ftop)
  {
    hide StackPlace;
    forall p: nat
      ensures p < 8 ==> (StackPlace(p, ftop) == stno <==> p == (stno + ftop) % 8)
      ensures StackPlace(p, ftop % 8) == StackPlace(p, ftop)
    {
      PlaceOf(p, stno, ftop);
    }
  }

  lemma PlaceOf(p: nat, stno: nat, ftop: nat)
    requires stno < 8
    ensures p < 8 ==> (StackPlace(p, ftop) == stno <==> p == (stno + ftop) % 8)
    ensures StackPlace(p, ftop % 8) == StackPlace(p, ftop)
  {
    var q, t := ftop / 8, ftop % 8;
    DropEights(p - t, -q);
    DropEights(stno + t, q);
  }

  lemma DropEights(x: int, q: int)
    ensures (x + 8 * q) % 8 == x % 8
  {
  }

  // ---------- What is saved and what is loaded ----------

  /** The registers in stack order. */
  ghost predicate Dumped(g: Fpu, slots: seq<F80>)
    requires g.Valid() && |slots| == 8
  {
    forall p: nat :: p < 8 ==> ExtendedOf(slots[StackPlace(p, g.ftop)]) == Extend(DoubleOf(g.regs[p]))
  }

  ghost predicate Tagged(g: Fpu, tagw: nat)
    requires g.Valid()
  {
    forall p: nat :: p < 8 ==> Slot(tagw, p) == if g.tags[p] == 0 then 3 else 0
  }

  /** The state after loading, for a control word, a status word, the empty registers and the stack. */
  ghost predicate Loaded(g: Fpu, h: Fpu, move: bool, ctrl: nat, stat: nat, empty: seq<bool>, slots: seq<F80>)
    requires g.Valid() && h.Valid() && |slots| == 8 && |empty| == 8
  {
    && h.ftop == stat / 0x800 % 8 && h.c3210 == StatusFlags(stat) && h.fpround == ctrl / 0x400 % 4
    && (forall p: nat :: p < 8 ==> h.tags[p] == if empty[p] then 0 else 1)
    && (if move then Filled(h.regs, h.ftop, empty, slots, 8) else h.regs == g.regs)
  }

  /** The registers up to a stack place are filled. */
  ghost predicate Filled(regs: seq<F64>, ftop: nat, empty: seq<bool>, slots: seq<F80>, n: nat)
    requires |regs| == 8 && |slots| == 8 && |empty| == 8
  {
    forall p: nat :: p < 8 && StackPlace(p, ftop) < n ==>
      if empty[p] then regs[p] == ZERO else DoubleOf(regs[p]) == Narrow(ExtendedOf(slots[StackPlace(p, ftop)]))
  }

  /** One register through the byte converters. */
  method Widen(v: F64) returns (x: F80)
    ensures ExtendedOf(x) == Extend(DoubleOf(v))
  {
    var f64, f80 := new Byte[8](i requires 0 <= i < 8 => v[i]), new Byte[10](_ => 0);
    assert f64[..] == v;
    ConvertF64ToF80(f64, f80);
    x := f80[..];
  }

  method Shorten(x: F80) returns (v: F64)
    ensures DoubleOf(v) == Narrow(ExtendedOf(x))
  {
    var f80, f64 := new Byte[10](i requires 0 <= i < 10 => x[i]), new Byte[8](_ => 0);
    assert f80[..] == x;
    ConvertF80ToF64(f80, f64);
    v := f64[..];
  }

  /** Writes all registers in stack order; the result is the tag word. */
  method DumpStack(g: GuestFpu, slots: array<F80>) returns (tagw: nat)
    requires g.Valid() && slots.Length == 8
    modifies slots
    ensures Dumped(g.View(), slots[..]) && Tagged(g.View(), tagw)
  {
    hide Slot, Extend, StackPlace, ExtendedOf, DoubleOf;
    ghost var v := g.View();
    tagw := 0;
    NoTags();
    for stno := 0 to 8
      invariant g.View() == v
      invariant TagsSoFar(v, stno, tagw) && DumpedSoFar(v, slots[..], stno)
    {
      var preg := (stno + g.ftop) % 8;
      PlacesAreOneToOne(stno, g.ftop);
      ghost var was := slots[..];
      slots[stno] := Widen(g.regs[preg]);
      assert slots[..] == was[stno := slots[stno]];
      MoreTags(v, stno, tagw);
      if g.tags[preg] == 0 {
        tagw := tagw + Shl(3, 2 * preg);
      }
    }
    AllPlaces(v.ftop);
  }

  ghost predicate TagsSoFar(v: Fpu, n: nat, tagw: nat)
    requires v.Valid()
  {
    forall p: nat :: p < 8 ==> Slot(tagw, p) == if StackPlace(p, v.ftop) < n && v.tags[p] == 0 then 3 else 0
  }

  ghost predicate DumpedSoFar(v: Fpu, slots: seq<F80>, n: nat)
    requires v.Valid() && |slots| == 8
  {
    forall p: nat :: p < 8 && StackPlace(p, v.ftop) < n ==>
        ExtendedOf(slots[StackPlace(p, v.ftop)]) == Extend(DoubleOf(v.regs[p]))
  }

  lemma AllPlaces(ftop: nat)
    ensures forall p: nat :: StackPlace(p, ftop) < 8
  {
  }

  lemma NoTags()
    ensures forall p: nat :: Slot(0, p) == 0
  {
    forall p: nat ensures Slot(0, p) == 0 { NoBits(2 * p); }
  }

  lemma MoreTags(v: Fpu, n: nat, tagw: nat)
    requires v.Valid() && n < 8 && TagsSoFar(v, n, tagw)
    ensures var preg := (n + v.ftop) % 8;
      TagsSoFar(v, n + 1, if v.tags[preg] == 0 then tagw + Shl(3, 2 * preg) else tagw)
  {
    hide Slot, StackPlace, Shl;
    var preg := (n + v.ftop) % 8;
    PlacesAreOneToOne(n, v.ftop);
    if v.tags[preg] == 0 {
      forall p: nat ensures Slot(tagw + Shl(3, 2 * preg), p) == if p == preg then 3 else Slot(tagw, p) {
        MarkSlot(tagw, preg, p);
      }
    }
  }

  /** The tag word alone. */
  method DumpTags(g: GuestFpu) returns (tagw: nat)
    requires g.Valid()
    ensures Tagged(g.View(), tagw)
  {
    hide Slot, StackPlace;
    tagw := 0;
    NoTags();
    for stno := 0 to 8
      invariant TagsSoFar(g.View(), stno, tagw)
    {
      var preg := (stno + g.ftop) % 8;
      MoreTags(g.View(), stno, tagw);
      if g.tags[preg] == 0 {
        tagw := tagw + Shl(3, 2 * preg);
      }
    }
    AllPlaces(g.ftop);
  }

  // ---------- Saving ----------

  /** The environment of the 32-bit format. */
  ghost function Environment(ctrl: Half, stat: Half, tagw: nat): seq<Half> {
    [ctrl, 0xFFFF, stat, 0xFFFF, tagw % 0x1_0000, 0xFFFF, 0, 0, 0, 0, 0, 0, 0, 0xFFFF]
  }

  /** What FSTENV, and FNSAVE on top of it, leaves in memory. */
  ghost predicate EnvironmentSaved(g: Fpu, env: seq<Half>)
    requires g.Valid()
  {
    exists tagw: nat :: Tagged(g, tagw) && env == Environment(CreateFpucw(g.fpround), StatusWord(g.ftop, g.c3210), tagw)
  }

  method PutEnvironment(env: array<Half>, ctrl: Half, stat: Half, tagw: nat)
    requires env.Length == 14
    modifies env
    ensures env[..] == Environment(ctrl, stat, tagw)
  {
    for i := 0 to 14
      invariant forall k :: 0 <= k < i ==> env[k] == 0
    {
      env[i] := 0;
    }
    env[1], env[3], env[5], env[13] := 0xFFFF, 0xFFFF, 0xFFFF, 0xFFFF;
    env[2] := stat;
    env[0] := ctrl;
    env[4] := tagw % 0x1_0000;
  }

  /** FNSAVE. */
  method GetX87(g: GuestFpu, x: FpuImage)
    requires g.Valid() && x.Valid(14)
    modifies x.env, x.slots
    ensures Dumped(g.View(), x.slots[..]) && EnvironmentSaved(g.View(), x.env[..])
  {
    hide Dumped, Tagged, Environment, CreateFpucw, StatusWord;
    ghost var v := g.View();
    var tagw := DumpStack(g, x.slots);
    assert g.View() == v;
    PutEnvironment(x.env, CreateFpucw(g.fpround), StatusWord(g.ftop, g.c3210), tagw);
    assert g.View() == v;
  }

  method FSTENV(g: GuestFpu, env: array<Half>)
    requires g.Valid() && env.Length == 14
    modifies env
    ensures EnvironmentSaved(g.View(), env[..])
  {
    hide Tagged, Environment, CreateFpucw, StatusWord;
    ghost var v := g.View();
    var tagw := DumpTags(g);
    PutEnvironment(env, CreateFpucw(g.fpround), StatusWord(g.ftop, g.c3210), tagw);
    assert g.View() == v;
  }

  // ---------- Loading ----------

  /** Fills the registers that are not empty from the stack and sets all tags. */
  method RestoreStack(moveRegs: bool, tagw: nat, ftop: nat, slots: array<F80>, g: GuestFpu)
    requires g.Valid() && slots.Length == 8
    modifies g.tags, g.regs
    ensures TagsLoaded(g.tags[..], ftop, EmptyByTags(tagw), 8)
    ensures if moveRegs then Filled(g.regs[..], ftop, EmptyByTags(tagw), slots[..], 8)
        else g.regs[..] == old(g.regs[..])
  {
    hide Slot, StackPlace, Narrow, ExtendedOf, DoubleOf;
    for stno := 0 to 8
      invariant TagsLoaded(g.tags[..], ftop, EmptyByTags(tagw), stno)
      invariant if moveRegs then Filled(g.regs[..], ftop, EmptyByTags(tagw), slots[..], stno)
          else g.regs[..] == old(g.regs[..])
    {
      var preg := (stno + ftop) % 8;
      PlacesAreOneToOne(stno, ftop);
      ghost var tags, regs := g.tags[..], g.regs[..];
      if Slot(tagw, preg) == 3 {
        if moveRegs { g.regs[preg] := ZERO; }
        g.tags[preg] := 0;
      } else {
        if moveRegs { g.regs[preg] := Shorten(slots[stno]); }
        g.tags[preg] := 1;
      }
      assert g.tags[..] == tags[preg := g.tags[preg]] && g.regs[..] == regs[preg := g.regs[preg]];
    }
  }

  /** Restores the stack, the stack pointer, the condition codes and the rounding mode. */
  method PutState(moveRegs: bool, ctrl: Half, stat: Half, tagw: Half, slots: array<F80>, g: GuestFpu)
    returns (note: Note)
    requires g.Valid() && slots.Length == 8
    modifies g, g.tags, g.regs
    ensures g.Valid()
    ensures Loaded(old(g.View()), g.View(), moveRegs, ctrl, stat, EmptyByTags(tagw), slots[..])
    ensures note == CheckFldcw(ctrl).0 && g.sseround == old(g.sseround)
  {
    hide Slot, StackPlace, StatusFlags, Filled, EmptyByTags;
    var ftop := stat / 0x800 % 8;
    RestoreStack(moveRegs, tagw, ftop, slots, g);
    AllPlaces(ftop);
    g.ftop := ftop;
    g.c3210 := StatusFlags(stat);
    note := CheckFldcw(ctrl).0;
    g.fpround := CheckFldcw(ctrl).1 % 4;
  }

  /** FRSTOR and, without moving the registers, FLDENV. */
  method PutX87(moveRegs: bool, env: array<Half>, slots: array<F80>, g: GuestFpu) returns (note: Note)
    requires g.Valid() && env.Length == 14 && slots.Length == 8
    modifies g, g.tags, g.regs
    ensures g.Valid()
    ensures var w := old(env[..]); Loaded(old(g.View()), g.View(), moveRegs, w[0], w[2], EmptyByTags(w[4]), slots[..])
    ensures note == CheckFldcw(old(env[0])).0 && g.sseround == old(g.sseround)
  {
    note := PutState(moveRegs, env[0], env[2], env[4], slots, g);
  }

  ghost predicate TagsLoaded(tags: seq<Byte>, ftop: nat, empty: seq<bool>, n: nat)
    requires |tags| == 8 && |empty| == 8
  {
    forall p: nat :: p < 8 && StackPlace(p, ftop) < n ==> tags[p] == if empty[p] then 0 else 1
  }

  // ---------- The 16-bit format ----------

  ghost predicate ShortEnvironmentSaved(g: Fpu, env: seq<Half>)
    requires g.Valid()
  {
    exists tagw: nat :: Tagged(g, tagw)
      && env == [CreateFpucw(g.fpround), StatusWord(g.ftop, g.c3210), tagw % 0x1_0000, 0, 0, 0, 0]
  }

  method FNSAVES(g: GuestFpu, env: array<Half>, slots: array<F80>)
    requires g.Valid() && env.Length == 7 && slots.Length == 8
    modifies env, slots
    ensures Dumped(g.View(), slots[..]) && ShortEnvironmentSaved(g.View(), env[..])
  {
    hide Dumped, Tagged, CreateFpucw, StatusWord;
    ghost var v := g.View();
    for i := 0 to 7
      invariant forall k :: 0 <= k < i ==> env[k] == 0
      invariant g.View() == v
    {
      env[i] := 0;
    }
    env[1] := StatusWord(g.ftop, g.c3210);
    env[0] := CreateFpucw(g.fpround);
    var tagw := DumpStack(g, slots);
    assert g.View() == v;
    env[2] := tagw % 0x1_0000;
    assert g.View() == v;
    assert env[..] == [CreateFpucw(v.fpround), StatusWord(v.ftop, v.c3210), tagw % 0x1_0000, 0, 0, 0, 0];
  }

  method FRSTORS(env: array<Half>, slots: array<F80>, g: GuestFpu) returns (note: Note)
    requires g.Valid() && env.Length == 7 && slots.Length == 8
    modifies g, g.tags, g.regs
    ensures g.Valid()
    ensures var w := old(env[..]); Loaded(old(g.View()), g.View(), true, w[0], w[1], EmptyByTags(w[2]), slots[..])
    ensures note == CheckFldcw(old(env[0])).0 && g.sseround == old(g.sseround)
  {
    note := PutState(true, env[0], env[1], env[2], slots, g);
  }

  // ---------- The fast format ----------

  ghost predicate Summarised(tagw: nat, summary: nat) {
    forall p: nat :: p < 8 ==> BitOf(summary, p) == if Slot(tagw, p) == 3 then 0 else 1
  }

  /** One bit for each register that is not empty. */
  method Summary(tagw: nat) returns (summary: nat)
    ensures summary < 256 && Summarised(tagw, summary)
  {
    hide Slot, Shr, Shl;
    var bits: nat := 0;
    forall p: nat ensures BitOf(0, p) == 0 { NoBits(p); }
    for r := 0 to 8
      invariant forall p: nat :: BitOf(bits, p) == if p < r && Slot(tagw, p) != 3 then 1 else 0
    {
      if Slot(tagw, r) != 3 {
        forall p: nat ensures BitOf(bits + Shl(1, r), p) == if p == r then 1 else BitOf(bits, p) { SetBit(bits, r, p); }
        bits := bits + Shl(1, r);
      }
    }
    summary := bits % 256;
    forall p: nat | p < 8 ensures BitOf(summary, p) == BitOf(bits, p) { BitOfLowByte(summary, bits / 256, p); }
  }

  /** The tag word a summary stands for. */
  method ExpandTags(summary: nat) returns (tagw: Half)
    ensures EmptyByTags(tagw) == EmptyBySummary(summary)
  {
    hide Slot, Shr, Shl;
    var tags: nat := 0;
    NoTags();
    for r := 0 to 8
      invariant forall p: nat :: Slot(tags, p) == if p < r && BitOf(summary, p) == 0 then 3 else 0
    {
      if BitOf(summary, r) == 0 {
        forall p: nat
          ensures Slot(tags + Shl(3, 2 * r), p) == if p == r then 3 else Slot(tags, p)
        {
          MarkSlot(tags, r, p);
        }
        tags := tags + Shl(3, 2 * r);
      }
    }
    tagw := tags % 0x1_0000;
    forall p: nat | p < 8 ensures Slot(tagw, p) == Slot(tags, p) { SlotOfHalf(tags, p); }
  }

  function FxWords(ctrl: Half, stat: Half, summary: Half, mxcsr: Half): (w: seq<Half>)
    ensures |w| == 16 && w[0] == ctrl && w[1] == stat && w[2] == summary && w[12] == mxcsr && w[13] == 0
  {
    [ctrl, stat, summary, 0, 0, 0, 0, 0, 0, 0, 0, 0, mxcsr, 0, 0xFFFF, 0]
  }

  method PutFxWords(words: array<Half>, ctrl: Half, stat: Half, summary: Half, mxcsr: Half)
    requires words.Length == 16
    modifies words
    ensures words[..] == FxWords(ctrl, stat, summary, mxcsr)
  {
    for i := 0 to 16
      invariant forall k :: 0 <= k < i ==> words[k] == 0
    {
      words[i] := 0;
    }
    words[0] := ctrl;
    words[1] := stat;
    words[2] := summary;
    words[12] := mxcsr;
    words[14] := 0xFFFF;
  }

  /** What FXSAVE leaves in the sixteen words in front of the registers. */
  ghost predicate FxSaved(g: Fpu, words: seq<Half>)
    requires g.Valid()
  {
    exists tagw: nat, summary: nat :: Tagged(g, tagw) && summary < 256 && Summarised(tagw % 0x1_0000, summary)
      && words == FxWords(CreateFpucw(g.fpround), StatusWord(g.ftop, g.c3210), summary, CreateMxcsr(g.sseround))
  }

  method FXSAVE(g: GuestFpu, words: array<Half>, slots: array<F80>)
    requires g.Valid() && words.Length == 16 && slots.Length == 8
    modifies words, slots
    ensures Dumped(g.View(), slots[..]) && FxSaved(g.View(), words[..])
  {
    hide Dumped, Tagged, Summarised, CreateFpucw, StatusWord, CreateMxcsr, FxWords;
    ghost var v := g.View();
    var tmp := new FpuImage(14);
    GetX87(g, tmp);
    ghost var tagw :| Tagged(v, tagw) &&
      tmp.env[..] == Environment(CreateFpucw(v.fpround), StatusWord(v.ftop, v.c3210), tagw);
    var summary := Summary(tmp.env[4]);
    PutFxWords(words, tmp.env[0], tmp.env[2], summary, CreateMxcsr(g.sseround));
    CopySlots(tmp.slots, slots);
    assert g.View() == v;
  }

  method CopySlots(src: array<F80>, dst: array<F80>)
    requires src.Length == 8 && dst.Length == 8 && src != dst
    modifies dst
    ensures dst[..] == src[..]
  {
    for stno := 0 to 8
      invariant dst[..stno] == src[..stno]
    {
      dst[stno] := src[stno];
    }
  }

  /** Two words as one number, the low word first. */
  function Both(low: nat, high: nat): nat {
    low + 0x1_0000 * high
  }

  /** An emulation warning about the x87 part goes first. */
  method FXRSTOR(words: array<Half>, slots: array<F80>, g: GuestFpu) returns (note: Note)
    requires g.Valid() && words.Length == 16 && slots.Length == 8
    modifies g, g.tags, g.regs
    ensures g.Valid()
    ensures var w := old(words[..]);
      && Loaded(old(g.View()), g.View(), true, w[0], w[1], EmptyBySummary(w[2] % 256), old(slots[..]))
      && g.sseround == CheckLdmxcsr(Both(w[12], w[13])).1
      && note == if CheckFldcw(w[0]).0 != NoNote then CheckFldcw(w[0]).0 else CheckLdmxcsr(Both(w[12], w[13])).0
  {
    hide EmptyByTags, EmptyBySummary, CheckFldcw, CheckLdmxcsr;
    ghost var before := g.View();
    var mxcsr := Both(words[12], words[13]);
    var tmp := new FpuImage(14);
    CopySlots(slots, tmp.slots);
    var tagw := ExpandTags(words[2] % 256);
    tmp.env[0], tmp.env[2], tmp.env[4] := words[0], words[1], tagw;
    assert g.View() == before;
    note := PutX87(true, tmp.env, tmp.slots, g);
    g.sseround := CheckLdmxcsr(mxcsr).1;
    if note == NoNote { note := CheckLdmxcsr(mxcsr).0; }
  }

  // ---------- The formats bit by bit ----------

  /** The three words that every format has. */
  ghost predicate SavedWords(g: Fpu, ctrl: Half, stat: Half) {
    forall n: nat ::
      && BitOf(ctrl, n)
         == (if n < 7 || n == 8 || n == 9 then 1 else if n == 10 || n == 11 then BitOf(g.fpround, n - 10) else 0)
      && BitOf(stat, n)
         == (if 11 <= n < 14 then BitOf(g.ftop, n - 11) else if n in {8, 9, 10, 14} then BitOf(g.c3210, n) else 0)
  }

  lemma WordsAre(g: Fpu)
    ensures SavedWords(g, CreateFpucw(g.fpround), StatusWord(g.ftop, g.c3210))
  {
    hide CreateFpucw, StatusWord, Shr;
    forall n: nat
      ensures BitOf(CreateFpucw(g.fpround), n)
        == (if n < 7 || n == 8 || n == 9 then 1 else if n == 10 || n == 11 then BitOf(g.fpround, n - 10) else 0)
      ensures BitOf(StatusWord(g.ftop, g.c3210), n)
        == (if 11 <= n < 14 then BitOf(g.ftop, n - 11) else if n in {8, 9, 10, 14} then BitOf(g.c3210, n) else 0)
    {
      CreatedBits(g.fpround, n);
      StatusBits(g.ftop, g.c3210, n);
    }
  }

  lemma TaggedHalf(g: Fpu, tagw: nat)
    requires g.Valid() && Tagged(g, tagw)
    ensures Tagged(g, tagw % 0x1_0000)
  {
    hide Slot;
    forall p: nat | p < 8
      ensures Slot(tagw % 0x1_0000, p) == Slot(tagw, p)
    {
      SlotOfHalf(tagw, p);
    }
  }

  /** The 32-bit environment: control, status and tag word at bytes 0, 4 and 8. */
  lemma EnvironmentBits(g: Fpu, env: seq<Half>)
    requires g.Valid() && EnvironmentSaved(g, env)
    ensures |env| == 14 && SavedWords(g, env[0], env[2]) && Tagged(g, env[4])
    ensures forall i :: 0 <= i < 14 && i !in {0, 2, 4} ==> env[i] == if i in {1, 3, 5, 13} then 0xFFFF else 0
  {
    hide SavedWords, Tagged, StatusWord, CreateFpucw;
    WordsAre(g);
    var tagw: nat :| Tagged(g, tagw) && env == Environment(CreateFpucw(g.fpround), StatusWord(g.ftop, g.c3210), tagw);
    TaggedHalf(g, tagw);
  }

  /** The 16-bit environment: the same words at bytes 0, 2 and 4. */
  lemma ShortEnvironmentBits(g: Fpu, env: seq<Half>)
    requires g.Valid() && ShortEnvironmentSaved(g, env)
    ensures |env| == 7 && SavedWords(g, env[0], env[1]) && Tagged(g, env[2])
    ensures forall i :: 3 <= i < 7 ==> env[i] == 0
  {
    hide SavedWords, Tagged, StatusWord, CreateFpucw;
    WordsAre(g);
    var tagw: nat :| Tagged(g, tagw)
      && env == [CreateFpucw(g.fpround), StatusWord(g.ftop, g.c3210), tagw % 0x1_0000, 0, 0, 0, 0];
    TaggedHalf(g, tagw);
  }

  /** The fast format: control and status word, a tag bit for each register, and the SSE control word at byte 24. */
  lemma FxBits(g: Fpu, words: seq<Half>)
    requires g.Valid() && FxSaved(g, words)
    ensures |words| == 16 && SavedWords(g, words[0], words[1])
    ensures forall p: nat :: p < 8 ==> BitOf(words[2], p) == if g.tags[p] == 0 then 0 else 1
    ensures forall n: nat ::
      BitOf(words[12], n) == (if 7 <= n < 13 then 1 else if n == 13 || n == 14 then BitOf(g.sseround, n - 13) else 0)
    ensures forall i :: 3 <= i < 16 && i != 12 ==> words[i] == if i == 14 then 0xFFFF else 0
  {
    hide SavedWords, StatusWord, CreateFpucw, CreateMxcsr, Slot, Shr;
    WordsAre(g);
    var tagw: nat, summary: nat :| Tagged(g, tagw) && summary < 256 && Summarised(tagw % 0x1_0000, summary)
      && words == FxWords(CreateFpucw(g.fpround), StatusWord(g.ftop, g.c3210), summary, CreateMxcsr(g.sseround));
    TaggedHalf(g, tagw);
    forall n: nat
      ensures BitOf(words[12], n) ==
        if 7 <= n < 13 then 1 else if n == 13 || n == 14 then BitOf(g.sseround, n - 13) else 0
    {
      CreatedBits(g.sseround, n);
    }
  }

  /** The stack in memory: place `i` holds the register that stands `i` behind the top. */
  lemma StackOrder(g: Fpu, slots: seq<F80>, i: nat)
    requires g.Valid() && |slots| == 8 && i < 8 && Dumped(g, slots)
    ensures ExtendedOf(slots[i]) == Extend(DoubleOf(g.regs[(g.ftop + i) % 8]))
  {
    hide Extend, ExtendedOf, DoubleOf, StackPlace;
    PlacesAreOneToOne(i, g.ftop);
    assert StackPlace((i + g.ftop) % 8, g.ftop) == i;
  }

  /** And back: the register that stands `i` behind the top is filled from place `i`, or zeroed if it is empty. */
  lemma StackLoaded(g: Fpu, h: Fpu, ctrl: nat, stat: nat, empty: seq<bool>, slots: seq<F80>, i: nat)
    requires g.Valid() && h.Valid() && |slots| == 8 && |empty| == 8 && i < 8
    requires Loaded(g, h, true, ctrl, stat, empty, slots)
    ensures var p := (h.ftop + i) % 8;
      if empty[p] then h.regs[p] == ZERO else DoubleOf(h.regs[p]) == Narrow(ExtendedOf(slots[i]))
  {
    hide Narrow, ExtendedOf, DoubleOf, StackPlace;
    PlacesAreOneToOne(i, h.ftop);
    assert StackPlace((i + h.ftop) % 8, h.ftop) == i;
  }

  // ---------- Restoring undoes saving ----------

  /** Masked fields cut to their bits, empty registers zero, NaNs canonical. */
  function Settled(g: Fpu): Fpu
    requires |g.tags| == 8 && |g.regs| == 8
  {
    Fpu(g.ftop % 8, StatusFlags(g.c3210), g.fpround % 4, g.sseround % 4,
        seq(8, p requires 0 <= p < 8 => if g.tags[p] == 0 then 0 else 1),
        seq(8, p requires 0 <= p < 8 => if g.tags[p] == 0 then ZERO else CanonicalBytes(g.regs[p])))
  }

  /** The bytes of a NaN that keeps only sign and quietness; other bytes unchanged. */
  function CanonicalBytes(v: F64): F64 {
    if v[7] % 128 == 127 && v[6] / 16 == 15 && !(v[6] == 0xF0 && v[..6] == [0, 0, 0, 0, 0, 0]) then
      if v[6] / 8 % 2 == 1 then [0, 0, 0, 0, 0, 0, 0xF8, v[7]] else [0xFF, 0xFF, 0xFF, 0xFF, 0xFF, 0xFF, 0xF7, v[7]]
    else v
  }

  lemma {:induction false} ValueIsInjective(s: seq<Byte>, t: seq<Byte>)
    requires |s| == |t| && Value(s) == Value(t)
    ensures s == t
  {
    if s != [] {
      assert s[0] == Value(s) % 256 && t[0] == Value(t) % 256;
      ValueIsInjective(s[1..], t[1..]);
      assert s == [s[0]] + s[1..] && t == [t[0]] + t[1..];
    }
  }

  lemma SameFields(a: nat, b: nat, s: int, t: int)
    requires a < 16 * TWO_52 && b < 16 * TWO_52 && s / 128 == t / 128
    requires s % 128 * 16 + a / TWO_52 == t % 128 * 16 + b / TWO_52 && a % TWO_52 == b % TWO_52
    ensures a == b && s == t
  {
    assert a / TWO_52 < 16 && b / TWO_52 < 16;
    assert a == TWO_52 * (a / TWO_52) + a % TWO_52 && b == TWO_52 * (b / TWO_52) + b % TWO_52;
  }

  lemma DoubleIsInjective(v: F64, w: F64)
    requires DoubleOf(v) == DoubleOf(w)
    ensures v == w
  {
    hide Value, DoubleOf;
    var a, b := Value(v[..7]), Value(w[..7]);
    DoubleFrom(v);
    DoubleFrom(w);
    ByteValues(v[..7]);
    ByteValues(w[..7]);
    SameFields(a, b, At(v, 7), At(w, 7));
    ValueIsInjective(v[..7], w[..7]);
    assert v == v[..7] + [v[7]] && w == w[..7] + [w[7]];
  }

  lemma CanonicalBytesAre(v: F64)
    ensures DoubleOf(CanonicalBytes(v)) == Canonical(DoubleOf(v))
  {
    hide DoubleOf, Value;
    FieldsOfDouble(v);
    FieldsOfDouble(CanonicalBytes(v));
    assert v[..6] == [v[0], v[1], v[2], v[3], v[4], v[5]];
  }

  lemma CanonicalTwice(v: F64)
    ensures CanonicalBytes(CanonicalBytes(v)) == CanonicalBytes(v)
  {
  }

  /** The registers that are empty by the guest's tags. */
  ghost function Empties(g: Fpu): (e: seq<bool>)
    requires g.Valid()
    ensures |e| == 8
  {
    seq(8, p requires 0 <= p < 8 => g.tags[p] == 0)
  }

  lemma TagsAgree(g: Fpu, tagw: nat)
    requires g.Valid() && Tagged(g, tagw)
    ensures EmptyByTags(tagw % 0x1_0000) == Empties(g)
    ensures forall summary: nat :: Summarised(tagw % 0x1_0000, summary) ==> EmptyBySummary(summary) == Empties(g)
  {
    hide Slot, BitOf;
    forall p: nat | p < 8 ensures Slot(tagw % 0x1_0000, p) == Slot(tagw, p) { SlotOfHalf(tagw, p); }
    forall summary: nat | Summarised(tagw % 0x1_0000, summary) ensures EmptyBySummary(summary) == Empties(g) {
      assert forall p: nat :: p < 8 ==> EmptyBySummary(summary)[p] == Empties(g)[p];
    }
  }

  lemma RegistersReturn(g: Fpu, slots: seq<F80>, h: Fpu)
    requires g.Valid() && h.Valid() && |slots| == 8 && Dumped(g, slots)
    requires Filled(h.regs, g.ftop % 8, Empties(g), slots, 8)
    ensures h.regs == Settled(g).regs
  {
    hide StackPlace, Extend, Narrow, ExtendedOf, DoubleOf, Canonical, CanonicalBytes;
    PlacesAreOneToOne(0, g.ftop);
    AllPlaces(g.ftop);
    forall p: nat | p < 8 ensures h.regs[p] == Settled(g).regs[p] {
      var st := StackPlace(p, g.ftop);
      assert StackPlace(p, g.ftop % 8) == st;
      if g.tags[p] != 0 {
        assert ExtendedOf(slots[st]) == Extend(DoubleOf(g.regs[p]));
        ExtendThenNarrow(DoubleOf(g.regs[p]));
        CanonicalBytesAre(g.regs[p]);
        DoubleIsInjective(h.regs[p], CanonicalBytes(g.regs[p]));
      }
    }
  }

  /** Loading what was saved, into whatever state: everything but the SSE rounding mode is the settled saved state. */
  lemma LoadUndoesSave(g: Fpu, slots: seq<F80>, h: Fpu, h': Fpu)
    requires g.Valid() && h.Valid() && h'.Valid() && |slots| == 8 && Dumped(g, slots)
    requires Loaded(h, h', true, CreateFpucw(g.fpround), StatusWord(g.ftop, g.c3210), Empties(g), slots)
    ensures h' == Settled(g).(sseround := h'.sseround)
    ensures CheckFldcw(CreateFpucw(g.fpround)).0 == NoNote && Settled(g).sseround == g.sseround % 4
  {
    hide Filled, Dumped, StatusFlags, StatusWord, CreateFpucw, CheckFldcw;
    ControlWordsReturn(g.fpround);
    StatusReturns(g.ftop, g.c3210);
    RoundingOf(CreateFpucw(g.fpround));
    RegistersReturn(g, slots, h');
    assert h'.tags == Settled(g).tags;
  }

  lemma RoundingOf(ctrl: nat)
    ensures CheckFldcw(ctrl).1 == ctrl / 0x400 % 4
  {
  }

  /** FRSTOR after FNSAVE. */
  lemma FrstorUndoesFnsave(g: Fpu, env: seq<Half>, slots: seq<F80>, h: Fpu, h': Fpu, note: Note)
    requires g.Valid() && h.Valid() && h'.Valid() && |env| == 14 && |slots| == 8
    requires Dumped(g, slots) && EnvironmentSaved(g, env)
    requires Loaded(h, h', true, env[0], env[2], EmptyByTags(env[4]), slots) && note == CheckFldcw(env[0]).0
    requires h'.sseround == h.sseround
    ensures h' == Settled(g).(sseround := h.sseround) && note == NoNote
  {
    var tagw: nat :| Tagged(g, tagw) && env == Environment(CreateFpucw(g.fpround), StatusWord(g.ftop, g.c3210), tagw);
    TagsAgree(g, tagw);
    hide Loaded, Dumped, Tagged, CreateFpucw, StatusWord, CheckFldcw;
    LoadUndoesSave(g, slots, h, h');
  }

  /** FRSTORS after FNSAVES. */
  lemma FrstorsUndoesFnsaves(g: Fpu, env: seq<Half>, slots: seq<F80>, h: Fpu, h': Fpu, note: Note)
    requires g.Valid() && h.Valid() && h'.Valid() && |env| == 7 && |slots| == 8
    requires Dumped(g, slots) && ShortEnvironmentSaved(g, env)
    requires Loaded(h, h', true, env[0], env[1], EmptyByTags(env[2]), slots) && note == CheckFldcw(env[0]).0
    requires h'.sseround == h.sseround
    ensures h' == Settled(g).(sseround := h.sseround) && note == NoNote
  {
    var tagw: nat :| Tagged(g, tagw)
      && env == [CreateFpucw(g.fpround), StatusWord(g.ftop, g.c3210), tagw % 0x1_0000, 0, 0, 0, 0];
    TagsAgree(g, tagw);
    hide Loaded, Dumped, Tagged, CreateFpucw, StatusWord, CheckFldcw;
    LoadUndoesSave(g, slots, h, h');
  }

  /** FLDENV after FSTENV: the registers stay, everything else is the settled saved state. */
  lemma FldenvUndoesFstenv(g: Fpu, env: seq<Half>, slots: seq<F80>, h: Fpu, h': Fpu)
    requires g.Valid() && h.Valid() && h'.Valid() && |env| == 14 && |slots| == 8 && EnvironmentSaved(g, env)
    requires Loaded(h, h', false, env[0], env[2], EmptyByTags(env[4]), slots) && h'.sseround == h.sseround
    ensures h' == Settled(g).(regs := h.regs, sseround := h.sseround) && CheckFldcw(env[0]).0 == NoNote
  {
    var tagw: nat :| Tagged(g, tagw) && env == Environment(CreateFpucw(g.fpround), StatusWord(g.ftop, g.c3210), tagw);
    TagsAgree(g, tagw);
    hide Filled, Tagged, StatusFlags, StatusWord, CreateFpucw, CheckFldcw, EmptyByTags;
    ControlWordsReturn(g.fpround);
    StatusReturns(g.ftop, g.c3210);
    RoundingOf(CreateFpucw(g.fpround));
    assert h'.tags == Settled(g).tags;
  }

  /** FXRSTOR after FXSAVE: the SSE rounding mode comes back too. */
  lemma FxrstorUndoesFxsave(g: Fpu, words: seq<Half>, slots: seq<F80>, h: Fpu, h': Fpu)
    requires g.Valid() && h.Valid() && h'.Valid() && |words| == 16 && |slots| == 8
    requires Dumped(g, slots) && FxSaved(g, words)
    requires Loaded(h, h', true, words[0], words[1], EmptyBySummary(words[2] % 256), slots)
    requires h'.sseround == CheckLdmxcsr(Both(words[12], words[13])).1
    ensures h' == Settled(g)
    ensures CheckFldcw(words[0]).0 == NoNote && CheckLdmxcsr(Both(words[12], words[13])).0 == NoNote
  {
    hide FxSaved, Loaded, Dumped, CreateFpucw, StatusWord, CreateMxcsr, CheckFldcw, CheckLdmxcsr, Settled;
    hide EmptyBySummary, Empties;
    FxWordsSaved(g, words);
    ControlWordsReturn(g.sseround);
    LoadUndoesSave(g, slots, h, h');
  }

  lemma FxWordsSaved(g: Fpu, words: seq<Half>)
    requires g.Valid() && |words| == 16 && FxSaved(g, words)
    ensures words[0] == CreateFpucw(g.fpround) && words[1] == StatusWord(g.ftop, g.c3210)
    ensures EmptyBySummary(words[2] % 256) == Empties(g) && Both(words[12], words[13]) == CreateMxcsr(g.sseround)
  {
    hide Tagged, Summarised, CreateFpucw, StatusWord, CreateMxcsr, FxWords, EmptyByTags, EmptyBySummary, Empties;
    var tagw: nat, summary: nat :| Tagged(g, tagw) && summary < 256 && Summarised(tagw % 0x1_0000, summary)
      && words == FxWords(CreateFpucw(g.fpround), StatusWord(g.ftop, g.c3210), summary, CreateMxcsr(g.sseround));
    TagsAgree(g, tagw);
    assert words[2] % 256 == summary;
  }

  /** The round trip is the identity exactly on states whose fields hold no more than is saved. */
  lemma SettledStates(g: Fpu)
    requires g.Valid()
    ensures Settled(g) == g <==>
      && g.ftop < 8 && StatusFlags(g.c3210) == g.c3210 && g.fpround < 4 && g.sseround < 4
      && (forall p: nat :: p < 8 ==> g.tags[p] <= 1 && (g.tags[p] == 0 ==> g.regs[p] == ZERO))
      && (forall p: nat :: p < 8 && g.tags[p] != 0 ==> DoubleOf(g.regs[p]) == Canonical(DoubleOf(g.regs[p])))
  {
    hide StatusFlags, Canonical, CanonicalBytes, DoubleOf;
    forall p: nat | p < 8
      ensures CanonicalBytes(g.regs[p]) == g.regs[p] <==> DoubleOf(g.regs[p]) == Canonical(DoubleOf(g.regs[p]))
    {
      CanonicalBytesAre(g.regs[p]);
      if DoubleOf(g.regs[p]) == Canonical(DoubleOf(g.regs[p])) {
        DoubleIsInjective(CanonicalBytes(g.regs[p]), g.regs[p]);
      }
    }
    if Settled(g) == g {
      forall p: nat | p < 8
        ensures g.tags[p] <= 1 && if g.tags[p] == 0 then g.regs[p] == ZERO else CanonicalBytes(g.regs[p]) == g.regs[p]
      {
        assert Settled(g).tags[p] == g.tags[p] && Settled(g).regs[p] == g.regs[p];
      }
    } else if g.ftop < 8 && StatusFlags(g.c3210) == g.c3210 && g.fpround < 4 && g.sseround < 4 {
      assert Settled(g).tags != g.tags || Settled(g).regs != g.regs;
    }
  }

  /** A second round trip changes nothing. */
  lemma SettledOnce(g: Fpu)
    requires g.Valid()
    ensures Settled(g).Valid() && Settled(Settled(g)) == Settled(g)
  {
    hide StatusFlags, CanonicalBytes;
    assert StatusFlags(StatusFlags(g.c3210)) == StatusFlags(g.c3210) by {
      StatusReturns(0, g.c3210);
      StatusAlone(g.c3210);
    }
    forall v: F64 ensures CanonicalBytes(CanonicalBytes(v)) == CanonicalBytes(v) { CanonicalTwice(v); }
    assert Settled(Settled(g)).tags == Settled(g).tags;
    assert Settled(Settled(g)).regs == Settled(g).regs;
  }
}
