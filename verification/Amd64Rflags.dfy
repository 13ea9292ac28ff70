/** The flags word of amd64 as it is put together by shifts and masks, and that it is the flags of the thunk. */
module Amd64Rflags {
  import opened Bits
  import opened Amd64Flags
  import opened Words
  import opened Amd64Specialise

  // ---------- The word ----------

  /** Arithmetic shift right: the free places get the sign. */
  function Sar(x: Wide, n: nat): nat
    requires n < 64
  {
    Shr(x, n) + if Top(x, Q) then Shl(Shl(1, n) - 1, 64 - n) else 0
  }

  /** Left, or right for a negative count. */
  function Lshift(x: Wide, n: int): nat
    requires -64 < n
  {
    if n >= 0 then Shl(x, n) % TWO_64 else Sar(x, -n)
  }

  const EVEN_ROW: seq<nat> := [4, 0, 0, 4, 0, 4, 4, 0, 0, 4, 4, 0, 4, 0, 0, 4]
  const ODD_ROW: seq<nat> := [0, 4, 4, 0, 4, 0, 0, 4, 4, 0, 0, 4, 0, 4, 4, 0]

  /** The table has sixteen rows of two kinds. */
  function ParityTable(b: Byte): nat {
    if b / 16 in {0, 3, 5, 6, 9, 10, 12, 15} then EVEN_ROW[b % 16] else ODD_ROW[b % 16]
  }

  /** Parity, zero and sign are taken from the result in the same way by all operations. */
  function Assemble(w: Width, res: Wide, c: nat, a: nat, o: nat): nat {
    var z := Shl(Number(Cut(res, w) == 0), 6);
    var s := And(Lshift(res, 8 - Size(w)), 0x80, Q);
    Or(Or(Or(Or(Or(c, ParityTable(res % 256), Q), a, Q), z, Q), s, Q), o, Q)
  }

  function HalfCarry(res: Wide, argL: Wide, argR: Wide): nat {
    And(Xor(Xor(res, argL, Q), argR, Q), 0x10, Q)
  }

  function OverflowAt(w: Width, x: Wide): nat {
    And(Lshift(x, 12 - Size(w)), 0x800, Q)
  }

  function RflagsAdd(w: Width, argL: Wide, argR: Wide, oldC: int): nat {
    var res: Wide := (argL + argR + oldC) % TWO_64;
    var c := if oldC != 0 then Cut(res, w) <= Cut(argL, w) else Cut(res, w) < Cut(argL, w);
    Assemble(w, res, Number(c), HalfCarry(res, argL, argR),
             OverflowAt(w, WordOf(AndOp, Xor(Xor(argL, argR, Q), TWO_64 - 1, Q), Xor(argL, res, Q))))
  }

  function RflagsSub(w: Width, argL: Wide, argR: Wide, oldC: int): nat {
    var res: Wide := (argL - argR - oldC) % TWO_64;
    var c := if oldC != 0 then Cut(argL, w) <= Cut(argR, w) else Cut(argL, w) < Cut(argR, w);
    Assemble(w, res, Number(c), HalfCarry(res, argL, argR),
             OverflowAt(w, WordOf(AndOp, Xor(argL, argR, Q), Xor(argL, res, Q))))
  }

  function DataMask(w: Width): Wide {
    match w case B => 0xFF case W => 0xFFFF case L => 0xFFFF_FFFF case Q => 0xFFFF_FFFF_FFFF_FFFF
  }

  function SignMask(w: Width): nat {
    Shl(1, Size(w) - 1)
  }

  function RflagsInc(w: Width, res: Wide, ndep: Wide): nat {
    Assemble(w, res, And(ndep, 1, Q), HalfCarry(res, (res - 1) % TWO_64, 1),
             Shl(Number(And(res, DataMask(w), Q) == SignMask(w)), 11))
  }

  function RflagsDec(w: Width, res: Wide, ndep: Wide): nat {
    Assemble(w, res, And(ndep, 1, Q), HalfCarry(res, (res + 1) % TWO_64, 1),
             Shl(Number(And(res, DataMask(w), Q) == SignMask(w) - 1), 11))
  }

  function RflagsUmul(w: Width, dep1: Wide, dep2: Wide): nat {
    var (hi, lo) := UnsignedProduct(dep1, dep2, w);
    var c := Number(hi != 0);
    Assemble(w, lo, c, 0, Shl(c, 11))
  }

  /** The low half is a signed number and is extended where it is shifted. */
  function RflagsSmul(w: Width, dep1: Wide, dep2: Wide): nat {
    var (hi, lo) := SignedProduct(dep1, dep2, w);
    var c := Number(Signed(hi, w) != Signed(lo, w) / Half(w));
    Assemble(w, Signed(lo, w) % TWO_64, c, 0, Shl(c, 11))
  }

  function Rflags(t: Thunk): nat {
    var w, dep1, dep2, oldC := t.width, t.dep1, t.dep2, WordOf(AndOp, t.ndep, 1);
    match t.op
    case COPY => And(dep1, 0x8D5, Q)
    case ADD => RflagsAdd(w, dep1, dep2, 0)
    case SUB => RflagsSub(w, dep1, dep2, 0)
    case ADC => RflagsAdd(w, dep1, Xor(dep2, oldC, Q), oldC)
    case SBB => RflagsSub(w, dep1, Xor(dep2, oldC, Q), oldC)
    case LOGIC => Assemble(w, dep1, 0, 0, 0)
    case INC => RflagsInc(w, dep1, t.ndep)
    case DEC => RflagsDec(w, dep1, t.ndep)
    case SHL => Assemble(w, dep1, And(Shr(dep2, Size(w) - 1), 1, Q), 0, OverflowAt(w, Xor(dep2, dep1, Q)))
    case SHR => Assemble(w, dep1, And(dep2, 1, Q), 0, OverflowAt(w, Xor(dep2, dep1, Q)))
    case UMUL => RflagsUmul(w, dep1, dep2)
    case SMUL => RflagsSmul(w, dep1, dep2)
  }

  /** Six flags at their places, and zeroes everywhere else. */
  function Packed(f: Flags): nat {
    Number(f.c) + Shl(Number(f.p), 2) + Shl(Number(f.a), 4) + Shl(Number(f.z), 6) + Shl(Number(f.s), 7)
    + Shl(Number(f.o), 11)
  }

  // ---------- Bits of shifted words ----------

  /** A multiple of a higher power of two does not show in a bit. */
  lemma BitBelow(c: nat, rest: nat, k: nat, p: nat)
    requires p < k
    ensures BitOf(c + Shl(rest, k), p) == BitOf(c, p)
  {
    ShrBelow(c, rest, k, p);
    NextShift(rest, k - p - 1);
    hide Shr, Shl;
  }

  lemma LeftBit(x: Wide, n: nat, p: nat)
    requires n <= p < 64
    ensures BitOf(Shl(x, n) % TWO_64, p) == BitOf(x, p - n)
  {
    hide Shl, Shr;
    var v := Shl(x, n);
    ShlSize(v / TWO_64, Q);
    BitBelow(v % TWO_64, v / TWO_64, 64, p);
    ShlNothing(n);
    ShlOrder(0, 1, n);
    ShlUnit(n);
    ShrOf(x, 0, n);
    ShrTwice(v, n, p - n);
  }

  lemma RightBit(x: Wide, n: nat, p: nat)
    requires n + p < 64
    ensures BitOf(Sar(x, n), p) == BitOf(x, p + n)
  {
    hide Shl, Shr, Top;
    ShlUnit(n);
    ShrTwice(x, n, p);
    BitBelow(Shr(x, n), Shl(1, n) - 1, 64 - n, p);
  }

  lemma LshiftBit(x: Wide, n: int, p: nat)
    requires -64 < n <= p < 64 && p - n < 64
    ensures BitOf(Lshift(x, n), p) == BitOf(x, p - n)
  {
    hide Shl, Shr, Sar;
    if n >= 0 { LeftBit(x, n, p); } else { RightBit(x, -n, p); }
  }

  /** A mask of lower bits and one more. */
  lemma {:induction false} MaskAdds(x: nat, m: nat, p: nat, n: nat)
    requires p < n && m < Shl(1, p)
    ensures Word(AndOp, x, m + Shl(1, p), n) == Word(AndOp, x, m, n) + Shl(BitOf(x, p), p)
  {
    if p == 0 {
      NothingAnded(x / 2, n - 1);
      NothingAnded(x, n);
    } else {
      assert (m + Shl(1, p)) / 2 == m / 2 + Shl(1, p - 1) && (m + Shl(1, p)) % 2 == m % 2;
      MaskAdds(x / 2, m / 2, p - 1, n - 1);
      assert BitOf(x, p) == BitOf(x / 2, p - 1);
    }
  }

  lemma MaskOne(x: nat, p: nat)
    requires p < 64
    ensures And(x, Shl(1, p), Q) == Shl(BitOf(x, p), p)
  {
    hide Shl, Shr, Word;
    ShlUnit(p);
    MaskAdds(x, 0, p, 64);
    NothingAnded(x, 64);
  }

  lemma {:induction false} OrNothing(n: nat)
    ensures Word(OrOp, 0, 0, n) == 0
  {
    if n > 0 { OrNothing(n - 1); }
  }

  /** Or with one higher bit adds it. */
  lemma {:induction false} OrAdds(x: nat, b: nat, p: nat, n: nat)
    requires x < Shl(1, p) && b < 2 && p < n
    ensures Word(OrOp, x, Shl(b, p), n) == x + Shl(b, p)
  {
    if p == 0 {
      OrNothing(n - 1);
    } else {
      OrAdds(x / 2, b, p - 1, n - 1);
    }
  }

  lemma Places()
    ensures Shl(1, 1) == 2 && Shl(1, 2) == 4 && Shl(1, 4) == 16 && Shl(1, 6) == 64 && Shl(1, 7) == 128
    ensures Shl(1, 11) == 2048
  {
    assert Shl(1, 1) == 2;
    assert Shl(1, 3) == 2 * Shl(1, 2) == 4 * Shl(1, 1);
    assert Shl(1, 5) == 2 * Shl(1, 4) == 4 * Shl(1, 3);
    assert Shl(1, 7) == 2 * Shl(1, 6) == 4 * Shl(1, 5);
    assert Shl(1, 9) == 2 * Shl(1, 8) == 4 * Shl(1, 7);
    assert Shl(1, 11) == 2 * Shl(1, 10) == 4 * Shl(1, 9);
  }

  lemma ShlNumber(b: bool, n: nat)
    ensures Shl(Number(b), n) == if b then Shl(1, n) else 0
  {
    ShlNothing(n);
  }

  /** The six parts do not overlap. */
  lemma Joined(c: bool, p: bool, a: bool, z: bool, s: bool, o: bool)
    ensures Or(Or(Or(Or(Or(Number(c), Shl(Number(p), 2), Q), Shl(Number(a), 4), Q), Shl(Number(z), 6), Q),
                  Shl(Number(s), 7), Q),
               Shl(Number(o), 11), Q) == Packed(Flags(c, p, a, z, s, o))
  {
    hide Shl, Word;
    Places();
    ShlNumber(p, 2);
    ShlNumber(a, 4);
    ShlNumber(z, 6);
    ShlNumber(s, 7);
    OrAdds(Number(c), Number(p), 2, 64);
    var x := Number(c) + Shl(Number(p), 2);
    OrAdds(x, Number(a), 4, 64);
    OrAdds(x + Shl(Number(a), 4), Number(z), 6, 64);
    OrAdds(x + Shl(Number(a), 4) + Shl(Number(z), 6), Number(s), 7, 64);
    OrAdds(x + Shl(Number(a), 4) + Shl(Number(z), 6) + Shl(Number(s), 7), Number(o), 11, 64);
  }

  // ---------- The parts ----------

  lemma SignPart(w: Width, res: Wide)
    ensures And(Lshift(res, 8 - Size(w)), 0x80, Q) == Shl(Number(Top(res, w)), 7)
  {
    hide Shl, Shr, Lshift, And, Top, Size;
    SizeIs(w);
    Places();
    MaskOne(Lshift(res, 8 - Size(w)), 7);
    LshiftBit(res, 8 - Size(w), 7);
    TopIsBit(res, w);
  }

  lemma OverflowPart(w: Width, x: Wide)
    ensures OverflowAt(w, x) == Shl(Number(Top(x, w)), 11)
  {
    hide Shl, Shr, Lshift, And, Top, Size;
    SizeIs(w);
    Places();
    MaskOne(Lshift(x, 12 - Size(w)), 11);
    LshiftBit(x, 12 - Size(w), 11);
    TopIsBit(x, w);
  }

  lemma XorTop(w: Width, x: Wide, y: Wide)
    ensures Top(Xor(x, y, Q), w) <==> Top(x, w) != Top(y, w)
  {
    assert Size(Q) == 64;
    hide Shr, Top, Size, Word;
    SizeIs(w);
    WordBit(XorOp, x, y, 64, Size(w) - 1);
    TopIsBit(x, w);
    TopIsBit(y, w);
    TopIsBit(Xor(x, y, Q), w);
  }

  lemma AndTop(w: Width, x: Wide, y: Wide)
    ensures Top(WordOf(AndOp, x, y), w) <==> Top(x, w) && Top(y, w)
  {
    hide Shr, Top, Size, Word;
    SizeIs(w);
    WordBit(AndOp, x, y, 64, Size(w) - 1);
    TopIsBit(x, w);
    TopIsBit(y, w);
    TopIsBit(WordOf(AndOp, x, y), w);
  }

  lemma OnesTop(w: Width)
    ensures Top(TWO_64 - 1, w)
  {
    assert TWO_64 - 1 == Range(w) * (TWO_64 / Range(w) - 1) + (Range(w) - 1) by {
      match w case B => case W => case L => case Q =>
    }
    DivisionIs(TWO_64 - 1, Range(w), TWO_64 / Range(w) - 1, Range(w) - 1);
    hide Range;
  }

  /** Bits by division. */
  lemma BitIs(x: nat, n: nat)
    ensures Shl(1, n) > 0 && (BitOf(x, n) == 1 <==> Bit(x, Shl(1, n)))
  {
    hide Shl, Shr;
    ShlUnit(n);
    ShrKeeps(x, n);
    ShlTimes(Shr(x, n), n);
    DivisionIs(x, Shl(1, n), Shr(x, n), x - Shl(Shr(x, n), n));
  }

  lemma HalfCarryPart(res: Wide, argL: Wide, argR: Wide)
    ensures HalfCarry(res, argL, argR) == Shl(Number((Bit(res, 16) != Bit(argL, 16)) != Bit(argR, 16)), 4)
  {
    hide Shl, Shr, Word, And, Bit;
    Places();
    MaskOne(Xor(Xor(res, argL, Q), argR, Q), 4);
    WordBit(XorOp, res, argL, 64, 4);
    WordBit(XorOp, Xor(res, argL, Q), argR, 64, 4);
    BitIs(res, 4);
    BitIs(argL, 4);
    BitIs(argR, 4);
  }

  lemma {:induction false} EvenOnesSplit(h: nat, l: nat, n: nat)
    requires l < Shl(1, n)
    ensures EvenOnes(l + Shl(h, n), 4 + n) == (EvenOnes(l, n) == EvenOnes(h, 4))
    decreases n
  {
    if n > 0 {
      EvenOnesSplit(h, l / 2, n - 1);
      assert (l + Shl(h, n)) / 2 == l / 2 + Shl(h, n - 1) && (l + Shl(h, n)) % 2 == l % 2;
    }
  }

  lemma NibbleOnes(b: nat)
    requires b < 16
    ensures EvenOnes(b, 4) <==> b in {0, 3, 5, 6, 9, 10, 12, 15}
  {
    var q, r := b / 4, b % 4;
    assert EvenOnes(b, 4) == ((b % 2 == 0) == EvenOnes(b / 2, 3));
    assert EvenOnes(b / 2, 3) == ((b / 2 % 2 == 0) == EvenOnes(q, 2));
    assert EvenOnes(q, 2) == ((q % 2 == 0) == EvenOnes(q / 2, 1));
    assert EvenOnes(q / 2, 1) == (q / 2 % 2 == 0);
  }

  lemma RowsAre(l: nat)
    requires l < 16
    ensures EVEN_ROW[l] == if l in {0, 3, 5, 6, 9, 10, 12, 15} then 4 else 0
    ensures ODD_ROW[l] == if l in {0, 3, 5, 6, 9, 10, 12, 15} then 0 else 4
  {
  }

  /** The table holds the parity of the ones. */
  lemma ParityPart(res: Wide)
    ensures ParityTable(res % 256) == Shl(Number(Parity(res)), 2)
  {
    hide Shl, EvenOnes, EVEN_ROW, ODD_ROW;
    Places();
    var b := res % 256;
    var h, l := b / 16, b % 16;
    ShlTimes(h, 4);
    EvenOnesSplit(h, l, 4);
    NibbleOnes(h);
    NibbleOnes(l);
    RowsAre(l);
    ShlNumber(Parity(res), 2);
  }

  /** All words are put together alike. */
  lemma Assembled(w: Width, res: Wide, c: bool, a: bool, o: bool)
    ensures Assemble(w, res, Number(c), Shl(Number(a), 4), Shl(Number(o), 11)) == Packed(OfResult(w, res, c, a, o))
  {
    hide Shl, Or, And, Lshift, Packed, ParityTable, Parity, Top, Cut;
    SignPart(w, res);
    ParityPart(res);
    Joined(c, Parity(res), a, Cut(res, w) == 0, Top(res, w), o);
  }

  /** Bits that are clear stay out of the word. */
  lemma Clear()
    ensures Number(false) == 0 && Shl(Number(false), 4) == 0 && Shl(Number(false), 11) == 0
  {
    ShlNothing(4);
    ShlNothing(11);
  }

  lemma AndOneIs(x: Wide)
    ensures And(x, 1, Q) == Number(x % 2 == 1)
  {
    hide Word;
    AndOne(x);
  }

  lemma XorCarry(x: Wide, c: Wide)
    requires c < 2
    ensures Xor(x, c, Q) == FlipLow(x, c)
  {
    SixtyFour();
    assert Shl(1, 64) == 2 * Shl(1, 63);
    XorNothing(x / 2, 63);
    hide Shl;
    assert Word(XorOp, x, c, 64) == Combine(XorOp, x % 2, c % 2) + 2 * Word(XorOp, x / 2, 0, 63);
  }

  lemma DataCut(x: Wide, w: Width)
    ensures And(x, DataMask(w), Q) == Cut(x, w) && SignMask(w) == Half(w)
  {
    MaskKeeps(x, Size(w), 64);
    ShlSize(1, w);
    LowBitsAreCut(x, w);
    hide Shl, LowBits, Word;
  }

  // ---------- The word is the flags ----------

  lemma AddWord(w: Width, argL: Wide, argR: Wide, oldC: int)
    ensures RflagsAdd(w, argL, argR, oldC) == Packed(ActionsAdd(w, argL, argR, oldC))
  {
    hide Shl, Assemble, HalfCarry, OverflowAt, Packed, Xor, WordOf, Top, Cut, Bit, Parity;
    var res: Wide := (argL + argR + oldC) % TWO_64;
    var f := ActionsAdd(w, argL, argR, oldC);
    HalfCarryPart(res, argL, argR);
    OverflowPart(w, WordOf(AndOp, Xor(Xor(argL, argR, Q), TWO_64 - 1, Q), Xor(argL, res, Q)));
    AndTop(w, Xor(Xor(argL, argR, Q), TWO_64 - 1, Q), Xor(argL, res, Q));
    XorTop(w, Xor(argL, argR, Q), TWO_64 - 1);
    XorTop(w, argL, argR);
    XorTop(w, argL, res);
    OnesTop(w);
    Assembled(w, res, f.c, f.a, f.o);
  }

  lemma SubWord(w: Width, argL: Wide, argR: Wide, oldC: int)
    ensures RflagsSub(w, argL, argR, oldC) == Packed(ActionsSub(w, argL, argR, oldC))
  {
    hide Shl, Assemble, HalfCarry, OverflowAt, Packed, Xor, WordOf, Top, Cut, Bit, Parity;
    var res: Wide := (argL - argR - oldC) % TWO_64;
    var f := ActionsSub(w, argL, argR, oldC);
    HalfCarryPart(res, argL, argR);
    OverflowPart(w, WordOf(AndOp, Xor(argL, argR, Q), Xor(argL, res, Q)));
    AndTop(w, Xor(argL, argR, Q), Xor(argL, res, Q));
    XorTop(w, argL, argR);
    XorTop(w, argL, res);
    Assembled(w, res, f.c, f.a, f.o);
  }

  lemma IncWord(w: Width, res: Wide, ndep: Wide)
    ensures RflagsInc(w, res, ndep) == Packed(ActionsInc(w, res, ndep % 2))
  {
    hide Shl, Assemble, HalfCarry, Packed, Cut, Top, And, SignMask, Bit, Parity;
    var f := ActionsInc(w, res, ndep % 2);
    AndOneIs(ndep);
    HalfCarryPart(res, (res - 1) % TWO_64, 1);
    DataCut(res, w);
    Assembled(w, res, f.c, f.a, f.o);
  }

  lemma DecWord(w: Width, res: Wide, ndep: Wide)
    ensures RflagsDec(w, res, ndep) == Packed(ActionsDec(w, res, ndep % 2))
  {
    hide Shl, Assemble, HalfCarry, Packed, Cut, Top, And, SignMask, Bit, Parity;
    var f := ActionsDec(w, res, ndep % 2);
    AndOneIs(ndep);
    HalfCarryPart(res, (res + 1) % TWO_64, 1);
    DataCut(res, w);
    Assembled(w, res, f.c, f.a, f.o);
  }

  lemma UmulWord(w: Width, dep1: Wide, dep2: Wide)
    ensures RflagsUmul(w, dep1, dep2) == Packed(ActionsUmul(w, dep1, dep2))
  {
    hide Shl, Assemble, Packed, UnsignedProduct, OfResult;
    var (hi, lo) := UnsignedProduct(dep1, dep2, w);
    Clear();
    Assembled(w, lo, hi != 0, false, hi != 0);
  }

  /** Extending a number of the width to 64 bits changes none of its flags. */
  lemma Extended(w: Width, lo: Wide, c: bool, o: bool)
    requires lo < Range(w)
    ensures OfResult(w, Signed(lo, w) % TWO_64, c, false, o) == OfResult(w, lo, c, false, o)
  {
    hide EvenOnes;
    SignedLow(lo, w);
    CutWide(Signed(lo, w), w);
    CutWide(Signed(lo, w), B);
    hide Signed, Range;
  }

  lemma SignedLow(lo: Wide, w: Width)
    requires lo < Range(w)
    ensures Cut(lo, w) == lo && Cut(Signed(lo, w), w) == lo && Signed(lo, w) % 256 == lo % 256
    ensures Signed(lo, w) / Half(w) == if Top(lo, w) then -1 else 0
  {
    CutNear(lo, w);
    CutNear(Signed(lo, w), w);
    RangeBytes(lo, w);
    SignShifted(Signed(lo, w), w);
    hide Range, Half;
  }

  lemma RangeBytes(x: int, w: Width)
    ensures (x - Range(w)) % 256 == x % 256
  {
    match w case B => case W => case L => case Q =>
  }

  lemma SignShifted(v: int, w: Width)
    requires -Half(w) <= v < Half(w)
    ensures v / Half(w) == if v < 0 then -1 else 0
  {
    hide Half;
    if v < 0 { DivisionIs(v, Half(w), -1, v + Half(w)); }
  }

  lemma ProductFits(w: Width, dep1: Wide, dep2: Wide)
    ensures var (hi, lo) := SignedProduct(dep1, dep2, w); hi < Range(w) && lo < Range(w)
  {
    hide Cut, Signed;
  }

  lemma SmulWord(w: Width, dep1: Wide, dep2: Wide)
    ensures RflagsSmul(w, dep1, dep2) == Packed(ActionsSmul(w, dep1, dep2))
  {
    hide Shl, Assemble, Packed, SignedProduct, OfResult, Signed, Top, Range;
    var (hi, lo) := SignedProduct(dep1, dep2, w);
    ProductFits(w, dep1, dep2);
    var fits := hi == if Top(lo, w) then Range(w) - 1 else 0;
    SignFills(w, hi, lo);
    Clear();
    Assembled(w, Signed(lo, w) % TWO_64, !fits, false, !fits);
    Extended(w, lo, !fits, !fits);
  }

  /** The high half is the sign of the low one. */
  lemma SignFills(w: Width, hi: Wide, lo: Wide)
    requires hi < Range(w) && lo < Range(w)
    ensures Signed(hi, w) == Signed(lo, w) / Half(w) <==> hi == if Top(lo, w) then Range(w) - 1 else 0
  {
    SignedLow(lo, w);
    SignedLow(hi, w);
    hide Cut;
  }

  lemma ShiftWord(t: Thunk)
    requires t.op in {LOGIC, SHL, SHR}
    ensures Rflags(t) == Packed(FlagsOf(t))
  {
    hide Shl, Shr, Assemble, OverflowAt, Packed, Xor, Top, And, OfResult, WordOf;
    var w, dep1, dep2 := t.width, t.dep1, t.dep2;
    Clear();
    if t.op == LOGIC {
      Assembled(w, dep1, false, false, false);
    } else {
      OverflowPart(w, Xor(dep2, dep1, Q));
      XorTop(w, dep2, dep1);
      var c := if t.op == SHL then Top(dep2, w) else dep2 % 2 == 1;
      if t.op == SHL { CarryOut(w, dep2); } else { AndOneIs(dep2); }
      Assembled(w, dep1, c, false, Top(dep2, w) != Top(dep1, w));
    }
  }

  lemma CarryOut(w: Width, x: Wide)
    ensures And(Shr(x, Size(w) - 1), 1, Q) == Number(Top(x, w))
  {
    hide Shr, And, Top;
    ShrShrinks(x, Size(w) - 1);
    AndOneIs(Shr(x, Size(w) - 1));
    TopIsBit(x, w);
  }

  lemma MaskParts(x: Wide)
    ensures And(x, 0x8D5, Q) == Shl(BitOf(x, 0), 0) + Shl(BitOf(x, 2), 2) + Shl(BitOf(x, 4), 4) + Shl(BitOf(x, 6), 6)
                             + Shl(BitOf(x, 7), 7) + Shl(BitOf(x, 11), 11)
  {
    hide Shl, Shr, Word;
    Places();
    ShlByNothing(1);
    NothingAnded(x, 64);
    MaskAdds(x, 0, 0, 64);
    MaskAdds(x, 0x1, 2, 64);
    MaskAdds(x, 0x5, 4, 64);
    MaskAdds(x, 0x15, 6, 64);
    MaskAdds(x, 0x55, 7, 64);
    MaskAdds(x, 0xD5, 11, 64);
  }

  lemma CopyWord(x: Wide)
    ensures And(x, 0x8D5, Q) == Packed(ActionsCopy(x))
  {
    hide Shl, Shr, And, Bit;
    Places();
    MaskParts(x);
    ShlByNothing(1);
    ShlByNothing(BitOf(x, 0));
    BitIs(x, 0);
    BitIs(x, 2);
    BitIs(x, 4);
    BitIs(x, 6);
    BitIs(x, 7);
    BitIs(x, 11);
  }

  /** Every flag stands at its place in the word, and nothing else is in the word. */
  lemma RflagsAreFlags(t: Thunk)
    ensures Rflags(t) == Packed(FlagsOf(t))
  {
    hide RflagsAdd, RflagsSub, RflagsInc, RflagsDec, RflagsUmul, RflagsSmul, Assemble, OverflowAt, Packed;
    hide WordOf, Shl, Shr;
    hide ActionsAdd, ActionsSub, ActionsInc, ActionsDec, ActionsUmul, ActionsSmul, ActionsCopy, OfResult;
    hide FlipLow, And, Top;
    var w, dep1, dep2, oldC := t.width, t.dep1, t.dep2, t.ndep % 2;
    AndOne(t.ndep);
    match t.op
    case COPY => CopyWord(dep1);
    case ADD => AddWord(w, dep1, dep2, 0);
    case SUB => SubWord(w, dep1, dep2, 0);
    case ADC => XorCarry(dep2, oldC); AddWord(w, dep1, FlipLow(dep2, oldC), oldC);
    case SBB => XorCarry(dep2, oldC); SubWord(w, dep1, FlipLow(dep2, oldC), oldC);
    case INC => IncWord(w, dep1, t.ndep);
    case DEC => DecWord(w, dep1, t.ndep);
    case UMUL => UmulWord(w, dep1, dep2);
    case SMUL => SmulWord(w, dep1, dep2);
    case _ => ShiftWord(t);
  }

  // ---------- Conditions on the word ----------

  /** Codes come in pairs, the odd one the negation. */
  function CondOf(code: nat): Cond
    requires code < 16
  {
    match code
    case 0 => O case 1 => NO case 2 => CB case 3 => NB case 4 => Z case 5 => NZ case 6 => BE case 7 => NBE
    case 8 => S case 9 => NS case 10 => P case 11 => NP case 12 => CL case 13 => NL case 14 => LE case _ => NLE
  }

  /** What a pair of codes looks at, at the lowest place; other bits of the word are left in. */
  function Looked(pair: nat, rflags: nat): nat {
    var c, p, z, s, o := Shr(rflags, 0), Shr(rflags, 2), Shr(rflags, 6), Shr(rflags, 7), Shr(rflags, 11);
    match pair
    case 0 => o
    case 1 => c
    case 2 => z
    case 3 => Or(c, z, Q)
    case 4 => s
    case 5 => p
    case 6 => Xor(s, o, Q)
    case _ => Or(Xor(s, o, Q), z, Q)
  }

  /** The condition helper: it negates for an odd code and cuts to the lowest bit. */
  function ConditionOfWord(code: nat, rflags: nat): nat
    requires code < 16
  {
    And(1, Xor(And(code, 1, Q), Looked(code / 2, rflags), Q), Q)
  }

  lemma LowestBit(op: BitOp, x: nat, y: nat)
    ensures Word(op, x, y, 64) % 2 == Combine(op, x % 2, y % 2)
  {
    WordBit(op, x, y, 64, 0);
    LowestOf(x);
    LowestOf(y);
    LowestOf(Word(op, x, y, 64));
    hide Word, Shr;
  }

  lemma {:induction false} NothingBelow(y: nat, n: nat)
    ensures Word(AndOp, 0, y, n) == 0
  {
    if n > 0 { NothingBelow(y / 2, n - 1); }
  }

  lemma OneAnd(x: nat)
    ensures And(1, x, Q) == x % 2 && And(x, 1, Q) == x % 2
  {
    NothingBelow(x / 2, 63);
    assert Word(AndOp, 1, x, 64) == Combine(AndOp, 1, x % 2) + 2 * Word(AndOp, 0, x / 2, 63);
    MaskKeeps(x, 1, 64);
    assert LowBits(x, 1) == x % 2 && Shl(1, 1) == 2;
    hide Word, LowBits;
  }

  /** The bits of the word by their places. */
  lemma PackedBits(f: Flags)
    ensures var r := Packed(f);
      && BitOf(r, 0) == Number(f.c) && BitOf(r, 2) == Number(f.p) && BitOf(r, 6) == Number(f.z)
      && BitOf(r, 7) == Number(f.s) && BitOf(r, 11) == Number(f.o)
  {
    hide Packed, BitOf, Word;
    PackedBit(f, 0);
    PackedBit(f, 2);
    PackedBit(f, 6);
    PackedBit(f, 7);
    PackedBit(f, 11);
  }

  lemma PackedBit(f: Flags, i: nat)
    requires i < 64
    ensures BitOf(Packed(f), i) == if i == 0 then Number(f.c) else if i == 2 then Number(f.p)
      else if i == 4 then Number(f.a) else if i == 6 then Number(f.z) else if i == 7 then Number(f.s)
      else if i == 11 then Number(f.o) else 0
  {
    hide Packed, BitOf, Word, Shl;
    Joined(f.c, f.p, f.a, f.z, f.s, f.o);
    ShlByNothing(Number(f.c));
    OneBit(Number(f.c), 0, i);
    OneBit(Number(f.p), 2, i);
    OneBit(Number(f.a), 4, i);
    OneBit(Number(f.z), 6, i);
    OneBit(Number(f.s), 7, i);
    OneBit(Number(f.o), 11, i);
    var w1 := Or(Number(f.c), Shl(Number(f.p), 2), Q);
    var w2 := Or(w1, Shl(Number(f.a), 4), Q);
    var w3 := Or(w2, Shl(Number(f.z), 6), Q);
    var w4 := Or(w3, Shl(Number(f.s), 7), Q);
    WordBit(OrOp, Number(f.c), Shl(Number(f.p), 2), 64, i);
    WordBit(OrOp, w1, Shl(Number(f.a), 4), 64, i);
    WordBit(OrOp, w2, Shl(Number(f.z), 6), 64, i);
    WordBit(OrOp, w3, Shl(Number(f.s), 7), 64, i);
    WordBit(OrOp, w4, Shl(Number(f.o), 11), 64, i);
  }

  lemma LookedBit(pair: nat, rflags: nat, a: bool)
    requires pair < 8
    ensures var c, p, z := BitOf(rflags, 0) == 1, BitOf(rflags, 2) == 1, BitOf(rflags, 6) == 1;
      var s, o := BitOf(rflags, 7) == 1, BitOf(rflags, 11) == 1;
      Looked(pair, rflags) % 2 == Number(Holds(CondOf(2 * pair), Flags(c, p, a, z, s, o)))
  {
    hide Word, Shr;
    var c, z, s, o := Shr(rflags, 0), Shr(rflags, 6), Shr(rflags, 7), Shr(rflags, 11);
    LowestBit(OrOp, c, z);
    LowestBit(XorOp, s, o);
    LowestBit(OrOp, Xor(s, o, Q), z);
  }

  lemma Negated(code: nat, f: Flags)
    requires code < 16
    ensures Holds(CondOf(code), f) == (Holds(CondOf(2 * (code / 2)), f) == (code % 2 == 0))
  {
  }

  /** The helper computes with truth values on the lowest bits. */
  lemma ConditionParity(code: nat, rflags: nat, a: bool)
    requires code < 16
    ensures var c, p, z := BitOf(rflags, 0) == 1, BitOf(rflags, 2) == 1, BitOf(rflags, 6) == 1;
      var s, o := BitOf(rflags, 7) == 1, BitOf(rflags, 11) == 1;
      ConditionOfWord(code, rflags) == Number(Holds(CondOf(code), Flags(c, p, a, z, s, o)))
  {
    hide Word, Shr, Looked, Holds, CondOf, And, Xor;
    var c, p, z := BitOf(rflags, 0) == 1, BitOf(rflags, 2) == 1, BitOf(rflags, 6) == 1;
    var s, o := BitOf(rflags, 7) == 1, BitOf(rflags, 11) == 1;
    OneAnd(code);
    LookedBit(code / 2, rflags, a);
    Negated(code, Flags(c, p, a, z, s, o));
    InvertedBit(And(code, 1, Q), Looked(code / 2, rflags));
  }

  lemma InvertedBit(inv: nat, x: nat)
    ensures And(1, Xor(inv, x, Q), Q) == Combine(XorOp, inv % 2, x % 2)
  {
    hide Word;
    OneAnd(Xor(inv, x, Q));
    LowestBit(XorOp, inv, x);
  }

  /** The condition and the carry, taken from the word by shifts and masks, are those of the flags. */
  lemma ConditionsOfWord(code: nat, t: Thunk)
    requires code < 16
    ensures ConditionOfWord(code, Rflags(t)) == Condition(CondOf(code), t)
    ensures And(Rflags(t), 1, Q) == Number(FlagsOf(t).c)
  {
    hide ConditionOfWord, Rflags, FlagsOf, Packed, Word, Shr;
    RflagsAreFlags(t);
    PackedBits(FlagsOf(t));
    ConditionParity(code, Rflags(t), FlagsOf(t).a);
    OneAnd(Rflags(t));
    LowestOf(Rflags(t));
  }

  /** The comparison a condition code stands for after a subtraction. */
  predicate AfterSub(code: nat, x: int, y: int, w: Width) {
    match code
    case 0 => Overflows(Signed(x, w) - Signed(y, w), w)
    case 1 => !Overflows(Signed(x, w) - Signed(y, w), w)
    case 2 => Cut(x, w) < Cut(y, w)
    case 3 => Cut(x, w) >= Cut(y, w)
    case 4 => Cut(x, w) == Cut(y, w)
    case 5 => Cut(x, w) != Cut(y, w)
    case 6 => Cut(x, w) <= Cut(y, w)
    case 7 => Cut(x, w) > Cut(y, w)
    case 8 => Signed(x - y, w) < 0
    case 9 => Signed(x - y, w) >= 0
    case 10 => EvenOnes((x - y) % 256, 8)
    case 11 => !EvenOnes((x - y) % 256, 8)
    case 12 => Signed(x, w) < Signed(y, w)
    case 13 => Signed(x, w) >= Signed(y, w)
    case 14 => Signed(x, w) <= Signed(y, w)
    case _ => Signed(x, w) > Signed(y, w)
  }

  /** All sixteen codes, asked of the flags word after a subtraction. */
  lemma CodesAfterSub(code: nat, t: Thunk)
    requires code < 16 && t.op == SUB
    ensures ConditionOfWord(code, Rflags(t)) == Number(AfterSub(code, t.dep1, t.dep2, t.width))
  {
    hide Rflags, ConditionOfWord, FlagsOf, Cut, Signed, EvenOnes, Overflows, Top;
    ConditionsOfWord(code, t);
    ConditionsAfterSub(t);
    SubFlags(t, t.dep2);
    SumFlags(t.dep1 - t.dep2, t.width);
    ParityOfSub(t);
  }

  lemma ParityOfSub(t: Thunk)
    requires t.op == SUB
    ensures FlagsOf(t).p == EvenOnes((t.dep1 - t.dep2) % 256, 8)
  {
    hide ActionsAdd, ActionsUmul, ActionsSmul, ActionsInc, ActionsDec, ActionsCopy, OfResult, Cut, Top, Bit, EvenOnes;
    ByteOfWide(t.dep1 - t.dep2);
  }

  lemma ByteOfWide(v: int)
    ensures v % TWO_64 % 256 == v % 256
  {
    CutWide(v, B);
  }

  lemma LowestOf(x: nat)
    ensures BitOf(x, 0) == x % 2
  {
  }
}
