/** The lazy flags of amd64: what the four words of a thunk say, and that it is the arithmetic truth. */
module Amd64Flags {
  import opened Bits

  type Wide = x: int | 0 <= x < TWO_64

  datatype Width = B | W | L | Q

  function Range(w: Width): (r: int)
    ensures r > 0 && r % 256 == 0
  {
    match w
    case B => 0x100
    case W => 0x1_0000
    case L => 0x1_0000_0000
    case Q => TWO_64
  }

  function Half(w: Width): (h: int)
    ensures 2 * h == Range(w) && h > 0
  {
    Range(w) / 2
  }

  function Size(w: Width): nat {
    match w case B => 8 case W => 16 case L => 32 case Q => 64
  }

  lemma ShlSize(q: int, w: Width)
    ensures Shl(q, Size(w)) == Range(w) * q
  {
    ShlByte(q);
    ShlTwice(q, 8, 8);
    ShlByte(256 * q);
    ShlTwice(q, 16, 16);
    ShlSixteen(0x1_0000 * q);
    ShlTwice(q, 32, 32);
    ShlThirtyTwo(0x1_0000_0000 * q);
    hide Shl;
  }

  /** An operand cut to its width. */
  function Cut(x: int, w: Width): (v: int)
    ensures 0 <= v < Range(w)
  {
    x % Range(w)
  }

  function Signed(x: int, w: Width): (v: int)
    ensures -Half(w) <= v < Half(w)
  {
    if Top(x, w) then Cut(x, w) - Range(w) else Cut(x, w)
  }

  /** The sign bit. */
  predicate Top(x: int, w: Width) {
    Cut(x, w) >= Half(w)
  }

  lemma AddMultiple(v: int, k: int, w: Width)
    ensures Cut(v + Range(w) * k, w) == Cut(v, w)
  {
    var q := v / Range(w);
    assert v == Range(w) * q + Cut(v, w);
    Distribute(Range(w), q, k);
    DivisionIs(v + Range(w) * k, Range(w), q + k, Cut(v, w));
  }

  /** The arithmetic of 64-bit words, cut to a width, is the arithmetic of the width. */
  lemma CutWide(x: int, w: Width)
    ensures Cut(x % TWO_64, w) == Cut(x, w)
  {
    var q := x / TWO_64;
    var m := match w case B => 0x100_0000_0000_0000 case W => 0x1_0000_0000_0000 case L => 0x1_0000_0000 case Q => 1;
    assert x == TWO_64 * q + x % TWO_64 && TWO_64 == Range(w) * m;
    Regroup(Range(w), m, q);
    hide Cut, Range;
    AddMultiple(x % TWO_64, m * q, w);
  }

  lemma Regroup(r: int, m: int, q: int)
    ensures r * m * q == r * (m * q)
  {
  }

  lemma CutParts(x: int, w: Width) returns (q: int)
    ensures x == Cut(x, w) + Range(w) * q
  {
    q := x / Range(w);
  }

  lemma CutOfSum(x: int, y: int, c: int, w: Width)
    ensures Cut(x + y + c, w) == Cut(Cut(x, w) + Cut(y, w) + c, w)
    ensures Cut(x - y - c, w) == Cut(Cut(x, w) - Cut(y, w) - c, w)
  {
    var p := CutParts(x, w);
    var q := CutParts(y, w);
    AddMultiple(Cut(x, w) + Cut(y, w) + c, p + q, w);
    AddMultiple(Cut(x, w) - Cut(y, w) - c, p - q, w);
    Distribute(Range(w), p, q);
    hide Cut, Range;
  }

  lemma Distribute(r: int, p: int, q: int)
    ensures r * (p + q) == r * p + r * q && r * (p - q) == r * p - r * q
  {
  }

  /** A number less than one range off is cut by one range. */
  lemma CutNear(v: int, w: Width)
    requires -Range(w) <= v < 2 * Range(w)
    ensures Cut(v, w) == if v < 0 then v + Range(w) else if v >= Range(w) then v - Range(w) else v
  {
    match w case B => case W => case L => case Q =>
  }

  // ---------- The thunk ----------

  datatype Op = COPY | ADD | ADC | SUB | SBB | LOGIC | INC | DEC | SHL | SHR | UMUL | SMUL

  datatype Thunk = Thunk(op: Op, width: Width, dep1: Wide, dep2: Wide, ndep: Wide)

  datatype Flags = Flags(c: bool, p: bool, a: bool, z: bool, s: bool, o: bool)

  /** Even number of ones in the low byte. */
  function Parity(x: int): bool {
    EvenOnes(x % 256, 8)
  }

  function EvenOnes(b: int, n: nat): bool
    decreases n
  {
    if n == 0 then true else (b % 2 == 0) == EvenOnes(b / 2, n - 1)
  }

  function Bit(x: int, place: int): bool
    requires place > 0
  {
    x / place % 2 == 1
  }

  /** Exclusive or with a carry bit. */
  function FlipLow(x: Wide, carry: int): Wide {
    if carry == 0 then x else if x % 2 == 0 then x + 1 else x - 1
  }

  /** Flags from both operands, the result, a carry and an overflow. */
  function Arithmetic(w: Width, argL: Wide, argR: Wide, res: Wide, c: bool, o: bool): Flags {
    Flags(c, Parity(res), (Bit(res, 16) != Bit(argL, 16)) != Bit(argR, 16), Cut(res, w) == 0, Top(res, w), o)
  }

  /** Flags of a result alone. */
  function OfResult(w: Width, res: Wide, c: bool, a: bool, o: bool): Flags {
    Flags(c, Parity(res), a, Cut(res, w) == 0, Top(res, w), o)
  }

  function ActionsCopy(dep1: Wide): Flags {
    Flags(Bit(dep1, 1), Bit(dep1, 4), Bit(dep1, 16), Bit(dep1, 64), Bit(dep1, 128), Bit(dep1, 2048))
  }

  /** With oldC zero this is the plain addition. */
  function ActionsAdd(w: Width, argL: Wide, argR: Wide, oldC: int): Flags {
    var res: Wide := (argL + argR + oldC) % TWO_64;
    Arithmetic(w, argL, argR, res,
               if oldC != 0 then Cut(res, w) <= Cut(argL, w) else Cut(res, w) < Cut(argL, w),
               Top(argL, w) == Top(argR, w) && Top(argL, w) != Top(res, w))
  }

  /** With oldC zero this is the plain subtraction. */
  function ActionsSub(w: Width, argL: Wide, argR: Wide, oldC: int): Flags {
    var res: Wide := (argL - argR - oldC) % TWO_64;
    Arithmetic(w, argL, argR, res,
               if oldC != 0 then Cut(argL, w) <= Cut(argR, w) else Cut(argL, w) < Cut(argR, w),
               Top(argL, w) != Top(argR, w) && Top(argL, w) != Top(res, w))
  }

  function ActionsInc(w: Width, res: Wide, oldC: int): Flags {
    Arithmetic(w, (res - 1) % TWO_64, 1, res, oldC == 1, Cut(res, w) == Half(w))
  }

  function ActionsDec(w: Width, res: Wide, oldC: int): Flags {
    Arithmetic(w, (res + 1) % TWO_64, 1, res, oldC == 1, Cut(res, w) == Half(w) - 1)
  }

  function ActionsUmul(w: Width, dep1: Wide, dep2: Wide): Flags {
    var (hi, lo) := UnsignedProduct(dep1, dep2, w);
    OfResult(w, lo, hi != 0, false, hi != 0)
  }

  function ActionsSmul(w: Width, dep1: Wide, dep2: Wide): Flags {
    var (hi, lo) := SignedProduct(dep1, dep2, w);
    var fits := hi == if Top(lo, w) then Range(w) - 1 else 0;
    OfResult(w, lo, !fits, false, !fits)
  }

  function FlagsOf(t: Thunk): Flags {
    var w, dep1, dep2, oldC := t.width, t.dep1, t.dep2, t.ndep % 2;
    match t.op
    case COPY => ActionsCopy(dep1)
    case ADD => ActionsAdd(w, dep1, dep2, 0)
    case SUB => ActionsSub(w, dep1, dep2, 0)
    case ADC => ActionsAdd(w, dep1, FlipLow(dep2, oldC), oldC)
    case SBB => ActionsSub(w, dep1, FlipLow(dep2, oldC), oldC)
    case LOGIC => OfResult(w, dep1, false, false, false)
    case INC => ActionsInc(w, dep1, oldC)
    case DEC => ActionsDec(w, dep1, oldC)
    case SHL => OfResult(w, dep1, Top(dep2, w), false, Top(dep2, w) != Top(dep1, w))
    case SHR => OfResult(w, dep1, dep2 % 2 == 1, false, Top(dep2, w) != Top(dep1, w))
    case UMUL => ActionsUmul(w, dep1, dep2)
    case SMUL => ActionsSmul(w, dep1, dep2)
  }

  function UnsignedProduct(x: Wide, y: Wide, w: Width): (r: (Wide, Wide)) {
    if w == Q then Mull(x, y) else WideProduct(Cut(x, w) * Cut(y, w), w)
  }

  function SignedProduct(x: Wide, y: Wide, w: Width): (r: (Wide, Wide)) {
    if w == Q then Mull(Signed(x, Q), Signed(y, Q)) else WideProduct(Signed(x, w) * Signed(y, w), w)
  }

  /** The halves of a double-width product, both cut to the width. */
  function WideProduct(p: int, w: Width): (r: (Wide, Wide)) {
    (Cut(p / Range(w), w), Cut(p, w))
  }

  /**
   * Schoolbook multiplication on 32-bit halves. The signed and the unsigned version differ only in how
   * they shift, which is what the operands' signs say here.
   */
  function Mull(u: int, v: int): (r: (Wide, Wide)) {
    var u0, u1, v0, v1 := u % 0x1_0000_0000, u / 0x1_0000_0000, v % 0x1_0000_0000, v / 0x1_0000_0000;
    var w0 := u0 * v0;
    var t := u1 * v0 + w0 / 0x1_0000_0000;
    var w1 := u0 * v1 + t % 0x1_0000_0000;
    ((u1 * v1 + t / 0x1_0000_0000 + w1 / 0x1_0000_0000) % TWO_64, u * v % TWO_64)
  }

  // ---------- The truth ----------

  /** A result that does not fit a signed number of the width. */
  predicate Overflows(v: int, w: Width) {
    !(-Half(w) <= v < Half(w))
  }

  lemma SignedParts(x: int, w: Width)
    ensures Cut(x, w) == if Top(x, w) then Signed(x, w) + Range(w) else Signed(x, w)
    ensures Top(x, w) <==> Signed(x, w) < 0
  {
  }

  /** After an addition with carry in: carry out, signed overflow, zero and sign. */
  lemma AddTruth(x: int, y: int, c: int, w: Width)
    requires 0 <= c < 2
    ensures var sum, res := Cut(x, w) + Cut(y, w) + c, x + y + c;
      && (sum >= Range(w) <==> if c != 0 then Cut(res, w) <= Cut(x, w) else Cut(res, w) < Cut(x, w))
      && (Overflows(Signed(x, w) + Signed(y, w) + c, w) <==> Top(x, w) == Top(y, w) && Top(x, w) != Top(res, w))
  {
    CutOfSum(x, y, c, w);
    CutNear(Cut(x, w) + Cut(y, w) + c, w);
    SignedParts(x, w);
    SignedParts(y, w);
    SignedParts(x + y + c, w);
    hide Cut, Range, Half;
  }

  /** After a subtraction with borrow in. */
  lemma SubTruth(x: int, y: int, c: int, w: Width)
    requires 0 <= c < 2
    ensures var diff, res := Cut(x, w) - Cut(y, w) - c, x - y - c;
      && (diff < 0 <==> if c != 0 then Cut(x, w) <= Cut(y, w) else Cut(x, w) < Cut(y, w))
      && (Overflows(Signed(x, w) - Signed(y, w) - c, w) <==> Top(x, w) != Top(y, w) && Top(x, w) != Top(res, w))
      && (c == 0 ==> (Cut(res, w) == 0 <==> Cut(x, w) == Cut(y, w)))
      && (c == 0 ==> (Signed(x, w) < Signed(y, w) <==> Top(res, w) != Overflows(Signed(x, w) - Signed(y, w), w)))
  {
    CutOfSum(x, y, c, w);
    CutNear(Cut(x, w) - Cut(y, w) - c, w);
    SignedParts(x, w);
    SignedParts(y, w);
    SignedParts(x - y - c, w);
    hide Cut, Range, Half;
  }

  /** The exact product, from its two halves. */
  lemma MullTruth(u: int, v: int)
    ensures var u0, u1, v0, v1 := u % 0x1_0000_0000, u / 0x1_0000_0000, v % 0x1_0000_0000, v / 0x1_0000_0000;
      var t := u1 * v0 + u0 * v0 / 0x1_0000_0000;
      var hi := u1 * v1 + t / 0x1_0000_0000 + (u0 * v1 + t % 0x1_0000_0000) / 0x1_0000_0000;
      hi == u * v / TWO_64 && Mull(u, v) == (hi % TWO_64, u * v % TWO_64)
  {
    var k := 0x1_0000_0000;
    var u0, u1, v0, v1 := u % k, u / k, v % k, v / k;
    var w0 := u0 * v0;
    var t := u1 * v0 + w0 / k;
    var w1 := u0 * v1 + t % k;
    var hi := u1 * v1 + t / k + w1 / k;
    var low := k * (w1 % k) + w0 % k;
    ProductOfHalves(u0, u1, v0, v1);
    assert u * v == (k * u1 + u0) * (k * v1 + v0);
    assert u * v == TWO_64 * hi + low;
    DivisionIs(u * v, TWO_64, hi, low);
  }

  lemma ProductOfHalves(u0: int, u1: int, v0: int, v1: int)
    ensures (0x1_0000_0000 * u1 + u0) * (0x1_0000_0000 * v1 + v0)
         == TWO_64 * (u1 * v1) + 0x1_0000_0000 * (u1 * v0 + u0 * v1) + u0 * v0
  {
  }

  /** No intermediate value of the signed version leaves 64 bits. */
  lemma MullFits(u: int, v: int)
    requires -Half(Q) <= u < Half(Q) && -Half(Q) <= v < Half(Q)
    ensures var u0, u1, v0, v1 := u % 0x1_0000_0000, u / 0x1_0000_0000, v % 0x1_0000_0000, v / 0x1_0000_0000;
      var t := u1 * v0 + u0 * v0 / 0x1_0000_0000;
      !Overflows(t, Q) && !Overflows(u0 * v1 + t % 0x1_0000_0000, Q) && u0 * v0 < TWO_64
  {
    var k := 0x1_0000_0000;
    var u0, u1, v0, v1 := u % k, u / k, v % k, v / k;
    assert -0x8000_0000 <= u1 < 0x8000_0000 && -0x8000_0000 <= v1 < 0x8000_0000;
    HalfProduct(u1, v0);
    HalfProduct(v1, u0);
    WholeProduct(u0, v0);
  }

  /** Nor of the unsigned version. */
  lemma UnsignedMullFits(u: Wide, v: Wide)
    ensures var u0, u1, v0, v1 := u % 0x1_0000_0000, u / 0x1_0000_0000, v % 0x1_0000_0000, v / 0x1_0000_0000;
      var t := u1 * v0 + u0 * v0 / 0x1_0000_0000;
      && u0 * v0 < TWO_64 && t < TWO_64 && u0 * v1 + t % 0x1_0000_0000 < TWO_64
      && u1 * v1 + t / 0x1_0000_0000 + (u0 * v1 + t % 0x1_0000_0000) / 0x1_0000_0000 < TWO_64
  {
    var u0, u1, v0, v1 := u % 0x1_0000_0000, u / 0x1_0000_0000, v % 0x1_0000_0000, v / 0x1_0000_0000;
    WholeProduct(u0, v0);
    WholeProduct(u1, v0);
    WholeProduct(u0, v1);
    WholeProduct(u1, v1);
    SumsFit(u0 * v0, u1 * v0, u0 * v1, u1 * v1);
  }

  lemma SumsFit(p: int, q: int, r: int, s: int)
    requires 0 <= p <= 0xFFFF_FFFF * 0xFFFF_FFFF && 0 <= q <= 0xFFFF_FFFF * 0xFFFF_FFFF
    requires 0 <= r <= 0xFFFF_FFFF * 0xFFFF_FFFF && 0 <= s <= 0xFFFF_FFFF * 0xFFFF_FFFF
    ensures var t := q + p / 0x1_0000_0000;
      && t < TWO_64 && r + t % 0x1_0000_0000 < TWO_64
      && s + t / 0x1_0000_0000 + (r + t % 0x1_0000_0000) / 0x1_0000_0000 < TWO_64
  {
  }

  lemma MulOrder(n: nat, a: int, b: int)
    requires a <= b
    ensures n * a <= n * b
  {
    if a < b { MulLess(n, a, b); }
  }

  lemma HalfProduct(s: int, n: int)
    requires -0x8000_0000 <= s < 0x8000_0000 && 0 <= n < 0x1_0000_0000
    ensures -0x8000_0000 * 0xFFFF_FFFF <= s * n <= 0x7FFF_FFFF * 0xFFFF_FFFF
  {
    MulOrder(n, s, 0x7FFF_FFFF);
    MulOrder(n, -0x8000_0000, s);
  }

  lemma WholeProduct(m: int, n: int)
    requires 0 <= m < 0x1_0000_0000 && 0 <= n < 0x1_0000_0000
    ensures 0 <= m * n <= 0xFFFF_FFFF * 0xFFFF_FFFF
  {
    MulOrder(n, m, 0xFFFF_FFFF);
    MulOrder(n, 0, m);
  }

  // ---------- The flags of each operation ----------

  /** Adding, with or without carry in: `y` is the operand the thunk hides by exclusive or with the carry. */
  lemma AddFlags(t: Thunk, y: Wide)
    requires t.op == ADD || t.op == ADC
    requires t.dep2 == if t.op == ADC then FlipLow(y, t.ndep % 2) else y
    ensures var f, w, x, c := FlagsOf(t), t.width, t.dep1, if t.op == ADC then t.ndep % 2 else 0;
      && (f.c <==> Cut(x, w) + Cut(y, w) + c >= Range(w))
      && (f.o <==> Overflows(Signed(x, w) + Signed(y, w) + c, w))
      && (f.z <==> Cut(x + y + c, w) == 0) && (f.s <==> Signed(x + y + c, w) < 0)
  {
    hide FlagsOf, Range, Half, Cut, Signed, Top;
    var c := if t.op == ADC then t.ndep % 2 else 0;
    OfAddition(t, y);
    AddActions(t.width, t.dep1, y, c);
  }

  lemma OfAddition(t: Thunk, y: Wide)
    requires t.op == ADD || t.op == ADC
    requires t.dep2 == if t.op == ADC then FlipLow(y, t.ndep % 2) else y
    ensures FlagsOf(t) == ActionsAdd(t.width, t.dep1, y, if t.op == ADC then t.ndep % 2 else 0)
  {
    hide ActionsAdd;
    FlipTwice(y, t.ndep % 2);
  }

  lemma OfSubtraction(t: Thunk, y: Wide)
    requires t.op == SUB || t.op == SBB
    requires t.dep2 == if t.op == SBB then FlipLow(y, t.ndep % 2) else y
    ensures FlagsOf(t) == ActionsSub(t.width, t.dep1, y, if t.op == SBB then t.ndep % 2 else 0)
  {
    hide ActionsSub;
    FlipTwice(y, t.ndep % 2);
  }

  lemma AddActions(w: Width, x: Wide, y: Wide, c: int)
    requires 0 <= c < 2
    ensures var f := ActionsAdd(w, x, y, c);
      && (f.c <==> Cut(x, w) + Cut(y, w) + c >= Range(w))
      && (f.o <==> Overflows(Signed(x, w) + Signed(y, w) + c, w))
      && (f.z <==> Cut(x + y + c, w) == 0) && (f.s <==> Signed(x + y + c, w) < 0)
  {
    hide Range, Half, Cut, Signed, Parity, Bit;
    AddTruth(x, y, c, w);
    SumFlags(x + y + c, w);
  }

  /** Cutting to 64 bits first changes neither the value nor the sign at a width. */
  lemma SumFlags(v: int, w: Width)
    ensures Cut(v % TWO_64, w) == Cut(v, w) && Top(v % TWO_64, w) == Top(v, w) && (Top(v, w) <==> Signed(v, w) < 0)
  {
    CutWide(v, w);
    SignedParts(v, w);
    hide Range, Half;
  }

  lemma FlipTwice(y: Wide, c: int)
    requires 0 <= c < 2
    ensures FlipLow(FlipLow(y, c), c) == y
  {
  }

  lemma SubFlags(t: Thunk, y: Wide)
    requires t.op == SUB || t.op == SBB
    requires t.dep2 == if t.op == SBB then FlipLow(y, t.ndep % 2) else y
    ensures var f, w, x, c := FlagsOf(t), t.width, t.dep1, if t.op == SBB then t.ndep % 2 else 0;
      && (f.c <==> Cut(x, w) < Cut(y, w) + c)
      && (f.o <==> Overflows(Signed(x, w) - Signed(y, w) - c, w))
      && (f.z <==> Cut(x - y - c, w) == 0) && (f.s <==> Signed(x - y - c, w) < 0)
  {
    hide FlagsOf, Range, Half, Cut, Signed, Top;
    var c := if t.op == SBB then t.ndep % 2 else 0;
    OfSubtraction(t, y);
    SubActions(t.width, t.dep1, y, c);
  }

  lemma SubActions(w: Width, x: Wide, y: Wide, c: int)
    requires 0 <= c < 2
    ensures var f := ActionsSub(w, x, y, c);
      && (f.c <==> Cut(x, w) < Cut(y, w) + c)
      && (f.o <==> Overflows(Signed(x, w) - Signed(y, w) - c, w))
      && (f.z <==> Cut(x - y - c, w) == 0) && (f.s <==> Signed(x - y - c, w) < 0)
  {
    hide Range, Half, Cut, Signed, Parity, Bit;
    SubTruth(x, y, c, w);
    SumFlags(x - y - c, w);
  }

  /** Increment and decrement overflow exactly at the ends, and keep the old carry. */
  lemma StepFlags(t: Thunk)
    requires t.op == INC || t.op == DEC
    ensures var f, w, d := FlagsOf(t), t.width, if t.op == INC then 1 else -1;
      && (f.c <==> t.ndep % 2 == 1) && (f.z <==> Cut(t.dep1, w) == 0) && (f.s <==> Signed(t.dep1, w) < 0)
      && (f.o <==> Overflows(Signed(t.dep1 - d, w) + d, w))
  {
    hide ActionsAdd, ActionsSub, ActionsUmul, ActionsSmul, ActionsCopy, OfResult, Range, Half, Cut, Signed, Parity, Bit;
    StepEnds(t.dep1, t.width);
    SignedParts(t.dep1, t.width);
  }

  lemma StepEnds(x: int, w: Width)
    ensures Cut(x, w) == Half(w) <==> Overflows(Signed(x - 1, w) + 1, w)
    ensures Cut(x, w) == Half(w) - 1 <==> Overflows(Signed(x + 1, w) - 1, w)
  {
    hide Cut, Range, Half, Signed, Top;
    StepCut(x, w);
    CutNear(Cut(x, w) - 1, w);
    CutNear(Cut(x, w) + 1, w);
    SignedIs(x - 1, w);
    SignedIs(x + 1, w);
  }

  lemma SignedIs(x: int, w: Width)
    ensures Signed(x, w) == if Cut(x, w) >= Half(w) then Cut(x, w) - Range(w) else Cut(x, w)
  {
    SignedParts(x, w);
    hide Cut, Range, Half, Signed;
  }

  lemma StepCut(x: int, w: Width)
    ensures Cut(x - 1, w) == Cut(Cut(x, w) - 1, w) && Cut(x + 1, w) == Cut(Cut(x, w) + 1, w)
  {
    var q := CutParts(x, w);
    AddMultiple(Cut(x, w) - 1, q, w);
    AddMultiple(Cut(x, w) + 1, q, w);
  }

  /** Multiplying sets carry and overflow exactly if the product needs more than the width. */
  lemma UnsignedMulFlags(t: Thunk)
    requires t.op == UMUL
    ensures var f, w := FlagsOf(t), t.width;
      && (f.c <==> Cut(t.dep1, w) * Cut(t.dep2, w) >= Range(w)) && (f.o <==> f.c)
  {
    UnsignedHigh(t.dep1, t.dep2, t.width);
    ProductHalves(Cut(t.dep1, t.width), Cut(t.dep2, t.width), t.width);
    hide ActionsAdd, ActionsSub, ActionsSmul, ActionsInc, ActionsDec, ActionsCopy, Parity, UnsignedProduct, Cut, Range;
  }

  lemma UnsignedHigh(x: Wide, y: Wide, w: Width)
    ensures UnsignedProduct(x, y, w).0 == Cut(x, w) * Cut(y, w) / Range(w)
  {
    if w == Q { QuadHigh(x, y); } else { NarrowHigh(Cut(x, w), Cut(y, w), w); }
    hide Mull;
  }

  lemma QuadHigh(x: Wide, y: Wide)
    ensures Mull(x, y).0 == x * y / TWO_64
  {
    MullTruth(x, y);
    ProductHalves(x, y, Q);
    hide Mull;
  }

  lemma NarrowHigh(x: int, y: int, w: Width)
    requires 0 <= x < Range(w) && 0 <= y < Range(w)
    ensures WideProduct(x * y, w).0 == x * y / Range(w)
  {
    ProductHalves(x, y, w);
    CutNear(x * y / Range(w), w);
    hide Range;
  }

  lemma ProductHalves(x: int, y: int, w: Width)
    requires 0 <= x < Range(w) && 0 <= y < Range(w)
    ensures 0 <= x * y / Range(w) < Range(w) && (x * y / Range(w) == 0 <==> x * y < Range(w))
  {
    MulOrder(x, 0, y);
    var p, r := x * y, Range(w);
    assert p == r * (p / r) + p % r;
    if p / r >= r {
      MulOrder(r, r, p / r);
      MulOrder(x, y, r);
    }
    if p / r >= 1 { MulOrder(r, 1, p / r); }
  }

  lemma SignedMulFlags(t: Thunk)
    requires t.op == SMUL
    ensures var f, w := FlagsOf(t), t.width;
      && (f.c <==> Overflows(Signed(t.dep1, w) * Signed(t.dep2, w), w)) && (f.o <==> f.c)
  {
    var w, p := t.width, Signed(t.dep1, t.width) * Signed(t.dep2, t.width);
    SignedHalves(t.dep1, t.dep2, w);
    SignedBound(Signed(t.dep1, w), Signed(t.dep2, w), w);
    SignedFits(p, w);
    hide ActionsAdd, ActionsSub, ActionsUmul, ActionsInc, ActionsDec, ActionsCopy, Parity, SignedProduct;
    hide Range, Half, Cut, Signed;
  }

  lemma SignedHalves(x: Wide, y: Wide, w: Width)
    ensures var p, r := Signed(x, w) * Signed(y, w), SignedProduct(x, y, w);
      r.0 == Cut(p / Range(w), w) && r.1 == Cut(p, w)
  {
    if w == Q { MullTruth(Signed(x, Q), Signed(y, Q)); }
    hide Mull, Signed;
  }

  lemma SignedBound(x: int, y: int, w: Width)
    requires -Half(w) <= x < Half(w) && -Half(w) <= y < Half(w)
    ensures -Half(w) <= x * y / Range(w) < Half(w)
  {
    var h := Half(w);
    SquareBound(x, if y < 0 then -y else y, h);
    assert x * y == if y < 0 then -(-y * x) else y * x;
    HalfQuotient(x * y, h, Range(w));
  }

  lemma SquareBound(x: int, n: int, h: int)
    requires -h <= x <= h && 0 <= n <= h
    ensures -(h * h) <= n * x <= h * h
  {
    MulOrder(n, x, h);
    MulOrder(n, -h, x);
    MulOrder(h, n, h);
    assert n * -h == -(h * n) && n * h == h * n;
  }

  lemma HalfQuotient(p: int, h: int, r: int)
    requires h > 0 && r == 2 * h && -(h * h) <= p <= h * h
    ensures -h <= p / r < h
  {
    var q := p / r;
    assert p == r * q + p % r;
    assert r * h == h * h + h * h && r * -h == -(h * h) - h * h;
    MulLess(h, 0, h);
    if q >= h { MulOrder(r, h, q); }
    if q < -h { MulLess(r, q, -h); }
  }

  /** The upper half repeats the sign exactly if the product fits. */
  lemma SignedFits(p: int, w: Width)
    requires -Half(w) <= p / Range(w) < Half(w)
    ensures Cut(p / Range(w), w) == (if Top(Cut(p, w), w) then Range(w) - 1 else 0) <==> !Overflows(p, w)
  {
    var q, l := p / Range(w), Cut(p, w);
    assert p == Range(w) * q + l;
    CutNear(q, w);
    CutNear(l, w);
    if q >= 1 { MulOrder(Range(w), 1, q); }
    if q <= -2 { MulOrder(Range(w), q, -2); }
    hide Cut, Range, Half;
  }

  // ---------- The auxiliary carry, shifts and logic ----------

  lemma BitOfSum(x: nat, y: nat, c: nat)
    requires c < 2
    ensures ((Bit(x + y + c, 16) != Bit(x, 16)) != Bit(y, 16)) <==> x % 16 + y % 16 + c >= 16
  {
    var (a, b) := (x / 16, y / 16);
    assert (x + y + c) / 16 == a + b + (if x % 16 + y % 16 + c >= 16 then 1 else 0);
  }

  lemma BitOfDifference(x: int, y: nat, c: nat)
    requires c < 2
    ensures ((Bit(x - y - c, 16) != Bit(x, 16)) != Bit(y, 16)) <==> x % 16 < y % 16 + c
  {
    var (a, b) := (x / 16, y / 16);
    assert (x - y - c) / 16 == a - b - (if x % 16 < y % 16 + c then 1 else 0);
  }

  lemma BitOfWide(v: int)
    ensures Bit(v % TWO_64, 16) == Bit(v, 16) && v % TWO_64 % 16 == v % 16
  {
    var q, r := v / TWO_64, v % TWO_64;
    assert v / 16 == TWO_64 / 16 * q + r / 16;
  }

  /** The auxiliary flag is the carry, or the borrow, between the two lowest hexadecimal digits. */
  lemma AuxiliaryFlag(t: Thunk, y: Wide)
    requires t.op in {ADD, ADC} ==> t.dep2 == if t.op == ADC then FlipLow(y, t.ndep % 2) else y
    requires t.op in {SUB, SBB} ==> t.dep2 == if t.op == SBB then FlipLow(y, t.ndep % 2) else y
    ensures var f, x, c := FlagsOf(t), t.dep1 % 16, if t.op in {ADC, SBB} then t.ndep % 2 else 0;
      && (t.op in {ADD, ADC} ==> (f.a <==> x + y % 16 + c >= 16))
      && (t.op in {SUB, SBB} ==> (f.a <==> x < y % 16 + c))
      && (t.op == INC ==> (f.a <==> x == 0)) && (t.op == DEC ==> (f.a <==> x == 15))
  {
    hide FlagsOf, FlipLow, Bit, Parity, Top, Cut;
    var c := if t.op in {ADC, SBB} then t.ndep % 2 else 0;
    if t.op in {ADD, ADC} {
      OfAddition(t, y);
      BitOfSum(t.dep1, y, c);
      BitOfWide(t.dep1 + y + c);
    } else if t.op in {SUB, SBB} {
      OfSubtraction(t, y);
      BitOfDifference(t.dep1, y, c);
      BitOfWide(t.dep1 - y - c);
    } else if t.op in {INC, DEC} {
      AuxiliaryOfStep(t);
    }
  }

  lemma AuxiliaryOfStep(t: Thunk)
    requires t.op == INC || t.op == DEC
    ensures FlagsOf(t).a <==> t.dep1 % 16 == if t.op == INC then 0 else 15
  {
    OneHasNoBit();
    hide Bit, Parity, Top, Cut, ActionsAdd, ActionsSub, ActionsUmul, ActionsSmul, ActionsCopy, OfResult;
    BitOfDifference(t.dep1, 1, 0);
    BitOfWide(t.dep1 - 1);
    BitOfSum(t.dep1, 1, 0);
    BitOfWide(t.dep1 + 1);
  }

  lemma OneHasNoBit()
    ensures !Bit(1, 16)
  {
  }

  /**
   * The second operand is the value one step before the last: a left shift carries the bit that the last step lost and
   * overflows, as far as that step goes, if doubling does.
   */
  lemma ShiftLeftFlags(t: Thunk)
    requires t.op == SHL && t.dep1 == 2 * t.dep2 % TWO_64
    ensures var f, w := FlagsOf(t), t.width;
      && (f.c <==> 2 * Cut(t.dep2, w) >= Range(w)) && (f.o <==> Overflows(2 * Signed(t.dep2, w), w))
      && (f.z <==> Cut(t.dep1, w) == 0) && (f.s <==> Signed(t.dep1, w) < 0)
  {
    hide ActionsAdd, ActionsSub, ActionsUmul, ActionsSmul, ActionsInc, ActionsDec, ActionsCopy, Parity, Range, Cut;
    var w := t.width;
    AddTruth(t.dep2, t.dep2, 0, w);
    SumFlags(2 * t.dep2, w);
    SignedParts(t.dep1, w);
  }

  /** A right shift carries the bit lost last; shifting in a zero overflows if the number was negative. */
  lemma ShiftRightFlags(t: Thunk, arithmetic: bool)
    requires t.op == SHR && if arithmetic then Signed(t.dep1, t.width) == Signed(t.dep2, t.width) / 2
                            else Cut(t.dep1, t.width) == Cut(t.dep2, t.width) / 2
    ensures var f, w := FlagsOf(t), t.width;
      && (f.c <==> Cut(t.dep2, w) % 2 == 1) && (f.o <==> !arithmetic && Signed(t.dep2, w) < 0)
      && (f.z <==> Cut(t.dep1, w) == 0) && (f.s <==> Signed(t.dep1, w) < 0)
  {
    hide ActionsAdd, ActionsSub, ActionsUmul, ActionsSmul, ActionsInc, ActionsDec, ActionsCopy, Parity, Signed;
    var w := t.width;
    SignedParts(t.dep1, w);
    SignedParts(t.dep2, w);
    LowestBit(t.dep2, w);
    hide Cut;
  }

  lemma LowestBit(x: int, w: Width)
    ensures Cut(x, w) % 2 == x % 2
  {
    var q := CutParts(x, w);
    assert Range(w) == 2 * Half(w);
    assert Range(w) * q == 2 * (Half(w) * q);
    hide Range, Half, Cut;
  }

  lemma LogicFlags(t: Thunk)
    requires t.op == LOGIC
    ensures var f, w := FlagsOf(t), t.width;
      !f.c && !f.o && (f.z <==> Cut(t.dep1, w) == 0) && (f.s <==> Signed(t.dep1, w) < 0)
  {
    hide ActionsAdd, ActionsSub, ActionsUmul, ActionsSmul, ActionsInc, ActionsDec, ActionsCopy, Parity, Cut, Range;
    SignedParts(t.dep1, t.width);
  }

  lemma CutOfProduct(x: int, y: int, p: int, q: int, w: Width)
    ensures Cut((x + Range(w) * p) * (y + Range(w) * q), w) == Cut(x * y, w)
  {
    var n := Range(w);
    hide Range;
    ProductOfParts(x, y, n, p, q);
    AddMultiple(x * y, x * q + p * y + n * (p * q), w);
    hide Cut;
  }

  lemma ProductOfParts(x: int, y: int, n: int, p: int, q: int)
    ensures (x + n * p) * (y + n * q) == x * y + n * (x * q + p * y + n * (p * q))
  {
    var d := n * q;
    assert (x + n * p) * (y + d) == x * y + x * d + n * p * y + n * p * d;
    assert x * d == n * (x * q) && n * p * y == n * (p * y) && n * p * d == n * (n * (p * q));
  }

  /** Both kinds of product have the same low word. */
  lemma LowProduct(x: Wide, y: Wide, w: Width)
    ensures Cut(UnsignedProduct(x, y, w).1, w) == Cut(x * y, w) == Cut(SignedProduct(x, y, w).1, w)
  {
    hide Range, Half, Cut, Signed;
    var p := CutParts(x, w);
    var q := CutParts(y, w);
    CutOfProduct(Cut(x, w), Cut(y, w), p, q, w);
    var r := SignedMultiple(x, w);
    var s := SignedMultiple(y, w);
    CutOfProduct(Signed(x, w), Signed(y, w), r, s, w);
    CutWide(x * y, w);
    CutWide(Signed(x, w) * Signed(y, w), w);
    CutTwice(Cut(x, w) * Cut(y, w), w);
    CutTwice(Signed(x, w) * Signed(y, w), w);
    hide Mull;
    if w == Q { MullLow(x, y); }
  }

  lemma MullLow(x: Wide, y: Wide)
    ensures Mull(x, y).1 == x * y % TWO_64
    ensures Mull(Signed(x, Q), Signed(y, Q)).1 == Signed(x, Q) * Signed(y, Q) % TWO_64
  {
    hide Signed;
  }

  lemma CutTwice(x: int, w: Width)
    ensures Cut(Cut(x, w), w) == Cut(x, w)
  {
    CutNear(Cut(x, w), w);
  }

  lemma SignedMultiple(x: int, w: Width) returns (r: int)
    ensures x == Signed(x, w) + Range(w) * r
  {
    var q := CutParts(x, w);
    SignedParts(x, w);
    Distribute(Range(w), q, 1);
    r := if Top(x, w) then q + 1 else q;
    hide Range, Cut, Signed;
  }

  /** Multiplications take zero and sign from the low word of the product. */
  lemma ProductFlags(t: Thunk)
    requires t.op == UMUL || t.op == SMUL
    ensures var f, w, p := FlagsOf(t), t.width, t.dep1 * t.dep2;
      (f.z <==> Cut(p, w) == 0) && (f.s <==> Signed(p, w) < 0)
  {
    hide Parity, Range, Half, Cut, Mull, UnsignedProduct, SignedProduct, Signed;
    hide ActionsAdd, ActionsSub, ActionsInc, ActionsDec, ActionsCopy;
    var w := t.width;
    LowProduct(t.dep1, t.dep2, w);
    SignedParts(t.dep1 * t.dep2, w);
  }

  // ---------- Conditions ----------

  /** Condition codes; the odd ones negate the even ones in front of them. */
  datatype Cond = O | NO | CB | NB | Z | NZ | BE | NBE | S | NS | P | NP | CL | NL | LE | NLE

  function Holds(cond: Cond, f: Flags): bool {
    match cond
    case O => f.o
    case NO => !f.o
    case CB => f.c
    case NB => !f.c
    case Z => f.z
    case NZ => !f.z
    case BE => f.c || f.z
    case NBE => !(f.c || f.z)
    case S => f.s
    case NS => !f.s
    case P => f.p
    case NP => !f.p
    case CL => f.s != f.o
    case NL => f.s == f.o
    case LE => f.s != f.o || f.z
    case NLE => !(f.s != f.o || f.z)
  }

  /** The helper: one if the condition holds of the thunk's flags. */
  function Condition(cond: Cond, t: Thunk): int {
    if Holds(cond, FlagsOf(t)) then 1 else 0
  }

  /** After a subtraction the conditions are the comparisons their names promise. */
  lemma ConditionsAfterSub(t: Thunk)
    requires t.op == SUB
    ensures var x, y := Cut(t.dep1, t.width), Cut(t.dep2, t.width);
      && (Holds(Z, FlagsOf(t)) <==> x == y) && (Holds(NZ, FlagsOf(t)) <==> x != y)
      && (Holds(CB, FlagsOf(t)) <==> x < y) && (Holds(NB, FlagsOf(t)) <==> x >= y)
      && (Holds(BE, FlagsOf(t)) <==> x <= y) && (Holds(NBE, FlagsOf(t)) <==> x > y)
    ensures var x, y := Signed(t.dep1, t.width), Signed(t.dep2, t.width);
      && (Holds(CL, FlagsOf(t)) <==> x < y) && (Holds(NL, FlagsOf(t)) <==> x >= y)
      && (Holds(LE, FlagsOf(t)) <==> x <= y) && (Holds(NLE, FlagsOf(t)) <==> x > y)
    ensures Holds(S, FlagsOf(t)) == Top(t.dep1 - t.dep2, t.width)
    ensures Holds(NS, FlagsOf(t)) == !Top(t.dep1 - t.dep2, t.width)
  {
    hide FlagsOf, Range, Half, Cut, Signed, Top;
    SubFlags(t, t.dep2);
    SubTruth(t.dep1, t.dep2, 0, t.width);
    SignedParts(t.dep1 - t.dep2, t.width);
    SignedIsCut(t.dep1, t.dep2, t.width);
  }

  lemma SignedIsCut(x: int, y: int, w: Width)
    ensures Signed(x, w) == Signed(y, w) <==> Cut(x, w) == Cut(y, w)
  {
    SignedParts(x, w);
    SignedParts(y, w);
  }
}
