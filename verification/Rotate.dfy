/** Rotating through the carry flag: RCR and RCL. */
module Rotate {
  import opened Wrappers
  import opened Bits
  import opened Amd64Flags
  import opened Words

  /** A bit at a place of weight `weight`. */
  function Weighed(bit: nat, weight: int): int {
    if bit == 0 then 0 else weight
  }

  /** The carry on top of an operand. */
  function Join(carry: nat, arg: nat, w: Width): (v: nat)
    ensures v < 2 * Range(w)
  {
    Weighed(carry, Range(w)) + Cut(arg, w)
  }

  /** One step of the rotation right. */
  function Right(v: nat, w: Width): (r: nat)
    requires v < 2 * Range(w)
    ensures r < 2 * Range(w)
  {
    v / 2 + Weighed(v % 2, Range(w))
  }

  function Left(v: nat, w: Width): (r: nat)
    requires v < 2 * Range(w)
    ensures r < 2 * Range(w)
  {
    if v >= Range(w) then 2 * (v - Range(w)) + 1 else 2 * v
  }

  function Rights(v: nat, k: nat, w: Width): (r: nat)
    requires v < 2 * Range(w)
    ensures r < 2 * Range(w)
    decreases k
  {
    if k == 0 then v else Rights(Right(v, w), k - 1, w)
  }

  function Lefts(v: nat, k: nat, w: Width): (r: nat)
    requires v < 2 * Range(w)
    ensures r < 2 * Range(w)
    decreases k
  {
    if k == 0 then v else Lefts(Left(v, w), k - 1, w)
  }

  // ---------- The loops ----------

  function Amount(amount: Wide, w: Width): nat {
    amount % (if w == Q then 64 else 32) % (Size(w) + 1)
  }

  /** How often to rotate: narrow operands reduce the masked amount, a 64-bit operand does not need to. */
  method Count(amount: Wide, w: Width) returns (count: nat)
    ensures count == Amount(amount, w)
  {
    count := amount % (if w == Q then 64 else 32);
    if w != Q { count := Reduce(count, Size(w) + 1); }
  }

  method Reduce(count0: nat, n: nat) returns (count: nat)
    requires n > 0
    ensures count == count0 % n
  {
    count := count0;
    while count >= n
      invariant count % n == count0 % n
    {
      TakeAway(count, n);
      count := count - n;
    }
  }

  lemma TakeAway(x: nat, n: nat)
    requires 0 < n <= x
    ensures (x - n) % n == x % n
  {
    var q := x / n;
    assert x - n == n * (q - 1) + x % n;
    DivisionIs(x - n, n, q - 1, x % n);
  }

  method RotateRight(arg0: Wide, carry0: nat, count: nat, w: Width) returns (arg: Wide, carry: nat)
    requires carry0 < 2
    ensures carry < 2 && Join(carry, arg, w) == Rights(Join(carry0, arg0, w), count, w)
    ensures if count == 0 then arg == arg0 else arg < Range(w)
  {
    hide Cut, Range, Half, Join, Right, Left, Rights, Lefts;
    arg, carry := arg0, carry0;
    for i := 0 to count
      invariant carry < 2 && Rights(Join(carry, arg, w), count - i, w) == Rights(Join(carry0, arg0, w), count, w)
      invariant if i == 0 then arg == arg0 else arg < Range(w)
    {
      RightStep(carry, arg, w);
      NextRight(Join(carry, arg, w), count - i, w);
      WidthFits(w);
      var tempcf := arg % 2;
      arg := arg / 2 % Half(w) + Weighed(carry, Half(w));
      carry := tempcf;
    }
    NoRotation(Join(carry, arg, w), w);
  }

  lemma RightStep(carry: nat, arg: Wide, w: Width)
    requires carry < 2
    ensures var next := arg / 2 % Half(w) + Weighed(carry, Half(w));
      && 0 <= next < Range(w) && Join(arg % 2, next, w) == Right(Join(carry, arg, w), w)
  {
    hide Cut, Range, Half;
    var c := Cut(arg, w);
    var q := CutParts(arg, w);
    HalfOf(arg, q, c, Half(w));
    Evens(arg, Half(w) * q, c);
    Evens(Join(carry, arg, w), Weighed(carry, Half(w)), c);
    CutNear(c / 2 + Weighed(carry, Half(w)), w);
  }

  lemma HalfOf(x: int, q: int, c: nat, h: nat)
    requires x == 2 * h * q + c && c < 2 * h
    ensures x / 2 % h == c / 2 && x == 2 * (h * q) + c
  {
    Regroup(2, h, q);
    DivisionIs(x / 2, h, q, c / 2);
  }

  lemma Evens(x: int, m: int, c: int)
    requires x == 2 * m + c
    ensures x / 2 == m + c / 2 && x % 2 == c % 2
  {
  }

  method RotateLeft(arg0: Wide, carry0: nat, count: nat, w: Width) returns (arg: Wide, carry: nat)
    requires carry0 < 2
    ensures carry < 2 && Join(carry, arg, w) == Lefts(Join(carry0, arg0, w), count, w)
    ensures if count == 0 then arg == arg0 else arg < Range(w)
  {
    hide Cut, Range, Half, Join, Right, Left, Rights, Lefts;
    arg, carry := arg0, carry0;
    for i := 0 to count
      invariant carry < 2 && Lefts(Join(carry, arg, w), count - i, w) == Lefts(Join(carry0, arg0, w), count, w)
      invariant if i == 0 then arg == arg0 else arg < Range(w)
    {
      LeftStep(carry, arg, w);
      NextLeft(Join(carry, arg, w), count - i, w);
      CutIs(2 * arg + carry, w);
      var tempcf := arg / Half(w) % 2;
      arg := (2 * arg + carry) % Range(w);
      carry := tempcf;
    }
    NoRotation(Join(carry, arg, w), w);
  }

  lemma LeftStep(carry: nat, arg: Wide, w: Width)
    requires carry < 2
    ensures var next := (2 * arg + carry) % Range(w);
      && Join(arg / Half(w) % 2, next, w) == Left(Join(carry, arg, w), w)
  {
    hide Cut, Range, Half;
    var c, h := Cut(arg, w), Half(w);
    var q := CutParts(arg, w);
    var top := if c >= h then 1 else 0;
    Regroup(h, 2, q);
    DivisionIs(arg, h, 2 * q + top, c - Weighed(top, h));
    Evens(2 * q + top, q, top);
    CutOfSum(arg, arg, carry, w);
    CutNear(2 * c + carry, w);
    CutIs(2 * arg + carry, w);
    CutNear(Cut(2 * arg + carry, w), w);
  }

  lemma NextRight(v: nat, k: nat, w: Width)
    requires v < 2 * Range(w) && k > 0
    ensures Rights(v, k, w) == Rights(Right(v, w), k - 1, w)
  {
  }

  lemma NextLeft(v: nat, k: nat, w: Width)
    requires v < 2 * Range(w) && k > 0
    ensures Lefts(v, k, w) == Lefts(Left(v, w), k - 1, w)
  {
  }

  lemma NoRotation(v: nat, w: Width)
    requires v < 2 * Range(w)
    ensures Rights(v, 0, w) == v && Lefts(v, 0, w) == v
  {
  }

  lemma WidthFits(w: Width)
    ensures Range(w) <= TWO_64
  {
  }

  lemma CutIs(x: int, w: Width)
    ensures x % Range(w) == Cut(x, w) < TWO_64
  {
  }

  // ---------- The helpers ----------

  /** The width of an operand of so many bytes. */
  function WidthOf(size: int): (w: Option<Width>)
    ensures w.Some? <==> size in {1, 2, 4, 8}
    ensures w.Some? ==> Size(w.value) == 8 * size
  {
    match size case 1 => Some(B) case 2 => Some(W) case 4 => Some(L) case 8 => Some(Q) case _ => None
  }

  /** The flags with carry and overflow replaced. */
  function SetFlags(rflags: Wide, carry: nat, overflow: nat): Wide
    requires carry < 2 && overflow < 2
  {
    ShlSize(1, Q);
    ReplaceFits(rflags, 0, carry, 64);
    ReplaceFits(ReplaceBit(rflags, 0, carry), 11, overflow, 64);
    ReplaceBit(ReplaceBit(rflags, 0, carry), 11, overflow)
  }

  /** Operand and carry after rotating. */
  function Rcr(arg: Wide, amount: Wide, rflags: Wide, w: Width): (r: nat)
    ensures r < 2 * Range(w)
  {
    Rights(Join(rflags % 2, arg, w), Amount(amount, w), w)
  }

  function Rcl(arg: Wide, amount: Wide, rflags: Wide, w: Width): (r: nat)
    ensures r < 2 * Range(w)
  {
    Lefts(Join(rflags % 2, arg, w), Amount(amount, w), w)
  }

  function OneIf(b: bool): nat {
    if b then 1 else 0
  }

  /** The carry and the operand of a joined word. */
  predicate IsSplit(v: nat, carry: nat, arg: nat, w: Width) {
    carry == OneIf(v >= Range(w)) && Cut(arg, w) == v - Weighed(carry, Range(w))
  }

  lemma JoinSplits(v: nat, carry: nat, arg: nat, w: Width)
    requires v < 2 * Range(w) && carry < 2
    ensures v == Join(carry, arg, w) <==> IsSplit(v, carry, arg, w)
  {
    hide Cut, Range;
  }

  /** A negative size asks for the flags, a positive one for the value; other sizes are refused. */
  method CalculateRCR(arg: Wide, amount: Wide, rflags: Wide, szIN: int) returns (r: Option<Wide>)
    ensures match WidthOf(if szIN < 0 then -szIN else szIN)
      case None => r == None
      case Some(w) =>
        var v := Rcr(arg, amount, rflags, w);
        if szIN < 0 then
          r == Some(SetFlags(rflags, OneIf(v >= Range(w)), OneIf(Top(arg, w) != (rflags % 2 == 1))))
        else
          && r.Some? && IsSplit(v, OneIf(v >= Range(w)), r.value, w)
          && if Amount(amount, w) == 0 then r.value == arg else r.value < Range(w)
  {
    hide Rights, Cut, Range, SetFlags, Top, Join;
    var size := WidthOf(if szIN < 0 then -szIN else szIN);
    if size == None { return None; }
    var w := size.value;
    var count := Count(amount, w);
    var cf := rflags % 2;
    var of := OneIf(Top(arg, w) != (cf == 1));
    var value, carry := RotateRight(arg, cf, count, w);
    JoinSplits(Rcr(arg, amount, rflags, w), carry, value, w);
    r := Some(if szIN < 0 then SetFlags(rflags, carry, of) else value);
  }

  method CalculateRCL(arg: Wide, amount: Wide, rflags: Wide, szIN: int) returns (r: Option<Wide>)
    ensures match WidthOf(if szIN < 0 then -szIN else szIN)
      case None => r == None
      case Some(w) =>
        var v := Rcl(arg, amount, rflags, w);
        var carry := OneIf(v >= Range(w));
        if szIN < 0 then
          r == Some(SetFlags(rflags, carry, OneIf((v - Weighed(carry, Range(w)) >= Half(w)) != (carry == 1))))
        else
          && r.Some? && IsSplit(v, carry, r.value, w)
          && if Amount(amount, w) == 0 then r.value == arg else r.value < Range(w)
  {
    hide Lefts, Cut, Range, Half, SetFlags, Join;
    var size := WidthOf(if szIN < 0 then -szIN else szIN);
    if size == None { return None; }
    var w := size.value;
    var count := Count(amount, w);
    var value, cf := RotateLeft(arg, rflags % 2, count, w);
    JoinSplits(Rcl(arg, amount, rflags, w), cf, value, w);
    var of := OneIf(Top(value, w) != (cf == 1));
    r := Some(if szIN < 0 then SetFlags(rflags, cf, of) else value);
  }

  // ---------- Rotation of the joined word ----------

  lemma FlagsKept(rflags: Wide, carry: nat, overflow: nat, i: nat)
    requires carry < 2 && overflow < 2
    ensures BitOf(SetFlags(rflags, carry, overflow), i)
         == if i == 0 then carry else if i == 11 then overflow else BitOf(rflags, i)
  {
    BitReplaced(rflags, 0, carry, i);
    BitReplaced(ReplaceBit(rflags, 0, carry), 11, overflow, i);
    hide ReplaceBit, Shr;
  }

  /** One step moves every bit down by one place and the lowest to the top. */
  lemma RightBit(v: nat, w: Width, i: nat)
    requires v < 2 * Range(w) && i <= Size(w)
    ensures BitOf(Right(v, w), i) == if i == Size(w) then BitOf(v, 0) else BitOf(v, i + 1)
  {
    var n, b := Size(w), v % 2;
    ShlSize(1, w);
    ShlSize(b, w);
    ShrStart(v, i);
    hide Shl, Shr, Range;
    ShrBelow(v / 2, b, n, i);
    if i == n {
      ShrOf(0, v / 2, n);
      ShlNothing(n);
      ShlByNothing(b);
    } else {
      NextShift(b, n - i - 1);
    }
  }

  lemma ShrStart(v: nat, i: nat)
    ensures Shr(v, 0) == v && Shr(v, i + 1) == Shr(v / 2, i)
  {
  }

  /** The place k places up from a place, around the end. */
  function Around(i: nat, k: nat, w: Width): (place: nat)
    ensures place <= Size(w)
  {
    (i + k) % (Size(w) + 1)
  }

  /** Rotating right by k is the rotation of all Size + 1 places by k. */
  lemma {:induction false} RightsRotate(v: nat, k: nat, w: Width, i: nat)
    requires v < 2 * Range(w) && i <= Size(w)
    ensures BitOf(Rights(v, k, w), i) == BitOf(v, Around(i, k, w))
    decreases k
  {
    hide Right, Range, Shr;
    if k > 0 {
      RightsRotate(Right(v, w), k - 1, w, i);
      RightBit(v, w, Around(i, k - 1, w));
      AddOne(i + k - 1, Size(w) + 1);
    }
  }

  lemma AddOne(x: nat, n: nat)
    requires n > 1
    ensures (x + 1) % n == if x % n == n - 1 then 0 else x % n + 1
  {
    var q, r := x / n, x % n;
    if r == n - 1 { DivisionIs(x + 1, n, q + 1, 0); } else { DivisionIs(x + 1, n, q, r + 1); }
  }

  lemma LeftUndoesRight(v: nat, w: Width)
    requires v < 2 * Range(w)
    ensures Left(Right(v, w), w) == v && Right(Left(v, w), w) == v
  {
    hide Range;
  }

  lemma {:induction false} RightsLast(v: nat, k: nat, w: Width)
    requires v < 2 * Range(w) && k > 0
    ensures Rights(v, k, w) == Right(Rights(v, k - 1, w), w)
    decreases k
  {
    hide Right, Range;
    if k > 1 { RightsLast(Right(v, w), k - 1, w); }
  }

  lemma {:induction false} LeftsUndoRights(v: nat, k: nat, w: Width)
    requires v < 2 * Range(w)
    ensures Lefts(Rights(v, k, w), k, w) == v
    decreases k
  {
    hide Right, Left, Range;
    if k > 0 {
      RightsLast(v, k, w);
      LeftUndoesRight(Rights(v, k - 1, w), w);
      LeftsUndoRights(v, k - 1, w);
    }
  }

  /** After Size + 1 steps every bit is back, so reducing the count changes nothing. */
  lemma FullTurn(v: nat, k: nat, w: Width)
    requires v < 2 * Range(w)
    ensures Rights(v, k, w) == Rights(v, Around(0, k, w), w)
  {
    hide Shl, Shr, Rights, Range, Around;
    var few := Around(0, k, w);
    forall i: nat | i <= Size(w) ensures BitOf(Rights(v, k, w), i) == BitOf(Rights(v, few, w), i) {
      RightsRotate(v, k, w, i);
      RightsRotate(v, few, w, i);
      AroundTwice(i, k, w);
    }
    JoinedWidth(w);
    SameBits(Rights(v, k, w), Rights(v, few, w), Size(w) + 1);
  }

  lemma JoinedWidth(w: Width)
    ensures Shl(1, Size(w) + 1) == 2 * Range(w)
  {
    ShlSize(1, w);
    NextShift(1, Size(w));
    hide Shl;
  }

  lemma AroundTwice(i: nat, k: nat, w: Width)
    ensures Around(i, Around(0, k, w), w) == Around(i, k, w)
  {
    hide Size;
    ModAdd(i, k, Size(w) + 1);
  }

  lemma ModAdd(i: nat, k: nat, n: nat)
    requires n > 0
    ensures (i + k) % n == (i + k % n) % n
  {
    var q, s := k / n, i + k % n;
    assert s == n * (s / n) + s % n && k == n * q + k % n;
    Distribute(n, q, s / n);
    DivisionIs(i + k, n, q + s / n, s % n);
  }

  lemma {:induction false} LeftsLast(v: nat, k: nat, w: Width)
    requires v < 2 * Range(w) && k > 0
    ensures Lefts(v, k, w) == Left(Lefts(v, k - 1, w), w)
    decreases k
  {
    hide Left, Range;
    if k > 1 { LeftsLast(Left(v, w), k - 1, w); }
  }

  lemma {:induction false} RightsUndoLefts(v: nat, k: nat, w: Width)
    requires v < 2 * Range(w)
    ensures Rights(Lefts(v, k, w), k, w) == v
    decreases k
  {
    hide Right, Left, Range;
    if k > 0 {
      LeftsLast(v, k, w);
      LeftUndoesRight(Lefts(v, k - 1, w), w);
      RightsUndoLefts(v, k - 1, w);
    }
  }

  /** Rotating left by k moves every bit up by k places, around the end. */
  lemma LeftsRotate(v: nat, k: nat, w: Width, i: nat)
    requires v < 2 * Range(w) && i <= Size(w)
    ensures BitOf(Lefts(v, k, w), Around(i, k, w)) == BitOf(v, i)
  {
    hide Lefts, Rights, Range, Shr;
    RightsUndoLefts(v, k, w);
    RightsRotate(Lefts(v, k, w), k, w, i);
  }

  // ---------- What the count and the flags mean ----------

  lemma AmountIs(amount: Wide, w: Width)
    ensures Amount(amount, w) == Around(0, LowBits(amount, if w == Q then 6 else 5), w)
  {
    var n := if w == Q then 6 else 5;
    assert Shl(1, 5) == 32 && Shl(1, 6) == 64;
    LowBitsRest(amount, n);
    ShlTimes(Shr(amount, n), n);
    hide LowBits, Shl, Shr;
    DivisionIs(amount, if w == Q then 64 else 32, Shr(amount, n), LowBits(amount, n));
  }

  /** Operand and carry are rotated as far as the low five bits of the amount say, or six for a 64-bit operand. */
  lemma LowBitsCount(arg: Wide, amount: Wide, rflags: Wide, w: Width)
    ensures var k := LowBits(amount, if w == Q then 6 else 5);
      && Rcr(arg, amount, rflags, w) == Rights(Join(rflags % 2, arg, w), k, w)
      && Rcl(arg, amount, rflags, w) == Lefts(Join(rflags % 2, arg, w), k, w)
  {
    AmountIs(amount, w);
    hide Shl, Shr, Join, Rights, Lefts, Range, Around, Amount, LowBits;
    var v, k := Join(rflags % 2, arg, w), LowBits(amount, if w == Q then 6 else 5);
    FullTurn(v, k, w);
    FullTurnLeft(v, k, w);
  }

  lemma FullTurnLeft(v: nat, k: nat, w: Width)
    requires v < 2 * Range(w)
    ensures Lefts(v, k, w) == Lefts(v, Around(0, k, w), w)
  {
    hide Lefts, Rights, Range, Around;
    var u := Lefts(v, k, w);
    RightsUndoLefts(v, k, w);
    FullTurn(u, k, w);
    LeftsUndoRights(u, Around(0, k, w), w);
  }

  /** After a rotation right by one, overflow tells that the two highest bits of the result differ. */
  lemma RcrOverflow(arg: Wide, amount: Wide, rflags: Wide, w: Width)
    requires Amount(amount, w) == 1
    ensures var v, n := Rcr(arg, amount, rflags, w), Size(w);
      (Top(arg, w) != (rflags % 2 == 1)) == (BitOf(v, n - 1) != BitOf(v, n - 2))
  {
    var carry, n := rflags % 2, Size(w);
    var v := Join(carry, arg, w);
    JoinBits(carry, arg, w);
    hide Join, Range, Shr, Top, Rights, Amount, Around, BitOf;
    RightsRotate(v, 1, w, n - 1);
    RightsRotate(v, 1, w, n - 2);
    NextPlace(n - 1, w);
    NextPlace(n - 2, w);
  }

  lemma NextPlace(i: nat, w: Width)
    requires i < Size(w)
    ensures Around(i, 1, w) == i + 1
  {
  }

  /** A joined word has the carry at its top, and below it the operand's highest bit. */
  lemma JoinBits(carry: nat, arg: nat, w: Width)
    requires carry < 2
    ensures var v, n := Join(carry, arg, w), Size(w);
      BitOf(v, n) == carry && (BitOf(v, n - 1) == 1 <==> Top(arg, w))
  {
    var n, c := Size(w), Cut(arg, w);
    ShlSize(carry, w);
    ShlSize(1, w);
    TopIsBit(c, w);
    CutCut(arg, w);
    hide Shl, Shr, Range, Cut, Top;
    ShrOf(carry, c, n);
    ShrBelow(c, carry, n, n - 1);
    NextShift(carry, 0);
    ShlByNothing(carry);
  }

  /** Rotating left by the same amount, with the carry the rotation right produced, restores operand and carry. */
  lemma RclUndoesRcr(arg: Wide, amount: Wide, rflags: Wide, w: Width, value: Wide, flags: Wide)
    requires IsSplit(Rcr(arg, amount, rflags, w), flags % 2, value, w)
    ensures IsSplit(Rcl(value, amount, flags, w), rflags % 2, arg, w)
  {
    hide IsSplit, Join, Lefts, Rights, Range;
    JoinSplits(Rcr(arg, amount, rflags, w), flags % 2, value, w);
    LeftsUndoRights(Join(rflags % 2, arg, w), Amount(amount, w), w);
    JoinSplits(Rcl(value, amount, flags, w), rflags % 2, arg, w);
  }
}
