/** Numbers as bits: shifts, single bits, and little-endian byte arrays. */
module Bits {
  const TWO_64 := 0x1_0000_0000_0000_0000

  type Byte = b: int | 0 <= b < 256

  /** `v << n` without a width. */
  function Shl(v: int, n: nat): (r: int)
    ensures v >= 0 ==> r >= v
    ensures v == 0 ==> r == 0
  {
    if n == 0 then v else 2 * Shl(v, n - 1)
  }

  /** `v >> n`. */
  function Shr(v: nat, n: nat): nat {
    if n == 0 then v else Shr(v / 2, n - 1)
  }

  function BitOf(v: nat, n: nat): (b: nat)
    ensures b < 2
  {
    Shr(v, n) % 2
  }

  lemma ShlNothing(n: nat)
    ensures Shl(0, n) == 0
  {
  }

  lemma ShlByNothing(v: int)
    ensures Shl(v, 0) == v
  {
  }

  lemma NextShift(v: int, n: nat)
    ensures Shl(v, n + 1) == 2 * Shl(v, n)
  {
  }

  lemma {:induction false} ShlAdd(a: int, b: int, n: nat)
    ensures Shl(a + b, n) == Shl(a, n) + Shl(b, n)
  {
    if n > 0 { ShlAdd(a, b, n - 1); }
  }

  lemma {:induction false} ShlDouble(v: int, n: nat)
    ensures Shl(2 * v, n) == 2 * Shl(v, n)
  {
    if n > 0 { ShlDouble(v, n - 1); }
  }

  lemma {:induction false} ShlTwice(v: int, m: nat, n: nat)
    ensures Shl(Shl(v, m), n) == Shl(v, m + n)
  {
    if n > 0 { ShlTwice(v, m, n - 1); }
  }

  lemma {:induction false} ShlOrder(a: int, b: int, n: nat)
    requires a <= b
    ensures Shl(a, n) <= Shl(b, n)
  {
    if n > 0 { ShlOrder(a, b, n - 1); }
  }

  lemma {:induction false} ShrShrinks(v: nat, n: nat)
    ensures Shr(v, n) <= v
  {
    if n > 0 { ShrShrinks(v / 2, n - 1); }
  }

  lemma {:induction false} ShrTwice(v: nat, m: nat, n: nat)
    ensures Shr(Shr(v, m), n) == Shr(v, m + n)
  {
    if m > 0 { ShrTwice(v / 2, m - 1, n); }
  }

  /** A right shift drops less than a unit of what is kept. */
  lemma {:induction false} ShrKeeps(v: nat, n: nat)
    ensures Shl(Shr(v, n), n) <= v < Shl(Shr(v, n), n) + Shl(1, n)
  {
    if n > 0 {
      ShrKeeps(v / 2, n - 1);
    }
  }

  lemma {:induction false} ShrOf(q: nat, r: nat, n: nat)
    requires r < Shl(1, n)
    ensures Shl(q, n) + r >= 0 && Shr(Shl(q, n) + r, n) == q
  {
    if n > 0 {
      ShrOf(q, r / 2, n - 1);
    }
  }

  lemma {:induction false} ShrOrder(a: nat, b: nat, n: nat)
    requires a <= b
    ensures Shr(a, n) <= Shr(b, n)
  {
    if n > 0 { ShrOrder(a / 2, b / 2, n - 1); }
  }

  /** One bit more. */
  lemma ShrStep(v: nat, n: nat)
    ensures Shr(v, n) == 2 * Shr(v, n + 1) + BitOf(v, n)
  {
    ShrTwice(v, n, 1);
    assert Shr(Shr(v, n), 1) == Shr(Shr(v, n) / 2, 0);
  }

  /** The lowest bits do not depend on what stands above them. */
  lemma {:induction false} ShrBelow(c: nat, rest: nat, k: nat, n: nat)
    requires n <= k
    ensures Shr(c + Shl(rest, k), n) == Shr(c, n) + Shl(rest, k - n)
  {
    if n > 0 {
      ShrBelow(c / 2, rest, k - 1, n - 1);
      assert (c + 2 * Shl(rest, k - 1)) / 2 == c / 2 + Shl(rest, k - 1);
    }
  }

  /** The number with one bit replaced. */
  function ReplaceBit(v: nat, k: nat, bit: nat): nat {
    if k == 0 then v - v % 2 + bit else v % 2 + 2 * ReplaceBit(v / 2, k - 1, bit)
  }

  lemma {:induction false} BitReplaced(v: nat, k: nat, bit: nat, i: nat)
    requires bit < 2
    ensures BitOf(ReplaceBit(v, k, bit), i) == if i == k then bit else BitOf(v, i)
  {
    if k == 0 {
      assert (v - v % 2 + bit) / 2 == v / 2;
    } else {
      assert (v % 2 + 2 * ReplaceBit(v / 2, k - 1, bit)) / 2 == ReplaceBit(v / 2, k - 1, bit);
      if i > 0 { BitReplaced(v / 2, k - 1, bit, i - 1); }
    }
  }

  lemma {:induction false} ReplaceFits(v: nat, k: nat, bit: nat, n: nat)
    requires v < Shl(1, n) && k < n && bit < 2
    ensures ReplaceBit(v, k, bit) < Shl(1, n)
  {
    if k > 0 { ReplaceFits(v / 2, k - 1, bit, n - 1); }
  }

  /** Numbers with the same bits are the same. */
  lemma {:induction false} SameBits(v: nat, u: nat, n: nat)
    requires v < Shl(1, n) && u < Shl(1, n)
    requires forall i: nat :: i < n ==> BitOf(v, i) == BitOf(u, i)
    ensures v == u
  {
    if n > 0 {
      assert BitOf(v, 0) == v % 2 && BitOf(u, 0) == u % 2;
      forall i: nat | i < n - 1 ensures BitOf(v / 2, i) == BitOf(u / 2, i) {
        assert BitOf(v, i + 1) == BitOf(v / 2, i) && BitOf(u, i + 1) == BitOf(u / 2, i);
      }
      SameBits(v / 2, u / 2, n - 1);
    }
  }

  /** The number whose little-endian bytes these are. */
  function Value(s: seq<Byte>): nat {
    if s == [] then 0 else s[0] + 256 * Value(s[1..])
  }

  function ReadBit(s: seq<Byte>, n: nat): nat
    requires n / 8 < |s|
  {
    Shr(s[n / 8], n % 8) % 2
  }

  /** Exchanging a bit keeps the width. */
  lemma {:induction false} BitFits(c: nat, k: nat, w: nat, b: nat)
    requires k < w && c < Shl(1, w) && b < 2
    ensures 0 <= c - Shl(BitOf(c, k), k) + Shl(b, k) < Shl(1, w)
  {
    if k > 0 { BitFits(c / 2, k - 1, w - 1, b); }
  }

  lemma ByteWidth()
    ensures Shl(1, 8) == 256
  {
    assert Shl(1, 4) == 16;
  }

  function WriteBit(s: seq<Byte>, n: nat, b: nat): (r: seq<Byte>)
    requires n / 8 < |s| && b < 2
    ensures |r| == |s|
  {
    var c := s[n / 8];
    ByteWidth();
    BitFits(c, n % 8, 8, b);
    s[n / 8 := c - Shl(BitOf(c, n % 8), n % 8) + Shl(b, n % 8)]
  }

  lemma ShlByte(v: int)
    ensures Shl(v, 8) == 256 * v
  {
    assert Shl(v, 1) == 2 * v;
    assert Shl(v, 3) == 2 * Shl(v, 2) == 4 * Shl(v, 1);
    assert Shl(v, 5) == 2 * Shl(v, 4) == 4 * Shl(v, 3);
    assert Shl(v, 7) == 2 * Shl(v, 6) == 4 * Shl(v, 5);
  }

  lemma ShlSixteen(q: int)
    ensures Shl(q, 16) == 0x1_0000 * q
  {
    ShlByte(q);
    ShlTwice(q, 8, 8);
    ShlByte(256 * q);
  }

  lemma ShlThirtyTwo(q: int)
    ensures Shl(q, 32) == 0x1_0000_0000 * q
  {
    ShlSixteen(q);
    ShlTwice(q, 16, 16);
    ShlSixteen(0x1_0000 * q);
  }

  lemma ShrByte(c: Byte, rest: nat)
    ensures Shr(c + 256 * rest, 8) == rest
  {
    ShlByte(rest);
    ByteWidth();
    ShrOf(rest, c, 8);
  }

  /** Reading a bit of the array reads the bit of the number. */
  lemma {:induction false} ReadBitOfValue(s: seq<Byte>, n: nat)
    requires n / 8 < |s|
    ensures ReadBit(s, n) == BitOf(Value(s), n)
  {
    if n < 8 {
      BitOfLowByte(s[0], Value(s[1..]), n);
    } else {
      ReadBitOfValue(s[1..], n - 8);
      BitOfHighByte(s[0], Value(s[1..]), n);
      hide Shr;
      assert (n - 8) / 8 == n / 8 - 1 && (n - 8) % 8 == n % 8;
    }
  }

  lemma BitOfLowByte(c: Byte, rest: nat, n: nat)
    requires n < 8
    ensures BitOf(c + 256 * rest, n) == BitOf(c, n)
  {
    assert Shl(rest, 8 - n) == 2 * Shl(rest, 7 - n);
    hide Shr, Shl;
    ShlByte(rest);
    ShrBelow(c, rest, 8, n);
  }

  lemma BitOfHighByte(c: Byte, rest: nat, n: nat)
    requires n >= 8
    ensures BitOf(c + 256 * rest, n) == BitOf(rest, n - 8)
  {
    ShrByte(c, rest);
    ShrTwice(c + 256 * rest, 8, n - 8);
  }

  /** Changing a byte changes the number by the byte's weight. */
  lemma {:induction false} ValueOfUpdate(s: seq<Byte>, i: nat, c: Byte)
    requires i < |s|
    ensures Value(s[i := c]) == Value(s) + Shl(c - s[i], 8 * i)
  {
    var t := s[i := c];
    if i > 0 {
      ValueOfUpdate(s[1..], i - 1, c);
      assert t[1..] == s[1..][i - 1 := c];
      ShlByte(Shl(c - s[i], 8 * (i - 1)));
      ShlTwice(c - s[i], 8 * (i - 1), 8);
    } else {
      assert t[1..] == s[1..];
    }
  }

  /** Writing a bit replaces that bit of the number. */
  lemma ValueOfWriteBit(s: seq<Byte>, n: nat, b: nat)
    requires n / 8 < |s| && b < 2
    ensures Value(WriteBit(s, n, b)) == Value(s) - Shl(BitOf(Value(s), n), n) + Shl(b, n)
  {
    var i, k := n / 8, n % 8;
    ReadBitOfValue(s, n);
    hide Value, Shl, Shr;
    var was, c := BitOf(s[i], k), WriteBit(s, n, b)[i];
    ValueOfUpdate(s, i, c);
    ShlDifference(b, was, k, 8 * i);
  }

  lemma ShlDifference(b: nat, was: nat, k: nat, n: nat)
    ensures Shl(Shl(b, k) - Shl(was, k), n) == Shl(b, k + n) - Shl(was, k + n)
  {
    ShlAdd(Shl(b, k), -Shl(was, k), n);
    ShlNegative(Shl(was, k), n);
    ShlTwice(b, k, n);
    ShlTwice(was, k, n);
  }

  lemma {:induction false} ShlNegative(v: int, n: nat)
    ensures Shl(-v, n) == -Shl(v, n)
  {
    if n > 0 { ShlNegative(v, n - 1); }
  }

  /** A truth value as a bit. */
  function Number(b: bool): nat {
    if b then 1 else 0
  }

  lemma {:induction false} ZeroBits(i: nat)
    ensures BitOf(0, i) == 0
  {
    if i > 0 { ZeroBits(i - 1); }
  }

  lemma {:induction false} OneBit(b: nat, p: nat, i: nat)
    requires b < 2
    ensures Shl(b, p) >= 0 && BitOf(Shl(b, p), i) == if i == p then b else 0
  {
    if p == 0 {
      if i > 0 { ZeroBits(i - 1); }
    } else if i > 0 {
      OneBit(b, p - 1, i - 1);
    }
  }

  // ---------- Bits by division ----------

  lemma {:induction false} MulLess(p: nat, x: int, y: int)
    requires x < y
    ensures p * x + p <= p * y
    decreases y - x
  {
    if x + 1 < y {
      MulLess(p, x, y - 1);
      assert p * y == p * (y - 1) + p;
    } else {
      assert p * y == p * x + p;
    }
  }

  lemma DivisionIs(x: int, d: nat, q: int, r: int)
    requires 0 <= r < d && x == d * q + r
    ensures x / d == q && x % d == r
  {
    var q' := x / d;
    assert x == d * q' + x % d;
    if q' < q { MulLess(d, q', q); }
    if q < q' { MulLess(d, q, q'); }
  }

  lemma {:induction false} ShlUnit(n: nat)
    ensures Shl(1, n) > 0
  {
  }

  lemma ShlTimes(q: nat, n: nat)
    ensures Shl(q, n) == Shl(1, n) * q
  {
    if n > 0 { ShlTimes(q, n - 1); }
  }

  lemma ShrIs(v: nat, n: nat, d: nat)
    requires d == Shl(1, n)
    ensures d > 0 && Shr(v, n) == v / d && v == d * Shr(v, n) + v % d
  {
    hide Shl, Shr;
    ShlUnit(n);
    ShrKeeps(v, n);
    ShlTimes(Shr(v, n), n);
    DivisionIs(v, d, Shr(v, n), v - Shl(Shr(v, n), n));
  }

  /** The bits of a number put together from a low and a high part. */
  lemma BitOfJoined(c: nat, rest: nat, k: nat, n: nat)
    requires c < Shl(1, k)
    ensures BitOf(c + Shl(rest, k), n) == if n < k then BitOf(c, n) else BitOf(rest, n - k)
  {
    if n < k {
      ShrBelow(c, rest, k, n);
      assert Shl(rest, k - n) == 2 * Shl(rest, k - n - 1);
    } else {
      ShrOf(rest, c, k);
      ShrTwice(c + Shl(rest, k), k, n - k);
    }
  }

  /** The bits of a remainder. */
  lemma BitOfRemainder(v: nat, k: nat, d: nat, n: nat)
    requires d == Shl(1, k)
    ensures d > 0 && BitOf(v % d, n) == if n < k then BitOf(v, n) else 0
  {
    ShrIs(v, k, d);
    ShlTimes(Shr(v, k), k);
    BitOfJoined(v % d, Shr(v, k), k, n);
    BitOfJoined(v % d, 0, k, n);
    hide Shr, Shl;
    ShlNothing(k);
    if n >= k { ZeroBits(n - k); }
  }

  predicate Ones(v: nat, low: nat, high: nat) {
    forall n: nat :: low <= n < high ==> BitOf(v, n) == 1
  }

  /** All bits in a range are set exactly if the number that they make is the largest. */
  lemma {:induction false} OnesAre(v: nat, low: nat, k: nat, d: nat)
    requires d == Shl(1, k)
    ensures d > 0 && (Shr(v, low) % d == d - 1 <==> Ones(v, low, low + k))
    decreases k
  {
    ShlUnit(k);
    if k > 0 {
      OnesAre(v, low + 1, k - 1, d / 2);
      ShrStep(v, low);
      hide Shl, Shr;
      HalvesRemain(Shr(v, low), d / 2);
    }
  }

  lemma HalvesRemain(x: nat, m: nat)
    requires m > 0
    ensures x % (2 * m) == x % 2 + 2 * (x / 2 % m)
  {
    var q, r := x / 2 / m, x / 2 % m;
    assert x / 2 == m * q + r;
    assert 2 * (m * q) == 2 * m * q;
    DivisionIs(x, 2 * m, q, x % 2 + 2 * r);
  }
}
