/** The AES instructions: rounds of encryption and decryption on 16-byte blocks. */
module Aes {
  import opened Wrappers
  import opened AesTables
  import opened AesField

  type Place = i: nat | i < 16

  type Block = v: seq<bv8> | |v| == 16 witness [0, 0, 0, 0, 0, 0, 0, 0, 0, 0, 0, 0, 0, 0, 0, 0]

  const SHIFT_ROWS: seq<Place> := [11, 6, 1, 12, 7, 2, 13, 8, 3, 14, 9, 4, 15, 10, 5, 0]

  const INV_SHIFT_ROWS: seq<Place> := [3, 6, 9, 12, 15, 2, 5, 8, 11, 14, 1, 4, 7, 10, 13, 0]

  /** The source of a byte; the tables are written from the highest place down. */
  function ShiftFrom(i: Place): Place {
    SHIFT_ROWS[15 - i]
  }

  function UnshiftFrom(i: Place): Place {
    INV_SHIFT_ROWS[15 - i]
  }

  // ---------- What the steps compute ----------

  function ShiftedRows(v: Block): Block {
    seq(16, i requires 0 <= i < 16 => v[ShiftFrom(i)])
  }

  function UnshiftedRows(v: Block): Block {
    seq(16, i requires 0 <= i < 16 => v[UnshiftFrom(i)])
  }

  function Substituted(v: Block): Block {
    seq(16, i requires 0 <= i < 16 => Sbox(v[i]))
  }

  function Unsubstituted(v: Block): Block {
    seq(16, i requires 0 <= i < 16 => InvSbox(v[i]))
  }

  function Plus4(p: bv8, q: bv8, r: bv8, s: bv8): bv8 {
    Plus(Plus(Plus(p, q), r), s)
  }

  /** One byte of a mixed column; the others follow by turning the column. */
  function Mix(a: bv8, b: bv8, c: bv8, d: bv8): bv8 {
    Plus4(FfMul(2, a), FfMul(3, b), c, d)
  }

  function Unmix(a: bv8, b: bv8, c: bv8, d: bv8): bv8 {
    Plus4(FfMul(0xE, a), FfMul(0xB, b), FfMul(0xD, c), FfMul(9, d))
  }

  /** A byte counted on from another one in the same column. */
  function On(v: Block, i: Place, k: nat): bv8 {
    v[i / 4 * 4 + (i + k) % 4]
  }

  function Mixed(v: Block): Block {
    seq(16, i requires 0 <= i < 16 => Mix(v[i], On(v, i, 1), On(v, i, 2), On(v, i, 3)))
  }

  function Unmixed(v: Block): Block {
    seq(16, i requires 0 <= i < 16 => Unmix(v[i], On(v, i, 1), On(v, i, 2), On(v, i, 3)))
  }

  function PlusBlock(v: Block, w: Block): Block {
    seq(16, i requires 0 <= i < 16 => Plus(v[i], w[i]))
  }

  datatype Opcode = AESIMC | AESENC | AESENCLAST | AESDEC | AESDECLAST

  /** The last opcode byte; the helper asserts that it is one of these. */
  function OpcodeOf(opc4: nat): Option<Opcode> {
    match opc4
    case 0xDB => Some(AESIMC)
    case 0xDC => Some(AESENC)
    case 0xDD => Some(AESENCLAST)
    case 0xDE => Some(AESDEC)
    case 0xDF => Some(AESDECLAST)
    case _ => None
  }

  /** What an instruction writes, from the values of its left and right operands. */
  function ResultOf(op: Opcode, left: Block, right: Block): Block {
    match op
    case AESIMC => Unmixed(left)
    case AESENC => PlusBlock(Mixed(Substituted(ShiftedRows(right))), left)
    case AESENCLAST => PlusBlock(Substituted(ShiftedRows(right)), left)
    case AESDEC => PlusBlock(Unmixed(Unsubstituted(UnshiftedRows(right))), left)
    case AESDECLAST => PlusBlock(Unsubstituted(UnshiftedRows(right)), left)
  }

  // ---------- The steps ----------

  method Assign(v: array<bv8>, r: array<bv8>)
    requires v.Length == 16 && r.Length == 16
    modifies v
    ensures v[..] == old(r[..])
  {
    forall i | 0 <= i < 16 { v[i] := r[i]; }
  }

  method SubBytes(v: array<bv8>)
    requires v.Length == 16
    modifies v
    ensures v[..] == Substituted(old(v[..]))
  {
    hide Sbox;
    var r := new bv8[16];
    for i := 0 to 16
      invariant v[..] == old(v[..])
      invariant forall j :: 0 <= j < i ==> r[j] == Sbox(v[j])
    {
      r[i] := Sbox(v[i]);
    }
    Assign(v, r);
  }

  method InvSubBytes(v: array<bv8>)
    requires v.Length == 16
    modifies v
    ensures v[..] == Unsubstituted(old(v[..]))
  {
    hide InvSbox;
    var r := new bv8[16];
    for i := 0 to 16
      invariant v[..] == old(v[..])
      invariant forall j :: 0 <= j < i ==> r[j] == InvSbox(v[j])
    {
      r[i] := InvSbox(v[i]);
    }
    Assign(v, r);
  }

  method ShiftRows(v: array<bv8>)
    requires v.Length == 16
    modifies v
    ensures v[..] == ShiftedRows(old(v[..]))
  {
    hide ShiftFrom;
    var r := new bv8[16];
    for i := 0 to 16
      invariant v[..] == old(v[..])
      invariant forall j :: 0 <= j < i ==> r[j] == v[ShiftFrom(j)]
    {
      r[i] := v[ShiftFrom(i)];
    }
    Assign(v, r);
  }

  method InvShiftRows(v: array<bv8>)
    requires v.Length == 16
    modifies v
    ensures v[..] == UnshiftedRows(old(v[..]))
  {
    hide UnshiftFrom;
    var r := new bv8[16];
    for i := 0 to 16
      invariant v[..] == old(v[..])
      invariant forall j :: 0 <= j < i ==> r[j] == v[UnshiftFrom(j)]
    {
      r[i] := v[UnshiftFrom(i)];
    }
    Assign(v, r);
  }

  /** The bytes of the columns in front of a place are mixed. */
  ghost predicate MixedTo(v: Block, r: array<bv8>, n: nat)
    requires r.Length == 16
    reads r
  {
    forall i :: 0 <= i < n && i < 16 ==> r[i] == Mixed(v)[i]
  }

  ghost predicate UnmixedTo(v: Block, r: array<bv8>, n: nat)
    requires r.Length == 16
    reads r
  {
    forall i :: 0 <= i < n && i < 16 ==> r[i] == Unmixed(v)[i]
  }

  /** The four bytes of a mixed column, each with its terms in the order of the column. */
  lemma MixTurned(a: bv8, b: bv8, c: bv8, d: bv8)
    ensures Mix(b, c, d, a) == Plus4(a, FfMul(2, b), FfMul(3, c), d)
    ensures Mix(c, d, a, b) == Plus4(a, b, FfMul(2, c), FfMul(3, d))
    ensures Mix(d, a, b, c) == Plus4(FfMul(3, a), b, c, FfMul(2, d))
  {
    hide FfMul, Plus4;
    Plus4Turns(FfMul(2, b), FfMul(3, c), d, a);
    Plus4Turns(FfMul(2, c), FfMul(3, d), a, b);
    Plus4Turns(b, FfMul(2, c), FfMul(3, d), a);
    Plus4Turns(FfMul(3, a), b, c, FfMul(2, d));
  }

  lemma UnmixTurned(a: bv8, b: bv8, c: bv8, d: bv8)
    ensures Unmix(b, c, d, a) == Plus4(FfMul(9, a), FfMul(0xE, b), FfMul(0xB, c), FfMul(0xD, d))
    ensures Unmix(c, d, a, b) == Plus4(FfMul(0xD, a), FfMul(9, b), FfMul(0xE, c), FfMul(0xB, d))
    ensures Unmix(d, a, b, c) == Plus4(FfMul(0xB, a), FfMul(0xD, b), FfMul(9, c), FfMul(0xE, d))
  {
    hide FfMul, Plus4;
    Plus4Turns(FfMul(0xE, b), FfMul(0xB, c), FfMul(0xD, d), FfMul(9, a));
    Plus4Turns(FfMul(0xE, c), FfMul(0xB, d), FfMul(0xD, a), FfMul(9, b));
    Plus4Turns(FfMul(9, b), FfMul(0xE, c), FfMul(0xB, d), FfMul(0xD, a));
    Plus4Turns(FfMul(0xB, a), FfMul(0xD, b), FfMul(9, c), FfMul(0xE, d));
  }

  lemma MixedColumn(v: Block, j: nat)
    requires j < 4
    ensures var k := 4 * j; var (a, b, c, d) := (v[k], v[k + 1], v[k + 2], v[k + 3]);
      && Mixed(v)[k] == Mix(a, b, c, d) && Mixed(v)[k + 1] == Mix(b, c, d, a)
      && Mixed(v)[k + 2] == Mix(c, d, a, b) && Mixed(v)[k + 3] == Mix(d, a, b, c)
  {
    hide Mix, On;
    Turns(v, j);
  }

  lemma UnmixedColumn(v: Block, j: nat)
    requires j < 4
    ensures var k := 4 * j; var (a, b, c, d) := (v[k], v[k + 1], v[k + 2], v[k + 3]);
      && Unmixed(v)[k] == Unmix(a, b, c, d) && Unmixed(v)[k + 1] == Unmix(b, c, d, a)
      && Unmixed(v)[k + 2] == Unmix(c, d, a, b) && Unmixed(v)[k + 3] == Unmix(d, a, b, c)
  {
    hide Unmix, On;
    Turns(v, j);
  }

  /** The bytes that follow each byte of a column. */
  lemma Turns(v: Block, j: nat)
    requires j < 4
    ensures var k := 4 * j;
      && On(v, k, 1) == v[k + 1] && On(v, k, 2) == v[k + 2] && On(v, k, 3) == v[k + 3]
      && On(v, k + 1, 1) == v[k + 2] && On(v, k + 1, 2) == v[k + 3] && On(v, k + 1, 3) == v[k]
      && On(v, k + 2, 1) == v[k + 3] && On(v, k + 2, 2) == v[k] && On(v, k + 2, 3) == v[k + 1]
      && On(v, k + 3, 1) == v[k] && On(v, k + 3, 2) == v[k + 1] && On(v, k + 3, 3) == v[k + 2]
  {
  }

  lemma Plus4Turns(p: bv8, q: bv8, r: bv8, s: bv8)
    ensures Plus4(p, q, r, s) == Plus4(s, p, q, r)
  {
    hide Plus;
    PlusSwaps(Plus(Plus(p, q), r), s);
    PlusGroups(Plus(s, p), q, r);
    PlusGroups(s, p, q);
    PlusGroups(s, Plus(p, q), r);
  }

  method MixColumns(v: array<bv8>)
    requires v.Length == 16
    modifies v
    ensures v[..] == Mixed(old(v[..]))
  {
    hide FfMul, Plus, Mixed;
    var r := new bv8[16];
    for j := 0 to 4
      invariant v[..] == old(v[..])
      invariant MixedTo(v[..], r, 4 * j)
    {
      var a, b, c, d := v[4 * j], v[4 * j + 1], v[4 * j + 2], v[4 * j + 3];
      MixedColumn(v[..], j);
      MixTurned(a, b, c, d);
      r[4 * j] := Plus(Plus(Plus(FfMul(2, a), FfMul(3, b)), c), d);
      r[4 * j + 1] := Plus(Plus(Plus(a, FfMul(2, b)), FfMul(3, c)), d);
      r[4 * j + 2] := Plus(Plus(Plus(a, b), FfMul(2, c)), FfMul(3, d));
      r[4 * j + 3] := Plus(Plus(Plus(FfMul(3, a), b), c), FfMul(2, d));
    }
    assert r[..] == Mixed(v[..]);
    Assign(v, r);
  }

  method InvMixColumns(v: array<bv8>)
    requires v.Length == 16
    modifies v
    ensures v[..] == Unmixed(old(v[..]))
  {
    hide FfMul, Plus, Unmixed;
    var r := new bv8[16];
    for j := 0 to 4
      invariant v[..] == old(v[..])
      invariant UnmixedTo(v[..], r, 4 * j)
    {
      var a, b, c, d := v[4 * j], v[4 * j + 1], v[4 * j + 2], v[4 * j + 3];
      UnmixedColumn(v[..], j);
      UnmixTurned(a, b, c, d);
      r[4 * j] := Plus(Plus(Plus(FfMul(0xE, a), FfMul(0xB, b)), FfMul(0xD, c)), FfMul(9, d));
      r[4 * j + 1] := Plus(Plus(Plus(FfMul(9, a), FfMul(0xE, b)), FfMul(0xB, c)), FfMul(0xD, d));
      r[4 * j + 2] := Plus(Plus(Plus(FfMul(0xD, a), FfMul(9, b)), FfMul(0xE, c)), FfMul(0xB, d));
      r[4 * j + 3] := Plus(Plus(Plus(FfMul(0xB, a), FfMul(0xD, b)), FfMul(9, c)), FfMul(0xE, d));
    }
    assert r[..] == Unmixed(v[..]);
    Assign(v, r);
  }

  /** The vector registers of the guest. */
  class Guest {
    var xmm: seq<Block>

    constructor (xmm: seq<Block>)
      ensures this.xmm == xmm
    {
      this.xmm := xmm;
    }

    /** Any two or all of the operands may be the same register. */
    method Execute(opc4: nat, dst: nat, left: nat, right: nat) returns (ok: bool)
      requires dst < |xmm| && left < |xmm| && right < |xmm|
      modifies this
      ensures ok == OpcodeOf(opc4).Some?
      ensures xmm == match OpcodeOf(opc4)
        case None => old(xmm)
        case Some(op) => old(xmm)[dst := ResultOf(op, old(xmm)[left], old(xmm)[right])]
    {
      hide ShiftedRows, UnshiftedRows, Substituted, Unsubstituted, Mixed, Unmixed;
      var op := OpcodeOf(opc4);
      if op.None? { return false; }
      var source := xmm[if op.value == AESIMC then left else right];
      var r := new bv8[16](i requires 0 <= i < 16 => source[i]);
      assert r[..] == source;
      match op.value {
        case AESIMC =>
          InvMixColumns(r);
        case AESENC =>
          ShiftRows(r);
          SubBytes(r);
          MixColumns(r);
        case AESENCLAST =>
          ShiftRows(r);
          SubBytes(r);
        case AESDEC =>
          InvShiftRows(r);
          InvSubBytes(r);
          InvMixColumns(r);
        case AESDECLAST =>
          InvShiftRows(r);
          InvSubBytes(r);
      }
      if op.value == AESIMC {
        xmm := xmm[dst := r[..]];
      } else {
        xmm := xmm[dst := PlusBlock(r[..], xmm[left])];
      }
      return true;
    }
  }

  // ---------- The steps as FIPS 197 has them ----------

  /** Row `r` of the state is turned left by `r` columns, and back (sections 5.1.2 and 5.3.1). */
  lemma RowsTurn(v: Block, r: nat, c: nat)
    requires r < 4 && c < 4
    ensures ShiftedRows(v)[4 * c + r] == v[4 * ((c + r) % 4) + r]
    ensures UnshiftedRows(v)[4 * c + r] == v[4 * ((c + 4 - r) % 4) + r]
  {
    hide ShiftFrom, UnshiftFrom;
    RowFrom(r, c);
  }

  lemma RowFrom(r: nat, c: nat)
    requires r < 4 && c < 4
    ensures ShiftFrom(4 * c + r) == 4 * ((c + r) % 4) + r && UnshiftFrom(4 * c + r) == 4 * ((c + 4 - r) % 4) + r
  {
    assert r == 0 || r == 1 || r == 2 || r == 3;
    assert c == 0 || c == 1 || c == 2 || c == 3;
  }

  /** Coefficients of a polynomial of degree three, the constant first. */
  type Polynomial = a: seq<bv8> | |a| == 4 witness [0, 0, 0, 0]

  /** {03}x^3 + {01}x^2 + {01}x + {02} of section 5.1.3, and its inverse {0b}x^3 + {0d}x^2 + {09}x + {0e} of 5.3.3. */
  const MIXING: Polynomial := [2, 1, 1, 3]
  const UNMIXING: Polynomial := [0xE, 9, 0xD, 0xB]

  /** Coefficient `r` of a polynomial's product with a column, modulo x^4 + 1. */
  function Coefficient(p: Polynomial, v: Block, c: nat, r: nat): bv8
    requires c < 4 && r < 4
  {
    Plus4(Product(p[r], v[4 * c]), Product(p[(r + 3) % 4], v[4 * c + 1]),
          Product(p[(r + 2) % 4], v[4 * c + 2]), Product(p[(r + 1) % 4], v[4 * c + 3]))
  }

  lemma CoefficientAt(p: Polynomial, v: Block, c: nat)
    requires c < 4
    ensures var (s, t, u, w) := (v[4 * c], v[4 * c + 1], v[4 * c + 2], v[4 * c + 3]);
      && Coefficient(p, v, c, 0) == Plus4(Product(p[0], s), Product(p[3], t), Product(p[2], u), Product(p[1], w))
      && Coefficient(p, v, c, 1) == Plus4(Product(p[1], s), Product(p[0], t), Product(p[3], u), Product(p[2], w))
      && Coefficient(p, v, c, 2) == Plus4(Product(p[2], s), Product(p[1], t), Product(p[0], u), Product(p[3], w))
      && Coefficient(p, v, c, 3) == Plus4(Product(p[3], s), Product(p[2], t), Product(p[1], u), Product(p[0], w))
  {
    hide Plus4, Product;
  }

  lemma Factors(x: bv8)
    ensures FfMul(2, x) == Product(2, x) && FfMul(3, x) == Product(3, x) && Product(1, x) == x
    ensures FfMul(9, x) == Product(9, x) && FfMul(0xB, x) == Product(0xB, x)
    ensures FfMul(0xD, x) == Product(0xD, x) && FfMul(0xE, x) == Product(0xE, x)
  {
    ProductOfConstants(x);
    hide FfMul, Product, Plus, Double;
    FfMulIsProduct(2, x);
    FfMulIsProduct(3, x);
    FfMulIsProduct(9, x);
    FfMulIsProduct(0xB, x);
    FfMulIsProduct(0xD, x);
    FfMulIsProduct(0xE, x);
  }

  /** Mixing multiplies each column with the polynomial, and unmixing with the inverse one. */
  lemma ColumnsMultiply(v: Block, c: nat, r: nat)
    requires c < 4 && r < 4
    ensures Mixed(v)[4 * c + r] == Coefficient(MIXING, v, c, r)
    ensures Unmixed(v)[4 * c + r] == Coefficient(UNMIXING, v, c, r)
  {
    hide Mixed, Unmixed, Plus4, Product, FfMul, Coefficient;
    var s, t, u, w := v[4 * c], v[4 * c + 1], v[4 * c + 2], v[4 * c + 3];
    MixedColumn(v, c);
    UnmixedColumn(v, c);
    MixTurned(s, t, u, w);
    UnmixTurned(s, t, u, w);
    Factors(s);
    Factors(t);
    Factors(u);
    Factors(w);
    CoefficientAt(MIXING, v, c);
    CoefficientAt(UNMIXING, v, c);
    assert r == 0 || r == 1 || r == 2 || r == 3;
  }

  function ByOpcode(opc4: nat, left: Block, right: Block): Block
    requires OpcodeOf(opc4).Some?
  {
    ResultOf(OpcodeOf(opc4).value, left, right)
  }

  // Byte by byte, by the opcodes' numbers: the rounds substitute a byte of the turned row, mix its column, and add the
  // key's byte.

  lemma LastRoundBytes(left: Block, right: Block, c: nat, r: nat)
    requires c < 4 && r < 4
    ensures ByOpcode(0xDD, left, right)[4 * c + r] == Plus(Sbox(right[4 * ((c + r) % 4) + r]), left[4 * c + r])
  {
    hide Sbox, InvSbox, Plus, ShiftedRows;
    RowsTurn(right, r, c);
  }

  lemma InvLastRoundBytes(left: Block, right: Block, c: nat, r: nat)
    requires c < 4 && r < 4
    ensures ByOpcode(0xDF, left, right)[4 * c + r]
         == Plus(InvSbox(right[4 * ((c + 4 - r) % 4) + r]), left[4 * c + r])
  {
    hide Sbox, InvSbox, Plus, UnshiftedRows;
    InvLastRoundAt(left, right, 4 * c + r);
    hide ByOpcode, Unsubstituted;
    RowsTurn(right, r, c);
  }

  lemma InvLastRoundAt(left: Block, right: Block, i: Place)
    ensures ByOpcode(0xDF, left, right)[i] == Plus(InvSbox(UnshiftedRows(right)[i]), left[i])
  {
    hide Sbox, InvSbox, Plus, UnshiftedRows;
  }

  lemma RoundBytes(left: Block, right: Block, c: nat, r: nat)
    requires c < 4 && r < 4
    ensures ByOpcode(0xDC, left, right)[4 * c + r]
         == Plus(Coefficient(MIXING, Substituted(ShiftedRows(right)), c, r), left[4 * c + r])
  {
    hide Mixed, Coefficient, Sbox, Plus, ShiftedRows;
    ColumnsMultiply(Substituted(ShiftedRows(right)), c, r);
  }

  lemma InvRoundBytes(left: Block, right: Block, c: nat, r: nat)
    requires c < 4 && r < 4
    ensures ByOpcode(0xDE, left, right)[4 * c + r]
         == Plus(Coefficient(UNMIXING, Unsubstituted(UnshiftedRows(right)), c, r), left[4 * c + r])
    ensures ByOpcode(0xDB, left, right)[4 * c + r] == Coefficient(UNMIXING, left, c, r)
  {
    hide Coefficient;
    InvRoundAt(left, right, 4 * c + r);
    hide ByOpcode, Unmixed, Unsubstituted, UnshiftedRows, Plus;
    ColumnsMultiply(Unsubstituted(UnshiftedRows(right)), c, r);
    ColumnsMultiply(left, c, r);
  }

  lemma InvRoundAt(left: Block, right: Block, i: Place)
    ensures ByOpcode(0xDE, left, right)[i] == Plus(Unmixed(Unsubstituted(UnshiftedRows(right)))[i], left[i])
    ensures ByOpcode(0xDB, left, right)[i] == Unmixed(left)[i]
  {
    hide Unmixed, Unsubstituted, UnshiftedRows, Plus;
  }

  // ---------- Every step is undone ----------

  lemma UnshiftedShifted(v: Block)
    ensures UnshiftedRows(ShiftedRows(v)) == v
  {
    hide ShiftFrom, UnshiftFrom;
    forall i: Place
      ensures UnshiftedRows(ShiftedRows(v))[i] == v[i]
    {
      ShiftUndone(i);
    }
  }

  lemma ShiftUndone(i: Place)
    ensures ShiftFrom(UnshiftFrom(i)) == i
  {
  }

  lemma UnshiftedSubstituted(v: Block)
    ensures UnshiftedRows(Substituted(v)) == Substituted(UnshiftedRows(v))
  {
    hide Sbox;
  }

  lemma UnsubstitutedSubstituted(v: Block)
    ensures Unsubstituted(Substituted(v)) == v
  {
    hide Sbox, InvSbox;
    forall i | 0 <= i < 16
      ensures Unsubstituted(Substituted(v))[i] == v[i]
    {
      InvSboxUndoesSbox(v[i]);
    }
  }

  /** Shifting and substituting, undone in the order the decryption has. */
  lemma RoundUndone(v: Block)
    ensures Unsubstituted(UnshiftedRows(Substituted(ShiftedRows(v)))) == v
  {
    hide Substituted, Unsubstituted, ShiftedRows, UnshiftedRows;
    UnshiftedSubstituted(ShiftedRows(v));
    UnshiftedShifted(v);
    UnsubstitutedSubstituted(v);
  }

  // ---------- Mixing is undone ----------

  lemma FfMulConstants(x: bv8)
    ensures FfMul(2, x) == Double(x) && FfMul(3, x) == Plus(Double(x), x)
    ensures FfMul(9, x) == Plus(Double(Double(Double(x))), x)
    ensures FfMul(0xB, x) == Plus(Double(Plus(Double(Double(x)), x)), x)
    ensures FfMul(0xD, x) == Plus(Double(Double(Plus(Double(x), x))), x)
    ensures FfMul(0xE, x) == Double(Plus(Double(Plus(Double(x), x)), x))
  {
    hide FfMul, Product, Plus, Double;
    ProductOfConstants(x);
    FfMulIsProduct(2, x);
    FfMulIsProduct(3, x);
    FfMulIsProduct(9, x);
    FfMulIsProduct(0xB, x);
    FfMulIsProduct(0xD, x);
    FfMulIsProduct(0xE, x);
  }

  lemma UnmixConstants(a: bv8, b: bv8, c: bv8, d: bv8)
    ensures Unmix(a, b, c, d)
         == Plus4(Double(Plus(Double(Plus(Double(a), a)), a)), Plus(Double(Plus(Double(Double(b)), b)), b),
                  Plus(Double(Double(Plus(Double(c), c))), c), Plus(Double(Double(Double(d))), d))
  {
    hide FfMul, Plus, Double, Plus4;
    FfMulConstants(a);
    FfMulConstants(b);
    FfMulConstants(c);
    FfMulConstants(d);
  }

  /** What the first byte of a column contributes to itself, and then to the others. */
  lemma ContributesOwn(x: bv8)
    ensures Unmix(FfMul(2, x), x, x, FfMul(3, x)) == x
  {
    hide FfMul, Unmix;
    FfMulConstants(x);
    UnmixConstants(FfMul(2, x), x, x, FfMul(3, x));
  }

  lemma ContributesNext(x: bv8)
    ensures Unmix(FfMul(3, x), FfMul(2, x), x, x) == 0
  {
    hide FfMul, Unmix;
    FfMulConstants(x);
    UnmixConstants(FfMul(3, x), FfMul(2, x), x, x);
  }

  lemma ContributesOpposite(x: bv8)
    ensures Unmix(x, FfMul(3, x), FfMul(2, x), x) == 0
  {
    hide FfMul, Unmix;
    FfMulConstants(x);
    UnmixConstants(x, FfMul(3, x), FfMul(2, x), x);
  }

  lemma ContributesLast(x: bv8)
    ensures Unmix(x, x, FfMul(3, x), FfMul(2, x)) == 0
  {
    hide FfMul, Unmix;
    FfMulConstants(x);
    UnmixConstants(x, x, FfMul(3, x), FfMul(2, x));
  }

  lemma Plus4Pairs(p: bv8, q: bv8, r: bv8, s: bv8, p': bv8, q': bv8, r': bv8, s': bv8)
    ensures Plus4(Plus(p, p'), Plus(q, q'), Plus(r, r'), Plus(s, s')) == Plus(Plus4(p, q, r, s), Plus4(p', q', r', s'))
  {
    hide Plus;
    PlusPairs(p, q, p', q');
    PlusPairs(Plus(p, q), r, Plus(p', q'), r');
    PlusPairs(Plus(Plus(p, q), r), s, Plus(Plus(p', q'), r'), s');
    PlusPairs(p, p', q, q');
    PlusPairs(Plus(p, q), Plus(p', q'), r, r');
    PlusPairs(Plus(Plus(p, q), r), Plus(Plus(p', q'), r'), s, s');
  }

  lemma UnmixPlus(a: bv8, b: bv8, c: bv8, d: bv8, a': bv8, b': bv8, c': bv8, d': bv8)
    ensures Unmix(Plus(a, a'), Plus(b, b'), Plus(c, c'), Plus(d, d')) == Plus(Unmix(a, b, c, d), Unmix(a', b', c', d'))
  {
    hide FfMul, Plus, Plus4;
    FfMulPlus(0xE, a, a');
    FfMulPlus(0xB, b, b');
    FfMulPlus(0xD, c, c');
    FfMulPlus(9, d, d');
    Plus4Pairs(FfMul(0xE, a), FfMul(0xB, b), FfMul(0xD, c), FfMul(9, d),
               FfMul(0xE, a'), FfMul(0xB, b'), FfMul(0xD, c'), FfMul(9, d'));
  }

  /** The first byte of a column comes back. */
  lemma UnmixMixed(a: bv8, b: bv8, c: bv8, d: bv8)
    ensures Unmix(Mix(a, b, c, d), Mix(b, c, d, a), Mix(c, d, a, b), Mix(d, a, b, c)) == a
  {
    hide FfMul, Plus, Unmix;
    MixTurned(a, b, c, d);
    ContributesOwn(a);
    ContributesNext(b);
    ContributesOpposite(c);
    ContributesLast(d);
    var (a2, a3, b2, b3) := (FfMul(2, a), FfMul(3, a), FfMul(2, b), FfMul(3, b));
    var (c2, c3, d2, d3) := (FfMul(2, c), FfMul(3, c), FfMul(2, d), FfMul(3, d));
    UnmixPlus(a2, a, a, a3, b3, b2, b, b);
    UnmixPlus(Plus(a2, b3), Plus(a, b2), Plus(a, b), Plus(a3, b), c, c3, c2, c);
    UnmixPlus(Plus(Plus(a2, b3), c), Plus(Plus(a, b2), c3), Plus(Plus(a, b), c2), Plus(Plus(a3, b), c), d, d, d3, d2);
    PlusZero(a);
  }

  lemma UnmixedMixed(v: Block)
    ensures Unmixed(Mixed(v)) == v
  {
    hide Mixed, Unmixed;
    forall i: Place
      ensures Unmixed(Mixed(v))[i] == v[i]
    {
      ColumnUndone(v, i / 4);
      assert i == 4 * (i / 4) || i == 4 * (i / 4) + 1 || i == 4 * (i / 4) + 2 || i == 4 * (i / 4) + 3;
    }
  }

  lemma ColumnUndone(v: Block, j: nat)
    requires j < 4
    ensures var k := 4 * j; var w := Unmixed(Mixed(v));
      w[k] == v[k] && w[k + 1] == v[k + 1] && w[k + 2] == v[k + 2] && w[k + 3] == v[k + 3]
  {
    hide Mix, Unmix, Mixed, Unmixed;
    var a, b, c, d := v[4 * j], v[4 * j + 1], v[4 * j + 2], v[4 * j + 3];
    MixedColumn(v, j);
    UnmixedColumn(Mixed(v), j);
    UnmixMixed(a, b, c, d);
    UnmixMixed(b, c, d, a);
    UnmixMixed(c, d, a, b);
    UnmixMixed(d, a, b, c);
  }

  lemma UnmixedAt(v: Block, i: Place)
    ensures Unmixed(v)[i] == Unmix(v[i], On(v, i, 1), On(v, i, 2), On(v, i, 3))
  {
    hide On, Unmix;
  }

  lemma OnPlus(v: Block, w: Block, i: Place, k: nat)
    ensures On(PlusBlock(v, w), i, k) == Plus(On(v, i, k), On(w, i, k))
  {
    hide Plus;
  }

  lemma PlusAt(v: Block, w: Block, i: Place)
    ensures PlusBlock(v, w)[i] == Plus(v[i], w[i])
  {
    hide Plus;
  }

  /** Unmixing distributes over the addition of a key. */
  lemma UnmixedPlus(v: Block, w: Block)
    ensures Unmixed(PlusBlock(v, w)) == PlusBlock(Unmixed(v), Unmixed(w))
  {
    hide Plus, Unmix, On, PlusBlock, Unmixed;
    var u := PlusBlock(v, w);
    forall i: Place
      ensures Unmixed(u)[i] == PlusBlock(Unmixed(v), Unmixed(w))[i]
    {
      UnmixedAt(u, i);
      UnmixedAt(v, i);
      UnmixedAt(w, i);
      PlusAt(v, w, i);
      PlusAt(Unmixed(v), Unmixed(w), i);
      OnPlus(v, w, i, 1);
      OnPlus(v, w, i, 2);
      OnPlus(v, w, i, 3);
      UnmixPlus(v[i], On(v, i, 1), On(v, i, 2), On(v, i, 3), w[i], On(w, i, 1), On(w, i, 2), On(w, i, 3));
    }
  }

  lemma PlusTwice(v: Block, k: Block)
    ensures PlusBlock(PlusBlock(v, k), k) == v
  {
    hide Plus;
    forall i: Place
      ensures PlusBlock(PlusBlock(v, k), k)[i] == v[i]
    {
      PlusGroups(v[i], k[i], k[i]);
      PlusZero(k[i]);
      PlusZero(v[i]);
    }
  }

  // ---------- The instructions undo each other ----------

  /** The last round of the decryption undoes the last round of the encryption. */
  lemma LastRoundUndone(v: Block, key: Block, other: Block)
    ensures ResultOf(AESDECLAST, other, PlusBlock(ResultOf(AESENCLAST, key, v), key)) == PlusBlock(v, other)
  {
    hide PlusBlock, Substituted, Unsubstituted, ShiftedRows, UnshiftedRows;
    PlusTwice(Substituted(ShiftedRows(v)), key);
    RoundUndone(v);
  }

  /**
   * A round of the decryption, with the unmixed key, leads from what a round of the encryption made of a
   * block, shifted and substituted, to the block itself, shifted and substituted.
   */
  lemma RoundBack(v: Block, key: Block)
    ensures ResultOf(AESDEC, ResultOf(AESIMC, key, key), Substituted(ShiftedRows(ResultOf(AESENC, key, v))))
         == Substituted(ShiftedRows(v))
  {
    hide PlusBlock, Substituted, Unsubstituted, ShiftedRows, UnshiftedRows, Mixed, Unmixed;
    var inner := Substituted(ShiftedRows(v));
    RoundUndone(PlusBlock(Mixed(inner), key));
    UnmixedPlus(Mixed(inner), key);
    UnmixedMixed(inner);
    PlusTwice(inner, Unmixed(key));
  }

  // ---------- Whole encryptions ----------

  /** The first rounds of an encryption, before the last one. */
  function Rounds(keys: seq<Block>, v: Block, n: nat): Block
    requires n < |keys|
  {
    if n == 0 then PlusBlock(v, keys[0]) else ResultOf(AESENC, keys[n], Rounds(keys, v, n - 1))
  }

  /** One key in front, one for each round. */
  function Encrypt(keys: seq<Block>, v: Block): Block
    requires |keys| >= 2
  {
    var n := |keys| - 1;
    ResultOf(AESENCLAST, keys[n], Rounds(keys, v, n - 1))
  }

  /** Rounds of the decryption down to the first key, with the unmixed keys. */
  function RoundsBack(keys: seq<Block>, v: Block, n: nat): Block
    requires n < |keys|
    decreases n
  {
    if n == 0 then v
    else RoundsBack(keys, ResultOf(AESDEC, ResultOf(AESIMC, keys[n], keys[n]), v), n - 1)
  }

  function Decrypt(keys: seq<Block>, v: Block): Block
    requires |keys| >= 2
  {
    var n := |keys| - 1;
    ResultOf(AESDECLAST, keys[0], RoundsBack(keys, PlusBlock(v, keys[n]), n - 1))
  }

  lemma {:induction false} RoundsGoBack(keys: seq<Block>, v: Block, n: nat)
    requires n < |keys|
    ensures RoundsBack(keys, Substituted(ShiftedRows(Rounds(keys, v, n))), n)
         == Substituted(ShiftedRows(PlusBlock(v, keys[0])))
  {
    hide ResultOf, PlusBlock, Substituted, ShiftedRows;
    if n > 0 {
      RoundBack(Rounds(keys, v, n - 1), keys[n]);
      RoundsGoBack(keys, v, n - 1);
    }
  }

  /** Decryption undoes encryption, for any block, any keys and any number of rounds. */
  lemma DecryptEncrypted(keys: seq<Block>, v: Block)
    requires |keys| >= 2
    ensures Decrypt(keys, Encrypt(keys, v)) == v
  {
    hide PlusBlock, Substituted, ShiftedRows, Unsubstituted, UnshiftedRows, Rounds, RoundsBack;
    var n := |keys| - 1;
    var first := PlusBlock(v, keys[0]);
    PlusTwice(Substituted(ShiftedRows(Rounds(keys, v, n - 1))), keys[n]);
    RoundsGoBack(keys, v, n - 1);
    RoundUndone(first);
    PlusTwice(v, keys[0]);
  }
}
