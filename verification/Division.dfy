/** The checksum register bit by bit, and its reading as division of polynomials over GF(2). */
module Division {
  import opened Polynomial
  import opened Crc8

  const ZERO := Reg(false, false, false, false, false, false, false, false)

  function Add(a: Reg, b: Reg): Reg {
    Reg(a.b7 != b.b7, a.b6 != b.b6, a.b5 != b.b5, a.b4 != b.b4,
        a.b3 != b.b3, a.b2 != b.b2, a.b1 != b.b1, a.b0 != b.b0)
  }

  /** The register after one more message bit: r * x + b * x^8 modulo x^8 + x^2 + x + 1. */
  function Shift(r: Reg, b: bool): Reg {
    var t := r.b7 != b;
    Reg(r.b6, r.b5, r.b4, r.b3, r.b2, r.b1 != t, r.b0 != t, t)
  }

  /** The register times x^k modulo the generator. */
  function ShiftZeros(r: Reg, k: nat): Reg {
    if k == 0 then r else Shift(ShiftZeros(r, k - 1), false)
  }

  /** The register after a run of bits. */
  function BitRun(r: Reg, bits: Poly): Reg {
    if bits == [] then r else Shift(BitRun(r, bits[..|bits| - 1]), bits[|bits| - 1])
  }

  predicate Bit(b: bv8, mask: bv8) {
    b & mask != 0
  }

  function Unpack(b: bv8): Reg {
    Reg(Bit(b, 0x80), Bit(b, 0x40), Bit(b, 0x20), Bit(b, 0x10), Bit(b, 0x08), Bit(b, 0x04), Bit(b, 0x02), Bit(b, 0x01))
  }

  /** The bits of a byte string in transmission order. */
  function BitsOf(data: seq<bv8>): (bits: Poly)
    ensures |bits| == 8 * |data|
  {
    if data == [] then [] else BitsOf(data[..|data| - 1]) + Unpack(data[|data| - 1]).Coefficients()
  }

  // ------------------------------------------------------- bytes against bits

  lemma BitOfXor(a: bv8, b: bv8, mask: bv8)
    requires mask & (mask - 1) == 0
    ensures Bit(a ^ b, mask) == (Bit(a, mask) != Bit(b, mask))
  {
  }

  lemma UnpackAdd(a: bv8, b: bv8)
    ensures Unpack(a ^ b) == Add(Unpack(a), Unpack(b))
  {
    hide Bit;
    BitOfXor(a, b, 0x80); BitOfXor(a, b, 0x40); BitOfXor(a, b, 0x20); BitOfXor(a, b, 0x10);
    BitOfXor(a, b, 0x08); BitOfXor(a, b, 0x04); BitOfXor(a, b, 0x02); BitOfXor(a, b, 0x01);
  }

  lemma UnpackInjective(a: bv8, b: bv8)
    requires Unpack(a) == Unpack(b)
    ensures a == b
  {
  }

  lemma UnpackShift(r: bv8)
    ensures Unpack(ShiftZero(r)) == Shift(Unpack(r), false)
  {
  }

  lemma UnpackShift8(r: bv8)
    ensures Unpack(ShiftByte(r)) == ShiftZeros(Unpack(r), 8)
  {
    hide Unpack, ShiftZero, Shift;
    var r1 := ShiftZero(r);
    var r2 := ShiftZero(r1);
    var r3 := ShiftZero(r2);
    var r4 := ShiftZero(r3);
    var r5 := ShiftZero(r4);
    var r6 := ShiftZero(r5);
    var r7 := ShiftZero(r6);
    var r8 := ShiftZero(r7);
    UnpackShift(r);
    assert Unpack(r1) == ShiftZeros(Unpack(r), 1);
    UnpackShift(r1);
    assert Unpack(r2) == ShiftZeros(Unpack(r), 2);
    UnpackShift(r2);
    assert Unpack(r3) == ShiftZeros(Unpack(r), 3);
    UnpackShift(r3);
    assert Unpack(r4) == ShiftZeros(Unpack(r), 4);
    UnpackShift(r4);
    assert Unpack(r5) == ShiftZeros(Unpack(r), 5);
    UnpackShift(r5);
    assert Unpack(r6) == ShiftZeros(Unpack(r), 6);
    UnpackShift(r6);
    assert Unpack(r7) == ShiftZeros(Unpack(r), 7);
    UnpackShift(r7);
    assert Unpack(r8) == ShiftZeros(Unpack(r), 8);
  }

  lemma {:induction false} BitRunConcat(r: Reg, a: Poly, b: Poly)
    ensures BitRun(r, a + b) == BitRun(BitRun(r, a), b)
  {
    if b == [] {
      assert a + b == a;
    } else {
      var n := |b| - 1;
      assert (a + b)[..|a + b| - 1] == a + b[..n];
      BitRunConcat(r, a, b[..n]);
    }
  }

  lemma BitRunOne(r: Reg, bits: Poly, k: nat)
    requires k < |bits|
    ensures BitRun(r, bits[..k + 1]) == Shift(BitRun(r, bits[..k]), bits[k])
  {
    assert bits[..k + 1][..k] == bits[..k];
  }

  function Rest(b: Reg): Reg {
    Reg(b.b6, b.b5, b.b4, b.b3, b.b2, b.b1, b.b0, false)
  }

  /** A byte that was added to the register in advance cancels, bit by bit, against the bits fed later. */
  lemma TopBitStep(r: Reg, b: Reg)
    ensures Shift(Add(r, b), b.b7) == Add(Shift(r, false), Rest(b))
  {
  }

  /** The bits of a byte left over after its first k. */
  function RestAfter(b: Reg, k: nat): Reg {
    if k == 0 then b else Rest(RestAfter(b, k - 1))
  }

  lemma RestCoefficient(b: Reg, i: nat)
    ensures Rest(b).Coefficient(i) == b.Coefficient(i + 1)
  {
  }

  lemma {:induction false} RestAfterCoefficient(b: Reg, k: nat, i: nat)
    ensures RestAfter(b, k).Coefficient(i) == b.Coefficient(k + i)
  {
    hide Rest, Reg.Coefficient;
    if k > 0 {
      RestAfterCoefficient(b, k - 1, i + 1);
      RestCoefficient(RestAfter(b, k - 1), i);
    }
  }

  lemma RestBits(b: Reg)
    ensures forall k :: 0 <= k < 8 ==> b.Coefficients()[k] == RestAfter(b, k).b7
    ensures RestAfter(b, 8) == ZERO
  {
    forall k: nat | k < 8
      ensures b.Coefficients()[k] == RestAfter(b, k).b7
    {
      RestAfterCoefficient(b, k, 0);
    }
    forall i: nat | i < 8
      ensures RestAfter(b, 8).Coefficient(i) == ZERO.Coefficient(i)
    {
      RestAfterCoefficient(b, 8, i);
    }
    CoefficientsDecide(RestAfter(b, 8), ZERO);
  }

  lemma AddTwice(r: Reg, b: Reg)
    ensures Add(Add(r, b), b) == r
  {
  }

  lemma AddZero(r: Reg)
    ensures Add(r, ZERO) == r
  {
  }

  lemma {:induction false} BitRunPrefix(r: Reg, b: Reg, bits: Poly, k: nat)
    requires k <= |bits| && forall i :: 0 <= i < k ==> bits[i] == RestAfter(b, i).b7
    ensures BitRun(r, bits[..k]) == Add(ShiftZeros(Add(r, b), k), RestAfter(b, k))
  {
    AddTwice(r, b);
    hide Add, Shift, Rest;
    if k == 0 {
      assert bits[..0] == [];
    } else {
      BitRunPrefix(r, b, bits, k - 1);
      BitRunOne(r, bits, k - 1);
      TopBitStep(ShiftZeros(Add(r, b), k - 1), RestAfter(b, k - 1));
    }
  }

  /** Feeding the eight bits of a byte is the table step. */
  lemma BitRunByte(r: Reg, b: Reg)
    ensures BitRun(r, b.Coefficients()) == ShiftZeros(Add(r, b), 8)
  {
    hide Add, Shift, Rest, BitRun;
    RestBits(b);
    BitRunPrefix(r, b, b.Coefficients(), 8);
    assert b.Coefficients()[..8] == b.Coefficients();
    AddZero(ShiftZeros(Add(r, b), 8));
  }

  /** The byte-wise register and the bit-wise register agree on every byte string. */
  lemma {:induction false} RegisterIsBitRun(r: bv8, data: seq<bv8>)
    ensures Unpack(Register(r, data)) == BitRun(Unpack(r), BitsOf(data))
  {
    hide Unpack, ShiftByte, ShiftZeros, Add;
    if data != [] {
      var n := |data| - 1;
      var before := Register(r, data[..n]);
      RegisterIsBitRun(r, data[..n]);
      BitRunConcat(Unpack(r), BitsOf(data[..n]), Unpack(data[n]).Coefficients());
      BitRunByte(Unpack(before), Unpack(data[n]));
      UnpackAdd(before, data[n]);
      UnpackShift8(before ^ data[n]);
    }
  }

  // ---------------------------------------------------------------- division

  /** One more message bit, at coefficient i of the division identity. */
  lemma DivideOneMore(m: Poly, q: Poly, r: Reg, b: bool, i: int)
    requires 0 <= i < |m| + 9 && |q| == |m|
    requires i < |m| + 8 ==> DividesAt(m, q, r, i)
    ensures DividesAt(m + [b], q + [r.b7 != b], Shift(r, b), i)
  {
    assert !ProductAt(q, |q| + 8);
    hide ProductAt;
    ProductAppend(q, r.b7 != b, i);
  }

  /** The register holds the remainder of the bits fed so far. */
  lemma {:induction false} BitRunDivides(m: Poly) returns (quotient: Poly)
    ensures Divides(m, quotient, BitRun(ZERO, m))
  {
    if m == [] {
      quotient := [];
    } else {
      var n := |m| - 1;
      var r, b := BitRun(ZERO, m[..n]), m[n];
      var q := BitRunDivides(m[..n]);
      quotient := q + [r.b7 != b];
      assert m == m[..n] + [b];
      forall i | 0 <= i < |m| + 8
        ensures DividesAt(m, quotient, Shift(r, b), i)
      {
        hide DividesAt, Shift, BitRun;
        DivideOneMore(m[..n], q, r, b, i);
      }
    }
  }

  lemma XorFf(c: bv8, r: bv8)
    ensures c ^ 0xff == r <==> c == r ^ 0xff
  {
  }

  /** A byte is the checksum exactly when, inverted, it is the remainder of M(x) * x^8. */
  lemma ChecksumIsRemainder(data: seq<bv8>, crc: bv8)
    ensures crc == Checksum(data) <==> IsRemainder(BitsOf(data), Unpack(crc ^ 0xff))
  {
    var m, r := BitsOf(data), Register(0, data);
    assert Unpack(0) == ZERO;
    RegisterIsBitRun(0, data);
    XorFf(crc, r);
    var q := BitRunDivides(m);
    assert IsRemainder(m, Unpack(r));
    if IsRemainder(m, Unpack(crc ^ 0xff)) {
      RemainderUnique(m, Unpack(crc ^ 0xff), Unpack(r));
      UnpackInjective(crc ^ 0xff, r);
    }
  }
}
