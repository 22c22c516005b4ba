/** What the parser's checksum test detects, for frames of every length. */
module ErrorDetection {
  import opened Polynomial
  import opened Crc8
  import opened Division

  /** The parser's test: the last byte is the checksum of the bytes before it. */
  predicate CrcOk(frame: seq<bv8>) {
    && frame != []
    && frame[|frame| - 1] == Checksum(frame[..|frame| - 1])
  }

  /** The positions at which two bit strings differ. */
  function Difference(a: Poly, b: Poly): (d: Poly)
    requires |a| == |b|
    ensures |d| == |a| && forall i :: 0 <= i < |a| ==> d[i] == (a[i] != b[i])
  {
    seq(|a|, i requires 0 <= i < |a| => a[i] != b[i])
  }

  /** The bits in which two frames of the same length differ. */
  function Errors(f: seq<bv8>, g: seq<bv8>): (e: Poly)
    requires |f| == |g|
    ensures |e| == 8 * |f|
  {
    Difference(BitsOf(f), BitsOf(g))
  }

  function Weight(bits: Poly): nat {
    if bits == [] then 0
    else Weight(bits[..|bits| - 1]) + if bits[|bits| - 1] then 1 else 0
  }

  // ----------------------------------------------------- residue and linearity

  lemma FinalStep(r: bv8, last: bv8)
    ensures last == r ^ 0xff <==> ShiftByte(r ^ last) == 0xf3
  {
    assert ShiftByte(0xff) == 0xf3;
    ShiftByteInjective(r ^ last, 0xff);
    assert r ^ last == 0xff <==> last == r ^ 0xff;
  }

  lemma ShiftZeroInjective(a: bv8, b: bv8)
    ensures ShiftZero(a) == ShiftZero(b) ==> a == b
  {
  }

  lemma ShiftByteInjective(a: bv8, b: bv8)
    ensures ShiftByte(a) == ShiftByte(b) ==> a == b
  {
    hide ShiftZero;
    var a2, b2 := ShiftZero(ShiftZero(a)), ShiftZero(ShiftZero(b));
    var a4, b4 := ShiftZero(ShiftZero(a2)), ShiftZero(ShiftZero(b2));
    var a6, b6 := ShiftZero(ShiftZero(a4)), ShiftZero(ShiftZero(b4));
    ShiftZeroInjective(a, b);
    ShiftZeroInjective(ShiftZero(a), ShiftZero(b));
    ShiftZeroInjective(a2, b2);
    ShiftZeroInjective(ShiftZero(a2), ShiftZero(b2));
    ShiftZeroInjective(a4, b4);
    ShiftZeroInjective(ShiftZero(a4), ShiftZero(b4));
    ShiftZeroInjective(a6, b6);
    ShiftZeroInjective(ShiftZero(a6), ShiftZero(b6));
  }

  /** The test holds exactly when the register, run over the whole frame, ends at 0xf3. */
  lemma Residue(frame: seq<bv8>)
    requires frame != []
    ensures CrcOk(frame) <==> Register(0, frame) == 0xf3
  {
    hide ShiftByte;
    var n := |frame| - 1;
    FinalStep(Register(0, frame[..n]), frame[n]);
  }

  lemma ShiftAdd(a: Reg, b: Reg, x: bool, y: bool)
    ensures Shift(Add(a, b), x != y) == Add(Shift(a, x), Shift(b, y))
  {
  }

  lemma {:induction false} BitRunAdd(a: Reg, b: Reg, e: Poly, f: Poly)
    requires |e| == |f|
    ensures BitRun(Add(a, b), Difference(e, f)) == Add(BitRun(a, e), BitRun(b, f))
  {
    if e != [] {
      var n := |e| - 1;
      assert Difference(e, f)[..n] == Difference(e[..n], f[..n]);
      hide Add, Shift;
      BitRunAdd(a, b, e[..n], f[..n]);
      ShiftAdd(BitRun(a, e[..n]), BitRun(b, f[..n]), e[n], f[n]);
    }
  }

  lemma AddIsZero(a: Reg, b: Reg)
    ensures Add(a, b) == ZERO <==> a == b
  {
  }

  /** A changed frame passes exactly when the change itself is divisible by the generator. */
  lemma Undetected(f: seq<bv8>, g: seq<bv8>)
    requires CrcOk(f) && |f| == |g|
    ensures CrcOk(g) <==> BitRun(ZERO, Errors(f, g)) == ZERO
  {
    hide BitRun, Unpack, Register;
    Residue(f);
    Residue(g);
    RegisterIsBitRun(0, f);
    RegisterIsBitRun(0, g);
    UnpackZero();
    BitRunAdd(ZERO, ZERO, BitsOf(f), BitsOf(g));
    AddIsZero(Unpack(Register(0, f)), Unpack(Register(0, g)));
    if Unpack(Register(0, f)) == Unpack(Register(0, g)) {
      UnpackInjective(Register(0, f), Register(0, g));
    }
  }

  lemma UnpackZero()
    ensures Unpack(0) == ZERO
  {
  }

  // ------------------------------------------------------------------- parity

  predicate Parity(r: Reg) {
    ((r.b7 != r.b6) != (r.b5 != r.b4)) != ((r.b3 != r.b2) != (r.b1 != r.b0))
  }

  lemma ShiftParity(r: Reg, b: bool)
    ensures Parity(Shift(r, b)) == (Parity(r) != b)
  {
  }

  /** The generator is divisible by x + 1, so the register keeps the parity of the bits fed. */
  lemma {:induction false} BitRunParity(r: Reg, bits: Poly)
    ensures Parity(BitRun(r, bits)) == (Parity(r) != (Weight(bits) % 2 == 1))
  {
    if bits != [] {
      hide Parity, Shift;
      var n := |bits| - 1;
      BitRunParity(r, bits[..n]);
      ShiftParity(BitRun(r, bits[..n]), bits[n]);
    }
  }

  /** Every change of an odd number of bits is rejected, whatever the frame's length. */
  lemma OddChangesRejected(f: seq<bv8>, g: seq<bv8>)
    requires CrcOk(f) && |f| == |g|
    requires Weight(Errors(f, g)) % 2 == 1
    ensures !CrcOk(g)
  {
    hide BitRun;
    Undetected(f, g);
    BitRunParity(ZERO, Errors(f, g));
  }

  // ------------------------------------------------------------------- bursts

  lemma ShiftIsZero(r: Reg)
    ensures Shift(r, false) == ZERO <==> r == ZERO
  {
  }

  lemma {:induction false} ShiftZerosIsZero(r: Reg, k: nat)
    ensures ShiftZeros(r, k) == ZERO <==> r == ZERO
  {
    if k > 0 {
      hide Shift;
      ShiftZerosIsZero(r, k - 1);
      ShiftIsZero(ShiftZeros(r, k - 1));
    }
  }

  lemma {:induction false} BitRunZeros(r: Reg, bits: Poly)
    requires forall i :: 0 <= i < |bits| ==> !bits[i]
    ensures BitRun(r, bits) == ShiftZeros(r, |bits|)
  {
    if bits != [] {
      hide Shift;
      BitRunZeros(r, bits[..|bits| - 1]);
    }
  }

  /** Leading and trailing zero bits do not decide whether a change is divisible. */
  lemma Trim(bits: Poly, i: nat, j: nat)
    requires i <= j <= |bits|
    requires forall k :: 0 <= k < i || j <= k < |bits| ==> !bits[k]
    ensures BitRun(ZERO, bits) == ZERO <==> BitRun(ZERO, bits[i..j]) == ZERO
  {
    var front, middle, back := bits[..i], bits[i..j], bits[j..];
    assert bits == (front + middle) + back;
    hide BitRun, ShiftZeros;
    BitRunConcat(ZERO, front + middle, back);
    BitRunConcat(ZERO, front, middle);
    BitRunZeros(ZERO, front);
    BitRunZeros(BitRun(ZERO, front + middle), back);
    ShiftZerosIsZero(ZERO, i);
    ShiftZerosIsZero(BitRun(ZERO, front + middle), |back|);
  }

  lemma BitsOfSplit(f: seq<bv8>)
    requires f != []
    ensures var n := |f| - 1;
            BitsOf(f)[..8 * n] == BitsOf(f[..n]) && BitsOf(f)[8 * n..] == Unpack(f[n]).Coefficients()
  {
    hide Unpack, Reg.Coefficients;
  }

  lemma {:induction false} BitsOfInjective(f: seq<bv8>, g: seq<bv8>)
    requires |f| == |g| && BitsOf(f) == BitsOf(g)
    ensures f == g
  {
    hide Unpack, BitsOf, Reg.Coefficients;
    if f != [] {
      var n := |f| - 1;
      BitsOfSplit(f);
      BitsOfSplit(g);
      BitsOfInjective(f[..n], g[..n]);
      CoefficientsInjective(Unpack(f[n]), Unpack(g[n]));
      UnpackInjective(f[n], g[n]);
      assert f == f[..n] + [f[n]] && g == g[..n] + [g[n]];
    }
  }

  lemma CoefficientsInjective(a: Reg, b: Reg)
    requires a.Coefficients() == b.Coefficients()
    ensures a == b
  {
    var p, q := a.Coefficients(), b.Coefficients();
    assert p[0] == q[0] && p[1] == q[1] && p[2] == q[2] && p[3] == q[3];
    assert p[4] == q[4] && p[5] == q[5] && p[6] == q[6] && p[7] == q[7];
  }

  lemma ZeroAdd(r: Reg)
    ensures Add(ZERO, r) == r
  {
  }

  lemma EightBits(w: Poly)
    requires |w| == 8
    ensures BitRun(ZERO, w) == ZERO <==> w == ZERO.Coefficients()
  {
    var r := Reg(w[0], w[1], w[2], w[3], w[4], w[5], w[6], w[7]);
    assert w == r.Coefficients();
    ZeroAdd(r);
    hide BitRun, ShiftZeros, Reg.Coefficients, Add;
    BitRunByte(ZERO, r);
    ShiftZerosIsZero(r, 8);
    if w == ZERO.Coefficients() {
      CoefficientsInjective(r, ZERO);
    }
  }

  /** Two frames differ only within the eight bits from start on. */
  predicate WithinEight(f: seq<bv8>, g: seq<bv8>, start: nat) {
    && |f| == |g| && start + 8 <= 8 * |f|
    && forall i :: 0 <= i < 8 * |f| && !(start <= i < start + 8) ==> !Errors(f, g)[i]
  }

  /** A change confined to eight consecutive bits passes only if nothing changed. */
  lemma BurstsRejected(f: seq<bv8>, g: seq<bv8>, start: nat)
    requires CrcOk(f) && WithinEight(f, g, start)
    ensures CrcOk(g) <==> g == f
  {
    hide BitRun;
    var e := Errors(f, g);
    var w := e[start..start + 8];
    Undetected(f, g);
    Trim(e, start, start + 8);
    EightBits(w);
    if CrcOk(g) {
      forall i | 0 <= i < |e|
        ensures !e[i]
      {
        if start <= i < start + 8 {
          assert w[i - start] == ZERO.Coefficients()[i - start];
        }
      }
      assert BitsOf(f) == BitsOf(g);
      BitsOfInjective(f, g);
    }
  }

  // ------------------------------------------------------- the order of x

  /** x^8 modulo the generator: the register after a single one bit. */
  const X8 := Reg(false, false, false, false, false, true, true, true)

  function Iterate(r: bv8, n: nat): bv8 {
    if n == 0 then r else ShiftZero(Iterate(r, n - 1))
  }

  lemma {:induction false} IterateConcat(r: bv8, m: nat, n: nat)
    ensures Iterate(r, m + n) == Iterate(Iterate(r, m), n)
  {
    if n > 0 {
      hide ShiftZero;
      IterateConcat(r, m, n - 1);
    }
  }

  /** Every eighth register value on the way from x^8 back to x^8. */
  const ORBIT: seq<bv8> := [
    0x07, 0x15, 0x6b, 0x16, 0x62, 0x29, 0xdf, 0x13, 0x79, 0x68, 0x1f, 0x5d, 0x94, 0xe5, 0xb5, 0x02]

  lemma IterateFew(r: bv8)
    ensures Iterate(r, 0) == r && Iterate(r, 1) == ShiftZero(r)
    ensures Iterate(r, 2) == ShiftZero(ShiftZero(r)) && Iterate(r, 3) == ShiftZero(ShiftZero(ShiftZero(r)))
    ensures forall k :: 1 <= k <= 8 ==> Iterate(r, k) == ShiftZero(Iterate(r, k - 1))
    ensures Iterate(r, 8) == ShiftByte(r)
  {
    hide ShiftZero;
    assert Iterate(r, 4) == ShiftZero(Iterate(r, 3));
    assert Iterate(r, 5) == ShiftZero(Iterate(r, 4));
    assert Iterate(r, 6) == ShiftZero(Iterate(r, 5));
    assert Iterate(r, 7) == ShiftZero(Iterate(r, 6));
  }

  /** Starting at r, x^8 does not come up in the next eight values. */
  predicate Away(r: bv8) {
    var r2 := ShiftZero(ShiftZero(r));
    var r4 := ShiftZero(ShiftZero(r2));
    var r6 := ShiftZero(ShiftZero(r4));
    && r != 0x07 && ShiftZero(r) != 0x07 && r2 != 0x07 && ShiftZero(r2) != 0x07
    && r4 != 0x07 && ShiftZero(r4) != 0x07 && r6 != 0x07 && ShiftZero(r6) != 0x07
  }

  lemma OrbitStep(a: nat)
    requires a < 15
    ensures ShiftByte(ORBIT[a]) == ORBIT[a + 1]
  {
  }

  lemma {:induction false} OrbitAt(a: nat)
    requires a < 16
    ensures Iterate(0x07, 8 * a) == ORBIT[a]
  {
    if a > 0 {
      OrbitAt(a - 1);
      hide ShiftZero, ShiftByte;
      IterateConcat(0x07, 8 * (a - 1), 8);
      IterateFew(ORBIT[a - 1]);
      OrbitStep(a - 1);
    }
  }

  lemma MiddleAway(a: nat)
    requires 1 <= a <= 14
    ensures Away(ORBIT[a])
  {
  }

  lemma EndsAway(c: nat)
    requires c < 8
    ensures c > 0 ==> Iterate(0x07, c) != 0x07
    ensures c < 7 ==> Iterate(0x02, c) != 0x07
    ensures Iterate(0x02, 7) == 0x07
  {
    IterateFew(0x07);
    IterateFew(0x02);
  }

  lemma AwayIterate(r: bv8, c: nat)
    requires c < 8 && Away(r)
    ensures Iterate(r, c) != 0x07
  {
    hide ShiftZero;
    IterateFew(r);
    assert Iterate(r, 4) == ShiftZero(Iterate(r, 3));
    assert Iterate(r, 5) == ShiftZero(Iterate(r, 4));
    assert Iterate(r, 6) == ShiftZero(Iterate(r, 5));
    assert Iterate(r, 7) == ShiftZero(Iterate(r, 6));
  }

  /** x has order 127 modulo the generator. */
  lemma OrderBelow(m: nat)
    requires m <= 127
    ensures Iterate(0x07, m) == 0x07 <==> m == 0 || m == 127
  {
    hide ShiftZero, Away, Iterate;
    var a, c := m / 8, m % 8;
    OrbitAt(a);
    IterateConcat(0x07, 8 * a, c);
    EndsAway(c);
    if m == 0 {
      IterateFew(0x07);
    } else if 1 <= a <= 14 {
      MiddleAway(a);
      AwayIterate(ORBIT[a], c);
    }
  }

  lemma {:induction false} Order(d: nat)
    ensures Iterate(0x07, d) == 0x07 <==> d % 127 == 0
  {
    if d < 127 {
      OrderBelow(d);
    } else {
      hide ShiftZero, Iterate;
      Order(d - 127);
      IterateConcat(0x07, 127, d - 127);
      OrderBelow(127);
    }
  }

  lemma {:induction false} UnpackIterate(r: bv8, n: nat)
    ensures Unpack(Iterate(r, n)) == ShiftZeros(Unpack(r), n)
  {
    if n > 0 {
      hide Unpack, ShiftZero, Shift;
      UnpackIterate(r, n - 1);
      UnpackShift(Iterate(r, n - 1));
    }
  }

  // ---------------------------------------------------------- two-bit changes

  lemma UnpackSeven()
    ensures Unpack(0x07) == X8
  {
  }

  lemma OneBit(r: Reg)
    ensures Shift(r, true) == ZERO <==> Shift(r, false) == X8
    ensures Shift(ZERO, true) == X8
  {
  }

  lemma SingleBit(r: Reg)
    ensures BitRun(r, [true]) == Shift(r, true)
  {
    assert [true][..0] == [];
  }

  /** Two one bits at distance d are divisible by the generator exactly when 127 divides d. */
  lemma TwoBits(w: Poly)
    requires |w| >= 2 && w[0] && w[|w| - 1]
    requires forall i :: 0 < i < |w| - 1 ==> !w[i]
    ensures BitRun(ZERO, w) == ZERO <==> (|w| - 1) % 127 == 0
  {
    var n := |w| - 1;
    var gap := w[1..n];
    assert w == ([true] + gap) + [true];
    assert ShiftZeros(X8, n) == Shift(ShiftZeros(X8, n - 1), false);
    hide BitRun, Shift, ShiftZeros, Unpack, Iterate;
    BitRunConcat(ZERO, [true] + gap, [true]);
    BitRunConcat(ZERO, [true], gap);
    SingleBit(ZERO);
    SingleBit(BitRun(ZERO, [true] + gap));
    OneBit(BitRun(ZERO, [true] + gap));
    BitRunZeros(X8, gap);
    UnpackSeven();
    UnpackIterate(0x07, n);
    Order(n);
    if ShiftZeros(X8, n) == X8 {
      UnpackInjective(Iterate(0x07, n), 0x07);
    }
  }

  lemma {:induction false} NoOnes(bits: Poly)
    requires Weight(bits) == 0
    ensures forall i :: 0 <= i < |bits| ==> !bits[i]
  {
    if bits != [] {
      var n := |bits| - 1;
      NoOnes(bits[..n]);
      assert forall i :: 0 <= i < n ==> bits[i] == bits[..n][i];
    }
  }

  lemma {:induction false} LastOne(bits: Poly) returns (j: nat)
    requires Weight(bits) > 0
    ensures j < |bits| && bits[j] && Weight(bits[..j]) == Weight(bits) - 1
    ensures forall i :: j < i < |bits| ==> !bits[i]
  {
    var n := |bits| - 1;
    if bits[n] {
      j := n;
    } else {
      j := LastOne(bits[..n]);
      assert bits[..n][..j] == bits[..j];
      assert forall i :: 0 <= i < n ==> bits[i] == bits[..n][i];
    }
  }

  /** A change of exactly two bits passes exactly when their distance is a multiple of 127. */
  lemma TwoBitChanges(f: seq<bv8>, g: seq<bv8>) returns (i: nat, j: nat)
    requires CrcOk(f) && |f| == |g|
    requires Weight(Errors(f, g)) == 2
    ensures i < j < 8 * |f| && Errors(f, g)[i] && Errors(f, g)[j]
    ensures CrcOk(g) <==> (j - i) % 127 == 0
  {
    hide BitRun, CrcOk, Errors;
    var e := Errors(f, g);
    i, j := TwoOnes(e);
    Undetected(f, g);
    Trim(e, i, j + 1);
    TwoBits(e[i..j + 1]);
  }

  lemma TwoOnes(e: Poly) returns (i: nat, j: nat)
    requires Weight(e) == 2
    ensures i < j < |e| && e[i] && e[j]
    ensures forall k :: 0 <= k < |e| && e[k] ==> k == i || k == j
  {
    hide Weight;
    j := LastOne(e);
    i := LastOne(e[..j]);
    NoOnes(e[..j][..i]);
    assert forall k :: 0 <= k < i ==> e[k] == e[..j][..i][k];
    assert forall k :: i < k < j ==> e[k] == e[..j][k];
  }

  /** No frame of at most 15 bytes (a CAN frame has at most 11) is one, two or three bit
      changes away from another frame that passes. */
  lemma FewBitChangesRejected(f: seq<bv8>, g: seq<bv8>)
    requires CrcOk(f) && |f| == |g| <= 15
    requires 1 <= Weight(Errors(f, g)) <= 3
    ensures !CrcOk(g)
  {
    if Weight(Errors(f, g)) == 2 {
      var i, j := TwoBitChanges(f, g);
    } else {
      OddChangesRejected(f, g);
    }
  }

  lemma CoefficientIs(r: Reg, k: nat)
    requires k < 8
    ensures r.Coefficients()[k] == r.Coefficient(k)
  {
  }

  lemma {:induction false} BitsOfAt(f: seq<bv8>, i: nat, k: nat)
    requires i < |f| && k < 8
    ensures BitsOf(f)[8 * i + k] == Unpack(f[i]).Coefficient(k)
  {
    hide Unpack, Reg.Coefficient, Reg.Coefficients;
    var n := |f| - 1;
    if i < n {
      BitsOfAt(f[..n], i, k);
    } else {
      CoefficientIs(Unpack(f[n]), k);
    }
  }

  lemma FlippedFirst(b: bv8)
    ensures Unpack(b ^ 0x80) == Unpack(b).(b7 := !Unpack(b).b7)
  {
  }

  lemma FlippedLast(b: bv8)
    ensures Unpack(b ^ 0x01) == Unpack(b).(b0 := !Unpack(b).b0)
  {
  }

  lemma FlippedCoefficient(r: Reg, k: nat)
    requires k < 8
    ensures r.(b7 := !r.b7).Coefficient(k) == (r.Coefficient(k) != (k == 0))
    ensures r.(b0 := !r.b0).Coefficient(k) == (r.Coefficient(k) != (k == 7))
  {
  }

  lemma ErrorAt(f: seq<bv8>, g: seq<bv8>, i: nat, j: nat)
    requires |f| == |g| && i < |f| && j < 8
    ensures Errors(f, g)[8 * i + j] == (Unpack(f[i]).Coefficient(j) != Unpack(g[i]).Coefficient(j))
  {
    hide Unpack, BitsOf, Reg.Coefficient;
    BitsOfAt(f, i, j);
    BitsOfAt(g, i, j);
  }

  lemma FlippedErrors(f: seq<bv8>, g: seq<bv8>, k: nat)
    requires |f| >= 16 && g == f[0 := f[0] ^ 0x80][15 := f[15] ^ 0x01]
    requires k < 8 * |f|
    ensures Errors(f, g)[k] == (k == 0 || k == 127)
  {
    hide Unpack, Errors, Reg.Coefficient;
    var i, j := k / 8, k % 8;
    ErrorAt(f, g, i, j);
    FlippedCoefficient(Unpack(f[i]), j);
    if i == 0 {
      FlippedFirst(f[i]);
    } else if i == 15 {
      FlippedLast(f[i]);
    }
  }

  /** Fifteen bytes is the exact bound: every accepted frame of 16 bytes or more has an accepted
      neighbour two bit changes away, in the first bit of byte 0 and the last bit of byte 15. */
  lemma LongFramesCollide(f: seq<bv8>)
    requires CrcOk(f) && |f| >= 16
    ensures var g := f[0 := f[0] ^ 0x80][15 := f[15] ^ 0x01];
            CrcOk(g) && forall k :: 0 <= k < 8 * |f| ==> Errors(f, g)[k] == (k == 0 || k == 127)
  {
    hide BitRun, CrcOk, Errors;
    var g := f[0 := f[0] ^ 0x80][15 := f[15] ^ 0x01];
    var e := Errors(f, g);
    forall k | 0 <= k < 8 * |f|
      ensures e[k] == (k == 0 || k == 127)
    {
      FlippedErrors(f, g, k);
    }
    Undetected(f, g);
    Trim(e, 0, 128);
    TwoBits(e[0..128]);
  }

  // ----------------------------------------------------- choosing a checksum

  /** Division by x: undoes one shift of the register. */
  function ShiftBack(r: bv8): bv8 {
    if r & 0x01 != 0 then ((r ^ 0x07) >> 1) | 0x80 else r >> 1
  }

  lemma ShiftForth(r: bv8)
    ensures ShiftZero(ShiftBack(r)) == r
  {
  }

  function ByteBack(r: bv8): bv8 {
    ShiftBack(ShiftBack(ShiftBack(ShiftBack(ShiftBack(ShiftBack(ShiftBack(ShiftBack(r))))))))
  }

  lemma ByteForth(r: bv8)
    ensures ShiftByte(ByteBack(r)) == r
  {
    hide ShiftZero, ShiftBack;
    var r1 := ShiftBack(r);
    var r2 := ShiftBack(r1);
    var r3 := ShiftBack(r2);
    var r4 := ShiftBack(r3);
    var r5 := ShiftBack(r4);
    var r6 := ShiftBack(r5);
    var r7 := ShiftBack(r6);
    ShiftForth(r);
    ShiftForth(r1);
    ShiftForth(r2);
    ShiftForth(r3);
    ShiftForth(r4);
    ShiftForth(r5);
    ShiftForth(r6);
    ShiftForth(r7);
  }

  function Plus(a: bv8, b: bv8): bv8 {
    a ^ b
  }

  lemma PlusMoves(a: bv8, b: bv8, c: bv8)
    ensures Plus(a, b) == c <==> b == Plus(a, c)
    ensures Plus(a, b) == c <==> a == Plus(c, b)
  {
    hide Plus;
    PlusTwice(a, b);
    PlusTwice(a, c);
    PlusTwice(b, a);
    PlusTwice(b, c);
  }

  lemma PlusTwice(a: bv8, b: bv8)
    ensures Plus(a, Plus(a, b)) == b && Plus(Plus(b, a), a) == b
  {
  }

  /** The byte, or the register before it, that leads to a given register value. */
  lemma StepBack(r: bv8, b: bv8, target: bv8)
    ensures ShiftByte(Plus(r, b)) == target <==> b == Plus(r, ByteBack(target))
    ensures ShiftByte(Plus(r, b)) == target <==> r == Plus(ByteBack(target), b)
  {
    hide ShiftByte, ByteBack, Plus;
    ByteForth(target);
    ShiftByteInjective(Plus(r, b), ByteBack(target));
    PlusMoves(r, b, ByteBack(target));
  }

  lemma RegisterAppend(data: seq<bv8>, b: bv8)
    ensures Register(0, data + [b]) == ShiftByte(Plus(Register(0, data), b))
  {
    assert (data + [b])[..|data|] == data;
  }

  /** The free byte between prefix and suffix that leads the register to a given value. */
  function Choice(prefix: seq<bv8>, suffix: seq<bv8>, target: bv8): bv8
    decreases |suffix|
  {
    if suffix == [] then Plus(Register(0, prefix), ByteBack(target))
    else Choice(prefix, suffix[..|suffix| - 1], Plus(ByteBack(target), suffix[|suffix| - 1]))
  }

  /** With one free byte anywhere in a message every register value is reached by exactly one choice. */
  lemma {:induction false} FreeByte(prefix: seq<bv8>, suffix: seq<bv8>, target: bv8, c: bv8)
    ensures Register(0, prefix + [c] + suffix) == target <==> c == Choice(prefix, suffix, target)
    decreases |suffix|
  {
    hide ShiftByte, ByteBack, Register, Plus;
    if suffix == [] {
      assert prefix + [c] + suffix == prefix + [c];
      RegisterAppend(prefix, c);
      StepBack(Register(0, prefix), c, target);
    } else {
      var n := |suffix| - 1;
      var before := prefix + [c] + suffix[..n];
      FreeByte(prefix, suffix[..n], Plus(ByteBack(target), suffix[n]), c);
      assert prefix + [c] + suffix == before + [suffix[n]];
      RegisterAppend(before, suffix[n]);
      StepBack(Register(0, before), suffix[n], target);
    }
  }

  /** Whatever the other bytes of a frame are, exactly one value of any one byte makes it pass: the check
      byte itself, or any byte before it. */
  lemma OneCheckByte(prefix: seq<bv8>, suffix: seq<bv8>) returns (b: bv8)
    ensures forall c :: CrcOk(prefix + [c] + suffix) <==> c == b
  {
    hide CrcOk, Register, Choice;
    b := Choice(prefix, suffix, 0xf3);
    forall c
      ensures CrcOk(prefix + [c] + suffix) <==> c == b
    {
      FreeByte(prefix, suffix, 0xf3, c);
      Residue(prefix + [c] + suffix);
    }
  }
}
