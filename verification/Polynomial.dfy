/** Polynomials over GF(2), written as coefficient sequences with the highest power first. */
module Polynomial {

  type Poly = seq<bool>

  /** A polynomial of degree below 8: the width of the checksum register. */
  datatype Reg = Reg(b7: bool, b6: bool, b5: bool, b4: bool, b3: bool, b2: bool, b1: bool, b0: bool) {

    function Coefficients(): (p: Poly)
      ensures |p| == 8
    {
      [b7, b6, b5, b4, b3, b2, b1, b0]
    }

    /** Coefficient i, counted from the highest power; zero outside the register. */
    predicate Coefficient(i: int) {
      if i == 0 then b7 else if i == 1 then b6 else if i == 2 then b5 else if i == 3 then b4
      else if i == 4 then b3 else if i == 5 then b2 else if i == 6 then b1 else if i == 7 then b0
      else false
    }
  }

  /** Coefficient i of a polynomial, zero outside its width. */
  predicate At(p: Poly, i: int) {
    0 <= i < |p| && p[i]
  }

  /** Coefficient i of q * (x^8 + x^2 + x + 1), a polynomial eight coefficients wider than q. */
  predicate ProductAt(q: Poly, i: int) {
    ((At(q, i) != At(q, i - 6)) != At(q, i - 7)) != At(q, i - 8)
  }

  /** Coefficient i of message * x^8 == quotient * (x^8 + x^2 + x + 1) + rest. */
  predicate DividesAt(message: Poly, quotient: Poly, rest: Reg, i: int) {
    At(message, i) == (ProductAt(quotient, i) != rest.Coefficient(i - |message|))
  }

  /** message * x^8 == quotient * (x^8 + x^2 + x + 1) + rest, where the rest has degree below 8. */
  ghost predicate Divides(message: Poly, quotient: Poly, rest: Reg) {
    && |quotient| == |message|
    && forall i :: 0 <= i < |message| + 8 ==> DividesAt(message, quotient, rest, i)
  }

  /** rest is the remainder of message * x^8 modulo x^8 + x^2 + x + 1. */
  ghost predicate IsRemainder(message: Poly, rest: Reg) {
    exists quotient :: Divides(message, quotient, rest)
  }

  /** Products that agree on their high coefficients come from the same factor. */
  lemma {:induction false} QuotientUnique(q: Poly, p: Poly, n: nat)
    requires |q| == |p| && n <= |q|
    requires forall i :: 0 <= i < n ==> ProductAt(q, i) == ProductAt(p, i)
    ensures q[..n] == p[..n]
  {
    if n > 0 {
      QuotientUnique(q, p, n - 1);
      forall k | 0 <= k < n - 1
        ensures q[k] == p[k]
      {
        assert q[..n - 1][k] == p[..n - 1][k];
      }
      assert ProductAt(q, n - 1) == ProductAt(p, n - 1);
    }
  }

  /** Division has only one remainder. */
  lemma RemainderUnique(message: Poly, r: Reg, s: Reg)
    requires IsRemainder(message, r) && IsRemainder(message, s)
    ensures r == s
  {
    var q :| Divides(message, q, r);
    var p :| Divides(message, p, s);
    var n := |message|;
    forall i | 0 <= i < n
      ensures ProductAt(q, i) == ProductAt(p, i)
    {
      assert DividesAt(message, q, r, i) && DividesAt(message, p, s, i);
    }
    QuotientUnique(q, p, n);
    assert q == q[..n] == p[..n] == p;
    forall i | 0 <= i < 8
      ensures r.Coefficient(i) == s.Coefficient(i)
    {
      assert DividesAt(message, q, r, n + i) && DividesAt(message, q, s, n + i);
    }
    CoefficientsDecide(r, s);
  }

  lemma CoefficientsDecide(r: Reg, s: Reg)
    requires forall i :: 0 <= i < 8 ==> r.Coefficient(i) == s.Coefficient(i)
    ensures r == s
  {
    assert r.Coefficient(0) == s.Coefficient(0) && r.Coefficient(1) == s.Coefficient(1);
    assert r.Coefficient(2) == s.Coefficient(2) && r.Coefficient(3) == s.Coefficient(3);
    assert r.Coefficient(4) == s.Coefficient(4) && r.Coefficient(5) == s.Coefficient(5);
    assert r.Coefficient(6) == s.Coefficient(6) && r.Coefficient(7) == s.Coefficient(7);
  }

  /** Appending a coefficient to the factor adds a shifted copy of the generator to the product. */
  lemma ProductAppend(q: Poly, t: bool, i: int)
    ensures ProductAt(q + [t], i)
         == (ProductAt(q, i) != (t && (i == |q| || |q| + 6 <= i <= |q| + 8)))
  {
    assert forall k :: At(q + [t], k) == (At(q, k) || (k == |q| && t));
  }
}
