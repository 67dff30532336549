/**
 The field GF(2^128) of section 6.3 of NIST SP 800-38D.

 An element is the sequence of its 128 bits, bit 0 being the leftmost bit of the block, that
 is, the coefficient of x^0.  The modulus is x^128 + x^7 + x^2 + x + 1.
 */
module Gf128 {

  type Elem = e: seq<bool> | |e| == 128 witness ZeroBits()

  function ZeroBits(): (e: seq<bool>)
    ensures |e| == 128
  {
    seq(128, _ => false)
  }

  const ZERO: Elem := ZeroBits()

  /** The multiplicative identity, the polynomial 1. */
  const ONE: Elem := Basis(0)

  /** The constant R of section 6.3: 11100001 followed by 120 zero bits. */
  const R_POLY: Elem := Low([true, true, true, false, false, false, false, true])

  /** The monomial x^k. */
  function Basis(k: nat): Elem {
    seq(128, i => i == k)
  }

  /** The polynomial whose low coefficients are given. */
  function Low(bits: seq<bool>): (e: Elem)
    requires |bits| <= 128
  {
    bits + seq(128 - |bits|, _ => false)
  }

  function Xor(a: Elem, b: Elem): (c: Elem)
    ensures forall i :: 0 <= i < 128 ==> c[i] == (a[i] != b[i])
  {
    seq(128, i requires 0 <= i < 128 => a[i] != b[i])
  }

  /** V >> 1: every bit moves one place to the right, a zero enters on the left. */
  function ShiftRight(v: Elem): (r: Elem)
    ensures !r[0] && forall i :: 1 <= i < 128 ==> r[i] == v[i - 1]
  {
    [false] + v[..127]
  }

  /** One step of the sequence V_0, V_1, ... of Algorithm 1: multiplication by x. */
  function TimesX(v: Elem): Elem {
    if v[127] then Xor(ShiftRight(v), R_POLY) else ShiftRight(v)
  }

  /** V_i of Algorithm 1, started from V_0 = y. */
  function V(y: Elem, i: nat): Elem {
    if i == 0 then y else TimesX(V(y, i - 1))
  }

  /**
   Z_n of Algorithm 1.  The bit string x may have any length: with x longer than 128 bits
   and y == ONE this is the residue of the polynomial x, see `Residue`.
   */
  function Z(x: seq<bool>, y: Elem, n: nat): Elem
    requires n <= |x|
  {
    if n == 0 then ZERO
    else if x[n - 1] then Xor(Z(x, y, n - 1), V(y, n - 1))
    else Z(x, y, n - 1)
  }

  /** The product x • y of Algorithm 1. */
  function Dot(x: Elem, y: Elem): Elem {
    Z(x, y, 128)
  }

  /** The residue of a polynomial with any number of coefficients. */
  function Residue(p: seq<bool>): Elem {
    Z(p, ONE, |p|)
  }

  function Power(h: Elem, n: nat): Elem {
    if n == 0 then ONE else Dot(Power(h, n - 1), h)
  }

  // ----- exclusive or is an abelian group operation of exponent two

  lemma XorZero(a: Elem)
    ensures Xor(a, ZERO) == a && Xor(ZERO, a) == a && Xor(a, a) == ZERO
  {
    assert Xor(ZERO, a) == a;
  }

  lemma XorComm(a: Elem, b: Elem)
    ensures Xor(a, b) == Xor(b, a)
  {
  }

  lemma XorAssoc(a: Elem, b: Elem, c: Elem)
    ensures Xor(Xor(a, b), c) == Xor(a, Xor(b, c))
  {
  }

  lemma XorSwap(a: Elem, b: Elem, c: Elem, d: Elem)
    ensures Xor(Xor(a, b), Xor(c, d)) == Xor(Xor(a, c), Xor(b, d))
  {
  }

  // ----- multiplication by x is linear, and so are V and Z in both arguments

  lemma TimesXLinear(a: Elem, b: Elem)
    ensures TimesX(Xor(a, b)) == Xor(TimesX(a), TimesX(b))
  {
  }

  lemma TimesXZero()
    ensures TimesX(ZERO) == ZERO
  {
  }

  lemma {:induction false} VLinear(a: Elem, b: Elem, i: nat)
    ensures V(Xor(a, b), i) == Xor(V(a, i), V(b, i))
  {
    if i > 0 {
      VLinear(a, b, i - 1);
      TimesXLinear(V(a, i - 1), V(b, i - 1));
    }
  }

  lemma {:induction false} VAdd(y: Elem, i: nat, j: nat)
    ensures V(V(y, i), j) == V(y, i + j)
  {
    if j > 0 {
      VAdd(y, i, j - 1);
    }
  }

  lemma {:induction false} VTimesX(y: Elem, i: nat)
    ensures V(TimesX(y), i) == TimesX(V(y, i))
  {
    VAdd(y, 1, i);
    VAdd(y, i, 1);
    assert V(y, 1) == TimesX(y);
    assert V(V(y, i), 1) == TimesX(V(y, i));
  }

  lemma {:induction false} ZLinearRight(x: seq<bool>, a: Elem, b: Elem, n: nat)
    requires n <= |x|
    ensures Z(x, Xor(a, b), n) == Xor(Z(x, a, n), Z(x, b, n))
  {
    if n == 0 {
      XorZero(ZERO);
    } else {
      ZLinearRight(x, a, b, n - 1);
      VLinear(a, b, n - 1);
      XorSwap(Z(x, a, n - 1), Z(x, b, n - 1), V(a, n - 1), V(b, n - 1));
    }
  }

  lemma {:induction false} ZZero(x: seq<bool>, n: nat)
    requires n <= |x|
    ensures V(ZERO, n) == ZERO && Z(x, ZERO, n) == ZERO
  {
    if n > 0 {
      ZZero(x, n - 1);
      TimesXZero();
      XorZero(ZERO);
    }
  }

  lemma {:induction false} ZLinearLeft(a: Elem, b: Elem, y: Elem, n: nat)
    requires n <= 128
    ensures Z(Xor(a, b), y, n) == Xor(Z(a, y, n), Z(b, y, n))
  {
    if n == 0 {
      XorZero(ZERO);
    } else {
      ZLinearLeft(a, b, y, n - 1);
      var za, zb, v := Z(a, y, n - 1), Z(b, y, n - 1), V(y, n - 1);
      XorZero(v);
      XorZero(ZERO);
      XorSwap(za, v, zb, v);
      XorAssoc(za, v, zb);
      XorComm(v, zb);
      XorAssoc(za, zb, v);
      XorZero(Xor(za, zb));
    }
  }

  /** Multiplying by x commutes with multiplying by any polynomial. */
  lemma {:induction false} ZTimesX(x: seq<bool>, y: Elem, n: nat)
    requires n <= |x|
    ensures Z(x, TimesX(y), n) == TimesX(Z(x, y, n))
  {
    if n == 0 {
      TimesXZero();
    } else {
      ZTimesX(x, y, n - 1);
      VTimesX(y, n - 1);
      TimesXLinear(Z(x, y, n - 1), V(y, n - 1));
    }
  }

  lemma {:induction false} ZV(x: seq<bool>, y: Elem, n: nat, j: nat)
    requires n <= |x|
    ensures Z(x, V(y, j), n) == V(Z(x, y, n), j)
  {
    if j > 0 {
      ZV(x, y, n, j - 1);
      ZTimesX(x, V(y, j - 1), n);
    }
  }

  /** Multiplications by two polynomials commute. */
  lemma {:induction false} ZCommute(x: seq<bool>, n: nat, y: seq<bool>, m: nat, w: Elem)
    requires n <= |x| && m <= |y|
    ensures Z(x, Z(y, w, m), n) == Z(y, Z(x, w, n), m)
  {
    if m == 0 {
      ZZero(x, n);
    } else {
      ZCommute(x, n, y, m - 1, w);
      ZLinearRight(x, Z(y, w, m - 1), V(w, m - 1), n);
      ZV(x, w, n, m - 1);
    }
  }

  // ----- the monomials form the standard basis

  lemma {:induction false} VOneIsBasis(k: nat)
    requires k < 128
    ensures V(ONE, k) == Basis(k)
  {
    if k > 0 {
      VOneIsBasis(k - 1);
      assert TimesX(Basis(k - 1)) == Basis(k);
    }
  }

  lemma {:induction false} ZOnePrefix(x: seq<bool>, n: nat)
    requires n <= |x| && n <= 128
    ensures forall i :: 0 <= i < 128 ==> Z(x, ONE, n)[i] == (i < n && x[i])
  {
    if n > 0 {
      ZOnePrefix(x, n - 1);
      VOneIsBasis(n - 1);
    }
  }

  /** A polynomial of degree below 128 is its own residue. */
  lemma ZOneIdentity(x: Elem)
    ensures Z(x, ONE, 128) == x && Residue(x) == x
  {
    ZOnePrefix(x, 128);
  }

  /** x^(k+128) = x^k + x^(k+1) + x^(k+2) + x^(k+7): the modulus, shifted. */
  lemma ModulusShifted(k: nat)
    ensures V(ONE, k + 128) == Xor(Xor(V(ONE, k), V(ONE, k + 1)), Xor(V(ONE, k + 2), V(ONE, k + 7)))
  {
    VOneIsBasis(127);
    assert V(ONE, 128) == TimesX(Basis(127)) == R_POLY;
    assert R_POLY == Xor(Xor(Basis(0), Basis(1)), Xor(Basis(2), Basis(7)));
    VOneIsBasis(0);
    VOneIsBasis(1);
    VOneIsBasis(2);
    VOneIsBasis(7);
    VAdd(ONE, 128, k);
    VLinear(Xor(Basis(0), Basis(1)), Xor(Basis(2), Basis(7)), k);
    VLinear(Basis(0), Basis(1), k);
    VLinear(Basis(2), Basis(7), k);
    VAdd(ONE, 0, k);
    VAdd(ONE, 1, k);
    VAdd(ONE, 2, k);
    VAdd(ONE, 7, k);
  }

  // ----- the field laws

  lemma DotOne(x: Elem)
    ensures Dot(x, ONE) == x && Dot(ONE, x) == x
  {
    ZOneIdentity(x);
    DotComm(x, ONE);
  }

  lemma DotComm(x: Elem, y: Elem)
    ensures Dot(x, y) == Dot(y, x)
  {
    ZOneIdentity(x);
    ZOneIdentity(y);
    ZCommute(x, 128, y, 128, ONE);
  }

  lemma DotAssoc(x: Elem, y: Elem, z: Elem)
    ensures Dot(Dot(x, y), z) == Dot(x, Dot(y, z))
  {
    DotComm(Dot(x, y), z);
    ZCommute(z, 128, x, 128, y);
    DotComm(z, y);
  }

  lemma DotDistributes(a: Elem, b: Elem, y: Elem)
    ensures Dot(Xor(a, b), y) == Xor(Dot(a, y), Dot(b, y))
  {
    ZLinearLeft(a, b, y, 128);
  }

  // ----- residues of longer bit strings

  /** Changing one coefficient of p changes its residue by the matching power of x. */
  lemma {:induction false} ResidueToggle(p: seq<bool>, k: nat, y: Elem, n: nat)
    requires k < n <= |p|
    ensures Z(p[k := !p[k]], y, n) == Xor(Z(p, y, n), V(y, k))
  {
    var q := p[k := !p[k]];
    var v := V(y, n - 1);
    if k == n - 1 {
      ZPrefix(p, q, y, n - 1);
      var z := Z(p, y, n - 1);
      XorAssoc(z, v, v);
      XorZero(v);
      XorZero(z);
    } else {
      ResidueToggle(p, k, y, n - 1);
      var z, w := Z(p, y, n - 1), V(y, k);
      XorAssoc(z, w, v);
      XorComm(w, v);
      XorAssoc(z, v, w);
    }
  }

  lemma {:induction false} ZPrefix(p: seq<bool>, q: seq<bool>, y: Elem, n: nat)
    requires n <= |p| && n <= |q| && p[..n] == q[..n]
    ensures Z(p, y, n) == Z(q, y, n)
  {
    if n > 0 {
      assert p[..n][n - 1] == p[n - 1] && q[..n][n - 1] == q[n - 1];
      assert p[..n][..n - 1] == p[..n - 1] && q[..n][..n - 1] == q[..n - 1];
      ZPrefix(p, q, y, n - 1);
    }
  }

  /** Leading zero coefficients do not change the residue. */
  lemma {:induction false} ResidueHighZero(p: seq<bool>, m: nat, n: nat)
    requires m <= n <= |p|
    requires forall i :: m <= i < n ==> !p[i]
    ensures Z(p, ONE, n) == Z(p, ONE, m)
  {
    if m < n {
      ResidueHighZero(p, m, n - 1);
    }
  }

  lemma {:induction false} ZeroResidue(p: seq<bool>, n: nat)
    requires n <= |p| && forall i :: 0 <= i < n ==> !p[i]
    ensures Z(p, ONE, n) == ZERO
  {
    ResidueHighZero(p, 0, n);
  }
}
