/**
 The multiplication routine `addmul` of src/encrypt02.c.

 The C bit arrays hold one 0/1 byte per bit; here they are arrays of booleans, so that `^=` and
 `&` on such bytes are `!=` and `&&`.
 */
module Addmul {
  import opened Bytes
  import opened Gf128

  /** The bits of a block, as a field element. */
  function ElemOf(b: Block): Elem {
    Bits(b)
  }

  lemma BitsXor(x: Block, y: Block)
    ensures ElemOf(XorBytes(x, y)) == Xor(ElemOf(x), ElemOf(y))
  {
    forall i | 0 <= i < 128
      ensures ElemOf(XorBytes(x, y))[i] == Xor(ElemOf(x), ElemOf(y))[i]
    {
      BitAtXor(x[i / 8], y[i / 8], i % 8);
    }
  }

  lemma BitsZero()
    ensures Bits(ZeroBytes(16)) == ZERO
  {
    forall i | 0 <= i < 128
      ensures !Bits(ZeroBytes(16))[i]
    {
      BitAtZero(i % 8);
    }
  }

  /** (y + x) • h with x padded by zero bytes: a step of GHASH. */
  function HashStep(h: Block, y: Block, x: seq<byte>): Block
    requires |x| <= 16
  {
    BlockOf(Dot(Xor(ElemOf(y), ElemOf(Pad(x))), ElemOf(h)))
  }

  /** The bits of a byte array, extracted as by the loops at the top of `addmul`. */
  method ExtractBits(a: array<byte>) returns (bits: array<bool>)
    requires a.Length == 16
    ensures fresh(bits) && bits[..] == Bits(a[..])
  {
    bits := new bool[128];
    var i := 0;
    while i < 128
      invariant 0 <= i <= 128
      invariant forall k :: 0 <= k < i ==> bits[k] == BitAt(a[k / 8], k % 8)
    {
      bits[i] := (a[i / 8] & Mask(i % 8)) != 0;
      i := i + 1;
    }
  }

  /** Row i of the convolution: prod += x^i * y when bit i of x is set. */
  method ConvolveRow(prod: array<bool>, x: bool, ybits: array<bool>, i: nat)
    requires prod.Length == 256 && ybits.Length == 128 && i < 128 && prod != ybits
    modifies prod
    ensures Residue(prod[..]) == if x then Xor(old(Residue(prod[..])), V(ybits[..], i)) else old(Residue(prod[..]))
  {
    ghost var start := Residue(prod[..]);
    ghost var y: Elem := ybits[..];
    XorZero(start);
    var j := 0;
    while j < 128
      invariant 0 <= j <= 128
      invariant y == ybits[..]
      invariant Residue(prod[..]) == if x then Xor(start, Z(y, V(ONE, i), j)) else start
    {
      ghost var before := prod[..];
      prod[i + j] := prod[i + j] != (x && ybits[j]);
      if x && y[j] {
        assert prod[..] == before[i + j := !before[i + j]];
        ResidueToggle(before, i + j, ONE, 256);
        VAdd(ONE, i, j);
        XorAssoc(start, Z(y, V(ONE, i), j), V(ONE, i + j));
      } else {
        assert prod[..] == before;
      }
      j := j + 1;
    }
    ZV(y, ONE, 128, i);
    ZOneIdentity(y);
  }

  /** The double loop: a bit array whose residue is the product of x and y. */
  method Convolve(xbits: array<bool>, ybits: array<bool>) returns (prod: array<bool>)
    requires xbits.Length == 128 && ybits.Length == 128
    ensures fresh(prod) && prod.Length == 256
    ensures Residue(prod[..]) == Dot(xbits[..], ybits[..])
  {
    prod := new bool[256](_ => false);
    ZeroResidue(prod[..], 256);
    var i := 0;
    while i < 128
      invariant 0 <= i <= 128
      invariant Residue(prod[..]) == Z(xbits[..], ybits[..], i)
    {
      ConvolveRow(prod, xbits[i], ybits, i);
      i := i + 1;
    }
  }

  /** prod[k] ^= prod[h], a step of the reduction. */
  method Feed(prod: array<bool>, k: nat, h: nat)
    requires prod.Length == 256 && k < 256 && h < 256 && k != h
    modifies prod
    ensures prod[..] == old(prod[..])[k := (old(prod[k]) != old(prod[h]))]
    ensures Residue(prod[..]) == if old(prod[h]) then Xor(old(Residue(prod[..])), V(ONE, k)) else old(Residue(prod[..]))
  {
    ghost var before := prod[..];
    prod[k] := prod[k] != prod[h];
    if before[h] {
      assert prod[..] == before[k := !before[k]];
      ResidueToggle(before, k, ONE, 256);
    } else {
      assert prod[..] == before;
    }
  }

  /** prod[h] ^= prod[h]. */
  method Clear(prod: array<bool>, h: nat)
    requires prod.Length == 256 && h < 256
    modifies prod
    ensures prod[..] == old(prod[..])[h := false]
    ensures Residue(prod[..]) == if old(prod[h]) then Xor(old(Residue(prod[..])), V(ONE, h)) else old(Residue(prod[..]))
  {
    ghost var before := prod[..];
    prod[h] := prod[h] != prod[h];
    if before[h] {
      assert prod[..] == before[h := !before[h]];
      ResidueToggle(before, h, ONE, 256);
    } else {
      assert prod[..] == before;
    }
  }

  lemma ReductionCancels(e: Elem, i: nat)
    ensures Xor(Xor(Xor(Xor(Xor(e, V(ONE, i)), V(ONE, i + 1)), V(ONE, i + 2)), V(ONE, i + 7)), V(ONE, i + 128)) == e
  {
    var a, b, c, d, h := V(ONE, i), V(ONE, i + 1), V(ONE, i + 2), V(ONE, i + 7), V(ONE, i + 128);
    ModulusShifted(i);
    assert h == Xor(Xor(a, b), Xor(c, d));
  }

  /** The body of the reduction loop: coefficient i + 128 is cleared, the residue is kept. */
  method ReduceStep(prod: array<bool>, i: nat)
    requires prod.Length == 256 && i < 128
    modifies prod
    ensures Residue(prod[..]) == old(Residue(prod[..]))
    ensures !prod[i + 128] && forall k :: i + 128 < k < 256 ==> prod[k] == old(prod[k])
  {
    ReductionCancels(Residue(prod[..]), i);
    Feed(prod, i, i + 128);
    Feed(prod, i + 1, i + 128);
    Feed(prod, i + 2, i + 128);
    Feed(prod, i + 7, i + 128);
    Clear(prod, i + 128);
  }

  /** Descending reduction: the coefficients above x^127 are fed back and cleared one by one. */
  method Reduce(prod: array<bool>)
    requires prod.Length == 256
    modifies prod
    ensures prod[..128] == old(Residue(prod[..]))
    ensures forall k :: 128 <= k < 256 ==> !prod[k]
  {
    ghost var e := Residue(prod[..]);
    var i := 127;
    while i >= 0
      invariant -1 <= i <= 127
      invariant Residue(prod[..]) == e
      invariant forall k :: i + 129 <= k < 256 ==> !prod[k]
    {
      ReduceStep(prod, i);
      i := i - 1;
    }
    ResidueHighZero(prod[..], 128, 256);
    ZPrefix(prod[..], prod[..128], ONE, 128);
    ZOneIdentity(prod[..128]);
  }

  /** The closing loops: the low 128 coefficients become the 16 bytes of a. */
  method PackBits(a: array<byte>, prod: array<bool>)
    requires a.Length == 16 && prod.Length == 256
    modifies a
    ensures Bits(a[..]) == prod[..128]
  {
    var i := 0;
    while i < 16
      invariant 0 <= i <= 16
      invariant forall k :: 0 <= k < i ==> a[k] == 0
    {
      a[i] := 0;
      i := i + 1;
    }
    BitsZero();
    assert a[..] == ZeroBytes(16);
    i := 0;
    while i < 128
      invariant 0 <= i <= 128
      invariant forall k :: 0 <= k < 128 ==> BitAt(a[k / 8], k % 8) == (k < i && prod[k])
    {
      label Before:
      a[i / 8] := a[i / 8] | (if prod[i] then Mask(i % 8) else 0);
      forall k | 0 <= k < 128
        ensures BitAt(a[k / 8], k % 8) == (k < i + 1 && prod[k])
      {
        if k / 8 == i / 8 {
          BitAtSet(old@Before(a[i / 8]), i % 8, k % 8);
        }
      }
      i := i + 1;
    }
  }

  /**
   a = (a + x) * y in the field, where x is implicitly padded with zero bytes.  The bytes of x beyond xlen
   that the C code never reads are not part of the parameter.
   */
  method AddMul(a: array<byte>, x: seq<byte>, y: array<byte>)
    requires a.Length == 16 && y.Length == 16 && |x| <= 16 && a != y
    modifies a
    ensures a[..] == HashStep(y[..], old(a[..]), x)
  {
    ghost var sum: Block := XorBytes(a[..], Pad(x));
    BitsXor(a[..], Pad(x));
    var i := 0;
    while i < |x|
      invariant 0 <= i <= |x|
      invariant forall k :: 0 <= k < 16 ==> a[k] == if k < i then old(a[k]) ^ x[k] else old(a[k])
    {
      a[i] := a[i] ^ x[i];
      i := i + 1;
    }
    forall k | 0 <= k < 16
      ensures a[k] == sum[k]
    {
      assert old(a[k]) ^ 0 == old(a[k]);
    }
    assert a[..] == sum;
    var abits := ExtractBits(a);
    var ybits := ExtractBits(y);
    var prod := Convolve(abits, ybits);
    Reduce(prod);
    PackBits(a, prod);
    BlockOfBits(a[..]);
  }
}
