/**
 The bit-matrix transposes around the bitsliced cipher (backends/f3/bs.c and backends/f6/bs.c).
 In memory, words 2k and 2k + 1 hold block k; in planes, lane k of word p holds bit p of it.

 bs_transpose_dst keeps the mask of its lane in an int.  The mask of lane 31 is negative there and
 becomes lanes 31 to 63 when it is widened again; the masks of lanes 32 to 63 are lost.
 */
module Transposes {
  import opened Bytes
  import opened Circuits
  import opened SBoxes
  import opened Words
  import opened Planes

  // ----- memory

  /** Bit p of block k. */
  function MemBit(s: seq<Lanes>, k: nat, p: nat): bit
    requires IsState(s) && k < 64 && p < 128
  {
    if p < 64 then s[2 * k][p] else s[2 * k + 1][p - 64]
  }

  /** The block with the given bits, least significant first in every byte. */
  function BlockOfBits(b: nat -> bit): (x: Block)
    ensures forall m: nat :: m < 16 ==> x[m] == ByteFrom(ByteBits(b, m))
  {
    seq(16, m requires 0 <= m < 16 => ByteFrom(ByteBits(b, m)))
  }

  function ByteBits(b: nat -> bit, m: nat): Wires<bit> {
    Wires(b(8 * m), b(8 * m + 1), b(8 * m + 2), b(8 * m + 3), b(8 * m + 4), b(8 * m + 5), b(8 * m + 6), b(8 * m + 7))
  }

  /** Block k, as bytes. */
  function MemBlock(s: seq<Lanes>, k: nat): Block
    requires IsState(s) && k < 64
  {
    BlockOfBits((p: nat) => if p < 128 then MemBit(s, k, p) else 0)
  }

  lemma SameBlocks(b: nat -> bit, c: nat -> bit)
    requires forall p: nat :: p < 128 ==> b(p) == c(p)
    ensures BlockOfBits(b) == BlockOfBits(c)
  {
    forall m: nat | m < 16
      ensures ByteBits(b, m) == ByteBits(c, m)
    {
    }
  }

  lemma LaneBlockBits(t: seq<Lanes>, l: nat)
    requires IsState(t) && l < 64
    ensures LaneBlock(t, l) == BlockOfBits((p: nat) => if p < 128 then t[p][l] else 0)
  {
    var b := (p: nat) => if p < 128 then t[p][l] else 0;
    forall m: nat | m < 16
      ensures Map(LaneOf(l), OctetAt(t, m)) == ByteBits(b, m)
    {
    }
  }

  // ----- what the transposes do

  /** The block that ends up in lane l. */
  function Source(l: nat): nat {
    if l < 32 then l else 31
  }

  ghost predicate Transposed(s: seq<Lanes>, t: seq<Lanes>) {
    IsState(s) && IsState(t) && forall p: nat, l: nat :: p < 128 && l < 64 ==> t[p][l] == MemBit(s, Source(l), p)
  }

  ghost predicate Untransposed(t: seq<Lanes>, s: seq<Lanes>) {
    IsState(t) && IsState(s) && forall k: nat, p: nat :: k < 64 && p < 128 ==> MemBit(s, k, p) == t[p][k]
  }

  lemma TransposedLane(s: seq<Lanes>, t: seq<Lanes>, l: nat)
    requires Transposed(s, t) && l < 64
    ensures LaneBlock(t, l) == MemBlock(s, Source(l))
  {
    LaneBlockBits(t, l);
    var b := (p: nat) => if p < 128 then t[p][l] else 0;
    var c := (p: nat) => if p < 128 then MemBit(s, Source(l), p) else 0;
    SameBlocks(b, c);
  }

  lemma UntransposedBlock(t: seq<Lanes>, s: seq<Lanes>, k: nat)
    requires Untransposed(t, s) && k < 64
    ensures MemBlock(s, k) == LaneBlock(t, k)
  {
    LaneBlockBits(t, k);
    var b := (p: nat) => if p < 128 then t[p][k] else 0;
    var c := (p: nat) => if p < 128 then MemBit(s, k, p) else 0;
    SameBlocks(b, c);
  }

  /** Blocks 32 to 63 are copies of block 31. */
  ghost predicate UpperCopies(s: seq<Lanes>) {
    IsState(s) && forall k: nat :: 32 <= k < 64 ==> s[2 * k] == s[62] && s[2 * k + 1] == s[63]
  }

  /** Transposing and transposing back is the identity on exactly these states. */
  lemma RoundTrip(s: seq<Lanes>, t: seq<Lanes>, u: seq<Lanes>)
    requires Transposed(s, t) && Untransposed(t, u)
    ensures forall k: nat :: k < 64 ==> u[2 * k] == s[2 * Source(k)] && u[2 * k + 1] == s[2 * Source(k) + 1]
    ensures u == s <==> UpperCopies(s)
  {
    forall k: nat | k < 64
      ensures u[2 * k] == s[2 * Source(k)] && u[2 * k + 1] == s[2 * Source(k) + 1]
    {
      RoundTripBlock(s, t, u, k);
    }
    if UpperCopies(s) {
      forall i | 0 <= i < 128
        ensures u[i] == s[i]
      {
        var k := i / 2;
        assert k < 64 && (i == 2 * k || i == 2 * k + 1);
        assert u[2 * k] == s[2 * Source(k)] && u[2 * k + 1] == s[2 * Source(k) + 1];
      }
    }
  }

  /** A block in lane 40 alone is lost: bitpos is a 32-bit int, so only lanes 0..31 are read. */
  lemma UpperLaneLost(s: seq<Lanes>, t: seq<Lanes>, u: seq<Lanes>)
    requires IsState(s) && s[80] != Zero() && (forall i :: 0 <= i < 128 && i != 80 ==> s[i] == Zero())
    requires Transposed(s, t) && Untransposed(t, u)
    ensures u != s && u[80] == Zero()
  {
    RoundTrip(s, t, u);
    assert s[62] == Zero() && s[2 * 40] != s[62];
    assert u[2 * 40] == s[2 * Source(40)];
  }

  lemma RoundTripBlock(s: seq<Lanes>, t: seq<Lanes>, u: seq<Lanes>, k: nat)
    requires Transposed(s, t) && Untransposed(t, u) && k < 64
    ensures u[2 * k] == s[2 * Source(k)] && u[2 * k + 1] == s[2 * Source(k) + 1]
  {
    forall b | 0 <= b < 64
      ensures u[2 * k][b] == s[2 * Source(k)][b]
    {
      assert MemBit(u, k, b) == t[b][k] == MemBit(s, Source(k), b);
    }
    var high, high' := u[2 * k + 1], s[2 * Source(k) + 1];
    forall b | 0 <= b < 64
      ensures high[b] == high'[b]
    {
      assert MemBit(u, k, b + 64) == t[b + 64][k] == MemBit(s, Source(k), b + 64);
    }
  }

  // ----- masks

  function Or(a: Lanes, b: Lanes): (r: Lanes)
    ensures forall l :: 0 <= l < 64 ==> r[l] == a[l] | b[l]
  {
    seq(64, l requires 0 <= l < 64 => a[l] | b[l])
  }

  /** ONE << k. */
  function One(k: nat): (r: Lanes)
    ensures forall l :: 0 <= l < 64 ==> r[l] == if l == k then 1 else 0
  {
    seq(64, l requires 0 <= l < 64 => if l == k then 1 else 0)
  }

  /** A word put into an int, and widened again: bit 31 becomes the sign. */
  function AsInt(w: Lanes): (r: Lanes)
    ensures forall l :: 0 <= l < 64 ==> r[l] == w[Source(l)]
  {
    seq(64, l requires 0 <= l < 64 => w[Source(l)])
  }

  /** a |= b ? mask : 0. */
  function OrIf(a: Lanes, b: bit, mask: Lanes): (r: Lanes)
    ensures forall l :: 0 <= l < 64 ==> r[l] == a[l] | (b & mask[l])
  {
    Or(a, if b == 1 then mask else Zero())
  }

  // ----- bs_transpose_dst and bs_transpose

  /** The blocks below k have been gathered. */
  ghost predicate Gathered(s: seq<Lanes>, t: seq<Lanes>, k: nat) {
    && IsState(s) && IsState(t)
    && forall p: nat, l: nat :: p < 128 && l < 64 ==>
      t[p][l] == if Source(l) < k then MemBit(s, Source(l), p) else 0
  }

  /** One word of a block: the innermost loop. */
  method TransposeWord(dst: array<Lanes>, w: Lanes, offset: nat, bitpos: Lanes)
    requires offset + 64 <= dst.Length
    modifies dst
    ensures forall p :: 0 <= p < dst.Length ==>
      dst[p] == if offset <= p < offset + 64 then OrIf(old(dst[p]), w[p - offset], bitpos) else old(dst[p])
  {
    var j := 0;
    while j < 64
      invariant 0 <= j <= 64
      invariant forall p :: 0 <= p < dst.Length ==>
        dst[p] == if offset <= p < offset + j then OrIf(old(dst[p]), w[p - offset], bitpos) else old(dst[p])
    {
      dst[offset + j] := OrIf(dst[offset + j], w[j], bitpos);
      j := j + 1;
    }
  }

  /** Both words of a block. */
  method TransposeBlock(dst: array<Lanes>, w0: Lanes, w1: Lanes, bitpos: Lanes)
    requires dst.Length == 128
    modifies dst
    ensures forall p :: 0 <= p < 128 ==> dst[p] == OrIf(old(dst[p]), if p < 64 then w0[p] else w1[p - 64], bitpos)
  {
    TransposeWord(dst, w0, 0, bitpos);
    TransposeWord(dst, w1, 64, bitpos);
  }

  lemma GatheredStep(s: seq<Lanes>, t: seq<Lanes>, t': seq<Lanes>, k: nat)
    requires Gathered(s, t, k) && IsState(t') && k < 64
    requires forall p: nat :: p < 128 ==> t'[p] == OrIf(t[p], MemBit(s, k, p), AsInt(One(k)))
    ensures Gathered(s, t', k + 1)
  {
    forall p: nat, l: nat | p < 128 && l < 64
      ensures t'[p][l] == if Source(l) < k + 1 then MemBit(s, Source(l), p) else 0
    {
      GatheredBit(t[p][l], MemBit(s, k, p), AsInt(One(k))[l]);
      assert AsInt(One(k))[l] == if Source(l) == k then 1 else 0;
    }
  }

  lemma GatheredBit(a: bit, b: bit, mask: bit)
    ensures mask == 0 ==> a | (b & mask) == a
    ensures mask == 1 && a == 0 ==> a | (b & mask) == b
  {
  }

  method TransposeDst(dst: array<Lanes>, blocks: array<Lanes>)
    requires dst.Length == 128 && blocks.Length == 128 && dst != blocks
    requires Gathered(blocks[..], dst[..], 0)
    modifies dst
    ensures Transposed(blocks[..], dst[..])
  {
    var k := 0;
    while k < 64
      invariant 0 <= k <= 64
      invariant Gathered(blocks[..], dst[..], k)
    {
      ghost var before := dst[..];
      var bitpos := AsInt(One(k));
      TransposeBlock(dst, blocks[k * 2 + 0], blocks[k * 2 + 1], bitpos);
      GatheredStep(blocks[..], before, dst[..], k);
      k := k + 1;
    }
  }

  method Transpose(blocks: array<Lanes>)
    requires blocks.Length == 128
    modifies blocks
    ensures Transposed(old(blocks[..]), blocks[..])
  {
    var transpose := new Lanes[128](_ => Zero());
    TransposeDst(transpose, blocks);
    ghost var t := transpose[..];
    Move(blocks, transpose);
    assert blocks[..] == t;
  }

  /** memmove of a whole state. */
  method Move(dst: array<Lanes>, src: array<Lanes>)
    requires dst.Length == 128 && src.Length == 128
    modifies dst
    ensures dst[..] == old(src[..])
  {
    forall i | 0 <= i < 128 {
      dst[i] := src[i];
    }
  }

  // ----- bs_transpose_rev

  /** The planes below n have been scattered. */
  ghost predicate Scattered(t: seq<Lanes>, s: seq<Lanes>, n: nat) {
    && IsState(t) && IsState(s)
    && forall k: nat, p: nat :: k < 64 && p < 128 ==>
      MemBit(s, k, p) == if p < n then t[p][k] else 0
  }

  /** One plane: the inner loop. */
  method ScatterPlane(dst: array<Lanes>, w: Lanes, offset: nat, bitpos: Lanes)
    requires dst.Length == 128 && offset < 2
    modifies dst
    ensures forall k :: 0 <= k < 64 ==> dst[2 * k + offset] == OrIf(old(dst[2 * k + offset]), w[k], bitpos)
    ensures forall k :: 0 <= k < 64 ==> dst[2 * k + (1 - offset)] == old(dst[2 * k + (1 - offset)])
  {
    var j := 0;
    while j < 64
      invariant 0 <= j <= 64
      invariant forall k :: 0 <= k < 64 ==>
        dst[2 * k + offset] == if k < j then OrIf(old(dst[2 * k + offset]), w[k], bitpos) else old(dst[2 * k + offset])
      invariant forall k :: 0 <= k < 64 ==> dst[2 * k + (1 - offset)] == old(dst[2 * k + (1 - offset)])
    {
      dst[j * 2 + offset] := OrIf(dst[j * 2 + offset], w[j], bitpos);
      j := j + 1;
    }
  }

  lemma ScatteredStep(t: seq<Lanes>, s: seq<Lanes>, s': seq<Lanes>, n: nat)
    requires Scattered(t, s, n) && IsState(s') && n < 128
    requires forall k: nat :: k < 64 ==> s'[2 * k + n / 64] == OrIf(s[2 * k + n / 64], t[n][k], One(n % 64))
    requires forall k: nat :: k < 64 ==> s'[2 * k + (1 - n / 64)] == s[2 * k + (1 - n / 64)]
    ensures Scattered(t, s', n + 1)
  {
    forall k: nat, p: nat | k < 64 && p < 128
      ensures MemBit(s', k, p) == if p < n + 1 then t[p][k] else 0
    {
      var o, b := p / 64, p % 64;
      assert MemBit(s, k, p) == s[2 * k + o][b] && MemBit(s', k, p) == s'[2 * k + o][b];
      GatheredBit(s[2 * k + o][b], t[n][k], One(n % 64)[b]);
      if o == n / 64 {
        assert s'[2 * k + o] == OrIf(s[2 * k + o], t[n][k], One(n % 64));
      } else {
        assert s'[2 * k + o] == s[2 * k + o];
      }
    }
  }

  method ScatterAll(transpose: array<Lanes>, blocks: array<Lanes>)
    requires transpose.Length == 128 && blocks.Length == 128 && transpose != blocks
    requires Scattered(blocks[..], transpose[..], 0)
    modifies transpose
    ensures Untransposed(blocks[..], transpose[..])
  {
    var k := 0;
    while k < 128
      invariant 0 <= k <= 128
      invariant Scattered(blocks[..], transpose[..], k)
    {
      ghost var before := transpose[..];
      var w := blocks[k];
      var bitpos := One(k % 64);
      var offset := k / 64;
      ScatterPlane(transpose, w, offset, bitpos);
      ScatteredStep(blocks[..], before, transpose[..], k);
      k := k + 1;
    }
  }

  method TransposeRev(blocks: array<Lanes>)
    requires blocks.Length == 128
    modifies blocks
    ensures Untransposed(old(blocks[..]), blocks[..])
  {
    var transpose := new Lanes[128](_ => Zero());
    ScatterAll(transpose, blocks);
    ghost var s := transpose[..];
    Move(blocks, transpose);
    assert blocks[..] == s;
  }
}
