/** Bytes, blocks and their bits. */
module Bytes {

  type byte = bv8

  function ZeroBytes(n: nat): (b: seq<byte>)
    ensures |b| == n
  {
    seq(n, _ => 0)
  }

  type Block = b: seq<byte> | |b| == 16 witness ZeroBytes(16)

  /** The exclusive or of s with the leftmost |s| bytes of t. */
  function XorBytes(s: seq<byte>, t: seq<byte>): (r: seq<byte>)
    requires |s| <= |t|
    ensures |r| == |s| && forall i :: 0 <= i < |s| ==> r[i] == s[i] ^ t[i]
  {
    seq(|s|, i requires 0 <= i < |s| => s[i] ^ t[i])
  }

  lemma XorBytesTwice(s: seq<byte>, t: seq<byte>)
    requires |s| <= |t|
    ensures XorBytes(XorBytes(s, t), t) == s
  {
    forall i | 0 <= i < |s|
      ensures (s[i] ^ t[i]) ^ t[i] == s[i]
    {
    }
  }

  /** s, extended on the right with zero bytes to a whole block. */
  function Pad(s: seq<byte>): Block
    requires |s| <= 16
  {
    s + ZeroBytes(16 - |s|)
  }

  // ----- bits of a byte, numbered from the most significant one

  function Mask(k: nat): byte
    requires k < 8
  {
    0x80 >> k
  }

  predicate BitAt(b: byte, k: nat)
    requires k < 8
  {
    b & Mask(k) != 0
  }

  lemma MaskValues()
    ensures Mask(0) == 0x80 && Mask(1) == 0x40 && Mask(2) == 0x20 && Mask(3) == 0x10
    ensures Mask(4) == 0x08 && Mask(5) == 0x04 && Mask(6) == 0x02 && Mask(7) == 0x01
  {
  }

  lemma BitAtZero(k: nat)
    requires k < 8
    ensures !BitAt(0, k)
  {
  }

  lemma BitAtXor(a: byte, b: byte, k: nat)
    requires k < 8
    ensures BitAt(a ^ b, k) == (BitAt(a, k) != BitAt(b, k))
  {
    MaskValues();
    XorMask(a, b, Mask(k));
  }

  lemma XorMask(a: byte, b: byte, m: byte)
    requires m in {0x80, 0x40, 0x20, 0x10, 0x08, 0x04, 0x02, 0x01}
    ensures ((a ^ b) & m != 0) == ((a & m != 0) != (b & m != 0))
  {
  }

  /** Or-ing a one bit into place k sets that bit and no other. */
  lemma BitAtSet(b: byte, k: nat, m: nat)
    requires k < 8 && m < 8
    ensures BitAt(b | Mask(k), m) == (m == k || BitAt(b, m))
  {
    MaskValues();
  }

  lemma SameBits(a: byte, b: byte)
    requires forall k :: 0 <= k < 8 ==> BitAt(a, k) == BitAt(b, k)
    ensures a == b
  {
    MaskValues();
    assert BitAt(a, 0) == BitAt(b, 0) && BitAt(a, 1) == BitAt(b, 1);
    assert BitAt(a, 2) == BitAt(b, 2) && BitAt(a, 3) == BitAt(b, 3);
    assert BitAt(a, 4) == BitAt(b, 4) && BitAt(a, 5) == BitAt(b, 5);
    assert BitAt(a, 6) == BitAt(b, 6) && BitAt(a, 7) == BitAt(b, 7);
  }

  // ----- bits of a byte string

  function Bits(s: seq<byte>): (r: seq<bool>)
    ensures |r| == 8 * |s|
    ensures forall i :: 0 <= i < 8 * |s| ==> r[i] == BitAt(s[i / 8], i % 8)
  {
    seq(8 * |s|, i requires 0 <= i < 8 * |s| => BitAt(s[i / 8], i % 8))
  }

  lemma BitsInjective(s: seq<byte>, t: seq<byte>)
    requires |s| == |t| && Bits(s) == Bits(t)
    ensures s == t
  {
    forall i | 0 <= i < |s|
      ensures s[i] == t[i]
    {
      forall k | 0 <= k < 8
        ensures BitAt(s[i], k) == BitAt(t[i], k)
      {
        assert Bits(s)[8 * i + k] == Bits(t)[8 * i + k];
      }
      SameBits(s[i], t[i]);
    }
  }

  /** The byte with the given bits, most significant first. */
  function ByteOf(bits: seq<bool>): (b: byte)
    requires |bits| == 8
    ensures forall k :: 0 <= k < 8 ==> BitAt(b, k) == bits[k]
  {
    var b: byte :=
      (if bits[0] then 0x80 else 0) | (if bits[1] then 0x40 else 0)
      | (if bits[2] then 0x20 else 0) | (if bits[3] then 0x10 else 0)
      | (if bits[4] then 0x08 else 0) | (if bits[5] then 0x04 else 0)
      | (if bits[6] then 0x02 else 0) | (if bits[7] then 0x01 else 0);
    assert forall k :: 0 <= k < 8 ==> BitAt(b, k) == bits[k] by {
      MaskValues();
      assert BitAt(b, 0) == bits[0] && BitAt(b, 1) == bits[1] && BitAt(b, 2) == bits[2] && BitAt(b, 3) == bits[3];
      assert BitAt(b, 4) == bits[4] && BitAt(b, 5) == bits[5] && BitAt(b, 6) == bits[6] && BitAt(b, 7) == bits[7];
    }
    b
  }

  /** The block with the given 128 bits: the inverse of `Bits` on blocks. */
  function BlockOf(e: seq<bool>): (b: Block)
    requires |e| == 128
    ensures Bits(b) == e
  {
    seq(16, i requires 0 <= i < 16 => ByteOf(e[8 * i..8 * i + 8]))
  }

  lemma BlockOfBits(b: Block)
    ensures BlockOf(Bits(b)) == b
  {
    BitsInjective(BlockOf(Bits(b)), b);
  }

  // ----- big-endian integers

  /** The k low-order bits of u. */
  function LowBits(u: nat, k: nat): byte
    requires k <= 8
    decreases u, k
  {
    if k == 0 then 0 else (LowBits(u / 2, k - 1) << 1) | (if u % 2 == 1 then 1 else 0)
  }

  /** u truncated to a byte. */
  function LowByte(u: nat): byte {
    LowBits(u, 8)
  }

  /** The n low-order bytes of u, most significant first. */
  function BigEndian(u: nat, n: nat): (s: seq<byte>)
    ensures |s| == n
    decreases u, n
  {
    if n == 0 then [] else BigEndian(u / 256, n - 1) + [LowByte(u)]
  }

  /** The big-endian integer s plus one, modulo 256^|s|. */
  function Increment(s: seq<byte>): (r: seq<byte>)
    ensures |r| == |s|
  {
    if s == [] then []
    else
      var rest, low := s[..|s| - 1], s[|s| - 1];
      if low == 0xff then Increment(rest) + [0] else rest + [low + 1]
  }

  function Ones(k: nat): byte
    requires k <= 8
  {
    if k == 0 then 0 else (Ones(k - 1) << 1) | 1
  }

  /** The k low-order bits of u are all set. */
  predicate AllOnes(u: nat, k: nat)
    decreases u, k
  {
    k == 0 || (u % 2 == 1 && AllOnes(u / 2, k - 1))
  }

  lemma OnesValues(k: nat)
    requires k < 8
    ensures Ones(k) in {0, 1, 3, 7, 15, 31, 63, 127}
  {
    assert Ones(0) == 0 && Ones(1) == 1 && Ones(2) == 3 && Ones(3) == 7;
    assert Ones(4) == 15 && Ones(5) == 31 && Ones(6) == 63 && Ones(7) == 127;
  }

  lemma ShiftIncrement(x: byte, m: byte)
    requires m in {0, 1, 3, 7, 15, 31, 63, 127} && x & m == x
    ensures ((x + 1) & m) << 1 == (((x << 1) | 1) + 1) & ((m << 1) | 1)
    ensures (x << 1) | 1 == ((x << 1) + 1) & ((m << 1) | 1)
    ensures ((x << 1) | 1) & ((m << 1) | 1) == (x << 1) | 1 && (x << 1) & ((m << 1) | 1) == x << 1
    ensures (x == m) == ((x << 1) | 1 == (m << 1) | 1) && x << 1 != (m << 1) | 1
  {
  }

  lemma {:induction false} LowBitsSucc(u: nat, k: nat)
    requires k <= 8
    ensures LowBits(u, k) & Ones(k) == LowBits(u, k)
    ensures LowBits(u + 1, k) == (LowBits(u, k) + 1) & Ones(k)
    ensures LowBits(u, k) == Ones(k) <==> AllOnes(u, k)
  {
    if k == 0 {
    } else {
      LowBitsSucc(u / 2, k - 1);
      OnesValues(k - 1);
      ShiftIncrement(LowBits(u / 2, k - 1), Ones(k - 1));
      assert (u + 1) / 2 == if u % 2 == 0 then u / 2 else u / 2 + 1;
    }
  }

  lemma AllOnes8(u: nat)
    ensures AllOnes(u, 8) <==> u % 256 == 255
  {
    AllOnes4(u);
    AllOnes4(u / 16);
    Nibbles(u);
  }

  lemma Nibbles(u: nat)
    ensures u % 256 == 255 <==> u % 16 == 15 && u / 16 % 16 == 15
  {
    assert u % 256 == 16 * (u / 16 % 16) + u % 16;
  }

  lemma AllOnes4(u: nat)
    ensures AllOnes(u, 4) <==> u % 16 == 15
    ensures AllOnes(u, 8) <==> AllOnes(u, 4) && AllOnes(u / 16, 4)
    ensures u / 2 / 2 / 2 / 2 == u / 16
  {
    var u1 := u / 2;
    var u2 := u1 / 2;
    var u3 := u2 / 2;
    var u4 := u3 / 2;
    assert AllOnes(u, 4) <==> u % 2 == 1 && AllOnes(u1, 3);
    assert AllOnes(u1, 3) <==> u1 % 2 == 1 && AllOnes(u2, 2);
    assert AllOnes(u2, 2) <==> u2 % 2 == 1 && AllOnes(u3, 1);
    assert AllOnes(u3, 1) <==> u3 % 2 == 1 && AllOnes(u4, 0);
    assert u == 16 * u4 + 8 * (u3 % 2) + 4 * (u2 % 2) + 2 * (u1 % 2) + u % 2;
    assert AllOnes(u, 8) <==> u % 2 == 1 && AllOnes(u1, 7);
    assert AllOnes(u1, 7) <==> u1 % 2 == 1 && AllOnes(u2, 6);
    assert AllOnes(u2, 6) <==> u2 % 2 == 1 && AllOnes(u3, 5);
    assert AllOnes(u3, 5) <==> u3 % 2 == 1 && AllOnes(u4, 4);
  }

  lemma {:induction false} BigEndianSucc(u: nat, n: nat)
    ensures Increment(BigEndian(u, n)) == BigEndian(u + 1, n)
  {
    if n == 0 {
    } else {
      BigEndianSucc(u / 256, n - 1);
      LowBitsSucc(u, 8);
      assert Ones(8) == 0xff;
      AllOnes8(u);
      var s := BigEndian(u, n);
      assert s[..n - 1] == BigEndian(u / 256, n - 1);
      assert (u + 1) / 256 == if u % 256 == 255 then u / 256 + 1 else u / 256;
    }
  }
}
