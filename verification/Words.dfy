/**
 The words of the bitsliced backends, backends/f3/bs.c and backends/f6/bs.c: a word is 64 lanes,
 lane k being bit k, and every operation on words acts on all lanes at once.
 */
module Words {
  import opened Bytes
  import opened Circuits
  import opened Fips197
  import opened SBoxes
  import opened Linear

  function Zero(): seq<bit>
    ensures |Zero()| == 64
  {
    seq(64, _ => 0)
  }

  /** word_t. */
  type Lanes = w: seq<bit> | |w| == 64 witness Zero()

  function Xor(a: Lanes, b: Lanes): (r: Lanes)
    ensures forall k :: 0 <= k < 64 ==> r[k] == AddBit(a[k], b[k])
  {
    seq(64, k requires 0 <= k < 64 => AddBit(a[k], b[k]))
  }

  function And(a: Lanes, b: Lanes): (r: Lanes)
    ensures forall k :: 0 <= k < 64 ==> r[k] == a[k] & b[k]
  {
    seq(64, k requires 0 <= k < 64 => a[k] & b[k])
  }

  function Not(a: Lanes): (r: Lanes)
    ensures forall k :: 0 <= k < 64 ==> r[k] == a[k] ^ 1
  {
    seq(64, k requires 0 <= k < 64 => a[k] ^ 1)
  }

  function WordGates(): Gates<Lanes> {
    Gates(Xor, And, Not)
  }

  // ----- one lane

  /** The eight planes of a byte. */
  type Octet = Wires<Lanes>

  function LaneOf(k: nat): Lanes -> bit
    requires k < 64
  {
    (w: Lanes) => w[k]
  }

  function LaneByte(u: Octet, k: nat): byte
    requires k < 64
  {
    ByteFrom(Map(LaneOf(k), u))
  }

  lemma LaneByteBits(u: Octet, k: nat)
    requires k < 64
    ensures BitsOf(LaneByte(u, k)) == Map(LaneOf(k), u)
  {
    BitsOfByteFrom(Map(LaneOf(k), u));
  }

  lemma LaneHom(k: nat)
    requires k < 64
    ensures Hom(WordGates(), BitGates(), LaneOf(k))
  {
  }

  lemma LaneAdditive(k: nat)
    requires k < 64
    ensures Additive(Xor, AddBit, LaneOf(k))
  {
  }

  lemma SumLane(a: Octet, b: Octet, k: nat)
    requires k < 64
    ensures LaneByte(Sum(Xor, a, b), k) == LaneByte(a, k) ^ LaneByte(b, k)
  {
    LaneByteBits(a, k);
    LaneByteBits(b, k);
    SumIsPlus(LaneByte(a, k), LaneByte(b, k));
    assert Map(LaneOf(k), Sum(Xor, a, b)) == Sum(AddBit, Map(LaneOf(k), a), Map(LaneOf(k), b));
    ByteFromBitsOf(Plus(LaneByte(a, k), LaneByte(b, k)));
  }

  // ----- bs_sbox and bs_sbox_rev, lane by lane

  lemma SboxLane(u: Octet, k: nat)
    requires k < 64
    ensures LaneByte(SboxCircuit(WordGates(), u), k) == SBox(LaneByte(u, k))
  {
    LaneHom(k);
    SboxPerWire(WordGates(), BitGates(), LaneOf(k), u);
    LaneByteBits(u, k);
    CircuitIsTable(LaneByte(u, k));
    ByteFromBitsOf(SBox(LaneByte(u, k)));
  }

  lemma InvSboxLane(u: Octet, k: nat)
    requires k < 64
    ensures LaneByte(InvSboxCircuit(WordGates(), u), k) == InvSBox(LaneByte(u, k))
  {
    LaneHom(k);
    InvSboxPerWire(WordGates(), BitGates(), LaneOf(k), u);
    LaneByteBits(u, k);
  }

  // ----- the rows of bs_mixcolumns and bs_mixcolumns_rev, lane by lane

  /** The lanes of four octets, as the bits of four bytes. */
  lemma ColumnBits(a0: Octet, a1: Octet, a2: Octet, a3: Octet, k: nat)
    requires k < 64
    ensures Map(LaneOf(k), a0) == BitsOf(LaneByte(a0, k)) && Map(LaneOf(k), a1) == BitsOf(LaneByte(a1, k))
    ensures Map(LaneOf(k), a2) == BitsOf(LaneByte(a2, k)) && Map(LaneOf(k), a3) == BitsOf(LaneByte(a3, k))
  {
    LaneByteBits(a0, k);
    LaneByteBits(a1, k);
    LaneByteBits(a2, k);
    LaneByteBits(a3, k);
  }

  lemma MixLane0(a0: Octet, a1: Octet, a2: Octet, a3: Octet, k: nat)
    requires k < 64
    ensures var b0, b1, b2, b3 := LaneByte(a0, k), LaneByte(a1, k), LaneByte(a2, k), LaneByte(a3, k);
      LaneByte(MixRow0(Xor, a0, a1, a2, a3), k) == MixByte(b0, b1, b2, b3)
  {
    var b0, b1, b2, b3 := LaneByte(a0, k), LaneByte(a1, k), LaneByte(a2, k), LaneByte(a3, k);
    LaneAdditive(k);
    ColumnBits(a0, a1, a2, a3, k);
    MixRowsPerWire(Xor, AddBit, LaneOf(k), a0, a1, a2, a3);
    MixRowBits(BitsOf(b0), BitsOf(b1), BitsOf(b2), BitsOf(b3));
    MixedByte(b0, b1, b2, b3);
  }

  lemma MixLane1(a0: Octet, a1: Octet, a2: Octet, a3: Octet, k: nat)
    requires k < 64
    ensures var b0, b1, b2, b3 := LaneByte(a0, k), LaneByte(a1, k), LaneByte(a2, k), LaneByte(a3, k);
      LaneByte(MixRow1(Xor, a0, a1, a2, a3), k) == MixByte(b1, b2, b3, b0)
  {
    var b0, b1, b2, b3 := LaneByte(a0, k), LaneByte(a1, k), LaneByte(a2, k), LaneByte(a3, k);
    LaneAdditive(k);
    ColumnBits(a0, a1, a2, a3, k);
    MixRowsPerWire(Xor, AddBit, LaneOf(k), a0, a1, a2, a3);
    MixRowBits(BitsOf(b0), BitsOf(b1), BitsOf(b2), BitsOf(b3));
    MixedByte(b1, b2, b3, b0);
  }

  lemma MixLane2(a0: Octet, a1: Octet, a2: Octet, a3: Octet, k: nat)
    requires k < 64
    ensures var b0, b1, b2, b3 := LaneByte(a0, k), LaneByte(a1, k), LaneByte(a2, k), LaneByte(a3, k);
      LaneByte(MixRow2(Xor, a0, a1, a2, a3), k) == MixByte(b2, b3, b0, b1)
  {
    var b0, b1, b2, b3 := LaneByte(a0, k), LaneByte(a1, k), LaneByte(a2, k), LaneByte(a3, k);
    LaneAdditive(k);
    ColumnBits(a0, a1, a2, a3, k);
    MixRowsPerWire(Xor, AddBit, LaneOf(k), a0, a1, a2, a3);
    MixRowBits(BitsOf(b0), BitsOf(b1), BitsOf(b2), BitsOf(b3));
    MixedByte(b2, b3, b0, b1);
  }

  lemma MixLane3(a0: Octet, a1: Octet, a2: Octet, a3: Octet, k: nat)
    requires k < 64
    ensures var b0, b1, b2, b3 := LaneByte(a0, k), LaneByte(a1, k), LaneByte(a2, k), LaneByte(a3, k);
      LaneByte(MixRow3(Xor, a0, a1, a2, a3), k) == MixByte(b3, b0, b1, b2)
  {
    var b0, b1, b2, b3 := LaneByte(a0, k), LaneByte(a1, k), LaneByte(a2, k), LaneByte(a3, k);
    LaneAdditive(k);
    ColumnBits(a0, a1, a2, a3, k);
    MixRowsPerWire(Xor, AddBit, LaneOf(k), a0, a1, a2, a3);
    MixRowBits(BitsOf(b0), BitsOf(b1), BitsOf(b2), BitsOf(b3));
    MixedByte(b3, b0, b1, b2);
  }

  lemma MixLane(a0: Octet, a1: Octet, a2: Octet, a3: Octet, k: nat)
    requires k < 64
    ensures var b0, b1, b2, b3 := LaneByte(a0, k), LaneByte(a1, k), LaneByte(a2, k), LaneByte(a3, k);
      && LaneByte(MixRow0(Xor, a0, a1, a2, a3), k) == MixByte(b0, b1, b2, b3)
      && LaneByte(MixRow1(Xor, a0, a1, a2, a3), k) == MixByte(b1, b2, b3, b0)
      && LaneByte(MixRow2(Xor, a0, a1, a2, a3), k) == MixByte(b2, b3, b0, b1)
      && LaneByte(MixRow3(Xor, a0, a1, a2, a3), k) == MixByte(b3, b0, b1, b2)
  {
    MixLane0(a0, a1, a2, a3, k);
    MixLane1(a0, a1, a2, a3, k);
    MixLane2(a0, a1, a2, a3, k);
    MixLane3(a0, a1, a2, a3, k);
  }

  lemma MixedByte(a: byte, b: byte, c: byte, d: byte)
    ensures ByteFrom(MixSpec(AddBit, BitsOf(a), BitsOf(b), BitsOf(c), BitsOf(d))) == MixByte(a, b, c, d)
  {
    MixSpecIsMixByte(a, b, c, d);
    ByteFromBitsOf(MixByte(a, b, c, d));
  }

  lemma InvMixedByte(a: byte, b: byte, c: byte, d: byte)
    ensures ByteFrom(InvMixSpec(AddBit, BitsOf(a), BitsOf(b), BitsOf(c), BitsOf(d))) == InvMixByte(a, b, c, d)
  {
    InvMixSpecIsInvMixByte(a, b, c, d);
    ByteFromBitsOf(InvMixByte(a, b, c, d));
  }

  lemma InvMixLane0(a0: Octet, a1: Octet, a2: Octet, a3: Octet, k: nat)
    requires k < 64
    ensures var b0, b1, b2, b3 := LaneByte(a0, k), LaneByte(a1, k), LaneByte(a2, k), LaneByte(a3, k);
      LaneByte(InvMixRow0(Xor, a0, a1, a2, a3), k) == InvMixByte(b0, b1, b2, b3)
  {
    var b0, b1, b2, b3 := LaneByte(a0, k), LaneByte(a1, k), LaneByte(a2, k), LaneByte(a3, k);
    LaneAdditive(k);
    ColumnBits(a0, a1, a2, a3, k);
    InvMixRowsPerWire(Xor, AddBit, LaneOf(k), a0, a1, a2, a3);
    InvMixRow0Bits(BitsOf(b0), BitsOf(b1), BitsOf(b2), BitsOf(b3));
    InvMixedByte(b0, b1, b2, b3);
  }

  lemma InvMixLane1(a0: Octet, a1: Octet, a2: Octet, a3: Octet, k: nat)
    requires k < 64
    ensures var b0, b1, b2, b3 := LaneByte(a0, k), LaneByte(a1, k), LaneByte(a2, k), LaneByte(a3, k);
      LaneByte(InvMixRow1(Xor, a0, a1, a2, a3), k) == InvMixByte(b1, b2, b3, b0)
  {
    var b0, b1, b2, b3 := LaneByte(a0, k), LaneByte(a1, k), LaneByte(a2, k), LaneByte(a3, k);
    LaneAdditive(k);
    ColumnBits(a0, a1, a2, a3, k);
    InvMixRowsPerWire(Xor, AddBit, LaneOf(k), a0, a1, a2, a3);
    InvMixRow1Bits(BitsOf(b0), BitsOf(b1), BitsOf(b2), BitsOf(b3));
    InvMixedByte(b1, b2, b3, b0);
  }

  lemma InvMixLane(a0: Octet, a1: Octet, a2: Octet, a3: Octet, k: nat)
    requires k < 64
    ensures var b0, b1, b2, b3 := LaneByte(a0, k), LaneByte(a1, k), LaneByte(a2, k), LaneByte(a3, k);
      && LaneByte(InvMixRow0(Xor, a0, a1, a2, a3), k) == InvMixByte(b0, b1, b2, b3)
      && LaneByte(InvMixRow1(Xor, a0, a1, a2, a3), k) == InvMixByte(b1, b2, b3, b0)
      && LaneByte(InvMixRow2(Xor, a0, a1, a2, a3), k) == InvMixByte(b2, b3, b0, b1)
      && LaneByte(InvMixRow3(Xor, a0, a1, a2, a3), k) == InvMixByte(b3, b0, b1, b2)
  {
    InvMixLane0(a0, a1, a2, a3, k);
    InvMixLane1(a0, a1, a2, a3, k);
    InvMixLane1(a1, a2, a3, a0, k);
    InvMixLane1(a2, a3, a0, a1, k);
  }
}
