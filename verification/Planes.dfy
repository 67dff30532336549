/**
 The state of the bitsliced cipher: 128 words, of which words 8m to 8m + 7 hold byte m of every
 lane's block.  Each step on the planes is, in every lane, the step of FIPS 197 on that lane's block.
 */
module Planes {
  import opened Bytes
  import opened Circuits
  import opened Fips197
  import opened SBoxes
  import opened Linear
  import opened Words

  /** The planes of byte m. */
  function OctetAt(s: seq<Lanes>, m: nat): Octet
    requires 8 * m + 8 <= |s|
  {
    Wires(s[8 * m], s[8 * m + 1], s[8 * m + 2], s[8 * m + 3], s[8 * m + 4], s[8 * m + 5], s[8 * m + 6], s[8 * m + 7])
  }

  predicate IsState(s: seq<Lanes>) {
    |s| == 128
  }

  lemma SameOctets(s: seq<Lanes>, t: seq<Lanes>)
    requires IsState(s) && IsState(t) && forall m: nat :: m < 16 ==> OctetAt(s, m) == OctetAt(t, m)
    ensures s == t
  {
    forall p | 0 <= p < 128
      ensures s[p] == t[p]
    {
      var m := p / 8;
      assert OctetAt(s, m) == OctetAt(t, m);
      assert p == 8 * m + p % 8;
    }
  }

  /** The block that the planes hold, for a way to read a byte off its planes. */
  function BlockIn(lane: Octet -> byte, s: seq<Lanes>): (x: Block)
    requires IsState(s)
    ensures forall m: nat :: m < 16 ==> x[m] == lane(OctetAt(s, m))
  {
    seq(16, m requires 0 <= m < 16 => lane(OctetAt(s, m)))
  }

  function InLane(k: nat): Octet -> byte
    requires k < 64
  {
    (u: Octet) => LaneByte(u, k)
  }

  /** The block in lane k. */
  function LaneBlock(s: seq<Lanes>, k: nat): Block
    requires IsState(s) && k < 64
  {
    BlockIn(InLane(k), s)
  }

  // ----- the steps on planes, from s to t

  /** bs_addroundkey. */
  predicate Added(s: seq<Lanes>, key: seq<Lanes>, t: seq<Lanes>) {
    && IsState(s) && IsState(key) && IsState(t)
    && forall m: nat :: m < 16 ==> OctetAt(t, m) == Sum(Xor, OctetAt(s, m), OctetAt(key, m))
  }

  /** A circuit on the planes of every byte. */
  predicate Applied(circuit: Octet -> Octet, s: seq<Lanes>, t: seq<Lanes>) {
    IsState(s) && IsState(t) && forall m: nat :: m < 16 ==> OctetAt(t, m) == circuit(OctetAt(s, m))
  }

  function Sbox(): Octet -> Octet {
    u => SboxCircuit(WordGates(), u)
  }

  function InvSbox(): Octet -> Octet {
    u => InvSboxCircuit(WordGates(), u)
  }

  /** bs_apply_sbox. */
  predicate Substituted(s: seq<Lanes>, t: seq<Lanes>) {
    Applied(Sbox(), s, t)
  }

  /** bs_apply_sbox_rev. */
  predicate InvSubstituted(s: seq<Lanes>, t: seq<Lanes>) {
    Applied(InvSbox(), s, t)
  }

  /** The byte that bs_shiftrows brings to position m. */
  function From(m: nat): (n: nat)
    ensures n < 16
  {
    m % 4 + 4 * ((m / 4 + m % 4) % 4)
  }

  /** The position to which bs_shiftrows brings byte m. */
  function To(m: nat): (n: nat)
    ensures n < 16
  {
    m % 4 + 4 * ((m / 4 + 4 - m % 4) % 4)
  }

  lemma FromTo(m: nat)
    requires m < 16
    ensures From(To(m)) == m && To(From(m)) == m
  {
    var c, r := m / 4, m % 4;
    var there, back := (c + 4 - r) % 4, (c + r) % 4;
    ToParts(c, r);
    FromParts(c, r);
    ToParts(back, r);
    FromParts(there, r);
    ThereAndBack(c, r);
  }

  lemma Parts(r: nat, c: nat)
    requires r < 4
    ensures (r + 4 * c) % 4 == r && (r + 4 * c) / 4 == c
  {
  }

  lemma FromParts(c: nat, r: nat)
    requires c < 4 && r < 4
    ensures From(4 * c + r) == 4 * ((c + r) % 4) + r
  {
    Parts(r, c);
  }

  lemma ToParts(c: nat, r: nat)
    requires c < 4 && r < 4
    ensures To(4 * c + r) == 4 * ((c + 4 - r) % 4) + r
  {
    Parts(r, c);
  }

  lemma ThereAndBack(c: nat, r: nat)
    requires c < 4 && r < 4
    ensures ((c + 4 - r) % 4 + r) % 4 == c && ((c + r) % 4 + 4 - r) % 4 == c
  {
  }

  /** bs_shiftrows. */
  predicate Shifted(s: seq<Lanes>, t: seq<Lanes>) {
    IsState(s) && IsState(t) && forall m: nat :: m < 16 ==> OctetAt(t, m) == OctetAt(s, From(m))
  }

  /** bs_shiftrows_rev. */
  predicate InvShifted(s: seq<Lanes>, t: seq<Lanes>) {
    IsState(s) && IsState(t) && forall m: nat :: m < 16 ==> OctetAt(t, m) == OctetAt(s, To(m))
  }

  /** The moves of bs_shiftrows, backwards. */
  lemma MovesBack(s: seq<Lanes>, t: seq<Lanes>)
    requires IsState(s) && IsState(t) && forall m: nat :: m < 16 ==> OctetAt(t, From(m)) == OctetAt(s, m)
    ensures InvShifted(s, t)
  {
    forall m: nat | m < 16
      ensures OctetAt(t, m) == OctetAt(s, To(m))
    {
      FromTo(m);
      assert OctetAt(t, From(To(m))) == OctetAt(s, To(m));
    }
  }

  /** The planes of the four bytes of a column. */
  datatype Quad = Quad(u0: Octet, u1: Octet, u2: Octet, u3: Octet)

  function ColumnAt(s: seq<Lanes>, c: nat): Quad
    requires IsState(s) && c < 4
  {
    Quad(OctetAt(s, 4 * c), OctetAt(s, 4 * c + 1), OctetAt(s, 4 * c + 2), OctetAt(s, 4 * c + 3))
  }

  /** Column c of the state with its rows shifted. */
  function ShiftedColumn(s: seq<Lanes>, c: nat): Quad
    requires IsState(s) && c < 4
  {
    Quad(OctetAt(s, From(4 * c)), OctetAt(s, From(4 * c + 1)), OctetAt(s, From(4 * c + 2)), OctetAt(s, From(4 * c + 3)))
  }

  function MixRows(): Quad -> Quad {
    (a: Quad) => Quad(MixRow0(Xor, a.u0, a.u1, a.u2, a.u3), MixRow1(Xor, a.u0, a.u1, a.u2, a.u3),
                      MixRow2(Xor, a.u0, a.u1, a.u2, a.u3), MixRow3(Xor, a.u0, a.u1, a.u2, a.u3))
  }

  function InvMixRows(): Quad -> Quad {
    (a: Quad) => Quad(InvMixRow0(Xor, a.u0, a.u1, a.u2, a.u3), InvMixRow1(Xor, a.u0, a.u1, a.u2, a.u3),
                      InvMixRow2(Xor, a.u0, a.u1, a.u2, a.u3), InvMixRow3(Xor, a.u0, a.u1, a.u2, a.u3))
  }

  predicate MixedBy(rows: Quad -> Quad, s: seq<Lanes>, t: seq<Lanes>) {
    IsState(s) && IsState(t) && forall c: nat :: c < 4 ==> ColumnAt(t, c) == rows(ColumnAt(s, c))
  }

  /** bs_mixcolumns. */
  predicate Mixed(s: seq<Lanes>, t: seq<Lanes>) {
    MixedBy(MixRows(), s, t)
  }

  /** bs_mixcolumns_rev. */
  predicate InvMixed(s: seq<Lanes>, t: seq<Lanes>) {
    MixedBy(InvMixRows(), s, t)
  }

  predicate ShiftMixedBy(rows: Quad -> Quad, s: seq<Lanes>, t: seq<Lanes>) {
    IsState(s) && IsState(t) && forall c: nat :: c < 4 ==> ColumnAt(t, c) == rows(ShiftedColumn(s, c))
  }

  /** bs_shiftmix: the columns are mixed straight from where the rows would have been shifted to. */
  predicate ShiftMixed(s: seq<Lanes>, t: seq<Lanes>) {
    ShiftMixedBy(MixRows(), s, t)
  }

  /** The fused step is the two steps. */
  lemma Fused(s: seq<Lanes>, mid: seq<Lanes>, t: seq<Lanes>)
    requires Shifted(s, mid) && IsState(t)
    ensures ShiftMixed(s, t) <==> Mixed(mid, t)
  {
    FusedBy(MixRows(), s, mid, t);
  }

  lemma FusedBy(rows: Quad -> Quad, s: seq<Lanes>, mid: seq<Lanes>, t: seq<Lanes>)
    requires Shifted(s, mid) && IsState(t)
    ensures ShiftMixedBy(rows, s, t) <==> MixedBy(rows, mid, t)
  {
    forall c: nat | c < 4
      ensures ColumnAt(mid, c) == ShiftedColumn(s, c)
    {
    }
  }

  // ----- the steps, for any way to read a byte off its planes

  ghost predicate Adds(lane: Octet -> byte) {
    forall u, v :: lane(Sum(Xor, u, v)) == lane(u) ^ lane(v)
  }

  lemma AddedIn(lane: Octet -> byte, s: seq<Lanes>, key: seq<Lanes>, t: seq<Lanes>)
    requires Added(s, key, t) && Adds(lane)
    ensures BlockIn(lane, t) == AddRoundKey(BlockIn(lane, s), BlockIn(lane, key))
  {
  }

  /** The circuit computes the table. */
  ghost predicate Computes(lane: Octet -> byte, circuit: Octet -> Octet, sub: Table) {
    forall u :: lane(circuit(u)) == sub(lane(u))
  }

  lemma AppliedIn(lane: Octet -> byte, circuit: Octet -> Octet, s: seq<Lanes>, t: seq<Lanes>, sub: Table)
    requires Applied(circuit, s, t) && Computes(lane, circuit, sub)
    ensures BlockIn(lane, t) == SubBytes(sub, BlockIn(lane, s))
  {
    forall m: nat | m < 16
      ensures BlockIn(lane, t)[m] == sub(BlockIn(lane, s)[m])
    {
      assert lane(circuit(OctetAt(s, m))) == sub(lane(OctetAt(s, m)));
    }
  }

  lemma ShiftedIn(lane: Octet -> byte, s: seq<Lanes>, t: seq<Lanes>)
    requires Shifted(s, t)
    ensures BlockIn(lane, t) == ShiftRows(BlockIn(lane, s))
  {
    forall m: nat | m < 16
      ensures BlockIn(lane, t)[m] == BlockIn(lane, s)[m % 4 + 4 * ((m / 4 + m % 4) % 4)]
    {
      assert OctetAt(t, m) == OctetAt(s, From(m));
    }
  }

  lemma InvShiftedIn(lane: Octet -> byte, s: seq<Lanes>, t: seq<Lanes>)
    requires InvShifted(s, t)
    ensures BlockIn(lane, t) == InvShiftRows(BlockIn(lane, s))
  {
    var x, y := BlockIn(lane, s), BlockIn(lane, t);
    assert forall m: nat :: m < 16 ==> y[m] == x[To(m)];
    BackByTo(x, y);
  }

  lemma BackByTo(x: Block, y: Block)
    requires forall m: nat :: m < 16 ==> y[m] == x[To(m)]
    ensures y == InvShiftRows(x)
  {
  }

  /** The four rows of a column compute the rotations of mix. */
  ghost predicate RowsCompute(lane: Octet -> byte, rows: Quad -> Quad, mix: Mixer, a: Quad) {
    var b0, b1, b2, b3, r := lane(a.u0), lane(a.u1), lane(a.u2), lane(a.u3), rows(a);
    && lane(r.u0) == mix(b0, b1, b2, b3)
    && lane(r.u1) == mix(b1, b2, b3, b0)
    && lane(r.u2) == mix(b2, b3, b0, b1)
    && lane(r.u3) == mix(b3, b0, b1, b2)
  }

  lemma MixedIn(lane: Octet -> byte, rows: Quad -> Quad, s: seq<Lanes>, t: seq<Lanes>, mix: Mixer)
    requires MixedBy(rows, s, t) && forall a :: RowsCompute(lane, rows, mix, a)
    ensures BlockIn(lane, t) == MixColumnsBy(mix, BlockIn(lane, s))
  {
    forall c: nat | c < 4
      ensures MixedAt(mix, BlockIn(lane, s), BlockIn(lane, t), c)
    {
      MixedQuad(lane, rows, mix, ColumnAt(s, c), t, BlockIn(lane, s), c);
    }
    MixedColumns(mix, BlockIn(lane, s), BlockIn(lane, t));
  }

  lemma ShiftMixedIn(lane: Octet -> byte, rows: Quad -> Quad, s: seq<Lanes>, t: seq<Lanes>, mix: Mixer)
    requires ShiftMixedBy(rows, s, t) && forall a :: RowsCompute(lane, rows, mix, a)
    ensures BlockIn(lane, t) == MixColumnsBy(mix, ShiftRows(BlockIn(lane, s)))
  {
    forall c: nat | c < 4
      ensures MixedAt(mix, ShiftRows(BlockIn(lane, s)), BlockIn(lane, t), c)
    {
      ShiftedQuad(lane, s, c);
      MixedQuad(lane, rows, mix, ShiftedColumn(s, c), t, ShiftRows(BlockIn(lane, s)), c);
    }
    MixedColumns(mix, ShiftRows(BlockIn(lane, s)), BlockIn(lane, t));
  }

  lemma MixedQuad(lane: Octet -> byte, rows: Quad -> Quad, mix: Mixer, q: Quad, t: seq<Lanes>, x: Block, c: nat)
    requires IsState(t) && c < 4 && ColumnAt(t, c) == rows(q) && RowsCompute(lane, rows, mix, q)
    requires lane(q.u0) == x[4 * c] && lane(q.u1) == x[4 * c + 1] && lane(q.u2) == x[4 * c + 2]
    requires lane(q.u3) == x[4 * c + 3]
    ensures MixedAt(mix, x, BlockIn(lane, t), c)
  {
  }

  lemma ShiftedQuad(lane: Octet -> byte, s: seq<Lanes>, c: nat)
    requires IsState(s) && c < 4
    ensures var q, y := ShiftedColumn(s, c), ShiftRows(BlockIn(lane, s));
      lane(q.u0) == y[4 * c] && lane(q.u1) == y[4 * c + 1] && lane(q.u2) == y[4 * c + 2] && lane(q.u3) == y[4 * c + 3]
  {
    var x := BlockIn(lane, s);
    ShiftRowsFrom(x, 4 * c);
    ShiftRowsFrom(x, 4 * c + 1);
    ShiftRowsFrom(x, 4 * c + 2);
    ShiftRowsFrom(x, 4 * c + 3);
  }

  lemma ShiftRowsFrom(x: Block, m: nat)
    requires m < 16
    ensures ShiftRows(x)[m] == x[From(m)]
  {
  }

  // ----- the steps in lane k

  lemma AddedLane(s: seq<Lanes>, key: seq<Lanes>, t: seq<Lanes>, k: nat)
    requires Added(s, key, t) && k < 64
    ensures LaneBlock(t, k) == AddRoundKey(LaneBlock(s, k), LaneBlock(key, k))
  {
    forall u, v
      ensures InLane(k)(Sum(Xor, u, v)) == InLane(k)(u) ^ InLane(k)(v)
    {
      SumLane(u, v, k);
    }
    AddedIn(InLane(k), s, key, t);
  }

  lemma SubstitutedLane(s: seq<Lanes>, t: seq<Lanes>, k: nat)
    requires Substituted(s, t) && k < 64
    ensures LaneBlock(t, k) == SubBytes(SBox, LaneBlock(s, k))
  {
    forall u
      ensures InLane(k)(Sbox()(u)) == SBox(InLane(k)(u))
    {
      SboxLane(u, k);
    }
    AppliedIn(InLane(k), Sbox(), s, t, SBox);
  }

  lemma InvSubstitutedLane(s: seq<Lanes>, t: seq<Lanes>, k: nat)
    requires InvSubstituted(s, t) && k < 64
    ensures LaneBlock(t, k) == SubBytes(InvSBox, LaneBlock(s, k))
  {
    forall u
      ensures InLane(k)(InvSbox()(u)) == InvSBox(InLane(k)(u))
    {
      InvSboxLane(u, k);
    }
    AppliedIn(InLane(k), InvSbox(), s, t, InvSBox);
  }

  lemma ShiftedLane(s: seq<Lanes>, t: seq<Lanes>, k: nat)
    requires Shifted(s, t) && k < 64
    ensures LaneBlock(t, k) == ShiftRows(LaneBlock(s, k))
  {
    ShiftedIn(InLane(k), s, t);
  }

  lemma InvShiftedLane(s: seq<Lanes>, t: seq<Lanes>, k: nat)
    requires InvShifted(s, t) && k < 64
    ensures LaneBlock(t, k) == InvShiftRows(LaneBlock(s, k))
  {
    InvShiftedIn(InLane(k), s, t);
  }

  lemma MixedLane(s: seq<Lanes>, t: seq<Lanes>, k: nat)
    requires Mixed(s, t) && k < 64
    ensures LaneBlock(t, k) == MixColumns(LaneBlock(s, k))
  {
    forall a
      ensures RowsCompute(InLane(k), MixRows(), MixByte, a)
    {
      MixLane(a.u0, a.u1, a.u2, a.u3, k);
    }
    MixedIn(InLane(k), MixRows(), s, t, MixByte);
  }

  lemma ShiftMixedLane(s: seq<Lanes>, t: seq<Lanes>, k: nat)
    requires ShiftMixed(s, t) && k < 64
    ensures LaneBlock(t, k) == MixColumns(ShiftRows(LaneBlock(s, k)))
  {
    forall a
      ensures RowsCompute(InLane(k), MixRows(), MixByte, a)
    {
      MixLane(a.u0, a.u1, a.u2, a.u3, k);
    }
    ShiftMixedIn(InLane(k), MixRows(), s, t, MixByte);
  }

  lemma InvMixedLane(s: seq<Lanes>, t: seq<Lanes>, k: nat)
    requires InvMixed(s, t) && k < 64
    ensures LaneBlock(t, k) == InvMixColumns(LaneBlock(s, k))
  {
    forall a
      ensures RowsCompute(InLane(k), InvMixRows(), InvMixByte, a)
    {
      InvMixLane(a.u0, a.u1, a.u2, a.u3, k);
    }
    MixedIn(InLane(k), InvMixRows(), s, t, InvMixByte);
  }

  // ----- the inverse steps undo the steps, on all planes and in all lanes

  lemma ShiftUndone(s: seq<Lanes>, mid: seq<Lanes>, t: seq<Lanes>)
    requires Shifted(s, mid) && InvShifted(mid, t)
    ensures t == s
  {
    forall m: nat | m < 16
      ensures OctetAt(t, m) == OctetAt(s, m)
    {
      FromTo(m);
      assert OctetAt(t, m) == OctetAt(mid, To(m)) == OctetAt(s, From(To(m)));
    }
    SameOctets(t, s);
  }

  /** The planes of a byte are determined by the bytes of the lanes. */
  lemma SameBytes(u: Octet, v: Octet)
    requires forall k: nat :: k < 64 ==> LaneByte(u, k) == LaneByte(v, k)
    ensures u == v
  {
    forall k | 0 <= k < 64
      ensures u.w0[k] == v.w0[k] && u.w1[k] == v.w1[k] && u.w2[k] == v.w2[k] && u.w3[k] == v.w3[k]
      ensures u.w4[k] == v.w4[k] && u.w5[k] == v.w5[k] && u.w6[k] == v.w6[k] && u.w7[k] == v.w7[k]
    {
      LaneByteBits(u, k);
      LaneByteBits(v, k);
    }
    assert u.w0 == v.w0 && u.w1 == v.w1 && u.w2 == v.w2 && u.w3 == v.w3;
    assert u.w4 == v.w4 && u.w5 == v.w5 && u.w6 == v.w6 && u.w7 == v.w7;
  }

  lemma SameLanes(s: seq<Lanes>, t: seq<Lanes>)
    requires IsState(s) && IsState(t) && forall k: nat :: k < 64 ==> LaneBlock(s, k) == LaneBlock(t, k)
    ensures s == t
  {
    forall m: nat | m < 16
      ensures OctetAt(s, m) == OctetAt(t, m)
    {
      forall k: nat | k < 64
        ensures LaneByte(OctetAt(s, m), k) == LaneByte(OctetAt(t, m), k)
      {
        assert LaneBlock(s, k)[m] == LaneBlock(t, k)[m];
      }
      SameBytes(OctetAt(s, m), OctetAt(t, m));
    }
    SameOctets(s, t);
  }

  lemma MixUndoneOnPlanes(s: seq<Lanes>, mid: seq<Lanes>, t: seq<Lanes>)
    requires Mixed(s, mid) && InvMixed(mid, t)
    ensures t == s
  {
    MixUndone();
    forall k: nat | k < 64
      ensures LaneBlock(t, k) == LaneBlock(s, k)
    {
      MixUndoneInLane(s, mid, t, k);
    }
    SameLanes(t, s);
  }

  lemma MixUndoneInLane(s: seq<Lanes>, mid: seq<Lanes>, t: seq<Lanes>, k: nat)
    requires Mixed(s, mid) && InvMixed(mid, t) && k < 64 && Undoes(InvMixByte, MixByte)
    ensures LaneBlock(t, k) == LaneBlock(s, k)
  {
    MixedLane(s, mid, k);
    InvMixedLane(mid, t, k);
    MixColumnsUndone(InvMixByte, MixByte, LaneBlock(s, k));
  }
}
