/**
 bs_cipher_revf6 (backends/f6/bs.c:1104-1122) starts from round key 10 instead of 14.  For which
 keys does it still undo bs_cipherf6?  That takes the inverses in the other direction: no step of
 the inverse cipher loses anything.
 */
module RevF6 {
  import opened Bytes
  import opened Circuits
  import opened Fips197
  import opened SBoxes
  import opened Vectors
  import opened Linear
  import opened Words
  import opened Planes
  import opened Transposes
  import BitslicedAes

  // ----- section 5.1.3 undoes section 5.3.3

  lemma RemixedUnits()
    ensures MixSpec(AddVec, InvMixedUnits(0), InvMixedUnits(1), InvMixedUnits(2), InvMixedUnits(3)) == U(0)
  {
  }

  lemma UnitsRemixed()
    ensures MixSpec(AddVec, InvMixSpec(AddVec, U(0), U(1), U(2), U(3)), InvMixSpec(AddVec, U(1), U(2), U(3), U(0)),
      InvMixSpec(AddVec, U(2), U(3), U(0), U(1)), InvMixSpec(AddVec, U(3), U(0), U(1), U(2))) == U(0)
  {
    InvMixSpec0Units();
    InvMixSpec1Units();
    InvMixSpec2Units();
    InvMixSpec3Units();
    RemixedUnits();
  }

  lemma RemixTransfers<T(!new), S(!new)>(add: (T, T) -> T, add': (S, S) -> S, h: T -> S,
      u0: Wires<T>, u1: Wires<T>, u2: Wires<T>, u3: Wires<T>, b0: Wires<S>, b1: Wires<S>, b2: Wires<S>, b3: Wires<S>)
    requires Additive(add, add', h)
    requires Map(h, u0) == b0 && Map(h, u1) == b1 && Map(h, u2) == b2 && Map(h, u3) == b3
    requires MixSpec(add, InvMixSpec(add, u0, u1, u2, u3), InvMixSpec(add, u1, u2, u3, u0),
      InvMixSpec(add, u2, u3, u0, u1), InvMixSpec(add, u3, u0, u1, u2)) == u0
    ensures MixSpec(add', InvMixSpec(add', b0, b1, b2, b3), InvMixSpec(add', b1, b2, b3, b0),
      InvMixSpec(add', b2, b3, b0, b1), InvMixSpec(add', b3, b0, b1, b2)) == b0
  {
    InvMixSpecPerWire(add, add', h, u0, u1, u2, u3);
    InvMixSpecPerWire(add, add', h, u1, u2, u3, u0);
    InvMixSpecPerWire(add, add', h, u2, u3, u0, u1);
    InvMixSpecPerWire(add, add', h, u3, u0, u1, u2);
    MixSpecPerWire(add, add', h, InvMixSpec(add, u0, u1, u2, u3), InvMixSpec(add, u1, u2, u3, u0),
      InvMixSpec(add, u2, u3, u0, u1), InvMixSpec(add, u3, u0, u1, u2));
  }

  lemma RemixedBy(h: Vec -> bit, b0: Wires<bit>, b1: Wires<bit>, b2: Wires<bit>, b3: Wires<bit>)
    requires Additive(AddVec, AddBit, h)
    requires Map(h, U(0)) == b0 && Map(h, U(1)) == b1 && Map(h, U(2)) == b2 && Map(h, U(3)) == b3
    ensures MixSpec(AddBit, InvMixSpec(AddBit, b0, b1, b2, b3), InvMixSpec(AddBit, b1, b2, b3, b0),
      InvMixSpec(AddBit, b2, b3, b0, b1), InvMixSpec(AddBit, b3, b0, b1, b2)) == b0
  {
    UnitsRemixed();
    RemixTransfers(AddVec, AddBit, h, U(0), U(1), U(2), U(3), b0, b1, b2, b3);
  }

  lemma RemixedBits(b0: Wires<bit>, b1: Wires<bit>, b2: Wires<bit>, b3: Wires<bit>)
    ensures MixSpec(AddBit, InvMixSpec(AddBit, b0, b1, b2, b3), InvMixSpec(AddBit, b1, b2, b3, b0),
      InvMixSpec(AddBit, b2, b3, b0, b1), InvMixSpec(AddBit, b3, b0, b1, b2)) == b0
  {
    var h := ValueAt(Flat(b0, b1, b2, b3));
    UnitsOfColumn(b0, b1, b2, b3);
    ValueAdditive(Flat(b0, b1, b2, b3));
    RemixedBy(h, b0, b1, b2, b3);
  }

  lemma RemixedBytes(a: byte, b: byte, c: byte, d: byte)
    ensures UndoesAt(MixByte, InvMixByte, a, b, c, d)
  {
    InvMixSpecIsInvMixByte(a, b, c, d);
    InvMixSpecIsInvMixByte(b, c, d, a);
    InvMixSpecIsInvMixByte(c, d, a, b);
    InvMixSpecIsInvMixByte(d, a, b, c);
    RemixedBits(BitsOf(a), BitsOf(b), BitsOf(c), BitsOf(d));
    var a', b' := InvMixByte(a, b, c, d), InvMixByte(b, c, d, a);
    var c', d' := InvMixByte(c, d, a, b), InvMixByte(d, a, b, c);
    MixSpecIsMixByte(a', b', c', d');
    ByteFromBitsOf(a);
    ByteFromBitsOf(MixByte(a', b', c', d'));
  }

  /** The matrix of section 5.1.3 undoes that of section 5.3.3. */
  lemma UnmixUndone()
    ensures Undoes(MixByte, InvMixByte)
  {
    forall a, b, c, d
      ensures UndoesAt(MixByte, InvMixByte, a, b, c, d)
    {
      RemixedBytes(a, b, c, d);
    }
  }

  // ----- the inverse cipher loses nothing

  /** A round that takes different states to different states. */
  ghost predicate Injective(round: (Block, Block) -> Block) {
    forall z: Block, z': Block, k: Block :: round(z, k) == round(z', k) ==> z == z'
  }

  lemma ShiftRowsUndoes(x: Block)
    ensures ShiftRows(InvShiftRows(x)) == x
  {
  }

  /** What the inverse steps before the mixing make of z determines z. */
  lemma LastInjective(sub: Table, inv: Table, z: Block, k: Block)
    requires forall b :: sub(inv(b)) == b
    ensures ShiftRows(SubBytes(sub, AddRoundKey(InvLast(inv, z, k), k))) == z
  {
    XorBytesTwice(SubBytes(inv, InvShiftRows(z)), k);
    InvSubBytesUndoes(inv, sub, InvShiftRows(z));
    ShiftRowsUndoes(z);
  }

  lemma RoundInjective(sub: Table, inv: Table)
    requires Undoes(MixByte, InvMixByte) && forall b :: sub(inv(b)) == b
    ensures Injective(InvRound(inv))
  {
    forall z: Block, z': Block, k: Block | InvRound(inv)(z, k) == InvRound(inv)(z', k)
      ensures z == z'
    {
      var y, y' := InvLast(inv, z, k), InvLast(inv, z', k);
      assert InvMixColumns(y) == InvMixColumns(y');
      MixColumnsUndone(MixByte, InvMixByte, y);
      MixColumnsUndone(MixByte, InvMixByte, y');
      LastInjective(sub, inv, z, k);
      LastInjective(sub, inv, z', k);
    }
  }

  /** rk, but for the round key that the inverse cipher starts from. */
  function StartingFrom(rk: nat -> Block, nr: nat, key: Block): nat -> Block {
    (r: nat) => if r == nr then key else rk(r)
  }

  lemma {:induction false} RoundsDiffer(round: (Block, Block) -> Block, rk: nat -> Block, rk': nat -> Block, nr: nat,
      y: Block, j: nat)
    requires Injective(round) && j <= nr && forall r: nat :: r < nr ==> rk(r) == rk'(r)
    ensures InvRounds(round, rk, nr, y, j) == InvRounds(round, rk', nr, y, j) <==> rk(nr) == rk'(nr)
  {
    if j == 0 {
      XorDetermines(y, rk(nr), rk'(nr));
    } else {
      RoundsDiffer(round, rk, rk', nr, y, j - 1);
    }
  }

  lemma XorDetermines(y: Block, k: Block, k': Block)
    ensures AddRoundKey(y, k) == AddRoundKey(y, k') <==> k == k'
  {
    XorSwaps(y, k);
    XorSwaps(y, k');
    XorBytesTwice(k, y);
    XorBytesTwice(k', y);
  }

  lemma XorSwaps(y: Block, k: Block)
    ensures XorBytes(y, k) == XorBytes(k, y)
  {
  }

  lemma LastDetermines(sub: Table, inv: Table, z: Block, z': Block, k: Block)
    requires forall b :: sub(inv(b)) == b
    ensures InvLast(inv, z, k) == InvLast(inv, z', k) <==> z == z'
  {
    LastInjective(sub, inv, z, k);
    LastInjective(sub, inv, z', k);
  }

  /** Two starts from the same state end alike only if they start with the same round key. */
  lemma StartsDiffer(round: (Block, Block) -> Block, sub: Table, inv: Table, rk: nat -> Block, rk': nat -> Block,
      nr: nat, y: Block)
    requires nr > 0 && Injective(round) && forall b :: sub(inv(b)) == b
    requires forall r: nat :: r < nr ==> rk(r) == rk'(r)
    ensures InvCipherBy(round, inv, rk, nr, y) == InvCipherBy(round, inv, rk', nr, y) <==> rk(nr) == rk'(nr)
  {
    var j := nr - 1;
    RoundsDiffer(round, rk, rk', nr, y, j);
    InvCipherEnds(round, inv, rk, nr, y, j);
    InvCipherEnds(round, inv, rk', nr, y, j);
    LastDetermines(sub, inv, InvRounds(round, rk, nr, y, j), InvRounds(round, rk', nr, y, j), rk(0));
  }

  /** Started from another round key, the inverse cipher gives x back only if that key is the right one. */
  lemma WrongStart(sub: Table, inv: Table, rk: nat -> Block, nr: nat, x: Block, key: Block)
    requires nr > 0 && Undoes(InvMixByte, MixByte) && Undoes(MixByte, InvMixByte)
    requires (forall b :: inv(sub(b)) == b) && forall b :: sub(inv(b)) == b
    ensures InvCipher(inv, StartingFrom(rk, nr, key), nr, Cipher(sub, rk, nr, x)) == x <==> key == rk(nr)
  {
    var y, rk' := Cipher(sub, rk, nr, x), StartingFrom(rk, nr, key);
    InvCipherUndoes(sub, inv, rk, nr, x);
    RoundInjective(sub, inv);
    StartsDiffer(InvRound(inv), sub, inv, rk, rk', nr, y);
  }

  // ----- bs_cipher_revf6

  /** The round keys in the order in which bs_cipher_revf6 uses them: number 10 where number 14 should be. */
  function ReadByRev(rk: seq<seq<Lanes>>): seq<seq<Lanes>>
    requires |rk| == 15
  {
    rk[14 := rk[10]]
  }

  function LaneKeysRead(keys: nat -> (nat -> Block)): nat -> (nat -> Block) {
    (k: nat) => StartingFrom(keys(k), 14, keys(k)(10))
  }

  /** bs_cipher_revf6. */
  method CipherRev(state: array<Lanes>, rk: seq<seq<Lanes>>, ghost keys: nat -> (nat -> Block))
    requires state.Length == 128 && BitslicedAes.Holding(rk, 14, keys)
    modifies state
    ensures forall k: nat :: k < 64 ==>
      MemBlock(state[..], k)
      == InvCipher(InvSBox, StartingFrom(keys(k), 14, keys(k)(10)), 14, MemBlock(old(state[..]), Source(k)))
  {
    ghost var s, x := state[..], BitslicedAes.Inputs(state[..]);
    Transpose(state);
    BitslicedAes.InputsInLanes(s, state[..]);
    BitslicedAes.InvRounds(state, ReadByRev(rk), 14, LaneKeysRead(keys), x);
    ghost var t := state[..];
    TransposeRev(state);
    BitslicedAes.OutputsInMemory(t, state[..]);
  }

  /** It undoes bs_cipherf6 in exactly those lanes whose round keys 10 and 14 are the same. */
  method CipherThenRev(state: array<Lanes>, rk: seq<seq<Lanes>>)
    requires state.Length == 128 && BitslicedAes.AreKeys(rk, 14)
    modifies state
    ensures forall k: nat :: k < 32 ==>
      (MemBlock(state[..], k) == MemBlock(old(state[..]), k) <==> LaneBlock(rk[10], k) == LaneBlock(rk[14], k))
  {
    ghost var s, keys := state[..], BitslicedAes.LaneKeys(rk);
    BitslicedAes.Cipher(state, rk, 14, keys);
    CipherRev(state, rk, keys);
    forall k: nat | k < 32
      ensures MemBlock(state[..], k) == MemBlock(s, k) <==> LaneBlock(rk[10], k) == LaneBlock(rk[14], k)
    {
      LaneRestoredIf(keys(k), MemBlock(s, k));
    }
  }

  function AllSet(): (b: Block)
    ensures b[0] == 0xff
  {
    seq(16, _ => 0xff)
  }

  function AllZero(): (b: Block)
    ensures b[0] == 0
  {
    seq(16, _ => 0)
  }

  /** Round keys of which only number 14 is not zero. */
  function OddKey(r: nat): Block {
    if r == 14 then AllSet() else AllZero()
  }

  function OddKeys(): nat -> Block {
    (r: nat) => OddKey(r)
  }

  /** For instance, it does not undo bs_cipherf6 in a lane that holds these keys. */
  lemma LaneNotRestored(x: Block)
    ensures InvCipher(InvSBox, StartingFrom(OddKeys(), 14, OddKeys()(10)), 14, Cipher(SBox, OddKeys(), 14, x)) != x
  {
    var k, k' := OddKeys()(14), OddKeys()(10);
    assert k == AllSet() && k' == AllZero();
    assert k[0] == 0xff && k'[0] == 0;
    LaneRestoredIf(OddKeys(), x);
  }

  lemma LaneRestoredIf(keys: nat -> Block, x: Block)
    ensures InvCipher(InvSBox, StartingFrom(keys, 14, keys(10)), 14, Cipher(SBox, keys, 14, x)) == x
      <==> keys(10) == keys(14)
  {
    MixUndone();
    UnmixUndone();
    forall b
      ensures InvSBox(SBox(b)) == b
    {
      InvSBoxUndoes(b);
    }
    forall b
      ensures SBox(InvSBox(b)) == b
    {
      SBoxUndoes(b);
    }
    WrongStart(SBox, InvSBox, keys, 14, x, keys(10));
  }
}
