/**
 The bitsliced ciphers: bs_expand_key, bs_cipher, bs_cipher_rev and the single-block wrappers of
 backends/f3/bs.c, backends/f3/aes.c and their AES-256 twins in backends/f6.
 */
module BitslicedAes {
  import opened Bytes
  import opened Circuits
  import opened SBoxes
  import opened Linear
  import opened Words
  import opened Planes
  import opened Transposes
  import Bitslice
  import FlatAes
  import Fips197

  // ----- blocks in memory

  /** The bits of a byte string in little-endian order. */
  function LittleBits(x: seq<byte>): (r: seq<bit>)
    ensures |r| == 8 * |x|
    decreases |x|
  {
    if x == [] then [] else LittleBits(x[..|x| - 1]) + Octets(BitsOf(x[|x| - 1]))
  }

  lemma {:induction false} LittleBitsAt(x: seq<byte>, m: nat)
    requires m < |x|
    ensures FromOctets(LittleBits(x)[8 * m..8 * m + 8]) == BitsOf(x[m])
    decreases |x|
  {
    var n := |x| - 1;
    var rest := LittleBits(x[..n]);
    if m < n {
      LittleBitsAt(x[..n], m);
      assert LittleBits(x)[8 * m..8 * m + 8] == rest[8 * m..8 * m + 8];
    } else {
      assert LittleBits(x)[8 * n..8 * n + 8] == Octets(BitsOf(x[n]));
    }
  }

  function WordOf(x: seq<byte>): Lanes
    requires |x| == 8
  {
    LittleBits(x)
  }

  /** Block k of the memory is x. */
  predicate Holds(s: seq<Lanes>, k: nat, x: Block)
    requires IsState(s) && k < 64
  {
    s[2 * k] == WordOf(x[..8]) && s[2 * k + 1] == WordOf(x[8..])
  }

  lemma HoldsBlock(s: seq<Lanes>, k: nat, x: Block)
    requires IsState(s) && k < 64 && Holds(s, k, x)
    ensures MemBlock(s, k) == x
  {
    forall m: nat | m < 16
      ensures MemBlock(s, k)[m] == x[m]
    {
      HoldsByte(s, k, x, m);
      ByteFromBitsOf(x[m]);
    }
  }

  lemma HoldsByte(s: seq<Lanes>, k: nat, x: Block, m: nat)
    requires IsState(s) && k < 64 && Holds(s, k, x) && m < 16
    ensures ByteBits((p: nat) => if p < 128 then MemBit(s, k, p) else 0, m) == BitsOf(x[m])
  {
    if m < 8 {
      assert x[..8][m] == x[m];
      LittleBitsAt(x[..8], m);
      assert FromOctets(s[2 * k][8 * m..8 * m + 8]) == BitsOf(x[m]);
    } else {
      var n := m - 8;
      assert x[8..][n] == x[m];
      LittleBitsAt(x[8..], n);
      assert FromOctets(s[2 * k + 1][8 * n..8 * n + 8]) == BitsOf(x[m]);
    }
  }

  // ----- both callers transpose states that survive the way there and back

  /** A single block in an otherwise empty state. */
  ghost predicate SingleBlock(s: seq<Lanes>) {
    IsState(s) && forall i :: 2 <= i < 128 ==> s[i] == Zero()
  }

  /** One block, 64 times. */
  ghost predicate Copies(s: seq<Lanes>) {
    IsState(s) && forall k: nat :: k < 64 ==> s[2 * k] == s[0] && s[2 * k + 1] == s[1]
  }

  lemma CallersSurvive(s: seq<Lanes>, t: seq<Lanes>, u: seq<Lanes>)
    requires SingleBlock(s) || Copies(s)
    requires Transposed(s, t) && Untransposed(t, u)
    ensures UpperCopies(s) && u == s
  {
    if Copies(s) {
      assert s[2 * 31] == s[0] && s[2 * 31 + 1] == s[1];
    }
    RoundTrip(s, t, u);
  }

  // ----- bs_expand_key

  /** The copying loops: block 0 becomes every block. */
  method Replicate(rk: array<Lanes>)
    requires rk.Length == 128
    modifies rk
    ensures Copies(rk[..]) && rk[0] == old(rk[0]) && rk[1] == old(rk[1])
  {
    var k := 2;
    ghost var n := 1;
    while k < 128
      invariant 1 <= n <= 64 && k == 2 * n
      invariant forall j: nat :: j < n ==> rk[2 * j] == old(rk[0]) && rk[2 * j + 1] == old(rk[1])
    {
      assert rk[2 * 0] == old(rk[0]) && rk[2 * 0 + 1] == old(rk[1]);
      rk[k + 0] := rk[0];
      rk[k + 1] := rk[1];
      k := k + 2;
      n := n + 1;
    }
    assert rk[2 * 0] == old(rk[0]) && rk[2 * 0 + 1] == old(rk[1]);
  }

  /** One round key, on all planes: every lane holds it, also those that the transpose overwrites. */
  method RoundKeyPlanes(x: Block) returns (planes: seq<Lanes>)
    ensures IsState(planes) && forall k: nat :: k < 64 ==> LaneBlock(planes, k) == x
  {
    var rk := new Lanes[128](_ => Zero());
    rk[0] := WordOf(x[..8]);
    rk[1] := WordOf(x[8..]);
    Replicate(rk);
    ghost var s := rk[..];
    Transpose(rk);
    planes := rk[..];
    forall k: nat | k < 64
      ensures LaneBlock(planes, k) == x
    {
      TransposedLane(s, planes, k);
      var j := Source(k);
      assert s[2 * j] == s[0] && s[2 * j + 1] == s[1];
      HoldsBlock(s, j, x);
    }
  }

  /** Every lane of every round key holds that round key. */
  ghost predicate Replicated(rk: seq<seq<Lanes>>, keys: nat -> Block) {
    && (forall r :: 0 <= r < |rk| ==> IsState(rk[r]))
    && forall r: nat, k: nat :: r < |rk| && k < 64 ==> LaneBlock(rk[r], k) == keys(r)
  }

  method ExpandKey(key: seq<byte>) returns (rk: seq<seq<Lanes>>)
    requires Fips197.IsKey(key)
    ensures |rk| == Fips197.NumRounds(key) + 1 && Replicated(rk, Fips197.Schedule(SBox, key))
  {
    var n: FlatAes.u8 := if |key| == 16 then 16 else 32;
    var total: FlatAes.u8 := if n == 16 then 176 else 240;
    var bytes := new byte[total](i requires 0 <= i < total as int => if i < |key| then key[i] else 0);
    FlatAes.ExpandKey(SBox, bytes, n, total, key);
    Fips197.ScheduleLaidOut(SBox, key, bytes[..], |key| / 4 + 7);
    rk := PlanesOf(bytes[..], |key| / 4 + 7, Fips197.Schedule(SBox, key));
  }

  /** The loop of bs_expand_key over the round keys. */
  method PlanesOf(bytes: seq<byte>, n: nat, ghost keys: nat -> Block) returns (rk: seq<seq<Lanes>>)
    requires |bytes| == 16 * n && Fips197.LaidOut(keys, bytes, n)
    ensures |rk| == n && Replicated(rk, keys)
  {
    rk := [];
    var i := 0;
    while i < |bytes|
      invariant i == 16 * |rk| && |rk| <= n && Replicated(rk, keys)
    {
      var planes := RoundKeyPlanes(bytes[i..i + 16]);
      ReplicatedOneMore(rk, planes, keys, bytes[i..i + 16]);
      rk := rk + [planes];
      i := i + 16;
    }
  }

  lemma ReplicatedOneMore(rk: seq<seq<Lanes>>, planes: seq<Lanes>, keys: nat -> Block, x: Block)
    requires Replicated(rk, keys) && IsState(planes) && x == keys(|rk|)
    requires forall k: nat :: k < 64 ==> LaneBlock(planes, k) == x
    ensures Replicated(rk + [planes], keys)
  {
  }

  // ----- bs_cipher

  ghost predicate AreKeys(rk: seq<seq<Lanes>>, nr: nat) {
    nr > 0 && |rk| == nr + 1 && forall r :: 0 <= r < |rk| ==> IsState(rk[r])
  }

  /** The round keys that lane k holds are keys(k). */
  ghost predicate Holding(rk: seq<seq<Lanes>>, nr: nat, keys: nat -> (nat -> Block)) {
    AreKeys(rk, nr) && forall r: nat, k: nat :: r <= nr && k < 64 ==> LaneBlock(rk[r], k) == keys(k)(r)
  }

  /** The blocks in the lanes after r rounds, from the blocks x. */
  ghost predicate AfterRounds(s: seq<Lanes>, keys: nat -> (nat -> Block), x: nat -> Block, r: nat) {
    IsState(s) && forall k: nat :: k < 64 ==> LaneBlock(s, k) == Fips197.Rounds(SBox, keys(k), x(k), r)
  }

  ghost predicate InLanes(s: seq<Lanes>, x: nat -> Block) {
    IsState(s) && forall k: nat :: k < 64 ==> LaneBlock(s, k) == x(k)
  }

  lemma FirstKeyAdded(s: seq<Lanes>, t: seq<Lanes>, rk: seq<seq<Lanes>>, nr: nat, keys: nat -> (nat -> Block),
      x: nat -> Block)
    requires Holding(rk, nr, keys) && Added(s, rk[0], t) && InLanes(s, x)
    ensures AfterRounds(t, keys, x, 0)
  {
    forall k: nat | k < 64
      ensures LaneBlock(t, k) == Fips197.Rounds(SBox, keys(k), x(k), 0)
    {
      AddedLane(s, rk[0], t, k);
    }
  }

  lemma RoundLane(s: seq<Lanes>, s1: seq<Lanes>, s2: seq<Lanes>, t: seq<Lanes>, key: seq<Lanes>, k: nat)
    requires Substituted(s, s1) && ShiftMixed(s1, s2) && Added(s2, key, t) && k < 64
    ensures LaneBlock(t, k)
      == Fips197.AddRoundKey(Fips197.MixColumns(Fips197.ShiftRows(Fips197.SubBytes(SBox, LaneBlock(s, k)))),
        LaneBlock(key, k))
  {
    SubstitutedLane(s, s1, k);
    ShiftMixedLane(s1, s2, k);
    AddedLane(s2, key, t, k);
  }

  lemma OneRound(s: seq<Lanes>, s1: seq<Lanes>, s2: seq<Lanes>, t: seq<Lanes>, rk: seq<seq<Lanes>>, nr: nat,
      keys: nat -> (nat -> Block), x: nat -> Block, r: nat)
    requires Holding(rk, nr, keys) && 0 < r <= nr && AfterRounds(s, keys, x, r - 1)
    requires Substituted(s, s1) && ShiftMixed(s1, s2) && Added(s2, rk[r], t)
    ensures AfterRounds(t, keys, x, r)
  {
    forall k: nat | k < 64
      ensures LaneBlock(t, k) == Fips197.Rounds(SBox, keys(k), x(k), r)
    {
      RoundLane(s, s1, s2, t, rk[r], k);
    }
  }

  lemma LastRound(s: seq<Lanes>, s1: seq<Lanes>, s2: seq<Lanes>, t: seq<Lanes>, rk: seq<seq<Lanes>>, nr: nat,
      keys: nat -> (nat -> Block), x: nat -> Block)
    requires Holding(rk, nr, keys) && AfterRounds(s, keys, x, nr - 1)
    requires Substituted(s, s1) && Shifted(s1, s2) && Added(s2, rk[nr], t)
    ensures forall k: nat :: k < 64 ==> LaneBlock(t, k) == Fips197.Cipher(SBox, keys(k), nr, x(k))
  {
    forall k: nat | k < 64
      ensures LaneBlock(t, k) == Fips197.Cipher(SBox, keys(k), nr, x(k))
    {
      SubstitutedLane(s, s1, k);
      ShiftedLane(s1, s2, k);
      AddedLane(s2, rk[nr], t, k);
    }
  }

  function NoBlock(): Block {
    ZeroBytes(16)
  }

  function InputOf(s: seq<Lanes>, k: nat): Block {
    if IsState(s) && k < 64 then MemBlock(s, Source(k)) else NoBlock()
  }

  /** The blocks that the lanes work on. */
  function Inputs(s: seq<Lanes>): nat -> Block {
    (k: nat) => InputOf(s, k)
  }

  lemma InputsInLanes(s: seq<Lanes>, t: seq<Lanes>)
    requires Transposed(s, t)
    ensures InLanes(t, Inputs(s))
  {
    forall k: nat | k < 64
      ensures LaneBlock(t, k) == Inputs(s)(k)
    {
      TransposedLane(s, t, k);
    }
  }

  lemma OutputsInMemory(t: seq<Lanes>, s: seq<Lanes>)
    requires Untransposed(t, s)
    ensures forall k: nat :: k < 64 ==> MemBlock(s, k) == LaneBlock(t, k)
  {
    forall k: nat | k < 64
      ensures MemBlock(s, k) == LaneBlock(t, k)
    {
      UntransposedBlock(t, s, k);
    }
  }

  /** bs_cipher: every lane enciphers its block under its own round keys. */
  method Cipher(state: array<Lanes>, rk: seq<seq<Lanes>>, nr: nat, ghost keys: nat -> (nat -> Block))
    requires state.Length == 128 && Holding(rk, nr, keys)
    modifies state
    ensures forall k: nat :: k < 64 ==>
      MemBlock(state[..], k) == Fips197.Cipher(SBox, keys(k), nr, MemBlock(old(state[..]), Source(k)))
  {
    ghost var s, x := state[..], Inputs(state[..]);
    Transpose(state);
    InputsInLanes(s, state[..]);
    Rounds(state, rk, nr, keys, x);
    ghost var t := state[..];
    TransposeRev(state);
    OutputsInMemory(t, state[..]);
  }

  /** The rounds, on planes. */
  method Rounds(state: array<Lanes>, rk: seq<seq<Lanes>>, nr: nat, ghost keys: nat -> (nat -> Block),
      ghost x: nat -> Block)
    requires state.Length == 128 && Holding(rk, nr, keys) && InLanes(state[..], x)
    modifies state
    ensures forall k: nat :: k < 64 ==> LaneBlock(state[..], k) == Fips197.Cipher(SBox, keys(k), nr, x(k))
  {
    ghost var s := state[..];
    Bitslice.AddRoundKey(state, rk[0]);
    FirstKeyAdded(s, state[..], rk, nr, keys, x);
    var round := 1;
    while round < nr
      invariant 1 <= round <= nr
      invariant AfterRounds(state[..], keys, x, round - 1)
    {
      s := state[..];
      Bitslice.ApplySbox(state);
      ghost var s1 := state[..];
      Bitslice.ShiftMix(state);
      ghost var s2 := state[..];
      Bitslice.AddRoundKey(state, rk[round]);
      OneRound(s, s1, s2, state[..], rk, nr, keys, x, round);
      round := round + 1;
    }
    s := state[..];
    Bitslice.ApplySbox(state);
    ghost var s1 := state[..];
    Bitslice.ShiftRows(state);
    ghost var s2 := state[..];
    Bitslice.AddRoundKey(state, rk[nr]);
    LastRound(s, s1, s2, state[..], rk, nr, keys, x);
  }

  // ----- bs_cipher_rev of backends/f3; its twin in backends/f6 is in module RevF6

  /** Lane k holds at(k)(r), which has round r still to come. */
  ghost predicate AtRound(s: seq<Lanes>, at: nat -> (nat -> Block), r: nat) {
    IsState(s) && forall k: nat :: k < 64 ==> LaneBlock(s, k) == at(k)(r)
  }

  /** In lane k, inverse round r + 1 leads from one state to the next. */
  ghost predicate InvStepAt(at: nat -> (nat -> Block), keys: nat -> (nat -> Block), k: nat, r: nat) {
    at(k)(r) == Fips197.InvRound(InvSBox)(at(k)(r + 1), keys(k)(r + 1))
  }

  ghost predicate InvChain(at: nat -> (nat -> Block), keys: nat -> (nat -> Block), nr: nat) {
    forall k: nat, r: nat :: r + 1 < nr ==> InvStepAt(at, keys, k, r)
  }

  /** The states of the inverse cipher of section 5.3, by the round that is still to come. */
  function InvState(keys: nat -> Block, x: Block, nr: nat, r: nat): Block {
    if r < nr then Fips197.InvRounds(Fips197.InvRound(InvSBox), keys, nr, x, nr - 1 - r) else NoBlock()
  }

  function InvStates(keys: nat -> (nat -> Block), x: nat -> Block, nr: nat): nat -> (nat -> Block) {
    (k: nat) => ((r: nat) => InvState(keys(k), x(k), nr, r))
  }

  lemma InvStateSteps(keys: nat -> Block, x: Block, nr: nat, r: nat)
    requires r + 1 < nr
    ensures InvState(keys, x, nr, r) == Fips197.InvRound(InvSBox)(InvState(keys, x, nr, r + 1), keys(r + 1))
  {
    InvNext(Fips197.InvRound(InvSBox), keys, nr, x, nr - 2 - r, InvState(keys, x, nr, r + 1), keys(r + 1));
  }

  /** One step further in the inverse rounds. */
  lemma InvNext(round: (Block, Block) -> Block, rk: nat -> Block, nr: nat, y: Block, j: nat, z: Block, key: Block)
    requires j < nr && z == Fips197.InvRounds(round, rk, nr, y, j) && key == rk(nr - 1 - j)
    ensures Fips197.InvRounds(round, rk, nr, y, j + 1) == round(z, key)
  {
  }

  lemma InvStatesChain(keys: nat -> (nat -> Block), x: nat -> Block, nr: nat)
    ensures InvChain(InvStates(keys, x, nr), keys, nr)
  {
    forall k: nat, r: nat | r + 1 < nr
      ensures InvStepAt(InvStates(keys, x, nr), keys, k, r)
    {
      InvStateSteps(keys(k), x(k), nr, r);
    }
  }

  lemma InvStatesEnd(keys: nat -> Block, x: Block, nr: nat)
    requires nr > 0
    ensures Fips197.InvCipher(InvSBox, keys, nr, x) == Fips197.InvLast(InvSBox, InvState(keys, x, nr, 0), keys(0))
  {
    Fips197.InvCipherEnds(Fips197.InvRound(InvSBox), InvSBox, keys, nr, x, nr - 1);
  }

  lemma LastKeyAdded(s: seq<Lanes>, t: seq<Lanes>, rk: seq<seq<Lanes>>, nr: nat, keys: nat -> (nat -> Block),
      x: nat -> Block)
    requires Holding(rk, nr, keys) && Added(s, rk[nr], t) && InLanes(s, x)
    ensures AtRound(t, InvStates(keys, x, nr), nr - 1)
  {
    forall k: nat | k < 64
      ensures LaneBlock(t, k) == InvStates(keys, x, nr)(k)(nr - 1)
    {
      AddedLane(s, rk[nr], t, k);
    }
  }

  /** The states between the steps of the body of the loop. */
  ghost predicate InvStepsFrom(s: seq<Lanes>, s1: seq<Lanes>, s2: seq<Lanes>, s3: seq<Lanes>, t: seq<Lanes>,
      key: seq<Lanes>) {
    InvShifted(s, s1) && InvSubstituted(s1, s2) && Added(s2, key, s3) && InvMixed(s3, t)
  }

  /** The states between the steps after the loop. */
  ghost predicate LastInvStepsFrom(s: seq<Lanes>, s1: seq<Lanes>, s2: seq<Lanes>, t: seq<Lanes>, key: seq<Lanes>) {
    InvShifted(s, s1) && InvSubstituted(s1, s2) && Added(s2, key, t)
  }

  lemma InvRoundLane(s: seq<Lanes>, s1: seq<Lanes>, s2: seq<Lanes>, s3: seq<Lanes>, t: seq<Lanes>, key: seq<Lanes>,
      k: nat)
    requires InvStepsFrom(s, s1, s2, s3, t, key) && k < 64
    ensures LaneBlock(t, k) == Fips197.InvRound(InvSBox)(LaneBlock(s, k), LaneBlock(key, k))
  {
    InvShiftedLane(s, s1, k);
    InvSubstitutedLane(s1, s2, k);
    AddedLane(s2, key, s3, k);
    InvMixedLane(s3, t, k);
  }

  lemma OneInvRound(s: seq<Lanes>, s1: seq<Lanes>, s2: seq<Lanes>, s3: seq<Lanes>, t: seq<Lanes>,
      rk: seq<seq<Lanes>>, nr: nat, keys: nat -> (nat -> Block), at: nat -> (nat -> Block), r: nat)
    requires Holding(rk, nr, keys) && InvChain(at, keys, nr) && 0 < r < nr && AtRound(s, at, r)
    requires InvStepsFrom(s, s1, s2, s3, t, rk[r])
    ensures AtRound(t, at, r - 1)
  {
    forall k: nat | k < 64
      ensures LaneBlock(t, k) == at(k)(r - 1)
    {
      assert InvStepAt(at, keys, k, r - 1);
      InvRoundLane(s, s1, s2, s3, t, rk[r], k);
    }
  }

  lemma LastInvLane(s: seq<Lanes>, s1: seq<Lanes>, s2: seq<Lanes>, t: seq<Lanes>, key: seq<Lanes>, k: nat)
    requires LastInvStepsFrom(s, s1, s2, t, key) && k < 64
    ensures LaneBlock(t, k) == Fips197.InvLast(InvSBox, LaneBlock(s, k), LaneBlock(key, k))
  {
    InvShiftedLane(s, s1, k);
    InvSubstitutedLane(s1, s2, k);
    AddedLane(s2, key, t, k);
  }

  lemma LastInvRound(s: seq<Lanes>, s1: seq<Lanes>, s2: seq<Lanes>, t: seq<Lanes>, rk: seq<seq<Lanes>>, nr: nat,
      keys: nat -> (nat -> Block), x: nat -> Block)
    requires Holding(rk, nr, keys) && AtRound(s, InvStates(keys, x, nr), 0)
    requires LastInvStepsFrom(s, s1, s2, t, rk[0])
    ensures forall k: nat :: k < 64 ==> LaneBlock(t, k) == Fips197.InvCipher(InvSBox, keys(k), nr, x(k))
  {
    forall k: nat | k < 64
      ensures LaneBlock(t, k) == Fips197.InvCipher(InvSBox, keys(k), nr, x(k))
    {
      LastInvLane(s, s1, s2, t, rk[0], k);
      InvStatesEnd(keys(k), x(k), nr);
    }
  }

  /** bs_cipher_rev: every lane deciphers its block under its own round keys. */
  method CipherRev(state: array<Lanes>, rk: seq<seq<Lanes>>, ghost keys: nat -> (nat -> Block))
    requires state.Length == 128 && Holding(rk, 10, keys)
    modifies state
    ensures forall k: nat :: k < 64 ==>
      MemBlock(state[..], k) == Fips197.InvCipher(InvSBox, keys(k), 10, MemBlock(old(state[..]), Source(k)))
  {
    ghost var s, x := state[..], Inputs(state[..]);
    Transpose(state);
    InputsInLanes(s, state[..]);
    InvRounds(state, rk, 10, keys, x);
    ghost var t := state[..];
    TransposeRev(state);
    OutputsInMemory(t, state[..]);
  }

  /** The inverse rounds, on planes. */
  method InvRounds(state: array<Lanes>, rk: seq<seq<Lanes>>, nr: nat, ghost keys: nat -> (nat -> Block),
      ghost x: nat -> Block)
    requires state.Length == 128 && Holding(rk, nr, keys) && InLanes(state[..], x)
    modifies state
    ensures forall k: nat :: k < 64 ==> LaneBlock(state[..], k) == Fips197.InvCipher(InvSBox, keys(k), nr, x(k))
  {
    ghost var s, at := state[..], InvStates(keys, x, nr);
    Bitslice.AddRoundKey(state, rk[nr]);
    LastKeyAdded(s, state[..], rk, nr, keys, x);
    InvStatesChain(keys, x, nr);
    InvLoop(state, rk, nr, keys, at);
    s := state[..];
    ghost var s1, s2 := LastInvSteps(state, rk[0]);
    LastInvRound(s, s1, s2, state[..], rk, nr, keys, x);
  }

  /** The loop, for any chain of states. */
  method InvLoop(state: array<Lanes>, rk: seq<seq<Lanes>>, nr: nat, ghost keys: nat -> (nat -> Block),
      ghost at: nat -> (nat -> Block))
    requires state.Length == 128 && Holding(rk, nr, keys) && InvChain(at, keys, nr) && AtRound(state[..], at, nr - 1)
    modifies state
    ensures AtRound(state[..], at, 0)
  {
    var round := nr - 1;
    while round > 0
      invariant 0 <= round < nr
      invariant AtRound(state[..], at, round)
    {
      ghost var s := state[..];
      ghost var s1, s2, s3 := InvSteps(state, rk[round]);
      OneInvRound(s, s1, s2, s3, state[..], rk, nr, keys, at, round);
      round := round - 1;
    }
  }

  /** The body of the loop of bs_cipher_rev, with the states between its steps. */
  method InvSteps(state: array<Lanes>, key: seq<Lanes>)
    returns (ghost s1: seq<Lanes>, ghost s2: seq<Lanes>, ghost s3: seq<Lanes>)
    requires state.Length == 128 && IsState(key)
    modifies state
    ensures InvStepsFrom(old(state[..]), s1, s2, s3, state[..], key)
  {
    Bitslice.ShiftRowsRev(state);
    s1 := state[..];
    Bitslice.ApplySboxRev(state);
    s2 := state[..];
    Bitslice.AddRoundKey(state, key);
    s3 := state[..];
    Bitslice.MixColumnsRev(state);
  }

  /** The steps after the loop of bs_cipher_rev. */
  method LastInvSteps(state: array<Lanes>, key: seq<Lanes>) returns (ghost s1: seq<Lanes>, ghost s2: seq<Lanes>)
    requires state.Length == 128 && IsState(key)
    modifies state
    ensures LastInvStepsFrom(old(state[..]), s1, s2, state[..], key)
  {
    Bitslice.ShiftRowsRev(state);
    s1 := state[..];
    Bitslice.ApplySboxRev(state);
    s2 := state[..];
    Bitslice.AddRoundKey(state, key);
  }

  /** Deciphering undoes enciphering in lanes 0 to 31, whatever round keys each lane holds. */
  method CipherThenRev(state: array<Lanes>, rk: seq<seq<Lanes>>)
    requires state.Length == 128 && AreKeys(rk, 10)
    modifies state
    ensures forall k: nat :: k < 32 ==> MemBlock(state[..], k) == MemBlock(old(state[..]), k)
  {
    ghost var s, keys := state[..], LaneKeys(rk);
    Cipher(state, rk, 10, keys);
    CipherRev(state, rk, keys);
    forall k: nat | k < 32
      ensures MemBlock(state[..], k) == MemBlock(s, k)
    {
      LaneUndone(keys(k), MemBlock(s, k));
    }
  }

  function LaneKey(rk: seq<seq<Lanes>>, k: nat, r: nat): Block {
    if r < |rk| && IsState(rk[r]) && k < 64 then LaneBlock(rk[r], k) else NoBlock()
  }

  /** The round keys in each lane. */
  function LaneKeys(rk: seq<seq<Lanes>>): nat -> (nat -> Block) {
    (k: nat) => ((r: nat) => LaneKey(rk, k, r))
  }

  lemma LaneUndone(keys: nat -> Block, x: Block)
    ensures Fips197.InvCipher(InvSBox, keys, 10, Fips197.Cipher(SBox, keys, 10, x)) == x
  {
    MixUndone();
    forall b
      ensures InvSBox(SBox(b)) == b
    {
      InvSBoxUndoes(b);
    }
    Fips197.InvCipherUndoes(SBox, InvSBox, keys, 10, x);
  }

  // ----- aes_ecb_encrypt and aes256_ecb_encrypt

  /** The single block goes into lane 0 of an otherwise empty state. */
  method Encrypt(input: Block, key: seq<byte>) returns (output: Block)
    requires Fips197.IsKey(key)
    ensures output == Fips197.Aes(SBox, key, input)
  {
    var nr := |key| / 4 + 6;
    var rk := ExpandKey(key);
    ghost var schedule := Fips197.Schedule(SBox, key);
    ghost var keys := (k: nat) => schedule;
    output := EncryptBlock(input, rk, nr, keys);
    assert keys(0) == schedule && nr == Fips197.NumRounds(key);
  }

  method EncryptBlock(input: Block, rk: seq<seq<Lanes>>, nr: nat, ghost keys: nat -> (nat -> Block))
    returns (output: Block)
    requires Holding(rk, nr, keys)
    ensures output == Fips197.Cipher(SBox, keys(0), nr, input)
  {
    var space := new Lanes[128](_ => Zero());
    space[0] := WordOf(input[..8]);
    space[1] := WordOf(input[8..]);
    HoldsBlock(space[..], 0, input);
    assert SingleBlock(space[..]);
    Cipher(space, rk, nr, keys);
    output := MemBlock(space[..], 0);
  }
}
