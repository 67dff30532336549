/**
 The byte-matrix backends: backends/f1/aes128.c, and backends/f4/aes256.c, which is the same
 code with Nk = 8, Nr = 14 and the extra SubWord step.  The C type state_t is a 4x4 matrix laid
 over the 16-byte buffer, so that (*state)[i][j] is byte 4 * i + j.
 */
module MatrixAes {
  import opened Bytes
  import opened Fips197

  function Xtime(x: byte): (y: byte)
    ensures y == XTime(x)
  {
    (x << 1) ^ (((x >> 7) & 1) * 0x1b)
  }

  /** tempa of KeyExpansion, after the two conditional steps. */
  method Transform(sub: Table, nk: nat, i: nat, last: Word) returns (tempa: Word)
    requires nk == 4 || nk == 8
    requires nk <= i < 4 * (nk + 7)
    ensures tempa == Scrambled(sub, nk, i, last)
  {
    tempa := last;
    if i % nk == 0 {
      tempa := [tempa[1], tempa[2], tempa[3], tempa[0]];
      tempa := [sub(tempa[0]), sub(tempa[1]), sub(tempa[2]), sub(tempa[3])];
      var rcon := POWERS[i / nk - 1];
      PowersAreRcon(i / nk);
      ConstantAdded(tempa, rcon);
      tempa := [tempa[0] ^ rcon, tempa[1], tempa[2], tempa[3]];
    }
    if nk == 8 && i % nk == 4 {
      tempa := [sub(tempa[0]), sub(tempa[1]), sub(tempa[2]), sub(tempa[3])];
    }
  }

  /** RoundKey[j..j + 4] = RoundKey[k..k + 4] ^ tempa. */
  method PutWord(roundKey: array<byte>, j: nat, k: nat, tempa: Word)
    requires k + 4 <= j && j + 4 <= roundKey.Length
    modifies roundKey
    ensures roundKey[..j] == old(roundKey[..j]) && roundKey[j..j + 4] == XorWord(old(roundKey[k..k + 4]), tempa)
  {
    roundKey[j + 0] := roundKey[k + 0] ^ tempa[0];
    roundKey[j + 1] := roundKey[k + 1] ^ tempa[1];
    roundKey[j + 2] := roundKey[k + 2] ^ tempa[2];
    roundKey[j + 3] := roundKey[k + 3] ^ tempa[3];
  }

  /** The first round key is the key itself. */
  method CopyKey(roundKey: array<byte>, key: seq<byte>, nk: nat)
    requires |key| == 4 * nk <= roundKey.Length
    modifies roundKey
    ensures roundKey[..|key|] == key
  {
    var i := 0;
    while i < nk
      invariant 0 <= i <= nk
      invariant roundKey[..4 * i] == key[..4 * i]
    {
      roundKey[i * 4 + 0] := key[i * 4 + 0];
      roundKey[i * 4 + 1] := key[i * 4 + 1];
      roundKey[i * 4 + 2] := key[i * 4 + 2];
      roundKey[i * 4 + 3] := key[i * 4 + 3];
      i := i + 1;
    }
  }

  method KeyExpansion(sub: Table, roundKey: array<byte>, key: seq<byte>, nk: nat, nr: nat)
    requires IsKey(key) && nk == |key| / 4 && nr == nk + 6 && roundKey.Length == 16 * (nr + 1)
    modifies roundKey
    ensures Expanded(KeyWords(sub, key), roundKey[..], 4 * (nr + 1))
  {
    CopyKey(roundKey, key, nk);
    ExpandedKey(sub, key, roundKey[..]);
    KeyRecurs(sub, key);
    ExpandWords(sub, roundKey, nk, nr, KeyWords(sub, key));
  }

  /** The loop of KeyExpansion over all the other words. */
  method ExpandWords(sub: Table, roundKey: array<byte>, nk: nat, nr: nat, ghost words: nat -> Word)
    requires (nk == 4 || nk == 8) && nr == nk + 6 && roundKey.Length == 16 * (nr + 1)
    requires Recurs(sub, nk, words) && Expanded(words, roundKey[..], nk)
    modifies roundKey
    ensures Expanded(words, roundKey[..], 4 * (nr + 1))
  {
    var i := nk;
    while i < 4 * (nr + 1)
      invariant nk <= i <= 4 * (nr + 1)
      invariant Expanded(words, roundKey[..], i)
    {
      ghost var before := roundKey[..];
      NextFromExpanded(sub, nk, words, before, i);
      var k := (i - 1) * 4;
      var tempa := Transform(sub, nk, i, roundKey[k..k + 4]);
      var j := i * 4;
      k := (i - nk) * 4;
      PutWord(roundKey, j, k, tempa);
      assert j == 4 * i && k == 4 * (i - nk);
      ExtendedOne(words, before, roundKey[..], i, nk, tempa);
      i := i + 1;
    }
  }

  /** (*state)[i][j] ^= RoundKey[(round * Nb * 4) + (i * Nb) + j]. */
  method AddRoundKeyTo(round: nat, state: array<byte>, roundKey: array<byte>)
    requires state.Length == 16 && 16 * round + 16 <= roundKey.Length && state != roundKey
    modifies state
    ensures state[..] == AddRoundKey(old(state[..]), roundKey[16 * round..16 * round + 16])
  {
    var i := 0;
    while i < 4
      invariant 0 <= i <= 4
      invariant forall k :: 0 <= k < 16 ==>
        state[k] == if k < 4 * i then old(state[k]) ^ roundKey[16 * round + k] else old(state[k])
    {
      var j := 0;
      while j < 4
        invariant 0 <= j <= 4
        invariant forall k :: 0 <= k < 16 ==>
          state[k] == if k < 4 * i + j then old(state[k]) ^ roundKey[16 * round + k] else old(state[k])
      {
        state[4 * i + j] := state[4 * i + j] ^ roundKey[round * 16 + i * 4 + j];
        j := j + 1;
      }
      i := i + 1;
    }
  }

  /** The state, column by column within each row. */
  method SubBytesIn(sub: Table, state: array<byte>)
    requires state.Length == 16
    modifies state
    ensures state[..] == SubBytes(sub, old(state[..]))
  {
    var i := 0;
    while i < 4
      invariant 0 <= i <= 4
      invariant forall k :: 0 <= k < 16 ==> state[k] == if k % 4 < i then sub(old(state[k])) else old(state[k])
    {
      var j := 0;
      while j < 4
        invariant 0 <= j <= 4
        invariant forall k :: 0 <= k < 16 ==>
          state[k] == if k % 4 < i || (k % 4 == i && k / 4 < j) then sub(old(state[k])) else old(state[k])
      {
        state[4 * j + i] := sub(state[4 * j + i]);
        j := j + 1;
      }
      i := i + 1;
    }
  }

  method ShiftRowsIn(state: array<byte>)
    requires state.Length == 16
    modifies state
    ensures state[..] == ShiftRows(old(state[..]))
  {
    ShiftRowsBytes(state[..]);
    ShiftRow1(state);
    ShiftRow2(state);
    ShiftRow3(state);
  }

  /** Row 1, one column to the left. */
  method ShiftRow1(state: array<byte>)
    requires state.Length == 16
    modifies state
    ensures state[..] == old(state[..][1 := state[5]][5 := state[9]][9 := state[13]][13 := state[1]])
  {
    var temp := state[1];
    state[1] := state[5];
    state[5] := state[9];
    state[9] := state[13];
    state[13] := temp;
  }

  /** Row 2, two columns to the left. */
  method ShiftRow2(state: array<byte>)
    requires state.Length == 16
    modifies state
    ensures state[..] == old(state[..][2 := state[10]][10 := state[2]][6 := state[14]][14 := state[6]])
  {
    var temp := state[2];
    state[2] := state[10];
    state[10] := temp;
    temp := state[6];
    state[6] := state[14];
    state[14] := temp;
  }

  /** Row 3, three columns to the left. */
  method ShiftRow3(state: array<byte>)
    requires state.Length == 16
    modifies state
    ensures state[..] == old(state[..][3 := state[15]][15 := state[11]][11 := state[7]][7 := state[3]])
  {
    var temp := state[3];
    state[3] := state[15];
    state[15] := state[11];
    state[11] := state[7];
    state[7] := temp;
  }

  method MixColumnsIn(state: array<byte>)
    requires state.Length == 16
    modifies state
    ensures state[..] == MixColumns(old(state[..]))
  {
    ghost var x := state[..];
    var i := 0;
    while i < 4
      invariant 0 <= i <= 4
      invariant forall c :: 0 <= c < i ==> state[4 * c..4 * c + 4] == MixColumnBy(MixByte, x[4 * c..4 * c + 4])
      invariant forall c :: i <= c < 4 ==> state[4 * c..4 * c + 4] == x[4 * c..4 * c + 4]
    {
      MixedColumnIsMixColumn(state[4 * i..4 * i + 4]);
      MixColumnAt(state, i);
      i := i + 1;
    }
    FourColumns(MixByte, x, state[..]);
  }

  function Xor4(a: byte, b: byte, c: byte, d: byte): byte {
    a ^ b ^ c ^ d
  }

  /** Tm = v ^ w; Tm = xtime(Tm); v ^ Tm ^ Tmp. */
  function Mixed(v: byte, w: byte, tmp: byte): byte {
    Xor3(v, Xtime(v ^ w), tmp)
  }

  function Xor3(v: byte, tm: byte, tmp: byte): byte {
    v ^ (tm ^ tmp)
  }

  /** A column after the loop body of MixColumns: one application of {02} serves two terms. */
  function MixedColumn(a: seq<byte>): seq<byte>
    requires |a| == 4
  {
    var tmp := Xor4(a[0], a[1], a[2], a[3]);
    [Mixed(a[0], a[1], tmp), Mixed(a[1], a[2], tmp), Mixed(a[2], a[3], tmp), Mixed(a[3], a[0], tmp)]
  }

  lemma MixedRow(a: byte, b: byte, c: byte, d: byte, tmp: byte)
    requires tmp == Xor4(a, b, c, d)
    ensures Mixed(a, b, tmp) == MixByte(a, b, c, d)
  {
    XTimeLinear(a, b);
    XorCancels(a, XTime(a) ^ XTime(b), b, c, d);
    XorTerms(XTime(a), XTime(b), b, c, d);
  }

  lemma XorCancels(a: byte, m: byte, b: byte, c: byte, d: byte)
    ensures Xor3(a, m, Xor4(a, b, c, d)) == Xor4(m, b, c, d)
  {
  }

  lemma XorTerms(a': byte, b': byte, b: byte, c: byte, d: byte)
    ensures Xor4(a' ^ b', b, c, d) == MixTerms(a', b', b, c, d)
  {
  }

  lemma XorRotate(a: byte, b: byte, c: byte, d: byte)
    ensures Xor4(a, b, c, d) == Xor4(b, c, d, a)
  {
  }

  lemma MixedColumnIsMixColumn(x: seq<byte>)
    requires |x| == 4
    ensures MixedColumn(x) == MixColumnBy(MixByte, x)
  {
    var a, b, c, d := x[0], x[1], x[2], x[3];
    var tmp := Xor4(a, b, c, d);
    XorRotate(a, b, c, d);
    XorRotate(b, c, d, a);
    XorRotate(c, d, a, b);
    MixedRow(a, b, c, d, tmp);
    MixedRow(b, c, d, a, tmp);
    MixedRow(c, d, a, b, tmp);
    MixedRow(d, a, b, c, tmp);
  }

  /** The body of the loop of MixColumns. */
  method MixColumnAt(state: array<byte>, i: nat)
    requires state.Length == 16 && i < 4
    modifies state
    ensures state[4 * i..4 * i + 4] == MixedColumn(old(state[4 * i..4 * i + 4]))
    ensures forall c :: 0 <= c < 4 && c != i ==> state[4 * c..4 * c + 4] == old(state[4 * c..4 * c + 4])
  {
    var t := state[4 * i + 0];
    var tmp := Xor4(state[4 * i + 0], state[4 * i + 1], state[4 * i + 2], state[4 * i + 3]);
    state[4 * i + 0] := Mixed(state[4 * i + 0], state[4 * i + 1], tmp);
    state[4 * i + 1] := Mixed(state[4 * i + 1], state[4 * i + 2], tmp);
    state[4 * i + 2] := Mixed(state[4 * i + 2], state[4 * i + 3], tmp);
    state[4 * i + 3] := Mixed(state[4 * i + 3], t, tmp);
  }

  /** Cipher: the rounds, broken off before the last MixColumns. */
  method CipherIn(sub: Table, state: array<byte>, roundKey: array<byte>, nr: nat, ghost words: nat -> Word,
      ghost rk: nat -> Block)
    requires state.Length == 16 && roundKey.Length == 16 * (nr + 1) && state != roundKey && nr > 0
    requires Expanded(words, roundKey[..], 4 * (nr + 1)) && forall r: nat :: rk(r) == RoundKey(words, r)
    modifies state
    ensures state[..] == Cipher(sub, rk, nr, old(state[..]))
  {
    ghost var x := state[..];
    RoundKeyAt(words, roundKey[..], 4 * (nr + 1), 0);
    AddRoundKeyTo(0, state, roundKey);
    var round := 1;
    while true
      invariant 1 <= round <= nr
      invariant state[..] == Rounds(sub, rk, x, round - 1)
      decreases nr - round
    {
      SubBytesIn(sub, state);
      ShiftRowsIn(state);
      if round == nr {
        break;
      }
      MixColumnsIn(state);
      RoundKeyAt(words, roundKey[..], 4 * (nr + 1), round);
      AddRoundKeyTo(round, state, roundKey);
      round := round + 1;
    }
    RoundKeyAt(words, roundKey[..], 4 * (nr + 1), nr);
    AddRoundKeyTo(nr, state, roundKey);
  }

  /** aes128 of f1 and aes256 of f4. */
  method Encrypt(sub: Table, plaintext: Block, key: seq<byte>) returns (ciphertext: Block)
    requires IsKey(key)
    ensures ciphertext == Aes(sub, key, plaintext)
  {
    var nk := |key| / 4;
    var nr := nk + 6;
    var buffer := new byte[16](i requires 0 <= i < 16 => plaintext[i]);
    var roundKey := new byte[16 * (nr + 1)];
    KeyExpansion(sub, roundKey, key, nk, nr);
    assert buffer[..] == plaintext && nr == NumRounds(key);
    ghost var rk := Schedule(sub, key);
    CipherIn(sub, buffer, roundKey, nr, KeyWords(sub, key), rk);
    ciphertext := buffer[..];
    assert ciphertext == Cipher(sub, rk, nr, plaintext);
  }
}
