/**
 AES as FIPS 197 defines it, over an arbitrary substitution table: every backend of the
 repository carries its own copy of the S-box, which is passed in here as `sub`.

 A state is the block in input order, so that byte r + 4c is the state byte in row r and column
 c (section 3.4).
 */
module Fips197 {
  import opened Bytes

  type Table = byte -> byte

  // ----- section 4.1 and 4.2: addition, and multiplication by {02}

  function Plus(a: byte, b: byte): byte {
    a ^ b
  }

  function XTime(b: byte): byte {
    (b << 1) ^ (if b & 0x80 != 0 then 0x1b else 0)
  }

  // ----- section 5.1.1: the affine step of the S-box

  function Affine(b: byte): byte {
    b ^ b.RotateLeft(1) ^ b.RotateLeft(2) ^ b.RotateLeft(3) ^ b.RotateLeft(4) ^ 0x63
  }

  // ----- section 5.1: the cipher

  function SubBytes(sub: Table, x: Block): Block {
    seq(16, i requires 0 <= i < 16 => sub(x[i]))
  }

  /** Row r moves r places to the left. */
  function ShiftRows(x: Block): Block {
    seq(16, i requires 0 <= i < 16 => x[i % 4 + 4 * ((i / 4 + i % 4) % 4)])
  }

  /** {02} a + {03} b + c + d, a row of the matrix of section 5.1.3. */
  function MixByte(a: byte, b: byte, c: byte, d: byte): byte {
    MixTerms(XTime(a), XTime(b), b, c, d)
  }

  function MixTerms(a': byte, b': byte, b: byte, c: byte, d: byte): byte {
    Plus(Plus(Plus(a', Plus(b', b)), c), d)
  }

  /** One row of a matrix whose other rows are its rotations. */
  type Mixer = (byte, byte, byte, byte) -> byte

  function MixColumnBy(mix: Mixer, a: seq<byte>): seq<byte>
    requires |a| == 4
  {
    [mix(a[0], a[1], a[2], a[3]), mix(a[1], a[2], a[3], a[0]), mix(a[2], a[3], a[0], a[1]), mix(a[3], a[0], a[1], a[2])]
  }

  function MixColumnsBy(mix: Mixer, x: Block): Block {
    MixColumnBy(mix, x[0..4]) + MixColumnBy(mix, x[4..8]) + MixColumnBy(mix, x[8..12]) + MixColumnBy(mix, x[12..16])
  }

  function MixColumns(x: Block): Block {
    MixColumnsBy(MixByte, x)
  }

  function AddRoundKey(x: Block, k: Block): Block {
    XorBytes(x, k)
  }

  /** The state after round r of the identical rounds; rk gives the round keys. */
  function Rounds(sub: Table, rk: nat -> Block, x: Block, r: nat): Block {
    if r == 0 then AddRoundKey(x, rk(0))
    else AddRoundKey(MixColumns(ShiftRows(SubBytes(sub, Rounds(sub, rk, x, r - 1)))), rk(r))
  }

  /** Figure 5: nr rounds, the last one without MixColumns. */
  function Cipher(sub: Table, rk: nat -> Block, nr: nat, x: Block): Block
    requires nr > 0
  {
    AddRoundKey(ShiftRows(SubBytes(sub, Rounds(sub, rk, x, nr - 1))), rk(nr))
  }

  // ----- section 5.2: the key schedule

  type Word = w: seq<byte> | |w| == 4 witness ZeroBytes(4)

  function SubWord(sub: Table, w: Word): Word {
    [sub(w[0]), sub(w[1]), sub(w[2]), sub(w[3])]
  }

  function RotWord(w: Word): Word {
    [w[1], w[2], w[3], w[0]]
  }

  /** The first byte of Rcon[j], {02} to the power j - 1. */
  function Rcon(j: nat): byte {
    if j <= 1 then 1 else XTime(Rcon(j - 1))
  }

  /** The constants that every backend with a table or with literals spells out. */
  lemma RconValues()
    ensures Rcon(1) == 0x01 && Rcon(2) == 0x02 && Rcon(3) == 0x04 && Rcon(4) == 0x08 && Rcon(5) == 0x10
    ensures Rcon(6) == 0x20 && Rcon(7) == 0x40 && Rcon(8) == 0x80 && Rcon(9) == 0x1b && Rcon(10) == 0x36
  {
  }

  /** The ten constants in use. */
  const POWERS: seq<byte> := [0x01, 0x02, 0x04, 0x08, 0x10, 0x20, 0x40, 0x80, 0x1b, 0x36]

  lemma PowersAreRcon(j: nat)
    requires 1 <= j <= 10
    ensures POWERS[j - 1] == Rcon(j)
  {
    RconValues();
  }

  function XorWord(a: Word, b: Word): Word {
    XorBytes(a, b)
  }

  /** A constant changes the first byte only. */
  lemma ConstantAdded(t: Word, c: byte)
    ensures [t[0] ^ c, t[1], t[2], t[3]] == XorWord(t, [c, 0, 0, 0])
  {
    assert t[1] ^ 0 == t[1] && t[2] ^ 0 == t[2] && t[3] ^ 0 == t[3];
  }

  /** What is xored onto word i - Nk to give word i. */
  function Scrambled(sub: Table, nk: nat, i: nat, t: Word): Word
    requires nk > 0
  {
    if i % nk == 0 then XorWord(SubWord(sub, RotWord(t)), [Rcon(i / nk), 0, 0, 0])
    else if nk > 6 && i % nk == 4 then SubWord(sub, t)
    else t
  }

  predicate IsKey(key: seq<byte>) {
    |key| == 16 || |key| == 32
  }

  /** Word i of the expanded key. */
  function KeyWord(sub: Table, key: seq<byte>, i: nat): Word
    requires IsKey(key)
  {
    var nk := |key| / 4;
    if i < nk then key[4 * i..4 * i + 4]
    else XorWord(KeyWord(sub, key, i - nk), Scrambled(sub, nk, i, KeyWord(sub, key, i - 1)))
  }

  /** The words of the expanded key, as a function of their index. */
  function KeyWords(sub: Table, key: seq<byte>): nat -> Word
    requires IsKey(key)
  {
    (i: nat) => KeyWord(sub, key, i)
  }

  /** Round key r is words 4r to 4r + 3. */
  function RoundKey(words: nat -> Word, r: nat): Block {
    words(4 * r) + words(4 * r + 1) + words(4 * r + 2) + words(4 * r + 3)
  }

  function Schedule(sub: Table, key: seq<byte>): nat -> Block
    requires IsKey(key)
  {
    (r: nat) => RoundKey(KeyWords(sub, key), r)
  }

  function NumRounds(key: seq<byte>): nat {
    |key| / 4 + 6
  }

  /** AES-128 or AES-256, by the length of the key. */
  function Aes(sub: Table, key: seq<byte>, x: Block): Block
    requires IsKey(key)
  {
    Cipher(sub, Schedule(sub, key), NumRounds(key), x)
  }

  // ----- positions

  lemma ShiftRowsBytes(x: Block)
    ensures ShiftRows(x)
      == [x[0], x[5], x[10], x[15], x[4], x[9], x[14], x[3], x[8], x[13], x[2], x[7], x[12], x[1], x[6], x[11]]
  {
  }

  /** The first n words of an expanded key, laid out one after the other. */
  ghost predicate Expanded(words: nat -> Word, w: seq<byte>, n: nat) {
    4 * n <= |w| && forall i :: 0 <= i < n ==> w[4 * i..4 * i + 4] == words(i)
  }

  lemma RoundKeyAt(words: nat -> Word, w: seq<byte>, n: nat, r: nat)
    requires Expanded(words, w, n) && 4 * r + 4 <= n
    ensures w[16 * r..16 * r + 16] == RoundKey(words, r)
  {
    var i := 4 * r;
    var a, b := w[4 * i..4 * i + 4], w[4 * (i + 1)..4 * (i + 1) + 4];
    var c, d := w[4 * (i + 2)..4 * (i + 2) + 4], w[4 * (i + 3)..4 * (i + 3) + 4];
    assert a == words(i) && b == words(i + 1) && c == words(i + 2) && d == words(i + 3);
    assert w[16 * r..16 * r + 16] == a + b + c + d;
  }

  /** Word w is made from the words before it as section 5.2 says. */
  predicate Follows(sub: Table, nk: nat, words: nat -> Word, w: nat)
    requires 0 < nk <= w
  {
    words(w) == XorWord(words(w - nk), Scrambled(sub, nk, w, words(w - 1)))
  }

  ghost predicate Recurs(sub: Table, nk: nat, words: nat -> Word)
    requires nk > 0
  {
    forall w: nat :: w >= nk ==> Follows(sub, nk, words, w)
  }

  /** The round keys, laid out one after the other. */
  ghost predicate LaidOut(rk: nat -> Block, s: seq<byte>, n: nat) {
    16 * n <= |s| && forall r: nat :: r < n ==> s[16 * r..16 * r + 16] == rk(r)
  }

  lemma ScheduleLaidOut(sub: Table, key: seq<byte>, s: seq<byte>, n: nat)
    requires IsKey(key) && Expanded(KeyWords(sub, key), s, 4 * n)
    ensures LaidOut(Schedule(sub, key), s, n)
  {
    forall r: nat | r < n
      ensures s[16 * r..16 * r + 16] == Schedule(sub, key)(r)
    {
      RoundKeyAt(KeyWords(sub, key), s, 4 * n, r);
    }
  }

  lemma NextWord(sub: Table, key: seq<byte>, i: nat)
    requires IsKey(key) && i >= |key| / 4
    ensures var words, nk := KeyWords(sub, key), |key| / 4;
      words(i) == XorWord(words(i - nk), Scrambled(sub, nk, i, words(i - 1)))
  {
  }

  lemma KeyRecurs(sub: Table, key: seq<byte>)
    requires IsKey(key)
    ensures Recurs(sub, |key| / 4, KeyWords(sub, key))
  {
    var words, nk := KeyWords(sub, key), |key| / 4;
    forall w: nat | w >= nk
      ensures Follows(sub, nk, words, w)
    {
      NextWord(sub, key, w);
    }
  }

  /** The first words are the key itself. */
  lemma FirstWords(sub: Table, key: seq<byte>, i: nat)
    requires IsKey(key) && i < |key| / 4
    ensures KeyWords(sub, key)(i) == key[4 * i..4 * i + 4]
  {
  }

  lemma ExpandedKey(sub: Table, key: seq<byte>, w: seq<byte>)
    requires IsKey(key) && |w| >= |key| && w[..|key|] == key
    ensures Expanded(KeyWords(sub, key), w, |key| / 4)
  {
    forall i | 0 <= i < |key| / 4
      ensures w[4 * i..4 * i + 4] == KeyWords(sub, key)(i)
    {
      FirstWords(sub, key, i);
      assert w[4 * i..4 * i + 4] == w[..|key|][4 * i..4 * i + 4];
    }
  }

  /** Extends an expanded key by the word with index n. */
  lemma ExpandedOne(words: nat -> Word, w: seq<byte>, w': seq<byte>, n: nat)
    requires Expanded(words, w, n) && |w'| == |w| && 4 * n + 4 <= |w|
    requires w'[..4 * n] == w[..4 * n] && w'[4 * n..4 * n + 4] == words(n)
    ensures Expanded(words, w', n + 1)
  {
    forall i | 0 <= i < n + 1
      ensures w'[4 * i..4 * i + 4] == words(i)
    {
      if i < n {
        assert w'[4 * i..4 * i + 4] == w'[..4 * n][4 * i..4 * i + 4] == w[..4 * n][4 * i..4 * i + 4];
      }
    }
  }

  /** One more word at the end of an expanded key. */
  lemma ExtendedOne(words: nat -> Word, b: seq<byte>, b': seq<byte>, w: nat, nk: nat, t: Word)
    requires 1 <= nk <= w && 4 * w + 4 <= |b| == |b'|
    requires Expanded(words, b, w) && words(w) == XorWord(words(w - nk), t)
    requires b'[..4 * w] == b[..4 * w] && b'[4 * w..4 * w + 4] == XorWord(b[4 * (w - nk)..4 * (w - nk) + 4], t)
    ensures Expanded(words, b', w + 1)
  {
    var v := w - nk;
    assert b[4 * v..4 * v + 4] == words(v);
    ExpandedOne(words, b, b', w);
  }

  /** An expanded key holds all that its next word is made of. */
  lemma NextFromExpanded(sub: Table, nk: nat, words: nat -> Word, b: seq<byte>, w: nat)
    requires 1 <= nk <= w && Recurs(sub, nk, words) && Expanded(words, b, w)
    ensures words(w) == XorWord(words(w - nk), Scrambled(sub, nk, w, b[4 * w - 4..4 * w]))
  {
    var i := w - 1;
    assert b[4 * i..4 * i + 4] == words(i);
    assert Follows(sub, nk, words, w);
  }

  // ----- {02} is linear

  lemma XTimeLinear(a: byte, b: byte)
    ensures XTime(a ^ b) == XTime(a) ^ XTime(b)
  {
    if a & 0x80 != 0 {
      if b & 0x80 != 0 {
        assert XTime(a ^ b) == XTime(a) ^ XTime(b);
      } else {
        assert XTime(a ^ b) == XTime(a) ^ XTime(b);
      }
    } else {
      if b & 0x80 != 0 {
        assert XTime(a ^ b) == XTime(a) ^ XTime(b);
      } else {
        assert XTime(a ^ b) == XTime(a) ^ XTime(b);
      }
    }
  }

  /** Column c of y is column c of x, mixed. */
  predicate MixedAt(mix: Mixer, x: Block, y: Block, c: nat)
    requires c < 4
  {
    var i := 4 * c;
    && y[i] == mix(x[i], x[i + 1], x[i + 2], x[i + 3])
    && y[i + 1] == mix(x[i + 1], x[i + 2], x[i + 3], x[i])
    && y[i + 2] == mix(x[i + 2], x[i + 3], x[i], x[i + 1])
    && y[i + 3] == mix(x[i + 3], x[i], x[i + 1], x[i + 2])
  }

  lemma MixedColumns(mix: Mixer, x: Block, y: Block)
    requires MixedAt(mix, x, y, 0) && MixedAt(mix, x, y, 1) && MixedAt(mix, x, y, 2) && MixedAt(mix, x, y, 3)
    ensures y == MixColumnsBy(mix, x)
  {
    assert y[0..4] == MixColumnBy(mix, x[0..4]);
    assert y[4..8] == MixColumnBy(mix, x[4..8]);
    assert y[8..12] == MixColumnBy(mix, x[8..12]);
    assert y[12..16] == MixColumnBy(mix, x[12..16]);
  }

  lemma FourColumns(mix: Mixer, x: Block, y: Block)
    requires forall c :: 0 <= c < 4 ==> y[4 * c..4 * c + 4] == MixColumnBy(mix, x[4 * c..4 * c + 4])
    ensures y == MixColumnsBy(mix, x)
  {
    assert y == y[4 * 0..4 * 0 + 4] + y[4 * 1..4 * 1 + 4] + y[4 * 2..4 * 2 + 4] + y[4 * 3..4 * 3 + 4];
  }

  // ----- section 5.3: the inverse cipher

  /** Row r moves r places to the right. */
  function InvShiftRows(x: Block): Block {
    seq(16, i requires 0 <= i < 16 => x[i % 4 + 4 * ((i / 4 + 4 - i % 4) % 4)])
  }

  function Times9(a: byte): byte {
    Plus(XTime(XTime(XTime(a))), a)
  }

  function Times11(a: byte): byte {
    var two := XTime(a);
    Plus(Plus(XTime(XTime(two)), two), a)
  }

  function Times13(a: byte): byte {
    var four := XTime(XTime(a));
    Plus(Plus(XTime(four), four), a)
  }

  function Times14(a: byte): byte {
    var two := XTime(a);
    var four := XTime(two);
    Plus(Plus(XTime(four), four), two)
  }

  /** {0e} a + {0b} b + {0d} c + {09} d, a row of the matrix of section 5.3.3. */
  function InvMixByte(a: byte, b: byte, c: byte, d: byte): byte {
    Plus(Plus(Plus(Times14(a), Times11(b)), Times13(c)), Times9(d))
  }

  function InvMixColumns(x: Block): Block {
    MixColumnsBy(InvMixByte, x)
  }

  /** One of the identical rounds. */
  function InvRound(inv: Table): (Block, Block) -> Block {
    (z: Block, k: Block) => InvMixColumns(AddRoundKey(SubBytes(inv, InvShiftRows(z)), k))
  }

  /** The state after j of the identical rounds. */
  function InvRounds(round: (Block, Block) -> Block, rk: nat -> Block, nr: nat, y: Block, j: nat): Block
    requires j <= nr
  {
    if j == 0 then AddRoundKey(y, rk(nr)) else round(InvRounds(round, rk, nr, y, j - 1), rk(nr - j))
  }

  /** Figure 12. */
  function InvCipher(inv: Table, rk: nat -> Block, nr: nat, y: Block): Block
    requires nr > 0
  {
    InvCipherBy(InvRound(inv), inv, rk, nr, y)
  }

  function InvCipherBy(round: (Block, Block) -> Block, inv: Table, rk: nat -> Block, nr: nat, y: Block): Block
    requires nr > 0
  {
    InvLast(inv, InvRounds(round, rk, nr, y, nr - 1), rk(0))
  }

  /** The last round, which does not mix. */
  function InvLast(inv: Table, z: Block, k: Block): Block {
    AddRoundKey(SubBytes(inv, InvShiftRows(z)), k)
  }

  lemma InvShiftRowsUndoes(x: Block)
    ensures InvShiftRows(ShiftRows(x)) == x
  {
  }

  lemma InvSubBytesUndoes(sub: Table, inv: Table, x: Block)
    requires forall b :: inv(sub(b)) == b
    ensures SubBytes(inv, SubBytes(sub, x)) == x
  {
    forall i | 0 <= i < 16
      ensures SubBytes(inv, SubBytes(sub, x))[i] == x[i]
    {
      assert inv(sub(x[i])) == x[i];
    }
  }

  lemma InvCipherEnds(round: (Block, Block) -> Block, inv: Table, rk: nat -> Block, nr: nat, y: Block, j: nat)
    requires j + 1 == nr
    ensures InvCipherBy(round, inv, rk, nr, y) == InvLast(inv, InvRounds(round, rk, nr, y, j), rk(0))
  {
  }

  /** A matrix that undoes another. */
  ghost predicate Undoes(inv: Mixer, mix: Mixer) {
    forall a, b, c, d :: UndoesAt(inv, mix, a, b, c, d)
  }

  predicate UndoesAt(inv: Mixer, mix: Mixer, a: byte, b: byte, c: byte, d: byte) {
    inv(mix(a, b, c, d), mix(b, c, d, a), mix(c, d, a, b), mix(d, a, b, c)) == a
  }

  lemma MixColumnUndone(inv: Mixer, mix: Mixer, a: seq<byte>)
    requires |a| == 4 && Undoes(inv, mix)
    ensures MixColumnBy(inv, MixColumnBy(mix, a)) == a
  {
    assert UndoesAt(inv, mix, a[0], a[1], a[2], a[3]) && UndoesAt(inv, mix, a[1], a[2], a[3], a[0]);
    assert UndoesAt(inv, mix, a[2], a[3], a[0], a[1]) && UndoesAt(inv, mix, a[3], a[0], a[1], a[2]);
  }

  lemma MixColumnsUndone(inv: Mixer, mix: Mixer, x: Block)
    requires Undoes(inv, mix)
    ensures MixColumnsBy(inv, MixColumnsBy(mix, x)) == x
  {
    MixColumnUndone(inv, mix, x[0..4]);
    MixColumnUndone(inv, mix, x[4..8]);
    MixColumnUndone(inv, mix, x[8..12]);
    MixColumnUndone(inv, mix, x[12..16]);
    var y := MixColumnsBy(mix, x);
    assert y[0..4] == MixColumnBy(mix, x[0..4]) && y[4..8] == MixColumnBy(mix, x[4..8]);
    assert y[8..12] == MixColumnBy(mix, x[8..12]) && y[12..16] == MixColumnBy(mix, x[12..16]);
  }

  /** What is left of round r + 1 before it is mixed. */
  function Unmixed(sub: Table, rk: nat -> Block, x: Block): nat -> Block {
    (r: nat) => ShiftRows(SubBytes(sub, Rounds(sub, rk, x, r)))
  }

  /** Every round leads one step back. */
  ghost predicate StepsBack(round: (Block, Block) -> Block, rk: nat -> Block, left: nat -> Block) {
    forall r: nat :: round(left(r + 1), rk(r + 1)) == left(r)
  }

  lemma InvRoundUndoes(sub: Table, inv: Table, rk: nat -> Block, x: Block, r: nat)
    requires r > 0 && Undoes(InvMixByte, MixByte) && forall b :: inv(sub(b)) == b
    ensures InvMixColumns(AddRoundKey(SubBytes(inv, InvShiftRows(ShiftRows(SubBytes(sub, Rounds(sub, rk, x, r))))),
      rk(r)))
      == ShiftRows(SubBytes(sub, Rounds(sub, rk, x, r - 1)))
  {
    var shifted := ShiftRows(SubBytes(sub, Rounds(sub, rk, x, r - 1)));
    UndoShiftAndSub(sub, inv, Rounds(sub, rk, x, r));
    XorBytesTwice(MixColumns(shifted), rk(r));
    MixColumnsUndone(InvMixByte, MixByte, shifted);
  }

  lemma AllStepBack(sub: Table, inv: Table, rk: nat -> Block, x: Block)
    requires Undoes(InvMixByte, MixByte) && forall b :: inv(sub(b)) == b
    ensures StepsBack(InvRound(inv), rk, Unmixed(sub, rk, x))
  {
    forall r: nat
      ensures InvRound(inv)(Unmixed(sub, rk, x)(r + 1), rk(r + 1)) == Unmixed(sub, rk, x)(r)
    {
      InvRoundUndoes(sub, inv, rk, x, r + 1);
    }
  }

  /** What is left after j inverse rounds, given what is left at the start. */
  lemma {:induction false} InvRoundsUndo(round: (Block, Block) -> Block, rk: nat -> Block, nr: nat, y: Block,
      left: nat -> Block, j: nat)
    requires j < nr && StepsBack(round, rk, left) && InvRounds(round, rk, nr, y, 0) == left(nr - 1)
    ensures InvRounds(round, rk, nr, y, j) == left(nr - 1 - j)
  {
    if j > 0 {
      InvRoundsUndo(round, rk, nr, y, left, j - 1);
      var r := nr - 1 - j;
      assert round(left(r + 1), rk(r + 1)) == left(r);
    }
  }

  lemma UndoShiftAndSub(sub: Table, inv: Table, z: Block)
    requires forall b :: inv(sub(b)) == b
    ensures SubBytes(inv, InvShiftRows(ShiftRows(SubBytes(sub, z)))) == z
  {
    InvShiftRowsUndoes(SubBytes(sub, z));
    InvSubBytesUndoes(sub, inv, z);
  }

  lemma InvRoundsLeave(round: (Block, Block) -> Block, rk: nat -> Block, nr: nat, y: Block, left: nat -> Block)
    requires nr > 0 && StepsBack(round, rk, left) && y == AddRoundKey(left(nr - 1), rk(nr))
    ensures InvRounds(round, rk, nr, y, nr - 1) == left(0)
  {
    XorBytesTwice(left(nr - 1), rk(nr));
    InvRoundsUndo(round, rk, nr, y, left, nr - 1);
  }

  lemma CipherAdds(sub: Table, rk: nat -> Block, nr: nat, x: Block)
    requires nr > 0
    ensures Cipher(sub, rk, nr, x) == AddRoundKey(Unmixed(sub, rk, x)(nr - 1), rk(nr))
  {
  }

  lemma InvCipherUndoes(sub: Table, inv: Table, rk: nat -> Block, nr: nat, x: Block)
    requires nr > 0 && Undoes(InvMixByte, MixByte) && forall b :: inv(sub(b)) == b
    ensures InvCipher(inv, rk, nr, Cipher(sub, rk, nr, x)) == x
  {
    var y := Cipher(sub, rk, nr, x);
    CipherAdds(sub, rk, nr, x);
    AllStepBack(sub, inv, rk, x);
    InvRoundsLeave(InvRound(inv), rk, nr, y, Unmixed(sub, rk, x));
    LastRoundUndone(sub, inv, rk, x, InvRounds(InvRound(inv), rk, nr, y, nr - 1));
  }

  lemma LastRoundUndone(sub: Table, inv: Table, rk: nat -> Block, x: Block, z: Block)
    requires z == Unmixed(sub, rk, x)(0) && forall b :: inv(sub(b)) == b
    ensures InvLast(inv, z, rk(0)) == x
  {
    UndoShiftAndSub(sub, inv, Rounds(sub, rk, x, 0));
    XorBytesTwice(x, rk(0));
  }
}
