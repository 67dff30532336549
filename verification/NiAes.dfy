/**
 The x86-64 half of backends/f7/aes128.c and backends/f8/aes256.c.  The instructions are given by
 their documented meaning on a register of sixteen bytes in memory order; the S-box they use is
 again the parameter `sub`.
 */
module NiAes {
  import opened Bytes
  import opened Fips197

  // ----- the instructions

  /** _mm_slli_si128(x, 4), and the xor with the unshifted register. */
  function ShiftXor(x: Block): Block {
    XorBytes(x, ZeroBytes(4) + x[..12])
  }

  /** Dword i of a register. */
  function Dword(x: Block, i: nat): Word
    requires i < 4
  {
    x[4 * i..4 * i + 4]
  }

  /** _mm_shuffle_epi32(x, _MM_SHUFFLE(i, i, i, i)). */
  function Broadcast(x: Block, i: nat): Block
    requires i < 4
  {
    Dword(x, i) + Dword(x, i) + Dword(x, i) + Dword(x, i)
  }

  /** _mm_aeskeygenassist_si128. */
  function KeygenAssist(sub: Table, x: Block, rcon: byte): Block {
    SubWord(sub, Dword(x, 1)) + XorWord(RotWord(SubWord(sub, Dword(x, 1))), [rcon, 0, 0, 0])
    + SubWord(sub, Dword(x, 3)) + XorWord(RotWord(SubWord(sub, Dword(x, 3))), [rcon, 0, 0, 0])
  }

  /** _mm_aesenc_si128. */
  function AesEnc(sub: Table, x: Block, k: Block): Block {
    XorBytes(MixColumns(SubBytes(sub, ShiftRows(x))), k)
  }

  /** _mm_aesenclast_si128. */
  function AesEncLast(sub: Table, x: Block, k: Block): Block {
    XorBytes(SubBytes(sub, ShiftRows(x)), k)
  }

  /** The instructions shift before they substitute. */
  lemma SubShiftCommute(sub: Table, x: Block)
    ensures SubBytes(sub, ShiftRows(x)) == ShiftRows(SubBytes(sub, x))
  {
  }

  // ----- the key schedules

  /** What each expansion step makes of a round key and a broadcast word. */
  function ExpandStep(key: Block, g: Block): Block {
    XorBytes(ShiftXor(ShiftXor(ShiftXor(key))), g)
  }

  /** The four words a, b, c, d as a register. */
  function Reg(a: Word, b: Word, c: Word, d: Word): Block {
    a + b + c + d
  }

  lemma XorConcat(a: seq<byte>, b: seq<byte>, a': seq<byte>, b': seq<byte>)
    requires |a| == |a'| && |b| == |b'|
    ensures XorBytes(a + b, a' + b') == XorBytes(a, a') + XorBytes(b, b')
  {
  }

  lemma XorRegs(a: Word, b: Word, c: Word, d: Word, a': Word, b': Word, c': Word, d': Word)
    ensures XorBytes(Reg(a, b, c, d), Reg(a', b', c', d'))
      == Reg(XorWord(a, a'), XorWord(b, b'), XorWord(c, c'), XorWord(d, d'))
  {
    XorConcat(a + b + c, d, a' + b' + c', d');
    XorConcat(a + b, c, a' + b', c');
    XorConcat(a, b, a', b');
  }

  lemma ShiftXorRegs(a: Word, b: Word, c: Word, d: Word)
    ensures ShiftXor(Reg(a, b, c, d)) == Reg(a, XorWord(b, a), XorWord(c, b), XorWord(d, c))
  {
    var zero := ZeroBytes(4);
    assert zero + Reg(a, b, c, d)[..12] == Reg(zero, a, b, c);
    XorRegs(a, b, c, d, zero, a, b, c);
    XorWordZero(a);
  }

  lemma XorWordZero(a: Word)
    ensures XorWord(a, ZeroBytes(4)) == a
  {
    forall i | 0 <= i < 4
      ensures a[i] ^ 0 == a[i]
    {
    }
  }

  /** Three shifts by one word add up to all prefixes. */
  lemma PrefixXor(a: Word, b: Word, c: Word, d: Word)
    ensures ShiftXor(ShiftXor(ShiftXor(Reg(a, b, c, d))))
      == Reg(a, XorWord(b, a), XorWord(c, XorWord(b, a)), XorWord(d, XorWord(c, XorWord(b, a))))
  {
    var b1, c1, d1 := XorWord(b, a), XorWord(c, b), XorWord(d, c);
    ShiftXorRegs(a, b, c, d);
    var b2, c2, d2 := XorWord(b1, a), XorWord(c1, b1), XorWord(d1, c1);
    ShiftXorRegs(a, b1, c1, d1);
    ShiftXorRegs(a, b2, c2, d2);
    WordSums(a, b, c, d);
  }

  lemma WordSums(a: Word, b: Word, c: Word, d: Word)
    ensures var b1, c1, d1 := XorWord(b, a), XorWord(c, b), XorWord(d, c);
      var b2, c2, d2 := XorWord(b1, a), XorWord(c1, b1), XorWord(d1, c1);
      XorWord(b2, a) == b1 && XorWord(c2, b2) == XorWord(c, b1) && XorWord(d2, c2) == XorWord(d, XorWord(c, b1))
  {
    forall i | 0 <= i < 4
      ensures ((b[i] ^ a[i]) ^ a[i]) ^ a[i] == b[i] ^ a[i]
      ensures ((c[i] ^ b[i]) ^ (b[i] ^ a[i])) ^ ((b[i] ^ a[i]) ^ a[i]) == c[i] ^ (b[i] ^ a[i])
      ensures ((d[i] ^ c[i]) ^ (c[i] ^ b[i])) ^ ((c[i] ^ b[i]) ^ (b[i] ^ a[i])) == d[i] ^ (c[i] ^ (b[i] ^ a[i]))
    {
      ByteSums(a[i], b[i], c[i], d[i]);
    }
  }

  lemma ByteSums(a: byte, b: byte, c: byte, d: byte)
    ensures ((b ^ a) ^ a) ^ a == b ^ a
    ensures ((c ^ b) ^ (b ^ a)) ^ ((b ^ a) ^ a) == c ^ (b ^ a)
    ensures ((d ^ c) ^ (c ^ b)) ^ ((c ^ b) ^ (b ^ a)) == d ^ (c ^ (b ^ a))
  {
  }

  lemma StepRegs(a: Word, b: Word, c: Word, d: Word, g: Word)
    ensures var w0 := XorWord(a, g);
      var w1 := XorWord(b, w0);
      var w2 := XorWord(c, w1);
      ExpandStep(Reg(a, b, c, d), Reg(g, g, g, g)) == Reg(w0, w1, w2, XorWord(d, w2))
  {
    PrefixXor(a, b, c, d);
    var b1 := XorWord(b, a);
    var c1 := XorWord(c, b1);
    XorRegs(a, b1, c1, XorWord(d, c1), g, g, g, g);
    Distribute(b, a, g);
    Distribute(c, b1, g);
    Distribute(d, c1, g);
  }

  /** The words of a round key, from those of the round key p it is made from. */
  lemma RoundKeyFollows(sub: Table, nk: nat, words: nat -> Word, p: nat, r: nat)
    requires nk == 4 || nk == 8
    requires Recurs(sub, nk, words) && 4 * r == 4 * p + nk
    ensures words(4 * r) == XorWord(words(4 * p), Scrambled(sub, nk, 4 * r, words(4 * r - 1)))
    ensures words(4 * r + 1) == XorWord(words(4 * p + 1), words(4 * r))
    ensures words(4 * r + 2) == XorWord(words(4 * p + 2), words(4 * r + 1))
    ensures words(4 * r + 3) == XorWord(words(4 * p + 3), words(4 * r + 2))
  {
    PlainWord(sub, nk, words, p, r, 1);
    PlainWord(sub, nk, words, p, r, 2);
    PlainWord(sub, nk, words, p, r, 3);
    ScrambledFirst(sub, nk, words, p, r);
  }

  lemma ScrambledFirst(sub: Table, nk: nat, words: nat -> Word, p: nat, r: nat)
    requires nk == 4 || nk == 8
    requires Recurs(sub, nk, words) && 4 * r == 4 * p + nk
    ensures words(4 * r) == XorWord(words(4 * p), Scrambled(sub, nk, 4 * r, words(4 * r - 1)))
  {
    assert Follows(sub, nk, words, 4 * r);
  }

  /** One expansion step leads from round key p to the round key made from it, for either key length. */
  lemma ExpandStepWords(sub: Table, nk: nat, words: nat -> Word, p: nat, r: nat)
    requires nk == 4 || nk == 8
    requires Recurs(sub, nk, words) && 4 * r == 4 * p + nk
    ensures var g := Scrambled(sub, nk, 4 * r, words(4 * r - 1));
      ExpandStep(RoundKey(words, p), Reg(g, g, g, g)) == RoundKey(words, r)
  {
    RoundKeyFollows(sub, nk, words, p, r);
    StepRegs(words(4 * p), words(4 * p + 1), words(4 * p + 2), words(4 * p + 3),
      Scrambled(sub, nk, 4 * r, words(4 * r - 1)));
  }

  lemma Distribute(a: Word, b: Word, g: Word)
    ensures XorWord(XorWord(a, b), g) == XorWord(a, XorWord(b, g))
  {
    forall i | 0 <= i < 4
      ensures (a[i] ^ b[i]) ^ g[i] == a[i] ^ (b[i] ^ g[i])
    {
    }
  }

  /** Only the first word of a round key is scrambled. */
  lemma PlainWord(sub: Table, nk: nat, words: nat -> Word, p: nat, r: nat, j: nat)
    requires nk == 4 || nk == 8
    requires Recurs(sub, nk, words) && 4 * r == 4 * p + nk && 1 <= j < 4
    ensures words(4 * r + j) == XorWord(words(4 * p + j), words(4 * r + j - 1))
  {
    var i := 4 * r + j;
    NotScrambled(nk, p, i, j);
    assert Follows(sub, nk, words, i);
  }

  lemma NotScrambled(nk: nat, p: nat, i: nat, j: nat)
    requires (nk == 4 || nk == 8) && i == 4 * p + nk + j && 1 <= j < 4
    ensures i % nk != 0 && (nk == 8 ==> i % nk != 4)
  {
    var k := p + nk / 4;
    if nk == 4 {
      assert i == 4 * k + j;
    } else {
      assert i == 8 * (k / 2) + 4 * (k % 2) + j;
    }
  }

  // ----- AES-128

  /** aes_128_key_expand. */
  method KeyExpand128(key0: Block, keygened0: Block) returns (r: Block)
    ensures r == ExpandStep(key0, Broadcast(keygened0, 3))
  {
    var key, keygened := key0, keygened0;
    keygened := Broadcast(keygened, 3);
    key := ShiftXor(key);
    key := ShiftXor(key);
    key := ShiftXor(key);
    r := XorBytes(key, keygened);
  }

  /** The round keys below n have been stored. */
  ghost predicate Stored(words: nat -> Word, roundKeys: seq<Block>, n: nat) {
    n <= |roundKeys| && forall r :: 0 <= r < n ==> roundKeys[r] == RoundKey(words, r)
  }

  lemma SubRot(sub: Table, w: Word)
    ensures RotWord(SubWord(sub, w)) == SubWord(sub, RotWord(w))
  {
  }

  /** What keygenassist puts into dword 3: the scrambled last word of the register. */
  lemma AssistRotated(sub: Table, nk: nat, i: nat, x: Block, w: Word, j: nat, rcon: byte)
    requires nk == 4 || nk == 8
    requires i == nk * j && rcon == Rcon(j) && w == Dword(x, 3)
    ensures Dword(KeygenAssist(sub, x, rcon), 3) == Scrambled(sub, nk, i, w)
  {
    SubRot(sub, w);
    RoundStart(i, nk, j);
  }

  /** What keygenassist puts into dword 2: the substituted last word of the register. */
  lemma AssistPlain(sub: Table, i: nat, x: Block, w: Word)
    requires i % 8 == 4 && w == Dword(x, 3)
    ensures Dword(KeygenAssist(sub, x, 0), 2) == Scrambled(sub, 8, i, w)
  {
  }

  lemma LastDword(words: nat -> Word, r: nat)
    ensures Dword(RoundKey(words, r), 3) == words(4 * r + 3)
  {
  }

  /** A line of the key loading, given the dword that keygenassist must leave. */
  lemma LineMakesKey(sub: Table, nk: nat, words: nat -> Word, p: nat, r: nat, assist: Block, dword: nat)
    requires nk == 4 || nk == 8
    requires Recurs(sub, nk, words) && 4 * r == 4 * p + nk && dword < 4
    requires Dword(assist, dword) == Scrambled(sub, nk, 4 * r, words(4 * r - 1))
    ensures ExpandStep(RoundKey(words, p), Broadcast(assist, dword)) == RoundKey(words, r)
  {
    ExpandStepWords(sub, nk, words, p, r);
  }

  lemma RoundStart(i: nat, nk: nat, j: nat)
    requires (nk == 4 || nk == 8) && i == nk * j
    ensures i % nk == 0 && i / nk == j
  {
    if nk == 4 {
      assert i % 4 == 0;
    } else {
      assert i % 8 == 0;
    }
  }

  method NextKey128(sub: Table, key: Block, rcon: byte, ghost words: nat -> Word, ghost p: nat) returns (next: Block)
    requires Recurs(sub, 4, words)
    requires key == RoundKey(words, p) && rcon == Rcon(p + 1)
    ensures next == RoundKey(words, p + 1)
  {
    var assist := KeygenAssist(sub, key, rcon);
    LastDword(words, p);
    AssistRotated(sub, 4, 4 * p + 4, key, words(4 * p + 3), p + 1, rcon);
    LineMakesKey(sub, 4, words, p, p + 1, assist, 3);
    next := KeyExpand128(key, assist);
  }

  /** One line of aes128_load_keys. */
  method LoadKey128(sub: Table, roundKeys: array<Block>, r: nat, rcon: byte, ghost words: nat -> Word)
    requires 1 <= r < roundKeys.Length && Recurs(sub, 4, words)
    requires Stored(words, roundKeys[..], r) && rcon == Rcon(r)
    modifies roundKeys
    ensures Stored(words, roundKeys[..], r + 1)
  {
    assert roundKeys[..][r - 1] == RoundKey(words, r - 1);
    var next := NextKey128(sub, roundKeys[r - 1], rcon, words, r - 1);
    roundKeys[r] := next;
  }

  /** aes128_load_keys. */
  method LoadKeys128(sub: Table, encKey: Block, roundKeys: array<Block>, ghost words: nat -> Word)
    requires roundKeys.Length == 11 && Recurs(sub, 4, words) && RoundKey(words, 0) == encKey
    modifies roundKeys
    ensures Stored(words, roundKeys[..], 11)
  {
    RconValues();
    roundKeys[0] := encKey;
    LoadKey128(sub, roundKeys, 1, 0x01, words);
    LoadKey128(sub, roundKeys, 2, 0x02, words);
    LoadKey128(sub, roundKeys, 3, 0x04, words);
    LoadKey128(sub, roundKeys, 4, 0x08, words);
    LoadKey128(sub, roundKeys, 5, 0x10, words);
    LoadKey128(sub, roundKeys, 6, 0x20, words);
    LoadKey128(sub, roundKeys, 7, 0x40, words);
    LoadKey128(sub, roundKeys, 8, 0x80, words);
    LoadKey128(sub, roundKeys, 9, 0x1b, words);
    LoadKey128(sub, roundKeys, 10, 0x36, words);
  }

  /** The states after the rounds. */
  function After(sub: Table, rk: nat -> Block, x: Block): nat -> Block {
    (r: nat) => Rounds(sub, rk, x, r)
  }

  /** State r leads to the next one by one instruction. */
  predicate StepAt(sub: Table, rk: nat -> Block, after: nat -> Block, r: nat) {
    AesEnc(sub, after(r), rk(r + 1)) == after(r + 1)
  }

  ghost predicate Chain(sub: Table, rk: nat -> Block, after: nat -> Block) {
    forall r: nat :: StepAt(sub, rk, after, r)
  }

  /** The instruction is a round, on the state after the round before it. */
  lemma AfterIsChain(sub: Table, rk: nat -> Block, x: Block)
    ensures Chain(sub, rk, After(sub, rk, x)) && After(sub, rk, x)(0) == XorBytes(x, rk(0))
  {
    forall r: nat
      ensures StepAt(sub, rk, After(sub, rk, x), r)
    {
      SubShiftCommute(sub, Rounds(sub, rk, x, r));
    }
  }

  lemma LastIsCipher(sub: Table, rk: nat -> Block, x: Block, r: nat)
    ensures AesEncLast(sub, After(sub, rk, x)(r), rk(r + 1)) == Cipher(sub, rk, r + 1, x)
  {
    var z := Rounds(sub, rk, x, r);
    SubShiftCommute(sub, z);
    assert Cipher(sub, rk, r + 1, x) == AddRoundKey(ShiftRows(SubBytes(sub, z)), rk(r + 1));
  }

  ghost predicate Loaded(rk: nat -> Block, roundKeys: seq<Block>) {
    forall r :: 0 <= r < |roundKeys| ==> roundKeys[r] == rk(r)
  }

  /** One _mm_aesenc_si128 of the chain. */
  method Round(sub: Table, block0: Block, roundKeys: seq<Block>, r: nat, ghost rk: nat -> Block,
      ghost after: nat -> Block)
      returns (block: Block)
    requires 1 <= r < |roundKeys| && Loaded(rk, roundKeys) && Chain(sub, rk, after)
    requires block0 == after(r - 1)
    ensures block == after(r)
  {
    assert StepAt(sub, rk, after, r - 1);
    block := AesEnc(sub, block0, roundKeys[r]);
  }

  /** The nine rounds that both ciphers have. */
  method Rounds1To9(sub: Table, block0: Block, roundKeys: seq<Block>, ghost rk: nat -> Block, ghost after: nat -> Block)
      returns (block: Block)
    requires |roundKeys| >= 11 && Loaded(rk, roundKeys) && Chain(sub, rk, after) && block0 == after(0)
    ensures block == after(9)
  {
    block := block0;
    block := Round(sub, block, roundKeys, 1, rk, after);
    block := Round(sub, block, roundKeys, 2, rk, after);
    block := Round(sub, block, roundKeys, 3, rk, after);
    block := Round(sub, block, roundKeys, 4, rk, after);
    block := Round(sub, block, roundKeys, 5, rk, after);
    block := Round(sub, block, roundKeys, 6, rk, after);
    block := Round(sub, block, roundKeys, 7, rk, after);
    block := Round(sub, block, roundKeys, 8, rk, after);
    block := Round(sub, block, roundKeys, 9, rk, after);
  }

  /** The further rounds of AES-256. */
  method Rounds10To13(sub: Table, block0: Block, roundKeys: seq<Block>, ghost rk: nat -> Block,
      ghost after: nat -> Block)
      returns (block: Block)
    requires |roundKeys| == 15 && Loaded(rk, roundKeys) && Chain(sub, rk, after) && block0 == after(9)
    ensures block == after(13)
  {
    block := block0;
    block := Round(sub, block, roundKeys, 10, rk, after);
    block := Round(sub, block, roundKeys, 11, rk, after);
    block := Round(sub, block, roundKeys, 12, rk, after);
    block := Round(sub, block, roundKeys, 13, rk, after);
  }

  /** aes128_encrypt. */
  method Encrypt128(sub: Table, plaintext: Block, roundKeys: seq<Block>, ghost nr: nat, ghost rk: nat -> Block)
      returns (block: Block)
    requires nr == 10 && |roundKeys| == nr + 1 && Loaded(rk, roundKeys)
    ensures block == Cipher(sub, rk, nr, plaintext)
  {
    ghost var after := After(sub, rk, plaintext);
    AfterIsChain(sub, rk, plaintext);
    block := XorBytes(plaintext, roundKeys[0]);
    block := Rounds1To9(sub, block, roundKeys, rk, after);
    LastIsCipher(sub, rk, plaintext, nr - 1);
    block := AesEncLast(sub, block, roundKeys[10]);
  }

  /** aes128. */
  method Aes128(sub: Table, plaintext: Block, key: seq<byte>) returns (ciphertext: Block)
    requires |key| == 16
    ensures ciphertext == Aes(sub, key, plaintext)
  {
    ghost var words, rk := KeyWords(sub, key), Schedule(sub, key);
    var roundKeys := new Block[11](_ => plaintext);
    KeyRecurs(sub, key);
    ExpandedKey(sub, key, key);
    RoundKeyAt(words, key, 4, 0);
    assert key[0..16] == key;
    LoadKeys128(sub, key, roundKeys, words);
    ciphertext := Encrypt128(sub, plaintext, roundKeys[..], NumRounds(key), rk);
  }

  // ----- AES-256

  /** KEY_EXP_ASSIST_1 and KEY_EXP_ASSIST_2, which differ in the dword they broadcast. */
  method KeyExpAssist(key: Block, keygened: Block, dword: nat) returns (r1: Block)
    requires dword < 4
    ensures r1 == ExpandStep(key, Broadcast(keygened, dword))
  {
    var r4 := Broadcast(keygened, dword);
    r1 := key;
    r1 := ShiftXor(r1);
    r1 := ShiftXor(r1);
    r1 := ShiftXor(r1);
    r1 := XorBytes(r1, r4);
  }

  lemma EvenAssist(sub: Table, r2: Block, rcon: byte, words: nat -> Word, m: nat, r: nat)
    requires m >= 1 && r == 2 * m && r2 == RoundKey(words, r - 1) && rcon == Rcon(m)
    ensures Dword(KeygenAssist(sub, r2, rcon), 3) == Scrambled(sub, 8, 4 * r, words(4 * r - 1))
  {
    LastDword(words, r - 1);
    AssistRotated(sub, 8, 4 * r, r2, words(4 * r - 1), m, rcon);
  }

  /** A line of aes256_load_keys that makes an even round key. */
  method LoadEven(sub: Table, r1: Block, r2: Block, rcon: byte, ghost words: nat -> Word, ghost m: nat)
    returns (r1': Block)
    requires m >= 1 && Recurs(sub, 8, words)
    requires r1 == RoundKey(words, 2 * m - 2) && r2 == RoundKey(words, 2 * m - 1) && rcon == Rcon(m)
    ensures r1' == RoundKey(words, 2 * m)
  {
    var r4 := KeygenAssist(sub, r2, rcon);
    EvenAssist(sub, r2, rcon, words, m, 2 * m);
    LineMakesKey(sub, 8, words, 2 * m - 2, 2 * m, r4, 3);
    r1' := KeyExpAssist(r1, r4, 3);
  }

  /** A line of aes256_load_keys that makes an odd round key. */
  method LoadOdd(sub: Table, r1: Block, r2: Block, ghost words: nat -> Word, ghost m: nat) returns (r2': Block)
    requires m >= 1 && Recurs(sub, 8, words)
    requires r1 == RoundKey(words, 2 * m) && r2 == RoundKey(words, 2 * m - 1)
    ensures r2' == RoundKey(words, 2 * m + 1)
  {
    var r4 := KeygenAssist(sub, r1, 0);
    LastDword(words, 2 * m);
    AssistPlain(sub, 8 * m + 4, r1, words(8 * m + 3));
    LineMakesKey(sub, 8, words, 2 * m - 1, 2 * m + 1, r4, 2);
    r2' := KeyExpAssist(r2, r4, 2);
  }

  /** Two lines of aes256_load_keys: round keys 2m and 2m + 1. */
  method LoadPair(sub: Table, r1: Block, r2: Block, roundKeys: array<Block>, m: nat, rcon: byte,
      ghost words: nat -> Word)
    returns (r1': Block, r2': Block)
    requires m >= 1 && 2 * m + 1 < roundKeys.Length && Recurs(sub, 8, words) && Stored(words, roundKeys[..], 2 * m)
    requires r1 == RoundKey(words, 2 * m - 2) && r2 == RoundKey(words, 2 * m - 1) && rcon == Rcon(m)
    modifies roundKeys
    ensures r1' == RoundKey(words, 2 * m) && r2' == RoundKey(words, 2 * m + 1)
    ensures Stored(words, roundKeys[..], 2 * m + 2)
  {
    r1' := LoadEven(sub, r1, r2, rcon, words, m);
    roundKeys[2 * m] := r1';
    r2' := LoadOdd(sub, r1', r2, words, m);
    roundKeys[2 * m + 1] := r2';
  }

  /** aes256_load_keys. */
  method LoadKeys256(sub: Table, encKey: seq<byte>, roundKeys: array<Block>, ghost words: nat -> Word)
    requires |encKey| == 32 && roundKeys.Length == 15 && Recurs(sub, 8, words)
    requires RoundKey(words, 0) == encKey[..16] && RoundKey(words, 1) == encKey[16..]
    modifies roundKeys
    ensures Stored(words, roundKeys[..], 15)
  {
    RconValues();
    var r1, r2 := encKey[..16], encKey[16..];
    roundKeys[0] := r1;
    roundKeys[1] := r2;
    r1, r2 := LoadPair(sub, r1, r2, roundKeys, 1, 0x01, words);
    r1, r2 := LoadPair(sub, r1, r2, roundKeys, 2, 0x02, words);
    r1, r2 := LoadPair(sub, r1, r2, roundKeys, 3, 0x04, words);
    r1, r2 := LoadPair(sub, r1, r2, roundKeys, 4, 0x08, words);
    r1, r2 := LoadPair(sub, r1, r2, roundKeys, 5, 0x10, words);
    r1, r2 := LoadPair(sub, r1, r2, roundKeys, 6, 0x20, words);
    r1 := LoadEven(sub, r1, r2, 0x40, words, 7);
    roundKeys[14] := r1;
  }

  /** aes256_encrypt. */
  method Encrypt256(sub: Table, plaintext: Block, roundKeys: seq<Block>, ghost nr: nat, ghost rk: nat -> Block)
      returns (block: Block)
    requires nr == 14 && |roundKeys| == nr + 1 && Loaded(rk, roundKeys)
    ensures block == Cipher(sub, rk, nr, plaintext)
  {
    ghost var after := After(sub, rk, plaintext);
    AfterIsChain(sub, rk, plaintext);
    block := XorBytes(plaintext, roundKeys[0]);
    block := Rounds1To9(sub, block, roundKeys, rk, after);
    block := Rounds10To13(sub, block, roundKeys, rk, after);
    LastIsCipher(sub, rk, plaintext, nr - 1);
    block := AesEncLast(sub, block, roundKeys[14]);
  }

  /** aes256. */
  method Aes256(sub: Table, plaintext: Block, key: seq<byte>) returns (ciphertext: Block)
    requires |key| == 32
    ensures ciphertext == Aes(sub, key, plaintext)
  {
    ghost var words, rk := KeyWords(sub, key), Schedule(sub, key);
    var roundKeys := new Block[15](_ => plaintext);
    KeyRecurs(sub, key);
    ExpandedKey(sub, key, key);
    RoundKeyAt(words, key, 8, 0);
    RoundKeyAt(words, key, 8, 1);
    LoadKeys256(sub, key, roundKeys, words);
    ciphertext := Encrypt256(sub, plaintext, roundKeys[..], NumRounds(key), rk);
  }
}
