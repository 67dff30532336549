/**
 The aarch64 half of backends/f7/aes128.c and backends/f8/aes256.c.  The instruction vaese adds
 the round key before it substitutes, so every AddRoundKey moves into the round after it.
 */
module ArmAes {
  import opened Bytes
  import opened Fips197
  import opened FlatAes

  /** vaeseq_u8. */
  function Vaese(sub: Table, x: Block, k: Block): Block {
    ShiftRows(SubBytes(sub, XorBytes(x, k)))
  }

  /** vaesmcq_u8. */
  function Vaesmc(x: Block): Block {
    MixColumns(x)
  }

  /** The two backends phrase the conditions differently. */
  lemma Conditions(bytes: nat, n: nat, w: nat, nk: nat)
    requires (n == 16 || n == 32) && bytes == 4 * w && n == 4 * nk
    ensures (if n == 16 then bytes % 16 == 0 else bytes / 4 % 8 == 0) <==> bytes % n == 0
    ensures n == 32 ==> (bytes / 4 % 8 == 4 <==> bytes % 32 == 16)
  {
    FourTimes(w, nk);
    assert bytes / 4 == w;
  }

  /** Rotation, substitution and round constant. */
  method Core(sub: Table, t0: Word, rconi: nat) returns (t: Word)
    requires 1 <= rconi <= 10
    ensures t == XorWord(SubWord(sub, RotWord(t0)), [Rcon(rconi), 0, 0, 0])
  {
    t := t0;
    var tmp := t[0];
    t := [t[1], t[2], t[3], tmp];
    t := [sub(t[0]), sub(t[1]), sub(t[2]), sub(t[3])];
    var rcon := POWERS[rconi - 1];
    PowersAreRcon(rconi);
    ConstantAdded(t, rcon);
    t := [t[0] ^ rcon, t[1], t[2], t[3]];
  }

  lemma ConstantExists(bytes: nat, i: nat, n: nat)
    requires (n == 16 && bytes < 176) || (n == 32 && bytes < 240)
    requires Cursor(bytes, i, n) && i > 0 && bytes % n == 0
    ensures i == bytes / n && 1 <= i <= if n == 16 then 10 else 7
  {
    CursorStep(bytes, i, n);
    if n == 16 {
      assert 16 * i == bytes;
    } else {
      assert 32 * i == bytes;
    }
  }

  /** t, after the conditional steps: rconi moves on only when a round constant is used. */
  method NextTemp(sub: Table, bytes: nat, rconi: nat, n: nat, last: Word, ghost w: nat, ghost nk: nat)
    returns (t: Word, rconi': nat)
    requires (n == 16 && bytes < 176) || (n == 32 && bytes < 240)
    requires bytes == 4 * w && n == 4 * nk && Cursor(bytes, rconi, n) && rconi > 0
    ensures t == Scrambled(sub, nk, w, last)
    ensures rconi <= rconi' && Cursor(bytes + 4, rconi', n)
  {
    ScrambledAt(sub, bytes, n, w, nk, last);
    CursorStep(bytes, rconi, n);
    Conditions(bytes, n, w, nk);
    t, rconi' := last, rconi;
    var word := bytes / 4;
    if (if n == 16 then bytes % 16 == 0 else word % 8 == 0) {
      ConstantExists(bytes, rconi, n);
      t := Core(sub, t, rconi);
      rconi' := rconi + 1;
    } else if n == 32 && word % 8 == 4 {
      t := [sub(t[0]), sub(t[1]), sub(t[2]), sub(t[3])];
    }
  }

  /** The inner loop: rk[bytes] = rk[bytes - n] ^ t[i], four times. */
  method PutBytes(rk: array<byte>, bytes0: nat, n: nat, t: Word) returns (bytes: nat)
    requires 4 <= n <= bytes0 && bytes0 + 4 <= rk.Length
    modifies rk
    ensures bytes == bytes0 + 4
    ensures forall k: nat :: k < bytes0 ==> rk[k] == old(rk[k])
    ensures forall k: nat :: k < 4 ==> rk[bytes0 + k] == old(rk[bytes0 - n + k]) ^ t[k]
  {
    bytes := bytes0;
    var i := 0;
    while i < 4
      invariant 0 <= i <= 4 && bytes == bytes0 + i
      invariant forall k: nat :: k < bytes0 ==> rk[k] == old(rk[k])
      invariant forall k: nat :: k < i ==> rk[bytes0 + k] == old(rk[bytes0 - n + k]) ^ t[k]
    {
      rk[bytes] := rk[bytes - n] ^ t[i];
      bytes := bytes + 1;
      i := i + 1;
    }
  }

  method AppendWord(rk: array<byte>, bytes0: nat, n: nat, t: Word, ghost words: nat -> Word, ghost w: nat,
      ghost nk: nat)
    returns (bytes: nat)
    requires bytes0 == 4 * w && n == 4 * nk && 1 <= nk <= w && bytes0 + 4 <= rk.Length
    requires Expanded(words, rk[..], w) && words(w) == XorWord(words(w - nk), t)
    modifies rk
    ensures bytes == bytes0 + 4 && Expanded(words, rk[..], w + 1)
  {
    ghost var before := rk[..];
    bytes := PutBytes(rk, bytes0, n, t);
    ghost var after, v := rk[..], w - nk;
    assert after[..4 * w] == before[..4 * w];
    assert after[4 * w..4 * w + 4] == XorWord(before[4 * v..4 * v + 4], t);
    ExtendedOne(words, before, after, w, nk, t);
  }

  /** The loop of key_expansion and key_expansion_256. */
  method ExpandWords(sub: Table, rk: array<byte>, n: nat, ghost words: nat -> Word, ghost nk: nat)
    requires (n == 16 && rk.Length == 176) || (n == 32 && rk.Length == 240)
    requires n == 4 * nk && Expanded(words, rk[..], nk) && Recurs(sub, nk, words)
    modifies rk
    ensures Expanded(words, rk[..], rk.Length / 4)
  {
    ghost var w := nk;
    var bytes := n;
    var rconi := 1;
    while bytes < rk.Length
      invariant n <= bytes <= rk.Length && bytes == 4 * w
      invariant Cursor(bytes, rconi, n) && rconi > 0
      invariant Expanded(words, rk[..], w)
    {
      NextFromExpanded(sub, nk, words, rk[..], w);
      var t;
      t, rconi := NextTemp(sub, bytes, rconi, n, rk[bytes - 4..bytes], w, nk);
      bytes := AppendWord(rk, bytes, n, t, words, w, nk);
      w := w + 1;
    }
  }

  /** key_expansion and key_expansion_256. */
  method KeyExpansion(sub: Table, key: seq<byte>, rk: array<byte>)
    requires IsKey(key) && rk.Length == if |key| == 16 then 176 else 240
    modifies rk
    ensures Expanded(KeyWords(sub, key), rk[..], rk.Length / 4)
  {
    var i := 0;
    while i < |key|
      invariant 0 <= i <= |key| && rk[..i] == key[..i]
    {
      rk[i] := key[i];
      i := i + 1;
    }
    ExpandedKey(sub, key, rk[..]);
    KeyRecurs(sub, key);
    ExpandWords(sub, rk, |key|, KeyWords(sub, key), |key| / 4);
  }

  /** With the round key still to be added, a vaese and a vaesmc make one round. */
  lemma ShiftedRound(sub: Table, rk: nat -> Block, x: Block, y: Block, r: nat)
    requires XorBytes(y, rk(r)) == Rounds(sub, rk, x, r)
    ensures XorBytes(Vaesmc(Vaese(sub, y, rk(r))), rk(r + 1)) == Rounds(sub, rk, x, r + 1)
    ensures XorBytes(Vaese(sub, y, rk(r)), rk(r + 1)) == Cipher(sub, rk, r + 1, x)
  {
  }

  /** vld1q_u8 of round key r. */
  method LoadKey(rkey: array<byte>, r: nat, ghost n: nat, ghost rk: nat -> Block) returns (k: Block)
    requires r < n && LaidOut(rk, rkey[..], n)
    ensures k == rk(r)
  {
    k := rkey[16 * r..16 * r + 16];
    assert k == rkey[..][16 * r..16 * r + 16];
  }

  /** The rounds of aes128 (nr = 10) and aes256 (nr = 14). */
  method EncryptRounds(sub: Table, plaintext: Block, rkey: array<byte>, nr: nat, ghost rk: nat -> Block)
    returns (block: Block)
    requires nr >= 1 && rkey.Length == 16 * (nr + 1) && LaidOut(rk, rkey[..], nr + 1)
    ensures block == Cipher(sub, rk, nr, plaintext)
  {
    block := plaintext;
    var i := 0;
    while i < nr - 1
      invariant 0 <= i <= nr - 1
      invariant XorBytes(block, rk(i)) == Rounds(sub, rk, plaintext, i)
    {
      ShiftedRound(sub, rk, plaintext, block, i);
      var k := LoadKey(rkey, i, nr + 1, rk);
      block := Vaese(sub, block, k);
      block := Vaesmc(block);
      i := i + 1;
    }
    ShiftedRound(sub, rk, plaintext, block, nr - 1);
    var k := LoadKey(rkey, nr - 1, nr + 1, rk);
    block := Vaese(sub, block, k);
    k := LoadKey(rkey, nr, nr + 1, rk);
    block := XorBytes(block, k);
  }

  /** aes128 and aes256. */
  method Encrypt(sub: Table, plaintext: Block, key: seq<byte>) returns (ciphertext: Block)
    requires IsKey(key)
    ensures ciphertext == Aes(sub, key, plaintext)
  {
    var nr := if |key| == 16 then 10 else 14;
    var rkey := new byte[16 * (nr + 1)];
    KeyExpansion(sub, key, rkey);
    assert nr == NumRounds(key) && rkey.Length / 4 == 4 * (nr + 1);
    ScheduleLaidOut(sub, key, rkey[..], nr + 1);
    ciphertext := EncryptRounds(sub, plaintext, rkey, nr, Schedule(sub, key));
  }
}
