/**
 The flat-array backends: backends/f2/a.c, and backends/f5/a.c, the same code for 32-byte keys
 with the extra SubWord step.  The key expansion is also that of the bitsliced backends
 (backends/f3/key_schedule.c and backends/f6/key_schedule.c).
 */
module FlatAes {
  import opened Bytes
  import opened Fips197

  /** unsigned char, as a counter: Dafny checks that it never wraps. */
  newtype u8 = x: int | 0 <= x < 256

  /** rcon_f2, rconf5, rcon and rconf6: doubling from 1. */
  method RconLoop(n: u8) returns (c: byte)
    ensures c == if n == 0 then 0 else Rcon(n as nat)
  {
    c := 1;
    var left := n;
    if left == 0 {
      return 0;
    }
    while left != 1
      invariant 1 <= left <= n
      invariant c == Rcon((n - left) as nat + 1)
      decreases left
    {
      var b := c & 0x80;
      Doubled(c);
      c := c << 1;
      if b == 0x80 {
        c := c ^ 0x1b;
      }
      left := left - 1;
    }
  }

  lemma Doubled(c: byte)
    ensures XTime(c) == if c & 0x80 == 0x80 then (c << 1) ^ 0x1b else c << 1
  {
    if c & 0x80 == 0x80 {
      assert XTime(c) == (c << 1) ^ 0x1b;
    } else {
      assert c & 0x80 == 0;
      assert XTime(c) == (c << 1) ^ 0;
    }
  }

  /** schedule_core: rotate, substitute, and add a power of {02} to the first byte. */
  method ScheduleCore(sub: Table, t: array<byte>, i: u8)
    requires t.Length == 4 && i > 0
    modifies t
    ensures t[..] == XorWord(SubWord(sub, RotWord(old(t[..]))), [Rcon(i as nat), 0, 0, 0])
  {
    Rotate(t);
    Substitute(sub, t);
    var r := RconLoop(i);
    assert t[1] ^ 0 == t[1] && t[2] ^ 0 == t[2] && t[3] ^ 0 == t[3];
    t[0] := t[0] ^ r;
  }

  /** rotate. */
  method Rotate(t: array<byte>)
    requires t.Length == 4
    modifies t
    ensures t[..] == RotWord(old(t[..]))
  {
    var a := t[0];
    var c := 0;
    while c < 3
      invariant 0 <= c <= 3
      invariant forall k :: 0 <= k < 4 ==> t[k] == if k < c then old(t[k + 1]) else old(t[k])
    {
      t[c] := t[c + 1];
      c := c + 1;
    }
    t[3] := a;
  }

  /** schedule_sub, and the substitution loop of schedule_core. */
  method Substitute(sub: Table, t: array<byte>)
    requires t.Length == 4
    modifies t
    ensures t[..] == SubWord(sub, old(t[..]))
  {
    var a := 0;
    while a < 4
      invariant 0 <= a <= 4
      invariant forall k :: 0 <= k < 4 ==> t[k] == if k < a then sub(old(t[k])) else old(t[k])
    {
      t[a] := sub(t[a]);
      a := a + 1;
    }
  }

  /** i is the number of the next round constant when the cursor is at c. */
  predicate Cursor(c: nat, i: nat, n: nat) {
    c % 4 == 0 && if n == 16 then 16 * i - 16 < c <= 16 * i else 32 * i - 32 < c <= 32 * i
  }

  /** The word that is xored onto in[c - n..c - n + 4], for the cursor c; i counts the uses of rcon. */
  method NextTemp(sub: Table, inp: array<byte>, c: u8, i: u8, n: u8, ghost w: nat, ghost nk: nat)
    returns (t: array<byte>, i': u8)
    requires n == 16 || n == 32
    requires n <= c && c as int + 4 <= inp.Length && c as nat == 4 * w && n as nat == 4 * nk && 0 < i < 100
    requires Cursor(c as nat, i as nat, n as nat)
    ensures fresh(t) && t.Length == 4
    ensures t[..] == Scrambled(sub, nk, w, inp[4 * w - 4..4 * w])
    ensures i <= i' <= i + 1 && Cursor(c as nat + 4, i' as nat, n as nat)
  {
    t := new byte[4](a requires 0 <= a < 4 && 4 <= c as int <= inp.Length reads inp => inp[a + c as int - 4]);
    assert t[..] == inp[4 * w - 4..4 * w];
    ScrambledAt(sub, c as nat, n as nat, w, nk, inp[4 * w - 4..4 * w]);
    i' := i;
    CursorStep(c as nat, i as nat, n as nat);
    if c % n == 0 {
      ScheduleCore(sub, t, i);
      i' := i + 1;
    }
    if n == 32 && c % 32 == 16 {
      Substitute(sub, t);
    }
  }

  lemma ScrambledAt(sub: Table, c: nat, n: nat, w: nat, nk: nat, t: Word)
    requires (n == 16 || n == 32) && c == 4 * w && n == 4 * nk
    ensures c % n == 0 ==> Scrambled(sub, nk, w, t) == XorWord(SubWord(sub, RotWord(t)), [Rcon(c / n), 0, 0, 0])
    ensures n == 32 && c % 32 == 16 ==> Scrambled(sub, nk, w, t) == SubWord(sub, t)
    ensures !(c % n == 0) && !(n == 32 && c % 32 == 16) ==> Scrambled(sub, nk, w, t) == t
  {
    FourTimes(w, nk);
  }

  lemma FourTimes(w: nat, m: nat)
    requires m == 4 || m == 8
    ensures 4 * w % (4 * m) == 4 * (w % m) && 4 * w / (4 * m) == w / m
  {
    var q, r := w / m, w % m;
    if m == 4 {
      assert 4 * w == 16 * q + 4 * r;
    } else {
      assert 4 * w == 32 * q + 4 * r;
    }
  }

  lemma CursorStep(c: nat, i: nat, n: nat)
    requires (n == 16 || n == 32) && Cursor(c, i, n)
    ensures Cursor(c + 4, if c % n == 0 then i + 1 else i, n)
    ensures c % n == 0 ==> i == c / n
  {
    var m := c / 4;
    assert c == 4 * m;
    if n == 16 {
      assert c % 16 == 0 <==> c == 16 * i;
    } else {
      assert c % 32 == 0 <==> c == 32 * i;
    }
  }

  /** expand_key: extends the n key bytes at the start of inp to `total` bytes. */
  method ExpandKey(sub: Table, inp: array<byte>, n: u8, total: u8, ghost key: seq<byte>)
    requires (n == 16 && total == 176) || (n == 32 && total == 240)
    requires inp.Length == total as int && |key| == n as int && inp[..n] == key
    modifies inp
    ensures Expanded(KeyWords(sub, key), inp[..], total as int / 4)
  {
    ghost var words, nk := KeyWords(sub, key), |key| / 4;
    ExpandedKey(sub, key, inp[..]);
    KeyRecurs(sub, key);
    ExpandWords(sub, inp, n, total, words, nk);
  }

  method ExpandWords(sub: Table, inp: array<byte>, n: u8, total: u8, ghost words: nat -> Word, ghost nk: nat)
    requires (n == 16 && total == 176) || (n == 32 && total == 240)
    requires inp.Length == total as int && n as nat == 4 * nk && Expanded(words, inp[..], nk) && Recurs(sub, nk, words)
    modifies inp
    ensures Expanded(words, inp[..], total as int / 4)
  {
    ghost var w := nk;
    var c: u8 := n;
    var i: u8 := 1;
    while c < total
      invariant n <= c <= total && c as nat == 4 * w
      invariant Cursor(c as nat, i as nat, n as nat) && 0 < i as nat <= 1 + w - nk
      invariant Expanded(words, inp[..], w)
      decreases total - c
    {
      NextFromExpanded(sub, nk, words, inp[..], w);
      var t;
      t, i := NextTemp(sub, inp, c, i, n, w, nk);
      c := AppendWord(inp, c, n, t, words, w, nk);
      w := w + 1;
    }
  }

  /** The inner loop: in[c] = in[c - n] ^ t[a], four times. */
  method AppendWord(inp: array<byte>, c0: u8, n: u8, t: array<byte>, ghost words: nat -> Word, ghost w: nat,
      ghost nk: nat)
    returns (c: u8)
    requires t.Length == 4 && inp != t && c0 as nat == 4 * w && n as nat == 4 * nk && 1 <= nk <= w
    requires c0 as int + 4 <= inp.Length && c0 < 250
    requires Expanded(words, inp[..], w) && words(w) == XorWord(words(w - nk), t[..])
    modifies inp
    ensures c == c0 + 4 && Expanded(words, inp[..], w + 1)
  {
    ghost var before, temp := inp[..], t[..];
    c := PutBytes(inp, c0, n, t);
    ghost var after, v := inp[..], w - nk;
    assert after[..4 * w] == before[..4 * w];
    assert after[4 * w..4 * w + 4] == XorWord(before[4 * v..4 * v + 4], temp);
    ExtendedOne(words, before, after, w, nk, temp);
  }

  method PutBytes(inp: array<byte>, c0: u8, n: u8, t: array<byte>) returns (c: u8)
    requires t.Length == 4 && inp != t && 4 <= n <= c0 && c0 as int + 4 <= inp.Length && c0 < 250
    modifies inp
    ensures c == c0 + 4
    ensures inp[..c0] == old(inp[..c0])
    ensures inp[c0..c0 as int + 4] == XorWord(old(inp[c0 - n..c0 - n + 4]), t[..])
  {
    ghost var before := inp[..];
    c := c0;
    var a: u8 := 0;
    while a < 4
      invariant 0 <= a <= 4 && c == c0 + a
      invariant inp[..c0] == before[..c0]
      invariant forall k: u8 :: k < a ==> inp[c0 + k] == before[c0 - n + k] ^ t[k]
    {
      inp[c] := inp[c - n] ^ t[a];
      c := c + 1;
      a := a + 1;
    }
  }

  // ----- the rounds

  /** gmul2. */
  function Gmul2(c: byte): (r: byte)
    ensures r == XTime(c)
  {
    Doubled(c);
    if c & 0x80 == 0x80 then (c << 1) ^ 0x1b else c << 1
  }

  /** y1 .. y4 of Mcol, from the doubled byte a'. */
  function Y(a': byte, c: byte): byte {
    a' ^ c
  }

  /** q0 .. q3 of Mcol. */
  function Q(y: byte, y': byte, b: byte): byte {
    y ^ y' ^ b
  }

  /** A column after the loop body of Mcol: each y serves two bytes. */
  function Mcol(a: seq<byte>): seq<byte>
    requires |a| == 4
  {
    var y1, y2, y3, y4 := Y(Gmul2(a[0]), a[2]), Y(Gmul2(a[1]), a[3]), Y(Gmul2(a[2]), a[0]), Y(Gmul2(a[3]), a[1]);
    [Q(y1, y2, a[1]), Q(y2, y3, a[2]), Q(y3, y4, a[3]), Q(y4, y1, a[0])]
  }

  lemma McolRow(a: byte, b: byte, c: byte, d: byte)
    ensures Q(Y(Gmul2(a), c), Y(Gmul2(b), d), b) == MixByte(a, b, c, d)
  {
    XorShuffle(Gmul2(a), Gmul2(b), b, c, d);
  }

  lemma XorShuffle(a': byte, b': byte, b: byte, c: byte, d: byte)
    ensures Q(Y(a', c), Y(b', d), b) == MixTerms(a', b', b, c, d)
  {
  }

  lemma McolIsMixColumn(a: seq<byte>)
    requires |a| == 4
    ensures Mcol(a) == MixColumnBy(MixByte, a)
  {
    McolRow(a[0], a[1], a[2], a[3]);
    McolRow(a[1], a[2], a[3], a[0]);
    McolRow(a[2], a[3], a[0], a[1]);
    McolRow(a[3], a[0], a[1], a[2]);
  }

  method McolIn(ct: array<byte>)
    requires ct.Length == 16
    modifies ct
    ensures ct[..] == MixColumns(old(ct[..]))
  {
    ghost var x, goal := ct[..], MixColumns(ct[..]);
    var i := 0;
    ghost var c := 0;
    while i < 16
      invariant 0 <= c <= 4 && i == 4 * c
      invariant forall k :: 0 <= k < c ==> ct[4 * k..4 * k + 4] == goal[4 * k..4 * k + 4]
      invariant forall k :: c <= k < 4 ==> ct[4 * k..4 * k + 4] == x[4 * k..4 * k + 4]
    {
      McolIsColumn(x, c);
      McolAt(ct, i, c);
      i := i + 4;
      c := c + 1;
    }
    SameColumns(ct[..], goal);
  }

  lemma McolIsColumn(x: Block, c: nat)
    requires c < 4
    ensures Mcol(x[4 * c..4 * c + 4]) == MixColumns(x)[4 * c..4 * c + 4]
  {
    McolIsMixColumn(x[4 * c..4 * c + 4]);
    ColumnOfMix(MixByte, x, c);
  }

  lemma ColumnOfMix(mix: Mixer, x: Block, c: nat)
    requires c < 4
    ensures MixColumnsBy(mix, x)[4 * c..4 * c + 4] == MixColumnBy(mix, x[4 * c..4 * c + 4])
  {
  }

  lemma SameColumns(x: Block, y: Block)
    requires forall k :: 0 <= k < 4 ==> x[4 * k..4 * k + 4] == y[4 * k..4 * k + 4]
    ensures x == y
  {
    assert x == x[4 * 0..4 * 0 + 4] + x[4 * 1..4 * 1 + 4] + x[4 * 2..4 * 2 + 4] + x[4 * 3..4 * 3 + 4];
    assert y == y[4 * 0..4 * 0 + 4] + y[4 * 1..4 * 1 + 4] + y[4 * 2..4 * 2 + 4] + y[4 * 3..4 * 3 + 4];
  }

  /** The body of the loop of Mcol. */
  method McolAt(ct: array<byte>, i: nat, ghost c: nat)
    requires i == 4 * c && c < 4 && ct.Length == 16
    modifies ct
    ensures ct[4 * c..4 * c + 4] == Mcol(old(ct[4 * c..4 * c + 4]))
    ensures forall k :: 0 <= k < 4 && k != c ==> ct[4 * k..4 * k + 4] == old(ct[4 * k..4 * k + 4])
  {
    ghost var x := ct[..];
    var y1 := Y(Gmul2(ct[i + 0]), ct[i + 2]);
    var y2 := Y(Gmul2(ct[i + 1]), ct[i + 3]);
    var y3 := Y(Gmul2(ct[i + 2]), ct[i + 0]);
    var y4 := Y(Gmul2(ct[i + 3]), ct[i + 1]);
    var q0, q1, q2, q3 := Q(y1, y2, ct[i + 1]), Q(y2, y3, ct[i + 2]), Q(y3, y4, ct[i + 3]), Q(y4, y1, ct[i + 0]);
    ghost var q := Mcol(x[4 * c..4 * c + 4]);
    assert [q0, q1, q2, q3] == q;
    ct[i + 0] := q0;
    ct[i + 1] := q1;
    ct[i + 2] := q2;
    ct[i + 3] := q3;
    OneColumn(x, ct[..], c, q);
  }

  lemma OneColumn(x: Block, y: Block, c: nat, q: seq<byte>)
    requires c < 4 && |q| == 4
    requires y == x[4 * c := q[0]][4 * c + 1 := q[1]][4 * c + 2 := q[2]][4 * c + 3 := q[3]]
    ensures y[4 * c..4 * c + 4] == q
    ensures forall k :: 0 <= k < 4 && k != c ==> y[4 * k..4 * k + 4] == x[4 * k..4 * k + 4]
  {
  }

  method SubBytesIn(sub: Table, ct: array<byte>)
    requires ct.Length == 16
    modifies ct
    ensures ct[..] == SubBytes(sub, old(ct[..]))
  {
    var i := 0;
    while i < 16
      invariant 0 <= i <= 16
      invariant forall k :: 0 <= k < 16 ==> ct[k] == if k < i then sub(old(ct[k])) else old(ct[k])
    {
      ct[i] := sub(ct[i]);
      i := i + 1;
    }
  }

  method ShiftRowsIn(ct: array<byte>)
    requires ct.Length == 16
    modifies ct
    ensures ct[..] == ShiftRows(old(ct[..]))
  {
    ShiftRowsBytes(ct[..]);
    ShiftRow1(ct);
    ShiftRow2(ct);
    ShiftRow3(ct);
  }

  method ShiftRow1(ct: array<byte>)
    requires ct.Length == 16
    modifies ct
    ensures ct[..] == old(ct[..][1 := ct[5]][5 := ct[9]][9 := ct[13]][13 := ct[1]])
  {
    var t1 := ct[1];
    ct[1] := ct[5];
    ct[5] := ct[9];
    ct[9] := ct[13];
    ct[13] := t1;
  }

  method ShiftRow2(ct: array<byte>)
    requires ct.Length == 16
    modifies ct
    ensures ct[..] == old(ct[..][2 := ct[10]][6 := ct[14]][10 := ct[2]][14 := ct[6]])
  {
    var t1 := ct[2];
    ct[2] := ct[10];
    var t2 := ct[6];
    ct[6] := ct[14];
    ct[10] := t1;
    ct[14] := t2;
  }

  method ShiftRow3(ct: array<byte>)
    requires ct.Length == 16
    modifies ct
    ensures ct[..] == old(ct[..][15 := ct[11]][11 := ct[7]][7 := ct[3]][3 := ct[15]])
  {
    var t1 := ct[15];
    ct[15] := ct[11];
    ct[11] := ct[7];
    ct[7] := ct[3];
    ct[3] := t1;
  }

  method AddRoundKeyTo(ct: array<byte>, rkey: array<byte>, round: nat)
    requires ct.Length == 16 && 16 * round + 16 <= rkey.Length && ct != rkey
    modifies ct
    ensures ct[..] == AddRoundKey(old(ct[..]), rkey[16 * round..16 * round + 16])
  {
    var i := 0;
    while i < 16
      invariant 0 <= i <= 16
      invariant forall k :: 0 <= k < 16 ==> ct[k] == if k < i then old(ct[k]) ^ rkey[16 * round + k] else old(ct[k])
    {
      ct[i] := ct[i] ^ rkey[i + round * 16];
      i := i + 1;
    }
  }

  /** The loop over the rounds, with MixColumns left out of the last. */
  method RoundsIn(sub: Table, ct: array<byte>, rkey: array<byte>, nr: nat, ghost words: nat -> Word,
      ghost rk: nat -> Block)
    requires ct.Length == 16 && rkey.Length == 16 * (nr + 1) && ct != rkey && nr > 0
    requires Expanded(words, rkey[..], 4 * (nr + 1)) && forall r: nat :: rk(r) == RoundKey(words, r)
    modifies ct
    ensures ct[..] == Cipher(sub, rk, nr, old(ct[..]))
  {
    ghost var x := ct[..];
    RoundKeyAt(words, rkey[..], 4 * (nr + 1), 0);
    AddRoundKeyTo(ct, rkey, 0);
    var round := 1;
    while round <= nr
      invariant 1 <= round <= nr + 1
      invariant ct[..] == if round <= nr then Rounds(sub, rk, x, round - 1) else Cipher(sub, rk, nr, x)
    {
      SubBytesIn(sub, ct);
      ShiftRowsIn(ct);
      if round != nr {
        McolIn(ct);
      }
      RoundKeyAt(words, rkey[..], 4 * (nr + 1), round);
      AddRoundKeyTo(ct, rkey, round);
      round := round + 1;
    }
  }

  /** AES_enc of f2 and AES256_enc of f5. */
  method Encrypt(sub: Table, pt: Block, key: seq<byte>) returns (ciphertext: Block)
    requires IsKey(key)
    ensures ciphertext == Aes(sub, key, pt)
  {
    var n: u8 := if |key| == 16 then 16 else 32;
    var total: u8 := if n == 16 then 176 else 240;
    var nr := if n == 16 then 10 else 14;
    var rkey := new byte[total](i requires 0 <= i < total as int => if i < |key| then key[i] else 0);
    ExpandKey(sub, rkey, n, total, key);
    var ct := new byte[16](i requires 0 <= i < 16 => pt[i]);
    assert ct[..] == pt && nr == NumRounds(key) && rkey.Length == 16 * (nr + 1);
    ghost var rk := Schedule(sub, key);
    RoundsIn(sub, ct, rkey, nr, KeyWords(sub, key), rk);
    ciphertext := ct[..];
    assert ciphertext == Cipher(sub, rk, nr, pt);
  }
}
