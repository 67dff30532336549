/**
 The streaming GCM context of src/encrypt02.c and src/crypto_aead256.h.

 A loaded encryption library is a map from (security level, index) to a block function; the C
 code looks the symbol enc_sLL_nII up for every call, so a changed mode takes effect at the
 next one.  The 64-bit counters are natural numbers reduced modulo 2^64 where C wraps.
 */
module EdContext {
  import opened Bytes
  import opened Addmul
  import opened Gcm
  import Numbers

  /** A registered block function: plaintext block and 32-byte key buffer to ciphertext block. */
  type BlockFunction = (Block, seq<byte>) -> Block

  type Library = map<(int, int), BlockFunction>

  const TWO64: nat := 0x1_0000_0000_0000_0000

  /** The longest plaintext of section 5.2.1.1 of NIST SP 800-38D, in bytes. */
  const MAX_LENGTH: nat := 0x10_0000_0000 - 32

  /** The macro sbits: bits 4 and 5 of the mode. */
  function SBits(mode: int): int {
    mode / 16 % 4
  }

  /** The macro ibits: bits 0 to 3 of the mode. */
  function IBits(mode: int): int {
    mode % 16
  }

  predicate Installed(lib: Library, mode: int) {
    (SBits(mode), IBits(mode)) in lib
  }

  function Lookup(lib: Library, mode: int): BlockFunction
    requires Installed(lib, mode)
  {
    lib[(SBits(mode), IBits(mode))]
  }

  /** Under the given key, the block function selected by mode, if there is one, is e. */
  ghost predicate Selects(lib: Library, mode: int, key: seq<byte>, e: Cipher) {
    Installed(lib, mode) ==> forall b: Block :: Lookup(lib, mode)(b, key) == e(b)
  }

  /** The block that the context builds for block n of the keystream. */
  function CounterOf(iv: seq<byte>, n: nat): Block
    requires |iv| == 12
  {
    iv + BigEndian(n + 1, 4)
  }

  /** Block n of a keystream. */
  function BlockAt(ks: nat -> byte, n: nat): Block {
    seq(16, i requires 0 <= i < 16 => ks(16 * n + i))
  }

  /** The counter blocks of iv, enciphered by op, are the keystream ks. */
  ghost predicate Generates(op: BlockFunction, key: seq<byte>, iv: seq<byte>, ks: nat -> byte)
    requires |iv| == 12
  {
    forall n: nat {:trigger CounterOf(iv, n)} :: op(CounterOf(iv, n), key) == BlockAt(ks, n)
  }

  /** hash multiplies by h. */
  ghost predicate MultipliesBy(hash: Hash, h: Block) {
    forall y: Block, x: seq<byte> {:trigger HashStep(h, y, x)} :: |x| <= 16 ==> HashStep(h, y, x) == hash(y, x)
  }

  /** store32 and store64: the n low-order bytes of u, most significant first, at x[off..off+n]. */
  method Store(x: array<byte>, off: nat, n: nat, u: nat)
    requires off + n <= x.Length
    modifies x
    ensures x[off..off + n] == BigEndian(u, n)
    ensures x[..off] == old(x[..off]) && x[off + n..] == old(x[off + n..])
  {
    var i, v := n, u;
    while i > 0
      invariant 0 <= i <= n
      invariant BigEndian(u, n) == BigEndian(v, i) + x[off + i..off + n]
      invariant x[..off] == old(x[..off]) && x[off + n..] == old(x[off + n..])
    {
      i := i - 1;
      ghost var tail := x[off + i + 1..off + n];
      x[off + i] := LowByte(v);
      assert x[off + i..off + n] == [LowByte(v)] + tail;
      v := v / 256;
    }
  }

  method Copy(dst: array<byte>, src: seq<byte>)
    requires dst.Length >= |src|
    modifies dst
    ensures dst[..|src|] == src && dst[|src|..] == old(dst[|src|..])
  {
    var i := 0;
    while i < |src|
      invariant 0 <= i <= |src|
      invariant dst[..i] == src[..i] && dst[|src|..] == old(dst[|src|..])
    {
      dst[i] := src[i];
      i := i + 1;
    }
  }

  /** m[pos..] = c ^ stream, byte by byte. */
  method XorInto(m: array<byte>, pos: nat, c: seq<byte>, stream: Block)
    requires |c| <= 16 && pos + |c| <= m.Length
    modifies m
    ensures m[pos..pos + |c|] == XorBytes(c, stream)
    ensures m[..pos] == old(m[..pos]) && m[pos + |c|..] == old(m[pos + |c|..])
  {
    var i := 0;
    while i < |c|
      invariant 0 <= i <= |c|
      invariant m[pos..pos + i] == XorBytes(c, stream)[..i]
      invariant m[..pos] == old(m[..pos]) && m[pos + |c|..] == old(m[pos + |c|..])
    {
      m[pos + i] := c[i] ^ stream[i];
      i := i + 1;
    }
  }

  /** crypto_verify_16: the or of all differences, folded into 0 or -1 without a branch. */
  method Verify16(x: seq<byte>, y: seq<byte>) returns (r: int)
    requires |x| == 16 && |y| == 16
    ensures r == if x == y then 0 else -1
  {
    var differentbits: bv32 := 0;
    var i := 0;
    while i < 16
      invariant 0 <= i <= 16
      invariant differentbits <= 0xff
      invariant differentbits == 0 <==> x[..i] == y[..i]
    {
      differentbits := differentbits | (x[i] ^ y[i]) as bv32;
      i := i + 1;
    }
    assert x[..16] == x && y[..16] == y;
    var bit := 1 & ((differentbits - 1) >> 8);
    r := bit as int - 1;
  }

  class EDcontext {
    const kcopy: array<byte>
    const H: array<byte>
    const J: array<byte>
    const T: array<byte>
    const accum: array<byte>
    const paccum: array<byte>
    const finalblock: array<byte>
    var handle: Library
    var index: nat
    var mlen: nat

    /** malloc: the contents are unspecified. */
    constructor ()
      ensures Shape()
      ensures fresh(kcopy) && fresh(H) && fresh(J) && fresh(T) && fresh(accum) && fresh(paccum) && fresh(finalblock)
    {
      kcopy := new byte[32];
      H := new byte[16];
      J := new byte[16];
      T := new byte[16];
      accum := new byte[16];
      paccum := new byte[16];
      finalblock := new byte[16];
      handle := map[];
    }

    ghost predicate Shape() {
      && kcopy.Length == 32 && H.Length == 16 && J.Length == 16 && T.Length == 16
      && accum.Length == 16 && paccum.Length == 16 && finalblock.Length == 16
      && kcopy != H && kcopy != J && kcopy != T && kcopy != accum && kcopy != paccum && kcopy != finalblock
      && H != J && H != T && H != accum && H != paccum && H != finalblock
      && J != T && J != accum && J != paccum && J != finalblock
      && T != accum && T != paccum && T != finalblock
      && accum != paccum && accum != finalblock && paccum != finalblock
    }

    /** m is none of the arrays of the context. */
    ghost predicate Apart(m: array<byte>) {
      m != kcopy && m != H && m != J && m != T && m != accum && m != paccum && m != finalblock
    }

    /** What ed_init establishes and nothing changes: hash key, IV and the block that masks the tag. */
    ghost predicate Keyed(hash: Hash, ks: nat -> byte, iv: seq<byte>)
      requires |iv| == 12
      reads this, H, J, T, finalblock
    {
      && Shape()
      && MultipliesBy(hash, H[..])
      && J[..12] == iv
      && T[..] == BlockAt(ks, 0)
      && finalblock[..8] == ZeroBytes(8)
    }

    /** The message hashed so far is c. */
    ghost predicate Hashed(hash: Hash, c: seq<byte>)
      reads this, accum
    {
      && Shape()
      && accum[..] == Absorb(hash, ZeroBytes(16), c)
      && mlen == |c|
    }

    /** The hash of c, saved before the block that followed it. */
    ghost predicate Saved(hash: Hash, c: seq<byte>)
      reads this, paccum
    {
      && Shape()
      && paccum[..] == Absorb(hash, ZeroBytes(16), c)
    }

    /**
     ed_init: 0 on success, 1 when the library cannot be loaded, -1 when the mode names no
     function.
     */
    method EdInit(lib: Option<Library>, mode: int, npub: seq<byte>, k: seq<byte>, ghost e: Cipher) returns (r: int)
      requires Shape() && |npub| >= 12 && |k| == 32
      requires lib.Some? ==> Selects(lib.value, mode, k, e)
      modifies this, kcopy, H, J, T, accum, paccum, finalblock
      ensures r == if lib.None? then 1 else if !Installed(lib.value, mode) then -1 else 0
      ensures r == 0 ==> handle == lib.value && kcopy[..] == k && index == 1
      ensures r == 0 ==> Keyed(HashBy(HashKey(e)), Keystream(e, PreCounter(npub[..12])), npub[..12])
      ensures r == 0 ==> Hashed(HashBy(HashKey(e)), [])
    {
      if lib.None? {
        return 1;
      }
      handle := lib.value;
      if !Installed(handle, mode) {
        return -1;
      }
      Copy(kcopy, k);
      assert kcopy[..] == k;
      InitKeys(Lookup(handle, mode), npub, e);
      index := 1;
      Copy(accum, ZeroBytes(16));
      Copy(paccum, ZeroBytes(16));
      assert accum[..] == ZeroBytes(16);
      Store(finalblock, 0, 8, 0);
      Store(finalblock, 8, 8, 0);
      Numbers.ZeroDigits(8);
      mlen := 0;
      return 0;
    }

    /** The hash key, the pre-counter block and its encryption. */
    method InitKeys(op: BlockFunction, npub: seq<byte>, ghost e: Cipher)
      requires Shape() && |npub| >= 12
      requires forall b: Block :: op(b, kcopy[..]) == e(b)
      modifies H, J, T
      ensures H[..] == HashKey(e) && J[..12] == npub[..12]
      ensures T[..] == BlockAt(Keystream(e, PreCounter(npub[..12])), 0)
    {
      Copy(H, op(ZeroBytes(16), kcopy[..]));
      assert H[..] == e(ZeroBytes(16));
      Copy(J, npub[..12]);
      Store(J, 12, 4, 1);
      BigEndianOne();
      assert J[..] == J[..12] + J[12..16] == PreCounter(npub[..12]);
      Copy(T, op(J[..], kcopy[..]));
      assert T[..] == e(PreCounter(npub[..12]));
      BlockAtKeystream(e, PreCounter(npub[..12]), 0);
    }

    /** Counter and block function: keystream block `index`. */
    method NextStream(op: BlockFunction, ghost hash: Hash, ghost ks: nat -> byte, ghost iv: seq<byte>)
      returns (stream: Block)
      requires |iv| == 12 && Keyed(hash, ks, iv) && Generates(op, kcopy[..], iv, ks) && index + 1 < TWO64
      modifies this`index, J
      ensures Keyed(hash, ks, iv)
      ensures index == old(index) + 1 && stream == BlockAt(ks, old(index))
    {
      NoWrap(index + 1);
      index := (index + 1) % TWO64;
      Store(J, 12, 4, index);
      assert J[..] == J[..12] + J[12..16] == CounterOf(iv, index - 1);
      stream := op(J[..], kcopy[..]);
    }

    /** Saves the hash and absorbs one more block of at most 16 bytes. */
    method HashBlock(c: seq<byte>, ghost hash: Hash, ghost seen: seq<byte>)
      requires Shape() && 0 < |c| <= 16 && |seen| % 16 == 0
      requires MultipliesBy(hash, H[..]) && accum[..] == Absorb(hash, ZeroBytes(16), seen)
      modifies accum, paccum
      ensures paccum[..] == Absorb(hash, ZeroBytes(16), seen)
      ensures accum[..] == Absorb(hash, ZeroBytes(16), seen + c)
    {
      Copy(paccum, accum[..]);
      assert paccum[..] == accum[..];
      AbsorbAppend(hash, ZeroBytes(16), seen, c);
      AddMul(accum, c, H);
    }

    /** The body of the loop of dec_update, on one block of at most 16 bytes. */
    method DecBlock(op: BlockFunction, m: array<byte>, pos: nat, c: seq<byte>,
        ghost hash: Hash, ghost ks: nat -> byte, ghost iv: seq<byte>, ghost seen: seq<byte>)
      requires |iv| == 12 && 0 < |c| <= 16 && pos + |c| <= m.Length && Apart(m)
      requires Keyed(hash, ks, iv) && Generates(op, kcopy[..], iv, ks) && index + 1 < TWO64
      requires |seen| % 16 == 0 && accum[..] == Absorb(hash, ZeroBytes(16), seen)
      modifies this`index, J, accum, paccum, m
      ensures Keyed(hash, ks, iv) && index == old(index) + 1
      ensures Saved(hash, seen) && accum[..] == Absorb(hash, ZeroBytes(16), seen + c)
      ensures m[pos..pos + |c|] == Encipher(ks, 16 * old(index), c)
      ensures m[..pos] == old(m[..pos]) && m[pos + |c|..] == old(m[pos + |c|..])
    {
      var stream := NextStream(op, hash, ks, iv);
      XorInto(m, pos, c, stream);
      XorIsEncipher(ks, old(index), c);
      HashBlock(c, hash, seen);
    }

    /**
     dec_update: deciphers and hashes the bytes c.  The result is -1, and nothing has happened,
     when the mode names no installed function.  The k blocks of `seen` came before.
     */
    method DecUpdate(mode: int, m: array<byte>, c: seq<byte>,
        ghost hash: Hash, ghost ks: nat -> byte, ghost iv: seq<byte>, ghost seen: seq<byte>, ghost k: nat)
      returns (r: int)
      requires |iv| == 12 && |c| <= m.Length && Apart(m)
      requires Installed(handle, mode) ==> Generates(Lookup(handle, mode), kcopy[..], iv, ks)
      requires Keyed(hash, ks, iv) && Hashed(hash, seen) && |seen| == 16 * k && index == k + 1
      requires |seen| + |c| <= MAX_LENGTH + 16
      modifies this`index, this`mlen, J, accum, paccum, m
      ensures r == if Installed(handle, mode) then 0 else -1
      ensures r != 0 ==> m[..] == old(m[..]) && Keyed(hash, ks, iv) && Hashed(hash, seen)
      ensures r == 0 ==> Keyed(hash, ks, iv) && Hashed(hash, seen + c)
      ensures r == 0 && |c| % 16 == 0 ==> index == k + |c| / 16 + 1
      ensures r == 0 && c != [] ==> Saved(hash, seen + c[..LastBlockStart(|c|)])
      ensures r == 0 ==> m[..|c|] == Encipher(ks, 16 * k + 16, c)
      ensures m[|c|..] == old(m[|c|..])
    {
      if !Installed(handle, mode) {
        return -1;
      }
      var op := Lookup(handle, mode);
      NoWrap(mlen + |c|);
      mlen := (mlen + |c|) % TWO64;
      var pos := 0;
      ghost var blocks := 0;
      assert seen + c[..0] == seen && c[..0] == [];
      while pos < |c|
        invariant 0 <= pos <= |c| && (pos == 16 * blocks || (pos == |c| && pos < 16 * blocks < pos + 16))
        invariant pos > 0 ==> blocks > 0 && Saved(hash, seen + c[..16 * (blocks - 1)])
        invariant Keyed(hash, ks, iv) && index == k + 1 + blocks && mlen == |seen| + |c|
        invariant accum[..] == Absorb(hash, ZeroBytes(16), seen + c[..pos])
        invariant m[..pos] == Encipher(ks, 16 * k + 16, c[..pos])
        invariant m[|c|..] == old(m[|c|..])
      {
        var blocklen := if |c| - pos < 16 then |c| - pos else 16;
        DecStep(op, m, pos, c, blocklen, hash, ks, iv, seen, k, blocks);
        pos, blocks := pos + blocklen, blocks + 1;
      }
      assert c[..pos] == c;
      LastBlock(|c|, blocks);
      return 0;
    }

    /** One iteration of dec_update, which extends the deciphered prefix. */
    method DecStep(op: BlockFunction, m: array<byte>, pos: nat, c: seq<byte>, blocklen: nat,
        ghost hash: Hash, ghost ks: nat -> byte, ghost iv: seq<byte>, ghost seen: seq<byte>, ghost k: nat,
        ghost blocks: nat)
      requires |iv| == 12 && 0 < blocklen <= 16 && pos + blocklen <= |c| <= m.Length && Apart(m)
      requires Keyed(hash, ks, iv) && Generates(op, kcopy[..], iv, ks)
      requires pos == 16 * blocks && |seen| == 16 * k && index == k + 1 + blocks && index + 1 < TWO64
      requires accum[..] == Absorb(hash, ZeroBytes(16), seen + c[..pos])
      requires m[..pos] == Encipher(ks, 16 * k + 16, c[..pos])
      modifies this`index, J, accum, paccum, m
      ensures Keyed(hash, ks, iv) && index == k + 2 + blocks
      ensures Saved(hash, seen + c[..pos]) && accum[..] == Absorb(hash, ZeroBytes(16), seen + c[..pos + blocklen])
      ensures m[..pos + blocklen] == Encipher(ks, 16 * k + 16, c[..pos + blocklen])
      ensures m[|c|..] == old(m[|c|..])
    {
      DecNext(op, m, pos, c, blocklen, hash, ks, iv, seen, k + blocks);
      JoinStream(ks, 16 * k + 16, c, pos, blocklen, m[..pos + blocklen]);
    }

    /** The block c[pos..pos + blocklen], after n whole blocks. */
    method DecNext(op: BlockFunction, m: array<byte>, pos: nat, c: seq<byte>, blocklen: nat,
        ghost hash: Hash, ghost ks: nat -> byte, ghost iv: seq<byte>, ghost seen: seq<byte>, ghost n: nat)
      requires |iv| == 12 && 0 < blocklen <= 16 && pos + blocklen <= |c| <= m.Length && Apart(m)
      requires Keyed(hash, ks, iv) && Generates(op, kcopy[..], iv, ks)
      requires |seen| + pos == 16 * n && index == n + 1 && index + 1 < TWO64
      requires accum[..] == Absorb(hash, ZeroBytes(16), seen + c[..pos])
      modifies this`index, J, accum, paccum, m
      ensures Keyed(hash, ks, iv) && index == n + 2
      ensures Saved(hash, seen + c[..pos]) && accum[..] == Absorb(hash, ZeroBytes(16), seen + c[..pos + blocklen])
      ensures m[..pos + blocklen][..pos] == old(m[..pos])
      ensures m[..pos + blocklen][pos..] == Encipher(ks, 16 * n + 16, c[pos..pos + blocklen])
      ensures m[|c|..] == old(m[|c|..])
    {
      LastBlock(16 * n, n);
      DecBlock(op, m, pos, c[pos..pos + blocklen], hash, ks, iv, seen + c[..pos]);
      JoinHash(seen, c, pos, blocklen);
      assert m[|c|..] == m[pos + blocklen..][|c| - pos - blocklen..];
    }

    /** store64(finalblock + 8, 8 * mlen). */
    method StoreLengths(ghost c: seq<byte>)
      requires Shape() && finalblock[..8] == ZeroBytes(8) && mlen == |c| && |c| <= MAX_LENGTH
      modifies finalblock
      ensures finalblock[..8] == ZeroBytes(8) && finalblock[..] == Lengths(c)
      ensures Numbers.Value(finalblock[..8]) == 0 && Numbers.Value(finalblock[8..]) == 8 * |c|
    {
      NoWrap(8 * mlen);
      var bits := 8 * mlen % TWO64;
      Store(finalblock, 8, 8, bits);
      assert finalblock[..] == finalblock[..8] + finalblock[8..16];
      LengthsValue(c);
      assert finalblock[..8] == finalblock[..][..8] && finalblock[8..] == finalblock[..][8..];
    }

    /** dec_final: 0 exactly when t is the tag of the hashed message, and -1 otherwise. */
    method DecFinal(t: seq<byte>, ghost hash: Hash, ghost ks: nat -> byte, ghost iv: seq<byte>, ghost c: seq<byte>)
      returns (r: int)
      requires |iv| == 12 && |t| == 16
      requires Keyed(hash, ks, iv) && Hashed(hash, c) && |c| <= MAX_LENGTH
      modifies accum, finalblock
      ensures r == if t == StreamTag(hash, ks, c) then 0 else -1
      ensures accum[..] == hash(old(accum[..]), finalblock[..])
      ensures Numbers.Value(finalblock[..8]) == 0 && Numbers.Value(finalblock[8..]) == 8 * |c|
    {
      StoreLengths(c);
      AddMul(accum, finalblock[..], H);
      assert accum[..] == hash(Absorb(hash, ZeroBytes(16), c), Lengths(c));
      var ts := new byte[16];
      XorInto(ts, 0, accum[..], T[..]);
      assert ts[..] == ts[0..16];
      XorIsEncipher(ks, 0, accum[..]);
      assert ts[..] == StreamTag(hash, ks, c);
      var v := Verify16(t, ts[..]);
      if v != 0 {
        return -1;
      }
      return 0;
    }
  }

  /** Where the last block of a message of n bytes begins. */
  function LastBlockStart(n: nat): (k: nat)
    ensures k <= n
  {
    if n == 0 then 0 else (n - 1) / 16 * 16
  }

  lemma LastBlock(n: nat, b: nat)
    requires n <= 16 * b < n + 16
    ensures b > 0 ==> LastBlockStart(n) == 16 * (b - 1)
    ensures n % 16 == 0 <==> n == 16 * b
    ensures n == 16 * b ==> n / 16 == b
  {
  }

  lemma JoinHash(seen: seq<byte>, c: seq<byte>, pos: nat, len: nat)
    requires pos + len <= |c|
    ensures (seen + c[..pos]) + c[pos..pos + len] == seen + c[..pos + len]
  {
  }

  lemma JoinStream(ks: nat -> byte, off: nat, c: seq<byte>, pos: nat, len: nat, m: seq<byte>)
    requires pos + len <= |c| && |m| == pos + len
    requires m[..pos] == Encipher(ks, off, c[..pos]) && m[pos..] == Encipher(ks, off + pos, c[pos..pos + len])
    ensures m == Encipher(ks, off, c[..pos + len])
  {
    assert c[..pos + len] == c[..pos] + c[pos..pos + len];
    EncipherAppend(ks, off, c[..pos], c[pos..pos + len]);
    assert m == m[..pos] + m[pos..];
  }

  lemma XorIsEncipher(ks: nat -> byte, n: nat, c: seq<byte>)
    requires |c| <= 16
    ensures XorBytes(c, BlockAt(ks, n)) == Encipher(ks, 16 * n, c)
  {
  }

  lemma BlockAtKeystream(e: Cipher, icb: Block, n: nat)
    ensures BlockAt(Keystream(e, icb), n) == e(CounterBlock(icb, n))
  {
    var k := e(CounterBlock(icb, n));
    forall i | 0 <= i < 16
      ensures BlockAt(Keystream(e, icb), n)[i] == k[i]
    {
      assert (16 * n + i) / 16 == n && (16 * n + i) % 16 == i;
    }
  }

  /** A block function that agrees with e generates the keystream of e. */
  lemma SelectedGenerates(lib: Library, mode: int, key: seq<byte>, iv: seq<byte>, e: Cipher)
    requires |iv| == 12 && Installed(lib, mode) && Selects(lib, mode, key, e)
    ensures Generates(Lookup(lib, mode), key, iv, Keystream(e, PreCounter(iv)))
  {
    forall n: nat
      ensures Lookup(lib, mode)(CounterOf(iv, n), key) == BlockAt(Keystream(e, PreCounter(iv)), n)
    {
      CounterIsIndex(iv, n);
      BlockAtKeystream(e, PreCounter(iv), n);
    }
  }

  lemma NoWrap(n: nat)
    requires n < TWO64
    ensures n % TWO64 == n
  {
  }
}
