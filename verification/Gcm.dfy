/**
 Galois/Counter Mode as NIST SP 800-38D defines it, with a 96-bit IV and no additional
 authenticated data, over an arbitrary forward cipher E = CIPH_K.
 */
module Gcm {
  import opened Bytes
  import opened Gf128
  import opened Addmul
  import Numbers

  type Cipher = Block -> Block

  // ----- section 6.2 and 6.5: the counter and GCTR

  /** inc_32: the last four bytes, as an integer, are incremented modulo 2^32. */
  function Inc32(b: Block): Block {
    b[..12] + Increment(b[12..])
  }

  /** CB_(n+1), the counter block after n increments of the initial counter block. */
  function CounterBlock(icb: Block, n: nat): Block {
    if n == 0 then icb else Inc32(CounterBlock(icb, n - 1))
  }

  /** The bytes of CIPH_K(CB_1), CIPH_K(CB_2), ... in order. */
  function Keystream(e: Cipher, icb: Block): nat -> byte {
    (p: nat) => e(CounterBlock(icb, p / 16))[p % 16]
  }

  /** x xored with the keystream bytes from position off on. */
  function Encipher(ks: nat -> byte, off: nat, x: seq<byte>): (y: seq<byte>)
    ensures |y| == |x|
  {
    seq(|x|, i requires 0 <= i < |x| => x[i] ^ ks(off + i))
  }

  /** GCTR: block i is xored with CIPH_K(CB_i), a last short block with its leftmost bytes. */
  function Gctr(e: Cipher, icb: Block, x: seq<byte>): (y: seq<byte>)
    ensures |y| == |x|
  {
    Encipher(Keystream(e, icb), 0, x)
  }

  // ----- section 6.4: GHASH

  /** Absorbs at most 16 bytes into a running hash. */
  type Hash = (Block, seq<byte>) -> Block

  /** Y_i = (Y_(i-1) + X_i) • H. */
  function HashBy(h: Block): Hash {
    (y: Block, x: seq<byte>) => if |x| <= 16 then HashStep(h, y, x) else y
  }

  /** GHASH over the whole blocks of x, continued from y. */
  function Ghash(hash: Hash, y: Block, x: seq<byte>): Block
    decreases |x|
  {
    if |x| < 16 then y else Ghash(hash, hash(y, x[..16]), x[16..])
  }

  /** x followed by the fewest zero bytes that complete its last block. */
  function PadToBlocks(x: seq<byte>): (r: seq<byte>)
    ensures |r| % 16 == 0
  {
    x + ZeroBytes((16 - |x| % 16) % 16)
  }

  // ----- section 7: authenticated encryption and decryption

  function HashKey(e: Cipher): Block {
    e(ZeroBytes(16))
  }

  /** The pre-counter block J_0 of a 96-bit IV. */
  function PreCounter(iv: seq<byte>): Block
    requires |iv| == 12
  {
    iv + [0, 0, 0, 1]
  }

  /** [len(A)]_64 || [len(C)]_64 with A empty; lengths count bits. */
  function Lengths(c: seq<byte>): Block {
    ZeroBytes(8) + BigEndian(8 * |c|, 8)
  }

  function Tag(e: Cipher, iv: seq<byte>, c: seq<byte>): seq<byte>
    requires |iv| == 12
  {
    var s := Ghash(HashBy(HashKey(e)), ZeroBytes(16), PadToBlocks(c) + Lengths(c));
    Gctr(e, PreCounter(iv), s)
  }

  /** GCTR over the data, which starts from inc_32(J_0); its own inverse. */
  function Crypt(e: Cipher, iv: seq<byte>, x: seq<byte>): (y: seq<byte>)
    requires |iv| == 12
    ensures |y| == |x|
  {
    Gctr(e, Inc32(PreCounter(iv)), x)
  }

  /** GCM-AE of section 7.1: the ciphertext and the 16-byte tag. */
  function AuthEncrypt(e: Cipher, iv: seq<byte>, p: seq<byte>): (seq<byte>, seq<byte>)
    requires |iv| == 12
  {
    var c := Crypt(e, iv, p);
    (c, Tag(e, iv, c))
  }

  datatype Option<+T> = None | Some(value: T)

  /** GCM-AD of section 7.2: the plaintext, or None for FAIL. */
  function AuthDecrypt(e: Cipher, iv: seq<byte>, c: seq<byte>, t: seq<byte>): Option<seq<byte>>
    requires |iv| == 12
  {
    if t == Tag(e, iv, c) then Some(Crypt(e, iv, c)) else None
  }

  // ----- incremental forms

  /** GHASH of x, whose last block may be short. */
  function Absorb(hash: Hash, y: Block, x: seq<byte>): Block
    decreases |x|
  {
    if |x| == 0 then y
    else if |x| <= 16 then hash(y, x)
    else Absorb(hash, hash(y, x[..16]), x[16..])
  }

  /** A short block hashes like its zero-padded form. */
  ghost predicate Pads(hash: Hash) {
    forall y: Block, x: seq<byte> :: |x| <= 16 ==> hash(y, x) == hash(y, Pad(x))
  }

  lemma HashByPads(h: Block)
    ensures Pads(HashBy(h))
  {
    forall y: Block, x: seq<byte> | |x| <= 16
      ensures HashBy(h)(y, x) == HashBy(h)(y, Pad(x))
    {
      assert Pad(Pad(x)) == Pad(x);
    }
  }

  lemma {:induction false} AbsorbIsGhash(hash: Hash, y: Block, x: seq<byte>)
    requires Pads(hash)
    ensures Absorb(hash, y, x) == Ghash(hash, y, PadToBlocks(x))
    decreases |x|
  {
    if |x| == 0 {
      assert PadToBlocks(x) == [];
    } else if |x| <= 16 {
      PadOne(x);
      GhashOne(hash, y, Pad(x));
    } else {
      PadMore(x);
      AbsorbIsGhash(hash, hash(y, x[..16]), x[16..]);
    }
  }

  lemma PadOne(x: seq<byte>)
    requires 0 < |x| <= 16
    ensures PadToBlocks(x) == Pad(x)
  {
  }

  lemma PadMore(x: seq<byte>)
    requires |x| > 16
    ensures PadToBlocks(x)[..16] == x[..16] && PadToBlocks(x)[16..] == PadToBlocks(x[16..])
  {
    assert |x[16..]| % 16 == |x| % 16;
  }

  lemma GhashOne(hash: Hash, y: Block, b: Block)
    ensures Ghash(hash, y, b) == hash(y, b)
  {
    assert b[..16] == b && b[16..] == [];
  }

  /** The first block is absorbed on its own. */
  lemma AbsorbFirst(hash: Hash, y: Block, x: seq<byte>)
    requires |x| >= 16
    ensures Absorb(hash, y, x) == Absorb(hash, hash(y, x[..16]), x[16..])
  {
    if |x| == 16 {
      assert x[..16] == x;
    }
  }

  lemma {:induction false} AbsorbAppend(hash: Hash, y: Block, a: seq<byte>, b: seq<byte>)
    requires |a| % 16 == 0
    ensures Absorb(hash, y, a + b) == Absorb(hash, Absorb(hash, y, a), b)
    decreases |a|
  {
    if |a| == 0 {
      assert a + b == b;
    } else {
      assert (a + b)[..16] == a[..16] && (a + b)[16..] == a[16..] + b;
      AbsorbFirst(hash, y, a + b);
      AbsorbFirst(hash, y, a);
      AbsorbAppend(hash, hash(y, a[..16]), a[16..], b);
    }
  }

  lemma {:induction false} GhashAppend(hash: Hash, y: Block, a: seq<byte>, b: Block)
    requires |a| % 16 == 0
    ensures Ghash(hash, y, a + b) == hash(Ghash(hash, y, a), b)
    decreases |a|
  {
    if a == [] {
      assert a + b == b;
      GhashOne(hash, y, b);
    } else {
      assert (a + b)[..16] == a[..16] && (a + b)[16..] == a[16..] + b;
      GhashAppend(hash, hash(y, a[..16]), a[16..], b);
    }
  }

  lemma Concat<T>(a: seq<T>, b: seq<T>, c: seq<T>)
    ensures (a + b) + c == a + (b + c)
  {
  }

  lemma EncipherAppend(ks: nat -> byte, off: nat, a: seq<byte>, b: seq<byte>)
    ensures Encipher(ks, off, a + b) == Encipher(ks, off, a) + Encipher(ks, off + |a|, b)
  {
  }

  lemma EncipherPrefix(ks: nat -> byte, off: nat, x: seq<byte>, len: nat)
    requires len <= |x|
    ensures Encipher(ks, off, x)[..len] == Encipher(ks, off, x[..len])
  {
  }

  lemma {:induction false} CounterSucc(icb: Block, n: nat)
    ensures CounterBlock(Inc32(icb), n) == CounterBlock(icb, n + 1)
  {
    if n > 0 {
      CounterSucc(icb, n - 1);
    }
  }

  lemma KeystreamSucc(e: Cipher, icb: Block, i: nat)
    ensures Keystream(e, Inc32(icb))(i) == Keystream(e, icb)(16 + i)
  {
    CounterSucc(icb, i / 16);
    assert (16 + i) / 16 == i / 16 + 1 && (16 + i) % 16 == i % 16;
  }

  /** The data is enciphered with the keystream of J_0 from its second block on. */
  lemma CryptIsEncipher(e: Cipher, iv: seq<byte>, x: seq<byte>)
    requires |iv| == 12
    ensures Crypt(e, iv, x) == Encipher(Keystream(e, PreCounter(iv)), 16, x)
  {
    var y, z := Crypt(e, iv, x), Encipher(Keystream(e, PreCounter(iv)), 16, x);
    forall i | 0 <= i < |x|
      ensures y[i] == z[i]
    {
      KeystreamSucc(e, PreCounter(iv), i);
    }
  }

  lemma IncIsIndex(prefix: seq<byte>, n: nat, b: Block, width: nat)
    requires |prefix| == 12 && width == 4 && b == prefix + BigEndian(n, width)
    ensures Inc32(b) == prefix + BigEndian(n + 1, width)
  {
    assert b[..12] == prefix && b[12..] == BigEndian(n, width);
    BigEndianSucc(n, width);
  }

  lemma BigEndianOne()
    ensures BigEndian(1, 4) == [0, 0, 0, 1]
  {
  }

  /** The low-order bytes of the counter are the block index. */
  lemma CounterIsIndex(iv: seq<byte>, n: nat)
    requires |iv| == 12
    ensures CounterBlock(PreCounter(iv), n) == iv + BigEndian(n + 1, 4)
  {
    BigEndianOne();
    CounterFrom(iv, PreCounter(iv), n, 4);
  }

  lemma {:induction false} CounterFrom(iv: seq<byte>, first: Block, n: nat, width: nat)
    requires |iv| == 12 && width == 4 && first == iv + BigEndian(1, width)
    ensures CounterBlock(first, n) == iv + BigEndian(n + 1, width)
  {
    if n > 0 {
      CounterFrom(iv, first, n - 1, width);
      IncIsIndex(iv, n, CounterBlock(first, n - 1), width);
    }
  }

  /** inc_32 adds one modulo 2^32 to the last four bytes as an integer, and leaves the others. */
  lemma Inc32Value(b: Block)
    ensures Inc32(b)[..12] == b[..12]
    ensures Numbers.Value(Inc32(b)[12..]) == (Numbers.Value(b[12..]) + 1) % 0x1_0000_0000
  {
    var low := b[12..];
    assert Inc32(b)[12..] == Increment(low);
    Numbers.IncrementValue(low);
    Numbers.WordPowers();
  }

  /** The counter of block n of the keystream is n + 1, as far as 32 bits can hold it. */
  lemma CounterValue(iv: seq<byte>, n: nat)
    requires |iv| == 12
    ensures var b := CounterBlock(PreCounter(iv), n);
      b[..12] == iv && Numbers.Value(b[12..]) == (n + 1) % 0x1_0000_0000
  {
    CounterIsIndex(iv, n);
    Numbers.WordPowers();
    SuffixValue(iv, CounterBlock(PreCounter(iv), n), n + 1, 4);
  }

  lemma SuffixValue(prefix: seq<byte>, b: seq<byte>, u: nat, n: nat)
    requires b == prefix + BigEndian(u, n)
    ensures b[..|prefix|] == prefix && Numbers.Value(b[|prefix|..]) == u % Numbers.Power(256, n)
  {
    assert b[|prefix|..] == BigEndian(u, n);
    Numbers.BigEndianValue(u, n);
  }

  /** The last block that is hashed holds 0 and the length of c in bits, in eight bytes each. */
  lemma LengthsValue(c: seq<byte>)
    requires 8 * |c| < 0x1_0000_0000_0000_0000
    ensures Numbers.Value(Lengths(c)[..8]) == 0 && Numbers.Value(Lengths(c)[8..]) == 8 * |c|
  {
    Numbers.ZeroValue(8);
    Numbers.WordPowers();
    SuffixValue(ZeroBytes(8), Lengths(c), 8 * |c|, 8);
  }

  /** The tag, computed from the hash step and the keystream of J_0. */
  function StreamTag(hash: Hash, ks: nat -> byte, c: seq<byte>): seq<byte> {
    Encipher(ks, 0, hash(Absorb(hash, ZeroBytes(16), c), Lengths(c)))
  }

  lemma LastHash(hash: Hash, c: seq<byte>, l: Block)
    requires Pads(hash)
    ensures Ghash(hash, ZeroBytes(16), PadToBlocks(c) + l) == hash(Absorb(hash, ZeroBytes(16), c), l)
  {
    AbsorbIsGhash(hash, ZeroBytes(16), c);
    GhashAppend(hash, ZeroBytes(16), PadToBlocks(c), l);
  }

  lemma TagIsStreamTag(e: Cipher, iv: seq<byte>, c: seq<byte>)
    requires |iv| == 12
    ensures Tag(e, iv, c) == StreamTag(HashBy(HashKey(e)), Keystream(e, PreCounter(iv)), c)
  {
    var hash := HashBy(HashKey(e));
    HashByPads(HashKey(e));
    LastHash(hash, c, Lengths(c));
  }

  // ----- what authenticated encryption promises

  lemma EncipherTwice(ks: nat -> byte, off: nat, x: seq<byte>)
    ensures Encipher(ks, off, Encipher(ks, off, x)) == x
  {
    forall i | 0 <= i < |x|
      ensures (x[i] ^ ks(off + i)) ^ ks(off + i) == x[i]
    {
    }
  }

  lemma DecryptEncrypt(e: Cipher, iv: seq<byte>, p: seq<byte>)
    requires |iv| == 12
    ensures var (c, t) := AuthEncrypt(e, iv, p); AuthDecrypt(e, iv, c, t) == Some(p)
  {
    EncipherTwice(Keystream(e, Inc32(PreCounter(iv))), 0, p);
  }

  // ----- GHASH is a polynomial in the hash key

  /** X_1 H^m + X_2 H^(m-1) + ... + X_m H, the blocks taken from x in order. */
  function HashPolynomial(h: Elem, x: seq<byte>): Elem
    requires |x| % 16 == 0
    decreases |x|
  {
    if x == [] then ZERO
    else Xor(Dot(ElemOf(x[..16]), Power(h, |x| / 16)), HashPolynomial(h, x[16..]))
  }

  /** On whole blocks, hash is (y, x) -> (y + x) g. */
  ghost predicate Multiplies(hash: Hash, g: Elem) {
    forall y: Block, x: Block :: ElemOf(hash(y, x)) == Dot(Xor(ElemOf(y), ElemOf(x)), g)
  }

  lemma HashByMultiplies(h: Block)
    ensures Multiplies(HashBy(h), ElemOf(h))
  {
    forall y: Block, x: Block
      ensures ElemOf(HashBy(h)(y, x)) == Dot(Xor(ElemOf(y), ElemOf(x)), ElemOf(h))
    {
      assert Pad(x) == x;
    }
  }

  /** ((y + x) h) h^(n-1) + r = y h^n + (x h^n + r). */
  lemma HornerStep(h: Elem, y: Elem, x: Elem, n: nat, r: Elem)
    requires n > 0
    ensures Xor(Dot(Dot(Xor(y, x), h), Power(h, n - 1)), r) == Xor(Dot(y, Power(h, n)), Xor(Dot(x, Power(h, n)), r))
  {
    var s, p, q := Xor(y, x), Power(h, n - 1), Power(h, n);
    DotAssoc(s, h, p);
    DotComm(h, p);
    DotDistributes(y, x, q);
    XorAssoc(Dot(y, q), Dot(x, q), r);
  }

  lemma {:induction false} GhashFromIsPolynomial(hash: Hash, g: Elem, y: Block, x: seq<byte>)
    requires Multiplies(hash, g) && |x| % 16 == 0
    ensures ElemOf(Ghash(hash, y, x)) == Xor(Dot(ElemOf(y), Power(g, |x| / 16)), HashPolynomial(g, x))
    decreases |x|
  {
    if x == [] {
      DotOne(ElemOf(y));
      XorZero(ElemOf(y));
    } else {
      var x1: Block, rest := x[..16], x[16..];
      assert |rest| / 16 == |x| / 16 - 1;
      GhashFromIsPolynomial(hash, g, hash(y, x1), rest);
      HornerStep(g, ElemOf(y), ElemOf(x1), |x| / 16, HashPolynomial(g, rest));
    }
  }

  /** Section 6.4: GHASH_H(X) = X_1 H^m + X_2 H^(m-1) + ... + X_m H. */
  lemma GhashIsPolynomial(h: Block, x: seq<byte>)
    requires |x| % 16 == 0
    ensures ElemOf(Ghash(HashBy(h), ZeroBytes(16), x)) == HashPolynomial(ElemOf(h), x)
  {
    HashByMultiplies(h);
    GhashFromIsPolynomial(HashBy(h), ElemOf(h), ZeroBytes(16), x);
    BitsZero();
    ZeroTimes(Power(ElemOf(h), |x| / 16));
    XorZero(HashPolynomial(ElemOf(h), x));
  }

  lemma ZeroTimes(p: Elem)
    ensures Dot(ZERO, p) == ZERO
  {
    DotComm(ZERO, p);
    ZZero(p, 128);
  }
}
