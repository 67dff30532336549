/**
 The integers that big-endian byte strings stand for.  Bits are weighed by their position, so that
 nothing here depends on how the strings are made.
 */
module Numbers {
  import opened Bytes

  /** The value of the k low-order bits of b. */
  function BitsValue(b: byte, k: nat): nat {
    if k == 0 then 0 else 2 * BitsValue(b >> 1, k - 1) + if b & 1 == 1 then 1 else 0
  }

  /** The value of a byte. */
  function ByteValue(b: byte): nat {
    BitsValue(b, 8)
  }

  /** The value of a string of digits, the first of which has the greatest weight. */
  function ValueBy(digit: byte -> nat, s: seq<byte>): nat {
    if s == [] then 0 else 256 * ValueBy(digit, s[..|s| - 1]) + digit(s[|s| - 1])
  }

  function ByteValues(): byte -> nat {
    (b: byte) => ByteValue(b)
  }

  /** The value of a byte string. */
  function Value(s: seq<byte>): nat {
    ValueBy(ByteValues(), s)
  }

  /** base^n. */
  function Power(base: nat, n: nat): (p: nat)
    requires base > 0
    ensures p > 0
  {
    if n == 0 then 1 else base * Power(base, n - 1)
  }

  // ----- one byte

  lemma ShiftedDown(x: byte, m: byte, c: byte)
    requires m in {0, 1, 3, 7, 15, 31, 63, 127} && x & m == x && c <= 1
    ensures ((x << 1) | c) >> 1 == x && ((x << 1) | c) & 1 == c
  {
  }

  lemma LastBit(u: nat, k: nat)
    requires 0 < k <= 8
    ensures LowBits(u, k) >> 1 == LowBits(u / 2, k - 1) && (LowBits(u, k) & 1 == 1 <==> u % 2 == 1)
  {
    LowBitsSucc(u / 2, k - 1);
    OnesValues(k - 1);
    ShiftedDown(LowBits(u / 2, k - 1), Ones(k - 1), if u % 2 == 1 then 1 else 0);
  }

  lemma {:induction false} LowBitsValue(u: nat, k: nat)
    requires k <= 8
    ensures BitsValue(LowBits(u, k), k) == u % Power(2, k)
  {
    if k > 0 {
      LastBit(u, k);
      LowBitsValue(u / 2, k - 1);
      Digits(u, 2, Power(2, k - 1));
    }
  }

  lemma MaskedAgain(b: byte, m: byte)
    ensures (((b >> 1) & m) << 1) | (b & 1) == b & ((m << 1) | 1)
    ensures b & 1 == 0 || b & 1 == 1
  {
  }

  lemma {:induction false} BitsOfValue(b: byte, k: nat)
    requires k <= 8
    ensures LowBits(BitsValue(b, k), k) == b & Ones(k)
  {
    if k > 0 {
      BitsOfValue(b >> 1, k - 1);
      MaskedAgain(b, Ones(k - 1));
      var v := BitsValue(b, k);
      assert v / 2 == BitsValue(b >> 1, k - 1) && (v % 2 == 1 <==> b & 1 == 1);
    }
  }

  lemma Divided(a: nat, b: nat)
    requires b > 0
    ensures a == b * (a / b) + a % b && a % b < b
  {
  }

  /** The last digit of u and the rest. */
  lemma Digits(u: nat, base: nat, p: nat)
    requires base > 0 && p > 0
    ensures base * (u / base % p) + u % base == u % (base * p)
  {
    Divided(u, base);
    Divided(u / base, p);
    TwoDigits(u, base, p, u / base, u % base, u / base / p, u / base % p);
  }

  lemma TwoDigits(u: nat, base: nat, p: nat, q: nat, r: nat, a: nat, b: nat)
    requires base > 0 && p > 0 && u == base * q + r && r < base && q == p * a + b && b < p
    ensures base * b + r == u % (base * p)
  {
    Regroup(base, p, a, b);
    Bounded(base, b, p);
    Remainder(u, base * p, a, base * b + r);
  }

  lemma Regroup(base: nat, p: nat, a: nat, b: nat)
    ensures base * (p * a + b) == base * p * a + base * b
  {
  }

  lemma Bounded(base: nat, a: nat, p: nat)
    requires a < p
    ensures base * a + base <= base * p
  {
    Regroup(base, 1, a + 1, p - a - 1);
    assert base * (p - a - 1) >= 0;
  }

  lemma Remainder(u: nat, m: nat, q: nat, v: nat)
    requires v < m && u == m * q + v
    ensures u % m == v
  {
    Unique(m, q, v, u / m, u % m);
  }

  lemma Unique(m: nat, q: nat, v: nat, q': nat, v': nat)
    requires v < m && v' < m && m * q + v == m * q' + v'
    ensures v == v'
  {
    if q < q' {
      Bounded(m, q, q');
    } else if q' < q {
      Bounded(m, q', q);
    }
  }

  lemma BytePower()
    ensures Power(2, 8) == 256
  {
    assert Power(2, 4) == 16;
  }

  lemma LowByteValue(u: nat)
    ensures ByteValue(LowByte(u)) == u % 256
  {
    BytePower();
    LowBitsValue(u, 8);
  }

  lemma ByteOfValue(b: byte)
    ensures LowByte(ByteValue(b)) == b && ByteValue(b) < 256
  {
    BitsOfValue(b, 8);
    assert Ones(8) == 0xff;
    LowByteValue(ByteValue(b));
  }

  // ----- byte strings

  /** digit gives the value of each byte. */
  ghost predicate Weighs(digit: byte -> nat) {
    (forall u: nat :: WeighsAt(digit, u)) && forall b :: MadeOf(digit, b)
  }

  predicate WeighsAt(digit: byte -> nat, u: nat) {
    digit(LowByte(u)) == u % 256
  }

  predicate MadeOf(digit: byte -> nat, b: byte) {
    digit(b) < 256 && LowByte(digit(b)) == b
  }

  lemma ByteValuesWeigh()
    ensures Weighs(ByteValues())
  {
    forall u: nat
      ensures WeighsAt(ByteValues(), u)
    {
      LowByteValue(u);
    }
    forall b
      ensures MadeOf(ByteValues(), b)
    {
      ByteOfValue(b);
    }
  }

  lemma {:induction false} BigEndianBy(digit: byte -> nat, u: nat, n: nat)
    requires Weighs(digit)
    ensures ValueBy(digit, BigEndian(u, n)) == u % Power(256, n)
  {
    if n > 0 {
      var s := BigEndian(u, n);
      BigEndianBy(digit, u / 256, n - 1);
      assert WeighsAt(digit, u);
      assert s[..n - 1] == BigEndian(u / 256, n - 1);
      Digits(u, 256, Power(256, n - 1));
    }
  }

  lemma {:induction false} OfValueBy(digit: byte -> nat, s: seq<byte>)
    requires Weighs(digit)
    ensures BigEndian(ValueBy(digit, s), |s|) == s
  {
    if s != [] {
      var rest, last := s[..|s| - 1], s[|s| - 1];
      OfValueBy(digit, rest);
      assert MadeOf(digit, last);
      LastDigit(ValueBy(digit, rest), digit(last), |s|);
      assert s == rest + [last];
    }
  }

  lemma LastDigit(high: nat, low: nat, n: nat)
    requires low < 256 && n > 0
    ensures BigEndian(256 * high + low, n) == BigEndian(high, n - 1) + [LowByte(low)]
  {
    SameLowByte(256 * high + low, low);
  }

  /** Only the remainder by 256 decides the low-order byte. */
  lemma SameLowByte(u: nat, v: nat)
    requires u % 256 == v % 256
    ensures LowByte(u) == LowByte(v)
  {
    BytePower();
    SameLowBits(u, v, 8, 256);
  }

  lemma {:induction false} SameLowBits(u: nat, v: nat, k: nat, m: nat)
    requires k <= 8 && m == Power(2, k) && u % m == v % m
    ensures LowBits(u, k) == LowBits(v, k)
  {
    if k > 0 {
      var p := Power(2, k - 1);
      Digits(u, 2, p);
      Digits(v, 2, p);
      SameLowBits(u / 2, v / 2, k - 1, p);
    }
  }

  /** BigEndian makes the string of value u, modulo 256^n. */
  lemma BigEndianValue(u: nat, n: nat)
    ensures Value(BigEndian(u, n)) == u % Power(256, n)
  {
    ByteValuesWeigh();
    BigEndianBy(ByteValues(), u, n);
  }

  lemma ZeroValue(n: nat)
    ensures Value(ZeroBytes(n)) == 0
  {
    ZeroDigits(n);
    BigEndianValue(0, n);
  }

  lemma {:induction false} ZeroDigits(n: nat)
    ensures BigEndian(0, n) == ZeroBytes(n)
  {
    if n > 0 {
      ZeroDigits(n - 1);
      assert LowByte(0) == 0;
    }
  }

  lemma WordPowers()
    ensures Power(256, 4) == 0x1_0000_0000 && Power(256, 8) == 0x1_0000_0000_0000_0000
  {
    assert Power(256, 2) == 0x1_0000;
    PowerSquared(2);
    PowerSquared(4);
  }

  lemma PowerSquared(n: nat)
    ensures Power(256, 2 * n) == Power(256, n) * Power(256, n)
  {
    PowerSum(n, n);
  }

  lemma {:induction false} PowerSum(m: nat, n: nat)
    ensures Power(256, m + n) == Power(256, m) * Power(256, n)
  {
    if m > 0 {
      PowerSum(m - 1, n);
    }
  }

  /** Increment adds one, with all its carries, and wraps around only at 256^|s|. */
  lemma IncrementValue(s: seq<byte>)
    ensures Value(Increment(s)) == (Value(s) + 1) % Power(256, |s|)
  {
    ByteValuesWeigh();
    OfValueBy(ByteValues(), s);
    BigEndianSucc(Value(s), |s|);
    BigEndianValue(Value(s) + 1, |s|);
  }
}
