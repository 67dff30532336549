/**
 The bitsliced backends: backends/f3/bs.c with backends/f3/aes.c for AES-128, and backends/f6/bs.c
 with backends/f6/aes.c, which differ in the number of rounds and the length of the key.
 */
module Bitslice {
  import opened Circuits
  import opened Words
  import opened Planes
  import opened Transposes

  // ----- the steps, in place

  /** bs_addroundkey. */
  method AddRoundKey(B: array<Lanes>, rk: seq<Lanes>)
    requires B.Length == 128 && IsState(rk)
    modifies B
    ensures Added(old(B[..]), rk, B[..])
  {
    var i := 0;
    while i < 128
      invariant 0 <= i <= 128
      invariant forall p :: 0 <= p < 128 ==> B[p] == if p < i then Xor(old(B[p]), rk[p]) else old(B[p])
    {
      B[i] := Xor(B[i], rk[i]);
      i := i + 1;
    }
  }

  /** Stores the planes of byte m. */
  method PutOctet(B: array<Lanes>, m: nat, u: Octet)
    requires B.Length == 128 && m < 16
    modifies B
    ensures forall n: nat :: n < 16 ==> OctetAt(B[..], n) == if n == m then u else old(OctetAt(B[..], n))
  {
    B[8 * m + 0] := u.w0;
    B[8 * m + 1] := u.w1;
    B[8 * m + 2] := u.w2;
    B[8 * m + 3] := u.w3;
    B[8 * m + 4] := u.w4;
    B[8 * m + 5] := u.w5;
    B[8 * m + 6] := u.w6;
    B[8 * m + 7] := u.w7;
  }

  /** The loop of bs_apply_sbox and bs_apply_sbox_rev. */
  method ApplyToBytes(B: array<Lanes>, circuit: Octet -> Octet)
    requires B.Length == 128
    modifies B
    ensures Applied(circuit, old(B[..]), B[..])
  {
    ghost var s := B[..];
    var i := 0;
    ghost var m := 0;
    while i < 128
      invariant 0 <= m <= 16 && i == 8 * m
      invariant forall n: nat :: n < 16 ==> OctetAt(B[..], n) == if n < m then circuit(OctetAt(s, n)) else OctetAt(s, n)
    {
      var u := Wires(B[i], B[i + 1], B[i + 2], B[i + 3], B[i + 4], B[i + 5], B[i + 6], B[i + 7]);
      assert u == OctetAt(B[..], m);
      PutOctet(B, i / 8, circuit(u));
      i := i + 8;
      m := m + 1;
    }
  }

  /** bs_apply_sbox. */
  method ApplySbox(B: array<Lanes>)
    requires B.Length == 128
    modifies B
    ensures Substituted(old(B[..]), B[..])
  {
    ApplyToBytes(B, Sbox());
  }

  /** bs_apply_sbox_rev. */
  method ApplySboxRev(B: array<Lanes>)
    requires B.Length == 128
    modifies B
    ensures InvSubstituted(old(B[..]), B[..])
  {
    ApplyToBytes(B, InvSbox());
  }

  // ----- bs_shiftrows and bs_shiftrows_rev: four offsets that go on by a column and a row

  /** The offsets in iteration i. */
  predicate Offsets(o0: nat, o1: nat, o2: nat, o3: nat, i: nat) {
    o0 == 40 * i % 128 && o1 == (32 + 40 * i) % 128 && o2 == (64 + 40 * i) % 128 && o3 == (96 + 40 * i) % 128
  }

  /** Offsets wrap around after 128 words, columns after 4. */
  lemma Wraps(n: nat, i: nat)
    requires i < 4
    ensures (32 * n + 8 * i) % 128 == 32 * (n % 4) + 8 * i
  {
    var q, r := n / 4, n % 4;
    assert n == 4 * q + r;
    Remainder(32 * n + 8 * i, q, 32 * r + 8 * i);
  }

  lemma Remainder(a: nat, q: nat, r: nat)
    requires a == 128 * q + r && r < 128
    ensures a % 128 == r
  {
  }

  lemma OffsetFrom(o: nat, c: nat, i: nat)
    requires c < 4 && i < 4 && o == (32 * c + 40 * i) % 128
    ensures o == 8 * From(4 * c + i)
  {
    Wraps(c + i, i);
    FromParts(c, i);
  }

  lemma OffsetsFrom(o0: nat, o1: nat, o2: nat, o3: nat, i: nat)
    requires Offsets(o0, o1, o2, o3, i) && i < 4
    ensures o0 == 8 * From(i) && o1 == 8 * From(i + 4) && o2 == 8 * From(i + 8) && o3 == 8 * From(i + 12)
  {
    OffsetFrom(o0, 0, i);
    OffsetFrom(o1, 1, i);
    OffsetFrom(o2, 2, i);
    OffsetFrom(o3, 3, i);
  }

  lemma OffsetsStep(o0: nat, o1: nat, o2: nat, o3: nat, i: nat)
    requires Offsets(o0, o1, o2, o3, i)
    ensures Offsets((o0 + 8 + 32) % 128, (o1 + 8 + 32) % 128, (o2 + 8 + 32) % 128, (o3 + 8 + 32) % 128, i + 1)
  {
    ModStep(40 * i, 40);
    ModStep(32 + 40 * i, 40);
    ModStep(64 + 40 * i, 40);
    ModStep(96 + 40 * i, 40);
  }

  lemma ModStep(a: nat, d: nat)
    ensures (a % 128 + d) % 128 == (a + d) % 128
  {
    var q, r := a / 128, a % 128;
    var q', r' := (r + d) / 128, (r + d) % 128;
    assert a + d == 128 * (q + q') + r';
  }

  /** Row i, from the four offsets. */
  method CopyRow(Bp: array<Lanes>, i: nat, B: array<Lanes>, o0: nat, o1: nat, o2: nat, o3: nat, ghost from: nat -> nat)
    requires Bp.Length == 128 && B.Length == 128 && Bp != B && i < 4 && forall m :: from(m) < 16
    requires o0 == 8 * from(i) && o1 == 8 * from(i + 4) && o2 == 8 * from(i + 8) && o3 == 8 * from(i + 12)
    modifies Bp
    ensures forall m: nat :: m < 16 ==>
      OctetAt(Bp[..], m) == if m % 4 == i then OctetAt(B[..], from(m)) else old(OctetAt(Bp[..], m))
  {
    CopyOctet(Bp, i, B, o0, from(i));
    CopyOctet(Bp, i + 4, B, o1, from(i + 4));
    CopyOctet(Bp, i + 8, B, o2, from(i + 8));
    CopyOctet(Bp, i + 12, B, o3, from(i + 12));
    RowMembers(i);
  }

  lemma RowMembers(i: nat)
    requires i < 4
    ensures forall m: nat :: m < 16 ==> (m % 4 == i <==> m == i || m == i + 4 || m == i + 8 || m == i + 12)
  {
  }

  method ShiftRows(B: array<Lanes>)
    requires B.Length == 128
    modifies B
    ensures Shifted(old(B[..]), B[..])
  {
    var Bp := new Lanes[128](_ => Zero());
    ShiftRowsTo(Bp, B);
    ghost var t := Bp[..];
    Move(B, Bp);
    assert B[..] == t;
  }

  method ShiftRowsTo(Bp: array<Lanes>, B: array<Lanes>)
    requires Bp.Length == 128 && B.Length == 128 && Bp != B
    modifies Bp
    ensures Shifted(B[..], Bp[..])
  {
    var offsetr0: nat, offsetr1: nat, offsetr2: nat, offsetr3: nat := 0, 32, 64, 96;
    var i := 0;
    while i < 4
      invariant 0 <= i <= 4 && Offsets(offsetr0, offsetr1, offsetr2, offsetr3, i)
      invariant forall m: nat :: m < 16 && m % 4 < i ==> OctetAt(Bp[..], m) == OctetAt(B[..], From(m))
    {
      OffsetsFrom(offsetr0, offsetr1, offsetr2, offsetr3, i);
      OffsetsStep(offsetr0, offsetr1, offsetr2, offsetr3, i);
      CopyRow(Bp, i, B, offsetr0, offsetr1, offsetr2, offsetr3, From);
      offsetr0 := (offsetr0 + 8 + 32) % 128;
      offsetr1 := (offsetr1 + 8 + 32) % 128;
      offsetr2 := (offsetr2 + 8 + 32) % 128;
      offsetr3 := (offsetr3 + 8 + 32) % 128;
      i := i + 1;
    }
  }

  /** Copies eight words, from byte n of src, at its offset, to byte m of dst. */
  method CopyOctet(dst: array<Lanes>, m: nat, src: array<Lanes>, offset: nat, ghost n: nat)
    requires dst.Length == 128 && src.Length == 128 && dst != src && m < 16 && offset == 8 * n && n < 16
    modifies dst
    ensures forall k: nat :: k < 16 ==>
      OctetAt(dst[..], k) == if k == m then OctetAt(src[..], n) else old(OctetAt(dst[..], k))
  {
    var u := LoadOctet(src, offset, n);
    PutOctet(dst, m, u);
  }

  /** The planes at the offset of byte n. */
  method LoadOctet(B: array<Lanes>, offset: nat, ghost n: nat) returns (u: Octet)
    requires B.Length == 128 && offset == 8 * n && n < 16
    ensures u == OctetAt(B[..], n)
  {
    u := Wires(B[offset + 0], B[offset + 1], B[offset + 2], B[offset + 3],
      B[offset + 4], B[offset + 5], B[offset + 6], B[offset + 7]);
  }

  method ShiftRowsRev(B: array<Lanes>)
    requires B.Length == 128
    modifies B
    ensures InvShifted(old(B[..]), B[..])
  {
    var Bp := new Lanes[128](_ => Zero());
    ShiftRowsRevTo(Bp, B);
    ghost var t := Bp[..];
    Move(B, Bp);
    assert B[..] == t;
  }

  method ShiftRowsRevTo(Bp: array<Lanes>, B: array<Lanes>)
    requires Bp.Length == 128 && B.Length == 128 && Bp != B
    modifies Bp
    ensures InvShifted(B[..], Bp[..])
  {
    var offsetr0: nat, offsetr1: nat, offsetr2: nat, offsetr3: nat := 0, 32, 64, 96;
    var i := 0;
    while i < 4
      invariant 0 <= i <= 4 && Offsets(offsetr0, offsetr1, offsetr2, offsetr3, i)
      invariant forall m: nat :: m < 16 && m % 4 < i ==> OctetAt(Bp[..], From(m)) == OctetAt(B[..], m)
    {
      OffsetsFrom(offsetr0, offsetr1, offsetr2, offsetr3, i);
      OffsetsStep(offsetr0, offsetr1, offsetr2, offsetr3, i);
      FromThenTo();
      SpreadRow(Bp, i, B, offsetr0, offsetr1, offsetr2, offsetr3, From, To);
      offsetr0 := (offsetr0 + 8 + 32) % 128;
      offsetr1 := (offsetr1 + 8 + 32) % 128;
      offsetr2 := (offsetr2 + 8 + 32) % 128;
      offsetr3 := (offsetr3 + 8 + 32) % 128;
      i := i + 1;
    }
    MovesBack(B[..], Bp[..]);
  }

  /** Row i, to the four offsets. */
  method SpreadRow(Bp: array<Lanes>, i: nat, B: array<Lanes>, o0: nat, o1: nat, o2: nat, o3: nat,
      ghost to: nat -> nat, ghost back: nat -> nat)
    requires Bp.Length == 128 && B.Length == 128 && Bp != B && i < 4 && forall m :: to(m) < 16
    requires forall m: nat :: m < 16 ==> back(to(m)) == m
    requires o0 == 8 * to(i) && o1 == 8 * to(i + 4) && o2 == 8 * to(i + 8) && o3 == 8 * to(i + 12)
    modifies Bp
    ensures forall m: nat :: m < 16 ==>
      OctetAt(Bp[..], to(m)) == if m % 4 == i then OctetAt(B[..], m) else old(OctetAt(Bp[..], to(m)))
  {
    SpreadPair(Bp, i, o0, i + 4, o1, B, to, back);
    SpreadPair(Bp, i + 8, o2, i + 12, o3, B, to, back);
    RowMembers(i);
  }

  /** Bytes p and q, to their offsets. */
  method SpreadPair(Bp: array<Lanes>, p: nat, op: nat, q: nat, oq: nat, B: array<Lanes>, ghost to: nat -> nat,
      ghost back: nat -> nat)
    requires Bp.Length == 128 && B.Length == 128 && Bp != B && p < 16 && q < 16 && forall m :: to(m) < 16
    requires forall m: nat :: m < 16 ==> back(to(m)) == m
    requires op == 8 * to(p) && oq == 8 * to(q)
    modifies Bp
    ensures forall m: nat :: m < 16 ==>
      OctetAt(Bp[..], to(m)) == if m == p || m == q then OctetAt(B[..], m) else old(OctetAt(Bp[..], to(m)))
  {
    CopyOctet(Bp, op / 8, B, 8 * p, p);
    CopyOctet(Bp, oq / 8, B, 8 * q, q);
  }

  lemma FromThenTo()
    ensures forall m: nat :: m < 16 ==> To(From(m)) == m
  {
    forall m: nat | m < 16
      ensures To(From(m)) == m
    {
      FromTo(m);
    }
  }

  // ----- bs_mixcolumns and bs_mixcolumns_rev

  /** The four output bytes of column c. */
  method StoreQuad(Bp: array<Lanes>, c: nat, q: Quad)
    requires Bp.Length == 128 && c < 4
    modifies Bp
    ensures ColumnAt(Bp[..], c) == q
    ensures forall d: nat :: d < 4 && d != c ==> ColumnAt(Bp[..], d) == old(ColumnAt(Bp[..], d))
  {
    PutOctet(Bp, 4 * c, q.u0);
    PutOctet(Bp, 4 * c + 1, q.u1);
    PutOctet(Bp, 4 * c + 2, q.u2);
    PutOctet(Bp, 4 * c + 3, q.u3);
  }

  method MixTo(Bp: array<Lanes>, B: array<Lanes>, rows: Quad -> Quad)
    requires Bp.Length == 128 && B.Length == 128 && Bp != B
    modifies Bp
    ensures MixedBy(rows, B[..], Bp[..])
  {
    var i := 0;
    while i < 4
      invariant 0 <= i <= 4
      invariant forall c: nat :: c < i ==> ColumnAt(Bp[..], c) == rows(ColumnAt(B[..], c))
    {
      var q := LoadQuad(B, i);
      StoreQuad(Bp, i, rows(q));
      i := i + 1;
    }
  }

  method LoadQuad(B: array<Lanes>, c: nat) returns (q: Quad)
    requires B.Length == 128 && c < 4
    ensures q == ColumnAt(B[..], c)
  {
    var a0 := LoadOctet(B, 32 * c, 4 * c);
    var a1 := LoadOctet(B, 32 * c + 8, 4 * c + 1);
    var a2 := LoadOctet(B, 32 * c + 16, 4 * c + 2);
    var a3 := LoadOctet(B, 32 * c + 24, 4 * c + 3);
    q := Quad(a0, a1, a2, a3);
  }

  method MixColumns(B: array<Lanes>)
    requires B.Length == 128
    modifies B
    ensures Mixed(old(B[..]), B[..])
  {
    var Bp := new Lanes[128](_ => Zero());
    MixTo(Bp, B, MixRows());
    ghost var t := Bp[..];
    Move(B, Bp);
    assert B[..] == t;
  }

  method MixColumnsRev(B: array<Lanes>)
    requires B.Length == 128
    modifies B
    ensures InvMixed(old(B[..]), B[..])
  {
    var Bp := new Lanes[128](_ => Zero());
    MixTo(Bp, B, InvMixRows());
    ghost var t := Bp[..];
    Move(B, Bp);
    assert B[..] == t;
  }

  // ----- bs_shiftmix: the four offsets go on by a column, and row r adds 8r

  /** The offsets in iteration i. */
  predicate MixOffsets(o0: nat, o1: nat, o2: nat, o3: nat, i: nat) {
    o0 == 32 * i % 128 && o1 == (32 + 32 * i) % 128 && o2 == (64 + 32 * i) % 128 && o3 == (96 + 32 * i) % 128
  }

  lemma MixOffsetsFrom(o0: nat, o1: nat, o2: nat, o3: nat, i: nat)
    requires MixOffsets(o0, o1, o2, o3, i) && i < 4
    ensures o0 == 8 * From(4 * i) && o1 + 8 == 8 * From(4 * i + 1) && o2 + 16 == 8 * From(4 * i + 2)
    ensures o3 + 24 == 8 * From(4 * i + 3)
  {
    Wraps(i, 0);
    Wraps(1 + i, 0);
    Wraps(2 + i, 0);
    Wraps(3 + i, 0);
    FromParts(i, 0);
    FromParts(i, 1);
    FromParts(i, 2);
    FromParts(i, 3);
  }

  lemma MixOffsetsStep(o0: nat, o1: nat, o2: nat, o3: nat, i: nat)
    requires MixOffsets(o0, o1, o2, o3, i)
    ensures MixOffsets((o0 + 32) % 128, (o1 + 32) % 128, (o2 + 32) % 128, (o3 + 32) % 128, i + 1)
  {
    ModStep(32 * i, 32);
    ModStep(32 + 32 * i, 32);
    ModStep(64 + 32 * i, 32);
    ModStep(96 + 32 * i, 32);
  }

  method ShiftMix(B: array<Lanes>)
    requires B.Length == 128
    modifies B
    ensures ShiftMixed(old(B[..]), B[..])
  {
    var Bp := new Lanes[128](_ => Zero());
    ShiftMixTo(Bp, B, MixRows());
    ghost var t := Bp[..];
    Move(B, Bp);
    assert B[..] == t;
  }

  method ShiftMixTo(Bp: array<Lanes>, B: array<Lanes>, rows: Quad -> Quad)
    requires Bp.Length == 128 && B.Length == 128 && Bp != B
    modifies Bp
    ensures ShiftMixedBy(rows, B[..], Bp[..])
  {
    var offsetr0: nat, offsetr1: nat, offsetr2: nat, offsetr3: nat := 0, 32, 64, 96;
    var i := 0;
    while i < 4
      invariant 0 <= i <= 4 && MixOffsets(offsetr0, offsetr1, offsetr2, offsetr3, i)
      invariant forall c: nat :: c < i ==> ColumnAt(Bp[..], c) == rows(ShiftedColumn(B[..], c))
    {
      MixOffsetsFrom(offsetr0, offsetr1, offsetr2, offsetr3, i);
      MixOffsetsStep(offsetr0, offsetr1, offsetr2, offsetr3, i);
      var q := LoadShifted(B, i, offsetr0, offsetr1, offsetr2, offsetr3);
      StoreQuad(Bp, i, rows(q));
      offsetr0 := (offsetr0 + 32) % 128;
      offsetr1 := (offsetr1 + 32) % 128;
      offsetr2 := (offsetr2 + 32) % 128;
      offsetr3 := (offsetr3 + 32) % 128;
      i := i + 1;
    }
  }

  method LoadShifted(B: array<Lanes>, ghost c: nat, o0: nat, o1: nat, o2: nat, o3: nat) returns (q: Quad)
    requires B.Length == 128 && c < 4
    requires o0 == 8 * From(4 * c) && o1 + 8 == 8 * From(4 * c + 1) && o2 + 16 == 8 * From(4 * c + 2)
    requires o3 + 24 == 8 * From(4 * c + 3)
    ensures q == ShiftedColumn(B[..], c)
  {
    q := LoadFour(B, o0, o1, o2, o3, From(4 * c), From(4 * c + 1), From(4 * c + 2), From(4 * c + 3));
  }

  method LoadFour(B: array<Lanes>, o0: nat, o1: nat, o2: nat, o3: nat, ghost n0: nat, ghost n1: nat, ghost n2: nat,
      ghost n3: nat)
    returns (q: Quad)
    requires B.Length == 128 && n0 < 16 && n1 < 16 && n2 < 16 && n3 < 16
    requires o0 == 8 * n0 && o1 + 8 == 8 * n1 && o2 + 16 == 8 * n2 && o3 + 24 == 8 * n3
    ensures q == Quad(OctetAt(B[..], n0), OctetAt(B[..], n1), OctetAt(B[..], n2), OctetAt(B[..], n3))
  {
    var a0 := LoadOctet(B, o0, n0);
    var a1 := LoadOctet(B, o1 + 8, n1);
    var a2 := LoadOctet(B, o2 + 16, n2);
    var a3 := LoadOctet(B, o3 + 24, n3);
    q := Quad(a0, a1, a2, a3);
  }
}
