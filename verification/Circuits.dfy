/**
 The straight-line circuits of backends/f3/bs.c and backends/f6/bs.c, written once for any kind of
 wire: 64-lane words in the backend, single bits in the proofs.  A map of wires that respects the
 gates respects every circuit made of them, which is what makes each lane compute on its own.
 */
module Circuits {

  /** A kind of wire, given by its three gates. */
  datatype Gates<!T> = Gates(xor: (T, T) -> T, and: (T, T) -> T, not: T -> T)

  /** The eight wires of a byte, least significant first. */
  datatype Wires<T> = Wires(w0: T, w1: T, w2: T, w3: T, w4: T, w5: T, w6: T, w7: T)

  function Map<T, S>(h: T -> S, u: Wires<T>): Wires<S> {
    Wires(h(u.w0), h(u.w1), h(u.w2), h(u.w3), h(u.w4), h(u.w5), h(u.w6), h(u.w7))
  }

  /** h respects the gates. */
  ghost predicate Hom<T(!new), S>(a: Gates<T>, b: Gates<S>, h: T -> S) {
    && (forall x, y :: h(a.xor(x, y)) == b.xor(h(x), h(y)))
    && (forall x, y :: h(a.and(x, y)) == b.and(h(x), h(y)))
    && (forall x :: h(a.not(x)) == b.not(h(x)))
  }

  type bit = bv1

  function BitGates(): Gates<bit> {
    Gates((a, b) => a ^ b, (a, b) => a & b, a => a ^ 1)
  }

  function Xor3<T>(add: (T, T) -> T, a: T, b: T, c: T): T {
    add(add(a, b), c)
  }

  function Xor4<T>(add: (T, T) -> T, a: T, b: T, c: T, d: T): T {
    add(Xor3(add, a, b, c), d)
  }

  function Xor5<T>(add: (T, T) -> T, a: T, b: T, c: T, d: T, e: T): T {
    add(Xor4(add, a, b, c, d), e)
  }

  function Xor6<T>(add: (T, T) -> T, a: T, b: T, c: T, d: T, e: T, f: T): T {
    add(Xor5(add, a, b, c, d, e), f)
  }

  // ----- bs_sbox and bs_sbox_rev

  /** bs_sbox. */
  function SboxCircuit<T>(g: Gates<T>, u: Wires<T>): Wires<T> {
    var Wires(U0, U1, U2, U3, U4, U5, U6, U7) := u;
    var T1 := g.xor(U7, U4);
    var T2 := g.xor(U7, U2);
    var T3 := g.xor(U7, U1);
    var T4 := g.xor(U4, U2);
    var T5 := g.xor(U3, U1);
    var T6 := g.xor(T1, T5);
    var T7 := g.xor(U6, U5);
    var T8 := g.xor(U0, T6);
    var T9 := g.xor(U0, T7);
    var T10 := g.xor(T6, T7);
    var T11 := g.xor(U6, U2);
    var T12 := g.xor(U5, U2);
    var T13 := g.xor(T3, T4);
    var T14 := g.xor(T6, T11);
    var T15 := g.xor(T5, T11);
    var T16 := g.xor(T5, T12);
    var T17 := g.xor(T9, T16);
    var T18 := g.xor(U4, U0);
    var T19 := g.xor(T7, T18);
    var T20 := g.xor(T1, T19);
    var T21 := g.xor(U1, U0);
    var T22 := g.xor(T7, T21);
    var T23 := g.xor(T2, T22);
    var T24 := g.xor(T2, T10);
    var T25 := g.xor(T20, T17);
    var T26 := g.xor(T3, T16);
    var T27 := g.xor(T1, T12);
    var M1 := g.and(T13, T6);
    var M2 := g.and(T23, T8);
    var M3 := g.xor(T14, M1);
    var M4 := g.and(T19, U0);
    var M5 := g.xor(M4, M1);
    var M6 := g.and(T3, T16);
    var M7 := g.and(T22, T9);
    var M8 := g.xor(T26, M6);
    var M9 := g.and(T20, T17);
    var M10 := g.xor(M9, M6);
    var M11 := g.and(T1, T15);
    var M12 := g.and(T4, T27);
    var M13 := g.xor(M12, M11);
    var M14 := g.and(T2, T10);
    var M15 := g.xor(M14, M11);
    var M16 := g.xor(M3, M2);
    var M17 := g.xor(M5, T24);
    var M18 := g.xor(M8, M7);
    var M19 := g.xor(M10, M15);
    var M20 := g.xor(M16, M13);
    var M21 := g.xor(M17, M15);
    var M22 := g.xor(M18, M13);
    var M23 := g.xor(M19, T25);
    var M24 := g.xor(M22, M23);
    var M25 := g.and(M22, M20);
    var M26 := g.xor(M21, M25);
    var M27 := g.xor(M20, M21);
    var M28 := g.xor(M23, M25);
    var M29 := g.and(M28, M27);
    var M30 := g.and(M26, M24);
    var M31 := g.and(M20, M23);
    var M32 := g.and(M27, M31);
    var M33 := g.xor(M27, M25);
    var M34 := g.and(M21, M22);
    var M35 := g.and(M24, M34);
    var M36 := g.xor(M24, M25);
    var M37 := g.xor(M21, M29);
    var M38 := g.xor(M32, M33);
    var M39 := g.xor(M23, M30);
    var M40 := g.xor(M35, M36);
    var M41 := g.xor(M38, M40);
    var M42 := g.xor(M37, M39);
    var M43 := g.xor(M37, M38);
    var M44 := g.xor(M39, M40);
    var M45 := g.xor(M42, M41);
    var M46 := g.and(M44, T6);
    var M47 := g.and(M40, T8);
    var M48 := g.and(M39, U0);
    var M49 := g.and(M43, T16);
    var M50 := g.and(M38, T9);
    var M51 := g.and(M37, T17);
    var M52 := g.and(M42, T15);
    var M53 := g.and(M45, T27);
    var M54 := g.and(M41, T10);
    var M55 := g.and(M44, T13);
    var M56 := g.and(M40, T23);
    var M57 := g.and(M39, T19);
    var M58 := g.and(M43, T3);
    var M59 := g.and(M38, T22);
    var M60 := g.and(M37, T20);
    var M61 := g.and(M42, T1);
    var M62 := g.and(M45, T4);
    var M63 := g.and(M41, T2);
    var L0 := g.xor(M61, M62);
    var L1 := g.xor(M50, M56);
    var L2 := g.xor(M46, M48);
    var L3 := g.xor(M47, M55);
    var L4 := g.xor(M54, M58);
    var L5 := g.xor(M49, M61);
    var L6 := g.xor(M62, L5);
    var L7 := g.xor(M46, L3);
    var L8 := g.xor(M51, M59);
    var L9 := g.xor(M52, M53);
    var L10 := g.xor(M53, L4);
    var L11 := g.xor(M60, L2);
    var L12 := g.xor(M48, M51);
    var L13 := g.xor(M50, L0);
    var L14 := g.xor(M52, M61);
    var L15 := g.xor(M55, L1);
    var L16 := g.xor(M56, L0);
    var L17 := g.xor(M57, L1);
    var L18 := g.xor(M58, L8);
    var L19 := g.xor(M63, L4);
    var L20 := g.xor(L0, L1);
    var L21 := g.xor(L1, L7);
    var L22 := g.xor(L3, L12);
    var L23 := g.xor(L18, L2);
    var L24 := g.xor(L15, L9);
    var L25 := g.xor(L6, L10);
    var L26 := g.xor(L7, L9);
    var L27 := g.xor(L8, L10);
    var L28 := g.xor(L11, L14);
    var L29 := g.xor(L11, L17);
    var S7 := g.xor(L6, L24);
    var S6 := g.not(g.xor(L16, L26));
    var S5 := g.not(g.xor(L19, L28));
    var S4 := g.xor(L6, L21);
    var S3 := g.xor(L20, L22);
    var S2 := g.xor(L25, L29);
    var S1 := g.not(g.xor(L13, L27));
    var S0 := g.not(g.xor(L6, L23));
    Wires(S0, S1, S2, S3, S4, S5, S6, S7)
  }

  /** bs_sbox_rev. */
  function InvSboxCircuit<T>(g: Gates<T>, u: Wires<T>): Wires<T> {
    var Wires(U0, U1, U2, U3, U4, U5, U6, U7) := u;
    var T23 := g.xor(U7, U4);
    var T22 := g.not(g.xor(U6, U4));
    var T2 := g.not(g.xor(U7, U6));
    var T1 := g.xor(U4, U3);
    var T24 := g.not(g.xor(U3, U0));
    var R5 := g.xor(U1, U0);
    var T8 := g.not(g.xor(U6, T23));
    var T19 := g.xor(T22, R5);
    var T9 := g.not(g.xor(U0, T1));
    var T10 := g.xor(T2, T24);
    var T13 := g.xor(T2, R5);
    var T3 := g.xor(T1, R5);
    var T25 := g.not(g.xor(U5, T1));
    var R13 := g.xor(U6, U1);
    var T17 := g.not(g.xor(U5, T19));
    var T20 := g.xor(T24, R13);
    var T4 := g.xor(U3, T8);
    var R17 := g.not(g.xor(U5, U2));
    var R18 := g.not(g.xor(U2, U1));
    var R19 := g.not(g.xor(U5, U3));
    var Y5 := g.xor(U7, R17);
    var T6 := g.xor(T22, R17);
    var T16 := g.xor(R13, R19);
    var T27 := g.xor(T1, R18);
    var T15 := g.xor(T10, T27);
    var T14 := g.xor(T10, R18);
    var T26 := g.xor(T3, T16);
    var M1 := g.and(T13, T6);
    var M2 := g.and(T23, T8);
    var M3 := g.xor(T14, M1);
    var M4 := g.and(T19, Y5);
    var M5 := g.xor(M4, M1);
    var M6 := g.and(T3, T16);
    var M7 := g.and(T22, T9);
    var M8 := g.xor(T26, M6);
    var M9 := g.and(T20, T17);
    var M10 := g.xor(M9, M6);
    var M11 := g.and(T1, T15);
    var M12 := g.and(T4, T27);
    var M13 := g.xor(M12, M11);
    var M14 := g.and(T2, T10);
    var M15 := g.xor(M14, M11);
    var M16 := g.xor(M3, M2);
    var M17 := g.xor(M5, T24);
    var M18 := g.xor(M8, M7);
    var M19 := g.xor(M10, M15);
    var M20 := g.xor(M16, M13);
    var M21 := g.xor(M17, M15);
    var M22 := g.xor(M18, M13);
    var M23 := g.xor(M19, T25);
    var M24 := g.xor(M22, M23);
    var M25 := g.and(M22, M20);
    var M26 := g.xor(M21, M25);
    var M27 := g.xor(M20, M21);
    var M28 := g.xor(M23, M25);
    var M29 := g.and(M28, M27);
    var M30 := g.and(M26, M24);
    var M31 := g.and(M20, M23);
    var M32 := g.and(M27, M31);
    var M33 := g.xor(M27, M25);
    var M34 := g.and(M21, M22);
    var M35 := g.and(M24, M34);
    var M36 := g.xor(M24, M25);
    var M37 := g.xor(M21, M29);
    var M38 := g.xor(M32, M33);
    var M39 := g.xor(M23, M30);
    var M40 := g.xor(M35, M36);
    var M41 := g.xor(M38, M40);
    var M42 := g.xor(M37, M39);
    var M43 := g.xor(M37, M38);
    var M44 := g.xor(M39, M40);
    var M45 := g.xor(M42, M41);
    var M46 := g.and(M44, T6);
    var M47 := g.and(M40, T8);
    var M48 := g.and(M39, Y5);
    var M49 := g.and(M43, T16);
    var M50 := g.and(M38, T9);
    var M51 := g.and(M37, T17);
    var M52 := g.and(M42, T15);
    var M53 := g.and(M45, T27);
    var M54 := g.and(M41, T10);
    var M55 := g.and(M44, T13);
    var M56 := g.and(M40, T23);
    var M57 := g.and(M39, T19);
    var M58 := g.and(M43, T3);
    var M59 := g.and(M38, T22);
    var M60 := g.and(M37, T20);
    var M61 := g.and(M42, T1);
    var M62 := g.and(M45, T4);
    var M63 := g.and(M41, T2);
    var P0 := g.xor(M52, M61);
    var P1 := g.xor(M58, M59);
    var P2 := g.xor(M54, M62);
    var P3 := g.xor(M47, M50);
    var P4 := g.xor(M48, M56);
    var P5 := g.xor(M46, M51);
    var P6 := g.xor(M49, M60);
    var P7 := g.xor(P0, P1);
    var P8 := g.xor(M50, M53);
    var P9 := g.xor(M55, M63);
    var P10 := g.xor(M57, P4);
    var P11 := g.xor(P0, P3);
    var P12 := g.xor(M46, M48);
    var P13 := g.xor(M49, M51);
    var P14 := g.xor(M49, M62);
    var P15 := g.xor(M54, M59);
    var P16 := g.xor(M57, M61);
    var P17 := g.xor(M58, P2);
    var P18 := g.xor(M63, P5);
    var P19 := g.xor(P2, P3);
    var P20 := g.xor(P4, P6);
    var P22 := g.xor(P2, P7);
    var P23 := g.xor(P7, P8);
    var P24 := g.xor(P5, P7);
    var P25 := g.xor(P6, P10);
    var P26 := g.xor(P9, P11);
    var P27 := g.xor(P10, P18);
    var P28 := g.xor(P11, P25);
    var P29 := g.xor(P15, P20);
    var W7 := g.xor(P13, P22);
    var W6 := g.xor(P26, P29);
    var W5 := g.xor(P17, P28);
    var W4 := g.xor(P12, P22);
    var W3 := g.xor(P23, P27);
    var W2 := g.xor(P19, P24);
    var W1 := g.xor(P14, P23);
    var W0 := g.xor(P9, P16);
    Wires(W0, W1, W2, W3, W4, W5, W6, W7)
  }

  lemma SboxPerWire<T(!new), S>(a: Gates<T>, b: Gates<S>, h: T -> S, u: Wires<T>)
    requires Hom(a, b, h)
    ensures Map(h, SboxCircuit(a, u)) == SboxCircuit(b, Map(h, u))
  {
  }

  lemma InvSboxPerWire<T(!new), S>(a: Gates<T>, b: Gates<S>, h: T -> S, u: Wires<T>)
    requires Hom(a, b, h)
    ensures Map(h, InvSboxCircuit(a, u)) == InvSboxCircuit(b, Map(h, u))
  {
  }

  // ----- addition and multiplication in GF(2^8), bit by bit

  function Doubled<T>(add: (T, T) -> T, a: Wires<T>): Wires<T> {
    Wires(a.w7, add(a.w0, a.w7), a.w1, add(a.w2, a.w7), add(a.w3, a.w7), a.w4, a.w5, a.w6)
  }

  function Sum<T>(add: (T, T) -> T, a: Wires<T>, b: Wires<T>): Wires<T> {
    Wires(add(a.w0, b.w0), add(a.w1, b.w1), add(a.w2, b.w2), add(a.w3, b.w3),
      add(a.w4, b.w4), add(a.w5, b.w5), add(a.w6, b.w6), add(a.w7, b.w7))
  }

  function Scaled<T>(mul: (T, T) -> T, a: Wires<T>, b: T): Wires<T> {
    Wires(mul(a.w0, b), mul(a.w1, b), mul(a.w2, b), mul(a.w3, b),
      mul(a.w4, b), mul(a.w5, b), mul(a.w6, b), mul(a.w7, b))
  }

  function Product<T>(add: (T, T) -> T, mul: (T, T) -> T, a: Wires<T>, b: Wires<T>): Wires<T> {
    var a1 := Doubled(add, a);
    var a2 := Doubled(add, a1);
    var a3 := Doubled(add, a2);
    var a4 := Doubled(add, a3);
    var a5 := Doubled(add, a4);
    var a6 := Doubled(add, a5);
    var a7 := Doubled(add, a6);
    var s1 := Sum(add, Scaled(mul, a, b.w0), Scaled(mul, a1, b.w1));
    var s2 := Sum(add, s1, Scaled(mul, a2, b.w2));
    var s3 := Sum(add, s2, Scaled(mul, a3, b.w3));
    var s4 := Sum(add, s3, Scaled(mul, a4, b.w4));
    var s5 := Sum(add, s4, Scaled(mul, a5, b.w5));
    var s6 := Sum(add, s5, Scaled(mul, a6, b.w6));
    Sum(add, s6, Scaled(mul, a7, b.w7))
  }

  /** Undoes the affine step of section 5.1.1 of FIPS 197. */
  function Unaffine<T>(g: Gates<T>, b: Wires<T>): Wires<T> {
    Wires(g.not(Xor3(g.xor, b.w2, b.w5, b.w7)), Xor3(g.xor, b.w3, b.w6, b.w0), g.not(Xor3(g.xor, b.w4, b.w7, b.w1)),
      Xor3(g.xor, b.w5, b.w0, b.w2),
      Xor3(g.xor, b.w6, b.w1, b.w3), Xor3(g.xor, b.w7, b.w2, b.w4),
      Xor3(g.xor, b.w0, b.w3, b.w5), Xor3(g.xor, b.w1, b.w4, b.w6))
  }

  lemma ProductPerWire<T(!new), S>(g: Gates<T>, g': Gates<S>, h: T -> S, a: Wires<T>, b: Wires<T>)
    requires Hom(g, g', h)
    ensures Map(h, Product(g.xor, g.and, a, b)) == Product(g'.xor, g'.and, Map(h, a), Map(h, b))
  {
  }

  lemma UnaffinePerWire<T(!new), S>(g: Gates<T>, g': Gates<S>, h: T -> S, b: Wires<T>)
    requires Hom(g, g', h)
    ensures Map(h, Unaffine(g, b)) == Unaffine(g', Map(h, b))
  {
  }
}
