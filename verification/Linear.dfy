/**
 The linear circuits of backends/f3/bs.c and backends/f6/bs.c, again for any kind of wire.  They
 are checked once on wires that stand for the 32 input bits of a column: since every map from such
 wires to bits that respects addition respects the circuits, what holds there holds on all inputs.
 */
module Linear {
  import opened Bytes
  import opened Circuits
  import opened Fips197
  import opened SBoxes
  import opened Vectors

  // ----- the four output bytes of a column of bs_mixcolumns, and likewise of bs_shiftmix

  function MixRow0<T>(add: (T, T) -> T, a0: Wires<T>, a1: Wires<T>, a2: Wires<T>, a3: Wires<T>): Wires<T> {
    var of := add(a0.w7, a1.w7);
    Wires(Xor4(add, a1.w0, a2.w0, a3.w0, of),
      Xor6(add, a0.w0, a1.w0, a1.w1, a2.w1, a3.w1, of),
      Xor5(add, a0.w1, a1.w1, a1.w2, a2.w2, a3.w2),
      Xor6(add, a0.w2, a1.w2, a1.w3, a2.w3, a3.w3, of),
      Xor6(add, a0.w3, a1.w3, a1.w4, a2.w4, a3.w4, of),
      Xor5(add, a0.w4, a1.w4, a1.w5, a2.w5, a3.w5),
      Xor5(add, a0.w5, a1.w5, a1.w6, a2.w6, a3.w6),
      Xor5(add, a0.w6, a1.w6, a1.w7, a2.w7, a3.w7))
  }

  function MixRow1<T>(add: (T, T) -> T, a0: Wires<T>, a1: Wires<T>, a2: Wires<T>, a3: Wires<T>): Wires<T> {
    var of := add(a1.w7, a2.w7);
    Wires(Xor4(add, a0.w0, a2.w0, a3.w0, of),
      Xor6(add, a0.w1, a1.w0, a2.w0, a2.w1, a3.w1, of),
      Xor5(add, a0.w2, a1.w1, a2.w1, a2.w2, a3.w2),
      Xor6(add, a0.w3, a1.w2, a2.w2, a2.w3, a3.w3, of),
      Xor6(add, a0.w4, a1.w3, a2.w3, a2.w4, a3.w4, of),
      Xor5(add, a0.w5, a1.w4, a2.w4, a2.w5, a3.w5),
      Xor5(add, a0.w6, a1.w5, a2.w5, a2.w6, a3.w6),
      Xor5(add, a0.w7, a1.w6, a2.w6, a2.w7, a3.w7))
  }

  function MixRow2<T>(add: (T, T) -> T, a0: Wires<T>, a1: Wires<T>, a2: Wires<T>, a3: Wires<T>): Wires<T> {
    var of := add(a2.w7, a3.w7);
    Wires(Xor4(add, a0.w0, a1.w0, a3.w0, of),
      Xor6(add, a0.w1, a1.w1, a2.w0, a3.w0, a3.w1, of),
      Xor5(add, a0.w2, a1.w2, a2.w1, a3.w1, a3.w2),
      Xor6(add, a0.w3, a1.w3, a2.w2, a3.w2, a3.w3, of),
      Xor6(add, a0.w4, a1.w4, a2.w3, a3.w3, a3.w4, of),
      Xor5(add, a0.w5, a1.w5, a2.w4, a3.w4, a3.w5),
      Xor5(add, a0.w6, a1.w6, a2.w5, a3.w5, a3.w6),
      Xor5(add, a0.w7, a1.w7, a2.w6, a3.w6, a3.w7))
  }

  function MixRow3<T>(add: (T, T) -> T, a0: Wires<T>, a1: Wires<T>, a2: Wires<T>, a3: Wires<T>): Wires<T> {
    var of := add(a0.w7, a3.w7);
    Wires(Xor4(add, a0.w0, a1.w0, a2.w0, of),
      Xor6(add, a0.w1, a0.w0, a1.w1, a2.w1, a3.w0, of),
      Xor5(add, a0.w2, a0.w1, a1.w2, a2.w2, a3.w1),
      Xor6(add, a0.w3, a0.w2, a1.w3, a2.w3, a3.w2, of),
      Xor6(add, a0.w4, a0.w3, a1.w4, a2.w4, a3.w3, of),
      Xor5(add, a0.w5, a0.w4, a1.w5, a2.w5, a3.w4),
      Xor5(add, a0.w6, a0.w5, a1.w6, a2.w6, a3.w5),
      Xor5(add, a0.w7, a0.w6, a1.w7, a2.w7, a3.w6))
  }

  // ----- bs_mixcolumns_rev

  function InvMixRow0<T>(add: (T, T) -> T, a0: Wires<T>, a1: Wires<T>, a2: Wires<T>, a3: Wires<T>): Wires<T> {
    var of0 := Xor4(add, Xor3(add, a0.w7, a0.w6, a0.w5), add(a1.w7, a1.w5), add(a2.w6, a2.w5), a3.w5);
    var of1 := Xor4(add, add(a0.w7, a0.w6), a1.w6, add(a2.w7, a2.w6), a3.w6);
    var of2 := Xor4(add, a0.w7, a1.w7, a2.w7, a3.w7);
    Wires(Xor4(add, a1.w0, a2.w0, a3.w0, of0),
      Xor5(add, a0.w0, add(a1.w0, a1.w1), a2.w1, a3.w1, add(of0, of1)),
      Xor5(add, add(a0.w1, a0.w0), add(a1.w1, a1.w2), add(a2.w2, a2.w0), a3.w2, add(of1, of2)),
      Xor5(add, Xor3(add, a0.w2, a0.w1, a0.w0), Xor3(add, a1.w0, a1.w2, a1.w3), Xor3(add, a2.w3, a2.w1, a2.w0),
        add(a3.w3, a3.w0), add(of0, of2)),
      Xor5(add, Xor3(add, a0.w3, a0.w2, a0.w1), Xor3(add, a1.w1, a1.w3, a1.w4), Xor3(add, a2.w4, a2.w2, a2.w1),
        add(a3.w4, a3.w1), add(of0, of1)),
      Xor5(add, Xor3(add, a0.w4, a0.w3, a0.w2), Xor3(add, a1.w2, a1.w4, a1.w5), Xor3(add, a2.w5, a2.w3, a2.w2),
        add(a3.w5, a3.w2), add(of1, of2)),
      Xor5(add, Xor3(add, a0.w5, a0.w4, a0.w3), Xor3(add, a1.w3, a1.w5, a1.w6), Xor3(add, a2.w6, a2.w4, a2.w3),
        add(a3.w6, a3.w3), of2),
      Xor4(add, Xor3(add, a0.w6, a0.w5, a0.w4), Xor3(add, a1.w4, a1.w6, a1.w7), Xor3(add, a2.w7, a2.w5, a2.w4),
        add(a3.w7, a3.w4)))
  }

  function InvMixRow1<T>(add: (T, T) -> T, a0: Wires<T>, a1: Wires<T>, a2: Wires<T>, a3: Wires<T>): Wires<T> {
    var of0 := Xor4(add, a0.w5, Xor3(add, a1.w7, a1.w6, a1.w5), add(a2.w7, a2.w5), add(a3.w6, a3.w5));
    var of1 := Xor4(add, a0.w6, add(a1.w7, a1.w6), a2.w6, add(a3.w7, a3.w6));
    var of2 := Xor4(add, a0.w7, a1.w7, a2.w7, a3.w7);
    Wires(Xor4(add, a0.w0, a2.w0, a3.w0, of0),
      Xor5(add, a0.w1, a1.w0, add(a2.w1, a2.w0), a3.w1, add(of0, of1)),
      Xor5(add, a0.w2, add(a1.w1, a1.w0), add(a2.w2, a2.w1), add(a3.w2, a3.w0), add(of1, of2)),
      Xor5(add, add(a0.w3, a0.w0), Xor3(add, a1.w2, a1.w1, a1.w0), Xor3(add, a2.w3, a2.w2, a2.w0),
        Xor3(add, a3.w3, a3.w1, a3.w0), add(of0, of2)),
      Xor5(add, add(a0.w4, a0.w1), Xor3(add, a1.w3, a1.w2, a1.w1), Xor3(add, a2.w4, a2.w3, a2.w1),
        Xor3(add, a3.w4, a3.w2, a3.w1), add(of0, of1)),
      Xor5(add, add(a0.w5, a0.w2), Xor3(add, a1.w4, a1.w3, a1.w2), Xor3(add, a2.w5, a2.w4, a2.w2),
        Xor3(add, a3.w5, a3.w3, a3.w2), add(of1, of2)),
      Xor5(add, add(a0.w6, a0.w3), Xor3(add, a1.w5, a1.w4, a1.w3), Xor3(add, a2.w6, a2.w5, a2.w3),
        Xor3(add, a3.w6, a3.w4, a3.w3), of2),
      Xor4(add, add(a0.w7, a0.w4), Xor3(add, a1.w6, a1.w5, a1.w4), Xor3(add, a2.w7, a2.w6, a2.w4),
        Xor3(add, a3.w7, a3.w5, a3.w4)))
  }

  /** The third and the fourth row are the second with its operands moved round. */
  function InvMixRow2<T>(add: (T, T) -> T, a0: Wires<T>, a1: Wires<T>, a2: Wires<T>, a3: Wires<T>): Wires<T> {
    InvMixRow1(add, a1, a2, a3, a0)
  }

  function InvMixRow3<T>(add: (T, T) -> T, a0: Wires<T>, a1: Wires<T>, a2: Wires<T>, a3: Wires<T>): Wires<T> {
    InvMixRow1(add, a2, a3, a0, a1)
  }

  // ----- sections 5.1.3 and 5.3.3 of FIPS 197 on bits

  function MixSpec<T>(add: (T, T) -> T, a0: Wires<T>, a1: Wires<T>, a2: Wires<T>, a3: Wires<T>): Wires<T> {
    Sum(add, Sum(add, Sum(add, Doubled(add, a0), Sum(add, Doubled(add, a1), a1)), a2), a3)
  }

  function By9<T>(add: (T, T) -> T, a: Wires<T>): Wires<T> {
    Sum(add, Doubled(add, Doubled(add, Doubled(add, a))), a)
  }

  function By11<T>(add: (T, T) -> T, a: Wires<T>): Wires<T> {
    var two := Doubled(add, a);
    Sum(add, Sum(add, Doubled(add, Doubled(add, two)), two), a)
  }

  function By13<T>(add: (T, T) -> T, a: Wires<T>): Wires<T> {
    var four := Doubled(add, Doubled(add, a));
    Sum(add, Sum(add, Doubled(add, four), four), a)
  }

  function By14<T>(add: (T, T) -> T, a: Wires<T>): Wires<T> {
    var two := Doubled(add, a);
    var four := Doubled(add, two);
    Sum(add, Sum(add, Doubled(add, four), four), two)
  }

  /** {0e} a0 + {0b} a1 + {0d} a2 + {09} a3. */
  function InvMixSpec<T>(add: (T, T) -> T, a0: Wires<T>, a1: Wires<T>, a2: Wires<T>, a3: Wires<T>): Wires<T> {
    Sum(add, Sum(add, Sum(add, By14(add, a0), By11(add, a1)), By13(add, a2)), By9(add, a3))
  }

  // ----- maps that respect addition

  ghost predicate Additive<T(!new), S>(add: (T, T) -> T, add': (S, S) -> S, h: T -> S) {
    forall x, y :: h(add(x, y)) == add'(h(x), h(y))
  }

  lemma MixRowsPerWire<T(!new), S>(add: (T, T) -> T, add': (S, S) -> S, h: T -> S, a0: Wires<T>, a1: Wires<T>,
      a2: Wires<T>, a3: Wires<T>)
    requires Additive(add, add', h)
    ensures Map(h, MixRow0(add, a0, a1, a2, a3)) == MixRow0(add', Map(h, a0), Map(h, a1), Map(h, a2), Map(h, a3))
    ensures Map(h, MixRow1(add, a0, a1, a2, a3)) == MixRow1(add', Map(h, a0), Map(h, a1), Map(h, a2), Map(h, a3))
    ensures Map(h, MixRow2(add, a0, a1, a2, a3)) == MixRow2(add', Map(h, a0), Map(h, a1), Map(h, a2), Map(h, a3))
    ensures Map(h, MixRow3(add, a0, a1, a2, a3)) == MixRow3(add', Map(h, a0), Map(h, a1), Map(h, a2), Map(h, a3))
  {
  }

  lemma InvMixRowsPerWire<T(!new), S>(add: (T, T) -> T, add': (S, S) -> S, h: T -> S, a0: Wires<T>, a1: Wires<T>,
      a2: Wires<T>, a3: Wires<T>)
    requires Additive(add, add', h)
    ensures Map(h, InvMixRow0(add, a0, a1, a2, a3)) == InvMixRow0(add', Map(h, a0), Map(h, a1), Map(h, a2), Map(h, a3))
    ensures Map(h, InvMixRow1(add, a0, a1, a2, a3)) == InvMixRow1(add', Map(h, a0), Map(h, a1), Map(h, a2), Map(h, a3))
  {
  }

  lemma MixSpecPerWire<T(!new), S>(add: (T, T) -> T, add': (S, S) -> S, h: T -> S, a0: Wires<T>, a1: Wires<T>,
      a2: Wires<T>, a3: Wires<T>)
    requires Additive(add, add', h)
    ensures Map(h, MixSpec(add, a0, a1, a2, a3)) == MixSpec(add', Map(h, a0), Map(h, a1), Map(h, a2), Map(h, a3))
  {
  }

  lemma InvMixSpecPerWire<T(!new), S>(add: (T, T) -> T, add': (S, S) -> S, h: T -> S, a0: Wires<T>, a1: Wires<T>,
      a2: Wires<T>, a3: Wires<T>)
    requires Additive(add, add', h)
    ensures Map(h, InvMixSpec(add, a0, a1, a2, a3)) == InvMixSpec(add', Map(h, a0), Map(h, a1), Map(h, a2), Map(h, a3))
  {
  }

  // ----- wires that stand for sums of input bits

  function AddBit(a: bit, b: bit): bit {
    a ^ b
  }

  /** The value of v when the input bits are x: low and half take the first bit off v. */
  function Value<V, S>(zero: S, step: (S, S, S) -> S, low: V -> S, half: V -> V, v: V, x: seq<S>): S
    decreases |x|
  {
    if x == [] then zero else step(x[0], low(v), Value(zero, step, low, half, half(v), x[1..]))
  }

  ghost predicate StepAdditive<S(!new)>(plus: (S, S) -> S, zero: S, step: (S, S, S) -> S) {
    && plus(zero, zero) == zero
    && forall x, a, b, p, q :: step(x, plus(a, b), plus(p, q)) == plus(step(x, a, p), step(x, b, q))
  }

  lemma {:induction false} ValueAdd<V(!new), S(!new)>(add: (V, V) -> V, plus: (S, S) -> S,
      zero: S, step: (S, S, S) -> S, low: V -> S, half: V -> V, a: V, b: V, x: seq<S>)
    requires Additive(add, plus, low) && Additive(add, add, half) && StepAdditive(plus, zero, step)
    ensures Value(zero, step, low, half, add(a, b), x)
      == plus(Value(zero, step, low, half, a, x), Value(zero, step, low, half, b, x))
    decreases |x|
  {
    if x != [] {
      ValueAdd(add, plus, zero, step, low, half, half(a), half(b), x[1..]);
    }
  }

  function Step(x: bit, low: bit, rest: bit): bit {
    (x & low) ^ rest
  }

  lemma StepAdd(x: bit, a: bit, b: bit, p: bit, q: bit)
    ensures Step(x, AddBit(a, b), AddBit(p, q)) == AddBit(Step(x, a, p), Step(x, b, q))
  {
  }

  lemma BitsAdditive()
    ensures StepAdditive(AddBit, 0, Step)
  {
    forall x, a, b, p, q
      ensures Step(x, AddBit(a, b), AddBit(p, q)) == AddBit(Step(x, a, p), Step(x, b, q))
    {
      StepAdd(x, a, b, p, q);
    }
  }


  lemma {:induction false} ValueZero(x: seq<bit>)
    ensures Value(0, Step, Low, Half, Vec(0), x) == 0
    decreases |x|
  {
    if x != [] {
      ValueZero(x[1..]);
    }
  }

  lemma {:induction false} ValueUnit(j: nat, x: seq<bit>)
    requires j < |x| && j < 32
    ensures Value(0, Step, Low, Half, Unit(j), x) == x[j]
    decreases j
  {
    UnitHalf(j);
    if j == 0 {
      ValueZero(x[1..]);
    } else {
      ValueUnit(j - 1, x[1..]);
    }
  }

  /** The wires of byte r of a column. */
  function U(r: nat): Wires<Vec>
    requires r < 4
  {
    if r == 0 then Wires(Vec(0x00000001), Vec(0x00000002), Vec(0x00000004), Vec(0x00000008),
        Vec(0x00000010), Vec(0x00000020), Vec(0x00000040), Vec(0x00000080))
    else if r == 1 then Wires(Vec(0x00000100), Vec(0x00000200), Vec(0x00000400), Vec(0x00000800),
        Vec(0x00001000), Vec(0x00002000), Vec(0x00004000), Vec(0x00008000))
    else if r == 2 then Wires(Vec(0x00010000), Vec(0x00020000), Vec(0x00040000), Vec(0x00080000),
        Vec(0x00100000), Vec(0x00200000), Vec(0x00400000), Vec(0x00800000))
    else Wires(Vec(0x01000000), Vec(0x02000000), Vec(0x04000000), Vec(0x08000000),
        Vec(0x10000000), Vec(0x20000000), Vec(0x40000000), Vec(0x80000000))
  }

  /** The input bits that byte r of a mixed column is the sum of. */
  function MixedUnits(r: nat): Wires<Vec>
    requires r < 4
  {
    if r == 0 then Wires(Vec(0x01018180), Vec(0x02028381), Vec(0x04040602), Vec(0x08088c84),
      Vec(0x10109888), Vec(0x20203010), Vec(0x40406020), Vec(0x8080c040))
    else if r == 1 then Wires(Vec(0x01818001), Vec(0x02838102), Vec(0x04060204), Vec(0x088c8408),
      Vec(0x10988810), Vec(0x20301020), Vec(0x40602040), Vec(0x80c04080))
    else if r == 2 then Wires(Vec(0x81800101), Vec(0x83810202), Vec(0x06020404), Vec(0x8c840808),
      Vec(0x98881010), Vec(0x30102020), Vec(0x60204040), Vec(0xc0408080))
    else Wires(Vec(0x80010181), Vec(0x81020283), Vec(0x02040406), Vec(0x8408088c),
      Vec(0x88101098), Vec(0x10202030), Vec(0x20404060), Vec(0x408080c0))
  }

  function InvMixedUnits(r: nat): Wires<Vec>
    requires r < 4
  {
    if r == 0 then Wires(Vec(0x2161a1e0), Vec(0x62a2e321), Vec(0xc445c643), Vec(0xa9eb2d67),
      Vec(0x72b6fa2e), Vec(0xe46cf45c), Vec(0xc8d8e8b8), Vec(0x90b0d070))
    else if r == 1 then Wires(Vec(0x61a1e021), Vec(0xa2e32162), Vec(0x45c643c4), Vec(0xeb2d67a9),
      Vec(0xb6fa2e72), Vec(0x6cf45ce4), Vec(0xd8e8b8c8), Vec(0xb0d07090))
    else if r == 2 then Wires(Vec(0xa1e02161), Vec(0xe32162a2), Vec(0xc643c445), Vec(0x2d67a9eb),
      Vec(0xfa2e72b6), Vec(0xf45ce46c), Vec(0xe8b8c8d8), Vec(0xd07090b0))
    else Wires(Vec(0xe02161a1), Vec(0x2162a2e3), Vec(0x43c445c6), Vec(0x67a9eb2d),
      Vec(0x2e72b6fa), Vec(0x5ce46cf4), Vec(0xb8c8d8e8), Vec(0x7090b0d0))
  }

  lemma MixRow0Units()
    ensures MixRow0(AddVec, U(0), U(1), U(2), U(3)) == MixedUnits(0)
  {
  }

  lemma MixSpec0Units()
    ensures MixSpec(AddVec, U(0), U(1), U(2), U(3)) == MixedUnits(0)
  {
  }

  lemma MixRow1Units()
    ensures MixRow1(AddVec, U(0), U(1), U(2), U(3)) == MixedUnits(1)
  {
  }

  lemma MixSpec1Units()
    ensures MixSpec(AddVec, U(1), U(2), U(3), U(0)) == MixedUnits(1)
  {
  }

  lemma MixRow2Units()
    ensures MixRow2(AddVec, U(0), U(1), U(2), U(3)) == MixedUnits(2)
  {
  }

  lemma MixSpec2Units()
    ensures MixSpec(AddVec, U(2), U(3), U(0), U(1)) == MixedUnits(2)
  {
  }

  lemma MixRow3Units()
    ensures MixRow3(AddVec, U(0), U(1), U(2), U(3)) == MixedUnits(3)
  {
  }

  lemma MixSpec3Units()
    ensures MixSpec(AddVec, U(3), U(0), U(1), U(2)) == MixedUnits(3)
  {
  }

  lemma InvMixRow0Units()
    ensures InvMixRow0(AddVec, U(0), U(1), U(2), U(3)) == InvMixedUnits(0)
  {
  }

  lemma InvMixSpec0Units()
    ensures InvMixSpec(AddVec, U(0), U(1), U(2), U(3)) == InvMixedUnits(0)
  {
    assert By14(AddVec, U(0)) == Wires(Vec(0x000000e0), Vec(0x00000021), Vec(0x00000043), Vec(0x00000067),
      Vec(0x0000002e), Vec(0x0000005c), Vec(0x000000b8), Vec(0x00000070));
    assert By11(AddVec, U(1)) == Wires(Vec(0x0000a100), Vec(0x0000e300), Vec(0x0000c600), Vec(0x00002d00),
      Vec(0x0000fa00), Vec(0x0000f400), Vec(0x0000e800), Vec(0x0000d000));
    assert By13(AddVec, U(2)) == Wires(Vec(0x00610000), Vec(0x00a20000), Vec(0x00450000), Vec(0x00eb0000),
      Vec(0x00b60000), Vec(0x006c0000), Vec(0x00d80000), Vec(0x00b00000));
    assert By9(AddVec, U(3)) == Wires(Vec(0x21000000), Vec(0x62000000), Vec(0xc4000000), Vec(0xa9000000),
      Vec(0x72000000), Vec(0xe4000000), Vec(0xc8000000), Vec(0x90000000));
  }

  lemma InvMixRow1Units()
    ensures InvMixRow1(AddVec, U(0), U(1), U(2), U(3)) == InvMixedUnits(1)
  {
  }

  lemma InvMixSpec1Units()
    ensures InvMixSpec(AddVec, U(1), U(2), U(3), U(0)) == InvMixedUnits(1)
  {
    assert By14(AddVec, U(1)) == Wires(Vec(0x0000e000), Vec(0x00002100), Vec(0x00004300), Vec(0x00006700),
      Vec(0x00002e00), Vec(0x00005c00), Vec(0x0000b800), Vec(0x00007000));
    assert By11(AddVec, U(2)) == Wires(Vec(0x00a10000), Vec(0x00e30000), Vec(0x00c60000), Vec(0x002d0000),
      Vec(0x00fa0000), Vec(0x00f40000), Vec(0x00e80000), Vec(0x00d00000));
    assert By13(AddVec, U(3)) == Wires(Vec(0x61000000), Vec(0xa2000000), Vec(0x45000000), Vec(0xeb000000),
      Vec(0xb6000000), Vec(0x6c000000), Vec(0xd8000000), Vec(0xb0000000));
    assert By9(AddVec, U(0)) == Wires(Vec(0x00000021), Vec(0x00000062), Vec(0x000000c4), Vec(0x000000a9),
      Vec(0x00000072), Vec(0x000000e4), Vec(0x000000c8), Vec(0x00000090));
  }

  lemma InvMixSpec2Units()
    ensures InvMixSpec(AddVec, U(2), U(3), U(0), U(1)) == InvMixedUnits(2)
  {
    assert By14(AddVec, U(2)) == Wires(Vec(0x00e00000), Vec(0x00210000), Vec(0x00430000), Vec(0x00670000),
      Vec(0x002e0000), Vec(0x005c0000), Vec(0x00b80000), Vec(0x00700000));
    assert By11(AddVec, U(3)) == Wires(Vec(0xa1000000), Vec(0xe3000000), Vec(0xc6000000), Vec(0x2d000000),
      Vec(0xfa000000), Vec(0xf4000000), Vec(0xe8000000), Vec(0xd0000000));
    assert By13(AddVec, U(0)) == Wires(Vec(0x00000061), Vec(0x000000a2), Vec(0x00000045), Vec(0x000000eb),
      Vec(0x000000b6), Vec(0x0000006c), Vec(0x000000d8), Vec(0x000000b0));
    assert By9(AddVec, U(1)) == Wires(Vec(0x00002100), Vec(0x00006200), Vec(0x0000c400), Vec(0x0000a900),
      Vec(0x00007200), Vec(0x0000e400), Vec(0x0000c800), Vec(0x00009000));
  }

  lemma InvMixSpec3Units()
    ensures InvMixSpec(AddVec, U(3), U(0), U(1), U(2)) == InvMixedUnits(3)
  {
    assert By14(AddVec, U(3)) == Wires(Vec(0xe0000000), Vec(0x21000000), Vec(0x43000000), Vec(0x67000000),
      Vec(0x2e000000), Vec(0x5c000000), Vec(0xb8000000), Vec(0x70000000));
  }

  lemma InverseUnits()
    ensures InvMixSpec(AddVec, MixedUnits(0), MixedUnits(1), MixedUnits(2), MixedUnits(3)) == U(0)
  {
    assert By14(AddVec, MixedUnits(0)) == Wires(Vec(0xe0e09070), Vec(0x2121b190), Vec(0x43436221), Vec(0x67675433),
      Vec(0x2e2e3917), Vec(0x5c5c722e), Vec(0xb8b8e45c), Vec(0x7070c8b8));
    assert By11(AddVec, MixedUnits(1)) == Wires(Vec(0xa171d0a1), Vec(0xe39271e3), Vec(0xc625e3c6), Vec(0x2d3b162d),
      Vec(0xfa07fdfa), Vec(0xf40efaf4), Vec(0xe81cf4e8), Vec(0xd038e8d0));
    assert By13(AddVec, MixedUnits(2)) == Wires(Vec(0xd1b06161), Vec(0x73d1a2a2), Vec(0xe7a24545), Vec(0x1ef5ebeb),
      Vec(0xed5bb6b6), Vec(0xdab66c6c), Vec(0xb46cd8d8), Vec(0x68d8b0b0));
    assert By9(AddVec, MixedUnits(3)) == Wires(Vec(0x902121b1), Vec(0xb16262d3), Vec(0x62c4c4a6), Vec(0x54a9a9fd),
      Vec(0x3972724b), Vec(0x72e4e496), Vec(0xe4c8c82c), Vec(0xc8909058));
  }

  // ----- the circuits on bits

  function Octets(b: Wires<bit>): (s: seq<bit>)
    ensures |s| == 8 && FromOctets(s) == b
  {
    [b.w0, b.w1, b.w2, b.w3, b.w4, b.w5, b.w6, b.w7]
  }

  function FromOctets(s: seq<bit>): Wires<bit>
    requires |s| == 8
  {
    Wires(s[0], s[1], s[2], s[3], s[4], s[5], s[6], s[7])
  }

  function Flat(b0: Wires<bit>, b1: Wires<bit>, b2: Wires<bit>, b3: Wires<bit>): (x: seq<bit>)
    ensures |x| == 32
    ensures x[0..8] == Octets(b0) && x[8..16] == Octets(b1) && x[16..24] == Octets(b2) && x[24..32] == Octets(b3)
  {
    Octets(b0) + Octets(b1) + Octets(b2) + Octets(b3)
  }

  function ValueAt(x: seq<bit>): Vec -> bit {
    v => Value(0, Step, Low, Half, v, x)
  }

  lemma ValueAdditive(x: seq<bit>)
    ensures Additive(AddVec, AddBit, ValueAt(x))
  {
    BitsAdditive();
    forall a, b
      ensures Low(AddVec(a, b)) == AddBit(Low(a), Low(b)) && Half(AddVec(a, b)) == AddVec(Half(a), Half(b))
    {
      LowAdd(a, b);
      HalfAdd(a, b);
    }
    forall a, b
      ensures ValueAt(x)(AddVec(a, b)) == AddBit(ValueAt(x)(a), ValueAt(x)(b))
    {
      ValueAdd(AddVec, AddBit, 0, Step, Low, Half, a, b, x);
    }
  }

  lemma UnitConstants(r: nat)
    requires r < 4
    ensures U(r)
      == Wires(Unit(8 * r), Unit(8 * r + 1), Unit(8 * r + 2), Unit(8 * r + 3),
        Unit(8 * r + 4), Unit(8 * r + 5), Unit(8 * r + 6), Unit(8 * r + 7))
  {
    if r == 0 {
      assert U(0) == Wires(Unit(0), Unit(1), Unit(2), Unit(3), Unit(4), Unit(5), Unit(6), Unit(7));
    } else if r == 1 {
      assert U(1) == Wires(Unit(8), Unit(9), Unit(10), Unit(11), Unit(12), Unit(13), Unit(14), Unit(15));
    } else if r == 2 {
      assert U(2) == Wires(Unit(16), Unit(17), Unit(18), Unit(19), Unit(20), Unit(21), Unit(22), Unit(23));
    } else {
      assert U(3) == Wires(Unit(24), Unit(25), Unit(26), Unit(27), Unit(28), Unit(29), Unit(30), Unit(31));
    }
  }

  lemma UnitsAt(r: nat, x: seq<bit>)
    requires r < 4 && |x| == 32
    ensures Map(ValueAt(x), U(r)) == FromOctets(x[8 * r..8 * r + 8])
  {
    UnitConstants(r);
    ValueUnit(8 * r, x);
    ValueUnit(8 * r + 1, x);
    ValueUnit(8 * r + 2, x);
    ValueUnit(8 * r + 3, x);
    ValueUnit(8 * r + 4, x);
    ValueUnit(8 * r + 5, x);
    ValueUnit(8 * r + 6, x);
    ValueUnit(8 * r + 7, x);
  }

  lemma UnitsOfColumn(b0: Wires<bit>, b1: Wires<bit>, b2: Wires<bit>, b3: Wires<bit>)
    ensures var h := ValueAt(Flat(b0, b1, b2, b3));
      Map(h, U(0)) == b0 && Map(h, U(1)) == b1 && Map(h, U(2)) == b2 && Map(h, U(3)) == b3
  {
    var x := Flat(b0, b1, b2, b3);
    UnitsAt(0, x);
    UnitsAt(1, x);
    UnitsAt(2, x);
    UnitsAt(3, x);
  }

  /** What the rows of bs_mixcolumns compute on some wires, they compute on the images of these wires. */
  lemma MixRowsTransfer<T(!new), S(!new)>(add: (T, T) -> T, add': (S, S) -> S, h: T -> S,
      u0: Wires<T>, u1: Wires<T>, u2: Wires<T>, u3: Wires<T>, b0: Wires<S>, b1: Wires<S>, b2: Wires<S>, b3: Wires<S>)
    requires Additive(add, add', h)
    requires Map(h, u0) == b0 && Map(h, u1) == b1 && Map(h, u2) == b2 && Map(h, u3) == b3
    requires MixRow0(add, u0, u1, u2, u3) == MixSpec(add, u0, u1, u2, u3)
    requires MixRow1(add, u0, u1, u2, u3) == MixSpec(add, u1, u2, u3, u0)
    requires MixRow2(add, u0, u1, u2, u3) == MixSpec(add, u2, u3, u0, u1)
    requires MixRow3(add, u0, u1, u2, u3) == MixSpec(add, u3, u0, u1, u2)
    ensures MixRow0(add', b0, b1, b2, b3) == MixSpec(add', b0, b1, b2, b3)
    ensures MixRow1(add', b0, b1, b2, b3) == MixSpec(add', b1, b2, b3, b0)
    ensures MixRow2(add', b0, b1, b2, b3) == MixSpec(add', b2, b3, b0, b1)
    ensures MixRow3(add', b0, b1, b2, b3) == MixSpec(add', b3, b0, b1, b2)
  {
    MixRowsPerWire(add, add', h, u0, u1, u2, u3);
    MixSpecPerWire(add, add', h, u0, u1, u2, u3);
    MixSpecPerWire(add, add', h, u1, u2, u3, u0);
    MixSpecPerWire(add, add', h, u2, u3, u0, u1);
    MixSpecPerWire(add, add', h, u3, u0, u1, u2);
  }

  lemma InvMixRow0Transfers<T(!new), S(!new)>(add: (T, T) -> T, add': (S, S) -> S, h: T -> S,
      u0: Wires<T>, u1: Wires<T>, u2: Wires<T>, u3: Wires<T>, b0: Wires<S>, b1: Wires<S>, b2: Wires<S>, b3: Wires<S>)
    requires Additive(add, add', h)
    requires Map(h, u0) == b0 && Map(h, u1) == b1 && Map(h, u2) == b2 && Map(h, u3) == b3
    requires InvMixRow0(add, u0, u1, u2, u3) == InvMixSpec(add, u0, u1, u2, u3)
    ensures InvMixRow0(add', b0, b1, b2, b3) == InvMixSpec(add', b0, b1, b2, b3)
  {
    InvMixRowsPerWire(add, add', h, u0, u1, u2, u3);
    InvMixSpecPerWire(add, add', h, u0, u1, u2, u3);
  }

  lemma InvMixRow1Transfers<T(!new), S(!new)>(add: (T, T) -> T, add': (S, S) -> S, h: T -> S,
      u0: Wires<T>, u1: Wires<T>, u2: Wires<T>, u3: Wires<T>, b0: Wires<S>, b1: Wires<S>, b2: Wires<S>, b3: Wires<S>)
    requires Additive(add, add', h)
    requires Map(h, u0) == b0 && Map(h, u1) == b1 && Map(h, u2) == b2 && Map(h, u3) == b3
    requires InvMixRow1(add, u0, u1, u2, u3) == InvMixSpec(add, u1, u2, u3, u0)
    ensures InvMixRow1(add', b0, b1, b2, b3) == InvMixSpec(add', b1, b2, b3, b0)
  {
    InvMixRowsPerWire(add, add', h, u0, u1, u2, u3);
    InvMixSpecPerWire(add, add', h, u1, u2, u3, u0);
  }

  lemma InverseTransfers<T(!new), S(!new)>(add: (T, T) -> T, add': (S, S) -> S, h: T -> S,
      u0: Wires<T>, u1: Wires<T>, u2: Wires<T>, u3: Wires<T>, b0: Wires<S>, b1: Wires<S>, b2: Wires<S>, b3: Wires<S>)
    requires Additive(add, add', h)
    requires Map(h, u0) == b0 && Map(h, u1) == b1 && Map(h, u2) == b2 && Map(h, u3) == b3
    requires InvMixSpec(add, MixSpec(add, u0, u1, u2, u3), MixSpec(add, u1, u2, u3, u0),
      MixSpec(add, u2, u3, u0, u1), MixSpec(add, u3, u0, u1, u2)) == u0
    ensures InvMixSpec(add', MixSpec(add', b0, b1, b2, b3), MixSpec(add', b1, b2, b3, b0),
      MixSpec(add', b2, b3, b0, b1), MixSpec(add', b3, b0, b1, b2)) == b0
  {
    MixSpecPerWire(add, add', h, u0, u1, u2, u3);
    MixSpecPerWire(add, add', h, u1, u2, u3, u0);
    MixSpecPerWire(add, add', h, u2, u3, u0, u1);
    MixSpecPerWire(add, add', h, u3, u0, u1, u2);
    InvMixSpecPerWire(add, add', h, MixSpec(add, u0, u1, u2, u3), MixSpec(add, u1, u2, u3, u0),
      MixSpec(add, u2, u3, u0, u1), MixSpec(add, u3, u0, u1, u2));
  }

  lemma MixRowBits(b0: Wires<bit>, b1: Wires<bit>, b2: Wires<bit>, b3: Wires<bit>)
    ensures MixRow0(AddBit, b0, b1, b2, b3) == MixSpec(AddBit, b0, b1, b2, b3)
    ensures MixRow1(AddBit, b0, b1, b2, b3) == MixSpec(AddBit, b1, b2, b3, b0)
    ensures MixRow2(AddBit, b0, b1, b2, b3) == MixSpec(AddBit, b2, b3, b0, b1)
    ensures MixRow3(AddBit, b0, b1, b2, b3) == MixSpec(AddBit, b3, b0, b1, b2)
  {
    UnitsOfColumn(b0, b1, b2, b3);
    ValueAdditive(Flat(b0, b1, b2, b3));
    MixRow0Units();
    MixSpec0Units();
    MixRow1Units();
    MixSpec1Units();
    MixRow2Units();
    MixSpec2Units();
    MixRow3Units();
    MixSpec3Units();
    MixRowsTransfer(AddVec, AddBit, ValueAt(Flat(b0, b1, b2, b3)), U(0), U(1), U(2), U(3), b0, b1, b2, b3);
  }

  lemma InvMixRow0Bits(b0: Wires<bit>, b1: Wires<bit>, b2: Wires<bit>, b3: Wires<bit>)
    ensures InvMixRow0(AddBit, b0, b1, b2, b3) == InvMixSpec(AddBit, b0, b1, b2, b3)
  {
    UnitsOfColumn(b0, b1, b2, b3);
    ValueAdditive(Flat(b0, b1, b2, b3));
    InvMixRow0Units();
    InvMixSpec0Units();
    InvMixRow0Transfers(AddVec, AddBit, ValueAt(Flat(b0, b1, b2, b3)), U(0), U(1), U(2), U(3), b0, b1, b2, b3);
  }

  lemma InvMixRow1Bits(b0: Wires<bit>, b1: Wires<bit>, b2: Wires<bit>, b3: Wires<bit>)
    ensures InvMixRow1(AddBit, b0, b1, b2, b3) == InvMixSpec(AddBit, b1, b2, b3, b0)
  {
    UnitsOfColumn(b0, b1, b2, b3);
    ValueAdditive(Flat(b0, b1, b2, b3));
    InvMixRow1Units();
    InvMixSpec1Units();
    InvMixRow1Transfers(AddVec, AddBit, ValueAt(Flat(b0, b1, b2, b3)), U(0), U(1), U(2), U(3), b0, b1, b2, b3);
  }

  lemma InverseBits(b0: Wires<bit>, b1: Wires<bit>, b2: Wires<bit>, b3: Wires<bit>)
    ensures InvMixSpec(AddBit, MixSpec(AddBit, b0, b1, b2, b3), MixSpec(AddBit, b1, b2, b3, b0),
      MixSpec(AddBit, b2, b3, b0, b1), MixSpec(AddBit, b3, b0, b1, b2)) == b0
  {
    UnitsOfColumn(b0, b1, b2, b3);
    ValueAdditive(Flat(b0, b1, b2, b3));
    InverseUnits();
    MixSpec0Units();
    MixSpec1Units();
    MixSpec2Units();
    MixSpec3Units();
    InverseTransfers(AddVec, AddBit, ValueAt(Flat(b0, b1, b2, b3)), U(0), U(1), U(2), U(3), b0, b1, b2, b3);
  }

  // ----- bits and bytes

  lemma DoubledIsXTime(a: byte)
    ensures Doubled(AddBit, BitsOf(a)) == BitsOf(XTime(a))
  {
  }

  lemma SumIsPlus(a: byte, b: byte)
    ensures Sum(AddBit, BitsOf(a), BitsOf(b)) == BitsOf(Plus(a, b))
  {
  }

  lemma MixSpecIsMixByte(a: byte, b: byte, c: byte, d: byte)
    ensures MixSpec(AddBit, BitsOf(a), BitsOf(b), BitsOf(c), BitsOf(d)) == BitsOf(MixByte(a, b, c, d))
  {
    var a', b' := XTime(a), XTime(b);
    DoubledIsXTime(a);
    DoubledIsXTime(b);
    var s1 := Plus(b', b);
    SumIsPlus(b', b);
    var s2 := Plus(a', s1);
    SumIsPlus(a', s1);
    var s3 := Plus(s2, c);
    SumIsPlus(s2, c);
    SumIsPlus(s3, d);
  }

  lemma By9IsTimes9(a: byte)
    ensures By9(AddBit, BitsOf(a)) == BitsOf(Times9(a))
  {
    DoubledIsXTime(a);
    DoubledIsXTime(XTime(a));
    DoubledIsXTime(XTime(XTime(a)));
    SumIsPlus(XTime(XTime(XTime(a))), a);
  }

  lemma By11IsTimes11(a: byte)
    ensures By11(AddBit, BitsOf(a)) == BitsOf(Times11(a))
  {
    var two := XTime(a);
    DoubledIsXTime(a);
    DoubledIsXTime(two);
    DoubledIsXTime(XTime(two));
    SumIsPlus(XTime(XTime(two)), two);
    SumIsPlus(Plus(XTime(XTime(two)), two), a);
  }

  lemma By13IsTimes13(a: byte)
    ensures By13(AddBit, BitsOf(a)) == BitsOf(Times13(a))
  {
    var four := XTime(XTime(a));
    DoubledIsXTime(a);
    DoubledIsXTime(XTime(a));
    DoubledIsXTime(four);
    SumIsPlus(XTime(four), four);
    SumIsPlus(Plus(XTime(four), four), a);
  }

  lemma By14IsTimes14(a: byte)
    ensures By14(AddBit, BitsOf(a)) == BitsOf(Times14(a))
  {
    var two := XTime(a);
    var four := XTime(two);
    DoubledIsXTime(a);
    DoubledIsXTime(two);
    DoubledIsXTime(four);
    SumIsPlus(XTime(four), four);
    SumIsPlus(Plus(XTime(four), four), two);
  }

  lemma InvMixSpecIsInvMixByte(a: byte, b: byte, c: byte, d: byte)
    ensures InvMixSpec(AddBit, BitsOf(a), BitsOf(b), BitsOf(c), BitsOf(d)) == BitsOf(InvMixByte(a, b, c, d))
  {
    By14IsTimes14(a);
    By11IsTimes11(b);
    By13IsTimes13(c);
    By9IsTimes9(d);
    var s1 := Plus(Times14(a), Times11(b));
    SumIsPlus(Times14(a), Times11(b));
    var s2 := Plus(s1, Times13(c));
    SumIsPlus(s1, Times13(c));
    SumIsPlus(s2, Times9(d));
  }

  lemma InverseBytes(a: byte, b: byte, c: byte, d: byte)
    ensures InvMixByte(MixByte(a, b, c, d), MixByte(b, c, d, a), MixByte(c, d, a, b), MixByte(d, a, b, c)) == a
  {
    MixSpecIsMixByte(a, b, c, d);
    MixSpecIsMixByte(b, c, d, a);
    MixSpecIsMixByte(c, d, a, b);
    MixSpecIsMixByte(d, a, b, c);
    InverseBits(BitsOf(a), BitsOf(b), BitsOf(c), BitsOf(d));
    InvMixSpecIsInvMixByte(MixByte(a, b, c, d), MixByte(b, c, d, a), MixByte(c, d, a, b), MixByte(d, a, b, c));
    ByteFromBitsOf(a);
    ByteFromBitsOf(InvMixByte(MixByte(a, b, c, d), MixByte(b, c, d, a), MixByte(c, d, a, b), MixByte(d, a, b, c)));
  }

  /** The matrix of section 5.3.3 undoes that of section 5.1.3. */
  lemma MixUndone()
    ensures Undoes(InvMixByte, MixByte)
  {
    forall a, b, c, d
      ensures UndoesAt(InvMixByte, MixByte, a, b, c, d)
    {
      InverseBytes(a, b, c, d);
    }
  }
}
