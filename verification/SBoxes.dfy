/**
 The S-box of FIPS 197 as the table that the byte-oriented backends carry.  The circuits of the
 bitsliced backends are checked against it by running them once on the columns of the table,
 words with one lane for each of the 256 inputs.
 */
module SBoxes {
  import opened Bytes
  import opened Circuits
  import opened Fips197

  /** Bit j, counted from the least significant one. */
  function BitOf(b: byte, j: bv4): bit
    requires j < 8
  {
    ((b >> j) & 1) as bit
  }

  function BitsOf(b: byte): Wires<bit> {
    Wires(BitOf(b, 0), BitOf(b, 1), BitOf(b, 2), BitOf(b, 3), BitOf(b, 4), BitOf(b, 5), BitOf(b, 6), BitOf(b, 7))
  }

  function ByteFrom(u: Wires<bit>): byte {
    (u.w0 as byte) | (u.w1 as byte << 1) | (u.w2 as byte << 2) | (u.w3 as byte << 3)
    | (u.w4 as byte << 4) | (u.w5 as byte << 5) | (u.w6 as byte << 6) | (u.w7 as byte << 7)
  }

  lemma BitsOfByteFrom(u: Wires<bit>)
    ensures BitsOf(ByteFrom(u)) == u
  {
  }

  lemma ByteFromBitsOf(b: byte)
    ensures ByteFrom(BitsOf(b)) == b
  {
  }

  // ----- the table

  /** The entry of a row that the low four bits select. */
  function Entry(x: byte,
    v0: byte, v1: byte, v2: byte, v3: byte, v4: byte, v5: byte, v6: byte, v7: byte,
    v8: byte, v9: byte, va: byte, vb: byte, vc: byte, vd: byte, ve: byte, vf: byte): byte
  {
    var x0, x1, x2, x3 := x & 0x01 != 0, x & 0x02 != 0, x & 0x04 != 0, x & 0x08 != 0;
    if x3 then
      (if x2 then (if x1 then (if x0 then vf else ve) else (if x0 then vd else vc))
      else (if x1 then (if x0 then vb else va) else (if x0 then v9 else v8)))
    else
      (if x2 then (if x1 then (if x0 then v7 else v6) else (if x0 then v5 else v4))
      else (if x1 then (if x0 then v3 else v2) else (if x0 then v1 else v0)))
  }

  function Quarter0(x: byte): byte {
    if x & 0x20 != 0 then (
      if x & 0x10 != 0 then (
        Entry(x, 0x04, 0xc7, 0x23, 0xc3, 0x18, 0x96, 0x05, 0x9a, 0x07, 0x12, 0x80, 0xe2, 0xeb, 0x27, 0xb2, 0x75)
      ) else (
        Entry(x, 0xb7, 0xfd, 0x93, 0x26, 0x36, 0x3f, 0xf7, 0xcc, 0x34, 0xa5, 0xe5, 0xf1, 0x71, 0xd8, 0x31, 0x15)
      )
    ) else (
      if x & 0x10 != 0 then (
        Entry(x, 0xca, 0x82, 0xc9, 0x7d, 0xfa, 0x59, 0x47, 0xf0, 0xad, 0xd4, 0xa2, 0xaf, 0x9c, 0xa4, 0x72, 0xc0)
      ) else (
        Entry(x, 0x63, 0x7c, 0x77, 0x7b, 0xf2, 0x6b, 0x6f, 0xc5, 0x30, 0x01, 0x67, 0x2b, 0xfe, 0xd7, 0xab, 0x76)
      )
    )
  }

  function Quarter1(x: byte): byte {
    if x & 0x20 != 0 then (
      if x & 0x10 != 0 then (
        Entry(x, 0x51, 0xa3, 0x40, 0x8f, 0x92, 0x9d, 0x38, 0xf5, 0xbc, 0xb6, 0xda, 0x21, 0x10, 0xff, 0xf3, 0xd2)
      ) else (
        Entry(x, 0xd0, 0xef, 0xaa, 0xfb, 0x43, 0x4d, 0x33, 0x85, 0x45, 0xf9, 0x02, 0x7f, 0x50, 0x3c, 0x9f, 0xa8)
      )
    ) else (
      if x & 0x10 != 0 then (
        Entry(x, 0x53, 0xd1, 0x00, 0xed, 0x20, 0xfc, 0xb1, 0x5b, 0x6a, 0xcb, 0xbe, 0x39, 0x4a, 0x4c, 0x58, 0xcf)
      ) else (
        Entry(x, 0x09, 0x83, 0x2c, 0x1a, 0x1b, 0x6e, 0x5a, 0xa0, 0x52, 0x3b, 0xd6, 0xb3, 0x29, 0xe3, 0x2f, 0x84)
      )
    )
  }

  function Quarter2(x: byte): byte {
    if x & 0x20 != 0 then (
      if x & 0x10 != 0 then (
        Entry(x, 0xe7, 0xc8, 0x37, 0x6d, 0x8d, 0xd5, 0x4e, 0xa9, 0x6c, 0x56, 0xf4, 0xea, 0x65, 0x7a, 0xae, 0x08)
      ) else (
        Entry(x, 0xe0, 0x32, 0x3a, 0x0a, 0x49, 0x06, 0x24, 0x5c, 0xc2, 0xd3, 0xac, 0x62, 0x91, 0x95, 0xe4, 0x79)
      )
    ) else (
      if x & 0x10 != 0 then (
        Entry(x, 0x60, 0x81, 0x4f, 0xdc, 0x22, 0x2a, 0x90, 0x88, 0x46, 0xee, 0xb8, 0x14, 0xde, 0x5e, 0x0b, 0xdb)
      ) else (
        Entry(x, 0xcd, 0x0c, 0x13, 0xec, 0x5f, 0x97, 0x44, 0x17, 0xc4, 0xa7, 0x7e, 0x3d, 0x64, 0x5d, 0x19, 0x73)
      )
    )
  }

  function Quarter3(x: byte): byte {
    if x & 0x20 != 0 then (
      if x & 0x10 != 0 then (
        Entry(x, 0x8c, 0xa1, 0x89, 0x0d, 0xbf, 0xe6, 0x42, 0x68, 0x41, 0x99, 0x2d, 0x0f, 0xb0, 0x54, 0xbb, 0x16)
      ) else (
        Entry(x, 0xe1, 0xf8, 0x98, 0x11, 0x69, 0xd9, 0x8e, 0x94, 0x9b, 0x1e, 0x87, 0xe9, 0xce, 0x55, 0x28, 0xdf)
      )
    ) else (
      if x & 0x10 != 0 then (
        Entry(x, 0x70, 0x3e, 0xb5, 0x66, 0x48, 0x03, 0xf6, 0x0e, 0x61, 0x35, 0x57, 0xb9, 0x86, 0xc1, 0x1d, 0x9e)
      ) else (
        Entry(x, 0xba, 0x78, 0x25, 0x2e, 0x1c, 0xa6, 0xb4, 0xc6, 0xe8, 0xdd, 0x74, 0x1f, 0x4b, 0xbd, 0x8b, 0x8a)
      )
    )
  }

  /** The sixteen rows, four and four. */
  function SBox(x: byte): byte {
    if x & 0x80 != 0 then (if x & 0x40 != 0 then Quarter3(x) else Quarter2(x))
    else (if x & 0x40 != 0 then Quarter1(x) else Quarter0(x))
  }

  // ----- its columns, in four runs of 64 lanes

  /** The machine word: lane k is bit k. */
  datatype Column = Column(bits: bv64)

  const ALL: bv64 := 0xffffffffffffffff

  function XorColumn(a: Column, b: Column): Column {
    Column(a.bits ^ b.bits)
  }

  function AndColumn(a: Column, b: Column): Column {
    Column(a.bits & b.bits)
  }

  function NotColumn(a: Column): Column {
    Column(a.bits ^ ALL)
  }

  function ColumnGates(): Gates<Column> {
    Gates((a, b) => XorColumn(a, b), (a, b) => AndColumn(a, b), a => NotColumn(a))
  }

  function Columns(c0: bv64, c1: bv64, c2: bv64, c3: bv64, c4: bv64, c5: bv64, c6: bv64, c7: bv64): Wires<Column> {
    Wires(Column(c0), Column(c1), Column(c2), Column(c3), Column(c4), Column(c5), Column(c6), Column(c7))
  }

  /** In run q, which fixes the two high bits, lane x holds the bits of x. */
  function Inputs(q: byte): Wires<Column> {
    Columns(0xaaaaaaaaaaaaaaaa, 0xcccccccccccccccc, 0xf0f0f0f0f0f0f0f0, 0xff00ff00ff00ff00,
      0xffff0000ffff0000, 0xffffffff00000000,
      if q & 0x40 != 0 then ALL else 0, if q & 0x80 != 0 then ALL else 0)
  }

  /** In run q, lane x holds the bits of entry x. */
  function Outputs(q: byte): Wires<Column> {
    if q & 0x80 != 0 then (
      if q & 0x40 != 0 then
        Columns(0x4f1ead396f247a04, 0xc870974094ead8a9, 0xac39b6c0d6ce2efc, 0x4e9ddb76c892fb1b,
          0xf210a3aece472e53, 0x54b248130b4f256f, 0x21e0b83325591782, 0x52379de7b844e3e1)
      else
        Columns(0x10bdb210c006eab5, 0x6a450b2ef33486b4, 0x577d64e03b0c3ffb, 0xe9da849cf6ac6c1b,
          0x2624b286bc48ecb4, 0x7d8dcc4706319e08, 0x3f6bcb91b30db559, 0x4cb3770196ca0329)
    ) else (
      if q & 0x40 != 0 then
        Columns(0x68ab4bfa8acb7a13, 0xe61a4c5e97816f7a, 0x23a869a2a428c424, 0x2568ea2effa8527d,
          0xf7f17a494ce30f58, 0x6bc2aa4e0d787aa4, 0xe4851b3bf3ab2560, 0xe7bac28f866aac82)
      else
        Columns(0xb14ede67096c6eed, 0x7bae007d4c53fc7d, 0xa16387fb3b48b4c6, 0x109020a2193d586a,
          0xc2b0f97752b8b11e, 0xf8045f7b6d98dd7f, 0x980a3cc2c2fdb4ff, 0x5caa2ec7bf977090)
    )
  }

  /** bs_sbox, on 64 inputs at once. */
  lemma ForwardColumns(q: byte)
    ensures SboxCircuit(ColumnGates(), Inputs(q)) == Outputs(q)
  {
    if q & 0x80 != 0 {
      if q & 0x40 != 0 {
        assert SboxCircuit(ColumnGates(), Inputs(q)) == Outputs(q);
      } else {
        assert SboxCircuit(ColumnGates(), Inputs(q)) == Outputs(q);
      }
    } else {
      if q & 0x40 != 0 {
        assert SboxCircuit(ColumnGates(), Inputs(q)) == Outputs(q);
      } else {
        assert SboxCircuit(ColumnGates(), Inputs(q)) == Outputs(q);
      }
    }
  }

  /** bs_sbox_rev, on 64 inputs at once. */
  lemma BackwardColumns(q: byte)
    ensures InvSboxCircuit(ColumnGates(), Outputs(q)) == Inputs(q)
  {
    if q & 0x80 != 0 {
      if q & 0x40 != 0 {
        assert InvSboxCircuit(ColumnGates(), Outputs(q)) == Inputs(q);
      } else {
        assert InvSboxCircuit(ColumnGates(), Outputs(q)) == Inputs(q);
      }
    } else {
      if q & 0x40 != 0 {
        assert InvSboxCircuit(ColumnGates(), Outputs(q)) == Inputs(q);
      } else {
        assert InvSboxCircuit(ColumnGates(), Outputs(q)) == Inputs(q);
      }
    }
  }

  // ----- one lane of a column

  function At(c: Column, x: byte): bit {
    ((c.bits >> (x & 0x3f)) & 1) as bit
  }

  function AtAll(cs: Wires<Column>, x: byte): Wires<bit> {
    Map(c => At(c, x), cs)
  }

  lemma InputsAt(x: byte)
    ensures AtAll(Inputs(x), x) == BitsOf(x)
  {
  }

  lemma AtXor(a: Column, b: Column, x: byte)
    ensures At(XorColumn(a, b), x) == At(a, x) ^ At(b, x)
  {
    if At(a, x) == 0 {
      if At(b, x) == 0 {
        assert At(XorColumn(a, b), x) == 0;
      } else {
        assert At(XorColumn(a, b), x) == 1;
      }
    } else {
      if At(b, x) == 0 {
        assert At(XorColumn(a, b), x) == 1;
      } else {
        assert At(XorColumn(a, b), x) == 0;
      }
    }
  }

  lemma AtAnd(a: Column, b: Column, x: byte)
    ensures At(AndColumn(a, b), x) == At(a, x) & At(b, x)
  {
  }

  lemma AtNot(a: Column, x: byte)
    ensures At(NotColumn(a), x) == At(a, x) ^ 1
  {
  }

  lemma AtHom(x: byte)
    ensures Hom(ColumnGates(), BitGates(), c => At(c, x))
  {
    forall a, b
      ensures At(XorColumn(a, b), x) == At(a, x) ^ At(b, x)
    {
      AtXor(a, b, x);
    }
    forall a, b
      ensures At(AndColumn(a, b), x) == At(a, x) & At(b, x)
    {
      AtAnd(a, b, x);
    }
    forall a
      ensures At(NotColumn(a), x) == At(a, x) ^ 1
    {
      AtNot(a, x);
    }
  }

  lemma OutputsAt(x: byte)
    ensures AtAll(Outputs(x), x) == BitsOf(SBox(x))
  {
    if x & 0x80 != 0 {
      if x & 0x40 != 0 {
        OutputsInRun3(x);
      } else {
        OutputsInRun2(x);
      }
    } else {
      if x & 0x40 != 0 {
        OutputsInRun1(x);
      } else {
        OutputsInRun0(x);
      }
    }
  }

  lemma OutputsInRun0(x: byte)
    requires x & 0x80 == 0 && x & 0x40 == 0
    ensures AtAll(Outputs(x), x) == BitsOf(Quarter0(x))
  {
    if x & 0x20 != 0 {
      if x & 0x10 != 0 {
        assert AtAll(Outputs(x), x) == BitsOf(Quarter0(x));
      } else {
        assert AtAll(Outputs(x), x) == BitsOf(Quarter0(x));
      }
    } else {
      if x & 0x10 != 0 {
        assert AtAll(Outputs(x), x) == BitsOf(Quarter0(x));
      } else {
        assert AtAll(Outputs(x), x) == BitsOf(Quarter0(x));
      }
    }
  }

  lemma OutputsInRun1(x: byte)
    requires x & 0x80 == 0 && x & 0x40 != 0
    ensures AtAll(Outputs(x), x) == BitsOf(Quarter1(x))
  {
    if x & 0x20 != 0 {
      if x & 0x10 != 0 {
        assert AtAll(Outputs(x), x) == BitsOf(Quarter1(x));
      } else {
        assert AtAll(Outputs(x), x) == BitsOf(Quarter1(x));
      }
    } else {
      if x & 0x10 != 0 {
        assert AtAll(Outputs(x), x) == BitsOf(Quarter1(x));
      } else {
        assert AtAll(Outputs(x), x) == BitsOf(Quarter1(x));
      }
    }
  }

  lemma OutputsInRun2(x: byte)
    requires x & 0x80 != 0 && x & 0x40 == 0
    ensures AtAll(Outputs(x), x) == BitsOf(Quarter2(x))
  {
    if x & 0x20 != 0 {
      if x & 0x10 != 0 {
        assert AtAll(Outputs(x), x) == BitsOf(Quarter2(x));
      } else {
        assert AtAll(Outputs(x), x) == BitsOf(Quarter2(x));
      }
    } else {
      if x & 0x10 != 0 {
        assert AtAll(Outputs(x), x) == BitsOf(Quarter2(x));
      } else {
        assert AtAll(Outputs(x), x) == BitsOf(Quarter2(x));
      }
    }
  }

  lemma OutputsInRun3(x: byte)
    requires x & 0x80 != 0 && x & 0x40 != 0
    ensures AtAll(Outputs(x), x) == BitsOf(Quarter3(x))
  {
    if x & 0x20 != 0 {
      if x & 0x10 != 0 {
        assert AtAll(Outputs(x), x) == BitsOf(Quarter3(x));
      } else {
        assert AtAll(Outputs(x), x) == BitsOf(Quarter3(x));
      }
    } else {
      if x & 0x10 != 0 {
        assert AtAll(Outputs(x), x) == BitsOf(Quarter3(x));
      } else {
        assert AtAll(Outputs(x), x) == BitsOf(Quarter3(x));
      }
    }
  }

  // ----- what the circuits compute, input by input

  lemma CircuitIsTable(x: byte)
    ensures SboxCircuit(BitGates(), BitsOf(x)) == BitsOf(SBox(x))
  {
    AtHom(x);
    SboxPerWire(ColumnGates(), BitGates(), c => At(c, x), Inputs(x));
    InputsAt(x);
    ForwardColumns(x);
    OutputsAt(x);
  }

  lemma InverseCircuit(x: byte)
    ensures InvSboxCircuit(BitGates(), BitsOf(SBox(x))) == BitsOf(x)
  {
    AtHom(x);
    InvSboxPerWire(ColumnGates(), BitGates(), c => At(c, x), Outputs(x));
    InputsAt(x);
    BackwardColumns(x);
    OutputsAt(x);
  }

  /** The byte that bs_sbox_rev makes of x. */
  function InvSBox(x: byte): byte {
    ByteFrom(InvSboxCircuit(BitGates(), BitsOf(x)))
  }

  lemma InvSBoxUndoes(x: byte)
    ensures InvSBox(SBox(x)) == x
  {
    InverseCircuit(x);
    ByteFromBitsOf(x);
  }

  // ----- the other direction: bs_sbox undoes bs_sbox_rev

  /** In run q, lane x holds the bits of what bs_sbox_rev makes of x. */
  function InvOutputs(q: byte): Wires<Column> {
    if q & 0x80 != 0 then (
      if q & 0x40 != 0 then
        Columns(0xbb23f64cbbbe99eb, 0x08fb36349c449269, 0xd4ed0858cba4d063, 0xc21a4f3ceddcc817,
          0x94796cc45c368f8b, 0xabba8ef7872d518c, 0x9b68a34aa647c842, 0x015057d3fa286156)
      else
        Columns(0x224883fb66f0853e, 0x4b3edf05c519cfb1, 0xa8174b51f4f76d70, 0x7b4df9b4da220cd1,
          0xdb67e21e7645b347, 0x98c5572aaf7ef2a1, 0xfe7b054beb14def8, 0xaf3152c24bb37fc2)
    ) else (
      if q & 0x40 != 0 then
        Columns(0xbf6869447a703000, 0xeafca1c41d80c095, 0x066ecb30ff317f9c, 0xc67e14b661f51c62,
          0x242535634bdad5c7, 0x862233241073622f, 0x811147420dbf3d2f, 0x47193377f0f0cb56)
      else
        Columns(0xfa244cc2c4f6f54a, 0x278af97aa6faed25, 0x914a87953be14968, 0x3a33ab82e2758986,
          0x43a0248f2155e9b9, 0x95de21da4167a5f4, 0x5b28f323fc43e20d, 0x64a46534f2dafd48)
    )
  }

  /** bs_sbox_rev, on 64 inputs at once. */
  lemma InvColumns(q: byte)
    ensures InvSboxCircuit(ColumnGates(), Inputs(q)) == InvOutputs(q)
  {
    if q & 0x80 != 0 {
      if q & 0x40 != 0 {
        assert InvSboxCircuit(ColumnGates(), Inputs(q)) == InvOutputs(q);
      } else {
        assert InvSboxCircuit(ColumnGates(), Inputs(q)) == InvOutputs(q);
      }
    } else {
      if q & 0x40 != 0 {
        assert InvSboxCircuit(ColumnGates(), Inputs(q)) == InvOutputs(q);
      } else {
        assert InvSboxCircuit(ColumnGates(), Inputs(q)) == InvOutputs(q);
      }
    }
  }

  /** bs_sbox takes them back. */
  lemma InvColumnsUndone(q: byte)
    ensures SboxCircuit(ColumnGates(), InvOutputs(q)) == Inputs(q)
  {
    if q & 0x80 != 0 {
      if q & 0x40 != 0 {
        assert SboxCircuit(ColumnGates(), InvOutputs(q)) == Inputs(q);
      } else {
        assert SboxCircuit(ColumnGates(), InvOutputs(q)) == Inputs(q);
      }
    } else {
      if q & 0x40 != 0 {
        assert SboxCircuit(ColumnGates(), InvOutputs(q)) == Inputs(q);
      } else {
        assert SboxCircuit(ColumnGates(), InvOutputs(q)) == Inputs(q);
      }
    }
  }

  lemma InverseCircuitUndone(x: byte)
    ensures SboxCircuit(BitGates(), InvSboxCircuit(BitGates(), BitsOf(x))) == BitsOf(x)
  {
    AtHom(x);
    InputsAt(x);
    InvSboxPerWire(ColumnGates(), BitGates(), c => At(c, x), Inputs(x));
    InvColumns(x);
    SboxPerWire(ColumnGates(), BitGates(), c => At(c, x), InvOutputs(x));
    InvColumnsUndone(x);
  }

  lemma SBoxUndoes(x: byte)
    ensures SBox(InvSBox(x)) == x
  {
    var u := InvSboxCircuit(BitGates(), BitsOf(x));
    InverseCircuitUndone(x);
    BitsOfByteFrom(u);
    CircuitIsTable(InvSBox(x));
    ByteFromBitsOf(x);
    ByteFromBitsOf(SBox(InvSBox(x)));
  }

  // ----- the table is that of section 5.1.1

  /** The inverses, in lane x of run q. */
  function Inverses(q: byte): Wires<Column> {
    if q & 0x80 != 0 then (
      if q & 0x40 != 0 then
        Columns(0x55439ccb9a3a178d, 0x2063ce7c82ef969d, 0x97a856f61d16eae4, 0xb79553eab2a57197,
          0xa70df40579213430, 0x0c1e8889a0cde34e, 0x55313e5cacf9a470, 0x1b808cdd7ff4e178)
      else
        Columns(0x99bc205954085d25, 0xc60cfd1d85a733f7, 0xff2d3156264996d6, 0x3a4d1ab7fd3b4b46,
          0xbcf44423b6955ff6, 0x3deaa167118ed066, 0x84eafacb309b18a6, 0x730a7239fc71df59)
    ) else (
      if q & 0x40 != 0 then
        Columns(0x502ffe9cd0c5edfd, 0xa946baef86c80d0e, 0x09ae0b67a2f7335f, 0x20c18816239bc493,
          0x27f7bd4b9b821867, 0x33e3d1646ea167fe, 0x26010b9a781b52ca, 0xf56e2d2c28c94542)
      else
        Columns(0xfa3209b816b8e6d6, 0x39d4c207d2ac8278, 0x1a4b28325e83c20c, 0xe82906e75fbc0754,
          0xf3341c1d979310e8, 0x3f79504bd6677548, 0x59daa1be7dc9ebf8, 0x2114c5c8dc16f99c)
    )
  }

  /** Input times inverse, in lane x of run q: one, except for the zero input. */
  function Ones(q: byte): Wires<Column> {
    Columns(if q & 0xc0 == 0 then 0xfffffffffffffffe else ALL, 0, 0, 0, 0, 0, 0, 0)
  }

  lemma InverseColumnsLow(q: byte)
    requires q & 0x80 == 0
    ensures Product(XorColumn, AndColumn, Inputs(q), Inverses(q)) == Ones(q)
  {
    if q & 0x40 != 0 {
      assert Product(XorColumn, AndColumn, Inputs(q), Inverses(q)) == Ones(q);
    } else {
      assert Product(XorColumn, AndColumn, Inputs(q), Inverses(q)) == Ones(q);
    }
  }

  lemma InverseColumnsHigh(q: byte)
    requires q & 0x80 != 0
    ensures Product(XorColumn, AndColumn, Inputs(q), Inverses(q)) == Ones(q)
  {
    if q & 0x40 != 0 {
      assert Product(XorColumn, AndColumn, Inputs(q), Inverses(q)) == Ones(q);
    } else {
      assert Product(XorColumn, AndColumn, Inputs(q), Inverses(q)) == Ones(q);
    }
  }

  lemma InverseColumns(q: byte)
    ensures Product(XorColumn, AndColumn, Inputs(q), Inverses(q)) == Ones(q)
  {
    if q & 0x80 != 0 {
      InverseColumnsHigh(q);
    } else {
      InverseColumnsLow(q);
    }
  }

  lemma UnaffineColumns(q: byte)
    ensures Unaffine(ColumnGates(), Outputs(q)) == Inverses(q)
  {
    if q & 0x80 != 0 {
      if q & 0x40 != 0 {
        assert Unaffine(ColumnGates(), Outputs(q)) == Inverses(q);
      } else {
        assert Unaffine(ColumnGates(), Outputs(q)) == Inverses(q);
      }
    } else {
      if q & 0x40 != 0 {
        assert Unaffine(ColumnGates(), Outputs(q)) == Inverses(q);
      } else {
        assert Unaffine(ColumnGates(), Outputs(q)) == Inverses(q);
      }
    }
  }

  lemma OnesAt(x: byte)
    ensures AtAll(Ones(x), x) == if x == 0 then BitsOf(0) else BitsOf(1)
  {
  }

  /** What section 5.1.1 takes the affine transformation of. */
  function Inverted(x: byte): byte {
    ByteFrom(Unaffine(BitGates(), BitsOf(SBox(x))))
  }

  lemma InvertedBits(x: byte)
    ensures Product(BitGates().xor, BitGates().and, BitsOf(x), BitsOf(Inverted(x)))
      == if x == 0 then BitsOf(0) else BitsOf(1)
  {
    var h := c => At(c, x);
    AtHom(x);
    ProductPerWire(ColumnGates(), BitGates(), h, Inputs(x), Inverses(x));
    UnaffinePerWire(ColumnGates(), BitGates(), h, Outputs(x));
    InputsAt(x);
    OutputsAt(x);
    InverseColumns(x);
    UnaffineColumns(x);
    OnesAt(x);
    BitsOfByteFrom(Unaffine(BitGates(), BitsOf(SBox(x))));
  }

  predicate IsInverse(x: byte, y: byte) {
    if x == 0 then y == 0 else Product(BitGates().xor, BitGates().and, BitsOf(x), BitsOf(y)) == BitsOf(1)
  }

  lemma AffineUndone(b: byte)
    ensures Affine(ByteFrom(Unaffine(BitGates(), BitsOf(b)))) == b
  {
  }

  lemma InvertedZero()
    ensures Inverted(0) == 0
  {
    assert SBox(0) == 0x63;
    assert Unaffine(BitGates(), BitsOf(0x63)) == BitsOf(0);
    ByteFromBitsOf(0);
  }

  /** Every entry is the affine transform of the inverse. */
  lemma TableIsFips(x: byte)
    ensures exists y :: IsInverse(x, y) && SBox(x) == Affine(y)
  {
    InvertedBits(x);
    AffineUndone(SBox(x));
    if x == 0 {
      InvertedZero();
    }
    assert IsInverse(x, Inverted(x));
  }
}
