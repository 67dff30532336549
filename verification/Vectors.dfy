/** Wires that stand for sums of the 32 input bits of a column. */
module Vectors {
  import opened Circuits

  /** The sum of the input bits whose numbers are the bits set. */
  datatype Vec = Vec(bits: bv32)

  function AddVec(a: Vec, b: Vec): Vec {
    Vec(a.bits ^ b.bits)
  }

  function Low(v: Vec): bit {
    (v.bits & 1) as bit
  }

  function Half(v: Vec): Vec {
    Vec(v.bits >> 1)
  }

  lemma LowAdd(a: Vec, b: Vec)
    ensures Low(AddVec(a, b)) == Low(a) ^ Low(b)
  {
  }

  lemma HalfAdd(a: Vec, b: Vec)
    ensures Half(AddVec(a, b)) == AddVec(Half(a), Half(b))
  {
  }

  function Unit(j: nat): Vec
    requires j < 32
  {
    Vec(1 << j)
  }

  lemma UnitHalf(j: nat)
    requires j < 32
    ensures Low(Unit(j)) == if j == 0 then 1 else 0
    ensures Half(Unit(j)) == if j == 0 then Vec(0) else Unit(j - 1)
  {
  }
}
