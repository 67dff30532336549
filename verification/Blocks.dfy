/**
 The blocks of ina260_stats (src/ina260.h): which samples of a window fall into which of them, and
 their means.
 */
module Blocks {
  import opened Energy

  /** INA260_BLOCK_S. */
  const BLOCK_S: real := 0.25

  // ----- the samples of a window

  predicate In(x: real, t0: real, t1: real) {
    t0 <= x <= t1
  }

  /** The powers of those of the first m samples that lie in the window. */
  function Window(t: seq<real>, p: seq<real>, t0: real, t1: real, m: nat): (w: seq<real>)
    requires Samples(t, p) && m <= |t|
    ensures |w| <= m
  {
    if m == 0 then [] else Window(t, p, t0, t1, m - 1) + if In(t[m - 1], t0, t1) then [p[m - 1]] else []
  }

  function Total(s: seq<real>): real {
    if s == [] then 0.0 else Total(s[..|s| - 1]) + s[|s| - 1]
  }

  lemma TotalAppend(s: seq<real>, x: real)
    ensures Total(s + [x]) == Total(s) + x
  {
    assert (s + [x])[..|s|] == s;
  }

  // ----- blocks

  function NumBlocks(len: real): (nb: nat)
    ensures 3 <= nb <= 255
  {
    var nb := (len / BLOCK_S).Floor;
    if nb < 3 then 3 else if nb > 255 then 255 else nb
  }

  /** The block of a sample at time x. */
  function BlockOf(x: real, t0: real, t1: real, nb: nat): (j: int)
    requires t0 < t1 && nb > 0
    ensures j < nb
    ensures In(x, t0, t1) ==> 0 <= j
  {
    var j := ((x - t0) / (t1 - t0) * (nb as real)).Floor;
    assert In(x, t0, t1) ==> 0 <= j by {
      if In(x, t0, t1) {
        Fraction(x - t0, t1 - t0);
        Share((x - t0) / (t1 - t0), nb as real);
      }
    }
    if j >= nb then nb - 1 else j
  }

  lemma Share(w: real, n: real)
    requires w >= 0.0 && n >= 0.0
    ensures w * n >= 0.0
  {
  }

  /** A sample of the window that belongs to block j. */
  predicate InBlock(x: real, t0: real, t1: real, nb: nat, j: nat)
    requires t0 < t1 && nb > 0
  {
    In(x, t0, t1) && BlockOf(x, t0, t1, nb) == j
  }

  function Count(t: seq<real>, t0: real, t1: real, nb: nat, j: nat, m: nat): nat
    requires m <= |t| && t0 < t1 && nb > 0
  {
    if m == 0 then 0 else Count(t, t0, t1, nb, j, m - 1) + if InBlock(t[m - 1], t0, t1, nb, j) then 1 else 0
  }

  function BlockTotal(t: seq<real>, p: seq<real>, t0: real, t1: real, nb: nat, j: nat, m: nat): real
    requires Samples(t, p) && m <= |t| && t0 < t1 && nb > 0
  {
    if m == 0 then 0.0
    else BlockTotal(t, p, t0, t1, nb, j, m - 1) + if InBlock(t[m - 1], t0, t1, nb, j) then p[m - 1] else 0.0
  }

  // ----- every sample of the window is in exactly one block

  function Counts(t: seq<real>, t0: real, t1: real, nb: nat, blocks: nat, m: nat): nat
    requires m <= |t| && t0 < t1 && nb > 0
  {
    if blocks == 0 then 0 else Counts(t, t0, t1, nb, blocks - 1, m) + Count(t, t0, t1, nb, blocks - 1, m)
  }

  function Totals(t: seq<real>, p: seq<real>, t0: real, t1: real, nb: nat, blocks: nat, m: nat): real
    requires Samples(t, p) && m <= |t| && t0 < t1 && nb > 0
  {
    if blocks == 0 then 0.0 else Totals(t, p, t0, t1, nb, blocks - 1, m) + BlockTotal(t, p, t0, t1, nb, blocks - 1, m)
  }

  lemma {:induction false} OneMoreSample(t: seq<real>, p: seq<real>, t0: real, t1: real, nb: nat, blocks: nat, m: nat)
    requires Samples(t, p) && 0 < m <= |t| && t0 < t1 && nb > 0
    ensures var here := In(t[m - 1], t0, t1) && BlockOf(t[m - 1], t0, t1, nb) < blocks;
      && Counts(t, t0, t1, nb, blocks, m) == Counts(t, t0, t1, nb, blocks, m - 1) + (if here then 1 else 0)
      && Totals(t, p, t0, t1, nb, blocks, m)
        == Totals(t, p, t0, t1, nb, blocks, m - 1) + (if here then p[m - 1] else 0.0)
  {
    if blocks > 0 {
      OneMoreSample(t, p, t0, t1, nb, blocks - 1, m);
    }
  }

  /** The counts and the sums of the blocks add up to those of the window. */
  lemma {:induction false} Conserved(t: seq<real>, p: seq<real>, t0: real, t1: real, nb: nat, m: nat)
    requires Samples(t, p) && m <= |t| && t0 < t1 && nb > 0
    ensures Counts(t, t0, t1, nb, nb, m) == |Window(t, p, t0, t1, m)|
    ensures Totals(t, p, t0, t1, nb, nb, m) == Total(Window(t, p, t0, t1, m))
  {
    if m == 0 {
      NoSamples(t, p, t0, t1, nb, nb);
    } else {
      Conserved(t, p, t0, t1, nb, m - 1);
      OneMoreSample(t, p, t0, t1, nb, nb, m);
      var before := Window(t, p, t0, t1, m - 1);
      TotalAppend(before, p[m - 1]);
      assert before + [] == before;
    }
  }

  lemma {:induction false} NoSamples(t: seq<real>, p: seq<real>, t0: real, t1: real, nb: nat, blocks: nat)
    requires Samples(t, p) && t0 < t1 && nb > 0
    ensures Counts(t, t0, t1, nb, blocks, 0) == 0 && Totals(t, p, t0, t1, nb, blocks, 0) == 0.0
  {
    if blocks > 0 {
      NoSamples(t, p, t0, t1, nb, blocks - 1);
    }
  }

  // ----- the means of the blocks that are not empty

  function Means(t: seq<real>, p: seq<real>, t0: real, t1: real, nb: nat, blocks: nat): (s: seq<real>)
    requires Samples(t, p) && t0 < t1 && nb > 0
    ensures |s| <= blocks
  {
    if blocks == 0 then [] else
      var n := Count(t, t0, t1, nb, blocks - 1, |t|);
      Means(t, p, t0, t1, nb, blocks - 1)
      + if n > 0 then [BlockTotal(t, p, t0, t1, nb, blocks - 1, |t|) / n as real] else []
  }

  /** There are no more means than samples, and some mean if there is a sample. */
  lemma {:induction false} FewMeans(t: seq<real>, p: seq<real>, t0: real, t1: real, nb: nat, blocks: nat)
    requires Samples(t, p) && t0 < t1 && nb > 0
    ensures |Means(t, p, t0, t1, nb, blocks)| <= Counts(t, t0, t1, nb, blocks, |t|)
    ensures Counts(t, t0, t1, nb, blocks, |t|) > 0 ==> |Means(t, p, t0, t1, nb, blocks)| > 0
  {
    if blocks > 0 {
      FewMeans(t, p, t0, t1, nb, blocks - 1);
    }
  }

  lemma FitsScratch(t: seq<real>, p: seq<real>, t0: real, t1: real, nb: nat, blocks: nat)
    requires Samples(t, p) && t0 < t1 && 0 < nb && blocks <= nb
    ensures |Means(t, p, t0, t1, nb, blocks)| <= |t|
  {
    FewMeans(t, p, t0, t1, nb, blocks);
    CountsGrow(t, t0, t1, nb, blocks, nb);
    Conserved(t, p, t0, t1, nb, |t|);
  }

  lemma {:induction false} CountsGrow(t: seq<real>, t0: real, t1: real, nb: nat, a: nat, b: nat)
    requires a <= b && t0 < t1 && nb > 0
    ensures Counts(t, t0, t1, nb, a, |t|) <= Counts(t, t0, t1, nb, b, |t|)
    decreases b
  {
    if a < b {
      CountsGrow(t, t0, t1, nb, a, b - 1);
    }
  }
}
