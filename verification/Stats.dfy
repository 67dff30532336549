/**
 ina260_stats (src/ina260.h): the robust level is the median of the means of blocks of samples.
 The standard deviation is represented by its square.
 */
module Stats {
  import opened Energy
  import opened Medians
  import opened Blocks
  import opened Slots
  import opened Variances

  // ----- the result

  /** What ina260_stats fills in; variance is the square of sd. */
  datatype Stat =
    Stat(n: nat, blocks: nat, mean: real, median: real, robust: real, variance: real, min: real, max: real)

  /** The results for a window of positive length that holds samples. */
  ghost predicate Describes(st: Stat, t: seq<real>, p: seq<real>, t0: real, t1: real)
    requires Samples(t, p) && t0 < t1
  {
    var w, means := Window(t, p, t0, t1, |t|), Means(t, p, t0, t1, NumBlocks(t1 - t0), NumBlocks(t1 - t0));
    && |w| > 0 && |means| > 0
    && st.n == |w| && st.blocks == |means|
    && st.mean == EnergyOf(t, p, t0, t1) / (t1 - t0)
    && st.median == Median(Sorted(w))
    && st.robust == Median(Sorted(means))
    && st.variance == Variance(w)
    && Extremes(w, st.min, st.max)
  }

  /** In terms of time: one mean for every slot in use, and a level that no short burst moves out of its bounds. */
  ghost predicate Robust(st: Stat, t: seq<real>, p: seq<real>, t0: real, t1: real) {
    && st.blocks == OccupiedSlots(t, t0, t1, NumBlocks(t1 - t0), NumBlocks(t1 - t0))
    && forall u, v, lo, hi :: ShortBurst(t, p, t0, t1, u, v, lo, hi) ==> lo <= st.robust <= hi
  }

  lemma DescribedIsRobust(st: Stat, t: seq<real>, p: seq<real>, t0: real, t1: real)
    requires Samples(t, p) && t0 < t1 && Describes(st, t, p, t0, t1)
    ensures Robust(st, t, p, t0, t1)
  {
    OneMeanPerSlot(t, p, t0, t1, NumBlocks(t1 - t0), NumBlocks(t1 - t0));
    forall u, v, lo, hi | ShortBurst(t, p, t0, t1, u, v, lo, hi)
      ensures lo <= st.robust <= hi
    {
      LevelWithin(t, p, t0, t1, u, v, lo, hi);
    }
  }

  ghost predicate Extremes(w: seq<real>, min: real, max: real) {
    |w| > 0 ==> min in w && max in w && forall x :: x in w ==> min <= x <= max
  }

  lemma ExtremesAppend(w: seq<real>, x: real, min: real, max: real)
    requires Extremes(w, min, max)
    ensures Extremes(w + [x], if w == [] || x < min then x else min, if w == [] || x > max then x else max)
  {
    assert (w + [x])[|w|] == x;
  }

  class Ina260 {
    const t: array<real>
    const p: array<real>
    const scratch: array<real>
    const n: nat

    constructor (t: array<real>, p: array<real>, n: nat)
      requires n <= t.Length && n <= p.Length
      ensures this.t == t && this.p == p && this.n == n && fresh(scratch) && Valid()
    {
      this.t, this.p, this.n := t, p, n;
      scratch := new real[n];
    }

    ghost predicate Valid() {
      n <= t.Length && n <= p.Length && n <= scratch.Length && scratch != t && scratch != p
    }

    /** qsort of the first k scratch values. */
    method Qsort(k: nat)
      requires k <= scratch.Length
      modifies scratch
      ensures scratch[..k] == Sorted(old(scratch[..k]))
    {
      var s := Sorted(scratch[..k]);
      forall i | 0 <= i < k {
        scratch[i] := s[i];
      }
    }

    /** The first loop: the samples of the window go to scratch. */
    method Collect(t0: real, t1: real, square: real -> real)
        returns (k: nat, min: real, max: real, sum: real, sq: real)
      requires Valid()
      modifies scratch
      ensures k <= n && scratch[..k] == Window(t[..n], p[..n], t0, t1, n)
      ensures Extremes(Window(t[..n], p[..n], t0, t1, n), min, max)
      ensures k == 0 ==> min == 0.0 && max == 0.0
      ensures var w := Window(t[..n], p[..n], t0, t1, n); sum == Total(w) && sq == SumOf(w, square)
    {
      k, min, max, sum, sq := 0, 0.0, 0.0, 0.0, 0.0;
      ghost var ts, ps := t[..n], p[..n];
      var i := 0;
      while i < n
        invariant 0 <= i <= n && k <= i && t[..n] == ts && p[..n] == ps
        invariant scratch[..k] == Window(ts, ps, t0, t1, i) && Extremes(scratch[..k], min, max)
        invariant k == 0 ==> min == 0.0 && max == 0.0
        invariant sum == Total(scratch[..k]) && sq == SumOf(scratch[..k], square)
      {
        if !(t[i] < t0 || t[i] > t1) {
          ghost var min0, max0 := min, max;
          if k == 0 || p[i] < min {
            min := p[i];
          }
          if k == 0 || p[i] > max {
            max := p[i];
          }
          ghost var before := scratch[..k];
          scratch[k] := p[i];
          k := k + 1;
          assert scratch[..k] == before + [p[i]];
          sum := sum + p[i];
          sq := sq + square(p[i]);
          TotalAppend(before, p[i]);
          ExtremesAppend(before, p[i], min0, max0);
          SumOfAppend(before, p[i], square);
        }
        i := i + 1;
      }
    }

    /** The sums and the sizes of the blocks. */
    method FillBlocks(bsum: array<real>, bcnt: array<nat>, t0: real, t1: real, nb: nat)
      requires Valid() && t0 < t1 && 0 < nb <= bsum.Length == bcnt.Length && bsum != t && bsum != p
      modifies bsum, bcnt
      ensures forall j :: 0 <= j < nb ==>
        bcnt[j] == Count(t[..n], t0, t1, nb, j, n) && bsum[j] == BlockTotal(t[..n], p[..n], t0, t1, nb, j, n)
    {
      var j := 0;
      while j < nb
        invariant 0 <= j <= nb
        invariant forall i :: 0 <= i < j ==> bsum[i] == 0.0 && bcnt[i] == 0
      {
        bsum[j] := 0.0;
        bcnt[j] := 0;
        j := j + 1;
      }
      ghost var ts, ps := t[..n], p[..n];
      var i := 0;
      while i < n
        invariant 0 <= i <= n && t[..n] == ts && p[..n] == ps
        invariant forall j :: 0 <= j < nb ==>
          bcnt[j] == Count(ts, t0, t1, nb, j, i) && bsum[j] == BlockTotal(ts, ps, t0, t1, nb, j, i)
      {
        assert ts[i] == t[i] && ps[i] == p[i];
        if !(t[i] < t0 || t[i] > t1) {
          j := BlockOf(t[i], t0, t1, nb);
          bsum[j] := bsum[j] + p[i];
          bcnt[j] := bcnt[j] + 1;
        }
        i := i + 1;
      }
    }

    /** The means of the blocks that are not empty go to scratch. */
    method CollectMeans(bsum: array<real>, bcnt: array<nat>, t0: real, t1: real, nb: nat) returns (k: nat)
      requires Valid() && t0 < t1 && 0 < nb <= bsum.Length == bcnt.Length && scratch != bsum
      requires forall j :: 0 <= j < nb ==>
        bcnt[j] == Count(t[..n], t0, t1, nb, j, n) && bsum[j] == BlockTotal(t[..n], p[..n], t0, t1, nb, j, n)
      modifies scratch
      ensures k <= n && scratch[..k] == Means(t[..n], p[..n], t0, t1, nb, nb)
    {
      ghost var ts, ps := t[..n], p[..n];
      k := 0;
      var j := 0;
      while j < nb
        invariant 0 <= j <= nb && k <= n && t[..n] == ts && p[..n] == ps
        invariant forall j :: 0 <= j < nb ==>
          bcnt[j] == Count(ts, t0, t1, nb, j, n) && bsum[j] == BlockTotal(ts, ps, t0, t1, nb, j, n)
        invariant scratch[..k] == Means(ts, ps, t0, t1, nb, j)
      {
        FitsScratch(ts, ps, t0, t1, nb, j + 1);
        if bcnt[j] != 0 {
          ghost var before := scratch[..k];
          scratch[k] := bsum[j] / bcnt[j] as real;
          k := k + 1;
          assert scratch[..k] == before + [bsum[j] / bcnt[j] as real];
        }
        j := j + 1;
      }
    }

    /** The block means, sorted. */
    method SortedMeans(t0: real, t1: real, nb: nat) returns (k: nat)
      requires Valid() && t0 < t1 && 3 <= nb <= 255
      modifies scratch
      ensures k <= n && scratch[..k] == Sorted(Means(t[..n], p[..n], t0, t1, nb, nb))
      ensures |Window(t[..n], p[..n], t0, t1, n)| > 0 ==> k > 0
    {
      var bsum, bcnt := new real[256], new nat[256];
      FillBlocks(bsum, bcnt, t0, t1, nb);
      k := CollectMeans(bsum, bcnt, t0, t1, nb);
      Conserved(t[..n], p[..n], t0, t1, nb, n);
      FewMeans(t[..n], p[..n], t0, t1, nb, nb);
      Qsort(k);
    }

    /** The variance, from the sums of the k samples and of their squares. */
    method OnePass(k: nat, sum: real, sq: real, ghost w: seq<real>) returns (variance: real)
      requires k == |w| > 0 && sum == Total(w) && sq == SumOf(w, SquareOf())
      ensures variance == Variance(w)
    {
      variance := sq / k as real - (sum / k as real) * (sum / k as real);
      OnePassVariance(w, sum, sq);
      variance := if variance > 0.0 then variance else 0.0;
    }

    /** ina260_stats. */
    method Stats(t0: real, t1: real) returns (st: Stat)
      requires Valid()
      modifies scratch
      ensures st.n == |Window(t[..n], p[..n], t0, t1, n)|
      ensures Extremes(Window(t[..n], p[..n], t0, t1, n), st.min, st.max)
      ensures st.n == 0 ==> st == Stat(0, 0, 0.0, 0.0, 0.0, 0.0, 0.0, 0.0)
      ensures t1 <= t0 ==> st.blocks == 0 && st.mean == 0.0 && st.median == 0.0 && st.robust == 0.0
      ensures t1 <= t0 ==> st.variance == 0.0
      ensures st.n > 0 && t0 < t1 ==> Describes(st, t[..n], p[..n], t0, t1) && Robust(st, t[..n], p[..n], t0, t1)
    {
      var len := t1 - t0;
      var k, min, max, sum, sq := Collect(t0, t1, SquareOf());
      st := Stat(k, 0, 0.0, 0.0, 0.0, 0.0, min, max);
      if k == 0 || len <= 0.0 {
        return;
      }
      Qsort(k);
      var median := Median(scratch[..k]);
      var variance := OnePass(k, sum, sq, Window(t[..n], p[..n], t0, t1, n));
      var e := Ina260Energy(t, p, n, t0, t1);
      var nb := NumBlocks(len);
      var blocks := SortedMeans(t0, t1, nb);
      st := Stat(k, blocks, e / len, median, Median(scratch[..blocks]), variance, min, max);
      DescribedIsRobust(st, t[..n], p[..n], t0, t1);
    }
  }

  /** Disturbances in fewer than half of the blocks do not move the robust level out of the range of the others. */
  lemma RobustLevel(st: Stat, t: seq<real>, p: seq<real>, t0: real, t1: real, disturbed: seq<bool>, lo: real, hi: real)
    requires Samples(t, p) && t0 < t1 && Describes(st, t, p, t0, t1)
    requires var means := Means(t, p, t0, t1, NumBlocks(t1 - t0), NumBlocks(t1 - t0));
      && |disturbed| == |means| && 2 * Trues(disturbed) < |means|
      && forall i :: 0 <= i < |means| && !disturbed[i] ==> lo <= means[i] <= hi
    ensures lo <= st.robust <= hi
  {
    RobustWithin(Means(t, p, t0, t1, NumBlocks(t1 - t0), NumBlocks(t1 - t0)), disturbed, lo, hi);
  }

  // ----- a burst of foreign load

  /** The powers differ at most in the samples of the blocks hit by a burst. */
  ghost predicate DiffersIn(t: seq<real>, p: seq<real>, p': seq<real>, t0: real, t1: real, nb: nat, hit: nat -> bool)
    requires Samples(t, p) && Samples(t, p') && t0 < t1 && nb > 0
  {
    forall i, j: nat :: 0 <= i < |t| && InBlock(t[i], t0, t1, nb, j) && !hit(j) ==> p'[i] == p[i]
  }

  /** For each block that is not empty, whether it was hit. */
  function Hits(t: seq<real>, t0: real, t1: real, nb: nat, hit: nat -> bool, blocks: nat): seq<bool>
    requires t0 < t1 && nb > 0
  {
    if blocks == 0 then [] else
      Hits(t, t0, t1, nb, hit, blocks - 1) + if Count(t, t0, t1, nb, blocks - 1, |t|) > 0 then [hit(blocks - 1)] else []
  }

  lemma {:induction false} SameTotal(t: seq<real>, p: seq<real>, p': seq<real>, t0: real, t1: real, nb: nat,
      hit: nat -> bool, j: nat, m: nat)
    requires Samples(t, p) && Samples(t, p') && t0 < t1 && nb > 0 && m <= |t|
    requires DiffersIn(t, p, p', t0, t1, nb, hit) && !hit(j)
    ensures BlockTotal(t, p', t0, t1, nb, j, m) == BlockTotal(t, p, t0, t1, nb, j, m)
  {
    if m > 0 {
      SameTotal(t, p, p', t0, t1, nb, hit, j, m - 1);
    }
  }

  lemma {:induction false} SameMeans(t: seq<real>, p: seq<real>, p': seq<real>, t0: real, t1: real, nb: nat,
      hit: nat -> bool, blocks: nat)
    requires Samples(t, p) && Samples(t, p') && t0 < t1 && nb > 0 && DiffersIn(t, p, p', t0, t1, nb, hit)
    ensures var a, b := Means(t, p, t0, t1, nb, blocks), Means(t, p', t0, t1, nb, blocks);
      var h := Hits(t, t0, t1, nb, hit, blocks);
      |a| == |b| == |h| && forall i :: 0 <= i < |a| && !h[i] ==> a[i] == b[i]
  {
    if blocks > 0 {
      SameMeans(t, p, p', t0, t1, nb, hit, blocks - 1);
      if !hit(blocks - 1) {
        SameTotal(t, p, p', t0, t1, nb, hit, blocks - 1, |t|);
      }
    }
  }

  /**
   Whatever a burst does to the samples of fewer than half of the blocks that are not empty, the
   robust level stays between bounds on the other blocks' means without the burst.
   */
  lemma BurstIgnored(st: Stat, t: seq<real>, p: seq<real>, p': seq<real>, t0: real, t1: real, hit: nat -> bool,
      lo: real, hi: real)
    requires Samples(t, p) && Samples(t, p') && t0 < t1 && DiffersIn(t, p, p', t0, t1, NumBlocks(t1 - t0), hit)
    requires Describes(st, t, p', t0, t1)
    requires var nb := NumBlocks(t1 - t0);
      var quiet, h := Means(t, p, t0, t1, nb, nb), Hits(t, t0, t1, nb, hit, nb);
      && |quiet| == |h| && 2 * Trues(h) < |h|
      && forall i :: 0 <= i < |h| && !h[i] ==> lo <= quiet[i] <= hi
    ensures lo <= st.robust <= hi
  {
    var nb := NumBlocks(t1 - t0);
    SameMeans(t, p, p', t0, t1, nb, hit, nb);
    RobustLevel(st, t, p', t0, t1, Hits(t, t0, t1, nb, hit, nb), lo, hi);
  }
}
