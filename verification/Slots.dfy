/**
 The blocks of ina260_stats in terms of time: a window is cut into slots of equal length, and a
 burst is an interval of time.
 */
module Slots {
  import opened Energy
  import opened Medians
  import opened Blocks
  import opened Variances

  /** The times of slot j: closed below and open above, but for the last slot. */
  predicate InSlot(x: real, t0: real, t1: real, nb: nat, j: nat)
    requires nb > 0
  {
    var w := (t1 - t0) / nb as real;
    t0 + j as real * w <= x && (x < t0 + (j + 1) as real * w || (j == nb - 1 && x <= t1))
  }

  /** Slot j holds a sample of the window. */
  ghost predicate Occupied(t: seq<real>, t0: real, t1: real, nb: nat, j: nat)
    requires nb > 0
  {
    exists i :: 0 <= i < |t| && t0 <= t[i] <= t1 && InSlot(t[i], t0, t1, nb, j)
  }

  /** The interval [u, v] has a time in common with slot j. */
  ghost predicate Met(u: real, v: real, t0: real, t1: real, nb: nat, j: nat)
    requires nb > 0
  {
    exists x :: u <= x <= v && InSlot(x, t0, t1, nb, j)
  }

  /** How many of the first n slots hold samples. */
  ghost function OccupiedSlots(t: seq<real>, t0: real, t1: real, nb: nat, n: nat): nat
    requires nb > 0
  {
    if n == 0 then 0 else OccupiedSlots(t, t0, t1, nb, n - 1) + if Occupied(t, t0, t1, nb, n - 1) then 1 else 0
  }

  /** How many of these meet the interval. */
  ghost function MetSlots(t: seq<real>, t0: real, t1: real, nb: nat, u: real, v: real, n: nat): nat
    requires nb > 0
  {
    if n == 0 then 0 else
      MetSlots(t, t0, t1, nb, u, v, n - 1)
      + if Occupied(t, t0, t1, nb, n - 1) && Met(u, v, t0, t1, nb, n - 1) then 1 else 0
  }

  /**
   Outside of the interval [u, v] every sample of the window has a power between lo and hi, and the
   interval meets fewer than half of the slots that hold samples.
   */
  ghost predicate ShortBurst(t: seq<real>, p: seq<real>, t0: real, t1: real, u: real, v: real, lo: real, hi: real) {
    && Samples(t, p) && t0 < t1
    && (forall i :: 0 <= i < |t| && t0 <= t[i] <= t1 && !(u <= t[i] <= v) ==> lo <= p[i] <= hi)
    && var nb := NumBlocks(t1 - t0);
      2 * MetSlots(t, t0, t1, nb, u, v, nb) < OccupiedSlots(t, t0, t1, nb, nb)
  }

  // ----- blocks are slots

  /** A block is a quarter of a second long, unless that would make fewer than 3 blocks or more than 255. */
  lemma QuarterSeconds(len: real)
    ensures var nb := NumBlocks(len);
      && (nb > 3 ==> nb as real * 0.25 <= len)
      && (nb < 255 ==> len < (nb + 1) as real * 0.25)
  {
    assert len / BLOCK_S == 4.0 * len;
  }

  /** A sample of the window falls into block j exactly when its time lies in slot j. */
  lemma SlotOf(x: real, t0: real, t1: real, nb: nat, j: nat)
    requires t0 < t1 && t0 <= x <= t1 && j < nb
    ensures BlockOf(x, t0, t1, nb) == j <==> InSlot(x, t0, t1, nb, j)
  {
    var n, len := nb as real, t1 - t0;
    var y, w := (x - t0) / len * n, len / n;
    Rescaled(x - t0, len, n);
    Rescaled(len, len, n);
    InOrder(j as real, y, w);
    InOrder((j + 1) as real, y, w);
  }

  lemma Rescaled(x: real, len: real, n: real)
    requires len > 0.0 && n > 0.0
    ensures len / n > 0.0 && x == (x / len * n) * (len / n)
  {
    var w := len / n;
    assert len == w * n;
    assert x == x / len * len;
    Associate(x / len, n, w);
  }

  lemma Associate(a: real, b: real, c: real)
    ensures (a * b) * c == a * (c * b)
  {
  }

  lemma InOrder(a: real, b: real, w: real)
    requires w > 0.0
    ensures a <= b <==> a * w <= b * w
  {
  }

  // ----- the law

  lemma {:induction false} CountedIn(t: seq<real>, t0: real, t1: real, nb: nat, j: nat, m: nat)
    requires m <= |t| && t0 < t1 && j < nb
    ensures Count(t, t0, t1, nb, j, m) > 0 <==>
      exists i :: 0 <= i < m && t0 <= t[i] <= t1 && InSlot(t[i], t0, t1, nb, j)
  {
    if m > 0 {
      CountedIn(t, t0, t1, nb, j, m - 1);
      if t0 <= t[m - 1] <= t1 {
        SlotOf(t[m - 1], t0, t1, nb, j);
      }
    }
  }

  lemma {:induction false} QuietTotal(t: seq<real>, p: seq<real>, t0: real, t1: real, nb: nat, j: nat, m: nat,
      u: real, v: real, lo: real, hi: real)
    requires Samples(t, p) && m <= |t| && t0 < t1 && j < nb && !Met(u, v, t0, t1, nb, j)
    requires forall i :: 0 <= i < |t| && t0 <= t[i] <= t1 && !(u <= t[i] <= v) ==> lo <= p[i] <= hi
    ensures var n := Count(t, t0, t1, nb, j, m);
      Repeated(n, lo) <= BlockTotal(t, p, t0, t1, nb, j, m) <= Repeated(n, hi)
  {
    if m > 0 {
      QuietTotal(t, p, t0, t1, nb, j, m - 1, u, v, lo, hi);
      if InBlock(t[m - 1], t0, t1, nb, j) {
        SlotOf(t[m - 1], t0, t1, nb, j);
        assert !(u <= t[m - 1] <= v);
      }
    }
  }

  lemma MeanBetween(total: real, n: nat, lo: real, hi: real)
    requires n > 0 && Repeated(n, lo) <= total <= Repeated(n, hi)
    ensures lo <= total / n as real <= hi
  {
    RepeatedIs(n, lo);
    RepeatedIs(n, hi);
    Quotients(lo, total, n as real, hi);
  }

  lemma Quotients(lo: real, total: real, n: real, hi: real)
    requires n > 0.0 && n * lo <= total <= n * hi
    ensures lo <= total / n <= hi
  {
    assert total == total / n * n;
    InOrder(lo, total / n, n);
    InOrder(total / n, hi, n);
  }

  /** The mean of a block whose slot the interval does not meet. */
  lemma QuietMean(t: seq<real>, p: seq<real>, t0: real, t1: real, nb: nat, j: nat,
      u: real, v: real, lo: real, hi: real)
    requires Samples(t, p) && t0 < t1 && j < nb && !Met(u, v, t0, t1, nb, j)
    requires forall i :: 0 <= i < |t| && t0 <= t[i] <= t1 && !(u <= t[i] <= v) ==> lo <= p[i] <= hi
    requires Count(t, t0, t1, nb, j, |t|) > 0
    ensures lo <= BlockTotal(t, p, t0, t1, nb, j, |t|) / Count(t, t0, t1, nb, j, |t|) as real <= hi
  {
    QuietTotal(t, p, t0, t1, nb, j, |t|, u, v, lo, hi);
    MeanBetween(BlockTotal(t, p, t0, t1, nb, j, |t|), Count(t, t0, t1, nb, j, |t|), lo, hi);
  }

  /** For each block that is not empty, whether the interval meets its slot. */
  ghost function Disturbed(t: seq<real>, t0: real, t1: real, nb: nat, u: real, v: real, n: nat): seq<bool>
    requires nb > 0
  {
    if n == 0 then [] else
      Disturbed(t, t0, t1, nb, u, v, n - 1)
      + if Occupied(t, t0, t1, nb, n - 1) then [Met(u, v, t0, t1, nb, n - 1)] else []
  }

  lemma {:induction false} TruesAppend(d: seq<bool>, b: bool)
    ensures Trues(d + [b]) == Trues(d) + if b then 1 else 0
    decreases |d|
  {
    if d != [] {
      TruesAppend(d[1..], b);
      assert (d + [b])[1..] == d[1..] + [b];
    }
  }

  lemma {:induction false} OneMeanPerSlot(t: seq<real>, p: seq<real>, t0: real, t1: real, nb: nat, n: nat)
    requires Samples(t, p) && t0 < t1 && n <= nb && nb > 0
    ensures |Means(t, p, t0, t1, nb, n)| == OccupiedSlots(t, t0, t1, nb, n)
  {
    if n > 0 {
      OneMeanPerSlot(t, p, t0, t1, nb, n - 1);
      CountedIn(t, t0, t1, nb, n - 1, |t|);
    }
  }

  lemma {:induction false} QuietMeans(t: seq<real>, p: seq<real>, t0: real, t1: real, nb: nat, n: nat,
      u: real, v: real, lo: real, hi: real)
    requires Samples(t, p) && t0 < t1 && n <= nb && nb > 0
    requires forall i :: 0 <= i < |t| && t0 <= t[i] <= t1 && !(u <= t[i] <= v) ==> lo <= p[i] <= hi
    ensures var means, d := Means(t, p, t0, t1, nb, n), Disturbed(t, t0, t1, nb, u, v, n);
      && |d| == |means| && Trues(d) == MetSlots(t, t0, t1, nb, u, v, n)
      && forall i :: 0 <= i < |d| && !d[i] ==> lo <= means[i] <= hi
  {
    if n > 0 {
      var j := n - 1;
      var rest, d := Means(t, p, t0, t1, nb, j), Disturbed(t, t0, t1, nb, u, v, j);
      QuietMeans(t, p, t0, t1, nb, j, u, v, lo, hi);
      CountedIn(t, t0, t1, nb, j, |t|);
      assert Occupied(t, t0, t1, nb, j) <==> Count(t, t0, t1, nb, j, |t|) > 0;
      if Occupied(t, t0, t1, nb, j) {
        var met := Met(u, v, t0, t1, nb, j);
        var mean := BlockTotal(t, p, t0, t1, nb, j, |t|) / Count(t, t0, t1, nb, j, |t|) as real;
        TruesAppend(d, met);
        if !met {
          QuietMean(t, p, t0, t1, nb, j, u, v, lo, hi);
        }
        assert Means(t, p, t0, t1, nb, n) == rest + [mean];
        assert Disturbed(t, t0, t1, nb, u, v, n) == d + [met];
      } else {
        assert Means(t, p, t0, t1, nb, n) == rest && Disturbed(t, t0, t1, nb, u, v, n) == d;
      }
    }
  }

  /** A burst that meets fewer than half of the slots in use leaves the median of the means where the rest is. */
  lemma LevelWithin(t: seq<real>, p: seq<real>, t0: real, t1: real, u: real, v: real, lo: real, hi: real)
    requires ShortBurst(t, p, t0, t1, u, v, lo, hi)
    ensures var means := Means(t, p, t0, t1, NumBlocks(t1 - t0), NumBlocks(t1 - t0));
      |means| > 0 && lo <= Median(Sorted(means)) <= hi
  {
    var nb := NumBlocks(t1 - t0);
    OneMeanPerSlot(t, p, t0, t1, nb, nb);
    QuietMeans(t, p, t0, t1, nb, nb, u, v, lo, hi);
    RobustWithin(Means(t, p, t0, t1, nb, nb), Disturbed(t, t0, t1, nb, u, v, nb), lo, hi);
  }
}
