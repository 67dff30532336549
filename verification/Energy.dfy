/**
 The clipped trapezoidal integral of ina260_energy (src/ina260.h), over real numbers.  t and p are
 the times and the powers of the samples.
 */
module Energy {

  // ----- one segment

  function Max(a: real, b: real): real {
    if a < b then b else a
  }

  function Min(a: real, b: real): real {
    if a > b then b else a
  }

  /** What the body of the loop adds for the segment from (ta, pa) to (tb, pb). */
  function Segment(ta: real, tb: real, pa: real, pb: real, t0: real, t1: real): real {
    if tb <= t0 || ta >= t1 || tb <= ta then 0.0
    else
      var k := (pb - pa) / (tb - ta);
      var a := if ta < t0 then t0 else ta;
      var b := if tb > t1 then t1 else tb;
      Piece(ta, pa, k, a, b)
  }

  /** The trapezoid over [a, b] under the line through (ta, pa) with slope k. */
  function Piece(ta: real, pa: real, k: real, a: real, b: real): real {
    0.5 * ((pa + k * (a - ta)) + (pa + k * (b - ta))) * (b - a)
  }

  predicate Samples(t: seq<real>, p: seq<real>) {
    |t| == |p|
  }

  /** The contributions of the first m segments. */
  function Sum(t: seq<real>, p: seq<real>, t0: real, t1: real, m: nat): real
    requires Samples(t, p) && (m == 0 || m < |t|)
  {
    if m == 0 then 0.0 else Sum(t, p, t0, t1, m - 1) + Segment(t[m - 1], t[m], p[m - 1], p[m], t0, t1)
  }

  function Segments(t: seq<real>): nat {
    if |t| == 0 then 0 else |t| - 1
  }

  function EnergyOf(t: seq<real>, p: seq<real>, t0: real, t1: real): real
    requires Samples(t, p)
  {
    Sum(t, p, t0, t1, Segments(t))
  }

  /** ina260_energy. */
  method Ina260Energy(t: array<real>, p: array<real>, n: nat, t0: real, t1: real) returns (e: real)
    requires n <= t.Length && n <= p.Length
    ensures e == EnergyOf(t[..n], p[..n], t0, t1)
  {
    e := 0.0;
    var i := 0;
    while i + 1 < n
      invariant 0 <= i <= Segments(t[..n])
      invariant e == Sum(t[..n], p[..n], t0, t1, i)
    {
      var ta := t[i];
      var tb := t[i + 1];
      i := i + 1;
      if tb <= t0 || ta >= t1 || tb <= ta {
        continue;
      }
      var k := (p[i] - p[i - 1]) / (tb - ta);
      var a := if ta < t0 then t0 else ta;
      var b := if tb > t1 then t1 else tb;
      e := e + Piece(ta, p[i - 1], k, a, b);
    }
  }

  // ----- a segment as a difference of antiderivatives

  /** x, moved into the segment. */
  function Clamp(ta: real, tb: real, x: real): real {
    Max(ta, Min(tb, x))
  }

  /** The integral of the interpolated power from ta to x. */
  function Area(ta: real, pa: real, k: real, x: real): real {
    pa * (x - ta) + 0.5 * k * (x - ta) * (x - ta)
  }

  lemma Trapezoid(ta: real, pa: real, k: real, a: real, b: real)
    ensures Piece(ta, pa, k, a, b) == Area(ta, pa, k, b) - Area(ta, pa, k, a)
  {
    var x, y := a - ta, b - ta;
    assert b - a == y - x;
    Square(pa, k, x, y);
  }

  lemma Square(pa: real, k: real, x: real, y: real)
    ensures 0.5 * ((pa + k * x) + (pa + k * y)) * (y - x) == (pa * y + 0.5 * k * y * y) - (pa * x + 0.5 * k * x * x)
  {
  }

  lemma SegmentIsArea(ta: real, tb: real, pa: real, pb: real, t0: real, t1: real)
    requires t0 <= t1 && ta < tb
    ensures var k := (pb - pa) / (tb - ta);
      Segment(ta, tb, pa, pb, t0, t1) == Area(ta, pa, k, Clamp(ta, tb, t1)) - Area(ta, pa, k, Clamp(ta, tb, t0))
  {
    if !(tb <= t0 || ta >= t1) {
      Trapezoid(ta, pa, (pb - pa) / (tb - ta), Clamp(ta, tb, t0), Clamp(ta, tb, t1));
    }
  }

  // ----- additivity

  lemma SegmentAdds(ta: real, tb: real, pa: real, pb: real, t0: real, t1: real, t2: real)
    requires t0 <= t1 <= t2
    ensures Segment(ta, tb, pa, pb, t0, t2) == Segment(ta, tb, pa, pb, t0, t1) + Segment(ta, tb, pa, pb, t1, t2)
  {
    if ta < tb {
      SegmentIsArea(ta, tb, pa, pb, t0, t1);
      SegmentIsArea(ta, tb, pa, pb, t1, t2);
      SegmentIsArea(ta, tb, pa, pb, t0, t2);
    }
  }

  lemma {:induction false} SumAdds(t: seq<real>, p: seq<real>, t0: real, t1: real, t2: real, m: nat)
    requires Samples(t, p) && (m == 0 || m < |t|) && t0 <= t1 <= t2
    ensures Sum(t, p, t0, t2, m) == Sum(t, p, t0, t1, m) + Sum(t, p, t1, t2, m)
  {
    if m > 0 {
      SumAdds(t, p, t0, t1, t2, m - 1);
      SegmentAdds(t[m - 1], t[m], p[m - 1], p[m], t0, t1, t2);
    }
  }

  /** The energy of a window is that of its two parts, wherever it is split and whatever the samples. */
  lemma EnergyAdds(t: seq<real>, p: seq<real>, t0: real, t1: real, t2: real)
    requires Samples(t, p) && t0 <= t1 <= t2
    ensures EnergyOf(t, p, t0, t2) == EnergyOf(t, p, t0, t1) + EnergyOf(t, p, t1, t2)
  {
    SumAdds(t, p, t0, t1, t2, Segments(t));
  }

  // ----- affine power

  predicate Ordered(t: seq<real>) {
    forall i, j :: 0 <= i <= j < |t| ==> t[i] <= t[j]
  }

  /** ina260_covers. */
  predicate Covers(t: seq<real>, t0: real, t1: real) {
    |t| >= 2 && t[0] <= t0 && t[|t| - 1] >= t1
  }

  /** Ordered samples cover a window exactly if some are no later than its start and some no earlier than its end. */
  lemma CoversIff(t: seq<real>, t0: real, t1: real)
    requires Ordered(t) && |t| >= 2
    ensures Covers(t, t0, t1) <==>
      (exists i :: 0 <= i < |t| && t[i] <= t0) && exists i :: 0 <= i < |t| && t1 <= t[i]
  {
    if i :| 0 <= i < |t| && t[i] <= t0 {
      assert t[0] <= t[i];
    }
    if i :| 0 <= i < |t| && t1 <= t[i] {
      assert t[i] <= t[|t| - 1];
    }
  }

  /** A window before the first sample or after the last one has no energy. */
  lemma EnergyOutside(t: seq<real>, p: seq<real>, t0: real, t1: real)
    requires Samples(t, p) && Ordered(t) && |t| > 0 && (t1 <= t[0] || t[|t| - 1] <= t0)
    ensures EnergyOf(t, p, t0, t1) == 0.0
  {
    NothingOutside(t, p, t0, t1, |t| - 1);
  }

  lemma {:induction false} NothingOutside(t: seq<real>, p: seq<real>, t0: real, t1: real, m: nat)
    requires Samples(t, p) && Ordered(t) && m < |t| && (t1 <= t[0] || t[|t| - 1] <= t0)
    ensures Sum(t, p, t0, t1, m) == 0.0
  {
    if m > 0 {
      NothingOutside(t, p, t0, t1, m - 1);
      assert t[0] <= t[m - 1] && t[m] <= t[|t| - 1];
    }
  }

  predicate Affine(t: seq<real>, p: seq<real>, c: real, d: real)
    requires Samples(t, p)
  {
    forall i :: 0 <= i < |t| ==> p[i] == c + d * t[i]
  }

  /** The integral of c + d x. */
  function Exact(c: real, d: real, x: real): real {
    c * x + 0.5 * d * x * x
  }

  lemma SlopeOf(ta: real, tb: real, c: real, d: real)
    requires ta < tb
    ensures ((c + d * tb) - (c + d * ta)) / (tb - ta) == d
  {
    assert (c + d * tb) - (c + d * ta) == d * (tb - ta);
  }

  lemma AreaExact(ta: real, c: real, d: real, x: real)
    ensures Area(ta, c + d * ta, d, x) == Exact(c, d, x) - Exact(c, d, ta)
  {
    var y := x - ta;
    assert x == y + ta;
    ExactShift(c, d, ta, y);
  }

  lemma ExactShift(c: real, d: real, ta: real, y: real)
    ensures (c + d * ta) * y + 0.5 * d * y * y
      == (c * (y + ta) + 0.5 * d * (y + ta) * (y + ta)) - (c * ta + 0.5 * d * ta * ta)
  {
  }

  lemma SegmentExact(ta: real, tb: real, pa: real, pb: real, t0: real, t1: real, c: real, d: real)
    requires t0 <= t1 && ta <= tb && pa == c + d * ta && pb == c + d * tb
    ensures Segment(ta, tb, pa, pb, t0, t1) == Exact(c, d, Clamp(ta, tb, t1)) - Exact(c, d, Clamp(ta, tb, t0))
  {
    if ta < tb {
      SegmentIsArea(ta, tb, pa, pb, t0, t1);
      SlopeOf(ta, tb, c, d);
      AreaExact(ta, c, d, Clamp(ta, tb, t0));
      AreaExact(ta, c, d, Clamp(ta, tb, t1));
    }
  }

  /** Clamping to adjoining segments. */
  lemma ClampSplits(h: real -> real, a: real, b: real, c: real, x: real)
    requires a <= b <= c
    ensures h(Clamp(a, c, x)) == h(Clamp(a, b, x)) + h(Clamp(b, c, x)) - h(b)
  {
  }

  /** h(b) - h(a), for the ends a and b of the part of the window in segment i. */
  function Difference(h: real -> real, t: seq<real>, t0: real, t1: real, i: nat): real
    requires 1 <= i < |t|
  {
    h(Clamp(t[i - 1], t[i], t1)) - h(Clamp(t[i - 1], t[i], t0))
  }

  function SegmentAt(t: seq<real>, p: seq<real>, t0: real, t1: real, i: nat): real
    requires Samples(t, p) && 1 <= i < |t|
  {
    Segment(t[i - 1], t[i], p[i - 1], p[i], t0, t1)
  }

  /** The differences add up to that of the whole window. */
  lemma {:induction false} SumAtMost(t: seq<real>, p: seq<real>, t0: real, t1: real, h: real -> real, m: nat)
    requires Samples(t, p) && m < |t| && Ordered(t)
    requires forall i :: 1 <= i <= m ==> SegmentAt(t, p, t0, t1, i) <= Difference(h, t, t0, t1, i)
    ensures Sum(t, p, t0, t1, m) <= h(Clamp(t[0], t[m], t1)) - h(Clamp(t[0], t[m], t0))
  {
    if m > 0 {
      SumAtMost(t, p, t0, t1, h, m - 1);
      assert SegmentAt(t, p, t0, t1, m) <= Difference(h, t, t0, t1, m);
      ClampSplits(h, t[0], t[m - 1], t[m], t0);
      ClampSplits(h, t[0], t[m - 1], t[m], t1);
    }
  }

  lemma {:induction false} SumAtLeast(t: seq<real>, p: seq<real>, t0: real, t1: real, h: real -> real, m: nat)
    requires Samples(t, p) && m < |t| && Ordered(t)
    requires forall i :: 1 <= i <= m ==> SegmentAt(t, p, t0, t1, i) >= Difference(h, t, t0, t1, i)
    ensures Sum(t, p, t0, t1, m) >= h(Clamp(t[0], t[m], t1)) - h(Clamp(t[0], t[m], t0))
  {
    if m > 0 {
      SumAtLeast(t, p, t0, t1, h, m - 1);
      assert SegmentAt(t, p, t0, t1, m) >= Difference(h, t, t0, t1, m);
      ClampSplits(h, t[0], t[m - 1], t[m], t0);
      ClampSplits(h, t[0], t[m - 1], t[m], t1);
    }
  }

  /** On a covered window, bounds on the segments bound the result. */
  lemma EnergyAtMost(t: seq<real>, p: seq<real>, t0: real, t1: real, h: real -> real)
    requires Samples(t, p) && Ordered(t) && Covers(t, t0, t1) && t0 <= t1
    requires forall i :: 1 <= i < |t| ==> SegmentAt(t, p, t0, t1, i) <= Difference(h, t, t0, t1, i)
    ensures EnergyOf(t, p, t0, t1) <= h(t1) - h(t0)
  {
    SumAtMost(t, p, t0, t1, h, |t| - 1);
  }

  lemma EnergyAtLeast(t: seq<real>, p: seq<real>, t0: real, t1: real, h: real -> real)
    requires Samples(t, p) && Ordered(t) && Covers(t, t0, t1) && t0 <= t1
    requires forall i :: 1 <= i < |t| ==> SegmentAt(t, p, t0, t1, i) >= Difference(h, t, t0, t1, i)
    ensures EnergyOf(t, p, t0, t1) >= h(t1) - h(t0)
  {
    SumAtLeast(t, p, t0, t1, h, |t| - 1);
  }

  function ExactFrom(c: real, d: real): real -> real {
    x => Exact(c, d, x)
  }

  /** Where the power is affine and the samples cover the window, the result is the exact integral. */
  lemma EnergyExact(t: seq<real>, p: seq<real>, t0: real, t1: real, c: real, d: real)
    requires Samples(t, p) && Ordered(t) && Covers(t, t0, t1) && t0 <= t1 && Affine(t, p, c, d)
    ensures EnergyOf(t, p, t0, t1) == c * (t1 - t0) + 0.5 * d * (t1 * t1 - t0 * t0)
  {
    forall i | 1 <= i < |t|
      ensures SegmentAt(t, p, t0, t1, i) == Difference(ExactFrom(c, d), t, t0, t1, i)
    {
      SegmentExact(t[i - 1], t[i], p[i - 1], p[i], t0, t1, c, d);
    }
    EnergyAtMost(t, p, t0, t1, ExactFrom(c, d));
    EnergyAtLeast(t, p, t0, t1, ExactFrom(c, d));
    ExactDifference(c, d, t0, t1);
  }

  lemma ExactDifference(c: real, d: real, t0: real, t1: real)
    ensures Exact(c, d, t1) - Exact(c, d, t0) == c * (t1 - t0) + 0.5 * d * (t1 * t1 - t0 * t0)
  {
  }

  // ----- bounds

  /** The interpolated power stays between bounds on the powers at the ends. */
  lemma Between(ta: real, tb: real, pa: real, pb: real, x: real, lo: real, hi: real)
    requires ta < tb && ta <= x <= tb && lo <= pa <= hi && lo <= pb <= hi
    ensures lo <= pa + (pb - pa) / (tb - ta) * (x - ta) <= hi
  {
    var w := (x - ta) / (tb - ta);
    Fraction(x - ta, tb - ta);
    assert (pb - pa) / (tb - ta) * (x - ta) == w * (pb - pa);
    assert pa + w * (pb - pa) == (1.0 - w) * pa + w * pb;
    Convex(w, pa, pb, lo, hi);
  }

  lemma Fraction(x: real, y: real)
    requires 0.0 <= x <= y && y > 0.0
    ensures 0.0 <= x / y <= 1.0
  {
  }

  lemma Convex(w: real, a: real, b: real, lo: real, hi: real)
    requires 0.0 <= w <= 1.0 && lo <= a <= hi && lo <= b <= hi
    ensures lo <= (1.0 - w) * a + w * b <= hi
  {
    assert (1.0 - w) * (a - lo) >= 0.0 && w * (b - lo) >= 0.0;
    assert (1.0 - w) * (hi - a) >= 0.0 && w * (hi - b) >= 0.0;
  }

  lemma SegmentBounds(ta: real, tb: real, pa: real, pb: real, t0: real, t1: real, lo: real, hi: real)
    requires t0 <= t1 && ta <= tb && lo <= pa <= hi && lo <= pb <= hi
    ensures var len := Clamp(ta, tb, t1) - Clamp(ta, tb, t0); lo * len <= Segment(ta, tb, pa, pb, t0, t1) <= hi * len
  {
    if tb <= t0 || ta >= t1 || tb <= ta {
      assert Clamp(ta, tb, t1) - Clamp(ta, tb, t0) == 0.0;
    } else {
      InnerBounds(ta, tb, pa, pb, Clamp(ta, tb, t0), Clamp(ta, tb, t1), lo, hi);
    }
  }

  lemma InnerBounds(ta: real, tb: real, pa: real, pb: real, a: real, b: real, lo: real, hi: real)
    requires ta < tb && ta <= a <= b <= tb && lo <= pa <= hi && lo <= pb <= hi
    ensures var k := (pb - pa) / (tb - ta); lo * (b - a) <= Piece(ta, pa, k, a, b) <= hi * (b - a)
  {
    var k := (pb - pa) / (tb - ta);
    Between(ta, tb, pa, pb, a, lo, hi);
    Between(ta, tb, pa, pb, b, lo, hi);
    Mean(pa + k * (a - ta), pa + k * (b - ta), b - a, lo, hi);
  }

  lemma Mean(u: real, v: real, len: real, lo: real, hi: real)
    requires lo <= u <= hi && lo <= v <= hi && len >= 0.0
    ensures lo * len <= 0.5 * (u + v) * len <= hi * len
  {
    var w := 0.5 * (u + v);
    assert lo <= w <= hi;
    assert (w - lo) * len >= 0.0 && (hi - w) * len >= 0.0;
  }

  function Scale(c: real): real -> real {
    x => Scaled(c, x)
  }

  function Scaled(c: real, x: real): real {
    c * x
  }

  lemma ScaledDifference(c: real, a: real, b: real)
    ensures Scaled(c, b) - Scaled(c, a) == c * (b - a)
  {
  }

  lemma SegmentAtBounds(t: seq<real>, p: seq<real>, t0: real, t1: real, lo: real, hi: real, i: nat)
    requires Samples(t, p) && 1 <= i < |t| && t0 <= t1 && t[i - 1] <= t[i] && lo <= p[i - 1] <= hi && lo <= p[i] <= hi
    ensures Difference(Scale(lo), t, t0, t1, i) <= SegmentAt(t, p, t0, t1, i) <= Difference(Scale(hi), t, t0, t1, i)
  {
    SegmentBounds(t[i - 1], t[i], p[i - 1], p[i], t0, t1, lo, hi);
    ScaledDifference(lo, Clamp(t[i - 1], t[i], t0), Clamp(t[i - 1], t[i], t1));
    ScaledDifference(hi, Clamp(t[i - 1], t[i], t0), Clamp(t[i - 1], t[i], t1));
  }

  /** The result lies between the smallest and the largest power, times the length of the window. */
  lemma EnergyBounds(t: seq<real>, p: seq<real>, t0: real, t1: real, lo: real, hi: real)
    requires Samples(t, p) && Ordered(t) && Covers(t, t0, t1) && t0 <= t1
    requires forall i :: 0 <= i < |p| ==> lo <= p[i] <= hi
    ensures lo * (t1 - t0) <= EnergyOf(t, p, t0, t1) <= hi * (t1 - t0)
  {
    forall i | 1 <= i < |t|
      ensures Difference(Scale(lo), t, t0, t1, i) <= SegmentAt(t, p, t0, t1, i) <= Difference(Scale(hi), t, t0, t1, i)
    {
      SegmentAtBounds(t, p, t0, t1, lo, hi, i);
    }
    EnergyAtLeast(t, p, t0, t1, Scale(lo));
    EnergyAtMost(t, p, t0, t1, Scale(hi));
    ScaledDifference(lo, t0, t1);
    ScaledDifference(hi, t0, t1);
  }
}
