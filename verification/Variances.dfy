/** The square of the standard deviation in ina260_stats (src/ina260.h:246-249). */
module Variances {
  import opened Blocks

  function SumOf(s: seq<real>, f: real -> real): real {
    if s == [] then 0.0 else SumOf(s[..|s| - 1], f) + f(s[|s| - 1])
  }

  lemma SumOfAppend(s: seq<real>, x: real, f: real -> real)
    ensures SumOf(s + [x], f) == SumOf(s, f) + f(x)
  {
    assert (s + [x])[..|s|] == s;
  }

  function SquareOf(): real -> real {
    (x: real) => x * x
  }

  /** The squared distance from m. */
  function Deviation(m: real): real -> real {
    (x: real) => (x - m) * (x - m)
  }

  /** The mean of the squared distances from the mean. */
  function Variance(s: seq<real>): real
    requires s != []
  {
    SumOf(s, Deviation(Total(s) / |s| as real)) / |s| as real
  }

  lemma {:induction false} SumNotNegative(s: seq<real>, f: real -> real)
    requires forall x :: f(x) >= 0.0
    ensures SumOf(s, f) >= 0.0
  {
    if s != [] {
      SumNotNegative(s[..|s| - 1], f);
    }
  }

  /** k, added n times. */
  function Repeated(n: nat, k: real): real {
    if n == 0 then 0.0 else Repeated(n - 1, k) + k
  }

  lemma {:induction false} RepeatedIs(n: nat, k: real)
    ensures Repeated(n, k) == n as real * k
  {
    if n > 0 {
      RepeatedIs(n - 1, k);
      assert n as real * k == (n - 1) as real * k + k;
    }
  }

  predicate AddsAt(l: real -> real, x: real, y: real) {
    l(x + y) == l(x) + l(y)
  }

  /** d is f less the linear l, plus a constant. */
  ghost predicate Combines(d: real -> real, f: real -> real, l: real -> real, k: real) {
    (forall x :: d(x) == f(x) - l(x) + k) && Linear(l)
  }

  ghost predicate Linear(l: real -> real) {
    l(0.0) == 0.0 && forall x, y :: AddsAt(l, x, y)
  }

  lemma {:induction false} SumsCombine(s: seq<real>, d: real -> real, f: real -> real, l: real -> real, k: real)
    requires Combines(d, f, l, k)
    ensures SumOf(s, d) == SumOf(s, f) - l(Total(s)) + Repeated(|s|, k)
  {
    if s != [] {
      var rest, x := s[..|s| - 1], s[|s| - 1];
      SumsCombine(rest, d, f, l, k);
      assert AddsAt(l, Total(rest), x);
    }
  }

  function Times(c: real): real -> real {
    (x: real) => c * x
  }

  lemma DeviationCombines(m: real)
    ensures Combines(Deviation(m), SquareOf(), Times(2.0 * m), m * m)
  {
    forall x
      ensures Deviation(m)(x) == SquareOf()(x) - Times(2.0 * m)(x) + m * m
    {
      Binomial(m, x);
    }
    TimesLinear(2.0 * m);
  }

  lemma TimesLinear(c: real)
    ensures Linear(Times(c))
  {
    forall x, y
      ensures AddsAt(Times(c), x, y)
    {
      Distributes(c, x, y);
    }
  }

  lemma Binomial(m: real, x: real)
    ensures Deviation(m)(x) == SquareOf()(x) - Times(2.0 * m)(x) + m * m
  {
  }

  lemma Distributes(c: real, x: real, y: real)
    ensures AddsAt(Times(c), x, y)
  {
  }

  lemma DeviationNotNegative(m: real, x: real)
    ensures Deviation(m)(x) >= 0.0
  {
  }

  /** The sum of the deviations, from the sums of the one pass. */
  lemma Expanded(s: seq<real>, d: real -> real, f: real -> real, l: real -> real, k: real)
    requires Combines(d, f, l, k)
    ensures SumOf(s, d) == SumOf(s, f) - l(Total(s)) + |s| as real * k
  {
    SumsCombine(s, d, f, l, k);
    RepeatedIs(|s|, k);
  }

  lemma DeviationsExpand(s: seq<real>, m: real)
    ensures SumOf(s, Deviation(m)) == SumOf(s, SquareOf()) - Times(2.0 * m)(Total(s)) + |s| as real * (m * m)
  {
    DeviationCombines(m);
    Expanded(s, Deviation(m), SquareOf(), Times(2.0 * m), m * m);
  }

  lemma DeviationsNotNegative(s: seq<real>, m: real)
    ensures SumOf(s, Deviation(m)) >= 0.0
  {
    forall x
      ensures Deviation(m)(x) >= 0.0
    {
      DeviationNotNegative(m, x);
    }
    SumNotNegative(s, Deviation(m));
  }

  /** The one-pass formula gives the mean square deviation, so that its guard replaces nothing but 0. */
  lemma OnePassVariance(s: seq<real>, sum: real, sq: real)
    requires s != [] && sum == Total(s) && sq == SumOf(s, SquareOf())
    ensures sq / |s| as real - (sum / |s| as real) * (sum / |s| as real) == Variance(s) >= 0.0
  {
    var n := |s| as real;
    var m := sum / n;
    DeviationsExpand(s, m);
    DeviationsNotNegative(s, m);
    AtTheMean(SumOf(s, Deviation(m)), sq, sum, n, m);
  }

  lemma AtTheMean(dev: real, sq: real, total: real, n: real, m: real)
    requires n > 0.0 && m == total / n && dev >= 0.0
    requires dev == sq - Times(2.0 * m)(total) + n * (m * m)
    ensures dev / n == sq / n - m * m && dev / n >= 0.0
  {
    assert total == m * n;
    assert Times(2.0 * m)(total) == 2.0 * (n * (m * m));
    Quotient(sq, n, m * m);
  }

  lemma Quotient(sq: real, n: real, k: real)
    requires n > 0.0
    ensures (sq - n * k) / n == sq / n - k
  {
  }
}
