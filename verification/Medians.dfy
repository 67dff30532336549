/** Sorting and medians, as ina260_stats (src/ina260.h) uses them. */
module Medians {
  import opened Energy

  // ----- the result of qsort with ina260_cmp

  function Insert(x: real, s: seq<real>): (r: seq<real>)
    ensures |r| == |s| + 1
    decreases |s|
  {
    if s == [] || x <= s[0] then [x] + s else [s[0]] + Insert(x, s[1..])
  }

  function Sorted(s: seq<real>): (r: seq<real>)
    ensures |r| == |s|
    decreases |s|
  {
    if s == [] then [] else Insert(s[0], Sorted(s[1..]))
  }

  lemma {:induction false} InsertOrdered(x: real, s: seq<real>)
    requires Ordered(s)
    ensures Ordered(Insert(x, s))
    ensures forall i :: 0 <= i <= |s| ==> Insert(x, s)[i] >= (if s == [] || x <= s[0] then x else s[0])
    decreases |s|
  {
    if s != [] && x > s[0] {
      InsertOrdered(x, s[1..]);
      var r := Insert(x, s[1..]);
      assert Insert(x, s) == [s[0]] + r;
      assert forall i :: 0 <= i < |r| ==> r[i] >= s[0];
    }
  }

  lemma {:induction false} SortedOrdered(s: seq<real>)
    ensures Ordered(Sorted(s))
    decreases |s|
  {
    if s != [] {
      SortedOrdered(s[1..]);
      InsertOrdered(s[0], Sorted(s[1..]));
    }
  }

  // ----- how many elements satisfy f

  function CountIf(s: seq<real>, f: real -> bool): (n: nat)
    ensures n <= |s|
    decreases |s|
  {
    if s == [] then 0 else (if f(s[0]) then 1 else 0) + CountIf(s[1..], f)
  }

  lemma {:induction false} InsertCount(x: real, s: seq<real>, f: real -> bool)
    ensures CountIf(Insert(x, s), f) == CountIf([x], f) + CountIf(s, f)
    decreases |s|
  {
    if s == [] || x <= s[0] {
      assert ([x] + s)[1..] == s;
    } else {
      InsertCount(x, s[1..], f);
      assert ([s[0]] + Insert(x, s[1..]))[1..] == Insert(x, s[1..]);
    }
  }

  /** Sorting keeps every count: the result is a permutation. */
  lemma {:induction false} SortedCount(s: seq<real>, f: real -> bool)
    ensures CountIf(Sorted(s), f) == CountIf(s, f)
    decreases |s|
  {
    if s != [] {
      SortedCount(s[1..], f);
      InsertCount(s[0], Sorted(s[1..]), f);
    }
  }

  lemma {:induction false} CountPrefix(s: seq<real>, f: real -> bool, n: nat)
    requires n <= |s| && forall i :: 0 <= i < n ==> f(s[i])
    ensures CountIf(s, f) >= n
    decreases |s|
  {
    if n > 0 {
      CountPrefix(s[1..], f, n - 1);
    }
  }

  lemma {:induction false} CountSuffix(s: seq<real>, f: real -> bool, n: nat)
    requires n <= |s| && forall i :: n <= i < |s| ==> f(s[i])
    ensures CountIf(s, f) >= |s| - n
    decreases |s|
  {
    if n > 0 {
      CountSuffix(s[1..], f, n - 1);
    } else {
      CountPrefix(s, f, |s|);
    }
  }

  function Trues(d: seq<bool>): nat {
    if d == [] then 0 else (if d[0] then 1 else 0) + Trues(d[1..])
  }

  lemma {:induction false} CountMarked(s: seq<real>, d: seq<bool>, f: real -> bool)
    requires |s| == |d| && forall i :: 0 <= i < |s| && f(s[i]) ==> d[i]
    ensures CountIf(s, f) <= Trues(d)
    decreases |s|
  {
    if s != [] {
      CountMarked(s[1..], d[1..], f);
    }
  }

  // ----- medians

  /** The middle of a sorted sequence, or the mean of its two middles. */
  function Median(s: seq<real>): real
    requires |s| > 0
  {
    var k := |s|;
    if k % 2 != 0 then s[k / 2] else 0.5 * (s[k / 2 - 1] + s[k / 2])
  }

  /** Fewer than half of the values may be arbitrary: the median stays between bounds on the others. */
  lemma RobustWithin(m: seq<real>, disturbed: seq<bool>, lo: real, hi: real)
    requires |m| == |disturbed| > 0 && 2 * Trues(disturbed) < |m|
    requires forall i :: 0 <= i < |m| && !disturbed[i] ==> lo <= m[i] <= hi
    ensures lo <= Median(Sorted(m)) <= hi
  {
    var s, k := Sorted(m), |m|;
    SortedOrdered(m);
    var below, above := (x: real) => x < lo, (x: real) => x > hi;
    SortedCount(m, below);
    SortedCount(m, above);
    CountMarked(m, disturbed, below);
    CountMarked(m, disturbed, above);
    var first := if k % 2 != 0 then k / 2 else k / 2 - 1;
    if s[first] < lo {
      CountPrefix(s, below, first + 1);
      assert false;
    }
    if s[k / 2] > hi {
      CountSuffix(s, above, k / 2);
      assert false;
    }
    assert s[first] <= s[k / 2];
  }

  // ----- negation

  function Negated(s: seq<real>): (r: seq<real>)
    ensures |r| == |s|
  {
    seq(|s|, i requires 0 <= i < |s| => -s[i])
  }

  /** Negated, in the reverse order. */
  function Mirrored(s: seq<real>): (r: seq<real>)
    ensures |r| == |s|
  {
    seq(|s|, i requires 0 <= i < |s| => -s[|s| - 1 - i])
  }

  predicate Mirrors(m: seq<real>, s: seq<real>) {
    |m| == |s| && forall i :: 0 <= i < |s| ==> m[i] == -s[|s| - 1 - i]
  }

  lemma {:induction false} CountNegated(s: seq<real>, f: real -> bool, g: real -> bool)
    requires forall x :: g(x) == f(-x)
    ensures CountIf(Negated(s), f) == CountIf(s, g)
    decreases |s|
  {
    if s != [] {
      CountNegated(s[1..], f, g);
      assert Negated(s)[1..] == Negated(s[1..]);
    }
  }

  lemma {:induction false} CountAppend(s: seq<real>, x: real, f: real -> bool)
    ensures CountIf(s + [x], f) == CountIf(s, f) + if f(x) then 1 else 0
    decreases |s|
  {
    if s == [] {
      assert ([x] + [])[1..] == [];
    } else {
      CountAppend(s[1..], x, f);
      assert (s + [x])[1..] == s[1..] + [x];
    }
  }

  lemma {:induction false} CountMirrored(s: seq<real>, f: real -> bool, g: real -> bool)
    requires forall x :: g(x) == f(-x)
    ensures CountIf(Mirrored(s), f) == CountIf(s, g)
    decreases |s|
  {
    if s != [] {
      CountMirrored(s[1..], f, g);
      CountAppend(Mirrored(s[1..]), -s[0], f);
      assert Mirrored(s) == Mirrored(s[1..]) + [-s[0]];
    }
  }

  lemma {:induction false} CountBoth(s: seq<real>, f: real -> bool, g: real -> bool)
    requires forall x :: g(x) == !f(x)
    ensures CountIf(s, f) + CountIf(s, g) == |s|
    decreases |s|
  {
    if s != [] {
      CountBoth(s[1..], f, g);
    }
  }

  ghost predicate SameCounts(a: seq<real>, b: seq<real>) {
    |a| == |b| && forall f: real -> bool :: CountIf(a, f) == CountIf(b, f)
  }

  lemma NotBelow(a: seq<real>, b: seq<real>, i: nat)
    requires Ordered(a) && Ordered(b) && SameCounts(a, b) && i < |a|
    ensures a[i] >= b[i]
  {
    if a[i] < b[i] {
      var f, g := (x: real) => x <= a[i], (x: real) => !(x <= a[i]);
      CountPrefix(a, f, i + 1);
      CountSuffix(b, g, i);
      CountBoth(b, f, g);
      assert false;
    }
  }

  /** Only one ordered sequence has the given elements. */
  lemma OrderedUnique(a: seq<real>, b: seq<real>)
    requires Ordered(a) && Ordered(b) && SameCounts(a, b)
    ensures a == b
  {
    forall i | 0 <= i < |a|
      ensures a[i] == b[i]
    {
      NotBelow(a, b, i);
      NotBelow(b, a, i);
    }
  }

  lemma SortedNegated(s: seq<real>)
    ensures Mirrors(Sorted(Negated(s)), Sorted(s))
  {
    var a, b := Sorted(Negated(s)), Mirrored(Sorted(s));
    SortedOrdered(s);
    SortedOrdered(Negated(s));
    forall f: real -> bool
      ensures CountIf(a, f) == CountIf(b, f)
    {
      var g := (x: real) => f(-x);
      SortedCount(Negated(s), f);
      CountNegated(s, f, g);
      SortedCount(s, g);
      CountMirrored(Sorted(s), f, g);
    }
    OrderedUnique(a, b);
  }

  lemma MedianMirrored(s: seq<real>, m: seq<real>)
    requires |s| > 0 && Mirrors(m, s)
    ensures Median(m) == -Median(s)
  {
    var k := |s|;
    assert k % 2 != 0 ==> k - 1 - k / 2 == k / 2;
    assert k % 2 == 0 ==> k - 1 - k / 2 == k / 2 - 1;
  }

  /** The median prefers neither end: negating all values negates it. */
  lemma MedianNegated(s: seq<real>)
    requires |s| > 0
    ensures Median(Sorted(Negated(s))) == -Median(Sorted(s))
  {
    SortedNegated(s);
    MedianMirrored(Sorted(s), Sorted(Negated(s)));
  }
}
