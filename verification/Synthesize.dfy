/**
 The choice of a backend by src/synthesize.c, over real numbers: the entry nearest to the wanted
 point, with times and energies normalised by their ranges among the candidates.
 */
module Synthesize {

  datatype Function = Encryption | Hashing

  /** An entry of db.yaml; imp is the number at the end of its name. */
  datatype Entry = Entry(imp: int, fn: Function, level: int, time: real, energy: real)

  /** What is asked for: function, security level, and preferences -t and -e. */
  datatype Query = Query(fn: Function, level: int, tp: int, en: int)

  predicate Candidate(q: Query, e: Entry) {
    e.fn == q.fn && e.level == q.level
  }

  // ----- the ranges, as the first loop computes them

  function MinTime(q: Query, d: seq<Entry>): real {
    if d == [] then 10000.0 else
      var m, e := MinTime(q, d[..|d| - 1]), d[|d| - 1];
      if Candidate(q, e) && m > e.time then e.time else m
  }

  function MaxTime(q: Query, d: seq<Entry>): real {
    if d == [] then 0.0 else
      var m, e := MaxTime(q, d[..|d| - 1]), d[|d| - 1];
      if Candidate(q, e) && m < e.time then e.time else m
  }

  function MinEnergy(q: Query, d: seq<Entry>): real {
    if d == [] then 10.0 else
      var m, e := MinEnergy(q, d[..|d| - 1]), d[|d| - 1];
      if Candidate(q, e) && m > e.energy then e.energy else m
  }

  function MaxEnergy(q: Query, d: seq<Entry>): real {
    if d == [] then 0.0 else
      var m, e := MaxEnergy(q, d[..|d| - 1]), d[|d| - 1];
      if Candidate(q, e) && m < e.energy then e.energy else m
  }

  /** The wanted value: smallest, middle or largest. */
  function Wanted(preference: int, min: real, max: real): real {
    if preference == 0 then min else if preference == 1 then (min + max) / 2.0 else if preference == 2 then max else 0.0
  }

  // ----- distances

  /** One term of the distance. */
  function Term(want: real, x: real, min: real, max: real): real
    requires min < max
  {
    Square((want - x) / (max - min))
  }

  function Square(x: real): real {
    Mul(x, x)
  }

  function Mul(a: real, b: real): real {
    a * b
  }

  /** There are candidates with different times and different energies. */
  predicate Spread(q: Query, d: seq<Entry>) {
    MinTime(q, d) < MaxTime(q, d) && MinEnergy(q, d) < MaxEnergy(q, d)
  }

  function Dist(q: Query, d: seq<Entry>, e: Entry): real
    requires Spread(q, d)
  {
    Term(Wanted(q.tp, MinTime(q, d), MaxTime(q, d)), e.time, MinTime(q, d), MaxTime(q, d))
    + Term(Wanted(q.en, MinEnergy(q, d), MaxEnergy(q, d)), e.energy, MinEnergy(q, d), MaxEnergy(q, d))
  }

  /** The first of the candidates nearest to the wanted point. */
  ghost predicate Nearest(q: Query, d: seq<Entry>, id: nat)
    requires Spread(q, d)
  {
    && id < |d| && Candidate(q, d[id])
    && (forall j :: 0 <= j < |d| && Candidate(q, d[j]) ==> Dist(q, d, d[id]) <= Dist(q, d, d[j]))
    && (forall j :: 0 <= j < id && Candidate(q, d[j]) ==> Dist(q, d, d[id]) < Dist(q, d, d[j]))
  }

  // ----- when the initial values of the loops do no harm

  /** Measurements as they come: not negative, some within the initial minima, and not all alike. */
  ghost predicate Measured(q: Query, d: seq<Entry>) {
    && (forall i :: 0 <= i < |d| && Candidate(q, d[i]) ==> d[i].time >= 0.0 && d[i].energy >= 0.0)
    && (exists i :: 0 <= i < |d| && Candidate(q, d[i]) && d[i].time <= 10000.0)
    && (exists i :: 0 <= i < |d| && Candidate(q, d[i]) && d[i].energy <= 10.0)
    && (exists i, j | 0 <= i < |d| && 0 <= j < |d| ::
      Candidate(q, d[i]) && Candidate(q, d[j]) && d[i].time < d[j].time)
    && (exists i, j | 0 <= i < |d| && 0 <= j < |d| ::
      Candidate(q, d[i]) && Candidate(q, d[j]) && d[i].energy < d[j].energy)
  }

  lemma {:induction false} MinTimeIs(q: Query, d: seq<Entry>)
    ensures forall i :: 0 <= i < |d| && Candidate(q, d[i]) ==> MinTime(q, d) <= d[i].time
    ensures MinTime(q, d) == 10000.0 || exists i :: 0 <= i < |d| && Candidate(q, d[i]) && d[i].time == MinTime(q, d)
    ensures MinTime(q, d) <= 10000.0
  {
    if d != [] {
      var n, rest := |d| - 1, d[..|d| - 1];
      MinTimeIs(q, rest);
      var m := MinTime(q, rest);
      if Candidate(q, d[n]) && m > d[n].time {
        assert d[n].time == MinTime(q, d);
      } else if m != 10000.0 {
        var i :| 0 <= i < n && Candidate(q, rest[i]) && rest[i].time == m;
        assert d[i].time == MinTime(q, d);
      }
      assert forall i :: 0 <= i < n ==> d[i] == rest[i];
    }
  }

  lemma {:induction false} MaxTimeIs(q: Query, d: seq<Entry>)
    ensures forall i :: 0 <= i < |d| && Candidate(q, d[i]) ==> d[i].time <= MaxTime(q, d)
    ensures MaxTime(q, d) == 0.0 || exists i :: 0 <= i < |d| && Candidate(q, d[i]) && d[i].time == MaxTime(q, d)
  {
    if d != [] {
      var n, rest := |d| - 1, d[..|d| - 1];
      MaxTimeIs(q, rest);
      var m := MaxTime(q, rest);
      if Candidate(q, d[n]) && m < d[n].time {
        assert d[n].time == MaxTime(q, d);
      } else if m != 0.0 {
        var i :| 0 <= i < n && Candidate(q, rest[i]) && rest[i].time == m;
        assert d[i].time == MaxTime(q, d);
      }
      assert forall i :: 0 <= i < n ==> d[i] == rest[i];
    }
  }

  lemma {:induction false} MinEnergyIs(q: Query, d: seq<Entry>)
    ensures forall i :: 0 <= i < |d| && Candidate(q, d[i]) ==> MinEnergy(q, d) <= d[i].energy
    ensures MinEnergy(q, d) == 10.0 || exists i :: 0 <= i < |d| && Candidate(q, d[i]) && d[i].energy == MinEnergy(q, d)
    ensures MinEnergy(q, d) <= 10.0
  {
    if d != [] {
      var n, rest := |d| - 1, d[..|d| - 1];
      MinEnergyIs(q, rest);
      var m := MinEnergy(q, rest);
      if Candidate(q, d[n]) && m > d[n].energy {
        assert d[n].energy == MinEnergy(q, d);
      } else if m != 10.0 {
        var i :| 0 <= i < n && Candidate(q, rest[i]) && rest[i].energy == m;
        assert d[i].energy == MinEnergy(q, d);
      }
      assert forall i :: 0 <= i < n ==> d[i] == rest[i];
    }
  }

  lemma {:induction false} MaxEnergyIs(q: Query, d: seq<Entry>)
    ensures forall i :: 0 <= i < |d| && Candidate(q, d[i]) ==> d[i].energy <= MaxEnergy(q, d)
    ensures MaxEnergy(q, d) == 0.0 || exists i :: 0 <= i < |d| && Candidate(q, d[i]) && d[i].energy == MaxEnergy(q, d)
  {
    if d != [] {
      var n, rest := |d| - 1, d[..|d| - 1];
      MaxEnergyIs(q, rest);
      var m := MaxEnergy(q, rest);
      if Candidate(q, d[n]) && m < d[n].energy {
        assert d[n].energy == MaxEnergy(q, d);
      } else if m != 0.0 {
        var i :| 0 <= i < n && Candidate(q, rest[i]) && rest[i].energy == m;
        assert d[i].energy == MaxEnergy(q, d);
      }
      assert forall i :: 0 <= i < n ==> d[i] == rest[i];
    }
  }

  /** Smallest and largest among the candidates. */
  ghost predicate IsRange(q: Query, d: seq<Entry>, mint: real, maxt: real, mine: real, maxe: real) {
    && (forall i :: 0 <= i < |d| && Candidate(q, d[i]) ==> mint <= d[i].time <= maxt && mine <= d[i].energy <= maxe)
    && (exists i :: 0 <= i < |d| && Candidate(q, d[i]) && d[i].time == mint)
    && (exists i :: 0 <= i < |d| && Candidate(q, d[i]) && d[i].time == maxt)
    && (exists i :: 0 <= i < |d| && Candidate(q, d[i]) && d[i].energy == mine)
    && (exists i :: 0 <= i < |d| && Candidate(q, d[i]) && d[i].energy == maxe)
  }

  lemma MeasuredRange(q: Query, d: seq<Entry>)
    requires Measured(q, d)
    ensures Spread(q, d) && IsRange(q, d, MinTime(q, d), MaxTime(q, d), MinEnergy(q, d), MaxEnergy(q, d))
  {
    MinTimeIs(q, d);
    MaxTimeIs(q, d);
    MinEnergyIs(q, d);
    MaxEnergyIs(q, d);
  }

  lemma RangeUnique(q: Query, d: seq<Entry>, a: real, b: real, c: real, e: real, a': real, b': real, c': real, e': real)
    requires IsRange(q, d, a, b, c, e) && IsRange(q, d, a', b', c', e')
    ensures a == a' && b == b' && c == c' && e == e'
  {
  }

  // ----- synthesize

  /** The first loop. */
  method Ranges(q: Query, d: seq<Entry>) returns (mint: real, maxt: real, mine: real, maxe: real)
    ensures mint == MinTime(q, d) && maxt == MaxTime(q, d) && mine == MinEnergy(q, d) && maxe == MaxEnergy(q, d)
  {
    maxe, mine, maxt, mint := 0.0, 10.0, 0.0, 10000.0;
    var j := 0;
    while j < |d|
      invariant 0 <= j <= |d|
      invariant mint == MinTime(q, d[..j]) && maxt == MaxTime(q, d[..j]) && mine == MinEnergy(q, d[..j])
      invariant maxe == MaxEnergy(q, d[..j])
    {
      assert d[..j + 1][..j] == d[..j];
      if Candidate(q, d[j]) {
        if maxe < d[j].energy {
          maxe := d[j].energy;
        }
        if mine > d[j].energy {
          mine := d[j].energy;
        }
        if maxt < d[j].time {
          maxt := d[j].time;
        }
        if mint > d[j].time {
          mint := d[j].time;
        }
      }
      j := j + 1;
    }
    assert d[..j] == d;
  }

  /** A floating-point distance; a division by 0 makes it a NaN or an infinity, which is not below any number. */
  datatype Distance = Undefined | Number(value: real)

  predicate Below(a: Distance, b: real) {
    a.Number? && a.value < b
  }

  function TermOf(want: real, x: real, min: real, max: real): Distance {
    if min == max then Undefined else Number(Square((want - x) / (max - min)))
  }

  function Plus(a: Distance, b: Distance): Distance {
    if a.Number? && b.Number? then Number(a.value + b.value) else Undefined
  }

  /** What the second loop stores: entries that are no candidates are put far away. */
  function DistanceOf(q: Query, d: seq<Entry>, e: Entry): Distance {
    if !Candidate(q, e) then Number(10000.0)
    else if Spread(q, d) then Number(Dist(q, d, e))
    else Undefined
  }

  /** The ranges of the candidates never are the wrong way round. */
  lemma RangesOrdered(q: Query, d: seq<Entry>, i: nat)
    requires i < |d| && Candidate(q, d[i])
    ensures MinTime(q, d) <= d[i].time <= MaxTime(q, d) && MinEnergy(q, d) <= d[i].energy <= MaxEnergy(q, d)
  {
    MinTimeIs(q, d);
    MaxTimeIs(q, d);
    MinEnergyIs(q, d);
    MaxEnergyIs(q, d);
  }

  /** The second loop. */
  method Distances(q: Query, d: seq<Entry>) returns (dist: array<Distance>)
    ensures fresh(dist) && dist.Length == |d|
    ensures forall j :: 0 <= j < |d| ==> dist[j] == DistanceOf(q, d, d[j])
  {
    var mint, maxt, mine, maxe := Ranges(q, d);
    var time, energy := Wanted(q.tp, mint, maxt), Wanted(q.en, mine, maxe);
    dist := new Distance[|d|];
    var j := 0;
    while j < |d|
      invariant 0 <= j <= |d|
      invariant forall i :: 0 <= i < j ==> dist[i] == DistanceOf(q, d, d[i])
    {
      if Candidate(q, d[j]) {
        RangesOrdered(q, d, j);
        dist[j] := Plus(TermOf(time, d[j].time, mint, maxt), TermOf(energy, d[j].energy, mine, maxe));
      } else {
        dist[j] := Number(10000.0);
      }
      j := j + 1;
    }
  }

  /** Some candidate's distance is below the bound that the search starts from. */
  ghost predicate Reachable(q: Query, d: seq<Entry>) {
    Spread(q, d) && exists j :: 0 <= j < |d| && Candidate(q, d[j]) && Dist(q, d, d[j]) < 10000.0
  }

  /** The choice: the first of the nearest candidates if any is near enough, else the first entry of all. */
  ghost predicate Chosen(q: Query, d: seq<Entry>, id: nat) {
    if Reachable(q, d) then Nearest(q, d, id) else id == 0
  }

  /** The index that synthesize prints the name of. */
  method Synthesize(q: Query, d: seq<Entry>) returns (id: nat)
    ensures Chosen(q, d, id)
  {
    var dist := Distances(q, d);
    id := First(dist);
    if j :| 0 <= j < |d| && Below(dist[j], 10000.0) {
      assert Below(dist[id], 10000.0) && Candidate(q, d[id]);
      forall i | 0 <= i < |d| && Candidate(q, d[i])
        ensures Dist(q, d, d[id]) <= Dist(q, d, d[i])
      {
        assert dist[i] == Number(Dist(q, d, d[i]));
      }
    } else if Spread(q, d) {
      forall i | 0 <= i < |d| && Candidate(q, d[i])
        ensures Dist(q, d, d[i]) >= 10000.0
      {
        assert !Below(dist[i], 10000.0);
      }
    }
  }

  /** The third loop: the first of the smallest distances, among those below 10000. */
  method First(dist: array<Distance>) returns (id: nat)
    ensures (exists j :: 0 <= j < dist.Length && Below(dist[j], 10000.0)) ==>
      && id < dist.Length && Below(dist[id], 10000.0)
      && (forall j :: 0 <= j < dist.Length ==> !Below(dist[j], dist[id].value))
      && forall j :: 0 <= j < id && dist[j].Number? ==> dist[id].value < dist[j].value
    ensures (forall j :: 0 <= j < dist.Length ==> !Below(dist[j], 10000.0)) ==> id == 0
  {
    var mind := 10000.0;
    id := 0;
    var j := 0;
    while j < dist.Length
      invariant 0 <= j <= dist.Length && (id < j || id == 0)
      invariant mind == 10000.0 || (id < j && dist[id] == Number(mind) && mind < 10000.0)
      invariant forall i :: 0 <= i < j ==> !Below(dist[i], mind)
      invariant mind < 10000.0 ==> forall i :: 0 <= i < id && dist[i].Number? ==> mind < dist[i].value
      invariant mind == 10000.0 ==> id == 0
    {
      if Below(dist[j], mind) {
        mind := dist[j].value;
        id := j;
      }
      j := j + 1;
    }
  }

  // ----- when the choice is a nearest candidate

  /** With preferences 0 to 2, exactly when neither the times nor the energies span an empty range. */
  lemma ChosenIsNearest(q: Query, d: seq<Entry>, id: nat)
    requires 0 <= q.tp <= 2 && 0 <= q.en <= 2 && Chosen(q, d, id)
    ensures Reachable(q, d) <==> Spread(q, d)
    ensures if Spread(q, d) then Nearest(q, d, id) else id == 0
  {
    if Spread(q, d) {
      MinTimeIs(q, d);
      MaxTimeIs(q, d);
      var j :| 0 <= j < |d| && Candidate(q, d[j]);
      RangesOrdered(q, d, j);
      DistanceSmall(q, d, d[j]);
      assert Dist(q, d, d[j]) < 10000.0;
    }
  }

  /** Non-negative measurements, some within the initial minima, span a range exactly if they differ. */
  lemma SpreadIff(q: Query, d: seq<Entry>)
    requires forall i :: 0 <= i < |d| && Candidate(q, d[i]) ==> d[i].time >= 0.0 && d[i].energy >= 0.0
    requires exists i :: 0 <= i < |d| && Candidate(q, d[i]) && d[i].time <= 10000.0
    requires exists i :: 0 <= i < |d| && Candidate(q, d[i]) && d[i].energy <= 10.0
    ensures Spread(q, d) <==> Measured(q, d)
  {
    if Measured(q, d) {
      MeasuredRange(q, d);
    }
    if Spread(q, d) {
      MinTimeIs(q, d);
      MaxTimeIs(q, d);
      MinEnergyIs(q, d);
      MaxEnergyIs(q, d);
      var i, j :| 0 <= i < |d| && 0 <= j < |d| && Candidate(q, d[i]) && Candidate(q, d[j])
        && d[i].time == MinTime(q, d) && d[j].time == MaxTime(q, d);
      assert d[i].time < d[j].time;
      var k, l :| 0 <= k < |d| && 0 <= l < |d| && Candidate(q, d[k]) && Candidate(q, d[l])
        && d[k].energy == MinEnergy(q, d) && d[l].energy == MaxEnergy(q, d);
      assert d[k].energy < d[l].energy;
    }
  }

  // ----- what the preferences ask for

  /** x is where the preference wants it: 0 at the least, 1 midway, 2 at the greatest value. */
  predicate At(preference: int, x: real, min: real, max: real) {
    match preference
    case 0 => x == min
    case 1 => x - min == max - x
    case 2 => x == max
    case _ => x == 0.0
  }

  lemma WantedIsAt(preference: int, x: real, min: real, max: real)
    ensures x == Wanted(preference, min, max) <==> At(preference, x, min, max)
  {
  }

  /** e has the time and the energy that are asked for. */
  ghost predicate Ideal(q: Query, d: seq<Entry>, e: Entry) {
    At(q.tp, e.time, MinTime(q, d), MaxTime(q, d)) && At(q.en, e.energy, MinEnergy(q, d), MaxEnergy(q, d))
  }

  /** For all preferences: the choice is just what is asked for, exactly if some candidate is. */
  lemma ChoiceIsIdeal(q: Query, d: seq<Entry>, id: nat)
    requires Spread(q, d) && Nearest(q, d, id)
    ensures Ideal(q, d, d[id]) <==> exists j :: 0 <= j < |d| && Candidate(q, d[j]) && Ideal(q, d, d[j])
  {
    forall j | 0 <= j < |d| && Candidate(q, d[j])
      ensures Dist(q, d, d[j]) >= 0.0 && (Dist(q, d, d[j]) == 0.0 <==> Ideal(q, d, d[j]))
    {
      var mint, maxt, mine, maxe := MinTime(q, d), MaxTime(q, d), MinEnergy(q, d), MaxEnergy(q, d);
      TermZero(Wanted(q.tp, mint, maxt), d[j].time, mint, maxt);
      TermZero(Wanted(q.en, mine, maxe), d[j].energy, mine, maxe);
      WantedIsAt(q.tp, d[j].time, mint, maxt);
      WantedIsAt(q.en, d[j].energy, mine, maxe);
    }
  }

  /** -t 2 -e 2: the choice is slowest and dearest exactly if some candidate is. */
  lemma ChoiceForGreatest(q: Query, d: seq<Entry>, id: nat)
    requires Measured(q, d) && Spread(q, d) && Nearest(q, d, id) && q.tp == 2 && q.en == 2
    ensures SlowestAndDearest(q, d, d[id]) <==>
      exists j :: 0 <= j < |d| && Candidate(q, d[j]) && SlowestAndDearest(q, d, d[j])
  {
    MeasuredRange(q, d);
    ChoiceIsIdeal(q, d, id);
    forall j | 0 <= j < |d| && Candidate(q, d[j])
      ensures Ideal(q, d, d[j]) <==> SlowestAndDearest(q, d, d[j])
    {
    }
  }

  /** No candidate takes more time, and none more energy. */
  ghost predicate SlowestAndDearest(q: Query, d: seq<Entry>, e: Entry) {
    forall j :: 0 <= j < |d| && Candidate(q, d[j]) ==> d[j].time <= e.time && d[j].energy <= e.energy
  }

  /** -t 0 -e 2: each preference is about its own quantity. */
  lemma ChoiceForMixed(q: Query, d: seq<Entry>, id: nat)
    requires Measured(q, d) && Spread(q, d) && Nearest(q, d, id) && q.tp == 0 && q.en == 2
    ensures FastestAndDearest(q, d, d[id]) <==>
      exists j :: 0 <= j < |d| && Candidate(q, d[j]) && FastestAndDearest(q, d, d[j])
  {
    MeasuredRange(q, d);
    ChoiceIsIdeal(q, d, id);
    forall j | 0 <= j < |d| && Candidate(q, d[j])
      ensures Ideal(q, d, d[j]) <==> FastestAndDearest(q, d, d[j])
    {
    }
  }

  ghost predicate FastestAndDearest(q: Query, d: seq<Entry>, e: Entry) {
    forall j :: 0 <= j < |d| && Candidate(q, d[j]) ==> e.time <= d[j].time && d[j].energy <= e.energy
  }

  // ----- the choice without quotients

  /** The distance of the point (x, y), with each axis scaled by the range of the other. */
  function Crossed(x: real, y: real, rangex: real, rangey: real): real {
    (rangey * x) * (rangey * x) + (rangex * y) * (rangex * y)
  }

  lemma CrossedSquare(x: real, y: real, rangex: real, rangey: real)
    requires rangex > 0.0 && rangey > 0.0
    ensures Crossed(x, y, rangex, rangey) == Mul(Square(Mul(rangex, rangey)), Square(x / rangex) + Square(y / rangey))
  {
    var a, b, m := x / rangex, y / rangey, Mul(rangex, rangey);
    Unscaled(x, rangex, rangey);
    Unscaled(y, rangey, rangex);
    SquareOfProduct(m, a);
    SquareOfProduct(m, b);
    MulSum(Square(m), Square(a), Square(b));
  }

  lemma Unscaled(x: real, range: real, other: real)
    requires range > 0.0
    ensures other * x == Mul(range, other) * (x / range) == Mul(other, range) * (x / range)
  {
    var a := x / range;
    assert x == a * range;
  }

  lemma MulSum(m: real, a: real, b: real)
    ensures Mul(m, a + b) == Mul(m, a) + Mul(m, b)
  {
  }

  lemma CrossedOrder(x: real, y: real, x': real, y': real, rangex: real, rangey: real)
    requires rangex > 0.0 && rangey > 0.0
    ensures Crossed(x, y, rangex, rangey) <= Crossed(x', y', rangex, rangey)
      <==> Square(x / rangex) + Square(y / rangey) <= Square(x' / rangex) + Square(y' / rangey)
  {
    var m := Mul(rangex, rangey);
    Positive(rangex, rangey);
    Positive(m, m);
    CrossedSquare(x, y, rangex, rangey);
    CrossedSquare(x', y', rangex, rangey);
    MulOrder(Square(m), Square(x / rangex) + Square(y / rangey), Square(x' / rangex) + Square(y' / rangey));
  }

  lemma SquareOfProduct(m: real, a: real)
    ensures (m * a) * (m * a) == Mul(Square(m), Square(a))
  {
  }

  lemma MulOrder(m: real, a: real, b: real)
    requires m > 0.0
    ensures a <= b <==> Mul(m, a) <= Mul(m, b)
  {
  }

  lemma DistOrder(q: Query, d: seq<Entry>, a: Entry, b: Entry, time: real, energy: real)
    requires Spread(q, d)
    requires time == Wanted(q.tp, MinTime(q, d), MaxTime(q, d))
    requires energy == Wanted(q.en, MinEnergy(q, d), MaxEnergy(q, d))
    ensures var ranget, rangee := MaxTime(q, d) - MinTime(q, d), MaxEnergy(q, d) - MinEnergy(q, d);
      Dist(q, d, a) <= Dist(q, d, b) <==>
        Crossed(time - a.time, energy - a.energy, ranget, rangee)
        <= Crossed(time - b.time, energy - b.energy, ranget, rangee)
  {
    CrossedOrder(time - a.time, energy - a.energy, time - b.time, energy - b.energy,
      MaxTime(q, d) - MinTime(q, d), MaxEnergy(q, d) - MinEnergy(q, d));
  }

  /**
   The choice in plain terms: for the ranges and the point asked for, no entry of the function and
   level is nearer, and none before it as near, with times and energies weighed by their ranges.
   */
  lemma ChoiceIsNearest(q: Query, d: seq<Entry>, id: nat, mint: real, maxt: real, mine: real, maxe: real,
      time: real, energy: real, j: nat)
    requires Measured(q, d) && Spread(q, d) && Nearest(q, d, id) && IsRange(q, d, mint, maxt, mine, maxe)
    requires At(q.tp, time, mint, maxt) && At(q.en, energy, mine, maxe)
    requires j < |d| && d[j].fn == q.fn && d[j].level == q.level
    ensures d[id].fn == q.fn && d[id].level == q.level
    ensures var near := Crossed(time - d[id].time, energy - d[id].energy, maxt - mint, maxe - mine);
      var far := Crossed(time - d[j].time, energy - d[j].energy, maxt - mint, maxe - mine);
      near <= far && (j < id ==> near < far)
  {
    MeasuredRange(q, d);
    RangeUnique(q, d, mint, maxt, mine, maxe, MinTime(q, d), MaxTime(q, d), MinEnergy(q, d), MaxEnergy(q, d));
    WantedIsAt(q.tp, time, mint, maxt);
    WantedIsAt(q.en, energy, mine, maxe);
    DistOrder(q, d, d[id], d[j], time, energy);
    DistOrder(q, d, d[j], d[id], time, energy);
  }

  const LEAST := Query(Encryption, 1, 0, 0)
  const LONE := [Entry(1, Encryption, 2, 1.0, 1.0), Entry(2, Encryption, 1, 1.0, 1.0)]

  /** A level with a single backend: its range is empty, and an entry of another level is chosen. */
  lemma LoneCandidate(id: nat)
    requires Chosen(LEAST, LONE, id)
    ensures Candidate(LEAST, LONE[1]) && id == 0 && !Candidate(LEAST, LONE[0])
  {
    MinTimeIs(LEAST, LONE);
    MaxTimeIs(LEAST, LONE);
    ChosenIsNearest(LEAST, LONE, id);
  }

  lemma TermSmall(want: real, x: real, min: real, max: real)
    requires min < max && min <= want <= max && min <= x <= max
    ensures 0.0 <= Term(want, x, min, max) <= 1.0
  {
    Ratio(want - x, max - min);
    SquareSmall((want - x) / (max - min));
  }

  lemma Ratio(n: real, w: real)
    requires w > 0.0 && -w <= n <= w
    ensures -1.0 <= n / w <= 1.0
  {
  }

  lemma Product(a: real, b: real)
    requires a >= 0.0 && b >= 0.0
    ensures a * b >= 0.0
  {
  }

  lemma OneMinusSquare(r: real)
    ensures (1.0 - r) * (1.0 + r) == 1.0 - Mul(r, r)
  {
  }

  lemma SquareSmall(r: real)
    requires -1.0 <= r <= 1.0
    ensures 0.0 <= Square(r) <= 1.0
  {
    Product(1.0 - r, 1.0 + r);
    OneMinusSquare(r);
    SquareZero(r);
  }

  lemma DistanceSmall(q: Query, d: seq<Entry>, e: Entry)
    requires Spread(q, d) && 0 <= q.tp <= 2 && 0 <= q.en <= 2
    requires MinTime(q, d) <= e.time <= MaxTime(q, d) && MinEnergy(q, d) <= e.energy <= MaxEnergy(q, d)
    ensures 0.0 <= Dist(q, d, e) <= 2.0
  {
    TermSmall(Wanted(q.tp, MinTime(q, d), MaxTime(q, d)), e.time, MinTime(q, d), MaxTime(q, d));
    TermSmall(Wanted(q.en, MinEnergy(q, d), MaxEnergy(q, d)), e.energy, MinEnergy(q, d), MaxEnergy(q, d));
  }

  lemma NearestUnique(q: Query, d: seq<Entry>, i: nat, j: nat)
    requires Spread(q, d) && Nearest(q, d, i) && Nearest(q, d, j)
    ensures i == j
  {
  }

  // ----- -t 0 -e 0

  predicate FastestAndCheapest(q: Query, d: seq<Entry>, e: Entry) {
    e.time == MinTime(q, d) && e.energy == MinEnergy(q, d)
  }

  lemma TermZero(want: real, x: real, min: real, max: real)
    requires min < max
    ensures Term(want, x, min, max) >= 0.0 && (Term(want, x, min, max) == 0.0 <==> want == x)
  {
    var r := (want - x) / (max - min);
    assert r * (max - min) == want - x;
    SquareZero(r);
    assert r == 0.0 <==> want == x;
  }

  lemma SquareZero(r: real)
    ensures Square(r) >= 0.0 && (Square(r) == 0.0 <==> r == 0.0)
  {
    if r > 0.0 {
      Positive(r, r);
    } else if r < 0.0 {
      Positive(-r, -r);
      Negated(r, r);
    }
  }

  lemma Positive(a: real, b: real)
    requires a > 0.0 && b > 0.0
    ensures Mul(a, b) > 0.0
  {
  }

  lemma Negated(a: real, b: real)
    ensures Mul(-a, -b) == Mul(a, b)
  {
  }

  /** With -t 0 -e 0 the choice is both fastest and cheapest, exactly if some candidate is. */
  lemma ChoiceForLeast(q: Query, d: seq<Entry>, id: nat)
    requires Spread(q, d) && Nearest(q, d, id) && q.tp == 0 && q.en == 0
    ensures FastestAndCheapest(q, d, d[id]) <==>
      exists j :: 0 <= j < |d| && Candidate(q, d[j]) && FastestAndCheapest(q, d, d[j])
  {
    forall j | 0 <= j < |d| && Candidate(q, d[j])
      ensures Dist(q, d, d[j]) >= 0.0 && (Dist(q, d, d[j]) == 0.0 <==> FastestAndCheapest(q, d, d[j]))
    {
      TermZero(MinTime(q, d), d[j].time, MinTime(q, d), MaxTime(q, d));
      TermZero(MinEnergy(q, d), d[j].energy, MinEnergy(q, d), MaxEnergy(q, d));
    }
  }

  const TRADE_OFF := [Entry(1, Encryption, 1, 1.0, 2.0), Entry(2, Encryption, 1, 2.0, 1.0)]

  /** When the fastest candidate is not the cheapest, -t 0 -e 0 cannot choose one that is both. */
  lemma FastestNotCheapest()
    ensures Spread(LEAST, TRADE_OFF) && Nearest(LEAST, TRADE_OFF, 0)
    ensures !FastestAndCheapest(LEAST, TRADE_OFF, TRADE_OFF[0])
  {
    TradeOff(LEAST, TRADE_OFF);
  }

  lemma TradeOff(q: Query, d: seq<Entry>)
    requires q.tp == 0 && q.en == 0 && |d| == 2 && Candidate(q, d[0]) && Candidate(q, d[1])
    requires d[0].time == 1.0 && d[0].energy == 2.0 && d[1].time == 2.0 && d[1].energy == 1.0
    ensures Spread(q, d) && Nearest(q, d, 0) && !FastestAndCheapest(q, d, d[0])
  {
    MeasuredRange(q, d);
    RangeUnique(q, d, MinTime(q, d), MaxTime(q, d), MinEnergy(q, d), MaxEnergy(q, d), 1.0, 2.0, 1.0, 2.0);
    assert Term(1.0, 1.0, 1.0, 2.0) == Square(0.0) && Term(1.0, 2.0, 1.0, 2.0) == Square(-1.0);
    assert Dist(q, d, d[0]) == Dist(q, d, d[1]);
  }

  // ----- other units

  /** Times in units of f, energies in units of g. */
  function Rescaled(e: Entry, f: real -> real, g: real -> real): Entry {
    e.(time := f(e.time), energy := g(e.energy))
  }

  function RescaledAll(d: seq<Entry>, f: real -> real, g: real -> real): (r: seq<Entry>)
    ensures |r| == |d| && forall i :: 0 <= i < |d| ==> r[i] == Rescaled(d[i], f, g)
  {
    seq(|d|, i requires 0 <= i < |d| => Rescaled(d[i], f, g))
  }

  /** Multiplication by a positive constant is a unit. */
  function Times(c: real): real -> real {
    x => c * x
  }

  /** What a change of unit keeps: the order, the wanted values, and the normalised differences. */
  ghost predicate IsUnit(f: real -> real) {
    && (forall x, y {:trigger f(x), f(y)} :: x <= y ==> f(x) <= f(y))
    && (forall preference, min, max :: 0 <= preference <= 2 ==>
      Wanted(preference, f(min), f(max)) == f(Wanted(preference, min, max)))
    && (forall want, x, min, max :: SameTerm(f, want, x, min, max))
  }

  predicate SameTerm(f: real -> real, want: real, x: real, min: real, max: real) {
    min < max && f(min) < f(max) ==> Term(f(want), f(x), f(min), f(max)) == Term(want, x, min, max)
  }

  lemma TimesOrder(c: real, x: real, y: real)
    requires c > 0.0 && x <= y
    ensures c * x <= c * y
  {
    Product(c, y - x);
  }

  lemma TermScales(c: real, want: real, x: real, min: real, max: real)
    requires c > 0.0 && min < max && c * min < c * max
    ensures Term(c * want, c * x, c * min, c * max) == Term(want, x, min, max)
  {
    var n, w := want - x, max - min;
    assert c * want - c * x == c * n && c * max - c * min == c * w;
    Cancel(c, n, w);
  }

  lemma Cancel(c: real, n: real, w: real)
    requires c > 0.0 && w > 0.0
    ensures c * w > 0.0 && (c * n) / (c * w) == n / w
  {
    var r := n / w;
    assert n == r * w;
    assert c * n == r * (c * w);
  }

  lemma TimesSameTerm(c: real, want: real, x: real, min: real, max: real)
    requires c > 0.0
    ensures SameTerm(Times(c), want, x, min, max)
  {
    var f := Times(c);
    if min < max && f(min) < f(max) {
      TermScales(c, want, x, min, max);
    }
  }

  lemma TimesWanted(c: real, preference: int, min: real, max: real)
    requires 0 <= preference <= 2
    ensures Wanted(preference, Times(c)(min), Times(c)(max)) == Times(c)(Wanted(preference, min, max))
  {
    if preference == 1 {
      assert c * min + c * max == c * (min + max);
      Halves(c, min + max);
    }
  }

  lemma Halves(c: real, x: real)
    ensures c * x / 2.0 == c * (x / 2.0)
  {
  }

  lemma TimesIsUnit(c: real)
    requires c > 0.0
    ensures IsUnit(Times(c))
  {
    forall x, y | x <= y
      ensures Times(c)(x) <= Times(c)(y)
    {
      TimesOrder(c, x, y);
    }
    forall preference, min, max | 0 <= preference <= 2
      ensures Wanted(preference, Times(c)(min), Times(c)(max)) == Times(c)(Wanted(preference, min, max))
    {
      TimesWanted(c, preference, min, max);
    }
    forall want, x, min, max
      ensures SameTerm(Times(c), want, x, min, max)
    {
      TimesSameTerm(c, want, x, min, max);
    }
  }

  lemma RescaledRange(q: Query, d: seq<Entry>, f: real -> real, g: real -> real, mint: real, maxt: real, mine: real,
      maxe: real)
    requires IsUnit(f) && IsUnit(g) && IsRange(q, d, mint, maxt, mine, maxe)
    ensures IsRange(q, RescaledAll(d, f, g), f(mint), f(maxt), g(mine), g(maxe))
  {
    var r := RescaledAll(d, f, g);
    forall i | 0 <= i < |r| && Candidate(q, r[i])
      ensures f(mint) <= r[i].time <= f(maxt) && g(mine) <= r[i].energy <= g(maxe)
    {
      assert Candidate(q, d[i]);
    }
    var i :| 0 <= i < |d| && Candidate(q, d[i]) && d[i].time == mint;
    assert Candidate(q, r[i]) && r[i].time == f(mint);
    i :| 0 <= i < |d| && Candidate(q, d[i]) && d[i].time == maxt;
    assert Candidate(q, r[i]) && r[i].time == f(maxt);
    i :| 0 <= i < |d| && Candidate(q, d[i]) && d[i].energy == mine;
    assert Candidate(q, r[i]) && r[i].energy == g(mine);
    i :| 0 <= i < |d| && Candidate(q, d[i]) && d[i].energy == maxe;
    assert Candidate(q, r[i]) && r[i].energy == g(maxe);
  }

  lemma RangeScales(q: Query, d: seq<Entry>, f: real -> real, g: real -> real)
    requires IsUnit(f) && IsUnit(g) && Measured(q, d) && Measured(q, RescaledAll(d, f, g))
    ensures Spread(q, d) && Spread(q, RescaledAll(d, f, g))
    ensures var r := RescaledAll(d, f, g);
      && MinTime(q, r) == f(MinTime(q, d)) && MaxTime(q, r) == f(MaxTime(q, d))
      && MinEnergy(q, r) == g(MinEnergy(q, d)) && MaxEnergy(q, r) == g(MaxEnergy(q, d))
  {
    var r := RescaledAll(d, f, g);
    var mint, maxt, mine, maxe := MinTime(q, d), MaxTime(q, d), MinEnergy(q, d), MaxEnergy(q, d);
    MeasuredRange(q, d);
    MeasuredRange(q, r);
    RescaledRange(q, d, f, g, mint, maxt, mine, maxe);
    RangeUnique(q, r, f(mint), f(maxt), g(mine), g(maxe),
      MinTime(q, r), MaxTime(q, r), MinEnergy(q, r), MaxEnergy(q, r));
  }

  lemma DistScales(q: Query, d: seq<Entry>, r: seq<Entry>, f: real -> real, g: real -> real, e: Entry)
    requires IsUnit(f) && IsUnit(g) && 0 <= q.tp <= 2 && 0 <= q.en <= 2 && Spread(q, d) && Spread(q, r)
    requires MinTime(q, r) == f(MinTime(q, d)) && MaxTime(q, r) == f(MaxTime(q, d))
    requires MinEnergy(q, r) == g(MinEnergy(q, d)) && MaxEnergy(q, r) == g(MaxEnergy(q, d))
    ensures Dist(q, r, Rescaled(e, f, g)) == Dist(q, d, e)
  {
    assert SameTerm(f, Wanted(q.tp, MinTime(q, d), MaxTime(q, d)), e.time, MinTime(q, d), MaxTime(q, d));
    assert SameTerm(g, Wanted(q.en, MinEnergy(q, d), MaxEnergy(q, d)), e.energy, MinEnergy(q, d), MaxEnergy(q, d));
  }

  lemma SameNearest(q: Query, d: seq<Entry>, r: seq<Entry>, id: nat)
    requires |r| == |d| && Spread(q, d) && Spread(q, r)
    requires forall j :: 0 <= j < |d| ==>
      (Candidate(q, r[j]) <==> Candidate(q, d[j])) && Dist(q, r, r[j]) == Dist(q, d, d[j])
    ensures Nearest(q, r, id) <==> Nearest(q, d, id)
  {
  }

  /** The choice does not depend on the units of time and energy, within the initial bounds. */
  lemma ChoiceScales(q: Query, d: seq<Entry>, c: real, k: real, id: nat)
    requires c > 0.0 && k > 0.0 && 0 <= q.tp <= 2 && 0 <= q.en <= 2
    requires Measured(q, d) && Measured(q, RescaledAll(d, Times(c), Times(k)))
    ensures Spread(q, d) && Spread(q, RescaledAll(d, Times(c), Times(k)))
    ensures Nearest(q, RescaledAll(d, Times(c), Times(k)), id) <==> Nearest(q, d, id)
  {
    TimesIsUnit(c);
    TimesIsUnit(k);
    ChoiceInUnits(q, d, Times(c), Times(k), id);
  }

  lemma ChoiceInUnits(q: Query, d: seq<Entry>, f: real -> real, g: real -> real, id: nat)
    requires IsUnit(f) && IsUnit(g) && 0 <= q.tp <= 2 && 0 <= q.en <= 2
    requires Measured(q, d) && Measured(q, RescaledAll(d, f, g))
    ensures Spread(q, d) && Spread(q, RescaledAll(d, f, g))
    ensures Nearest(q, RescaledAll(d, f, g), id) <==> Nearest(q, d, id)
  {
    var r := RescaledAll(d, f, g);
    RangeScales(q, d, f, g);
    forall j | 0 <= j < |d|
      ensures (Candidate(q, r[j]) <==> Candidate(q, d[j])) && Dist(q, r, r[j]) == Dist(q, d, d[j])
    {
      DistScales(q, d, r, f, g, d[j]);
    }
    SameNearest(q, d, r, id);
  }
}
