/** The type-7 percentile of Hyndman and Fan, over the reals. */
module Percentile {
  import opened Wrappers
  import opened Ordering

  datatype PercentileError = NoValues | BadProbability

  predicate Ascending(a: real, b: real) {
    a <= b
  }

  function Ceiling(x: real): int {
    if x.Floor as real == x then x.Floor else x.Floor + 1
  }

  // Linear interpolation between the neighbours of a fractional index.
  function At(ordered: seq<real>, index: real): real
    requires ordered != [] && 0.0 <= index <= (|ordered| - 1) as real
  {
    var lower, upper := index.Floor, Ceiling(index);
    if lower == upper then ordered[lower]
    else ordered[lower] + (ordered[upper] - ordered[lower]) * (index - lower as real)
  }

  // The fractional index of a probability among `n` order statistics.
  function Index(n: nat, probability: real): (index: real)
    requires n > 0 && 0.0 <= probability <= 1.0
    ensures 0.0 <= index <= (n - 1) as real
  {
    ProductNonNegative((n - 1) as real, probability);
    ProductNonNegative((n - 1) as real, 1.0 - probability);
    (n - 1) as real * probability
  }

  lemma {:induction false} ProductNonNegative(x: real, y: real)
    requires x >= 0.0 && y >= 0.0
    ensures x * y >= 0.0
  {
  }

  lemma {:induction false} IndexIsMonotone(n: nat, p: real, q: real)
    requires n > 0 && 0.0 <= p <= q <= 1.0
    ensures Index(n, p) <= Index(n, q)
  {
    var last := (n - 1) as real;
    ProductNonNegative(last, q - p);
    assert last * q == last * p + last * (q - p);
  }

  function PercentileType7(values: seq<real>, probability: real): Result<real, PercentileError> {
    if values == [] then Err(NoValues)
    else if !(0.0 <= probability <= 1.0) then Err(BadProbability)
    else Ok(At(Sort(Ascending, values), Index(|values|, probability)))
  }

  // The other quantile of the repository, which expects sorted values and clamps the upper neighbour.
  function Quantile(values: seq<real>, probability: real): Option<real>
    requires 0.0 <= probability <= 1.0
  {
    if values == [] then None else Some(ClampedAt(values, Index(|values|, probability)))
  }

  function ClampedAt(values: seq<real>, position: real): real
    requires values != [] && 0.0 <= position <= (|values| - 1) as real
  {
    var lower := position.Floor;
    var upper := if lower + 1 <= |values| - 1 then lower + 1 else |values| - 1;
    values[lower] + (values[upper] - values[lower]) * (position - lower as real)
  }

  /******* Interpolation is monotone *******/

  lemma {:induction false} Between(low: real, high: real, fraction: real)
    requires low <= high && 0.0 <= fraction <= 1.0
    ensures low <= low + (high - low) * fraction <= high
  {
    ProductNonNegative(high - low, fraction);
    ProductNonNegative(high - low, 1.0 - fraction);
    assert (high - low) * fraction + (high - low) * (1.0 - fraction) == high - low;
  }

  lemma {:induction false} FractionInterpolation(low: real, high: real, f: real, g: real)
    requires low <= high && f <= g
    ensures low + (high - low) * f <= low + (high - low) * g
  {
    ProductNonNegative(high - low, g - f);
    assert (high - low) * g == (high - low) * f + (high - low) * (g - f);
  }

  lemma {:induction false} DataInterpolation(a: real, a': real, b: real, b': real, fraction: real)
    requires a <= b && a' <= b' && 0.0 <= fraction <= 1.0
    ensures a + (a' - a) * fraction <= b + (b' - b) * fraction
  {
    ProductNonNegative(b' - a', fraction);
    ProductNonNegative(b - a, 1.0 - fraction);
    assert b + (b' - b) * fraction - (a + (a' - a) * fraction) == (b' - a') * fraction + (b - a) * (1.0 - fraction);
  }

  lemma {:induction false} AtBetweenNeighbours(ordered: seq<real>, index: real)
    requires SortedBy(Ascending, ordered)
    requires ordered != [] && 0.0 <= index <= (|ordered| - 1) as real
    ensures ordered[index.Floor] <= At(ordered, index) <= ordered[Ceiling(index)]
  {
    var lower, upper := index.Floor, Ceiling(index);
    if lower != upper {
      assert Ascending(ordered[lower], ordered[upper]);
      Between(ordered[lower], ordered[upper], index - lower as real);
    }
  }

  lemma {:induction false} AtIsMonotone(ordered: seq<real>, x: real, y: real)
    requires SortedBy(Ascending, ordered)
    requires ordered != [] && 0.0 <= x <= y <= (|ordered| - 1) as real
    ensures At(ordered, x) <= At(ordered, y)
  {
    AtBetweenNeighbours(ordered, x);
    AtBetweenNeighbours(ordered, y);
    if x.Floor == y.Floor {
      var lower := x.Floor;
      if lower as real < y {
        var low, high := ordered[lower], ordered[lower + 1];
        assert Ascending(low, high);
        FractionInterpolation(low, high, x - lower as real, y - lower as real);
      }
    } else {
      assert Ceiling(x) <= y.Floor;
      assert Ceiling(x) < y.Floor ==> Ascending(ordered[Ceiling(x)], ordered[y.Floor]);
    }
  }

  lemma {:induction false} AtIsMonotoneInData(a: seq<real>, b: seq<real>, index: real)
    requires |a| == |b| > 0 && 0.0 <= index <= (|a| - 1) as real
    requires forall i :: 0 <= i < |a| ==> a[i] <= b[i]
    ensures At(a, index) <= At(b, index)
  {
    var lower, upper := index.Floor, Ceiling(index);
    if lower != upper {
      var fraction := index - lower as real;
      DataInterpolation(a[lower], a[upper], b[lower], b[upper], fraction);
    }
  }

  /******* Sorting is monotone *******/

  ghost predicate PointwiseLe(a: seq<real>, b: seq<real>) {
    |a| == |b| && forall i :: 0 <= i < |a| ==> a[i] <= b[i]
  }

  lemma {:induction false} InsertHead(s: seq<real>)
    requires SortedBy(Ascending, s) && s != []
    ensures Insert(Ascending, s[0], s[1..]) == s
  {
    assert s == [s[0]] + s[1..];
    if |s| > 1 {
      assert Ascending(s[0], s[1]);
    }
  }

  lemma {:induction false} LaterPlaces(s: seq<real>, t: seq<real>)
    requires PointwiseLe(s, t) && SortedBy(Ascending, s) && SortedBy(Ascending, t) && s != []
    ensures PointwiseLe(s[1..], t[1..]) && SortedBy(Ascending, s[1..]) && SortedBy(Ascending, t[1..])
    ensures s[0] <= t[0]
  {
  }

  lemma {:induction false} OnePlaceMore(x: real, y: real, s: seq<real>, t: seq<real>)
    requires x <= y && PointwiseLe(s, t)
    ensures PointwiseLe([x] + s, [y] + t)
  {
  }

  lemma {:induction false} InsertIsMonotone(x: real, y: real, s: seq<real>, t: seq<real>)
    requires x <= y && PointwiseLe(s, t) && SortedBy(Ascending, s) && SortedBy(Ascending, t)
    ensures PointwiseLe(Insert(Ascending, x, s), Insert(Ascending, y, t))
    decreases |s|
  {
    if s == [] {
      OnePlaceMore(x, y, s, t);
    } else {
      LaterPlaces(s, t);
      if x <= s[0] && y <= t[0] {
        OnePlaceMore(x, y, s, t);
      } else if x <= s[0] {
        // x s0 s1 ... against t0 insert(y, t1 ...)
        InsertIsMonotone(s[0], y, s[1..], t[1..]);
        InsertHead(s);
        OnePlaceMore(x, t[0], s, Insert(Ascending, y, t[1..]));
      } else if y <= t[0] {
        // s0 insert(x, s1 ...) against y t0 t1 ...
        InsertIsMonotone(x, t[0], s[1..], t[1..]);
        InsertHead(t);
        OnePlaceMore(s[0], y, Insert(Ascending, x, s[1..]), t);
      } else {
        InsertIsMonotone(x, y, s[1..], t[1..]);
        OnePlaceMore(s[0], t[0], Insert(Ascending, x, s[1..]), Insert(Ascending, y, t[1..]));
      }
    }
  }

  lemma {:induction false} SortIsMonotone(a: seq<real>, b: seq<real>)
    requires PointwiseLe(a, b)
    ensures PointwiseLe(Sort(Ascending, a), Sort(Ascending, b))
  {
    if a != [] {
      SortIsMonotone(a[1..], b[1..]);
      SortSorted(Ascending, a[1..]);
      SortSorted(Ascending, b[1..]);
      InsertIsMonotone(a[0], b[0], Sort(Ascending, a[1..]), Sort(Ascending, b[1..]));
    }
  }

  lemma {:induction false} ClampingChangesNothing(values: seq<real>, position: real)
    requires values != [] && 0.0 <= position <= (|values| - 1) as real
    ensures ClampedAt(values, position) == At(values, position)
  {
    var lower := position.Floor;
    if lower as real == position {
      var upper := if lower + 1 <= |values| - 1 then lower + 1 else |values| - 1;
      assert (values[upper] - values[lower]) * 0.0 == 0.0;
    }
  }

  /******* What the percentile promises *******/

  lemma {:induction false} AscendingIsTotal()
    ensures TotalPreorder(Ascending) && Antisymmetric(Ascending)
  {
  }

  lemma {:induction false} Ordered(values: seq<real>)
    ensures SortedBy(Ascending, Sort(Ascending, values))
    ensures forall x :: x in Sort(Ascending, values) <==> x in values
  {
    AscendingIsTotal();
    SortSorted(Ascending, values);
    InSort(Ascending, values);
  }

  lemma {:induction false} SameOrdered(a: seq<real>, b: seq<real>)
    requires multiset(a) == multiset(b)
    ensures |a| == |b| && Sort(Ascending, a) == Sort(Ascending, b)
  {
    assert |multiset(a)| == |multiset(b)|;
    AscendingIsTotal();
    SortOfPermutation(Ascending, a, b);
  }

  /** The order in which the values are given does not matter. */
  lemma {:induction false} OrderIndependent(a: seq<real>, b: seq<real>, probability: real)
    requires multiset(a) == multiset(b)
    ensures PercentileType7(a, probability) == PercentileType7(b, probability)
  {
    SameOrdered(a, b);
  }

  /** The percentile lies between the least and the greatest value. */
  lemma {:induction false} WithinRange(values: seq<real>, probability: real, low: real, high: real)
    requires PercentileType7(values, probability).Ok?
    requires forall x :: x in values ==> low <= x <= high
    ensures low <= PercentileType7(values, probability).value <= high
  {
    Ordered(values);
    var ordered, index := Sort(Ascending, values), Index(|values|, probability);
    AtBetweenNeighbours(ordered, index);
    assert ordered[index.Floor] in ordered && ordered[Ceiling(index)] in ordered;
  }

  /** The ends of the range are reached. */
  lemma {:induction false} EndsAreExtremes(values: seq<real>, x: real)
    requires x in values
    ensures
      var least, greatest := PercentileType7(values, 0.0), PercentileType7(values, 1.0);
      && least.Ok? && greatest.Ok? && least.value in values && greatest.value in values
      && least.value <= x <= greatest.value
  {
    Ordered(values);
    var ordered := Sort(Ascending, values);
    assert Index(|values|, 0.0) == 0.0 && Index(|values|, 1.0) == (|values| - 1) as real;
    assert ordered[0] in ordered && ordered[|values| - 1] in ordered && x in ordered;
    var i :| 0 <= i < |ordered| && ordered[i] == x;
    assert i > 0 ==> Ascending(ordered[0], ordered[i]);
    assert i < |ordered| - 1 ==> Ascending(ordered[i], ordered[|ordered| - 1]);
  }

  lemma {:induction false} MonotoneInProbability(values: seq<real>, p: real, q: real)
    requires values != [] && 0.0 <= p <= q <= 1.0
    ensures PercentileType7(values, p).Ok? && PercentileType7(values, q).Ok?
    ensures PercentileType7(values, p).value <= PercentileType7(values, q).value
  {
    Ordered(values);
    IndexIsMonotone(|values|, p, q);
    AtIsMonotone(Sort(Ascending, values), Index(|values|, p), Index(|values|, q));
  }

  /** Raising measurements, each by any amount, never lowers a percentile. */
  lemma {:induction false} MonotoneInData(a: seq<real>, b: seq<real>, probability: real)
    requires PointwiseLe(a, b) && PercentileType7(a, probability).Ok?
    ensures PercentileType7(b, probability).Ok?
    ensures PercentileType7(a, probability).value <= PercentileType7(b, probability).value
  {
    SortIsMonotone(a, b);
    AtIsMonotoneInData(Sort(Ascending, a), Sort(Ascending, b), Index(|a|, probability));
  }

  /** The two quantile routines of the repository agree on sorted input. */
  lemma {:induction false} AgreesWithQuantile(values: seq<real>, probability: real)
    requires SortedBy(Ascending, values) && 0.0 <= probability <= 1.0
    ensures Quantile(values, probability) == None <==> PercentileType7(values, probability) == Err(NoValues)
    ensures values != [] ==> PercentileType7(values, probability) == Ok(Quantile(values, probability).value)
  {
    if values != [] {
      SortOfSorted(Ascending, values);
      ClampingChangesNothing(values, Index(|values|, probability));
    }
  }

  // Both neighbours, each weighted by how near it is.
  function Divided(ordered: seq<real>, i: nat, part: real): real
    requires i < |ordered| && (part > 0.0 ==> i + 1 < |ordered|) && 0.0 <= part
  {
    if part == 0.0 then ordered[i] else (1.0 - part) * ordered[i] + part * ordered[i + 1]
  }

  /** Main result: where the probability falls between two places of the sorted values, the percentile divides the way
      between these two as the probability does. */
  lemma {:induction false} DividesTheWay(values: seq<real>, probability: real, ordered: seq<real>, i: nat, part: real)
    requires IsSortedForm(ordered, values) && values != [] && 0.0 <= probability <= 1.0
    requires IsPlace(|values|, probability, i, part)
    ensures |ordered| == |values| && i < |values| && (part > 0.0 ==> i + 1 < |values|)
    ensures PercentileType7(values, probability) == Ok(Divided(ordered, i, part))
  {
    SortedAscending(values, ordered);
    PlaceIsInRange(|values|, probability, i, part);
    AtPlace(ordered, Index(|values|, probability), i, part);
  }

  // Ascending, with the same elements.
  ghost predicate IsSortedForm(ordered: seq<real>, values: seq<real>) {
    multiset(ordered) == multiset(values) && forall j, k :: 0 <= j < k < |ordered| ==> ordered[j] <= ordered[k]
  }

  // The probability is this part of the way from the i-th of `n` places to the next.
  predicate IsPlace(n: nat, probability: real, i: nat, part: real) {
    0.0 <= part < 1.0 && (n - 1) as real * probability == i as real + part
  }

  lemma {:induction false} PlaceIsInRange(n: nat, probability: real, i: nat, part: real)
    requires n > 0 && 0.0 <= probability <= 1.0 && IsPlace(n, probability, i, part)
    ensures Index(n, probability) == i as real + part
    ensures i < n && (part > 0.0 ==> i + 1 < n)
  {
    ProductNonNegative((n - 1) as real, 1.0 - probability);
    assert i as real + part <= (n - 1) as real;
  }

  lemma {:induction false} AtPlace(ordered: seq<real>, index: real, i: nat, part: real)
    requires i < |ordered| && 0.0 <= part < 1.0 && (part > 0.0 ==> i + 1 < |ordered|)
    requires index == i as real + part && index <= (|ordered| - 1) as real
    ensures At(ordered, index) == Divided(ordered, i, part)
  {
    assert index.Floor == i;
    if part > 0.0 {
      assert Ceiling(index) == i + 1;
      Weighted(ordered[i], ordered[i + 1], part);
    }
  }

  lemma {:induction false} Weighted(a: real, b: real, part: real)
    ensures a + (b - a) * part == (1.0 - part) * a + part * b
  {
  }

  lemma {:induction false} SortedAscending(values: seq<real>, ordered: seq<real>)
    requires IsSortedForm(ordered, values)
    ensures |ordered| == |values| && ordered == Sort(Ascending, values)
  {
    SameOrdered(ordered, values);
    SortOfSorted(Ascending, ordered);
  }

  /** It is undefined exactly for no values, and otherwise for what is not a probability. */
  lemma {:induction false} UndefinedIff(values: seq<real>, probability: real)
    ensures PercentileType7(values, probability) == Err(NoValues) <==> values == []
    ensures PercentileType7(values, probability) == Err(BadProbability)
            <==> values != [] && (probability < 0.0 || probability > 1.0)
    ensures PercentileType7(values, probability).Ok? <==> values != [] && 0.0 <= probability <= 1.0
  {
  }
}
