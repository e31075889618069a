/** Ranking metrics: recall, reciprocal rank and graded nDCG. */
module Metrics {
  import opened Wrappers
  import opened Ordering
  import opened Counting

  // One entry of the relevance mapping. Grades are integers; a valid mapping has grades 0, 1 and 2.
  datatype Judgment = Judgment(id: string, grade: int)

  datatype MetricError = BadK | EmptyRankedId | EmptyJudgedId | BadGrade | NothingRelevant

  // The discount of a rank, 1 / log2(rank + 1) in the source: positive and strictly decreasing from rank 1.
  type Discount = nat -> real

  ghost predicate IsDiscount(disc: Discount) {
    && (forall rank :: rank >= 1 ==> disc(rank) > 0.0)
    && (forall a, b :: 1 <= a < b ==> disc(a) > disc(b))
  }

  function IdOf(judgment: Judgment): string {
    judgment.id
  }

  // A mapping has one entry for each key.
  ghost predicate IsMapping(relevance: seq<Judgment>) {
    Distinct(Map(IdOf, relevance))
  }

  // What validation establishes: grades 0, 1 and 2.
  predicate ValidGrades(relevance: seq<Judgment>) {
    forall i :: 0 <= i < |relevance| ==> 0 <= relevance[i].grade <= 2
  }

  // relevance.get(id, 0)
  function GradeOf(relevance: seq<Judgment>, id: string): (grade: nat)
    requires ValidGrades(relevance)
    ensures grade <= 2
  {
    if relevance == [] then 0
    else if relevance[0].id == id then relevance[0].grade
    else GradeOf(relevance[1..], id)
  }

  function Validate(ranked: seq<string>, relevance: seq<Judgment>, k: int): Option<MetricError> {
    if k < 1 then Some(BadK)
    else if "" in ranked then Some(EmptyRankedId)
    else ValidateJudgments(relevance)
  }

  function ValidateJudgments(relevance: seq<Judgment>): (error: Option<MetricError>)
    ensures error == None <==> forall i :: 0 <= i < |relevance|
                                           ==> relevance[i].id != "" && 0 <= relevance[i].grade <= 2
  {
    if relevance == [] then None
    else if relevance[0].id == "" then Some(EmptyJudgedId)
    else if !(0 <= relevance[0].grade <= 2) then Some(BadGrade)
    else
      assert relevance == [relevance[0]] + relevance[1..];
      ValidateJudgments(relevance[1..])
  }

  /******* The de-duplicated prefix *******/

  function Prefix<T>(s: seq<T>, k: nat): seq<T> {
    if |s| <= k then s else s[..k]
  }

  function UniquePrefix(ranked: seq<string>, k: nat): seq<string> {
    Prefix(Dedup(ranked), k)
  }

  /** The loop with an early exit keeps the first `k` first occurrences. */
  method FindUniquePrefix(ranked: seq<string>, k: nat) returns (unique: seq<string>)
    requires k >= 1
    ensures unique == UniquePrefix(ranked, k)
  {
    unique := [];
    var seen: set<string> := {};
    assert ranked[..0] == [];
    for i := 0 to |ranked|
      invariant unique == Dedup(ranked[..i]) && |unique| < k
      invariant forall id :: id in seen <==> id in ranked[..i]
    {
      var id := ranked[i];
      assert ranked[..i + 1] == ranked[..i] + [id] && ranked[..i + 1][..i] == ranked[..i];
      if id !in seen {
        seen := seen + {id};
        unique := unique + [id];
        if |unique| == k {
          DedupGrows(ranked, i + 1);
          return;
        }
      }
    }
    assert ranked[..|ranked|] == ranked;
  }

  /******* Discounted cumulative gain *******/

  function Pow2(n: nat): nat {
    if n == 0 then 1 else 2 * Pow2(n - 1)
  }

  // 2 ** grade - 1
  function Gain(grade: nat): (gain: real)
    ensures gain >= 0.0 && (gain == 0.0 <==> grade == 0)
  {
    PowAtLeastOne(grade);
    (Pow2(grade) - 1) as real
  }

  lemma {:induction false} PowAtLeastOne(n: nat)
    ensures Pow2(n) >= 1 && (Pow2(n) == 1 <==> n == 0)
  {
    if n > 0 {
      PowAtLeastOne(n - 1);
    }
  }

  lemma {:induction false} GainIncreases(a: nat, b: nat)
    ensures a < b ==> Gain(a) < Gain(b)
    ensures Gain(a) == Gain(b) ==> a == b
  {
    PowIncreases(a, b);
    PowIncreases(b, a);
  }

  lemma {:induction false} PowIncreases(a: nat, b: nat)
    ensures a < b ==> Pow2(a) < Pow2(b)
  {
    if a < b {
      if a == 0 {
        PowAtLeastOne(b);
      } else {
        PowIncreases(a - 1, b - 1);
      }
    }
  }

  function Dcg(disc: Discount, grades: seq<nat>, first: nat): real {
    if grades == [] then 0.0 else Gain(grades[0]) * disc(first) + Dcg(disc, grades[1..], first + 1)
  }

  function GainSum(grades: seq<nat>): real {
    if grades == [] then 0.0 else Gain(grades[0]) + GainSum(grades[1..])
  }

  function Pad(grades: seq<nat>, n: nat): (padded: seq<nat>)
    ensures |grades| <= n ==> |padded| == n
  {
    if |grades| >= n then grades else grades + seq(n - |grades|, _ => 0)
  }

  /******* Dominated prefix sums give a smaller DCG: summation by parts *******/

  // The first `j` gains of `b`, and the carry, make up for those of `a`.
  ghost predicate Dominates(a: seq<nat>, b: seq<nat>, carry: real) {
    && |a| == |b|
    && forall j :: 0 <= j <= |a| ==> carry + GainSum(b[..j]) - GainSum(a[..j]) >= 0.0
  }

  lemma {:induction false} DominatesNext(a: seq<nat>, b: seq<nat>, carry: real)
    requires Dominates(a, b, carry) && a != []
    ensures carry >= 0.0
    ensures carry + Gain(b[0]) - Gain(a[0]) >= 0.0
    ensures Dominates(a[1..], b[1..], carry + Gain(b[0]) - Gain(a[0]))
  {
    assert GainSum(b[..0]) == 0.0 && GainSum(a[..0]) == 0.0;
    forall j | 0 <= j <= |a| - 1
      ensures (carry + Gain(b[0]) - Gain(a[0])) + GainSum(b[1..][..j]) - GainSum(a[1..][..j]) >= 0.0
    {
      assert b[..j + 1][1..] == b[1..][..j] && a[..j + 1][1..] == a[1..][..j];
      assert carry + GainSum(b[..j + 1]) - GainSum(a[..j + 1]) >= 0.0;
    }
    assert GainSum(b[1..][..0]) == 0.0 && GainSum(a[1..][..0]) == 0.0;
  }

  // The lists differ in nothing but what the carry makes up for at their heads.
  ghost predicate Tied(a: seq<nat>, b: seq<nat>, carry: real) {
    |a| == |b| && if a == [] then carry == 0.0 else carry + Gain(b[0]) - Gain(a[0]) == 0.0 && a[1..] == b[1..]
  }

  lemma {:induction false} TiedNext(a: seq<nat>, b: seq<nat>, carry: real)
    requires |a| == |b| > 0 && carry + Gain(b[0]) - Gain(a[0]) == 0.0 && Tied(a[1..], b[1..], 0.0)
    ensures Tied(a, b, carry)
  {
    if |a| > 1 {
      GainIncreases(a[1..][0], b[1..][0]);
      assert a[1..] == [a[1..][0]] + a[1..][1..] && b[1..] == [b[1..][0]] + b[1..][1..];
    }
  }

  // What the carry and `b` have over `a`, discounted.
  ghost function Excess(disc: Discount, a: seq<nat>, b: seq<nat>, first: nat, carry: real): real {
    carry * disc(first) + Dcg(disc, b, first) - Dcg(disc, a, first)
  }

  lemma {:induction false} ExcessStep(disc: Discount, a: seq<nat>, b: seq<nat>, first: nat, carry: real, next: real)
    requires IsDiscount(disc) && first >= 1 && |a| == |b| > 0
    requires next == carry + Gain(b[0]) - Gain(a[0]) >= 0.0
    requires Excess(disc, a[1..], b[1..], first + 1, next) >= 0.0
    ensures Excess(disc, a, b, first, carry) >= 0.0
    ensures Excess(disc, a, b, first, carry) == 0.0 ==>
              next == 0.0 && Excess(disc, a[1..], b[1..], first + 1, next) == 0.0
  {
    PartsStepOf(carry, Gain(a[0]), Gain(b[0]), disc(first), disc(first + 1), Dcg(disc, a[1..], first + 1),
                Dcg(disc, b[1..], first + 1), next, Dcg(disc, a, first), Dcg(disc, b, first));
  }

  lemma {:induction false} PartsStepOf(carry: real, gainA: real, gainB: real, d: real, e: real, restA: real,
                                       restB: real, next: real, a: real, b: real)
    requires d > e && next == carry + gainB - gainA >= 0.0 && next * e + restB - restA >= 0.0
    requires a == gainA * d + restA && b == gainB * d + restB
    ensures carry * d + b - a >= 0.0
    ensures carry * d + b - a == 0.0 ==> next == 0.0 && next * e + restB - restA == 0.0
  {
    PartsStep(carry, gainA, gainB, d, e, restA, restB);
  }

  lemma {:induction false} SummationByParts(disc: Discount, a: seq<nat>, b: seq<nat>, first: nat, carry: real)
    requires IsDiscount(disc) && first >= 1 && Dominates(a, b, carry)
    ensures Excess(disc, a, b, first, carry) >= 0.0
    ensures Excess(disc, a, b, first, carry) == 0.0 ==> Tied(a, b, carry)
    decreases |a|
  {
    if a == [] {
      assert carry + GainSum(b[..0]) - GainSum(a[..0]) >= 0.0;
      PartsStep(carry, 0.0, 0.0, disc(first), 0.0, 0.0, 0.0);
    } else {
      DominatesNext(a, b, carry);
      var next := carry + Gain(b[0]) - Gain(a[0]);
      SummationByParts(disc, a[1..], b[1..], first + 1, next);
      ExcessStep(disc, a, b, first, carry, next);
      if Excess(disc, a, b, first, carry) == 0.0 {
        TiedNext(a, b, carry);
      }
    }
  }

  // One step of summation by parts, over the reals alone.
  lemma {:induction false} PartsStep(carry: real, gainA: real, gainB: real, d: real, e: real, restA: real, restB: real)
    requires d > e && carry + gainB - gainA >= 0.0
    requires (carry + gainB - gainA) * e + restB - restA >= 0.0
    ensures carry * d + (gainB * d + restB) - (gainA * d + restA) >= 0.0
    ensures carry * d + (gainB * d + restB) - (gainA * d + restA) == 0.0 ==>
              carry + gainB - gainA == 0.0 && (carry + gainB - gainA) * e + restB - restA == 0.0
  {
    var next := carry + gainB - gainA;
    var slack := next * (d - e);
    assert slack >= 0.0 && (slack == 0.0 ==> next == 0.0) by {
      if next > 0.0 {
        assert next * (d - e) > 0.0;
      }
    }
    assert carry * d + (gainB * d + restB) - (gainA * d + restA) == slack + (next * e + restB - restA);
  }

  lemma {:induction false} DominatedDcg(disc: Discount, a: seq<nat>, b: seq<nat>)
    requires IsDiscount(disc) && Dominates(a, b, 0.0)
    ensures Dcg(disc, a, 1) <= Dcg(disc, b, 1)
    ensures Dcg(disc, a, 1) == Dcg(disc, b, 1) <==> a == b
  {
    SummationByParts(disc, a, b, 1, 0.0);
    assert Excess(disc, a, b, 1, 0.0) == Dcg(disc, b, 1) - Dcg(disc, a, 1);
    if Dcg(disc, a, 1) == Dcg(disc, b, 1) && a != [] {
      GainIncreases(a[0], b[0]);
      assert a == [a[0]] + a[1..] && b == [b[0]] + b[1..];
    }
  }

  /******* The ideal ranking dominates every ranking *******/

  predicate Descending(a: nat, b: nat) {
    a >= b
  }

  lemma {:induction false} GainSumAppend(a: seq<nat>, b: seq<nat>)
    ensures GainSum(a + b) == GainSum(a) + GainSum(b)
  {
    if a == [] {
      assert a + b == b;
    } else {
      assert (a + b)[1..] == a[1..] + b;
      GainSumAppend(a[1..], b);
    }
  }

  lemma {:induction false} GainSumNonNegative(a: seq<nat>)
    ensures GainSum(a) >= 0.0
  {
    if a != [] {
      GainSumNonNegative(a[1..]);
    }
  }

  lemma {:induction false} GainSumPointwise(a: seq<nat>, b: seq<nat>)
    requires |a| == |b| && forall i :: 0 <= i < |a| ==> a[i] <= b[i]
    ensures GainSum(a) <= GainSum(b)
  {
    if a != [] {
      GainSumPointwise(a[1..], b[1..]);
      GainIncreases(a[0], b[0]);
    }
  }

  lemma {:induction false} GainSumPermutation(a: seq<nat>, b: seq<nat>)
    requires multiset(a) == multiset(b)
    ensures GainSum(a) == GainSum(b)
  {
    if a == [] {
      assert |multiset(b)| == 0;
    } else {
      var x, rest := a[0], a[1..];
      assert a == [x] + rest;
      var left, right := TakeOut<nat>(b, x);
      GainSumPermutation(rest, left + right);
      GainSumAppend(left, right);
      GainSumAppend(left + [x], right);
      GainSumAppend(left, [x]);
    }
  }

  /** No choice of grades from a list gains more than its largest grades. */
  lemma {:induction false} TopGradesGainMost(sorted: seq<nat>, chosen: seq<nat>)
    requires SortedBy(Descending, sorted) && multiset(chosen) <= multiset(sorted)
    ensures |chosen| <= |sorted| && GainSum(chosen) <= GainSum(sorted[..|chosen|])
    decreases |sorted|
  {
    if chosen != [] {
      NotEmpty(sorted, chosen);
      var top, rest := sorted[0], sorted[1..];
      assert sorted == [top] + rest;
      if top in multiset(chosen) {
        var others := WithTopTaken(top, rest, chosen);
        TopGradesGainMost(rest, others);
        GainSumOfTop(top, rest, |others|);
      } else {
        WithoutTop(top, rest, chosen);
        TopGradesGainMost(rest, chosen);
        LaterGradesGainLess(sorted, |chosen|);
      }
    }
  }

  lemma {:induction false} NotEmpty(sorted: seq<nat>, chosen: seq<nat>)
    requires multiset(chosen) <= multiset(sorted) && chosen != []
    ensures sorted != []
  {
    assert chosen[0] in multiset(chosen);
    assert chosen[0] in multiset(sorted);
  }

  lemma {:induction false} LaterGradesGainLess(sorted: seq<nat>, n: nat)
    requires SortedBy(Descending, sorted) && n < |sorted|
    ensures GainSum(sorted[1..][..n]) <= GainSum(sorted[..n])
  {
    forall i | 0 <= i < n ensures sorted[1..][..n][i] <= sorted[..n][i] {
      assert Descending(sorted[i], sorted[i + 1]);
    }
    GainSumPointwise(sorted[1..][..n], sorted[..n]);
  }

  lemma {:induction false} GainSumOfTop(top: nat, rest: seq<nat>, n: nat)
    requires n <= |rest|
    ensures GainSum(([top] + rest)[..n + 1]) == Gain(top) + GainSum(rest[..n])
  {
    assert ([top] + rest)[..n + 1] == [top] + rest[..n];
    assert ([top] + rest[..n])[1..] == rest[..n];
  }

  lemma {:induction false} WithTopTaken(top: nat, rest: seq<nat>, chosen: seq<nat>) returns (others: seq<nat>)
    requires multiset(chosen) <= multiset([top] + rest) && top in multiset(chosen)
    ensures |others| + 1 == |chosen| && multiset(others) <= multiset(rest)
    ensures GainSum(chosen) == Gain(top) + GainSum(others)
  {
    var left, right := TakeOut<nat>(chosen, top);
    others := left + right;
    GainSumInsert(left, top, right);
    FewerWithoutTop(top, rest, chosen, others);
  }

  lemma {:induction false} FewerWithoutTop(top: nat, rest: seq<nat>, chosen: seq<nat>, others: seq<nat>)
    requires multiset(chosen) <= multiset([top] + rest) && multiset(others) == multiset(chosen) - multiset{top}
    ensures multiset(others) <= multiset(rest)
  {
    assert multiset([top] + rest) == multiset{top} + multiset(rest);
  }

  lemma {:induction false} WithoutTop(top: nat, rest: seq<nat>, chosen: seq<nat>)
    requires multiset(chosen) <= multiset([top] + rest) && top !in multiset(chosen)
    ensures multiset(chosen) <= multiset(rest)
  {
    forall x ensures multiset(chosen)[x] <= multiset(rest)[x] {
      assert multiset(chosen)[x] <= multiset([top] + rest)[x];
    }
  }

  /******* Observed grades are a choice of the judged grades *******/

  function Grades(relevance: seq<Judgment>): (grades: seq<nat>)
    requires ValidGrades(relevance)
    ensures |grades| == |relevance|
    ensures forall i :: 0 <= i < |grades| ==> grades[i] == relevance[i].grade
  {
    if relevance == [] then [] else [relevance[0].grade as nat] + Grades(relevance[1..])
  }

  function Observed(relevance: seq<Judgment>, ids: seq<string>): (observed: seq<nat>)
    requires ValidGrades(relevance)
    ensures |observed| == |ids|
    ensures forall i :: 0 <= i < |ids| ==> observed[i] == GradeOf(relevance, ids[i])
  {
    if ids == [] then [] else [GradeOf(relevance, ids[0])] + Observed(relevance, ids[1..])
  }

  lemma {:induction false} ZeroGradesGainNothing(grades: seq<nat>)
    requires forall i :: 0 <= i < |grades| ==> grades[i] == 0
    ensures GainSum(grades) == 0.0
  {
    if grades != [] {
      ZeroGradesGainNothing(grades[1..]);
    }
  }

  lemma {:induction false} ObservedInsert(relevance: seq<Judgment>, left: seq<string>, id: string, right: seq<string>)
    requires ValidGrades(relevance)
    ensures GainSum(Observed(relevance, left + [id] + right))
            == Gain(GradeOf(relevance, id)) + GainSum(Observed(relevance, left + right))
  {
    var l, r := Observed(relevance, left), Observed(relevance, right);
    ObservedAppend(relevance, left + [id], right);
    ObservedAppend(relevance, left, right);
    assert Observed(relevance, left + [id]) == l + [GradeOf(relevance, id)];
    GainSumInsert(l, GradeOf(relevance, id), r);
  }

  lemma {:induction false} ObservedAppend(relevance: seq<Judgment>, a: seq<string>, b: seq<string>)
    requires ValidGrades(relevance)
    ensures Observed(relevance, a + b) == Observed(relevance, a) + Observed(relevance, b)
  {
  }

  lemma {:induction false} GainSumInsert(l: seq<nat>, grade: nat, r: seq<nat>)
    ensures GainSum(l + [grade] + r) == Gain(grade) + GainSum(l + r)
  {
    GainSumAppend(l + [grade], r);
    GainSumAppend(l, [grade]);
    GainSumAppend(l, r);
    assert GainSum([grade]) == Gain(grade) + GainSum([grade][1..]);
  }

  lemma {:induction false} ObservedOfRest(relevance: seq<Judgment>, ids: seq<string>)
    requires ValidGrades(relevance) && relevance != [] && relevance[0].id !in ids
    ensures Observed(relevance, ids) == Observed(relevance[1..], ids)
  {
  }

  /** Distinct retrieved IDs gain what a choice of the judged grades gains. */
  lemma {:induction false} ObservedGainIsChosen(relevance: seq<Judgment>, ids: seq<string>) returns (chosen: seq<nat>)
    requires IsMapping(relevance) && ValidGrades(relevance) && Distinct(ids)
    ensures multiset(chosen) <= multiset(Grades(relevance)) && |chosen| <= |ids|
    ensures GainSum(chosen) == GainSum(Observed(relevance, ids))
    decreases |relevance|
  {
    if relevance == [] {
      chosen := [];
      ZeroGradesGainNothing(Observed(relevance, ids));
    } else {
      var first, rest := relevance[0], relevance[1..];
      assert IsMapping(rest) by {
        assert Map(IdOf, rest) == Map(IdOf, relevance)[1..];
      }
      if first.id in ids {
        var others := IdsWithout(relevance, ids, first.id);
        ObservedOfRest(relevance, others);
        var chosenRest := ObservedGainIsChosen(rest, others);
        chosen := [first.grade as nat] + chosenRest;
        assert chosen[1..] == chosenRest;
        assert Grades(relevance) == [first.grade as nat] + Grades(rest);
      } else {
        ObservedOfRest(relevance, ids);
        chosen := ObservedGainIsChosen(rest, ids);
        assert Grades(relevance) == [first.grade as nat] + Grades(rest);
      }
    }
  }

  lemma {:induction false} WithoutOne(left: seq<string>, id: string, right: seq<string>)
    requires Distinct(left + [id] + right)
    ensures Distinct(left + right) && id !in left + right
  {
    var ids, others := left + [id] + right, left + right;
    assert ids[|left|] == id;
    assert forall i :: 0 <= i < |others| ==> others[i] == ids[if i < |left| then i else i + 1];
  }

  lemma {:induction false} IdsWithout(relevance: seq<Judgment>, ids: seq<string>, id: string)
    returns (others: seq<string>)
    requires ValidGrades(relevance) && Distinct(ids) && id in ids
    ensures Distinct(others) && id !in others && |others| + 1 == |ids|
    ensures GainSum(Observed(relevance, ids)) == Gain(GradeOf(relevance, id)) + GainSum(Observed(relevance, others))
  {
    var left, right := TakeOut(ids, id);
    others := left + right;
    WithoutOne(left, id, right);
    ObservedInsert(relevance, left, id, right);
  }

  /******* nDCG *******/

  function Ideal(relevance: seq<Judgment>, k: nat): seq<nat>
    requires ValidGrades(relevance)
  {
    Prefix(Sort(Descending, Grades(relevance)), k)
  }

  function NdcgAtK(disc: Discount, ranked: seq<string>, relevance: seq<Judgment>, k: int): Result<real, MetricError> {
    match Validate(ranked, relevance, k)
    case Some(error) => Err(error)
    case None =>
      var ideal := Dcg(disc, Ideal(relevance, k), 1);
      if ideal <= 0.0 then Err(NothingRelevant)
      else Ok(Dcg(disc, Observed(relevance, UniquePrefix(ranked, k)), 1) / ideal)
  }

  lemma {:induction false} DcgAppendZeros(disc: Discount, grades: seq<nat>, zeros: nat, first: nat)
    ensures Dcg(disc, grades + seq(zeros, _ => 0), first) == Dcg(disc, grades, first)
    decreases |grades| + zeros
  {
    if grades != [] {
      assert (grades + seq(zeros, _ => 0))[1..] == grades[1..] + seq(zeros, _ => 0);
      DcgAppendZeros(disc, grades[1..], zeros, first + 1);
    } else if zeros > 0 {
      assert grades + seq(zeros, _ => 0) == seq(zeros, _ => 0);
      assert seq(zeros, _ => 0)[1..] == [] + seq(zeros - 1, _ => 0);
      DcgAppendZeros(disc, [], zeros - 1, first + 1);
    } else {
      assert grades + seq(0, _ => 0) == [];
    }
  }

  lemma {:induction false} PadKeepsDcg(disc: Discount, grades: seq<nat>, n: nat)
    ensures Dcg(disc, Pad(grades, n), 1) == Dcg(disc, grades, 1)
  {
    if |grades| < n {
      DcgAppendZeros(disc, grades, n - |grades|, 1);
    }
  }

  function Min(a: nat, b: nat): nat {
    if a <= b then a else b
  }

  lemma {:induction false} GainSumOfPadded(grades: seq<nat>, n: nat, j: nat)
    requires |grades| <= n && j <= n
    ensures GainSum(Pad(grades, n)[..j]) == GainSum(grades[..Min(j, |grades|)])
  {
    if j <= |grades| {
      assert Pad(grades, n)[..j] == grades[..j];
    } else {
      var zeros := Pad(grades, n)[|grades|..j];
      assert Pad(grades, n)[..j] == grades[..|grades|] + zeros;
      ZeroGradesGainNothing(zeros);
      GainSumAppend(grades[..|grades|], zeros);
    }
  }

  lemma {:induction false} LongerPrefixGainsMore(grades: seq<nat>, i: nat, j: nat)
    requires i <= j <= |grades|
    ensures GainSum(grades[..i]) <= GainSum(grades[..j])
  {
    assert grades[..j] == grades[..i] + grades[i..j];
    GainSumAppend(grades[..i], grades[i..j]);
    GainSumNonNegative(grades[i..j]);
  }

  lemma {:induction false} IdealIsSorted(relevance: seq<Judgment>)
    requires ValidGrades(relevance)
    ensures SortedBy(Descending, Sort(Descending, Grades(relevance)))
  {
    assert TotalPreorder(Descending);
    SortSorted(Descending, Grades(relevance));
  }

  lemma {:induction false} LongPrefixGainsMost(sorted: seq<nat>, chosen: seq<nat>, n: nat)
    requires SortedBy(Descending, sorted) && multiset(chosen) <= multiset(sorted) && n <= |sorted|
    requires |chosen| <= n || n == |sorted|
    ensures GainSum(chosen) <= GainSum(sorted[..n])
  {
    TopGradesGainMost(sorted, chosen);
    LongerPrefixGainsMore(sorted, |chosen|, n);
  }

  lemma {:induction false} IdealPrefixGainsMost(relevance: seq<Judgment>, chosen: seq<nat>, k: nat, j: nat)
    requires ValidGrades(relevance) && multiset(chosen) <= multiset(Grades(relevance)) && |chosen| <= j <= k
    ensures GainSum(chosen) <= GainSum(Pad(Ideal(relevance, k), k)[..j])
  {
    var ideal, sorted := Ideal(relevance, k), Sort(Descending, Grades(relevance));
    var n := Min(j, |ideal|);
    IdealIsSorted(relevance);
    GainSumOfPadded(ideal, k, j);
    assert ideal[..n] == sorted[..n];
    LongPrefixGainsMost(sorted, chosen, n);
  }

  lemma {:induction false} PrefixGainsLess(relevance: seq<Judgment>, ids: seq<string>, k: nat, j: nat)
    requires IsMapping(relevance) && ValidGrades(relevance) && Distinct(ids) && |ids| <= k && j <= k
    ensures GainSum(Pad(Observed(relevance, ids), k)[..j]) <= GainSum(Pad(Ideal(relevance, k), k)[..j])
  {
    var n := Min(j, |ids|);
    GainSumOfPadded(Observed(relevance, ids), k, j);
    assert Observed(relevance, ids)[..n] == Observed(relevance, ids[..n]);
    var chosen := ObservedGainIsChosen(relevance, ids[..n]);
    IdealPrefixGainsMost(relevance, chosen, k, j);
  }

  /** Main result: nDCG lies in [0, 1], and is 1 exactly when the observed grades, padded, are the ideal grades. */
  lemma {:induction false} NdcgIsNormalized(disc: Discount, ranked: seq<string>, relevance: seq<Judgment>, k: int)
    requires IsDiscount(disc) && IsMapping(relevance)
    requires NdcgAtK(disc, ranked, relevance, k).Ok?
    ensures k >= 1 && ValidGrades(relevance)
    ensures 0.0 <= NdcgAtK(disc, ranked, relevance, k).value <= 1.0
    ensures NdcgAtK(disc, ranked, relevance, k).value == 1.0
            <==> Pad(Observed(relevance, UniquePrefix(ranked, k)), k) == Pad(Ideal(relevance, k), k)
  {
    var ids := UniquePrefix(ranked, k);
    var observed, ideal := Observed(relevance, ids), Ideal(relevance, k);
    DedupIsDistinct(ranked);
    forall j | 0 <= j <= k ensures 0.0 + GainSum(Pad(ideal, k)[..j]) - GainSum(Pad(observed, k)[..j]) >= 0.0 {
      PrefixGainsLess(relevance, ids, k, j);
    }
    assert Dominates(Pad(observed, k), Pad(ideal, k), 0.0);
    DominatedDcg(disc, Pad(observed, k), Pad(ideal, k));
    PadKeepsDcg(disc, observed, k);
    PadKeepsDcg(disc, ideal, k);
    DcgNonNegative(disc, observed, 1);
    Quotient(Dcg(disc, observed, 1), Dcg(disc, ideal, 1));
  }

  lemma {:induction false} DcgNonNegative(disc: Discount, grades: seq<nat>, first: nat)
    requires IsDiscount(disc) && first >= 1
    ensures Dcg(disc, grades, first) >= 0.0
    ensures Dcg(disc, grades, first) == 0.0 <==> forall i :: 0 <= i < |grades| ==> grades[i] == 0
    decreases |grades|
  {
    if grades != [] {
      DcgNonNegative(disc, grades[1..], first + 1);
      assert Gain(grades[0]) * disc(first) >= 0.0;
      assert Gain(grades[0]) * disc(first) == 0.0 <==> grades[0] == 0;
      assert grades == [grades[0]] + grades[1..];
    }
  }

  lemma {:induction false} Quotient(x: real, y: real)
    requires 0.0 <= x <= y && y > 0.0
    ensures 0.0 <= x / y <= 1.0 && (x / y == 1.0 <==> x == y)
  {
    assert x / y * y == x;
  }

  /******* Recall and reciprocal rank *******/

  // The IDs judged relevant, in mapping order.
  function RelevantIds(relevance: seq<Judgment>): seq<string> {
    if relevance == [] then []
    else (if relevance[0].grade >= 1 then [relevance[0].id] else []) + RelevantIds(relevance[1..])
  }

  function IsIn(ids: seq<string>): string -> bool {
    (id: string) => id in ids
  }

  function RecallAtK(ranked: seq<string>, relevance: seq<Judgment>, k: int): Result<real, MetricError> {
    match Validate(ranked, relevance, k)
    case Some(error) => Err(error)
    case None =>
      var relevant := RelevantIds(relevance);
      if relevant == [] then Err(NothingRelevant)
      else Ok(CountIf(IsIn(UniquePrefix(ranked, k)), relevant) as real / |relevant| as real)
  }

  predicate RelevantAt(relevance: seq<Judgment>, ids: seq<string>, i: nat)
    requires ValidGrades(relevance) && i < |ids|
  {
    GradeOf(relevance, ids[i]) >= 1
  }

  // The first relevant place of a list; its length when there is none.
  function FirstRelevant(relevance: seq<Judgment>, ids: seq<string>): (place: nat)
    requires ValidGrades(relevance)
    ensures place <= |ids|
    ensures forall i :: 0 <= i < place ==> !RelevantAt(relevance, ids, i)
    ensures place < |ids| ==> RelevantAt(relevance, ids, place)
  {
    if ids == [] || GradeOf(relevance, ids[0]) >= 1 then 0
    else
      var rest := FirstRelevant(relevance, ids[1..]);
      assert forall i :: 0 < i <= rest && i < |ids|
                         ==> RelevantAt(relevance, ids[1..], i - 1) == RelevantAt(relevance, ids, i);
      1 + rest
  }

  function MrrAtK(ranked: seq<string>, relevance: seq<Judgment>, k: int): Result<real, MetricError> {
    match Validate(ranked, relevance, k)
    case Some(error) => Err(error)
    case None =>
      if RelevantIds(relevance) == [] then Err(NothingRelevant)
      else
        var ids := UniquePrefix(ranked, k);
        var place := FirstRelevant(relevance, ids);
        Ok(if place < |ids| then 1.0 / (place + 1) as real else 0.0)
  }

  lemma {:induction false} RelevantIdIff(relevance: seq<Judgment>, id: string)
    requires ValidGrades(relevance) && IsMapping(relevance)
    ensures id in RelevantIds(relevance) <==> GradeOf(relevance, id) >= 1
    ensures id in RelevantIds(relevance) ==> exists judgment :: judgment in relevance && judgment.id == id
  {
    if relevance != [] {
      RestIsMapping(relevance);
      RelevantIdIff(relevance[1..], id);
      assert relevance == [relevance[0]] + relevance[1..];
    }
  }

  lemma {:induction false} RelevantIdsAreDistinct(relevance: seq<Judgment>)
    requires ValidGrades(relevance) && IsMapping(relevance)
    ensures Distinct(RelevantIds(relevance))
  {
    if relevance != [] {
      RestIsMapping(relevance);
      RelevantIdsAreDistinct(relevance[1..]);
      RelevantIdIff(relevance[1..], relevance[0].id);
    }
  }

  lemma {:induction false} NoneRelevantIff(relevance: seq<Judgment>)
    requires ValidGrades(relevance)
    ensures RelevantIds(relevance) == [] <==> forall i :: 0 <= i < |relevance| ==> relevance[i].grade == 0
  {
    if relevance != [] {
      NoneRelevantIff(relevance[1..]);
      assert relevance == [relevance[0]] + relevance[1..];
    }
  }

  lemma {:induction false} RelevantIdsAre(relevance: seq<Judgment>)
    requires ValidGrades(relevance) && IsMapping(relevance)
    ensures forall id :: id in RelevantIds(relevance) <==> GradeOf(relevance, id) >= 1
    ensures Distinct(RelevantIds(relevance))
    ensures RelevantIds(relevance) == [] <==> forall i :: 0 <= i < |relevance| ==> relevance[i].grade == 0
  {
    forall id ensures id in RelevantIds(relevance) <==> GradeOf(relevance, id) >= 1 {
      RelevantIdIff(relevance, id);
    }
    RelevantIdsAreDistinct(relevance);
    NoneRelevantIff(relevance);
  }

  /** The loop with an early return finds the first relevant rank. */
  method ComputeMrr(ranked: seq<string>, relevance: seq<Judgment>, k: int) returns (r: Result<real, MetricError>)
    ensures r == MrrAtK(ranked, relevance, k)
  {
    var error := Validate(ranked, relevance, k);
    if error.Some? {
      return Err(error.value);
    }
    if RelevantIds(relevance) == [] {
      return Err(NothingRelevant);
    }
    var ids := FindUniquePrefix(ranked, k);
    ghost var place := FirstRelevant(relevance, ids);
    assert place < |ids| ==> RelevantAt(relevance, ids, place);
    for rank := 0 to |ids|
      invariant rank <= place
    {
      if GradeOf(relevance, ids[rank]) >= 1 {
        assert RelevantAt(relevance, ids, rank);
        return Ok(1.0 / (rank + 1) as real);
      }
    }
    return Ok(0.0);
  }

  // Some relevant ID is among the first `k` distinct ones.
  ghost predicate Hits(ranked: seq<string>, relevance: seq<Judgment>, k: nat)
    requires ValidGrades(relevance)
  {
    exists id :: id in UniquePrefix(ranked, k) && GradeOf(relevance, id) >= 1
  }

  lemma {:induction false} AllZeroOrNot(relevance: seq<Judgment>, k: nat)
    requires ValidGrades(relevance) && k >= 1
    ensures (forall i :: 0 <= i < |Ideal(relevance, k)| ==> Ideal(relevance, k)[i] == 0)
            <==> (forall i :: 0 <= i < |relevance| ==> relevance[i].grade == 0)
  {
    var grades := Grades(relevance);
    var sorted := Sort(Descending, grades);
    IdealIsSorted(relevance);
    InSort(Descending, grades);
    if forall i :: 0 <= i < |Ideal(relevance, k)| ==> Ideal(relevance, k)[i] == 0 {
      forall i | 0 <= i < |relevance| ensures relevance[i].grade == 0 {
        assert grades[i] in sorted;
        var j :| 0 <= j < |sorted| && sorted[j] == grades[i];
        assert Ideal(relevance, k)[0] == sorted[0];
        assert j > 0 ==> Descending(sorted[0], sorted[j]);
      }
    } else {
      var i :| 0 <= i < |Ideal(relevance, k)| && Ideal(relevance, k)[i] != 0;
      assert sorted[i] in grades;
    }
  }

  /** The three metrics fail on the same inputs, with the same error. */
  lemma {:induction false} UndefinedTogether(disc: Discount, ranked: seq<string>, relevance: seq<Judgment>, k: int)
    requires IsDiscount(disc) && IsMapping(relevance)
    ensures
      var ndcg, recall, mrr := NdcgAtK(disc, ranked, relevance, k), RecallAtK(ranked, relevance, k),
          MrrAtK(ranked, relevance, k);
      && (ndcg.Ok? <==> recall.Ok?) && (recall.Ok? <==> mrr.Ok?)
      && (ndcg.Err? ==> recall == Err(ndcg.error) && mrr == Err(ndcg.error))
  {
    if Validate(ranked, relevance, k) == None {
      AllZeroOrNot(relevance, k);
      RelevantIdsAre(relevance);
      DcgNonNegative(disc, Ideal(relevance, k), 1);
    }
  }

  // The first entry that is not valid is this one.
  ghost predicate IsFirstBad(relevance: seq<Judgment>, i: nat) {
    && i < |relevance| && (relevance[i].id == "" || relevance[i].grade !in {0, 1, 2})
    && forall j :: 0 <= j < i ==> relevance[j].id != "" && relevance[j].grade in {0, 1, 2}
  }

  lemma {:induction false} FirstBadDecides(relevance: seq<Judgment>, i: nat)
    requires IsFirstBad(relevance, i)
    ensures ValidateJudgments(relevance) == Some(if relevance[i].id == "" then EmptyJudgedId else BadGrade)
  {
    if i > 0 {
      FirstBadDecides(relevance[1..], i - 1);
    }
  }

  lemma {:induction false} FindFirstBad(relevance: seq<Judgment>) returns (i: nat)
    requires ValidateJudgments(relevance).Some?
    ensures IsFirstBad(relevance, i)
  {
    if relevance[0].id == "" || relevance[0].grade !in {0, 1, 2} {
      i := 0;
    } else {
      var rest := FindFirstBad(relevance[1..]);
      i := rest + 1;
    }
  }

  // There is an entry that is not valid, and the first one fails with this error.
  ghost predicate FailsWith(relevance: seq<Judgment>, error: MetricError) {
    exists i: nat :: IsFirstBad(relevance, i) && error == if relevance[i].id == "" then EmptyJudgedId else BadGrade
  }

  lemma {:induction false} FailsWithIff(relevance: seq<Judgment>, error: MetricError)
    ensures ValidateJudgments(relevance) == Some(error) <==> FailsWith(relevance, error)
  {
    if ValidateJudgments(relevance).Some? {
      var i := FindFirstBad(relevance);
      FirstBadDecides(relevance, i);
    }
    if FailsWith(relevance, error) {
      var i: nat :| IsFirstBad(relevance, i) && error == if relevance[i].id == "" then EmptyJudgedId else BadGrade;
      FirstBadDecides(relevance, i);
    }
  }

  /** Why a metric is not defined: the first thing that is wrong with the cut-off, the ranking and the judgments, in
      this order, or that nothing was judged relevant. */
  lemma {:induction false} UndefinedIff(ranked: seq<string>, relevance: seq<Judgment>, k: int, error: MetricError)
    requires IsMapping(relevance)
    ensures RecallAtK(ranked, relevance, k) == Err(error)
            <==> if k <= 0 then error == BadK
                 else if "" in ranked then error == EmptyRankedId
                 else FailsWith(relevance, error) || (error == NothingRelevant && IsAllZero(relevance))
  {
    FailsWithIff(relevance, error);
    if k >= 1 && "" !in ranked {
      if ValidateJudgments(relevance) == None {
        RelevantIdsAre(relevance);
      } else {
        NotAllZero(relevance);
      }
    }
  }

  // Every judgment is valid, and none says relevant.
  ghost predicate IsAllZero(relevance: seq<Judgment>) {
    forall i :: 0 <= i < |relevance| ==> relevance[i].id != "" && relevance[i].grade == 0
  }

  lemma {:induction false} NotAllZero(relevance: seq<Judgment>)
    requires ValidateJudgments(relevance).Some?
    ensures !IsAllZero(relevance)
  {
    var i := FindFirstBad(relevance);
  }

  lemma {:induction false} PositiveQuotient(x: real, y: real)
    requires x >= 0.0 && y > 0.0
    ensures x / y >= 0.0 && (x / y > 0.0 <==> x > 0.0)
  {
    assert x / y * y == x;
  }

  lemma {:induction false} CountIfPositive(p: string -> bool, s: seq<string>)
    ensures CountIf(p, s) > 0 <==> exists x :: x in s && p(x)
  {
    if exists x :: x in s && p(x) {
      var x :| x in s && p(x);
      var left, right := TakeOut(s, x);
      CountIfInsert(p, left, x, right);
    } else {
      CountIfNone(p, s);
    }
  }

  lemma {:induction false} RecallPositive(ranked: seq<string>, relevance: seq<Judgment>, k: int)
    requires IsMapping(relevance) && RecallAtK(ranked, relevance, k).Ok?
    ensures 0.0 <= RecallAtK(ranked, relevance, k).value <= 1.0
    ensures RecallAtK(ranked, relevance, k).value > 0.0 <==> Hits(ranked, relevance, k)
  {
    var relevant := RelevantIds(relevance);
    var hits := CountIf(IsIn(UniquePrefix(ranked, k)), relevant);
    RelevantIdsAre(relevance);
    CountIfPositive(IsIn(UniquePrefix(ranked, k)), relevant);
    CountIfAtMost(IsIn(UniquePrefix(ranked, k)), relevant);
    PositiveQuotient(hits as real, |relevant| as real);
    Quotient(hits as real, |relevant| as real);
  }

  function Chosen(p: string -> bool, s: seq<string>): set<string> {
    set x | x in s && p(x)
  }

  lemma {:induction false} CountIfIsSize(p: string -> bool, s: seq<string>)
    requires Distinct(s)
    ensures CountIf(p, s) == |Chosen(p, s)|
  {
    if s != [] {
      CountIfIsSize(p, s[1..]);
      ChosenOneMore(p, s[0], s[1..]);
      assert s == [s[0]] + s[1..];
      assert s[0] !in Chosen(p, s[1..]);
    }
  }

  lemma {:induction false} ChosenOneMore(p: string -> bool, x: string, rest: seq<string>)
    ensures Chosen(p, [x] + rest) == if p(x) then Chosen(p, rest) + {x} else Chosen(p, rest)
  {
  }

  // The sets that recall compares.
  function RelevantSet(relevance: seq<Judgment>): set<string> {
    set judgment | judgment in relevance && judgment.grade >= 1 :: judgment.id
  }

  function RetrievedSet(ranked: seq<string>, k: nat): set<string> {
    set id | id in UniquePrefix(ranked, k)
  }

  lemma {:induction false} RelevantSetIs(relevance: seq<Judgment>, id: string)
    ensures id in RelevantSet(relevance) <==> id in RelevantIds(relevance)
  {
    if relevance != [] {
      RelevantSetIs(relevance[1..], id);
      assert relevance == [relevance[0]] + relevance[1..];
      if relevance[0].grade >= 1 {
        assert relevance[0] in relevance;
      }
    }
  }

  /** Recall is the share of the relevant set that the retrieved set covers; it is 1 exactly when it covers all of
      it. */
  lemma {:induction false} RecallIsSetRecall(ranked: seq<string>, relevance: seq<Judgment>, k: int)
    requires IsMapping(relevance) && RecallAtK(ranked, relevance, k).Ok?
    ensures var relevant, retrieved := RelevantSet(relevance), RetrievedSet(ranked, k);
            && RecallAtK(ranked, relevance, k).value * |relevant| as real == |relevant * retrieved| as real
            && (RecallAtK(ranked, relevance, k).value == 1.0 <==> relevant <= retrieved)
  {
    var relevant, retrieved := RelevantSet(relevance), RetrievedSet(ranked, k);
    RecallValue(ranked, relevance, k);
    Covered(relevant, retrieved);
    WholeQuotient(|relevant * retrieved|, |relevant|);
  }

  lemma {:induction false} RecallValue(ranked: seq<string>, relevance: seq<Judgment>, k: int)
    requires IsMapping(relevance) && RecallAtK(ranked, relevance, k).Ok?
    ensures k >= 1 && |RelevantSet(relevance)| > 0
    ensures RecallAtK(ranked, relevance, k).value
            == |RelevantSet(relevance) * RetrievedSet(ranked, k)| as real / |RelevantSet(relevance)| as real
  {
    RecallCounts(ranked, relevance, k);
  }

  lemma {:induction false} RecallCounts(ranked: seq<string>, relevance: seq<Judgment>, k: nat)
    requires IsMapping(relevance) && ValidGrades(relevance)
    ensures CountIf(IsIn(UniquePrefix(ranked, k)), RelevantIds(relevance))
            == |RelevantSet(relevance) * RetrievedSet(ranked, k)|
    ensures |RelevantIds(relevance)| == |RelevantSet(relevance)|
  {
    RelevantIdsAre(relevance);
    CountIfIsSize(IsIn(UniquePrefix(ranked, k)), RelevantIds(relevance));
    CountIfIsSize(IsIn(RelevantIds(relevance)), RelevantIds(relevance));
    CountIfAll(IsIn(RelevantIds(relevance)), RelevantIds(relevance));
    RelevantIdsAreTheSet(ranked, relevance, k);
  }

  lemma {:induction false} RelevantIdsAreTheSet(ranked: seq<string>, relevance: seq<Judgment>, k: nat)
    ensures Chosen(IsIn(RelevantIds(relevance)), RelevantIds(relevance)) == RelevantSet(relevance)
    ensures Chosen(IsIn(UniquePrefix(ranked, k)), RelevantIds(relevance))
            == RelevantSet(relevance) * RetrievedSet(ranked, k)
  {
    forall id ensures id in RelevantSet(relevance) <==> id in RelevantIds(relevance) {
      RelevantSetIs(relevance, id);
    }
  }

  lemma WholeQuotient(m: nat, n: nat)
    requires n > 0
    ensures m as real / n as real * n as real == m as real
    ensures m as real / n as real == 1.0 <==> m == n
  {
  }

  lemma Covered(a: set<string>, b: set<string>)
    ensures |a * b| == |a| <==> a <= b
  {
    assert |a| == |a * b| + |a - b|;
    if |a - b| == 0 {
      forall x | x in a ensures x in b {
        assert x !in a - b;
      }
    } else {
      assert a - b != {};
    }
  }

  /** The reciprocal rank is at least 1 / (i + 1) exactly when something relevant stands at one of the first i + 1
      places. */
  lemma {:induction false} MrrIsFirstRank(ranked: seq<string>, relevance: seq<Judgment>, k: int, i: nat)
    requires MrrAtK(ranked, relevance, k).Ok? && i < |UniquePrefix(ranked, k)|
    ensures ValidGrades(relevance)
    ensures MrrAtK(ranked, relevance, k).value >= 1.0 / (i + 1) as real
            <==> exists j :: 0 <= j <= i && RelevantAt(relevance, UniquePrefix(ranked, k), j)
  {
    var ids := UniquePrefix(ranked, k);
    var place := FirstRelevant(relevance, ids);
    ReciprocalFalls(i + 1, place + 1);
    PositiveQuotient(1.0, (i + 1) as real);
    if place <= i {
      assert RelevantAt(relevance, ids, place);
    }
  }

  lemma ReciprocalFalls(m: nat, n: nat)
    requires m > 0 && n > 0
    ensures 1.0 / n as real >= 1.0 / m as real <==> n <= m
  {
    var x, y, z := m as real, n as real, 1.0 / n as real - 1.0 / m as real;
    Reciprocals(x, y);
    ProductSign(x * y, z);
  }

  lemma Reciprocals(x: real, y: real)
    requires x > 0.0 && y > 0.0
    ensures (x * y) * (1.0 / y - 1.0 / x) == x - y && x * y > 0.0
  {
    assert (x * y) * (1.0 / y) == x;
    assert (x * y) * (1.0 / x) == y;
  }

  lemma ProductSign(x: real, z: real)
    requires x > 0.0
    ensures x * z >= 0.0 <==> z >= 0.0
  {
  }

  lemma {:induction false} MrrPositive(ranked: seq<string>, relevance: seq<Judgment>, k: int)
    requires MrrAtK(ranked, relevance, k).Ok?
    ensures 0.0 <= MrrAtK(ranked, relevance, k).value <= 1.0
    ensures MrrAtK(ranked, relevance, k).value > 0.0 <==> Hits(ranked, relevance, k)
  {
    var ids := UniquePrefix(ranked, k);
    var place := FirstRelevant(relevance, ids);
    if place < |ids| {
      assert RelevantAt(relevance, ids, place);
      assert ids[place] in ids;
      PositiveQuotient(1.0, (place + 1) as real);
      Quotient(1.0, (place + 1) as real);
    } else {
      forall id | id in ids ensures GradeOf(relevance, id) == 0 {
        var i :| 0 <= i < |ids| && ids[i] == id;
        assert !RelevantAt(relevance, ids, i);
      }
    }
  }

  lemma {:induction false} NdcgPositive(disc: Discount, ranked: seq<string>, relevance: seq<Judgment>, k: int)
    requires IsDiscount(disc) && NdcgAtK(disc, ranked, relevance, k).Ok?
    ensures ValidGrades(relevance) && k >= 1
    ensures NdcgAtK(disc, ranked, relevance, k).value > 0.0 <==> Hits(ranked, relevance, k)
  {
    var ids := UniquePrefix(ranked, k);
    var observed := Observed(relevance, ids);
    DcgNonNegative(disc, observed, 1);
    PositiveQuotient(Dcg(disc, observed, 1), Dcg(disc, Ideal(relevance, k), 1));
    if Hits(ranked, relevance, k) {
      var id :| id in ids && GradeOf(relevance, id) >= 1;
      var i :| 0 <= i < |ids| && ids[i] == id;
      assert observed[i] != 0;
    } else {
      forall i | 0 <= i < |observed| ensures observed[i] == 0 {
        assert ids[i] in ids;
      }
    }
  }

  /** A ranking scores on one metric exactly when it scores on all three. */
  lemma {:induction false} PositiveTogether(disc: Discount, ranked: seq<string>, relevance: seq<Judgment>, k: int)
    requires IsDiscount(disc) && IsMapping(relevance) && RecallAtK(ranked, relevance, k).Ok?
    ensures NdcgAtK(disc, ranked, relevance, k).Ok? && MrrAtK(ranked, relevance, k).Ok?
    ensures NdcgAtK(disc, ranked, relevance, k).value > 0.0 <==> RecallAtK(ranked, relevance, k).value > 0.0
    ensures MrrAtK(ranked, relevance, k).value > 0.0 <==> RecallAtK(ranked, relevance, k).value > 0.0
  {
    UndefinedTogether(disc, ranked, relevance, k);
    RecallPositive(ranked, relevance, k);
    MrrPositive(ranked, relevance, k);
    NdcgPositive(disc, ranked, relevance, k);
  }

  lemma {:induction false} CountIfWider(p: string -> bool, q: string -> bool, s: seq<string>)
    requires forall x :: p(x) ==> q(x)
    ensures CountIf(p, s) <= CountIf(q, s)
  {
    if s != [] {
      CountIfWider(p, q, s[1..]);
    }
  }

  /** A deeper cut-off never loses recall. */
  lemma {:induction false} RecallGrowsWithDepth(ranked: seq<string>, relevance: seq<Judgment>, k: int, deeper: int)
    requires k <= deeper && RecallAtK(ranked, relevance, k).Ok?
    ensures RecallAtK(ranked, relevance, deeper).Ok?
    ensures RecallAtK(ranked, relevance, k).value <= RecallAtK(ranked, relevance, deeper).value
  {
    var relevant := RelevantIds(relevance);
    var few, many := UniquePrefix(ranked, k), UniquePrefix(ranked, deeper);
    assert forall x :: x in few ==> x in many by {
      assert few <= many;
    }
    CountIfWider(IsIn(few), IsIn(many), relevant);
    DivisionKeepsOrder(CountIf(IsIn(few), relevant) as real, CountIf(IsIn(many), relevant) as real, |relevant| as real);
  }

  lemma {:induction false} DivisionKeepsOrder(x: real, y: real, z: real)
    requires x <= y && z > 0.0
    ensures x / z <= y / z
  {
    assert x / z * z == x && y / z * z == y;
  }

  /******* What nDCG is *******/

  // The ID stands at place `p` for the first time, after exactly the IDs before it.
  ghost predicate AppearsFirst(ranked: seq<string>, ids: seq<string>, i: nat, p: nat) {
    && i < |ids| && p < |ranked| && ranked[p] == ids[i] && ids[i] !in ids[..i]
    && forall id :: id in ranked[..p] <==> id in ids[..i]
  }

  // The first `k` different IDs of a ranking, in its order.
  ghost predicate AreFirstIds(ranked: seq<string>, k: nat, ids: seq<string>) {
    && |ids| <= k
    && (|ids| < k ==> forall id :: id in ranked ==> id in ids)
    && forall i: nat :: i < |ids| ==> Appears(ranked, ids, i)
  }

  ghost predicate Appears(ranked: seq<string>, ids: seq<string>, i: nat) {
    exists p: nat :: AppearsFirst(ranked, ids, i, p)
  }

  lemma {:induction false} DedupAppearsFirst(ranked: seq<string>, i: nat) returns (p: nat)
    requires i < |Dedup(ranked)|
    ensures AppearsFirst(ranked, Dedup(ranked), i, p)
    decreases |ranked|
  {
    var init := ranked[..|ranked| - 1];
    DedupIsDistinct(ranked);
    if i < |Dedup(init)| {
      p := DedupAppearsFirst(init, i);
      assert ranked[..p] == init[..p] && Dedup(ranked)[..i] == Dedup(init)[..i];
    } else {
      p := |ranked| - 1;
      DedupIsDistinct(init);
      assert Dedup(ranked)[..i] == Dedup(init);
    }
  }

  lemma {:induction false} NotBefore(ranked: seq<string>, p: nat, id: string)
    requires p <= |ranked| && id !in ranked[..p]
    ensures forall q :: 0 <= q < p ==> ranked[q] != id
  {
    assert forall q :: 0 <= q < p ==> ranked[..p][q] == ranked[q];
  }

  lemma {:induction false} SameFirstIds(ranked: seq<string>, k: nat, a: seq<string>, b: seq<string>, n: nat)
    requires AreFirstIds(ranked, k, a) && AreFirstIds(ranked, k, b) && n <= |a| && n <= |b|
    ensures a[..n] == b[..n]
  {
    if n > 0 {
      SameFirstIds(ranked, k, a, b, n - 1);
      assert Appears(ranked, a, n - 1) && Appears(ranked, b, n - 1);
      var p: nat :| AppearsFirst(ranked, a, n - 1, p);
      var q: nat :| AppearsFirst(ranked, b, n - 1, q);
      NotBefore(ranked, p, a[n - 1]);
      NotBefore(ranked, q, b[n - 1]);
      assert a[..n] == a[..n - 1] + [a[n - 1]] && b[..n] == b[..n - 1] + [b[n - 1]];
    }
  }

  lemma {:induction false} NewIdIsRanked(ranked: seq<string>, ids: seq<string>, i: nat)
    requires Appears(ranked, ids, i)
    ensures i < |ids| && ids[i] in ranked && ids[i] !in ids[..i]
  {
  }

  lemma {:induction false} NoLongerThan(ranked: seq<string>, k: nat, a: seq<string>, b: seq<string>)
    requires AreFirstIds(ranked, k, a) && AreFirstIds(ranked, k, b)
    ensures |b| <= |a|
  {
    if |a| < |b| {
      SameFirstIds(ranked, k, a, b, |a|);
      NewIdIsRanked(ranked, b, |a|);
    }
  }

  /** The prefix without duplicates is the list of the first `k` different IDs. */
  lemma {:induction false} UniquePrefixIff(ranked: seq<string>, k: nat, ids: seq<string>)
    ensures AreFirstIds(ranked, k, ids) <==> ids == UniquePrefix(ranked, k)
  {
    var unique := UniquePrefix(ranked, k);
    DedupIsDistinct(ranked);
    forall i: nat | i < |unique| ensures Appears(ranked, unique, i) {
      var p := DedupAppearsFirst(ranked, i);
      assert unique[..i] == Dedup(ranked)[..i];
      assert AppearsFirst(ranked, unique, i, p);
    }
    if AreFirstIds(ranked, k, ids) {
      NoLongerThan(ranked, k, ids, unique);
      NoLongerThan(ranked, k, unique, ids);
      SameFirstIds(ranked, k, ids, unique, |ids|);
      assert ids[..|ids|] == ids && unique[..|ids|] == unique;
    }
  }

  // What the mapping says of an ID; 0 when it says nothing.
  ghost predicate IsGrade(relevance: seq<Judgment>, id: string, grade: nat) {
    || Judgment(id, grade) in relevance
    || (grade == 0 && forall judgment :: judgment in relevance ==> judgment.id != id)
  }

  lemma {:induction false} RestIsMapping(relevance: seq<Judgment>)
    requires IsMapping(relevance) && relevance != []
    ensures IsMapping(relevance[1..])
    ensures forall judgment :: judgment in relevance[1..] ==> judgment.id != relevance[0].id
  {
    var ids, rest := Map(IdOf, relevance), relevance[1..];
    assert Map(IdOf, rest) == ids[1..];
    forall judgment | judgment in rest ensures judgment.id != relevance[0].id {
      var i :| 0 <= i < |rest| && rest[i] == judgment;
      assert ids[i + 1] == judgment.id;
    }
  }

  lemma {:induction false} IsGradeInRest(first: Judgment, rest: seq<Judgment>, id: string, grade: nat)
    requires first.grade >= 0 && forall judgment :: judgment in rest ==> judgment.id != first.id
    ensures IsGrade([first] + rest, id, grade)
            <==> if id == first.id then grade == first.grade else IsGrade(rest, id, grade)
  {
    assert forall judgment :: judgment in [first] + rest <==> judgment == first || judgment in rest;
    if id == first.id {
      assert first in [first] + rest;
    }
  }

  lemma {:induction false} GradeOfIff(relevance: seq<Judgment>, id: string, grade: nat)
    requires ValidGrades(relevance) && IsMapping(relevance)
    ensures IsGrade(relevance, id, grade) <==> grade == GradeOf(relevance, id)
  {
    if relevance != [] {
      RestIsMapping(relevance);
      GradeOfIff(relevance[1..], id, grade);
      IsGradeInRest(relevance[0], relevance[1..], id, grade);
      assert relevance == [relevance[0]] + relevance[1..];
    }
  }

  // The grades of the IDs, place by place.
  ghost predicate AreGrades(relevance: seq<Judgment>, ids: seq<string>, grades: seq<nat>) {
    |grades| == |ids| && forall i :: 0 <= i < |ids| ==> IsGrade(relevance, ids[i], grades[i])
  }

  // The `k` largest of the judged grades, in descending order; `others` are the rest.
  ghost predicate AreLargest(relevance: seq<Judgment>, k: nat, grades: seq<nat>, others: seq<nat>)
    requires ValidGrades(relevance)
  {
    && multiset(grades + others) == multiset(Grades(relevance))
    && (forall i, j :: 0 <= i < j < |grades + others| ==> (grades + others)[i] >= (grades + others)[j])
    && |grades| <= k && (|grades| < k ==> others == [])
  }

  lemma {:induction false} LargestAreIdeal(relevance: seq<Judgment>, k: nat, grades: seq<nat>, others: seq<nat>)
    requires ValidGrades(relevance) && AreLargest(relevance, k, grades, others)
    ensures grades == Ideal(relevance, k)
  {
    var all := grades + others;
    IdealIsSorted(relevance);
    SortedUnique(Descending, all, Sort(Descending, Grades(relevance)));
    assert all[..|grades|] == grades;
  }

  lemma {:induction false} IdealIsLargest(relevance: seq<Judgment>, k: nat) returns (others: seq<nat>)
    requires ValidGrades(relevance)
    ensures AreLargest(relevance, k, Ideal(relevance, k), others)
  {
    var sorted, ideal := Sort(Descending, Grades(relevance)), Ideal(relevance, k);
    others := sorted[|ideal|..];
    assert ideal + others == sorted;
    IdealIsSorted(relevance);
    SortedDescends(sorted);
  }

  lemma {:induction false} SortedDescends(sorted: seq<nat>)
    requires SortedBy(Descending, sorted)
    ensures forall i, j :: 0 <= i < j < |sorted| ==> sorted[i] >= sorted[j]
  {
    forall i, j | 0 <= i < j < |sorted| ensures sorted[i] >= sorted[j] {
      assert Descending(sorted[i], sorted[j]);
    }
  }

  // 2 ** grade - 1 of the grades that there are.
  function Weight(grade: nat): real {
    if grade == 0 then 0.0 else if grade == 1 then 1.0 else 3.0
  }

  // The weights of the first `n` grades, each times the discount of its rank.
  function WeightedSum(disc: Discount, grades: seq<nat>, n: nat): real
    requires n <= |grades|
  {
    if n == 0 then 0.0 else WeightedSum(disc, grades, n - 1) + Weight(grades[n - 1]) * disc(n)
  }

  function TotalWeight(disc: Discount, grades: seq<nat>): real {
    WeightedSum(disc, grades, |grades|)
  }

  lemma {:induction false} GainIsWeight(grade: nat)
    requires grade <= 2
    ensures Gain(grade) == Weight(grade)
  {
    assert Pow2(0) == 1 && Pow2(1) == 2 && Pow2(2) == 4;
  }

  lemma {:induction false} DcgOneMore(disc: Discount, grades: seq<nat>, last: nat, first: nat)
    ensures Dcg(disc, grades + [last], first) == Dcg(disc, grades, first) + Gain(last) * disc(first + |grades|)
    decreases |grades|
  {
    if grades == [] {
      assert ([] + [last])[1..] == [] && Dcg(disc, [], first + 1) == 0.0;
    } else {
      assert (grades + [last])[1..] == grades[1..] + [last];
      DcgOneMore(disc, grades[1..], last, first + 1);
    }
  }

  lemma {:induction false} DcgIsWeightedSum(disc: Discount, grades: seq<nat>, n: nat)
    requires n <= |grades| && forall i :: 0 <= i < |grades| ==> grades[i] <= 2
    ensures Dcg(disc, grades[..n], 1) == WeightedSum(disc, grades, n)
  {
    if n > 0 {
      DcgIsWeightedSum(disc, grades, n - 1);
      GainIsWeight(grades[n - 1]);
      DcgOneMore(disc, grades[..n - 1], grades[n - 1], 1);
      assert grades[..n] == grades[..n - 1] + [grades[n - 1]];
    }
  }

  lemma {:induction false} GradesAreTheModels(disc: Discount, ranked: seq<string>, relevance: seq<Judgment>, k: int,
                                              ids: seq<string>, observed: seq<nat>, ideal: seq<nat>, others: seq<nat>)
    requires IsMapping(relevance) && NdcgAtK(disc, ranked, relevance, k).Ok?
    requires k >= 1 && ValidGrades(relevance)
    requires AreFirstIds(ranked, k, ids) && AreGrades(relevance, ids, observed)
    requires AreLargest(relevance, k, ideal, others)
    ensures observed == Observed(relevance, UniquePrefix(ranked, k)) && ideal == Ideal(relevance, k)
  {
    UniquePrefixIff(ranked, k, ids);
    LargestAreIdeal(relevance, k, ideal, others);
    ObservedAre(relevance, ids, observed);
  }

  /** Main result: nDCG times the discounted weights of the largest judged grades is the discounted weights of what the
      first `k` different IDs were judged, with weights 0, 1 and 3. */
  lemma {:induction false} NdcgIsShareOfIdeal(disc: Discount, ranked: seq<string>, relevance: seq<Judgment>, k: int,
                                              ids: seq<string>, observed: seq<nat>, ideal: seq<nat>, others: seq<nat>)
    requires IsMapping(relevance) && NdcgAtK(disc, ranked, relevance, k).Ok?
    requires k >= 1 && ValidGrades(relevance)
    requires AreFirstIds(ranked, k, ids) && AreGrades(relevance, ids, observed)
    requires AreLargest(relevance, k, ideal, others)
    ensures TotalWeight(disc, ideal) > 0.0
    ensures NdcgAtK(disc, ranked, relevance, k).value == TotalWeight(disc, observed) / TotalWeight(disc, ideal)
  {
    GradesAreTheModels(disc, ranked, relevance, k, ids, observed, ideal, others);
    NdcgIsShare(disc, ranked, relevance, k);
  }

  lemma {:induction false} NdcgIsShare(disc: Discount, ranked: seq<string>, relevance: seq<Judgment>, k: int)
    requires NdcgAtK(disc, ranked, relevance, k).Ok? && k >= 1 && ValidGrades(relevance)
    ensures TotalWeight(disc, Ideal(relevance, k)) > 0.0
    ensures NdcgAtK(disc, ranked, relevance, k).value
            == TotalWeight(disc, Observed(relevance, UniquePrefix(ranked, k))) / TotalWeight(disc, Ideal(relevance, k))
  {
    IdealGradesAreValid(relevance, k);
    DcgIsTotalWeight(disc, Ideal(relevance, k));
    DcgIsTotalWeight(disc, Observed(relevance, UniquePrefix(ranked, k)));
  }

  lemma {:induction false} DcgIsTotalWeight(disc: Discount, grades: seq<nat>)
    requires forall i :: 0 <= i < |grades| ==> grades[i] <= 2
    ensures Dcg(disc, grades, 1) == TotalWeight(disc, grades)
  {
    DcgIsWeightedSum(disc, grades, |grades|);
    assert grades[..|grades|] == grades;
  }

  lemma {:induction false} ObservedAre(relevance: seq<Judgment>, ids: seq<string>, observed: seq<nat>)
    requires ValidGrades(relevance) && IsMapping(relevance) && AreGrades(relevance, ids, observed)
    ensures observed == Observed(relevance, ids)
    ensures forall i :: 0 <= i < |observed| ==> observed[i] <= 2
  {
    forall i | 0 <= i < |ids| ensures observed[i] == GradeOf(relevance, ids[i]) {
      GradeOfIff(relevance, ids[i], observed[i]);
    }
  }

  lemma {:induction false} IdealGradesAreValid(relevance: seq<Judgment>, k: nat)
    requires ValidGrades(relevance)
    ensures forall i :: 0 <= i < |Ideal(relevance, k)| ==> Ideal(relevance, k)[i] <= 2
  {
    var sorted := Sort(Descending, Grades(relevance));
    InSort(Descending, Grades(relevance));
    forall i | 0 <= i < |sorted| ensures sorted[i] <= 2 {
      assert sorted[i] in sorted;
    }
  }

  /******* Exchanging two neighbours *******/

  function Exchanged<T>(s: seq<T>, i: nat): (r: seq<T>)
    requires i + 1 < |s|
    ensures |r| == |s|
  {
    s[i := s[i + 1]][i + 1 := s[i]]
  }

  lemma {:induction false} DedupOfDistinct<T>(s: seq<T>)
    requires Distinct(s)
    ensures Dedup(s) == s
  {
    if s != [] {
      DedupOfDistinct(s[..|s| - 1]);
      assert s == s[..|s| - 1] + [s[|s| - 1]];
    }
  }

  lemma {:induction false} ExchangedSum(disc: Discount, grades: seq<nat>, i: nat, n: nat)
    requires i + 1 < n <= |grades|
    ensures WeightedSum(disc, Exchanged(grades, i), n) - WeightedSum(disc, grades, n)
            == (Weight(grades[i + 1]) - Weight(grades[i])) * (disc(i + 1) - disc(i + 2))
  {
    if n == i + 2 {
      SumBefore(disc, Exchanged(grades, i), grades, i);
      TwoMore(disc, Exchanged(grades, i), i);
      TwoMore(disc, grades, i);
      ExchangedTerms(WeightedSum(disc, grades, i), Weight(grades[i]), Weight(grades[i + 1]), disc(i + 1), disc(i + 2));
    } else {
      ExchangedSum(disc, grades, i, n - 1);
      assert Exchanged(grades, i)[n - 1] == grades[n - 1];
    }
  }

  lemma {:induction false} TwoMore(disc: Discount, grades: seq<nat>, i: nat)
    requires i + 1 < |grades|
    ensures WeightedSum(disc, grades, i + 2)
            == WeightedSum(disc, grades, i) + Weight(grades[i]) * disc(i + 1) + Weight(grades[i + 1]) * disc(i + 2)
  {
  }

  lemma {:induction false} SumBefore(disc: Discount, a: seq<nat>, b: seq<nat>, n: nat)
    requires n <= |a| && n <= |b| && forall i :: 0 <= i < n ==> a[i] == b[i]
    ensures WeightedSum(disc, a, n) == WeightedSum(disc, b, n)
  {
    if n > 0 {
      SumBefore(disc, a, b, n - 1);
    }
  }

  lemma {:induction false} ExchangedTerms(before: real, v: real, w: real, d: real, e: real)
    ensures (before + w * d + v * e) - (before + v * d + w * e) == (w - v) * (d - e)
  {
  }

  lemma {:induction false} PrefixOfExchanged<T>(s: seq<T>, i: nat, k: nat)
    requires i + 1 < |s| && i + 1 < k
    ensures |Prefix(s, k)| > i + 1 && Prefix(Exchanged(s, i), k) == Exchanged(Prefix(s, k), i)
  {
  }

  lemma {:induction false} ExchangedIsValid(ranked: seq<string>, i: nat)
    requires i + 1 < |ranked| && Distinct(ranked)
    ensures Distinct(Exchanged(ranked, i))
    ensures "" in Exchanged(ranked, i) <==> "" in ranked
  {
    var other := Exchanged(ranked, i);
    assert forall j :: 0 <= j < |ranked| ==>
                         other[j] == ranked[if j == i then i + 1 else if j == i + 1 then i else j];
    assert ranked[i] == other[i + 1] && ranked[i + 1] == other[i];
    assert forall j :: 0 <= j < |ranked| && j != i && j != i + 1 ==> ranked[j] == other[j];
  }

  // What an exchange of the results at places `i` and `i + 1`, judged `a` and `b`, changes.
  ghost predicate IsExchange(disc: Discount, ranked: seq<string>, relevance: seq<Judgment>, k: int, i: nat, a: nat,
                             b: nat)
  {
    && IsDiscount(disc) && IsMapping(relevance) && ValidGrades(relevance)
    && Distinct(ranked) && i + 1 < |ranked| && i + 1 < k
    && IsGrade(relevance, ranked[i], a) && IsGrade(relevance, ranked[i + 1], b)
  }

  /** An exchange of neighbours improves the score exactly when the later result has the larger grade. */
  lemma {:induction false} ExchangeImprovesIff(disc: Discount, ranked: seq<string>, relevance: seq<Judgment>, k: int,
                                               i: nat, a: nat, b: nat)
    requires IsExchange(disc, ranked, relevance, k, i, a, b) && NdcgAtK(disc, ranked, relevance, k).Ok?
    ensures var after := NdcgAtK(disc, Exchanged(ranked, i), relevance, k);
            after.Ok? && (after.value > NdcgAtK(disc, ranked, relevance, k).value <==> b > a)
  {
    var observed, ideal := Observed(relevance, UniquePrefix(ranked, k)), Ideal(relevance, k);
    var others := IdealIsLargest(relevance, k);
    ExchangedShare(disc, ranked, relevance, k, i, ideal, others, a, b);
    ExchangeWeighsMoreIff(disc, observed, i);
    PositiveShare(TotalWeight(disc, Exchanged(observed, i)), TotalWeight(disc, observed), TotalWeight(disc, ideal));
  }

  lemma {:induction false} ExchangedShare(disc: Discount, ranked: seq<string>, relevance: seq<Judgment>, k: int,
                                          i: nat, ideal: seq<nat>, others: seq<nat>, a: nat, b: nat)
    requires IsExchange(disc, ranked, relevance, k, i, a, b)
    requires NdcgAtK(disc, ranked, relevance, k).Ok? && AreLargest(relevance, k, ideal, others)
    ensures TotalWeight(disc, ideal) > 0.0
    ensures
      var observed := Observed(relevance, UniquePrefix(ranked, k));
      && i + 1 < |observed| && observed[i] == a <= 2 && observed[i + 1] == b <= 2
      && NdcgAtK(disc, ranked, relevance, k) == Ok(TotalWeight(disc, observed) / TotalWeight(disc, ideal))
      && NdcgAtK(disc, Exchanged(ranked, i), relevance, k)
         == Ok(TotalWeight(disc, Exchanged(observed, i)) / TotalWeight(disc, ideal))
  {
    ExchangedIsValid(ranked, i);
    ExchangedObserved(ranked, relevance, k, i, a, b);
    LargestAreIdeal(relevance, k, ideal, others);
    NdcgIsShare(disc, ranked, relevance, k);
    NdcgIsShare(disc, Exchanged(ranked, i), relevance, k);
  }

  /** It changes the total by the difference of the weights times the difference of the discounts. */
  lemma {:induction false} ExchangedWeight(disc: Discount, grades: seq<nat>, i: nat)
    requires i + 1 < |grades|
    ensures TotalWeight(disc, Exchanged(grades, i)) - TotalWeight(disc, grades)
            == (Weight(grades[i + 1]) - Weight(grades[i])) * (disc(i + 1) - disc(i + 2))
  {
    ExchangedSum(disc, grades, i, |grades|);
  }

  lemma {:induction false} ExchangedObserved(ranked: seq<string>, relevance: seq<Judgment>, k: nat, i: nat,
                                             a: nat, b: nat)
    requires Distinct(ranked) && i + 1 < |ranked| && i + 1 < k && IsMapping(relevance) && ValidGrades(relevance)
    requires IsGrade(relevance, ranked[i], a) && IsGrade(relevance, ranked[i + 1], b)
    ensures var observed := Observed(relevance, UniquePrefix(ranked, k));
            && i + 1 < |observed| && observed[i] == a <= 2 && observed[i + 1] == b <= 2
            && Observed(relevance, UniquePrefix(Exchanged(ranked, i), k)) == Exchanged(observed, i)
  {
    ExchangedPrefix(ranked, k, i);
    GradeOfIff(relevance, ranked[i], a);
    GradeOfIff(relevance, ranked[i + 1], b);
    ObservedOfExchanged(relevance, UniquePrefix(ranked, k), i);
  }

  lemma {:induction false} ExchangedPrefix(ranked: seq<string>, k: nat, i: nat)
    requires Distinct(ranked) && i + 1 < |ranked| && i + 1 < k
    ensures UniquePrefix(ranked, k) == Prefix(ranked, k) && |Prefix(ranked, k)| > i + 1
    ensures UniquePrefix(Exchanged(ranked, i), k) == Exchanged(Prefix(ranked, k), i)
  {
    ExchangedIsValid(ranked, i);
    DedupOfDistinct(ranked);
    DedupOfDistinct(Exchanged(ranked, i));
    PrefixOfExchanged(ranked, i, k);
  }

  lemma {:induction false} ObservedOfExchanged(relevance: seq<Judgment>, ids: seq<string>, i: nat)
    requires ValidGrades(relevance) && i + 1 < |ids|
    ensures Observed(relevance, Exchanged(ids, i)) == Exchanged(Observed(relevance, ids), i)
  {
  }

  lemma {:induction false} ExchangeWeighsMoreIff(disc: Discount, grades: seq<nat>, i: nat)
    requires IsDiscount(disc) && i + 1 < |grades| && grades[i] <= 2 && grades[i + 1] <= 2
    ensures TotalWeight(disc, Exchanged(grades, i)) > TotalWeight(disc, grades) <==> grades[i + 1] > grades[i]
  {
    ExchangedWeight(disc, grades, i);
    SignOfProduct(Weight(grades[i + 1]) - Weight(grades[i]), disc(i + 1) - disc(i + 2));
  }

  lemma {:induction false} SignOfProduct(w: real, d: real)
    requires d > 0.0
    ensures w * d > 0.0 <==> w > 0.0
  {
  }

  lemma {:induction false} PositiveShare(after: real, before: real, sum: real)
    requires sum > 0.0
    ensures after / sum > before / sum <==> after > before
  {
    assert after / sum * sum == after && before / sum * sum == before;
  }
}
