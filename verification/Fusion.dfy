/** Weighted reciprocal-rank fusion: the order in which a hybrid response puts what the two branches found. */
module Fusion {
  import opened Wrappers
  import opened Ordering
  import opened Degradation

  const RRF_K := 60

  // Between zero and one, and together one.
  datatype Weights = Weights(vector: real, graph: real)
  {
    ghost predicate Valid() {
      0.0 <= vector <= 1.0 && 0.0 <= graph <= 1.0 && vector + graph == 1.0
    }
  }

  // The rank of a hit, from 1; 0 when the branch did not find it.
  function RankOf(hits: seq<string>, id: string): (rank: nat)
    ensures rank <= |hits|
    ensures rank == 0 <==> id !in hits
    ensures rank > 0 ==> hits[rank - 1] == id && id !in hits[..rank - 1]
  {
    if hits == [] then 0
    else if hits[0] == id then 1
    else
      var later := RankOf(hits[1..], id);
      assert hits == [hits[0]] + hits[1..];
      assert later > 0 ==> hits[..later] == [hits[0]] + hits[1..][..later - 1];
      if later == 0 then 0 else later + 1
  }

  function Contribution(weight: real, rank: nat): real {
    if rank == 0 then 0.0 else weight / (RRF_K + rank) as real
  }

  function Score(weights: Weights, v: seq<string>, g: seq<string>, id: string): real {
    Contribution(weights.vector, RankOf(v, id)) + Contribution(weights.graph, RankOf(g, id))
  }

  // sorted by (-score, canonical_chunk_id)
  function ByScore(weights: Weights, v: seq<string>, g: seq<string>): (string, string) -> bool {
    (a: string, b: string) =>
      var x, y := Score(weights, v, g, a), Score(weights, v, g, b);
      x > y || (x == y && StringLe(a, b))
  }

  /** The order leaves nothing open, so the fusion of two rankings is one list. */
  lemma {:induction false} ByScoreIsTotalOrder(weights: Weights, v: seq<string>, g: seq<string>)
    ensures TotalPreorder(ByScore(weights, v, g)) && Antisymmetric(ByScore(weights, v, g))
  {
    StringLeIsTotalOrder();
  }

  /******* What a rank contributes *******/

  /** A contribution times 60 more than its rank is the weight; a later rank contributes less when there is a weight. */
  lemma {:induction false} ContributionFalls(weight: real, rank: nat, later: nat)
    requires weight >= 0.0 && 1 <= rank < later
    ensures Contribution(weight, rank) * (60 + rank) as real == weight
    ensures Contribution(weight, rank) >= Contribution(weight, later) >= 0.0
    ensures weight > 0.0 ==> Contribution(weight, rank) > Contribution(weight, later) > 0.0
  {
    var m, n := (60 + rank) as real, (60 + later) as real;
    Share(weight, m);
    Share(weight, n);
    LargerPart(weight, weight / m, m, weight / n, n);
  }

  lemma {:induction false} Share(weight: real, m: real)
    requires weight >= 0.0 && m > 0.0
    ensures weight / m * m == weight && weight / m >= 0.0 && (weight > 0.0 ==> weight / m > 0.0)
  {
  }

  lemma {:induction false} LargerPart(weight: real, x: real, m: real, y: real, n: real)
    requires 0.0 < m < n && x * m == weight && y * n == weight && x >= 0.0 && y >= 0.0
    ensures x >= y && (weight > 0.0 ==> x > y)
  {
    assert (x - y) * m == y * (n - m);
    assert y * (n - m) >= 0.0;
    if weight > 0.0 {
      assert y * (n - m) > 0.0;
      SignOf(x - y, m);
    }
    SignOf(x - y, m);
  }

  lemma {:induction false} SignOf(z: real, m: real)
    requires m > 0.0
    ensures z * m >= 0.0 ==> z >= 0.0
    ensures z * m > 0.0 ==> z > 0.0
  {
  }

  // In this branch `a` was found, and `b` not before it.
  predicate NotBehind(hits: seq<string>, a: string, b: string) {
    var x, y := RankOf(hits, a), RankOf(hits, b);
    y == 0 || (x != 0 && x <= y)
  }

  lemma {:induction false} NotBehindScoresMore(weight: real, hits: seq<string>, a: string, b: string)
    requires weight >= 0.0 && NotBehind(hits, a, b)
    ensures Contribution(weight, RankOf(hits, a)) >= Contribution(weight, RankOf(hits, b))
    ensures weight > 0.0 && a in hits && a != b ==>
              Contribution(weight, RankOf(hits, a)) > Contribution(weight, RankOf(hits, b))
  {
    var x, y := RankOf(hits, a), RankOf(hits, b);
    if y != 0 && x < y {
      ContributionFalls(weight, x, y);
    } else if x != 0 && y == 0 {
      ContributionFalls(weight, x, x + 1);
    } else if x != 0 {
      SameRank(hits, a, b);
    }
  }

  lemma {:induction false} SameRank(hits: seq<string>, a: string, b: string)
    requires RankOf(hits, a) == RankOf(hits, b) != 0
    ensures a == b
  {
  }

  /** Main result: a hit that no branch puts behind another one comes before it, if some branch that has a weight found
      it. */
  lemma {:induction false} DominatingComesFirst(weights: Weights, v: seq<string>, g: seq<string>, a: string, b: string)
    requires weights.Valid() && a != b && NotBehind(v, a, b) && NotBehind(g, a, b)
    requires (weights.vector > 0.0 && a in v) || (weights.graph > 0.0 && a in g)
    ensures ByScore(weights, v, g)(a, b) && !ByScore(weights, v, g)(b, a)
  {
    NotBehindScoresMore(weights.vector, v, a, b);
    NotBehindScoresMore(weights.graph, g, a, b);
    LargerSum(Contribution(weights.vector, RankOf(v, a)), Contribution(weights.vector, RankOf(v, b)),
              Contribution(weights.graph, RankOf(g, a)), Contribution(weights.graph, RankOf(g, b)));
    ByScoreMeans(weights, v, g, a, b);
    ByScoreMeans(weights, v, g, b, a);
  }

  lemma {:induction false} LargerSum(x: real, y: real, z: real, w: real)
    requires x >= y && z >= w && (x > y || z > w)
    ensures x + z > y + w
  {
  }

  /** Two hits that stand at each other's ranks are ordered by the weights: the branch that has more of it decides. */
  lemma {:induction false} HeavierBranchDecides(weights: Weights, v: seq<string>, g: seq<string>, a: string, b: string)
    requires weights.Valid() && a != b
    requires 1 <= RankOf(v, a) == RankOf(g, b) < RankOf(v, b) == RankOf(g, a)
    ensures ByScore(weights, v, g)(a, b)
            <==> weights.vector > weights.graph || (weights.vector == weights.graph && StringLe(a, b))
  {
    var m, n := RankOf(v, a), RankOf(v, b);
    ScoresAre(weights, v, g, a, m, n);
    ScoresAre(weights, v, g, b, n, m);
    ByScoreMeans(weights, v, g, a, b);
    CrossedContributions(weights.vector, weights.graph, m, n);
  }

  lemma {:induction false} ScoresAre(weights: Weights, v: seq<string>, g: seq<string>, id: string, m: nat, n: nat)
    requires RankOf(v, id) == m && RankOf(g, id) == n
    ensures Score(weights, v, g, id) == Contribution(weights.vector, m) + Contribution(weights.graph, n)
  {
  }

  lemma {:induction false} CrossedContributions(w: real, u: real, m: nat, n: nat)
    requires 1 <= m < n
    ensures Contribution(w, m) + Contribution(u, n) > Contribution(w, n) + Contribution(u, m) <==> w > u
    ensures Contribution(w, m) + Contribution(u, n) == Contribution(w, n) + Contribution(u, m) <==> w == u
  {
    var s, t := Contribution(1.0, m), Contribution(1.0, n);
    assert s > t by { ContributionFalls(1.0, m, n); }
    ScaledContribution(w, m);
    ScaledContribution(w, n);
    ScaledContribution(u, m);
    ScaledContribution(u, n);
    Crossed(w, u, s, t);
  }

  lemma {:induction false} ScaledContribution(weight: real, rank: nat)
    requires rank > 0
    ensures Contribution(weight, rank) == weight * Contribution(1.0, rank)
  {
    Scaled(weight, (60 + rank) as real);
  }

  lemma {:induction false} Scaled(weight: real, m: real)
    requires m > 0.0
    ensures weight / m == weight * (1.0 / m)
  {
  }

  lemma {:induction false} Crossed(w: real, u: real, s: real, t: real)
    requires s > t
    ensures w * s + u * t > w * t + u * s <==> w > u
    ensures w * s + u * t == w * t + u * s <==> w == u
  {
    assert (w * s + u * t) - (w * t + u * s) == (w - u) * (s - t);
  }

  /******* The response *******/

  // A larger score, or the same one and an ID that is not larger.
  predicate MayPrecede(weights: Weights, v: seq<string>, g: seq<string>, a: string, b: string) {
    && Score(weights, v, g, a) >= Score(weights, v, g, b)
    && (Score(weights, v, g, a) == Score(weights, v, g, b) ==> StringLe(a, b))
  }

  // The results are distinct candidates in descending order of their scores, and none that was left out scores more.
  ghost predicate AreBestScores(weights: Weights, v: seq<string>, g: seq<string>, results: seq<string>, topK: nat) {
    && |results| == (if |Degradation.IdsOf(v + g)| <= topK then |Degradation.IdsOf(v + g)| else topK)
    && (forall x :: x in results ==> x in v + g)
    && (forall i, j :: 0 <= i < j < |results| ==>
          results[i] != results[j] && MayPrecede(weights, v, g, results[i], results[j]))
    && (forall x, y :: x in results && y in v + g && y !in results ==> MayPrecede(weights, v, g, x, y))
  }

  lemma {:induction false} BestByScore(weights: Weights, v: seq<string>, g: seq<string>, results: seq<string>,
                                       topK: nat)
    requires AreBest(ByScore(weights, v, g), results, Degradation.IdsOf(v) + Degradation.IdsOf(g), topK)
    ensures AreBestScores(weights, v, g, results, topK)
  {
    BothIds(v, g, results);
    forall i, j | 0 <= i < j < |results|
      ensures results[i] != results[j] && MayPrecede(weights, v, g, results[i], results[j])
    {
      ByScoreMeans(weights, v, g, results[i], results[j]);
    }
    forall x, y | x in results && y in v + g && y !in results ensures MayPrecede(weights, v, g, x, y) {
      assert y in Degradation.IdsOf(v) + Degradation.IdsOf(g);
      ByScoreMeans(weights, v, g, x, y);
    }
  }

  lemma {:induction false} ByScoreMeans(weights: Weights, v: seq<string>, g: seq<string>, a: string, b: string)
    ensures ByScore(weights, v, g)(a, b) <==> MayPrecede(weights, v, g, a, b)
  {
  }

  lemma {:induction false} BothIds(v: seq<string>, g: seq<string>, results: seq<string>)
    ensures Degradation.IdsOf(v + g) == Degradation.IdsOf(v) + Degradation.IdsOf(g)
    ensures Degradation.IdsOf(results) <= Degradation.IdsOf(v + g) ==> forall x :: x in results ==> x in v + g
  {
    forall x | x in results ensures x in Degradation.IdsOf(results) {}
  }

  /** Main result: a complete response to a hybrid request has the candidates of the largest scores, in descending order
      and equal scores in the order of their IDs. */
  lemma {:induction false} HybridHitsByScore(weights: Weights, naming: Naming, execution: Execution, topK: nat,
                                             plannerReason: Option<string>, late: bool, v: BranchResult,
                                                 g: BranchResult,
                                             response: Response)
    requires IsExecution(HybridMode, execution) && execution.results == [v, g]
    requires Respond(ByScore(weights, v.hits, g.hits), naming, execution, HybridMode, topK, plannerReason, late)
             == Ok(response)
    requires response.status == Complete
    ensures AreBestScores(weights, v.hits, g.hits, response.results, topK)
  {
    ByScoreIsTotalOrder(weights, v.hits, g.hits);
    HybridHits(ByScore(weights, v.hits, g.hits), naming, execution, topK, plannerReason, late, v, g);
    BestByScore(weights, v.hits, g.hits, response.results, topK);
  }
}
