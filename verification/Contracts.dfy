/** The frozen benchmark contract: sources, splits, tags, queries and quotas. */
module Contracts {

  datatype Source = Nq | HotpotBridge | HotpotComparison | Musique
  datatype SplitName = Train | Validation | Test
  datatype Tag = Semantic | Entity | Relationship | Comparison | TwoHop | ThreeHop

  datatype Query = Query(id: string, source: Source, tags: seq<Tag>, keys: seq<string>)

  datatype Assignment = Assignment(id: string, split: SplitName)

  // Enumerations in declaration order, as Python iterates them.
  const SOURCES: seq<Source> := [Nq, HotpotBridge, HotpotComparison, Musique]
  const SPLITS: seq<SplitName> := [Train, Validation, Test]
  const TAGS: seq<Tag> := [Semantic, Entity, Relationship, Comparison, TwoHop, ThreeHop]

  const QUERY_TOTAL := 600
  const REQUIRED_TEST_TAG_MINIMUM := 15

  function Quota(source: Source, split: SplitName): (quota: nat)
    ensures quota > 0
  {
    match (source, split)
    case (Nq, Train) => 120
    case (HotpotBridge, Train) => 120
    case (HotpotComparison, Train) => 60
    case (Musique, Train) => 60
    case (Nq, _) => 40
    case (HotpotBridge, _) => 40
    case (HotpotComparison, _) => 20
    case (Musique, _) => 20
  }

  /** Three fifths of every source's queries are for training and a fifth each for validation and test. */
  lemma {:induction false} QuotasAreShares(source: Source, total: nat)
    requires total == if source == Nq || source == HotpotBridge then 200 else 100
    ensures 5 * Quota(source, Train) == 3 * total
    ensures 5 * Quota(source, Validation) == 5 * Quota(source, Test) == total
  {
    match source { case Nq => case HotpotBridge => case HotpotComparison => case Musique => }
  }

  lemma SourceListed(s: Source)
    ensures s in SOURCES
  {
    match s
    case Nq => assert SOURCES[0] == s;
    case HotpotBridge => assert SOURCES[1] == s;
    case HotpotComparison => assert SOURCES[2] == s;
    case Musique => assert SOURCES[3] == s;
  }

  lemma SplitListed(s: SplitName)
    ensures s in SPLITS
  {
    match s
    case Train => assert SPLITS[0] == s;
    case Validation => assert SPLITS[1] == s;
    case Test => assert SPLITS[2] == s;
  }

  lemma TagListed(t: Tag)
    ensures t in TAGS
  {
    match t
    case Semantic => assert TAGS[0] == t;
    case Entity => assert TAGS[1] == t;
    case Relationship => assert TAGS[2] == t;
    case Comparison => assert TAGS[3] == t;
    case TwoHop => assert TAGS[4] == t;
    case ThreeHop => assert TAGS[5] == t;
  }

  lemma TagsListed()
    ensures forall t: Tag :: t in TAGS
  {
    forall t: Tag ensures t in TAGS { TagListed(t); }
  }
}
