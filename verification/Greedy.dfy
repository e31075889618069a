/** What the allocator promises, said without its own ranking: component by component, largest first, each goes where
    most is left of its sources' quotas. */
module Greedy {
  import opened Wrappers
  import opened Contracts
  import opened Ordering
  import opened Counting
  import opened Text
  import opened Allocation

  /******* The best split for one component *******/

  // The places of the queries of one source.
  function PlacesOf(component: seq<Query>, source: Source): set<nat> {
    set i: nat | i < |component| && component[i].source == source
  }

  // No source of the component has more queries than are left of its quota.
  ghost predicate HasRoom(left: Remaining, component: seq<Query>, split: SplitName) {
    forall source: Source :: PlacesOf(component, source) != {}
                             ==> |PlacesOf(component, source)| <= Room(left, source, split)
  }

  // The part of the quota that is left, for a source that the component has.
  function PartLeft(left: Remaining, component: seq<Query>, split: SplitName, source: Source): real {
    if PlacesOf(component, source) == {} then 0.0
    else Room(left, source, split) as real / Quota(source, split) as real
  }

  function PartsLeft(left: Remaining, component: seq<Query>, split: SplitName): real {
    PartLeft(left, component, split, Nq) + PartLeft(left, component, split, HotpotBridge)
    + PartLeft(left, component, split, HotpotComparison) + PartLeft(left, component, split, Musique)
  }

  function IdsText(component: seq<Query>): string {
    Join("|", Ids(component))
  }

  function TieDigest(sha: Digest, attempt: nat, component: seq<Query>, split: SplitName): nat {
    match split
    case Train => sha("20260809:" + Decimal(attempt) + ":train:" + IdsText(component))
    case Validation => sha("20260809:" + Decimal(attempt) + ":validation:" + IdsText(component))
    case Test => sha("20260809:" + Decimal(attempt) + ":test:" + IdsText(component))
  }

  predicate IsListedBefore(a: SplitName, b: SplitName) {
    (a == Train && b != Train) || (a == Validation && b == Test)
  }

  // More is left in `split`; or as much, and its digest is smaller; or that is equal too, and it is listed first.
  ghost predicate IsPreferred(sha: Digest, attempt: nat, left: Remaining, component: seq<Query>,
                              split: SplitName, other: SplitName)
  {
    var mine, its := PartsLeft(left, component, split), PartsLeft(left, component, other);
    var tie, itsTie := TieDigest(sha, attempt, component, split), TieDigest(sha, attempt, component, other);
    mine > its || (mine == its && (tie < itsTie || (tie == itsTie && IsListedBefore(split, other))))
  }

  ghost predicate IsBest(sha: Digest, attempt: nat, left: Remaining, component: seq<Query>, split: SplitName) {
    && HasRoom(left, component, split)
    && forall other :: other != split && HasRoom(left, component, other)
                       ==> IsPreferred(sha, attempt, left, component, split, other)
  }

  lemma {:induction false} NeededIsNumberOfPlaces(component: seq<Query>, source: Source)
    ensures Needed(component, source) == |PlacesOf(component, source)|
    decreases |component|
  {
    if component != [] {
      var init, last := component[..|component| - 1], component[|component| - 1];
      NeededIsNumberOfPlaces(init, source);
      CountIfAppend(HasSource(source), init, [last]);
      assert component == init + [last];
      OnePlaceMore(init, last, source);
    }
  }

  lemma {:induction false} OnePlaceMore(init: seq<Query>, last: Query, source: Source)
    ensures |PlacesOf(init + [last], source)| == |PlacesOf(init, source)| + if last.source == source then 1 else 0
  {
    var before := PlacesOf(init, source);
    assert PlacesOf(init + [last], source) == if last.source == source then before + {|init|} else before;
  }

  lemma {:induction false} FitsIffHasRoom(left: Remaining, component: seq<Query>, split: SplitName)
    ensures Fits(left, component, split) <==> HasRoom(left, component, split)
  {
    forall source: Source
      ensures Needed(component, source) == |PlacesOf(component, source)|
    {
      NeededIsNumberOfPlaces(component, source);
    }
    forall source: Source ensures Needed(component, source) > 0 <==> PlacesOf(component, source) != {} {}
    if HasRoom(left, component, split) {
      forall source: Source | Needed(component, source) > 0
        ensures Room(left, source, split) >= Needed(component, source)
      {
        assert PlacesOf(component, source) != {};
      }
    }
  }

  lemma {:induction false} PressureIsPartsLeft(left: Remaining, component: seq<Query>, split: SplitName)
    ensures Pressure(left, component, split) == PartsLeft(left, component, split)
  {
    NeededIsNumberOfPlaces(component, Nq);
    NeededIsNumberOfPlaces(component, HotpotBridge);
    NeededIsNumberOfPlaces(component, HotpotComparison);
    NeededIsNumberOfPlaces(component, Musique);
  }

  lemma {:induction false} SeedText()
    ensures Decimal(SPLIT_SEED) == "20260809"
  {
    assert Decimal(20) == "20";
    assert Decimal(202) == "202";
    assert Decimal(2026) == "2026";
    assert Decimal(20260) == "20260";
    assert Decimal(202608) == "202608";
    assert Decimal(2026080) == "2026080";
  }

  lemma {:induction false} TieKeyIsTieDigest(sha: Digest, attempt: nat, component: seq<Query>, split: SplitName)
    ensures TieKey(sha, attempt, component, split) == TieDigest(sha, attempt, component, split)
  {
    SeedText();
    TieText(Decimal(attempt), SplitText(split), IdsText(component));
  }

  lemma {:induction false} TieText(number: string, name: string, ids: string)
    ensures "20260809" + ":" + number + ":" + name + ":" + ids == "20260809:" + number + (":" + name + ":") + ids
    ensures ":" + "train" + ":" == ":train:" && ":" + "validation" + ":" == ":validation:"
            && ":" + "test" + ":" == ":test:"
  {
    assert "20260809" + ":" == "20260809:";
  }

  lemma {:induction false} BestOfThree(rank: SplitName -> Rank, feasible: seq<SplitName>, other: SplitName)
    requires feasible != [] && other in feasible
    requires feasible in {[Train], [Validation], [Test], [Train, Validation], [Train, Test], [Validation, Test],
                          [Train, Validation, Test]}
    ensures rank(BestOf(rank, feasible)) == rank(other) ==> !IsListedBefore(other, BestOf(rank, feasible))
  {
    if |feasible| == 3 {
      assert feasible[..2] == [Train, Validation];
      assert [Train, Validation][..1] == [Train];
    } else if |feasible| == 2 {
      assert feasible[..1] == [feasible[0]];
    }
  }

  lemma {:induction false} FeasibleCases(left: Remaining, component: seq<Query>)
    requires Feasible(left, component) != []
    ensures Feasible(left, component) in {[Train], [Validation], [Test], [Train, Validation], [Train, Test],
                                          [Validation, Test], [Train, Validation, Test]}
  {
    var none: seq<SplitName> := [];
    assert none + [Validation] == [Validation] && none + [Test] == [Test];
    assert [Train] + [Validation] == [Train, Validation] && [Train] + [Test] == [Train, Test];
    assert [Validation] + [Test] == [Validation, Test];
    assert [Train, Validation] + [Test] == [Train, Validation, Test];
  }

  lemma {:induction false} ChosenIsBest(sha: Digest, attempt: nat, left: Remaining, component: seq<Query>)
    requires ChooseSplit(sha, attempt, left, component).Some?
    ensures IsBest(sha, attempt, left, component, ChooseSplit(sha, attempt, left, component).value)
  {
    var split := ChooseSplit(sha, attempt, left, component).value;
    ChoiceIsBest(sha, attempt, left, component, split);
    FitsIffHasRoom(left, component, split);
    forall other | other != split && HasRoom(left, component, other)
      ensures IsPreferred(sha, attempt, left, component, split, other)
    {
      FitsIffHasRoom(left, component, other);
      ChosenIsPreferred(sha, attempt, left, component, split, other);
    }
  }

  lemma {:induction false} ChosenIsPreferred(sha: Digest, attempt: nat, left: Remaining, component: seq<Query>,
                                             split: SplitName, other: SplitName)
    requires ChooseSplit(sha, attempt, left, component) == Some(split)
    requires Fits(left, component, other) && other != split
    ensures IsPreferred(sha, attempt, left, component, split, other)
  {
    ChoiceIsBest(sha, attempt, left, component, other);
    ChosenIsListedFirst(sha, attempt, left, component, split, other);
    RanksAre(sha, attempt, left, component, split);
    RanksAre(sha, attempt, left, component, other);
    assert IsListedBefore(split, other) || IsListedBefore(other, split);
  }

  lemma {:induction false} ChosenIsListedFirst(sha: Digest, attempt: nat, left: Remaining, component: seq<Query>,
                                               split: SplitName, other: SplitName)
    requires ChooseSplit(sha, attempt, left, component) == Some(split) && Fits(left, component, other)
    ensures var rank := RankIn(sha, attempt, left, component);
            rank(split) == rank(other) ==> !IsListedBefore(other, split)
  {
    FeasibleAreThoseThatFit(left, component, other);
    FeasibleCases(left, component);
    BestOfThree(RankIn(sha, attempt, left, component), Feasible(left, component), other);
  }

  lemma {:induction false} RanksAre(sha: Digest, attempt: nat, left: Remaining, component: seq<Query>, split: SplitName)
    ensures RankIn(sha, attempt, left, component)(split)
            == Rank(PartsLeft(left, component, split), TieDigest(sha, attempt, component, split))
  {
    PressureIsPartsLeft(left, component, split);
    TieKeyIsTieDigest(sha, attempt, component, split);
  }

  /** Main result: the split chosen for a component is the best one, and there is none exactly when none has room. */
  lemma {:induction false} ChosenIffBest(sha: Digest, attempt: nat, left: Remaining, component: seq<Query>,
                                         split: SplitName)
    ensures ChooseSplit(sha, attempt, left, component) == Some(split) <==> IsBest(sha, attempt, left, component, split)
    ensures ChooseSplit(sha, attempt, left, component) == None ==> !HasRoom(left, component, split)
  {
    var choice := ChooseSplit(sha, attempt, left, component);
    ChoiceIsBest(sha, attempt, left, component, split);
    FitsIffHasRoom(left, component, split);
    if choice.Some? {
      ChosenIsBest(sha, attempt, left, component);
      if IsBest(sha, attempt, left, component, split) {
        OneIsBest(sha, attempt, left, component, split, choice.value);
      }
    }
  }

  lemma {:induction false} OneIsBest(sha: Digest, attempt: nat, left: Remaining, component: seq<Query>,
                                     a: SplitName, b: SplitName)
    requires IsBest(sha, attempt, left, component, a) && IsBest(sha, attempt, left, component, b)
    ensures a == b
  {
  }

  /******* A whole attempt *******/

  // `left` is what the placed components leave of `start`.
  ghost predicate IsLeft(start: Remaining, left: Remaining, placed: seq<seq<Query>>, choices: seq<SplitName>) {
    forall source, split :: Room(left, source, split)
                            == Room(start, source, split) - Used(placed, choices, source, split)
  }

  ghost predicate IsBestAt(sha: Digest, attempt: nat, start: Remaining, ordered: seq<seq<Query>>,
                           choices: seq<SplitName>, i: nat)
    requires i < |choices| <= |ordered|
  {
    exists left :: IsLeft(start, left, ordered[..i], choices[..i]) && IsBest(sha, attempt, left, ordered[i], choices[i])
  }

  // Every choice is the best after those before it.
  ghost predicate IsGreedy(sha: Digest, attempt: nat, start: Remaining, ordered: seq<seq<Query>>,
                           choices: seq<SplitName>) {
    |choices| <= |ordered| && forall i: nat :: i < |choices| ==> IsBestAt(sha, attempt, start, ordered, choices, i)
  }

  // After these choices the next component fits nowhere.
  ghost predicate IsStuckAt(start: Remaining, ordered: seq<seq<Query>>, choices: seq<SplitName>) {
    && |choices| < |ordered|
    && exists left :: IsLeft(start, left, ordered[..|choices|], choices) && FitsNowhere(left, ordered[|choices|])
  }

  ghost predicate FitsNowhere(left: Remaining, component: seq<Query>) {
    forall split :: !HasRoom(left, component, split)
  }

  lemma {:induction false} SameRooms(a: Remaining, b: Remaining)
    requires forall source, split :: Room(a, source, split) == Room(b, source, split)
    ensures a == b
  {
    assert Room(a, Nq, Train) == Room(b, Nq, Train) && Room(a, Nq, Validation) == Room(b, Nq, Validation)
           && Room(a, Nq, Test) == Room(b, Nq, Test);
    assert Room(a, HotpotBridge, Train) == Room(b, HotpotBridge, Train)
           && Room(a, HotpotBridge, Validation) == Room(b, HotpotBridge, Validation)
           && Room(a, HotpotBridge, Test) == Room(b, HotpotBridge, Test);
    assert Room(a, HotpotComparison, Train) == Room(b, HotpotComparison, Train)
           && Room(a, HotpotComparison, Validation) == Room(b, HotpotComparison, Validation)
           && Room(a, HotpotComparison, Test) == Room(b, HotpotComparison, Test);
    assert Room(a, Musique, Train) == Room(b, Musique, Train)
           && Room(a, Musique, Validation) == Room(b, Musique, Validation)
           && Room(a, Musique, Test) == Room(b, Musique, Test);
  }

  lemma {:induction false} NothingPlaced(start: Remaining, left: Remaining)
    ensures IsLeft(start, left, [], []) <==> left == start
  {
    if IsLeft(start, left, [], []) {
      SameRooms(start, left);
    }
  }

  // What is left after one component and some more is what these leave of the rest.
  lemma {:induction false} LeftAfterOne(start: Remaining, left: Remaining, ordered: seq<seq<Query>>,
                                        choices: seq<SplitName>, n: nat)
    requires 0 < n <= |choices| && n <= |ordered|
    ensures IsLeft(start, left, ordered[..n], choices[..n])
            <==> IsLeft(Spend(start, ordered[0], choices[0]), left, ordered[1..][..n - 1], choices[1..][..n - 1])
  {
    var spent := Spend(start, ordered[0], choices[0]);
    assert ordered[..n][1..] == ordered[1..][..n - 1] && choices[..n][1..] == choices[1..][..n - 1];
    forall source, split
      ensures Room(start, source, split) - Used(ordered[..n], choices[..n], source, split)
              == Room(spent, source, split) - Used(ordered[1..][..n - 1], choices[1..][..n - 1], source, split)
    {
    }
  }

  lemma {:induction false} GreedyAfterOne(sha: Digest, attempt: nat, start: Remaining, ordered: seq<seq<Query>>,
                                          choices: seq<SplitName>)
    requires ordered != [] && choices != []
    ensures IsGreedy(sha, attempt, start, ordered, choices)
            <==> IsBest(sha, attempt, start, ordered[0], choices[0])
                 && IsGreedy(sha, attempt, Spend(start, ordered[0], choices[0]), ordered[1..], choices[1..])
  {
    if |choices| <= |ordered| {
      BestAtFirst(sha, attempt, start, ordered, choices);
      forall i: nat | 0 < i < |choices|
        ensures IsBestAt(sha, attempt, start, ordered, choices, i)
                <==> IsBestAt(sha, attempt, Spend(start, ordered[0], choices[0]), ordered[1..], choices[1..], i - 1)
      {
        BestAtLater(sha, attempt, start, ordered, choices, i);
      }
      if IsGreedy(sha, attempt, start, ordered, choices) {
        forall i: nat | i < |choices| - 1
          ensures IsBestAt(sha, attempt, Spend(start, ordered[0], choices[0]), ordered[1..], choices[1..], i)
        {
          assert IsBestAt(sha, attempt, start, ordered, choices, i + 1);
        }
      }
    }
  }

  lemma {:induction false} BestAtFirst(sha: Digest, attempt: nat, start: Remaining, ordered: seq<seq<Query>>,
                                       choices: seq<SplitName>)
    requires 0 < |choices| <= |ordered|
    ensures IsBestAt(sha, attempt, start, ordered, choices, 0) <==> IsBest(sha, attempt, start, ordered[0], choices[0])
  {
    assert ordered[..0] == [] && choices[..0] == [];
    NothingPlaced(start, start);
    forall left | IsLeft(start, left, [], []) ensures left == start {
      NothingPlaced(start, left);
    }
  }

  lemma {:induction false} BestAtLater(sha: Digest, attempt: nat, start: Remaining, ordered: seq<seq<Query>>,
                                       choices: seq<SplitName>, i: nat)
    requires 0 < i < |choices| <= |ordered|
    ensures IsBestAt(sha, attempt, start, ordered, choices, i)
            <==> IsBestAt(sha, attempt, Spend(start, ordered[0], choices[0]), ordered[1..], choices[1..], i - 1)
  {
    forall left
      ensures IsLeft(start, left, ordered[..i], choices[..i])
              <==> IsLeft(Spend(start, ordered[0], choices[0]), left, ordered[1..][..i - 1], choices[1..][..i - 1])
    {
      LeftAfterOne(start, left, ordered, choices, i);
    }
  }

  /** Main result: an attempt places the components exactly with the choices of which each is best in its turn. */
  lemma {:induction false} PlacedIffGreedy(sha: Digest, attempt: nat, start: Remaining, ordered: seq<seq<Query>>,
                                           choices: seq<SplitName>)
    ensures Allocate(sha, attempt, start, ordered).Placed? && Allocate(sha, attempt, start, ordered).choices == choices
            <==> |choices| == |ordered| && IsGreedy(sha, attempt, start, ordered, choices)
    decreases ordered
  {
    if ordered != [] {
      var choice := ChooseSplit(sha, attempt, start, ordered[0]);
      if choices != [] {
        GreedyAfterOne(sha, attempt, start, ordered, choices);
        ChosenIffBest(sha, attempt, start, ordered[0], choices[0]);
        PlacedIffGreedy(sha, attempt, Spend(start, ordered[0], choices[0]), ordered[1..], choices[1..]);
        assert choices == [choices[0]] + choices[1..];
      }
    }
  }

  lemma {:induction false} StuckLater(start: Remaining, ordered: seq<seq<Query>>, choices: seq<SplitName>)
    requires ordered != [] && choices != []
    ensures IsStuckAt(start, ordered, choices)
            <==> IsStuckAt(Spend(start, ordered[0], choices[0]), ordered[1..], choices[1..])
  {
    if |choices| < |ordered| {
      var rest, chosen := ordered[1..], choices[1..];
      assert choices[..|choices|] == choices && chosen[..|chosen|] == chosen;
      assert ordered[|choices|] == rest[|chosen|];
      forall left
        ensures IsLeft(start, left, ordered[..|choices|], choices)
                <==> IsLeft(Spend(start, ordered[0], choices[0]), left, rest[..|chosen|], chosen)
      {
        LeftAfterOne(start, left, ordered, choices, |choices|);
      }
    }
  }

  /** And it fails exactly when after such choices some component fits in no split. */
  lemma {:induction false} StuckIff(sha: Digest, attempt: nat, start: Remaining, ordered: seq<seq<Query>>)
    ensures Allocate(sha, attempt, start, ordered) == Stuck
            <==> exists choices :: IsGreedy(sha, attempt, start, ordered, choices) && IsStuckAt(start, ordered, choices)
    decreases ordered
  {
    if Allocate(sha, attempt, start, ordered) == Stuck {
      var choices := StuckChoices(sha, attempt, start, ordered);
    } else {
      forall choices | IsGreedy(sha, attempt, start, ordered, choices) ensures !IsStuckAt(start, ordered, choices) {
        NotStuck(sha, attempt, start, ordered, choices);
      }
    }
  }

  lemma {:induction false} StuckChoices(sha: Digest, attempt: nat, start: Remaining, ordered: seq<seq<Query>>)
    returns (choices: seq<SplitName>)
    requires Allocate(sha, attempt, start, ordered) == Stuck
    ensures IsGreedy(sha, attempt, start, ordered, choices) && IsStuckAt(start, ordered, choices)
    decreases ordered
  {
    var choice := ChooseSplit(sha, attempt, start, ordered[0]);
    if choice == None {
      choices := [];
      NothingPlaced(start, start);
      assert ordered[..0] == [];
      forall split ensures !HasRoom(start, ordered[0], split) {
        ChosenIffBest(sha, attempt, start, ordered[0], split);
      }
    } else {
      var rest := StuckChoices(sha, attempt, Spend(start, ordered[0], choice.value), ordered[1..]);
      choices := [choice.value] + rest;
      assert choices[1..] == rest;
      ChosenIffBest(sha, attempt, start, ordered[0], choice.value);
      GreedyAfterOne(sha, attempt, start, ordered, choices);
      StuckLater(start, ordered, choices);
    }
  }

  lemma {:induction false} NotStuck(sha: Digest, attempt: nat, start: Remaining, ordered: seq<seq<Query>>,
                                    choices: seq<SplitName>)
    requires Allocate(sha, attempt, start, ordered).Placed? && IsGreedy(sha, attempt, start, ordered, choices)
    ensures !IsStuckAt(start, ordered, choices)
    decreases ordered
  {
    if ordered != [] {
      var split := ChooseSplit(sha, attempt, start, ordered[0]).value;
      if choices == [] {
        FirstFits(sha, attempt, start, ordered, split);
      } else {
        GreedyAfterOne(sha, attempt, start, ordered, choices);
        ChosenIffBest(sha, attempt, start, ordered[0], choices[0]);
        NotStuck(sha, attempt, Spend(start, ordered[0], choices[0]), ordered[1..], choices[1..]);
        StuckLater(start, ordered, choices);
      }
    }
  }

  lemma {:induction false} FirstFits(sha: Digest, attempt: nat, start: Remaining, ordered: seq<seq<Query>>,
                                     split: SplitName)
    requires ordered != [] && ChooseSplit(sha, attempt, start, ordered[0]) == Some(split)
    ensures !IsStuckAt(start, ordered, [])
  {
    ChosenIffBest(sha, attempt, start, ordered[0], split);
    assert ordered[..0] == [];
    forall left | IsLeft(start, left, [], []) ensures HasRoom(left, ordered[0], split) {
      NothingPlaced(start, left);
    }
  }

  /******* The order of the components *******/

  function OrderDigest(sha: Digest, attempt: nat, component: seq<Query>): nat {
    sha("20260809:" + Decimal(attempt) + ":" + IdsText(component))
  }

  // Larger, or as large and with a digest that is not larger.
  ghost predicate MayPrecede(sha: Digest, attempt: nat, a: seq<Query>, b: seq<Query>) {
    |a| > |b| || (|a| == |b| && OrderDigest(sha, attempt, a) <= OrderDigest(sha, attempt, b))
  }

  /** An attempt takes the components by size, largest first, and then by digest; those that are alike in both stay in
      the order in which they were. */
  lemma {:induction false} ComponentsInOrder(sha: Digest, attempt: nat, components: seq<seq<Query>>)
    ensures
      var ordered := Sort(AttemptOrder(sha, attempt), components);
      && multiset(ordered) == multiset(components)
      && (forall i, j :: 0 <= i < j < |ordered| ==> MayPrecede(sha, attempt, ordered[i], ordered[j]))
      && (forall x :: Alike(AttemptOrder(sha, attempt), x, ordered) == Alike(AttemptOrder(sha, attempt), x, components))
  {
    var le := AttemptOrder(sha, attempt);
    var ordered := Sort(le, components);
    assert TotalPreorder(le);
    SortSorted(le, components);
    forall a, b ensures le(a, b) <==> MayPrecede(sha, attempt, a, b) {
      OrderKeyIsDigest(sha, attempt, a);
      OrderKeyIsDigest(sha, attempt, b);
    }
    forall i, j | 0 <= i < j < |ordered| ensures MayPrecede(sha, attempt, ordered[i], ordered[j]) {
      assert le(ordered[i], ordered[j]);
    }
    forall x ensures Alike(le, x, ordered) == Alike(le, x, components) {
      SortIsStable(le, components, x);
    }
  }

  lemma {:induction false} OrderKeyIsDigest(sha: Digest, attempt: nat, component: seq<Query>)
    ensures OrderKey(sha, attempt, component) == OrderDigest(sha, attempt, component)
  {
    SeedText();
    var number, ids := Decimal(attempt), IdsText(component);
    assert "20260809" + ":" + number + ":" + ids == "20260809:" + number + ":" + ids;
  }

  /******* The attempt's answer *******/

  ghost predicate IsAssigned(ordered: seq<seq<Query>>, choices: seq<SplitName>, a: Assignment) {
    exists i: nat, j: nat :: i < |ordered| && i < |choices| && j < |ordered[i]|
                             && a == Assignment(ordered[i][j].id, choices[i])
  }

  /** Main result: what an attempt returns puts every query of every component where the component's best split is. */
  lemma {:induction false} AttemptIsGreedy(sha: Digest, components: seq<seq<Query>>, attempt: nat,
                                           ordered: seq<seq<Query>>)
    returns (choices: seq<SplitName>)
    requires ordered == Sort(AttemptOrder(sha, attempt), components) && Attempt(sha, components, attempt).Some?
    ensures |choices| == |ordered| && IsGreedy(sha, attempt, Quotas(), ordered, choices)
    ensures forall source, split :: Used(ordered, choices, source, split) == Quota(source, split)
    ensures forall a :: a in Attempt(sha, components, attempt).value <==> IsAssigned(ordered, choices, a)
  {
    var placed := Allocate(sha, attempt, Quotas(), ordered);
    choices := placed.choices;
    PlacedIffGreedy(sha, attempt, Quotas(), ordered, choices);
    assert NonNegative(Quotas());
    forall source, split ensures Used(ordered, choices, source, split) == Quota(source, split) {
      AllocationConserves(sha, attempt, Quotas(), ordered, source, split);
      assert Room(placed.left, source, split) == 0;
    }
    AssignedAre(ordered, choices);
  }

  lemma {:induction false} AssignedAre(ordered: seq<seq<Query>>, choices: seq<SplitName>)
    requires |choices| == |ordered|
    ensures forall a :: a in AssignAll(ordered, choices) <==> IsAssigned(ordered, choices, a)
    decreases ordered
  {
    if ordered != [] {
      AssignedAre(ordered[1..], choices[1..]);
      forall a ensures a in AssignAll(ordered, choices) <==> IsAssigned(ordered, choices, a) {
        AssignedFirst(ordered[0], choices[0], a);
        AssignedLater(ordered, choices, a);
      }
    }
  }

  lemma {:induction false} AssignedFirst(component: seq<Query>, split: SplitName, a: Assignment)
    ensures a in Assign(component, split)
            <==> exists j: nat :: j < |component| && a == Assignment(component[j].id, split)
  {
    if j: nat :| j < |component| && a == Assignment(component[j].id, split) {
      assert Assign(component, split)[j] == a;
    }
  }

  lemma {:induction false} AssignedLater(ordered: seq<seq<Query>>, choices: seq<SplitName>, a: Assignment)
    requires |choices| == |ordered| && ordered != []
    ensures IsAssigned(ordered, choices, a)
            <==> (exists j: nat :: j < |ordered[0]| && a == Assignment(ordered[0][j].id, choices[0]))
                 || IsAssigned(ordered[1..], choices[1..], a)
  {
    if IsAssigned(ordered[1..], choices[1..], a) {
      var i: nat, j: nat :| i < |ordered| - 1 && j < |ordered[1..][i]|
                            && a == Assignment(ordered[1..][i][j].id, choices[1..][i]);
      assert a == Assignment(ordered[i + 1][j].id, choices[i + 1]);
    }
    if IsAssigned(ordered, choices, a) {
      var i: nat, j: nat :| i < |ordered| && j < |ordered[i]| && a == Assignment(ordered[i][j].id, choices[i]);
      if i > 0 {
        assert a == Assignment(ordered[1..][i - 1][j].id, choices[1..][i - 1]);
      }
    }
  }
}
