/** Assigning splits to whole components, and the independent validators that must accept the result. */
module Splits {
  import opened Wrappers
  import opened Contracts
  import opened Ordering
  import opened Counting
  import opened Components
  import opened Partition
  import opened Allocation

  /******* One attempt *******/

  function After(chosen: seq<SplitName>, rest: Outcome): Outcome {
    match rest
    case Stuck => Stuck
    case Placed(choices, left) => Placed(chosen + choices, left)
  }

  lemma {:induction false} AfterOneMore(chosen: seq<SplitName>, split: SplitName, rest: Outcome)
    ensures After(chosen, Prefixed(split, rest)) == After(chosen + [split], rest)
  {
    if rest.Placed? {
      assert chosen + ([split] + rest.choices) == chosen + [split] + rest.choices;
    }
  }

  lemma {:induction false} AssignAllAppend(ordered: seq<seq<Query>>, chosen: seq<SplitName>, component: seq<Query>,
                                           split: SplitName)
    requires |chosen| == |ordered|
    ensures AssignAll(ordered + [component], chosen + [split]) == AssignAll(ordered, chosen) + Assign(component, split)
  {
    if ordered != [] {
      assert (ordered + [component])[1..] == ordered[1..] + [component];
      assert (chosen + [split])[1..] == chosen[1..] + [split];
      AssignAllAppend(ordered[1..], chosen[1..], component, split);
    } else {
      assert AssignAll([component], [split]) == Assign(component, split) + AssignAll([], []);
    }
  }

  // The loop after `|chosen|` components: what was chosen, what is left, what was assigned.
  ghost predicate Placing(sha: Digest, attempt: nat, ordered: seq<seq<Query>>, chosen: seq<SplitName>,
                          remaining: Remaining, assignments: seq<Assignment>)
  {
    && |chosen| <= |ordered|
    && assignments == AssignAll(ordered[..|chosen|], chosen)
    && Allocate(sha, attempt, Quotas(), ordered)
       == After(chosen, Allocate(sha, attempt, remaining, ordered[|chosen|..]))
  }

  lemma {:induction false} AllocateNext(sha: Digest, attempt: nat, ordered: seq<seq<Query>>, i: nat,
                                        remaining: Remaining)
    requires i < |ordered|
    ensures Allocate(sha, attempt, remaining, ordered[i..]) ==
            match ChooseSplit(sha, attempt, remaining, ordered[i])
            case None => Stuck
            case Some(split) => Prefixed(split, Allocate(sha, attempt, Spend(remaining, ordered[i], split),
                                                         ordered[i + 1..]))
  {
    assert ordered[i..][0] == ordered[i] && ordered[i..][1..] == ordered[i + 1..];
  }

  lemma {:induction false} AssignAllNext(ordered: seq<seq<Query>>, chosen: seq<SplitName>, split: SplitName)
    requires |chosen| < |ordered|
    ensures AssignAll(ordered[..|chosen| + 1], chosen + [split])
            == AssignAll(ordered[..|chosen|], chosen) + Assign(ordered[|chosen|], split)
  {
    var head, next := ordered[..|chosen|], ordered[|chosen|];
    assert ordered[..|chosen| + 1] == head + [next];
    AssignAllAppend(head, chosen, next, split);
  }

  lemma {:induction false} PlacingNext(sha: Digest, attempt: nat, ordered: seq<seq<Query>>, chosen: seq<SplitName>,
                                       remaining: Remaining, assignments: seq<Assignment>, split: SplitName)
    requires Placing(sha, attempt, ordered, chosen, remaining, assignments) && |chosen| < |ordered|
    requires ChooseSplit(sha, attempt, remaining, ordered[|chosen|]) == Some(split)
    ensures Placing(sha, attempt, ordered, chosen + [split], Spend(remaining, ordered[|chosen|], split),
                    assignments + Assign(ordered[|chosen|], split))
  {
    PlacingAllocates(sha, attempt, ordered, chosen, remaining, split);
    AssignAllNext(ordered, chosen, split);
    assert |chosen + [split]| == |chosen| + 1;
  }

  lemma {:induction false} PlacingAllocates(sha: Digest, attempt: nat, ordered: seq<seq<Query>>, chosen: seq<SplitName>,
                                            remaining: Remaining, split: SplitName)
    requires |chosen| < |ordered| && ChooseSplit(sha, attempt, remaining, ordered[|chosen|]) == Some(split)
    ensures After(chosen, Allocate(sha, attempt, remaining, ordered[|chosen|..]))
            == After(chosen + [split],
                     Allocate(sha, attempt, Spend(remaining, ordered[|chosen|], split), ordered[|chosen| + 1..]))
  {
    AllocateNext(sha, attempt, ordered, |chosen|, remaining);
    AfterOneMore(chosen, split, Allocate(sha, attempt, Spend(remaining, ordered[|chosen|], split),
                                         ordered[|chosen| + 1..]));
  }

  lemma {:induction false} PlacingFails(sha: Digest, attempt: nat, ordered: seq<seq<Query>>, chosen: seq<SplitName>,
                                        remaining: Remaining, assignments: seq<Assignment>)
    requires Placing(sha, attempt, ordered, chosen, remaining, assignments) && |chosen| < |ordered|
    requires ChooseSplit(sha, attempt, remaining, ordered[|chosen|]) == None
    ensures Allocate(sha, attempt, Quotas(), ordered) == Stuck
  {
    AllocateNext(sha, attempt, ordered, |chosen|, remaining);
  }

  lemma {:induction false} PlacingStart(sha: Digest, attempt: nat, ordered: seq<seq<Query>>)
    ensures Placing(sha, attempt, ordered, [], Quotas(), [])
  {
    var whole := Allocate(sha, attempt, Quotas(), ordered);
    assert ordered[0..] == ordered;
    if whole.Placed? {
      assert [] + whole.choices == whole.choices;
    }
  }

  lemma {:induction false} PlacingEnd(sha: Digest, attempt: nat, ordered: seq<seq<Query>>, chosen: seq<SplitName>,
                   remaining: Remaining, assignments: seq<Assignment>)
    requires Placing(sha, attempt, ordered, chosen, remaining, assignments) && |chosen| == |ordered|
    ensures Allocate(sha, attempt, Quotas(), ordered) == Placed(chosen, remaining)
    ensures assignments == AssignAll(ordered, chosen)
  {
    assert ordered[..|ordered|] == ordered;
    assert chosen + [] == chosen;
  }

  method AttemptAssignment(sha: Digest, components: seq<seq<Query>>, attempt: nat) returns (r: Option<seq<Assignment>>)
    ensures r == Attempt(sha, components, attempt)
  {
    var remaining := Quotas();
    var ordered := Sort(AttemptOrder(sha, attempt), components);
    var assignments: seq<Assignment> := [];
    ghost var chosen: seq<SplitName> := [];
    PlacingStart(sha, attempt, ordered);
    for i := 0 to |ordered|
      invariant |chosen| == i && Placing(sha, attempt, ordered, chosen, remaining, assignments)
    {
      var split := ChooseSplit(sha, attempt, remaining, ordered[i]);
      if split == None {
        PlacingFails(sha, attempt, ordered, chosen, remaining, assignments);
        return None;
      }
      PlacingNext(sha, attempt, ordered, chosen, remaining, assignments, split.value);
      chosen := chosen + [split.value];
      assignments := assignments + Assign(ordered[i], split.value);
      remaining := Spend(remaining, ordered[i], split.value);
    }
    PlacingEnd(sha, attempt, ordered, chosen, remaining, assignments);
    if !AllSpent(remaining) {
      return None;
    }
    return Some(assignments);
  }

  /******* Tag counts of the test split *******/

  // {item.query_id: item.split for item in assignments}: the last entry of an ID wins.
  function SplitById(assignments: seq<Assignment>): map<string, SplitName> {
    if assignments == [] then map[]
    else
      var last := assignments[|assignments| - 1];
      SplitById(assignments[..|assignments| - 1])[last.id := last.split]
  }

  predicate AllAssigned(queries: seq<Query>, splitOf: map<string, SplitName>) {
    forall i :: 0 <= i < |queries| ==> queries[i].id in splitOf
  }

  // The tags of every test query, one after the other.
  function TestTags(queries: seq<Query>, splitOf: map<string, SplitName>): seq<Tag>
    requires AllAssigned(queries, splitOf)
  {
    if queries == [] then []
    else (if splitOf[queries[0].id] == Test then queries[0].tags else []) + TestTags(queries[1..], splitOf)
  }

  function IsTag(tag: Tag): Tag -> bool {
    (other: Tag) => other == tag
  }

  predicate EnoughTestTags(queries: seq<Query>, splitOf: map<string, SplitName>)
    requires AllAssigned(queries, splitOf)
  {
    forall tag: Tag :: CountIf(IsTag(tag), TestTags(queries, splitOf)) >= REQUIRED_TEST_TAG_MINIMUM
  }

  /******* All attempts *******/

  datatype SplitError = WrongQueryCount | Unsatisfiable

  const ATTEMPTS := 10000

  predicate ByAssignedId(a: Assignment, b: Assignment) {
    StringLe(a.id, b.id)
  }

  /******* What an attempt guarantees *******/

  lemma {:induction false} AssignedIds(ordered: seq<seq<Query>>, choices: seq<SplitName>)
    requires |choices| == |ordered|
    ensures Map(AssignedId, AssignAll(ordered, choices)) == Ids(Flatten(ordered))
  {
    if ordered != [] {
      AssignedIds(ordered[1..], choices[1..]);
      var first, rest := Assign(ordered[0], choices[0]), AssignAll(ordered[1..], choices[1..]);
      assert Map(AssignedId, first + rest) == Map(AssignedId, first) + Map(AssignedId, rest);
      assert Map(AssignedId, first) == Ids(ordered[0]);
      assert Ids(ordered[0] + Flatten(ordered[1..])) == Ids(ordered[0]) + Ids(Flatten(ordered[1..]));
    }
  }

  function AssignedId(assignment: Assignment): string {
    assignment.id
  }

  lemma {:induction false} MembersAreAssigned(ordered: seq<seq<Query>>, choices: seq<SplitName>, i: nat, query: Query)
    requires |choices| == |ordered| && i < |ordered| && query in ordered[i]
    ensures Assignment(query.id, choices[i]) in AssignAll(ordered, choices)
  {
    if i == 0 {
      var k :| 0 <= k < |ordered[0]| && ordered[0][k] == query;
      assert Assign(ordered[0], choices[0])[k] == Assignment(query.id, choices[0]);
    } else {
      MembersAreAssigned(ordered[1..], choices[1..], i - 1, query);
    }
  }

  lemma {:induction false} SplitByIdKeys(assignments: seq<Assignment>)
    ensures forall id :: id in SplitById(assignments) <==> id in Map(AssignedId, assignments)
  {
    if assignments != [] {
      var init, last := assignments[..|assignments| - 1], assignments[|assignments| - 1];
      SplitByIdKeys(init);
      assert assignments == init + [last];
      assert Map(AssignedId, assignments) == Map(AssignedId, init) + [last.id];
    }
  }

  /** With distinct IDs nothing is overwritten: every entry can be looked up. */
  lemma {:induction false} SplitByIdLooksUp(assignments: seq<Assignment>, assignment: Assignment)
    requires Distinct(Map(AssignedId, assignments)) && assignment in assignments
    ensures assignment.id in SplitById(assignments) && SplitById(assignments)[assignment.id] == assignment.split
  {
    var init, last := assignments[..|assignments| - 1], assignments[|assignments| - 1];
    var ids := Map(AssignedId, assignments);
    var k :| 0 <= k < |assignments| && assignments[k] == assignment;
    assert ids[k] == assignment.id && ids[|ids| - 1] == last.id;
    if k < |assignments| - 1 {
      assert Map(AssignedId, init) == ids[..|ids| - 1];
      assert init[k] == assignment;
      SplitByIdLooksUp(init, assignment);
    }
  }

  // What one successful attempt is: an ordering of the components, choices that spend every quota exactly.
  ghost predicate IsAttempt(queries: seq<Query>, ordered: seq<seq<Query>>, choices: seq<SplitName>,
                            made: seq<Assignment>) {
    && |choices| == |ordered|
    && multiset(ordered) == multiset(ConnectedComponents(queries))
    && made == AssignAll(ordered, choices)
    && forall source, split :: Used(ordered, choices, source, split) == Quota(source, split)
  }

  lemma {:induction false} AttemptSpendsQuotas(sha: Digest, queries: seq<Query>, attempt: nat)
      returns (ordered: seq<seq<Query>>, choices: seq<SplitName>)
    requires Attempt(sha, ConnectedComponents(queries), attempt).Some?
    ensures IsAttempt(queries, ordered, choices, Attempt(sha, ConnectedComponents(queries), attempt).value)
  {
    ordered := Sort(AttemptOrder(sha, attempt), ConnectedComponents(queries));
    var placed := Allocate(sha, attempt, Quotas(), ordered);
    choices := placed.choices;
    forall source, split
      ensures |choices| == |ordered| && Used(ordered, choices, source, split) == Quota(source, split)
    {
      assert NonNegative(Quotas());
      AllocationConserves(sha, attempt, Quotas(), ordered, source, split);
      assert Room(placed.left, source, split) == 0;
    }
    assert Used(ordered, choices, Nq, Train) == Quota(Nq, Train);
  }

  lemma {:induction false} AttemptAssignsEveryQuery(queries: seq<Query>, ordered: seq<seq<Query>>,
                                                    choices: seq<SplitName>, made: seq<Assignment>)
    requires IsAttempt(queries, ordered, choices, made)
    ensures multiset(Flatten(ordered)) == multiset(queries)
    ensures multiset(Map(AssignedId, made)) == multiset(Ids(queries))
  {
    FlattenPermutation(ordered, ConnectedComponents(queries));
    ComponentsConserveQueries(queries);
    AssignedIds(ordered, choices);
    MapPermutation(IdOf, Flatten(ordered), queries);
  }

  // Every query of the i-th component is looked up in the i-th choice.
  ghost predicate LooksUpChoices(ordered: seq<seq<Query>>, choices: seq<SplitName>, splitOf: map<string, SplitName>) {
    && |choices| == |ordered|
    && forall i: nat, query :: i < |ordered| && query in ordered[i] ==> LooksUp(splitOf, query, choices[i])
  }

  ghost predicate LooksUp(splitOf: map<string, SplitName>, query: Query, split: SplitName) {
    query.id in splitOf && splitOf[query.id] == split
  }

  lemma {:induction false} DistinctIdsLookUpChoices(ordered: seq<seq<Query>>, choices: seq<SplitName>,
                                                    made: seq<Assignment>)
    requires |choices| == |ordered| && made == AssignAll(ordered, choices)
    requires Distinct(Map(AssignedId, made))
    ensures LooksUpChoices(ordered, choices, SplitById(made))
  {
    forall i: nat, query | i < |ordered| && query in ordered[i] ensures LooksUp(SplitById(made), query, choices[i]) {
      MembersAreAssigned(ordered, choices, i, query);
      SplitByIdLooksUp(made, Assignment(query.id, choices[i]));
    }
  }

  lemma {:induction false} DistinctPermutation(a: seq<string>, b: seq<string>)
    requires multiset(a) == multiset(b) && Distinct(a)
    ensures Distinct(b)
  {
    DistinctMultiset(a);
    DistinctMultiset(b);
  }

  /******* The validators' conditions *******/

  function InCell(splitOf: map<string, SplitName>, source: Source, split: SplitName): Query -> bool {
    (query: Query) => query.source == source && query.id in splitOf && splitOf[query.id] == split
  }

  ghost predicate QuotasHold(queries: seq<Query>, splitOf: map<string, SplitName>) {
    forall source, split :: CountIf(InCell(splitOf, source, split), queries) == Quota(source, split)
  }

  ghost predicate NoLeakage(queries: seq<Query>, splitOf: map<string, SplitName>)
    requires AllAssigned(queries, splitOf)
  {
    forall a: nat, b: nat :: a < |queries| && b < |queries| && Components.Share(queries, a, b)
      ==> splitOf[queries[a].id] == splitOf[queries[b].id]
  }

  lemma {:induction false} UsedIsTally(ordered: seq<seq<Query>>, choices: seq<SplitName>,
                                       splitOf: map<string, SplitName>, source: Source, split: SplitName)
    requires LooksUpChoices(ordered, choices, splitOf)
    ensures CountIf(InCell(splitOf, source, split), Flatten(ordered)) == Used(ordered, choices, source, split)
  {
    var p := InCell(splitOf, source, split);
    if ordered != [] {
      assert LooksUpChoices(ordered[1..], choices[1..], splitOf) by {
        forall i: nat, query | i < |ordered[1..]| && query in ordered[1..][i]
          ensures LooksUp(splitOf, query, choices[1..][i])
        {
          assert query in ordered[i + 1];
        }
      }
      UsedIsTally(ordered[1..], choices[1..], splitOf, source, split);
      CountIfAppend(p, ordered[0], Flatten(ordered[1..]));
      assert forall query :: query in ordered[0] ==> LooksUp(splitOf, query, choices[0]);
      if choices[0] == split {
        CountIfSame(p, HasSource(source), ordered[0]);
      } else {
        CountIfNone(p, ordered[0]);
      }
    }
  }

  lemma {:induction false} QueriesOfAttempt(queries: seq<Query>, ordered: seq<seq<Query>>, query: Query)
    requires multiset(Flatten(ordered)) == multiset(queries) && query in queries
    ensures exists i: nat :: i < |ordered| && query in ordered[i]
  {
    FlattenHas(ordered);
    assert query in multiset(queries);
    assert query in Flatten(ordered);
    var i :| 0 <= i < |ordered| && query in ordered[i];
  }

  lemma {:induction false} SharersAreInOneList(queries: seq<Query>, ordered: seq<seq<Query>>, a: nat, b: nat)
    returns (i: nat)
    requires multiset(ordered) == multiset(ConnectedComponents(queries))
    requires a < |queries| && b < |queries| && Components.Share(queries, a, b)
    ensures i < |ordered| && queries[a] in ordered[i] && queries[b] in ordered[i]
  {
    SharingQueriesShareComponent(queries, a, b);
    var components := ConnectedComponents(queries);
    var c :| 0 <= c < |components| && queries[a] in components[c] && queries[b] in components[c];
    assert components[c] in multiset(ordered);
    i :| i < |ordered| && ordered[i] == components[c];
  }

  lemma {:induction false} AttemptLeaksNothing(queries: seq<Query>, ordered: seq<seq<Query>>, choices: seq<SplitName>,
                                               splitOf: map<string, SplitName>)
    requires multiset(ordered) == multiset(ConnectedComponents(queries)) && LooksUpChoices(ordered, choices, splitOf)
    requires AllAssigned(queries, splitOf)
    ensures NoLeakage(queries, splitOf)
  {
    forall a: nat, b: nat | a < |queries| && b < |queries| && Components.Share(queries, a, b)
      ensures splitOf[queries[a].id] == splitOf[queries[b].id]
    {
      var i := SharersAreInOneList(queries, ordered, a, b);
      assert LooksUp(splitOf, queries[a], choices[i]) && LooksUp(splitOf, queries[b], choices[i]);
    }
  }

  lemma {:induction false} AttemptAssignsAll(queries: seq<Query>, ordered: seq<seq<Query>>, choices: seq<SplitName>,
                                             splitOf: map<string, SplitName>)
    requires multiset(Flatten(ordered)) == multiset(queries) && LooksUpChoices(ordered, choices, splitOf)
    ensures AllAssigned(queries, splitOf)
  {
    forall k | 0 <= k < |queries| ensures queries[k].id in splitOf {
      QueriesOfAttempt(queries, ordered, queries[k]);
      var i: nat :| i < |ordered| && queries[k] in ordered[i];
      assert LooksUp(splitOf, queries[k], choices[i]);
    }
  }

  lemma {:induction false} AttemptMeetsQuotas(queries: seq<Query>, ordered: seq<seq<Query>>, choices: seq<SplitName>,
                                              splitOf: map<string, SplitName>)
    requires multiset(Flatten(ordered)) == multiset(queries) && LooksUpChoices(ordered, choices, splitOf)
    requires forall source, split :: Used(ordered, choices, source, split) == Quota(source, split)
    ensures QuotasHold(queries, splitOf)
  {
    forall source, split ensures CountIf(InCell(splitOf, source, split), queries) == Quota(source, split) {
      UsedIsTally(ordered, choices, splitOf, source, split);
      CountIfPermutation(InCell(splitOf, source, split), Flatten(ordered), queries);
    }
  }

  // What the validators check, for assignments as a list.
  ghost predicate PassesValidation(queries: seq<Query>, assignments: seq<Assignment>) {
    && multiset(Map(AssignedId, assignments)) == multiset(Ids(queries))
    && AllAssigned(queries, SplitById(assignments))
    && QuotasHold(queries, SplitById(assignments))
    && NoLeakage(queries, SplitById(assignments))
  }

  /** Main result: a successful attempt covers the queries, meets the quotas exactly and leaks no group. */
  lemma {:induction false} AttemptPassesValidation(sha: Digest, queries: seq<Query>, attempt: nat)
    requires Distinct(Ids(queries))
    requires Attempt(sha, ConnectedComponents(queries), attempt).Some?
    ensures PassesValidation(queries, Attempt(sha, ConnectedComponents(queries), attempt).value)
  {
    var ordered, choices := AttemptSpendsQuotas(sha, queries, attempt);
    ListPassesValidation(queries, ordered, choices, Attempt(sha, ConnectedComponents(queries), attempt).value);
  }

  lemma {:induction false} ListPassesValidation(queries: seq<Query>, ordered: seq<seq<Query>>, choices: seq<SplitName>,
                                                made: seq<Assignment>)
    requires Distinct(Ids(queries)) && IsAttempt(queries, ordered, choices, made)
    ensures PassesValidation(queries, made)
  {
    AttemptAssignsEveryQuery(queries, ordered, choices, made);
    DistinctPermutation(Ids(queries), Map(AssignedId, made));
    DistinctIdsLookUpChoices(ordered, choices, made);
    AttemptAssignsAll(queries, ordered, choices, SplitById(made));
    AttemptMeetsQuotas(queries, ordered, choices, SplitById(made));
    AttemptLeaksNothing(queries, ordered, choices, SplitById(made));
  }

  /** Sorting the assignments by ID changes no lookup. */
  lemma {:induction false} SortedLookup(made: seq<Assignment>, sorted: seq<Assignment>)
    requires Distinct(Map(AssignedId, made)) && multiset(sorted) == multiset(made)
    ensures SplitById(sorted) == SplitById(made)
  {
    MapPermutation(AssignedId, made, sorted);
    DistinctPermutation(Map(AssignedId, made), Map(AssignedId, sorted));
    SplitByIdKeys(made);
    SplitByIdKeys(sorted);
    forall id ensures id in SplitById(sorted) <==> id in SplitById(made) {
      assert id in multiset(Map(AssignedId, sorted)) <==> id in multiset(Map(AssignedId, made));
    }
    forall id | id in SplitById(made) ensures SplitById(sorted)[id] == SplitById(made)[id] {
      var ids := Map(AssignedId, made);
      var k :| 0 <= k < |ids| && ids[k] == id;
      assert made[k] in multiset(made);
      assert made[k] in sorted;
      SplitByIdLooksUp(made, made[k]);
      SplitByIdLooksUp(sorted, made[k]);
    }
  }

  // No later ID comes before an earlier one.
  ghost predicate InOrderOfIds(made: seq<Assignment>) {
    forall i, j :: 0 <= i < j < |made| ==> !ComesBefore(made[j].id, made[i].id)
  }

  lemma {:induction false} AssignedAscend(made: seq<Assignment>)
    ensures InOrderOfIds(Sort(ByAssignedId, made))
  {
    var sorted := Sort(ByAssignedId, made);
    StringLeIsTotalOrder();
    assert TotalPreorder(ByAssignedId);
    SortSorted(ByAssignedId, made);
    forall i, j | 0 <= i < j < |sorted| ensures !ComesBefore(sorted[j].id, sorted[i].id) {
      assert ByAssignedId(sorted[i], sorted[j]);
      OneComesBefore(sorted[i].id, sorted[j].id);
    }
  }

  lemma {:induction false} SortedPassesValidation(queries: seq<Query>, made: seq<Assignment>)
    requires Distinct(Ids(queries)) && PassesValidation(queries, made)
    ensures PassesValidation(queries, Sort(ByAssignedId, made))
    ensures SplitById(Sort(ByAssignedId, made)) == SplitById(made)
    ensures InOrderOfIds(Sort(ByAssignedId, made))
  {
    AssignedAscend(made);
    DistinctPermutation(Ids(queries), Map(AssignedId, made));
    SortedLookup(made, Sort(ByAssignedId, made));
    MapPermutation(AssignedId, made, Sort(ByAssignedId, made));
  }

  /******* The final leftover check is implied by the size check *******/

  lemma {:induction false} EverySourceCounted(component: seq<Query>)
    ensures Needed(component, Nq) + Needed(component, HotpotBridge) + Needed(component, HotpotComparison)
            + Needed(component, Musique) == |component|
  {
    if component != [] {
      EverySourceCounted(component[1..]);
      match component[0].source { case Nq => case HotpotBridge => case HotpotComparison => case Musique => }
    }
  }

  function UsedIn(ordered: seq<seq<Query>>, choices: seq<SplitName>, source: Source): nat {
    Used(ordered, choices, source, Train) + Used(ordered, choices, source, Validation)
        + Used(ordered, choices, source, Test)
  }

  lemma {:induction false} UsedInNext(ordered: seq<seq<Query>>, choices: seq<SplitName>, source: Source)
    requires |choices| == |ordered| && ordered != []
    ensures UsedIn(ordered, choices, source) == Needed(ordered[0], source) + UsedIn(ordered[1..], choices[1..], source)
  {
    match choices[0] { case Train => case Validation => case Test => }
  }

  lemma {:induction false} UsedTotals(ordered: seq<seq<Query>>, choices: seq<SplitName>)
    requires |choices| == |ordered|
    ensures UsedIn(ordered, choices, Nq) + UsedIn(ordered, choices, HotpotBridge)
            + UsedIn(ordered, choices, HotpotComparison) + UsedIn(ordered, choices, Musique) == |Flatten(ordered)|
  {
    if ordered != [] {
      UsedTotals(ordered[1..], choices[1..]);
      EverySourceCounted(ordered[0]);
      UsedInNext(ordered, choices, Nq);
      UsedInNext(ordered, choices, HotpotBridge);
      UsedInNext(ordered, choices, HotpotComparison);
      UsedInNext(ordered, choices, Musique);
    }
  }

  function LeftIn(left: Remaining, source: Source): int {
    Room(left, source, Train) + Room(left, source, Validation) + Room(left, source, Test)
  }

  lemma {:induction false} QuotaBalance(sha: Digest, attempt: nat, ordered: seq<seq<Query>>, source: Source)
    requires Allocate(sha, attempt, Quotas(), ordered).Placed?
    ensures
      var placed := Allocate(sha, attempt, Quotas(), ordered);
      && |placed.choices| == |ordered| && NonNegative(placed.left)
      && LeftIn(placed.left, source) + UsedIn(ordered, placed.choices, source)
         == Quota(source, Train) + Quota(source, Validation) + Quota(source, Test)
  {
    AllocationConserves(sha, attempt, Quotas(), ordered, source, Train);
    AllocationConserves(sha, attempt, Quotas(), ordered, source, Validation);
    AllocationConserves(sha, attempt, Quotas(), ordered, source, Test);
  }

  lemma {:induction false} NothingLeft(left: Remaining)
    requires NonNegative(left)
    requires LeftIn(left, Nq) + LeftIn(left, HotpotBridge) + LeftIn(left, HotpotComparison) + LeftIn(left, Musique) == 0
    ensures AllSpent(left)
  {
    forall source, split ensures Room(left, source, split) == 0 {
      forall s: Source, t: SplitName ensures Room(left, s, t) >= 0 {}
      assert Room(left, source, Train) >= 0 && Room(left, source, Validation) >= 0 && Room(left, source, Test) >= 0;
      assert LeftIn(left, Nq) >= 0 && LeftIn(left, HotpotBridge) >= 0 && LeftIn(left, HotpotComparison) >= 0
             && LeftIn(left, Musique) >= 0;
      match source { case Nq => case HotpotBridge => case HotpotComparison => case Musique => }
      match split { case Train => case Validation => case Test => }
    }
  }

  /** With 600 queries an attempt fails only because some component fits in no split. */
  lemma {:induction false} LeftoverCheckNeverFires(sha: Digest, queries: seq<Query>, attempt: nat)
    requires |queries| == QUERY_TOTAL
    ensures Attempt(sha, ConnectedComponents(queries), attempt) == None
            <==> Allocate(sha, attempt, Quotas(), Sort(AttemptOrder(sha, attempt), ConnectedComponents(queries)))
                 == Stuck
  {
    var components := ConnectedComponents(queries);
    AttemptFailsIff(sha, components, attempt);
    OrderedHoldAll(sha, queries, attempt, Sort(AttemptOrder(sha, attempt), components));
    if Allocate(sha, attempt, Quotas(), Sort(AttemptOrder(sha, attempt), components)).Placed? {
      AllIsSpent(sha, attempt, Sort(AttemptOrder(sha, attempt), components));
    }
  }

  lemma {:induction false} AttemptFailsIff(sha: Digest, components: seq<seq<Query>>, attempt: nat)
    ensures var outcome := Allocate(sha, attempt, Quotas(), Sort(AttemptOrder(sha, attempt), components));
            Attempt(sha, components, attempt) == None <==> outcome == Stuck || !AllSpent(outcome.left)
  {
  }

  lemma {:induction false} OrderedHoldAll(sha: Digest, queries: seq<Query>, attempt: nat, ordered: seq<seq<Query>>)
    requires ordered == Sort(AttemptOrder(sha, attempt), ConnectedComponents(queries))
    ensures |Flatten(ordered)| == |queries|
  {
    FlattenPermutation(ordered, ConnectedComponents(queries));
    ComponentsConserveQueries(queries);
    assert |multiset(Flatten(ordered))| == |multiset(queries)|;
  }

  // 600 placed queries use up all quotas.
  lemma {:induction false} AllIsSpent(sha: Digest, attempt: nat, ordered: seq<seq<Query>>)
    requires |Flatten(ordered)| == QUERY_TOTAL && Allocate(sha, attempt, Quotas(), ordered).Placed?
    ensures AllSpent(Allocate(sha, attempt, Quotas(), ordered).left)
  {
    var outcome := Allocate(sha, attempt, Quotas(), ordered);
    QuotaBalance(sha, attempt, ordered, Nq);
    QuotaBalance(sha, attempt, ordered, HotpotBridge);
    QuotaBalance(sha, attempt, ordered, HotpotComparison);
    QuotaBalance(sha, attempt, ordered, Musique);
    UsedTotals(ordered, outcome.choices);
    NothingLeft(outcome.left);
  }

  /******* Counting tags, and the loop over attempts *******/

  function CountIn(counts: map<Tag, nat>, tag: Tag): nat {
    if tag in counts then counts[tag] else 0
  }

  lemma {:induction false} TestTagsAppend(queries: seq<Query>, last: Query, splitOf: map<string, SplitName>)
    requires AllAssigned(queries, splitOf) && last.id in splitOf
    ensures AllAssigned(queries + [last], splitOf)
    ensures TestTags(queries + [last], splitOf)
            == TestTags(queries, splitOf) + (if splitOf[last.id] == Test then last.tags else [])
  {
    if queries != [] {
      assert (queries + [last])[1..] == queries[1..] + [last];
      TestTagsAppend(queries[1..], last, splitOf);
    }
  }

  lemma {:induction false} CountIfOneMore(tag: Tag, tags: seq<Tag>, next: Tag)
    ensures CountIf(IsTag(tag), tags + [next]) == CountIf(IsTag(tag), tags) + (if next == tag then 1 else 0)
  {
    CountIfAppend(IsTag(tag), tags, [next]);
  }

  ghost predicate Counts(counts: map<Tag, nat>, tags: seq<Tag>) {
    forall tag: Tag :: CountIn(counts, tag) == CountIf(IsTag(tag), tags)
  }

  method AddTags(counts: map<Tag, nat>, ghost before: seq<Tag>, tags: seq<Tag>) returns (after: map<Tag, nat>)
    requires Counts(counts, before)
    ensures Counts(after, before + tags)
  {
    after := counts;
    assert before + tags[..0] == before;
    for i := 0 to |tags|
      invariant Counts(after, before + tags[..i])
    {
      after := after[tags[i] := CountIn(after, tags[i]) + 1];
      forall tag: Tag ensures CountIn(after, tag) == CountIf(IsTag(tag), before + tags[..i + 1]) {
        CountIfOneMore(tag, before + tags[..i], tags[i]);
        assert before + tags[..i + 1] == before + tags[..i] + [tags[i]];
      }
    }
    assert tags[..|tags|] == tags;
  }

  /** The Counter of the tags of all test queries. */
  method TestTagCounts(queries: seq<Query>, splitOf: map<string, SplitName>) returns (counts: map<Tag, nat>)
    requires AllAssigned(queries, splitOf)
    ensures Counts(counts, TestTags(queries, splitOf))
  {
    counts := map[];
    assert Counts(counts, TestTags(queries[..0], splitOf));
    for i := 0 to |queries|
      invariant AllAssigned(queries[..i], splitOf) && Counts(counts, TestTags(queries[..i], splitOf))
    {
      TestTagsAppend(queries[..i], queries[i], splitOf);
      assert queries[..i + 1] == queries[..i] + [queries[i]];
      assert TestTags(queries[..i], splitOf) + [] == TestTags(queries[..i], splitOf);
      if splitOf[queries[i].id] == Test {
        counts := AddTags(counts, TestTags(queries[..i], splitOf), queries[i].tags);
      }
    }
    assert queries[..|queries|] == queries;
  }

  method HasEnoughTestTags(queries: seq<Query>, splitOf: map<string, SplitName>) returns (enough: bool)
    requires AllAssigned(queries, splitOf)
    ensures enough <==> EnoughTestTags(queries, splitOf)
  {
    var counts := TestTagCounts(queries, splitOf);
    for i := 0 to |TAGS|
      invariant forall k :: 0 <= k < i ==> CountIn(counts, TAGS[k]) >= REQUIRED_TEST_TAG_MINIMUM
    {
      if CountIn(counts, TAGS[i]) < REQUIRED_TEST_TAG_MINIMUM {
        return false;
      }
    }
    TagsListed();
    forall tag: Tag ensures CountIn(counts, tag) >= REQUIRED_TEST_TAG_MINIMUM {
      assert tag in TAGS;
      var k :| 0 <= k < |TAGS| && TAGS[k] == tag;
    }
    return true;
  }

  // The list an accepted attempt returns.
  ghost predicate IsAssignmentOf(sha: Digest, queries: seq<Query>, attempt: nat, assignments: seq<Assignment>) {
    var made := Attempt(sha, ConnectedComponents(queries), attempt);
    && made.Some?
    && assignments == Sort(ByAssignedId, made.value)
    && AllAssigned(queries, SplitById(made.value))
    && EnoughTestTags(queries, SplitById(made.value))
  }

  /** Every query can be looked up in a successful attempt. */
  lemma {:induction false} AttemptCoversQueries(sha: Digest, queries: seq<Query>, attempt: nat)
    requires Attempt(sha, ConnectedComponents(queries), attempt).Some?
    ensures AllAssigned(queries, SplitById(Attempt(sha, ConnectedComponents(queries), attempt).value))
  {
    var made := Attempt(sha, ConnectedComponents(queries), attempt).value;
    var ordered, choices := AttemptSpendsQuotas(sha, queries, attempt);
    AttemptAssignsEveryQuery(queries, ordered, choices, made);
    SplitByIdKeys(made);
    forall k | 0 <= k < |queries| ensures queries[k].id in SplitById(made) {
      assert Ids(queries)[k] in multiset(Ids(queries));
      assert queries[k].id in multiset(Map(AssignedId, made));
    }
  }

  /** Main result: with distinct query IDs, what is returned covers the queries, meets the quotas, leaks no group
      and has enough test tags. */
  lemma {:induction false} AssignmentPassesValidation(sha: Digest, queries: seq<Query>, attempt: nat,
                                                      assignments: seq<Assignment>)
    requires Distinct(Ids(queries)) && IsAssignmentOf(sha, queries, attempt, assignments)
    ensures PassesValidation(queries, assignments) && EnoughTestTags(queries, SplitById(assignments))
    ensures InOrderOfIds(assignments)
  {
    AttemptPassesValidation(sha, queries, attempt);
    SortedPassesValidation(queries, Attempt(sha, ConnectedComponents(queries), attempt).value);
  }

  ghost predicate Succeeds(sha: Digest, queries: seq<Query>, attempt: nat) {
    exists assignments :: IsAssignmentOf(sha, queries, attempt, assignments)
  }

  ghost predicate NoneSucceeds(sha: Digest, queries: seq<Query>, before: nat) {
    forall attempt: nat :: attempt < before ==> !Succeeds(sha, queries, attempt)
  }

  lemma {:induction false} NoneSucceedsNext(sha: Digest, queries: seq<Query>, before: nat)
    requires NoneSucceeds(sha, queries, before) && !Succeeds(sha, queries, before)
    ensures NoneSucceeds(sha, queries, before + 1)
  {
  }

  ghost predicate IsFirstSuccess(sha: Digest, queries: seq<Query>, attempt: nat, assignments: seq<Assignment>) {
    IsAssignmentOf(sha, queries, attempt, assignments) && NoneSucceeds(sha, queries, attempt)
  }

  /** One turn of the loop: the attempt, and the tag counts that decide whether it is kept. */
  method TryAttempt(sha: Digest, queries: seq<Query>, components: seq<seq<Query>>, attempt: nat)
    returns (r: Option<seq<Assignment>>)
    requires components == ConnectedComponents(queries)
    ensures r == None ==> !Succeeds(sha, queries, attempt)
    ensures r.Some? ==> IsAssignmentOf(sha, queries, attempt, r.value)
  {
    var made := AttemptAssignment(sha, components, attempt);
    if made == None {
      return None;
    }
    AttemptCoversQueries(sha, queries, attempt);
    var enough := HasEnoughTestTags(queries, SplitById(made.value));
    if !enough {
      return None;
    }
    return Some(Sort(ByAssignedId, made.value));
  }

  /** The first attempt that succeeds is returned; there is an error exactly when none does. */
  method AssignSplits(sha: Digest, queries: seq<Query>) returns (r: Result<seq<Assignment>, SplitError>)
    ensures r == Err(WrongQueryCount) <==> |queries| != QUERY_TOTAL
    ensures r == Err(Unsatisfiable) ==> NoneSucceeds(sha, queries, ATTEMPTS)
    ensures r.Ok? ==>
              exists attempt: nat :: attempt < ATTEMPTS && IsFirstSuccess(sha, queries, attempt, r.value)
  {
    if |queries| != QUERY_TOTAL {
      return Err(WrongQueryCount);
    }
    var components := FindComponents(queries);
    var found := FirstSuccess(sha, queries, components, ATTEMPTS);
    r := if found.Some? then Ok(found.value) else Err(Unsatisfiable);
  }

  // The loop over the attempts.
  method FirstSuccess(sha: Digest, queries: seq<Query>, components: seq<seq<Query>>, attempts: nat)
    returns (found: Option<seq<Assignment>>)
    requires components == ConnectedComponents(queries)
    ensures found == None ==> NoneSucceeds(sha, queries, attempts)
    ensures found.Some? ==> exists attempt: nat :: attempt < attempts
                                                   && IsFirstSuccess(sha, queries, attempt, found.value)
  {
    for attempt: nat := 0 to attempts
      invariant NoneSucceeds(sha, queries, attempt)
    {
      found := TryAttempt(sha, queries, components, attempt);
      if found.Some? {
        assert IsFirstSuccess(sha, queries, attempt, found.value);
        return;
      }
      NoneSucceedsNext(sha, queries, attempt);
    }
    found := None;
  }
}
