/** The greedy quota allocator: whole components go to splits until every quota is spent. */
module Allocation {
  import opened Wrappers
  import opened Contracts
  import opened Ordering
  import opened Counting
  import opened Text

  // SHA-256 of a text, read as an integer.
  type Digest = string -> nat

  // What is left of every quota: a table of splits for every source.
  datatype PerSplit = PerSplit(train: int, validation: int, test: int)
  datatype Remaining = Remaining(nq: PerSplit, bridge: PerSplit, comparison: PerSplit, musique: PerSplit)

  const SPLIT_SEED: nat := 20260809

  function HasSource(source: Source): Query -> bool {
    (query: Query) => query.source == source
  }

  // Counter(item.source_dataset for item in component)[source]
  function Needed(component: seq<Query>, source: Source): nat {
    CountIf(HasSource(source), component)
  }

  function IdOf(query: Query): string {
    query.id
  }

  function Ids(queries: seq<Query>): seq<string> {
    Map(IdOf, queries)
  }

  function SplitText(split: SplitName): string {
    match split
    case Train => "train"
    case Validation => "validation"
    case Test => "test"
  }

  /******* The order of one attempt *******/

  function OrderKey(sha: Digest, attempt: nat, component: seq<Query>): nat {
    sha(Decimal(SPLIT_SEED) + ":" + Decimal(attempt) + ":" + Join("|", Ids(component)))
  }

  function AttemptOrder(sha: Digest, attempt: nat): (seq<Query>, seq<Query>) -> bool {
    (a: seq<Query>, b: seq<Query>) =>
      |a| > |b| || (|a| == |b| && OrderKey(sha, attempt, a) <= OrderKey(sha, attempt, b))
  }

  /******* The choice for one component *******/

  function RowOf(remaining: Remaining, source: Source): PerSplit {
    match source
    case Nq => remaining.nq
    case HotpotBridge => remaining.bridge
    case HotpotComparison => remaining.comparison
    case Musique => remaining.musique
  }

  function Room(remaining: Remaining, source: Source, split: SplitName): int {
    match split
    case Train => RowOf(remaining, source).train
    case Validation => RowOf(remaining, source).validation
    case Test => RowOf(remaining, source).test
  }

  predicate Fits(remaining: Remaining, component: seq<Query>, split: SplitName)
  {
    forall source: Source :: Needed(component, source) > 0
                             ==> Room(remaining, source, split) >= Needed(component, source)
  }

  function Share(remaining: Remaining, component: seq<Query>, split: SplitName, source: Source): real
  {
    if Needed(component, source) == 0 then 0.0
    else Room(remaining, source, split) as real / Quota(source, split) as real
  }

  function Pressure(remaining: Remaining, component: seq<Query>, split: SplitName): real
  {
    Share(remaining, component, split, Nq) + Share(remaining, component, split, HotpotBridge)
    + Share(remaining, component, split, HotpotComparison) + Share(remaining, component, split, Musique)
  }

  function TieKey(sha: Digest, attempt: nat, component: seq<Query>, split: SplitName): nat {
    sha(Decimal(SPLIT_SEED) + ":" + Decimal(attempt) + ":" + SplitText(split) + ":" + Join("|", Ids(component)))
  }

  datatype Rank = Rank(pressure: real, tie: nat)

  // The tuple order of (-pressure, tie).
  predicate RankLe(a: Rank, b: Rank) {
    a.pressure > b.pressure || (a.pressure == b.pressure && a.tie <= b.tie)
  }

  function RankIn(sha: Digest, attempt: nat, remaining: Remaining, component: seq<Query>): SplitName -> Rank {
    (split: SplitName) => Rank(Pressure(remaining, component, split), TieKey(sha, attempt, component, split))
  }

  // min(feasible, key=rank): of equals, the first in enumeration order.
  function BestOf(rank: SplitName -> Rank, feasible: seq<SplitName>): (best: SplitName)
    requires feasible != []
    ensures best in feasible
    ensures forall other :: other in feasible ==> RankLe(rank(best), rank(other))
  {
    if |feasible| == 1 then feasible[0]
    else
      var last := feasible[|feasible| - 1];
      var best := BestOf(rank, feasible[..|feasible| - 1]);
      if RankLe(rank(best), rank(last)) then best else last
  }

  // The splits with room for the component, in enumeration order.
  function Feasible(remaining: Remaining, component: seq<Query>): seq<SplitName> {
    var train := if Fits(remaining, component, Train) then [Train] else [];
    var validation := if Fits(remaining, component, Validation) then train + [Validation] else train;
    if Fits(remaining, component, Test) then validation + [Test] else validation
  }

  lemma {:induction false} FeasibleAreThoseThatFit(remaining: Remaining, component: seq<Query>, split: SplitName)
    ensures split in Feasible(remaining, component) <==> Fits(remaining, component, split)
  {
    match split
    case Train =>
    case Validation =>
    case Test =>
  }

  function ChooseSplit(sha: Digest, attempt: nat, remaining: Remaining, component: seq<Query>): Option<SplitName> {
    var feasible := Feasible(remaining, component);
    if feasible == [] then None else Some(BestOf(RankIn(sha, attempt, remaining, component), feasible))
  }

  /** No choice exactly when no split has room; otherwise the choice has room and no split with room ranks before it. */
  lemma {:induction false} ChoiceIsBest(sha: Digest, attempt: nat, remaining: Remaining, component: seq<Query>,
                                        other: SplitName)
    ensures
      var choice := ChooseSplit(sha, attempt, remaining, component);
      var rank := RankIn(sha, attempt, remaining, component);
      if choice == None then !Fits(remaining, component, other)
      else
        && Fits(remaining, component, choice.value)
        && (Fits(remaining, component, other) ==> RankLe(rank(choice.value), rank(other)))
  {
    FeasibleAreThoseThatFit(remaining, component, other);
    var choice := ChooseSplit(sha, attempt, remaining, component);
    if choice != None {
      FeasibleAreThoseThatFit(remaining, component, choice.value);
    }
  }

  function SpendIn(row: PerSplit, split: SplitName, count: nat): PerSplit {
    match split
    case Train => row.(train := row.train - count)
    case Validation => row.(validation := row.validation - count)
    case Test => row.(test := row.test - count)
  }

  // remaining[source][chosen] -= count, for every source of the component
  function Spend(remaining: Remaining, component: seq<Query>, split: SplitName): (after: Remaining)
    ensures forall source, other :: Room(after, source, other) ==
              Room(remaining, source, other) - (if other == split then Needed(component, source) else 0)
  {
    Remaining(SpendIn(remaining.nq, split, Needed(component, Nq)),
              SpendIn(remaining.bridge, split, Needed(component, HotpotBridge)),
              SpendIn(remaining.comparison, split, Needed(component, HotpotComparison)),
              SpendIn(remaining.musique, split, Needed(component, Musique)))
  }

  function QuotaRow(source: Source): PerSplit {
    PerSplit(Quota(source, Train), Quota(source, Validation), Quota(source, Test))
  }

  function Quotas(): (quotas: Remaining)
    ensures forall source, split :: Room(quotas, source, split) == Quota(source, split)
  {
    Remaining(QuotaRow(Nq), QuotaRow(HotpotBridge), QuotaRow(HotpotComparison), QuotaRow(Musique))
  }

  predicate AllSpent(remaining: Remaining) {
    forall source, split :: Room(remaining, source, split) == 0
  }

  /******* A whole attempt *******/

  datatype Outcome = Stuck | Placed(choices: seq<SplitName>, left: Remaining)

  // One split for every component in turn, and what is left; stuck when a component fits nowhere.
  function Allocate(sha: Digest, attempt: nat, remaining: Remaining, ordered: seq<seq<Query>>): Outcome
    decreases ordered
  {
    if ordered == [] then Placed([], remaining)
    else
      match ChooseSplit(sha, attempt, remaining, ordered[0])
      case None => Stuck
      case Some(split) => Prefixed(split, Allocate(sha, attempt, Spend(remaining, ordered[0], split), ordered[1..]))
  }

  function Prefixed(split: SplitName, rest: Outcome): Outcome {
    match rest
    case Stuck => Stuck
    case Placed(choices, left) => Placed([split] + choices, left)
  }

  function PutIn(split: SplitName): Query -> Assignment {
    (query: Query) => Assignment(query.id, split)
  }

  function Assign(component: seq<Query>, split: SplitName): seq<Assignment> {
    Map(PutIn(split), component)
  }

  function AssignAll(ordered: seq<seq<Query>>, choices: seq<SplitName>): seq<Assignment> {
    if ordered == [] || choices == [] then []
    else Assign(ordered[0], choices[0]) + AssignAll(ordered[1..], choices[1..])
  }

  function Attempt(sha: Digest, components: seq<seq<Query>>, attempt: nat): Option<seq<Assignment>> {
    var ordered := Sort(AttemptOrder(sha, attempt), components);
    match Allocate(sha, attempt, Quotas(), ordered)
    case Stuck => None
    case Placed(choices, left) => if AllSpent(left) then Some(AssignAll(ordered, choices)) else None
  }

  /******* What an allocation conserves *******/

  // How many queries of `source` the choices put in `split`.
  function Used(ordered: seq<seq<Query>>, choices: seq<SplitName>, source: Source, split: SplitName): nat {
    if ordered == [] || choices == [] then 0
    else (if choices[0] == split then Needed(ordered[0], source) else 0)
         + Used(ordered[1..], choices[1..], source, split)
  }

  predicate NonNegative(remaining: Remaining) {
    forall source, split :: Room(remaining, source, split) >= 0
  }

  lemma {:induction false} SpendingFitsStaysNonNegative(remaining: Remaining, component: seq<Query>, split: SplitName)
    requires NonNegative(remaining) && Fits(remaining, component, split)
    ensures NonNegative(Spend(remaining, component, split))
  {
    forall source, other ensures Room(Spend(remaining, component, split), source, other) >= 0 {
      assert Room(remaining, source, other) >= 0;
    }
  }

  /** Every component gets a split, no quota goes below zero, and what is spent is what is used. */
  lemma {:induction false} AllocationConserves(sha: Digest, attempt: nat, remaining: Remaining,
                                               ordered: seq<seq<Query>>, source: Source, split: SplitName)
    requires NonNegative(remaining) && Allocate(sha, attempt, remaining, ordered).Placed?
    ensures
      var placed := Allocate(sha, attempt, remaining, ordered);
      && |placed.choices| == |ordered|
      && NonNegative(placed.left)
      && Room(remaining, source, split) == Room(placed.left, source, split)
          + Used(ordered, placed.choices, source, split)
    decreases ordered
  {
    if ordered != [] {
      var chosen := ChooseSplit(sha, attempt, remaining, ordered[0]).value;
      ChoiceIsBest(sha, attempt, remaining, ordered[0], chosen);
      SpendingFitsStaysNonNegative(remaining, ordered[0], chosen);
      var after := Spend(remaining, ordered[0], chosen);
      AllocationConserves(sha, attempt, after, ordered[1..], source, split);
      var rest := Allocate(sha, attempt, after, ordered[1..]);
      var placed := Allocate(sha, attempt, remaining, ordered);
      assert placed == Prefixed(chosen, rest);
      assert placed.choices[1..] == rest.choices;
    }
  }
}
