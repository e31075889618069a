/** Evidence that passes every count of the raw-matrix check and is not a full product, because the manifest counts one
    query where there are two. */
module UnevenMatrix {
  import opened Wrappers
  import opened Contracts
  import opened Ordering
  import opened Counting
  import opened Text
  import opened TrialIdentity
  import opened RawMatrix

  type Key = (string, Place)

  // Two queries, each run with every method and trial but with half of the budgets.
  datatype Uneven = Uneven(digests: Digests, runId: string, versions: string, facts: QueryFacts, whole: Layout,
                           a: string, first: Layout, b: string, second: Layout)
  {
    ghost predicate Valid() {
      && Injective(digests.trial) && Without(NUL, runId)
      && a != b && StringLe(a, b)
      && IsLayout(whole) && IsHalf(first) && IsHalf(second)
    }

    ghost predicate IsHalf(half: Layout) {
      && half.methods == whole.methods && half.trials == whole.trials
      && |half.budgets| == 2 && HasProtocolTrials(half)
      && forall budget :: budget in half.budgets ==> budget in whole.budgets
    }

    function Half(id: string): Layout {
      if id == a then first else second
    }

    function Ids(): seq<string> {
      [a, b]
    }

    function Queries(): seq<Identity> {
      [Identity(a, facts), Identity(b, facts)]
    }

    function KeysOf(id: string): seq<Key> {
      Cross([id], Places(Half(id)))
    }

    function AllKeys(): seq<Key> {
      KeysOf(a) + KeysOf(b)
    }

    function Records(): seq<Record> {
      Map(RecordFor(this), AllKeys())
    }

    // A run manifest that counts one query, with the digests of both.
    function RunManifest(): Manifest {
      Manifest(runId, versions, whole, 1, digests.ids(Ids()), digests.identities(Queries()), ROWS_PER_QUERY)
    }
  }

  function CellOf(key: Key): Cell {
    Cell(key.0, key.1.0.0, key.1.0.1, key.1.1.0, key.1.1.1)
  }

  function RecordFor(u: Uneven): Key -> Record {
    (key: Key) => Record(u.digests.trial(Payload(u.runId, CellOf(key))), u.runId, u.versions, CellOf(key), u.facts)
  }

  /******* The keys *******/

  lemma {:induction false} HalfIs(u: Uneven, id: string)
    requires u.Valid()
    ensures u.IsHalf(u.Half(id))
    ensures |Settings(u.Half(id))| == 18 && Distinct(Settings(u.Half(id)))
    ensures forall setting :: setting in Settings(u.Half(id)) ==> setting in Settings(u.whole)
  {
    var half := u.Half(id);
    CrossProperties(half.methods, half.budgets);
    forall setting | setting in Settings(half) ensures setting in Settings(u.whole) {
      assert setting == (setting.0, setting.1);
      InCross(half.methods, half.budgets, setting.0, setting.1);
      InCross(u.whole.methods, u.whole.budgets, setting.0, setting.1);
    }
  }

  lemma {:induction false} KeyIs(u: Uneven, id: string, key: Key)
    requires u.Valid() && key in u.KeysOf(id)
    ensures key.0 == id && key.1 in Places(u.whole) && key.1.0 in Settings(u.Half(id))
  {
    var half := u.Half(id);
    HalfIs(u, id);
    assert key == (key.0, key.1) && key.1 == (key.1.0, key.1.1);
    InCross([id], Places(half), key.0, key.1);
    InCross(Settings(half), half.trials, key.1.0, key.1.1);
    InCross(Settings(u.whole), u.whole.trials, key.1.0, key.1.1);
  }

  lemma {:induction false} KeysOfAre(u: Uneven, id: string)
    requires u.Valid()
    ensures |u.KeysOf(id)| == 234 && Distinct(u.KeysOf(id))
  {
    var half := u.Half(id);
    HalfIs(u, id);
    CrossProperties(Settings(half), half.trials);
    CrossProperties([id], Places(half));
  }

  lemma {:induction false} KeyOfOne(u: Uneven, i: nat)
    requires u.Valid() && i < |u.AllKeys()|
    ensures var key := u.AllKeys()[i];
            key.0 in u.Ids() && key.1 in Places(u.whole) && key.1.0 in Settings(u.Half(key.0))
  {
    var key := u.AllKeys()[i];
    if i < |u.KeysOf(u.a)| {
      KeyIs(u, u.a, key);
    } else {
      assert key == u.KeysOf(u.b)[i - |u.KeysOf(u.a)|];
      KeyIs(u, u.b, key);
    }
    assert u.Ids()[0] == u.a && u.Ids()[1] == u.b;
  }

  lemma {:induction false} AllKeysAre(u: Uneven)
    requires u.Valid()
    ensures |u.AllKeys()| == ROWS_PER_QUERY && Distinct(u.AllKeys())
  {
    KeysOfAre(u, u.a);
    KeysOfAre(u, u.b);
    forall key | key in u.KeysOf(u.a) ensures key !in u.KeysOf(u.b) {
      KeyIs(u, u.a, key);
      if key in u.KeysOf(u.b) {
        KeyIs(u, u.b, key);
      }
    }
    DistinctAppend(u.KeysOf(u.a), u.KeysOf(u.b));
  }

  lemma {:induction false} RecordAtKey(u: Uneven, i: nat)
    requires i < |u.AllKeys()|
    ensures |u.Records()| == |u.AllKeys()|
    ensures KeyOf(u.Records()[i]) == u.AllKeys()[i] && u.Records()[i].cell.query == u.AllKeys()[i].0
    ensures IdentityOf(u.Records()[i]) == Identity(u.AllKeys()[i].0, u.facts)
    ensures GroupOf(u.Records()[i]) == (u.AllKeys()[i].0, (u.AllKeys()[i].1.0, u.AllKeys()[i].1.1.0))
    ensures IsIdentified(u.digests, u.RunManifest(), u.Records()[i])
  {
    var key := u.AllKeys()[i];
    assert u.Records()[i] == RecordFor(u)(key);
    PlaceOfKey(key);
  }

  lemma {:induction false} PlaceOfKey(key: Key)
    ensures (CellOf(key).query, PlaceOf(CellOf(key))) == key
  {
    assert key == (key.0, key.1) && key.1 == (key.1.0, key.1.1);
    assert key.1.0 == (key.1.0.0, key.1.0.1) && key.1.1 == (key.1.1.0, key.1.1.1);
  }

  lemma {:induction false} KeysOfRecords(u: Uneven)
    ensures Map(KeyOf, u.Records()) == u.AllKeys()
  {
    forall i | 0 <= i < |u.AllKeys()| ensures Map(KeyOf, u.Records())[i] == u.AllKeys()[i] {
      RecordAtKey(u, i);
    }
  }

  lemma {:induction false} RowsPass(u: Uneven)
    requires u.Valid()
    ensures |u.Records()| == u.RunManifest().rows && Distinct(Map(TrialIdOf, u.Records()))
    ensures RowsHold(u.digests, u.RunManifest(), u.Records())
  {
    AllKeysAre(u);
    KeysOfRecords(u);
    forall i | 0 <= i < |u.Records()|
      ensures IsIdentified(u.digests, u.RunManifest(), u.Records()[i])
      ensures CheckRow(u.digests, u.RunManifest(), u.Records()[i]) == None
    {
      RecordAtKey(u, i);
      KeyOfOne(u, i);
      CheckRowMeans(u.digests, u.RunManifest(), u.Records()[i]);
    }
    DistinctKeysAreDistinctTrials(u.digests, u.RunManifest(), u.Records());
  }

  /******* The queries *******/

  lemma {:induction false} QueryHasRow(u: Uneven, id: string) returns (i: nat)
    requires u.Valid() && id in u.Ids()
    ensures i < |u.Records()| && u.AllKeys()[i].0 == id
  {
    KeysOfAre(u, u.a);
    KeysOfAre(u, u.b);
    i := if id == u.a then 0 else |u.KeysOf(u.a)|;
    assert u.AllKeys()[i] == u.KeysOf(id)[0];
    KeyIs(u, id, u.KeysOf(id)[0]);
  }

  lemma {:induction false} IdsAreTwo(u: Uneven)
    requires u.Valid()
    ensures SortedQueryIds(u.Records()) == u.Ids()
  {
    var mentioned := Dedup(Map(QueryOf, u.Records()));
    TwoAreMentioned(u, mentioned);
    StringLeIsTotalOrder();
    SortOfPermutation(StringLe, mentioned, u.Ids());
    SortOfSorted(StringLe, u.Ids());
  }

  lemma {:induction false} TwoAreMentioned(u: Uneven, mentioned: seq<string>)
    requires u.Valid() && mentioned == Dedup(Map(QueryOf, u.Records()))
    ensures multiset(mentioned) == multiset(u.Ids())
  {
    DedupIsDistinct(Map(QueryOf, u.Records()));
    forall id ensures id in mentioned <==> id in u.Ids() {
      MentionedIffListed(u, id);
      InDedup(Map(QueryOf, u.Records()), id);
    }
    DistinctSameElements(mentioned, u.Ids());
  }

  lemma {:induction false} MentionedIffListed(u: Uneven, id: string)
    requires u.Valid()
    ensures id in Map(QueryOf, u.Records()) <==> id in u.Ids()
  {
    var mentioned := Map(QueryOf, u.Records());
    if id in u.Ids() {
      var i := QueryHasRow(u, id);
      RecordAtKey(u, i);
      assert mentioned[i] == id;
    }
    if id in mentioned {
      var i :| 0 <= i < |mentioned| && mentioned[i] == id;
      RecordAtKey(u, i);
      KeyOfOne(u, i);
    }
  }

  lemma {:induction false} FoundIffQuery(u: Uneven, identity: Identity)
    requires u.Valid()
    ensures identity in Map(IdentityOf, u.Records()) <==> identity in u.Queries()
  {
    var found := Map(IdentityOf, u.Records());
    assert u.Queries()[0] == Identity(u.a, u.facts) && u.Queries()[1] == Identity(u.b, u.facts);
    assert u.Ids()[0] == u.a && u.Ids()[1] == u.b;
    if identity in u.Queries() {
      var i := QueryHasRow(u, identity.query);
      RecordAtKey(u, i);
      assert found[i] == identity;
    }
    if identity in found {
      var i :| 0 <= i < |found| && found[i] == identity;
      RecordAtKey(u, i);
      KeyOfOne(u, i);
    }
  }

  lemma {:induction false} IdentitiesAreStable(u: Uneven)
    ensures StableIdentities(u.Records())
  {
    forall i | 0 <= i < |u.Records()| ensures u.Records()[i].facts == u.facts {
      RecordAtKey(u, i);
    }
  }

  lemma {:induction false} IdentitiesAreTwo(u: Uneven)
    requires u.Valid()
    ensures SortedIdentities(u.Records()) == u.Queries()
  {
    var found, queries := Map(IdentityOf, u.Records()), u.Queries();
    DedupIsDistinct(found);
    forall identity ensures identity in Dedup(found) <==> identity in queries {
      FoundIffQuery(u, identity);
      InDedup(found, identity);
    }
    QueriesAreSorted(u);
    DistinctSameElements(Dedup(found), queries);
    ByQueryIsTotal();
    SortOfPermutation(ByQuery, queries, Dedup(found));
  }

  lemma {:induction false} QueriesAreSorted(u: Uneven)
    requires u.Valid()
    ensures AntisymmetricOn(ByQuery, u.Queries()) && Distinct(u.Queries()) && Sort(ByQuery, u.Queries()) == u.Queries()
  {
    assert Map(NameOf, u.Queries()) == u.Ids();
    DistinctNamesAreAntisymmetric(u.Queries());
    SortOfSorted(ByQuery, u.Queries());
  }

  /******* The counts *******/

  lemma {:induction false} RowsOfUnevenGroup(u: Uneven, group: Group)
    requires u.Valid() && group.0 in u.Ids() && group.1.0 in Settings(u.Half(group.0))
    ensures CountIf(InGroup(group), u.Records()) == Runs(group.1.1)
  {
    CountIfMap(KeyInGroup(group), InGroup(group), KeyOf, u.Records());
    KeysOfRecords(u);
    CountIfAppend(KeyInGroup(group), u.KeysOf(u.a), u.KeysOf(u.b));
    HalfIs(u, group.0);
    KeysOfGroup(u.Half(group.0), [group.0], group);
    KeysOfOther(u, if group.0 == u.a then u.b else u.a, group);
  }

  lemma {:induction false} KeysOfOther(u: Uneven, id: string, group: Group)
    requires u.Valid() && group.0 != id
    ensures CountIf(KeyInGroup(group), u.KeysOf(id)) == 0
  {
    forall key | key in u.KeysOf(id) ensures !KeyInGroup(group)(key) {
      KeyIs(u, id, key);
    }
    CountIfNone(KeyInGroup(group), u.KeysOf(id));
  }

  lemma {:induction false} GroupOfRow(u: Uneven, group: Group)
    requires u.Valid() && group in Map(GroupOf, u.Records())
    ensures group.0 in u.Ids() && group.1.0 in Settings(u.Half(group.0))
  {
    var i :| 0 <= i < |u.Records()| && Map(GroupOf, u.Records())[i] == group;
    RecordAtKey(u, i);
    KeyOfOne(u, i);
  }

  lemma {:induction false} PhaseCountsPass(u: Uneven)
    requires u.Valid()
    ensures PhaseCountsHold(u.Records())
  {
    forall group: Group | group in Map(GroupOf, u.Records())
      ensures CountIf(InGroup(group), u.Records()) == Runs(group.1.1) {
      GroupOfRow(u, group);
      RowsOfUnevenGroup(u, group);
    }
  }

  function GroupsOf(u: Uneven, id: string): seq<Group> {
    Groups(u.Half(id), [id])
  }

  lemma {:induction false} GroupsOfAre(u: Uneven, id: string)
    requires u.Valid()
    ensures |GroupsOf(u, id)| == 54 && Distinct(GroupsOf(u, id))
  {
    var half := u.Half(id);
    HalfIs(u, id);
    PhasesAre(PHASES);
    CrossProperties(Settings(half), PHASES);
    CrossProperties([id], Cross(Settings(half), PHASES));
  }

  lemma {:induction false} InGroupsOf(u: Uneven, id: string, group: Group)
    ensures group in GroupsOf(u, id) <==> group.0 == id && group.1.0 in Settings(u.Half(id))
  {
    PhasesAre(PHASES);
    assert group == (group.0, group.1) && group.1 == (group.1.0, group.1.1);
    InCross(Settings(u.Half(id)), PHASES, group.1.0, group.1.1);
    InCross([id], Cross(Settings(u.Half(id)), PHASES), group.0, group.1);
  }

  lemma {:induction false} UnevenGroupHasRow(u: Uneven, group: Group)
    requires u.Valid() && group.0 in u.Ids() && group.1.0 in Settings(u.Half(group.0))
    ensures group in Map(GroupOf, u.Records())
  {
    RowsOfUnevenGroup(u, group);
    if group !in Map(GroupOf, u.Records()) {
      forall record | record in u.Records() ensures !InGroup(group)(record) {
        var i :| 0 <= i < |u.Records()| && u.Records()[i] == record;
        assert Map(GroupOf, u.Records())[i] == GroupOf(record);
      }
      CountIfNone(InGroup(group), u.Records());
    }
  }

  lemma {:induction false} FoundIffGroup(u: Uneven, group: Group)
    requires u.Valid()
    ensures group in Map(GroupOf, u.Records()) <==> group in GroupsOf(u, u.a) + GroupsOf(u, u.b)
  {
    InGroupsOf(u, u.a, group);
    InGroupsOf(u, u.b, group);
    assert u.Ids()[0] == u.a && u.Ids()[1] == u.b;
    if group in Map(GroupOf, u.Records()) {
      GroupOfRow(u, group);
    }
    if group in GroupsOf(u, u.a) + GroupsOf(u, u.b) {
      UnevenGroupHasRow(u, group);
    }
  }

  lemma {:induction false} GroupsAreDistinct(u: Uneven)
    requires u.Valid()
    ensures |GroupsOf(u, u.a) + GroupsOf(u, u.b)| == GROUPS_PER_QUERY && Distinct(GroupsOf(u, u.a) + GroupsOf(u, u.b))
  {
    GroupsOfAre(u, u.a);
    GroupsOfAre(u, u.b);
    forall group | group in GroupsOf(u, u.a) ensures group !in GroupsOf(u, u.b) {
      InGroupsOf(u, u.a, group);
      InGroupsOf(u, u.b, group);
    }
    DistinctAppend(GroupsOf(u, u.a), GroupsOf(u, u.b));
  }

  lemma {:induction false} GroupCountPasses(u: Uneven)
    requires u.Valid()
    ensures |Dedup(Map(GroupOf, u.Records()))| == GROUPS_PER_QUERY
  {
    var found, all := Map(GroupOf, u.Records()), GroupsOf(u, u.a) + GroupsOf(u, u.b);
    GroupsAreDistinct(u);
    DedupIsDistinct(found);
    forall group ensures group in Dedup(found) <==> group in all {
      InDedup(found, group);
      FoundIffGroup(u, group);
    }
    DistinctSameElements(Dedup(found), all);
  }

  lemma {:induction false} UnevenIsAccepted(u: Uneven)
    requires u.Valid()
    ensures Accepts(u.digests, u.RunManifest(), u.Records())
  {
    RowsPass(u);
    IdsAreTwo(u);
    IdentitiesAreTwo(u);
    IdentitiesAreStable(u);
    PhaseCountsPass(u);
    GroupCountPasses(u);
  }

  /******* The example *******/

  // Query a with the two short budgets, query b with the two long ones.
  function Example(digests: Digests, runId: string, versions: string): Uneven {
    Uneven(digests, runId, versions, QueryFacts(Train, Nq, [Semantic]), Baseline(),
           "a", Baseline().(budgets := [50, 100]), "b", Baseline().(budgets := [200, 500]))
  }

  lemma {:induction false} IsHalfOf(u: Uneven, half: Layout, x: nat, y: nat)
    requires IsLayout(u.whole) && HasProtocolTrials(u.whole)
    requires half == u.whole.(budgets := [x, y]) && x != y && x in u.whole.budgets && y in u.whole.budgets
    ensures u.IsHalf(half)
  {
  }

  lemma {:induction false} BudgetsAre(budgets: seq<nat>)
    requires budgets == [50, 100, 200, 500]
    ensures 50 in budgets && 100 in budgets && 200 in budgets && 500 in budgets
  {
    assert budgets[0] == 50 && budgets[1] == 100 && budgets[2] == 200 && budgets[3] == 500;
  }

  lemma {:induction false} ExampleIsValid(u: Uneven)
    requires u == Example(u.digests, u.runId, u.versions) && Injective(u.digests.trial) && Without(NUL, u.runId)
    ensures u.Valid()
  {
    BaselineIsLayout(u.whole);
    BaselineHasProtocolTrials(u.whole);
    BudgetsAre(u.whole.budgets);
    IsHalfOf(u, u.first, 50, 100);
    IsHalfOf(u, u.second, 200, 500);
    assert u.a[0] != u.b[0];
  }

  /** Main result: the counts alone do not make a product. This evidence is accepted with a run manifest that counts one
      query and digests two, and it is not the full product of the queries it mentions. */
  lemma {:induction false} AcceptedWithoutProduct(u: Uneven)
    requires u == Example(u.digests, u.runId, u.versions) && Injective(u.digests.trial) && Without(NUL, u.runId)
    ensures IsRunManifest(u.RunManifest()) && Accepts(u.digests, u.RunManifest(), u.Records())
    ensures SortedQueryIds(u.Records()) == u.Ids() && u.RunManifest().queryCount == 1
    ensures !IsFullProduct(u.RunManifest().layout, u.Records(), SortedQueryIds(u.Records()))
  {
    ExampleIsValid(u);
    UnevenIsAccepted(u);
    IdsAreTwo(u);
    BaselineIsLayout(u.whole);
    AcceptedIsFullIffCountIsRight(u.digests, u.RunManifest(), u.Records());
  }
}
