/** The check that raw benchmark evidence is the complete product of queries, methods, budgets and trials. */
module RawMatrix {
  import opened Wrappers
  import opened Contracts
  import opened Ordering
  import opened Counting
  import opened Text
  import opened TrialIdentity

  datatype QueryFacts = QueryFacts(split: SplitName, source: Source, tags: seq<Tag>)
  datatype Identity = Identity(query: string, facts: QueryFacts)

  // `versions` stands for the version fields other than the run ID.
  datatype Record = Record(trialId: nat, runId: string, versions: string, cell: Cell, facts: QueryFacts)

  // What every query is run with: the executed methods, the latency budgets, and the phase and repetition of each
  // trial.
  datatype Layout = Layout(methods: seq<Method>, budgets: seq<nat>, trials: seq<(Phase, nat)>)

  datatype Manifest = Manifest(runId: string, versions: string, layout: Layout, queryCount: nat, queryIdsSha: nat,
                               identitiesSha: nat, rows: nat)

  datatype Digests = Digests(trial: string -> nat, ids: seq<string> -> nat, identities: seq<Identity> -> nat)

  datatype MatrixError =
    | Incomplete | DuplicateTrials | WrongVersions | WrongTrialIdentity | NotExecuted | WrongBudget | WrongRepetition
    | WrongQueryIds | ChangingIdentity | WrongIdentities | WrongPhaseCount | MissingGroups

  const ROWS_PER_QUERY := 468
  const GROUPS_PER_QUERY := 108

  function Runs(phase: Phase): nat {
    match phase
    case Cold => 1
    case Warmup => 2
    case Measured => 10
  }

  function TrialsOf(phase: Phase): seq<(Phase, nat)> {
    Map(PairWith<Phase, nat>(phase), Upto(Runs(phase)))
  }

  function Upto(n: nat): (range: seq<nat>)
    ensures |range| == n && forall i :: 0 <= i < n ==> range[i] == i
  {
    seq(n, i => i)
  }

  // The constants of baseline_v1.
  function Baseline(): Layout {
    Layout([Vector, GraphDepth1, GraphDepth2, GraphDepth3, FixedP4, FixedP5, FixedP6, FixedP8, Rule],
           [50, 100, 200, 500],
           TrialsOf(Cold) + TrialsOf(Warmup) + TrialsOf(Measured))
  }

  // BenchmarkRunManifest: the frozen constants, and _row_count_matches.
  predicate IsRunManifest(manifest: Manifest) {
    && manifest.layout == Baseline()
    && manifest.queryCount >= 1
    && manifest.rows
       == manifest.queryCount * |manifest.layout.methods| * |manifest.layout.budgets| * |manifest.layout.trials|
  }

  // All that the argument needs to know of the constants.
  ghost predicate IsLayout(layout: Layout) {
    && |layout.methods| == 9 && |layout.budgets| == 4 && |layout.trials| == 13
    && Distinct(layout.methods) && Distinct(layout.budgets) && Distinct(layout.trials)
    && (forall approach: Method :: approach in layout.methods <==> approach != BestFixed)
    && (forall phase: Phase, repetition: nat :: (phase, repetition) in layout.trials <==> repetition < Runs(phase))
  }

  /******* The places of the matrix *******/

  type Place = ((Method, nat), (Phase, nat))
  type Group = (string, ((Method, nat), Phase))

  function Settings(layout: Layout): seq<(Method, nat)> {
    Cross(layout.methods, layout.budgets)
  }

  // Every place one query has in a complete matrix.
  function Places(layout: Layout): seq<Place> {
    Cross(Settings(layout), layout.trials)
  }

  function PlaceOf(cell: Cell): Place {
    ((cell.approach, cell.budget), (cell.phase, cell.repetition))
  }

  function KeyOf(record: Record): (string, Place) {
    (record.cell.query, PlaceOf(record.cell))
  }

  function GroupOf(record: Record): Group {
    (record.cell.query, ((record.cell.approach, record.cell.budget), record.cell.phase))
  }

  // Every cell of the product once.
  ghost predicate IsFullProduct(layout: Layout, records: seq<Record>, ids: seq<string>) {
    multiset(Map(KeyOf, records)) == multiset(Cross(ids, Places(layout)))
  }

  lemma {:induction false} BaselineMethods(methods: seq<Method>)
    requires methods == [Vector, GraphDepth1, GraphDepth2, GraphDepth3, FixedP4, FixedP5, FixedP6, FixedP8, Rule]
    ensures forall approach: Method :: approach in methods <==> approach != BestFixed
  {
    forall approach: Method | approach != BestFixed ensures approach in methods {
      match approach {
        case Vector => assert methods[0] == approach;
        case GraphDepth1 => assert methods[1] == approach;
        case GraphDepth2 => assert methods[2] == approach;
        case GraphDepth3 => assert methods[3] == approach;
        case FixedP4 => assert methods[4] == approach;
        case FixedP5 => assert methods[5] == approach;
        case FixedP6 => assert methods[6] == approach;
        case FixedP8 => assert methods[7] == approach;
        case Rule => assert methods[8] == approach;
        case BestFixed =>
      }
    }
  }

  lemma {:induction false} TrialsOfAre(phase: Phase)
    ensures |TrialsOf(phase)| == Runs(phase) && Distinct(TrialsOf(phase))
    ensures forall p, r: nat :: (p, r) in TrialsOf(phase) <==> p == phase && r < Runs(phase)
  {
    forall p, r: nat ensures (p, r) in TrialsOf(phase) <==> p == phase && r < Runs(phase) {
      if p == phase && r < Runs(phase) {
        assert TrialsOf(phase)[r] == (p, r);
      }
    }
  }

  /** The order of the trials: the cold one, then the warm-ups and then the measured ones, each by repetition. */
  lemma {:induction false} BaselineInOrder(cold: seq<(Phase, nat)>, warmup: seq<(Phase, nat)>,
                                           measured: seq<(Phase, nat)>, i: nat)
    requires cold == TrialsOf(Cold) && warmup == TrialsOf(Warmup) && measured == TrialsOf(Measured) && i < 13
    ensures |cold + warmup + measured| == 13
    ensures (cold + warmup + measured)[i] == if i == 0 then (Cold, 0) else if i <= 2 then (Warmup, i - 1)
                                             else (Measured, i - 3)
  {
  }

  lemma {:induction false} BaselineTrials(cold: seq<(Phase, nat)>, warmup: seq<(Phase, nat)>,
                                          measured: seq<(Phase, nat)>)
    requires cold == TrialsOf(Cold) && warmup == TrialsOf(Warmup) && measured == TrialsOf(Measured)
    ensures |cold + warmup + measured| == 13 && Distinct(cold + warmup + measured)
    ensures forall p: Phase, r: nat :: (p, r) in cold + warmup + measured <==> r < Runs(p)
  {
    TrialsOfAre(Cold);
    TrialsOfAre(Warmup);
    TrialsOfAre(Measured);
    forall p: Phase, r: nat ensures (p, r) in cold + warmup + measured <==> r < Runs(p) {
      match p { case Cold => case Warmup => case Measured => }
    }
    DistinctAppend(cold, warmup);
    DistinctAppend(cold + warmup, measured);
  }

  lemma {:induction false} BaselineIsLayout(layout: Layout)
    requires layout == Baseline()
    ensures IsLayout(layout)
  {
    BaselineMethods(layout.methods);
    BaselineTrials(TrialsOf(Cold), TrialsOf(Warmup), TrialsOf(Measured));
  }

  lemma {:induction false} PlacesAre(layout: Layout)
    requires IsLayout(layout)
    ensures |Places(layout)| == ROWS_PER_QUERY && Distinct(Places(layout))
    ensures forall place: Place :: place in Places(layout) <==>
              place.0.0 in layout.methods && place.0.1 in layout.budgets && place.1 in layout.trials
  {
    CrossProperties(layout.methods, layout.budgets);
    CrossProperties(Settings(layout), layout.trials);
    forall place: Place
      ensures place in Places(layout) <==>
              place.0.0 in layout.methods && place.0.1 in layout.budgets && place.1 in layout.trials
    {
      var setting, trial := place.0, place.1;
      assert place == (setting, trial) && setting == (setting.0, setting.1);
      InCross(layout.methods, layout.budgets, setting.0, setting.1);
      InCross(Settings(layout), layout.trials, setting, trial);
    }
  }

  /******* What the check examines *******/

  function TrialIdOf(record: Record): nat {
    record.trialId
  }

  function QueryOf(record: Record): string {
    record.cell.query
  }

  function IdentityOf(record: Record): Identity {
    Identity(record.cell.query, record.facts)
  }

  predicate IsIdentified(digests: Digests, manifest: Manifest, record: Record) {
    && record.runId == manifest.runId && record.versions == manifest.versions
    && record.trialId == digests.trial(Payload(record.runId, record.cell))
  }

  // The tests of the loop over rows, in order.
  function CheckRow(digests: Digests, manifest: Manifest, record: Record): Option<MatrixError> {
    if record.runId != manifest.runId || record.versions != manifest.versions then Some(WrongVersions)
    else if record.trialId != digests.trial(Payload(record.runId, record.cell)) then Some(WrongTrialIdentity)
    else if record.cell.approach !in manifest.layout.methods then Some(NotExecuted)
    else if record.cell.budget !in manifest.layout.budgets then Some(WrongBudget)
    else if record.cell.repetition >= Runs(record.cell.phase) then Some(WrongRepetition)
    else None
  }

  // The run and the version fields agree, and the ID is the digest of the coordinates; in this order.
  predicate IsOfRun(manifest: Manifest, record: Record) {
    record.runId == manifest.runId && record.versions == manifest.versions
  }

  function RunsOf(phase: Phase): nat {
    if phase == Cold then 1 else if phase == Warmup then 2 else 10
  }

  /** Which complaint a row gives rise to: the first of these in the frozen protocol, where only the label for the best
      fixed plan is no executed method. */
  lemma {:induction false} RowFailsIff(digests: Digests, manifest: Manifest, record: Record, error: MatrixError)
    requires manifest.layout == Baseline()
    ensures CheckRow(digests, manifest, record) == Some(error)
            <==> if !IsOfRun(manifest, record) then error == WrongVersions
                 else if !IsIdentified(digests, manifest, record) then error == WrongTrialIdentity
                 else if record.cell.approach == BestFixed then error == NotExecuted
                 else if record.cell.budget !in {50, 100, 200, 500} then error == WrongBudget
                 else record.cell.repetition >= RunsOf(record.cell.phase) && error == WrongRepetition
  {
    BaselineIsLayout(manifest.layout);
    BudgetsAreListed(manifest.layout.budgets, record.cell.budget);
  }

  lemma {:induction false} BudgetsAreListed(budgets: seq<nat>, budget: nat)
    requires budgets == [50, 100, 200, 500]
    ensures budget in budgets <==> budget in {50, 100, 200, 500}
  {
    assert budgets[0] == 50 && budgets[1] == 100 && budgets[2] == 200 && budgets[3] == 500;
  }

  lemma {:induction false} CheckRowMeans(digests: Digests, manifest: Manifest, record: Record)
    requires IsLayout(manifest.layout)
    ensures CheckRow(digests, manifest, record) == None
            <==> IsIdentified(digests, manifest, record) && PlaceOf(record.cell) in Places(manifest.layout)
  {
    PlacesAre(manifest.layout);
    assert (record.cell.phase, record.cell.repetition) in manifest.layout.trials
           <==> record.cell.repetition < Runs(record.cell.phase);
  }

  predicate ByQuery(a: Identity, b: Identity) {
    StringLe(a.query, b.query)
  }

  function SortedQueryIds(records: seq<Record>): seq<string> {
    Sort(StringLe, Dedup(Map(QueryOf, records)))
  }

  function SortedIdentities(records: seq<Record>): seq<Identity> {
    Sort(ByQuery, Dedup(Map(IdentityOf, records)))
  }

  ghost predicate StableIdentities(records: seq<Record>) {
    forall i, j :: 0 <= i < |records| && 0 <= j < |records| && records[i].cell.query == records[j].cell.query
      ==> records[i].facts == records[j].facts
  }

  function InGroup(group: Group): Record -> bool {
    (record: Record) => GroupOf(record) == group
  }

  ghost predicate PhaseCountsHold(records: seq<Record>) {
    forall group: Group :: group in Map(GroupOf, records) ==> CountIf(InGroup(group), records) == Runs(group.1.1)
  }

  ghost predicate RowsHold(digests: Digests, manifest: Manifest, records: seq<Record>) {
    forall i :: 0 <= i < |records| ==> CheckRow(digests, manifest, records[i]) == None
  }

  // Everything the check tests.
  ghost predicate Accepts(digests: Digests, manifest: Manifest, records: seq<Record>) {
    && |records| == manifest.rows
    && Distinct(Map(TrialIdOf, records))
    && RowsHold(digests, manifest, records)
    && ContentHolds(digests, manifest, records)
  }

  ghost predicate ContentHolds(digests: Digests, manifest: Manifest, records: seq<Record>) {
    && digests.ids(SortedQueryIds(records)) == manifest.queryIdsSha
    && StableIdentities(records)
    && digests.identities(SortedIdentities(records)) == manifest.identitiesSha
    && PhaseCountsHold(records)
    && |Dedup(Map(GroupOf, records))| == manifest.queryCount * GROUPS_PER_QUERY
  }

  /******* Distinct trials are distinct cells *******/

  lemma {:induction false} KeyDeterminesCell(a: Record, b: Record)
    ensures KeyOf(a) == KeyOf(b) <==> a.cell == b.cell
  {
  }

  lemma {:induction false} DistinctTrialsAreDistinctKeys(digests: Digests, manifest: Manifest, records: seq<Record>)
    requires forall i :: 0 <= i < |records| ==> IsIdentified(digests, manifest, records[i])
    requires Distinct(Map(TrialIdOf, records))
    ensures Distinct(Map(KeyOf, records))
  {
    var ids, keys := Map(TrialIdOf, records), Map(KeyOf, records);
    forall i, j | 0 <= i < j < |records| ensures keys[i] != keys[j] {
      assert IsIdentified(digests, manifest, records[i]) && IsIdentified(digests, manifest, records[j]);
      assert ids[i] != ids[j];
      KeyDeterminesCell(records[i], records[j]);
    }
  }

  ghost predicate Injective<T(!new)>(digest: T -> nat) {
    forall a, b :: digest(a) == digest(b) ==> a == b
  }

  lemma {:induction false} DistinctKeysAreDistinctTrials(digests: Digests, manifest: Manifest, records: seq<Record>)
    requires Injective(digests.trial) && Without(NUL, manifest.runId)
    requires forall i :: 0 <= i < |records| ==> IsIdentified(digests, manifest, records[i])
    requires Distinct(Map(KeyOf, records))
    ensures Distinct(Map(TrialIdOf, records))
  {
    var ids, keys := Map(TrialIdOf, records), Map(KeyOf, records);
    forall i, j | 0 <= i < j < |records| ensures ids[i] != ids[j] {
      assert IsIdentified(digests, manifest, records[i]) && IsIdentified(digests, manifest, records[j]);
      KeyDeterminesCell(records[i], records[j]);
      assert keys[i] != keys[j];
      if ids[i] == ids[j] {
        PayloadInjective(records[i].runId, records[i].cell, records[j].runId, records[j].cell);
      }
    }
  }

  /******* Counting forces completeness *******/

  lemma {:induction false} KeysAreInProduct(digests: Digests, manifest: Manifest, records: seq<Record>,
                                            ids: seq<string>)
    requires IsLayout(manifest.layout) && RowsHold(digests, manifest, records)
    requires forall id :: id in Map(QueryOf, records) ==> id in ids
    ensures forall key :: key in Map(KeyOf, records) ==> key in Cross(ids, Places(manifest.layout))
    ensures forall i :: 0 <= i < |records| ==> IsIdentified(digests, manifest, records[i])
  {
    var places := Places(manifest.layout);
    CrossProperties(ids, places);
    forall i | 0 <= i < |records|
      ensures Map(KeyOf, records)[i] in Cross(ids, places) && IsIdentified(digests, manifest, records[i])
    {
      CheckRowMeans(digests, manifest, records[i]);
      assert Map(QueryOf, records)[i] == records[i].cell.query;
    }
  }

  lemma {:induction false} ProductSize(layout: Layout, ids: seq<string>)
    requires IsLayout(layout)
    ensures |Cross(ids, Places(layout))| == |ids| * ROWS_PER_QUERY
  {
    PlacesAre(layout);
    CrossProperties(ids, Places(layout));
  }

  /** Rows without repetition, as many as the product has places, are the product. */
  lemma {:induction false} EnoughRowsAreTheProduct(digests: Digests, manifest: Manifest, records: seq<Record>,
                                                   ids: seq<string>)
    requires IsLayout(manifest.layout) && RowsHold(digests, manifest, records) && Distinct(Map(TrialIdOf, records))
    requires forall id :: id in Map(QueryOf, records) ==> id in ids
    requires |records| == |ids| * ROWS_PER_QUERY
    ensures IsFullProduct(manifest.layout, records, ids)
  {
    KeysAreInProduct(digests, manifest, records, ids);
    DistinctTrialsAreDistinctKeys(digests, manifest, records);
    ProductSize(manifest.layout, ids);
    Pigeonhole(Map(KeyOf, records), Cross(ids, Places(manifest.layout)));
  }

  lemma {:induction false} ProductHasEnoughRows(layout: Layout, records: seq<Record>, ids: seq<string>)
    requires IsLayout(layout) && IsFullProduct(layout, records, ids)
    ensures |records| == |ids| * ROWS_PER_QUERY
  {
    ProductSize(layout, ids);
    assert |multiset(Map(KeyOf, records))| == |Map(KeyOf, records)|;
    assert |multiset(Cross(ids, Places(layout)))| == |Cross(ids, Places(layout))|;
  }

  /** Main result, with no assumption on the digests of the manifest: accepted evidence is the full product of
      the queries it mentions exactly when the manifest counts those queries correctly. */
  lemma {:induction false} AcceptedIsFullIffCountIsRight(digests: Digests, manifest: Manifest, records: seq<Record>)
    requires IsRunManifest(manifest) && Accepts(digests, manifest, records)
    ensures IsFullProduct(manifest.layout, records, SortedQueryIds(records))
            <==> manifest.queryCount == |SortedQueryIds(records)|
  {
    var ids := SortedQueryIds(records);
    RunManifestRows(manifest);
    QueryIdsAreMentioned(records);
    if manifest.queryCount == |ids| {
      EnoughRowsAreTheProduct(digests, manifest, records, ids);
    }
    if IsFullProduct(manifest.layout, records, ids) {
      ProductHasEnoughRows(manifest.layout, records, ids);
    }
  }

  lemma {:induction false} RunManifestRows(manifest: Manifest)
    requires IsRunManifest(manifest)
    ensures IsLayout(manifest.layout) && manifest.rows == manifest.queryCount * ROWS_PER_QUERY
  {
    BaselineIsLayout(manifest.layout);
  }

  lemma {:induction false} QueryIdsAreMentioned(records: seq<Record>)
    ensures Distinct(SortedQueryIds(records))
    ensures forall id :: id in SortedQueryIds(records) <==> id in Map(QueryOf, records)
  {
    var ids := Dedup(Map(QueryOf, records));
    DedupIsDistinct(Map(QueryOf, records));
    InSort(StringLe, ids);
    DistinctMultiset(ids);
    DistinctMultiset(Sort(StringLe, ids));
  }

  /******* A manifest made for a list of queries *******/

  function NameOf(identity: Identity): string {
    identity.query
  }

  // The manifest counts and digests these queries.
  ghost predicate IsManifestFor(digests: Digests, manifest: Manifest, queries: seq<Identity>) {
    && IsRunManifest(manifest)
    && Distinct(Map(NameOf, queries))
    && manifest.queryCount == |queries|
    && manifest.queryIdsSha == digests.ids(Sort(StringLe, Map(NameOf, queries)))
    && manifest.identitiesSha == digests.identities(Sort(ByQuery, queries))
  }

  // Every cell of the product once, each row identified and about one of the queries.
  ghost predicate IsCompleteRun(digests: Digests, manifest: Manifest, records: seq<Record>, queries: seq<Identity>) {
    && (forall i :: 0 <= i < |records| ==> IsIdentified(digests, manifest, records[i])
                                           && IdentityOf(records[i]) in queries)
    && IsFullProduct(manifest.layout, records, Map(NameOf, queries))
  }

  ghost predicate AreInjective(digests: Digests) {
    Injective(digests.trial) && Injective(digests.ids) && Injective(digests.identities)
  }

  lemma {:induction false} ByQueryIsTotal()
    ensures TotalPreorder(ByQuery)
  {
    StringLeIsTotalOrder();
  }

  lemma {:induction false} NamedOnce(queries: seq<Identity>, a: Identity, b: Identity)
    requires Distinct(Map(NameOf, queries)) && a in queries && b in queries && a.query == b.query
    ensures a == b
  {
    var i :| 0 <= i < |queries| && queries[i] == a;
    var j :| 0 <= j < |queries| && queries[j] == b;
    assert Map(NameOf, queries)[i] == Map(NameOf, queries)[j];
  }

  lemma {:induction false} DistinctNamesAreAntisymmetric(queries: seq<Identity>)
    requires Distinct(Map(NameOf, queries))
    ensures AntisymmetricOn(ByQuery, queries) && Distinct(queries)
  {
    StringLeIsTotalOrder();
    forall a, b | a in queries && b in queries && ByQuery(a, b) && ByQuery(b, a) ensures a == b {
      NamedOnce(queries, a, b);
    }
    forall i, j | 0 <= i < j < |queries| ensures queries[i] != queries[j] {
      assert Map(NameOf, queries)[i] != Map(NameOf, queries)[j];
    }
  }

  /******* Accepted evidence is complete *******/

  lemma {:induction false} AcceptedIdentities(digests: Digests, manifest: Manifest, records: seq<Record>,
                                              queries: seq<Identity>)
    requires AreInjective(digests) && IsManifestFor(digests, manifest, queries) && Accepts(digests, manifest, records)
    ensures forall identity :: identity in Map(IdentityOf, records) <==> identity in queries
  {
    assert SortedIdentities(records) == Sort(ByQuery, queries);
    InSort(ByQuery, Dedup(Map(IdentityOf, records)));
    DedupIsDistinct(Map(IdentityOf, records));
    InSort(ByQuery, queries);
  }

  lemma {:induction false} AcceptedIsComplete(digests: Digests, manifest: Manifest, records: seq<Record>,
                                              queries: seq<Identity>)
    requires AreInjective(digests) && IsManifestFor(digests, manifest, queries) && Accepts(digests, manifest, records)
    ensures IsCompleteRun(digests, manifest, records, queries)
  {
    var names := Map(NameOf, queries);
    RunManifestRows(manifest);
    AcceptedIdentities(digests, manifest, records, queries);
    forall i | 0 <= i < |records|
      ensures IdentityOf(records[i]) in queries && Map(QueryOf, records)[i] in names
    {
      assert Map(IdentityOf, records)[i] in queries;
      var j :| 0 <= j < |queries| && queries[j] == IdentityOf(records[i]);
      assert names[j] == records[i].cell.query;
    }
    KeysAreInProduct(digests, manifest, records, names);
    EnoughRowsAreTheProduct(digests, manifest, records, names);
  }

  /******* Complete evidence is accepted *******/

  lemma {:induction false} CompleteRowsHold(digests: Digests, manifest: Manifest, records: seq<Record>,
                                            ids: seq<string>)
    requires IsLayout(manifest.layout) && IsFullProduct(manifest.layout, records, ids)
    requires forall i :: 0 <= i < |records| ==> IsIdentified(digests, manifest, records[i])
    ensures RowsHold(digests, manifest, records)
  {
    var keys := Map(KeyOf, records);
    forall i | 0 <= i < |records| ensures CheckRow(digests, manifest, records[i]) == None {
      assert keys[i] in multiset(keys);
      InCross(ids, Places(manifest.layout), records[i].cell.query, PlaceOf(records[i].cell));
      assert keys[i] == (records[i].cell.query, PlaceOf(records[i].cell));
      CheckRowMeans(digests, manifest, records[i]);
    }
  }

  lemma {:induction false} CompleteKeysAreDistinct(layout: Layout, records: seq<Record>, ids: seq<string>)
    requires IsLayout(layout) && Distinct(ids) && IsFullProduct(layout, records, ids)
    ensures Distinct(Map(KeyOf, records))
  {
    PlacesAre(layout);
    CrossProperties(ids, Places(layout));
    DistinctMultiset(Cross(ids, Places(layout)));
    DistinctMultiset(Map(KeyOf, records));
  }

  lemma {:induction false} RecordAt(layout: Layout, records: seq<Record>, ids: seq<string>, id: string, place: Place)
    returns (i: nat)
    requires IsLayout(layout) && IsFullProduct(layout, records, ids) && id in ids && place in Places(layout)
    ensures i < |records| && records[i].cell.query == id && PlaceOf(records[i].cell) == place
  {
    InCross(ids, Places(layout), id, place);
    assert (id, place) in multiset(Cross(ids, Places(layout)));
    assert (id, place) in multiset(Map(KeyOf, records));
    i :| i < |records| && Map(KeyOf, records)[i] == (id, place);
  }

  lemma {:induction false} EveryQueryHasARow(layout: Layout, records: seq<Record>, ids: seq<string>, id: string)
    returns (i: nat)
    requires IsLayout(layout) && IsFullProduct(layout, records, ids) && id in ids
    ensures i < |records| && records[i].cell.query == id
  {
    PlacesAre(layout);
    var place := Places(layout)[0];
    assert place in Places(layout);
    i := RecordAt(layout, records, ids, id, place);
  }

  lemma {:induction false} CompleteQueryIds(layout: Layout, records: seq<Record>, ids: seq<string>)
    requires IsLayout(layout) && Distinct(ids) && IsFullProduct(layout, records, ids)
    ensures SortedQueryIds(records) == Sort(StringLe, ids)
  {
    var mentioned := Map(QueryOf, records);
    DedupIsDistinct(mentioned);
    forall id ensures id in Dedup(mentioned) <==> id in ids {
      if id in ids {
        var i := EveryQueryHasARow(layout, records, ids, id);
        assert mentioned[i] == id;
      }
      if id in mentioned {
        var i :| 0 <= i < |records| && mentioned[i] == id;
        assert Map(KeyOf, records)[i] in multiset(Map(KeyOf, records));
        InCross(ids, Places(layout), id, PlaceOf(records[i].cell));
      }
    }
    DistinctSameElements(Dedup(mentioned), ids);
    StringLeIsTotalOrder();
    SortOfPermutation(StringLe, Dedup(mentioned), ids);
  }

  lemma {:induction false} CompleteIdentities(digests: Digests, manifest: Manifest, records: seq<Record>,
                                              queries: seq<Identity>)
    requires IsLayout(manifest.layout) && Distinct(Map(NameOf, queries))
    requires IsCompleteRun(digests, manifest, records, queries)
    ensures SortedIdentities(records) == Sort(ByQuery, queries)
    ensures StableIdentities(records)
  {
    var found := Map(IdentityOf, records);
    DedupIsDistinct(found);
    DistinctNamesAreAntisymmetric(queries);
    forall identity ensures identity in Dedup(found) <==> identity in queries {
      if identity in queries {
        var j :| 0 <= j < |queries| && queries[j] == identity;
        assert Map(NameOf, queries)[j] == identity.query;
        var i := EveryQueryHasARow(manifest.layout, records, Map(NameOf, queries), identity.query);
        NamedOnce(queries, identity, IdentityOf(records[i]));
        assert found[i] == identity;
      }
    }
    DistinctSameElements(Dedup(found), queries);
    ByQueryIsTotal();
    SortOfPermutation(ByQuery, queries, Dedup(found));
    forall i, j | 0 <= i < |records| && 0 <= j < |records| && records[i].cell.query == records[j].cell.query
      ensures records[i].facts == records[j].facts
    {
      NamedOnce(queries, IdentityOf(records[i]), IdentityOf(records[j]));
    }
  }

  /******* Counting the rows and groups of a complete run *******/

  const PHASES: seq<Phase> := [Cold, Warmup, Measured]

  function IsQuery(id: string): string -> bool { (other: string) => other == id }

  function IsSetting(setting: (Method, nat)): ((Method, nat)) -> bool { (other: (Method, nat)) => other == setting }

  function HasPhase(phase: Phase): ((Phase, nat)) -> bool { (trial: (Phase, nat)) => trial.0 == phase }

  function PlaceInGroup(setting: (Method, nat), phase: Phase): Place -> bool {
    (place: Place) => place.0 == setting && place.1.0 == phase
  }

  function KeyInGroup(group: Group): ((string, Place)) -> bool {
    (key: (string, Place)) => key.0 == group.0 && key.1.0 == group.1.0 && key.1.1.0 == group.1.1
  }

  lemma {:induction false} PhaseOfTrials(of: Phase, phase: Phase)
    ensures CountIf(HasPhase(phase), TrialsOf(of)) == if of == phase then Runs(phase) else 0
  {
    TrialsOfAre(of);
    forall trial | trial in TrialsOf(of) ensures trial.0 == of {
      assert (trial.0, trial.1) in TrialsOf(of);
    }
    if of == phase {
      CountIfAll(HasPhase(phase), TrialsOf(of));
    } else {
      CountIfNone(HasPhase(phase), TrialsOf(of));
    }
  }

  lemma {:induction false} PhaseOfBaseline(phase: Phase, cold: seq<(Phase, nat)>, warmup: seq<(Phase, nat)>,
                                           measured: seq<(Phase, nat)>)
    requires cold == TrialsOf(Cold) && warmup == TrialsOf(Warmup) && measured == TrialsOf(Measured)
    ensures CountIf(HasPhase(phase), cold + warmup + measured) == Runs(phase)
  {
    PhaseOfTrials(Cold, phase);
    PhaseOfTrials(Warmup, phase);
    PhaseOfTrials(Measured, phase);
    CountIfAppend(HasPhase(phase), cold, warmup);
    CountIfAppend(HasPhase(phase), cold + warmup, measured);
    match phase { case Cold => case Warmup => case Measured => }
  }

  // Distinct methods and budgets, and as many trials of each phase as the protocol has.
  ghost predicate HasProtocolTrials(layout: Layout) {
    && Distinct(layout.methods) && Distinct(layout.budgets)
    && forall phase :: CountIf(HasPhase(phase), layout.trials) == Runs(phase)
  }

  lemma {:induction false} BaselineHasProtocolTrials(layout: Layout)
    requires layout == Baseline()
    ensures HasProtocolTrials(layout)
  {
    BaselineIsLayout(layout);
    forall phase ensures CountIf(HasPhase(phase), layout.trials) == Runs(phase) {
      PhaseOfBaseline(phase, TrialsOf(Cold), TrialsOf(Warmup), TrialsOf(Measured));
    }
  }

  lemma {:induction false} PlacesOfGroup(layout: Layout, setting: (Method, nat), phase: Phase)
    requires HasProtocolTrials(layout) && setting in Settings(layout)
    ensures CountIf(PlaceInGroup(setting, phase), Places(layout)) == Runs(phase)
  {
    CrossProperties(layout.methods, layout.budgets);
    CountIfUnique(IsSetting(setting), Settings(layout), setting);
    CountIfCross(PlaceInGroup(setting, phase), IsSetting(setting), HasPhase(phase), Settings(layout), layout.trials);
  }

  lemma {:induction false} RowsOfGroup(layout: Layout, records: seq<Record>, ids: seq<string>, group: Group)
    requires HasProtocolTrials(layout) && Distinct(ids) && IsFullProduct(layout, records, ids)
    requires group.0 in ids && group.1.0 in Settings(layout)
    ensures CountIf(InGroup(group), records) == Runs(group.1.1)
  {
    CountIfMap(KeyInGroup(group), InGroup(group), KeyOf, records);
    CountIfPermutation(KeyInGroup(group), Map(KeyOf, records), Cross(ids, Places(layout)));
    KeysOfGroup(layout, ids, group);
  }

  lemma {:induction false} KeysOfGroup(layout: Layout, ids: seq<string>, group: Group)
    requires HasProtocolTrials(layout) && Distinct(ids) && group.0 in ids && group.1.0 in Settings(layout)
    ensures CountIf(KeyInGroup(group), Cross(ids, Places(layout))) == Runs(group.1.1)
  {
    CountIfUnique(IsQuery(group.0), ids, group.0);
    PlacesOfGroup(layout, group.1.0, group.1.1);
    CountIfCross(KeyInGroup(group), IsQuery(group.0), PlaceInGroup(group.1.0, group.1.1), ids, Places(layout));
  }

  function Groups(layout: Layout, ids: seq<string>): seq<Group> {
    Cross(ids, Cross(Settings(layout), PHASES))
  }

  lemma {:induction false} PhasesAre(phases: seq<Phase>)
    requires phases == [Cold, Warmup, Measured]
    ensures |phases| == 3 && Distinct(phases)
    ensures forall phase: Phase :: phase in phases
  {
    forall phase: Phase ensures phase in phases {
      match phase {
        case Cold => assert phases[0] == phase;
        case Warmup => assert phases[1] == phase;
        case Measured => assert phases[2] == phase;
      }
    }
  }

  lemma {:induction false} GroupsAre(layout: Layout, ids: seq<string>)
    requires IsLayout(layout) && Distinct(ids)
    ensures |Groups(layout, ids)| == |ids| * GROUPS_PER_QUERY && Distinct(Groups(layout, ids))
    ensures forall group: Group :: group in Groups(layout, ids) <==> group.0 in ids && group.1.0 in Settings(layout)
  {
    PhasesAre(PHASES);
    CrossProperties(layout.methods, layout.budgets);
    CrossProperties(Settings(layout), PHASES);
    CrossProperties(ids, Cross(Settings(layout), PHASES));
    forall group: Group
      ensures group in Groups(layout, ids) <==> group.0 in ids && group.1.0 in Settings(layout)
    {
      assert group == (group.0, group.1) && group.1 == (group.1.0, group.1.1);
      InCross(Settings(layout), PHASES, group.1.0, group.1.1);
      InCross(ids, Cross(Settings(layout), PHASES), group.0, group.1);
    }
  }

  lemma {:induction false} RowIsInGroups(layout: Layout, records: seq<Record>, ids: seq<string>, i: nat)
    requires IsLayout(layout) && IsFullProduct(layout, records, ids) && i < |records|
    ensures GroupOf(records[i]).0 in ids && GroupOf(records[i]).1.0 in Settings(layout)
  {
    var key := Map(KeyOf, records)[i];
    assert key in multiset(Map(KeyOf, records));
    InCross(ids, Places(layout), key.0, key.1);
    InCross(Settings(layout), layout.trials, key.1.0, key.1.1);
    assert key.1 == (key.1.0, key.1.1);
  }

  lemma {:induction false} GroupHasARow(layout: Layout, records: seq<Record>, ids: seq<string>, group: Group)
    returns (i: nat)
    requires IsLayout(layout) && IsFullProduct(layout, records, ids)
    requires group.0 in ids && group.1.0 in Settings(layout)
    ensures i < |records| && GroupOf(records[i]) == group
  {
    var place := (group.1.0, (group.1.1, 0));
    assert (group.1.1, 0) in layout.trials;
    InCross(Settings(layout), layout.trials, group.1.0, (group.1.1, 0));
    i := RecordAt(layout, records, ids, group.0, place);
  }

  lemma {:induction false} CompleteGroups(layout: Layout, records: seq<Record>, ids: seq<string>)
    requires IsLayout(layout) && Distinct(ids) && IsFullProduct(layout, records, ids)
    ensures |Dedup(Map(GroupOf, records))| == |ids| * GROUPS_PER_QUERY
  {
    var found := Map(GroupOf, records);
    GroupsAre(layout, ids);
    DedupIsDistinct(found);
    forall group: Group | group in Groups(layout, ids) ensures group in Dedup(found) {
      var i := GroupHasARow(layout, records, ids, group);
      assert found[i] == group;
    }
    forall group: Group | group in Dedup(found) ensures group in Groups(layout, ids) {
      InDedup(found, group);
      var i :| 0 <= i < |found| && found[i] == group;
      RowIsInGroups(layout, records, ids, i);
    }
    DistinctSameElements(Dedup(found), Groups(layout, ids));
  }

  lemma {:induction false} CompletePhaseCounts(layout: Layout, records: seq<Record>, ids: seq<string>)
    requires layout == Baseline() && Distinct(ids) && IsFullProduct(layout, records, ids)
    ensures PhaseCountsHold(records)
  {
    BaselineIsLayout(layout);
    BaselineHasProtocolTrials(layout);
    forall group: Group | group in Map(GroupOf, records)
      ensures CountIf(InGroup(group), records) == Runs(group.1.1)
    {
      FoundGroup(layout, records, ids, group);
      RowsOfGroup(layout, records, ids, group);
    }
  }

  lemma {:induction false} FoundGroup(layout: Layout, records: seq<Record>, ids: seq<string>, group: Group)
    requires IsLayout(layout) && IsFullProduct(layout, records, ids) && group in Map(GroupOf, records)
    ensures group.0 in ids && group.1.0 in Settings(layout)
  {
    var i :| 0 <= i < |records| && Map(GroupOf, records)[i] == group;
    RowIsInGroups(layout, records, ids, i);
  }

  lemma {:induction false} CompleteIsAccepted(digests: Digests, manifest: Manifest, records: seq<Record>,
                                              queries: seq<Identity>)
    requires AreInjective(digests) && IsManifestFor(digests, manifest, queries) && Without(NUL, manifest.runId)
    requires IsCompleteRun(digests, manifest, records, queries)
    ensures Accepts(digests, manifest, records)
  {
    var ids := Map(NameOf, queries);
    RunManifestRows(manifest);
    ProductHasEnoughRows(manifest.layout, records, ids);
    CompleteKeysAreDistinct(manifest.layout, records, ids);
    DistinctKeysAreDistinctTrials(digests, manifest, records);
    CompleteRowsHold(digests, manifest, records, ids);
    CompleteQueryIds(manifest.layout, records, ids);
    CompleteIdentities(digests, manifest, records, queries);
    CompletePhaseCounts(manifest.layout, records, ids);
    CompleteGroups(manifest.layout, records, ids);
  }

  /** Main result: with a manifest made for these queries, the check accepts exactly the complete runs. */
  lemma {:induction false} AcceptedIffComplete(digests: Digests, manifest: Manifest, records: seq<Record>,
                                               queries: seq<Identity>)
    requires AreInjective(digests) && IsManifestFor(digests, manifest, queries) && Without(NUL, manifest.runId)
    ensures Accepts(digests, manifest, records) <==> IsCompleteRun(digests, manifest, records, queries)
  {
    if Accepts(digests, manifest, records) {
      AcceptedIsComplete(digests, manifest, records, queries);
    }
    if IsCompleteRun(digests, manifest, records, queries) {
      CompleteIsAccepted(digests, manifest, records, queries);
    }
  }

  /******* The check itself *******/

  // What the loop that fills identities_by_query keeps, after `n` rows.
  ghost predicate IdentitiesRead(records: seq<Record>, n: nat, byQuery: map<string, Identity>, order: seq<Identity>)
    requires n <= |records|
  {
    && (forall id :: id in byQuery <==> id in Map(QueryOf, records[..n]))
    && (forall i :: 0 <= i < n ==> records[i].cell.query in byQuery
                                   && byQuery[records[i].cell.query] == IdentityOf(records[i]))
    && order == Dedup(Map(IdentityOf, records[..n]))
  }

  // One row more: its query and identity come last in what has been read.
  lemma {:induction false} OneRowMore(records: seq<Record>, n: nat)
    requires n < |records|
    ensures Map(QueryOf, records[..n + 1]) == Map(QueryOf, records[..n]) + [records[n].cell.query]
    ensures Map(IdentityOf, records[..n + 1]) == Map(IdentityOf, records[..n]) + [IdentityOf(records[n])]
    ensures Dedup(Map(IdentityOf, records[..n + 1]))
            == if IdentityOf(records[n]) in Map(IdentityOf, records[..n]) then Dedup(Map(IdentityOf, records[..n]))
               else Dedup(Map(IdentityOf, records[..n])) + [IdentityOf(records[n])]
  {
    assert records[..n + 1] == records[..n] + [records[n]];
    var before, after := Map(IdentityOf, records[..n]), Map(IdentityOf, records[..n + 1]);
    assert after == before + [IdentityOf(records[n])] && after[..n] == before;
  }

  // The identity of the row's query is known or the row brings it.
  lemma {:induction false} IdentityIsReadIff(records: seq<Record>, n: nat, byQuery: map<string, Identity>,
                                             order: seq<Identity>)
    requires n < |records| && IdentitiesRead(records, n, byQuery, order)
    ensures var id, identity := records[n].cell.query, IdentityOf(records[n]);
            identity in Map(IdentityOf, records[..n]) <==> id in byQuery && byQuery[id] == identity
    ensures var id := records[n].cell.query;
            id in byQuery ==> exists i :: 0 <= i < n && records[i].cell.query == id
                                          && byQuery[id] == IdentityOf(records[i])
  {
    var id, identity := records[n].cell.query, IdentityOf(records[n]);
    var ids, before := Map(QueryOf, records[..n]), Map(IdentityOf, records[..n]);
    if id in byQuery {
      var i :| 0 <= i < n && ids[i] == id;
      assert records[i].cell.query == id && byQuery[id] == IdentityOf(records[i])
             && before[i] == IdentityOf(records[i]);
    }
    if identity in before {
      var i :| 0 <= i < n && before[i] == identity;
      assert records[i].cell.query == id;
    }
  }

  lemma {:induction false} IdentitiesReadNext(records: seq<Record>, n: nat, byQuery: map<string, Identity>,
                                              order: seq<Identity>)
    requires n < |records| && IdentitiesRead(records, n, byQuery, order)
    requires var id := records[n].cell.query; id in byQuery ==> byQuery[id] == IdentityOf(records[n])
    ensures var id, identity := records[n].cell.query, IdentityOf(records[n]);
            IdentitiesRead(records, n + 1, byQuery[id := identity], if id in byQuery then order else order + [identity])
  {
    OneRowMore(records, n);
    IdentityIsReadIff(records, n, byQuery, order);
  }

  lemma {:induction false} IdentityChanges(records: seq<Record>, n: nat, byQuery: map<string, Identity>,
                                           order: seq<Identity>)
    requires n < |records| && IdentitiesRead(records, n, byQuery, order)
    requires var id := records[n].cell.query; id in byQuery && byQuery[id] != IdentityOf(records[n])
    ensures !StableIdentities(records)
  {
    IdentityIsReadIff(records, n, byQuery, order);
  }

  lemma {:induction false} AllIdentitiesRead(records: seq<Record>, byQuery: map<string, Identity>, order: seq<Identity>)
    requires IdentitiesRead(records, |records|, byQuery, order)
    ensures StableIdentities(records) && order == Dedup(Map(IdentityOf, records))
  {
    assert records[..|records|] == records;
    forall i, j | 0 <= i < |records| && 0 <= j < |records| && records[i].cell.query == records[j].cell.query
      ensures records[i].facts == records[j].facts
    {
      assert byQuery[records[i].cell.query] == IdentityOf(records[i]);
    }
  }

  /** Reading the identities succeeds exactly when they do not change between trials. */
  method ReadIdentities(records: seq<Record>) returns (identities: Option<seq<Identity>>)
    ensures identities == if StableIdentities(records) then Some(Dedup(Map(IdentityOf, records))) else None
  {
    var byQuery: map<string, Identity> := map[];
    var order: seq<Identity> := [];
    var n: nat := 0;
    while n < |records|
      invariant n <= |records| && IdentitiesRead(records, n, byQuery, order)
    {
      var id, identity := records[n].cell.query, IdentityOf(records[n]);
      if id in byQuery {
        if byQuery[id] != identity {
          IdentityChanges(records, n, byQuery, order);
          return None;
        }
        IdentitiesReadNext(records, n, byQuery, order);
        assert byQuery[id := identity] == byQuery;
      } else {
        IdentitiesReadNext(records, n, byQuery, order);
        byQuery := byQuery[id := identity];
        order := order + [identity];
      }
      n := n + 1;
    }
    AllIdentitiesRead(records, byQuery, order);
    identities := Some(order);
  }

  // The table of counts after `n` rows.
  ghost predicate CountsRead(records: seq<Record>, n: nat, counts: map<Group, nat>, order: seq<Group>)
    requires n <= |records|
  {
    && (forall group :: group in counts <==> group in Map(GroupOf, records[..n]))
    && (forall group :: group in counts ==> counts[group] == CountIf(InGroup(group), records[..n]))
    && order == Dedup(Map(GroupOf, records[..n]))
  }

  lemma {:induction false} CountsReadNext(records: seq<Record>, n: nat, counts: map<Group, nat>, order: seq<Group>)
    requires n < |records| && CountsRead(records, n, counts, order)
    ensures var group := GroupOf(records[n]);
            CountsRead(records, n + 1, counts[group := (if group in counts then counts[group] else 0) + 1],
                       if group in counts then order else order + [group])
  {
    var group := GroupOf(records[n]);
    assert records[..n + 1] == records[..n] + [records[n]];
    assert Map(GroupOf, records[..n + 1]) == Map(GroupOf, records[..n]) + [group];
    assert Map(GroupOf, records[..n + 1])[..n] == Map(GroupOf, records[..n]);
    forall other: Group ensures CountIf(InGroup(other), records[..n + 1])
      == CountIf(InGroup(other), records[..n]) + if other == group then 1 else 0
    {
      CountIfAppend(InGroup(other), records[..n], [records[n]]);
    }
    if group !in counts {
      NoneInGroup(records[..n], group);
    }
  }

  lemma {:induction false} CountedTwice(counts: map<Group, nat>, group: Group, first: nat, second: nat)
    ensures counts[group := first][group := second] == counts[group := second]
  {
  }

  lemma {:induction false} NoneInGroup(records: seq<Record>, group: Group)
    requires group !in Map(GroupOf, records)
    ensures CountIf(InGroup(group), records) == 0
  {
    forall record | record in records ensures !InGroup(group)(record) {
      var i :| 0 <= i < |records| && records[i] == record;
      assert Map(GroupOf, records)[i] == GroupOf(record);
    }
    CountIfNone(InGroup(group), records);
  }

  method CountGroups(records: seq<Record>) returns (counts: map<Group, nat>, order: seq<Group>)
    ensures CountsRead(records, |records|, counts, order)
  {
    counts, order := map[], [];
    var n: nat := 0;
    while n < |records|
      invariant n <= |records| && CountsRead(records, n, counts, order)
    {
      var group := GroupOf(records[n]);
      CountsReadNext(records, n, counts, order);
      if group !in counts {
        CountedTwice(counts, group, 0, 1);
        order := order + [group];
        counts := counts[group := 0];
      }
      counts := counts[group := counts[group] + 1];
      n := n + 1;
    }
  }

  method CheckPhaseCounts(records: seq<Record>, counts: map<Group, nat>, order: seq<Group>) returns (hold: bool)
    requires CountsRead(records, |records|, counts, order)
    ensures hold <==> PhaseCountsHold(records)
  {
    assert records[..|records|] == records;
    DedupIsDistinct(Map(GroupOf, records));
    for k := 0 to |order|
      invariant forall j :: 0 <= j < k ==> CountIf(InGroup(order[j]), records) == Runs(order[j].1.1)
    {
      assert order[k] in counts;
      if counts[order[k]] != Runs(order[k].1.1) {
        return false;
      }
    }
    forall group: Group | group in Map(GroupOf, records) ensures CountIf(InGroup(group), records) == Runs(group.1.1) {
      assert group in order;
    }
    hold := true;
  }

  // A set is as large as the list exactly when the list repeats nothing.
  lemma {:induction false} DedupSize<T>(s: seq<T>)
    ensures |Dedup(s)| <= |s|
    ensures |Dedup(s)| == |s| <==> Distinct(s)
  {
    DedupIsDistinct(s);
    forall x | x in Dedup(s) ensures x in s {
      InDedup(s, x);
    }
    DistinctIsSmall(Dedup(s), s);
    if Distinct(s) {
      DistinctSameElements(Dedup(s), s);
    } else if |Dedup(s)| == |s| {
      Pigeonhole(Dedup(s), s);
      DistinctMultiset(Dedup(s));
      DistinctMultiset(s);
    }
  }

  lemma {:induction false} DistinctIsSmall<T>(a: seq<T>, b: seq<T>)
    requires Distinct(a) && forall x :: x in a ==> x in b
    ensures |a| <= |b|
  {
    if |a| > |b| {
      Pigeonhole(a, b);
    }
  }

  // The complaint about the first row that has one.
  function RowComplaint(digests: Digests, manifest: Manifest, records: seq<Record>): Option<MatrixError> {
    if records == [] then None
    else if CheckRow(digests, manifest, records[0]) != None then CheckRow(digests, manifest, records[0])
    else RowComplaint(digests, manifest, records[1..])
  }

  // The first requirement on the whole of the evidence that does not hold, in the order of the tests.
  ghost function ContentComplaint(digests: Digests, manifest: Manifest, records: seq<Record>): Option<MatrixError> {
    if digests.ids(SortedQueryIds(records)) != manifest.queryIdsSha then Some(WrongQueryIds)
    else if !StableIdentities(records) then Some(ChangingIdentity)
    else if digests.identities(SortedIdentities(records)) != manifest.identitiesSha then Some(WrongIdentities)
    else if !PhaseCountsHold(records) then Some(WrongPhaseCount)
    else if |Dedup(Map(GroupOf, records))| != manifest.queryCount * GROUPS_PER_QUERY then Some(MissingGroups)
    else None
  }

  ghost function Complaint(digests: Digests, manifest: Manifest, records: seq<Record>): Option<MatrixError> {
    if |records| != manifest.rows then Some(Incomplete)
    else if !Distinct(Map(TrialIdOf, records)) then Some(DuplicateTrials)
    else if RowComplaint(digests, manifest, records) != None then RowComplaint(digests, manifest, records)
    else ContentComplaint(digests, manifest, records)
  }

  lemma {:induction false} NoRowComplaint(digests: Digests, manifest: Manifest, records: seq<Record>)
    ensures RowComplaint(digests, manifest, records) == None <==> RowsHold(digests, manifest, records)
    decreases |records|
  {
    if records != [] {
      NoRowComplaint(digests, manifest, records[1..]);
      assert forall i :: 0 < i < |records| ==> records[i] == records[1..][i - 1];
    }
  }

  /** There is nothing to complain about exactly in the evidence that is accepted. */
  lemma {:induction false} AcceptsIffNoComplaint(digests: Digests, manifest: Manifest, records: seq<Record>)
    ensures Complaint(digests, manifest, records) == None <==> Accepts(digests, manifest, records)
  {
    NoRowComplaint(digests, manifest, records);
  }

  method FirstRowError(digests: Digests, manifest: Manifest, records: seq<Record>) returns (error: Option<MatrixError>)
    ensures error == RowComplaint(digests, manifest, records)
  {
    assert records[0..] == records;
    for i := 0 to |records|
      invariant RowComplaint(digests, manifest, records) == RowComplaint(digests, manifest, records[i..])
    {
      assert records[i..][1..] == records[i + 1..];
      error := CheckRow(digests, manifest, records[i]);
      if error != None {
        return;
      }
    }
    error := None;
  }

  /** The check, with its first complaint; it has none exactly about the evidence that is accepted, and with a manifest
      made for a list of queries, AcceptedIffComplete says which evidence that is. */
  method ValidateRawMatrix(digests: Digests, manifest: Manifest, records: seq<Record>)
    returns (error: Option<MatrixError>)
    requires manifest.layout == Baseline()
    ensures error == Complaint(digests, manifest, records)
    ensures error == None <==> Accepts(digests, manifest, records)
  {
    AcceptsIffNoComplaint(digests, manifest, records);
    if |records| != manifest.rows {
      return Some(Incomplete);
    }
    DedupSize(Map(TrialIdOf, records));
    if |Dedup(Map(TrialIdOf, records))| != |records| {
      return Some(DuplicateTrials);
    }
    error := FirstRowError(digests, manifest, records);
    if error != None {
      return;
    }
    error := ContentError(digests, manifest, records);
  }

  // The tests after those of the single rows.
  method ContentError(digests: Digests, manifest: Manifest, records: seq<Record>) returns (error: Option<MatrixError>)
    requires manifest.layout == Baseline()
    ensures error == ContentComplaint(digests, manifest, records)
  {
    if digests.ids(SortedQueryIds(records)) != manifest.queryIdsSha {
      return Some(WrongQueryIds);
    }
    var identities := ReadIdentities(records);
    if identities == None {
      return Some(ChangingIdentity);
    }
    if digests.identities(Sort(ByQuery, identities.value)) != manifest.identitiesSha {
      return Some(WrongIdentities);
    }
    error := CountError(manifest, records);
  }

  // The tests on the numbers of rows in each group, and of groups.
  method CountError(manifest: Manifest, records: seq<Record>) returns (error: Option<MatrixError>)
    requires manifest.layout == Baseline()
    ensures error == if !PhaseCountsHold(records) then Some(WrongPhaseCount)
                     else if |Dedup(Map(GroupOf, records))| != manifest.queryCount * GROUPS_PER_QUERY
                         then Some(MissingGroups)
                     else None
  {
    var counts, order := CountGroups(records);
    var hold := CheckPhaseCounts(records, counts, order);
    if !hold {
      return Some(WrongPhaseCount);
    }
    assert records[..|records|] == records;
    GroupTotal(manifest);
    if |order| != manifest.queryCount * |manifest.layout.methods| * |manifest.layout.budgets| * |PHASES| {
      return Some(MissingGroups);
    }
    error := None;
  }

  lemma {:induction false} GroupTotal(manifest: Manifest)
    requires manifest.layout == Baseline()
    ensures manifest.queryCount * |manifest.layout.methods| * |manifest.layout.budgets| * |PHASES|
            == manifest.queryCount * GROUPS_PER_QUERY
  {
    BaselineIsLayout(manifest.layout);
  }
}
