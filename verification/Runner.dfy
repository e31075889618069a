/** The benchmark runner's plan, and why the log of a finished run passes the raw-matrix check. */
module Runner {
  import opened Wrappers
  import opened Counting
  import opened Text
  import opened TrialIdentity
  import opened Schedule
  import Matrix = RawMatrix
  import Log = EvidenceLog

  type MethodSetting = Setting<Method>

  // What a trial ID digests.
  function Identify(digests: Matrix.Digests, runId: string): Cell -> nat {
    (cell: Cell) => digests.trial(Payload(runId, cell))
  }

  function SetupOf(digests: Matrix.Digests, manifest: Matrix.Manifest, cases: seq<Matrix.Identity>,
                   shuffle: Shuffle<Method>): Setup<Method> {
    Setup(Identify(digests, manifest.runId), Grid(manifest.layout.methods, manifest.layout.budgets,
                                                  manifest.layout.trials), cases, shuffle)
  }

  function PlanOf(digests: Matrix.Digests, manifest: Matrix.Manifest, cases: seq<Matrix.Identity>,
                  shuffle: Shuffle<Method>): Log.Plan<MethodSetting> {
    var setup := SetupOf(digests, manifest, cases, shuffle);
    Log.Plan(manifest.runId, manifest.versions, ScheduleOf(setup, Blocks(setup.grid)), manifest.rows)
  }

  // The cases are those of the manifest, and the digests tell different inputs apart.
  ghost predicate AreCases(digests: Matrix.Digests, manifest: Matrix.Manifest, cases: seq<Matrix.Identity>,
                           shuffle: Shuffle<Method>) {
    && Matrix.AreInjective(digests) && IsShuffle(shuffle)
    && Matrix.IsManifestFor(digests, manifest, cases) && Without(NUL, manifest.runId)
  }

  lemma {:induction false} SetupIsSound(digests: Matrix.Digests, manifest: Matrix.Manifest, cases: seq<Matrix.Identity>,
                                        shuffle: Shuffle<Method>)
    requires AreCases(digests, manifest, cases, shuffle)
    ensures IsSound(SetupOf(digests, manifest, cases, shuffle))
  {
    Matrix.RunManifestRows(manifest);
    var identify := Identify(digests, manifest.runId);
    forall a: Cell, b: Cell | identify(a) == identify(b) ensures a == b {
      PayloadInjective(manifest.runId, a, manifest.runId, b);
    }
  }

  /** The runner's plan is one that the evidence log can rely on: it has as many trials as the manifest expects rows,
      and no two trials share an ID. */
  lemma {:induction false} PlanIsValid(digests: Matrix.Digests, manifest: Matrix.Manifest, cases: seq<Matrix.Identity>,
                                       shuffle: Shuffle<Method>)
    requires AreCases(digests, manifest, cases, shuffle)
    ensures PlanOf(digests, manifest, cases, shuffle).Valid()
  {
    SetupIsSound(digests, manifest, cases, shuffle);
    ScheduleIsSound(SetupOf(digests, manifest, cases, shuffle));
  }

  function RecordOf(row: Log.Row<MethodSetting>): Matrix.Record {
    Matrix.Record(row.trialId, row.runId, row.versions, row.setting.0, row.setting.1)
  }

  lemma {:induction false} CompleteLogIsCompleteRun(digests: Matrix.Digests, manifest: Matrix.Manifest,
                                                    cases: seq<Matrix.Identity>, shuffle: Shuffle<Method>,
                                                    rows: seq<Log.Row<MethodSetting>>)
    requires AreCases(digests, manifest, cases, shuffle)
             && Log.IsComplete(PlanOf(digests, manifest, cases, shuffle), rows)
    ensures Matrix.IsCompleteRun(digests, manifest, Map(RecordOf, rows), cases)
  {
    var setup, plan := SetupOf(digests, manifest, cases, shuffle), PlanOf(digests, manifest, cases, shuffle);
    var records := Map(RecordOf, rows);
    SetupIsSound(digests, manifest, cases, shuffle);
    forall i | 0 <= i < |records|
      ensures Matrix.IsIdentified(digests, manifest, records[i]) && Matrix.IdentityOf(records[i]) in cases
    {
      assert rows[i] in rows;
      KeyOfScheduled(setup, Log.TrialOf(rows[i]));
    }
    CompleteLogIsProduct(digests, manifest, cases, shuffle, rows);
  }

  lemma {:induction false} CompleteLogIsProduct(digests: Matrix.Digests, manifest: Matrix.Manifest,
                                                cases: seq<Matrix.Identity>, shuffle: Shuffle<Method>,
                                                rows: seq<Log.Row<MethodSetting>>)
    requires IsSound(SetupOf(digests, manifest, cases, shuffle))
             && Log.IsComplete(PlanOf(digests, manifest, cases, shuffle), rows)
    ensures Matrix.IsFullProduct(manifest.layout, Map(RecordOf, rows), Map(Matrix.NameOf, cases))
  {
    var setup, plan := SetupOf(digests, manifest, cases, shuffle), PlanOf(digests, manifest, cases, shuffle);
    MapPermutation(KeyOfTrial<Method>, Map(Log.TrialOf<MethodSetting>, rows), plan.schedule);
    assert Map(Matrix.KeyOf, Map(RecordOf, rows)) == Map(KeyOfTrial<Method>, Map(Log.TrialOf<MethodSetting>, rows));
    ScheduleIsProduct(setup);
    assert PlacesOf(setup.grid) == Matrix.Places(manifest.layout);
  }

  /** Main result, from the schedule to the check: after any history of interrupted and resumed runs, a log that loads
      passes the raw-matrix check exactly when it has the expected number of rows. */
  lemma {:induction false} FinishedLogsAreAccepted(digests: Matrix.Digests, manifest: Matrix.Manifest,
                                                   cases: seq<Matrix.Identity>, shuffle: Shuffle<Method>,
                                                   codec: Log.Codec<MethodSetting>, runs: seq<seq<Log.Event>>)
    returns (rows: seq<Log.Row<MethodSetting>>, torn: string)
    requires AreCases(digests, manifest, cases, shuffle) && codec.Valid()
    ensures var text := Log.LogAfter(PlanOf(digests, manifest, cases, shuffle), codec, runs);
            Log.Load(codec, text) == if torn == "" then Ok(rows) else Err(Log.Truncated)
    ensures Log.AllObserved(PlanOf(digests, manifest, cases, shuffle), codec, runs, rows, torn)
    ensures torn == "" ==> (|rows| == manifest.rows <==> Matrix.Accepts(digests, manifest, Map(RecordOf, rows)))
  {
    var plan := PlanOf(digests, manifest, cases, shuffle);
    PlanIsValid(digests, manifest, cases, shuffle);
    rows, torn := Log.EveryLogIsAPrefix(plan, codec, runs);
    var text := Log.LogAfter(plan, codec, runs);
    if torn == "" && |rows| == manifest.rows {
      Log.PrefixLogLoads(plan, codec, text, rows, torn);
      Log.CompleteIffExpectedRows(plan, codec, text);
      CompleteLogIsCompleteRun(digests, manifest, cases, shuffle, rows);
      Matrix.CompleteIsAccepted(digests, manifest, Map(RecordOf, rows), cases);
    }
  }
}
