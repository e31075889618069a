/** The profiler's plan, which tries every plan of the catalog instead of every method. */
module Profiler {
  import opened Wrappers
  import opened Ordering
  import opened Counting
  import opened Text
  import opened TrialIdentity
  import opened Schedule
  import Matrix = RawMatrix
  import Log = EvidenceLog

  type PlanSetting = Setting<string>

  // The protocol's plan IDs and budgets; the trials are those of the frozen protocol. `versions` stands for the
  // version fields.
  datatype Protocol = Protocol(runId: string, versions: string, planIds: seq<string>, budgets: seq<nat>, rows: nat)

  // A plan ID is a P followed by a number.
  ghost predicate IsPlanId(id: string) {
    id != "" && id[0] == 'P' && AllDigits(id[1..])
  }

  function SetupOf(digest: string -> nat, protocol: Protocol, cases: seq<Matrix.Identity>,
                   shuffle: Shuffle<string>): Setup<string> {
    Setup((slot: Slot<string>) => digest(ProfilePayload(protocol.runId, slot)),
          Grid(protocol.planIds, protocol.budgets, Matrix.Baseline().trials), cases, shuffle)
  }

  function PlanOf(digest: string -> nat, protocol: Protocol, cases: seq<Matrix.Identity>,
                  shuffle: Shuffle<string>): Log.Plan<PlanSetting> {
    var setup := SetupOf(digest, protocol, cases, shuffle);
    Log.Plan(protocol.runId, protocol.versions, ScheduleOf(setup, Blocks(setup.grid)), protocol.rows)
  }

  // The validators of the protocol and the manifest, and of the cases.
  ghost predicate AreCases(digest: string -> nat, protocol: Protocol, cases: seq<Matrix.Identity>,
                           shuffle: Shuffle<string>) {
    && Matrix.Injective(digest) && IsShuffle(shuffle) && Without(NUL, protocol.runId)
    && Distinct(protocol.planIds) && Distinct(protocol.budgets)
        && (forall id :: id in protocol.planIds ==> IsPlanId(id))
    && Distinct(Map(Matrix.NameOf, cases))
    && protocol.rows == |cases| * |protocol.planIds| * |protocol.budgets| * |Matrix.Baseline().trials|
  }

  lemma {:induction false} PlanIdHasNoNul(id: string)
    requires IsPlanId(id)
    ensures Without(NUL, id)
  {
    assert forall i :: 0 <= i < |id| ==> id[i] == if i == 0 then 'P' else id[1..][i - 1];
  }

  /** The profiler's plan is one that the evidence log can rely on as well, so what is proved of the log holds of
      its runs. */
  lemma {:induction false} PlanIsValid(digest: string -> nat, protocol: Protocol, cases: seq<Matrix.Identity>,
                                       shuffle: Shuffle<string>)
    requires AreCases(digest, protocol, cases, shuffle)
    ensures PlanOf(digest, protocol, cases, shuffle).Valid()
  {
    var setup := SetupOf(digest, protocol, cases, shuffle);
    Matrix.BaselineTrials(Matrix.TrialsOf(Cold), Matrix.TrialsOf(Warmup), Matrix.TrialsOf(Measured));
    forall a: Slot<string>, b: Slot<string> | a.approach in protocol.planIds && b.approach in protocol.planIds
        && setup.identify(a) == setup.identify(b)
      ensures a == b
    {
      PlanIdHasNoNul(a.approach);
      PlanIdHasNoNul(b.approach);
      ProfilePayloadInjective(protocol.runId, a, protocol.runId, b);
    }
    ScheduleIsSound(setup);
  }

  /** Any number of profiler runs leaves a prefix of its schedule; a log that loads with the expected number of rows has
      one of every case, plan, budget and trial. */
  lemma {:induction false} ProfileLogsArePrefixes(digest: string -> nat, protocol: Protocol,
                                                  cases: seq<Matrix.Identity>, shuffle: Shuffle<string>,
                                                  codec: Log.Codec<PlanSetting>, runs: seq<seq<Log.Event>>)
    returns (rows: seq<Log.Row<PlanSetting>>, torn: string)
    requires AreCases(digest, protocol, cases, shuffle) && codec.Valid()
    ensures var plan := PlanOf(digest, protocol, cases, shuffle);
            && Log.IsPrefixLog(plan, codec, Log.LogAfter(plan, codec, runs), rows, torn)
            && Log.AllObserved(plan, codec, runs, rows, torn)
            && Log.Load(codec, Log.LogAfter(plan, codec, runs)) == if torn == "" then Ok(rows) else Err(Log.Truncated)
    ensures torn == "" && |rows| == protocol.rows ==>
              multiset(Map(KeyOfTrial<string>, Map(Log.TrialOf<PlanSetting>, rows)))
              == multiset(Cross(Map(Matrix.NameOf, cases), PlacesOf(SetupOf(digest, protocol, cases, shuffle).grid)))
  {
    var setup, plan := SetupOf(digest, protocol, cases, shuffle), PlanOf(digest, protocol, cases, shuffle);
    PlanIsValid(digest, protocol, cases, shuffle);
    rows, torn := Log.EveryLogIsAPrefix(plan, codec, runs);
    if torn == "" && |rows| == protocol.rows {
      assert Map(Log.TrialOf<PlanSetting>, rows) == plan.schedule[..|rows|] == plan.schedule;
      Matrix.BaselineTrials(Matrix.TrialsOf(Cold), Matrix.TrialsOf(Warmup), Matrix.TrialsOf(Measured));
      ScheduleIsProduct(setup);
    }
  }
}
