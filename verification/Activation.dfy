/** Immutable ingestion records, the single pointer to the served corpus, and the coordinator that moves it. */
module Activation {
  import opened Wrappers

  datatype StoreStatus = Pending | Succeeded | Failed
  datatype ActivationStatus = IsInactive | IsActive | IsFailed

  // `provenance` stands for the source dataset, its version and its digest. Identifiers have no surrounding
  // whitespace, so that a blank one is empty.
  datatype Manifest = Manifest(runId: string, corpus: string, provenance: string, chunker: string, model: string,
                               extractor: string, documentCount: nat, chunkCount: nat, qdrantCount: nat,
                               qdrantChecksum: string, qdrantStatus: StoreStatus, neo4jCount: nat,
                               neo4jChecksum: string, neo4jStatus: StoreStatus, status: ActivationStatus)

  datatype Pointer = Pointer(corpus: string, runId: string, sha: nat)

  datatype Error =
    | NotReady | Inconsistent | Unavailable | NotServable | BlankRunId | InvalidManifest
    | VerificationFailed(cause: string)

  // What happens to a write: it may also fail before or after it has taken effect.
  datatype Fault = Works | FailsBefore | FailsAfter

  datatype Store = Store(runs: map<string, Manifest>, active: Option<Pointer>)

  datatype Answer<+T> = Answer(store: Store, result: Result<T, Error>)

  type Digest = Manifest -> nat

  const EMPTY := Store(map[], None)
  const EMPTY_CHECKSUM := "e3b0c44298fc1c149afbf4c8996fb92427ae41e4649b934ca495991b7852b855"

  predicate IsReconciled(m: Manifest) {
    && m.qdrantStatus == Succeeded && m.neo4jStatus == Succeeded
    && m.qdrantCount == m.neo4jCount == m.chunkCount && m.qdrantChecksum == m.neo4jChecksum
    && m.documentCount > 0 && m.chunkCount > 0
  }

  // The validator of IngestionManifest.
  predicate IsManifest(m: Manifest) {
    m.runId != "" && (m.status == IsActive ==> IsReconciled(m))
  }

  function PointerTo(digest: Digest, m: Manifest): Pointer {
    Pointer(m.corpus, m.runId, digest(m))
  }

  /******* The operations on values *******/

  function Outcome<T>(fault: Fault, value: T): Result<T, Error> {
    if fault == Works then Ok(value) else Err(Unavailable)
  }

  function Record(store: Store, m: Manifest, fault: Fault): Answer<()> {
    if m.runId in store.runs then
      Answer(store, if store.runs[m.runId] == m then Ok(()) else Err(Inconsistent))
    else
      Answer(if fault == FailsBefore then store else store.(runs := store.runs[m.runId := m]), Outcome(fault, ()))
  }

  function SetPointer(store: Store, pointer: Pointer, fault: Fault): Answer<Pointer> {
    Answer(if fault == FailsBefore then store else store.(active := Some(pointer)), Outcome(fault, pointer))
  }

  function Activate(store: Store, digest: Digest, m: Manifest, recordFault: Fault,
                    pointerFault: Fault): Answer<Pointer> {
    if m.status != IsActive then Answer(store, Err(NotServable))
    else
      var recorded := Record(store, m, recordFault);
      if recorded.result.Err? then Answer(recorded.store, Err(recorded.result.error))
      else SetPointer(recorded.store, PointerTo(digest, m), pointerFault)
  }

  function LoadRun(store: Store, runId: string): Result<Manifest, Error> {
    if runId == "" then Err(BlankRunId)
    else if runId in store.runs then Ok(store.runs[runId])
    else Err(NotReady)
  }

  function LoadActive(store: Store, digest: Digest): Result<(Pointer, Manifest), Error> {
    if store.active == None then Err(NotReady)
    else
      var pointer := store.active.value;
      var loaded := LoadRun(store, pointer.runId);
      if loaded.Err? then Err(loaded.error)
      else if loaded.value.corpus != pointer.corpus || digest(loaded.value) != pointer.sha
           || loaded.value.status != IsActive then Err(Inconsistent)
      else Ok((pointer, loaded.value))
  }

  function Rollback(store: Store, digest: Digest, runId: string, recordFault: Fault,
                    pointerFault: Fault): Answer<Pointer> {
    var loaded := LoadRun(store, runId);
    if loaded.Err? then Answer(store, Err(loaded.error))
    else Activate(store, digest, loaded.value, recordFault, pointerFault)
  }

  function Discard(store: Store, digest: Digest, runId: string, fault: Fault): Answer<()> {
    var served := LoadActive(store, digest);
    if served.Err? && served.error != NotReady then Answer(store, Err(served.error))
    else if served.Ok? && served.value.0.runId == runId then Answer(store, Err(Inconsistent))
    else if runId == "" then Answer(store, Err(BlankRunId))
    else Answer(if fault == FailsBefore then store else store.(runs := store.runs - {runId}), Outcome(fault, ()))
  }

  /******* Reconciliation *******/

  datatype Provenance = Provenance(dataset: string, chunker: string)
  datatype VectorStage = VectorStage(corpus: string, chunker: string, model: string, chunkCount: nat, checksum: string)
  datatype GraphStage = GraphStage(corpus: string, extractor: string, documentCount: nat, chunkCount: nat,
                                   checksum: string)

  function Candidate(runId: string, source: Provenance, vector: VectorStage, graph: GraphStage): Manifest {
    Manifest(runId, vector.corpus, source.dataset, source.chunker, vector.model, graph.extractor, graph.documentCount,
             graph.chunkCount,
             vector.chunkCount, vector.checksum, Succeeded, graph.chunkCount, graph.checksum, Succeeded, IsActive)
  }

  function Reconcile(runId: string, source: Provenance, vector: VectorStage,
                     graph: GraphStage): (reconciled: Result<Manifest, Error>)
    ensures reconciled.Ok? ==> IsManifest(reconciled.value) && reconciled.value.status == IsActive
                               && reconciled.value.runId == runId
  {
    if vector.corpus != graph.corpus then Err(Inconsistent)
    else if vector.chunker != source.chunker then Err(Inconsistent)
    else if vector.chunkCount != graph.chunkCount || vector.checksum != graph.checksum then Err(Inconsistent)
    else
      var candidate := Candidate(runId, source, vector, graph);
      if IsManifest(candidate) then Ok(candidate) else Err(InvalidManifest)
  }

  function FailedManifest(runId: string, source: Provenance, vector: VectorStage, graph: GraphStage,
                          vectorVerified: bool, graphVerified: bool)
    : (m: Manifest)
    ensures m.runId == runId && m.status == IsFailed
  {
    Manifest(runId, vector.corpus, source.dataset, source.chunker, vector.model, graph.extractor, graph.documentCount,
             if vector.chunkCount >= graph.chunkCount then vector.chunkCount else graph.chunkCount,
             if vectorVerified then vector.chunkCount else 0,
             if vectorVerified then vector.checksum else EMPTY_CHECKSUM,
             if vectorVerified then Succeeded else Failed,
             if graphVerified then graph.chunkCount else 0,
             if graphVerified then graph.checksum else EMPTY_CHECKSUM,
             if graphVerified then Succeeded else Failed,
             IsFailed)
  }

  // An activation request, and what re-reading the two stores answers.
  datatype Request = Request(runId: string, source: Provenance, vector: VectorStage, graph: GraphStage)
  datatype Verified = Verified(vector: Result<VectorStage, Error>, graph: Result<GraphStage, Error>)

  // Record the failure; its own error, if any, masks the one that led here.
  function Fail(store: Store, failed: Manifest, fault: Fault, error: Error): Answer<(Pointer, Manifest)> {
    if !IsManifest(failed) then Answer(store, Err(InvalidManifest))
    else
      var recorded := Record(store, failed, fault);
      Answer(recorded.store, Err(if recorded.result.Err? then recorded.result.error else error))
  }

  function Coordinate(store: Store, digest: Digest, request: Request, verified: Verified, recordFault: Fault,
                      pointerFault: Fault)
    : Answer<(Pointer, Manifest)>
  {
    if verified.vector.Err? || verified.graph.Err? then
      Fail(store,
           FailedManifest(request.runId, request.source, request.vector, request.graph, verified.vector.Ok?,
                          verified.graph.Ok?),
           recordFault,
           if verified.vector.Err? then verified.vector.error else verified.graph.error)
    else
      var reconciled := Reconcile(request.runId, request.source, verified.vector.value, verified.graph.value);
      if reconciled.Err? then
        Fail(store,
             FailedManifest(request.runId, request.source, verified.vector.value, verified.graph.value, true, true),
             recordFault, reconciled.error)
      else
        var activated := Activate(store, digest, reconciled.value, recordFault, pointerFault);
        Answer(activated.store, if activated.result.Err? then Err(activated.result.error)
               else Ok((activated.result.value, reconciled.value)))
  }

  /** Reconciliation succeeds exactly when the stages agree with each other and the source on a corpus that is not
      empty. */
  lemma {:induction false} ReconcilesIffStagesAgree(runId: string, source: Provenance, vector: VectorStage,
                                                    graph: GraphStage)
    ensures Reconcile(runId, source, vector, graph).Ok?
            <==> vector.corpus == graph.corpus && vector.chunker == source.chunker
                 && vector.chunkCount == graph.chunkCount
                 && vector.checksum == graph.checksum && graph.documentCount > 0 && graph.chunkCount > 0 && runId != ""
    ensures Reconcile(runId, source, vector, graph).Ok?
            ==> Reconcile(runId, source, vector, graph).value == Candidate(runId, source, vector, graph)
  {
  }

  /******* Runs of the system *******/

  datatype Step =
    | RecordStep(m: Manifest, fault: Fault)
    | ActivateStep(m: Manifest, recordFault: Fault, pointerFault: Fault)
    | RollbackStep(runId: string, recordFault: Fault, pointerFault: Fault)
    | DiscardStep(runId: string, fault: Fault)
    | CoordinateStep(request: Request, verified: Verified, recordFault: Fault, pointerFault: Fault)

  // Manifests are validated when they are made.
  ghost predicate IsStep(step: Step) {
    match step
    case RecordStep(m, _) => IsManifest(m)
    case ActivateStep(m, _, _) => IsManifest(m)
    case _ => true
  }

  function Apply(store: Store, digest: Digest, step: Step): Store {
    match step
    case RecordStep(m, fault) => Record(store, m, fault).store
    case ActivateStep(m, recordFault, pointerFault) => Activate(store, digest, m, recordFault, pointerFault).store
    case RollbackStep(runId, recordFault, pointerFault) => Rollback(store, digest, runId, recordFault,
                                                                    pointerFault).store
    case DiscardStep(runId, fault) => Discard(store, digest, runId, fault).store
    case CoordinateStep(request, verified, recordFault, pointerFault) =>
      Coordinate(store, digest, request, verified, recordFault, pointerFault).store
  }

  function After(store: Store, digest: Digest, steps: seq<Step>): Store {
    if steps == [] then store
    else Apply(After(store, digest, steps[..|steps| - 1]), digest, steps[|steps| - 1])
  }

  ghost predicate AreSteps(steps: seq<Step>) {
    forall i :: 0 <= i < |steps| ==> IsStep(steps[i])
  }

  // The pointer, if any, names a stored, hash-matching, active and reconciled manifest.
  ghost predicate PointerHolds(store: Store, digest: Digest) {
    store.active.Some? ==>
      var pointer := store.active.value;
      pointer.runId in store.runs
      && (var m := store.runs[pointer.runId];
          pointer == PointerTo(digest, m) && m.status == IsActive && IsReconciled(m))
  }

  ghost predicate Valid(store: Store, digest: Digest) {
    && (forall runId :: runId in store.runs ==> store.runs[runId].runId == runId && IsManifest(store.runs[runId]))
    && PointerHolds(store, digest)
  }

  lemma {:induction false} RecordKeepsValid(store: Store, digest: Digest, m: Manifest, fault: Fault)
    requires Valid(store, digest) && IsManifest(m)
    ensures Valid(Record(store, m, fault).store, digest)
    ensures Record(store, m, fault).result.Ok? ==>
              var after := Record(store, m, fault).store; m.runId in after.runs && after.runs[m.runId] == m
  {
  }

  lemma {:induction false} ActivateKeepsValid(store: Store, digest: Digest, m: Manifest, recordFault: Fault,
                                              pointerFault: Fault)
    requires Valid(store, digest) && IsManifest(m)
    ensures Valid(Activate(store, digest, m, recordFault, pointerFault).store, digest)
  {
    RecordKeepsValid(store, digest, m, recordFault);
  }

  lemma {:induction false} DiscardKeepsValid(store: Store, digest: Digest, runId: string, fault: Fault)
    requires Valid(store, digest)
    ensures Valid(Discard(store, digest, runId, fault).store, digest)
  {
  }

  lemma {:induction false} CoordinateKeepsValid(store: Store, digest: Digest, request: Request, verified: Verified,
                                                recordFault: Fault, pointerFault: Fault)
    requires Valid(store, digest)
    ensures Valid(Coordinate(store, digest, request, verified, recordFault, pointerFault).store, digest)
  {
    if verified.vector.Err? || verified.graph.Err? {
      FailKeepsValid(store, digest, FailedManifest(request.runId, request.source, request.vector, request.graph,
                                                   verified.vector.Ok?, verified.graph.Ok?), recordFault);
    } else {
      var reconciled := Reconcile(request.runId, request.source, verified.vector.value, verified.graph.value);
      if reconciled.Err? {
        FailKeepsValid(store, digest, FailedManifest(request.runId, request.source, verified.vector.value,
                                                     verified.graph.value, true, true), recordFault);
      } else {
        ActivateKeepsValid(store, digest, reconciled.value, recordFault, pointerFault);
      }
    }
  }

  lemma {:induction false} FailKeepsValid(store: Store, digest: Digest, failed: Manifest, fault: Fault)
    requires Valid(store, digest)
    ensures IsManifest(failed) ==> Valid(Record(store, failed, fault).store, digest)
  {
  }

  lemma {:induction false} StepKeepsValid(store: Store, digest: Digest, step: Step)
    requires Valid(store, digest) && IsStep(step)
    ensures Valid(Apply(store, digest, step), digest)
  {
    match step
    case RecordStep(m, fault) => RecordKeepsValid(store, digest, m, fault);
    case ActivateStep(m, recordFault, pointerFault) => ActivateKeepsValid(store, digest, m, recordFault, pointerFault);
    case RollbackStep(runId, recordFault, pointerFault) =>
      if runId != "" && runId in store.runs {
        ActivateKeepsValid(store, digest, store.runs[runId], recordFault, pointerFault);
      }
    case DiscardStep(runId, fault) => DiscardKeepsValid(store, digest, runId, fault);
    case CoordinateStep(request, verified, recordFault, pointerFault) =>
      CoordinateKeepsValid(store, digest, request, verified, recordFault, pointerFault);
  }

  lemma {:induction false} RunKeepsValid(store: Store, digest: Digest, steps: seq<Step>)
    requires Valid(store, digest) && AreSteps(steps)
    ensures Valid(After(store, digest, steps), digest)
    decreases |steps|
  {
    if steps != [] {
      RunKeepsValid(store, digest, steps[..|steps| - 1]);
      StepKeepsValid(After(store, digest, steps[..|steps| - 1]), digest, steps[|steps| - 1]);
    }
  }

  /** Main result: whatever the steps and the faults of their writes, serving finds either no pointer or a stored,
      hash-matching, active manifest whose two stores agree; it never finds an inconsistent one. */
  lemma {:induction false} ServedCorpusIsReconciled(digest: Digest, steps: seq<Step>)
    requires AreSteps(steps)
    ensures var store := After(EMPTY, digest, steps);
            var served := LoadActive(store, digest);
            && PointerHolds(store, digest)
            && (served.Err? ==> served.error == NotReady && store.active == None)
            && (served.Ok? ==> store.active == Some(served.value.0)
                               && served.value.0 == PointerTo(digest, served.value.1)
                               && BothStoresAgree(served.value.1) && served.value.1.status == IsActive)
  {
    RunKeepsValid(EMPTY, digest, steps);
  }

  // Both stores hold all chunks, the same ones, and there are some.
  predicate BothStoresAgree(m: Manifest) {
    && m.qdrantStatus == m.neo4jStatus == Succeeded
    && m.qdrantCount == m.neo4jCount == m.chunkCount > 0
    && m.qdrantChecksum == m.neo4jChecksum && m.documentCount > 0
  }

  /******* Evidence is immutable *******/

  ghost predicate Discards(step: Step, runId: string) {
    step.DiscardStep? && step.runId == runId
  }

  // The only two ways in which a stored record may look different after a step.
  lemma {:induction false} OnlyDiscardRemoves(store: Store, digest: Digest, step: Step, runId: string)
    requires runId in store.runs && !Discards(step, runId)
    ensures runId in Apply(store, digest, step).runs && Apply(store, digest, step).runs[runId] == store.runs[runId]
  {
  }

  /** The record of the served run cannot be removed either. */
  lemma {:induction false} ServedRunCannotBeDiscarded(store: Store, digest: Digest, runId: string, fault: Fault)
    requires Valid(store, digest) && store.active.Some? && store.active.value.runId == runId
    ensures Discard(store, digest, runId, fault) == Answer(store, Err(Inconsistent))
  {
  }

  // Everything but the record of one run is as it was.
  ghost predicate DiffersOnlyIn(before: Store, after: Store, runId: string) {
    && after.active == before.active
    && (forall other :: other != runId ==> (other in after.runs <==> other in before.runs))
    && (forall other :: other != runId && other in before.runs ==> after.runs[other] == before.runs[other])
  }

  ghost predicate IsServed(store: Store, runId: string) {
    store.active.Some? && store.active.value.runId == runId
  }

  /** Discarding a run that is not served removes its record, unless the write fails before that, and nothing else; the
      answer says so exactly when nothing failed. Otherwise nothing changes. */
  lemma {:induction false} DiscardRemoves(store: Store, digest: Digest, runId: string, fault: Fault)
    requires Valid(store, digest)
    ensures var discarded := Discard(store, digest, runId, fault);
            && DiffersOnlyIn(store, discarded.store, runId)
            && (runId !in discarded.store.runs
                <==> runId !in store.runs || (runId != "" && !IsServed(store, runId) && fault != FailsBefore))
            && (runId in discarded.store.runs ==> discarded.store == store)
            && (discarded.result.Ok? <==> runId != "" && !IsServed(store, runId) && fault == Works)
  {
  }

  /** After that the run ID can be used again, also for a manifest that its old record would have refused. */
  lemma {:induction false} DiscardedRunIsFree(store: Store, digest: Digest, m: Manifest, fault: Fault)
    requires Valid(store, digest) && IsManifest(m) && m.status == IsActive
    requires !IsServed(store, m.runId) && fault != FailsBefore
    ensures var discarded := Discard(store, digest, m.runId, fault).store;
            var activated := Activate(discarded, digest, m, Works, Works);
            && activated.result == Ok(PointerTo(digest, m))
            && LoadActive(activated.store, digest) == Ok((PointerTo(digest, m), m))
  {
    DiscardRemoves(store, digest, m.runId, fault);
  }

  /** A record is accepted exactly when it is stored afterwards and nothing failed; another record of its run is never
      replaced. */
  lemma {:induction false} RecordStores(store: Store, m: Manifest, fault: Fault)
    ensures var recorded := Record(store, m, fault);
            && DiffersOnlyIn(store, recorded.store, m.runId)
            && (m.runId in store.runs ==> recorded.store == store)
            && (m.runId !in store.runs ==> (m.runId in recorded.store.runs <==> fault != FailsBefore))
            && (m.runId !in store.runs && m.runId in recorded.store.runs ==> recorded.store.runs[m.runId] == m)
            && (recorded.result == Ok(()) <==> if m.runId in store.runs then store.runs[m.runId] == m
                else fault == Works)
            && (recorded.result.Err? ==>
                  recorded.result.error == if m.runId in store.runs then Inconsistent else Unavailable)
  {
  }

  /** What serving finds, in any store: the pointer and its record when they match, not ready when one of them is
      not there, and inconsistent otherwise; a blank run ID is no run. */
  lemma {:induction false} LoadAnswers(store: Store, digest: Digest, pointer: Pointer)
    requires store.active == None || store.active == Some(pointer)
    ensures LoadActive(store, digest)
            == if store.active == None then Err(NotReady)
               else if pointer.runId == "" then Err(BlankRunId)
               else if pointer.runId !in store.runs then Err(NotReady)
               else if store.runs[pointer.runId].status == IsActive && pointer.sha == digest(store.runs[pointer.runId])
                       && pointer.corpus == store.runs[pointer.runId].corpus
               then Ok((pointer, store.runs[pointer.runId]))
               else Err(Inconsistent)
  {
  }

  /** Why a discard or a rollback is refused. */
  lemma {:induction false} RefusalAnswers(store: Store, digest: Digest, runId: string, fault: Fault,
                                          pointerFault: Fault)
    requires Valid(store, digest)
    ensures Discard(store, digest, runId, fault).result
            == if IsServed(store, runId) then Err(Inconsistent)
               else if runId == "" then Err(BlankRunId)
               else if fault == Works then Ok(()) else Err(Unavailable)
    ensures Rollback(store, digest, runId, fault, pointerFault).result
            == if runId == "" then Err(BlankRunId)
               else if runId !in store.runs then Err(NotReady)
               else if store.runs[runId].status != IsActive then Err(NotServable)
               else if pointerFault != Works then Err(Unavailable)
               else Ok(Pointer(store.runs[runId].corpus, runId, digest(store.runs[runId])))
  {
  }

  // Writing the record of `m` goes well, or it is there already.
  ghost predicate CanRecord(store: Store, m: Manifest, fault: Fault) {
    if m.runId in store.runs then store.runs[m.runId] == m else fault == Works
  }

  /** An activation returns exactly when the manifest is active, its record is or can be stored, and the pointer can be
      written; what it returns names the manifest. */
  lemma {:induction false} ActivatesIff(store: Store, digest: Digest, m: Manifest, recordFault: Fault,
                                        pointerFault: Fault)
    ensures var activated := Activate(store, digest, m, recordFault, pointerFault);
            && (activated.result.Ok? <==> m.status == IsActive && CanRecord(store, m, recordFault)
                                          && pointerFault == Works)
            && (activated.result.Ok? ==> activated.result.value == Pointer(m.corpus, m.runId, digest(m))
                                         && activated.store.active == Some(activated.result.value))
            && (activated.result.Err? ==>
                  activated.result.error == if m.status != IsActive then NotServable
                                            else if m.runId in store.runs && store.runs[m.runId] != m then Inconsistent
                                            else Unavailable)
  {
  }

  ghost predicate NeverDiscarded(steps: seq<Step>, runId: string) {
    forall i :: 0 <= i < |steps| ==> !Discards(steps[i], runId)
  }

  /** Stored evidence changes only through discard, over any number of steps. */
  lemma {:induction false} EvidenceIsImmutable(store: Store, digest: Digest, steps: seq<Step>, runId: string)
    requires runId in store.runs && NeverDiscarded(steps, runId)
    ensures var after := After(store, digest, steps);
            runId in after.runs && after.runs[runId] == store.runs[runId]
    decreases |steps|
  {
    if steps != [] {
      EvidenceIsImmutable(store, digest, steps[..|steps| - 1], runId);
      OnlyDiscardRemoves(After(store, digest, steps[..|steps| - 1]), digest, steps[|steps| - 1], runId);
    }
  }

  /** Main result: once a run ID holds a record that is not active, such as a failed one, it is not served until it
      has been discarded. */
  lemma {:induction false} FailedRunIsNotServed(store: Store, digest: Digest, steps: seq<Step>, runId: string)
    requires Valid(store, digest) && AreSteps(steps)
    requires runId in store.runs && store.runs[runId].status != IsActive && NeverDiscarded(steps, runId)
    ensures var after := After(store, digest, steps); after.active.Some? ==> after.active.value.runId != runId
  {
    EvidenceIsImmutable(store, digest, steps, runId);
    RunKeepsValid(store, digest, steps);
  }

  /******* What one operation does to serving *******/

  // The manifest that a step may serve.
  ghost predicate MayServe(store: Store, step: Step, m: Manifest) {
    match step
    case ActivateStep(candidate, _, _) => m == candidate
    case RollbackStep(runId, _, _) => runId in store.runs && m == store.runs[runId]
    case CoordinateStep(request, verified, _, _) =>
      verified.vector.Ok? && verified.graph.Ok?
      && Reconcile(request.runId, request.source, verified.vector.value, verified.graph.value) == Ok(m)
    case _ => false
  }

  /** The pointer moves only to the manifest that was asked for, and only when that one is stored and active. */
  lemma {:induction false} PointerMovesToTheRequested(store: Store, digest: Digest, step: Step)
    requires Valid(store, digest) && IsStep(step)
    ensures var after := Apply(store, digest, step);
            after.active == store.active
            || exists m :: MayServe(store, step, m) && m.status == IsActive
                           && after.active == Some(PointerTo(digest, m))
                           && m.runId in after.runs && after.runs[m.runId] == m
  {
    match step
    case RecordStep(m, fault) =>
    case DiscardStep(runId, fault) =>
    case ActivateStep(m, recordFault, pointerFault) =>
      ActivationMoves(store, digest, m, recordFault, pointerFault);
      assert MayServe(store, step, m);
    case RollbackStep(runId, recordFault, pointerFault) =>
      if runId != "" && runId in store.runs {
        ActivationMoves(store, digest, store.runs[runId], recordFault, pointerFault);
        assert MayServe(store, step, store.runs[runId]);
      }
    case CoordinateStep(request, verified, recordFault, pointerFault) =>
      if verified.vector.Ok? && verified.graph.Ok? {
        var reconciled := Reconcile(request.runId, request.source, verified.vector.value, verified.graph.value);
        if reconciled.Ok? {
          ActivationMoves(store, digest, reconciled.value, recordFault, pointerFault);
          assert MayServe(store, step, reconciled.value);
        }
      }
  }

  /** An activation that raises leaves the pointer alone, unless its last write failed after taking effect. */
  lemma {:induction false} ActivationMoves(store: Store, digest: Digest, m: Manifest, recordFault: Fault,
                                           pointerFault: Fault)
    requires Valid(store, digest) && IsManifest(m)
    ensures var activated := Activate(store, digest, m, recordFault, pointerFault);
            && (activated.result.Ok? ==> LoadActive(activated.store, digest) == Ok((activated.result.value, m)))
            && (activated.store.active == store.active
                || (activated.store.active == Some(PointerTo(digest, m)) && m.status == IsActive
                    && m.runId in activated.store.runs && activated.store.runs[m.runId] == m))
            && (activated.result.Err? && activated.store.active != store.active ==> pointerFault == FailsAfter)
  {
  }

  /** What the coordinator returns is served, and both stores agreed on it. */
  lemma {:induction false} CoordinatorServesWhatItReturns(store: Store, digest: Digest, request: Request,
                                                          verified: Verified, recordFault: Fault, pointerFault: Fault)
    requires Valid(store, digest)
    ensures var answer := Coordinate(store, digest, request, verified, recordFault, pointerFault);
            answer.result.Ok? ==>
              && LoadActive(answer.store, digest) == answer.result
              && verified.vector.Ok? && verified.graph.Ok?
              && verified.vector.value.corpus == verified.graph.value.corpus == answer.result.value.1.corpus
              && verified.vector.value.chunkCount == verified.graph.value.chunkCount > 0
              && verified.vector.value.checksum == verified.graph.value.checksum
  {
    if verified.vector.Ok? && verified.graph.Ok? {
      ReconcilesIffStagesAgree(request.runId, request.source, verified.vector.value, verified.graph.value);
      var reconciled := Reconcile(request.runId, request.source, verified.vector.value, verified.graph.value);
      if reconciled.Ok? {
        ActivationMoves(store, digest, reconciled.value, recordFault, pointerFault);
      }
    }
  }

  // The coordinator will fail: a store was not verified, or the two do not reconcile.
  ghost predicate WillFail(request: Request, verified: Verified) {
    verified.vector.Err? || verified.graph.Err?
    || Reconcile(request.runId, request.source, verified.vector.value, verified.graph.value).Err?
  }

  /** When verification or reconciliation fails, serving goes on as before, whatever was recorded and whether or not the
      record could be written; at most the record of the run is new. */
  lemma {:induction false} FailureLeavesServing(store: Store, digest: Digest, request: Request, verified: Verified,
                                               fault: Fault, pointerFault: Fault)
    requires Valid(store, digest) && WillFail(request, verified)
    ensures var failed := Coordinate(store, digest, request, verified, fault, pointerFault);
            && failed.result.Err? && failed.store.active == store.active
            && LoadActive(failed.store, digest) == LoadActive(store, digest)
            && (forall runId :: runId in store.runs ==> runId in failed.store.runs
                                                        && failed.store.runs[runId] == store.runs[runId])
            && (forall runId :: runId in failed.store.runs ==> runId in store.runs || runId == request.runId)
  {
  }

  /** What a failed activation answers: that its record is not valid or could not be written, and otherwise why it
      failed, an error of the vector store before one of the graph store. */
  lemma {:induction false} FailureAnswers(store: Store, digest: Digest, request: Request, verified: Verified,
                                          fault: Fault, pointerFault: Fault)
    requires request.runId !in store.runs && WillFail(request, verified)
    ensures Coordinate(store, digest, request, verified, fault, pointerFault).result
            == Err(if request.runId == "" then InvalidManifest
                   else if fault != Works then Unavailable
                   else if verified.vector.Err? then verified.vector.error
                   else if verified.graph.Err? then verified.graph.error
                   else if StagesAgree(request.source, verified.vector.value, verified.graph.value) then InvalidManifest
                   else Inconsistent)
  {
  }

  // On the corpus, the chunker, the number of chunks and their checksum.
  predicate StagesAgree(source: Provenance, vector: VectorStage, graph: GraphStage) {
    && vector.corpus == graph.corpus && vector.chunker == source.chunker
    && vector.chunkCount == graph.chunkCount && vector.checksum == graph.checksum
  }

  /** What it records: which of the stores was verified, with its count and checksum, and nothing of the other one. When
      both were, that is what was read from them; otherwise it is what the request says. */
  lemma {:induction false} FailureIsRecorded(store: Store, digest: Digest, request: Request, verified: Verified,
                                             fault: Fault, pointerFault: Fault)
    requires request.runId !in store.runs && request.runId != "" && WillFail(request, verified) && fault != FailsBefore
    ensures request.runId in Coordinate(store, digest, request, verified, fault, pointerFault).store.runs
    ensures
      var m := Coordinate(store, digest, request, verified, fault, pointerFault).store.runs[request.runId];
      var read := verified.vector.Ok? && verified.graph.Ok?;
      var vector, graph := if read then verified.vector.value else request.vector,
                           if read then verified.graph.value else request.graph;
      && m.status == IsFailed && m.runId == request.runId
      && m.corpus == vector.corpus && m.provenance == request.source.dataset && m.chunker == request.source.chunker
      && m.model == vector.model && m.extractor == graph.extractor && m.documentCount == graph.documentCount
      && m.chunkCount >= vector.chunkCount && m.chunkCount >= graph.chunkCount
      && m.chunkCount in {vector.chunkCount, graph.chunkCount}
      && IsStoreRecord(m.qdrantStatus, m.qdrantCount, m.qdrantChecksum, verified.vector.Ok?, vector.chunkCount,
                       vector.checksum)
      && IsStoreRecord(m.neo4jStatus, m.neo4jCount, m.neo4jChecksum, verified.graph.Ok?, graph.chunkCount,
                       graph.checksum)
  {
  }

  predicate IsStoreRecord(status: StoreStatus, count: nat, checksum: string, verified: bool, chunks: nat, sum: string) {
    if verified then status == Succeeded && count == chunks && checksum == sum
    else status == Failed && count == 0
         && checksum == "e3b0c44298fc1c149afbf4c8996fb92427ae41e4649b934ca495991b7852b855"
  }

  /** A successful activation serves what was read: every field of the manifest comes from the stage it belongs to. */
  lemma {:induction false} ActivatedIsWhatWasRead(store: Store, digest: Digest, request: Request, verified: Verified,
                                                  recordFault: Fault, pointerFault: Fault)
    ensures var answer := Coordinate(store, digest, request, verified, recordFault, pointerFault);
            answer.result.Ok? ==>
              var m, vector, graph := answer.result.value.1, verified.vector.value, verified.graph.value;
              && StagesAgree(request.source, vector, graph) && request.runId != ""
              && m == Manifest(request.runId, vector.corpus, request.source.dataset, request.source.chunker,
                               vector.model,
                               graph.extractor, graph.documentCount, graph.chunkCount, vector.chunkCount,
                               vector.checksum, Succeeded, graph.chunkCount, graph.checksum, Succeeded, IsActive)
              && answer.result.value.0 == Pointer(m.corpus, m.runId, digest(m))
  {
  }

  /** A failure that was written down as the run's first record is a failed record; and whatever record the run has
      then, old or new, every later activation of a different manifest under its ID is refused until it is discarded. */
  lemma {:induction false} FailureBlocksTheRun(store: Store, digest: Digest, request: Request, verified: Verified,
                                               fault: Fault, pointerFault: Fault, steps: seq<Step>, m: Manifest,
                                               faults: (Fault, Fault))
    requires Valid(store, digest) && AreSteps(steps) && NeverDiscarded(steps, request.runId)
    requires WillFail(request, verified)
    requires IsManifest(m) && m.runId == request.runId && m.status == IsActive
    ensures var failed := Coordinate(store, digest, request, verified, fault, pointerFault);
            && (request.runId !in store.runs && fault != FailsBefore ==>
                  request.runId in failed.store.runs && failed.store.runs[request.runId].status == IsFailed)
            && (request.runId in failed.store.runs && failed.store.runs[request.runId] != m ==>
                  var later := After(failed.store, digest, steps);
                  Activate(later, digest, m, faults.0, faults.1) == Answer(later, Err(Inconsistent)))
  {
    var failed := Coordinate(store, digest, request, verified, fault, pointerFault);
    if request.runId in failed.store.runs {
      EvidenceIsImmutable(failed.store, digest, steps, request.runId);
    }
  }

  /** Rolling back to a served run restores it, whatever happened since, unless its record was discarded. */
  lemma {:induction false} RollbackRestores(store: Store, digest: Digest, steps: seq<Step>, pointer: Pointer,
                                            m: Manifest, fault: Fault)
    requires Valid(store, digest) && AreSteps(steps) && NeverDiscarded(steps, m.runId)
    requires LoadActive(store, digest) == Ok((pointer, m))
    ensures var later := After(store, digest, steps);
            var answer := Rollback(later, digest, m.runId, fault, Works);
            answer.result == Ok(pointer) && LoadActive(answer.store, digest) == Ok((pointer, m))
                && answer.store.runs == later.runs
  {
    EvidenceIsImmutable(store, digest, steps, m.runId);
    RunKeepsValid(store, digest, steps);
  }
}
