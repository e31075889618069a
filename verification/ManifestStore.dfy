/** The manifest repository and the activation coordinator, which change the store as Activation describes. */
module ManifestStore {
  import opened Wrappers
  import opened Activation

  class ManifestRepository {
    const digest: Digest
    var runs: map<string, Manifest>
    var active: Option<Pointer>

    constructor (digest: Digest)
      ensures this.digest == digest && Now() == EMPTY
    {
      this.digest := digest;
      runs, active := map[], None;
    }

    function Now(): Store
      reads this
    {
      Store(runs, active)
    }

    method Record(m: Manifest, fault: Fault) returns (result: Result<(), Error>)
      modifies this`runs
      ensures Answer(Now(), result) == Activation.Record(old(Now()), m, fault)
      ensures result.Ok? ==> runs == old(runs)[m.runId := m]
    {
      if m.runId in runs {
        if runs[m.runId] != m {
          return Err(Inconsistent);
        }
        return Ok(());
      }
      if fault == FailsBefore {
        return Err(Unavailable);
      }
      runs := runs[m.runId := m];
      result := Outcome(fault, ());
    }

    method Activate(m: Manifest, recordFault: Fault, pointerFault: Fault) returns (result: Result<Pointer, Error>)
      modifies this
      ensures Answer(Now(), result) == Activation.Activate(old(Now()), digest, m, recordFault, pointerFault)
      ensures result.Ok? ==> runs == old(runs)[m.runId := m] && active == Some(result.value)
    {
      if m.status != IsActive {
        return Err(NotServable);
      }
      var recorded := Record(m, recordFault);
      if recorded.Err? {
        return Err(recorded.error);
      }
      var pointer := Pointer(m.corpus, m.runId, digest(m));
      if pointerFault == FailsBefore {
        return Err(Unavailable);
      }
      active := Some(pointer);
      result := Outcome(pointerFault, pointer);
    }

    method LoadRun(runId: string) returns (result: Result<Manifest, Error>)
      ensures result == Activation.LoadRun(Now(), runId)
    {
      if runId == "" {
        return Err(BlankRunId);
      }
      if runId !in runs {
        return Err(NotReady);
      }
      result := Ok(runs[runId]);
    }

    method LoadActive() returns (result: Result<(Pointer, Manifest), Error>)
      ensures result == Activation.LoadActive(Now(), digest)
    {
      if active == None {
        return Err(NotReady);
      }
      var pointer := active.value;
      var loaded := LoadRun(pointer.runId);
      if loaded.Err? {
        return Err(loaded.error);
      }
      var m := loaded.value;
      if m.corpus != pointer.corpus || digest(m) != pointer.sha || m.status != IsActive {
        return Err(Inconsistent);
      }
      result := Ok((pointer, m));
    }

    method Rollback(runId: string, recordFault: Fault, pointerFault: Fault) returns (result: Result<Pointer, Error>)
      modifies this
      ensures Answer(Now(), result) == Activation.Rollback(old(Now()), digest, runId, recordFault, pointerFault)
    {
      var loaded := LoadRun(runId);
      if loaded.Err? {
        return Err(loaded.error);
      }
      result := Activate(loaded.value, recordFault, pointerFault);
    }

    method Discard(runId: string, fault: Fault) returns (result: Result<(), Error>)
      modifies this`runs
      ensures Answer(Now(), result) == Activation.Discard(old(Now()), digest, runId, fault)
      ensures result.Ok? ==> runs == old(runs) - {runId}
    {
      var served := LoadActive();
      if served.Err? {
        if served.error != NotReady {
          return Err(served.error);
        }
      } else if served.value.0.runId == runId {
        return Err(Inconsistent);
      }
      if runId == "" {
        return Err(BlankRunId);
      }
      if fault == FailsBefore {
        return Err(Unavailable);
      }
      runs := runs - {runId};
      result := Outcome(fault, ());
    }
  }

  class ActivationCoordinator {
    const repository: ManifestRepository

    constructor (repository: ManifestRepository)
      ensures this.repository == repository
    {
      this.repository := repository;
    }

    // `verified` is what the two verifiers answer.
    method Activate(request: Request, verified: Verified, recordFault: Fault, pointerFault: Fault)
      returns (result: Result<(Pointer, Manifest), Error>)
      modifies repository
      ensures Answer(repository.Now(), result)
              == Coordinate(old(repository.Now()), repository.digest, request, verified, recordFault, pointerFault)
    {
      var verificationError: Option<Error> := None;
      if verified.vector.Err? {
        verificationError := Some(verified.vector.error);
      }
      if verified.graph.Err? && verificationError == None {
        verificationError := Some(verified.graph.error);
      }
      if verificationError.Some? {
        result := RecordFailure(FailedManifest(request.runId, request.source, request.vector, request.graph,
                                               verified.vector.Ok?, verified.graph.Ok?),
                                recordFault, verificationError.value);
        return;
      }
      var vector, graph := verified.vector.value, verified.graph.value;
      var reconciled := Reconcile(request.runId, request.source, vector, graph);
      if reconciled.Err? {
        result := RecordFailure(FailedManifest(request.runId, request.source, vector, graph, true, true), recordFault,
                                reconciled.error);
        return;
      }
      var activated := repository.Activate(reconciled.value, recordFault, pointerFault);
      result := if activated.Err? then Err(activated.error) else Ok((activated.value, reconciled.value));
    }

    method RecordFailure(failed: Manifest, fault: Fault, error: Error)
      returns (result: Result<(Pointer, Manifest), Error>)
      modifies repository
      ensures Answer(repository.Now(), result) == Fail(old(repository.Now()), failed, fault, error)
    {
      if !IsManifest(failed) {
        return Err(InvalidManifest);
      }
      var recorded := repository.Record(failed, fault);
      result := Err(if recorded.Err? then recorded.error else error);
    }
  }
}
