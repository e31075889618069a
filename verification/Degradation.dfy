/** From the outcomes of the scheduled branches to a response that its validators accept, or a typed error. */
module Degradation {
  import opened Wrappers
  import opened Ordering
  import opened Counting

  datatype Branch = VectorBranch | GraphBranch
  datatype Status = NotScheduled | Running | Succeeded | TimedOut | Failed | Cancelled
  datatype Code =
    | InvalidRequest | InvalidQuery | PlanInvariantViolation | NotReady | DependencyUnavailable | ModeUnavailable
    | Overloaded | DeadlineExceeded | ModelIncompatible | CorpusInconsistent | RetrievalFailed | InternalError

  // Hits are the canonical chunk IDs in rank order.
  datatype BranchResult = BranchResult(branch: Branch, status: Status, hits: seq<string>, error: Option<Code>)

  // The modes a request can be executed in, after rule planning and kill switches.
  datatype Mode = VectorMode | GraphMode | HybridMode

  // `graphTrace` says whether graph evidence came back.
  datatype Execution = Execution(results: seq<BranchResult>, graphTrace: bool)

  datatype RequestState =
    | Received | Analyzing | Planning | Executing | Fusing | Reranking | Complete | Partial | FailedRequest

  datatype FusionTrace = FusionTrace(vectorInputs: nat, graphInputs: nat, outputs: nat, duplicates: nat,
                                     missing: seq<Branch>)

  // What a request may end in instead of a response: the last two would be defects of the engine.
  datatype Failure = Raised(code: Code) | KeyError | Rejected

  datatype Response = Response(status: RequestState, results: seq<string>, branches: seq<BranchResult>, mode: Mode,
                               events: seq<RequestState>, fallbackReason: Option<string>, plannerReason: Option<string>,
                               fallback: bool, fusion: Option<FusionTrace>, graphTrace: bool)

  /******* Branch results *******/

  predicate IsTerminal(status: Status) {
    status in {Succeeded, TimedOut, Failed, Cancelled}
  }

  // The validator of BranchResult.
  predicate IsBranchResult(r: BranchResult) {
    && (r.status != Succeeded ==> r.hits == [])
    && (r.status == Failed <==> r.error.Some?)
  }

  function Scheduled(mode: Mode): seq<Branch> {
    match mode
    case VectorMode => [VectorBranch]
    case GraphMode => [GraphBranch]
    case HybridMode => [VectorBranch, GraphBranch]
  }

  function BranchOf(r: BranchResult): Branch {
    r.branch
  }

  // One terminal result of every scheduled branch, and evidence from a graph branch that succeeded.
  ghost predicate IsExecution(mode: Mode, execution: Execution) {
    && Map(BranchOf, execution.results) == Scheduled(mode)
    && (forall i :: 0 <= i < |execution.results| ==> IsBranchResult(execution.results[i])
                                                     && IsTerminal(execution.results[i].status))
    && (forall i :: 0 <= i < |execution.results| && execution.results[i].branch == GraphBranch
                    && execution.results[i].status == Succeeded
          ==> execution.graphTrace)
    && (execution.graphTrace ==> GraphBranch in Map(BranchOf, execution.results))
  }

  /******* _raise_if_no_usable_branch *******/

  predicate IsFatal(code: Code) {
    code in {CorpusInconsistent, ModelIncompatible, PlanInvariantViolation, InternalError}
  }

  function FirstFatal(results: seq<BranchResult>): Option<Code> {
    if results == [] then None
    else if results[0].error.Some? && IsFatal(results[0].error.value) then results[0].error
    else FirstFatal(results[1..])
  }

  function NoUsableBranch(results: seq<BranchResult>): Option<Code> {
    if FirstFatal(results).Some? then FirstFatal(results)
    else if exists r :: r in results && r.status == Succeeded then None
    else if exists r :: r in results && (r.status == TimedOut || r.status == Cancelled) then Some(DeadlineExceeded)
    else if forall r :: r in results ==> r.error == Some(ModeUnavailable) then Some(ModeUnavailable)
    else Some(DependencyUnavailable)
  }

  lemma {:induction false} FirstFatalMeans(results: seq<BranchResult>)
    ensures FirstFatal(results) == None <==> forall r :: r in results ==> r.error.None? || !IsFatal(r.error.value)
    ensures FirstFatal(results).Some? ==> IsFatal(FirstFatal(results).value) && exists r ::
            r in results && r.error == FirstFatal(results)
  {
    if results != [] {
      FirstFatalMeans(results[1..]);
      assert results == [results[0]] + results[1..];
    }
  }

  /******* _rank_execution *******/

  function Succeeding(results: seq<BranchResult>, branch: Branch): Option<BranchResult> {
    if results == [] then None
    else
      var later := Succeeding(results[1..], branch);
      if later.Some? then later
      else if results[0].branch == branch && results[0].status == Succeeded then Some(results[0])
      else None
  }

  function FirstFailed(results: seq<BranchResult>): Option<BranchResult> {
    if results == [] then None
    else if results[0].status != Succeeded then Some(results[0])
    else FirstFailed(results[1..])
  }

  function Take(hits: seq<string>, topK: nat): seq<string> {
    if |hits| <= topK then hits else hits[..topK]
  }

  // No duplicate canonical IDs: the test of _index_branch.
  predicate IsIndexable(hits: seq<string>) {
    forall i, j :: 0 <= i < j < |hits| ==> hits[i] != hits[j]
  }

  // Fusion orders the union of two branches by its scores, which `order` stands for; a sole branch keeps its order.
  function Fuse(order: (string, string) -> bool, vector: Option<seq<string>>, graph: Option<seq<string>>, topK: nat)
    : Result<(seq<string>, FusionTrace), Failure>
  {
    var v := if vector.Some? then vector.value else [];
    var g := if graph.Some? then graph.value else [];
    if !IsIndexable(v) || !IsIndexable(g) then Err(Raised(CorpusInconsistent))
    else
      var ranked := if vector.None? then g else if graph.None? then v else Sort(order, Dedup(v + g));
      var hits := Take(ranked, topK);
      Ok((hits, FusionTrace(|v|, |g|, |hits|, CountIf(In(v), g), Missing(vector.None?, graph.None?))))
  }

  function Missing(vector: bool, graph: bool): seq<Branch> {
    if vector && graph then [VectorBranch, GraphBranch]
    else if vector then [VectorBranch]
    else if graph then [GraphBranch]
    else []
  }

  function In(hits: seq<string>): string -> bool {
    (hit: string) => hit in hits
  }

  function BranchText(branch: Branch): string {
    match branch case VectorBranch => "vector" case GraphBranch => "graph"
  }

  // The name of an error code or of a status.
  type Naming = BranchResult -> string

  function Reason(naming: Naming, failed: Option<BranchResult>): Option<string> {
    if failed.None? then None else Some(BranchText(failed.value.branch) + ":" + naming(failed.value))
  }

  datatype Ranking = Ranking(hits: seq<string>, fusion: Option<FusionTrace>, reason: Option<string>)

  function HitsOf(r: Option<BranchResult>): Option<seq<string>> {
    if r.None? then None else Some(r.value.hits)
  }

  function RankSingle(found: Option<BranchResult>, topK: nat): Result<Ranking, Failure> {
    if found.None? then Err(KeyError)
    else if !IsIndexable(found.value.hits) then Err(Raised(CorpusInconsistent))
    else Ok(Ranking(Take(found.value.hits, topK), None, None))
  }

  function Rank(order: (string, string) -> bool, naming: Naming, execution: Execution, mode: Mode,
                topK: nat): Result<Ranking, Failure> {
    match mode
    case VectorMode => RankSingle(Succeeding(execution.results, VectorBranch), topK)
    case GraphMode => RankSingle(Succeeding(execution.results, GraphBranch), topK)
    case HybridMode =>
      var fused := Fuse(order, HitsOf(Succeeding(execution.results, VectorBranch)),
                        HitsOf(Succeeding(execution.results, GraphBranch)), topK);
      if fused.Err? then Err(fused.error)
      else Ok(Ranking(fused.value.0, Some(fused.value.1), Reason(naming, FirstFailed(execution.results))))
  }

  /******* The validators *******/

  predicate IsFusionTrace(trace: FusionTrace) {
    && trace.missing in {[], [VectorBranch], [GraphBranch], [VectorBranch, GraphBranch]}
    && trace.duplicates <= trace.vectorInputs && trace.duplicates <= trace.graphInputs
    && trace.outputs <= trace.vectorInputs + trace.graphInputs - trace.duplicates
  }

  // SchedulerTrace: the request went through the frozen states, and a reason is given exactly for a partial one.
  predicate IsSchedulerTrace(r: Response) {
    && (r.status == Complete || r.status == Partial)
    && (r.events == [Received, Analyzing, Planning, Executing, Fusing, r.status]
        || r.events == [Received, Analyzing, Planning, Executing, Fusing, Reranking, r.status])
    && 1 <= |r.branches| <= 2
    && (r.status == Partial <==> r.fallbackReason.Some?)
  }

  function ResultFor(results: seq<BranchResult>, branch: Branch): Option<BranchResult> {
    if results == [] then None
    else if results[0].branch == branch then Some(results[0])
    else ResultFor(results[1..], branch)
  }

  predicate FusionInputMatches(r: Response, fusion: FusionTrace, branch: Branch, inputs: nat) {
    var result := ResultFor(r.branches, branch);
    if branch in fusion.missing then inputs == 0 && !(result.Some? && result.value.status == Succeeded)
    else result.Some? && result.value.status == Succeeded && |result.value.hits| == inputs
  }

  // The part of SearchTrace that depends on the outcome of the branches.
  predicate IsSearchTrace(r: Response, topK: nat) {
    && |r.results| <= topK
    && 1 <= |r.branches| <= 2 && (|r.branches| == 2 ==> r.branches[0].branch != r.branches[1].branch)
    && (r.graphTrace ==> ResultFor(r.branches, GraphBranch).Some?
                         && IsTerminal(ResultFor(r.branches, GraphBranch).value.status))
    && (ResultFor(r.branches, GraphBranch).Some? && ResultFor(r.branches, GraphBranch).value.status == Succeeded
        ==> r.graphTrace)
    && (r.fusion.Some? ==>
          && IsFusionTrace(r.fusion.value)
          && r.mode == HybridMode && r.fusion.value.outputs == |r.results|
          && FusionInputMatches(r, r.fusion.value, VectorBranch, r.fusion.value.vectorInputs)
          && FusionInputMatches(r, r.fusion.value, GraphBranch, r.fusion.value.graphInputs))
    && r.status == (if r.fallback then Partial else Complete)
    && (r.fallback ==> r.plannerReason == r.fallbackReason)
  }

  function Statuses(results: seq<BranchResult>): set<Status> {
    set r | r in results && r.status != NotScheduled :: r.status
  }

  // The validator of SearchResponse.
  predicate IsSearchResponse(r: Response) {
    var statuses := Statuses(r.branches);
    && (r.status == Partial <==> r.fallback)
    && Running !in statuses
    && (r.status == Complete ==> statuses == {Succeeded})
    && (r.status == Partial ==> Succeeded in statuses
                                && (TimedOut in statuses || Failed in statuses || Cancelled in statuses))
  }

  predicate IsAccepted(r: Response, topK: nat) {
    IsSchedulerTrace(r) && IsSearchTrace(r, topK) && IsSearchResponse(r)
  }

  predicate HasSucceeded(r: BranchResult) {
    r.status == Succeeded
  }

  /** What a response to a hybrid request says when the validators accept it: it is complete exactly when both branches
      succeeded, and otherwise partial, with one that did; it gives a reason exactly when it is partial, and its fusion
      counts what the branches that succeeded found. */
  lemma {:induction false} AcceptedSaysSo(r: Response, topK: nat, v: BranchResult, g: BranchResult)
    requires IsAccepted(r, topK) && r.branches == [v, g] && v.branch == VectorBranch && g.branch == GraphBranch
    requires IsTerminal(v.status) && IsTerminal(g.status)
    ensures r.status == (if HasSucceeded(v) && HasSucceeded(g) then Complete else Partial)
    ensures HasSucceeded(v) || HasSucceeded(g)
    ensures r.fallbackReason.Some? <==> r.status == Partial
    ensures r.fallback <==> r.status == Partial
    ensures r.status == Partial ==> r.plannerReason == r.fallbackReason
    ensures |r.results| <= topK && (HasSucceeded(g) ==> r.graphTrace)
    ensures r.events in {[Received, Analyzing, Planning, Executing, Fusing, r.status],
                         [Received, Analyzing, Planning, Executing, Fusing, Reranking, r.status]}
    ensures r.fusion.Some? ==> r.mode == HybridMode && IsFusionOf(r.fusion.value, v, g, |r.results|)
  {
    TwoForBranch(v, g);
    StatusesOfTwo(v, g);
  }

  // The inputs are the hits of the branches that succeeded, and what they share is counted once.
  ghost predicate IsFusionOf(fusion: FusionTrace, v: BranchResult, g: BranchResult, outputs: nat) {
    && (VectorBranch in fusion.missing <==> !HasSucceeded(v)) && (GraphBranch in fusion.missing <==> !HasSucceeded(g))
    && fusion.vectorInputs == (if HasSucceeded(v) then |v.hits| else 0)
    && fusion.graphInputs == (if HasSucceeded(g) then |g.hits| else 0)
    && fusion.duplicates <= fusion.vectorInputs && fusion.duplicates <= fusion.graphInputs
    && outputs == fusion.outputs && outputs + fusion.duplicates <= fusion.vectorInputs + fusion.graphInputs
    && |fusion.missing| <= 2 && (|fusion.missing| == 2 ==> fusion.missing[0] != fusion.missing[1])
  }

  lemma {:induction false} TwoForBranch(v: BranchResult, g: BranchResult)
    requires v.branch == VectorBranch && g.branch == GraphBranch
    ensures ResultFor([v, g], VectorBranch) == Some(v) && ResultFor([v, g], GraphBranch) == Some(g)
  {
    assert [v, g][1..] == [g];
    assert ResultFor([g], GraphBranch) == Some(g);
  }

  lemma {:induction false} StatusesOfTwo(v: BranchResult, g: BranchResult)
    requires IsTerminal(v.status) && IsTerminal(g.status)
    ensures v.status in Statuses([v, g]) && g.status in Statuses([v, g])
    ensures forall status :: status in Statuses([v, g]) ==> status in {v.status, g.status}
  {
    assert v in [v, g] && g in [v, g];
  }

  /** What a response to a request with one branch says when the validators accept it. */
  lemma {:induction false} AcceptedAloneSaysSo(r: Response, topK: nat, only: BranchResult)
    requires IsAccepted(r, topK) && r.branches == [only] && IsTerminal(only.status)
    ensures r.status == Complete && HasSucceeded(only) && r.fallbackReason == None && !r.fallback
    ensures |r.results| <= topK && (only.branch == GraphBranch <==> r.graphTrace)
  {
    assert only in [only];
    assert only.status in Statuses(r.branches);
    assert [only][1..] == [] && ResultFor([only][1..], GraphBranch) == None;
    assert ResultFor([only], GraphBranch) == if only.branch == GraphBranch then Some(only) else None;
  }

  /******* The end of _execute_request *******/

  // `plannerReason` is what planning said already, `late` whether the deadline had passed at the end.
  function Respond(order: (string, string) -> bool, naming: Naming, execution: Execution, mode: Mode, topK: nat,
                   plannerReason: Option<string>, late: bool): Result<Response, Failure>
  {
    var unusable := NoUsableBranch(execution.results);
    if unusable.Some? then Err(Raised(unusable.value))
    else
      var ranked := Rank(order, naming, execution, mode, topK);
      if ranked.Err? then Err(ranked.error)
      else
        var response := Build(execution, mode, plannerReason, ranked.value);
        if !IsAccepted(response, topK) then Err(Rejected)
        else if late then Err(Raised(DeadlineExceeded))
        else Ok(response)
  }

  function Build(execution: Execution, mode: Mode, plannerReason: Option<string>, ranking: Ranking): Response {
    var fallback := ranking.reason.Some?;
    var status := if fallback then Partial else Complete;
    Response(status, ranking.hits, execution.results, mode, [Received, Analyzing, Planning, Executing, Fusing, status],
             ranking.reason, if fallback then ranking.reason
                 else plannerReason, fallback, ranking.fusion, execution.graphTrace)
  }

  /******* What executions look like *******/

  lemma {:induction false} SingleResult(mode: Mode, execution: Execution) returns (r: BranchResult)
    requires IsExecution(mode, execution) && mode != HybridMode
    ensures execution.results == [r] && r.branch == Scheduled(mode)[0] && IsBranchResult(r) && IsTerminal(r.status)
  {
    assert |Map(BranchOf, execution.results)| == 1;
    r := execution.results[0];
    assert Map(BranchOf, execution.results)[0] == r.branch;
  }

  lemma {:induction false} HybridResults(execution: Execution) returns (v: BranchResult, g: BranchResult)
    requires IsExecution(HybridMode, execution)
    ensures execution.results == [v, g] && v.branch == VectorBranch && g.branch == GraphBranch
    ensures IsBranchResult(v) && IsTerminal(v.status) && IsBranchResult(g) && IsTerminal(g.status)
  {
    assert |Map(BranchOf, execution.results)| == 2;
    v, g := execution.results[0], execution.results[1];
    assert Map(BranchOf, execution.results)[0] == v.branch;
    assert Map(BranchOf, execution.results)[1] == g.branch;
  }

  // Both branches' fusion, in terms of the two results.
  lemma {:induction false} TwoResults(v: BranchResult, g: BranchResult)
    requires v.branch == VectorBranch && g.branch == GraphBranch
    ensures Succeeding([v, g], VectorBranch) == (if v.status == Succeeded then Some(v) else None)
    ensures Succeeding([v, g], GraphBranch) == (if g.status == Succeeded then Some(g) else None)
    ensures FirstFailed([v, g]) == (if v.status != Succeeded then Some(v) else if g.status != Succeeded then Some(g)
                                    else None)
    ensures ResultFor([v, g], VectorBranch) == Some(v) && ResultFor([v, g], GraphBranch) == Some(g)
  {
    assert [v, g][1..] == [g] && [g][1..] == [];
    assert Succeeding([g], GraphBranch) == (if g.status == Succeeded then Some(g) else None);
    assert Succeeding([g], VectorBranch) == None;
    assert FirstFailed([g]) == (if g.status != Succeeded then Some(g) else None);
    assert ResultFor([g], GraphBranch) == Some(g);
  }

  lemma {:induction false} OneResult(r: BranchResult)
    ensures Succeeding([r], r.branch) == (if r.status == Succeeded then Some(r) else None)
    ensures forall branch :: ResultFor([r], branch) == (if r.branch == branch then Some(r) else None)
  {
    assert [r][1..] == [];
  }

  lemma {:induction false} FusedCounts(v: seq<string>, g: seq<string>)
    requires IsIndexable(v) && IsIndexable(g)
    ensures |Dedup(v + g)| + CountIf(In(v), g) == |v| + |g|
    decreases |g|
  {
    if g == [] {
      assert v + g == v;
      DedupIsDistinct(v);
      DistinctSameElements(Dedup(v), v);
    } else {
      var init, last := g[..|g| - 1], g[|g| - 1];
      FusedCounts(v, init);
      assert g == init + [last];
      CountIfAppend(In(v), init, [last]);
      assert CountIf(In(v), [last]) == if last in v then 1 else 0;
      assert (v + g)[..|v + g| - 1] == v + init;
      assert (v + g)[|v + g| - 1] == last;
      assert last !in init;
    }
  }

  lemma {:induction false} CommonAreFew(v: seq<string>, g: seq<string>)
    requires IsIndexable(v) && IsIndexable(g)
    ensures CountIf(In(v), g) <= |v| && CountIf(In(v), g) <= |g|
  {
    CountIfAtMost(In(v), g);
    FusedCounts(v, g);
    DedupIsDistinct(v + g);
    forall x | x in g ensures x in Dedup(v + g) {
      InDedup(v + g, x);
    }
    if |Dedup(v + g)| < |g| {
      Pigeonhole(g, Dedup(v + g));
    }
  }

  /** A fusion trace is one that its validator accepts. */
  lemma {:induction false} FusionTraceIsValid(order: (string, string) -> bool, vector: Option<seq<string>>,
                                              graph: Option<seq<string>>, topK: nat)
    ensures var fused := Fuse(order, vector, graph, topK);
            fused.Ok? ==> IsFusionTrace(fused.value.1) && fused.value.1.outputs == |fused.value.0| <= topK
  {
    var v := if vector.Some? then vector.value else [];
    var g := if graph.Some? then graph.value else [];
    if IsIndexable(v) && IsIndexable(g) {
      CommonAreFew(v, g);
      FusedCounts(v, g);
      assert vector.None? ==> CountIf(In(v), g) == 0 by {
        if vector.None? {
          CountIfNone(In(v), g);
        }
      }
    }
  }

  /******* Results *******/

  // The branch was lost for a reason that is not fatal.
  predicate IsLost(r: BranchResult) {
    r.status != Succeeded && (r.error.None? || !IsFatal(r.error.value))
  }

  lemma {:induction false} UsableMeans(results: seq<BranchResult>)
    ensures NoUsableBranch(results) == None
            <==> FirstFatal(results) == None && exists r :: r in results && r.status == Succeeded
  {
  }

  lemma {:induction false} SingleIsAccepted(mode: Mode, execution: Execution, topK: nat, plannerReason: Option<string>,
                                            ranking: Ranking)
    requires IsExecution(mode, execution) && mode != HybridMode && NoUsableBranch(execution.results) == None
    requires RankSingle(Succeeding(execution.results, Scheduled(mode)[0]), topK) == Ok(ranking)
    ensures IsAccepted(Build(execution, mode, plannerReason, ranking), topK)
  {
    var r := SingleResult(mode, execution);
    OneResult(r);
    assert r.status == Succeeded;
    assert Statuses(execution.results) == {Succeeded};
  }

  lemma {:induction false} HybridTraceIsAccepted(execution: Execution, fusion: FusionTrace, hits: seq<string>,
                                                 order: (string, string) -> bool, topK: nat, v: BranchResult,
                                                 g: BranchResult, r: Response)
    requires execution.results == [v, g] && v.branch == VectorBranch && g.branch == GraphBranch && r.branches == [v, g]
    requires Fuse(order, HitsOf(Succeeding([v, g], VectorBranch)), HitsOf(Succeeding([v, g], GraphBranch)), topK)
             == Ok((hits, fusion))
    ensures FusionInputMatches(r, fusion, VectorBranch, fusion.vectorInputs)
    ensures FusionInputMatches(r, fusion, GraphBranch, fusion.graphInputs)
  {
    TwoResults(v, g);
  }

  lemma {:induction false} TwoStatuses(v: BranchResult, g: BranchResult)
    requires IsTerminal(v.status) && IsTerminal(g.status)
    ensures Statuses([v, g]) == {v.status, g.status}
  {
    assert v in [v, g] && g in [v, g];
  }

  lemma {:induction false} HybridIsAccepted(order: (string, string) -> bool, naming: Naming, execution: Execution,
                                            topK: nat, plannerReason: Option<string>, ranking: Ranking)
    requires IsExecution(HybridMode, execution) && NoUsableBranch(execution.results) == None
    requires Rank(order, naming, execution, HybridMode, topK) == Ok(ranking)
    ensures IsAccepted(Build(execution, HybridMode, plannerReason, ranking), topK)
  {
    var v, g := HybridResults(execution);
    TwoResults(v, g);
    TwoStatuses(v, g);
    assert v.status == Succeeded || g.status == Succeeded;
    HybridTraceHolds(order, naming, execution, topK, plannerReason, ranking, v, g);
  }

  lemma {:induction false} HybridTraceHolds(order: (string, string) -> bool, naming: Naming, execution: Execution,
                                            topK: nat, plannerReason: Option<string>, ranking: Ranking, v: BranchResult,
                                            g: BranchResult)
    requires IsExecution(HybridMode, execution) && execution.results == [v, g] && v.branch == VectorBranch
             && g.branch == GraphBranch
    requires IsTerminal(g.status) && Rank(order, naming, execution, HybridMode, topK) == Ok(ranking)
    ensures IsSearchTrace(Build(execution, HybridMode, plannerReason, ranking), topK)
  {
    TwoResults(v, g);
    var vector, graph := HitsOf(Succeeding([v, g], VectorBranch)), HitsOf(Succeeding([v, g], GraphBranch));
    FusionTraceIsValid(order, vector, graph, topK);
    HybridTraceIsAccepted(execution, ranking.fusion.value, ranking.hits, order, topK, v, g,
                          Build(execution, HybridMode, plannerReason, ranking));
    HybridEvidence(execution, v, g);
  }

  lemma {:induction false} HybridEvidence(execution: Execution, v: BranchResult, g: BranchResult)
    requires IsExecution(HybridMode, execution) && execution.results == [v, g] && g.branch == GraphBranch
    ensures g.status == Succeeded ==> execution.graphTrace
  {
    assert execution.results[1] == g;
  }

  /** Main result: whatever the branches came to, the engine answers with a response that every validator accepts,
      or with a typed error; it never looks up a branch that did not succeed and never builds a rejected response. */
  lemma {:induction false} EngineNeverRejectsItself(order: (string, string) -> bool, naming: Naming,
                                                    execution: Execution, mode: Mode, topK: nat,
                                                    plannerReason: Option<string>, late: bool)
    requires IsExecution(mode, execution)
    ensures var answer := Respond(order, naming, execution, mode, topK, plannerReason, late);
            if answer.Ok? then IsAccepted(answer.value, topK) else answer.error.Raised?
  {
    if NoUsableBranch(execution.results) == None {
      if mode == HybridMode {
        var ranked := Rank(order, naming, execution, mode, topK);
        if ranked.Ok? {
          HybridIsAccepted(order, naming, execution, topK, plannerReason, ranked.value);
        }
      } else {
        var r := SingleResult(mode, execution);
        OneResult(r);
        var ranked := RankSingle(Succeeding(execution.results, Scheduled(mode)[0]), topK);
        if ranked.Ok? {
          SingleIsAccepted(mode, execution, topK, plannerReason, ranked.value);
        }
      }
    }
  }

  /** Main result: a response is partial exactly when a hybrid request kept one branch and lost the other for a reason
      that is not fatal. */
  lemma {:induction false} PartialIffOneBranchLost(order: (string, string) -> bool, naming: Naming,
                                                   execution: Execution, mode: Mode, topK: nat,
                                                   plannerReason: Option<string>, late: bool)
    requires IsExecution(mode, execution) && Respond(order, naming, execution, mode, topK, plannerReason, late).Ok?
    ensures Respond(order, naming, execution, mode, topK, plannerReason, late).value.status == Partial
            <==> mode == HybridMode
                 && (exists kept :: kept in execution.results && kept.status == Succeeded)
                 && (exists lost :: lost in execution.results && IsLost(lost))
  {
    FirstFatalMeans(execution.results);
    if mode == HybridMode {
      var v, g := HybridResults(execution);
      TwoResults(v, g);
      assert v in execution.results && g in execution.results;
    }
  }

  /** When an answer is a response: in time, no branch failed fatally, some branch succeeded, and none of those that
      succeeded repeats a chunk. */
  lemma {:induction false} AnsweredIff(order: (string, string) -> bool, naming: Naming, execution: Execution,
                                       mode: Mode, topK: nat, plannerReason: Option<string>, late: bool)
    requires IsExecution(mode, execution)
    ensures Respond(order, naming, execution, mode, topK, plannerReason, late).Ok?
            <==> !late
                 && (forall r :: r in execution.results && r.error.Some? ==>
                       r.error.value !in {CorpusInconsistent, ModelIncompatible, PlanInvariantViolation, InternalError})
                 && (exists r :: r in execution.results && r.status == Succeeded)
                 && (forall r :: r in execution.results && r.status == Succeeded ==> IsIndexable(r.hits))
  {
    FirstFatalMeans(execution.results);
    UsableMeans(execution.results);
    EngineNeverRejectsItself(order, naming, execution, mode, topK, plannerReason, false);
    if NoUsableBranch(execution.results) == None {
      RankedIff(order, naming, execution, mode, topK);
    }
  }

  /** When a branch repeats a chunk, and nothing worse happened, the corpus is said to be inconsistent. */
  lemma {:induction false} RepeatedChunkCode(order: (string, string) -> bool, naming: Naming, execution: Execution,
                                             mode: Mode, topK: nat, plannerReason: Option<string>, late: bool,
                                             r: BranchResult)
    requires IsExecution(mode, execution) && r in execution.results && r.status == Succeeded && !IsIndexable(r.hits)
    requires forall other :: other in execution.results && other.error.Some? ==> !IsFatal(other.error.value)
    ensures Respond(order, naming, execution, mode, topK, plannerReason, late) == Err(Raised(CorpusInconsistent))
  {
    FirstFatalMeans(execution.results);
    UsableMeans(execution.results);
    if mode == HybridMode {
      var v, g := HybridResults(execution);
      TwoResults(v, g);
    } else {
      var only := SingleResult(mode, execution);
      OneResult(only);
    }
  }

  lemma {:induction false} RankedIff(order: (string, string) -> bool, naming: Naming, execution: Execution, mode: Mode,
                                     topK: nat)
    requires IsExecution(mode, execution) && NoUsableBranch(execution.results) == None
    ensures Rank(order, naming, execution, mode, topK).Ok?
            <==> forall r :: r in execution.results && r.status == Succeeded ==> IsIndexable(r.hits)
  {
    if mode == HybridMode {
      var v, g := HybridResults(execution);
      TwoResults(v, g);
      assert v in execution.results && g in execution.results;
    } else {
      var r := SingleResult(mode, execution);
      OneResult(r);
      assert r in execution.results;
    }
  }

  // The error that a request answers with when its only branch was lost.
  function SingleCode(r: BranchResult): Code {
    match r.status
    case TimedOut => DeadlineExceeded
    case Cancelled => DeadlineExceeded
    case _ =>
      if r.error.Some? && IsFatal(r.error.value) then r.error.value
      else if r.error == Some(ModeUnavailable) then ModeUnavailable
      else DependencyUnavailable
  }

  /** Why a request with one branch fails. */
  lemma {:induction false} SingleFailureCode(order: (string, string) -> bool, naming: Naming, execution: Execution,
                                             mode: Mode, topK: nat, plannerReason: Option<string>, late: bool,
                                             r: BranchResult)
    requires IsExecution(mode, execution) && mode != HybridMode && execution.results == [r] && r.status != Succeeded
    ensures Respond(order, naming, execution, mode, topK, plannerReason, late) == Err(Raised(SingleCode(r)))
  {
    var only := SingleResult(mode, execution);
    assert FirstFatal([r][1..]) == None;
    assert r in [r];
  }

  /** Why a hybrid request fails when both branches are lost, or one fatally: a fatal error of the vector branch comes
      first, then one of the graph branch; otherwise a branch that ran out of time decides. */
  lemma {:induction false} HybridFailureCode(order: (string, string) -> bool, naming: Naming, execution: Execution,
                                             topK: nat, plannerReason: Option<string>, late: bool, v: BranchResult,
                                             g: BranchResult)
    requires IsExecution(HybridMode, execution) && execution.results == [v, g]
    requires !(IsLost(v) || v.status == Succeeded) || !(IsLost(g) || g.status == Succeeded) || (IsLost(v) && IsLost(g))
    ensures Respond(order, naming, execution, HybridMode, topK, plannerReason, late) == Err(Raised(
              if !(IsLost(v) || v.status == Succeeded) then v.error.value
              else if !(IsLost(g) || g.status == Succeeded) then g.error.value
              else if v.status != Failed || g.status != Failed then DeadlineExceeded
              else if v.error == g.error == Some(ModeUnavailable) then ModeUnavailable
              else DependencyUnavailable))
  {
    var first, second := HybridResults(execution);
    assert [v, g][1..] == [g] && [g][1..] == [];
    assert FirstFatal([g]) == if g.error.Some? && IsFatal(g.error.value) then g.error else None;
    assert v in [v, g] && g in [v, g];
  }

  /** A response to a request with one branch has the first of that branch's hits, up to top-k, in its order, and no
      fusion trace. */
  lemma {:induction false} SingleHits(order: (string, string) -> bool, naming: Naming, execution: Execution,
                                      mode: Mode, topK: nat, plannerReason: Option<string>, late: bool, r: BranchResult)
    requires IsExecution(mode, execution) && mode != HybridMode && execution.results == [r]
    requires Respond(order, naming, execution, mode, topK, plannerReason, late).Ok?
    ensures var response := Respond(order, naming, execution, mode, topK, plannerReason, late).value;
            && response.results <= r.hits
            && |response.results| == (if |r.hits| <= topK then |r.hits| else topK)
            && response.fusion == None && response.fallbackReason == None && response.plannerReason == plannerReason
            && response.branches == [r] && response.mode == mode && response.status == Complete
  {
    var only := SingleResult(mode, execution);
    OneResult(r);
  }

  function IdsOf(hits: seq<string>): set<string> {
    set hit | hit in hits
  }

  // The results are distinct candidates, as many as fit, none of them after one that was left out.
  ghost predicate AreBest(order: (string, string) -> bool, results: seq<string>, candidates: set<string>, topK: nat) {
    && (forall i, j :: 0 <= i < j < |results| ==> results[i] != results[j] && order(results[i], results[j]))
    && IdsOf(results) <= candidates
    && |results| == (if |candidates| <= topK then |candidates| else topK)
    && (forall x, y :: x in results && y in candidates && y !in results ==> order(x, y))
  }

  /** A complete response to a hybrid request has the best of what either branch found, in the order of fusion, and its
      trace counts the hits of each branch and those that both found. */
  lemma {:induction false} HybridHits(order: (string, string) -> bool, naming: Naming, execution: Execution,
                                      topK: nat, plannerReason: Option<string>, late: bool, v: BranchResult,
                                      g: BranchResult)
    requires IsExecution(HybridMode, execution) && execution.results == [v, g] && TotalPreorder(order)
    requires Respond(order, naming, execution, HybridMode, topK, plannerReason, late).Ok?
    requires Respond(order, naming, execution, HybridMode, topK, plannerReason, late).value.status == Complete
    ensures var response := Respond(order, naming, execution, HybridMode, topK, plannerReason, late).value;
            && AreBest(order, response.results, IdsOf(v.hits) + IdsOf(g.hits), topK)
            && response.fusion == Some(FusionTrace(|v.hits|, |g.hits|, |response.results|,
                                                   |IdsOf(v.hits) * IdsOf(g.hits)|, []))
            && response.fallbackReason == None && response.plannerReason == plannerReason
            && response.branches == [v, g] && response.mode == HybridMode
  {
    CompleteIsFused(order, naming, execution, topK, plannerReason, late, v, g);
    FusedAreBest(order, v.hits, g.hits, topK);
    CommonAreBoth(v.hits, g.hits);
  }

  lemma {:induction false} CompleteIsFused(order: (string, string) -> bool, naming: Naming, execution: Execution,
                                           topK: nat, plannerReason: Option<string>, late: bool, v: BranchResult,
                                           g: BranchResult)
    requires IsExecution(HybridMode, execution) && execution.results == [v, g]
    requires Respond(order, naming, execution, HybridMode, topK, plannerReason, late).Ok?
    requires Respond(order, naming, execution, HybridMode, topK, plannerReason, late).value.status == Complete
    ensures var response := Respond(order, naming, execution, HybridMode, topK, plannerReason, late).value;
            && IsIndexable(v.hits) && IsIndexable(g.hits)
            && response.results == Take(Sort(order, Dedup(v.hits + g.hits)), topK)
            && response.fusion == Some(FusionTrace(|v.hits|, |g.hits|, |response.results|, CountIf(In(v.hits), g.hits),
                                                   []))
            && response.fallbackReason == None && response.plannerReason == plannerReason
            && response.branches == [v, g] && response.mode == HybridMode
  {
    var first, second := HybridResults(execution);
    TwoResults(v, g);
  }

  lemma {:induction false} FusedAreBest(order: (string, string) -> bool, v: seq<string>, g: seq<string>, topK: nat)
    requires TotalPreorder(order)
    ensures AreBest(order, Take(Sort(order, Dedup(v + g)), topK), IdsOf(v) + IdsOf(g), topK)
  {
    var all := Sort(order, Dedup(v + g));
    SortSorted(order, Dedup(v + g));
    SortedUnion(order, v, g);
    FirstAreBest(order, all, topK);
  }

  lemma {:induction false} SortedUnion(order: (string, string) -> bool, v: seq<string>, g: seq<string>)
    ensures Distinct(Sort(order, Dedup(v + g))) && IdsOf(Sort(order, Dedup(v + g))) == IdsOf(v) + IdsOf(g)
  {
    DedupIsDistinct(v + g);
    InSort(order, Dedup(v + g));
    DistinctMultiset(Dedup(v + g));
    DistinctMultiset(Sort(order, Dedup(v + g)));
  }

  lemma {:induction false} FirstAreBest(order: (string, string) -> bool, all: seq<string>, topK: nat)
    requires SortedBy(order, all) && Distinct(all)
    ensures AreBest(order, Take(all, topK), IdsOf(all), topK)
  {
    var results := Take(all, topK);
    SizeOfDistinct(all);
    forall x, y | x in results && y in all && y !in results ensures order(x, y) {
      LeftOutComesLater(order, all, topK, x, y);
    }
  }

  lemma {:induction false} LeftOutComesLater(order: (string, string) -> bool, all: seq<string>, topK: nat,
                                             x: string, y: string)
    requires SortedBy(order, all) && x in Take(all, topK) && y in all && y !in Take(all, topK)
    ensures order(x, y)
  {
    var results := Take(all, topK);
    var i :| 0 <= i < |results| && results[i] == x;
    var j :| 0 <= j < |all| && all[j] == y;
    assert forall k :: 0 <= k < |results| ==> results[k] == all[k] && results[k] != y;
  }

  lemma {:induction false} SizeOfDistinct(hits: seq<string>)
    requires Distinct(hits)
    ensures |IdsOf(hits)| == |hits|
  {
    if hits != [] {
      var init, last := hits[..|hits| - 1], hits[|hits| - 1];
      SizeOfDistinct(init);
      assert hits == init + [last];
      assert IdsOf(hits) == IdsOf(init) + {last};
    }
  }

  lemma {:induction false} CommonAreBoth(v: seq<string>, g: seq<string>)
    requires IsIndexable(g)
    ensures CountIf(In(v), g) == |IdsOf(v) * IdsOf(g)|
  {
    if g != [] {
      var init, last := g[..|g| - 1], g[|g| - 1];
      CommonAreBoth(v, init);
      CountIfAppend(In(v), init, [last]);
      assert g == init + [last];
      CommonOneMore(IdsOf(v), init, last);
    }
  }

  lemma {:induction false} CommonOneMore(v: set<string>, init: seq<string>, last: string)
    requires last !in init
    ensures |v * IdsOf(init + [last])| == |v * IdsOf(init)| + if last in v then 1 else 0
  {
    var before := v * IdsOf(init);
    assert v * IdsOf(init + [last]) == if last in v then before + {last} else before;
  }

  /** A partial response gives the hits of the branch that was kept, in its order, and names the one that was lost. */
  lemma {:induction false} PartialKeepsTheOther(order: (string, string) -> bool, naming: Naming, execution: Execution,
                                                topK: nat, plannerReason: Option<string>, late: bool, v: BranchResult,
                                                g: BranchResult)
    requires IsExecution(HybridMode, execution) && execution.results == [v, g]
    requires Respond(order, naming, execution, HybridMode, topK, plannerReason, late).Ok?
    requires Respond(order, naming, execution, HybridMode, topK, plannerReason, late).value.status == Partial
    ensures var response := Respond(order, naming, execution, HybridMode, topK, plannerReason, late).value;
            var kept := if v.status == Succeeded then v.hits else g.hits;
            && response.results <= kept && |response.results| == (if |kept| <= topK then |kept| else topK)
            && response.fallbackReason == response.plannerReason
               == Some(if v.status == Succeeded then "graph" + ":" + naming(g) else "vector" + ":" + naming(v))
            && response.fusion.Some? && response.fusion.value.duplicates == 0
            && response.fusion.value.missing == [if v.status == Succeeded then GraphBranch else VectorBranch]
            && response.branches == [v, g] && response.mode == HybridMode
  {
    var first, second := HybridResults(execution);
    TwoResults(v, g);
    assert v in execution.results && g in execution.results;
  }

  /******* The request's states *******/

  function Transitions(state: RequestState): set<RequestState> {
    match state
    case Received => {Analyzing}
    case Analyzing => {Planning, FailedRequest}
    case Planning => {Executing, FailedRequest}
    case Executing => {Fusing, FailedRequest}
    case Fusing => {Reranking, Complete, Partial, FailedRequest}
    case Reranking => {Complete, Partial, FailedRequest}
    case _ => {}
  }

  // Every event follows from the one before it.
  ghost predicate IsHistory(events: seq<RequestState>) {
    && events != [] && events[0] == Received
    && forall i :: 0 <= i < |events| - 1 ==> events[i + 1] in Transitions(events[i])
  }

  // The stages of a request that does not end early.
  const STAGES: seq<RequestState> := [Received, Analyzing, Planning, Executing, Fusing, Reranking]

  // The stages in order, and then possibly an end: a failure after the first two, a result after all or all but the
  // last.
  ghost predicate IsPath(events: seq<RequestState>) {
    && 1 <= |events| <= 7
    && (forall i :: 0 <= i < |events| - 1 ==> events[i] == STAGES[i])
    && MayStandAt(|events| - 1, events[|events| - 1])
  }

  predicate MayStandAt(n: nat, state: RequestState) {
    || (n < 6 && state == STAGES[n])
    || (n >= 2 && state == FailedRequest)
    || (n >= 5 && (state == Complete || state == Partial))
  }

  /** The histories that the table of transitions allows. */
  lemma {:induction false} IsHistoryIff(events: seq<RequestState>)
    ensures IsHistory(events) <==> IsPath(events)
    decreases |events|
  {
    if |events| > 1 {
      var init, last := events[..|events| - 1], events[|events| - 1];
      IsHistoryIff(init);
      assert events == init + [last];
      HistoryOneMore(init, last);
      if |init| <= 7 {
        PathOneMore(init, last);
      }
    }
  }

  lemma {:induction false} HistoryOneMore(init: seq<RequestState>, last: RequestState)
    requires init != []
    ensures IsHistory(init + [last]) <==> IsHistory(init) && last in Transitions(init[|init| - 1])
  {
    var all := init + [last];
    assert all[..|init|] == init && all[|init|] == last;
    if IsHistory(all) {
      forall i | 0 <= i < |init| - 1 ensures init[i + 1] in Transitions(init[i]) {
        assert all[i + 1] in Transitions(all[i]);
      }
    }
  }

  lemma {:induction false} PathOneMore(init: seq<RequestState>, last: RequestState)
    requires 1 <= |init| <= 7
    ensures IsPath(init + [last]) <==> IsPath(init) && last in Transitions(init[|init| - 1])
  {
    var all := init + [last];
    assert forall i :: 0 <= i < |init| ==> all[i] == init[i];
    assert all[|init|] == last;
  }

  class RequestStateMachine {
    var state: RequestState
    var events: seq<RequestState>

    ghost predicate Valid()
      reads this
    {
      IsHistory(events) && events[|events| - 1] == state
    }

    constructor ()
      ensures Valid() && events == [Received]
    {
      state, events := Received, [Received];
    }

    method Transition(target: RequestState) returns (legal: bool)
      requires Valid()
      modifies this
      ensures Valid() && (legal <==> target in Transitions(old(state)))
      ensures events == if legal then old(events) + [target] else old(events)
    {
      if target !in Transitions(state) {
        return false;
      }
      state := target;
      events := events + [target];
      legal := true;
    }

    method FailIfPossible()
      requires Valid()
      modifies this
      ensures Valid()
      ensures events == if FailedRequest in Transitions(old(state)) then old(events) + [FailedRequest] else old(events)
    {
      if FailedRequest in Transitions(state) {
        var legal := Transition(FailedRequest);
      }
    }
  }

  /** A request's history never goes on after it ended, so it records one outcome at most. */
  lemma {:induction false} OneOutcome(events: seq<RequestState>, i: nat)
    requires IsHistory(events) && i < |events| - 1
    ensures events[i] !in {Complete, Partial, FailedRequest}
  {
    assert events[i + 1] in Transitions(events[i]);
  }

  lemma {:induction false} RankedIsAnswered(order: (string, string) -> bool, naming: Naming, execution: Execution,
                                            mode: Mode, topK: nat, plannerReason: Option<string>, late: bool,
                                            ranking: Ranking)
    requires IsExecution(mode, execution) && NoUsableBranch(execution.results) == None
    requires Rank(order, naming, execution, mode, topK) == Ok(ranking)
    ensures Respond(order, naming, execution, mode, topK, plannerReason, late)
            == if late then Err(Raised(DeadlineExceeded)) else Ok(Build(execution, mode, plannerReason, ranking))
  {
    EngineNeverRejectsItself(order, naming, execution, mode, topK, plannerReason, false);
  }

  /** The last part of a request, from planning on; what it records is what its response reports. */
  method ExecuteRequest(states: RequestStateMachine, order: (string, string) -> bool, naming: Naming,
                        execution: Execution, mode: Mode, topK: nat, plannerReason: Option<string>, late: bool)
    returns (answer: Result<Response, Failure>)
    requires states.Valid() && states.events == [Received, Analyzing, Planning]
    requires IsExecution(mode, execution)
    modifies states
    ensures states.Valid()
    ensures answer == Respond(order, naming, execution, mode, topK, plannerReason, late)
    ensures answer.Ok? ==> states.events == answer.value.events
  {
    var legal := states.Transition(Executing);
    var unusable := NoUsableBranch(execution.results);
    if unusable.Some? {
      states.FailIfPossible();
      return Err(Raised(unusable.value));
    }
    legal := states.Transition(Fusing);
    var ranked := Rank(order, naming, execution, mode, topK);
    if ranked.Err? {
      states.FailIfPossible();
      return Err(ranked.error);
    }
    var fallback := ranked.value.reason.Some?;
    legal := states.Transition(if fallback then Partial else Complete);
    assert states.events == [Received, Analyzing, Planning, Executing, Fusing, states.state];
    var response := Build(execution, mode, plannerReason, ranked.value).(events := states.events);
    RankedIsAnswered(order, naming, execution, mode, topK, plannerReason, late, ranked.value);
    if late {
      states.FailIfPossible();
      return Err(Raised(DeadlineExceeded));
    }
    answer := Ok(response);
  }
}
