/** The protocol by which searches register with the engine and close calls shut it down, step by step. */
module Lifecycle {
  import opened Wrappers

  type TaskId = nat

  /******* The sections under the lifecycle lock *******/

  // `complete` is the event that waiting close calls wait for.
  datatype Shared = Shared(closing: bool, closed: bool, complete: bool, registered: set<TaskId>)

  datatype Role = AlreadyClosed | Owner(active: set<TaskId>) | Waiter

  // The registration of a search, unless the engine is shutting down.
  function Enter(shared: Shared, task: TaskId): Option<Shared> {
    if shared.closing then None else Some(shared.(registered := shared.registered + {task}))
  }

  function Leave(shared: Shared, task: TaskId): Shared {
    shared.(registered := shared.registered - {task})
  }

  // The first section of close.
  function BeginClose(shared: Shared, task: TaskId): (Shared, Role) {
    if shared.closed then (shared, AlreadyClosed)
    else if !shared.closing then (shared.(closing := true), Owner(shared.registered - {task}))
    else (shared, Waiter)
  }

  // The last section of close.
  function EndClose(shared: Shared): Shared {
    shared.(closed := true, complete := true)
  }

  class BaselineSearchEngine {
    var closing: bool
    var closed: bool
    var closeComplete: bool
    var requestTasks: set<TaskId>

    constructor ()
      ensures Now() == Shared(false, false, false, {})
    {
      closing, closed, closeComplete, requestTasks := false, false, false, {};
    }

    function Now(): Shared
      reads this
    {
      Shared(closing, closed, closeComplete, requestTasks)
    }

    method Register(task: TaskId) returns (ready: bool)
      modifies this`requestTasks
      ensures ready <==> Enter(old(Now()), task).Some?
      ensures Now() == if ready then Enter(old(Now()), task).value else old(Now())
      ensures ready <==> !closing
      ensures requestTasks == if ready then old(requestTasks) + {task} else old(requestTasks)
    {
      if closing {
        return false;
      }
      requestTasks := requestTasks + {task};
      ready := true;
    }

    method Unregister(task: TaskId)
      modifies this`requestTasks
      ensures Now() == Leave(old(Now()), task)
      ensures requestTasks == old(requestTasks) - {task}
    {
      requestTasks := requestTasks - {task};
    }

    method StartClosing(current: TaskId) returns (role: Role)
      modifies this`closing
      ensures (Now(), role) == BeginClose(old(Now()), current)
      ensures closing == (old(closing) || !closed)
      ensures role == if closed then AlreadyClosed else if old(closing) then Waiter else Owner(requestTasks - {current})
    {
      if closed {
        return AlreadyClosed;
      }
      var closeOwner := !closing;
      if closeOwner {
        closing := true;
        var active := set task | task in requestTasks && task != current;
        assert active == requestTasks - {current};
        return Owner(active);
      }
      role := Waiter;
    }

    method FinishClosing()
      modifies this`closed, this`closeComplete
      ensures Now() == EndClose(old(Now()))
      ensures closed && closeComplete
    {
      closed := true;
      closeComplete := true;
    }
  }

  /******* Tasks *******/

  // Where a task is in close. The owner awaits the other requests, then closes the vector backend and the graph
  // backend, whether or not they fail, and then publishes that closing is complete.
  datatype ClosePhase =
    | NotClosing | Waiting
    | Awaiting(active: set<TaskId>) | BeforeVector | InVector | BeforeGraph | InGraph | Publishing

  datatype Task = Task(searching: bool, phase: ClosePhase, finished: bool)

  const FRESH := Task(false, NotClosing, false)

  // The counters say how often each backend's close was called and came back.
  datatype State = State(shared: Shared, tasks: map<TaskId, Task>, owner: Option<TaskId>,
                         vectorCalls: nat, vectorReturns: nat, graphCalls: nat, graphReturns: nat)
  {
    function At(task: TaskId): Task {
      if task in tasks then tasks[task] else FRESH
    }

    function With(task: TaskId, at: Task): State {
      this.(tasks := tasks[task := at])
    }
  }

  const START := State(Shared(false, false, false, {}), map[], None, 0, 0, 0, 0)

  datatype Step =
    | Search(task: TaskId)                       // _run_search registers, or is refused
    | EndSearch(task: TaskId, discarded: bool)   // its last section, which a cancellation may prevent
    | FinishTask(task: TaskId)
    | CallClose(task: TaskId)
    | RequestsAreDone(task: TaskId)              // cancel_and_await returns
    | CallVector(task: TaskId) | VectorReturns(task: TaskId)
    | CallGraph(task: TaskId) | GraphReturns(task: TaskId)
    | Publish(task: TaskId)
    | CancelOwner(task: TaskId)                  // while it awaits the requests, or the lock in order to publish
    | WaiterReturns(task: TaskId)
    | CancelWaiter(task: TaskId)

  // Whether the task can take the step now.
  predicate Enabled(s: State, step: Step) {
    var at := s.At(step.task);
    match step
    case Search(_) => !at.finished && !at.searching && at.phase == NotClosing
    case EndSearch(_, _) => at.searching && at.phase == NotClosing
    case FinishTask(_) => !at.finished && !at.searching && at.phase == NotClosing
    case CallClose(_) => !at.finished && at.phase == NotClosing
    case RequestsAreDone(_) => at.phase.Awaiting? && forall other :: other in at.phase.active ==> s.At(other).finished
    case CallVector(_) => at.phase == BeforeVector
    case VectorReturns(_) => at.phase == InVector
    case CallGraph(_) => at.phase == BeforeGraph
    case GraphReturns(_) => at.phase == InGraph
    case Publish(_) => at.phase == Publishing
    case CancelOwner(_) => at.phase.Awaiting? || at.phase == Publishing
    case WaiterReturns(_) => at.phase == Waiting && s.shared.complete
    case CancelWaiter(_) => at.phase == Waiting
  }

  function Take(s: State, step: Step): State {
    var task, at := step.task, s.At(step.task);
    match step
    case Search(_) =>
      var entered := Enter(s.shared, task);
      if entered == None then s else s.With(task, at.(searching := true)).(shared := entered.value)
    case EndSearch(_, discarded) =>
      s.With(task, at.(searching := false)).(shared := if discarded then Leave(s.shared, task) else s.shared)
    case FinishTask(_) => s.With(task, at.(finished := true))
    case CallClose(_) =>
      var (shared, role) := BeginClose(s.shared, task);
      (match role
       case AlreadyClosed => s
       case Owner(active) => s.With(task, at.(phase := Awaiting(active))).(shared := shared, owner := Some(task))
       case Waiter => s.With(task, at.(phase := Waiting)))
    case RequestsAreDone(_) => s.With(task, at.(phase := BeforeVector))
    case CallVector(_) => s.With(task, at.(phase := InVector)).(vectorCalls := s.vectorCalls + 1)
    case VectorReturns(_) => s.With(task, at.(phase := BeforeGraph)).(vectorReturns := s.vectorReturns + 1)
    case CallGraph(_) => s.With(task, at.(phase := InGraph)).(graphCalls := s.graphCalls + 1)
    case GraphReturns(_) => s.With(task, at.(phase := Publishing)).(graphReturns := s.graphReturns + 1)
    case Publish(_) => s.With(task, at.(phase := NotClosing)).(shared := EndClose(s.shared))
    case CancelOwner(_) => s.With(task, at.(phase := NotClosing))
    case WaiterReturns(_) => s.With(task, at.(phase := NotClosing))
    case CancelWaiter(_) => s.With(task, at.(phase := NotClosing))
  }

  // A step that the task cannot take leaves the state as it is, so that every list of steps is a run.
  function Next(s: State, step: Step): State {
    if Enabled(s, step) then Take(s, step) else s
  }

  function After(s: State, steps: seq<Step>): State {
    if steps == [] then s else Next(After(s, steps[..|steps| - 1]), steps[|steps| - 1])
  }

  /******* The invariant *******/

  predicate IsOwnerPhase(phase: ClosePhase) {
    phase != NotClosing && phase != Waiting
  }

  ghost predicate TaskHolds(s: State, task: TaskId) {
    var at := s.At(task);
    && (at.searching ==> task in s.shared.registered && !at.finished)
    && (at.phase != NotClosing ==> !at.finished && s.shared.closing)
    && (IsOwnerPhase(at.phase) ==> s.owner == Some(task))
  }

  // Every other request task has finished.
  ghost predicate OthersAreFinished(s: State, owner: TaskId) {
    forall task :: task in s.shared.registered && task != owner ==> s.At(task).finished
  }

  ghost predicate HasReturned(s: State, vectorCalls: nat, vectorReturns: nat, graphCalls: nat, graphReturns: nat) {
    s.vectorCalls == vectorCalls && s.vectorReturns == vectorReturns && s.graphCalls == graphCalls
        && s.graphReturns == graphReturns
  }

  // How far the shutdown has come, by where its owner is.
  ghost predicate OwnerHolds(s: State, owner: TaskId) {
    match s.At(owner).phase
    case Awaiting(active) =>
      HasReturned(s, 0, 0, 0, 0) && !s.shared.closed && s.shared.registered - {owner} <= active && owner !in active
    case BeforeVector => HasReturned(s, 0, 0, 0, 0) && !s.shared.closed && OthersAreFinished(s, owner)
    case InVector => HasReturned(s, 1, 0, 0, 0) && !s.shared.closed && OthersAreFinished(s, owner)
    case BeforeGraph => HasReturned(s, 1, 1, 0, 0) && !s.shared.closed && OthersAreFinished(s, owner)
    case InGraph => HasReturned(s, 1, 1, 1, 0) && !s.shared.closed && OthersAreFinished(s, owner)
    case Publishing => HasReturned(s, 1, 1, 1, 1) && !s.shared.closed && OthersAreFinished(s, owner)
    case _ =>
      (HasReturned(s, 0, 0, 0, 0) && !s.shared.closed) || (HasReturned(s, 1, 1, 1, 1) && OthersAreFinished(s, owner))
  }

  ghost predicate Inv(s: State) {
    && (forall task :: TaskHolds(s, task))
    && (s.shared.closing <==> s.owner.Some?)
    && (s.shared.complete <==> s.shared.closed)
    && (s.owner == None ==> HasReturned(s, 0, 0, 0, 0) && !s.shared.closed)
    && (s.owner.Some? ==> OwnerHolds(s, s.owner.value))
  }

  lemma {:induction false} SearchKeepsInv(s: State, step: Step)
    requires Inv(s) && Enabled(s, step) && (step.Search? || step.EndSearch? || step.FinishTask?)
    ensures Inv(Take(s, step))
  {
    var after := Take(s, step);
    forall task ensures TaskHolds(after, task) {
      assert TaskHolds(s, task);
      assert TaskHolds(s, step.task);
    }
  }

  lemma {:induction false} CallKeepsInv(s: State, step: Step)
    requires Inv(s) && Enabled(s, step) && step.CallClose?
    ensures Inv(Take(s, step))
  {
    var after := Take(s, step);
    assert TaskHolds(s, step.task);
    forall task ensures TaskHolds(after, task) {
      assert TaskHolds(s, task);
    }
  }

  lemma {:induction false} LeavingKeepsInv(s: State, step: Step)
    requires Inv(s) && Enabled(s, step) && (step.CancelOwner? || step.WaiterReturns? || step.CancelWaiter?)
    ensures Inv(Take(s, step))
  {
    var after := Take(s, step);
    assert after == s.With(step.task, s.At(step.task).(phase := NotClosing));
    assert TaskHolds(s, step.task);
    forall task ensures TaskHolds(after, task) {
      assert TaskHolds(s, task);
    }
  }

  lemma {:induction false} OwnerKeepsInv(s: State, step: Step)
    requires Inv(s) && Enabled(s, step)
    requires step.RequestsAreDone? || step.CallVector? || step.VectorReturns? || step.CallGraph? || step.GraphReturns?
             || step.Publish?
    ensures Inv(Take(s, step))
  {
    var after := Take(s, step);
    assert TaskHolds(s, step.task);
    forall task ensures TaskHolds(after, task) {
      assert TaskHolds(s, task);
    }
    if step.RequestsAreDone? {
      forall task | task in after.shared.registered && task != step.task ensures after.At(task).finished {
        assert task in s.At(step.task).phase.active;
      }
    }
  }

  lemma {:induction false} NextKeepsInv(s: State, step: Step)
    requires Inv(s)
    ensures Inv(Next(s, step))
  {
    if Enabled(s, step) {
      match step
      case Search(_) => SearchKeepsInv(s, step);
      case EndSearch(_, _) => SearchKeepsInv(s, step);
      case FinishTask(_) => SearchKeepsInv(s, step);
      case CallClose(_) => CallKeepsInv(s, step);
      case CancelOwner(_) => LeavingKeepsInv(s, step);
      case WaiterReturns(_) => LeavingKeepsInv(s, step);
      case CancelWaiter(_) => LeavingKeepsInv(s, step);
      case _ => OwnerKeepsInv(s, step);
    }
  }

  lemma {:induction false} RunKeepsInv(s: State, steps: seq<Step>)
    requires Inv(s)
    ensures Inv(After(s, steps))
    decreases |steps|
  {
    if steps != [] {
      RunKeepsInv(s, steps[..|steps| - 1]);
      NextKeepsInv(After(s, steps[..|steps| - 1]), steps[|steps| - 1]);
    }
  }

  lemma {:induction false} StartHolds()
    ensures Inv(START)
  {
    forall task ensures TaskHolds(START, task) {
    }
  }

  /******* What every interleaving keeps *******/

  /** Main result: each backend's close is called at most once, the graph backend's after the vector backend's came
      back, and only when no task but the owner of the shutdown is still in a search. */
  lemma {:induction false} BackendsCloseOnce(steps: seq<Step>)
    ensures var s := After(START, steps);
            && s.graphReturns <= s.graphCalls <= s.vectorReturns <= s.vectorCalls <= 1
            && (s.vectorCalls == 1 ==>
                  && s.owner.Some?
                  && (forall task :: task != s.owner.value ==> !s.At(task).searching)
                  && OthersAreFinished(s, s.owner.value))
  {
    StartHolds();
    RunKeepsInv(START, steps);
    var s := After(START, steps);
    if s.vectorCalls == 1 {
      forall task | task != s.owner.value ensures !s.At(task).searching {
        assert TaskHolds(s, task);
      }
    }
  }

  /** Main result: a close call that returns because it waited, or because the engine was closed already, returns
      after both backends' closes came back. */
  lemma {:induction false} ReturningCloseIsAfterBoth(steps: seq<Step>, step: Step)
    requires Enabled(After(START, steps), step)
    requires step.WaiterReturns? || (step.CallClose? && After(START, steps).shared.closed)
    ensures var s := After(START, steps); s.vectorReturns == 1 && s.graphReturns == 1
  {
    StartHolds();
    RunKeepsInv(START, steps);
  }

  // Nothing but this task and the registered tasks may differ.
  ghost predicate OnlyTaskMoved(s: State, after: State, task: TaskId) {
    && after.shared.closing == s.shared.closing && after.shared.closed == s.shared.closed
    && after.shared.complete == s.shared.complete && after.owner == s.owner
    && HasReturned(after, s.vectorCalls, s.vectorReturns, s.graphCalls, s.graphReturns)
    && forall other :: other != task ==> after.At(other) == s.At(other)
  }

  predicate IsIdle(at: Task) {
    !at.finished && !at.searching && at.phase == NotClosing
  }

  /** A search that begins while the engine is open registers its task, whatever the other tasks do, and one that begins
      later is refused; nothing else changes. */
  lemma {:induction false} SearchRegistersIff(s: State, task: TaskId)
    requires IsIdle(s.At(task))
    ensures var after := Next(s, Search(task));
            && OnlyTaskMoved(s, after, task)
            && after.At(task) == Task(!s.shared.closing, NotClosing, false)
            && after.shared.registered == (if s.shared.closing then s.shared.registered
                                           else s.shared.registered + {task})
  {
  }

  /** Its last section ends the search, and takes its task out again, and no other, unless it is cancelled first. */
  lemma {:induction false} SearchEnds(s: State, task: TaskId, discarded: bool)
    requires s.At(task).searching && s.At(task).phase == NotClosing
    ensures var after := Next(s, EndSearch(task, discarded));
            && OnlyTaskMoved(s, after, task)
            && !after.At(task).searching && after.At(task).phase == NotClosing
            && after.shared.registered == (if discarded then s.shared.registered - {task} else s.shared.registered)
  {
  }

  /** A close call owns the shutdown exactly when none came before it, and then awaits every other task that is
      registered; it waits when the shutdown is under way, and returns when it is over. */
  lemma {:induction false} CallTakesItsRole(s: State, task: TaskId)
    requires Inv(s) && !s.At(task).finished && s.At(task).phase == NotClosing
    ensures var after := Next(s, CallClose(task));
            && after.shared.closing && after.shared.closed == s.shared.closed
            && after.shared.registered == s.shared.registered
            && after.owner == (if s.shared.closing then s.owner else Some(task))
            && after.At(task).phase == (if s.shared.closed then NotClosing
                                        else if s.shared.closing then Waiting
                                        else Awaiting(s.shared.registered - {task}))
            && forall other :: other != task ==> after.At(other) == s.At(other)
  {
  }

  /** A waiting call returns exactly when the shutdown is complete, or is cancelled; nothing else changes. */
  lemma {:induction false} WaiterLeaves(s: State, task: TaskId)
    requires s.At(task).phase == Waiting
    ensures var after := Next(s, WaiterReturns(task));
            && OnlyTaskMoved(s, after, task) && after.shared.registered == s.shared.registered
            && (after.At(task).phase == NotClosing <==> s.shared.complete)
    ensures var after := Next(s, CancelWaiter(task));
            && OnlyTaskMoved(s, after, task) && after.shared.registered == s.shared.registered
            && after.At(task).phase == NotClosing
  {
  }

  /** The owner's last step publishes that closing is complete, and then its call returns; when it is cancelled before
      that, its call ends with nothing published. */
  lemma {:induction false} OwnerLeaves(s: State, task: TaskId)
    ensures s.At(task).phase == Publishing ==>
              var after := Next(s, Publish(task));
              && after.At(task) == s.At(task).(phase := NotClosing) && after.shared.closed && after.shared.complete
              && after.owner == s.owner && forall other :: other != task ==> after.At(other) == s.At(other)
    ensures s.At(task).phase == Publishing || s.At(task).phase.Awaiting? ==>
              var after := Next(s, CancelOwner(task));
              OnlyTaskMoved(s, after, task) && after.At(task) == s.At(task).(phase := NotClosing)
  {
  }

  lemma {:induction false} ClosingStays(s: State, step: Step)
    requires Inv(s) && s.shared.closing
    ensures var after := Next(s, step);
            && after.shared.closing && after.owner == s.owner && after.shared.registered <= s.shared.registered
            && (s.shared.closed ==> after.shared.closed)
            && forall task :: after.At(task).searching ==> s.At(task).searching
  {
  }

  /** Main result: once closing has started it never stops, its owner never changes, no request registers, and
      whoever is searching later was searching before. */
  lemma {:induction false} NoRequestAfterClosing(steps: seq<Step>, k: nat)
    requires k <= |steps| && After(START, steps[..k]).shared.closing
    ensures var early, now := After(START, steps[..k]), After(START, steps);
            && now.shared.closing && now.owner == early.owner && now.shared.registered <= early.shared.registered
            && (early.shared.closed ==> now.shared.closed)
            && forall task :: now.At(task).searching ==> early.At(task).searching
    decreases |steps|
  {
    if k == |steps| {
      assert steps[..k] == steps;
    } else {
      var before := steps[..|steps| - 1];
      assert before[..k] == steps[..k];
      NoRequestAfterClosing(before, k);
      StartHolds();
      RunKeepsInv(START, before);
      ClosingStays(After(START, before), steps[|steps| - 1]);
    }
  }

  /******* When closing ends *******/

  // How many steps of its own the owner still has to take.
  function Rank(phase: ClosePhase): nat {
    match phase
    case Awaiting(_) => 6
    case BeforeVector => 5
    case InVector => 4
    case BeforeGraph => 3
    case InGraph => 2
    case Publishing => 1
    case _ => 0
  }

  predicate IsAdvance(step: Step) {
    step.RequestsAreDone? || step.CallVector? || step.VectorReturns? || step.CallGraph? || step.GraphReturns?
        || step.Publish?
  }

  // How many of them it takes in a run.
  function Advances(s: State, steps: seq<Step>, owner: TaskId): nat {
    if steps == [] then 0
    else
      var before, last := steps[..|steps| - 1], steps[|steps| - 1];
      Advances(s, before, owner)
      + if IsAdvance(last) && last.task == owner && Enabled(After(s, before), last) then 1 else 0
  }

  // The owner was not cancelled: it is still at work exactly as long as the engine is not closed.
  ghost predicate IsAtWork(s: State, owner: TaskId) {
    s.owner == Some(owner) && (IsOwnerPhase(s.At(owner).phase) <==> !s.shared.closed)
  }

  lemma {:induction false} StaysAtWork(s: State, step: Step, owner: TaskId)
    requires Inv(s) && IsAtWork(s, owner) && step != CancelOwner(owner)
    ensures IsAtWork(Next(s, step), owner)
    ensures Rank(s.At(owner).phase)
            == Rank(Next(s, step).At(owner).phase) + if IsAdvance(step) && step.task == owner && Enabled(s, step) then 1
                else 0
  {
    assert TaskHolds(s, owner) && TaskHolds(s, step.task);
  }

  /** Main result: an owner that is not cancelled closes the engine in every interleaving. The engine is closed exactly
      when the owner has taken the steps that were left to it, and then both backends' closes have come back. */
  lemma {:induction false} ShutdownCloses(s: State, steps: seq<Step>, owner: TaskId)
    requires Inv(s) && IsAtWork(s, owner)
    requires forall i :: 0 <= i < |steps| ==> steps[i] != CancelOwner(owner)
    ensures var after := After(s, steps);
            && IsAtWork(after, owner)
            && Rank(after.At(owner).phase) + Advances(s, steps, owner) == Rank(s.At(owner).phase)
            && (after.shared.closed <==> Advances(s, steps, owner) == Rank(s.At(owner).phase))
            && (after.shared.closed ==> after.shared.complete && after.vectorReturns == 1 && after.graphReturns == 1)
    decreases |steps|
  {
    RunKeepsInv(s, steps);
    if steps != [] {
      var before, last := steps[..|steps| - 1], steps[|steps| - 1];
      ShutdownCloses(s, before, owner);
      RunKeepsInv(s, before);
      StaysAtWork(After(s, before), last, owner);
    }
  }

  lemma {:induction false} AfterAppend(s: State, a: seq<Step>, b: seq<Step>)
    ensures After(s, a + b) == After(After(s, a), b)
    decreases |b|
  {
    if b == [] {
      assert a + b == a;
    } else {
      var init := b[..|b| - 1];
      AfterAppend(s, a, init);
      assert (a + b)[..|a + b| - 1] == a + init;
    }
  }

  // A task that is not the owner can always come to its end.
  function Ending(task: TaskId): seq<Step> {
    [CancelWaiter(task), EndSearch(task, true), FinishTask(task)]
  }

  lemma {:induction false} AfterThree(s: State, a: Step, b: Step, c: Step)
    ensures After(s, [a, b, c]) == Next(Next(Next(s, a), b), c)
  {
    AfterTwo(s, a, b);
    AfterOneMore(s, [a, b], c);
    assert [a, b] + [c] == [a, b, c];
  }

  lemma {:induction false} TaskCanEnd(s: State, task: TaskId)
    requires Inv(s) && s.owner != Some(task)
    ensures var after := After(s, Ending(task));
            && after.At(task).finished && after.owner == s.owner && after.shared.closed == s.shared.closed
            && forall other :: other != task ==> after.At(other) == s.At(other)
  {
    AfterThree(s, CancelWaiter(task), EndSearch(task, true), FinishTask(task));
    assert TaskHolds(s, task);
  }

  function Unfinished(s: State, tasks: set<TaskId>): set<TaskId> {
    set task | task in tasks && !s.At(task).finished
  }

  lemma {:induction false} TasksCanEnd(s: State, owner: TaskId, tasks: set<TaskId>) returns (steps: seq<Step>)
    requires Inv(s) && s.owner == Some(owner) && owner !in tasks
    ensures var after := After(s, steps);
            && Inv(after) && after.owner == s.owner && after.At(owner) == s.At(owner)
                && after.shared.closed == s.shared.closed
            && forall task :: task in tasks ==> after.At(task).finished
    decreases Unfinished(s, tasks)
  {
    if forall task :: task in tasks ==> s.At(task).finished {
      steps := [];
    } else {
      var task :| task in tasks && !s.At(task).finished;
      TaskCanEnd(s, task);
      RunKeepsInv(s, Ending(task));
      var next := After(s, Ending(task));
      assert task in Unfinished(s, tasks) && task !in Unfinished(next, tasks);
      assert Unfinished(next, tasks) <= Unfinished(s, tasks);
      var rest := TasksCanEnd(next, owner, tasks);
      steps := Ending(task) + rest;
      AfterAppend(s, Ending(task), rest);
    }
  }

  // The steps of close in their order; those that are behind the owner do nothing.
  function Shutdown(owner: TaskId): seq<Step> {
    [RequestsAreDone(owner), CallVector(owner), VectorReturns(owner), CallGraph(owner), GraphReturns(owner),
     Publish(owner)]
  }

  ghost predicate CanAdvance(s: State, owner: TaskId) {
    s.At(owner).phase.Awaiting? ==> Enabled(s, RequestsAreDone(owner))
  }

  lemma {:induction false} ShutdownAdvances(s: State, owner: TaskId, k: nat)
    requires k < 6 && Rank(s.At(owner).phase) <= 6 - k && CanAdvance(s, owner)
    ensures Rank(Next(s, Shutdown(owner)[k]).At(owner).phase) <= 5 - k
    ensures CanAdvance(Next(s, Shutdown(owner)[k]), owner)
  {
  }

  lemma {:induction false} ShutdownRuns(s: State, owner: TaskId, k: nat)
    requires k <= 6 && CanAdvance(s, owner)
    ensures Rank(After(s, Shutdown(owner)[..k]).At(owner).phase) <= 6 - k
    ensures CanAdvance(After(s, Shutdown(owner)[..k]), owner)
  {
    if k > 0 {
      var steps := Shutdown(owner);
      ShutdownRuns(s, owner, k - 1);
      ShutdownAdvances(After(s, steps[..k - 1]), owner, k - 1);
      assert steps[..k][..k - 1] == steps[..k - 1];
    }
  }

  lemma {:induction false} OwnerCanClose(s: State, owner: TaskId) returns (steps: seq<Step>)
    requires Inv(s) && s.owner == Some(owner) && IsOwnerPhase(s.At(owner).phase)
    ensures After(s, steps).shared.closed
  {
    var active := if s.At(owner).phase.Awaiting? then s.At(owner).phase.active else {};
    var ending := TasksCanEnd(s, owner, active);
    var next := After(s, ending);
    steps := ending + Shutdown(owner);
    AfterAppend(s, ending, Shutdown(owner));
    ShutdownRuns(next, owner, 6);
    assert Shutdown(owner)[..6] == Shutdown(owner);
    ShutdownCloses(next, Shutdown(owner), owner);
  }

  // The owner was cancelled before it published.
  ghost predicate IsStranded(s: State) {
    s.owner.Some? && !IsOwnerPhase(s.At(s.owner.value).phase) && !s.shared.closed
  }

  lemma {:induction false} StrandedStays(s: State, step: Step)
    requires Inv(s) && IsStranded(s)
    ensures IsStranded(Next(s, step))
    ensures HasReturned(Next(s, step), s.vectorCalls, s.vectorReturns, s.graphCalls, s.graphReturns)
  {
    assert TaskHolds(s, step.task);
  }

  /** What the protocol does not give: when its owner is cancelled while it awaits the requests, or the lock in order to
      publish, the engine stays closing for ever, no backend's close is called any more, and no waiting call returns. */
  lemma {:induction false} CancelledOwnerStrandsClose(s: State, steps: seq<Step>)
    requires Inv(s) && IsStranded(s)
    ensures var after := After(s, steps);
            && IsStranded(after) && after.shared.closing && !after.shared.closed
            && HasReturned(after, s.vectorCalls, s.vectorReturns, s.graphCalls, s.graphReturns)
            && forall task :: !Enabled(after, WaiterReturns(task))
    decreases |steps|
  {
    RunKeepsInv(s, steps);
    if steps != [] {
      var before := steps[..|steps| - 1];
      CancelledOwnerStrandsClose(s, before);
      RunKeepsInv(s, before);
      StrandedStays(After(s, before), steps[|steps| - 1]);
    }
  }

  ghost predicate CanClose(s: State) {
    exists steps :: After(s, steps).shared.closed
  }

  /** Main result: once closing has started, it can still be completed exactly when it is complete already or its owner
      is still at work. */
  lemma {:induction false} CanCloseIff(steps: seq<Step>)
    requires After(START, steps).shared.closing
    ensures After(START, steps).owner.Some?
    ensures var s := After(START, steps); CanClose(s) <==> s.shared.closed || IsOwnerPhase(s.At(s.owner.value).phase)
  {
    StartHolds();
    RunKeepsInv(START, steps);
    var s := After(START, steps);
    if s.shared.closed {
      assert After(s, []).shared.closed;
    } else if IsOwnerPhase(s.At(s.owner.value).phase) {
      var more := OwnerCanClose(s, s.owner.value);
    } else {
      forall more ensures !After(s, more).shared.closed {
        CancelledOwnerStrandsClose(s, more);
      }
    }
  }

  lemma {:induction false} AfterOneMore(s: State, steps: seq<Step>, step: Step)
    ensures After(s, steps + [step]) == Next(After(s, steps), step)
  {
    assert (steps + [step])[..|steps|] == steps;
  }

  // The owner calls close, another task waits for it, and the owner is cancelled.
  const CANCELLED_WHILE_AWAITING: seq<Step> := [CallClose(0), CallClose(1), CancelOwner(0)]

  /** Such a run, cancelled while the requests are awaited: task 1 waits for ever, and no backend was closed. */
  lemma {:induction false} CancelledWhileAwaiting()
    ensures var s := After(START, CANCELLED_WHILE_AWAITING);
            Inv(s) && IsStranded(s) && s.At(1).phase == Waiting && s.vectorCalls == 0 && !CanClose(s)
  {
    AfterThree(START, CallClose(0), CallClose(1), CancelOwner(0));
    CanCloseIff(CANCELLED_WHILE_AWAITING);
    StartHolds();
    RunKeepsInv(START, CANCELLED_WHILE_AWAITING);
  }

  /** And one cancelled before it publishes: task 1 waits for ever, although both backends were closed. */
  lemma {:induction false} CancelledWhilePublishing()
    ensures var s := After(START, [CallClose(0), CallClose(1)] + Shutdown(0)[..5] + [CancelOwner(0)]);
            Inv(s) && IsStranded(s) && s.At(1).phase == Waiting && s.vectorReturns == 1 && s.graphReturns == 1
                && !CanClose(s)
  {
    var calls, steps := [CallClose(0), CallClose(1)], [CallClose(0), CallClose(1)] + Shutdown(0)[..5];
    var called := After(START, calls);
    AfterTwo(START, CallClose(0), CallClose(1));
    AfterAppend(START, calls, Shutdown(0)[..5]);
    BackendsClose(called, 0);
    assert 1 != 0 && After(START, steps).At(1) == called.At(1);
    assert called.At(1).phase == Waiting;
    AfterOneMore(START, steps, CancelOwner(0));
    CanCloseIff(steps + [CancelOwner(0)]);
    StartHolds();
    RunKeepsInv(START, steps + [CancelOwner(0)]);
  }

  lemma {:induction false} AfterTwo(s: State, a: Step, b: Step)
    ensures After(s, [a, b]) == Next(Next(s, a), b)
  {
    AfterOneMore(s, [], a);
    AfterOneMore(s, [a], b);
    assert [] + [a] == [a] && [a] + [b] == [a, b];
  }

  // Between the two states only the owner of the shutdown and the counters of the backends' calls moved.
  ghost predicate OnlyOwnerMoved(s: State, after: State, owner: TaskId) {
    && after.shared == s.shared && after.owner == s.owner
    && forall other :: other != owner ==> after.At(other) == s.At(other)
  }

  lemma {:induction false} VectorCloses(s: State, owner: TaskId)
    requires s.At(owner).phase == Awaiting({})
    ensures var after := After(s, [RequestsAreDone(owner), CallVector(owner), VectorReturns(owner)]);
            && after.At(owner).phase == BeforeGraph && OnlyOwnerMoved(s, after, owner)
            && after.vectorReturns == s.vectorReturns + 1 && after.graphReturns == s.graphReturns
  {
    AfterThree(s, RequestsAreDone(owner), CallVector(owner), VectorReturns(owner));
    var ready := Next(s, RequestsAreDone(owner));
    assert ready.At(owner).phase == BeforeVector && OnlyOwnerMoved(s, ready, owner);
    VectorReturnsOnce(ready, owner);
  }

  lemma {:induction false} VectorReturnsOnce(s: State, owner: TaskId)
    requires s.At(owner).phase == BeforeVector
    ensures var after := Next(Next(s, CallVector(owner)), VectorReturns(owner));
            && after.At(owner).phase == BeforeGraph && OnlyOwnerMoved(s, after, owner)
            && after.vectorReturns == s.vectorReturns + 1 && after.graphReturns == s.graphReturns
  {
  }

  lemma {:induction false} GraphCloses(s: State, owner: TaskId)
    requires s.At(owner).phase == BeforeGraph
    ensures var after := After(s, [CallGraph(owner), GraphReturns(owner)]);
            && after.At(owner).phase == Publishing && OnlyOwnerMoved(s, after, owner)
            && after.vectorReturns == s.vectorReturns && after.graphReturns == s.graphReturns + 1
  {
    AfterTwo(s, CallGraph(owner), GraphReturns(owner));
  }

  lemma {:induction false} BackendsClose(s: State, owner: TaskId)
    requires s.At(owner).phase == Awaiting({})
    ensures var after := After(s, Shutdown(owner)[..5]);
            && after.At(owner).phase == Publishing && OnlyOwnerMoved(s, after, owner)
            && after.vectorReturns == s.vectorReturns + 1 && after.graphReturns == s.graphReturns + 1
  {
    var vector, graph := [RequestsAreDone(owner), CallVector(owner), VectorReturns(owner)],
        [CallGraph(owner), GraphReturns(owner)];
    assert Shutdown(owner)[..5] == vector + graph;
    VectorCloses(s, owner);
    GraphCloses(After(s, vector), owner);
    AfterAppend(s, vector, graph);
  }
}
