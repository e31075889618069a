/** The bounded queue between requests and the worker that writes traces, and how it is closed. */
module Tracing {
  import opened Wrappers
  import opened Counting

  type Event = string

  // A queued event, or the sentinel that close puts behind the last one.
  datatype Item = Event(event: Event) | Sentinel

  datatype WorkerState = NotStarted | Running | Finished | CancelledWorker

  // Where the close call that set the flag is: it waits to put the sentinel, then for the worker.
  datatype Closer = NoCloser | Putting | Joining | Returned | Interrupted

  // The fields of the writer; `inFlight` is the event the worker has taken and not yet written.
  datatype Writer = Writer(capacity: nat, queue: Option<seq<Item>>, inFlight: Option<Event>, worker: WorkerState,
                           closed: bool, closer: Closer, written: nat, failures: nat, dropped: nat, output: seq<Event>)

  function New(capacity: nat): Writer {
    Writer(capacity, None, None, NotStarted, false, NoCloser, 0, 0, 0, [])
  }

  /******* The operations *******/

  // start, whose preparations may fail
  function Start(w: Writer, works: bool): Writer {
    if w.worker != NotStarted || w.closed then w
    else if !works then w.(failures := w.failures + 1)
    else w.(queue := Some([]), worker := Running)
  }

  // _enqueue
  function Offer(w: Writer, event: Event): Writer {
    if w.queue == None || w.closed then w
    else if |w.queue.value| >= w.capacity then w.(dropped := w.dropped + 1)
    else w.(queue := Some(w.queue.value + [Event(event)]))
  }

  predicate CanTake(w: Writer) {
    w.worker == Running && w.inFlight == None && w.queue.Some? && w.queue.value != []
  }

  // The worker gets the next item.
  function Take(w: Writer): Writer
    requires CanTake(w)
  {
    var item, rest := w.queue.value[0], w.queue.value[1..];
    match item
    case Sentinel => w.(queue := Some(rest), worker := Finished)
    case Event(event) => w.(queue := Some(rest), inFlight := Some(event))
  }

  // The worker writes what it has taken; a write may fail.
  function Write(w: Writer, works: bool): Writer
    requires w.inFlight.Some?
  {
    if works then w.(inFlight := None, written := w.written + 1, output := w.output + [w.inFlight.value])
    else w.(inFlight := None, failures := w.failures + 1)
  }

  // The beginning of close; a call that finds the flag set returns at once.
  function CallClose(w: Writer): Writer {
    if w.closed then w
    else if w.queue.Some? && w.worker != NotStarted then w.(closed := true, closer := Putting)
    else w.(closed := true, closer := Returned)
  }

  predicate CanPut(w: Writer) {
    w.closer == Putting && w.queue.Some? && |w.queue.value| < w.capacity
  }

  function PutSentinel(w: Writer): Writer
    requires CanPut(w)
  {
    w.(queue := Some(w.queue.value + [Sentinel]), closer := Joining)
  }

  // The end of close, when the worker is done; closing the handler may fail.
  function FinishClose(w: Writer, works: bool): Writer {
    w.(queue := None, closer := Returned, failures := if works then w.failures else w.failures + 1)
  }

  // Cancelling the closing task while it waits for the worker cancels the worker too.
  function CancelClose(w: Writer): Writer {
    w.(closer := Interrupted, worker := if w.closer == Joining && w.worker == Running then CancelledWorker
       else w.worker)
  }

  /******* The writer as an object *******/

  class RedactedTraceWriter {
    const capacity: nat
    var queue: Option<seq<Item>>
    var inFlight: Option<Event>
    var worker: WorkerState
    var closed: bool
    var closer: Closer
    var written: nat
    var failures: nat
    var dropped: nat
    var output: seq<Event>

    constructor (capacity: nat)
      ensures Now() == New(capacity)
    {
      this.capacity := capacity;
      queue, inFlight, worker, closed, closer := None, None, NotStarted, false, NoCloser;
      written, failures, dropped, output := 0, 0, 0, [];
    }

    function Now(): Writer
      reads this
    {
      Writer(capacity, queue, inFlight, worker, closed, closer, written, failures, dropped, output)
    }

    method StartWorker(works: bool)
      modifies this
      ensures Now() == Start(old(Now()), works)
    {
      if worker != NotStarted || closed {
        return;
      }
      if works {
        queue := Some([]);
        worker := Running;
      } else {
        failures := failures + 1;
      }
    }

    method Enqueue(event: Event)
      modifies this`queue, this`dropped
      ensures Now() == Offer(old(Now()), event)
    {
      if queue == None || closed {
        return;
      }
      if |queue.value| >= capacity {
        dropped := dropped + 1;
      } else {
        queue := Some(queue.value + [Event(event)]);
      }
    }

    method WriteEvent(event: Event, works: bool)
      modifies this`output, this`written, this`failures
      ensures Now() == if works then old(Now()).(output := old(output) + [event], written := old(written) + 1)
                       else old(Now()).(failures := old(failures) + 1)
    {
      if works {
        output := output + [event];
        written := written + 1;
      } else {
        failures := failures + 1;
      }
    }

    // The worker's loop, as long as there is something to take; `works` says which writes succeed.
    method Drain(works: seq<bool>)
      requires worker == Running && inFlight == None && queue.Some? && |queue.value| <= |works|
      modifies this
      ensures Now() == Drained(old(Now()), works)
    {
      ghost var start := Now();
      var turn: nat := 0;
      while worker == Running && queue.value != []
        invariant inFlight == None && queue.Some? && turn + |queue.value| <= |works|
        invariant Drained(Now(), works[turn..]) == Drained(start, works)
        decreases |queue.value|
      {
        TurnIsDrained(Now(), works[turn..]);
        ghost var next := Turned(Now(), works[turn]);
        var item := queue.value[0];
        queue := Some(queue.value[1..]);
        if item == Sentinel {
          worker := Finished;
        } else {
          WriteEvent(item.event, works[turn]);
        }
        assert Now() == next && works[turn..][1..] == works[turn + 1..];
        turn := turn + 1;
      }
    }

    method BeginClose()
      modifies this`closed, this`closer
      ensures Now() == CallClose(old(Now()))
    {
      if closed {
        return;
      }
      closed := true;
      closer := if queue.Some? && worker != NotStarted then Putting else Returned;
    }
  }

  // What the worker makes of the items in the queue when nothing comes between.
  function Drained(w: Writer, works: seq<bool>): Writer
    decreases |works|
  {
    if !CanTake(w) || works == [] then w
    else
      var taken := Take(w);
      Drained(if taken.inFlight.Some? then Write(taken, works[0]) else taken, works[1..])
  }

  /******* Runs *******/

  datatype Step =
    | StartStep(works: bool) | OfferStep(event: Event) | TakeStep | WriteStep(works: bool)
    | CallCloseStep | PutStep | FinishStep(works: bool) | CancelStep

  // What happened: the events that were accepted, in order, what became of those that were taken, and how many were
  // offered while the writer was open. `other` counts the failures that are not failed writes.
  datatype History = History(accepted: seq<Event>, processed: seq<(Event, bool)>, offered: nat, other: nat)

  datatype State = State(w: Writer, h: History)

  function Initial(capacity: nat): State {
    State(New(capacity), History([], [], 0, 0))
  }

  predicate Enabled(s: State, step: Step) {
    match step
    case TakeStep => CanTake(s.w)
    case WriteStep(_) => s.w.inFlight.Some? && s.w.worker == Running
    case PutStep => CanPut(s.w)
    case FinishStep(_) => s.w.closer == Joining && s.w.worker == Finished
    case CancelStep => s.w.closer == Putting || (s.w.closer == Joining && s.w.inFlight == None)
    case _ => true
  }

  // The step, and what it adds to the history.
  function Apply(s: State, step: Step): State
    requires Enabled(s, step)
  {
    match step
    case StartStep(works) =>
      var w := Start(s.w, works);
      State(w, s.h.(other := s.h.other + (w.failures - s.w.failures)))
    case OfferStep(event) =>
      var w := Offer(s.w, event);
      if s.w.queue == None || s.w.closed then State(w, s.h)
      else State(w, s.h.(offered := s.h.offered + 1, accepted := if w.dropped == s.w.dropped then s.h.accepted + [event]
                         else s.h.accepted))
    case TakeStep => State(Take(s.w), s.h)
    case WriteStep(works) => State(Write(s.w, works), s.h.(processed := s.h.processed + [(s.w.inFlight.value, works)]))
    case CallCloseStep => State(CallClose(s.w), s.h)
    case PutStep => State(PutSentinel(s.w), s.h)
    case FinishStep(works) => State(FinishClose(s.w, works), s.h.(other := if works then s.h.other else s.h.other + 1))
    case CancelStep => State(CancelClose(s.w), s.h)
  }

  function Next(s: State, step: Step): State {
    if Enabled(s, step) then Apply(s, step) else s
  }

  function After(s: State, steps: seq<Step>): State {
    if steps == [] then s else Next(After(s, steps[..|steps| - 1]), steps[|steps| - 1])
  }

  /******* The invariant *******/

  function EventsOf(items: seq<Item>): seq<Event> {
    if items == [] then []
    else if items[0].Sentinel? then EventsOf(items[1..])
    else [items[0].event] + EventsOf(items[1..])
  }

  function TakenEvent(result: (Event, bool)): Event { result.0 }

  function WasWritten(result: (Event, bool)): bool { result.1 }

  function WasLost(result: (Event, bool)): bool { !result.1 }

  // The events of the results that satisfy the test.
  function WrittenEvents(results: seq<(Event, bool)>): seq<Event> {
    if results == [] then []
    else
      var last := results[|results| - 1];
      var before := WrittenEvents(results[..|results| - 1]);
      if last.1 then before + [last.0] else before
  }

  function Queued(w: Writer): seq<Item> {
    if w.queue.Some? then w.queue.value else []
  }

  function InFlight(w: Writer): seq<Event> {
    if w.inFlight.Some? then [w.inFlight.value] else []
  }

  // Every accepted event is done, in flight or queued, in the order of arrival.
  ghost predicate IsConserved(s: State) {
    s.h.accepted == Map(TakenEvent, s.h.processed) + InFlight(s.w) + EventsOf(Queued(s.w))
  }

  // The counters say what the history says.
  ghost predicate IsCounted(s: State) {
    && s.h.offered == s.w.dropped + |s.h.accepted|
    && s.w.written == CountIf(WasWritten, s.h.processed)
    && s.w.failures == CountIf(WasLost, s.h.processed) + s.h.other
    && s.w.output == WrittenEvents(s.h.processed)
  }

  // A sentinel is last, and stands there only while the closing call waits for the worker, or was cancelled.
  ghost predicate IsSealed(w: Writer) {
    && |Queued(w)| <= w.capacity
    && (forall i :: 0 <= i < |Queued(w)| - 1 ==> Queued(w)[i].Event?)
    && (Queued(w) != [] && Queued(w)[|Queued(w)| - 1].Sentinel? ==> w.closer == Joining || w.closer == Interrupted)
    && (w.closed <==> w.closer != NoCloser)
    && (w.worker == NotStarted ==> w.queue == None && w.inFlight == None)
    && (w.worker == Running ==> w.queue.Some?)
    && (w.inFlight.Some? ==> w.worker == Running)
    && (w.worker == Finished ==> Queued(w) == [] && w.closer in {Joining, Returned, Interrupted})
    && (w.worker == CancelledWorker ==> w.closer == Interrupted)
    && (w.closer == Putting ==> w.worker == Running)
    && (w.closer == Joining ==> w.queue.Some? && w.worker != NotStarted && w.worker != CancelledWorker)
    && (w.closer == Joining && w.worker == Running ==> Queued(w) != [] && Queued(w)[|Queued(w)| - 1].Sentinel?)
    && (w.closer == Returned ==> w.queue == None && w.inFlight == None)
  }

  ghost predicate Inv(s: State) {
    IsConserved(s) && IsCounted(s) && IsSealed(s.w)
  }

  lemma {:induction false} EventsOfAppend(a: seq<Item>, b: seq<Item>)
    ensures EventsOf(a + b) == EventsOf(a) + EventsOf(b)
  {
    if a == [] {
      assert a + b == b;
    } else {
      assert (a + b)[1..] == a[1..] + b;
      EventsOfAppend(a[1..], b);
    }
  }

  lemma {:induction false} OneEvent(event: Event)
    ensures EventsOf([Event(event)]) == [event] && EventsOf([Sentinel]) == []
  {
    assert [Event(event)][1..] == [] && [Sentinel][1..] == [];
  }

  lemma {:induction false} OfferKeepsSealed(w: Writer, event: Event)
    requires IsSealed(w)
    ensures IsSealed(Offer(w, event))
  {
  }

  lemma {:induction false} OfferKeepsInv(s: State, event: Event)
    requires Inv(s)
    ensures Inv(Apply(s, OfferStep(event)))
  {
    OfferKeepsSealed(s.w, event);
    if s.w.queue.Some? && !s.w.closed && |s.w.queue.value| < s.w.capacity {
      OfferKeepsConserved(s, event);
    }
  }

  lemma {:induction false} OfferKeepsConserved(s: State, event: Event)
    requires IsConserved(s) && s.w.queue.Some? && !s.w.closed && |s.w.queue.value| < s.w.capacity
    ensures IsConserved(Apply(s, OfferStep(event)))
  {
    EventsOfAppend(s.w.queue.value, [Event(event)]);
    OneEvent(event);
    var done := Map(TakenEvent, s.h.processed) + InFlight(s.w);
    assert done + EventsOf(s.w.queue.value) + [event] == done + (EventsOf(s.w.queue.value) + [event]);
  }

  lemma {:induction false} PutKeepsInv(s: State)
    requires Inv(s) && CanPut(s.w)
    ensures Inv(Apply(s, PutStep))
  {
    PutKeepsEvents(s.w);
    PutKeepsSealed(s.w);
  }

  lemma {:induction false} PutKeepsEvents(w: Writer)
    requires CanPut(w)
    ensures EventsOf(Queued(PutSentinel(w))) == EventsOf(Queued(w))
  {
    EventsOfAppend(w.queue.value, [Sentinel]);
    OneEvent("");
    assert EventsOf(w.queue.value) + [] == EventsOf(w.queue.value);
  }

  lemma {:induction false} PutKeepsSealed(w: Writer)
    requires IsSealed(w) && CanPut(w)
    ensures IsSealed(PutSentinel(w))
  {
    if w.queue.value != [] {
      assert w.queue.value[|w.queue.value| - 1].Event?;
    }
  }

  lemma {:induction false} TakeKeepsInv(s: State)
    requires Inv(s) && CanTake(s.w)
    ensures Inv(Apply(s, TakeStep))
  {
    var items := s.w.queue.value;
    var after := Take(s.w);
    assert |items| > 1 ==> items[1..][|items[1..]| - 1] == items[|items| - 1];
    if items[0].Event? {
      var done := Map(TakenEvent, s.h.processed);
      assert InFlight(s.w) == [] && InFlight(after) == [items[0].event];
      assert done + [] + ([items[0].event] + EventsOf(items[1..])) == done + [items[0].event] + EventsOf(items[1..]);
    } else {
      assert |items| == 1;
      assert items[1..] == [];
    }
  }

  lemma {:induction false} WriteKeepsInv(s: State, works: bool)
    requires Inv(s) && s.w.inFlight.Some? && s.w.worker == Running
    ensures Inv(Apply(s, WriteStep(works)))
  {
    WriteKeepsConserved(s, works);
    WriteKeepsCounted(s, works);
    WriteKeepsSealed(s.w, works);
  }

  lemma {:induction false} WriteKeepsCounted(s: State, works: bool)
    requires IsCounted(s) && s.w.inFlight.Some? && s.w.worker == Running
    ensures IsCounted(Apply(s, WriteStep(works)))
  {
    OneResultMore(s.h.processed, (s.w.inFlight.value, works));
  }

  lemma {:induction false} WriteKeepsSealed(w: Writer, works: bool)
    requires IsSealed(w) && w.inFlight.Some?
    ensures IsSealed(Write(w, works))
  {
  }

  lemma {:induction false} WriteKeepsConserved(s: State, works: bool)
    requires IsConserved(s) && s.w.inFlight.Some? && s.w.worker == Running
    ensures IsConserved(Apply(s, WriteStep(works)))
  {
    var event := s.w.inFlight.value;
    assert Map(TakenEvent, s.h.processed + [(event, works)]) == Map(TakenEvent, s.h.processed) + [event];
  }

  lemma {:induction false} OneResultMore(results: seq<(Event, bool)>, result: (Event, bool))
    ensures CountIf(WasWritten, results + [result]) == CountIf(WasWritten, results) + if result.1 then 1 else 0
    ensures CountIf(WasLost, results + [result]) == CountIf(WasLost, results) + if result.1 then 0 else 1
    ensures WrittenEvents(results + [result]) == WrittenEvents(results) + if result.1 then [result.0] else []
  {
    CountIfAppend(WasWritten, results, [result]);
    CountIfAppend(WasLost, results, [result]);
    CountOne(result);
    assert (results + [result])[..|results|] == results;
  }

  lemma {:induction false} CountOne(result: (Event, bool))
    ensures CountIf(WasWritten, [result]) == (if result.1 then 1 else 0)
    ensures CountIf(WasLost, [result]) == (if result.1 then 0 else 1)
  {
    assert [result][1..] == [];
    assert CountIf(WasWritten, [result][1..]) == 0 && CountIf(WasLost, [result][1..]) == 0;
  }

  lemma {:induction false} NextKeepsInv(s: State, step: Step)
    requires Inv(s)
    ensures Inv(Next(s, step))
  {
    if Enabled(s, step) {
      match step
      case OfferStep(event) => OfferKeepsInv(s, event);
      case TakeStep => TakeKeepsInv(s);
      case WriteStep(works) => WriteKeepsInv(s, works);
      case PutStep => PutKeepsInv(s);
      case StartStep(_) => StartKeepsInv(s, step);
      case _ => CloseKeepsInv(s, step);
    }
  }

  lemma {:induction false} StartKeepsInv(s: State, step: Step)
    requires Inv(s) && step.StartStep?
    ensures Inv(Next(s, step))
  {
  }

  lemma {:induction false} CloseKeepsInv(s: State, step: Step)
    requires Inv(s) && (step.CallCloseStep? || step.FinishStep? || step.CancelStep?)
    ensures Inv(Next(s, step))
  {
  }

  lemma {:induction false} RunKeepsInv(s: State, steps: seq<Step>)
    requires Inv(s)
    ensures Inv(After(s, steps))
    decreases |steps|
  {
    if steps != [] {
      RunKeepsInv(s, steps[..|steps| - 1]);
      NextKeepsInv(After(s, steps[..|steps| - 1]), steps[|steps| - 1]);
    }
  }

  lemma {:induction false} InitialHolds(capacity: nat)
    ensures Inv(Initial(capacity))
  {
  }

  lemma {:induction false} CountBoth(results: seq<(Event, bool)>)
    ensures CountIf(WasWritten, results) + CountIf(WasLost, results) == |results|
  {
    if results != [] {
      CountBoth(results[1..]);
    }
  }

  /** Main result: in every run, the events offered while the writer was open are those dropped, queued, in flight,
      written and lost in writing; the taken ones are the first accepted ones, in order of arrival. */
  lemma {:induction false} EventsAreConserved(capacity: nat, steps: seq<Step>)
    ensures var s := After(Initial(capacity), steps);
            && s.h.offered == s.w.dropped + |EventsOf(Queued(s.w))| + |InFlight(s.w)| + s.w.written
                + CountIf(WasLost, s.h.processed)
            && Map(TakenEvent, s.h.processed) + InFlight(s.w) + EventsOf(Queued(s.w)) == s.h.accepted
            && s.w.output == WrittenEvents(s.h.processed)
            && s.w.failures == CountIf(WasLost, s.h.processed) + s.h.other
            && |Queued(s.w)| <= capacity
  {
    InitialHolds(capacity);
    RunKeepsInv(Initial(capacity), steps);
    CapacityStays(capacity, steps);
    var s := After(Initial(capacity), steps);
    CountBoth(s.h.processed);
    assert |Map(TakenEvent, s.h.processed) + InFlight(s.w) + EventsOf(Queued(s.w))|
           == |s.h.processed| + |InFlight(s.w)| + |EventsOf(Queued(s.w))|;
  }

  lemma {:induction false} CapacityStays(capacity: nat, steps: seq<Step>)
    ensures After(Initial(capacity), steps).w.capacity == capacity
    decreases |steps|
  {
    if steps != [] {
      CapacityStays(capacity, steps[..|steps| - 1]);
    }
  }

  /** Main result: when the close call that closed the writer returns, every accepted event has been written or counted
      as a failure. */
  lemma {:induction false} CloseDrains(capacity: nat, steps: seq<Step>, works: bool)
    requires Enabled(After(Initial(capacity), steps), FinishStep(works))
    ensures var s := After(Initial(capacity), steps + [FinishStep(works)]);
            && s.w.closer == Returned && Queued(s.w) == [] && s.w.inFlight == None
            && s.h.accepted == Map(TakenEvent, s.h.processed)
            && |s.h.accepted| == s.w.written + CountIf(WasLost, s.h.processed)
  {
    InitialHolds(capacity);
    RunKeepsInv(Initial(capacity), steps);
    var before := After(Initial(capacity), steps);
    var all := steps + [FinishStep(works)];
    assert all[..|all| - 1] == steps && all[|all| - 1] == FinishStep(works);
    assert EventsOf(Queued(before.w)) == [];
    assert Map(TakenEvent, before.h.processed) + [] + [] == Map(TakenEvent, before.h.processed);
    CountBoth(before.h.processed);
  }

  lemma {:induction false} ClosedStays(s: State, step: Step)
    requires s.w.closed
    ensures var after := Next(s, step);
            after.w.closed && after.h.accepted == s.h.accepted && after.h.offered == s.h.offered
                && after.w.dropped == s.w.dropped
  {
  }

  /** Once close has been called, no event is accepted, dropped or counted any more. */
  lemma {:induction false} NothingEntersAfterClose(s: State, steps: seq<Step>)
    requires s.w.closed
    ensures var after := After(s, steps);
            after.w.closed && after.h.accepted == s.h.accepted && after.h.offered == s.h.offered
                && after.w.dropped == s.w.dropped
    decreases |steps|
  {
    if steps != [] {
      NothingEntersAfterClose(s, steps[..|steps| - 1]);
      ClosedStays(After(s, steps[..|steps| - 1]), steps[|steps| - 1]);
    }
  }

  /******* What a later close call finds *******/

  // Every accepted event was written or counted as a failure.
  ghost predicate IsDrained(s: State) {
    s.h.accepted == Map(TakenEvent, s.h.processed)
  }

  lemma {:induction false} DrainedIfEmpty(s: State)
    requires Inv(s)
    ensures IsDrained(s) <==> InFlight(s.w) == [] && EventsOf(Queued(s.w)) == []
  {
    var done, taken, queued := Map(TakenEvent, s.h.processed), InFlight(s.w), EventsOf(Queued(s.w));
    assert |done + taken + queued| == |done| + |taken| + |queued|;
    assert done + [] + [] == done;
  }

  /** Main result: a call that finds the flag set changes nothing and returns at once. Every accepted event has been
      dealt with then exactly when none is in flight or queued, which holds once the first call has returned. */
  lemma {:induction false} LaterCloseIsDrainedIff(capacity: nat, steps: seq<Step>)
    requires After(Initial(capacity), steps).w.closed
    ensures var s := After(Initial(capacity), steps);
            && CallClose(s.w) == s.w
            && (IsDrained(s) <==> InFlight(s.w) == [] && EventsOf(Queued(s.w)) == [])
            && (s.w.closer == Returned ==> IsDrained(s))
  {
    InitialHolds(capacity);
    RunKeepsInv(Initial(capacity), steps);
    DrainedIfEmpty(After(Initial(capacity), steps));
  }

  // Every run of every writer that closing has brought to this point is drained.
  ghost predicate IsAlwaysDrained(closer: Closer) {
    forall capacity: nat, steps :: IsAt(capacity, steps, closer) ==> IsDrained(After(Initial(capacity), steps))
  }

  ghost predicate IsAt(capacity: nat, steps: seq<Step>, closer: Closer) {
    capacity > 0 && After(Initial(capacity), steps).w.closer == closer
  }

  /** Main result, for the caller of a later close: that everything was dealt with is certain exactly when the first
      call has returned, and not while it waits or after it was cancelled. */
  lemma {:induction false} AlwaysDrainedIff(closer: Closer)
    requires closer != NoCloser
    ensures IsAlwaysDrained(closer) <==> closer == Returned
  {
    if closer == Returned {
      forall capacity: nat, steps | IsAt(capacity, steps, closer) ensures IsDrained(After(Initial(capacity), steps)) {
        InitialHolds(capacity);
        RunKeepsInv(Initial(capacity), steps);
        LaterCloseIsDrainedIff(capacity, steps);
      }
    } else {
      NotDrained(2, closer, "e");
      assert IsAt(2, StopsAt(closer, "e"), closer);
    }
  }

  // A run that stops where the closing call has come to, with an event still queued.
  function StopsAt(closer: Closer, event: Event): seq<Step> {
    [StartStep(true), OfferStep(event), CallCloseStep]
    + (match closer
       case Joining => [PutStep]
       case Interrupted => [PutStep, CancelStep]
       case _ => [])
  }

  lemma {:induction false} AfterOneMore(s: State, steps: seq<Step>, step: Step)
    ensures After(s, steps + [step]) == Next(After(s, steps), step)
  {
    assert (steps + [step])[..|steps|] == steps;
  }

  // The writer after it was started, offered one event, and called to close.
  lemma {:induction false} CalledToClose(capacity: nat, event: Event)
    requires capacity > 0
    ensures var s := After(Initial(capacity), [StartStep(true), OfferStep(event), CallCloseStep]);
            && s.w == New(capacity).(queue := Some([Event(event)]), worker := Running, closed := true,
                                     closer := Putting)
            && s.h == History([event], [], 1, 0)
  {
    var s := Initial(capacity);
    AfterOneMore(s, [], StartStep(true));
    AfterOneMore(s, [StartStep(true)], OfferStep(event));
    AfterOneMore(s, [StartStep(true), OfferStep(event)], CallCloseStep);
    assert [] + [StartStep(true)] == [StartStep(true)];
    assert [StartStep(true)] + [OfferStep(event)] == [StartStep(true), OfferStep(event)];
    assert [StartStep(true), OfferStep(event)] + [CallCloseStep] == [StartStep(true), OfferStep(event), CallCloseStep];
    assert [] + [Event(event)] == [Event(event)] && [] + [event] == [event];
  }

  /** A second call that comes while the first one waits returns at once, with an accepted event still queued. */
  lemma {:induction false} SecondCloseReturnsEarly(capacity: nat, event: Event)
    requires capacity > 0
    ensures var s := After(Initial(capacity), StopsAt(Putting, event));
            && s.w.closer == Putting && CallClose(s.w) == s.w && s.h.accepted == [event] && s.h.processed == []
                && !IsDrained(s)
  {
    CalledToClose(capacity, event);
    assert StopsAt(Putting, event) == [StartStep(true), OfferStep(event), CallCloseStep];
  }

  /** A call that comes after the first one was cancelled returns at once as well, and the event is lost: whatever comes
      after that, nothing is written or counted any more. */
  lemma {:induction false} CancelledCloseLosesEvents(capacity: nat, event: Event, more: seq<Step>)
    requires capacity > 1
    ensures var s := After(After(Initial(capacity), StopsAt(Interrupted, event)), more);
            && s.w.closer == Interrupted && s.w.worker == CancelledWorker && CallClose(s.w) == s.w
            && s.h.accepted == [event] && s.h.processed == [] && !IsDrained(s)
  {
    var called := [StartStep(true), OfferStep(event), CallCloseStep];
    CalledToClose(capacity, event);
    AfterOneMore(Initial(capacity), called, PutStep);
    AfterOneMore(Initial(capacity), called + [PutStep], CancelStep);
    assert StopsAt(Interrupted, event) == called + [PutStep] + [CancelStep];
    var s := After(Initial(capacity), StopsAt(Interrupted, event));
    InitialHolds(capacity);
    RunKeepsInv(Initial(capacity), StopsAt(Interrupted, event));
    CancelledWorkerStops(s, more);
  }

  /** Once the worker is cancelled, it writes nothing any more. */
  lemma {:induction false} CancelledWorkerStops(s: State, steps: seq<Step>)
    requires Inv(s) && s.w.worker == CancelledWorker
    ensures var after := After(s, steps);
            && after.w.worker == CancelledWorker && after.w.closer == Interrupted && after.w.closed
            && after.h.processed == s.h.processed && after.h.accepted == s.h.accepted
    decreases |steps|
  {
    if steps != [] {
      CancelledWorkerStops(s, steps[..|steps| - 1]);
      RunKeepsInv(s, steps[..|steps| - 1]);
      CancelledWorkerStays(After(s, steps[..|steps| - 1]), steps[|steps| - 1]);
    }
  }

  lemma {:induction false} CancelledWorkerStays(s: State, step: Step)
    requires Inv(s) && s.w.worker == CancelledWorker
    ensures var after := Next(s, step);
            && after.w.worker == CancelledWorker && after.w.closer == Interrupted && after.w.closed
            && after.h.processed == s.h.processed && after.h.accepted == s.h.accepted
  {
  }

  // At each point but the last, an event may still be queued.
  lemma {:induction false} NotDrained(capacity: nat, closer: Closer, event: Event)
    requires closer in {Putting, Joining, Interrupted} && capacity > 1
    ensures var s := After(Initial(capacity), StopsAt(closer, event)); s.w.closer == closer && !IsDrained(s)
  {
    var called := [StartStep(true), OfferStep(event), CallCloseStep];
    if closer == Putting {
      SecondCloseReturnsEarly(capacity, event);
    } else if closer == Joining {
      CalledToClose(capacity, event);
      AfterOneMore(Initial(capacity), called, PutStep);
      assert StopsAt(Joining, event) == called + [PutStep];
    } else {
      CancelledCloseLosesEvents(capacity, event, []);
    }
  }

  /** A first call that finds nothing to wait for has no accepted event to wait for. */
  lemma {:induction false} FirstCloseWaits(capacity: nat, steps: seq<Step>)
    requires !After(Initial(capacity), steps).w.closed
             && CallClose(After(Initial(capacity), steps).w).closer == Returned
    ensures After(Initial(capacity), steps).h.accepted == []
  {
    InitialHolds(capacity);
    RunKeepsInv(Initial(capacity), steps);
    NeverStarted(capacity, steps);
  }

  lemma {:induction false} NeverStarted(capacity: nat, steps: seq<Step>)
    ensures var s := After(Initial(capacity), steps); s.w.worker == NotStarted ==> s.h.accepted == []
    decreases |steps|
  {
    if steps != [] {
      NeverStarted(capacity, steps[..|steps| - 1]);
      InitialHolds(capacity);
      RunKeepsInv(Initial(capacity), steps[..|steps| - 1]);
      NotYetStarted(After(Initial(capacity), steps[..|steps| - 1]), steps[|steps| - 1]);
    }
  }

  lemma {:induction false} NotYetStarted(s: State, step: Step)
    requires Inv(s) && (s.w.worker == NotStarted ==> s.h.accepted == [])
    ensures Next(s, step).w.worker == NotStarted ==> Next(s, step).h.accepted == []
  {
  }

  /******* What the operations do *******/

  predicate IsOpen(s: State) {
    s.w.queue.Some? && !s.w.closed
  }

  /** An event is accepted exactly when the writer is open and its queue is not full; a full queue drops it, and a
      writer that is not open ignores it. */
  lemma {:induction false} AcceptedIff(s: State, event: Event)
    ensures var after := Next(s, OfferStep(event));
            var fits := |Queued(s.w)| < s.w.capacity;
            && after.h.accepted == (if IsOpen(s) && fits then s.h.accepted + [event] else s.h.accepted)
            && Queued(after.w) == (if IsOpen(s) && fits then Queued(s.w) + [Event(event)] else Queued(s.w))
            && after.w.dropped == (if IsOpen(s) && !fits then s.w.dropped + 1 else s.w.dropped)
            && after.h.offered == (if IsOpen(s) then s.h.offered + 1 else s.h.offered)
            && after.h.processed == s.h.processed && after.w.failures == s.w.failures
  {
  }

  /** A start that works opens a writer that was neither started nor closed, with an empty queue; one that fails
      leaves it to be started again. Any other start does nothing. */
  lemma {:induction false} StartOpensIff(s: State, works: bool)
    ensures var after, unused := Next(s, StartStep(works)), s.w.worker == NotStarted && !s.w.closed;
            && (unused && works ==> IsOpen(after) && Queued(after.w) == [] && after.w.worker == Running)
            && (unused && !works ==> after.w == s.w.(failures := s.w.failures + 1))
            && (!unused ==> after == s)
            && after.h.accepted == s.h.accepted && after.h.processed == s.h.processed
  {
  }

  /** A close call always leaves the writer closed; the first one goes on to wait exactly when there is a worker, and a
      later one does nothing. */
  lemma {:induction false} CloseCloses(s: State)
    requires Inv(s)
    ensures var after := Next(s, CallCloseStep);
            && after.w.closed && after.h == s.h
            && after.w == s.w.(closed := true, closer := if s.w.closed then s.w.closer
                                                         else if s.w.worker == NotStarted then Returned else Putting)
  {
  }

  // The starts and the ends of close that failed.
  function FailedCalls(s: State, steps: seq<Step>): nat {
    if steps == [] then 0
    else
      var before, last := After(s, steps[..|steps| - 1]), steps[|steps| - 1];
      FailedCalls(s, steps[..|steps| - 1]) + if IsFailedCall(before, last) then 1 else 0
  }

  predicate IsFailedCall(s: State, step: Step) {
    || (step == StartStep(false) && s.w.worker == NotStarted && !s.w.closed)
    || (step == FinishStep(false) && s.w.closer == Joining && s.w.worker == Finished)
  }

  lemma {:induction false} OtherIsFailedCalls(s: State, steps: seq<Step>)
    ensures After(s, steps).h.other == s.h.other + FailedCalls(s, steps)
    decreases |steps|
  {
    if steps != [] {
      OtherIsFailedCalls(s, steps[..|steps| - 1]);
    }
  }

  /** In every run the counter of failures is that of the events that were lost in writing, and of the starts and
      the ends of close that failed; the counter of writes is that of the events in the output. */
  lemma {:induction false} FailuresAreCounted(capacity: nat, steps: seq<Step>)
    ensures var s := After(Initial(capacity), steps);
            && s.w.failures == CountIf(WasLost, s.h.processed) + FailedCalls(Initial(capacity), steps)
            && s.w.written == |s.w.output|
  {
    InitialHolds(capacity);
    RunKeepsInv(Initial(capacity), steps);
    OtherIsFailedCalls(Initial(capacity), steps);
    WrittenIsCounted(After(Initial(capacity), steps).h.processed);
  }

  lemma {:induction false} WrittenIsCounted(results: seq<(Event, bool)>)
    ensures |WrittenEvents(results)| == CountIf(WasWritten, results)
    decreases |results|
  {
    if results != [] {
      var init, last := results[..|results| - 1], results[|results| - 1];
      WrittenIsCounted(init);
      OneResultMore(init, last);
      assert results == init + [last];
    }
  }

  /******* What the worker makes of the queue *******/

  // The events whose writes work, in order.
  function Picked(events: seq<Event>, works: seq<bool>): seq<Event> {
    if events == [] || works == [] then []
    else (if works[0] then [events[0]] else []) + Picked(events[1..], works[1..])
  }

  // The queue is empty: the events whose writes work were appended to the output, the others counted as failures, and
  // the worker ended exactly when it met the sentinel.
  ghost predicate IsEmptied(w: Writer, after: Writer, works: seq<bool>) {
    var events := EventsOf(Queued(w));
    var picked := Picked(events, works);
    && Queued(after) == [] && after.inFlight == None
    && after.output == w.output + picked && after.written == w.written + |picked|
    && after.failures + |picked| == w.failures + |events|
    && after.worker == (if Sentinel in Queued(w) then Finished else Running)
  }

  // One turn of the loop.
  function Turned(w: Writer, works: bool): Writer
    requires CanTake(w)
  {
    var rest := w.(queue := Some(w.queue.value[1..]));
    match w.queue.value[0]
    case Sentinel => rest.(worker := Finished)
    case Event(event) =>
      if works then rest.(output := w.output + [event], written := w.written + 1)
      else rest.(failures := w.failures + 1)
  }

  lemma {:induction false} TurnIsDrained(w: Writer, works: seq<bool>)
    requires CanTake(w) && works != []
    ensures Drained(w, works) == Drained(Turned(w, works[0]), works[1..])
  {
    if w.queue.value[0].Event? {
      assert Write(Take(w), works[0]) == Turned(w, works[0]);
    }
  }

  /** The worker's loop empties the queue in order. */
  lemma {:induction false} DrainedIsAll(w: Writer, works: seq<bool>)
    requires IsSealed(w) && w.worker == Running && w.inFlight == None && |Queued(w)| <= |works|
    ensures IsEmptied(w, Drained(w, works), works)
    decreases |works|
  {
    if Queued(w) != [] && Queued(w)[0].Event? {
      TakenIsSealed(w, works[0]);
      DrainedIsAll(Write(Take(w), works[0]), works[1..]);
      FirstIsWritten(w, works, Drained(w, works));
    } else {
      LastIsTaken(w, works);
    }
  }

  lemma {:induction false} LastIsTaken(w: Writer, works: seq<bool>)
    requires IsSealed(w) && w.worker == Running && w.inFlight == None && |Queued(w)| <= |works|
    requires Queued(w) == [] || Queued(w)[0] == Sentinel
    ensures IsEmptied(w, Drained(w, works), works)
  {
    assert w.output + [] == w.output;
    if Queued(w) != [] {
      assert Queued(w) == [Sentinel];
      StoppedIsDrained(Take(w), works[1..]);
      OneEvent("");
    }
  }

  lemma {:induction false} FirstIsWritten(w: Writer, works: seq<bool>, after: Writer)
    requires CanTake(w) && w.queue.value[0].Event? && works != []
    requires IsEmptied(Write(Take(w), works[0]), after, works[1..])
    ensures IsEmptied(w, after, works)
  {
    var items := w.queue.value;
    var picked := Picked(EventsOf(items[1..]), works[1..]);
    assert items == [items[0]] + items[1..];
    assert EventsOf(items) == [items[0].event] + EventsOf(items[1..]);
    assert Picked(EventsOf(items), works) == (if works[0] then [items[0].event] else []) + picked;
    assert works[0] ==> w.output + [items[0].event] + picked == w.output + ([items[0].event] + picked);
    assert [] + picked == picked;
  }

  lemma {:induction false} TakenIsSealed(w: Writer, works: bool)
    requires IsSealed(w) && CanTake(w) && w.queue.value[0].Event?
    ensures IsSealed(Write(Take(w), works))
  {
    var items := w.queue.value;
    assert |items| > 1 ==> items[1..][|items[1..]| - 1] == items[|items| - 1];
  }

  lemma {:induction false} StoppedIsDrained(w: Writer, works: seq<bool>)
    requires w.worker != Running
    ensures Drained(w, works) == w
  {
  }

  /******* When close can return *******/

  // How much the worker and the closing call still have to do.
  function Work(w: Writer): nat {
    2 * |Queued(w)| + (if w.inFlight.Some? then 1 else 0) + (if w.closer == Putting then 3 else 0)
  }

  /** Main result: a close call that is not cancelled can always return, from wherever it has come to. */
  lemma {:induction false} CloseCanReturn(s: State) returns (steps: seq<Step>)
    requires Inv(s) && s.w.closer in {Putting, Joining} && s.w.capacity > 0
    ensures After(s, steps).w.closer == Returned
    decreases Work(s.w)
  {
    if s.w.closer == Joining && s.w.worker == Finished {
      steps := [FinishStep(true)];
      AfterOneMore(s, [], FinishStep(true));
      assert [] + [FinishStep(true)] == steps;
    } else {
      var step := if s.w.inFlight.Some? then WriteStep(true) else if CanPut(s.w) then PutStep else TakeStep;
      OneStepLess(s, step);
      NextKeepsInv(s, step);
      var rest := CloseCanReturn(Next(s, step));
      steps := [step] + rest;
      AfterFirst(s, step, rest);
    }
  }

  lemma {:induction false} OneStepLess(s: State, step: Step)
    requires Inv(s) && s.w.closer in {Putting, Joining} && s.w.capacity > 0
    requires !(s.w.closer == Joining && s.w.worker == Finished)
    requires step == if s.w.inFlight.Some? then WriteStep(true) else if CanPut(s.w) then PutStep else TakeStep
    ensures var after := Next(s, step);
            after.w.closer in {Putting, Joining} && after.w.capacity == s.w.capacity && Work(after.w) < Work(s.w)
  {
  }

  lemma {:induction false} AfterFirst(s: State, step: Step, rest: seq<Step>)
    ensures After(s, [step] + rest) == After(Next(s, step), rest)
    decreases |rest|
  {
    var all := [step] + rest;
    if rest == [] {
      assert all[..0] == [] && all == [step];
    } else {
      assert all[..|all| - 1] == [step] + rest[..|rest| - 1];
      AfterFirst(s, step, rest[..|rest| - 1]);
    }
  }
}
