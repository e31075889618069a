/** The identity of a benchmark trial: a digest of its coordinates, joined by NUL characters. */
module TrialIdentity {
  import opened Text

  datatype Method =
    | Vector | GraphDepth1 | GraphDepth2 | GraphDepth3 | FixedP4 | FixedP5 | FixedP6 | FixedP8 | Rule | BestFixed
  datatype Phase = Cold | Warmup | Measured

  const NUL: char := '\0'

  function MethodText(approach: Method): (text: string)
    ensures Without(NUL, text)
  {
    match approach
    case Vector => "vector"
    case GraphDepth1 => "graph_depth_1"
    case GraphDepth2 => "graph_depth_2"
    case GraphDepth3 => "graph_depth_3"
    case FixedP4 => "fixed_p4"
    case FixedP5 => "fixed_p5"
    case FixedP6 => "fixed_p6"
    case FixedP8 => "fixed_p8"
    case Rule => "rule"
    case BestFixed => "best_fixed"
  }

  function PhaseText(phase: Phase): (text: string)
    ensures Without(NUL, text)
  {
    match phase
    case Cold => "cold"
    case Warmup => "warmup"
    case Measured => "measured"
  }

  // What distinguishes the trials of one run; what is tried is a method, or for the profiler the ID of a plan.
  datatype Slot<A> = Cell(query: string, approach: A, budget: nat, phase: Phase, repetition: nat)

  type Cell = Slot<Method>

  function Named(cell: Cell): Slot<string> {
    Cell(cell.query, MethodText(cell.approach), cell.budget, cell.phase, cell.repetition)
  }

  // The coordinates in order, each after a NUL but the first.
  function UpToPhase(slot: Slot<string>): string {
    UpToBudget(slot) + [NUL] + PhaseText(slot.phase)
  }

  function UpToBudget(slot: Slot<string>): string {
    slot.query + [NUL] + slot.approach + [NUL] + Decimal(slot.budget)
  }

  function Tail(slot: Slot<string>): string {
    UpToPhase(slot) + [NUL] + Decimal(slot.repetition)
  }

  function Joined(schema: string, runId: string, slot: Slot<string>): string {
    schema + [NUL] + (runId + [NUL] + Tail(slot))
  }

  // What the trial IDs of the benchmark and of the profiler digest.
  function Payload(runId: string, cell: Cell): string {
    Joined("benchmark_raw_v1", runId, Named(cell))
  }

  function ProfilePayload(runId: string, slot: Slot<string>): string {
    Joined("profile_raw_v1", runId, slot)
  }

  lemma {:induction false} MethodTextInjective(a: Method, b: Method)
    requires MethodText(a) == MethodText(b)
    ensures a == b
  {
    assert |MethodText(a)| == |MethodText(b)|;
    assert forall i :: 0 <= i < |MethodText(a)| ==> MethodText(a)[i] == MethodText(b)[i];
  }

  lemma {:induction false} PhaseTextInjective(a: Phase, b: Phase)
    requires PhaseText(a) == PhaseText(b)
    ensures a == b
  {
    assert |PhaseText(a)| == |PhaseText(b)|;
  }

  lemma {:induction false} DecimalHasNoNul(n: nat)
    ensures Without(NUL, Decimal(n))
  {
    assert AllDigits(Decimal(n));
  }

  lemma {:induction false} DecimalInjective(a: nat, b: nat)
    requires Decimal(a) == Decimal(b)
    ensures a == b
  {
    DecimalRoundTrip(a);
    DecimalRoundTrip(b);
  }

  lemma {:induction false} JoinedInjective(schema: string, runId: string, slot: Slot<string>, runId': string,
                                           slot': Slot<string>)
    requires Without(NUL, runId) && Without(NUL, runId') && Without(NUL, slot.approach) && Without(NUL, slot'.approach)
    requires Joined(schema, runId, slot) == Joined(schema, runId', slot')
    ensures runId == runId' && slot == slot'
  {
    var rest, rest' := runId + [NUL] + Tail(slot), runId' + [NUL] + Tail(slot');
    var n := |schema + [NUL]|;
    assert rest == (schema + [NUL] + rest)[n..] == (schema + [NUL] + rest')[n..] == rest';
    SplitAtFirst(NUL, runId, Tail(slot), runId', Tail(slot'));
    TailInjective(slot, slot');
  }

  /** The payload determines every coordinate, although the query ID may contain the separator. */
  lemma {:induction false} PayloadInjective(runId: string, cell: Cell, runId': string, cell': Cell)
    requires Without(NUL, runId) && Without(NUL, runId')
    requires Payload(runId, cell) == Payload(runId', cell')
    ensures runId == runId' && cell == cell'
  {
    JoinedInjective("benchmark_raw_v1", runId, Named(cell), runId', Named(cell'));
    MethodTextInjective(cell.approach, cell'.approach);
  }

  /** The same for the profiler, whose plan IDs have no separator in them. */
  lemma {:induction false} ProfilePayloadInjective(runId: string, slot: Slot<string>, runId': string,
                                                   slot': Slot<string>)
    requires Without(NUL, runId) && Without(NUL, runId') && Without(NUL, slot.approach) && Without(NUL, slot'.approach)
    requires ProfilePayload(runId, slot) == ProfilePayload(runId', slot')
    ensures runId == runId' && slot == slot'
  {
    JoinedInjective("profile_raw_v1", runId, slot, runId', slot');
  }

  lemma {:induction false} TailInjective(slot: Slot<string>, slot': Slot<string>)
    requires Without(NUL, slot.approach) && Without(NUL, slot'.approach)
    requires Tail(slot) == Tail(slot')
    ensures slot == slot'
  {
    DecimalHasNoNul(slot.repetition);
    DecimalHasNoNul(slot'.repetition);
    SplitAtLast(NUL, UpToPhase(slot), Decimal(slot.repetition), UpToPhase(slot'), Decimal(slot'.repetition));
    DecimalInjective(slot.repetition, slot'.repetition);
    UpToPhaseInjective(slot, slot');
  }

  lemma {:induction false} UpToPhaseInjective(slot: Slot<string>, slot': Slot<string>)
    requires Without(NUL, slot.approach) && Without(NUL, slot'.approach)
    requires UpToPhase(slot) == UpToPhase(slot')
    ensures slot.query == slot'.query && slot.approach == slot'.approach && slot.budget == slot'.budget
            && slot.phase == slot'.phase
  {
    SplitAtLast(NUL, UpToBudget(slot), PhaseText(slot.phase), UpToBudget(slot'), PhaseText(slot'.phase));
    PhaseTextInjective(slot.phase, slot'.phase);
    DecimalHasNoNul(slot.budget);
    DecimalHasNoNul(slot'.budget);
    SplitAtLast(NUL, slot.query + [NUL] + slot.approach, Decimal(slot.budget),
                slot'.query + [NUL] + slot'.approach, Decimal(slot'.budget));
    DecimalInjective(slot.budget, slot'.budget);
    SplitAtLast(NUL, slot.query, slot.approach, slot'.query, slot'.approach);
  }

  // The name of a method, written out.
  predicate IsName(approach: Method, name: string) {
    || (approach == Vector && name == "vector") || (approach == Rule && name == "rule")
    || (approach == GraphDepth1 && name == "graph_depth_1") || (approach == GraphDepth2 && name == "graph_depth_2")
    || (approach == GraphDepth3 && name == "graph_depth_3") || (approach == FixedP4 && name == "fixed_p4")
    || (approach == FixedP5 && name == "fixed_p5") || (approach == FixedP6 && name == "fixed_p6")
    || (approach == FixedP8 && name == "fixed_p8") || (approach == BestFixed && name == "best_fixed")
  }

  predicate IsPhaseName(phase: Phase, name: string) {
    (phase == Cold && name == "cold") || (phase == Warmup && name == "warmup")
        || (phase == Measured && name == "measured")
  }

  /** The digested text: seven fields in order, with a NUL character between each two. */
  lemma {:induction false} PayloadIs(runId: string, cell: Cell, approach: string, phase: string)
    requires IsName(cell.approach, approach) && IsPhaseName(cell.phase, phase)
    ensures Payload(runId, cell)
            == Join([NUL], ["benchmark_raw_v1", runId, cell.query, approach, Decimal(cell.budget), phase,
                            Decimal(cell.repetition)])
  {
    JoinedIs("benchmark_raw_v1", runId, Named(cell));
  }

  lemma {:induction false} ProfilePayloadIs(runId: string, slot: Slot<string>, phase: string)
    requires IsPhaseName(slot.phase, phase)
    ensures ProfilePayload(runId, slot)
            == Join([NUL], ["profile_raw_v1", runId, slot.query, slot.approach, Decimal(slot.budget), phase,
                            Decimal(slot.repetition)])
  {
    JoinedIs("profile_raw_v1", runId, slot);
  }

  lemma {:induction false} JoinedIs(schema: string, runId: string, slot: Slot<string>)
    ensures Joined(schema, runId, slot)
            == Join([NUL], [schema, runId, slot.query, slot.approach, Decimal(slot.budget), PhaseText(slot.phase),
                            Decimal(slot.repetition)])
  {
    var budget, phase, repetition := Decimal(slot.budget), PhaseText(slot.phase), Decimal(slot.repetition);
    var fields := [schema, runId, slot.query, slot.approach, budget, phase, repetition];
    assert fields == [schema] + [runId, slot.query, slot.approach, budget, phase, repetition];
    JoinFirst(schema, [runId, slot.query, slot.approach, budget, phase, repetition]);
    assert fields[1..] == [runId] + [slot.query, slot.approach, budget, phase, repetition];
    JoinFirst(runId, [slot.query, slot.approach, budget, phase, repetition]);
    JoinFirst(slot.query, [slot.approach, budget, phase, repetition]);
    JoinFirst(slot.approach, [budget, phase, repetition]);
    JoinFirst(budget, [phase, repetition]);
    JoinFirst(phase, [repetition]);
    TailIs(slot.query, slot.approach, budget, phase, repetition);
  }

  lemma {:induction false} JoinFirst(first: string, rest: seq<string>)
    requires rest != []
    ensures Join([NUL], [first] + rest) == first + [NUL] + Join([NUL], rest)
  {
    assert ([first] + rest)[1..] == rest;
  }

  lemma {:induction false} TailIs(a: string, b: string, c: string, d: string, e: string)
    ensures a + [NUL] + b + [NUL] + c + [NUL] + d + [NUL] + e
            == a + [NUL] + (b + [NUL] + (c + [NUL] + (d + [NUL] + e)))
  {
  }
}
