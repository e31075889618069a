/** An append-only log of trial rows that runs extend and resume; the benchmark runner and the profiler share it. */
module EvidenceLog {
  import opened Wrappers
  import opened Ordering
  import opened Counting

  /******* Rows and their text *******/

  // A scheduled trial; `setting` stands for the fields that identify it beside its ID.
  datatype Trial<S> = Trial(id: nat, setting: S)

  // `versions` stands for the version fields, `outcome` for what was observed.
  datatype Row<S> = Row(runId: string, versions: string, trialId: nat, setting: S, outcome: string)

  datatype Codec<!S(!new)> = Codec(encode: Row<S> -> string, parse: string -> Option<Row<S>>)
  {
    // Canonical JSON: one object on one line, which can be read back.
    ghost predicate Valid() {
      forall row: Row<S> :: RowIsReadable(row)
    }

    ghost predicate RowIsReadable(row: Row<S>) {
      && '\n' !in encode(row) && encode(row) != "" && encode(row)[0] == '{'
      && parse(encode(row) + "\n") == Some(row)
    }

    function Line(row: Row<S>): string {
      encode(row) + "\n"
    }
  }

  function LinesOf<S(!new)>(codec: Codec<S>, rows: seq<Row<S>>): string {
    if rows == [] then "" else codec.Line(rows[0]) + LinesOf(codec, rows[1..])
  }

  datatype LogError =
    | Truncated | EmptyRow | InvalidRow | DuplicateTrial
    | WrongRun | NotScheduled | WrongFields | WrongVersions | TooManyRows
    | ShortAppend | Interrupted

  /******* Loading *******/

  // The first line of a non-empty text, with its newline if there is one.
  function FirstLine(text: string): (line: string)
    requires text != ""
    ensures line != "" && line <= text
  {
    if text[0] == '\n' || |text| == 1 then text[..1] else [text[0]] + FirstLine(text[1..])
  }

  predicate IsBlank(line: string) {
    forall i :: 0 <= i < |line| ==> line[i] in {' ', '\t', '\n', '\r'}
  }

  // What one line adds to the rows that were read before it.
  function ReadLine<S(==,!new)>(codec: Codec<S>, line: string, seen: set<nat>): Result<Row<S>, LogError>
    requires line != ""
  {
    if line[|line| - 1] != '\n' then Err(Truncated)
    else if IsBlank(line) then Err(EmptyRow)
    else
      var row := codec.parse(line);
      if row == None then Err(InvalidRow)
      else if row.value.trialId in seen then Err(DuplicateTrial)
      else Ok(row.value)
  }

  function LoadFrom<S(==,!new)>(codec: Codec<S>, text: string, seen: set<nat>): (loaded: Result<seq<Row<S>>, LogError>)
    ensures loaded.Ok? ==> forall row :: row in loaded.value ==> row.trialId !in seen
    ensures loaded.Ok? ==> Distinct(Map(IdOf<S>, loaded.value))
    decreases |text|
  {
    if text == "" then Ok([])
    else
      var line := FirstLine(text);
      var row := ReadLine(codec, line, seen);
      if row.Err? then Err(row.error)
      else
        var rest := LoadFrom(codec, text[|line|..], seen + {row.value.trialId});
        if rest.Err? then rest
        else
          assert Map(IdOf<S>, [row.value] + rest.value) == [row.value.trialId] + Map(IdOf<S>, rest.value);
          Ok([row.value] + rest.value)
  }

  function Load<S(==,!new)>(codec: Codec<S>, text: string): Result<seq<Row<S>>, LogError> {
    LoadFrom(codec, text, {})
  }

  function IdOf<S(!new)>(row: Row<S>): nat {
    row.trialId
  }

  function TrialOf<S(!new)>(row: Row<S>): Trial<S> {
    Trial(row.trialId, row.setting)
  }

  function ScheduledId<S(!new)>(trial: Trial<S>): nat {
    trial.id
  }

  lemma {:induction false} FirstLineOfRow(body: string, rest: string)
    requires '\n' !in body
    ensures FirstLine(body + "\n" + rest) == body + "\n"
  {
    var text := body + "\n" + rest;
    if body == "" {
      assert text[..1] == "\n";
    } else {
      assert text[1..] == body[1..] + "\n" + rest;
      FirstLineOfRow(body[1..], rest);
      assert body == [body[0]] + body[1..];
    }
  }

  lemma {:induction false} FirstLineOfTorn(torn: string)
    requires torn != "" && '\n' !in torn
    ensures FirstLine(torn) == torn
  {
    if |torn| > 1 {
      FirstLineOfTorn(torn[1..]);
    }
  }

  lemma {:induction false} ReadOneRow<S(!new)>(codec: Codec<S>, row: Row<S>, rest: string, seen: set<nat>)
    requires codec.Valid()
    ensures codec.Line(row) + rest != "" && FirstLine(codec.Line(row) + rest) == codec.Line(row)
    ensures (codec.Line(row) + rest)[|codec.Line(row)|..] == rest
    ensures ReadLine(codec, codec.Line(row), seen) == if row.trialId in seen then Err(DuplicateTrial) else Ok(row)
  {
    assert codec.RowIsReadable(row);
    FirstLineOfRow(codec.encode(row), rest);
    assert codec.Line(row)[0] == '{';
  }

  lemma {:induction false} LoadRows<S(!new)>(codec: Codec<S>, rows: seq<Row<S>>, torn: string, seen: set<nat>)
    requires codec.Valid() && '\n' !in torn
    requires Distinct(Map(IdOf<S>, rows)) && forall row :: row in rows ==> row.trialId !in seen
    ensures LoadFrom(codec, LinesOf(codec, rows) + torn, seen) == if torn == "" then Ok(rows) else Err(Truncated)
    decreases |rows|
  {
    if rows == [] {
      assert LinesOf(codec, rows) + torn == torn;
      if torn != "" {
        FirstLineOfTorn(torn);
      }
    } else {
      var row, others := rows[0], rows[1..];
      var rest := LinesOf(codec, others) + torn;
      assert LinesOf(codec, rows) + torn == codec.Line(row) + rest;
      ReadOneRow(codec, row, rest, seen);
      forall other | other in others ensures other.trialId !in seen + {row.trialId} {
        var i :| 0 <= i < |others| && others[i] == other;
        assert Map(IdOf<S>, rows)[0] != Map(IdOf<S>, rows)[i + 1];
      }
      forall i, j | 0 <= i < j < |others| ensures Map(IdOf<S>, others)[i] != Map(IdOf<S>, others)[j] {
        assert Map(IdOf<S>, rows)[i + 1] != Map(IdOf<S>, rows)[j + 1];
      }
      LoadRows(codec, others, torn, seen + {row.trialId});
      assert rows == [row] + others;
    }
  }

  /** Whatever loads was written whole: a log that loads is empty or ends its last line. */
  lemma {:induction false} LoadedEndsItsLine<S(!new)>(codec: Codec<S>, text: string, seen: set<nat>)
    requires LoadFrom(codec, text, seen).Ok?
    ensures text == "" || text[|text| - 1] == '\n'
    decreases |text|
  {
    if text != "" {
      var line := FirstLine(text);
      var row := ReadLine(codec, line, seen);
      LoadedEndsItsLine(codec, text[|line|..], seen + {row.value.trialId});
      if text[|line|..] == "" {
        assert text == line;
      } else {
        assert text[|text| - 1] == text[|line|..][|text[|line|..]| - 1];
      }
    }
  }

  lemma {:induction false} LinesOfAppend<S(!new)>(codec: Codec<S>, a: seq<Row<S>>, b: seq<Row<S>>)
    ensures LinesOf(codec, a + b) == LinesOf(codec, a) + LinesOf(codec, b)
  {
    if a == [] {
      assert a + b == b;
    } else {
      assert (a + b)[1..] == a[1..] + b;
      LinesOfAppend(codec, a[1..], b);
    }
  }

  function Prepend<S(!new)>(before: seq<Row<S>>, loaded: Result<seq<Row<S>>, LogError>): Result<seq<Row<S>>, LogError> {
    if loaded.Err? then loaded else Ok(before + loaded.value)
  }

  /** After a log that loads, more text is read as if on its own, with the IDs of the log already seen. */
  lemma {:induction false} LoadExtended<S(!new)>(codec: Codec<S>, text: string, before: seq<Row<S>>, more: string,
                                                 seen: set<nat>)
    requires LoadFrom(codec, text, seen) == Ok(before)
    ensures LoadFrom(codec, text + more, seen) == Prepend(before, LoadFrom(codec, more, seen + IdsOf(before)))
    decreases |text|
  {
    if text == "" {
      assert text + more == more;
      assert seen + IdsOf(before) == seen;
      PrependNothing(LoadFrom(codec, more, seen));
    } else {
      var line, rest, row := LoadedStart(codec, text, seen);
      var others := LoadFrom(codec, rest, seen + {row.trialId}).value;
      LoadExtended(codec, rest, others, more, seen + {row.trialId});
      assert seen + {row.trialId} + IdsOf(others) == seen + IdsOf([row] + others);
      LoadExtendedStep(codec, line, rest, more, seen, row);
      PrependTwice(row, others, LoadFrom(codec, more, seen + IdsOf(before)));
    }
  }

  lemma PrependNothing<S(!new)>(loaded: Result<seq<Row<S>>, LogError>)
    ensures Prepend([], loaded) == loaded
  {
    assert loaded.Ok? ==> [] + loaded.value == loaded.value;
  }

  lemma PrependTwice<S(!new)>(row: Row<S>, others: seq<Row<S>>, loaded: Result<seq<Row<S>>, LogError>)
    ensures Prepend([row], Prepend(others, loaded)) == Prepend([row] + others, loaded)
  {
    assert loaded.Ok? ==> [row] + (others + loaded.value) == [row] + others + loaded.value;
  }

  lemma {:induction false} LoadedStart<S(!new)>(codec: Codec<S>, text: string, seen: set<nat>)
    returns (line: string, rest: string, row: Row<S>)
    requires text != "" && LoadFrom(codec, text, seen).Ok?
    ensures line != "" && text == line + rest && FirstLine(line + rest) == line
            && ReadLine(codec, line, seen) == Ok(row)
    ensures var others := LoadFrom(codec, rest, seen + {row.trialId});
            others.Ok? && LoadFrom(codec, text, seen) == Ok([row] + others.value)
  {
    line := FirstLine(text);
    rest := text[|line|..];
    assert text == line + rest;
    row := ReadLine(codec, line, seen).value;
  }

  lemma {:induction false} LoadOneLine<S(!new)>(codec: Codec<S>, line: string, rest: string, seen: set<nat>,
                                                row: Row<S>)
    requires line != "" && FirstLine(line + rest) == line && ReadLine(codec, line, seen) == Ok(row)
    ensures LoadFrom(codec, line + rest, seen) == Prepend([row], LoadFrom(codec, rest, seen + {row.trialId}))
  {
    assert (line + rest)[|line|..] == rest;
  }

  lemma {:induction false} LoadExtendedStep<S(!new)>(codec: Codec<S>, line: string, rest: string, more: string,
                                                     seen: set<nat>, row: Row<S>)
    requires line != "" && FirstLine(line + rest) == line && ReadLine(codec, line, seen) == Ok(row)
    ensures LoadFrom(codec, line + rest + more, seen)
            == Prepend([row], LoadFrom(codec, rest + more, seen + {row.trialId}))
  {
    FirstLineExtended(line + rest, more);
    assert line + rest + more == line + (rest + more);
    LoadOneLine(codec, line, rest + more, seen, row);
  }

  lemma {:induction false} FirstLineExtended(text: string, more: string)
    requires text != "" && FirstLine(text)[|FirstLine(text)| - 1] == '\n'
    ensures FirstLine(text + more) == FirstLine(text)
  {
    if text[0] == '\n' || |text| == 1 {
      assert (text + more)[..1] == text[..1];
    } else {
      assert (text + more)[1..] == text[1..] + more;
      assert FirstLine(text)[|FirstLine(text)| - 1] == FirstLine(text[1..])[|FirstLine(text[1..])| - 1];
      FirstLineExtended(text[1..], more);
    }
  }

  /** A log is refused for its first bad line: one without an end, a blank one, one that is no row, or a row whose
      trial ID an earlier one has. What follows does not matter. */
  lemma {:induction false} BadLineIsRefused<S(!new)>(codec: Codec<S>, before: string, rows: seq<Row<S>>, line: string,
                                                     more: string, error: LogError)
    requires Load(codec, before) == Ok(rows) && '\n' !in line
    requires if IsBlank(line) then error == EmptyRow
             else if codec.parse(line + "\n") == None then error == InvalidRow
             else codec.parse(line + "\n").value.trialId in IdsOf(rows) && error == DuplicateTrial
    ensures line != "" ==> Load(codec, before + line) == Err(Truncated)
    ensures Load(codec, before + (line + "\n" + more)) == Err(error)
  {
    if line != "" {
      FirstLineOfTorn(line);
      LoadExtended(codec, before, rows, line, {});
    }
    FirstLineOfRow(line, more);
    LoadExtended(codec, before, rows, line + "\n" + more, {});
    assert {} + IdsOf(rows) == IdsOf(rows);
    BlankWithEnd(line);
    var text := line + "\n" + more;
    assert ReadLine(codec, line + "\n", IdsOf(rows)) == Err(error);
    assert LoadFrom(codec, text, IdsOf(rows)) == Err(error);
  }

  lemma {:induction false} BlankWithEnd(line: string)
    ensures IsBlank(line + "\n") <==> IsBlank(line)
  {
    if IsBlank(line + "\n") {
      forall i | 0 <= i < |line| ensures line[i] in {' ', '\t', '\n', '\r'} {
        assert (line + "\n")[i] == line[i];
      }
    }
  }

  /******* Existing rows against the schedule *******/

  datatype Plan<S(!new)> = Plan(runId: string, versions: string, schedule: seq<Trial<S>>, expectedRows: nat)
  {
    // The manifest counts the schedule, and no two trials share an ID.
    ghost predicate Valid() {
      expectedRows == |schedule| && Distinct(Map(ScheduledId<S>, schedule))
    }

    function RowFor(trial: Trial<S>, outcome: string): Row<S> {
      Row(runId, versions, trial.id, trial.setting, outcome)
    }
  }

  predicate Matches<S(==,!new)>(plan: Plan<S>, row: Row<S>) {
    row.runId == plan.runId && row.versions == plan.versions && TrialOf(row) in plan.schedule
  }

  lemma {:induction false} DistinctTrials<S(!new)>(plan: Plan<S>, a: Trial<S>, b: Trial<S>)
    requires plan.Valid() && a in plan.schedule && b in plan.schedule && a.id == b.id
    ensures a == b
  {
    var i :| 0 <= i < |plan.schedule| && plan.schedule[i] == a;
    var j :| 0 <= j < |plan.schedule| && plan.schedule[j] == b;
    assert Map(ScheduledId<S>, plan.schedule)[i] == Map(ScheduledId<S>, plan.schedule)[j];
  }

  lemma {:induction false} ValidScheduleIsDistinct<S(!new)>(plan: Plan<S>)
    requires plan.Valid()
    ensures Distinct(plan.schedule)
  {
    forall i, j | 0 <= i < j < |plan.schedule| ensures plan.schedule[i] != plan.schedule[j] {
      assert Map(ScheduledId<S>, plan.schedule)[i] != Map(ScheduledId<S>, plan.schedule)[j];
    }
  }

  lemma {:induction false} DistinctTrialsOfRows<S(!new)>(rows: seq<Row<S>>)
    requires Distinct(Map(IdOf<S>, rows))
    ensures Distinct(Map(TrialOf<S>, rows))
  {
    forall i, j | 0 <= i < j < |rows| ensures Map(TrialOf<S>, rows)[i] != Map(TrialOf<S>, rows)[j] {
      assert Map(IdOf<S>, rows)[i] != Map(IdOf<S>, rows)[j];
    }
  }

  /** Rows that were loaded and match the schedule are never more than the schedule: the test of the row count
      in _validate_existing cannot fail once the tests of the rows have passed. */
  lemma {:induction false} MatchingRowsAreFew<S(!new)>(plan: Plan<S>, rows: seq<Row<S>>)
    requires plan.Valid() && Distinct(Map(IdOf<S>, rows)) && forall row :: row in rows ==> Matches(plan, row)
    ensures |rows| <= plan.expectedRows
    ensures |rows| == plan.expectedRows <==> multiset(Map(TrialOf<S>, rows)) == multiset(plan.schedule)
  {
    var trials := Map(TrialOf<S>, rows);
    DistinctTrialsOfRows(rows);
    forall trial | trial in trials ensures trial in plan.schedule {
      var i :| 0 <= i < |trials| && trials[i] == trial;
      assert rows[i] in rows;
    }
    if |rows| >= |plan.schedule| {
      Pigeonhole(trials, plan.schedule);
    }
    if multiset(trials) == multiset(plan.schedule) {
      assert |multiset(trials)| == |trials| && |multiset(plan.schedule)| == |plan.schedule|;
    }
  }

  /******* Writing *******/

  // What the environment does to one trial: interrupt it, or let it finish and let the successive writes of its
  // row return these sizes; the process dies when they run out.
  datatype Event = Cancel | Finish(outcome: string, writes: seq<int>)

  // The number of bytes of a row that reach the file.
  function Written(size: nat, writes: seq<int>): (written: nat)
    ensures written <= size
    decreases |writes|
  {
    if size == 0 || writes == [] || writes[0] <= 0 then 0
    else if writes[0] >= size then size
    else writes[0] + Written(size - writes[0], writes[1..])
  }

  // What the calls so far have written, and what the rest will, is all.
  ghost predicate IsWritten(size: nat, writes: seq<int>, offset: nat, calls: nat) {
    && offset <= size && calls <= |writes|
    && Written(size, writes) == offset + Written(size - offset, writes[calls..])
    && (offset < size ==> WriteError(size, writes) == WriteError(size - offset, writes[calls..]))
  }

  lemma {:induction false} WriteMore(size: nat, writes: seq<int>, offset: nat, calls: nat)
    requires IsWritten(size, writes, offset, calls) && offset < size && calls < |writes| && writes[calls] > 0
    ensures IsWritten(size, writes, offset + if writes[calls] <= size - offset then writes[calls]
                      else size - offset, calls + 1)
  {
    assert writes[calls..][1..] == writes[calls + 1..];
  }

  // Why a row was not written whole.
  function WriteError(size: nat, writes: seq<int>): (error: LogError)
    ensures error == ShortAppend || error == Interrupted
    decreases |writes|
  {
    if writes == [] || size == 0 then Interrupted
    else if writes[0] <= 0 then ShortAppend
    else if writes[0] >= size then Interrupted
    else WriteError(size - writes[0], writes[1..])
  }

  function Total(writes: seq<int>): int {
    if writes == [] then 0 else Total(writes[..|writes| - 1]) + writes[|writes| - 1]
  }

  lemma {:induction false} TotalFirst(writes: seq<int>)
    requires writes != []
    ensures Total(writes) == writes[0] + Total(writes[1..])
    decreases |writes|
  {
    if |writes| > 1 {
      TotalFirst(writes[..|writes| - 1]);
      assert writes[1..][..|writes| - 2] == writes[..|writes| - 1][1..];
    }
  }

  // All writes before the `n`-th took something, and that one, if there was one, took nothing.
  ghost predicate StopsAfter(writes: seq<int>, n: nat) {
    n <= |writes| && (forall i :: 0 <= i < n ==> writes[i] > 0) && (n < |writes| ==> writes[n] <= 0)
  }

  /** A row is written as far as the writes go that take something; when they fall short of it, the append failed if a
      write took nothing, and the process died otherwise. */
  lemma {:induction false} WrittenMeans(size: nat, writes: seq<int>, n: nat)
    requires StopsAfter(writes, n)
    ensures Written(size, writes) == if Total(writes[..n]) < size then Total(writes[..n]) else size
    ensures Total(writes[..n]) < size ==> WriteError(size, writes) == if n < |writes| then ShortAppend else Interrupted
    ensures Total(writes[..n]) >= n
    decreases n
  {
    if n > 0 {
      var size' := if writes[0] >= size then 0 else size - writes[0];
      WrittenMeans(size', writes[1..], n - 1);
      TotalFirst(writes[..n]);
      assert writes[..n][1..] == writes[1..][..n - 1];
    }
  }

  /******* A run *******/

  datatype Execution<S> = Execution(rows: seq<Row<S>>, torn: string, error: Option<LogError>)

  // The rows that a run appends, and the part of a row it leaves behind.
  function Execute<S(==,!new)>(plan: Plan<S>, codec: Codec<S>, trials: seq<Trial<S>>, completed: set<nat>,
                               events: seq<Event>)
    : Execution<S>
    decreases |trials|
  {
    if trials == [] then Execution([], "", None)
    else if trials[0].id in completed then Execute(plan, codec, trials[1..], completed, events)
    else if events == [] || events[0].Cancel? then Execution([], "", Some(Interrupted))
    else
      var row := plan.RowFor(trials[0], events[0].outcome);
      var line := codec.Line(row);
      var size := Written(|line|, events[0].writes);
      if size < |line| then Execution([], line[..size], Some(WriteError(|line|, events[0].writes)))
      else
        var rest := Execute(plan, codec, trials[1..], completed + {trials[0].id}, events[1..]);
        Execution([row] + rest.rows, rest.torn, rest.error)
  }

  datatype Summary = Summary(expected: nat, preexisting: nat, executed: nat, total: nat, complete: bool)

  function IdsOf<S(==,!new)>(rows: seq<Row<S>>): set<nat> {
    set row | row in rows :: row.trialId
  }

  // What a run starts from: the rows of the log, or the reason to refuse it.
  function Admit<S(==,!new)>(plan: Plan<S>, codec: Codec<S>, text: string): Result<seq<Row<S>>, LogError> {
    var loaded := Load(codec, text);
    if loaded.Err? then loaded
    else
      var refusal := Refusal(plan, loaded.value);
      if refusal.Some? then Err(refusal.value)
      else if |loaded.value| > plan.expectedRows then Err(TooManyRows)
      else loaded
  }

  // The log and the answer after a run.
  function RunLog<S(==,!new)>(plan: Plan<S>, codec: Codec<S>, text: string, events: seq<Event>): string {
    var admitted := Admit(plan, codec, text);
    if admitted.Err? then text
    else
      var run := Execute(plan, codec, plan.schedule, IdsOf(admitted.value), events);
      text + LinesOf(codec, run.rows) + run.torn
  }

  function RunError<S(==,!new)>(plan: Plan<S>, codec: Codec<S>, text: string, events: seq<Event>): Option<LogError> {
    var admitted := Admit(plan, codec, text);
    if admitted.Err? then Some(admitted.error)
    else Execute(plan, codec, plan.schedule, IdsOf(admitted.value), events).error
  }

  // The tests of one row, in order.
  function RowRefusal<S(==,!new)>(plan: Plan<S>, row: Row<S>): Option<LogError> {
    if row.runId != plan.runId then Some(WrongRun)
    else if forall i :: 0 <= i < |plan.schedule| ==> plan.schedule[i].id != row.trialId then Some(NotScheduled)
    else if TrialOf(row) !in plan.schedule then Some(WrongFields)
    else if row.versions != plan.versions then Some(WrongVersions)
    else None
  }

  function Refusal<S(==,!new)>(plan: Plan<S>, rows: seq<Row<S>>): Option<LogError> {
    if rows == [] then None
    else if RowRefusal(plan, rows[0]) != None then RowRefusal(plan, rows[0])
    else Refusal(plan, rows[1..])
  }

  lemma {:induction false} RefusalMeans<S(!new)>(plan: Plan<S>, rows: seq<Row<S>>)
    ensures Refusal(plan, rows) == None <==> forall row :: row in rows ==> Matches(plan, row)
    decreases |rows|
  {
    if rows != [] {
      RefusalMeans(plan, rows[1..]);
      assert rows == [rows[0]] + rows[1..];
      assert RowRefusal(plan, rows[0]) == None <==> Matches(plan, rows[0]) by {
        if Matches(plan, rows[0]) {
          var i :| 0 <= i < |plan.schedule| && plan.schedule[i] == TrialOf(rows[0]);
          assert plan.schedule[i].id == rows[0].trialId;
        }
      }
    }
  }

  /** A run starts exactly from a log that loads and whose rows all match the schedule. */
  lemma {:induction false} AdmitMeans<S(!new)>(plan: Plan<S>, codec: Codec<S>, text: string)
    requires plan.Valid()
    ensures Admit(plan, codec, text).Ok?
            <==> Load(codec, text).Ok? && forall row :: row in Load(codec, text).value ==> Matches(plan, row)
    ensures Admit(plan, codec, text) != Err(TooManyRows)
    ensures Admit(plan, codec, text).Ok? ==> Admit(plan, codec, text) == Load(codec, text)
  {
    var loaded := Load(codec, text);
    if loaded.Ok? {
      RefusalMeans(plan, loaded.value);
      RefusalIsAboutARow(plan, loaded.value);
      if forall row :: row in loaded.value ==> Matches(plan, row) {
        MatchingRowsAreFew(plan, loaded.value);
      }
    } else {
      LoadErrors(codec, text, {});
    }
  }

  lemma {:induction false} RefusalIsAboutARow<S(!new)>(plan: Plan<S>, rows: seq<Row<S>>)
    ensures Refusal(plan, rows) != Some(TooManyRows)
    decreases |rows|
  {
    if rows != [] {
      RefusalIsAboutARow(plan, rows[1..]);
    }
  }

  // Why a row does not belong to the run: the first of these that holds.
  ghost predicate IsRefusedFor<S(!new)>(plan: Plan<S>, row: Row<S>, error: LogError) {
    if row.runId != plan.runId then error == WrongRun
    else if forall trial :: trial in plan.schedule ==> trial.id != row.trialId then error == NotScheduled
    else if Trial(row.trialId, row.setting) !in plan.schedule then error == WrongFields
    else row.versions != plan.versions && error == WrongVersions
  }

  lemma {:induction false} RowRefusalIff<S(!new)>(plan: Plan<S>, row: Row<S>, error: LogError)
    ensures RowRefusal(plan, row) == Some(error) <==> IsRefusedFor(plan, row, error)
    ensures RowRefusal(plan, row) == None <==> Matches(plan, row)
  {
    assert (forall i :: 0 <= i < |plan.schedule| ==> plan.schedule[i].id != row.trialId)
           <==> (forall trial :: trial in plan.schedule ==> trial.id != row.trialId);
    if TrialOf(row) in plan.schedule {
      var i :| 0 <= i < |plan.schedule| && plan.schedule[i] == TrialOf(row);
      assert plan.schedule[i].id == row.trialId;
    }
  }

  /** A log is refused for its first row that does not belong to the run. */
  lemma {:induction false} RefusedForFirst<S(!new)>(plan: Plan<S>, rows: seq<Row<S>>, k: nat, error: LogError)
    requires k < |rows| && forall i :: 0 <= i < k ==> Matches(plan, rows[i])
    requires IsRefusedFor(plan, rows[k], error)
    ensures Refusal(plan, rows) == Some(error)
    decreases k
  {
    if k == 0 {
      RowRefusalIff(plan, rows[0], error);
    } else {
      RowRefusalIff(plan, rows[0], error);
      RefusedForFirst(plan, rows[1..], k - 1, error);
    }
  }

  lemma {:induction false} LoadErrors<S(!new)>(codec: Codec<S>, text: string, seen: set<nat>)
    ensures LoadFrom(codec, text, seen).Err? ==>
              LoadFrom(codec, text, seen).error in {Truncated, EmptyRow, InvalidRow, DuplicateTrial}
    decreases |text|
  {
    if text != "" {
      var line := FirstLine(text);
      var row := ReadLine(codec, line, seen);
      if row.Ok? {
        LoadErrors(codec, text[|line|..], seen + {row.value.trialId});
      }
    }
  }

  /******* What an execution appends *******/

  // The trials that have no row yet, in schedule order.
  function Missing<S(!new)>(trials: seq<Trial<S>>, completed: set<nat>): seq<Trial<S>> {
    if trials == [] then []
    else if trials[0].id in completed then Missing(trials[1..], completed)
    else [trials[0]] + Missing(trials[1..], completed)
  }

  lemma {:induction false} MissingIgnores<S(!new)>(trials: seq<Trial<S>>, completed: set<nat>, id: nat)
    requires forall trial :: trial in trials ==> trial.id != id
    ensures Missing(trials, completed + {id}) == Missing(trials, completed)
    decreases |trials|
  {
    if trials != [] {
      assert trials[0] in trials;
      MissingIgnores(trials[1..], completed, id);
    }
  }

  lemma {:induction false} InMissing<S(!new)>(trials: seq<Trial<S>>, completed: set<nat>)
    ensures forall trial :: trial in Missing(trials, completed) <==> trial in trials && trial.id !in completed
    decreases |trials|
  {
    if trials != [] {
      InMissing(trials[1..], completed);
      assert trials == [trials[0]] + trials[1..];
    }
  }

  ghost predicate DistinctIds<S(!new)>(trials: seq<Trial<S>>) {
    Distinct(Map(ScheduledId<S>, trials))
  }

  lemma {:induction false} DistinctIdsRest<S(!new)>(trials: seq<Trial<S>>)
    requires DistinctIds(trials) && trials != []
    ensures DistinctIds(trials[1..])
    ensures forall trial :: trial in trials[1..] ==> trial.id != trials[0].id
  {
    var ids, rest := Map(ScheduledId<S>, trials), Map(ScheduledId<S>, trials[1..]);
    assert ids == [trials[0].id] + rest;
    forall i, j | 0 <= i < j < |rest| ensures rest[i] != rest[j] {
      assert ids[i + 1] != ids[j + 1];
    }
    forall trial | trial in trials[1..] ensures trial.id != trials[0].id {
      var i :| 0 <= i < |trials[1..]| && trials[1..][i] == trial;
      assert ids[0] != ids[i + 1];
    }
  }

  // Some whole row of the trial begins with the torn text, and is longer.
  ghost predicate IsTornRow<S(!new)>(plan: Plan<S>, codec: Codec<S>, trial: Trial<S>, torn: string) {
    exists outcome: string :: torn < codec.Line(plan.RowFor(trial, outcome))
  }

  // The rows are those of the first of the pending trials, and what is torn belongs to the next one.
  ghost predicate Extends<S(!new)>(plan: Plan<S>, codec: Codec<S>, pending: seq<Trial<S>>, rows: seq<Row<S>>,
                                   torn: string) {
    && |rows| <= |pending| && Map(TrialOf<S>, rows) == pending[..|rows|]
    && (forall row :: row in rows ==> row.runId == plan.runId && row.versions == plan.versions)
    && (torn != "" ==> |rows| < |pending| && IsTornRow(plan, codec, pending[|rows|], torn))
  }

  lemma {:induction false} ExtendsByOne<S(!new)>(plan: Plan<S>, codec: Codec<S>, pending: seq<Trial<S>>, row: Row<S>,
                                                 rows: seq<Row<S>>, torn: string)
    requires pending != [] && TrialOf(row) == pending[0] && row.runId == plan.runId && row.versions == plan.versions
    requires Extends(plan, codec, pending[1..], rows, torn)
    ensures Extends(plan, codec, pending, [row] + rows, torn)
  {
    assert Map(TrialOf<S>, [row] + rows) == [TrialOf(row)] + Map(TrialOf<S>, rows);
    assert pending[..|rows| + 1] == [pending[0]] + pending[1..][..|rows|];
  }

  lemma {:induction false} ExecuteExtends<S(!new)>(plan: Plan<S>, codec: Codec<S>, trials: seq<Trial<S>>,
                                                   completed: set<nat>, events: seq<Event>)
    requires DistinctIds(trials)
    ensures var run := Execute(plan, codec, trials, completed, events);
            && Extends(plan, codec, Missing(trials, completed), run.rows, run.torn)
            && (run.error == None <==> |run.rows| == |Missing(trials, completed)|)
    decreases |trials|
  {
    if trials == [] {
    } else if trials[0].id in completed {
      DistinctIdsRest(trials);
      ExecuteExtends(plan, codec, trials[1..], completed, events);
    } else if events != [] && events[0].Finish? {
      DistinctIdsRest(trials);
      ExecuteExtends(plan, codec, trials[1..], completed + {trials[0].id}, events[1..]);
      MissingIgnores(trials[1..], completed, trials[0].id);
      ExecuteOne(plan, codec, trials, completed, events);
    }
  }

  lemma {:induction false} ExecuteOne<S(!new)>(plan: Plan<S>, codec: Codec<S>, trials: seq<Trial<S>>,
                                               completed: set<nat>, events: seq<Event>)
    requires trials != [] && trials[0].id !in completed && events != [] && events[0].Finish?
    requires var rest := Execute(plan, codec, trials[1..], completed + {trials[0].id}, events[1..]);
             Extends(plan, codec, Missing(trials[1..], completed), rest.rows, rest.torn)
             && (rest.error == None <==> |rest.rows| == |Missing(trials[1..], completed)|)
    ensures var run := Execute(plan, codec, trials, completed, events);
            && Extends(plan, codec, Missing(trials, completed), run.rows, run.torn)
            && (run.error == None <==> |run.rows| == |Missing(trials, completed)|)
  {
    var row := plan.RowFor(trials[0], events[0].outcome);
    var line := codec.Line(row);
    var size := Written(|line|, events[0].writes);
    var pending := Missing(trials, completed);
    assert pending == [trials[0]] + Missing(trials[1..], completed);
    if size < |line| {
      assert line[..size] < line;
      assert IsTornRow(plan, codec, trials[0], line[..size]);
    } else {
      var rest := Execute(plan, codec, trials[1..], completed + {trials[0].id}, events[1..]);
      assert pending[1..] == Missing(trials[1..], completed);
      ExtendsByOne(plan, codec, pending, row, rest.rows, rest.torn);
    }
  }

  /******* What an execution logs *******/

  // A row of the trial in this run, with this outcome.
  ghost predicate IsRowOf<S(!new)>(plan: Plan<S>, row: Row<S>, trial: Trial<S>, outcome: string) {
    && row.runId == plan.runId && row.versions == plan.versions
    && row.trialId == trial.id && row.setting == trial.setting && row.outcome == outcome
  }

  // The trial finished, but only this much of its row was written.
  ghost predicate IsTornFrom<S(!new)>(plan: Plan<S>, codec: Codec<S>, trial: Trial<S>, event: Event, torn: string) {
    exists row: Row<S> :: event.Finish? && IsRowOf(plan, row, trial, event.outcome) && torn < codec.encode(row) + "\n"
  }

  // One event for each pending trial in turn: the rows have the outcomes that were observed, and what is torn begins
  // the row of the next one's.
  ghost predicate IsObserved<S(!new)>(plan: Plan<S>, codec: Codec<S>, pending: seq<Trial<S>>, events: seq<Event>,
                                      rows: seq<Row<S>>, torn: string) {
    && |rows| <= |pending| && |rows| <= |events|
    && (forall i :: 0 <= i < |rows| ==> events[i].Finish? && IsRowOf(plan, rows[i], pending[i], events[i].outcome))
    && (torn != "" ==> |rows| < |pending| && |rows| < |events|
                       && IsTornFrom(plan, codec, pending[|rows|], events[|rows|], torn))
  }

  lemma {:induction false} ObservedByOne<S(!new)>(plan: Plan<S>, codec: Codec<S>, pending: seq<Trial<S>>,
                                                  events: seq<Event>, row: Row<S>, rows: seq<Row<S>>, torn: string)
    requires pending != [] && events != [] && events[0].Finish? && IsRowOf(plan, row, pending[0], events[0].outcome)
    requires IsObserved(plan, codec, pending[1..], events[1..], rows, torn)
    ensures IsObserved(plan, codec, pending, events, [row] + rows, torn)
  {
    forall i | 0 <= i < |rows| + 1
      ensures events[i].Finish? && IsRowOf(plan, ([row] + rows)[i], pending[i], events[i].outcome)
    {
      if i > 0 {
        assert events[1..][i - 1].Finish? && IsRowOf(plan, rows[i - 1], pending[1..][i - 1],
                                                     events[1..][i - 1].outcome);
      }
    }
  }

  /** The rows that a run appends hold the outcomes of its first events, one for each missing trial in turn. */
  lemma {:induction false} ExecuteLogsObserved<S(!new)>(plan: Plan<S>, codec: Codec<S>, trials: seq<Trial<S>>,
                                                        completed: set<nat>, events: seq<Event>)
    requires DistinctIds(trials)
    ensures var run := Execute(plan, codec, trials, completed, events);
            IsObserved(plan, codec, Missing(trials, completed), events, run.rows, run.torn)
    decreases |trials|
  {
    if trials == [] {
    } else if trials[0].id in completed {
      DistinctIdsRest(trials);
      ExecuteLogsObserved(plan, codec, trials[1..], completed, events);
    } else if events != [] && events[0].Finish? {
      DistinctIdsRest(trials);
      ExecuteLogsObserved(plan, codec, trials[1..], completed + {trials[0].id}, events[1..]);
      MissingIgnores(trials[1..], completed, trials[0].id);
      ExecuteLogsOne(plan, codec, trials, completed, events);
    }
  }

  lemma {:induction false} ExecuteLogsOne<S(!new)>(plan: Plan<S>, codec: Codec<S>, trials: seq<Trial<S>>,
                                                   completed: set<nat>, events: seq<Event>)
    requires trials != [] && trials[0].id !in completed && events != [] && events[0].Finish?
    requires var rest := Execute(plan, codec, trials[1..], completed + {trials[0].id}, events[1..]);
             IsObserved(plan, codec, Missing(trials[1..], completed), events[1..], rest.rows, rest.torn)
    ensures var run := Execute(plan, codec, trials, completed, events);
            IsObserved(plan, codec, Missing(trials, completed), events, run.rows, run.torn)
  {
    var row := plan.RowFor(trials[0], events[0].outcome);
    var line := codec.Line(row);
    var size := Written(|line|, events[0].writes);
    var pending := Missing(trials, completed);
    assert pending == [trials[0]] + Missing(trials[1..], completed);
    if size < |line| {
      assert line[..size] < line;
      assert IsRowOf(plan, row, trials[0], events[0].outcome);
    } else {
      var rest := Execute(plan, codec, trials[1..], completed + {trials[0].id}, events[1..]);
      assert pending[1..] == Missing(trials[1..], completed);
      ObservedByOne(plan, codec, pending, events, row, rest.rows, rest.torn);
    }
  }

  /** Main result: from any log that a run starts from, the new rows hold what the run observed of the missing
      trials, in order, and a torn end begins the row of what it observed of the next one. */
  lemma {:induction false} RunLogsObserved<S(!new)>(plan: Plan<S>, codec: Codec<S>, text: string, events: seq<Event>)
    returns (existing: seq<Row<S>>, rows: seq<Row<S>>, torn: string)
    requires plan.Valid() && Admit(plan, codec, text).Ok?
    ensures Load(codec, text) == Ok(existing)
    ensures RunLog(plan, codec, text, events) == text + LinesOf(codec, rows) + torn
    ensures IsObserved(plan, codec, Missing(plan.schedule, IdsOf(existing)), events, rows, torn)
  {
    AdmitMeans(plan, codec, text);
    existing := Load(codec, text).value;
    var run := Execute(plan, codec, plan.schedule, IdsOf(existing), events);
    rows, torn := run.rows, run.torn;
    ExecuteLogsObserved(plan, codec, plan.schedule, IdsOf(existing), events);
  }

  lemma {:induction false} TornHasNoNewline<S(!new)>(plan: Plan<S>, codec: Codec<S>, trial: Trial<S>, torn: string)
    requires codec.Valid() && IsTornRow(plan, codec, trial, torn)
    ensures '\n' !in torn
  {
    var outcome: string :| torn < codec.Line(plan.RowFor(trial, outcome));
    var row := plan.RowFor(trial, outcome);
    assert codec.RowIsReadable(row);
    forall i | 0 <= i < |torn| ensures torn[i] != '\n' {
      assert torn[i] == codec.Line(row)[i] == codec.encode(row)[i];
    }
  }

  lemma {:induction false} ExtendsIsUntorn<S(!new)>(plan: Plan<S>, codec: Codec<S>, pending: seq<Trial<S>>,
                                                    rows: seq<Row<S>>, torn: string)
    requires codec.Valid() && Extends(plan, codec, pending, rows, torn)
    ensures '\n' !in torn
  {
    if torn != "" {
      TornHasNoNewline(plan, codec, pending[|rows|], torn);
    }
  }

  lemma {:induction false} MissingIsDistinct<S(!new)>(trials: seq<Trial<S>>, completed: set<nat>)
    requires DistinctIds(trials)
    ensures DistinctIds(Missing(trials, completed))
    decreases |trials|
  {
    if trials != [] {
      DistinctIdsRest(trials);
      MissingIsDistinct(trials[1..], completed);
      if trials[0].id !in completed {
        InMissing(trials[1..], completed);
        DistinctIdsCons(trials[0], Missing(trials[1..], completed));
      }
    }
  }

  lemma {:induction false} DistinctIdsCons<S(!new)>(trial: Trial<S>, rest: seq<Trial<S>>)
    requires DistinctIds(rest) && forall other :: other in rest ==> other.id != trial.id
    ensures DistinctIds([trial] + rest)
  {
    var ids := Map(ScheduledId<S>, [trial] + rest);
    assert ids == [trial.id] + Map(ScheduledId<S>, rest);
    forall i, j | 0 <= i < j < |ids| ensures ids[i] != ids[j] {
      if i == 0 {
        assert rest[j - 1] in rest;
      } else {
        assert Map(ScheduledId<S>, rest)[i - 1] != Map(ScheduledId<S>, rest)[j - 1];
      }
    }
  }

  // What a load needs to know of the rows that were appended.
  lemma {:induction false} AppendedRowsAreNew<S(!new)>(plan: Plan<S>, codec: Codec<S>, trials: seq<Trial<S>>,
                                                       completed: set<nat>, rows: seq<Row<S>>, torn: string)
    requires DistinctIds(trials) && Extends(plan, codec, Missing(trials, completed), rows, torn)
    ensures Distinct(Map(IdOf<S>, rows))
    ensures forall row :: row in rows ==> row.trialId !in completed && TrialOf(row) in trials
  {
    var pending := Missing(trials, completed);
    MissingIsDistinct(trials, completed);
    InMissing(trials, completed);
    forall i | 0 <= i < |rows| ensures TrialOf(rows[i]) == pending[i] {
      assert Map(TrialOf<S>, rows)[i] == pending[..|rows|][i];
    }
    forall i, j | 0 <= i < j < |rows| ensures Map(IdOf<S>, rows)[i] != Map(IdOf<S>, rows)[j] {
      assert Map(ScheduledId<S>, pending)[i] != Map(ScheduledId<S>, pending)[j];
    }
    forall row | row in rows ensures row.trialId !in completed && TrialOf(row) in trials {
      var i :| 0 <= i < |rows| && rows[i] == row;
      assert pending[i] in pending;
    }
  }

  /** After any run, from any log it starts from: the log is read back with the new rows, or refused for the row
      that was torn. */
  lemma {:induction false} RunLogLoads<S(!new)>(plan: Plan<S>, codec: Codec<S>, text: string, events: seq<Event>)
    returns (existing: seq<Row<S>>, run: Execution<S>)
    requires plan.Valid() && codec.Valid() && Admit(plan, codec, text).Ok?
    ensures Load(codec, text) == Ok(existing) && run == Execute(plan, codec, plan.schedule, IdsOf(existing), events)
    ensures RunLog(plan, codec, text, events) == text + LinesOf(codec, run.rows) + run.torn
    ensures Extends(plan, codec, Missing(plan.schedule, IdsOf(existing)), run.rows, run.torn)
    ensures run.error == RunError(plan, codec, text, events)
    ensures run.error == None <==> |run.rows| == |Missing(plan.schedule, IdsOf(existing))|
    ensures Load(codec, RunLog(plan, codec, text, events)) == if run.torn == "" then Ok(existing + run.rows)
            else Err(Truncated)
  {
    AdmitMeans(plan, codec, text);
    existing := Load(codec, text).value;
    run := Execute(plan, codec, plan.schedule, IdsOf(existing), events);
    ExecuteExtends(plan, codec, plan.schedule, IdsOf(existing), events);
    AppendedRowsAreNew(plan, codec, plan.schedule, IdsOf(existing), run.rows, run.torn);
    ExtendsIsUntorn(plan, codec, Missing(plan.schedule, IdsOf(existing)), run.rows, run.torn);
    var more := LinesOf(codec, run.rows) + run.torn;
    LoadRows(codec, run.rows, run.torn, {} + IdsOf(existing));
    assert text + LinesOf(codec, run.rows) + run.torn == text + more;
    LoadExtended(codec, text, existing, more, {});
  }

  /******* Completion and resumption *******/

  lemma {:induction false} RunRowsAreDistinct<S(!new)>(plan: Plan<S>, codec: Codec<S>, existing: seq<Row<S>>,
                                                       rows: seq<Row<S>>, torn: string)
    requires plan.Valid() && Distinct(Map(IdOf<S>, existing))
    requires Extends(plan, codec, Missing(plan.schedule, IdsOf(existing)), rows, torn)
    ensures Distinct(Map(IdOf<S>, existing + rows))
  {
    AppendedRowsAreNew(plan, codec, plan.schedule, IdsOf(existing), rows, torn);
    var all := Map(IdOf<S>, existing + rows);
    assert all == Map(IdOf<S>, existing) + Map(IdOf<S>, rows);
    forall i, j | 0 <= i < j < |all| ensures all[i] != all[j] {
      if j < |existing| {
        assert Map(IdOf<S>, existing)[i] != Map(IdOf<S>, existing)[j];
      } else if i < |existing| {
        assert existing[i] in existing && rows[j - |existing|] in rows;
      } else {
        assert Map(IdOf<S>, rows)[i - |existing|] != Map(IdOf<S>, rows)[j - |existing|];
      }
    }
  }

  lemma {:induction false} RunRowsMatch<S(!new)>(plan: Plan<S>, codec: Codec<S>, existing: seq<Row<S>>,
                                                 rows: seq<Row<S>>, torn: string)
    requires plan.Valid() && forall row :: row in existing ==> Matches(plan, row)
    requires Extends(plan, codec, Missing(plan.schedule, IdsOf(existing)), rows, torn)
    ensures forall row :: row in existing + rows ==> Matches(plan, row)
  {
    AppendedRowsAreNew(plan, codec, plan.schedule, IdsOf(existing), rows, torn);
  }

  // Every scheduled trial has exactly one row, and there are no others.
  ghost predicate IsComplete<S(!new)>(plan: Plan<S>, rows: seq<Row<S>>) {
    && multiset(Map(TrialOf<S>, rows)) == multiset(plan.schedule)
    && (forall row :: row in rows ==> Matches(plan, row))
  }

  lemma {:induction false} TrialsOfRows<S(!new)>(rows: seq<Row<S>>, trial: Trial<S>)
    requires trial in Map(TrialOf<S>, rows)
    ensures trial.id in IdsOf(rows)
  {
    var i :| 0 <= i < |rows| && TrialOf(rows[i]) == trial;
    assert rows[i] in rows;
  }

  lemma {:induction false} CompleteCovers<S(!new)>(plan: Plan<S>, rows: seq<Row<S>>)
    requires IsComplete(plan, rows)
    ensures forall trial :: trial in plan.schedule ==> trial.id in IdsOf(rows)
  {
    forall trial | trial in plan.schedule ensures trial.id in IdsOf(rows) {
      assert trial in multiset(plan.schedule);
      assert trial in multiset(Map(TrialOf<S>, rows));
      TrialsOfRows(rows, trial);
    }
  }

  lemma {:induction false} MissingOfAll<S(!new)>(trials: seq<Trial<S>>, completed: set<nat>)
    requires forall trial :: trial in trials ==> trial.id in completed
    ensures Missing(trials, completed) == []
    decreases |trials|
  {
    if trials != [] {
      assert trials[0] in trials;
      MissingOfAll(trials[1..], completed);
    }
  }

  lemma {:induction false} NothingMissingIsComplete<S(!new)>(plan: Plan<S>, rows: seq<Row<S>>)
    requires plan.Valid() && Distinct(Map(IdOf<S>, rows)) && forall row :: row in rows ==> Matches(plan, row)
    requires forall trial :: trial in plan.schedule ==> trial.id in IdsOf(rows)
    ensures IsComplete(plan, rows)
  {
    var trials := Map(TrialOf<S>, rows);
    DistinctTrialsOfRows(rows);
    ValidScheduleIsDistinct(plan);
    forall trial ensures trial in trials <==> trial in plan.schedule {
      if trial in plan.schedule {
        var row :| row in rows && row.trialId == trial.id;
        assert Matches(plan, row);
        DistinctTrials(plan, trial, TrialOf(row));
        var i :| 0 <= i < |rows| && rows[i] == row;
        assert trials[i] == trial;
      }
      if trial in trials {
        var i :| 0 <= i < |trials| && trials[i] == trial;
        assert Matches(plan, rows[i]);
      }
    }
    DistinctSameElements(trials, plan.schedule);
  }

  lemma {:induction false} CoveredByRun<S(!new)>(plan: Plan<S>, existing: seq<Row<S>>, rows: seq<Row<S>>)
    requires plan.Valid() && Map(TrialOf<S>, rows) == Missing(plan.schedule, IdsOf(existing))
    ensures forall trial :: trial in plan.schedule ==> trial.id in IdsOf(existing + rows)
  {
    InMissing(plan.schedule, IdsOf(existing));
    forall trial | trial in plan.schedule ensures trial.id in IdsOf(existing + rows) {
      if trial.id in IdsOf(existing) {
        var row :| row in existing && row.trialId == trial.id;
        assert row in existing + rows;
      } else {
        TrialsOfRows(rows, trial);
        var row :| row in rows && row.trialId == trial.id;
        assert row in existing + rows;
      }
    }
  }

  lemma {:induction false} CompleteRunAppendedAll<S(!new)>(plan: Plan<S>, codec: Codec<S>, existing: seq<Row<S>>,
                                                           rows: seq<Row<S>>, torn: string)
    requires plan.Valid() && Extends(plan, codec, Missing(plan.schedule, IdsOf(existing)), rows, torn)
    requires IsComplete(plan, existing + rows)
    ensures |rows| == |Missing(plan.schedule, IdsOf(existing))|
  {
    var pending := Missing(plan.schedule, IdsOf(existing));
    if |rows| < |pending| {
      var trial := pending[|rows|];
      InMissing(plan.schedule, IdsOf(existing));
      assert trial in pending;
      MissingIsDistinct(plan.schedule, IdsOf(existing));
      forall i | 0 <= i < |rows| ensures rows[i].trialId != trial.id {
        assert Map(TrialOf<S>, rows)[i] == pending[..|rows|][i];
        assert Map(ScheduledId<S>, pending)[i] != Map(ScheduledId<S>, pending)[|rows|];
      }
      assert trial.id !in IdsOf(existing + rows);
      CompleteCovers(plan, existing + rows);
    }
  }

  /** Main result: from any log that a run starts from, the run returns exactly when the log then holds one row
      of every scheduled trial. */
  lemma {:induction false} RunReturnsIffComplete<S(!new)>(plan: Plan<S>, codec: Codec<S>, text: string,
                                                          events: seq<Event>)
    requires plan.Valid() && codec.Valid() && Admit(plan, codec, text).Ok?
    ensures RunError(plan, codec, text, events) == None
            <==> var after := Load(codec, RunLog(plan, codec, text, events)); after.Ok? && IsComplete(plan, after.value)
  {
    AdmitMeans(plan, codec, text);
    var existing, run := RunLogLoads(plan, codec, text, events);
    RunRowsAreDistinct(plan, codec, existing, run.rows, run.torn);
    RunRowsMatch(plan, codec, existing, run.rows, run.torn);
    if run.error == None {
      var pending := Missing(plan.schedule, IdsOf(existing));
      assert pending[..|pending|] == pending;
      CoveredByRun(plan, existing, run.rows);
      NothingMissingIsComplete(plan, existing + run.rows);
    } else if run.torn == "" && IsComplete(plan, existing + run.rows) {
      CompleteRunAppendedAll(plan, codec, existing, run.rows, run.torn);
    }
  }

  /** A log is complete exactly when it has as many rows as the manifest expects. */
  lemma {:induction false} CompleteIffExpectedRows<S(!new)>(plan: Plan<S>, codec: Codec<S>, text: string)
    requires plan.Valid() && Admit(plan, codec, text).Ok?
    ensures IsComplete(plan, Load(codec, text).value) <==> |Load(codec, text).value| == plan.expectedRows
  {
    AdmitMeans(plan, codec, text);
    MatchingRowsAreFew(plan, Load(codec, text).value);
  }

  /** Running again over a complete log executes nothing and changes nothing. */
  lemma {:induction false} RerunExecutesNothing<S(!new)>(plan: Plan<S>, codec: Codec<S>, text: string,
                                                         events: seq<Event>)
    requires plan.Valid() && codec.Valid() && Admit(plan, codec, text).Ok?
    requires |Load(codec, text).value| == plan.expectedRows
    ensures RunLog(plan, codec, text, events) == text
    ensures RunSummary(plan, codec, text, events)
            == Ok(Summary(plan.expectedRows, plan.expectedRows, 0, plan.expectedRows, true))
  {
    CompleteIffExpectedRows(plan, codec, text);
    CompleteCovers(plan, Load(codec, text).value);
    MissingOfAll(plan.schedule, IdsOf(Load(codec, text).value));
    var existing, run := RunLogLoads(plan, codec, text, events);
    assert run.rows == [] && run.torn == "";
    assert text + LinesOf(codec, run.rows) + run.torn == text;
  }

  // What run() returns: it loads the log once more to count its rows.
  function RunSummary<S(==,!new)>(plan: Plan<S>, codec: Codec<S>, text: string,
                                  events: seq<Event>): Result<Summary, LogError> {
    var admitted := Admit(plan, codec, text);
    if admitted.Err? then Err(admitted.error)
    else
      var run := Execute(plan, codec, plan.schedule, IdsOf(admitted.value), events);
      if run.error.Some? then Err(run.error.value)
      else
        var after := Load(codec, RunLog(plan, codec, text, events));
        if after.Err? then Err(after.error)
        else Ok(Summary(plan.expectedRows, |admitted.value|, |run.rows|, |after.value|,
                        |after.value| == plan.expectedRows))
  }

  /** A summary always says complete, and its counts add up; the last load never fails. */
  lemma {:induction false} SummaryIsComplete<S(!new)>(plan: Plan<S>, codec: Codec<S>, text: string, events: seq<Event>)
    requires plan.Valid() && codec.Valid() && Admit(plan, codec, text).Ok?
    ensures var summary := RunSummary(plan, codec, text, events);
            && (summary.Ok? <==> RunError(plan, codec, text, events) == None)
            && (summary.Ok? ==> summary.value.complete && summary.value.total == plan.expectedRows
                                && summary.value.total == summary.value.preexisting + summary.value.executed)
  {
    AdmitMeans(plan, codec, text);
    var existing, run := RunLogLoads(plan, codec, text, events);
    if run.error == None {
      RunReturnsIffComplete(plan, codec, text, events);
      RunRowsAreDistinct(plan, codec, existing, run.rows, run.torn);
      MatchingRowsAreFew(plan, existing + run.rows);
    }
  }

  /******* Any number of runs *******/

  // The log consists of the rows of the first scheduled trials, in order, and possibly a torn row of the next one.
  ghost predicate IsPrefixLog<S(!new)>(plan: Plan<S>, codec: Codec<S>, text: string, rows: seq<Row<S>>, torn: string) {
    text == LinesOf(codec, rows) + torn && Extends(plan, codec, plan.schedule, rows, torn)
  }

  lemma {:induction false} PrefixRowsAreSound<S(!new)>(plan: Plan<S>, codec: Codec<S>, rows: seq<Row<S>>, torn: string)
    requires plan.Valid() && Extends(plan, codec, plan.schedule, rows, torn)
    ensures Distinct(Map(IdOf<S>, rows)) && forall row :: row in rows ==> Matches(plan, row)
  {
    forall i | 0 <= i < |rows| ensures TrialOf(rows[i]) == plan.schedule[i] {
      assert Map(TrialOf<S>, rows)[i] == plan.schedule[..|rows|][i];
    }
    forall i, j | 0 <= i < j < |rows| ensures Map(IdOf<S>, rows)[i] != Map(IdOf<S>, rows)[j] {
      assert Map(ScheduledId<S>, plan.schedule)[i] != Map(ScheduledId<S>, plan.schedule)[j];
    }
    forall row | row in rows ensures Matches(plan, row) {
      var i :| 0 <= i < |rows| && rows[i] == row;
      assert plan.schedule[i] in plan.schedule;
    }
  }

  /** A prefix log is read back whole, or refused for its torn row. */
  lemma {:induction false} PrefixLogLoads<S(!new)>(plan: Plan<S>, codec: Codec<S>, text: string, rows: seq<Row<S>>,
                                                   torn: string)
    requires plan.Valid() && codec.Valid() && IsPrefixLog(plan, codec, text, rows, torn)
    ensures Load(codec, text) == if torn == "" then Ok(rows) else Err(Truncated)
    ensures Admit(plan, codec, text) == Load(codec, text)
  {
    PrefixRowsAreSound(plan, codec, rows, torn);
    ExtendsIsUntorn(plan, codec, plan.schedule, rows, torn);
    LoadRows(codec, rows, torn, {});
    AdmitMeans(plan, codec, text);
  }

  lemma {:induction false} MissingOfNone<S(!new)>(trials: seq<Trial<S>>, completed: set<nat>)
    requires forall trial :: trial in trials ==> trial.id !in completed
    ensures Missing(trials, completed) == trials
    decreases |trials|
  {
    if trials != [] {
      assert trials[0] in trials;
      MissingOfNone(trials[1..], completed);
    }
  }

  lemma {:induction false} MissingAfter<S(!new)>(trials: seq<Trial<S>>, completed: set<nat>, n: nat)
    requires n <= |trials|
    requires forall i :: 0 <= i < n ==> trials[i].id in completed
    requires forall trial :: trial in trials[n..] ==> trial.id !in completed
    ensures Missing(trials, completed) == trials[n..]
    decreases n
  {
    if n == 0 {
      MissingOfNone(trials, completed);
    } else {
      assert trials[1..][n - 1..] == trials[n..];
      MissingAfter(trials[1..], completed, n - 1);
    }
  }

  lemma {:induction false} MissingOfPrefix<S(!new)>(plan: Plan<S>, codec: Codec<S>, rows: seq<Row<S>>, torn: string)
    requires plan.Valid() && Extends(plan, codec, plan.schedule, rows, torn)
    ensures Missing(plan.schedule, IdsOf(rows)) == plan.schedule[|rows|..]
  {
    var trials, n := plan.schedule, |rows|;
    forall i | 0 <= i < n ensures rows[i].trialId == trials[i].id && trials[i].id in IdsOf(rows) {
      assert Map(TrialOf<S>, rows)[i] == trials[..n][i];
      assert rows[i] in rows;
    }
    forall trial | trial in trials[n..] ensures trial.id !in IdsOf(rows) {
      var j :| n <= j < |trials| && trials[j] == trial;
      forall row | row in rows ensures row.trialId != trial.id {
        var i :| 0 <= i < n && rows[i] == row;
        assert Map(ScheduledId<S>, trials)[i] != Map(ScheduledId<S>, trials)[j];
      }
    }
    MissingAfter(trials, IdsOf(rows), n);
  }

  lemma {:induction false} ExtendsTwice<S(!new)>(plan: Plan<S>, codec: Codec<S>, schedule: seq<Trial<S>>,
                                                 rows: seq<Row<S>>, more: seq<Row<S>>, torn: string)
    requires Extends(plan, codec, schedule, rows, "") && Extends(plan, codec, schedule[|rows|..], more, torn)
    ensures Extends(plan, codec, schedule, rows + more, torn)
  {
    assert Map(TrialOf<S>, rows + more) == Map(TrialOf<S>, rows) + Map(TrialOf<S>, more);
    assert schedule[..|rows + more|] == schedule[..|rows|] + schedule[|rows|..][..|more|];
  }

  /** One run keeps a prefix log a prefix log; a torn one it refuses and leaves as it is. */
  lemma {:induction false} RunKeepsPrefix<S(!new)>(plan: Plan<S>, codec: Codec<S>, text: string, rows: seq<Row<S>>,
                                                   torn: string, events: seq<Event>)
    returns (rows': seq<Row<S>>, torn': string)
    requires plan.Valid() && codec.Valid() && IsPrefixLog(plan, codec, text, rows, torn)
    ensures IsPrefixLog(plan, codec, RunLog(plan, codec, text, events), rows', torn')
    ensures rows <= rows'
    ensures torn != "" ==> rows' == rows && torn' == torn
    ensures torn == "" ==> IsObserved(plan, codec, plan.schedule[|rows|..], events, rows'[|rows|..], torn')
    ensures torn != "" ==> RunLog(plan, codec, text, events) == text
                           && RunError(plan, codec, text, events) == Some(Truncated)
    ensures torn == "" ==> (RunError(plan, codec, text, events) == None <==> |rows'| == |plan.schedule|)
  {
    PrefixLogLoads(plan, codec, text, rows, torn);
    if torn != "" {
      return rows, torn;
    }
    MissingOfPrefix(plan, codec, rows, torn);
    var existing, run := RunLogLoads(plan, codec, text, events);
    rows', torn' := rows + run.rows, run.torn;
    ExecuteLogsObserved(plan, codec, plan.schedule, IdsOf(existing), events);
    assert rows'[|rows|..] == run.rows;
    ExtendsTwice(plan, codec, plan.schedule, rows, run.rows, run.torn);
    LinesOfAppend(codec, rows, run.rows);
    assert LinesOf(codec, rows) + "" == LinesOf(codec, rows);
  }

  // The log after a history of runs from an empty file; each run may be interrupted anywhere.
  function LogAfter<S(==,!new)>(plan: Plan<S>, codec: Codec<S>, runs: seq<seq<Event>>): string {
    if runs == [] then ""
    else RunLog(plan, codec, LogAfter(plan, codec, runs[..|runs| - 1]), runs[|runs| - 1])
  }

  // The `i`-th event of run `r` is about the `n`-th scheduled trial: the log had n - i rows before that run.
  ghost predicate IsAbout<S(!new)>(plan: Plan<S>, codec: Codec<S>, runs: seq<seq<Event>>, r: nat, i: nat, n: nat) {
    && r < |runs| && i < |runs[r]|
    && var before := Load(codec, LogAfter(plan, codec, runs[..r]));
       before.Ok? && |before.value| + i == n
  }

  ghost predicate WasObserved<S(!new)>(plan: Plan<S>, codec: Codec<S>, runs: seq<seq<Event>>, n: nat, row: Row<S>) {
    exists r: nat, i: nat :: IsAbout(plan, codec, runs, r, i, n) && runs[r][i].Finish?
                             && row.outcome == runs[r][i].outcome
  }

  ghost predicate WasTorn<S(!new)>(plan: Plan<S>, codec: Codec<S>, runs: seq<seq<Event>>, n: nat, torn: string) {
    && n < |plan.schedule|
    && exists r: nat, i: nat :: IsAbout(plan, codec, runs, r, i, n)
                                && IsTornFrom(plan, codec, plan.schedule[n], runs[r][i], torn)
  }

  // Every row holds what some run observed of its trial, and so does the row that the torn text begins.
  ghost predicate AllObserved<S(!new)>(plan: Plan<S>, codec: Codec<S>, runs: seq<seq<Event>>, rows: seq<Row<S>>,
                                       torn: string) {
    && (forall n: nat :: n < |rows| ==> WasObserved(plan, codec, runs, n, rows[n]))
    && (torn != "" ==> WasTorn(plan, codec, runs, |rows|, torn))
  }

  lemma {:induction false} AboutEarlier<S(!new)>(plan: Plan<S>, codec: Codec<S>, runs: seq<seq<Event>>,
                                                 r: nat, i: nat, n: nat)
    requires runs != [] && IsAbout(plan, codec, runs[..|runs| - 1], r, i, n)
    ensures IsAbout(plan, codec, runs, r, i, n) && runs[..|runs| - 1][r] == runs[r]
  {
    assert runs[..|runs| - 1][..r] == runs[..r];
  }

  lemma {:induction false} ObservedEarlier<S(!new)>(plan: Plan<S>, codec: Codec<S>, runs: seq<seq<Event>>, n: nat,
                                                    row: Row<S>)
    requires runs != [] && WasObserved(plan, codec, runs[..|runs| - 1], n, row)
    ensures WasObserved(plan, codec, runs, n, row)
  {
    var init := runs[..|runs| - 1];
    var r: nat, i: nat :| IsAbout(plan, codec, init, r, i, n) && init[r][i].Finish?
        && row.outcome == init[r][i].outcome;
    AboutEarlier(plan, codec, runs, r, i, n);
  }

  lemma {:induction false} TornEarlier<S(!new)>(plan: Plan<S>, codec: Codec<S>, runs: seq<seq<Event>>, n: nat,
                                                torn: string)
    requires runs != [] && WasTorn(plan, codec, runs[..|runs| - 1], n, torn)
    ensures WasTorn(plan, codec, runs, n, torn)
  {
    var init := runs[..|runs| - 1];
    var r: nat, i: nat :| IsAbout(plan, codec, init, r, i, n)
                          && IsTornFrom(plan, codec, plan.schedule[n], init[r][i], torn);
    AboutEarlier(plan, codec, runs, r, i, n);
  }

  lemma {:induction false} AllObservedNext<S(!new)>(plan: Plan<S>, codec: Codec<S>, runs: seq<seq<Event>>,
                                                    before: seq<Row<S>>, tornBefore: string,
                                                    rows: seq<Row<S>>, torn: string)
    requires runs != [] && AllObserved(plan, codec, runs[..|runs| - 1], before, tornBefore)
    requires before <= rows && |before| <= |plan.schedule|
    requires if tornBefore != "" then rows == before && torn == tornBefore
             else Load(codec, LogAfter(plan, codec, runs[..|runs| - 1])) == Ok(before)
                  && IsObserved(plan, codec, plan.schedule[|before|..], runs[|runs| - 1], rows[|before|..], torn)
    ensures AllObserved(plan, codec, runs, rows, torn)
  {
    forall n: nat | n < |before| ensures WasObserved(plan, codec, runs, n, rows[n]) {
      ObservedEarlier(plan, codec, runs, n, before[n]);
    }
    if tornBefore != "" {
      TornEarlier(plan, codec, runs, |rows|, torn);
    } else {
      ObservedInLastRun(plan, codec, runs, before, rows, torn);
    }
  }

  lemma {:induction false} ObservedInLastRun<S(!new)>(plan: Plan<S>, codec: Codec<S>, runs: seq<seq<Event>>,
                                                      before: seq<Row<S>>, rows: seq<Row<S>>, torn: string)
    requires runs != [] && Load(codec, LogAfter(plan, codec, runs[..|runs| - 1])) == Ok(before)
    requires before <= rows && |before| <= |plan.schedule|
    requires IsObserved(plan, codec, plan.schedule[|before|..], runs[|runs| - 1], rows[|before|..], torn)
    ensures forall n: nat :: |before| <= n < |rows| ==> WasObserved(plan, codec, runs, n, rows[n])
    ensures torn != "" ==> WasTorn(plan, codec, runs, |rows|, torn)
  {
    var r := |runs| - 1;
    var last, new_ := runs[r], rows[|before|..];
    forall n: nat | |before| <= n < |rows| ensures WasObserved(plan, codec, runs, n, rows[n]) {
      var i := n - |before|;
      assert new_[i] == rows[n] && last[i].Finish? && new_[i].outcome == last[i].outcome;
      assert IsAbout(plan, codec, runs, r, i, n);
    }
    if torn != "" {
      var i := |new_|;
      assert plan.schedule[|before|..][i] == plan.schedule[|rows|];
      assert IsAbout(plan, codec, runs, r, i, |rows|);
    }
  }

  /** Main result: whatever runs there were, the log is the rows of a prefix of the schedule, with outcomes that the
      runs observed, read back as such, or it ends in a torn row and every load refuses it. */
  lemma {:induction false} EveryLogIsAPrefix<S(!new)>(plan: Plan<S>, codec: Codec<S>, runs: seq<seq<Event>>)
    returns (rows: seq<Row<S>>, torn: string)
    requires plan.Valid() && codec.Valid()
    ensures IsPrefixLog(plan, codec, LogAfter(plan, codec, runs), rows, torn)
    ensures AllObserved(plan, codec, runs, rows, torn)
    ensures Distinct(Map(TrialOf<S>, rows))
    ensures Load(codec, LogAfter(plan, codec, runs)) == if torn == "" then Ok(rows) else Err(Truncated)
    decreases |runs|
  {
    if runs == [] {
      rows, torn := [], "";
      assert LinesOf(codec, rows) + torn == "";
      assert Map(TrialOf<S>, rows) == plan.schedule[..0];
    } else {
      var before, tornBefore := EveryLogIsAPrefix(plan, codec, runs[..|runs| - 1]);
      rows, torn := RunKeepsPrefix(plan, codec, LogAfter(plan, codec, runs[..|runs| - 1]), before, tornBefore,
                                   runs[|runs| - 1]);
      AllObservedNext(plan, codec, runs, before, tornBefore, rows, torn);
    }
    PrefixLogLoads(plan, codec, LogAfter(plan, codec, runs), rows, torn);
    PrefixRowsAreSound(plan, codec, rows, torn);
    DistinctTrialsOfRows(rows);
  }

  /** Evidence is never rewritten: every earlier log is a prefix of every later one, and a torn log stays as it is. */
  lemma {:induction false} LogsOnlyGrow<S(!new)>(plan: Plan<S>, codec: Codec<S>, runs: seq<seq<Event>>, k: nat)
    requires k <= |runs|
    ensures LogAfter(plan, codec, runs[..k]) <= LogAfter(plan, codec, runs)
    ensures Load(codec, LogAfter(plan, codec, runs[..k])) == Err(Truncated)
            ==> LogAfter(plan, codec, runs) == LogAfter(plan, codec, runs[..k])
    decreases |runs|
  {
    if k == |runs| {
      assert runs[..k] == runs;
    } else {
      var init := runs[..|runs| - 1];
      assert init[..k] == runs[..k];
      LogsOnlyGrow(plan, codec, init, k);
      RunOnlyAppends(plan, codec, LogAfter(plan, codec, init), runs[|runs| - 1]);
    }
  }

  lemma {:induction false} RunOnlyAppends<S(!new)>(plan: Plan<S>, codec: Codec<S>, text: string, events: seq<Event>)
    ensures text <= RunLog(plan, codec, text, events)
    ensures Load(codec, text).Err? ==> RunLog(plan, codec, text, events) == text
  {
  }

  /******* The repository and the runner *******/

  class Repository<S(==,!new)> {
    const codec: Codec<S>
    var raw: string

    constructor (codec: Codec<S>)
      ensures this.codec == codec && raw == ""
    {
      this.codec := codec;
      raw := "";
    }

    method LoadRecords() returns (loaded: Result<seq<Row<S>>, LogError>)
      ensures loaded == Load(codec, raw)
    {
      var rest, records: seq<Row<S>>, seen: set<nat> := raw, [], {};
      PrependNothing(Load(codec, raw));
      while rest != ""
        invariant Load(codec, raw) == Prepend(records, LoadFrom(codec, rest, seen))
        decreases |rest|
      {
        var line := FirstLine(rest);
        if line[|line| - 1] != '\n' {
          return Err(Truncated);
        }
        if IsBlank(line) {
          return Err(EmptyRow);
        }
        var record := codec.parse(line);
        if record == None {
          return Err(InvalidRow);
        }
        if record.value.trialId in seen {
          return Err(DuplicateTrial);
        }
        PrependNext(records, record.value, LoadFrom(codec, rest[|line|..], seen + {record.value.trialId}));
        records := records + [record.value];
        seen := seen + {record.value.trialId};
        rest := rest[|line|..];
      }
      assert records + [] == records;
      loaded := Ok(records);
    }

    // `writes` holds what the successive calls of write return.
    method Append(row: Row<S>, writes: seq<int>) returns (error: Option<LogError>)
      modifies this
      ensures var line := codec.Line(row);
              && raw == old(raw) + line[..Written(|line|, writes)]
              && error == if Written(|line|, writes) == |line| then None else Some(WriteError(|line|, writes))
    {
      var payload := codec.Line(row);
      var offset: nat, calls: nat := 0, 0;
      while offset < |payload|
        invariant offset <= |payload| && calls <= |writes|
        invariant raw == old(raw) + payload[..offset]
        invariant IsWritten(|payload|, writes, offset, calls)
        decreases |writes| - calls
      {
        if calls == |writes| {
          return Some(Interrupted);
        }
        if writes[calls] <= 0 {
          return Some(ShortAppend);
        }
        var written := if writes[calls] <= |payload| - offset then writes[calls] else |payload| - offset;
        WriteMore(|payload|, writes, offset, calls);
        assert payload[..offset + written] == payload[..offset] + payload[offset..offset + written];
        raw := raw + payload[offset..offset + written];
        offset := offset + written;
        calls := calls + 1;
      }
      error := None;
    }
  }

  lemma PrependNext<S(!new)>(records: seq<Row<S>>, row: Row<S>, loaded: Result<seq<Row<S>>, LogError>)
    ensures Prepend(records, Prepend([row], loaded)) == Prepend(records + [row], loaded)
  {
    assert loaded.Ok? ==> records + ([row] + loaded.value) == records + [row] + loaded.value;
  }

  // The dictionary of the schedule by trial ID.
  ghost predicate IsExpected<S(!new)>(plan: Plan<S>, n: nat, expected: map<nat, Trial<S>>)
    requires n <= |plan.schedule|
  {
    && (forall i :: 0 <= i < n ==> plan.schedule[i].id in expected)
    && (forall id :: id in expected ==> expected[id].id == id && expected[id] in plan.schedule[..n])
  }

  lemma {:induction false} LookUp<S(!new)>(plan: Plan<S>, expected: map<nat, Trial<S>>, row: Row<S>)
    requires plan.Valid() && IsExpected(plan, |plan.schedule|, expected)
    ensures RowRefusal(plan, row) ==
            if row.runId != plan.runId then Some(WrongRun)
            else if row.trialId !in expected then Some(NotScheduled)
            else if expected[row.trialId] != TrialOf(row) then Some(WrongFields)
            else if row.versions != plan.versions then Some(WrongVersions)
            else None
  {
    assert plan.schedule[..|plan.schedule|] == plan.schedule;
    if row.trialId in expected {
      var i :| 0 <= i < |plan.schedule| && plan.schedule[i] == expected[row.trialId];
      if TrialOf(row) in plan.schedule {
        DistinctTrials(plan, TrialOf(row), expected[row.trialId]);
      }
    }
  }

  lemma {:induction false} RefusalNext<S(!new)>(plan: Plan<S>, rows: seq<Row<S>>, k: nat)
    requires k < |rows|
    ensures Refusal(plan, rows[k..]) == if RowRefusal(plan, rows[k]) != None then RowRefusal(plan, rows[k])
            else Refusal(plan, rows[k + 1..])
  {
    assert rows[k..][1..] == rows[k + 1..];
  }

  method ValidateExisting<S(==,!new)>(plan: Plan<S>, rows: seq<Row<S>>) returns (error: Option<LogError>)
    requires plan.Valid()
    ensures error == if Refusal(plan, rows) != None then Refusal(plan, rows)
                     else if |rows| > plan.expectedRows then Some(TooManyRows) else None
  {
    var expected: map<nat, Trial<S>> := map[];
    for n := 0 to |plan.schedule|
      invariant IsExpected(plan, n, expected)
    {
      assert plan.schedule[..n + 1] == plan.schedule[..n] + [plan.schedule[n]];
      expected := expected[plan.schedule[n].id := plan.schedule[n]];
    }
    assert rows[0..] == rows;
    for k := 0 to |rows|
      invariant Refusal(plan, rows) == Refusal(plan, rows[k..])
    {
      var row := rows[k];
      LookUp(plan, expected, row);
      RefusalNext(plan, rows, k);
      if row.runId != plan.runId {
        return Some(WrongRun);
      }
      if row.trialId !in expected {
        return Some(NotScheduled);
      }
      if expected[row.trialId] != TrialOf(row) {
        return Some(WrongFields);
      }
      if row.versions != plan.versions {
        return Some(WrongVersions);
      }
    }
    error := if |rows| > plan.expectedRows then Some(TooManyRows) else None;
  }

  // What the loop over the schedule keeps: what is done so far, followed by what the rest will do, is the whole run.
  ghost predicate IsExecuted<S(!new)>(plan: Plan<S>, codec: Codec<S>, start: set<nat>, events: seq<Event>, k: nat,
                                      completed: set<nat>, rows: seq<Row<S>>)
    requires k <= |plan.schedule| && |rows| <= |events|
  {
    var rest := Execute(plan, codec, plan.schedule[k..], completed, events[|rows|..]);
    Execute(plan, codec, plan.schedule, start, events) == Execution(rows + rest.rows, rest.torn, rest.error)
  }

  lemma {:induction false} ExecuteSkips<S(!new)>(plan: Plan<S>, codec: Codec<S>, start: set<nat>, events: seq<Event>,
                                                 k: nat, completed: set<nat>, rows: seq<Row<S>>)
    requires k < |plan.schedule| && |rows| <= |events| && IsExecuted(plan, codec, start, events, k, completed, rows)
    requires plan.schedule[k].id in completed
    ensures IsExecuted(plan, codec, start, events, k + 1, completed, rows)
  {
    assert plan.schedule[k..][1..] == plan.schedule[k + 1..];
  }

  lemma {:induction false} ExecuteNext<S(!new)>(plan: Plan<S>, codec: Codec<S>, start: set<nat>, events: seq<Event>,
                                                k: nat, completed: set<nat>, rows: seq<Row<S>>, row: Row<S>)
    requires k < |plan.schedule| && |rows| < |events| && IsExecuted(plan, codec, start, events, k, completed, rows)
    requires plan.schedule[k].id !in completed && events[|rows|].Finish?
    requires row == plan.RowFor(plan.schedule[k], events[|rows|].outcome)
    requires Written(|codec.Line(row)|, events[|rows|].writes) == |codec.Line(row)|
    ensures IsExecuted(plan, codec, start, events, k + 1, completed + {plan.schedule[k].id}, rows + [row])
  {
    assert plan.schedule[k..][1..] == plan.schedule[k + 1..];
    assert events[|rows|..][1..] == events[|rows| + 1..];
    var rest := Execute(plan, codec, plan.schedule[k + 1..], completed + {plan.schedule[k].id}, events[|rows| + 1..]);
    assert rows + ([row] + rest.rows) == rows + [row] + rest.rows;
  }

  lemma {:induction false} ExecuteStops<S(!new)>(plan: Plan<S>, codec: Codec<S>, start: set<nat>, events: seq<Event>,
                                                 k: nat, completed: set<nat>, rows: seq<Row<S>>)
    requires k < |plan.schedule| && |rows| <= |events| && IsExecuted(plan, codec, start, events, k, completed, rows)
    requires plan.schedule[k].id !in completed && (|rows| < |events| ==> events[|rows|].Cancel?)
    ensures Execute(plan, codec, plan.schedule, start, events) == Execution(rows, "", Some(Interrupted))
  {
    assert rows + [] == rows;
  }

  lemma {:induction false} ExecuteTears<S(!new)>(plan: Plan<S>, codec: Codec<S>, start: set<nat>, events: seq<Event>,
                                                 k: nat, completed: set<nat>, rows: seq<Row<S>>, line: string)
    requires k < |plan.schedule| && |rows| < |events| && IsExecuted(plan, codec, start, events, k, completed, rows)
    requires plan.schedule[k].id !in completed && events[|rows|].Finish?
    requires line == codec.Line(plan.RowFor(plan.schedule[k], events[|rows|].outcome))
    requires Written(|line|, events[|rows|].writes) < |line|
    ensures Execute(plan, codec, plan.schedule, start, events)
            == Execution(rows, line[..Written(|line|, events[|rows|].writes)],
                         Some(WriteError(|line|, events[|rows|].writes)))
  {
    assert rows + [] == rows;
  }

  // The loop over the schedule.
  method RunSchedule<S(==,!new)>(plan: Plan<S>, repository: Repository<S>, start: set<nat>, events: seq<Event>)
    returns (executed: nat, error: Option<LogError>)
    modifies repository
    ensures var run := Execute(plan, repository.codec, plan.schedule, start, events);
            repository.raw == old(repository.raw) + LinesOf(repository.codec, run.rows) + run.torn
            && executed == |run.rows| && error == run.error
  {
    ghost var before, codec := repository.raw, repository.codec;
    ghost var rows: seq<Row<S>> := [];
    var completed := start;
    executed := 0;
    assert plan.schedule[0..] == plan.schedule && events[0..] == events;
    for k := 0 to |plan.schedule|
      invariant executed == |rows| <= |events| && IsExecuted(plan, codec, start, events, k, completed, rows)
      invariant repository.raw == before + LinesOf(codec, rows)
    {
      var trial := plan.schedule[k];
      if trial.id in completed {
        ExecuteSkips(plan, codec, start, events, k, completed, rows);
        continue;
      }
      if executed == |events| || events[executed].Cancel? {
        ExecuteStops(plan, codec, start, events, k, completed, rows);
        return executed, Some(Interrupted);
      }
      var row := plan.RowFor(trial, events[executed].outcome);
      error := repository.Append(row, events[executed].writes);
      if error.Some? {
        ExecuteTears(plan, codec, start, events, k, completed, rows, codec.Line(row));
        return;
      }
      ExecuteNext(plan, codec, start, events, k, completed, rows, row);
      LinesOfOne(codec, rows, row);
      assert before + LinesOf(codec, rows) + codec.Line(row) == before + LinesOf(codec, rows + [row]);
      completed := completed + {trial.id};
      rows := rows + [row];
      executed := executed + 1;
    }
    assert rows + [] == rows;
    error := None;
  }

  /** A run changes the log to RunLog and returns RunSummary, about which the results above speak. */
  method RunLocked<S(==,!new)>(plan: Plan<S>, repository: Repository<S>, events: seq<Event>)
    returns (result: Result<Summary, LogError>)
    requires plan.Valid()
    modifies repository
    ensures repository.raw == RunLog(plan, repository.codec, old(repository.raw), events)
    ensures result == RunSummary(plan, repository.codec, old(repository.raw), events)
  {
    var loaded := repository.LoadRecords();
    if loaded.Err? {
      return Err(loaded.error);
    }
    var refusal := ValidateExisting(plan, loaded.value);
    if refusal.Some? {
      return Err(refusal.value);
    }
    var executed, error := RunSchedule(plan, repository, IdsOf(loaded.value), events);
    if error.Some? {
      return Err(error.value);
    }
    var after := repository.LoadRecords();
    if after.Err? {
      return Err(after.error);
    }
    result := Ok(Summary(plan.expectedRows, |loaded.value|, executed, |after.value|,
                         |after.value| == plan.expectedRows));
  }

  lemma {:induction false} LinesOfOne<S(!new)>(codec: Codec<S>, rows: seq<Row<S>>, row: Row<S>)
    ensures LinesOf(codec, rows + [row]) == LinesOf(codec, rows) + codec.Line(row)
    ensures codec.Line(row)[..|codec.Line(row)|] == codec.Line(row)
  {
    LinesOfAppend(codec, rows, [row]);
    assert LinesOf(codec, [row]) == codec.Line(row) + "";
  }
}
