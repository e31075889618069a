/** The schedule of a run: every case with everything that is tried, at every budget, once for each phase and
    repetition, in blocks that are shuffled. The benchmark runner and the profiler both use it. */
module Schedule {
  import opened Ordering
  import opened Counting
  import opened TrialIdentity
  import Matrix = RawMatrix
  import Log = EvidenceLog

  // A shuffled block of the schedule: a trial's phase and repetition, and a latency budget.
  type Block = ((Phase, nat), nat)

  type Pair<A> = (Matrix.Identity, A)
  type Setting<A> = (Slot<A>, Matrix.QueryFacts)
  type Place<A> = ((A, nat), (Phase, nat))

  // random.shuffle, seeded by the block.
  type Shuffle<!A> = (Block, seq<Pair<A>>) -> seq<Pair<A>>

  // What is tried, the latency budgets, and the phase and repetition of each trial.
  datatype Grid<A> = Grid(arms: seq<A>, budgets: seq<nat>, trials: seq<(Phase, nat)>)

  // `identify` digests the coordinates of a trial into its ID.
  datatype Setup<!A> = Setup(identify: Slot<A> -> nat, grid: Grid<A>, cases: seq<Matrix.Identity>, shuffle: Shuffle<A>)

  ghost predicate IsShuffle<A(!new)>(shuffle: Shuffle<A>) {
    forall block, pairs :: multiset(shuffle(block, pairs)) == multiset(pairs)
  }

  ghost predicate IsGrid<A>(grid: Grid<A>) {
    Distinct(grid.arms) && Distinct(grid.budgets) && Distinct(grid.trials)
  }

  function SlotFor<A>(block: Block, pair: Pair<A>): Slot<A> {
    Cell(pair.0.query, pair.1, block.1, block.0.0, block.0.1)
  }

  function TrialFor<A(!new)>(identify: Slot<A> -> nat, block: Block): Pair<A> -> Log.Trial<Setting<A>> {
    (pair: Pair<A>) => Log.Trial(identify(SlotFor(block, pair)), (SlotFor(block, pair), pair.0.facts))
  }

  // Every case with everything that is tried.
  function Pairs<A>(setup: Setup<A>): seq<Pair<A>> {
    Cross(setup.cases, setup.grid.arms)
  }

  function BlockTrials<A(!new)>(setup: Setup<A>, block: Block): seq<Log.Trial<Setting<A>>> {
    Map(TrialFor(setup.identify, block), setup.shuffle(block, Pairs(setup)))
  }

  function ScheduleOf<A(!new)>(setup: Setup<A>, blocks: seq<Block>): seq<Log.Trial<Setting<A>>> {
    if blocks == [] then []
    else ScheduleOf(setup, blocks[..|blocks| - 1]) + BlockTrials(setup, blocks[|blocks| - 1])
  }

  // For every phase and repetition, every budget.
  function Blocks<A>(grid: Grid<A>): seq<Block> {
    Cross(grid.trials, grid.budgets)
  }

  function PlaceOf<A>(slot: Slot<A>): Place<A> {
    ((slot.approach, slot.budget), (slot.phase, slot.repetition))
  }

  // Every place one query has in a complete run.
  function PlacesOf<A>(grid: Grid<A>): seq<Place<A>> {
    Cross(Cross(grid.arms, grid.budgets), grid.trials)
  }

  lemma {:induction false} InPlacesOf<A(!new)>(grid: Grid<A>)
    ensures forall place: Place<A> :: place in PlacesOf(grid) <==>
              place.0.0 in grid.arms && place.0.1 in grid.budgets && place.1 in grid.trials
  {
    forall place: Place<A>
      ensures place in PlacesOf(grid) <==> place.0.0 in grid.arms && place.0.1 in grid.budgets && place.1 in grid.trials
    {
      var setting, trial := place.0, place.1;
      assert place == (setting, trial) && setting == (setting.0, setting.1);
      InCross(grid.arms, grid.budgets, setting.0, setting.1);
      InCross(Cross(grid.arms, grid.budgets), grid.trials, setting, trial);
    }
  }

  lemma {:induction false} CrossAppend<A, B>(a: seq<A>, x: A, b: seq<B>)
    ensures Cross(a + [x], b) == Cross(a, b) + Map(PairWith<A, B>(x), b)
  {
    if a == [] {
      assert (a + [x])[1..] == [];
    } else {
      assert (a + [x])[1..] == a[1..] + [x];
      CrossAppend(a[1..], x, b);
    }
  }

  lemma {:induction false} ScheduleOfNext<A(!new)>(setup: Setup<A>, blocks: seq<Block>, block: Block)
    ensures ScheduleOf(setup, blocks + [block])
            == ScheduleOf(setup, blocks) + BlockTrials(setup, block)
  {
    assert (blocks + [block])[..|blocks|] == blocks;
  }

  // The blocks before the next one, in the order of the nested loops.
  function BlocksUpTo<A>(grid: Grid<A>, i: nat, j: nat): seq<Block>
    requires i < |grid.trials| && j <= |grid.budgets|
  {
    Cross(grid.trials[..i], grid.budgets) + Map(PairWith<(Phase, nat), nat>(grid.trials[i]), grid.budgets[..j])
  }

  lemma {:induction false} BlocksUpToNext<A(!new)>(grid: Grid<A>, i: nat, j: nat)
    requires i < |grid.trials| && j < |grid.budgets|
    ensures BlocksUpTo(grid, i, j + 1) == BlocksUpTo(grid, i, j) + [(grid.trials[i], grid.budgets[j])]
  {
    var row := Map(PairWith<(Phase, nat), nat>(grid.trials[i]), grid.budgets[..j + 1]);
    assert row == Map(PairWith<(Phase, nat), nat>(grid.trials[i]), grid.budgets[..j])
           + [(grid.trials[i], grid.budgets[j])];
  }

  lemma {:induction false} BlocksRow<A(!new)>(grid: Grid<A>, i: nat)
    requires i < |grid.trials|
    ensures BlocksUpTo(grid, i, 0) == Cross(grid.trials[..i], grid.budgets)
    ensures BlocksUpTo(grid, i, |grid.budgets|) == Cross(grid.trials[..i + 1], grid.budgets)
  {
    assert grid.budgets[..|grid.budgets|] == grid.budgets;
    assert grid.trials[..i + 1] == grid.trials[..i] + [grid.trials[i]];
    CrossAppend(grid.trials[..i], grid.trials[i], grid.budgets);
  }

  method AppendBlock<A(!new)>(identify: Slot<A> -> nat, block: Block, shuffled: seq<Pair<A>>,
                              before: seq<Log.Trial<Setting<A>>>)
    returns (scheduled: seq<Log.Trial<Setting<A>>>)
    ensures scheduled == before + Map(TrialFor(identify, block), shuffled)
  {
    ghost var mapped := Map(TrialFor(identify, block), shuffled);
    scheduled := before;
    for k := 0 to |shuffled|
      invariant scheduled == before + mapped[..k]
    {
      assert mapped[..k + 1] == mapped[..k] + [mapped[k]];
      scheduled := scheduled + [TrialFor(identify, block)(shuffled[k])];
    }
    assert mapped[..|shuffled|] == mapped;
  }

  /** The nested loops that build the schedule. */
  method BuildSchedule<A(!new)>(setup: Setup<A>)
    returns (scheduled: seq<Log.Trial<Setting<A>>>)
    ensures scheduled == ScheduleOf(setup, Blocks(setup.grid))
  {
    var pairs := Pairs(setup);
    scheduled := [];
    for i := 0 to |setup.grid.trials|
      invariant scheduled == ScheduleOf(setup, Cross(setup.grid.trials[..i], setup.grid.budgets))
    {
      BlocksRow(setup.grid, i);
      for j := 0 to |setup.grid.budgets|
        invariant scheduled == ScheduleOf(setup, BlocksUpTo(setup.grid, i, j))
      {
        var block := (setup.grid.trials[i], setup.grid.budgets[j]);
        var shuffled := setup.shuffle(block, pairs);
        BlocksUpToNext(setup.grid, i, j);
        ScheduleOfNext(setup, BlocksUpTo(setup.grid, i, j), block);
        scheduled := AppendBlock(setup.identify, block, shuffled, scheduled);
      }
    }
    assert setup.grid.trials[..|setup.grid.trials|] == setup.grid.trials;
  }

  /******* The order of the schedule *******/

  function BlockSize<A>(setup: Setup<A>): nat {
    |setup.cases| * |setup.grid.arms|
  }

  lemma {:induction false} BlockIsWhole<A(!new)>(setup: Setup<A>, block: Block)
    requires IsShuffle(setup.shuffle)
    ensures |BlockTrials(setup, block)| == BlockSize(setup)
  {
    SizeOfCross(setup.cases, setup.grid.arms);
    assert |multiset(setup.shuffle(block, Pairs(setup)))| == |multiset(Pairs(setup))|;
  }

  lemma {:induction false} SizeOfCross<A, B>(a: seq<A>, b: seq<B>)
    ensures |Cross(a, b)| == |a| * |b|
  {
    if a != [] {
      SizeOfCross(a[1..], b);
      OneMoreTimes(|a[1..]|, |b|);
    }
  }

  lemma {:induction false} CrossAt<A, B>(a: seq<A>, b: seq<B>, i: nat, j: nat)
    requires i < |a| && j < |b|
    ensures i * |b| + j < |Cross(a, b)| && Cross(a, b)[i * |b| + j] == (a[i], b[j])
  {
    SizeOfCross(a, b);
    if i > 0 {
      CrossAt(a[1..], b, i - 1, j);
      OneMoreTimes(i - 1, |b|);
    }
  }

  lemma {:induction false} ScheduleAt<A(!new)>(setup: Setup<A>, blocks: seq<Block>, b: nat, k: nat)
    requires IsShuffle(setup.shuffle) && b < |blocks| && k < BlockSize(setup)
    ensures |BlockTrials(setup, blocks[b])| == BlockSize(setup)
    ensures b * BlockSize(setup) + k < |ScheduleOf(setup, blocks)|
    ensures ScheduleOf(setup, blocks)[b * BlockSize(setup) + k] == BlockTrials(setup, blocks[b])[k]
    decreases |blocks|
  {
    var init := blocks[..|blocks| - 1];
    BlockIsWhole(setup, blocks[b]);
    ScheduleSize(setup, init);
    if b < |init| {
      ScheduleAt(setup, init, b, k);
    }
  }

  lemma {:induction false} ScheduleSize<A(!new)>(setup: Setup<A>, blocks: seq<Block>)
    requires IsShuffle(setup.shuffle)
    ensures |ScheduleOf(setup, blocks)| == |blocks| * BlockSize(setup)
    decreases |blocks|
  {
    if blocks != [] {
      ScheduleSize(setup, blocks[..|blocks| - 1]);
      BlockIsWhole(setup, blocks[|blocks| - 1]);
      OneMoreTimes(|blocks| - 1, BlockSize(setup));
    }
  }

  /** Where a trial stands: after the trials of all earlier phases and repetitions, and those of all smaller budgets
      in the list; only the order of cases and methods inside a block is shuffled. */
  lemma {:induction false} TrialStandsAt<A(!new)>(setup: Setup<A>, i: nat, j: nat, k: nat)
    requires IsShuffle(setup.shuffle) && i < |setup.grid.trials| && j < |setup.grid.budgets| && k < BlockSize(setup)
    ensures
      var scheduled, budgets := ScheduleOf(setup, Blocks(setup.grid)), |setup.grid.budgets|;
      var place := (i * budgets + j) * BlockSize(setup) + k;
      && place < |scheduled|
      && var slot := scheduled[place].setting.0;
         && (slot.phase, slot.repetition) == setup.grid.trials[i] && slot.budget == setup.grid.budgets[j]
         && slot.approach in setup.grid.arms && scheduled[place].id == setup.identify(slot)
         && exists c :: c in setup.cases && c.query == slot.query && c.facts == scheduled[place].setting.1
  {
    var blocks := Blocks(setup.grid);
    CrossAt(setup.grid.trials, setup.grid.budgets, i, j);
    var b := i * |setup.grid.budgets| + j;
    var block := blocks[b];
    ScheduleAt(setup, blocks, b, k);
    BlockIsWhole(setup, block);
    var trial := BlockTrials(setup, block)[k];
    var pair := TrialInBlock(setup, block, trial);
    InCross(setup.cases, setup.grid.arms, pair.0, pair.1);
    assert pair == (pair.0, pair.1);
  }

  /******* The schedule is the full product *******/

  function KeyOfTrial<A(!new)>(trial: Log.Trial<Setting<A>>): (string, Place<A>) {
    (trial.setting.0.query, PlaceOf(trial.setting.0))
  }

  function BlockOfKey<A>(key: (string, Place<A>)): Block {
    (key.1.1, key.1.0.1)
  }

  // What every trial of a block is.
  ghost predicate IsTrialOf<A(!new)>(identify: Slot<A> -> nat, block: Block, pair: Pair<A>,
                                     trial: Log.Trial<Setting<A>>) {
    && trial.setting == (SlotFor(block, pair), pair.0.facts)
    && trial.id == identify(trial.setting.0)
  }

  lemma {:induction false} TrialInBlock<A(!new)>(setup: Setup<A>, block: Block, trial: Log.Trial<Setting<A>>)
    returns (pair: Pair<A>)
    requires IsShuffle(setup.shuffle) && trial in BlockTrials(setup, block)
    ensures pair in Pairs(setup) && IsTrialOf(setup.identify, block, pair, trial)
  {
    var pairs := setup.shuffle(block, Pairs(setup));
    var i :| 0 <= i < |pairs| && BlockTrials(setup, block)[i] == trial;
    pair := pairs[i];
    assert pair in multiset(pairs);
    assert pair in multiset(Pairs(setup));
  }

  lemma {:induction false} BlockHasTrial<A(!new)>(setup: Setup<A>, block: Block, pair: Pair<A>)
    returns (trial: Log.Trial<Setting<A>>)
    requires IsShuffle(setup.shuffle) && pair in Pairs(setup)
    ensures trial in BlockTrials(setup, block) && IsTrialOf(setup.identify, block, pair, trial)
  {
    var pairs := setup.shuffle(block, Pairs(setup));
    assert pair in multiset(Pairs(setup));
    assert pair in multiset(pairs);
    var i :| 0 <= i < |pairs| && pairs[i] == pair;
    trial := BlockTrials(setup, block)[i];
  }

  lemma {:induction false} TrialInSchedule<A(!new)>(setup: Setup<A>, blocks: seq<Block>, trial: Log.Trial<Setting<A>>)
    returns (block: Block, pair: Pair<A>)
    requires IsShuffle(setup.shuffle) && trial in ScheduleOf(setup, blocks)
    ensures block in blocks && pair in Pairs(setup) && IsTrialOf(setup.identify, block, pair, trial)
    decreases |blocks|
  {
    var last := |blocks| - 1;
    if trial in ScheduleOf(setup, blocks[..last]) {
      block, pair := TrialInSchedule(setup, blocks[..last], trial);
    } else {
      block := blocks[last];
      pair := TrialInBlock(setup, block, trial);
    }
  }

  lemma {:induction false} ScheduleHasTrial<A(!new)>(setup: Setup<A>, blocks: seq<Block>, block: Block, pair: Pair<A>)
    returns (trial: Log.Trial<Setting<A>>)
    requires IsShuffle(setup.shuffle) && block in blocks && pair in Pairs(setup)
    ensures trial in ScheduleOf(setup, blocks) && IsTrialOf(setup.identify, block, pair, trial)
    decreases |blocks|
  {
    var last := |blocks| - 1;
    if block == blocks[last] {
      trial := BlockHasTrial(setup, block, pair);
    } else {
      assert block in blocks[..last];
      trial := ScheduleHasTrial(setup, blocks[..last], block, pair);
    }
  }

  lemma {:induction false} BlockKeysAreDistinct<A(!new)>(setup: Setup<A>, block: Block)
    requires IsShuffle(setup.shuffle) && IsGrid(setup.grid) && Distinct(Map(Matrix.NameOf, setup.cases))
    ensures Distinct(Map(KeyOfTrial, BlockTrials(setup, block)))
  {
    var all := Pairs(setup);
    var pairs := setup.shuffle(block, all);
    var keys := Map(KeyOfTrial, BlockTrials(setup, block));
    Matrix.DistinctNamesAreAntisymmetric(setup.cases);
    CrossProperties(setup.cases, setup.grid.arms);
    DistinctMultiset(all);
    DistinctMultiset(pairs);
    forall i, j | 0 <= i < j < |keys| ensures keys[i] != keys[j] {
      assert pairs[i] in multiset(all) && pairs[j] in multiset(all);
      DifferentPairs(setup.grid, setup.cases, block, pairs[i], pairs[j]);
    }
  }

  lemma {:induction false} DifferentPairs<A(!new)>(grid: Grid<A>, cases: seq<Matrix.Identity>, block: Block, a: Pair<A>,
                                                   b: Pair<A>)
    requires Distinct(Map(Matrix.NameOf, cases)) && a in Cross(cases, grid.arms) && b in Cross(cases, grid.arms)
             && a != b
    ensures (SlotFor(block, a).query, PlaceOf(SlotFor(block, a)))
            != (SlotFor(block, b).query, PlaceOf(SlotFor(block, b)))
  {
    InCross(cases, grid.arms, a.0, a.1);
    InCross(cases, grid.arms, b.0, b.1);
    assert a == (a.0, a.1) && b == (b.0, b.1);
    if a.0.query == b.0.query {
      Matrix.NamedOnce(cases, a.0, b.0);
    }
  }

  lemma {:induction false} ScheduleKeysAreDistinct<A(!new)>(setup: Setup<A>, blocks: seq<Block>)
    requires IsShuffle(setup.shuffle) && IsGrid(setup.grid) && Distinct(Map(Matrix.NameOf, setup.cases))
             && Distinct(blocks)
    ensures Distinct(Map(KeyOfTrial, ScheduleOf(setup, blocks)))
    decreases |blocks|
  {
    if blocks != [] {
      var last := |blocks| - 1;
      var before := ScheduleOf(setup, blocks[..last]);
      var block := BlockTrials(setup, blocks[last]);
      ScheduleKeysAreDistinct(setup, blocks[..last]);
      BlockKeysAreDistinct(setup, blocks[last]);
      forall key | key in Map(KeyOfTrial, before) ensures BlockOfKey(key) != blocks[last] {
        var i :| 0 <= i < |before| && KeyOfTrial(before[i]) == key;
        var found, pair := TrialInSchedule(setup, blocks[..last], before[i]);
        assert BlockOfKey(key) == found;
      }
      forall key | key in Map(KeyOfTrial, block) ensures BlockOfKey(key) == blocks[last] {
        var i :| 0 <= i < |block| && KeyOfTrial(block[i]) == key;
        var pair := TrialInBlock(setup, blocks[last], block[i]);
      }
      assert Map(KeyOfTrial, before + block) == Map(KeyOfTrial, before) + Map(KeyOfTrial, block);
      DistinctAppend(Map(KeyOfTrial, before), Map(KeyOfTrial, block));
    }
  }

  // IDs tell the trials of the run apart.
  ghost predicate HasOwnIds<A(!new)>(setup: Setup<A>) {
    forall a: Slot<A>, b: Slot<A> ::
      a.approach in setup.grid.arms && b.approach in setup.grid.arms && setup.identify(a) == setup.identify(b)
      ==> a == b
  }

  ghost predicate IsSound<A(!new)>(setup: Setup<A>) {
    IsShuffle(setup.shuffle) && IsGrid(setup.grid) && Distinct(Map(Matrix.NameOf, setup.cases)) && HasOwnIds(setup)
  }

  lemma {:induction false} KeyInSchedule<A(!new)>(setup: Setup<A>, id: string, place: Place<A>)
    requires IsShuffle(setup.shuffle) && IsGrid(setup.grid)
    requires id in Map(Matrix.NameOf, setup.cases) && place in PlacesOf(setup.grid)
    ensures (id, place) in Map(KeyOfTrial, ScheduleOf(setup, Blocks(setup.grid)))
  {
    var schedule := ScheduleOf(setup, Blocks(setup.grid));
    InPlacesOf(setup.grid);
    var i :| 0 <= i < |setup.cases| && Map(Matrix.NameOf, setup.cases)[i] == id;
    var block := BlockOfKey((id, place));
    var pair := (setup.cases[i], place.0.0);
    InCross(setup.cases, setup.grid.arms, pair.0, pair.1);
    InCross(setup.grid.trials, setup.grid.budgets, block.0, block.1);
    assert block == (block.0, block.1);
    var trial := ScheduleHasTrial(setup, Blocks(setup.grid), block, pair);
    assert KeyOfTrial(trial) == (id, place);
    var k :| 0 <= k < |schedule| && schedule[k] == trial;
    assert Map(KeyOfTrial, schedule)[k] == (id, place);
  }

  lemma {:induction false} KeyOfScheduled<A(!new)>(setup: Setup<A>, trial: Log.Trial<Setting<A>>)
    requires IsShuffle(setup.shuffle) && IsGrid(setup.grid)
    requires trial in ScheduleOf(setup, Blocks(setup.grid))
    ensures KeyOfTrial(trial).0 in Map(Matrix.NameOf, setup.cases) && KeyOfTrial(trial).1 in PlacesOf(setup.grid)
    ensures trial.id == setup.identify(trial.setting.0) && trial.setting.0.approach in setup.grid.arms
    ensures Matrix.Identity(trial.setting.0.query, trial.setting.1) in setup.cases
  {
    var block, pair := TrialInSchedule(setup, Blocks(setup.grid), trial);
    InCross(setup.cases, setup.grid.arms, pair.0, pair.1);
    InCross(setup.grid.trials, setup.grid.budgets, block.0, block.1);
    assert block == (block.0, block.1) && pair == (pair.0, pair.1);
    InPlacesOf(setup.grid);
    var i :| 0 <= i < |setup.cases| && setup.cases[i] == pair.0;
    assert Map(Matrix.NameOf, setup.cases)[i] == pair.0.query;
    assert pair.0 == Matrix.Identity(trial.setting.0.query, trial.setting.1);
  }

  lemma {:induction false} InProduct<A(!new)>(setup: Setup<A>, key: (string, Place<A>))
    requires IsShuffle(setup.shuffle) && IsGrid(setup.grid)
    ensures key in Map(KeyOfTrial, ScheduleOf(setup, Blocks(setup.grid)))
            <==> key in Cross(Map(Matrix.NameOf, setup.cases), PlacesOf(setup.grid))
  {
    var schedule := ScheduleOf(setup, Blocks(setup.grid));
    var keys := Map(KeyOfTrial, schedule);
    InCross(Map(Matrix.NameOf, setup.cases), PlacesOf(setup.grid), key.0, key.1);
    assert key == (key.0, key.1);
    if key in keys {
      var i :| 0 <= i < |keys| && keys[i] == key;
      KeyOfScheduled(setup, schedule[i]);
    }
    if key.0 in Map(Matrix.NameOf, setup.cases) && key.1 in PlacesOf(setup.grid) {
      KeyInSchedule(setup, key.0, key.1);
    }
  }

  lemma {:induction false} ProductIsDistinct<A(!new)>(setup: Setup<A>)
    requires IsGrid(setup.grid) && Distinct(Map(Matrix.NameOf, setup.cases))
    ensures Distinct(Cross(Map(Matrix.NameOf, setup.cases), PlacesOf(setup.grid))) && Distinct(Blocks(setup.grid))
  {
    CrossProperties(setup.grid.arms, setup.grid.budgets);
    CrossProperties(Cross(setup.grid.arms, setup.grid.budgets), setup.grid.trials);
    CrossProperties(Map(Matrix.NameOf, setup.cases), PlacesOf(setup.grid));
    CrossProperties(setup.grid.trials, setup.grid.budgets);
  }

  /** Whatever the shuffles do, the schedule holds every cell of the product of queries and places once. */
  lemma {:induction false} ScheduleIsProduct<A(!new)>(setup: Setup<A>)
    requires IsShuffle(setup.shuffle) && IsGrid(setup.grid) && Distinct(Map(Matrix.NameOf, setup.cases))
    ensures multiset(Map(KeyOfTrial, ScheduleOf(setup, Blocks(setup.grid))))
            == multiset(Cross(Map(Matrix.NameOf, setup.cases), PlacesOf(setup.grid)))
  {
    ProductIsDistinct(setup);
    ScheduleKeysAreDistinct(setup, Blocks(setup.grid));
    var keys, product := Map(KeyOfTrial, ScheduleOf(setup, Blocks(setup.grid))),
        Cross(Map(Matrix.NameOf, setup.cases), PlacesOf(setup.grid));
    forall key ensures key in keys <==> key in product {
      InProduct(setup, key);
    }
    DistinctSameElements(keys, product);
  }

  function Size<A>(setup: Setup<A>): nat {
    |setup.cases| * |setup.grid.arms| * |setup.grid.budgets| * |setup.grid.trials|
  }

  lemma {:induction false} ProductSize<A(!new)>(setup: Setup<A>)
    ensures |Cross(Map(Matrix.NameOf, setup.cases), PlacesOf(setup.grid))| == Size(setup)
  {
    var grid := setup.grid;
    CrossProperties(grid.arms, grid.budgets);
    CrossProperties(Cross(grid.arms, grid.budgets), grid.trials);
    CrossProperties(Map(Matrix.NameOf, setup.cases), PlacesOf(grid));
    Associate(|setup.cases|, |grid.arms|, |grid.budgets|, |grid.trials|);
  }

  lemma Associate(a: nat, b: nat, c: nat, d: nat)
    ensures a * (b * c * d) == a * b * c * d
  {
    assert a * (b * c) == a * b * c;
    assert a * (b * c * d) == a * (b * c) * d;
  }

  /** A schedule is one that the evidence log can rely on: it has one trial for every cell, and no two share an ID. */
  lemma {:induction false} ScheduleIsSound<A(!new)>(setup: Setup<A>)
    requires IsSound(setup)
    ensures var schedule := ScheduleOf(setup, Blocks(setup.grid));
            |schedule| == Size(setup) && Log.DistinctIds(schedule)
  {
    var schedule := ScheduleOf(setup, Blocks(setup.grid));
    ScheduleIsProduct(setup);
    ProductSize(setup);
    assert |multiset(Map(KeyOfTrial, schedule))| == |schedule|;
    assert |multiset(Cross(Map(Matrix.NameOf, setup.cases), PlacesOf(setup.grid)))| == Size(setup);
    CrossProperties(setup.grid.trials, setup.grid.budgets);
    ScheduleKeysAreDistinct(setup, Blocks(setup.grid));
    IdsAreDistinct(setup, schedule);
  }

  lemma {:induction false} IdsAreDistinct<A(!new)>(setup: Setup<A>, schedule: seq<Log.Trial<Setting<A>>>)
    requires IsSound(setup)
    requires schedule == ScheduleOf(setup, Blocks(setup.grid)) && Distinct(Map(KeyOfTrial, schedule))
    ensures Log.DistinctIds(schedule)
  {
    var ids := Map(Log.ScheduledId<Setting<A>>, schedule);
    forall i, j | 0 <= i < j < |schedule| ensures ids[i] != ids[j] {
      KeyOfScheduled(setup, schedule[i]);
      KeyOfScheduled(setup, schedule[j]);
      assert Map(KeyOfTrial, schedule)[i] != Map(KeyOfTrial, schedule)[j];
    }
  }
}
