/** The validators of the frozen split, which trust nothing the producer says. */
module Validation {
  import opened Wrappers
  import opened Contracts
  import opened Ordering
  import opened Counting
  import opened Allocation
  import opened Splits

  /******* Quotas *******/

  function CellIn(counts: map<(Source, SplitName), nat>, source: Source, split: SplitName): nat {
    if (source, split) in counts then counts[(source, split)] else 0
  }

  ghost predicate Tallies(counts: map<(Source, SplitName), nat>, splitOf: map<string, SplitName>, queries: seq<Query>) {
    forall source, split :: CellIn(counts, source, split) == CountIf(InCell(splitOf, source, split), queries)
  }

  lemma {:induction false} TallyOneMore(counts: map<(Source, SplitName), nat>, splitOf: map<string, SplitName>,
                                        queries: seq<Query>, next: Query)
    requires Tallies(counts, splitOf, queries) && next.id in splitOf
    ensures
      var cell := (next.source, splitOf[next.id]);
      Tallies(counts[cell := CellIn(counts, cell.0, cell.1) + 1], splitOf, queries + [next])
  {
    var cell := (next.source, splitOf[next.id]);
    var counts' := counts[cell := CellIn(counts, cell.0, cell.1) + 1];
    forall source, split
      ensures CellIn(counts', source, split) == CountIf(InCell(splitOf, source, split), queries + [next])
    {
      CountIfAppend(InCell(splitOf, source, split), queries, [next]);
      assert CellIn(counts, source, split) == CountIf(InCell(splitOf, source, split), queries);
    }
  }

  method CountCells(queries: seq<Query>, splitOf: map<string, SplitName>)
    returns (counts: map<(Source, SplitName), nat>)
    requires AllAssigned(queries, splitOf)
    ensures Tallies(counts, splitOf, queries)
  {
    counts := map[];
    assert queries[..0] == [];
    for i := 0 to |queries|
      invariant Tallies(counts, splitOf, queries[..i])
    {
      var cell := (queries[i].source, splitOf[queries[i].id]);
      TallyOneMore(counts, splitOf, queries[..i], queries[i]);
      assert queries[..i + 1] == queries[..i] + [queries[i]];
      counts := counts[cell := CellIn(counts, cell.0, cell.1) + 1];
    }
    assert queries[..|queries|] == queries;
  }

  /** The first cell, in enumeration order, whose count is not its quota; none exactly when all quotas hold. */
  method ValidateSourceQuotas(queries: seq<Query>, splitOf: map<string, SplitName>)
    returns (mismatch: Option<(Source, SplitName)>)
    requires AllAssigned(queries, splitOf)
    ensures mismatch == None <==> QuotasHold(queries, splitOf)
    ensures mismatch.Some? ==>
              CountIf(InCell(splitOf, mismatch.value.0, mismatch.value.1), queries)
              != Quota(mismatch.value.0, mismatch.value.1)
  {
    var actual := CountCells(queries, splitOf);
    for i := 0 to |SOURCES|
      invariant forall k, split :: 0 <= k < i ==> CellIn(actual, SOURCES[k], split) == Quota(SOURCES[k], split)
    {
      for j := 0 to |SPLITS|
        invariant forall l :: 0 <= l < j ==> CellIn(actual, SOURCES[i], SPLITS[l]) == Quota(SOURCES[i], SPLITS[l])
      {
        if CellIn(actual, SOURCES[i], SPLITS[j]) != Quota(SOURCES[i], SPLITS[j]) {
          return Some((SOURCES[i], SPLITS[j]));
        }
      }
      forall split ensures CellIn(actual, SOURCES[i], split) == Quota(SOURCES[i], split) {
        SplitListed(split);
        var l :| 0 <= l < |SPLITS| && SPLITS[l] == split;
      }
    }
    forall source, split ensures CellIn(actual, source, split) == Quota(source, split) {
      SourceListed(source);
      var k :| 0 <= k < |SOURCES| && SOURCES[k] == source;
    }
    return None;
  }

  /******* Group leakage *******/

  // The splits of all queries that carry a key.
  function SplitsOfKey(queries: seq<Query>, splitOf: map<string, SplitName>, key: string): set<SplitName>
    requires AllAssigned(queries, splitOf)
  {
    if queries == [] then {}
    else
      var last := queries[|queries| - 1];
      SplitsOfKey(queries[..|queries| - 1], splitOf, key) + (if key in last.keys then {splitOf[last.id]} else {})
  }

  ghost predicate Leaks(queries: seq<Query>, splitOf: map<string, SplitName>, key: string)
    requires AllAssigned(queries, splitOf)
  {
    |SplitsOfKey(queries, splitOf, key)| > 1
  }

  lemma {:induction false} SplitsOfKeyAre(queries: seq<Query>, splitOf: map<string, SplitName>, key: string)
    requires AllAssigned(queries, splitOf)
    ensures forall split :: split in SplitsOfKey(queries, splitOf, key) <==>
              exists a: nat :: a < |queries| && key in queries[a].keys && splitOf[queries[a].id] == split
  {
    if queries != [] {
      var init, last := queries[..|queries| - 1], queries[|queries| - 1];
      SplitsOfKeyAre(init, splitOf, key);
      forall split | split in SplitsOfKey(queries, splitOf, key)
        ensures exists a: nat :: a < |queries| && key in queries[a].keys && splitOf[queries[a].id] == split
      {
        if split in SplitsOfKey(init, splitOf, key) {
          var a: nat :| a < |init| && key in init[a].keys && splitOf[init[a].id] == split;
          assert queries[a] == init[a];
        } else {
          assert queries[|queries| - 1] == last;
        }
      }
      forall a: nat | a < |queries| && key in queries[a].keys
        ensures splitOf[queries[a].id] in SplitsOfKey(queries, splitOf, key)
      {
        if a < |init| {
          assert queries[a] == init[a];
        }
      }
    }
  }

  lemma {:induction false} TwoMembers<T>(s: set<T>)
    ensures |s| > 1 <==> exists x, y :: x in s && y in s && x != y
  {
    if s != {} {
      var x :| x in s;
      var rest := s - {x};
      if |s| > 1 {
        assert |rest| == |s| - 1;
        var y :| y in rest;
        assert x in s && y in s && x != y;
      } else {
        assert |rest| == 0;
        assert s == {x};
      }
    }
  }

  /** A group leaks exactly when two queries that share its key are in different splits. */
  lemma {:induction false} LeakageMeansSharedKey(queries: seq<Query>, splitOf: map<string, SplitName>)
    requires AllAssigned(queries, splitOf)
    ensures NoLeakage(queries, splitOf) <==> forall key :: !Leaks(queries, splitOf, key)
  {
    if NoLeakage(queries, splitOf) {
      forall key ensures !Leaks(queries, splitOf, key) {
        SplitsOfKeyAre(queries, splitOf, key);
        TwoMembers(SplitsOfKey(queries, splitOf, key));
        if Leaks(queries, splitOf, key) {
          var x, y :| x in SplitsOfKey(queries, splitOf, key) && y in SplitsOfKey(queries, splitOf, key) && x != y;
          var a: nat :| a < |queries| && key in queries[a].keys && splitOf[queries[a].id] == x;
          var b: nat :| b < |queries| && key in queries[b].keys && splitOf[queries[b].id] == y;
          assert Components.Share(queries, a, b);
        }
      }
    }
    if forall key :: !Leaks(queries, splitOf, key) {
      forall a: nat, b: nat | a < |queries| && b < |queries| && Components.Share(queries, a, b)
        ensures splitOf[queries[a].id] == splitOf[queries[b].id]
      {
        var key :| key in queries[a].keys && key in queries[b].keys;
        assert !Leaks(queries, splitOf, key);
        SplitsOfKeyAre(queries, splitOf, key);
        TwoMembers(SplitsOfKey(queries, splitOf, key));
        assert splitOf[queries[a].id] in SplitsOfKey(queries, splitOf, key);
        assert splitOf[queries[b].id] in SplitsOfKey(queries, splitOf, key);
      }
    }
  }

  function GroupIn(groups: map<string, set<SplitName>>, key: string): set<SplitName> {
    if key in groups then groups[key] else {}
  }

  // `groups` holds the splits of every key of `queries`, and of the first `done` keys of `next`.
  ghost predicate Gathered(groups: map<string, set<SplitName>>, splitOf: map<string, SplitName>, queries: seq<Query>,
                           next: Query, done: nat)
    requires AllAssigned(queries, splitOf) && done <= |next.keys| && next.id in splitOf
  {
    forall key :: GroupIn(groups, key) ==
      SplitsOfKey(queries, splitOf, key) + (if key in next.keys[..done] then {splitOf[next.id]} else {})
  }

  method GatherKeys(groups: map<string, set<SplitName>>, splitOf: map<string, SplitName>, ghost queries: seq<Query>,
                    next: Query)
      returns (after: map<string, set<SplitName>>)
    requires AllAssigned(queries, splitOf) && next.id in splitOf
    requires Gathered(groups, splitOf, queries, next, 0)
    ensures AllAssigned(queries + [next], splitOf)
    ensures forall key :: GroupIn(after, key) == SplitsOfKey(queries + [next], splitOf, key)
  {
    after := groups;
    for j := 0 to |next.keys|
      invariant Gathered(after, splitOf, queries, next, j)
    {
      assert next.keys[..j + 1] == next.keys[..j] + [next.keys[j]];
      after := after[next.keys[j] := GroupIn(after, next.keys[j]) + {splitOf[next.id]}];
    }
    assert next.keys[..|next.keys|] == next.keys;
    assert (queries + [next])[..|queries + [next]| - 1] == queries;
  }

  method GatherGroups(queries: seq<Query>, splitOf: map<string, SplitName>)
    returns (groups: map<string, set<SplitName>>)
    requires AllAssigned(queries, splitOf)
    ensures forall key :: GroupIn(groups, key) == SplitsOfKey(queries, splitOf, key)
  {
    groups := map[];
    for i := 0 to |queries|
      invariant AllAssigned(queries[..i], splitOf)
      invariant forall key :: GroupIn(groups, key) == SplitsOfKey(queries[..i], splitOf, key)
    {
      groups := GatherKeys(groups, splitOf, queries[..i], queries[i]);
      assert queries[..i + 1] == queries[..i] + [queries[i]];
    }
    assert queries[..|queries|] == queries;
  }

  /** The least leaking key; none exactly when no group leaks. */
  method ValidateGroupLeakage(queries: seq<Query>, splitOf: map<string, SplitName>) returns (leak: Option<string>)
    requires AllAssigned(queries, splitOf)
    ensures leak == None <==> NoLeakage(queries, splitOf)
    ensures leak.Some? ==> Leaks(queries, splitOf, leak.value)
    ensures leak.Some? ==> forall key :: Leaks(queries, splitOf, key) ==> StringLe(leak.value, key)
  {
    var groups := GatherGroups(queries, splitOf);
    LeakageMeansSharedKey(queries, splitOf);
    var keys := groups.Keys;
    leak := None;
    while keys != {}
      invariant keys <= groups.Keys
      invariant leak == None ==> forall key :: key in groups && key !in keys ==> |groups[key]| <= 1
      invariant leak.Some? ==> Leaks(queries, splitOf, leak.value)
      invariant leak.Some? ==> forall key :: key in groups && key !in keys && |groups[key]| > 1
                                             ==> StringLe(leak.value, key)
      decreases keys
    {
      var key :| key in keys;
      keys := keys - {key};
      assert GroupIn(groups, key) == SplitsOfKey(queries, splitOf, key);
      StringLeTotal(key, key);
      if |groups[key]| > 1 {
        if leak == None {
          leak := Some(key);
        } else if StringLe(key, leak.value) {
          StringLeIsTotalOrder();
          leak := Some(key);
        } else {
          StringLeTotal(key, leak.value);
        }
      }
    }
    assert forall key :: Leaks(queries, splitOf, key) ==> |GroupIn(groups, key)| > 1;
  }

  /******* Test tags *******/

  /** The tags under the minimum with their counts; none exactly when the test split has enough of each. */
  method ValidateTestTags(queries: seq<Query>, splitOf: map<string, SplitName>) returns (missing: seq<(Tag, nat)>)
    requires AllAssigned(queries, splitOf)
    ensures missing == [] <==> EnoughTestTags(queries, splitOf)
    ensures forall m :: m in missing ==>
              m.1 == CountIf(IsTag(m.0), TestTags(queries, splitOf)) && m.1 < REQUIRED_TEST_TAG_MINIMUM
    ensures forall tag :: CountIf(IsTag(tag), TestTags(queries, splitOf)) < REQUIRED_TEST_TAG_MINIMUM ==>
              (tag, CountIf(IsTag(tag), TestTags(queries, splitOf))) in missing
  {
    var counts := TestTagCounts(queries, splitOf);
    missing := [];
    for i := 0 to |TAGS|
      invariant forall k :: 0 <= k < i && CountIn(counts, TAGS[k]) < REQUIRED_TEST_TAG_MINIMUM ==>
                  (TAGS[k], CountIn(counts, TAGS[k])) in missing
      invariant forall m :: m in missing ==> m.1 == CountIn(counts, m.0) && m.1 < REQUIRED_TEST_TAG_MINIMUM
    {
      if CountIn(counts, TAGS[i]) < REQUIRED_TEST_TAG_MINIMUM {
        missing := missing + [(TAGS[i], CountIn(counts, TAGS[i]))];
      }
    }
    forall tag: Tag | CountIn(counts, tag) < REQUIRED_TEST_TAG_MINIMUM ensures (tag, CountIn(counts, tag)) in missing {
      TagListed(tag);
      var k :| 0 <= k < |TAGS| && TAGS[k] == tag;
    }
    if missing != [] {
      assert missing[0] in missing;
    }
  }

  /** Main result: the producer's assignment is one that every independent validator accepts. */
  method AssignAndValidate(sha: Digest, queries: seq<Query>)
    returns (r: Result<seq<Assignment>, SplitError>, accepted: bool)
    requires Distinct(Ids(queries))
    ensures r.Ok? ==> accepted && PassesValidation(queries, r.value)
  {
    r := AssignSplits(sha, queries);
    accepted := false;
    if r.Ok? {
      ghost var attempt: nat :| attempt < ATTEMPTS && IsFirstSuccess(sha, queries, attempt, r.value);
      AssignmentPassesValidation(sha, queries, attempt, r.value);
      var splitOf := SplitById(r.value);
      var quotas := ValidateSourceQuotas(queries, splitOf);
      var leakage := ValidateGroupLeakage(queries, splitOf);
      var tags := ValidateTestTags(queries, splitOf);
      accepted := quotas == None && leakage == None && tags == [];
    }
  }
}
