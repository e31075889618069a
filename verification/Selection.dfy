/** Streaming selection of the smallest hashes with a bounded heap. */
module Selection {
  import opened Wrappers
  import opened Contracts
  import opened Ordering
  import opened Counting
  import opened Text
  import opened Allocation

  datatype Candidate = Candidate(source: Source, id: string, question: string)
  datatype Outcome = Excluded(reason: Option<string>) | Found(query: Candidate)

  // The digests the selection relies on: SHA-256 as an integer, and the overlap hash of a question.
  datatype Hashes = Hashes(sha: Digest, overlap: string -> string)

  function SourceText(source: Source): string {
    match source
    case Nq => "nq"
    case HotpotBridge => "hotpot_bridge"
    case HotpotComparison => "hotpot_comparison"
    case Musique => "musique"
  }

  function SelectionText(query: Candidate): string {
    SourceText(query.source) + ":" + query.id + ":" + Decimal(SPLIT_SEED)
  }

  function SelectionHash(hashes: Hashes, query: Candidate): nat {
    hashes.sha(SelectionText(query))
  }

  /** What the selection digests: the name of the source, the ID and the seed. */
  lemma {:induction false} SelectionHashIs(hashes: Hashes, query: Candidate, name: string)
    requires name == if query.source == Nq then "nq" else if query.source == Musique then "musique"
                     else if query.source == HotpotBridge then "hotpot_bridge" else "hotpot_comparison"
    ensures SelectionHash(hashes, query) == hashes.sha(name + ":" + query.id + ":20260809")
  {
    SeedIs();
    EndsInSeed(name + ":" + query.id);
  }

  lemma {:induction false} EndsInSeed(text: string)
    ensures text + ":" + "20260809" == text + ":20260809"
  {
    assert ":" + "20260809" == ":20260809";
  }

  lemma {:induction false} SeedIs()
    ensures Decimal(SPLIT_SEED) == "20260809"
  {
    assert Decimal(20) == "20";
    assert Decimal(202) == "202";
    assert Decimal(2026) == "2026";
    assert Decimal(20260) == "20260";
    assert Decimal(202608) == "202608";
    assert Decimal(2026080) == "2026080";
  }

  function ByHash(hashes: Hashes): (Candidate, Candidate) -> bool {
    (a: Candidate, b: Candidate) => SelectionHash(hashes, a) <= SelectionHash(hashes, b)
  }

  /******* What each record of the stream is, with no reference to the stream's state *******/

  datatype Fate = IsExcluded | IsForeign | IsDuplicateId | IsDuplicateQuestion | IsEligible

  predicate OfSource(outcome: Outcome, source: Source) {
    outcome.Found? && outcome.query.source == source
  }

  // The first record of the source with its ID.
  predicate FirstOfId(outcomes: seq<Outcome>, source: Source, i: nat)
    requires i < |outcomes|
  {
    && OfSource(outcomes[i], source)
    && forall j :: 0 <= j < i ==> !(OfSource(outcomes[j], source) && outcomes[j].query.id == outcomes[i].query.id)
  }

  predicate QuestionSeen(hashes: Hashes, outcomes: seq<Outcome>, source: Source, i: nat)
    requires i < |outcomes| && outcomes[i].Found?
  {
    exists j :: 0 <= j < i && FirstOfId(outcomes, source, j)
      && hashes.overlap(outcomes[j].query.question) == hashes.overlap(outcomes[i].query.question)
  }

  function FateOf(hashes: Hashes, outcomes: seq<Outcome>, source: Source, i: nat): Fate
    requires i < |outcomes|
  {
    if outcomes[i].Excluded? then IsExcluded
    else if outcomes[i].query.source != source then IsForeign
    else if !FirstOfId(outcomes, source, i) then IsDuplicateId
    else if QuestionSeen(hashes, outcomes, source, i) then IsDuplicateQuestion
    else IsEligible
  }

  function CountFate(hashes: Hashes, outcomes: seq<Outcome>, source: Source, fate: Fate, n: nat): nat
    requires n <= |outcomes|
  {
    if n == 0 then 0
    else CountFate(hashes, outcomes, source, fate, n - 1)
         + (if FateOf(hashes, outcomes, source, n - 1) == fate then 1 else 0)
  }

  // The eligible records among the first `n`, in stream order.
  function Eligible(hashes: Hashes, outcomes: seq<Outcome>, source: Source, n: nat): seq<Candidate>
    requires n <= |outcomes|
  {
    if n == 0 then []
    else if FateOf(hashes, outcomes, source, n - 1) == IsEligible then
      Eligible(hashes, outcomes, source, n - 1) + [outcomes[n - 1].query]
    else Eligible(hashes, outcomes, source, n - 1)
  }

  /******* Distinct IDs of one source have distinct hashes *******/

  ghost predicate Injective(sha: Digest) {
    forall a, b :: sha(a) == sha(b) ==> a == b
  }

  lemma {:induction false} SelectionTextDeterminesId(a: Candidate, b: Candidate)
    requires a.source == b.source && SelectionText(a) == SelectionText(b)
    ensures a.id == b.id
  {
    var head, tail := SourceText(a.source) + ":", ":" + Decimal(SPLIT_SEED);
    SelectionTextIs(a, head, tail);
    SelectionTextIs(b, head, tail);
    MiddleIsDetermined(head, a.id, b.id, tail);
  }

  lemma {:induction false} SelectionTextIs(query: Candidate, head: string, tail: string)
    requires head == SourceText(query.source) + ":" && tail == ":" + Decimal(SPLIT_SEED)
    ensures SelectionText(query) == head + query.id + tail
  {
  }

  lemma {:induction false} MiddleIsDetermined(head: string, x: string, y: string, tail: string)
    requires head + x + tail == head + y + tail
    ensures x == y
  {
    assert |head + x + tail| == |head| + |x| + |tail| && |head + y + tail| == |head| + |y| + |tail|;
    assert x == (head + x + tail)[|head|..|head| + |x|] && y == (head + y + tail)[|head|..|head| + |y|];
  }

  // Where each eligible record comes from.
  lemma {:induction false} EligibleAreFirsts(hashes: Hashes, outcomes: seq<Outcome>, source: Source, n: nat)
    returns (at: seq<nat>)
    requires n <= |outcomes|
    ensures |at| == |Eligible(hashes, outcomes, source, n)|
    ensures forall k :: 0 <= k < |at| ==> at[k] < n && FirstOfId(outcomes, source, at[k])
                                          && Eligible(hashes, outcomes, source, n)[k] == outcomes[at[k]].query
    ensures forall k, l :: 0 <= k < l < |at| ==> at[k] < at[l]
  {
    if n == 0 {
      at := [];
    } else {
      at := EligibleAreFirsts(hashes, outcomes, source, n - 1);
      if FateOf(hashes, outcomes, source, n - 1) == IsEligible {
        at := at + [n - 1];
      }
    }
  }

  lemma {:induction false} EligibleHashesAreDistinct(hashes: Hashes, outcomes: seq<Outcome>, source: Source, n: nat)
    requires n <= |outcomes| && Injective(hashes.sha)
    ensures AntisymmetricOn(ByHash(hashes), Eligible(hashes, outcomes, source, n))
    ensures Distinct(Eligible(hashes, outcomes, source, n))
  {
    var eligible := Eligible(hashes, outcomes, source, n);
    var at := EligibleAreFirsts(hashes, outcomes, source, n);
    forall k, l | 0 <= k < l < |eligible|
      ensures SelectionHash(hashes, eligible[k]) != SelectionHash(hashes, eligible[l])
    {
      if SelectionHash(hashes, eligible[k]) == SelectionHash(hashes, eligible[l]) {
        SelectionTextDeterminesId(eligible[k], eligible[l]);
        assert false;
      }
    }
  }

  /******* The bounded heap *******/

  // heapq: a list whose entry at index 0 is the least; only that entry's place is known.
  datatype Entry = Entry(negatedHash: int, counter: nat, query: Candidate)

  predicate EntryLe(a: Entry, b: Entry) {
    a.negatedHash < b.negatedHash || (a.negatedHash == b.negatedHash && a.counter <= b.counter)
  }

  ghost predicate IsHeap(heap: seq<Entry>) {
    forall i :: 0 <= i < |heap| ==> EntryLe(heap[0], heap[i])
  }

  // A list with the same entries, the least of them first.
  function Heapify(entries: seq<Entry>): (heap: seq<Entry>)
    ensures |heap| == |entries|
  {
    if |entries| <= 1 then entries
    else
      var rest := Heapify(entries[1..]);
      if EntryLe(entries[0], rest[0]) then [entries[0]] + rest else [rest[0], entries[0]] + rest[1..]
  }

  lemma {:induction false} HeapifyKeepsEntries(entries: seq<Entry>)
    ensures IsHeap(Heapify(entries))
    ensures multiset(Heapify(entries)) == multiset(entries)
  {
    if |entries| > 1 {
      HeapifyKeepsEntries(entries[1..]);
      assert entries == [entries[0]] + entries[1..];
      PutOnHeap(entries[0], Heapify(entries[1..]));
    }
  }

  lemma {:induction false} PutOnHeap(entry: Entry, rest: seq<Entry>)
    requires IsHeap(rest) && rest != []
    ensures var heap := if EntryLe(entry, rest[0]) then [entry] + rest else [rest[0], entry] + rest[1..];
            IsHeap(heap) && multiset(heap) == multiset{entry} + multiset(rest)
  {
    assert rest == [rest[0]] + rest[1..];
    var heap := if EntryLe(entry, rest[0]) then [entry] + rest else [rest[0], entry] + rest[1..];
    forall i | 0 <= i < |heap| ensures EntryLe(heap[0], heap[i]) {
      if i > 0 && !(i == 1 && !EntryLe(entry, rest[0])) {
        assert heap[i] == rest[i - 1];
      }
    }
  }

  function HeapPush(heap: seq<Entry>, entry: Entry): seq<Entry> {
    Heapify(heap + [entry])
  }

  function HeapReplace(heap: seq<Entry>, entry: Entry): seq<Entry>
    requires heap != []
  {
    Heapify([entry] + heap[1..])
  }

  function Offer(heap: seq<Entry>, limit: nat, entry: Entry): seq<Entry>
    requires limit > 0
  {
    if |heap| < limit then HeapPush(heap, entry)
    else if entry.negatedHash > heap[0].negatedHash then HeapReplace(heap, entry)
    else heap
  }

  function QueryIn(entry: Entry): Candidate {
    entry.query
  }

  function Queries(heap: seq<Entry>): seq<Candidate> {
    Map(QueryIn, heap)
  }

  function Min(a: nat, b: nat): nat {
    if a <= b then a else b
  }

  lemma {:induction false} ByHashIsTotal(hashes: Hashes)
    ensures TotalPreorder(ByHash(hashes))
  {
  }

  lemma {:induction false} SortOneMore(hashes: Hashes, eligible: seq<Candidate>, x: Candidate)
    requires AntisymmetricOn(ByHash(hashes), eligible + [x])
    ensures Sort(ByHash(hashes), eligible + [x]) == Insert(ByHash(hashes), x, Sort(ByHash(hashes), eligible))
  {
    var le := ByHash(hashes);
    ByHashIsTotal(hashes);
    SortOfPermutation(le, eligible + [x], [x] + eligible);
    assert ([x] + eligible)[1..] == eligible;
  }

  ghost predicate NegatesHashes(hashes: Hashes, heap: seq<Entry>) {
    forall i :: 0 <= i < |heap| ==> heap[i].negatedHash + SelectionHash(hashes, heap[i].query) == 0
  }

  lemma {:induction false} HeapHeadIsLastKept(hashes: Hashes, heap: seq<Entry>, kept: seq<Candidate>)
    requires IsHeap(heap) && NegatesHashes(hashes, heap) && heap != []
    requires multiset(Queries(heap)) == multiset(kept)
    requires SortedBy(ByHash(hashes), kept) && AntisymmetricOn(ByHash(hashes), kept)
    ensures |kept| == |heap| && heap[0].query == kept[|kept| - 1]
  {
    SameQueries(Queries(heap), kept);
    var head, last := heap[0].query, kept[|kept| - 1];
    assert Queries(heap)[0] == head;
    HeadIsLeast(hashes, heap, last);
    LastIsGreatest(hashes, kept, head);
  }

  lemma {:induction false} SameQueries(a: seq<Candidate>, b: seq<Candidate>)
    requires multiset(a) == multiset(b)
    ensures |a| == |b| && forall x :: x in a <==> x in b
  {
    assert |a| == |multiset(a)| && |b| == |multiset(b)|;
    assert forall x :: x in a <==> x in multiset(a);
  }

  // Two records of which neither hash is smaller are the same record.
  lemma {:induction false} LastIsGreatest(hashes: Hashes, kept: seq<Candidate>, x: Candidate)
    requires SortedBy(ByHash(hashes), kept) && AntisymmetricOn(ByHash(hashes), kept) && x in kept
    ensures SelectionHash(hashes, x) >= SelectionHash(hashes, kept[|kept| - 1]) ==> x == kept[|kept| - 1]
  {
    var last := kept[|kept| - 1];
    var i :| 0 <= i < |kept| && kept[i] == x;
    assert last in kept;
    assert i < |kept| - 1 ==> ByHash(hashes)(x, last);
  }

  lemma {:induction false} HeadIsLeast(hashes: Hashes, heap: seq<Entry>, x: Candidate)
    requires IsHeap(heap) && NegatesHashes(hashes, heap) && heap != [] && x in Queries(heap)
    ensures SelectionHash(hashes, x) <= SelectionHash(hashes, heap[0].query)
  {
    var j :| 0 <= j < |heap| && Queries(heap)[j] == x;
    assert EntryLe(heap[0], heap[j]);
  }

  // The heap holds the `limit` smallest hashes of the eligible records so far.
  ghost predicate HoldsSmallest(hashes: Hashes, heap: seq<Entry>, limit: nat, eligible: seq<Candidate>) {
    && IsHeap(heap)
    && NegatesHashes(hashes, heap)
    && |heap| == Min(limit, |eligible|)
    && multiset(Queries(heap)) == multiset(Sort(ByHash(hashes), eligible)[..|heap|])
  }

  lemma {:induction false} HeapifyKeepsQueries(hashes: Hashes, entries: seq<Entry>)
    requires NegatesHashes(hashes, entries)
    ensures IsHeap(Heapify(entries)) && NegatesHashes(hashes, Heapify(entries))
    ensures multiset(Queries(Heapify(entries))) == multiset(Queries(entries))
  {
    HeapifyKeepsEntries(entries);
    MapPermutation(QueryIn, entries, Heapify(entries));
    forall i | 0 <= i < |Heapify(entries)|
      ensures Heapify(entries)[i].negatedHash + SelectionHash(hashes, Heapify(entries)[i].query) == 0
    {
      assert Heapify(entries)[i] in multiset(entries);
    }
  }

  // The kept prefix of the sorted list, when one more record arrives.
  lemma {:induction false} KeptAfterOneMore(hashes: Hashes, eligible: seq<Candidate>, x: Candidate, m: nat)
    requires AntisymmetricOn(ByHash(hashes), eligible + [x]) && x !in eligible && 0 < m <= |eligible|
    ensures
      var sorted := Sort(ByHash(hashes), eligible);
      && (SelectionHash(hashes, x) < SelectionHash(hashes, sorted[m - 1]) ==>
            multiset(Sort(ByHash(hashes), eligible + [x])[..m]) == multiset(sorted[..m - 1]) + multiset{x})
      && (SelectionHash(hashes, x) >= SelectionHash(hashes, sorted[m - 1]) ==>
            Sort(ByHash(hashes), eligible + [x])[..m] == sorted[..m])
  {
    var le, sorted := ByHash(hashes), Sort(ByHash(hashes), eligible);
    ByHashIsTotal(hashes);
    SortSorted(le, eligible);
    SortOneMore(hashes, eligible, x);
    TakeOfInsert(le, x, sorted, m);
    HashesDiffer(hashes, eligible, x, m - 1);
  }

  lemma {:induction false} HashesDiffer(hashes: Hashes, eligible: seq<Candidate>, x: Candidate, i: nat)
    requires AntisymmetricOn(ByHash(hashes), eligible + [x]) && x !in eligible && i < |eligible|
    ensures SelectionHash(hashes, x) != SelectionHash(hashes, Sort(ByHash(hashes), eligible)[i])
  {
    var y := Sort(ByHash(hashes), eligible)[i];
    InSort(ByHash(hashes), eligible);
    assert y in Sort(ByHash(hashes), eligible);
    DifferentAreApart(ByHash(hashes), eligible, x, y);
  }

  lemma {:induction false} DifferentAreApart(le: (Candidate, Candidate) -> bool, s: seq<Candidate>, x: Candidate,
                                             y: Candidate)
    requires AntisymmetricOn(le, s + [x]) && x !in s && y in s
    ensures !le(x, y) || !le(y, x)
  {
    assert x in s + [x] && y in s + [x];
  }

  lemma {:induction false} OfferWithRoom(hashes: Hashes, heap: seq<Entry>, limit: nat, eligible: seq<Candidate>,
                                         entry: Entry)
    requires HoldsSmallest(hashes, heap, limit, eligible) && |heap| < limit
    requires NegatesHashes(hashes, [entry]) && AntisymmetricOn(ByHash(hashes), eligible + [entry.query])
    ensures HoldsSmallest(hashes, HeapPush(heap, entry), limit, eligible + [entry.query])
  {
    PushKeepsQueries(hashes, heap, entry);
    AllAreKept(hashes, eligible, entry.query);
  }

  lemma {:induction false} PushKeepsQueries(hashes: Hashes, heap: seq<Entry>, entry: Entry)
    requires NegatesHashes(hashes, heap) && NegatesHashes(hashes, [entry])
    ensures IsHeap(HeapPush(heap, entry)) && NegatesHashes(hashes, HeapPush(heap, entry))
    ensures multiset(Queries(HeapPush(heap, entry))) == multiset(Queries(heap)) + multiset{entry.query}
  {
    assert NegatesHashes(hashes, heap + [entry]) by { assert [entry][0] == entry; }
    HeapifyKeepsQueries(hashes, heap + [entry]);
    assert Queries(heap + [entry]) == Queries(heap) + [entry.query];
  }

  lemma {:induction false} AllAreKept(hashes: Hashes, eligible: seq<Candidate>, x: Candidate)
    requires AntisymmetricOn(ByHash(hashes), eligible + [x])
    ensures var sorted, sorted' := Sort(ByHash(hashes), eligible), Sort(ByHash(hashes), eligible + [x]);
            sorted[..|eligible|] == sorted && sorted'[..|eligible| + 1] == sorted'
                && multiset(sorted') == multiset(sorted) + multiset{x}
  {
  }

  lemma {:induction false} HeadOfFullHeap(hashes: Hashes, heap: seq<Entry>, limit: nat, eligible: seq<Candidate>,
                                          x: Candidate)
    requires HoldsSmallest(hashes, heap, limit, eligible) && |heap| == limit > 0
    requires AntisymmetricOn(ByHash(hashes), eligible + [x])
    ensures heap[0].query == Sort(ByHash(hashes), eligible)[limit - 1]
  {
    var sorted := Sort(ByHash(hashes), eligible);
    ByHashIsTotal(hashes);
    SortSorted(ByHash(hashes), eligible);
    InSort(ByHash(hashes), eligible);
    PartIsAntisymmetric(ByHash(hashes), eligible + [x], sorted[..limit]);
    HeapHeadIsLastKept(hashes, heap, sorted[..limit]);
  }

  lemma {:induction false} PartIsAntisymmetric(le: (Candidate, Candidate) -> bool, all: seq<Candidate>,
                                               part: seq<Candidate>)
    requires AntisymmetricOn(le, all) && forall y :: y in part ==> y in all
    ensures AntisymmetricOn(le, part)
  {
  }

  lemma {:induction false} ReplaceHead(hashes: Hashes, heap: seq<Entry>, entry: Entry, kept: seq<Candidate>)
    requires heap != [] && NegatesHashes(hashes, heap) && NegatesHashes(hashes, [entry])
    requires multiset(Queries(heap)) == multiset(kept) + multiset{heap[0].query}
    ensures IsHeap(HeapReplace(heap, entry)) && NegatesHashes(hashes, HeapReplace(heap, entry))
    ensures multiset(Queries(HeapReplace(heap, entry))) == multiset(kept) + multiset{entry.query}
  {
    var rest := heap[1..];
    assert [entry][0] == entry && heap == [heap[0]] + rest;
    QueriesCons(entry, rest);
    QueriesCons(heap[0], rest);
    HeapifyKeepsQueries(hashes, [entry] + rest);
    assert multiset(Queries(rest)) == multiset(Queries(heap)) - multiset{heap[0].query};
  }

  lemma {:induction false} QueriesCons(entry: Entry, rest: seq<Entry>)
    ensures multiset(Queries([entry] + rest)) == multiset{entry.query} + multiset(Queries(rest))
  {
    assert Queries([entry] + rest) == [entry.query] + Queries(rest);
  }

  lemma {:induction false} OfferWhenFull(hashes: Hashes, heap: seq<Entry>, limit: nat, eligible: seq<Candidate>,
                                         entry: Entry)
    requires HoldsSmallest(hashes, heap, limit, eligible) && |heap| == limit > 0
    requires NegatesHashes(hashes, [entry]) && AntisymmetricOn(ByHash(hashes), eligible + [entry.query])
    requires entry.query !in eligible
    ensures HoldsSmallest(hashes, Offer(heap, limit, entry), limit, eligible + [entry.query])
  {
    HeadOfFullHeap(hashes, heap, limit, eligible, entry.query);
    assert [entry][0].negatedHash + SelectionHash(hashes, entry.query) == 0;
    if entry.negatedHash > heap[0].negatedHash {
      ReplaceWhenFull(hashes, heap, limit, eligible, entry);
    } else {
      KeptAfterOneMore(hashes, eligible, entry.query, limit);
    }
  }

  lemma {:induction false} ReplaceWhenFull(hashes: Hashes, heap: seq<Entry>, limit: nat, eligible: seq<Candidate>,
                                           entry: Entry)
    requires HoldsSmallest(hashes, heap, limit, eligible) && |heap| == limit > 0
    requires NegatesHashes(hashes, [entry]) && AntisymmetricOn(ByHash(hashes), eligible + [entry.query])
    requires entry.query !in eligible && heap[0].query == Sort(ByHash(hashes), eligible)[limit - 1]
    requires SelectionHash(hashes, entry.query) < SelectionHash(hashes, heap[0].query)
    ensures HoldsSmallest(hashes, HeapReplace(heap, entry), limit, eligible + [entry.query])
  {
    KeptAfterOneMore(hashes, eligible, entry.query, limit);
    TakeOneMore(Sort(ByHash(hashes), eligible), limit);
    ReplaceHead(hashes, heap, entry, Sort(ByHash(hashes), eligible)[..limit - 1]);
    assert |HeapReplace(heap, entry)| == |multiset(Queries(HeapReplace(heap, entry)))|;
  }

  lemma {:induction false} TakeOneMore(s: seq<Candidate>, n: nat)
    requires 0 < n <= |s|
    ensures multiset(s[..n]) == multiset(s[..n - 1]) + multiset{s[n - 1]}
  {
    assert s[..n] == s[..n - 1] + [s[n - 1]];
  }

  /** A step of the stream keeps at most `limit` entries, and they are the smallest. */
  lemma {:induction false} OfferKeepsSmallest(hashes: Hashes, heap: seq<Entry>, limit: nat, eligible: seq<Candidate>,
                                              entry: Entry)
    requires HoldsSmallest(hashes, heap, limit, eligible) && limit > 0
    requires NegatesHashes(hashes, [entry]) && AntisymmetricOn(ByHash(hashes), eligible + [entry.query])
    requires entry.query !in eligible
    ensures HoldsSmallest(hashes, Offer(heap, limit, entry), limit, eligible + [entry.query])
    ensures |Offer(heap, limit, entry)| <= limit
  {
    if |heap| < limit {
      OfferWithRoom(hashes, heap, limit, eligible, entry);
    } else {
      OfferWhenFull(hashes, heap, limit, eligible, entry);
    }
  }

  /******* The stream *******/

  datatype SelectionError = LimitNotPositive | TooFewEligible(selected: nat)

  datatype Report = Report(seen: nat, eligible: nat, selected: nat, exclusions: map<string, nat>,
                           duplicateIds: nat, duplicateQuestions: nat)

  // The sets of the stream after `n` records: IDs of the source, and questions of first IDs.
  ghost predicate SeenAfter(hashes: Hashes, outcomes: seq<Outcome>, source: Source, n: nat, ids: set<string>,
                            questions: set<string>)
    requires n <= |outcomes|
  {
    && IdsAfter(outcomes, source, n, ids)
    && QuestionsAfter(hashes, outcomes, source, n, questions)
  }

  ghost predicate IdsAfter(outcomes: seq<Outcome>, source: Source, n: nat, ids: set<string>)
    requires n <= |outcomes|
  {
    forall id :: id in ids <==> exists j :: 0 <= j < n && OfSource(outcomes[j], source) && outcomes[j].query.id == id
  }

  ghost predicate QuestionsAfter(hashes: Hashes, outcomes: seq<Outcome>, source: Source, n: nat, questions: set<string>)
    requires n <= |outcomes|
  {
    forall q :: q in questions <==>
      exists j :: 0 <= j < n && FirstOfId(outcomes, source, j) && hashes.overlap(outcomes[j].query.question) == q
  }

  lemma {:induction false} IdsNext(outcomes: seq<Outcome>, source: Source, n: nat, ids: set<string>)
    requires n < |outcomes| && IdsAfter(outcomes, source, n, ids)
    ensures IdsAfter(outcomes, source, n + 1, if OfSource(outcomes[n], source) then ids + {outcomes[n].query.id}
                     else ids)
    ensures OfSource(outcomes[n], source) ==> (FirstOfId(outcomes, source, n) <==> outcomes[n].query.id !in ids)
  {
  }

  lemma {:induction false} QuestionsNext(hashes: Hashes, outcomes: seq<Outcome>, source: Source, n: nat,
                                         questions: set<string>)
    requires n < |outcomes| && QuestionsAfter(hashes, outcomes, source, n, questions)
    ensures FirstOfId(outcomes, source, n) ==>
              QuestionsAfter(hashes, outcomes, source, n + 1, questions + {hashes.overlap(outcomes[n].query.question)})
    ensures !FirstOfId(outcomes, source, n) ==> QuestionsAfter(hashes, outcomes, source, n + 1, questions)
  {
  }

  lemma {:induction false} SeenNext(hashes: Hashes, outcomes: seq<Outcome>, source: Source, n: nat, ids: set<string>,
                                    questions: set<string>)
    requires n < |outcomes| && SeenAfter(hashes, outcomes, source, n, ids, questions)
    ensures !OfSource(outcomes[n], source) ==> SeenAfter(hashes, outcomes, source, n + 1, ids, questions)
    ensures OfSource(outcomes[n], source) ==>
              var query := outcomes[n].query;
              && (FirstOfId(outcomes, source, n) <==> query.id !in ids)
              && (query.id in ids ==> SeenAfter(hashes, outcomes, source, n + 1, ids, questions))
              && (query.id !in ids ==>
                    && (QuestionSeen(hashes, outcomes, source, n) <==> hashes.overlap(query.question) in questions)
                    && SeenAfter(hashes, outcomes, source, n + 1, ids + {query.id},
                                 questions + {hashes.overlap(query.question)}))
  {
    IdsNext(outcomes, source, n, ids);
    QuestionsNext(hashes, outcomes, source, n, questions);
    if OfSource(outcomes[n], source) && outcomes[n].query.id in ids {
      assert ids + {outcomes[n].query.id} == ids;
    }
    assert FirstOfId(outcomes, source, n) ==> OfSource(outcomes[n], source);
  }

  // The loop of the stream after `n` records.
  ghost predicate Streaming(hashes: Hashes, outcomes: seq<Outcome>, source: Source, limit: nat, n: nat,
                            heap: seq<Entry>, report: Report)
    requires n <= |outcomes|
  {
    && |heap| <= limit
    && HoldsSmallest(hashes, heap, limit, Eligible(hashes, outcomes, source, n))
    && ReportsAfter(hashes, outcomes, source, n, report)
  }

  ghost predicate ReportsAfter(hashes: Hashes, outcomes: seq<Outcome>, source: Source, n: nat, report: Report)
    requires n <= |outcomes|
  {
    && report.seen == n
    && report.eligible == CountFate(hashes, outcomes, source, IsEligible, n)
    && report.duplicateIds == CountFate(hashes, outcomes, source, IsDuplicateId, n)
    && report.duplicateQuestions == CountFate(hashes, outcomes, source, IsDuplicateQuestion, n)
    && forall reason :: ReasonCount(report.exclusions, reason) == CountIf(HasReason(reason), outcomes[..n])
  }

  function ReasonOf(outcome: Outcome): string
    requires outcome.Excluded?
  {
    if outcome.reason == None || outcome.reason.value == "" then "unspecified" else outcome.reason.value
  }

  function HasReason(reason: string): Outcome -> bool {
    (outcome: Outcome) => outcome.Excluded? && ReasonOf(outcome) == reason
  }

  /** An exclusion without a reason counts as unspecified; every other one counts for its reason. */
  lemma {:induction false} CountsForReasonIff(outcome: Outcome, reason: string)
    ensures HasReason(reason)(outcome)
            <==> (outcome == Excluded(Some(reason)) && reason != "")
                 || (reason == "unspecified" && outcome in {Excluded(None), Excluded(Some(""))})
  {
  }

  function ReasonCount(exclusions: map<string, nat>, reason: string): nat {
    if reason in exclusions then exclusions[reason] else 0
  }

  lemma {:induction false} ReasonsNext(outcomes: seq<Outcome>, n: nat, reason: string)
    requires n < |outcomes|
    ensures CountIf(HasReason(reason), outcomes[..n + 1])
            == CountIf(HasReason(reason), outcomes[..n]) + (if HasReason(reason)(outcomes[n]) then 1 else 0)
  {
    assert outcomes[..n + 1] == outcomes[..n] + [outcomes[n]];
    CountIfAppend(HasReason(reason), outcomes[..n], [outcomes[n]]);
  }

  lemma {:induction false} EligibleNextIsNew(hashes: Hashes, outcomes: seq<Outcome>, source: Source, n: nat)
    requires n < |outcomes| && Injective(hashes.sha) && FateOf(hashes, outcomes, source, n) == IsEligible
    ensures outcomes[n].query !in Eligible(hashes, outcomes, source, n)
    ensures AntisymmetricOn(ByHash(hashes), Eligible(hashes, outcomes, source, n) + [outcomes[n].query])
  {
    EligibleHashesAreDistinct(hashes, outcomes, source, n + 1);
    var eligible := Eligible(hashes, outcomes, source, n);
    var longer := eligible + [outcomes[n].query];
    assert Eligible(hashes, outcomes, source, n + 1) == longer;
    assert longer[|eligible|] == outcomes[n].query;
    assert forall k :: 0 <= k < |eligible| ==> eligible[k] == longer[k] != longer[|eligible|];
  }

  /** Keep the exact smallest selection hashes with bounded memory. */
  method SelectSmallestHashes(hashes: Hashes, outcomes: seq<Outcome>, source: Source, limit: int)
      returns (r: Result<(seq<Candidate>, Report), SelectionError>)
    requires Injective(hashes.sha)
    ensures r == Err(LimitNotPositive) <==> limit < 1
    ensures |Eligible(hashes, outcomes, source, |outcomes|)| < limit && limit >= 1
            ==> r == Err(TooFewEligible(|Eligible(hashes, outcomes, source, |outcomes|)|))
    ensures r.Ok? <==> 1 <= limit <= |Eligible(hashes, outcomes, source, |outcomes|)|
    ensures r.Ok? ==>
              && r.value.0 == Sort(ByHash(hashes), Eligible(hashes, outcomes, source, |outcomes|))[..limit]
              && AreSmallest(hashes, r.value.0, Eligible(hashes, outcomes, source, |outcomes|), limit)
              && r.value.1.selected == limit
              && ReportsAfter(hashes, outcomes, source, |outcomes|, r.value.1)
  {
    if limit < 1 {
      return Err(LimitNotPositive);
    }
    var heap: seq<Entry> := [];
    var ids: set<string>, questions: set<string> := {}, {};
    var report := Report(0, 0, 0, map[], 0, 0);
    assert outcomes[..0] == [];
    for n := 0 to |outcomes|
      invariant SeenAfter(hashes, outcomes, source, n, ids, questions)
      invariant Streaming(hashes, outcomes, source, limit, n, heap, report)
    {
      heap, ids, questions, report := Consume(hashes, outcomes, source, limit, n, heap, ids, questions, report);
    }
    var selected := Sort(ByHash(hashes), Queries(heap));
    SelectedAreSmallest(hashes, outcomes, source, limit, heap);
    if |selected| != limit {
      return Err(TooFewEligible(|selected|));
    }
    PrefixIsSmallest(hashes, outcomes, source, limit);
    return Ok((selected, report.(selected := |selected|)));
  }

  // As many as wanted of the eligible records, by ascending hash, and all others have larger ones.
  ghost predicate AreSmallest(hashes: Hashes, selected: seq<Candidate>, eligible: seq<Candidate>, limit: int) {
    && |selected| == limit
    && (forall i, j :: 0 <= i < j < |selected| ==>
          SelectionHash(hashes, selected[i]) < SelectionHash(hashes, selected[j]))
    && (forall x :: x in selected ==> x in eligible)
    && (forall x, y :: x in selected && y in eligible && y !in selected ==>
          SelectionHash(hashes, x) < SelectionHash(hashes, y))
  }

  lemma {:induction false} PrefixIsSmallest(hashes: Hashes, outcomes: seq<Outcome>, source: Source, limit: nat)
    requires Injective(hashes.sha) && limit <= |Eligible(hashes, outcomes, source, |outcomes|)|
    ensures var eligible := Eligible(hashes, outcomes, source, |outcomes|);
            AreSmallest(hashes, Sort(ByHash(hashes), eligible)[..limit], eligible, limit)
  {
    var eligible := Eligible(hashes, outcomes, source, |outcomes|);
    var sorted := Sort(ByHash(hashes), eligible);
    EligibleHashesAreDistinct(hashes, outcomes, source, |outcomes|);
    ByHashIsTotal(hashes);
    SortSorted(ByHash(hashes), eligible);
    InSort(ByHash(hashes), eligible);
    DistinctMultiset(eligible);
    DistinctMultiset(sorted);
    SortedHashesAscend(hashes, eligible, sorted);
    forall x, y | x in sorted[..limit] && y in eligible && y !in sorted[..limit]
      ensures SelectionHash(hashes, x) < SelectionHash(hashes, y)
    {
      LaterIsLarger(hashes, sorted, limit, x, y);
    }
  }

  lemma {:induction false} SortedHashesAscend(hashes: Hashes, eligible: seq<Candidate>, sorted: seq<Candidate>)
    requires SortedBy(ByHash(hashes), sorted) && Distinct(sorted) && AntisymmetricOn(ByHash(hashes), eligible)
    requires forall x :: x in sorted ==> x in eligible
    ensures forall i, j :: 0 <= i < j < |sorted| ==> SelectionHash(hashes, sorted[i]) < SelectionHash(hashes, sorted[j])
  {
    forall i, j | 0 <= i < j < |sorted| ensures SelectionHash(hashes, sorted[i]) < SelectionHash(hashes, sorted[j]) {
      assert ByHash(hashes)(sorted[i], sorted[j]) && sorted[i] != sorted[j];
      assert sorted[i] in eligible && sorted[j] in eligible;
    }
  }

  lemma {:induction false} LaterIsLarger(hashes: Hashes, sorted: seq<Candidate>, limit: nat, x: Candidate, y: Candidate)
    requires limit <= |sorted| && x in sorted[..limit] && y in sorted && y !in sorted[..limit]
    requires forall i, j :: 0 <= i < j < |sorted| ==>
               SelectionHash(hashes, sorted[i]) < SelectionHash(hashes, sorted[j])
    ensures SelectionHash(hashes, x) < SelectionHash(hashes, y)
  {
    var i :| 0 <= i < limit && sorted[..limit][i] == x;
    var j :| 0 <= j < |sorted| && sorted[j] == y;
    assert forall k :: 0 <= k < limit ==> sorted[..limit][k] == sorted[k];
  }

  /** One turn of the loop. */
  method Consume(hashes: Hashes, outcomes: seq<Outcome>, source: Source, limit: nat, n: nat,
                 heap: seq<Entry>, ids: set<string>, questions: set<string>, report: Report)
      returns (heap': seq<Entry>, ids': set<string>, questions': set<string>, report': Report)
    requires n < |outcomes| && limit > 0 && Injective(hashes.sha)
    requires SeenAfter(hashes, outcomes, source, n, ids, questions)
    requires Streaming(hashes, outcomes, source, limit, n, heap, report)
    ensures SeenAfter(hashes, outcomes, source, n + 1, ids', questions')
    ensures Streaming(hashes, outcomes, source, limit, n + 1, heap', report')
  {
    heap', ids', questions' := heap, ids, questions;
    SeenNext(hashes, outcomes, source, n, ids, questions);
    ReportNext(hashes, outcomes, source, n, report);
    if outcomes[n].Excluded? {
      report' := Reported(report, IsExcluded, outcomes[n]);
      return;
    }
    var query := outcomes[n].query;
    if query.source != source {
      report' := Reported(report, IsForeign, outcomes[n]);
      return;
    }
    if query.id in ids {
      report' := Reported(report, IsDuplicateId, outcomes[n]);
      return;
    }
    ids' := ids + {query.id};
    var question := hashes.overlap(query.question);
    questions' := questions + {question};
    if question in questions {
      report' := Reported(report, IsDuplicateQuestion, outcomes[n]);
      return;
    }
    report' := Reported(report, IsEligible, outcomes[n]);
    var entry := Entry(0 - SelectionHash(hashes, query) as int, report'.eligible, query);
    EligibleNextIsNew(hashes, outcomes, source, n);
    assert [entry][0] == entry;
    OfferKeepsSmallest(hashes, heap, limit, Eligible(hashes, outcomes, source, n), entry);
    heap' := Offer(heap, limit, entry);
  }

  // The counters after one more record of the given fate.
  function Reported(report: Report, fate: Fate, outcome: Outcome): Report {
    var next := report.(seen := report.seen + 1);
    match fate
    case IsExcluded =>
      if outcome.Excluded? then
        var reason := ReasonOf(outcome);
        next.(exclusions := report.exclusions[reason := ReasonCount(report.exclusions, reason) + 1])
      else next
    case IsForeign => next
    case IsDuplicateId => next.(duplicateIds := report.duplicateIds + 1)
    case IsDuplicateQuestion => next.(duplicateQuestions := report.duplicateQuestions + 1)
    case IsEligible => next.(eligible := report.eligible + 1)
  }

  lemma {:induction false} ReportNext(hashes: Hashes, outcomes: seq<Outcome>, source: Source, n: nat, report: Report)
    requires n < |outcomes| && ReportsAfter(hashes, outcomes, source, n, report)
    ensures ReportsAfter(hashes, outcomes, source, n + 1,
                         Reported(report, FateOf(hashes, outcomes, source, n), outcomes[n]))
  {
    var report' := Reported(report, FateOf(hashes, outcomes, source, n), outcomes[n]);
    forall reason ensures ReasonCount(report'.exclusions, reason) == CountIf(HasReason(reason), outcomes[..n + 1]) {
      ReasonsNext(outcomes, n, reason);
      assert ReasonCount(report.exclusions, reason) == CountIf(HasReason(reason), outcomes[..n]);
    }
  }

  lemma {:induction false} SelectedAreSmallest(hashes: Hashes, outcomes: seq<Outcome>, source: Source, limit: nat,
                                               heap: seq<Entry>)
    requires Injective(hashes.sha)
    requires HoldsSmallest(hashes, heap, limit, Eligible(hashes, outcomes, source, |outcomes|))
    ensures Sort(ByHash(hashes), Queries(heap))
            == Sort(ByHash(hashes), Eligible(hashes, outcomes, source, |outcomes|))[..|heap|]
  {
    var le, eligible := ByHash(hashes), Eligible(hashes, outcomes, source, |outcomes|);
    ByHashIsTotal(hashes);
    EligibleHashesAreDistinct(hashes, outcomes, source, |outcomes|);
    var kept := Sort(le, eligible)[..|heap|];
    SortSorted(le, eligible);
    InSort(le, eligible);
    assert forall x :: x in kept ==> x in eligible;
    SortOfPermutation(le, kept, Queries(heap));
    SortOfSorted(le, kept);
  }

  /** Every record of the stream is counted under exactly one heading. */
  lemma {:induction false} ReportIsComplete(hashes: Hashes, outcomes: seq<Outcome>, source: Source, n: nat)
    requires n <= |outcomes|
    ensures CountFate(hashes, outcomes, source, IsExcluded, n) + CountFate(hashes, outcomes, source, IsForeign, n)
            + CountFate(hashes, outcomes, source, IsDuplicateId, n)
            + CountFate(hashes, outcomes, source, IsDuplicateQuestion, n)
            + CountFate(hashes, outcomes, source, IsEligible, n) == n
    ensures CountFate(hashes, outcomes, source, IsEligible, n) == |Eligible(hashes, outcomes, source, n)|
  {
    if n > 0 {
      ReportIsComplete(hashes, outcomes, source, n - 1);
      match FateOf(hashes, outcomes, source, n - 1) {
        case IsExcluded =>
        case IsForeign =>
        case IsDuplicateId =>
        case IsDuplicateQuestion =>
        case IsEligible =>
      }
    }
  }
}
