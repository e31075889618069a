# RAGPlan: a verified model

RAGPlan is a retrieval control plane with a frozen benchmark pipeline. This project models the parts of it that carry
algorithms, state or protocols, in Dafny 4.11, and proves what they promise. `dafny verify dfyconfig.toml` checks all
of it.

## What is modelled

**Selecting and splitting the benchmark.** A union-find with path halving over shared group keys (`DisjointSets`,
`Components`) is proved against components that are defined by chains of shared keys alone (`Partition`). The greedy
allocator of whole components (`Allocation`, `Splits`) makes exactly the choices that are best in their turn, said
without its own ranking (`Greedy`); it conserves quotas, and what it returns is accepted by the independent validators
(`Validation`). The streaming selection with a bounded heap (`Selection`) refines sorting all eligible records and
taking the first.

**Metrics.** nDCG is normalized, by a rearrangement argument over prefix sums and summation by parts (`Metrics`), for
every positive and strictly decreasing discount. The type-7 percentile is order-independent, bounded and monotone, and
agrees with the other quantile routine of the repository (`Percentile`).

**Evidence.** A run of the benchmark extends an append-only log, and may be interrupted anywhere, also between two
bytes of a row (`EvidenceLog`). After any history of runs the log is a prefix of the schedule, possibly with a torn row
that every later load refuses. `Schedule` builds the shuffled schedule, `TrialIdentity` shows that trial IDs tell trials
apart, `Runner` and `Profiler` put both together, and `RawMatrix` shows that the check of raw evidence accepts exactly
the full product of queries, methods, budgets and trials, under a manifest made for the queries; `UnevenMatrix` is
evidence that passes under another one. The chain is closed: a log that loads with the expected number of rows passes
that check.

**Activation.** Immutable ingestion records and one pointer to the served corpus, where every write may fail before or
after it has taken effect (`Activation` as functions on values with proofs over all runs, `ManifestStore` as the
objects).

**Engine.** Searches and close calls as atomic steps under the lifecycle lock, in every interleaving (`Lifecycle`), and
the way from branch outcomes to a response that the strict validators accept, or a typed error (`Degradation`), with
its hits in the order of weighted reciprocal-rank fusion (`Fusion`).

**Text and graphs.** Token windows, source offsets and chunks (`Chunker`), the normalizer (`Normalize`), decodable
identifiers (`Ids`), dependency subtrees (`Relations`) and exact deduplication (`Dedupe`).

**Trace writer.** The bounded queue between requests and the worker, and its shutdown (`Tracing`).

`Wrappers`, `Ordering`, `Counting`, `Text` and `Contracts` hold what several modules share: optional and error results,
a stable sort by a given order, counting and the pigeonhole principle, Python's string splitting, and the frozen
benchmark contract.

## How it is modelled

- SHA-256 digests and other opaque functions are parameters; where it matters, they are required to be injective.
- Floating-point numbers are reals. `log2` discounts are any positive, strictly decreasing function.
- Tuples of version fields are one value. Compatibility normalization and case folding of characters are taken as
  done; white space is that of Unicode as Python's `str.isspace` knows it.
- `heapq` is a list whose first element is least; `random.shuffle` is any permutation, fixed by its block.
- Files are texts or maps; the sizes that successive writes return, and the faults of writes, are parameters, so every
  theorem holds for all of them.
- Concurrency is a state machine over atomic steps. A step that is not possible leaves the state as it is, so that every
  list of steps is a run.
- A class that the source updates in place is a class here. Its methods are proved against functions on values, and the
  results over all runs are proved about those functions.

## What the proofs found

- After the check for 600 queries, the test for left-over quotas in `_attempt_assignment` never decides
  (`Splits.LeftoverCheckNeverFires`).
- `_validate_raw_matrix` does not by itself tie the number of queries to the manifest: the evidence it accepts is a full
  product exactly when `query_count` is the number of queries mentioned (`RawMatrix.AcceptedIsFullIffCountIsRight`). It
  accepts two queries with half of the budgets each under a manifest that counts one
  (`UnevenMatrix.AcceptedWithoutProduct`). A manifest made for its queries closes the gap
  (`RawMatrix.AcceptedIffComplete`).
- The row-count test in `_validate_existing` never fails after the tests of the rows, because a load has already refused
  duplicates (`EvidenceLog.MatchingRowsAreFew`). A run that returns a summary always reports it complete.
- With overlap 0, stitched windows lose the source text between two windows (`Chunker.StitchRebuildsIff`,
  `Chunker.WithoutOverlapASpaceIsLost`).
- Chunk IDs tell accepted document IDs apart exactly up to surrounding white space (`Ids.AcceptedChunkIdsAreEqualIff`):
  one with white space at its end shares chunk IDs with the one without (`Ids.SpaceAfterDocumentIdIsLost`).
- Deduplication loses a text when one source ID names two texts in a namespace (`Dedupe.TextsAreKeptIff`,
  `Dedupe.TwoTextsOfOneIdCollide`).
- Only the call that closes the trace writer waits for it. Every later call returns at once, and finds everything dealt
  with exactly when no event is queued or in flight (`Tracing.LaterCloseIsDrainedIff`). That is certain only once the
  first call has returned (`Tracing.AlwaysDrainedIff`): while it waits, events may be queued
  (`Tracing.SecondCloseReturnsEarly`), and when it is cancelled together with the worker, they are lost
  (`Tracing.CancelledCloseLosesEvents`).
- An engine that is closing can still be closed exactly when its owner is at work (`Lifecycle.CanCloseIff`). An owner
  that is cancelled while it awaits the requests, or while it waits for the lock in order to publish, leaves it closing
  for ever (`Lifecycle.CancelledWhileAwaiting`, `Lifecycle.CancelledWhilePublishing`).
- Mixed line endings change the normal form exactly where a lone CR, an empty line and a lone LF separate two lines with
  words: they are read as one line ending, so that two paragraphs become one (`Normalize.LineEndingsDoNotMatterIff`,
  `Normalize.CrThenLfJoinsParagraphs`).

## Model

| member | source | states |
|---|---|---|
| DisjointSets.UnionFind.Find | src/ragplan/benchmark/selection.py:300-304 | Path halving terminates, answers the representative of the start, and changes no representative; who was a root stays one |
| DisjointSets.UnionFind.RootIsEndOfChain | src/ragplan/benchmark/selection.py:300-304 | The representative is where following parent links ends |
| DisjointSets.UnionFind.Union | src/ragplan/benchmark/selection.py:306-310 | The class of the right element joins the class of the left one; no other class changes |
| DisjointSets.HalvingKeepsForest | src/ragplan/benchmark/selection.py:302 | Replacing a parent by the grandparent keeps an acyclic forest with the same representatives and the same measure |
| DisjointSets.LinkingKeepsForest | src/ragplan/benchmark/selection.py:309-310 | Linking one root below another keeps an acyclic forest, with exactly their two classes merged |
| Components.BuildForest | src/ragplan/benchmark/selection.py:312-316 | After the first loop two queries have one representative exactly when a chain of queries, each sharing a group key with the next, links them |
| Components.FindComponents | src/ragplan/benchmark/selection.py:295-323 | The union-find, the grouping and the sorts compute the connected components, which are defined by chains of shared keys without reference to the forest |
| Partition.ComponentsAreLinkedClasses | src/ragplan/benchmark/selection.py:295-323 | Every query position is in exactly one component, and two are in the same component exactly when a chain of shared keys links them |
| Partition.ComponentsAreOrdered | src/ragplan/benchmark/selection.py:320-323 | Components come by decreasing size and then by first ID, and each is sorted by ID, in the order of the first place where two IDs differ |
| Partition.ComponentsConserveQueries | src/ragplan/benchmark/selection.py:317-323 | The components hold the given queries with the same multiplicities |
| Partition.SharingQueriesShareComponent | src/ragplan/benchmark/selection.py:312-316 | Two queries that share a group key are in a common component |
| Greedy.ChosenIffBest | src/ragplan/benchmark/selection.py:343-361 | A component goes to a split exactly when that split has room for every source of it and, of those that do, the largest sum over its sources of the part of the quota that is left; of equal ones, the one with the smallest digest of seed, attempt, split and query IDs, and then the first; it goes nowhere exactly when none has room |
| Greedy.PlacedIffGreedy | src/ragplan/benchmark/selection.py:326-369 | An attempt places the components with some choices exactly when each choice is the best one after those before it |
| Greedy.StuckIff | src/ragplan/benchmark/selection.py:348-349 | It fails exactly when after such choices the next component has room in no split |
| Greedy.ComponentsInOrder | src/ragplan/benchmark/selection.py:333-341 | It takes components by decreasing size, and then by the digest of seed, attempt and query IDs; those alike in both keep their order |
| Greedy.AttemptIsGreedy | src/ragplan/benchmark/selection.py:326-369 | What an attempt returns puts exactly the queries of each component where that component's best split is, and uses every quota up |
| Allocation.ChoiceIsBest | src/ragplan/benchmark/selection.py:343-361 | The chosen split has room, and by the rank that is computed no other with room comes before it |
| Allocation.AllocationConserves | src/ragplan/benchmark/selection.py:329-366 | When every component is placed, no quota went below zero, and for each source and split the initial quota is what is left plus what the placed components use |
| Splits.AttemptAssignment | src/ragplan/benchmark/selection.py:326-369 | The loop of one attempt computes the greedy allocation, or nothing when a component fits in no split or a quota is left over |
| Splits.AttemptPassesValidation | src/ragplan/benchmark/selection.py:326-369 | A successful attempt assigns every query once, meets every quota of source and split exactly, and puts no group key in two splits |
| Splits.SortedPassesValidation | src/ragplan/benchmark/selection.py:217 | Sorting the assignments by query ID keeps all of that and changes no lookup |
| Splits.LeftoverCheckNeverFires | src/ragplan/benchmark/selection.py:208-209 | Given the 600-query check, an attempt fails exactly when some component fits in no split: the leftover test at lines 367-368 never decides |
| Splits.TestTagCounts | src/ragplan/benchmark/selection.py:372-381 | The counter of the tags of the test queries counts each tag |
| Splits.HasEnoughTestTags | src/ragplan/benchmark/selection.py:215-216 | The test is passed exactly when every tag, listed or not in the counter, reaches the minimum in the test split |
| Splits.AssignmentPassesValidation | src/ragplan/benchmark/selection.py:205-218 | With distinct query IDs, whatever is returned assigns every query once, in the order of IDs, meets every quota exactly, splits no group and has enough of each test tag |
| Splits.AssignSplits | src/ragplan/benchmark/selection.py:205-218 | Refuses exactly a wrong number of queries; returns the first attempt that succeeds with enough test tags, and fails otherwise only when none of the 10,000 does |
| Contracts.QuotasAreShares | src/ragplan/benchmark/contracts.py:66-87 | Three fifths of every source's 200 or 100 queries are for training, and a fifth each for validation and test |
| Validation.ValidateSourceQuotas | src/ragplan/benchmark/validation.py:85-98 | Accepts exactly when every count of source and split is its quota; otherwise reports a cell that is off |
| Validation.LeakageMeansSharedKey | src/ragplan/benchmark/validation.py:105-109 | A key leaks exactly when two queries that share it are in different splits |
| Validation.ValidateGroupLeakage | src/ragplan/benchmark/validation.py:101-111 | Accepts exactly when no key leaks; otherwise reports the least leaking key |
| Validation.ValidateTestTags | src/ragplan/benchmark/validation.py:130-145 | Reports exactly the tags below the minimum, with their counts |
| Validation.AssignAndValidate | src/ragplan/benchmark/selection.py:205-218 | Whatever assign_splits returns is accepted by all three independent validators |
| Selection.SelectSmallestHashes | src/ragplan/benchmark/selection.py:103-162 | Returns exactly the `limit` smallest-hash records among the first-occurrence eligible ones, in ascending order, and every other eligible one has a larger hash; the report counters are exact; fails exactly for a non-positive limit or too few eligible records, saying how many |
| Selection.Consume | src/ragplan/benchmark/selection.py:122-145 | One record of the stream keeps at most `limit` entries in the heap, and they are the smallest of the eligible records so far |
| Selection.OfferKeepsSmallest | src/ragplan/benchmark/selection.py:142-145 | Pushing while there is room and replacing the head otherwise keeps the smallest hashes |
| Selection.SelectedAreSmallest | src/ragplan/benchmark/selection.py:146 | Sorting the heap gives the first entries of the sorted list of all eligible records |
| Selection.EligibleHashesAreDistinct | src/ragplan/benchmark/selection.py:130-139 | Eligible records have distinct selection hashes, because a source and an ID determine the hashed text |
| Selection.ReportIsComplete | src/ragplan/benchmark/selection.py:151-162 | Excluded, foreign, duplicate-ID, duplicate-question and eligible records add up to the records seen |
| Selection.SelectionHashIs | src/ragplan/benchmark/contracts.py:131-136 | The hash is that of source name, query ID and seed, joined by colons |
| Selection.CountsForReasonIff | src/ragplan/benchmark/selection.py:124-126 | An exclusion without a reason counts as unspecified, every other one for its reason |
| Metrics.FindUniquePrefix | src/ragplan/benchmark/metrics.py:91-101 | The loop with an early exit keeps the first `k` first occurrences |
| Metrics.UniquePrefixIff | src/ragplan/benchmark/metrics.py:91-101 | That is the one list of at most `k` IDs, each where it stands first and after exactly the IDs before it, which leaves an ID out only when it is full |
| Metrics.TopGradesGainMost | src/ragplan/benchmark/metrics.py:51-52 | No choice of grades from a list gains more than its largest grades |
| Metrics.ObservedGainIsChosen | src/ragplan/benchmark/metrics.py:55 | Distinct retrieved IDs gain what some choice of the judged grades gains |
| Metrics.DominatedDcg | src/ragplan/benchmark/metrics.py:104-105 | If every prefix of one list of grades gains at most what the same prefix of another gains, its DCG is at most the other's, and equal only for equal lists |
| Metrics.NdcgIsNormalized | src/ragplan/benchmark/metrics.py:42-56 | nDCG lies between 0 and 1, and is 1 exactly when the grades of the de-duplicated prefix, padded with zeros, are the ideal grades |
| Metrics.NdcgIsShareOfIdeal | src/ragplan/benchmark/metrics.py:42-56 | nDCG is the quotient of two sums: weights 0, 1 and 3 for the grades 0, 1 and 2, times the discount of the rank, over what the first `k` different IDs were judged, and over the `k` largest judged grades |
| Metrics.ExchangedWeight | src/ragplan/benchmark/metrics.py:104-105 | Exchanging two neighbours changes that sum by the difference of their weights times the difference of the discounts |
| Metrics.ExchangeImprovesIff | src/ragplan/benchmark/metrics.py:42-56 | So it improves the score exactly when the later result has the larger grade |
| Metrics.RecallIsSetRecall | src/ragplan/benchmark/metrics.py:9-22 | Recall is the share of the relevant set that the retrieved set covers, and is 1 exactly when it covers all of it |
| Metrics.MrrIsFirstRank | src/ragplan/benchmark/metrics.py:36-39 | The reciprocal rank is at least 1/(i+1) exactly when something relevant stands at one of the first i+1 places |
| Metrics.RecallPositive | src/ragplan/benchmark/metrics.py:9-22 | Recall lies between 0 and 1, and is positive exactly when a relevant chunk is retrieved within `k` |
| Metrics.ComputeMrr | src/ragplan/benchmark/metrics.py:25-39 | The loop with an early return gives the reciprocal of the first relevant rank |
| Metrics.UndefinedTogether | src/ragplan/benchmark/metrics.py:9-56 | Recall, MRR and nDCG fail on the same inputs with the same error |
| Metrics.UndefinedIff | src/ragplan/benchmark/metrics.py:9-20 | They fail exactly for a cut-off below one, an empty ranked ID, the first invalid judgment or nothing relevant, and say which comes first |
| Metrics.PositiveTogether | src/ragplan/benchmark/metrics.py:9-56 | A ranking has a positive score on one of the three metrics exactly when it has one on all |
| Metrics.RecallGrowsWithDepth | src/ragplan/benchmark/metrics.py:9-22 | A deeper cut-off never loses recall |
| Percentile.OrderIndependent | src/ragplan/benchmark/aggregate.py:177-193 | The percentile ignores the order of the values |
| Percentile.WithinRange | src/ragplan/benchmark/aggregate.py:177-193 | It lies between any bounds of the values |
| Percentile.EndsAreExtremes | src/ragplan/benchmark/aggregate.py:187-193 | At probability 0 and 1 it is the least and the greatest value |
| Percentile.MonotoneInProbability | src/ragplan/benchmark/aggregate.py:187-193 | It grows with the probability |
| Percentile.MonotoneInData | src/ragplan/benchmark/aggregate.py:184-193 | Raising values, each by any amount, never lowers it |
| Percentile.DividesTheWay | src/ragplan/benchmark/aggregate.py:184-193 | Where the probability falls between two places of the sorted values, the percentile divides the way between them as the probability does |
| Percentile.UndefinedIff | src/ragplan/benchmark/aggregate.py:177-183 | It is undefined exactly for no values, and otherwise for what is not a probability |
| Percentile.AgreesWithQuantile | src/ragplan/benchmark/policy_evaluation.py:592-599 | On sorted values it agrees with the separately written quantile |
| TrialIdentity.PayloadInjective | src/ragplan/benchmark/records.py:524-537 | The digested text determines run, query, method, budget, phase and repetition, although the query ID may contain the separator |
| TrialIdentity.PayloadIs | src/ragplan/benchmark/records.py:524-537 | The digested text is seven fields, among them the names of method and phase, with a NUL between each two |
| TrialIdentity.ProfilePayloadInjective | src/ragplan/benchmark/profile_records.py:431-444 | The same for the profiler's trial IDs |
| TrialIdentity.ProfilePayloadIs | src/ragplan/benchmark/profile_records.py:431-444 | The same for the profiler's text, with its plan ID |
| RawMatrix.CheckRowMeans | src/ragplan/benchmark/aggregate.py:438-461 | A row passes the row tests exactly when it is identified with the run and names a place of the frozen matrix |
| RawMatrix.RowFailsIff | src/ragplan/benchmark/aggregate.py:438-461 | Which complaint a row gives rise to under the frozen protocol: run or versions, then the trial ID, then a method that is not executed, then the budget, then the repetition |
| RawMatrix.AcceptedIffComplete | src/ragplan/benchmark/aggregate.py:388-498 | With a run manifest made for a list of queries and injective digests, the check accepts exactly the record lists that are the full product of queries, methods, budgets, phases and repetitions, each cell once, with the queries' own identities |
| RawMatrix.AcceptedIsFullIffCountIsRight | src/ragplan/benchmark/aggregate.py:388-498 | Without any assumption on the digests: accepted evidence is the full product of the queries it mentions exactly when the manifest counts those queries correctly |
| UnevenMatrix.AcceptedWithoutProduct | src/ragplan/benchmark/aggregate.py:388-498 | Evidence that is accepted and is not the product: two queries with half of the budgets each, under a manifest that counts one query |
| RawMatrix.EnoughRowsAreTheProduct | src/ragplan/benchmark/aggregate.py:393-397 | Rows that pass the row tests, with distinct IDs and as many as the product has cells, are the product |
| RawMatrix.RowsOfGroup | src/ragplan/benchmark/aggregate.py:481-490 | In a full product over any layout with the protocol's trials, each query, method, budget and phase has the protocol's number of rows |
| RawMatrix.CompleteGroups | src/ragplan/benchmark/aggregate.py:491-498 | In a complete run there are 108 groups for each query |
| RawMatrix.CompleteIdentities | src/ragplan/benchmark/aggregate.py:465-480 | In a complete run the identities read from the rows, sorted, are those of the queries, and do not change between trials |
| RawMatrix.ReadIdentities | src/ragplan/benchmark/aggregate.py:465-475 | Reading the identities succeeds exactly when no query's identity changes between its rows, and then gives each once |
| RawMatrix.CountGroups | src/ragplan/benchmark/aggregate.py:481-483 | The table of counts has exactly the groups that occur, with their numbers of rows |
| RawMatrix.CheckPhaseCounts | src/ragplan/benchmark/aggregate.py:484-490 | Passed exactly when every group has the number of rows of its phase |
| RawMatrix.AcceptsIffNoComplaint | src/ragplan/benchmark/aggregate.py:388-498 | There is nothing to raise exactly on the evidence that is accepted |
| RawMatrix.ValidateRawMatrix | src/ragplan/benchmark/aggregate.py:388-498 | The check raises its first complaint, in the order of its tests, and nothing exactly on the evidence that is accepted |
| EvidenceLog.Repository.LoadRecords | src/ragplan/benchmark/runner.py:304-323 | The loop over the lines reads the log, or refuses it for a truncated, empty, invalid or duplicate row |
| EvidenceLog.Repository.Append | src/ragplan/benchmark/runner.py:325-341 | The log grows by exactly the bytes that the successive writes took; there is an error exactly when that is not the whole row |
| EvidenceLog.LoadRows | src/ragplan/benchmark/runner.py:304-323 | Whole rows with distinct IDs are read back as they were written, and refused as truncated when a part of a row follows them |
| EvidenceLog.LoadExtended | src/ragplan/benchmark/runner.py:304-323 | After a log that loads, more text is read as if on its own, with the IDs of the log already seen |
| EvidenceLog.LoadedEndsItsLine | src/ragplan/benchmark/runner.py:310-312 | A log that loads ends its last line |
| EvidenceLog.BadLineIsRefused | src/ragplan/benchmark/runner.py:308-323 | A log is refused for its first bad line, whatever follows: one without an end, a blank one, one that is no row, or one whose trial ID an earlier row has |
| EvidenceLog.AdmitMeans | src/ragplan/benchmark/runner.py:386-388 | A run starts exactly from a log that loads and whose rows all match the schedule |
| EvidenceLog.MatchingRowsAreFew | src/ragplan/benchmark/runner.py:633-634 | Loaded rows that match the schedule are never more than it, and as many exactly when they are the whole schedule: the row-count test never fails after the row tests |
| EvidenceLog.ValidateExisting | src/ragplan/benchmark/runner.py:594-634 | The dictionary look-ups give the first refusal of a row, in order, and then the test of the row count |
| EvidenceLog.RefusedForFirst | src/ragplan/benchmark/runner.py:594-634 | A log is refused for its first row that does not belong to the run: another run, an unknown trial, other fields, other versions, in this order |
| EvidenceLog.RunLocked | src/ragplan/benchmark/runner.py:386-432 | A run changes the log and answers as the functions say that the other rows are about, for every interruption and every sequence of partial writes |
| EvidenceLog.RunLogLoads | src/ragplan/benchmark/runner.py:386-432 | After any run from any admitted log, the log is read back with the new rows, or refused for the row that was torn; the new rows are those of the missing trials, in order |
| EvidenceLog.RunLogsObserved | src/ragplan/benchmark/runner.py:394-414 | From any log that a run starts from, the i-th new row holds the i-th observed outcome, under the i-th missing trial, and a torn end begins the row of the next observed outcome |
| EvidenceLog.WrittenMeans | src/ragplan/benchmark/runner.py:325-341 | A row is written as far as the writes before the first one that takes nothing; falling short is a failed append when there is such a write, and an interruption otherwise |
| EvidenceLog.RunReturnsIffComplete | src/ragplan/benchmark/runner.py:424-432 | From any admitted log, a run returns exactly when the log then has one row of every scheduled trial and no other |
| EvidenceLog.CompleteIffExpectedRows | src/ragplan/benchmark/runner.py:430 | A log is complete exactly when it has as many rows as the manifest expects |
| EvidenceLog.SummaryIsComplete | src/ragplan/benchmark/runner.py:424-432 | A summary always says complete, its counts add up, and the last load never fails |
| EvidenceLog.RerunExecutesNothing | src/ragplan/benchmark/runner.py:391-393 | A run over a complete log executes nothing, leaves it as it is and reports it complete |
| EvidenceLog.RunKeepsPrefix | src/ragplan/benchmark/runner.py:386-432 | A run over a prefix of the schedule leaves a longer prefix; a log with a torn last row it refuses and leaves as it is |
| EvidenceLog.EveryLogIsAPrefix | src/ragplan/benchmark/runner.py:386-432 | After any number of runs from an empty log, each interrupted anywhere, also inside a write, the log is the rows of a duplicate-free prefix of the schedule, each with the outcome that some run observed of that trial, or that and a torn row, also of an observed outcome, and then it is refused |
| EvidenceLog.LogsOnlyGrow | src/ragplan/benchmark/runner.py:325-341 | Every earlier log is a prefix of every later one, and a truncated log never changes again |
| Schedule.BuildSchedule | src/ragplan/benchmark/runner.py:434-473 | The nested loops build the blocks in order |
| Schedule.ScheduleIsProduct | src/ragplan/benchmark/runner.py:434-473 | Whatever the shuffles do, the schedule is the product of cases, methods, budgets and trials, each cell once |
| Schedule.TrialStandsAt | src/ragplan/benchmark/runner.py:434-473 | A trial stands after those of all earlier phases and repetitions and, among its own, of all earlier budgets; only cases and methods are shuffled, inside a block |
| RawMatrix.BaselineInOrder | src/ragplan/benchmark/runner.py:436-438 | Phases and repetitions come in this order: one cold trial, two warm-ups, ten measured ones |
| Schedule.ScheduleIsSound | src/ragplan/benchmark/runner.py:434-473 | It has as many trials as the product has cells, and no two trials share an ID |
| Runner.PlanIsValid | src/ragplan/benchmark/runner.py:570-592 | With a manifest made for its cases, the runner schedules as many trials as the manifest expects rows, with distinct IDs |
| Runner.FinishedLogsAreAccepted | src/ragplan/benchmark/runner.py:386-473 | After any history of interrupted runs every row has an observed outcome, and a log that loads passes the raw-matrix check exactly when it has the expected number of rows |
| Profiler.PlanIsValid | src/ragplan/benchmark/profiler.py:373-414 | The profiler's schedule is one the log can rely on as well |
| Profiler.ProfileLogsArePrefixes | src/ragplan/benchmark/profiler.py:331-414 | Any number of profiler runs leaves a prefix of its schedule with observed outcomes, possibly with a torn row that every load refuses; with the expected number of rows it is the product of cases, plans, budgets and trials |
| Activation.ServedCorpusIsReconciled | src/ragplan/ingestion/manifest.py:83-95 | For every sequence of operations and every fault of their writes, serving finds no pointer, or a pointer to a stored, hash-matching, active manifest whose two stores agree; it never finds an inconsistent one |
| Activation.EvidenceIsImmutable | src/ragplan/ingestion/manifest.py:45-61 | Over any number of steps a stored record stays as it is unless its run is discarded |
| Activation.FailedRunIsNotServed | src/ragplan/ingestion/reconcile.py:126-137 | A run ID that holds a record that is not active, such as a failed one, is not served until it is discarded |
| Activation.ServedRunCannotBeDiscarded | src/ragplan/ingestion/manifest.py:102-116 | Discarding the served run is refused and changes nothing |
| Activation.DiscardRemoves | src/ragplan/ingestion/manifest.py:102-121 | Discarding a run that is not served removes its record, unless the write fails before that, and changes nothing else; it answers without an error exactly when nothing failed |
| Activation.DiscardedRunIsFree | src/ragplan/ingestion/manifest.py:102-121 | Afterwards any active manifest can be recorded, activated and served under that run ID |
| Activation.RecordStores | src/ragplan/ingestion/manifest.py:45-61 | A record is accepted exactly when it is stored already or nothing failed; it is stored unless the write fails before that, and never replaces another |
| Activation.ActivatesIff | src/ragplan/ingestion/manifest.py:63-78 | An activation returns exactly when the manifest is active, its record is or can be stored, and the pointer can be written; otherwise it says which |
| Activation.LoadAnswers | src/ragplan/ingestion/manifest.py:80-95 | In any store, serving finds the pointer and its record when they match, nothing ready when one of them is missing, and an inconsistency otherwise |
| Activation.RefusalAnswers | src/ragplan/ingestion/manifest.py:97-121 | Why a discard or a rollback is refused: a served run, a blank or unknown one, a record that is not active, or a write that failed |
| Activation.PointerMovesToTheRequested | src/ragplan/ingestion/manifest.py:63-78 | One step leaves the pointer or moves it to the manifest that was asked for, active and stored |
| Activation.ActivationMoves | src/ragplan/ingestion/manifest.py:63-78 | An activation that returns is served; one that raises leaves the pointer alone, unless its last write failed after taking effect |
| Activation.Reconcile | src/ragplan/ingestion/reconcile.py:37-85 | What reconciliation returns is an active manifest of the run that the validator accepts |
| Activation.CoordinatorServesWhatItReturns | src/ragplan/ingestion/reconcile.py:102-156 | What the coordinator returns is served, and both re-read stores agreed on it |
| Activation.FailureLeavesServing | src/ragplan/ingestion/reconcile.py:126-155 | When verification or reconciliation fails, serving goes on as before, whether or not the failure could be recorded; no other record changes |
| Activation.FailureAnswers | src/ragplan/ingestion/reconcile.py:102-155 | A failed activation answers that its record is not valid or could not be written, and otherwise why it failed, the vector store first |
| Activation.FailureIsRecorded | src/ragplan/ingestion/reconcile.py:112-153 | It records which store was verified, with its count and checksum, and nothing of the other; when both were, that is what was read, and otherwise what the request says |
| Activation.ActivatedIsWhatWasRead | src/ragplan/ingestion/reconcile.py:37-85 | A successful activation serves a manifest whose every field comes from the stage it belongs to, as it was read |
| Activation.FailureBlocksTheRun | src/ragplan/ingestion/reconcile.py:126-155 | A failure recorded for a run without a record is a failed one; and whatever record the run has afterwards, every later activation of a different manifest under its ID is refused until it is discarded |
| Activation.RollbackRestores | src/ragplan/ingestion/manifest.py:97-100 | Rolling back to a run that was served restores it, whatever happened since, unless its record was discarded |
| ManifestStore.ManifestRepository.Record | src/ragplan/ingestion/manifest.py:45-61 | Stores a new record, accepts an identical one and refuses a different one, as its specification says |
| ManifestStore.ManifestRepository.Activate | src/ragplan/ingestion/manifest.py:63-78 | Records and then moves the pointer, as its specification says, for every fault of the two writes |
| ManifestStore.ManifestRepository.LoadActive | src/ragplan/ingestion/manifest.py:83-95 | Answers the pointer with its manifest, not ready, or inconsistent, as its specification says |
| ManifestStore.ManifestRepository.Rollback | src/ragplan/ingestion/manifest.py:97-100 | Activates the stored record again, as its specification says |
| ManifestStore.ManifestRepository.Discard | src/ragplan/ingestion/manifest.py:102-121 | Removes the record of a run that is not served: an answer without an error means that the record, and no other, is gone |
| ManifestStore.ActivationCoordinator.Activate | src/ragplan/ingestion/reconcile.py:102-156 | Verifies, reconciles, records failures and activates, as its specification says; a failure of the record masks the error that led to it |
| Lifecycle.BaselineSearchEngine.Register | src/ragplan/core/engine.py:625-628 | Registers the task exactly when closing has not started |
| Lifecycle.BaselineSearchEngine.Unregister | src/ragplan/core/engine.py:643-645 | Removes the task and nothing else |
| Lifecycle.BaselineSearchEngine.StartClosing | src/ragplan/core/engine.py:1271-1281 | The first call owns the shutdown and gets all registered tasks but itself; later ones wait or find the engine closed |
| Lifecycle.BaselineSearchEngine.FinishClosing | src/ragplan/core/engine.py:1298-1301 | Publishes that the engine is closed |
| Lifecycle.NextKeepsInv | src/ragplan/core/engine.py:1270-1305 | Every atomic step keeps the protocol's invariant |
| Lifecycle.SearchRegistersIff | src/ragplan/core/engine.py:625-628 | An idle task that searches is registered exactly when closing has not started, whatever the other tasks do, and nothing else changes |
| Lifecycle.SearchEnds | src/ragplan/core/engine.py:643-645 | The last section of a search takes its task out again, and no other, unless it is cancelled first |
| Lifecycle.CallTakesItsRole | src/ragplan/core/engine.py:1270-1283 | A close call owns the shutdown exactly when none came before it and then awaits every other registered task; it waits while the shutdown is under way and returns when it is over |
| Lifecycle.WaiterLeaves | src/ragplan/core/engine.py:1281-1283 | A waiting call returns exactly when the shutdown is complete, or is cancelled |
| Lifecycle.OwnerLeaves | src/ragplan/core/engine.py:1298-1301 | The owner publishes that closing is complete and then its call ends; when it is cancelled before that, nothing is published |
| Lifecycle.BackendsCloseOnce | src/ragplan/core/engine.py:1284-1301 | Under every interleaving each backend's close is called at most once, the graph backend's after the vector backend's came back, and only when every other request task has finished |
| Lifecycle.ReturningCloseIsAfterBoth | src/ragplan/core/engine.py:1281-1283 | A close call that waited, or that finds the engine closed, returns after both backends' closes came back |
| Lifecycle.NoRequestAfterClosing | src/ragplan/core/engine.py:625-628 | Once closing has started it stays so with the same owner, no request registers, and whoever searches later was searching before |
| Lifecycle.ShutdownCloses | src/ragplan/core/engine.py:1284-1301 | In every interleaving, an owner that is not cancelled closes the engine: it is closed exactly when the owner has taken the steps it had left, and then both backends' closes have come back |
| Lifecycle.CanCloseIff | src/ragplan/core/engine.py:1270-1305 | Once closing has started, some continuation of the run closes the engine exactly when it is closed already or its owner is still at work |
| Lifecycle.CancelledOwnerStrandsClose | src/ragplan/core/engine.py:1284-1301 | When the owner is cancelled before it publishes, the engine stays closing for ever, no backend's close is called any more and no waiting call returns |
| Lifecycle.CancelledWhileAwaiting | src/ragplan/core/engine.py:1284-1287 | A run that shows it: the owner is cancelled while it awaits the requests, and neither backend is ever closed |
| Lifecycle.CancelledWhilePublishing | src/ragplan/core/engine.py:1299-1301 | Another: the owner is cancelled while it waits for the lock, and a waiting call never returns although both backends were closed |
| Degradation.EngineNeverRejectsItself | src/ragplan/core/engine.py:770-797 | For every mode and every execution with one terminal result of each scheduled branch, the engine answers with a response that the validators accept or with a typed error; it never looks up a branch that did not succeed |
| Degradation.PartialIffOneBranchLost | src/ragplan/core/engine.py:1099-1113 | A response is partial exactly when a hybrid request kept one branch and lost the other for a reason that is not fatal |
| Degradation.AnsweredIff | src/ragplan/core/engine.py:1016-1050 | There is a response exactly when the request is in time, no branch failed fatally, some branch succeeded and none of those repeats a chunk |
| Degradation.SingleFailureCode | src/ragplan/core/engine.py:1016-1050 | The error a request with one branch answers with when that branch is lost |
| Degradation.HybridFailureCode | src/ragplan/core/engine.py:1016-1050 | The error a hybrid request answers with: a fatal one of the vector branch, then of the graph branch, then the deadline, then an unavailable mode or dependency |
| Degradation.RepeatedChunkCode | src/ragplan/retrieval/fusion.py:179-194 | When a branch that succeeded repeats a chunk, and nothing worse happened, the corpus is said to be inconsistent |
| Degradation.PartialKeepsTheOther | src/ragplan/core/engine.py:1086-1113 | A partial response has the first of the hits of the branch that was kept, in its order, up to top-k, and names the one that was lost |
| Degradation.SingleHits | src/ragplan/core/engine.py:1066-1082 | A response to a request with one branch has the first of that branch's hits in their order, as many as there are up to top-k, and no fusion trace |
| Degradation.HybridHits | src/ragplan/core/engine.py:1084-1113 | A complete hybrid response has distinct hits of either branch, as many as there are up to top-k, in the order of fusion and none after one that was left out; its trace counts the hits of each branch and those that both found |
| Fusion.ContributionFalls | src/ragplan/retrieval/fusion.py:279-297 | A branch contributes its weight divided by 60 more than the rank, which falls with the rank |
| Fusion.ByScoreIsTotalOrder | src/ragplan/retrieval/fusion.py:119 | Scores and then IDs order the candidates completely, so that fusion is deterministic |
| Fusion.DominatingComesFirst | src/ragplan/retrieval/fusion.py:69-124 | A hit that no branch puts behind another comes before it, if some branch with a weight found it |
| Fusion.HeavierBranchDecides | src/ragplan/retrieval/fusion.py:69-124 | Of two hits that stand at each other's ranks the one that the heavier branch puts first comes first; with equal weights the ID decides |
| Fusion.HybridHitsByScore | src/ragplan/core/engine.py:1084-1113 | A complete hybrid response has the candidates of the largest scores in descending order, equal ones by ID |
| Degradation.FusionTraceIsValid | src/ragplan/core/models.py:859-876 | The counts of a fusion satisfy their validator: duplicates are at most either input, and outputs at most the deduplicated candidates |
| Degradation.HybridIsAccepted | src/ragplan/core/models.py:1089-1118 | A hybrid response is accepted by the validators of its scheduler trace, its search trace and itself |
| Degradation.SingleIsAccepted | src/ragplan/core/models.py:1089-1118 | So is the response of a request with one branch |
| Degradation.AcceptedSaysSo | src/ragplan/core/models.py:1089-1118 | What an accepted hybrid response says: complete exactly when both branches succeeded and otherwise partial with a reason and one that did, at most top-k hits, and a fusion that counts the hits of the branches that succeeded |
| Degradation.AcceptedAloneSaysSo | src/ragplan/core/models.py:1089-1118 | An accepted response of one branch is complete, without a reason, and its branch succeeded |
| Degradation.RequestStateMachine.Transition | src/ragplan/scheduler/states.py:78-86 | Records exactly the legal transitions |
| Degradation.RequestStateMachine.FailIfPossible | src/ragplan/scheduler/states.py:88-90 | Records a failure exactly when the request had not ended |
| Degradation.IsHistoryIff | src/ragplan/scheduler/states.py:25-44 | The histories that the table allows are the stages in order, ended by a failure after the first two or by a result after fusion or reranking |
| Degradation.ExecuteRequest | src/ragplan/core/engine.py:770-856 | The last part of a request answers as above, and a response reports exactly the states that were recorded |
| Chunker.WindowsCover | src/ragplan/ingestion/chunker.py:241-260 | Windows cover every token, consecutive ones share exactly the overlap, all but the last are full, only the last reaches the end, and it holds more than the overlap unless it is the only one |
| Chunker.ValidatedOffsets | src/ragplan/ingestion/chunker.py:166-202 | The loop that compares each range only with the one before accepts exactly the non-empty ranges inside the text that are pairwise ordered, in the right number |
| Chunker.StitchRebuildsIff | src/ragplan/ingestion/chunker.py:145-150 | Stitching the raw window texts rebuilds the source from the first token to the last exactly when windows overlap or no source text lies between two of them |
| Chunker.WithoutOverlapASpaceIsLost | src/ragplan/ingestion/chunker.py:145-150 | An input without overlap whose stitched windows are not the source |
| Chunker.ChunkDocument | src/ragplan/ingestion/chunker.py:205-261 | Fails exactly, and says so, for a blank corpus version or, for a non-empty document, a blank ID component; otherwise emits one chunk for each window with a new non-empty text, at its own position, with its token count and ID |
| Chunker.ChunksAreDistinct | src/ragplan/ingestion/chunker.py:239-260 | Chunks have distinct non-empty texts and increasing positions, and every non-empty window text is among them |
| Chunker.ChunkIdsAreDistinct | src/ragplan/ingestion/chunker.py:244-253 | No two chunks of a document share an ID |
| Normalize.NormalizeLines | src/ragplan/ingestion/normalize.py:18-32 | The loop over the lines computes the rendering of the text's paragraphs of words |
| Normalize.NormalizationKeepsParagraphs | src/ragplan/ingestion/normalize.py:8-32 | Normalization keeps the paragraphs of words and is idempotent |
| Normalize.NormalizationKeepsWords | src/ragplan/ingestion/normalize.py:8-32 | It keeps the words of the text and their order |
| Normalize.WordsOfText | src/ragplan/ingestion/normalize.py:20-22 | The words of a text are those of its lines, one line after the other |
| Normalize.NormalizedAlikeIff | src/ragplan/ingestion/normalize.py:8-32 | Two texts are normalized alike exactly when they have the same paragraphs of the same words |
| Normalize.NormalTextsAreRendered | src/ragplan/ingestion/normalize.py:29-32 | Normal texts are exactly non-empty paragraphs of words, words joined by single spaces and paragraphs by two newlines |
| Normalize.ParagraphsOfRender | src/ragplan/ingestion/normalize.py:22-32 | Rendered paragraphs are read back as they were |
| Normalize.LineEndingsDoNotMatterIff | src/ragplan/ingestion/normalize.py:20 | A text whose lines end in any mixture of LF, CR and CRLF is normalized like the one with LF throughout exactly when nowhere a lone CR and a lone LF enclose the only, empty line between two lines with words |
| Normalize.UniformEndingsDoNotMatter | src/ragplan/ingestion/normalize.py:20 | So one kind of line ending used throughout is as good as any other |
| Normalize.CrThenLfJoinsParagraphs | src/ragplan/ingestion/normalize.py:20 | An input where the choice matters: two paragraphs become one |
| Relations.ChildrenByHead | src/ragplan/ingestion/relations.py:113-119 | Every head's children are listed once for each token, ascending, and heads without children are absent |
| Relations.ChildrenAreEdges | src/ragplan/ingestion/relations.py:113-119 | A token is listed below another exactly when it has that head and is not its own head |
| Relations.Descendants | src/ragplan/ingestion/relations.py:148-157 | The worklist ends on every assignment of heads, cyclic ones too, with exactly the tokens that one or more child edges lead to, ascending |
| Relations.LeastMeans | src/ragplan/ingestion/relations.py:122-131 | A mention is the one at a token exactly when its tokens include it and, of those that do, none is shorter, as short and earlier, or alike in both and listed before it; there is none exactly when none includes it |
| Relations.MentionsInSubtree | src/ragplan/ingestion/relations.py:160-171 | Mentions chosen at the root or at a token reachable from it, one for each ID chosen there, in the order of their IDs; exactly those mentions when no two share an ID |
| Ids.Utf8RoundTrip | src/ragplan/core/ids.py:29 | UTF-8 can be decoded |
| Ids.Utf8EncodesCode | src/ragplan/core/ids.py:29 | Every character is encoded as in section 3 of RFC 3629: as few bytes as possible, in their ranges |
| Ids.QuoteRoundTrip | src/ragplan/core/ids.py:29 | Percent-encoding of bytes (sections 2.1 and 2.3 of RFC 3986) can be decoded |
| Ids.QuoteOfCharacter | src/ragplan/core/ids.py:29 | A letter, digit or declared safe mark of ASCII stands for itself; of any other character each byte is a percent sign and two capital hexadecimal digits |
| Ids.QuoteIsEncoded | src/ragplan/core/ids.py:22-29 | Encoded text has only unreserved characters and percent signs, so no delimiter |
| Ids.ComponentRoundTrip | src/ragplan/core/ids.py:22-29 | A component can be decoded to the stripped string |
| Ids.DocumentIdRoundTrip | src/ragplan/core/ids.py:39-41 | A document ID is the version, the kind and both encoded components with colons between, and determines both; there is none exactly when one of them is blank |
| Ids.ChunkIdRoundTrip | src/ragplan/core/ids.py:44-52 | A chunk ID is the version, the kind, the encoded document ID, the index and the hash with colons between, and determines the last three; there is one exactly for a document ID with the versioned prefix |
| Ids.AcceptedChunkIdsAreEqualIff | src/ragplan/core/ids.py:44-52 | For all document IDs with the versioned prefix, chunks share an ID exactly when the stripped document IDs, the indices and the content hashes are all the same |
| Ids.ChunkIdsAreEqualIff | src/ragplan/core/ids.py:39-52 | So chunks of documents share an ID exactly when document components, index and content hash are all the same |
| Ids.CanonicalDocumentIdIsStripped | src/ragplan/core/ids.py:39-41 | A canonical document ID has no white space and is accepted as the document of a chunk |
| Ids.SpaceAfterDocumentIdIsLost | src/ragplan/core/ids.py:44-52 | Two different document IDs, both accepted, whose chunks share an ID |
| Ids.NormalizeEntityName | src/ragplan/core/ids.py:55-74 | The loop to a fixpoint ends with what one trim of white space and punctuation leaves of the collapsed name; it fails exactly when nothing is left |
| Ids.EntityNameIff | src/ragplan/core/ids.py:55-74 | A name is exactly what is left of its collapsed form when white space and punctuation are taken off both ends; it fails exactly when nothing is left |
| Ids.EntityNameIsIdempotent | src/ragplan/core/ids.py:55-74 | Normalizing a normalized name changes nothing |
| Dedupe.DeduplicateExactDocuments | src/ragplan/benchmark/dedupe.py:38-107 | The loops compute the representatives and the merged queries, and report exactly the documents known under several source IDs, with those IDs in ascending order |
| Dedupe.RepsIgnoreOrder | src/ragplan/benchmark/dedupe.py:50-55 | Representatives do not depend on the order of the queries |
| Dedupe.SharedNamespaceIff | src/ragplan/benchmark/selection.py:221-222 | Only the two kinds of HotpotQA queries share a namespace of documents |
| Dedupe.RepIsLeast | src/ragplan/benchmark/dedupe.py:50-55 | The representative has a name under which the text occurs, and none of those has a smaller source ID, or the same and a smaller title |
| Dedupe.ResultsHaveLeastNames | src/ragplan/benchmark/dedupe.py:57-93 | So every document of a result has the least name of its text |
| Dedupe.ResultsAreMerged | src/ragplan/benchmark/dedupe.py:57-93 | Results ascend by source ID; each has the text of the last paragraph that got its ID, and the facts of all of them, each once, by ID and sentence |
| Dedupe.TextsAreKeptIff | src/ragplan/benchmark/dedupe.py:57-82 | A query keeps its set of texts exactly when no two of its texts get the same source ID |
| Dedupe.TwoTextsOfOneIdCollide | src/ragplan/benchmark/dedupe.py:57-82 | An input that loses a text: one source ID names two texts |
| Dedupe.FactsAreKept | src/ragplan/benchmark/dedupe.py:71-81 | Without such a collision the merged document has exactly the facts the query had for its text |
| Dedupe.EvidenceIsKept | src/ragplan/benchmark/dedupe.py:57-82 | If a source ID names one text in each namespace, every query keeps its texts and, for each, its facts |
| Dedupe.OneNamePerText | src/ragplan/benchmark/dedupe.py:57-93 | Afterwards every document has the source ID and title of its representative, so there is one source ID for each text |
| Dedupe.SecondPassChangesNothing | src/ragplan/benchmark/dedupe.py:38-107 | A second pass finds no aliases and leaves every query as it is |
| Tracing.EventsAreConserved | src/ragplan/observability/tracing.py:220-249 | In every run the events offered while open are those dropped, queued, in flight, written and lost in writing; what was taken is the beginning of what was accepted, in order |
| Tracing.CloseDrains | src/ragplan/observability/tracing.py:204-218 | When the close call that closed the writer returns, every accepted event was written or counted as a failure |
| Tracing.NothingEntersAfterClose | src/ragplan/observability/tracing.py:220-222 | Once close has been called no event is accepted, dropped or counted any more |
| Tracing.LaterCloseIsDrainedIff | src/ragplan/observability/tracing.py:204-206 | In every run, a call that finds the flag set changes nothing and returns at once; every accepted event was written or counted then exactly when none is queued or in flight, which holds once the first call has returned |
| Tracing.AlwaysDrainedIff | src/ragplan/observability/tracing.py:204-218 | How far the first call has come tells a later caller that everything was dealt with exactly when it has returned: not while it puts the sentinel or waits for the worker, nor after it was cancelled |
| Tracing.SecondCloseReturnsEarly | src/ragplan/observability/tracing.py:204-207 | A run that shows it: a second call while the first one waits returns with an accepted event still queued |
| Tracing.CancelledCloseLosesEvents | src/ragplan/observability/tracing.py:204-211 | Another: a call after the first one was cancelled with the worker returns at once, and whatever comes after that, the event is neither written nor counted |
| Tracing.CancelledWorkerStops | src/ragplan/observability/tracing.py:230-249 | Once the worker is cancelled, nothing is written or counted any more |
| Tracing.CloseCloses | src/ragplan/observability/tracing.py:204-209 | A close call always leaves the writer closed; the first one waits exactly when there is a worker, and a later one does nothing |
| Tracing.CloseCanReturn | src/ragplan/observability/tracing.py:204-218 | A close call that is not cancelled can always return, from wherever it has come to |
| Tracing.FirstCloseWaits | src/ragplan/observability/tracing.py:204-211 | A first close call that finds nothing to wait for has no accepted event to wait for |
| Tracing.AcceptedIff | src/ragplan/observability/tracing.py:220-228 | An event is accepted exactly when the writer is open and its queue is not full; a full queue drops it, and a writer that is not open ignores it |
| Tracing.StartOpensIff | src/ragplan/observability/tracing.py:121-137 | A start that works opens a writer that was neither started nor closed; one that fails counts a failure and leaves it to be started again |
| Tracing.FailuresAreCounted | src/ragplan/observability/tracing.py:121-249 | In every run the failures counted are the events lost in writing and the starts and ends of close that failed, and the writes counted are the events in the output |
| Tracing.DrainedIsAll | src/ragplan/observability/tracing.py:230-249 | The worker's loop empties the queue in order: what is written well is output, what is not is counted, and it ends exactly at the sentinel |
| Tracing.NextKeepsInv | src/ragplan/observability/tracing.py:204-249 | Every step keeps conservation, the counters and the place of the sentinel |
| Tracing.RedactedTraceWriter.StartWorker | src/ragplan/observability/tracing.py:121-137 | Starts once, and counts a failed start |
| Tracing.RedactedTraceWriter.Enqueue | src/ragplan/observability/tracing.py:220-228 | Appends the event, or drops it when the queue is full, or ignores it when the writer is not open |
| Tracing.RedactedTraceWriter.Drain | src/ragplan/observability/tracing.py:230-249 | The worker's loop takes items in order until the sentinel or an empty queue, and counts what it writes and what it loses |
| Tracing.RedactedTraceWriter.BeginClose | src/ragplan/observability/tracing.py:204-209 | Sets the flag once, and waits for the worker if there is one |

## Left out

- `selection.py`: record parsing, tag classification, template hashes and named entities; a query is its source, tags and group keys.
- Validation.AssignAndValidate: requires distinct query IDs, which the benchmark manifest guarantees; assign_splits itself is modelled without that.
- `validation.py`: `_validate_question_duplicates` does not follow from the split algorithm; the corpus index and qrels checks are about other files.
- `aggregate.py`: `_query_means`, `_query_cluster_mean`, `select_best_fixed`, paired comparisons and report files; they are means and dictionary look-ups.
- Percentile: the finiteness test has no counterpart over the reals, and rounding is not modelled.
- `profiler.py`: `_validate_complete_raw_matrix` does not compare budgets with the manifest, so the full-product result is stated for the benchmark check only; training matrices and label validity are not modelled.
- EvidenceLog.Repository.LoadRecords: line ends other than LF and malformed UTF-8 are not modelled, since canonical JSON rows contain no raw control characters; a blank line is one of ASCII white space.
- EvidenceLog.RunLocked: file locking, progress reports, fsync and the contents of an observation are left out; an exception of a trial is one of its outcomes, and a process that dies is an interruption.
- Schedule.BuildSchedule: the seeds of the shuffles are not computed; each block has some permutation of its own.
- Profiler.PlanIsValid: plan features beside the plan ID are not modelled.
- Activation: reading never fails, the repository has one user at a time, and a file name stands for its run ID; resolvers and JSON contracts are left out.
- Lifecycle: admission, deadlines and the search itself are steps of no effect on the protocol; `cancel_and_await` is taken to return when its tasks are done.
- Degradation: latencies, budgets, circuit states, kill switches, plans and redaction are left out of the responses; Degradation holds for any order of the candidates, and Fusion for that of the weighted scores over the reals, with weights that add up to one exactly.
- Fusion: the provenance of a hit, its paths and its text; that both branches agree on the evidence of a hit is not modelled.
- Degradation.ExecuteRequest: starts after planning, and gives fusion one typed error, for a branch that repeats a chunk; that two branches disagree on a chunk's text is not modelled.
- Chunker.ChunkDocument: the type tests on the tokenizer and its mapping are left out; a tokenizer is a function to a number of tokens and the texts of ranges.
- Normalize: characters are taken to be in compatibility normal form already.
- Ids: UUIDs of entities, mentions and relations, and the digest prefix of a chunk's content.
- `relations.py`: the dependency patterns of `extract_relations`, which filter and pair the mentions found.
- Dedupe.DeduplicateExactDocuments: aliases are listed as source IDs, not in their canonical document form; facts that differ only in an absent or empty sentence keep the order of appearance.
- Tracing: the JSON form of events, log rotation and the callbacks; taking an event and writing it are two steps.
- Retrieval, planners, learned models, circuit breakers, the HTTP server, the command line and downloads are not part of this model.
