# Cadence: a verified model of its hard core

Cadence ingests the run history of a repository's CI, replays it over the job graph, and reports what a change
to the pipeline would have saved. This project models, in Dafny 4.11, the parts whose correctness cannot be read
off one function body, and proves what they promise on all inputs, all runs and all interleavings:

* **Job graph and counterfactual replay** (`Dag`, `CriticalPath`, `Replay`, `Savings`, `Superseded`, `Spans`):
  Kahn's sort, the longest weighted path, removal of `needs:` edges, the sweep for superseded runs, and the
  aggregation of observed jobs into node timings.
* **Ingest queue and worker protocol** (`Queue`, `Worker`): the job table as a class, its claim loops as a
  transition system with a clock, and the loop's transactions proved to be steps of that system.
* **Ingest cursor** (`Ingest`, `IngestPass`, `IngestRuns`, `Upserts`): when the stored ETag may advance, for any
  number of interleaved passes that may die anywhere; one pass as an imperative method, proved to be a run of that
  system; what a 304 costs; and what run and job rows remember.
* **Cache-state analysis** (`CacheState`, `Actions`): a depth-bounded reading of steps through composite actions
  with partial knowledge, and the bounded breadth-first resolver that feeds it.
* **Finding lifecycle** (`Findings`), **text-first edit** (`Text`, `Lines`, `ConcurrencyFixer`) and **timing
  index** (`StepIndex`).

`Common` holds the option type and the code-point order on strings. Times, durations and weights are `real`.
Code that updates state in the repository is a class or a method with loops here; each such method is proved
against a specification (a predicate or a specification function), and the properties are lemmas about that
specification. Where the program walks a dictionary, the model takes its keys in an arbitrary order and the
contract holds for every order.

## What the code does not do

Some promises hold only under a condition. Each has a proved condition, and an instance in which it fails:

* A node that lists the same in-graph dependency twice makes the sort return nothing even on an acyclic graph.
  `Dag.Toposort` states the exact characterisation, `Dag.RepeatedDependencyBlocksSorting` is the instance.
* Polling of a repository can stop: when the scheduling transaction itself fails on an attempt that may no longer be
  retried, the poll is abandoned. Until that happens to a repository, abandoning its only live poll is the one way in
  which its polling ends (`Worker.PollingStopsOnlyByAbandonment`), and polling that ended was preceded by an
  abandonment (`Worker.LostPollWasAbandoned`). `Worker.PollCanBeAbandoned` is a run in which it happens,
  `Worker.PollingCanEndAfterAbandonment` one in which the end comes later, at the success of another poll.
* A stored ETag stands for what the pass that stored it fetched. With job fetching on, that includes jobs and steps
  (`Ingest.CursorSafety`). A pass that fetches none, or fewer runs, stores the same ETag, and a later pass that is
  told nothing changed loses what it wanted beyond that: exactly when is `IngestRuns.NotModifiedExactly`, an instance
  is `IngestRuns.MetadataOnlyPassHidesJobs`.
* A node's negative queue can be clamped without being flagged, exactly when no leg starts before its own creation
  (`Spans.ClampIsSilentExactly`, `Spans.ClampCanBeSilent`).
* A whole job's cache state is less stable than that of the steps ahead of its install
  (`CacheState.JobStateSettles`, `CacheState.UncachedCanTurnCached`).
* The concurrency block can land below `jobs:`, because the insertion point is counted with `splitlines()` and used
  on `split(newline)`. It lands where it should exactly when the pieces above it hide no more line breaks than there
  are comment lines attached to `jobs:` (`ConcurrencyFixer.BlockLandsExactly`,
  `ConcurrencyFixer.BlockCanLandBelowJobs`).
* `Rule.matches` is documented as a test of the named parts in their places; the code tests membership among all
  parts, and a job without a path narrows nothing. `Findings.SilencesMoreExactly` says for every key when the code
  silences more, `Findings.SilencesTooMuch` gives two rules that do. Two of the three rules shown as examples of the
  ignore file reach no finding at all (`Findings.PathNeverReachesLongTail`, `Findings.JobNeverReachesCancellation`).

## Model

| member | source | states |
|---|---|---|
| `Dag.Toposort` | src/cadence/dag.py:51-79 | An order is returned exactly when the in-graph edges have no cycle and no node lists an in-graph dependency twice; it is then the least topological order of the graph, in code-point order |
| `Dag.GreedyIsLeast` | src/cadence/dag.py:64-77 | The order popped from an always-sorted ready queue comes no later than any topological order when both are compared entry by entry |
| `Dag.GreedyIsTopological` | src/cadence/dag.py:68-79 | When every node was popped, the order is a permutation of the nodes with every in-graph dependency first, and no dependency was repeated |
| `Dag.LeastTopologicalOrderIsUnique` | src/cadence/dag.py:64-77 | There is only one least order, so the answer cannot depend on dictionary order |
| `Common.LessMeans` | src/cadence/dag.py:64-77 | The order of node names: one begins the other, or they first differ where it has the smaller code point |
| `Dag.StuckIsUnsortable` | src/cadence/dag.py:79 | When no node is ready but some are left over, the graph has a cycle or a repeated dependency |
| `Dag.RepeatedDependencyBlocksSorting` | src/cadence/dag.py:59-74 | A two-node acyclic graph that is not sortable because one dependency is listed twice |
| `Dag.ClosedSetHasCycle` | src/cadence/dag.py:52-57 | A set in which every node needs another member contains an actual cycle |
| `Dag.TopologicalIsAcyclic` | src/cadence/dag.py:52-57 | A graph with a topological order has no cycle of any length |
| `Dag.Sources` | src/cadence/dag.py:58-66 | The first queue is sorted and holds exactly the nodes that nothing in the graph holds back, once each |
| `Dag.Release` | src/cadence/dag.py:71-76 | After one pop, in whatever order the dictionary is walked, every list and counter agrees with Kahn's rule and the queue holds exactly the ready nodes, once each |
| `Dag.ReleaseNode` | src/cadence/dag.py:72-76 | One node's share of a pop: it joins the queue exactly when the pop made it ready |
| `Dag.RemoveFirst` | src/cadence/dag.py:73-74 | One occurrence goes, the count of in-graph entries falls by exactly one, everything else stays |
| `CriticalPath.ComputeCriticalPath` | src/cadence/dag.py:82-122 | A path is returned exactly for sortable, non-empty graphs; it is a real chain of exactly the reported weight with the source's tie-breaking; with non-negative timings every finish time is the greatest weight of a chain ending there and the total the greatest of all |
| `CriticalPath.FinishTimes` | src/cadence/dag.py:95-109 | Every node finishes its own weight after its first slowest in-graph dependency, or at its weight when it has none |
| `CriticalPath.WalkBack` | src/cadence/dag.py:114-120 | The predecessor walk terminates and yields a linked chain from a node without dependencies to the end, of weight equal to the end's finish time |
| `CriticalPath.ChainBound` | src/cadence/dag.py:85-90 | No chain of jobs that wait for one another outweighs the finish time of the node it ends at |
| `CriticalPath.PathIsOptimal` | src/cadence/dag.py:82-122 | Settled finish times are attained and optimal over all chains |
| `CriticalPath.WalkFrom` | src/cadence/dag.py:95-120 | Every finish time is the weight of a chain that exists |
| `CriticalPath.FirstMax` | src/cadence/dag.py:101-114 | The first of the greatest entries is chosen, as Python's max does |
| `Replay.ReplayWithoutEdge` | src/cadence/simulate.py:70-82 | Both paths are critical paths of their graphs; a graph that can be analysed stays so; the saving is non-negative, zero for a non-edge, at most the finish of the edge's source, at most what follows it, hence at most half the total |
| `Replay.EdgeRemovalBound` | src/cadence/simulate.py:70-82 | Over all acyclic graphs, the total after removing one edge is at least the finish of its source, and the saving at most that finish |
| `Replay.HeaviestSplits` | src/cadence/simulate.py:79-82 | A chain either avoids the removed edge or falls into two pieces of the same joint weight that both survive |
| `Replay.ChainIsDistinct` | src/cadence/dag.py:52-57 | In an acyclic graph no chain visits a node twice, so it crosses an edge at most once |
| `Replay.WithoutEdgeNeeds` | src/cadence/simulate.py:80-81 | Stripping removes that one dependency, all its occurrences, and nothing else |
| `Replay.NoEdgeNoChange` | src/cadence/simulate.py:79-82 | Removing what is not an edge leaves the total unchanged |
| `Replay.ThinningStaysSortable` | src/cadence/dag.py:51-79 | Deleting any list entries from a sortable graph keeps it sortable |
| `Replay.ThinningMonotone` | src/cadence/simulate.py:98-102 | Deleting any edges never raises the critical path, never takes it below the theoretical floor when every timed job is a node, and meets the floor when no edge is left |
| `Replay.TheoreticalFloor` | src/cadence/dag.py:125-133 | The slowest single job, zero when nothing was observed |
| `Savings.ReplayEdgeRemovalSavings` | src/cadence/simulate.py:85-115 | The summary is the median over one saving per analysable run, zero savings kept, and absent exactly when no run could be analysed |
| `Savings.ReplayOne` | src/cadence/simulate.py:99-102 | A run is skipped exactly when its graph is unsortable or empty; otherwise its delta is what the replay saved, and the clamp is idle for non-negative timings |
| `Savings.QuotedSavingIsModest` | src/cadence/simulate.py:104-115 | No quoted saving is negative or exceeds half of the slowest replayed run |
| `Savings.MedianSplits` | src/cadence/simulate.py:107 | At least half of the sample lies on each side of the quoted figure |
| `Savings.MedianOfOrdered` | src/cadence/simulate.py:107 | For the sample in ascending order, the quoted figure is the middle entry, or halfway between the two middle ones |
| `Savings.DeltaBounds` | src/cadence/simulate.py:97-102 | Every delta of the sample lies between zero and half the bound on the replayed totals |
| `Superseded.FindSupersededRuns` | src/cadence/simulate.py:125-159 | The loops report the sweep of every ref's runs, sorted stably by start, refs in first-seen order |
| `Superseded.SweepRef` | src/cadence/simulate.py:145-158 | The double loop with its breaks is the sweep |
| `Superseded.GroupByRef` | src/cadence/simulate.py:137-141 | Every usable row lands in its own ref's list, in arrival order; incomplete rows land nowhere |
| `Superseded.SortOrders` | src/cadence/simulate.py:145 | Sorting orders by start and keeps exactly the same rows |
| `Superseded.SortIsStable` | src/cadence/simulate.py:145 | Rows that start together keep their arrival order |
| `Superseded.SweepIsExactReplay` | src/cadence/simulate.py:130-136 | On one ref, with rows unsorted as they arrive, the reported waste is exactly what the runs lose when each ends at its completion or at the earliest start that follows it, ties in start broken by arrival |
| `Superseded.ReportIsExactReplay` | src/cadence/simulate.py:125-159 | Over all rows in any order of arrival, total duration minus reported waste is exactly the time run when each run stops at the first start that follows it on its ref |
| `Superseded.StopIsEarliest` | src/cadence/simulate.py:133-136 | A run stops at its completion or at the earliest following start, whichever is first, and never before its own start when it completes after it |
| `Superseded.GroupsPartition` | src/cadence/simulate.py:137-141 | The refs' lists together hold exactly the usable rows, each as often as it arrived: none is lost or listed under two refs |
| `Superseded.GroupAppend` | src/cadence/simulate.py:134-141 | A row changes its own ref's list and no other |
| `Superseded.SweepReports` | src/cadence/simulate.py:125-159 | Over the whole repository: each report charges one row, names the run that stops it, with waste above zero and at most the row's duration; no row is charged twice; every row that cancellation would cut short is reported |
| `Superseded.SortingExists` | src/cadence/simulate.py:145 | The sort places every row of the ref once, each followed, by start and then by arrival, by those behind it |
| `Superseded.ReplayCancellationSavings` | src/cadence/simulate.py:162-183 | The figure times the number of runs is the total waste; absent exactly when there is no waste to report or no run |
| `Superseded.CancellationSavings` | src/cadence/simulate.py:125-183 | From rows to the quoted figure: times the number of runs it is what ran minus what would have run under cancellation |
| `Spans.AggregateSpans` | src/cadence/dag.py:136-194 | A node appears exactly when a start and a completion were observed; queue and exec are the clamped spans between its extremes, the leg count and the flag are exact |
| `Spans.SpanOf` | src/cadence/dag.py:163-193 | The same for one node's entries |
| `Spans.SpanMeans` | src/cadence/dag.py:164-192 | A node's span in its rows' own columns: least start to greatest completion, queue from the least creation or zero without one, flag for a leg that starts before its creation |
| `Spans.AggregateIgnoresOrder` | src/cadence/dag.py:136-194 | Permuted rows aggregate to the same timings |
| `Spans.SpansAreNonNegative` | src/cadence/dag.py:189-190 | The clamps establish the premise of the path theorems |
| `Spans.ClampIsAnnounced` | src/cadence/dag.py:169-186 | When one of the earliest starters carries a creation time, a negative raw queue always sets the flag |
| `Spans.ClampIsSilentExactly` | src/cadence/dag.py:170-186 | A negative raw queue goes unflagged if and only if no leg of the node starts before its own creation; then no earliest starter has a creation time |
| `Spans.AddsUpExactly` | src/cadence/dag.py:148-192 | Queue and exec sum to last completion minus first creation if and only if neither clamp fires; an unflagged node with a creation time on an earliest starter and a completion not before the start adds up |
| `Spans.ClampCanBeSilent` | src/cadence/dag.py:170-189 | Two rows and their span, whose negative raw queue is clamped without a flag because the earliest starter has no creation time |
| `Spans.AggregateLegs` | src/cadence/dag.py:197-214 | A node takes its first slowest leg and counts all of them |
| `Spans.LegJoins` | src/cadence/dag.py:205-213 | One more leg keeps that description true of its own node and of every other |
| `Queue.JobQueue.Enqueue` | src/cadence/queue.py:18-27 | A new pending row without attempts under a new id, due at the given time or now; nothing else changes |
| `Queue.JobQueue.ClaimNext` | src/cadence/queue.py:36-59 | The earliest row that is due, or has been processing for more than fifteen minutes, becomes processing now, all else kept; none is claimed only when there is none |
| `Queue.JobQueue.Complete` | src/cadence/queue.py:62-65 | An unconditional update by id: done now, work, attempts and due time kept |
| `Queue.JobQueue.Fail` | src/cadence/queue.py:68-83 | An unconditional update by id: one more attempt, pending until the delay has passed or else failed, work kept |
| `Queue.ClaimableMeans` | src/cadence/queue.py:47-58 | No row is claimed before it is due or while a claim on it is younger than the lease; in-flight rows are due or under such a claim |
| `Queue.JobQueue.PendingOrProcessingCount` | src/cadence/queue.py:86-105 | Exactly the rows that are due or under a live lease |
| `Queue.DrainedMeansOnlyFutureWork` | src/cadence/worker.py:148-155 | When nothing is claimable and the count is zero, every live row is pending for a later time |
| `Worker.ClaimJob` | src/cadence/worker.py:144-146 | The claiming transaction is a claim step of the system; it returns nothing only when no claim step exists |
| `Worker.ScheduleNextPoll` | src/cadence/worker.py:61-72 | The scheduling transaction is a schedule step: a follow-up is added exactly when the repository has no pending poll |
| `Worker.WriteOutcome` | src/cadence/worker.py:163-216 | The outcome branches are a write step of the system |
| `Worker.WriteLeaves` | src/cadence/worker.py:168-216 | A success is done with its attempts kept; every other outcome counts one attempt, and waits for its delay when fewer than five were read, or has failed |
| `Worker.ClaimWrites` | src/cadence/queue.py:45-56 | A claim step changes status and time of a due or expired row, and the loop remembers the attempts it read |
| `Worker.ScheduleAdds` | src/cadence/worker.py:61-72 | The follow-up is a fresh pending poll of the same repository, due in half an hour, and is added only when none is pending |
| `Worker.EnqueueAdds` | src/cadence/queue.py:18-27 | An enqueue by anybody adds one fresh row and changes nothing else |
| `Worker.FailedScheduleRetries` | src/cadence/worker.py:207-212 | A scheduling transaction that fails turns the dispatch into a retry after a minute |
| `Worker.NothingElseIsAssumed` | src/cadence/worker.py:24-41 | Which steps are possible: crashes and enqueues always, time within ten minutes of a claim and five of a dispatch's end, a poll's end once its follow-up was tried |
| `Worker.InvHolds` | src/cadence/worker.py:141-216 | Every step keeps the invariant: a busy loop owns its processing row alone, inside the lease, with the attempt count it read |
| `Worker.OwnedIsNotClaimable` | src/cadence/worker.py:38-41 | The lease test never selects a row that a live loop holds, because the timeout stays below the lease |
| `Worker.MutualExclusion` | src/cadence/worker.py:38-41 | In every reachable state, over all interleavings of loops, crashes and ticks, no job is dispatched by two loops |
| `Worker.RetryBound` | src/cadence/worker.py:181-212 | In every reachable state live rows have at most MAX_ATTEMPTS attempts and all rows at most one more |
| `Worker.AttemptsCountFailures` | src/cadence/queue.py:73-83 | Over any stretch of any run a row's attempts grow by exactly the number of writes on it that were no success |
| `Worker.FailuresAreBounded` | src/cadence/worker.py:181-212 | A row enqueued without attempts sees at most six failing writes, and has failed after six |
| `Worker.FinishedRowsAreFrozen` | src/cadence/queue.py:62-83 | No step changes a done or failed row, although the updates are unconditional |
| `Worker.FinishedForever` | src/cadence/queue.py:62-83 | The same over any stretch of any run |
| `Worker.ContinuesHolds` | src/cadence/worker.py:52-58 | Every step that is not an abandonment keeps a poll whose follow-up is still ahead of it |
| `Worker.PollContinuity` | src/cadence/worker.py:44-72 | Over any run without abandonment, a polled repository stays polled through success, retry, terminal failure, timeout and crash |
| `Worker.ScheduledPollsContinue` | src/cadence/worker.py:44-72 | Over any run in which every scheduling transaction succeeds, a repository that is polled once is polled ever after |
| `Worker.PollingStopsOnlyByAbandonment` | src/cadence/worker.py:44-72 | In every run in which no poll of the repository was abandoned before, a step ends its polling if and only if it abandons the only live poll |
| `Worker.LostPollWasAbandoned` | src/cadence/worker.py:44-72 | In every run, a repository that was polled and no longer is had a poll abandoned at some step before |
| `Worker.PollingCanEndAfterAbandonment` | src/cadence/worker.py:61-72 | An eight-step run of two polls in which one is abandoned and polling ends later, when the other succeeds, having scheduled nothing because the first was pending |
| `Worker.PollCanBeAbandoned` | src/cadence/worker.py:207-212 | A three-step run in which the scheduling transaction fails on the last attempt and polling ends |
| `Worker.PollsDoNotFanOut` | src/cadence/worker.py:68-71 | Crash-free and self-scheduled, W loops never leave a repository with more than W + 1 live polls |
| `Ingest.InvHolds` | src/cadence/ingest.py:216-326 | Every step of every pass, webhook or death keeps: a stored or sent ETag belongs to a finished pass whose run rows are durable, with their jobs and steps when that pass fetches jobs |
| `Ingest.CursorSafety` | src/cadence/ingest.py:254-323 | In every run whose passes all fetch jobs, at every state, the window of every finished pass is durable: rows, jobs and steps, all attempts included, save runs whose non-rate-limit error was swallowed; and a stored ETag is the ETag of a finished pass |
| `Ingest.FinishedIsSafe` | src/cadence/ingest.py:272-323 | Whatever flags passes were started with, every finished pass keeps its run rows durable, with their jobs and steps when it fetches jobs |
| `Ingest.CursorSource` | src/cadence/ingest.py:248-323 | Whatever flags passes were started with, a stored or sent ETag comes from a finished pass whose window is as durable as its flag asks |
| `Ingest.PassesFetchJobs` | src/cadence/ingest.py:216-225 | The flag a pass was started with is the flag it keeps |
| `Ingest.NotModifiedIsSafe` | src/cadence/ingest.py:255-258 | In every run, a pass that a 304 ended has its window as durable as it wants it, when any finished pass with that ETag fetched jobs if this one does and looked at least as far down the listing |
| `Ingest.CommitJobsIsOk` | src/cadence/ingest.py:303-323 | When all tasks were awaited, in any order, the second commit makes the whole window durable |
| `Ingest.DurableMeans` | src/cadence/ingest.py:307-310 | Durable means that every job of every fetched attempt is stored, and every step of each |
| `Ingest.NothingElseIsAssumed` | src/cadence/ingest.py:248-272 | Webhooks and deaths are always possible, pages are requested exactly while fewer runs than the limit were collected |
| `Ingest.TasksAreFree` | src/cadence/ingest.py:286-306 | A fetch may bring anything or fail either way, and exactly the settled tasks that did not hit a rate limit can be awaited |
| `Ingest.StepsCommit` | src/cadence/ingest.py:103-323 | Only the three commits of a pass and webhooks write: run rows, then jobs and steps, then the ETag when there is one |
| `Ingest.CoveredSurvives` | src/cadence/ingest.py:103-111 | No later step, whichever pass takes it, uncovers an ETag |
| `IngestPass.Repository.IngestRepo` | src/cadence/ingest.py:216-326 | The whole new state for every way a pass can end: a rate limit leaves only the run rows, an unchanged or raising page leaves nothing, completion leaves every fetched job and step, when jobs are fetched, and then the first page's ETag |
| `IngestPass.Repository.CollectPages` | src/cadence/ingest.py:245-272 | The window is the first `limit` runs of the pages; the ETag is the first page's |
| `IngestPass.GatherTakes` | src/cadence/ingest.py:245-272 | However a listing is cut into pages, the window is its first `limit` runs |
| `IngestPass.Repository.AbsorbAll` | src/cadence/ingest.py:303-318 | Whatever order tasks finish in, the jobs and steps written are all that were fetched, unless one task was rate-limited |
| `IngestPass.WholeWindowSafe` | src/cadence/ingest.py:321-323 | When what was fetched is written, every run of the window is durable or had its error swallowed |
| `IngestPass.TaskFetchesAll` | src/cadence/ingest.py:286-301 | A completed task holds the provider's answer for every attempt, in request order |
| `IngestRuns.PassIsARun` | src/cadence/ingest.py:216-326 | Whatever the provider answers, a pass is a run of the interleaving system that leaves the same rows behind and ends in the matching phase |
| `IngestRuns.NotModifiedExactly` | src/cadence/ingest.py:248-282 | After a pass with limit m stored the ETag, a 304 leaves the window of a pass with limit n durable as it wants it if and only if n is at most m or the listing no longer than m, and jobs were fetched if they are wanted and any run is listed |
| `IngestRuns.StoredWindow` | src/cadence/ingest.py:272-323 | What the first n runs of a listing find after its first m were stored, with jobs or without |
| `IngestRuns.MetadataOnlyPassHidesJobs` | src/cadence/ingest.py:280-282 | A nine-step run in which a pass without jobs stores the ETag and the next, which would fetch them, stops at a 304 with no job stored |
| `Upserts.RowStore.UpsertRun` | src/cadence/ingest.py:54-100 | The new row is the merge of old and incoming columns; other rows stay |
| `Upserts.RowStore.EnsureRunStub` | src/cadence/ingest.py:114-142 | A stub never changes an existing row |
| `Upserts.RowStore.UpsertJob` | src/cadence/ingest.py:145-190 | The new row is the merge of old and incoming columns; other rows stay |
| `Upserts.RunRemembers` | src/cadence/ingest.py:67-78 | Over any sequence of full events and stubs: the attempt is the greatest carried, a start time once carried is kept and is the latest carried, identity never changes |
| `Upserts.RunReports` | src/cadence/ingest.py:67-70 | Over any history the status, conclusion and update time are the last full event's |
| `Upserts.StubsReportNothing` | src/cadence/ingest.py:114-142 | While only stubs arrived, the row is what the first of them knew, without any outcome |
| `Upserts.RunKeepsTree` | src/cadence/ingest.py:76 | A tree, once carried by a full event, is kept, and is the latest carried |
| `Upserts.RunKeepsPull` | src/cadence/ingest.py:77-78 | A pull request, once carried by a full event, is kept, and is the latest carried |
| `Upserts.JobRemembers` | src/cadence/ingest.py:157-172 | Over any sequence of events: start time and labels are the latest non-empty ones, the outcome is the last event's |
| `Upserts.JobKeeps` | src/cadence/ingest.py:157-172 | Runner group and matrix are the latest carried, the conclusion is the last event's |
| `CacheState.StepsState` | src/cadence/detectors/cache.py:292-340 | The loop with its early returns and flags computes the walk that the theorems below are about |
| `CacheState.WalkSaysWhatStepsSay` | src/cadence/detectors/cache.py:301-340 | A list of steps is cached if and only if some step, given the last checkout ahead of it, is; otherwise disabled if some step is, otherwise unknown if some step is, otherwise uncached |
| `CacheState.JobSaysWhatStepsSay` | src/cadence/detectors/cache.py:267-289 | A job is cached when a step ahead of the install or behind it is, those behind finding the last checkout ahead; otherwise the steps ahead alone decide |
| `CacheState.SilentSteps` | src/cadence/detectors/cache.py:303-308 | A step that runs a command or checks out code says nothing |
| `CacheState.CachingActions` | src/cadence/detectors/cache.py:309-310 | The dedicated caching actions are cached |
| `CacheState.HarmlessActions` | src/cadence/detectors/cache.py:51-61 | The listed actions without caches say nothing |
| `CacheState.SetupRubySays` | src/cadence/detectors/cache.py:352-353 | setup-ruby is cached, disabled or unknown by its `bundler-cache` input, and uncached without one |
| `CacheState.SetupGoSays` | src/cadence/detectors/cache.py:354-359 | setup-go by major version and `cache`: none before 3, off by default in 3, on from 4, unknown without a version |
| `CacheState.SetupUvSays` | src/cadence/detectors/cache.py:360-387 | setup-uv by a refused restore where the version honours it, `enable-cache`, major version and, for its default from 5 on, the runner |
| `CacheState.SetupNodeSays` | src/cadence/detectors/cache.py:318-325 | setup-node caches when told to; else is disabled when opted out; else caches by itself from 5 on, after a checkout that may hold an npm project |
| `CacheState.OtherSetupsSay` | src/cadence/detectors/cache.py:318-319 | The remaining setup actions cache exactly when `cache` is given |
| `CacheState.OtherActionsSay` | src/cadence/detectors/cache.py:328-337 | Any other action is unknown when it was not read or is nested too deep, uncached when it is no composite, and else says what its steps say |
| `CacheState.WalkSettles` | src/cadence/detectors/cache.py:292-340 | Extending the index never changes `cached` or `uncached`, and changes `disabled` only to `cached` |
| `CacheState.StepSettles` | src/cadence/detectors/cache.py:301-337 | The same for one step read through composites |
| `CacheState.DoubtOrDisabled` | src/cadence/detectors/cache.py:336-340 | Once something was unreadable or switched off, the verdict is never `uncached` |
| `CacheState.JobStateSettles` | src/cadence/detectors/cache.py:267-289 | A job's `cached` is stable; its `uncached` moves if and only if a cache behind the install becomes readable |
| `CacheState.UncachedCanTurnCached` | src/cadence/detectors/cache.py:283-289 | A job and an index for which it does |
| `CacheState.ActionIsVersionIndependent` | src/cadence/workflow.py:43-48 | An action's identity does not depend on the reference it is pinned to |
| `Actions.ResolveActions` | src/cadence/actions.py:103-134 | The search stops exactly when nothing is queued or the budget is spent, also on cyclic composites; every lookup is of a readable, unmodelled action within three levels of the uses, those that did not fail are the index, with what the provider says; when nothing is queued, everything a walk can ask for was read or had a failed lookup on its way |
| `Actions.ResolverKnowsEnough` | src/cadence/actions.py:118-134 | The bounded index gives the same verdict, for the steps ahead of the install, as any fuller truthful index |
| `Actions.WalkKnown` | src/cadence/detectors/cache.py:292-340 | A walk whose reachable actions were read, to the depth it can look, cannot be changed by reading more |
| `Actions.DrainedCovers` | src/cadence/actions.py:118-134 | When the queue is empty, everything a walk can ask for was read, because it was read at least as shallow as it is needed |
| `Actions.ReadKeepsProgress` | src/cadence/actions.py:121-133 | Reading an action and queueing its children keeps every obligation read or queued |
| `Actions.LayersAdvance` | src/cadence/actions.py:131-133 | The queue stays ordered by depth and spans one level, so the first visit is the shallowest |
| `Findings.FindingStore.PersistFindings` | src/cadence/findings.py:26-133 | The ledger after all drafts; the three counts sum to the number of drafts, the new ones are the rows added, the regressed ones the drafts whose key stood resolved or regressed before |
| `Findings.FindingStore.ResolveMissing` | src/cadence/findings.py:136-160 | Exactly the repository's open, undrafted rows become resolved; the count is of rows changed |
| `Findings.FindingStore.RunAudit` | src/cadence/audit.py:420-446 | Persist, then resolve; an audit without drafts or without persistence writes nothing |
| `Findings.FindingStore.Apply` | src/cadence/suppress.py:158-194 | Row by row: rows of other repositories, suppressed rows and rows no rule matches are unchanged, any other row records scope, reason and source of the first matching rule and keeps all else; one blank reason rejects the whole transaction; the count is of rows changed |
| `Findings.FindingStore.SuppressOne` | src/cadence/suppress.py:197-222 | A blank reason is rejected, a missing row is reported, the reason is stored stripped |
| `Text.StripCuts` | src/cadence/suppress.py:204-216 | Stripping takes whitespace only, all of it, from both ends |
| `Text.LStripMeans` | src/cadence/fixers/concurrency.py:228 | What is left of the left end is what follows the whitespace there |
| `Text.SpacesAreThese` | src/cadence/suppress.py:204 | Whitespace is the control characters that break or separate, and the Unicode blanks |
| `Findings.FindingStore.UnsuppressOne` | src/cadence/suppress.py:225-242 | A suppressed row returns to new with its record cleared; any other row is untouched |
| `Findings.PersistInClosedForm` | src/cadence/findings.py:37-130 | The row a key ends with depends only on its old row and its last draft, however often the key was drafted |
| `Findings.AuditInClosedForm` | src/cadence/audit.py:439-445 | The same for persist followed by resolve |
| `Findings.AuditLeaves` | src/cadence/findings.py:37-130 | Column by column, what an audit leaves of a drafted row: identity, first sight and silence kept, evidence and saving of the last draft, resolved turned into regressed; a new row has the kind of the first draft |
| `Findings.AuditLeavesOthers` | src/cadence/findings.py:136-160 | And of any other row: open rows of the repository become resolved, all else stays |
| `Findings.OpenIsDrafted` | src/cadence/audit.py:439-445 | After an audit with drafts the open findings are exactly the drafted keys that were not suppressed |
| `Findings.StepIsLawful` | src/cadence/suppress.py:225-242 | Rows never vanish; only un-suppressing that row leaves `suppressed`; `regressed` is entered only from `resolved` by an audit that drafted the key |
| `Findings.NewRowsAreNew` | src/cadence/findings.py:53-80 | Rows are created only by audits, as new |
| `Findings.SoundHolds` | src/cadence/db/migrations/006_suppression.sql:16-25 | No operation leaves a finding without evidence or a suppression without a reason |
| `Findings.HistoryIsSound` | src/cadence/db/migrations/001_initial.sql:7-9 | Over any sequence of audits, rules and suppressions, every finding keeps evidence and every suppression its reason |
| `Findings.SuppressionStands` | src/cadence/findings.py:139-143 | A suppression stands through any number of audits and rules until that finding is un-suppressed |
| `Findings.RegressedWasResolved` | src/cadence/findings.py:82-90 | A regressed finding was once resolved and drafted again from there |
| `Findings.RuleMatchesParts` | src/cadence/suppress.py:64-78 | On a key built from any number of parts, a rule tests membership of its path and job among them; without a path it silences every finding of its kind |
| `Findings.SilencesMoreExactly` | src/cadence/suppress.py:64-78 | For every key, the code silences what the documented test does, and more if and only if a named part stands in some slot but not in its own while all named parts occur, or a job is named without a path and is not in its slot |
| `Findings.FirstMatchMeans` | src/cadence/suppress.py:175-177 | The rule applied is the one at the least matching index |
| `Findings.DocumentedIsPrefix` | src/cadence/suppress.py:67-69 | On keys that begin with their kind, for rules without a gap, the documented test is that the named parts are a prefix of the key |
| `Findings.SilencesTooMuch` | src/cadence/suppress.py:64-78 | A path and a key, and a job and a key, that match although the part stands elsewhere or nowhere |
| `Findings.PathNeverReachesLongTail` | src/cadence/suppress.py:91 | A rule with a workflow path silences no long-tail finding, since its key names a job and a step |
| `Findings.JobNeverReachesCancellation` | src/cadence/suppress.py:92 | A rule with a job silences no cancellation finding, since its key ends with the path |
| `Lines.SplitJoin` | src/cadence/fixers/concurrency.py:107-110 | Splitting joined lines on the newline gives the lines back when none contains it |
| `Lines.JoinSplit` | src/cadence/fixers/concurrency.py:106-110 | Joining what was split restores the text |
| `Lines.SplitLinesConcat` | src/cadence/fixers/concurrency.py:208-218 | Text ending in a line feed can be cut there without changing its lines |
| `Lines.SplitLinesJoin` | src/cadence/fixers/concurrency.py:107-218 | When the newline is the only line break, both ways of cutting agree but for a final empty piece |
| `Lines.PiecesLines` | src/cadence/fixers/concurrency.py:107-218 | Text cut into pieces has one line a piece and one more for every line break the pieces contain |
| `ConcurrencyFixer.PlanInsertion` | src/cadence/fixers/concurrency.py:216-238 | The loops compute the plan the theorems below are about, with both refusals |
| `ConcurrencyFixer.PlanMeans` | src/cadence/fixers/concurrency.py:218-223 | There is a plan exactly when one line is a `jobs:` line, and the first refusal exactly when none is |
| `ConcurrencyFixer.JobsLineMeans` | src/cadence/fixers/concurrency.py:69 | A `jobs:` line holds only blanks and a comment behind the key |
| `ConcurrencyFixer.AttachedMeans` | src/cadence/fixers/concurrency.py:228 | An attached comment is the comment sign behind blanks of which the first is no space |
| `ConcurrencyFixer.TopLevelKeyMeans` | src/cadence/fixers/concurrency.py:208-210 | A top-level key is declared when some line starts with it and a colon follows after blanks at most |
| `ConcurrencyFixer.BlockSays` | src/cadence/fixers/concurrency.py:231-237 | The four lines put in: the key, a group per workflow and ref, literal cancellation, an empty line |
| `ConcurrencyFixer.MeasureIndent` | src/cadence/fixers/concurrency.py:241-254 | The loop measures the first substantial line below `jobs:` |
| `ConcurrencyFixer.IndentMeans` | src/cadence/fixers/concurrency.py:249-254 | The indent is the spaces of the first line below that is neither blank nor a comment, if one to eight, else two |
| `ConcurrencyFixer.MeasurableMeans` | src/cadence/fixers/concurrency.py:250-251 | A line tells the indent when its first character behind the blanks exists and opens no comment |
| `ConcurrencyFixer.EditIsPureInsertion` | src/cadence/fixers/concurrency.py:106-110 | Splitting the result finds the original lines with the block between them; dropping the block restores the file |
| `ConcurrencyFixer.NeverTouchesOtherLines` | src/cadence/fixers/concurrency.py:264-271 | The first verification check never rejects, for any file and any finding |
| `ConcurrencyFixer.BlockLandsExactly` | src/cadence/fixers/concurrency.py:107-110 | For every file, the block lands right below as many lines as the insertion point plus the line breaks hidden in the pieces above it; in the edited file the `jobs:` line, and at most its attached comments, follows the block if and only if those breaks are no more than these comments |
| `ConcurrencyFixer.OwnPieceExactly` | src/cadence/fixers/concurrency.py:225-229 | When the `jobs:` line is a piece of its own, the block goes in at or above it if and only if the breaks hidden before it are no more than the comments attached to it |
| `ConcurrencyFixer.BlockSitsOnJobs` | src/cadence/fixers/concurrency.py:225-229 | When the chosen newline is the only line break, just comment lines separate the block from the single `jobs:` line |
| `ConcurrencyFixer.BlockCanLandBelowJobs` | src/cadence/fixers/concurrency.py:84-130 | A workflow with comment lines between carriage returns for which the preview proposes the file followed by the block, below all of `jobs:` |
| `ConcurrencyFixer.EditDeclaresConcurrency` | src/cadence/fixers/concurrency.py:208-210 | Every edit, wherever it lands, makes the top-level key visible to the check |
| `ConcurrencyFixer.SecondPreviewDeclines` | src/cadence/fixers/concurrency.py:91-96 | Whatever is asked about an accepted result, the answer is to decline |
| `ConcurrencyFixer.PreviewMeans` | src/cadence/fixers/concurrency.py:84-130 | An edit is proposed exactly for its own finding on a parsed workflow without concurrency that is not deploy-shaped, can be placed and passes the later checks; and then it is that edit |
| `StepIndex.IndexStepRows` | src/cadence/audit.py:241-279 | Each series is the in-order list of durations and run ids of exactly the timed rows with its key, where the resolved key comes from a direct lookup in the row's own workflow; a display name exists once seen, a resolved key once timed |
| `StepIndex.LookUpJob` | src/cadence/audit.py:265-269 | The memo answers what a direct call would |
| `StepIndex.WorkflowAtMeans` | src/cadence/audit.py:253 | A row's workflow is the last parsed one at its path, if any |
| `StepIndex.RowKeyMeans` | src/cadence/audit.py:265-273 | A row is indexed under the config job that its own name and base resolve to in its own workflow |
| `StepIndex.NameIndexGrows` | src/cadence/audit.py:255-263 | One row extends its own display-name series and no other |
| `StepIndex.JobIndexGrows` | src/cadence/audit.py:264-278 | One row extends its own resolved series and no other, or none |
| `StepIndex.ExactNameWins` | src/cadence/workflow.py:157-160 | A verbatim name resolves to its job under any order of jobs, whatever the stripped names collide with |
| `StepIndex.VerbatimResolves` | src/cadence/workflow.py:157-160 | The first job with the verbatim name is the answer, whatever else matches |
| `StepIndex.ClaimantResolves` | src/cadence/workflow.py:162-165 | When nobody has the verbatim name, the one job that claims the stripped name is the answer |
| `StepIndex.CallerIsNext` | src/cadence/workflow.py:167-176 | Failing both, the first job named, plainly or stripped, before the first separator of the verbatim name, else of the base |
| `StepIndex.EliminationIsLast` | src/cadence/workflow.py:178-184 | Failing all, the only job whose name is nothing but expressions, and none when there is not just one |
| `StepIndex.NamesOfJobs` | src/cadence/workflow.py:84-97 | A job answers to its key and to a literal name |
| `StepIndex.NamesOfTemplates` | src/cadence/workflow.py:92-96 | Of a template, the text between the expressions survives |
| `StepIndex.NamesOfExpressions` | src/cadence/workflow.py:71-81 | A name of expressions and blanks only leaves the key, and is dynamic |
| `StepIndex.SuffixIsStripped` | src/cadence/workflow.py:31 | A trailing parenthesis goes, with the blank before it |
| `StepIndex.OtherNamesStay` | src/cadence/workflow.py:187-194 | A name that does not end in a parenthesis stays as it is |
| `StepIndex.BareSuffixStays` | src/cadence/workflow.py:31 | A name that is only a parenthesis stays as it is |
| `StepIndex.TieDeclines` | src/cadence/workflow.py:162-165 | A tie on the stripped name, with no other evidence, resolves to nothing |

## Assumptions

* A live loop writes the outcome of a job less than `LEASE - JOB_TIMEOUT` after its dispatch ended, and a
  dispatch lasts at most `JOB_TIMEOUT`. Clock ticks are restricted accordingly; crashes are not.
* A transaction is one atomic step. `FOR UPDATE SKIP LOCKED` lets a step claim any eligible row.
* A poll's payload names its repository. Every other job schedules nothing when it ends.
* The path theorems need non-negative weights, which `Spans.SpansAreNonNegative` establishes.
* `Superseded`: the accounting identity holds for all rows; read as time, it needs runs that do not end before
  they start.
* `Actions`: a provider answers the same question the same way for the duration of one resolution.
* Job names in `StepIndex` contain no line breaks.

## Left out

- I/O: the GitHub client, the webhook receiver and its deduplication, the command line, reports and log storage; the provider is a function or a nondeterministic step.
- SQL text and locking; the error text, timestamps and display columns of rows; foreign keys; step rows under repeated upserts.
- YAML parsing, shell parsing and regular-expression engines: workflows are parsed values, versions, labels and name templates are tokens, and the few patterns that matter are written out as predicates.
- Rounding: durations are reals, not IEEE floats.
- The cache fixer, cache projections, calibration, dollar figures and billing, the other detectors and triggers: thresholds, single sums or library behaviour.
- The deploy-shape test of the concurrency fixer and its checks on the re-parsed result: parameters of the model.
- The parsers of ignore files and inline comments: rules are given.
- A detector that fails during an audit, and the sort of drafts by saving: drafts are given in the order in which they are persisted.
- Event-order independence of a row's status and completion: it does not hold, since a late event overwrites them; `Upserts.JobRemembers` says so.
- Permutation invariance of the superseded sweep when two runs on one ref start together: total waste can depend on arrival order there.
- IngestRuns.NotModifiedExactly: compares two passes in a row on rows the store did not have; rows that webhooks or other passes bring in the meantime only add to what is durable.
- Worker.PollsDoNotFanOut: counts polls a repository schedules for itself; polls enqueued from outside or left by a crash come on top.
- Actions.ResolveActions: makes no completeness claim when lookups run out or one of them fails; such actions stay unknown.
- Ingest.CursorSafety: covers rows, not their column values; a later event may overwrite columns.
