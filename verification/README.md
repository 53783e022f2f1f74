# Scheduling kernel of the crawler, modelled and proved in Dafny

The crawler hands out URLs to workers, remembers what it has handed out across crashes, and keeps
its distance from the sites it visits. This project models that kernel and proves what it promises
for every input, every interleaving and every run. It is organised by component:

- **Journal frontier.** `Requests`, `JournalRecords`, `JournalValidation`, `Recovery`,
  `FrontierState`, `LeaseManager`, `JournalQueue`, `JournalText` and `JournalBackend` follow the
  source files of the same purpose; `Unicode` is the UTF-8 the journal file is written in and read
  with, and `JournalPrinter` shows that a printer as `JournalText` assumes it exists.
  `FrontierProtocol` is the transition system of the live process: every await of an enqueue or of a
  change of lease is a point where other steps, or a crash, can come in between. `FrontierView` is the meeting point of the three readings of one protocol (live
  objects, recovery fold, validator fold); `FrontierTheorems`, `FrontierFencing` and
  `FrontierDurations` (how long a lease keeps its request) hold the results and `FrontierRuns` two
  complete runs that show its surprises. The calls of `JournalBackend.JournalFrontierBackend`
  are proved to be runs of that transition system.
- **SQLite frontier.** `SqliteTable` is the table with each statement as one atomic change,
  `SqliteFrontier` the scan by heads of origins, `SqliteLeases` fencing and the length of leases over
  runs, `TwoBackends` the equivalence with the in-memory queue.
- **Workers.** `WorkerPool` is the pool over the frontier, `PoolProgress` how it gets done;
  `Coordinator` is the permit table shared by processes, `PermitLifetimes` what grants a permit, what
  ends it and how long it lasts.
- **Politeness.** `Throttle` (adaptive delay), `Politeness` (the controller), `PolitenessTheorems` (its
  runs, with real arithmetic), `OriginPacing` (what one origin is promised, in the terms of the
  configuration).
- **Admission.** `Mutex`, `PathPatterns`, `Admission` and `AdmissionTheorems`; `UrlKeys` and `QuotaLaws`
  say which URLs are counted together.
- **Smaller parts.** `Candidates` with `CssCandidates` and `JavascriptCandidates`; `RobotsText`, `Robots`
  and `RobotsLaws` (the rules in the terms of RFC 9309); `Fetcher`; `Events` and `EventLaws`;
  `RunControl` and `RunLaws`.

`Prelude` holds the insertion-ordered map and the stable sort of JavaScript, `Runs` the runs of a
machine whose steps may be refused.

## Reading the model

- Code that changes fields is a class whose methods are proved against functions on the same state;
  statements about runs are lemmas about those functions. A machine step is a function to an option,
  none where the call throws or cannot be made.
- Hashes (`makeId`, SHA-256) are free constructors: injective, and nothing else is known of them.
  The lease id is made of request id and milliseconds, as in the code. The permit id is made of the
  joined text of origin and worker, so two pairs that join to one text share an id, as in the code.
- Time is an integer, or a real number where rates are computed. Unless a lemma says otherwise it
  may not run backwards within a run.
- What the steps of a machine come to is stated once more without its functions: what a lease, a
  permit, a rate, a robots rule or a quota promises is said in terms of the inputs, with the numbers
  of the source written out.
- Whether a write succeeds, whether the frontier accepts, what a transport returns: parameters.

## What the code does where its documentation promises more

- Recovery returns an expired lease to the queue without a `released` record, and the validator
  refuses a second `leased` for an open lease. So a request abandoned in a crash and leased again
  makes the journal unloadable (`FrontierTheorems.AbandonedLeaseSpoilsJournal`, and from an empty frontier
  `FrontierRuns.AJournalThatCannotBeLoaded`), although
  docs/crawling.md calls abandoned work recoverable. A journal loads exactly when no such request
  has been leased again (`FrontierTheorems.JournalValidIffNoOrphanLeased`).
- The journal is reopened for appending without cutting a torn tail. After a crash at any byte and
  one more append it loads exactly when the cut fell on the end of a line
  (`JournalText.AppendAfterTearLoadsIffLineEnd`).
- docs/crawling.md says that terminal transitions reject stale leases, but a lease id is made of the
  request and a millisecond, so a lease that was given up can be honoured again. In every reachable
  state it can come back exactly when its millisecond is not over, its request is not finished, and
  no inherited lease keeps the request deferred beyond it (`FrontierFencing.HandleComesBackIff`; a
  run from the start is `FrontierRuns.AHandleThatComesBack`). Of the SQLite frontier the first two
  are the condition (`SqliteLeases.LeaseComesBackIff`, `SqliteLeases.SameMillisecondRevivesLease`).
- A permit for an origin whose row was deleted can be owned again exactly when its origin was free
  again at the instant it was acquired, which takes a delay of nothing
  (`Coordinator.PermitReturnsIff`, `Coordinator.WithoutDelayPermitReturns`).
- `normalizeRobotsValue` is not idempotent on every text (`RobotsText.StrayPercentIsNotIdempotent`)
  and does not distribute over every concatenation (`RobotsText.CutEscapeDoesNotDistribute`);
  `RobotsText.IdempotentIff` and `RobotsText.DistributesIff` say exactly when. Its flag for pattern
  syntax never changes the result.
- A robots rule is as specific as the octets it spells, except that a stray percent sign in front of
  two digits that were escaped or stood apart comes to count as an escape
  (`RobotsLaws.WeightCountsOctetsIff`, `RobotsLaws.StrayPercentWeighsLess`).
- A robots delay above the ceiling of the adapting delay is forgotten with the next success of its
  origin (`OriginPacing.SuccessForgetsRobotsDelay`; the exact condition is
  `OriginPacing.AnswerKeepsRobotsDelayIff`).
- The scan of at most 128 heads of origins leases what a scan of all ready rows would, whatever the
  origins accept, exactly when at most 128 origins are ready
  (`SqliteFrontier.HeadScanAlwaysExactIff`, `SqliteFrontier.OneOriginTooMany`). For given answers of
  the origins the condition is `SqliteFrontier.HeadScanExactIff`.

## Model

| member | source | states |
|---|---|---|
| JournalRecords.ChecksumCommitsToLog | src/frontier/journal-codec.ts:88-121 | two chained logs with the same last checksum are the same log |
| JournalRecords.ChainedIsWritten | src/frontier/journal-codec.ts:88-155 | a chained log is the one its entries determine |
| JournalValidation.ValidateJournal | src/frontier/journal-validation.ts:12-38 | the loop accepts exactly the logs whose sequence, chain and transitions are in order |
| JournalValidation.RejectedStaysRejected | src/frontier/journal-validation.ts:18-37 | what refuses a prefix refuses every continuation |
| JournalValidation.AcceptedIffNoLifeBreaks | src/frontier/journal-validation.ts:40-89 | the validator accepts exactly when every request, judged by its own records alone, goes through a legal life |
| Recovery.RecoverFrontier | src/frontier/recovery.ts:22-73 | both loops compute the fold of the log and its split into requests, pending, deferred and recovered leases |
| Recovery.PendingMembers | src/frontier/recovery.ts:59-69 | pending holds exactly the unfinished requests without an open lease that still runs |
| Recovery.DeferredMembers | src/frontier/recovery.ts:65-70 | deferred holds exactly the unfinished requests whose lease still runs, with its expiry |
| Recovery.FoldsAgree | src/frontier/recovery.ts:26-54 | on a log the validator accepts, both folds know the same requests, agree which are finished and which leases are open |
| FrontierProtocol.EnqueueFinishSettles | src/frontier/state.ts:43-47 | remembering and queueing a new request makes just that request known and free, wherever the sort puts it |
| FrontierState.FrontierState.TakeNext | src/frontier/state.ts:57-74 | after promotion the first acceptable request from the front, or from the back when depth-first, is removed; otherwise only the promotion happens |
| FrontierState.FrontierState.PromoteDeferred | src/frontier/state.ts:86-94 | the loop moves exactly the expired prefix to the queue and sorts |
| FrontierState.DeferredStaysSorted | src/frontier/state.ts:49-54 | every addition leaves the deferred list sorted by expiry |
| FrontierState.PromotionIsComplete | src/frontier/state.ts:86-95 | in the sorted list no expired lease is left behind |
| FrontierView.ApplyKeepsRecovery | src/frontier/recovery.ts:26-54 | a legal record moves the recovery fold and the live view alike |
| FrontierView.ApplyKeepsStages | src/frontier/journal-validation.ts:40-89 | a legal record moves the validator and the live view alike |
| FrontierView.RecoveryYieldsView | src/frontier/recovery.ts:55-72 | when fold and view agree, recovery at any later time returns what the view says |
| FrontierView.RecoveryKeepsOrder | src/frontier/recovery.ts:59-72 | recovery lists pending and deferred requests in the order of first enqueueing and counts the leases that had run out |
| FrontierView.RestartAgrees | src/frontier/backends/journal-backend.ts:71-83 | the view a restart begins with agrees with the log again |
| FrontierProtocol.AppendKeepsAgreement | src/frontier/journal.ts:140-154 | writing a legal record keeps chain, recovery and validator in step with the live view |
| FrontierProtocol.TransitionWriteStep | src/frontier/lease-manager.ts:46-54 | the invariant survives the moment when a change of lease is on disk but not yet in memory |
| FrontierProtocol.TransitionFinishStep | src/frontier/lease-manager.ts:55-57 | the invariant survives the update in memory that follows |
| FrontierProtocol.EnqueueWriteStep | src/frontier/enqueuer.ts:85-91 | the invariant survives the moment when an enqueue is on disk but not yet in the queue |
| FrontierProtocol.CrashStep | src/frontier/backends/journal-backend.ts:71-83 | a crash at any point followed by a resume re-establishes the invariant and knows the same requests |
| FrontierTheorems.StepKeepsInv | src/frontier/backends/journal-backend.ts:85-159 | every step of every operation, crashes included, keeps the invariant that ties live state, log and both folds |
| FrontierTheorems.CrashRefinement | src/frontier/recovery.ts:22-73 | in every run over any number of lives and at every point, recovering the log gives the live state with written records taken as done |
| FrontierTheorems.CrashRefinementOfObjects | src/frontier/recovery.ts:55-72 | the same in terms of queue, deferred list, active map and requests on their way between them |
| FrontierTheorems.JournalValidIffNoOrphanLeased | src/frontier/journal-validation.ts:66-70 | the log of any run validates exactly when no request whose lease a crash left open has been leased again |
| FrontierTheorems.OneLifeValidates | src/frontier/journal-validation.ts:12-89 | every log of a single process life validates |
| FrontierTheorems.WriteKeepsValidIffNotOrphan | src/frontier/journal-validation.ts:66-76 | a change of lease written to a valid log keeps it valid exactly when it is not a new lease of such a request |
| FrontierTheorems.EnqueueWriteKeepsValid | src/frontier/journal-validation.ts:44-54 | an enqueue never spoils a valid log |
| FrontierTheorems.ExpiredLeaseIsRequeuedSilently | src/frontier/recovery.ts:65-69 | an expired lease is back in the queue after a restart although the log still has it open |
| FrontierTheorems.AbandonedLeaseSpoilsJournal | src/frontier/journal-validation.ts:66-67 | whenever a process dies holding a lease that has run out by the next start, leasing the request again gives a log that no longer loads |
| FrontierTheorems.EachHasItsPlace | src/frontier/state.ts:39-95 | every known request is in exactly one of queue, deferred, in hand, coming back, leased, or finished |
| FrontierTheorems.OnePlaceOrFinished | src/frontier/lease-manager.ts:37-137 | the same over every run |
| FrontierTheorems.FinishedIsFinal | src/frontier/lease-manager.ts:117-137 | a finished request stays finished across all later steps and lives |
| FrontierTheorems.StaleLeasesAreRefused | src/frontier/lease-manager.ts:143-150 | a lease that is over is refused by every later renewal, release and completion |
| FrontierTheorems.EndedLeaseIsOver | src/frontier/lease-manager.ts:96-137 | release and completion end a lease once the clock has moved past its grant |
| FrontierTheorems.CrashEndsLeases | src/frontier/lease-manager.ts:12-17 | a crash ends every lease |
| FrontierTheorems.SameMillisecondRevivesLease | src/frontier/lease-manager.ts:39-45 | a run of lease, release and lease within one millisecond after which the released handle works |
| FrontierFencing.HandleComesBackIff | src/frontier/lease-manager.ts:37-150 | in every reachable state a refused handle of a known request that no change of lease is about is honoured by some later state exactly when its millisecond is not over, its request is unfinished and not deferred beyond it |
| FrontierFencing.StepKeepsRefused | src/frontier/lease-manager.ts:37-59 | no step but a new lease of the request in that very millisecond makes a refused handle honoured |
| FrontierFencing.ToHand | src/frontier/state.ts:57-95 | wherever an unfinished request is, a run of no time brings it to the point of being leased, unless an inherited lease still runs |
| FrontierDurations.LeaseDefersUntil | src/frontier/lease-manager.ts:39-77 | in every run, a request whose last record granted or prolonged a lease at some time is recovered as deferred until exactly the lease duration later, and as pending from then on |
| FrontierDurations.GrantIsDated | src/frontier/lease-manager.ts:39-54 | a grant writes the time, the lease id of request and time, and an expiry one lease duration later |
| FrontierDurations.RenewalIsDated | src/frontier/lease-manager.ts:61-73 | a renewal writes an expiry one lease duration from now |
| FrontierRuns.AJournalThatCannotBeLoaded | src/frontier/recovery.ts:65-69 | for every configuration and request, a run from the empty frontier with one crash after which no process can load the journal |
| FrontierRuns.AHandleThatComesBack | src/frontier/lease-manager.ts:39-45 | for every configuration and request, a run in which a released handle is refused and later honoured |
| JournalQueue.FrontierJournal.Load | src/frontier/journal.ts:39-55 | sequence and checksum continue the loaded log; nothing changes when it is refused |
| JournalQueue.FrontierJournal.Append | src/frontier/journal.ts:57-72 | refused while closing, otherwise queued behind all others |
| JournalQueue.FrontierJournal.Drain | src/frontier/journal.ts:102-126 | every pending append is settled in order, and the queue is empty afterwards |
| JournalQueue.FrontierJournal.AppendSerialized | src/frontier/journal.ts:140-154 | sequence and checksum advance only with a written record |
| JournalQueue.AppendsSettleInOrder | src/frontier/journal.ts:57-154 | in every interleaving appends settle at most once and in order, those resolved are exactly the new records, and the chain is intact |
| JournalQueue.EveryAppendSettles | src/frontier/journal.ts:102-126 | from every reachable state all pending appends can be settled, each resolved exactly when its record is written |
| JournalText.ParseRecords | src/frontier/journal.ts:174-198 | the loop parses line by line, forgives only a bad last line without newline, and throws otherwise |
| JournalText.PaddingIsIgnored | src/frontier/journal.ts:174-198 | padding around a record changes nothing and a blank line is passed over |
| Unicode.RoundTrip | src/frontier/journal.ts:44-49 | reading what was written gives it back |
| Unicode.DecodePrefix | src/frontier/journal.ts:44-49 | every prefix of the bytes of a text reads as a prefix of the text, with one replacement behind it when a character was cut |
| JournalText.TornLogParsesToPrefix | src/frontier/journal.ts:174-198 | every prefix of the bytes reads as the records whose lines survived, the last one possibly without its line feed |
| JournalText.TornLogStillValidates | src/frontier/journal.ts:44-50 | every prefix of the bytes of a valid log is read and validates |
| JournalText.AppendAfterTearReads | src/frontier/journal.ts:156-163 | after a cut at any byte and one more record the file is read as the survivors and that record when the cut fell on the end of a line, and not at all otherwise |
| JournalText.AppendAfterTearLoadsIffLineEnd | src/frontier/journal.ts:140-163 | when the record continues the chain of the survivors legally, the file is read and validates exactly when the cut fell on the end of a line |
| JournalPrinter.LawfulPrinterExists | src/frontier/journal.ts:148-148 | a printer exists that prints one line a record and of whose output no part, torn piece or run-on decodes |
| LeaseManager.FrontierLeaseManager.Lease | src/frontier/lease-manager.ts:37-59 | the lease is remembered exactly when its record was written |
| LeaseManager.FrontierLeaseManager.Renew | src/frontier/lease-manager.ts:61-77 | only the remembered lease is renewed, and only when the record was written |
| LeaseManager.FrontierLeaseManager.Release | src/frontier/lease-manager.ts:96-115 | only the remembered lease is given up, and only when the record was written |
| LeaseManager.FrontierLeaseManager.Finish | src/frontier/lease-manager.ts:117-137 | only the remembered lease is completed, and only when the record was written |
| JournalBackend.JournalFrontierBackend.Init | src/frontier/backends/journal-backend.ts:71-83 | a resuming process takes up exactly where the transition system restarts; one that does not resume knows nothing and goes on with the journal it found |
| JournalBackend.JournalFrontierBackend.Enqueue | src/frontier/enqueuer.ts:42-101 | known keys, depth and size are tested in that order; a new request is logged, then queued; the call is a run of the transition system |
| JournalBackend.JournalFrontierBackend.EnqueueMany | src/frontier/enqueuer.ts:32-40 | one input after the other as a run; the first record that cannot be written ends the call, what was enqueued before it stays |
| JournalBackend.JournalFrontierBackend.LeaseNext | src/frontier/backends/journal-backend.ts:95-109 | leases what takeNext selects; when the record cannot be written the request is queued again and its reservation returned; the call is a run |
| JournalBackend.JournalFrontierBackend.RenewLease | src/frontier/backends/journal-backend.ts:123-125 | the call is a run of the transition system and says whether it was honoured |
| JournalBackend.JournalFrontierBackend.Release | src/frontier/backends/journal-backend.ts:127-134 | the call is a run that ends with the request back in the queue |
| JournalBackend.JournalFrontierBackend.Mark | src/frontier/backends/journal-backend.ts:136-159 | the call is a run that ends with the request finished |
| JournalBackend.GrantRun | src/frontier/backends/journal-backend.ts:98-103 | an uninterrupted grant is four steps of the transition system |
| JournalBackend.RefusedGrantRun | src/frontier/backends/journal-backend.ts:104-108 | a grant whose record fails is a run that leaves the request queued |
| WorkerPool.ActKeepsInv | src/crawler/worker-pool.ts:40-93 | whatever any worker does, all that is neither queued nor leased is in the hands of a worker that has not left |
| WorkerPool.NoRequestLeftBehind | src/crawler/worker-pool.ts:31-55 | a pool that ends without failure or stop leaves every known request finished |
| PoolProgress.PoolCanEnd | src/crawler/worker-pool.ts:31-55 | a pool with nothing under way can serve all that is queued or deferred and end, without failure or stop, as long as one worker is there |
| PoolProgress.ServeOne | src/crawler/worker-pool.ts:40-93 | any request queued by now can be leased, finished and left behind by any worker that looks for one |
| PoolProgress.WorkerLeavesIff | src/crawler/worker-pool.ts:40-55 | a worker leaves exactly when it fails, is stopped, or finds nothing queued, deferred or leased |
| SqliteTable.OrderedUptoSorted | src/frontier/backends/sqlite-request-repository.ts:181-188 | the ready list is sorted by the ORDER BY of its order |
| SqliteTable.SortedIsUnique | src/frontier/backends/sqlite-request-repository.ts:181-188 | that order is total: its members determine the list |
| SqliteFrontier.SqliteFrontierBackend.LeaseNext | src/frontier/backends/sqlite-backend.ts:86-109 | expired leases are recovered, then the head scan decides which row is leased; nothing else changes |
| SqliteFrontier.SqliteFrontierBackend.ClaimRow | src/frontier/backends/sqlite-backend.ts:169-188 | a pending row is leased exactly when its origin accepts |
| SqliteFrontier.SqliteFrontierBackend.RenewLease | src/frontier/backends/sqlite-lease-repository.ts:27-38 | renewed exactly when the row is leased under this id |
| SqliteFrontier.SqliteFrontierBackend.ChangeState | src/frontier/backends/sqlite-lease-repository.ts:40-60 | released or finished exactly when the row is leased under this id |
| SqliteFrontier.HeadsSuffice | src/frontier/backends/sqlite-request-repository.ts:159-179 | scanning one head per origin leads to the row a scan of all ready rows leads to |
| SqliteFrontier.HeadScanExactIff | src/frontier/backends/sqlite-backend.ts:99-108 | with the limit of 128 it does so exactly when an acceptable head is within reach or nothing ready is acceptable; otherwise it finds nothing |
| SqliteFrontier.HeadScanAlwaysExactIff | src/frontier/backends/sqlite-backend.ts:99-108 | whatever the origins accept the two scans agree, exactly when at most 128 origins are ready |
| SqliteFrontier.AsManyHeadsAsOrigins | src/frontier/backends/sqlite-request-repository.ts:159-179 | there are as many heads as origins with a ready row |
| SqliteFrontier.OneOriginTooMany | src/frontier/backends/sqlite-backend.ts:99-108 | a table of 129 ready requests, one an origin, of which the scan misses the only one that can be leased |
| SqliteFrontier.HeadScanExactForFewOrigins | src/frontier/backends/sqlite-backend.ts:86-109 | with at most 128 origins ready it always does |
| SqliteLeases.RowsStay | src/frontier/backends/sqlite-request-repository.ts:56-58 | no statement moves a row or changes its request |
| SqliteLeases.StaleLeasesAreRefused | src/frontier/backends/sqlite-lease-repository.ts:27-60 | a lease that is over is refused by every later renewal and transition |
| SqliteLeases.EndedLeaseIsOver | src/frontier/backends/sqlite-lease-repository.ts:40-69 | completion, release and recovery after expiry end a lease once the clock has moved past its grant |
| SqliteLeases.LeaseComesBackIff | src/frontier/backends/sqlite-lease-repository.ts:13-60 | in every reachable state a refused lease of a known request is honoured by some later state exactly when its millisecond is not over and its request is unfinished |
| SqliteLeases.SameMillisecondRevivesLease | src/frontier/backends/sqlite-lease-repository.ts:40-60 | insert, claim, release and claim in one millisecond: the released lease is refused, then honoured |
| SqliteLeases.FinishedIsFinal | src/frontier/backends/sqlite-lease-repository.ts:13-69 | no statement changes a finished row |
| SqliteLeases.ClaimLasts | src/frontier/backends/sqlite-lease-repository.ts:13-69 | a lease claimed at some time for some duration, left alone by its holder, is honoured in every state before the end of that duration, and no claim takes its row |
| SqliteLeases.LeaseLasts | src/frontier/backends/sqlite-lease-repository.ts:13-69 | the same for any lease until the expiry its row shows |
| SqliteLeases.RenewalHolds | src/frontier/backends/sqlite-lease-repository.ts:27-38 | a renewal holds the row for its duration from now |
| SqliteLeases.RecoveryFrees | src/frontier/backends/sqlite-lease-repository.ts:62-69 | recovery at the expiry or later makes the row ready and refuses the lease |
| SqliteLeases.LeaseNextIsTwoActs | src/frontier/backends/sqlite-backend.ts:86-109 | what leaseNext does to the table is a recovery and a claim for the lease duration |
| SqliteLeases.ChangedRow | src/frontier/backends/sqlite-lease-repository.ts:40-60 | what release and completion leave in the row |
| TwoBackends.SortedPushIsInsertRow | src/frontier/queue-order.ts:31-42 | the stable re-sort after a push puts a new request where priority, depth and rowid put it |
| Requests.SourcesAreRanked | src/frontier/queue-order.ts:5-29 | seeds come before sitemaps, those before links, those before scripts, stylesheets and feeds, and last redirects, manual and hook requests |
| TwoBackends.MemoryTakeSelects | src/frontier/state.ts:57-74 | with everything acceptable, takeNext takes the end of the queue its order calls for |
| TwoBackends.AnswersAgree | src/frontier/state.ts:57-74 | for priority, bfs and dfs, and every run without release or expiry, both backends hand out the same requests |
| TwoBackends.BackendsAgreeFromEmpty | src/frontier/backends/sqlite-request-repository.ts:150-188 | the same from two empty frontiers |
| Throttle.SuccessStaysInBand | src/politeness/model.ts:35-41 | after a success the delay is a whole number within the configured band |
| Throttle.TargetIsShareOfLatency | src/politeness/model.ts:23-27 | inside the band the target times the wanted concurrency is the latency, outside it is the nearer end |
| Throttle.SuccessIsBlended | src/politeness/model.ts:35-41 | a success moves the delay towards the target by the share of smoothing, to the nearest millisecond, halves up |
| Throttle.FailureBacksOff | src/politeness/model.ts:28-34 | after a failure it is no shorter, at least the target, and doubled unless the ceiling is reached; no longer than that asks for; under the ceiling if it was |
| Throttle.SuccessContracts | src/politeness/model.ts:23-41 | a success shrinks the distance to any point near the target, up to rounding |
| Throttle.SuccessesConverge | src/politeness/model.ts:23-41 | n successes leave a geometric share of the starting distance, the spread of the targets, and 1/(2 smoothing) |
| Politeness.PolitenessController.TryReserve | src/politeness/index.ts:24-35 | refills, then grants exactly when concurrency, eligibility and tokens allow, taking one token and one place |
| PolitenessTheorems.ActiveIsOpen | src/politeness/index.ts:37-42 | in every run the active count of an origin is the number of its requests granted and neither given back nor answered, and within the limit |
| Politeness.PolitenessController.ApplyRobotsDelay | src/politeness/index.ts:44-67 | raises delay and next allowed time; the caller waits until that time |
| Politeness.PolitenessController.Release | src/politeness/index.ts:69-98 | accounts for the answer, adapts the delay and sets the next allowed time |
| Politeness.PolitenessController.NextEligibleAt | src/politeness/index.ts:100-109 | the loop returns the least eligibility among origins with room and refills just those |
| PolitenessTheorems.RunKeepsInv | src/politeness/index.ts:166-175 | tokens stay within 0 and the capacity and no origin has more open than allowed |
| PolitenessTheorems.GrantsArePaidFor | src/politeness/index.ts:24-35 | what a grant takes from the credit of an origin only time gives back |
| PolitenessTheorems.RateBound | src/politeness/index.ts:166-188 | limited to n a minute and m at once, an origin is granted at most m + n (t - s) / 60000 requests in any window of any run |
| PolitenessTheorems.EligibilityIsExact | src/politeness/index.ts:157-164 | left alone, a slot grants at exactly the times from its eligibility on |
| PolitenessTheorems.SleepIsExact | src/politeness/index.ts:100-121 | some known origin grants at exactly the times from nextEligibleAt on |
| PolitenessTheorems.QuestionsLeaveNoTrace | src/politeness/index.ts:24-31 | leaving refused reservations and polls out of a run changes no grant |
| PolitenessTheorems.ScanSeesFixedVerdicts | src/politeness/index.ts:24-35 | offering candidates in turn takes the first that would have been admitted before any was offered |
| OriginPacing.EmptyBucketRefills | src/politeness/index.ts:157-175 | an origin left alone with an empty bucket is granted a request exactly from 60000 / n milliseconds on |
| OriginPacing.BurstThenWait | src/politeness/index.ts:24-42 | a new origin can be granted m requests at one instant, and the next exactly from 60000 / n milliseconds later on |
| OriginPacing.GrantKeepsItsDistance | src/politeness/index.ts:81-88 | a grant follows any earlier answer of its origin by the configured delay and by 60000 / n milliseconds at least, whatever lies between |
| OriginPacing.RobotsDelayIsKept | src/politeness/index.ts:44-66 | no grant comes sooner than the robots delay after it was applied, until the next answer when the delay adapts, for good when it does not |
| OriginPacing.AnswerKeepsRobotsDelayIff | src/politeness/index.ts:44-88 | without a rate limit an answer leaves a robots delay in force exactly when one of the delays it sets reaches as far |
| OriginPacing.SuccessForgetsRobotsDelay | src/politeness/model.ts:35-41 | a robots delay above the ceiling of the adapting delay does not survive the next success |
| OriginPacing.DelayInForceIsKept | src/politeness/index.ts:81-88 | the same for the delay in force after an answer |
| OriginPacing.NoLongerThanItMust | src/politeness/index.ts:69-98 | without a rate limit an origin left alone is granted exactly from the later of both delays on |
| OriginPacing.FirstRequestAtOnce | src/politeness/index.ts:138-155 | a new origin is granted at once and starts with the configured delay |
| OriginPacing.AnswerAdaptsDelay | src/politeness/index.ts:69-80 | transport failures and statuses 429, 500, 502, 503, 504 count and lengthen the delay, other answers bring it into the band |
| Coordinator.SqliteWorkerCoordinator.AcquireOrigin | src/workers/coordinator.ts:115-167 | cleanup, verdict, insert and spacing in one transaction; a broken constraint changes nothing |
| Coordinator.SqliteWorkerCoordinator.RenewOrigin | src/workers/coordinator.ts:169-182 | renewed exactly when the row is there and belongs to the worker, expired or not |
| Coordinator.SqliteWorkerCoordinator.ReleaseOrigin | src/workers/coordinator.ts:184-190 | deletes at most that row |
| Coordinator.SqliteWorkerCoordinator.RecoverStale | src/workers/coordinator.ts:83-104 | exactly the late active workers become stale and lose their permits, and are counted |
| Coordinator.SqliteWorkerCoordinator.Stop | src/workers/coordinator.ts:67-81 | the status is set and all permits of the worker are deleted |
| Coordinator.PermitsStayWithinLimit | src/workers/coordinator.ts:115-182 | in every reachable state an origin has at most maxConcurrency rows, expired ones included, whatever the clocks show |
| Coordinator.GrantsAreSpaced | src/workers/coordinator.ts:125-164 | any two grants of an origin are at least the delay of the earlier one apart |
| Coordinator.LostPermitIsNeverRenewed | src/workers/coordinator.ts:169-190 | with a positive delay a permit whose row was deleted is refused by every later renewal |
| Coordinator.PermitReturnsIff | src/workers/coordinator.ts:125-164 | after any step that deletes the row of a permit, some continuation has the worker own it again exactly when its origin was free again at the instant it was acquired |
| Coordinator.PermitReturnsOnOneClockIff | src/workers/coordinator.ts:121-148 | when all processes go by one clock, the deletion must also fall in that very millisecond |
| Coordinator.WithoutDelayPermitReturns | src/workers/coordinator.ts:140-190 | register, acquire, release, acquire at one instant without a delay: granted, owned, lost, owned again |
| PermitLifetimes.GrantedIff | src/workers/coordinator.ts:125-148 | a permit is granted exactly when the origin is free, fewer than maxConcurrency of its permits run, the worker is registered and the id is not in use; what the permit says |
| PermitLifetimes.AcquireDropsTheExpired | src/workers/coordinator.ts:121-124 | an acquisition leaves running permits as they are and drops those that have run out, unless it is refused |
| PermitLifetimes.PermitEndsIff | src/workers/coordinator.ts:67-190 | a step takes a worker its permit exactly when it releases it, stops the worker, recovers it as stale, or acquires after the permit has run out |
| PermitLifetimes.PermitLasts | src/workers/coordinator.ts:67-190 | in every run of steps that spare it a permit is owned until it runs out |
| PermitLifetimes.GrantAndRenewalLast | src/workers/coordinator.ts:140-182 | it runs for the duration asked for from its grant and from each renewal |
| PermitLifetimes.HolderExcludesOthers | src/workers/coordinator.ts:125-139 | while it runs, nobody who allows one permit for the origin is granted another |
| PermitLifetimes.SecondGrantWaits | src/workers/coordinator.ts:125-164 | of two grants of one origin, whatever lies between, the second comes no sooner than the delay the first asked for |
| PermitLifetimes.RecoveryMarksTheStale | src/workers/coordinator.ts:83-104 | recovery marks exactly the active workers silent for longer than allowed |
| PermitLifetimes.HeartbeatProtects | src/workers/coordinator.ts:34-65 | a worker that shows itself is not stale for as long as it may be silent; one known before keeps its run and start |
| Mutex.OneAtATime | src/core/concurrency/mutex.ts:4-20 | at most one operation is under way in any run |
| Mutex.FirstComeFirstServed | src/core/concurrency/mutex.ts:9-14 | an operation can start exactly when all called before it are done |
| Mutex.NeverStuck | src/core/concurrency/mutex.ts:14-19 | while a call is not done, it or one called before it can start or finish |
| Mutex.EveryCallIsServed | src/core/concurrency/mutex.ts:4-20 | from every reachable state all calls up to any one of them can be brought to an end |
| PathPatterns.PatternIsFixed | src/url/path-pattern.ts:11-20 | a pattern is its own pattern |
| PathPatterns.DirectoryIsFixed | src/url/path-pattern.ts:7-10 | a directory is its own directory, leads its paths and leaves no slash behind it |
| PathPatterns.QueryOrderIsIgnored | src/url/path-pattern.ts:14-16 | permuting the query parameters changes no pattern |
| UrlKeys.SamePatternIff | src/url/path-pattern.ts:11-20 | two paths have one pattern exactly when they agree segment by segment, numbers counting as one and long segments as one |
| UrlKeys.DirectoryIs | src/url/path-pattern.ts:7-10 | the directory is what stands before the file name, slash included |
| UrlKeys.SameDirectoryIff | src/url/path-pattern.ts:7-10 | two paths have one directory exactly when they agree up to a last slash |
| UrlKeys.SameQueryIff | src/url/path-pattern.ts:14-16 | keys without ampersand make one pattern exactly when they are the same keys as often; no key counts as one empty key |
| UrlKeys.AmpersandIsTwoKeys | src/url/path-pattern.ts:14-16 | a key with an ampersand in it counts as two |
| Admission.TallyCounts | src/url/scope-policy.ts:108-115 | the maps count how often each key occurs |
| Admission.ScopePolicy.RestoreReservations | src/url/scope-policy.ts:95-117 | the loop counts the keys of all requests whose URL parses |
| Admission.ScopeReservation.Commit | src/url/scope-policy.ts:83-92 | writes the prepared counts once, however often it is called |
| Admission.RequestScheduler.RestoreAccounting | src/crawler/request-scheduler.ts:45-51 | all three maps are counted anew from the known requests |
| Admission.RequestScheduler.AdmitUrl | src/crawler/request-scheduler.ts:112-199 | checks in the order of the source, then books the request in frontier, counters and maps |
| AdmissionTheorems.AdmissionsAreSerial | src/crawler/request-scheduler.ts:73-90 | however admissions overlap at their awaits, the books are those of admitting one URL after the other in call order |
| AdmissionTheorems.LimitsAreNeverPassed | src/url/scope-policy.ts:58-93 | in every reachable state directories and patterns are within their limits and no URL is known twice |
| AdmissionTheorems.RestoringRebuildsTheMaps | src/crawler/request-scheduler.ts:45-51 | whenever no admission is past the frontier, restoring changes nothing |
| AdmissionTheorems.SeedsAndTotalsAreNeverPassed | src/crawler/request-scheduler.ts:201-215 | seeds, all scheduled requests and sitemap files stay within their limits in every reachable state |
| AdmissionTheorems.AdmittedIff | src/crawler/request-scheduler.ts:112-199 | a URL becomes known exactly when it is valid, new, in scope, accepted, and every quota has room by the requests known |
| QuotaLaws.SameDirectoryKeyIff | src/url/scope-policy.ts:58-93 | two URLs share a directory count exactly when scope, origin and directory are the same |
| QuotaLaws.SamePatternKeyIff | src/url/scope-policy.ts:58-93 | two URLs share a pattern count exactly when scope and origin are the same, the paths alike, and the query patterns equal |
| QuotaLaws.AdmittedByLikeness | src/crawler/request-scheduler.ts:112-199 | a URL becomes known exactly when it is valid, new, in scope, accepted, and fewer known requests than allowed share its seed, its directory, its shape |
| QuotaLaws.CountersCountTheKnown | src/crawler/request-scheduler.ts:201-215 | between admissions the counters have grown by the requests, and the sitemap files among them, that became known |
| Candidates.StreamHoldsTheBest | src/css/scanner.ts:65-89 | after any offers the set holds as many as fit, each the best for its URL and better than all left out |
| Candidates.StreamingEqualsBatch | src/css/scanner.ts:57-94 | what is kept, in descending order, is the beginning of the descending list of the best candidate per URL |
| Candidates.BestIsBest | src/css/scanner.ts:74-79 | the candidate of a URL was offered and nothing offered for it is better |
| Candidates.StreamYieldsBestList | src/css/scanner.ts:57-94 | the list kept is sorted, each entry the best offered for its URL, and a URL is missing only from a full list that is better throughout |
| CssCandidates.RankIsLawful | src/css/scanner.ts:274-279 | the comparison is a strict weak order, total on distinct URLs |
| CssCandidates.BetterComesFirst | src/css/scanner.ts:274-279 | a source map beats an import and that any URL; then the earlier offset; then the order of URLs |
| CssCandidates.CssCandidateSet.Add | src/css/scanner.ts:65-89 | one more offer, when the URL is clean |
| CssCandidates.CssCandidateSet.Values | src/css/scanner.ts:91-93 | the best of all offers, as many as fit, best first |
| JavascriptCandidates.RankIsLawful | src/javascript/candidates.ts:69-83 | the richer comparison is a strict weak order, total on distinct URLs |
| JavascriptCandidates.BetterComesFirst | src/javascript/candidates.ts:7-83 | calls beat source maps, those absolute literals, those relative ones; then confidence, then the earlier offset, a missing one last; then the order of URLs |
| JavascriptCandidates.JavascriptCandidateSet.Add | src/javascript/candidates.ts:30-60 | one more offer, when the URL is clean |
| JavascriptCandidates.JavascriptCandidateSet.Values | src/javascript/candidates.ts:62-66 | the best of all offers, as many as fit, best first |
| RobotsText.NormalizeRobotsValue | src/robots/matcher.ts:151-180 | the scanning loop computes the normal form |
| RobotsText.SyntaxIsPreservedAnyway | src/robots/matcher.ts:155-158 | the flag for pattern syntax makes no difference |
| RobotsText.FixedIffCanonical | src/robots/matcher.ts:151-180 | normalisation leaves exactly the canonical texts alone |
| RobotsText.IdempotentIff | src/robots/matcher.ts:159-169 | normalising twice is normalising once exactly when every stray percent sign is harmless |
| RobotsText.WellFormedIsClean | src/robots/matcher.ts:159-169 | so it is on well-formed percent-encoding |
| RobotsText.StrayPercentIsNotIdempotent | src/robots/matcher.ts:159-169 | it is not on %%341 |
| RobotsText.DistributesIff | src/robots/matcher.ts:151-180 | normalisation distributes over a concatenation exactly when no escape that changes runs across the seam |
| RobotsText.CutEscapeDoesNotDistribute | src/robots/matcher.ts:159-169 | it does not between %4 and 1 |
| RobotsText.WellFormedSeamHolds | src/robots/matcher.ts:151-180 | so it does after well-formed text |
| Robots.BestRule | src/robots/matcher.ts:99-119 | the loop returns an applying rule of greatest specificity, an allow on ties, none when none applies |
| Robots.VerdictIsDeclarative | src/robots/matcher.ts:99-119 | allowed exactly when every applying disallow is matched by an applying allow at least as specific |
| Robots.MatchingGroups | src/robots/matcher.ts:73-92 | the loop keeps the groups of the longest agent match, in order |
| Robots.BestLengthIsBest | src/robots/matcher.ts:78-89 | that length is reached and not exceeded |
| Robots.DecisionForPath | src/robots/matcher.ts:4-25 | the decision with the fallback modes, and the rule it names |
| Robots.LayoutDoesNotMatter | src/robots/matcher.ts:66-119 | the verdict depends only on which rules stand under which agents |
| Robots.SplittingGroups | src/robots/matcher.ts:66-92 | splitting a group under the same agents changes no verdict |
| Robots.SpellingDoesNotMatter | src/robots/matcher.ts:13-14 | spellings with one normal form, of path and of rules, get one verdict |
| Robots.LiteralsMatchPrefixes | src/robots/matcher.ts:121-128 | a pattern without stars matches the paths that begin with it, or equal it when anchored |
| Robots.TrailingStarSaysNothing | src/robots/matcher.ts:121-128 | a star at the end of an unanchored pattern changes nothing |
| RobotsLaws.WeightCountsOctetsIff | src/robots/matcher.ts:130-149 | a rule is as specific as the octets its pattern spells, stars and an end anchor counting nothing, exactly when no stray percent sign comes to start an escape; it is never more |
| RobotsLaws.StrayPercentWeighsLess | src/robots/matcher.ts:130-149 | %%34%41 spells three octets and weighs one |
| RobotsLaws.LongestPathDecides | src/robots/matcher.ts:99-119 | of literal rules that apply, the one that all others are a proper beginning of decides, whatever they say and in whatever order |
| RobotsLaws.AllButOneDirectory | src/robots/matcher.ts:4-25 | Allow: / with a Disallow of a directory, in either order, keeps out exactly what lies in it |
| RobotsLaws.EscapesAreSpelledOneWay | src/robots/matcher.ts:159-169 | an escape becomes the character when that needs none and is spelled in upper case otherwise, however it was spelled |
| RobotsLaws.WellFormedIff | src/robots/matcher.ts:159-169 | a text is well formed exactly when two digits stand behind every percent sign |
| RobotsLaws.LiteralPatterns | src/robots/matcher.ts:121-128 | a literal matches what begins with it, with a dollar sign behind it nothing but itself |
| RobotsLaws.StarMatches | src/robots/matcher.ts:121-128 | a star stands for any text without an end of line |
| RobotsLaws.GroupCountsIff | src/robots/matcher.ts:73-97 | a group counts exactly when one of its agents speaks of the crawler and no agent of any group that does is longer |
| Fetcher.HttpFetcher.Fetch | src/http/fetcher.ts:95-253 | nothing for what is no URL, else at most maxRedirects + 1 exchanges, no identity twice, contiguous hops, an outcome fixed by the last exchange, and every body disposed as often as obtained except the one returned |
| Fetcher.HttpFetcher.Handle | src/http/fetcher.ts:137-238 | one exchange with its finally clause: where it leads and what it disposes of |
| Fetcher.HttpFetcher.DisposeUntransferredBodies | src/http/fetcher.ts:373-380 | disposes of both bodies once, the same body not twice, a transferred one not at all |
| Fetcher.OnlyAllowedTargets | src/http/fetcher.ts:137-238 | beyond the first URL only what a 301, 302, 303, 307 or 308 with a Location led to and the hook allowed is asked for, and nothing seen before |
| Fetcher.AnsweredIff | src/http/fetcher.ts:137-238 | a fetch ends in an answer exactly when its last exchange was unbroken and brought no redirect |
| Fetcher.RedirectEndsFor | src/http/fetcher.ts:160-253 | a redirect that is not followed ends the fetch for exactly one reason: no target, asked before, hook threw or could not look up or refused, no room left |
| Fetcher.HopsLead | src/http/fetcher.ts:160-225 | the hops lead along the URLs asked for, each with the status that sent it on |
| Fetcher.GivenUpFor | src/http/fetcher.ts:170-253 | too many redirects means maxRedirects and one more, a loop that something was seen before |
| Events.EventChannel.Emit | src/events/index.ts:72-84 | hands the event to the longest waiting caller, else queues it and drops the oldest when full |
| Events.EventChannel.Close | src/events/index.ts:86-92 | ends all waiting calls when nothing is queued |
| Events.EventChannel.Next | src/events/index.ts:98-105 | answers from the queue, else says it is over, else waits |
| Events.NothingIsLostSilently | src/events/index.ts:51-112 | in every interleaving accepted events are delivered, queued or dropped, in order of emission and of calls, and nobody waits beside a queued event |
| EventLaws.EveryCallIsAnswered | src/events/index.ts:72-112 | in every run a call is answered by its delivery, else by the end once the channel is closed, else it waits |
| EventLaws.EmissionIs | src/events/index.ts:72-84 | a closed channel takes nothing; an open one serves the first who waits, else keeps the latest events it has room for and counts the one it drops |
| EventLaws.ClosingIs | src/events/index.ts:86-92 | closing keeps what is queued, ends every waiting call, and does nothing twice |
| EventLaws.ClosedChannelDrains | src/events/index.ts:98-105 | reading a closed channel yields what was queued in order and then its end |
| EventLaws.ClosedStaysClosed | src/events/index.ts:72-92 | over any run a closed channel stays closed and takes nothing |
| Events.CrawlEventHub.Emit | src/events/index.ts:39-42 | the loop feeds every open channel |
| Events.CrawlEventHub.Close | src/events/index.ts:44-48 | the loop closes every open channel |
| Events.CrawlEventHub.DroppedEvents | src/events/index.ts:18-22 | the loop adds the drops of open channels to those reported by closed ones |
| Events.HubCountsEveryDrop | src/events/index.ts:18-37 | in every run that total is the sum over all channels ever opened |
| EventLaws.EachChannelIsOnItsOwn | src/events/index.ts:24-48 | in every run each channel of a hub is emitted into, read and closed as if it were alone, and closing the hub closes it |
| EventLaws.SubscriptionIs | src/events/index.ts:24-37 | a subscriber gets a channel of its own, closed from the start when the hub is closed, none when the capacity is not positive |
| RunControl.JoinOne | src/runtime/run-controller.ts:176-184 | one more stop keeps the recorded one the winner among all given |
| RunControl.StepAborts | src/runtime/run-controller.ts:186-188 | a call aborts what is active exactly when it is a cancellation or a failure, and an abort stays |
| RunControl.RunController.NoteLimit | src/runtime/run-controller.ts:103-109 | a limit is a stop, and is announced once |
| RunControl.RunController.RefreshLimits | src/runtime/run-controller.ts:140-157 | the limits reached by now are noted in order |
| RunControl.RunController.ShouldLeaseMore | src/runtime/run-controller.ts:159-165 | true exactly when no stop beyond a soft limit is recorded |
| RunControl.StopIsTheWinner | src/runtime/run-controller.ts:176-189 | over any run the stop recorded is the last fatal one, else the first of highest priority; requests are aborted exactly after a cancellation or failure |
| RunControl.ReasonIgnoresOrder | src/runtime/run-controller.ts:167-189 | runs given the same stops in any order end for the same reason and agree on leasing |
| RunControl.RunsGoOneWay | src/runtime/run-controller.ts:62-82 | the phase never falls back and leasing once refused stays refused |
| RunLaws.LeasesUnderLimits | src/runtime/run-controller.ts:117-165 | in every run more may be leased exactly when no failure, cancellation or hard limit occurred, and fetches, bytes and time since the start are below their limits |
| RunLaws.ReasonIs | src/runtime/run-controller.ts:167-189 | the reason is failure if there was one, else cancellation, else a limit, else that the frontier is empty |
| RunLaws.CountersAreSums | src/runtime/run-controller.ts:117-138 | fetched, bytes and attempted are sums over the calls made |
| RunLaws.PeakIsMostOpen | src/runtime/run-controller.ts:117-130 | the peak is the most requests ever open at once |
| RunLaws.PhaseAfter | src/runtime/run-controller.ts:62-82 | which calls are refused in which phase, and where each call leads |
| RunLaws.ObserverIsTold | src/runtime/run-controller.ts:103-109 | whoever observes is told of exactly the limits first reached from then on |

## Left out

- File system, file modes, SQLite itself, timers, sockets and JSON text: a write succeeds or fails as a whole, a statement or transaction is one step, and the record printer is any printer of one braced line per record of which no proper prefix, torn piece or run-on can be read as a record.
- A write that fails half-way and leaves part of a line in the middle of the file while the process goes on.
- Two processes on one SQLite frontier: no other connection takes a row between the select and the claim of `leaseNext`.
- The clock is read once per call of the politeness controller and of a lease, where the code reads it more than once within a few statements.
- `AsyncMutex`: modelled on values, as the state of the promise chain; what a promise is and when its callbacks run is not captured.
- `FrontierLeaseManager.states` and the state records written to the store: they are never read back by the frontier.
- URL parsing and normalisation: origin, path, query keys and normal form are inputs; so are scope decisions, the cleaning of candidate URLs and the collation of strings, which is taken to be total on distinct strings.
- `scanCssUrls` and the script scanners, which only feed the candidate sets.
- `AdmissionTheorems.LimitsAreNeverPassed`: for runs in which no store write throws between the frontier and the commit of a reservation; after such an exception the maps lag behind the frontier until the accounting is restored.
- `AdmissionTheorems.SeedsAndTotalsAreNeverPassed`: the counters restored from statistics on resume are taken to be within their limits.
- The run-wide cap on sitemap entries, which is read and counted across awaits.
- `CrawlEventHub`: its channels are values in a sequence, so the callback by which a channel removes itself is a method of the hub.
- The waiting of `applyRobotsDelay` and `waitForAvailability` themselves, and the notifier.
- `Throttle.SuccessesConverge`: delays are real numbers, so the rounding of floating point is not captured.
- Lone surrogates in robots.txt text, which the code replaces by U+FFFD: text is a sequence of Unicode scalar values.
- The regular expression engine behind `robotsPathMatches`: a pattern is literals, stars and an end anchor; a star crosses everything but line ends, as the dot of the engine does.
- Crawl delays, sitemap lines and the parsing of robots.txt.
- Headers, cookies, cache contents, TLS and error codes of `HttpFetcher`; an exception from the disposal of a body.
- Heartbeats of leases beyond the renewals they make, the run lock, and the exceptions of `processLease` other than by outcome.
- Configuration, the command line, schemas, telemetry, reports, rendering and network safety.
