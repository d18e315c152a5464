# Admission control, load evidence and request protocols of a ticketing service

This project models the parts of a ticket-selling service whose correctness depends on
interleaving, on state that is kept up to date incrementally, or on exact arithmetic, and proves
what those parts promise. `dafny verify dfyconfig.toml` checks everything.

**Admission policy** (`AdmissionPolicy`, `AdmissionHistory`). One row per event, an append-only
audit, and any number of administrator writes and SYSTEM resets interleaved statement by statement
under READ COMMITTED isolation: read before, draw a generation, guarded write holding the row lock,
audit insert, commit (acknowledged or not) or abort. Every run is equal to executing the committed
requests one after the other, its audit is a gapless chain, and a queue generation never serves two
namespaces.

**Cached policies** (`AdmissionRuntime`). The worker that samples an epoch, reads the database
without the lock and installs only if the epoch stands, together with the requests that invalidate
between their commit and their reply. What a ready cache holds was read after the last
invalidation; a reader that sees `ready()` and then looks up is never older than an answered write.

**Permits and completions** (`Bulkhead`, `Completion`, `TrafficControl`). Lock-free counters with one
atomic access per event, spurious failures and failed allocations included; callbacks that may fire
any number of times from any thread.

**Evidence** (`RawLines`, `RawProgress`, `StopGuard`, `Recovery`, `Percentile`, `Conservation`,
`Histogram`, `Observation`). One-pass and incremental forms are proved equal to declarative
definitions over the whole input.

**Exact small algorithms** (`HttpCache`, `SeatCursor`, `Seats`, `Slices`, `Zones`, `Groups`, `LoadPlan`,
`DeliveryGuard`, `ConfigDiff`) on top of `Decimal`, `Sorting`, `Counting` and `Wrappers`.

Protocols are state machines over their atomic steps, because no sequential method has those runs.
Objects that update fields are classes whose methods are tied to functions of the old state; loops
are methods with invariants; computations made of expressions are functions.

## Where the code falls short of its promise

Each of these is a lemma, and where the promise can still be met the condition is proved beside it.

- A reader that looks the policy up before it asks `ready()`, as `SeatController.cpp:294-295` does,
  can act on a policy older than an answered write (`AdmissionRuntime.LookupThenReadyCanBeStale`).
  In the other order it cannot (`AdmissionRuntime.ReadyThenLookupIsCurrent`), and in this order it
  does not if the cache was ready at the lookup or no refresh changed it in between
  (`AdmissionRuntime.LookupThenReadyIsCurrentIf`).
- `submit` loses its in-flight slot for good when an allocation fails between the claim and the
  construction of its completion, or when that completion is destroyed before anybody called it
  (`Completion.SubmitCanLeak`, `Completion.LeakedForever`). These events, and no others, leak a slot
  (`Completion.LeakedIffLost`), and the counter is the number of unfinished requests exactly until
  the first of them (`Completion.InflightExactIffNothingLost`).
- A reading that meets a line that raises does not move its offset, so a second reading of the same
  file counts the lines before it again (`RawProgress.FailedReadingCountsAgain`, with the content of
  `RawProgress.GoodLineCountsTwice`). Two readings count every line once if and only if the first
  succeeded or its first line raised at once (`RawProgress.TwoReadingsCountOnceIff`). Both loops that
  call the reader give up on the exception (`run_phase14.py:523`, `phase14_campaign.py:240`), so only
  another caller of the object would read a second time.
- Points that arrive after their bucket was closed never reach the error rule
  (`RawProgress.LatePointsStayOpen`).
- Remembering only the start of a stretch implements `sustained` for every threshold if and only if
  no sample of the stretch is earlier than its first (`StopGuard.StartDecidesSustained`).
- Histogram quantiles are monotone in the fraction if and only if the histogram does not start with
  a populated bucket below zero (`Histogram.MonotoneIffNotNegativeStart`).
- The refresh executor's time unit is the mean pause cut to whole seconds, so it delivers the planned
  number exactly when the mean is whole (`LoadPlan.ScheduleMatchesIffMeanIsWhole`).
- The behaviour mix of a twenty-user block is exact if and only if the percentages are multiples of
  five, which the divisibility test on the stages does not ask
  (`Groups.BlockIsExactIffMultiplesOfFive`, `Groups.DivisibleStageNeedNotBeExact`).
- The classification check looks only at steps that were started, so evidence that is admitted and
  gives no error at all can hold a result without any start
  (`Conservation.ResultWithoutStartGoesUnnoticed`); `Conservation.ConservedIffAlsoStarted` is the
  exact condition.
- An empty window divides by zero if `minErrorSamples` is not positive; `StopGuard.StopGuard.ErrorWindow`
  fails then and only then.
- A NaN in a configuration differs from itself, so equal documents can have differences
  (`ConfigDiff.EmptyIffEqualAndNanFree`).

`Work` itself does not forbid a transition after its completion, which would leave it holding a permit
(`TrafficControl.LateTransitionKeepsPermit`; `TrafficControl.CompletedWorkHoldsOnlyLatePermits` gives the
exact condition). No caller does that: each transition precedes the only completion of its flow
(`ReservationService.cpp:105`, `ReservationService.cpp:161`, `CheckoutSessionService.cpp:192`,
`CheckoutSessionService.cpp:357`, `CheckoutSessionService.cpp:426`, `CheckoutSessionService.cpp:659`,
`CheckoutSessionService.cpp:771`), and then nothing is held (`TrafficControl.NothingHeldAfterCompletion`).

## Model

| member | source | states |
|---|---|---|
| AdmissionPolicy.GuardPinsBefore | backend/src/admission/AdmissionPolicy.cpp:64-82 | a guarded write applies only while the committed row is still the policy its transaction read before |
| AdmissionPolicy.AuditNeverRejects | backend/src/admission/AdmissionPolicy.cpp:83-88 | the audit insert after a successful write satisfies the constraints of the audit table |
| AdmissionPolicy.CommitKeepsInv | backend/src/admission/AdmissionPolicy.cpp:82-90 | publishing row and audit entry together keeps every fact about the store and about all other transactions in flight |
| AdmissionPolicy.NextKeepsInv | backend/src/admission/AdmissionPolicy.cpp:60-90 | every step of every transaction keeps the invariant of row, lock, audit and program counters |
| AdmissionHistory.AuditOnlyGrows | backend/src/admission/AdmissionPolicy.cpp:84-88 | the audit is append-only over every run |
| AdmissionHistory.AuditIsGaplessChain | backend/src/admission/AdmissionPolicy.cpp:64-89 | entry k goes from version k to k + 1 and from its predecessor's new policy, the length is the row's version, and the last entry is the row |
| AdmissionHistory.OneWinnerPerVersion | backend/src/admission/AdmissionPolicy.cpp:71-82 | of all contenders for a version at most one commits |
| AdmissionHistory.InterleavingIsSerial | backend/src/admission/AdmissionPolicy.cpp:60-90 | the row of every interleaved run is the result of executing the committed requests alone in version order |
| AdmissionHistory.AuditRecordsTheRequest | backend/src/admission/AdmissionPolicy.cpp:69-88 | in every run, the entry of a PUT holds the mode, settings and user of its request, and a reset keeps all three |
| AdmissionHistory.CommittedRowsFitTheTable | backend/db/migrations/013_add_admission_control.sql:4-15 | every committed policy is within the ranges its table declares |
| AdmissionHistory.UndisturbedPut | backend/src/admission/AdmissionPolicy.cpp:60-90 | from any reachable state a PUT in range that nobody disturbs commits what it asked for, or conflicts and changes nothing, by its version |
| AdmissionHistory.NoTransactionIsStuck | backend/src/admission/AdmissionPolicy.cpp:60-90 | every live transaction can proceed or waits for the row lock of one that can |
| AdmissionHistory.ConflictIffVersionMoved | backend/src/admission/AdmissionPolicy.cpp:65-82 | a guarded write conflicts exactly when the committed version is not the expected one, and then another transaction wrote it |
| AdmissionHistory.GenerationStep | backend/src/admission/AdmissionPolicy.cpp:19-22 | between two entries the generation changes exactly on a reset or a rotating mode change, and then to one never recorded before |
| AdmissionHistory.GenerationServesOneNamespace | backend/src/admission/AdmissionPolicy.cpp:13-22 | the entries of one generation are contiguous and carry modes of one namespace followed only by OFF |
| AdmissionHistory.FormalRotatesOnlyByReset | backend/src/admission/AdmissionRuntime.cpp:32-45 | between two Formal modes the generation changes exactly when the entry is a reset |
| AdmissionHistory.GenerationIsReplacedIff | backend/src/admission/AdmissionPolicy.cpp:13-22 | the generation is replaced exactly by a reset, by entering OBSERVE, and by entering PAUSED or ENFORCED from neither |
| AdmissionHistory.GenerationServesTheseModes | backend/src/admission/AdmissionPolicy.cpp:13-22 | which modes can follow which under one generation, mode by mode |
| AdmissionHistory.ResetChangesGenerationAlone | backend/src/admission/AdmissionRuntime.cpp:35-40 | a reset audits the very row it replaced, although it reads it without checking the version, and keeps all but version and generation |
| AdmissionHistory.AuditInsertNeverFails | backend/db/migrations/013_add_admission_control.sql:17-28 | in every reachable state the pending audit insert is accepted |
| AdmissionRuntime.RuntimeCache.SampleEpoch | backend/src/admission/AdmissionRuntime.cpp:47 | reads the epoch under the lock and changes nothing |
| AdmissionRuntime.RuntimeCache.InstallIfCurrent | backend/src/admission/AdmissionRuntime.cpp:93-95 | installs policies, sessions, flags and the time only if the epoch has not moved, else leaves the cache alone |
| AdmissionRuntime.RuntimeCache.MarkDirty | backend/src/admission/AdmissionRuntime.cpp:135 | a failed refresh marks the cache dirty and keeps every other field, the epoch included |
| AdmissionRuntime.RuntimeCache.BumpEpoch | backend/src/admission/AdmissionRuntime.cpp:148 | invalidation marks the cache dirty and moves the epoch |
| AdmissionRuntime.RuntimeCache.ClearRedis | backend/src/admission/AdmissionRuntime.cpp:27-31 | clears the Redis flag of every policy and keeps everything else of it |
| AdmissionRuntime.RuntimeCache.IsReady | backend/src/admission/AdmissionRuntime.cpp:149 | true exactly when loaded, not dirty and refreshed less than fifteen seconds ago |
| AdmissionRuntime.RuntimeCache.Lookup | backend/src/admission/AdmissionRuntime.cpp:150 | the cached policy, if there is one |
| AdmissionRuntime.RunKeepsCache | backend/src/admission/AdmissionRuntime.cpp:46-96 | in every run, what a ready cache holds is what the database held at one earlier instant of the current epoch |
| AdmissionRuntime.ReadyMeansReadSinceInvalidate | backend/src/admission/AdmissionRuntime.cpp:93-95 | what a ready cache holds was read after the most recent invalidation |
| AdmissionRuntime.ReadyIffRefreshedSince | backend/src/admission/AdmissionRuntime.cpp:93-149 | in every run the cache is ready exactly if some refresh was installed with no invalidation since it sampled its epoch and no failed refresh since |
| AdmissionRuntime.NotReadyUntilInstalled | backend/src/admission/AdmissionRuntime.cpp:135-149 | after a failed refresh or an invalidation the cache is not ready before rows are installed |
| AdmissionRuntime.UndisturbedRefresh | backend/src/admission/AdmissionRuntime.cpp:46-96 | from any reachable state with an idle worker, an undisturbed refresh ends ready, with the policies of the database, for fifteen seconds |
| AdmissionRuntime.AnswerFollowsInvalidation | backend/src/controllers/AdmissionPolicyController.cpp:18-21 | a committed PUT can always invalidate and then be answered, and is answered only after it invalidated |
| AdmissionRuntime.RunKeepsCalls | backend/src/controllers/AdmissionPolicyController.cpp:15-21 | from the invalidation of a committed write on, the database is never behind the version that write committed |
| AdmissionRuntime.FreshWhenReady | backend/src/controllers/AdmissionPolicyController.cpp:18-21 | whenever the cache is ready it holds at least the version of every invalidated, hence of every answered, write |
| AdmissionRuntime.ReadyThenLookupIsCurrent | backend/src/admission/AdmissionRuntime.cpp:149-150 | ready() followed by a lookup, however much later, never yields a version older than a write answered before ready() |
| AdmissionRuntime.LookupThenReadyIsCurrentIf | backend/src/controllers/SeatController.cpp:294-295 | the opposite order is current if the cache was ready at the lookup or unchanged until ready() |
| AdmissionRuntime.LookupThenReadyCanBeStale | backend/src/controllers/SeatController.cpp:294-295 | a concrete run in which the opposite order acts on an older policy |
| Bulkhead.EventMovesOneSlot | backend/src/admission/Bulkhead.h:13-25 | every atomic access moves active[] exactly as the slot of its own call moves |
| Bulkhead.NextKeepsInv | backend/src/admission/Bulkhead.h:20-25 | every access of every interleaving keeps the counter invariant |
| Bulkhead.ActiveCountsSlots | backend/src/admission/Bulkhead.h:13-25 | active[i] is the number of claimed slots, at most the limit, and never underflows |
| Bulkhead.PeakIsHighWaterMark | backend/src/admission/Bulkhead.h:23-26 | the peak is within the limit and, with no call in the peak loop, the largest value active[i] ever had |
| Bulkhead.PeakNeverDrops | backend/src/admission/Bulkhead.h:23 | the peak never decreases |
| Bulkhead.ComparedValueWasSeen | backend/src/admission/Bulkhead.h:21-22 | the value a call compares was the value of active[i] at some instant during that call |
| Bulkhead.RejectionSawFullBulkhead | backend/src/admission/Bulkhead.h:22 | an empty result means active[i] was at its limit at some instant inside that call |
| Bulkhead.OutcomeIsWhatHappened | backend/src/admission/Bulkhead.h:20-25 | a call holds or has held a permit exactly if its allocation succeeded, throws exactly if it failed, and is rejected exactly by the rejecting branch |
| Bulkhead.NoCallIsStuck | backend/src/admission/Bulkhead.h:20-25 | exactly the unfinished calls have a step of their own, and a comparing one has exactly one of its two |
| Bulkhead.UndisturbedAcquire | backend/src/admission/Bulkhead.h:20-25 | from any reachable state an undisturbed acquire yields a permit if a slot is free, counting it and raising the peak, and nothing otherwise |
| Bulkhead.Configure | backend/src/admission/Bulkhead.h:19 | accepts an array exactly if every limit is from 1 to 256 |
| Completion.RepliesAndReleasesAtMostOnce | backend/src/admission/TrafficControl.cpp:39-52 | at most one reply and one release per request, and the release comes first |
| Completion.OneCompletionWins | backend/src/admission/AdmissionService.cpp:33-36 | of any number of completions of a request only one finds the flag clear |
| Completion.InflightCounts | backend/src/admission/AdmissionService.cpp:29-37 | the counter is the unfinished requests plus the leaked slots, at most the limit; owned permits never leak |
| Completion.RefusalSawFullPool | backend/src/admission/AdmissionService.cpp:31-32 | a refused request saw every slot taken at an instant between its arrival and its refusal |
| Completion.SubmitRefusesAtFour | backend/src/admission/AdmissionService.cpp:32 | submit refuses only a request that saw four slots taken |
| Completion.SubmitHoldsFour | backend/src/admission/AdmissionService.cpp:29-37 | a concrete run with four requests in flight and the fifth refused |
| Completion.UndisturbedRequest | backend/src/admission/AdmissionService.cpp:29-33 | from any reachable state an undisturbed request is accepted below the limit and refused with one reply at it |
| Completion.NoRequestIsStuck | backend/src/admission/AdmissionService.cpp:31-34 | every request on its way has a step of its own, a comparing one is refused or tries the exchange, never both |
| Completion.CompletionsFinish | backend/src/admission/AdmissionService.cpp:34-36 | every completion that started can go on to its end, where the request has one reply and one release, by it or by the winner |
| Completion.UndisturbedCompletion | backend/src/admission/TrafficControl.cpp:45-51 | the first completion of an open request gives its slot back and delivers its one reply |
| Completion.LeakedIffLost | backend/src/admission/AdmissionService.cpp:32-36 | a slot is leaked exactly by a failed allocation behind the claim or a completion destroyed uncalled |
| Completion.InflightExactIffNothingLost | backend/src/admission/AdmissionService.cpp:29-37 | the counter is exact if and only if no event has lost a slot |
| Completion.WrapNeverLeaks | backend/src/admission/TrafficControl.cpp:39-52 | the permits of wrap() count exactly its unfinished requests |
| Completion.LeakedForever | backend/src/admission/AdmissionService.cpp:31-36 | no later event gives a leaked slot back |
| Completion.SubmitCanLeak | backend/src/admission/AdmissionService.cpp:32-34 | a concrete run that leaks a slot |
| Completion.UncalledRequestIsDropped | backend/src/admission/TrafficControl.cpp:42-46 | an open request destroyed without a completion gives its slot back exactly if the slot has an owner, and answers nobody |
| TrafficControl.PermitTable.Acquire | backend/src/admission/TrafficControl.cpp:38 | takes a permit exactly when there is room |
| TrafficControl.Work.ResetPermit | backend/src/admission/TrafficControl.cpp:24 | gives the held permit back, if any |
| TrafficControl.Work.Transition | backend/src/admission/TrafficControl.cpp:23-28 | executes reset, acquire, assign in this order, reports the overloaded resource, and leaves the stated permit and counters |
| TrafficControl.Work.Complete | backend/src/admission/TrafficControl.h:11-14 | executes exchange, and only the first time also free and reply in this order |
| TrafficControl.StepConserves | backend/src/admission/TrafficControl.cpp:23-28 | every step, whatever pointer holds the permit, keeps the counters equal to what is held, within the limits |
| TrafficControl.WorkHoldsAtMostOnePermit | backend/src/admission/TrafficControl.cpp:23-28 | at every instant of every interleaving, also inside transition and completion, at most one permit is held, counters are conserved and there is at most one reply |
| TrafficControl.NobodyIsStuck | backend/src/admission/TrafficControl.cpp:23-28 | a work always has a next step, and other work takes where there is room and releases what it holds, the one undoing the other |
| TrafficControl.CompletedWorkHoldsOnlyLatePermits | backend/src/admission/TrafficControl.h:11-14 | a completed work holds a permit exactly when a later acquire found room and no transition has been started since |
| TrafficControl.NothingHeldAfterCompletion | backend/src/admission/TrafficControl.h:13 | without a transition after its completion a work never holds a permit again |
| TrafficControl.LateTransitionKeepsPermit | backend/src/admission/TrafficControl.cpp:24 | a concrete run in which a completed work holds a permit |
| HttpCache.IfNoneMatch | backend/src/common/HttpCache.h:5-23 | true exactly for a trimmed `*` or a well-formed list with a member that weakly equals the current tag; every index is in range |
| HttpCache.ScanElement | backend/src/common/HttpCache.h:11-20 | reads one element and what must follow it, or rejects it, as the grammar says |
| HttpCache.RenderedListIsRead | backend/src/common/HttpCache.h:10-21 | whatever the grammar derives is read back tag by tag |
| HttpCache.ReadListIsRendered | backend/src/common/HttpCache.h:10-21 | whatever is read was derived by the grammar, so malformed lists never validate |
| HttpCache.ValidatesIffRead | backend/src/common/HttpCache.h:5-8 | the declarative meaning of a header is what one reading of it says |
| HttpCache.RenderedListValidates | backend/src/common/HttpCache.h:5-23 | rendering any list with any white space and matching finds each member, weak or strong |
| HttpCache.RenderedListValidatesIff | backend/src/common/HttpCache.h:5-23 | a rendered list matches a rendered tag exactly if a member has its text, whatever the weakness and the white space |
| HttpCache.EtagCharsOfTheStandard | backend/src/common/HttpCache.h:15 | between quotes exactly the characters of section 8.8.3 of RFC 9110 are admitted |
| HttpCache.TagsAreLiteral | backend/src/common/HttpCache.h:12-17 | a tag is its text in double quotes, behind W/ if it is weak |
| HttpCache.ListsAreLiteral | backend/src/common/HttpCache.h:6-20 | white space is spaces and tabs, a comma separates, and a star between white space matches anything |
| HttpCache.ListsAreUnambiguous | backend/src/common/HttpCache.h:10-21 | a header has one reading |
| SeatCursor.FromChars | backend/src/controllers/SeatController.cpp:119-121 | the longest run of digits as a number, refused from 2^64 on |
| SeatCursor.ValidCursor | backend/src/controllers/SeatController.cpp:113-124 | accepts exactly the printed pairs of 64-bit unsigned numbers |
| SeatCursor.PrintIsInjective | backend/src/controllers/SeatController.cpp:113-124 | different pairs print differently |
| Observation.RunKeepsInv | backend/src/observability/AsyncObservation.h:23-42 | after any operations the multiset holds exactly the start times in the map, and every id is accounted for |
| Observation.HighWaterIsLargestPending | backend/src/observability/AsyncObservation.h:29 | the high-water mark is the largest pending count ever |
| Observation.LargestPendingIsMaximum | backend/src/observability/AsyncObservation.h:29 | that largest count is reached at some moment and exceeded at none |
| Observation.CompletedExactlyOnce | backend/src/observability/AsyncObservation.h:33-42 | each id is pending or completed, never both, and never twice |
| Observation.ElapsedIsBetween | backend/src/observability/AsyncObservation.h:23-42 | in every run an observation is completed only by a finish after its begin, with the time between the two |
| Observation.ObservationSeries.EachIsPublishedOnce | backend/src/observability/AsyncObservation.h:49-54 | completed reports at the sink and pending observations are together as many as were begun, and each finished one has exactly one report with its elapsed time and outcome |
| Observation.ObservationSeries.Publish | backend/src/observability/AsyncObservation.h:49-54 | appends one report with the pending count, the high-water mark and the true largest age |
| Observation.ObservationSeries.BeginObservation | backend/src/observability/AsyncObservation.h:23-32 | registers a new id and appends one report that is no completion |
| Observation.ObservationSeries.FinishObservation | backend/src/observability/AsyncObservation.h:33-42 | removes one start time and appends one completed report, or does nothing for an unknown id |
| Observation.ObservationSeries.Sample | backend/src/observability/AsyncObservation.h:43-47 | appends one report that is no completion and changes nothing else |
| Observation.AsyncObservation.Complete | backend/src/observability/AsyncObservation.h:68-71 | only the first call publishes, with its outcome and the elapsed time |
| Observation.AsyncObservation.Destroy | backend/src/observability/AsyncObservation.h:67 | publishes Abandoned exactly if nothing was published before |
| Observation.FirstFinishDecides | backend/src/observability/AsyncObservation.h:67-71 | among calls interleaved with other observations the first finish decides the published outcome |
| RawLines.AppendKeepsLines | performance/scripts/run_phase14.py:376-380 | appending never changes complete lines; reading on from their end gives the rest |
| RawLines.LinesAreTheText | performance/scripts/run_phase14.py:376-380 | the lines joined are the text up to its last newline, each with one newline at its end |
| RawLines.InterleavingIsIrrelevant | performance/scripts/run_phase14.py:374-390 | totals depend only on what each file contributed, not on the interleaving |
| RawProgress.ReadingFits | performance/scripts/run_phase14.py:375-390 | a successful reading consumes exactly the complete lines behind the offset, once each |
| RawProgress.IncrementalEqualsBatch | performance/scripts/run_phase14.py:372-390 | any number of readings between appends gives the totals of one pass |
| RawProgress.BucketsCloseOnceInOrder | performance/scripts/run_phase14.py:390-394 | buckets reach the error rule once each, contiguous and increasing, with exactly the points read by then |
| RawProgress.LatePointsStayOpen | performance/scripts/run_phase14.py:386-394 | closed window plus open rest is the full total; late points stay open |
| RawProgress.TwoReadingsCountOnceIff | performance/scripts/run_phase14.py:375-390 | two readings, with appends in between, count every line once if and only if the first succeeded or its first line raised at once |
| RawProgress.FailedReadingCountsAgain | performance/scripts/run_phase14.py:379-388 | after a reading that fails the next one adds the same again to the dropped total and to every bucket |
| RawProgress.GoodLineCountsTwice | performance/scripts/run_phase14.py:379-383 | a concrete content of which one dropped iteration counts as two |
| RawProgress.CloseUpToKeepsInv | performance/scripts/run_phase14.py:390-394 | closing keeps all totals, skips no bucket and reaches the last one due |
| RawProgress.RawProgress.Process | performance/scripts/run_phase14.py:381-389 | one line changes the totals as specified |
| RawProgress.BucketHolds | performance/scripts/run_phase14.py:385 | a time is in bucket b exactly from b times the width up to the next multiple |
| RawProgress.EntryCounts | performance/scripts/run_phase14.py:383-388 | what one decoded line adds to the totals of each bucket and to the dropped total |
| RawProgress.RawProgress.ReadLines | performance/scripts/run_phase14.py:376-389 | the totals of one file's complete lines, up to the first that raises, and where they end |
| RawProgress.RawProgress.ReadFile | performance/scripts/run_phase14.py:375-389 | consumes the complete lines from the offset, of a line that raises only what was added before; the offset moves only if all decode |
| RawProgress.RawProgress.CloseDue | performance/scripts/run_phase14.py:390-394 | closes all buckets due, from the right one on |
| RawProgress.RawProgress.Read | performance/scripts/run_phase14.py:372-395 | afterwards every listed file is consumed up to its last complete line, the buckets closed end with the last one over at that time, and the returned verdict and drops are those of everything consumed |
| StopGuard.StopGuard.CheckSustained | performance/scripts/phase14_evidence.py:131-134 | true exactly when the condition has held on every sample since one at least `seconds` ago, for stretches in order |
| StopGuard.StopGuard.ErrorWindow | performance/scripts/phase14_evidence.py:135-140 | fails exactly on an empty window without a minimum of samples, else raises the alarm exactly for a small bad window or enough consecutive bad ones |
| StopGuard.AlarmMeans | performance/scripts/phase14_evidence.py:135-140 | the alarm rule in terms of the quotient of errors and completed |
| StopGuard.StartDecidesSustained | performance/scripts/phase14_evidence.py:131-134 | the remembered start implements the rule for every threshold if and only if the stretch is in order |
| StopGuard.BackwardClockHidesSustained | performance/scripts/phase14_evidence.py:131-134 | a concrete history with a clock running backwards that the rule misses |
| Recovery.Window | performance/scripts/phase14_evidence.py:167-178 | one pass finds a window exactly when a long enough unbroken good stretch after the stop, in time, exists |
| Recovery.HitsAreWindows | performance/scripts/phase14_evidence.py:167-178 | on ordered samples the scan's hits and the declarative windows coincide |
| Percentile.OffsetIgnoresOrder | performance/scripts/phase14_evidence.py:85-89 | the value at an offset depends only on the multiset of values |
| Percentile.SortedIndexIsAtOffset | performance/scripts/phase14_evidence.py:85 | element k of the sorted list is the value at offset k, defined by counting |
| Percentile.PercentileOfFraction | performance/scripts/phase14_evidence.py:33-36 | at p = k/(n-1) the percentile is the order statistic of rank k |
| Percentile.PercentileAtRank | performance/scripts/phase14_evidence.py:33-36 | the same whenever p(n-1) is k, a single value included |
| Percentile.PercentileMixesNeighbours | performance/scripts/phase14_evidence.py:33-36 | in between, the percentile is the linear mix of the two neighbouring order statistics |
| Percentile.PointTable.Quantile | performance/scripts/phase14_evidence.py:83-89 | the offset query gives the percentile of the group's values, whose ranks PercentileAtRank and PercentileMixesNeighbours fix |
| Percentile.Aggregate | performance/scripts/phase14_evidence.py:51-90 | for any shards the reported quantiles, count and maximum of each group are those of the concatenated values |
| Percentile.ShardingIsIrrelevant | performance/scripts/phase14_evidence.py:33-36 | neither sharding nor order changes a percentile |
| Percentile.PercentileIsMonotone | performance/scripts/phase14_evidence.py:33-36 | percentiles never decrease in p, across the floor and ceiling boundaries |
| Percentile.PercentileIsBounded | performance/scripts/phase14_evidence.py:33-36 | percentiles lie between minimum and maximum |
| Conservation.Ledger.Add | performance/scripts/phase14_evidence.py:58-73 | after any line the rows hold exactly the sums over the counter points read, for every filter, and a row for exactly the keys seen |
| Conservation.Ledger.Count | performance/scripts/phase14_evidence.py:93-96 | the sum over the raw points that match the filter |
| Conservation.Ledger.Check | performance/scripts/phase14_evidence.py:97-107 | reports exactly the errors that the raw points justify |
| Conservation.ConservedIffAlsoStarted | performance/scripts/phase14_evidence.py:103-105 | every step is conserved if and only if no error is reported and no step has results without a start |
| Conservation.ResultWithoutStartGoesUnnoticed | performance/scripts/phase14_evidence.py:97-107 | admitted evidence without any error in the report, that is not conserved |
| Histogram.QuantileOf | performance/scripts/diagnose_seat_map.py:41-55 | the answer of the first bucket in order that reaches the target |
| Histogram.DividesByZeroExactlyWhen | performance/scripts/diagnose_seat_map.py:53 | the exact inputs that divide by zero; none has a positive target |
| Histogram.AnswerLiesInItsBucket | performance/scripts/diagnose_seat_map.py:49-54 | a proper fraction selects a bucket and the answer lies between its edges |
| Histogram.AnswerIsLinear | performance/scripts/diagnose_seat_map.py:47-54 | the answer lies on the line between the edges of the first bucket that reaches the target share of the last count |
| Histogram.NothingMeansTailOnly | performance/scripts/diagnose_seat_map.py:51-52 | no answer exactly when no bounded bucket reaches the target |
| Histogram.QuantileGrows | performance/scripts/diagnose_seat_map.py:47-54 | larger fractions give larger answers unless the histogram starts below zero |
| Histogram.MonotoneIffNotNegativeStart | performance/scripts/diagnose_seat_map.py:48-53 | monotone if and only if the first bucket is not a populated one below zero |
| LoadPlan.OnlinePlan | performance/scripts/phase14_model.py:118-136 | phases are contiguous in time and population, two per stage, with the refreshes of their area |
| LoadPlan.PlanIsDetermined | performance/scripts/phase14_model.py:118-136 | those properties leave one plan |
| LoadPlan.PlanOfStage | performance/scripts/phase14_model.py:118-136 | start, duration and populations of the ramp and the hold of each stage |
| LoadPlan.TrapezoidIsIntegral | performance/scripts/phase14_model.py:129 | the trapezoid lies halfway between left and right Riemann sums of the population for every number of slices |
| LoadPlan.RefreshesAreArea | performance/scripts/phase14_model.py:125-132 | all refreshes times the mean are the area under the population curve |
| LoadPlan.ScheduleMatchesIffMeanIsWhole | performance/scripts/phase14_model.py:133 | the executor delivers the planned refreshes exactly for a whole mean or an empty area |
| LoadPlan.ValidPlanIsDeliverable | performance/scripts/phase14_model.py:75-84 | validated stages give phases that arrival() accepts |
| LoadPlan.BuildEnters | performance/scripts/run_phase14.py:94-114 | fails exactly on an undeliverable phase, else builds adjacent scenarios that deliver each phase's users |
| LoadPlan.EntersWithItsPhase | performance/scripts/run_phase14.py:94-114 | each scenario starts and ends with its phase and its rate brings in the growth of that phase |
| LoadPlan.EveryUserEntersOnce | performance/scripts/run_phase14.py:112-114 | the scenarios partition the user indices below the final population |
| DeliveryGuard.Scenarios.GuardDelivery | performance/scripts/run_phase14.py:72-86 | guards every arrival-rate scenario and no other, reports what it replaced, and fails exactly on a ramp without stages |
| DeliveryGuard.GuardKeepsCurve | performance/scripts/run_phase14.py:72-86 | the rate is unchanged on the business window, the final rate during the guard, and zero afterwards |
| Seats.SeatHasIndex | performance/scripts/phase14_model.py:96-101 | seat() succeeds exactly on the pool, lands in it, and its index can be computed back |
| Seats.IndexHasSeat | performance/scripts/phase14_model.py:96-101 | every seat of the pool is the seat of its index |
| Seats.IdsAreUnique | performance/data/generate_dataset.py:68-83 | equal ids mean the same kind and the same printed parts |
| Seats.ShortIdsAreLiteral | performance/data/generate_dataset.py:68-78 | the printed form of ids with one number |
| Seats.SessionSeatIdsAreLiteral | performance/data/generate_dataset.py:79-82 | the printed form of session seats |
| Seats.SeatIdsAreUnique | performance/data/generate_dataset.py:79-82 | different seats have different ids |
| Seats.ExportSeats | performance/data/generate_dataset.py:825-832 | row i of the exported file is seat(i), for all seats |
| Seats.RowsAreDistinct | performance/data/generate_dataset.py:825-832 | no seat is exported twice |
| Seats.HotUsersMeetInBlocks | performance/scripts/phase14_model.py:104-109 | hot users share a seat exactly when they are in the same block of contenders |
| Seats.SmokeHotspotFits | performance/scripts/phase14_model.py:107-109 | the spread-out smoke hotspot always fits and uses first seats only |
| Seats.HotSeatHasIndex | performance/scripts/phase14_model.py:104-109 | the index of the seat each hot user goes for, in single, smoke and full hotspots, and when there is none |
| Slices.Intervals | performance/scripts/phase14_model.py:47-52 | accepts exactly the slices that are non-empty, in range and pairwise disjoint, in whatever order they come |
| Slices.AcceptedSlicesShareNothing | performance/scripts/phase14_model.py:47-52 | every index within the accepted slices is in range and in one of them only |
| Slices.DisjointSharesNoIndex | performance/scripts/phase14_model.py:50 | disjoint non-empty slices are those that share no index |
| Slices.SlicesGiveDisjointSeats | performance/scripts/phase14_model.py:72 | accepted seat slices give every seat id to at most one of them |
| Zones.CheckCover | performance/data/generate_dataset.py:149-171 | accepts exactly valid, distinctly named zones whose rows add up to the layout |
| Zones.ZoneCase | performance/data/generate_dataset.py:295-304 | one clause per zone, matching exactly the rows of that zone |
| Zones.ClausesFollow | performance/data/generate_dataset.py:295-304 | the clauses begin at row one, follow without a gap, and have as many rows as their zones |
| Zones.ZonesPartitionRows | performance/data/generate_dataset.py:297-303 | the zones partition the rows from one up to their sum |
| Zones.CaseGivesTheZone | performance/data/generate_dataset.py:295-304 | the generated CASE gives each row its zone's value and NULL outside |
| Zones.CoverCheckIsExact | performance/data/generate_dataset.py:170-171 | the sum check passes if and only if precisely the layout's rows get a value |
| Groups.AnyTwentyAreAlike | performance/scripts/phase14_model.py:90-93 | any twenty consecutive users have the same mix |
| Groups.BlockIsExactIffMultiplesOfFive | performance/scripts/phase14_model.py:91-93 | the mix of a block is the configured one if and only if the percentages are multiples of five |
| Groups.ConfiguredMixIsExact | performance/scripts/phase14_model.py:91 | 60/25/15 gives 12, 5 and 3 of every twenty users, in any number of blocks |
| Groups.DivisibleStageNeedNotBeExact | performance/scripts/phase14_model.py:81-82 | a mix that passes the divisibility test and of which the first hundred users are not split exactly |
| ConfigDiff.ChangedPaths | performance/scripts/run_login_experiment.py:30-48 | returns exactly the minimal paths at which type, length, presence or value differ |
| ConfigDiff.EmptyIffEqualAndNanFree | performance/scripts/run_login_experiment.py:30-48 | nothing is reported if and only if the documents are equal and contain no NaN |
| ConfigDiff.ReportIsSymmetric | performance/scripts/run_login_experiment.py:30-48 | swapping the documents reports the same paths |
| ConfigDiff.AgreeOutsideAllowed | performance/scripts/run_login_experiment.py:58-62 | if everything reported is allowed, the documents agree at every place not under an allowed path |
| ConfigDiff.EditedElsewhere | performance/scripts/run_login_experiment.py:55-58 | the edit changes nothing outside the two allowed paths |
| ConfigDiff.EditableMeansSection | performance/scripts/run_login_experiment.py:54-57 | the edit is possible exactly where the authentication section is an object |
| ConfigDiff.BuildExperimentConfig | performance/scripts/run_login_experiment.py:51-63 | succeeds exactly for positive numbers, a source with the section, and no NaN that the edit leaves in place |

## Left out

- SQL text, PostgreSQL internals, Redis transport and the Lua scripts: one abstract row, audit and row lock remain; what Redis answers is an environment choice.
- The lookup of the event and the check for a configured secret before a PUT: they refuse requests that have changed nothing yet.
- Timestamps, event publication and sales windows of a policy: they do not take part in versions, generations or the epoch fence.
- AdmissionRuntime.FreshWhenReady: asks for a loaded and clean cache only, without the fifteen seconds of `ready()`, and so covers every cache that `ready()` accepts.
- AdmissionRuntime.RuntimeCache.BumpEpoch: does not model the wrap-around of the 64-bit epoch after 2^64 invalidations.
- A registry over its capacity, and any other exception inside `refresh`, is one failing refresh event.
- C++ memory-model weakness: atomics are sequentially consistent, which is what the code asks for, and one callback chain owns each `Work`.
- SeatMapComputeExecutor is an environment that may run a job, refuse it, or run its failure callback, any number of times.
- Completion.WrapNeverLeaks: the pool is that of wrap() alone; transition() draws on the same counters, whose sharing `TrafficControl` and `Bulkhead` cover.
- Bulkhead limits change only before traffic starts; `configure` during traffic is not modelled.
- `overloaded`, `rate`, response bodies, headers, metrics and logging: single branches without state.
- HttpCache.IfNoneMatch: bytes are characters up to 255.
- Observation.ObservationSeries.BeginObservation: does not model the wrap-around of the 64-bit id; exceptions of the sink are swallowed by the code and have no effect here.
- Floating point: durations, values and rates are real numbers, so rounding is not modelled.
- DeliveryGuard.Scenarios.GuardDelivery: durations are numbers; their text form and its rounding to six significant digits are not modelled.
- RawProgress.RawProgress.Read: files are texts with `\n` line ends; byte offsets, decoding of UTF-8 and newline translation are not modelled, and a JSON line is what a decoder says it is.
- RawProgress.RawProgress.constructor: requires a positive minErrorSamples, so that closing a bucket cannot fail half way.
- Slices.Intervals: endpoints are integers; the refusal of other types is not modelled.
- Seats.IdsAreUnique: parts are not negative, as in every caller.
- Percentile.Aggregate and Conservation.Ledger.Add: checksums, label whitelists, the time window filter and the per-second totals of `aggregate` are not modelled, and rows are not sorted, which no sum depends on.
- ConfigDiff.BuildExperimentConfig: documents are values, so the deep copy is not an aliasing question; a missing or unfit section is one error instead of two exception types.
- `sample`, `verdict`, `recovery` beyond its window search, `background`, `segments`, `load_targets` and the U1, J1, O1, H and L scenarios: compositions of the modelled rules or easy members.
- Zones.CheckCover: the types of the fields are given, and lower case is that of ASCII letters.
- Cryptography, random numbers, HTTP plumbing, the frontend, report rendering and orchestration scripts.
