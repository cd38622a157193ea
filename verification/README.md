# Telemetry pipeline verification

A Dafny model of the telemetry pipeline that every published score rests on, and proofs of
what it guarantees. `dafny verify dfyconfig.toml` checks all of it.

- **Collector** (`CollectorModel`, `CollectorInvariants`, `CollectorTheorems`,
  `CollectorMeanings`, `CollectorRequests`, `CollectorNumbers`, `CollectorCloses`,
  `CollectorObject`). The service runs on one event loop, so each piece of a coroutine
  between two awaits is one `Step`: intake of a batch or a hint, the writer's take, commit,
  failure and completion, the pieces of opening and closing a run, the requests that wait in
  `flush`, the page read, and a crash followed by the restore code. `Reachable` ranges over
  every interleaving. The theorems are about all of them: the ledger, the numbering and
  its gaps, what a returned close guarantees, what an export holds. `CollectorMeanings`
  says on the elements what the model's functions compute, and `CollectorRequests` follows
  a request from its call to its answer. The class `Collector`
  has the fields and loops of the original, and each of its methods is proved to make
  exactly the step of the same name.
- **Correlation registry** (`Hosts`, `CorrelationModel`, `CorrelationRuns`,
  `CorrelationObject`, `Waiters`). The ordered map with expiry and cap, whole runs of it
  with a poller that moves its cursor, the host matching, and the long poll as steps of
  any number of waiters.
- **Exporter** (`TransportModel`, `TransportTheorems`, `TransportSent`, `TransportCut`,
  `TransportObject`). Any number of producers and one reader over the drop-oldest channel,
  one step per interlocked operation; the class has the original's fields, and its
  undisturbed calls are proved to be runs of the step machine. A post carries how it went:
  the answer, and what the collector of the first part, in whatever state it is by then,
  makes of the body.
- **Paging client** (`Paging`). The two cursor loops against a service whose table may grow
  and whose calls may fail between any two pages. `CollectorServes` proves that the
  collector of the first part is such a service.
- **Run loop** (`Budget`). The split of the remaining time over the remaining invocations.
- **Parsers and matchers** (`Resp`, `Multipart`, `JsonText`, `JsLiteral`, `JsRoundTrip`,
  `SourceMatcher`, `Attributes`, `DocumentWalk`). The round trips are against printers and readers written
  from the formats' own standards, and what flattening lists is compared with a walk of the
  document.

State that the program does not have (what was accepted, what became of it, what readers
were given) is marked as history or ghost and never influences a step.

## Where the comments promise more than the code gives

Each is proved in the exact form the code supports, with a trace or a witness for the gap.

- "received == written + dropped + discarded_idle" holds exactly when the rejected bodies
  balance the events still on their way (`ReconcilesIff`); one rejected body is enough to
  break it (`ReconciliationCanFail`).
- A close can return while an event of its run is still queued, and a forced open does not
  flush (`CloseCanReturnBeforeTheLastEvents`, `ForcedOpenDoesNotFlush`). A close that was
  asked for has settled everything accepted before the call (`CloseReturnMeans`), and if
  nothing came for the run before it returned, nothing of the run is left over
  (`NothingLeftOver`). What any close leaves only drains (`LeavingsDrain`), and is gone for
  whoever flushes afterwards (`LeavingsAreGoneAfterFlush`), so that an export requested
  afterwards is complete all the same (`ExportAfterClose`, `ClosedExportIsWhole`).
- A failed write burns its sequence numbers (`FailedWriteBurnsNumbers`). The numbers of a
  run have no gap exactly when no write of it failed before one that landed with no crash
  between (`NoGapIff`).
- "Insertion order is registration order" fails when an id is reused ahead of later hints
  (`OrderKeptIff`, `OrderCanBreak`); with fresh ids it always holds
  (`AlwaysInRegistrationOrder`). The strict cursor skips the hints of its own instant and
  no others (`PollMissesExactlyTheLate`, `LateIff`, `SameInstantIsMissed`), and a poller
  that steps its cursor back misses none (`SteppingBackMissesNothing`).
- `FlushAsync` can answer true while a record is in the reader's hands
  (`FlushCanReturnEarly`). Its promise holds exactly when the reader held none at the first
  of the two reads, or the count of batches moved on before the second (`FlushedIff`).
- `Sent` is documented as the records the collector accepted. It is that number exactly when,
  of every batch answered below 500, each item could be written, the collector's endpoint
  answered, a run was active, its queue had room, the batch was within its limit and each
  item was valid (`SentIsAcceptedIff`, and batch by batch `CountedAsKeptIff`). Witnesses: an
  idle collector (`IdleCollectorCountsAsSent`), an answer from elsewhere
  (`WrongPathCountsAsSent`), a record that could not be written (`SentCanCountTheUnsent`), a
  note cut off behind the largest batch (`CutNoteCountsAsSent`), and the other way round a
  lost answer (`LostAnswerCountsAsFailed`).
- With an endpoint no client can be built for, the first batch is in neither counter and the
  loop is over (`HandedIsCountedIff`, `NoClientEndsTheLoop`).
- A pass over a waiting record can drain nothing (`PassCanDrainNothing`): exactly when the
  batch size is one and a drop was unreported as the pass chose its room (`PassDrainsIff`,
  `EveryPassDrains`).
- `Truncated` can be set with nothing left out (`RepeatSetsTruncated`): exactly when there
  were as many different inputs as the bound and the last one was a repeat
  (`TruncatedMeans`).
- One meter reading of the run loop is unguarded, and its failure loses the run (`Run`).
- A multipart field whose name ends in `filename=` shadows its own file name
  (`ShadowedFileName`, `FileNameSurvivesIff`), and a file name in front of the name is read
  as the name too (`FileFirstSurvivesIff`).
- The exporter folds mapped addresses and the collector does not: the exact condition is
  `VerdictsDifferIff`, the ordinary witness `MappedPeerSplits`; a mapped network in the list
  splits them the other way (`MappedNetworkSplits`).
- An error reply of the key/value store reads like a status reply (`ErrorsLookLikeText`).

## Model

| member | source | states |
|---|---|---|
| CollectorTheorems.Conservation | platform/collector/bench_collector/ingest.py:268-551 | at every moment of every run: received + malformed bodies = invalid + over batch + idle + overflow + write errors + written + events held by the writer + events queued |
| CollectorTheorems.ReconcilesIff | platform/collector/bench_collector/ingest.py:283-285 | the published reconciliation holds iff the malformed bodies equal the events still queued or held |
| CollectorTheorems.ReconciliationCanFail | platform/collector/bench_collector/ingest.py:283-285 | witness: with the queue empty and the writer idle, one rejected body leaves the published equation false |
| CollectorTheorems.IntakeMeaning | platform/collector/bench_collector/ingest.py:404-468 | a submit keeps, in order, the valid ones of the first 500 elements, counts the rest over the batch, and accounts for every element |
| CollectorTheorems.SignalsWithoutPeerAreFlagged | platform/collector/bench_collector/ingest.py:430-440 | the counter of signals without a peer is the number of events kept with the flag, whether or not a run is active |
| CollectorTheorems.MarkedBySourceAreCounted | platform/collector/bench_collector/ingest.py:424-426 | the counter of events marked by source is the number of those among the first 500, whether or not a run is active |
| CollectorMeanings.IntakeCarries | platform/collector/bench_collector/ingest.py:404-468 | with a run active a submit keeps one event per valid element of the first 500, in order; it has that element's kind, application and payload and the active run, is marked iff the element was or its peer is the platform's, and flagged iff it is a signal or trigger without a peer |
| CollectorMeanings.MarksReachTheEvents | platform/collector/bench_collector/ingest.py:424-440 | the counter of events marked by source is the number of kept events marked although their element was not, and the counter of signals without a peer the number of kept events flagged |
| CollectorMeanings.HintCarries | platform/collector/bench_collector/ingest.py:268-310 | the event copy of a registered hint has its application and payload, is of kind correlation and of the run, and is marked iff the hint was or its peer is the platform's |
| CollectorMeanings.SubmitCounters | platform/collector/bench_collector/ingest.py:470-489 | which counter a submit counts what in: received, over the batch, invalid, idle, overflow, marked by source, without peer |
| CollectorMeanings.HintCounters | platform/collector/bench_collector/ingest.py:283-308 | and the registration of a hint |
| CollectorMeanings.QueueIsBounded | platform/collector/bench_collector/ingest.py:304-309 | in every reachable state the queue is within a positive bound |
| CollectorRequests.WriterCountersTell | platform/collector/bench_collector/ingest.py:513-551 | at every moment the write errors are the events whose write failed since the process began, and the written ones the rows stored since, less a transaction committed but not yet counted |
| CollectorTheorems.HintsAreRegistered | platform/collector/bench_collector/ingest.py:442-450 | a submit hands the registry every correlation event of the first 500, in order, whether or not a run is active |
| CollectorTheorems.HintsAreCopied | platform/collector/bench_collector/ingest.py:442-468 | with a run active the batch holds exactly the event copies of those hints, in the same order |
| CollectorTheorems.HintsAreCounted | platform/collector/bench_collector/ingest.py:268-286 | at every moment the correlations counter is the number of registrations, by either door |
| CollectorTheorems.TransactionBound | platform/collector/bench_collector/ingest.py:500-514 | one writer transaction never holds more than max(1, write_batch) + 499 events |
| CollectorMeanings.TakeMoves | platform/collector/bench_collector/ingest.py:500-512 | a take moves the first batches of the queue, whole: as many as it needs to have write_batch events in hand, or all, and at least one |
| CollectorTheorems.SeqUniqueAndOrdered | platform/collector/bench_collector/ingest.py:522-556 | per run, sequence numbers strictly increase in commit order, and event_count is the number of rows, whatever failed or crashed |
| CollectorTheorems.StoredInSubmissionOrder | platform/collector/bench_collector/ingest.py:500-551 | the stored events of a run, in seq order, are a subsequence of its accepted events in submission order |
| CollectorTheorems.StreamGrows | platform/collector/bench_collector/ingest.py:544-550 | the stored stream of a run only ever grows at its end |
| CollectorTheorems.OneActiveRun | platform/collector/bench_collector/ingest.py:314-379 | at most one row is active; with the lock free the active rows are exactly the pointer's; a row is active iff it has no closing time |
| CollectorRequests.OpenWorks | platform/collector/bench_collector/ingest.py:314-354 | an open with no run active adds one row, active from the time of the call, and puts pointer and numbering on it |
| CollectorRequests.ForcedOpenWorks | platform/collector/bench_collector/ingest.py:314-354 | a forced open closes the old run at the time of that commit and opens the new one |
| CollectorRequests.CloseWorks | platform/collector/bench_collector/ingest.py:363-379 | a close leaves the row inactive, with its earlier closing time or that of this commit, lets go of the pointer if it names the run, and changes nothing else |
| CollectorRequests.ClosedAtIsTimeOfClose | platform/collector/bench_collector/ingest.py:373-376 | a closing time appears only by a commit that closes the run, and is the time of it |
| CollectorTheorems.CrashRestores | platform/collector/bench_collector/ingest.py:215-232 | a crash between any two awaits followed by the restore leaves the pointer on the one active row and numbers above all its stored rows |
| CollectorTheorems.ClosedAtStable | platform/collector/bench_collector/ingest.py:373-376 | once set, a run's closing time never changes and the run stays inactive, over any further run of steps |
| CollectorTheorems.OnlyActiveGrows | platform/collector/bench_collector/ingest.py:289-310 | any step accepts events of the active run only |
| CollectorTheorems.ClosedIsFrozen | platform/collector/bench_collector/ingest.py:356-379 | once a close of r has returned, the accepted events of r never grow again |
| CollectorTheorems.FlushContract | platform/collector/bench_collector/ingest.py:496-520 | when a join lets its caller through, every event accepted before the call is settled, in order |
| CollectorRequests.FlushFromCall | platform/collector/bench_collector/ingest.py:496-520 | from the call to the moment its caller is let through, whatever happens in between: everything accepted before the call is settled, in order |
| CollectorRequests.WriterCanGoOn | platform/collector/bench_collector/ingest.py:496-520 | as long as a request is held back in a flush the writer has a step to make |
| CollectorTheorems.ExportAfterClose | platform/collector/bench_collector/ingest.py:356-361 | a page requested after a close was read when all accepted events of the run were settled; it misses only failed writes and crash losses |
| CollectorTheorems.ExportIsFinal | platform/collector/bench_collector/ingest.py:558-584 | no later step changes the rows of a run once such a page was read |
| CollectorRequests.PageFromCall | platform/collector/bench_collector/ingest.py:558-584 | from the call to the answer: the page holds the first rows asked for that are stored by then, and if the run's close had returned before the call, nothing of the run is still on its way |
| CollectorTheorems.MatchingWithinRun | platform/collector/bench_collector/ingest.py:568-574 | a page query depends on the rows of its own run only |
| CollectorTheorems.PageIsOrdered | platform/collector/bench_collector/ingest.py:568-577 | a page is strictly ascending, holds only wanted rows, and leaves a wanted row out only behind a full page of smaller numbers |
| CollectorMeanings.PageMeaning | platform/collector/bench_collector/ingest.py:568-577 | a page holds rows of the run, past the cursor, of the kind asked for (a signal or trigger if either is), ascending, at most the limit; and such a row is left out only behind a full page of smaller numbers |
| CollectorTheorems.CloseCanReturnBeforeTheLastEvents | platform/collector/bench_collector/ingest.py:356-379 | witness: an event submitted between the flush and the pointer reset is still queued when the close has returned |
| CollectorCloses.ReturnStep | platform/collector/bench_collector/ingest.py:356-379 | every step keeps: whoever is closing found everything accepted before the call settled, and no return on record is ever contradicted |
| CollectorCloses.CloseReturnMeans | platform/collector/bench_collector/ingest.py:356-379 | when a close that was asked for has returned, everything accepted before the call was settled, in order; what of the run was left over is the end of what came between call and return |
| CollectorRequests.CloseFromCall | platform/collector/bench_collector/ingest.py:356-379 | from the call to the lock: a close takes the run it was called for, and by then everything accepted before the call is settled |
| CollectorCloses.NothingLeftOver | platform/collector/bench_collector/ingest.py:356-361 | if nothing was accepted for the run between call and return, every event ever accepted for it was settled by the return |
| CollectorCloses.LeavingsDrain | platform/collector/bench_collector/ingest.py:318-321 | what a forced open or any close leaves on its way only drains, in order, and nothing joins it |
| CollectorCloses.LeavingsAreGoneAfterFlush | platform/collector/bench_collector/ingest.py:496-520 | whoever is let through a flush asked for after the return finds none of it on its way |
| CollectorTheorems.ForcedOpenDoesNotFlush | platform/collector/bench_collector/ingest.py:318-321 | witness: a forced open closes the previous run with its queue unwritten |
| CollectorTheorems.FailedWriteBurnsNumbers | platform/collector/bench_collector/ingest.py:513-520 | witness: the first stored event of a run carries number 2 after a failed write |
| CollectorNumbers.NoGapIff | platform/collector/bench_collector/ingest.py:513-556 | in every reachable state the rows of a run are numbered 1, 2, 3, ... iff no failed write of the run precedes a stored row of it with no crash between |
| CollectorNumbers.NoFailureNoGap | platform/collector/bench_collector/ingest.py:513-556 | a run none of whose writes failed has no gap, across coalescing, closing, reopening, crash and restore |
| CollectorNumbers.NumbersStep | platform/collector/bench_collector/ingest.py:215-232 | every step, crash and restore included, keeps the tie between numbers, counters and the failed and stored fates |
| CollectorInvariants.NumberKeepsEvents | platform/collector/bench_collector/ingest.py:528-542 | numbering a batch keeps its events and their order |
| CollectorInvariants.NumberFacts | platform/collector/bench_collector/ingest.py:553-556 | the numbers handed out are new and increase per run, and the counters stand above all of them |
| CollectorInvariants.CoalesceFacts | platform/collector/bench_collector/ingest.py:505-512 | coalescing moves whole batches from queue to hand, loses and reorders nothing, counts each batch once and is bounded |
| CollectorInvariants.IntakeFacts | platform/collector/bench_collector/ingest.py:476-479 | the intake figures add up to the elements received, and kept events belong to the active run |
| CollectorInvariants.TakeFacts | platform/collector/bench_collector/ingest.py:500-512 | a take leaves transaction plus queue equal to the queue before it, with one owed task per batch |
| CollectorInvariants.LedgerStep | platform/collector/bench_collector/ingest.py:500-551 | every step keeps: accepted = settled + in the transaction + queued, in order, and the table is exactly the stored fates |
| CollectorInvariants.RunStep | platform/collector/bench_collector/ingest.py:314-379 | every step keeps the agreement of pointer, lock and active rows at each point of open and close |
| CollectorInvariants.SeqStep | platform/collector/bench_collector/ingest.py:215-232 | every step, crash and restore included, keeps the numbering facts of table, transaction and counters |
| CollectorInvariants.ReaderStep | platform/collector/bench_collector/ingest.py:496-584 | every step keeps what the waiting requests and the pages already read were promised |
| CollectorInvariants.InvAlways | platform/collector/bench_collector/ingest.py:215-584 | all invariants together hold in every reachable state |
| CollectorObject.Collector.PutNowait | platform/collector/bench_collector/ingest.py:304-309 | the batch is queued whole iff the queue is unbounded or below its bound |
| CollectorObject.Collector.Validate | platform/collector/bench_collector/ingest.py:404-468 | the validation loop refines the intake, and what it keeps says what the elements said |
| CollectorObject.Collector.Submit | platform/collector/bench_collector/ingest.py:395-494 | the loop makes exactly the submit step; the answer is what was accepted, dropped and discarded; what is queued says what the elements said, and the registry is given the hints |
| CollectorObject.Collector.RegisterCorrelation | platform/collector/bench_collector/ingest.py:268-310 | a registered hint makes exactly the correlation step: the registry is given it, it is counted, and its copy is queued with the active run or not at all |
| CollectorObject.Collector.TakeBatch | platform/collector/bench_collector/ingest.py:502-512 | the coalescing loop refines its specification |
| CollectorObject.Collector.NumberRows | platform/collector/bench_collector/ingest.py:526-542 | the numbering loop refines its specification |
| CollectorObject.Collector.WriterTake | platform/collector/bench_collector/ingest.py:500-542 | taking, coalescing and numbering make exactly the take step |
| CollectorObject.Collector.GroupByRun | platform/collector/bench_collector/ingest.py:527-542 | the per-run counts are the numbers of that run's rows in the batch |
| CollectorObject.Collector.AddCounts | platform/collector/bench_collector/ingest.py:546-549 | every run's event_count grows by its rows in the batch, and no other run's |
| CollectorObject.Collector.WriterCommit | platform/collector/bench_collector/ingest.py:544-550 | the transaction adds all rows and all counts at once |
| CollectorObject.Collector.TaskDone | platform/collector/bench_collector/ingest.py:518-520 | one task_done per batch taken; the join is released exactly when none is left |
| CollectorObject.Collector.WriterFail | platform/collector/bench_collector/ingest.py:515-520 | a failed write counts its events, stores nothing and releases its tasks |
| CollectorObject.Collector.WriterDone | platform/collector/bench_collector/ingest.py:551 | written is counted after the commit, then the tasks are released |
| CollectorObject.Collector.OpenRun | platform/collector/bench_collector/ingest.py:314-348 | refused iff a run is active and force is off; else the lock is taken for the close or the insert |
| CollectorObject.Collector.CloseCommit | platform/collector/bench_collector/ingest.py:363-376 | the close transaction: unknown run, nothing to write, failure, and the closing time kept if set |
| CollectorObject.Collector.CloseFinish | platform/collector/bench_collector/ingest.py:377-379 | after the commit the pointer no longer names the run and otherwise stays; with the rows agreeing before, exactly the pointer's row is active; the lock is free iff the close was asked for |
| CollectorObject.Collector.OpenCommit | platform/collector/bench_collector/ingest.py:349-351 | no row but the new one is touched, and on failure none; on success the run is new, the only active one, and every event count still matches its rows |
| CollectorObject.Collector.OpenFinish | platform/collector/bench_collector/ingest.py:352-354 | the pointer stands on the one active row, its next number is 1 and no other counter moved; the lock is free |
| CollectorObject.Collector.SelectPage | platform/collector/bench_collector/ingest.py:568-577 | stopping at the limit gives the first wanted rows of the full scan |
| CollectorObject.Collector.GetEvents | platform/collector/bench_collector/ingest.py:558-584 | the page holds rows of the run, kind and cursor asked for, all of them unless it is full; the last number is the cursor, or none |
| CollectorObject.Collector.LastSeq | platform/collector/bench_collector/ingest.py:229-232 | the largest stored number of the run, 0 if none |
| CollectorObject.Collector.Restart | platform/collector/bench_collector/ingest.py:215-232 | memory is emptied and the first active row adopted: exactly the crash step |
| Hosts.MatchesIffComparable | platform/collector/bench_collector/correlations.py:146-154 | the string test holds iff one dot-split label list is a suffix of the other (and the registered host is not empty) |
| Hosts.MatchesSymmetric | platform/collector/bench_collector/correlations.py:146-154 | the test is symmetric on non-empty hosts |
| Hosts.DottedSuffix | platform/collector/bench_collector/correlations.py:154 | ending in a dot and a name is having its labels as a proper suffix |
| CorrelationModel.PendingMeaning | platform/collector/bench_collector/correlations.py:70-86 | a filtered read returns exactly the live entries that match and lie past the cursor, in registry order |
| CorrelationModel.PendingExactly | platform/collector/bench_collector/correlations.py:79-86 | on the fields: an entry is returned iff it is stored, has not expired, lies past the cursor, and its labels and those asked for are one the end of the other |
| Hosts.NormalMeaning | platform/collector/bench_collector/correlations.py:81 | the host asked for loses the blanks around it, then the dots at its end, and is in small letters |
| CorrelationModel.RegisteredExactly | platform/collector/bench_collector/correlations.py:48-68 | a registration that fits drops what has expired and what has its id, and keeps every other entry |
| CorrelationModel.PutMeaning | platform/collector/bench_collector/correlations.py:59 | assignment keeps ids unique, replaces a known id in place and adds one otherwise |
| CorrelationModel.OrderKeptIff | platform/collector/bench_collector/correlations.py:75-77 | insertion order stays registration order iff the id is new or everything behind its old slot was registered at that same moment |
| CorrelationModel.OrderCanBreak | platform/collector/bench_collector/correlations.py:59 | witness: the first of two hints is registered again after the second |
| CorrelationModel.OverflowDropsOldest | platform/collector/bench_collector/correlations.py:63-67 | over the cap a new id drops exactly the entries pending longest, and is itself kept |
| CorrelationRuns.AlwaysInRegistrationOrder | platform/collector/bench_collector/correlations.py:48-77 | with a clock that does not go back and fresh ids, the registry is in registration order at every moment |
| CorrelationRuns.OverflowAlwaysDropsOldest | platform/collector/bench_collector/correlations.py:63-67 | at every moment, what a registration drops over the cap is no younger than anything kept, and the new hint is kept |
| CorrelationModel.CursorMissesIff | platform/collector/bench_collector/correlations.py:84-85 | a live hint not older than the cursor is missed iff it was registered at the very moment of the cursor |
| CorrelationRuns.PollMissesExactlyTheLate | platform/collector/bench_collector/correlations.py:79-86 | over any run of registrations and polls: a hint live at a poll has never been returned iff it was registered at or before the cursor of that time |
| CorrelationRuns.LateIff | platform/collector/bench_collector/correlations.py:84-85 | a registration is such a late one iff it falls on the cursor's own instant |
| CorrelationRuns.LateIsNeverSeen | platform/collector/bench_collector/correlations.py:79-86 | and a late one is never returned, at no later moment |
| CorrelationRuns.SameInstantIsMissed | platform/collector/bench_collector/correlations.py:84-85 | witness: two hints of one instant with a poll between them; the second is never returned |
| CorrelationRuns.SteppingBackMissesNothing | platform/oob/src/edge_resolver/correlation.py:326-344 | a poller that steps its cursor back, as the resolver does by a second, has been given every hint live when it polls |
| CorrelationRuns.CursorMeaning | platform/oob/src/edge_resolver/correlation.py:339-343 | the cursor never goes back, and stands at the newest hint seen less the margin or where it stood |
| CorrelationObject.CorrelationRegistry.Register | platform/collector/bench_collector/correlations.py:48-68 | the new entry with its id, its time and an expiry by the caller's ttl, else the hint's, else the registry's; the registry as specified; registered = live + expired + overflowed + discarded + replaced, and size within the cap |
| CorrelationObject.CorrelationRegistry.Trim | platform/collector/bench_collector/correlations.py:63-67 | the oldest go until the cap holds, each counted |
| CorrelationObject.CorrelationRegistry.PendingHints | platform/collector/bench_collector/correlations.py:79-86 | the loop returns the pending set and evicts the expired |
| CorrelationObject.CorrelationRegistry.Discard | platform/collector/bench_collector/correlations.py:126-127 | the entry with that id is removed and returned iff there is one |
| CorrelationObject.CorrelationRegistry.Evict | platform/collector/bench_collector/correlations.py:129-133 | deleting the collected keys leaves exactly the live entries, and counts the others |
| CorrelationObject.OutsideExpired | platform/collector/bench_collector/correlations.py:129-133 | deleting expired keys one by one is filtering by liveness |
| Waiters.InvStep | platform/collector/bench_collector/correlations.py:58-120 | every step keeps: a sleeper whose event is not set has no wanted hint in the registry, and every answer is right for its moment |
| Waiters.NoLostWakeUp | platform/collector/bench_collector/correlations.py:88-120 | in every interleaving, a sleeper with a wanted hint in the registry can wake, and gets the hint if it is still live when it checks |
| Waiters.EmptyMeansTimedOut | platform/collector/bench_collector/correlations.py:107-120 | an answer is exactly the live wanted hints of its moment, and is empty only without a timeout or past the deadline |
| Waiters.EmptyNotBeforeTimeout | platform/collector/bench_collector/correlations.py:107-120 | over any run an empty answer to a wait with a timeout comes no earlier than that long after the wait began |
| Waiters.LooksUntilTimeout | platform/collector/bench_collector/correlations.py:107-116 | from the call on: a wait that finds nothing sleeps as long as its timeout has not passed since the call, and answers after that or without a timeout; if there is something it answers with exactly that |
| Waiters.SleepsUntilTimeout | platform/collector/bench_collector/correlations.py:117-120 | a sleeper can be given up on exactly from the timeout after its call on, and is then answered with what is there |
| TransportTheorems.Conservation | sdk/dotnet/Internal.Telemetry/Transport.cs:126-152 | accepted = in the channel + dropped + read; the counters agree between operations; the queue count is never below the channel; the channel is a bounded suffix of what was accepted |
| TransportTheorems.DropsOnlyWhenFull | sdk/dotnet/Internal.Telemetry/Transport.cs:95-102 | a write costs a record only if the channel holds as many as it may, and then the oldest and no other |
| TransportSent.NothingLeftBehind | sdk/dotnet/Internal.Telemetry/Transport.cs:255-304 | a loop that ends of itself leaves an empty, completed channel, and every record accepted was dropped or handed over |
| TransportTheorems.AtMostOnce | sdk/dotnet/Internal.Telemetry/Transport.cs:255-304 | the records of all posted batches are a prefix of the records read and a subsequence of those accepted |
| TransportTheorems.DropsAccounted | sdk/dotnet/Internal.Telemetry/Transport.cs:306-327 | all drops = announced + silent by configuration + unreported |
| TransportTheorems.OnlyANoteExceeds | sdk/dotnet/Internal.Telemetry/Transport.cs:262-275 | a batch is larger than the batch size by one trailing note at most, and only if no drop was known when the room was chosen |
| TransportTheorems.CollectorCutLosesNoRecord | sdk/dotnet/Internal.Telemetry/TelemetryConfig.cs:110 | with a batch size within the collector's limit, the collector's cut loses no record of any posted body |
| TransportTheorems.EveryPassDrains | sdk/dotnet/Internal.Telemetry/Transport.cs:260-275 | with a batch size of two or more, every pass that was woken drains a record |
| TransportTheorems.PassDrainsIff | sdk/dotnet/Internal.Telemetry/Transport.cs:260-275 | from the choice of the room to the note, whatever producers do meanwhile: the pass drains nothing iff the batch size is one and a drop was unreported when it chose |
| TransportTheorems.PassCanDrainNothing | sdk/dotnet/Internal.Telemetry/Transport.cs:260-275 | witness: with batches of one, a pass over a waiting record takes nothing |
| TransportTheorems.FlushMeans | sdk/dotnet/Internal.Telemetry/Transport.cs:186-201 | when the two reads find zero, every record accepted up to the first is dropped, handed over or in the reader's batch, the last only inside the window |
| TransportTheorems.FlushedIff | sdk/dotnet/Internal.Telemetry/Transport.cs:186-201 | when the queue count reads zero, everything accepted by then and not dropped is handed over at any later moment iff the reader held no record at the read or the count of batches has moved on |
| TransportTheorems.FlushCanReturnEarly | sdk/dotnet/Internal.Telemetry/Transport.cs:269-281 | witness: both counts are zero while a record is neither dropped nor posted |
| TransportSent.SentIsAcceptedIff | sdk/dotnet/Internal.Telemetry/Transport.cs:348-357 | in every reachable state Sent is at least what the collector kept of the batches answered below 500, and equal iff each of those was kept whole: written, received and answered with success, a run active, room in the queue, within the limit, every item valid |
| TransportSent.CountedAsKeptIff | sdk/dotnet/Internal.Telemetry/Transport.cs:414-430 | batch by batch, unanswered ones included: counted as sent for what was kept of it iff it was kept whole (answered below 500) or not at all (not answered so) |
| TransportSent.KeptByIff | platform/collector/bench_collector/ingest.py:476-494 | what the collector keeps of a body: all of it iff a run is active, the queue has room, none is over the limit and each is valid; nothing iff no run is active, the queue is full or nothing within the limit is valid |
| TransportSent.SentIsWrittenIff | sdk/dotnet/Internal.Telemetry/Transport.cs:348-388 | Sent is the number of items in the bodies answered below 500 iff every item of those batches could be written |
| TransportSent.SentAndFailedAre | sdk/dotnet/Internal.Telemetry/Transport.cs:348-357 | Sent counts the items of the batches answered with a status below 500, Failed those of all others |
| TransportTheorems.GoodMeaning | sdk/dotnet/Internal.Telemetry/Transport.cs:364-388 | the body holds the items that can be written, in order, and nothing else |
| TransportSent.IdleCollectorCountsAsSent | platform/collector/bench_collector/app.py:214-243 | witness: a record written and answered with 202 while no run is active: one sent, none kept |
| TransportSent.WrongPathCountsAsSent | sdk/dotnet/Internal.Telemetry/Transport.cs:414-421 | witness: any answer below 500 from elsewhere counts: one sent, none kept |
| TransportSent.SentCanCountTheUnsent | sdk/dotnet/Internal.Telemetry/Transport.cs:364-388 | witness: a record that could not be written, in an empty body answered with 202: one sent, none kept |
| TransportCut.CutNoteCountsAsSent | sdk/dotnet/Internal.Telemetry/Transport.cs:306-327 | witness: a drop that races a full drain puts a note behind the largest batch; all is written and valid, 501 sent, 500 kept |
| TransportSent.LostAnswerCountsAsFailed | sdk/dotnet/Internal.Telemetry/Transport.cs:423-429 | witness: a record the collector kept is counted as failed when the answer is lost |
| TransportSent.HandedIsCountedIff | sdk/dotnet/Internal.Telemetry/Transport.cs:329-357 | sent + failed is the number of items handed over iff a client can be built or nothing was handed over |
| TransportSent.NoClientEndsTheLoop | sdk/dotnet/Internal.Telemetry/Transport.cs:460-468 | otherwise that batch was the only one, both counters are 0 and the loop is over |
| TransportTheorems.InvStep | sdk/dotnet/Internal.Telemetry/Transport.cs:126-357 | every step of producers, reader and shutdown keeps channel, counters, once-only delivery and batch shape |
| TransportTheorems.InvAlways | sdk/dotnet/Internal.Telemetry/Transport.cs:62-304 | and so they hold in every reachable state |
| TransportObject.Transport.TryWrite | sdk/dotnet/Internal.Telemetry/Transport.cs:95-102 | the drop-oldest write: refused iff completed, pushing the oldest out iff full |
| TransportObject.Transport.OnDropped | sdk/dotnet/Internal.Telemetry/Transport.cs:235-240 | the record moves from the queue count to the dropped ones, none lost between the two; as many are owed to the next note; every invariant of the channel, the counters, the delivery and the batches is kept |
| TransportObject.Transport.Enqueue | sdk/dotnet/Internal.Telemetry/Transport.cs:126-152 | undisturbed: the record is last in the channel, the oldest made room if there was none, and the counters say so; nothing when closed |
| TransportObject.EnqueueIsRun | sdk/dotnet/Internal.Telemetry/Transport.cs:126-152 | that call is one run of the step machine |
| TransportObject.Transport.Drain | sdk/dotnet/Internal.Telemetry/Transport.cs:262-273 | the drain takes the oldest records there is room for, in order |
| TransportObject.Transport.AppendDropNote | sdk/dotnet/Internal.Telemetry/Transport.cs:306-327 | the drop count is taken whole and announced iff positive and to be reported |
| TransportObject.Transport.PostBatch | sdk/dotnet/Internal.Telemetry/Transport.cs:329-357 | the batch is handed over once and counted as sent iff answered below 500, else as failed; as neither when no client can be built |
| TransportObject.Transport.RunPass | sdk/dotnet/Internal.Telemetry/Transport.cs:260-290 | an undisturbed pass posts the oldest records plus the note, once, leaves the rest in the channel, counts the batch, and goes on unless no client can be built |
| TransportObject.PassIsRun | sdk/dotnet/Internal.Telemetry/Transport.cs:260-290 | that pass is one run of the step machine |
| Paging.CollectorServes | platform/collector/bench_collector/ingest.py:558-584 | between any two moments the collector's table grows at its end and stays ascending per run: it is the service the client assumes |
| Paging.PageIsNext | platform/collector/bench_collector/ingest.py:573-577 | from the cursor after n rows the service returns the next rows of the stream, whatever gaps the numbers have |
| Paging.FetchNext | runners/_lib/collector.py:224-240 | one call yields the next rows of the stream as it is by then, all of the rest if the page is short, or fails |
| Paging.WritePage | runners/_lib/collector.py:236-258 | a page extends files and tallies to exactly the rows read: by scope, type and application, and requests by application |
| Paging.TalliesMeaning | runners/_lib/collector.py:236-258 | the tallies are numbers of rows: of each kind, of each application that is named, and of each application's requests that are not synthetic |
| Paging.OnlyMeaning | runners/_lib/collector.py:236-258 | each file holds the rows of its side of the scope, each as often as it was read, in order |
| Paging.ExportEvents | runners/_lib/collector.py:192-272 | the files are exactly the scan of the stream up to the cursor, split by scope, in order, kept + dropped = read; complete unless a call failed; terminates |
| Paging.CollectorClient.CountHttpRequests | runners/_lib/collector.py:274-305 | the count is that of the rows of the run that are http_request and not synthetic, up to the cursor, for every run and across repeated calls, failures and new rows; and of all of them when no call failed |
| Paging.InStepMeaning | runners/_lib/collector.py:274-305 | a count in step with its cursor is the number of organic requests of the run whose number is not above it |
| Paging.CountFrom | runners/_lib/collector.py:285-302 | the loop moves cursor and count together to the end of the stream or the first failure |
| Paging.Tally | runners/_lib/collector.py:295-299 | the organic requests of a page are counted and the largest number kept |
| Paging.ClosedExportIsWhole | runners/_lib/collector.py:192-272 | in a complete export of a closed run, a row of the run is in the first file iff it was stored and is in scope, and in the second, if there is one, iff it was stored and is out of scope |
| Paging.ClosedExportAccounts | runners/_lib/collector.py:192-272 | and kept + dropped + failed writes + crash losses of the run = the events ever accepted for it |
| Budget.BudgetWatch.Check | runners/_lib/budget.py:118-130 | request counts never fall; no reason iff the tool runs and neither limit is reached; completed iff it exited, else wall clock iff the time is up, else requests iff the count has reached the limit |
| Budget.PollUntil | runners/_lib/driver.py:475-489 | the loop goes past a poll only if the tool ran and time and count were below their limits; it ends with the first reason that applies, the count is the largest reading, and it ends within one poll of its own limit and of the global one |
| Budget.RunOne | runners/_lib/driver.py:413-513 | one invocation ends as its polling ended, within its share plus poll and grace and within the global limit plus poll and grace |
| Budget.Run | runners/_lib/driver.py:374-411 | each invocation begins where the one before ended, and only with time and count below their limits; it ends as its polling ended under its share; the others are skipped because a limit was reached, time before requests; the whole run ends by limit + poll + grace; it fails iff the unguarded reading fails |
| Budget.OnlyBelowIsFollowed | runners/_lib/driver.py:390-411 | of every invocation that another one follows, each reading made was below the limit of requests and the time was not up |
| Budget.EndedMeans | runners/_lib/driver.py:475-489 | how polling ends, on the readings: none before the last poll had reached the limit, gone means completed, and requests are the reason only if a reading or the count before had reached the limit |
| Budget.MostMeaning | runners/_lib/budget.py:118-122 | the count is the largest of the count before and the readings that succeeded, and below a limit iff each of them is |
| Budget.ShareMeaning | runners/_lib/driver.py:385-388 | as many shares as invocations make up the time left, unless that is less than a second each; then the share is a second |
| Budget.ShareNeverShrinks | runners/_lib/driver.py:385-388 | an invocation that uses at most its share leaves the next one at least as large a share |
| Resp.RoundTrip | targets/infra/selftest.py:258-271 | decoding what was encoded, with anything behind it, gives the same nested value and exactly the bytes behind it |
| Resp.RoundTripAll | targets/infra/selftest.py:268-270 | the same for a list of replies in a row |
| Resp.TruncatedIsClosed | targets/infra/selftest.py:239-271 | every proper prefix of a printed reply is read as a stream that ended |
| Resp.CommandRoundTrip | targets/infra/selftest.py:231-237 | a printed command decodes to the list of its arguments |
| Resp.ErrorsLookLikeText | targets/infra/selftest.py:261-262 | an error line decodes to the same value as a status line |
| Resp.OddReplies | targets/infra/selftest.py:258-271 | an empty line, an unknown kind or an unreadable number is an unexpected reply; a negative length is nothing |
| Resp.BulkEndIsNotChecked | targets/infra/selftest.py:265-267 | the two bytes behind bulk data are taken for its line end unseen |
| Resp.IntOfMeaning | targets/infra/selftest.py:264-269 | a number is digits with single underscores between them, at most one sign and white space around it, read from the left |
| Resp.KeyValue.SendCommand | targets/infra/selftest.py:231-236 | the bytes sent are the encoding of the arguments as an array of bulk strings |
| Resp.KeyValue.Line | targets/infra/selftest.py:239-247 | the line is cut at the first line end of all bytes to come, however they are split |
| Resp.KeyValue.Exact | targets/infra/selftest.py:249-256 | the first count bytes are returned and the others left, however they are split |
| Resp.KeyValue.ReadReply | targets/infra/selftest.py:258-271 | the answer and the bytes left are those of the parse of the whole stream: independent of how the blocks are cut |
| Resp.KeyValue.ReadItems | targets/infra/selftest.py:268-270 | an array reply is its items read one after the other |
| Multipart.ParseMultipart | sdk/dotnet/Internal.Telemetry/RequestAttributes.cs:327-384 | terminates, stays in range on every input, and gives the fields of the parts |
| Multipart.SplitFrom | sdk/dotnet/Internal.Telemetry/RequestAttributes.cs:344-381 | the cursor loop refines the split into parts |
| Multipart.PartsMeaning | sdk/dotnet/Internal.Telemetry/RequestAttributes.cs:338-356 | the parts are the pieces between delimiters, none of which holds one, up to the first that begins with two dashes; together with the text in front they are the whole body |
| Multipart.FieldOfMeaning | sdk/dotnet/Internal.Telemetry/RequestAttributes.cs:357-380 | a part gives a field iff it has a blank line with a name in the head before it; one line end at the very end is not part of the value |
| Multipart.QuotedMeaning | sdk/dotnet/Internal.Telemetry/RequestAttributes.cs:66-70 | a pattern finds the leftmost key with a quoted value behind it, or nothing if there is none |
| Multipart.KeyMatches | sdk/dotnet/Internal.Telemetry/RequestAttributes.cs:66-70 | a key stands where its letters do, small or capital |
| Multipart.BodyRoundTrip | sdk/dotnet/Internal.Telemetry/RequestAttributes.cs:327-384 | any list of fields is read back, names, file names and bytes in order, whatever other header lines and parameters their heads hold, with or without preamble and epilogue (section 5.1.1 of RFC 2046) |
| Multipart.PartRoundTrip | sdk/dotnet/Internal.Telemetry/RequestAttributes.cs:357-380 | a part gives its name, its file name and its bytes, for every head in which nothing earlier matches either key and no blank line comes early |
| Multipart.FileNameSurvivesIff | sdk/dotnet/Internal.Telemetry/RequestAttributes.cs:66-70 | with no quotes but the parameters' own in the head, the field comes back iff it has no file name, or its name does not end in the file key, or the file name is what the shadowed search reads |
| Multipart.NameIsFound | sdk/dotnet/Internal.Telemetry/RequestAttributes.cs:363-368 | in a head whose name stands before its file name (section 4.2 of RFC 7578), with any lines and parameters around them, the name pattern finds the field's own name |
| Multipart.FileNameIsFound | sdk/dotnet/Internal.Telemetry/RequestAttributes.cs:376-380 | and the file name pattern its own file name, or none when there is none |
| Multipart.OrdinaryIsReadable | sdk/dotnet/Internal.Telemetry/RequestAttributes.cs:66-70 | every head without stray quotes whose name does not end in the file key is such a head |
| Multipart.ShadowedFileName | sdk/dotnet/Internal.Telemetry/RequestAttributes.cs:69-70 | a name that ends in the file key: the text up to the file name's own quote is read as the file name |
| Multipart.FileFirstSurvivesIff | sdk/dotnet/Internal.Telemetry/RequestAttributes.cs:66-70 | for every head with the file name in front, whatever is behind it: the file name is read as the name too, so the field comes back iff it is named like its file |
| Multipart.FileWithTypeIsRead | sdk/dotnet/Internal.Telemetry/RequestAttributes.cs:357-380 | a file part with a disposition line and a content type line, as the clients send it, is read back |
| JsLiteral.ReadJsString | runners/_lib/normalise.py:754-770 | the loop refines the reading of a quoted string with escapes |
| JsLiteral.ScanLiteral | runners/_lib/normalise.py:723-751 | the loop refines the scan; the index advances in every turn |
| JsLiteral.ReadJsLiteral | runners/_lib/normalise.py:723-751 | the literal is the trimmed text the scan collected, None if there is none |
| JsRoundTrip.StrayBracketIsNone | runners/_lib/normalise.py:740-743 | a closing bracket that nothing opened means there is no literal |
| JsRoundTrip.OtherEscapesStay | runners/_lib/normalise.py:760-764 | a backslash in front of anything but a quote or a backslash stays |
| JsRoundTrip.TidyMeaning | runners/_lib/normalise.py:750-751 | the literal is the collected text without blanks around it, semicolons at its end, and blanks around that |
| JsRoundTrip.StringReadsBack | runners/_lib/normalise.py:754-770 | a string printed in either quote is read back, whatever it holds |
| JsonText.StringLoads | runners/_lib/normalise.py:736-737 | every string comes back from its JSON text, escapes and surrogate pairs included (section 7 of RFC 8259) |
| JsRoundTrip.TreeScans | runners/_lib/normalise.py:732-749 | inside brackets, a printed tree is collected as its JSON text, whatever its strings hold and however it is laid out |
| JsRoundTrip.JsonLoads | runners/_lib/normalise.py:723-751 | the JSON text of a tree is read by an independent reader as that tree: strings, words, order and nesting |
| JsRoundTrip.JsonTellsTreesApart | runners/_lib/normalise.py:723-751 | equal JSON text means equal trees, up to quotes and layout |
| JsRoundTrip.LiteralRoundTrip | runners/_lib/normalise.py:723-751 | any tree in either quote and any layout, followed by blanks, a semicolon and any tail: an independent JSON reader gets exactly that tree from the text returned, and the reading stops at its end |
| SourceMatcher.Contains | sdk/dotnet/Internal.Telemetry/SourceMatcher.cs:189-213 | the byte loop and mask decide equality of the leading bits |
| SourceMatcher.SameBytesIsPrefix | sdk/dotnet/Internal.Telemetry/SourceMatcher.cs:196-212 | the byte-and-mask test equals integer prefix equality for all addresses and lengths (section 3.1 of RFC 4632) |
| SourceMatcher.MaskIsDivision | sdk/dotnet/Internal.Telemetry/SourceMatcher.cs:205-212 | comparing two bytes under the mask is comparing their leading bits as numbers |
| SourceMatcher.LongerImpliesShorter | sdk/dotnet/Internal.Telemetry/SourceMatcher.cs:189-213 | a longer prefix is a smaller network |
| SourceMatcher.Compile | sdk/dotnet/Internal.Telemetry/SourceMatcher.cs:38-80 | the loop keeps exactly the readable entries with a length in range |
| SourceMatcher.CompiledIs | sdk/dotnet/Internal.Telemetry/SourceMatcher.cs:46-77 | a prefix is compiled iff some entry stands for it |
| SourceMatcher.Matches | sdk/dotnet/Internal.Telemetry/SourceMatcher.cs:83-101 | true iff some entry's prefix holds the folded address |
| SourceMatcher.VerdictsMean | sdk/dotnet/Internal.Telemetry/SourceMatcher.cs:38-101 | entry by entry: without a suffix it stands for one address, with a length in range for the addresses with those leading bits, else for nothing; the exporter compares plain forms, the collector addresses as they are |
| SourceMatcher.SdkIsCollectorFolded | platform/collector/bench_collector/ingest.py:248-264 | the exporter's verdict is the collector's once peer and list are folded (section 2.5.5.2 of RFC 4291) |
| SourceMatcher.FoldedListIsSameIff | platform/collector/bench_collector/config.py:52-65 | folding the list changes nothing iff no network of it is mapped |
| SourceMatcher.VerdictsDifferIff | platform/collector/bench_collector/ingest.py:248-264 | without mapped networks the two differ on a peer iff it is mapped and its IPv4 form is in the list while the address ::ffff:0:0 is not, or the other way round |
| SourceMatcher.MappedAlike | sdk/dotnet/Internal.Telemetry/SourceMatcher.cs:154-170 | a network that is not mapped itself holds every mapped peer or none |
| SourceMatcher.MappedPeerSplits | platform/collector/bench_collector/ingest.py:248-264 | witness: any peer of 10.77.0.0/16 in mapped form is in that network for the exporter and not for the collector |
| SourceMatcher.MappedNetworkSplits | sdk/dotnet/Internal.Telemetry/SourceMatcher.cs:154-170 | witness: with a mapped network in the list they disagree on a plain IPv4 peer |
| Attributes.KeyIsInjective | sdk/dotnet/Internal.Telemetry/ParamCollector.cs:89 | the space-joined key is equal iff location, name and digest are |
| Attributes.FirstsAreDistinct | sdk/dotnet/Internal.Telemetry/ParamCollector.cs:90-95 | first occurrences are pairwise distinct and in order of observation |
| Attributes.ParamCollector.AddEntry | sdk/dotnet/Internal.Telemetry/ParamCollector.cs:81-96 | the entries stay the first max first occurrences of everything added, and the flag says an add came beyond the bound |
| Attributes.ParamCollector.Flatten | sdk/dotnet/Internal.Telemetry/ParamCollector.cs:214-266 | flattening adds exactly the leaves of the document, in order |
| DocumentWalk.LeavesAreStops | sdk/dotnet/Internal.Telemetry/ParamCollector.cs:214-266 | the list is one entry for each route of the document that stops at a leaf, an empty container or the bound, each once, in document order; named by its keys joined with dots (empty ones in front left out, "body" if none is left), with the text found there |
| DocumentWalk.DigitsMeaning | sdk/dotnet/Internal.Telemetry/ParamCollector.cs:250-253 | an item's key is its index in decimal without leading zeros |
| DocumentWalk.ItemsNeverShareNames | sdk/dotnet/Internal.Telemetry/ParamCollector.cs:247-255 | no two items of one array share a name, nor anything found in them |
| Attributes.ParamCollector.DescribedAre | sdk/dotnet/Internal.Telemetry/ParamCollector.cs:214-266 | each leaf is described by its name, the location, and a digest of its text |
| Attributes.TruncatedMeans | sdk/dotnet/Internal.Telemetry/ParamCollector.cs:83-87 | something is left out iff there are more than max different inputs, and then the flag is set; the flag is set with nothing left out iff there are exactly max and the last add is a repeat |
| Attributes.BeyondMeansSomeAdd | sdk/dotnet/Internal.Telemetry/ParamCollector.cs:81-96 | the flag is set iff some add came when the bound had been reached |
| Attributes.RepeatSetsTruncated | sdk/dotnet/Internal.Telemetry/ParamCollector.cs:83-87 | witness: the flag is set with nothing left out |
| Attributes.FlattenInto | sdk/node/src/attributes.ts:78-105 | early exits give exactly the leaves of the full flattening, cut at the bound |
| Attributes.FlattenChildren | sdk/node/src/attributes.ts:97-101 | the same for the children of one container |
| Attributes.ObserveRecord | sdk/node/src/attributes.ts:108-121 | the same for a record of values, each under its own key |
| DocumentWalk.RecordListed | sdk/node/src/attributes.ts:108-121 | a record is flattened like an object that holds its values |
| Attributes.UpToMeaning | sdk/node/src/attributes.ts:78-105 | the list keeps what it held and goes on with the new ones in order until it holds the bound or there are no more |
| Attributes.UpToTwice | sdk/node/src/attributes.ts:86-98 | filling up to the bound in two goes is filling up in one |

## Left out

- SQLAlchemy, SQLite and Postgres, FastAPI, pydantic, the .NET channel, HTTP client and JSON writer, asyncio: the store is two tables with all-or-nothing commits, validation an arbitrary verdict, a post an arbitrary answer, a suspension a step boundary.
- Commits that take effect although they report a failure, and cancellation of a task inside a transaction.
- A graceful stop of the collector (lines 203-213 of ingest.py): it only flushes first; the crash step covers the restart.
- Merging of run addresses and the run's descriptive fields: only whether a close brings addresses that change the record is kept.
- What the restore query returns is a parameter constrained by the query; so is the set of bad bodies the HTTP layer counts.
- CollectorObject.Collector.Submit: the collector's state holds the registrations in order; what the registry makes of each is the contract of `CorrelationRegistry.Register` and is not repeated there. Peer stamping is left out.
- CollectorObject.Collector.RegisterCorrelation: the same holds for its one registration.
- The waiters' long poll and the interleavings of collector and exporter are modelled on values, as steps; within a step nothing is shared.
- PassDrainsIff, EveryPassDrains, CollectorCutLosesNoRecord: assume a batch size in the range 1 to 500 that the configuration clamps it to.
- Wrap-around of the exporter's 32-bit counters, and links sent outside the queue.
- Posts: a proxy that forwards a body to the collector and replaces its 202 by another answer below 500. The client is built, or fails to be, the same way every time.
- Paging: a page body that is not JSON counts as a failed call.
- CorrelationRuns: a poll whose fetch fails changes nothing and is no step; the resolver's clock is never at zero, which it would take for no time at all.
- Budget.Run: time passes only while polling and stopping, an interrupt arrives only in a sleep, and starting a container takes no time; exit codes, logs, artifacts and the meter at the start are left out.
- Decoding of text replies from UTF-8, and the second encoder of the same file.
- Multipart: reading the boundary from the content type, and URL-encoded bodies. Names come back with their escapes as written, as in the original.
- JsLiteral: the search for assignments and the final decoding of the JSON text.
- SourceMatcher: the textual form of addresses, ports, brackets and interface suffixes, and netmask suffixes; addresses are their bytes, suffixes numbers.
- Attributes: samples, lengths and the exact text of a scalar; the digest is a function parameter, and the two SDKs' different texts for null are one text per leaf.
- Case folding and trimming are for ASCII, for hosts and in JsLiteral alike: the further separators that Python's `strip` takes are not blanks in the model.
- Finding normalisers, container and compose plumbing, the orchestrator's command line and record, the target pages and replay payloads: they would add only easy members.
