# Verified model of linuxdesktop

A Dafny model of five parts of the linuxdesktop library, with proofs: the file
watcher and the client that consumes its events, versioned settings commits over the
durable file write, the registry `.reg` codec, the editing of `mimeapps.list`, and
three smaller pieces (migration execution, the inotify indexes, path lists).
`dafny verify dfyconfig.toml` checks all of it.

How the model is built:

- Code that changes state is a class or a method with loops (`Watcher.Impl`,
  `OverloadAdapter.WatcherOverloadAdapter`, `FileWriter.Disk`, `SettingsWriter`,
  `MimeApps.MimeappsFile`, `Migration.Executor`, `InotifyIndex.InotifyBackend`, and the
  loops of the codecs). Each such method is tied to a function or state machine on
  values, and the theorems are about that.
- Threads and processes are interleavings of atomic steps: one step for each region
  under the watcher's mutex, and one for each call to the operating system in a file
  write. A run is any sequence of steps, so a crash is a run that ends.
- What the operating system answers is data, never a choice of the program: a script of
  answers (`FileWriter.Disk.script`, `DurableWrite.Answer`) or parameters such as
  `SettingsWriter.Calls` and `Migration.Calls`, so every outcome is stated exactly. What
  is left to `:= *` is where a failing sequence of calls stops, and what it leaves.
- Constants, formats and limits of the code are stated as literals, and what a function
  computes is stated without that function: what lies between two semicolons, what a
  line of a file means, when a check is due.
- A `string` in the codecs is a sequence of octets.

| part | files |
|---|---|
| shared | Prelude, Text, Order |
| watcher | WatchEvents, EventQueue, SettleKeys, SettlePolling, SettleScheduler, SettleHistory, SettleSeries, Watcher, OverloadAdapter, Pipeline, PipelineProgress, PipelineTargets |
| settings | DurableWrite, DurableWriteSafety, DurableWriteOrder, FileWriter, VersionedCommit, VersionedProgress, SettingsWriter |
| registry | RegText, RegLines, RegSnapshot, RegRoundTrip, RegPrinting, RegReading, RegWrapping, RegBlanks, RegUnicode |
| mimeapps | MimeApps, MimeAppsRoundTrip, MimeAppsEdits, MimeAppsWriting |
| others | Migration, InotifyIndex, PathLists |

Main results: `Pipeline.EveryRunIsSafe`, `PipelineProgress.ReadingCatchesUp` and
`PipelineTargets.MissedExactlyIfExposed`; `EventQueue.QueueIsLossyFifo` and
`EventQueue.NoLossExactly`;
`SettleHistory.SettleRuns`, `SettleSeries.CompletionsSettle` and
`SettleHistory.CapacityInEveryRun`; `SettleSeries.StableIsNotHeldBack`;
`VersionedCommit.NoLostUpdate` and `VersionedProgress.CommitCanSucceed`;
`DurableWriteSafety.ExactlyOldOrNew`, `NeverLosesExactly` and `ReportIsTrue`;
`RegRoundTrip.RoundTrip`, `RegReading.AcceptedExactly`, `RegReading.MeaningOfLines` and
`RegPrinting.PrintedLayout`; `MimeAppsRoundTrip.RoundTrip`, `MimeApps.WhatIsParsed` and
`MimeAppsEdits.ApplyIsFound`; `Migration.Executor.ExecutePlan`,
`Migration.ContentSurvives`, `Migration.GoodActionSucceeds` and
`Migration.MisleadsExactly`;
`InotifyIndex.EveryRunAgrees`; `PathLists.ParsedPathsAreFixed`.

Where the code does less than one would expect, the model keeps the code's behaviour,
the exact condition is proved, and a lemma shows that the exception is real:

- The settle stage replaces a pending event by a later one for the same watch and
  absolute path (src/watch.cpp:539-548), the client files events by the relative path
  (docs/FlavorTests/nextcloud/src/nextcloud_flavor.cpp:109-137), and the backend
  computes that path by resolving links (src/watch_inotify.cpp:766-769). When the two
  events have different relative paths, the path of the first may never be decided, nor
  a rescan be made that only the first one asked for.
  `PipelineTargets.MissedExactlyIfExposed` says, for every sequence of events and each
  event of it, when a run without removals can leave that event without an answer of
  its own: exactly if the event, and each later one that would answer it too, is
  followed by an event that can take its place.
  `PipelineTargets.LinkRenamedOver` is the smallest case. What always holds is that the
  event or one that can take its place is answered (`Pipeline.DrainedMeansAnswered`), and
  the event itself if its watch has no settle options
  (`PipelineTargets.UnsettledIsAnswered`).
- The kernel's overflow event carries no watch id (src/watch_inotify.cpp:773-787), so
  the watcher drops it (src/watch.cpp:444): `Pipeline.SourceZeroIsDropped`.
- A `.reg` file gives the snapshot back only for the snapshots of
  `RegRoundTrip.InDomain`: the first value must sit in the root key, names have no `=`,
  no line contains `=-`, strings have no NUL, and so on (`RegRoundTrip.RoundTrip` is an
  if-and-only-if).
- The durable write ignores an error of the existence probe before the backup
  (src/durable_file_write.cpp:387, 476). `DurableWriteSafety.BackupIsOld`: once the
  target has changed, the backup is the old content exactly if the probe did not fail or
  the backup was the old content before. A write with a backup never loses the old
  content, in any run, exactly if it is empty or in the backup already, or, in atomic
  mode, if it cannot be replaced by another: `DurableWriteSafety.NeverLosesExactly`, with
  `FailedProbeLosesOld` and `FailedProbeInstalls` as the runs that lose it.
- A restore after a failed readback copies over the target, so a crash in it can leave
  a beginning of the old content even in atomic mode (`DurableWriteSafety.RestoreCanTear`,
  `TargetIsABeginning`). All runs keep the old or the new content exactly if no backup is
  kept, there is no old content, every beginning of it is the old or the new content (it
  is empty, or one octet that nothing replaces), the content is rejected, or no name for
  a temporary file is free: `DurableWriteSafety.ExactlyOldOrNew`.
  `VersionedCommit.NoLostUpdate` has the same exception.
- An association is found after it was added exactly if the section name and the key
  survive the text; a key that starts with `#`, for one, does not:
  `MimeAppsEdits.ApplyIsFound`.
- A default application for a key that starts with `x-scheme-handler/` is accepted
  without looking at the rest of the key; it is found again exactly if the key has
  neither `=` nor a newline: `MimeAppsEdits.DefaultIsFound`.
- Rendering `mimeapps.list` escapes backslashes and parsing does not unescape, so every
  edit doubles the backslashes of the other keys: `MimeAppsEdits.OtherKeysKeepTheirIds`,
  `ApplyTwiceIsApplyOnce` and `RemoveUndoesApply` (each holds exactly if there are none).
- An iterator that reports an error becomes the end iterator (section
  [fs.class.directory_iterator] of ISO C++17), so the checks of `ec` inside the loops at
  src/migration_internal.hpp:323-331 and 161-169 are not reached after a failed
  increment, and a scan that breaks off after its first entry counts as a scan that
  ended. After a successful verification the target mirrors the source exactly if the
  entries that the scan did not reach match too (`Migration.VerifiedMirrors`). Some scan
  misleads exactly for the trees in which an entry that can come first has its copy and
  some entry has not (`Migration.MisleadsExactly`); `Migration.BrokenScanLosesFile` has
  two files, of which the second is lost.
- When the removal of a moved source fails half way, the rollback removes the copy
  (src/migration_filesystem.cpp:148-170), and with it the only copy of what was already
  removed: `Migration.RollbackLosesFile`.
- A validated path that differs from its known record only in `exists` needs a sync but
  is reported as matching: `OverloadAdapter.ValidationIsExact`.
- The path-list fixed point needs no assumption on the separator: it also holds for `/`
  and `.` (`PathLists.SeparatorStaysOut`).

## Model

| member | source | states |
|---|---|---|
| Pipeline.EveryRunIsSafe | src/watch.cpp:432-921 | pull mode, until stop, with watches added and removed: in every reachable state of the backend worker, settle worker, queue and client each accepted event is in the settle stage, queued, in the client's hand or adapter, or answered by a flush after its arrival - itself or, if its watch has settle options, by a later event for its watch and path that can take its place there, or a rescan demand is on its way or was flushed - or its watch was removed after it was accepted; the relative path of an event is whatever the backend reported |
| Pipeline.DrainedMeansAnswered | docs/FlavorTests/nextcloud/src/nextcloud_flavor.cpp:109-171 | once nothing is pending, queued or in the adapter, for each accepted event whose watch was not removed since, a flush after its arrival demanded a full rescan or decided the path of the event, or, if its watch has settle options, of a later one that can take its place and came before that flush |
| Pipeline.WorkCovers | src/watch.cpp:432-655 | no step of the settle stage forgets an event it holds: it stays there, a later event for the same watch and path stands for it, what is handed to the queue bears it, or its watch is removed |
| Pipeline.SupersededByPending | src/watch.cpp:539-547 | a held settle task that is no longer current has left its place to a pending one for the same watch and path with an event at least as late, or its watch was removed |
| Pipeline.PushBears | src/watch.cpp:845-866 | a push, even one that evicts or drops, leaves in the queue the event or a rescan marker for every event that was in it and for the new one |
| Pipeline.PopBears | src/watch.cpp:868-877 | popping loses no event other than the popped one, and keeps the marker in front while overflowed |
| Pipeline.IngestBears | docs/FlavorTests/nextcloud/src/nextcloud_flavor.cpp:109-137 | ingesting keeps every covered path a candidate or raises the full-rescan flag |
| Pipeline.FlushAnswers | docs/FlavorTests/nextcloud/src/nextcloud_flavor.cpp:139-171 | what a flush clears from the adapter is answered by that flush |
| Pipeline.SourceZeroIsDropped | src/watch.cpp:432-446 | in every reachable state an event without a watch id, as the kernel's overflow event is, changes nothing |
| PipelineProgress.ReadingCatchesUp | src/watch.cpp:285-292 | from every reachable state the workers and the client can go on, without turning back the clock, to a drained pipeline in which every accepted event whose watch was not removed is answered, with no further event |
| PipelineProgress.SettleMove | src/watch.cpp:558-655 | in every reachable state with work in the settle stage some step brings it strictly closer to being empty |
| PipelineTargets.MissedExactlyIfExposed | src/watch.cpp:539-548 | for every sequence of events and each event of it: some drained run, with a steady clock and no removal, accepts exactly these events and leaves that one without a rescan or a decision of its own path if and only if the event, and every later one that would answer it too, is followed by an event that may settle, for the same watch and path |
| PipelineTargets.SamePathIsAnswered | docs/FlavorTests/nextcloud/src/nextcloud_flavor.cpp:109-137 | if every later event that can take its place is filed under the same path or demands a rescan, each drained run without removals answers the event itself |
| PipelineTargets.UnsettledIsAnswered | src/watch.cpp:476-492 | in every drained run an accepted event that does not settle, or whose watch has no settle options, is answered by a rescan or a decision of its own path, unless its watch was removed |
| PipelineTargets.LinkRenamedOver | src/watch_inotify.cpp:753-771 | a created file whose path becomes a link to another file before it has settled: its own path can stay undecided |
| PipelineTargets.DeliverFirst | src/watch.cpp:570-615 | with no stable time the settle worker delivers the first due event unchanged and leaves the others pending |
| EventQueue.QueueIsLossyFifo | src/watch.cpp:845-904 | over all runs of pushes and pops: at most 512 events; kept events come out in input order; while overflowed the front, and only it, is a degraded marker with the current count; a loss is announced before any event that arrived after it; each marker stands for its count plus one inputs; every input is kept or lost once (when a loss begins: GapOpensExactly) |
| EventQueue.NoLossExactly | src/watch.cpp:845-877 | over all runs: every pushed event is kept if and only if at no point of the run more than 512 of them were pushed and not popped; then popped and waiting events together are all pushed ones, in order |
| EventQueue.GapOpensExactly | src/watch.cpp:845-866 | a loss begins exactly at a push that finds 512 events and no overflow, and takes the front and the new event; a push that finds fewer appends; a push during an overflow adds the new event to the loss and changes nothing behind the front |
| EventQueue.OverflowsExactly | src/watch.cpp:855-862 | an overflow starts exactly at a queue of at least 512 events that is not overflowed |
| EventQueue.NothingVanishesUncounted | src/watch.cpp:845-877 | popped and queued events, a marker counting as its reported number plus one, add up to all events ever pushed |
| EventQueue.InputAppearsOnce | src/watch.cpp:845-877 | each input index occurs exactly once in the trace of kept events and gaps |
| EventQueue.PushKeeps | src/watch.cpp:845-866 | one push keeps the lossy-FIFO invariant, in all three branches |
| EventQueue.PopKeeps | src/watch.cpp:868-877 | one pop keeps the lossy-FIFO invariant and the trace, and leaving a marker ends the overflow episode |
| SettleKeys.KeyIsInjective | src/watch.cpp:494-497 | distinct watches or paths have distinct settle keys, although paths may contain newlines |
| SettleKeys.PrefixSelects | src/watch.cpp:499-507 | the prefix of an id selects exactly the settle keys of that watch |
| SettlePolling.SeriesDeliversAtFirstReason | src/watch.cpp:657-730 | a series of polls delivers at the first sample that has timed out, failed to read, or ended a run of equal samples spanning the stable time, with exactly that diagnostic added, and waits as long as none has; the reasons are defined from the samples alone |
| SettlePolling.ReadyMeansStable | src/watch.cpp:716-729 | settle-ready is attached only if all samples since some poll are equal and readable and span at least stable_for |
| SettlePolling.TimeoutBound | src/watch.cpp:670-722 | for a series of polls none of which is early: with timeout T and interval P at most ceil(T/P)+1 polls are needed whatever the file does, and next_check_at never passes timeout_at |
| SettlePolling.NoStableTime | src/watch.cpp:666-668 | with stable_for at most zero the first poll delivers the event unchanged |
| SettlePolling.NextCheckIsExact | src/watch.cpp:704-722 | a poll that does not deliver sets the next check exactly one interval later (100 if the option is not positive), or at the timeout if that comes first, and the timeout runs from the first poll |
| SettlePolling.StableIsDelivered | src/watch.cpp:657-730 | polled exactly when due, a readable file that stops changing at some poll is delivered as ready at most ceil(stable_for/P) polls later, if that is before the timeout |
| SettlePolling.WaitsOnlyWhileUnstable | src/watch.cpp:704-729 | for every series of polls none of which is early: while a settle task waits, its file has been the same for less than the stable time and at most ceil(stable_for/P) polls |
| SettlePolling.WaitingIsDueAfter | src/watch.cpp:670-722 | after any series that waits, the settle task is due one interval after its last poll, or at its timeout if that comes first |
| SettlePolling.DeliveredWithNote | src/watch.cpp:670-729 | a poll that delivers adds exactly one diagnostic, with its code and text: timeout first, then the error of the file, else ready, and ready only for an unchanged file after the stable time |
| SettleScheduler.ActKeepsInvariant | src/watch.cpp:432-655 | every critical section of the backend worker, settle worker and API callers keeps: deadlines are exactly those of the pending tasks, the slots are exactly the pending keys and the held current key, ids are fresh |
| SettleScheduler.EnqueueAgrees | src/watch.cpp:525-556 | enqueueing, replacing or refusing keeps the deadline set and the generation map in agreement with the pending tasks |
| SettleScheduler.DeadlinesAfterPut | src/watch.cpp:541-554 | replacing a pending task replaces exactly its deadline |
| SettleScheduler.CancelAgrees | src/watch.cpp:499-523 | removing a watch keeps the three indexes in agreement, whatever the worker holds |
| SettleScheduler.NoStaleDeadline | src/watch.cpp:584-589 | every deadline belongs to a pending task with its time and generation, so the branch that skips a stale deadline is never taken |
| SettleScheduler.TakeDueAgrees | src/watch.cpp:574-592 | the first deadline, once due, takes the pending task it indexes and keeps the agreement; before, nothing changes |
| SettleScheduler.DebouncePostpones | src/watch.cpp:539-554 | an enqueued event is taken only after its debounce time, fresh, and with a generation above that of every earlier event for the path |
| SettleScheduler.CompleteAgrees | src/watch.cpp:646-655 | completing a current task frees its slot; it is not pending then |
| SettleScheduler.RescheduleAgrees | src/watch.cpp:616-627 | putting a current unfinished task back keeps the agreement |
| SettleScheduler.PollKeepsIdentity | src/watch.cpp:657-730 | a poll changes nothing of the event but its diagnostics, and neither key nor generation |
| SettleScheduler.ClassifiedExactly | src/watch.cpp:476-492 | an event settles exactly if it is a creation, a modification or a new name, not of a directory, under a watch with settle options |
| SettleScheduler.AdmittedExactly | src/watch.cpp:525-556 | nothing after stop or removal; a new path beyond the capacity becomes exactly the overflow event with the capacity; any other event is scheduled fresh, due exactly its debounce time later, with its generation raised by one, and nothing else changes |
| SettleScheduler.EarliestIsTaken | src/watch.cpp:574-592 | the first deadline is not later than that of any pending settle task, and it is taken exactly when it has come |
| SettleScheduler.CancelledExactly | src/watch.cpp:499-523 | removing a watch cancels exactly the pending settle tasks of that watch and leaves the others as they are |
| SettleScheduler.AcceptedExactly | src/watch.cpp:200-221 | events are accepted exactly from active watches until stop, what does not settle goes on unchanged, and ids count up from one even over refused watches |
| SettleScheduler.PolledExactly | src/watch.cpp:600-664 | a held settle task is polled exactly if it is current, under the options its watch has then, and skipped if the watch is gone |
| SettleScheduler.FinishedExactly | src/watch.cpp:606-655 | a polled settle task that is current gives up its slot and is delivered, or is put back as it is; one that is not current is dropped, never delivered |
| SettleScheduler.NothingAfterStop | src/watch.cpp:238-249 | stop is final: nothing is accepted, scheduled, polled or completed any more, and all that still comes out is what a worker held |
| SettleHistory.SettleRuns | src/watch.cpp:432-655 | in every run: agreement until stop; every slot belongs to the event scheduled last for its key; a completion is always of the event scheduled last for its key, with no later event, removal or completion between, although generations restart |
| SettleHistory.SupersedesHeld | src/watch.cpp:539-540 | a later event for the key of the held task makes it not current |
| SettleHistory.ScheduledWorkIsKept | src/watch.cpp:525-655 | before stop, the event scheduled last for a key, neither completed nor cancelled, is pending under its deadline or held by the worker |
| SettleHistory.RoutedEventsSettle | src/watch.cpp:476-492 | an event routed to the settle stage finds the settle options it was routed by, so the optional is never empty |
| SettleHistory.FirstDeadlineExists | src/watch.cpp:408-419 | the deadline order has a least element in every non-empty set |
| SettleHistory.WorkerMakesProgress | src/watch.cpp:570-593 | with work pending there is a first deadline, it is that of a pending task, and once due that task is taken: the worker never spins |
| SettleHistory.CapacityInEveryRun | src/watch.cpp:531-538 | in every reachable state every non-empty set of active watches uses at most as many slots as the largest max_pending_paths among them |
| SettleSeries.SeriesRuns | src/watch.cpp:558-730 | in every run with a steady clock: every pending task, and the held one while current, has been polled only when due since it was scheduled, as one series from the fresh task under the options of its watch, and a completion ends such a series |
| SettleSeries.CompletionsSettle | src/watch.cpp:558-730 | over all runs: between the scheduling of an event and its completion there are at most ceil(T/P)+1 polls; the first poll with a reason delivers, exactly that diagnostic is added, and settle-ready means equal readable samples over the stable time |
| SettleSeries.PendingIsWithinTimeout | src/watch.cpp:670-722 | in every reachable state a pending task was polled at most ceil(T/P) times since it was scheduled, and its next check is not after its timeout |
| SettleSeries.HeldIsDue | src/watch.cpp:570-593 | in every reachable state the current task that the worker holds is due: the worker is never early |
| SettleSeries.SeriesGrows | src/watch.cpp:657-730 | one more due poll of a waiting task makes its series one longer, waiting or delivered |
| SettleSeries.StableIsNotHeldBack | src/watch.cpp:558-730 | in every reachable state before stop: a pending settle task whose file has been the same since some poll was polled at most ceil(stable_for/P) times since, for less than the stable time, and is due exactly one interval after its last poll or at its timeout, so polls that come when due deliver a stable file that soon |
| SettleSeries.ScheduledIsDueAfterDebounce | src/watch.cpp:541-554 | a scheduled event is pending under a deadline exactly its debounce time later |
| Watcher.Impl.EnqueueLocked | src/watch.cpp:845-866 | the queue becomes exactly the specified push, with fewer than 512 waiting and no overflow the event appended; never more than 512; the state degrades exactly on a degraded event or a new overflow |
| Watcher.Impl.RefreshOverflowDiagnostic | src/watch.cpp:889-904 | only the first queue-overflow diagnostic of an overflow front is rewritten, with the current count |
| Watcher.Impl.PopQueueFront | src/watch.cpp:868-877 | returns the front and leaves the specified queue, resetting the overflow exactly for a marker |
| Watcher.Impl.PollEvent | src/watch.cpp:285-292 | nothing from an empty queue, otherwise the popped front |
| Watcher.Impl.EnqueueCallbackLocked | src/watch.cpp:825-843 | the callback queue follows the same push, with the same bound of 512 |
| Watcher.Impl.PopCallbackFront | src/watch.cpp:790-795 | the delivery worker's pop follows the same specification |
| Watcher.Impl.HandleCallbackException | src/watch.cpp:766-776 | the callback is cleared, the state degrades, and the failure event goes to the pull queue |
| Watcher.Impl.DeliverPopped | src/watch.cpp:801-823 | nothing after stop, the pull queue without a callback, and a failure event there if the callback threw; the state degrades exactly for a degraded event or a new overflow of the pull queue, and for an exception |
| Watcher.Impl.Deliver | src/watch.cpp:732-743 | the event goes to exactly one of the two queues, by whether there is a callback; the state degrades exactly for a degraded event or a new overflow of that queue |
| Watcher.Impl.EnqueueForSettle | src/watch.cpp:525-556 | slots, deadlines and generations become those of the specification, or the overflow event is handed over and the state degrades exactly when a new path exceeds the capacity |
| Watcher.Impl.CancelSettleTasksFor | src/watch.cpp:499-523 | the three loops erase exactly the entries with the watch's prefix from all three indexes |
| Watcher.Impl.AddWatch | src/watch.cpp:200-221 | ids are given out once, even to a refused watch; nothing after stop |
| Watcher.Impl.RemoveWatch | src/watch.cpp:223-236 | the watch and its settle state are removed exactly if the backend knew it |
| Watcher.Impl.Stop | src/watch.cpp:238-249 | only the first stop changes the state |
| Watcher.Impl.TakeDueTask | src/watch.cpp:570-593 | takes the settle task of the first deadline as specified |
| Watcher.Impl.PollSettleTask | src/watch.cpp:657-730 | the step-by-step poll computes the specified verdict and settle task (NextCheckIsExact, DeliveredWithNote), and skips if the watch is gone |
| Watcher.Impl.CompleteIfCurrent | src/watch.cpp:646-655 | completes exactly the current task of a running watcher |
| Watcher.Impl.RescheduleIfCurrent | src/watch.cpp:616-627 | puts exactly a current task back, with its deadline |
| OverloadAdapter.ValidationIsExact | docs/FlavorTests/nextcloud/src/nextcloud_flavor.cpp:10-45 | a path needs no sync exactly if its final state equals the known one; the reason is wrong exactly when only existence differs |
| OverloadAdapter.ReasonIs | docs/FlavorTests/nextcloud/src/nextcloud_flavor.cpp:10-30 | what each of the six reasons says of the known and the final state, exactly |
| OverloadAdapter.SyncTreeSnapshot.Remember | docs/FlavorTests/nextcloud/src/nextcloud_flavor.cpp:80-83 | records the known state of exactly one path |
| OverloadAdapter.SyncTreeSnapshot.SetCurrent | docs/FlavorTests/nextcloud/src/nextcloud_flavor.cpp:85-90 | records the final state of exactly one path |
| OverloadAdapter.WatcherOverloadAdapter.IngestEvent | docs/FlavorTests/nextcloud/src/nextcloud_flavor.cpp:109-137 | candidates, counters and the rescan flag after one event, in all four branches |
| OverloadAdapter.WatcherOverloadAdapter.Flush | docs/FlavorTests/nextcloud/src/nextcloud_flavor.cpp:139-171 | the batch decides every pending path exactly once by the snapshot, or none after a rescan demand; the counters add up; the adapter is reset |
| OverloadAdapter.Decide | docs/FlavorTests/nextcloud/src/nextcloud_flavor.cpp:148-160 | one validated decision per path; sync items and spurious candidates are counted without gap |
| OverloadAdapter.AdapterAccounts | docs/FlavorTests/nextcloud/src/nextcloud_flavor.cpp:109-137 | after any events since a flush: a full rescan is demanded exactly if one of them demands it or their distinct paths exceed the limit; otherwise the candidates are exactly their paths; the candidates never exceed the limit; raw, overflow and dropped counts account for every event |
| OverloadAdapter.RescanExactly | docs/FlavorTests/nextcloud/src/nextcloud_flavor.cpp:104-137 | no rescan is demanded exactly if every event is calm - no rescan flag, neither overflow nor error, and a path to file it under - and the distinct paths they name are at most the limit, which is at least one |
| OverloadAdapter.LastIsHeld | docs/FlavorTests/nextcloud/src/nextcloud_flavor.cpp:136 | each candidate holds the last event that names its path |
| OverloadAdapter.TargetIs | docs/FlavorTests/nextcloud/src/nextcloud_flavor.cpp:68-76 | an event is filed under its relative path, or under what follows the last slash of its absolute path |
| OverloadAdapter.FileNameIs | docs/FlavorTests/nextcloud/src/nextcloud_flavor.cpp:68-76 | the fallback target is what follows the last slash of the absolute path |
| OverloadAdapter.OneMoreDecision | docs/FlavorTests/nextcloud/src/nextcloud_flavor.cpp:149-159 | appending the decision of a new path keeps the decisions exact |
| DurableWriteSafety.ExactlyOldOrNew | src/durable_file_write.cpp:396-526 | atomic mode: after every call of every run, so after a crash too, the target is exactly the old or the new content if and only if no backup is kept, there is no old content, the old content is empty or a single octet that nothing replaces, validation rejects the content, or no name for a temporary file is free |
| DurableWriteSafety.NothingToRestore | src/durable_file_write.cpp:396-526 | in all these cases but the last every run keeps old or new, and with a rejected content the old one |
| DurableWriteSafety.OldOrNew | src/durable_file_write.cpp:396-526 | atomic mode, all other cases too: the target is old or new until a restore after a failed readback begins, and then possibly a beginning of the old; it never changes to a content that validation rejects |
| DurableWriteSafety.BackupIsOld | src/durable_file_write.cpp:387-394 | with keep_backup, whenever the target differs from the old content: the backup is the old content if and only if the existence probe did not fail or the backup was the old content at the start; after a failed probe the backup is what it was; in atomic mode it is the old content in any case while the target is neither old nor new |
| DurableWriteSafety.NeverLosesExactly | src/durable_file_write.cpp:372-535 | with keep_backup and an old content: in every run, stopped at any call, the old content, unless empty, is in the target or in the backup if and only if it is empty or in the backup at the start, or the mode is atomic and the new content is the same, is rejected, or no name for a temporary file is free |
| DurableWriteSafety.FailedProbeInstalls | src/durable_file_write.cpp:476-498 | in atomic mode a run in which the probe error is ignored installs the new content without a backup |
| DurableWriteSafety.FailedProbeLosesOld | src/durable_file_write.cpp:387-394 | for every direct-mode write with keep_backup there is a run in which the probe error is ignored, the target is truncated and the backup is not made |
| DurableWriteSafety.ReportIsTrue | src/durable_file_write.cpp:372-535 | ok exactly if the only diagnostic is the success; then target = content, valid, no temporary file, and with keep_backup the backup is the old content unless the probe failed; otherwise the first and last diagnostic tell what the target holds |
| DurableWriteSafety.FailureKeepsOld | src/durable_file_write.cpp:446-526 | a failed atomic write leaves the old content, except that a failed parent flush leaves the new one and a failed readback is handled by the restore |
| DurableWriteSafety.OtherFilesAreKept | src/durable_file_write.cpp:383-486 | no file but the target, its backup and the temporary file changes; without keep_backup not the backup either |
| DurableWriteSafety.SomeRunSucceeds | src/durable_file_write.cpp:396-534 | both modes: some run succeeds if and only if the content is not rejected and, in atomic mode, a name for the temporary file is free |
| DurableWriteSafety.FailureNeedsAFailedCall | src/durable_file_write.cpp:372-535 | both modes: while every call succeeds nothing is reported, and a write of a content that is not rejected that is over has then succeeded |
| DurableWriteSafety.FailedCallIsNamed | src/durable_file_write.cpp:372-535 | the first call that fails, at each stage, is reported by its own diagnostic |
| DurableWriteSafety.RestoreCanTear | src/durable_file_write.cpp:512-524 | after a garbled readback the restore, stopped half way, can leave any beginning of the old content in the target |
| DurableWriteSafety.TargetIsABeginning | src/durable_file_write.cpp:372-535 | both modes: after every call of every run the target is as it was, or a beginning of the old content, or of the new one; in atomic mode the whole new one |
| DurableWriteSafety.StepKeeps | src/durable_file_write.cpp:372-535 | every call of the protocol, with any answer, keeps the invariant on target, backup, temporary file, diagnostics and frame |
| DurableWriteSafety.ReachesReadBack | src/durable_file_write.cpp:396-506 | when every call succeeds, a valid content reaches the target behind a backup of the old one |
| DurableWriteOrder.DurableIsFlushed | src/durable_file_write.cpp:396-502 | a durable write that succeeds has flushed a file that held the whole content, and, with the content in the target, its directory: always in atomic mode, in direct mode for a new file |
| DurableWriteOrder.TempIsLeftOnlyIfStuck | src/durable_file_write.cpp:396-526 | a write that is over has left its temporary file only if a call to remove it failed |
| DurableWriteOrder.RestoreIsTried | src/durable_file_write.cpp:446-526 | a write that ends on a failed validation or readback, with nothing reported after it, had no backup to restore |
| DurableWriteOrder.NamesAre | src/durable_file_write.cpp:175-385 | the backup is the target's name with .bak; the temporary file has .tmp. and six characters behind the target's name, which was free before |
| FileWriter.Disk.WriteDurableFile | src/durable_file_write.cpp:372-535 | the step-by-step program is the run of the protocol on the scripted answers, its report is the protocol's and is true of the files it leaves, and it succeeds if no call fails and the content is not rejected |
| FileWriter.Disk.WriteAllBytes | src/durable_file_write.cpp:105-134 | the offset loop writes the whole content through partial writes and interruptions, or fails having written a prefix |
| FileWriter.Disk.CopyFile | src/durable_file_write.cpp:387-394 | a copy in pieces is a run of the protocol and reports whether the destination is complete; otherwise the destination is as it was or a beginning of what is copied, and nothing else changes |
| FileWriter.Disk.WriteTempFile | src/durable_file_write.cpp:396-436 | the temporary file is complete and closed, or the failure is reported and the file removed if it can be |
| FileWriter.Disk.WriteDirectFile | src/durable_file_write.cpp:188-278 | the direct write is a run of the protocol, with the flush of a new file's parent |
| FileWriter.Disk.WritePlainFile | src/durable_file_write.cpp:295-303 | the buffered write is a run of the protocol: it may stop at, or report success with, any beginning of the content |
| FileWriter.Disk.CheckWritten | src/durable_file_write.cpp:446-474 | validation rejects or passes what was written; an invalid temporary file is removed, an invalid target restored from its backup |
| FileWriter.Disk.BackUpLate | src/durable_file_write.cpp:476-486 | the backup of the current target, or a removed temporary file |
| FileWriter.Disk.Install | src/durable_file_write.cpp:488-502 | the rename and the parent flush |
| FileWriter.Disk.CheckPersisted | src/durable_file_write.cpp:504-534 | the readback, and the restore if it fails |
| VersionedCommit.NoLostUpdate | src/settings.cpp:430-494 | any number of writers in any number of processes, any failures and deaths: each session starts from what the session before it left, changes it only if that is exactly its token, a successful one replaces it by its content, and an atomic one leaves what it found or its content, unless a restore was under way or failed, and then a beginning of what it found; never that if it keeps no backup, expects no file or one too short to tear, or has a rejected content |
| VersionedCommit.MutualExclusion | src/settings.cpp:62-75 | at most one writer of all processes is in the guard, a mutex is locked by one writer, and a process never has two live mutexes for the target, although the registry holds weak pointers |
| VersionedCommit.NoTwoWinners | src/settings.cpp:77-134 | of two commits with the same token the second succeeds only if a session in between put the expected content back |
| VersionedCommit.FileIsLastReleased | src/settings.cpp:136-233 | outside the guard the file is what the last session left |
| VersionedCommit.NoDeadlock | src/settings.cpp:136-233 | while some writer is not over, some step other than a death is possible |
| VersionedCommit.ActKeepsInvariant | src/settings.cpp:136-233 | every step of every writer and every death of a process keeps the lock and file invariants |
| VersionedCommit.ReferKeeps | src/settings.cpp:62-75 | looking up the mutex keeps one live mutex per process, reusing a live one and replacing a dead one |
| VersionedCommit.ClosingIsSound | src/settings.cpp:465-494 | giving up the lock at any stage closes a sound session |
| VersionedCommit.KillKeepsFiles | src/settings.cpp:202-220 | the death of the process that holds the lock keeps the chain of sessions |
| VersionedProgress.CommitCanSucceed | src/settings.cpp:430-494 | in every reachable state with a free lock, a writer that has not begun, with a valid token of this target that is what the file holds and a content that is not rejected, can go on, without any death, to report success with its content in the file and one more session in the log; in both modes, in atomic mode if a name for the temporary file is free |
| VersionedCommit.OnlyCheckedTokens | src/settings.cpp:435-450 | in every run only writers with a valid token of this target get the lock, log a session or report success |
| SettingsWriter.WriteVersioned | src/settings.cpp:430-494 | each refusal is returned exactly for its own first cause - invalid token, other target, failed directory, failed lock, unreadable target, stale token - and without touching a file or, before the lock, the registry; in all other cases the write is run on the files found, with its report, and succeeds with its content in place if no call of it fails and the content is not rejected; a failed write left what its report says |
| SettingsWriter.TargetMatchesToken | src/settings.cpp:77-134 | matches exactly if it is known what the target holds and that is what the token says; an unreadable target is reported as such, not as stale |
| SettingsWriter.MutexRegistry.MutexForTarget | src/settings.cpp:62-75 | the live mutex of the target, or a new one that replaces a dead entry |
| RegRoundTrip.RoundTrip | src/migration_registry.cpp:813-1074 | parsing the printed form gives the snapshot back if and only if it is in the stated domain (native view; the first value in the root key, and all of them if that has no name; names without =; no newline in keys, names or strings; no =- on a line, NUL-free strings; 4-byte dwords; no untyped or unknown values) |
| RegRoundTrip.ParsedIsReachable | src/migration_registry.cpp:866-1074 | every snapshot the parser accepts from any text has parsed names, keys and data of the domain's shape |
| RegRoundTrip.ParseOfPrinted | src/migration_registry.cpp:813-1074 | for every printable snapshot, parsing its printed form is the direct re-reading of its values, section by section |
| RegRoundTrip.ReparseIsIdentity | src/migration_registry.cpp:926-948 | re-reading gives all values back exactly if the first one is in the root key and every key path is relative to it |
| RegRoundTrip.ParseFullKey | src/migration_registry.cpp:905-949 | a printed section line parses to its hive and combined key path |
| RegRoundTrip.ParsePrintedValue | src/migration_registry.cpp:952-1060 | a printed value line parses to its name, type and bytes |
| RegRoundTrip.ParseDataOfDataText | src/migration_registry.cpp:986-1058 | each printed data form parses to its own type and bytes |
| RegRoundTrip.SplitPrintedValue | src/migration_registry.cpp:952-962 | the first = of a printed value line separates its name from its data |
| RegRoundTrip.RelativeOfCombined | src/migration_registry.cpp:636-645 | a combined key path is relative to its root exactly as it was given |
| RegRoundTrip.EscapeAddsNoDelete | src/migration_registry.cpp:523-533 | escaping a string makes no new =- |
| RegPrinting.PrintedLayout | src/migration_registry.cpp:813-864 | every printed file: the header, an empty line, then each value on its own line, in order, directly behind the previous one of the same key and otherwise behind the line of its section, which an empty line separates from what stands before; section, name and data forms as literals |
| RegPrinting.ValueIsPrinted | src/migration_registry.cpp:830-858 | the name or @, an equals sign, and the quoted string, dword: with eight digits, or hex:, hex(2):, hex(7):, hex(b): with comma-separated pairs, by the type |
| RegPrinting.SectionIsPrinted | src/migration_registry.cpp:821-828 | brackets around the long hive name, a backslash, and the root and relative path joined by a backslash if both are there |
| RegReading.AcceptedExactly | src/migration_registry.cpp:866-1074 | for every list of logical lines, hand-written ones too: they are accepted if and only if a section names a local hive after nothing but skipped lines, and every later line is skipped, a section of that hive at or under that root, or a readable value, and none holds a delete form |
| RegReading.MeaningOfLines | src/migration_registry.cpp:866-1074 | an accepted file means: the root its first section names, and exactly one value from each value line, in order, under the path of the last section line above it |
| RegReading.SectionErrors | src/migration_registry.cpp:889-948 | for every line that is not skipped: exactly when it is refused as a delete form, a malformed section, an unknown hive, a second hive, or a key outside the root |
| RegReading.ValueLacksKey | src/migration_registry.cpp:952-959 | a value line is refused as such exactly if it has no equals sign or stands before every section |
| RegReading.ValueErrors | src/migration_registry.cpp:961-1058 | any other value line: exactly when its name is malformed, an escape in name or string is bad, or its data are none of the forms |
| RegReading.RootMissingExactly | src/migration_registry.cpp:1063-1069 | a file lacks a root exactly if all its lines are skipped |
| RegReading.NameIsRead | src/migration_registry.cpp:966-984 | @ reads as the empty name, a quoted text as what its escapes stand for, and nothing else as a name |
| RegReading.DataIsRead | src/migration_registry.cpp:986-1058 | each data form reads as its own type and bytes, and nothing else reads |
| RegReading.HexValueLineIs | src/migration_registry.cpp:208-219 | a line is a hex value exactly if one of the four prefixes follows its first equals sign and blanks |
| RegReading.LineIsFed | src/migration_registry.cpp:229-263 | what one line adds, its carriage return dropped: exactly when it is refused, continues or ends a logical line |
| RegReading.TextIsFed | src/migration_registry.cpp:221-275 | a text has logical lines exactly if no line is refused and it does not end inside a value |
| RegSnapshot.SerializeSnapshotReg | src/migration_registry.cpp:813-864 | the printing loop computes the specified text, whose lines PrintedLayout describes |
| RegSnapshot.SerializeValue | src/migration_registry.cpp:830-858 | one value line, by its type |
| RegSnapshot.ParseSnapshotReg | src/migration_registry.cpp:866-1074 | the parsing loop with its running root and relative key computes the specified result (MeaningOfLines) or error |
| RegSnapshot.EnterSection | src/migration_registry.cpp:905-949 | the root key of the first section, the relative key of a later one, or the error |
| RegSnapshot.ParseValue | src/migration_registry.cpp:952-1060 | one value line under the current key, or the error |
| RegSnapshot.ParseDataText | src/migration_registry.cpp:986-1058 | the data forms with their error cases |
| RegSnapshot.ParseNameText | src/migration_registry.cpp:961-984 | the default name, a quoted name, or the error |
| RegText.UnescapeOfEscape | src/migration_registry.cpp:523-558 | unescaping an escaped string gives it back, for every string |
| RegText.EscapeIs | src/migration_registry.cpp:523-533 | the escaped text, character by character: a backslash before every quote and backslash, and nothing else added |
| RegText.UnescapeIs | src/migration_registry.cpp:535-558 | a text reads as a string exactly if it writes it character by character, quotes and backslashes behind a backslash, everything but a backslash also as it is |
| RegText.HexRoundTrip | src/migration_registry.cpp:87-111 | decoding printed hex gives the bytes back, for all bytes |
| RegText.RegHexIs | src/migration_registry.cpp:560-572 | n bytes are printed on 3n-1 characters: lower-case digits of the high and the low half of byte k at 3k and 3k+1, and a comma at 3k+2 between them and the next two |
| RegText.HexPairsAre | src/migration_registry.cpp:87-111 | digits are read exactly if they are hex digits in even number, each pair as one byte, the high half first |
| RegText.CompactOne | src/migration_registry.cpp:87-94 | a comma and the six blanks of the C locale are dropped, every other character stays |
| RegText.CompactAppend | src/migration_registry.cpp:87-94 | dropping the fillers of two texts in a row is dropping them in each |
| RegText.DigitIsRead | src/migration_registry.cpp:73-85 | a hex digit is read in either case, with its value |
| RegText.OddHexIsRejected | src/migration_registry.cpp:95-99 | an odd number of hex digits is rejected |
| RegText.DwordRoundTrip | src/migration_registry.cpp:598-634 | four bytes printed as eight digits are read back |
| RegText.DwordTextRoundTrip | src/migration_registry.cpp:598-634 | accepted digits are printed back in lower case, so exactly as they were if and only if they have no upper-case digit |
| RegText.DwordTextIs | src/migration_registry.cpp:598-611 | a dword is printed on eight lower-case digits, the last of its first four bytes first, zeros for missing bytes |
| RegText.DwordIsRead | src/migration_registry.cpp:613-634 | exactly the texts of eight hex digits are dwords, read as four bytes, the last pair first |
| RegText.UpToNulIdentity | src/migration_registry.cpp:574-586 | a string value keeps its bytes exactly if it has no NUL |
| RegText.UpToNulStops | src/migration_registry.cpp:574-586 | the copy is what stands before the first NUL |
| RegText.RegEscape | src/migration_registry.cpp:523-533 | the escaping loop computes the specified text |
| RegText.RegUnescape | src/migration_registry.cpp:535-558 | the unescaping loop, with its error for a dangling or unknown escape |
| RegText.BytesToRegHex | src/migration_registry.cpp:560-572 | pairs of lower-case digits, high half first, separated by commas (PrintsBytes) |
| RegText.ParseHexBytes | src/migration_registry.cpp:87-111 | fillers are dropped and pairs decoded, or the text is rejected |
| RegText.DwordBytesToRegText | src/migration_registry.cpp:598-611 | the digit loop computes the eight digits (PrintsDword) |
| RegText.DwordRegTextToBytes | src/migration_registry.cpp:613-634 | eight digits to four bytes, or rejected |
| RegText.BytesToLossyString | src/migration_registry.cpp:574-586 | the bytes up to the first NUL |
| RegLines.LogicalLinesOfPlain | src/migration_registry.cpp:221-275 | lines that are not continued are their own logical lines |
| RegLines.FeedLinesAppend | src/migration_registry.cpp:221-275 | the line state after two runs of lines is that after their concatenation |
| RegLines.LogicalLinesAreNewlineFree | src/migration_registry.cpp:221-275 | no logical line contains a newline |
| RegLines.RegLogicalLines | src/migration_registry.cpp:221-275 | the loop computes the logical lines or the error for an unfinished continuation |
| RegLines.TakeLine | src/migration_registry.cpp:229-264 | one physical line starts, continues or ends a logical line, or is rejected |
| RegLines.DecodeText | src/migration_registry.cpp:159-206 | byte-order marks and UTF-16LE units are decoded by the loop, or the encoding is rejected |
| RegWrapping.WrappingIsIrrelevant | src/migration_registry.cpp:221-275 | splitting a hex payload at any points into continued, indented lines, anywhere in a file, whether each line ends in LF or CR LF, gives the same logical lines as the unsplit line |
| RegWrapping.WrappedFileParsesTheSame | src/migration_registry.cpp:866-880 | so two files that decode to the wrapped and the whole text, in whatever encodings, parse to the same snapshot or error |
| RegWrapping.WrappedUtf8FileParsesTheSame | src/migration_registry.cpp:159-206 | in particular UTF-8 files, with a byte-order mark or without |
| RegWrapping.Utf8Decodes | src/migration_registry.cpp:159-206 | a marked UTF-8 file decodes to its text, and an unmarked one exactly if its text does not begin with a mark |
| RegWrapping.ReturnIsIrrelevant | src/migration_registry.cpp:221-275 | a CR at the end of a line changes nothing, except exactly after a lone CR inside a continued value |
| RegBlanks.BlanksAreIrrelevant | src/migration_registry.cpp:221-275 | with blanks anywhere in the wrapped hex data, valid hex or not but without a minus sign and a closing bracket (which can make a delete directive or a section line), the logical lines may differ from the unwrapped ones, but the text parses to the same snapshot or error |
| RegBlanks.BlankFilesParseTheSame | src/migration_registry.cpp:866-1074 | so do files that decode to the wrapped and the unwrapped text, in whatever encodings, again for data without a minus sign and a closing bracket |
| RegBlanks.SameValue | src/migration_registry.cpp:952-1060 | two value lines whose hex data differ only in blanks and commas parse the same |
| RegBlanks.FeedAllKeepsHex | src/migration_registry.cpp:221-275 | whatever the lines, a value that is being continued is a hex value |
| RegWrapping.FeedWrapped | src/migration_registry.cpp:221-275 | from every line state a wrapped value is read like the whole line |
| RegUnicode.Utf8IsRfc3629 | src/migration_registry.cpp:136-157 | the emitted octets are the encoding of section 3 of RFC 3629 and the only one; exactly surrogates and code points above U+FFFF are refused |
| RegUnicode.EncodingsAgree | src/migration_registry.cpp:159-206 | a BMP text without surrogates decodes the same from marked UTF-16LE (section 2.1 of RFC 2781) and from UTF-8, exactly if it does not start with U+FEFF |
| RegUnicode.RefusedExactly | src/migration_registry.cpp:159-206 | octets are refused exactly if they are marked as UTF-16BE, or marked as UTF-16LE with an odd length or a surrogate |
| Text.UnlinesOfLines | src/migration_registry.cpp:223-229 | the lines of std::getline: none holds a newline, and ending each with one gives the text, with a newline behind a last line that lacks one |
| Text.TrimIs | src/migration_registry.cpp:113-124 | trimming drops the six blanks of the C locale on both ends and nothing else |
| RegUnicode.Utf16ParsesAsUtf8 | src/migration_registry.cpp:866-880 | so both forms of a file parse the same |
| RegUnicode.WrappedUtf16FileParsesTheSame | src/migration_registry.cpp:159-275 | a wrapped UTF-16LE file parses like the whole one |
| MimeAppsRoundTrip.RoundTrip | src/desktop.cpp:1544-1583 | parsing what was rendered gives the sections without the empty ones if and only if names, keys and ids of the non-empty sections survive the text and the ids have no backslash |
| MimeAppsRoundTrip.ParseOfRender | src/desktop.cpp:1544-1583 | rendering and parsing escapes every id once and drops empty sections, and changes nothing else |
| MimeAppsRoundTrip.ParsedShape | src/desktop.cpp:1544-1567 | whatever the file holds, parsed names, keys and ids have the shape that survives, and no section is empty |
| MimeAppsRoundTrip.SplitOfJoin | src/desktop.cpp:185-196 | splitting a joined list gives the ids, escaped |
| MimeAppsRoundTrip.SplitIsOk | src/desktop.cpp:1526-1542 | split ids are never empty and contain no separator |
| MimeAppsRoundTrip.ParseKeyLine | src/desktop.cpp:1556-1564 | a rendered key line sets exactly that key of the current section |
| MimeAppsEdits.EditedKey | src/desktop.cpp:1585-1618 | read back from the new text, the edited key holds the edited ids and every other key its old ids, each escaped once more |
| MimeAppsEdits.ApplyIsFound | src/desktop.cpp:1585-1641 | for every prior content, section, key and ids that survive the text: after applying, the query finds each id if and only if the section name and the key survive the text |
| MimeAppsEdits.RemoveIsForgotten | src/desktop.cpp:1601-1608 | for every prior content and key, after removing the query finds none of the ids |
| MimeAppsEdits.ApplyKeepsOrder | src/desktop.cpp:1609-1616 | existing ids keep their places, each escaped once more and so unchanged exactly if they have no backslash; the new ones follow, none is added twice, all applied ones are there |
| MimeAppsEdits.OtherKeysKeepTheirIds | src/desktop.cpp:1569-1618 | every other key stays, and keeps its ids exactly if they have no backslash |
| MimeAppsEdits.ApplyTwiceIsApplyOnce | src/desktop.cpp:1585-1618 | for every prior content: applying the same ids again leaves the text unchanged if and only if no id in the file had a backslash |
| MimeAppsEdits.RemoveUndoesApply | src/desktop.cpp:1585-1618 | for every prior content: removing ids that were new gives back all sections with their ids escaped by both edits, and so exactly as they were if and only if no id had a backslash |
| MimeAppsEdits.RemovedEscaped | src/desktop.cpp:1601-1608 | removing ids that survive as they are commutes with the escaping of a rewrite |
| MimeAppsEdits.PlainAgain | src/desktop.cpp:297-314 | rewriting twice leaves the ids alone exactly if none has a backslash |
| MimeAppsEdits.WithNewIs | src/desktop.cpp:1610-1615 | the seen-set loop appends exactly the new ids, once each |
| MimeAppsEdits.AssociationIsFound | src/desktop.cpp:1695 | an added association with a safe MIME name is found for every normalized id |
| MimeAppsEdits.DefaultIsFound | src/desktop.cpp:1775-1816 | a default application is found exactly if its accepted key has neither = nor a newline |
| MimeAppsEdits.NormalizedAreOk | src/desktop.cpp:1643-1657 | normalized ids are non-empty and free of separators, newlines and backslashes |
| MimeAppsEdits.SuffixOnce | src/desktop.cpp:174-181 | an id gets the .desktop suffix exactly once and is otherwise kept |
| MimeAppsEdits.SafeMimeIsOk | src/desktop.cpp:139-158 | a safe MIME name survives the text as a key |
| MimeAppsEdits.NormalizeDesktopIds | src/desktop.cpp:1643-1657 | the loop keeps the safe ids, with suffix, and reports an error exactly for an empty list or an unsafe id |
| MimeApps.SplitDesktopIds | src/desktop.cpp:1526-1542 | the index loop computes the non-empty stretches of the value without a semicolon, bounded on each side by one or by an end: all of them, in order, once per stretch |
| MimeApps.ListedExactly | src/desktop.cpp:1526-1542 | an id is in the list exactly if it is such a stretch of the value, ended by a semicolon or not |
| MimeApps.WhatIsParsed | src/desktop.cpp:1544-1567 | for every text, hand-written ones too: a key is there exactly if some line sets it under the section in force - the last section line above, or Added Associations before all - and the last such line decides its ids |
| MimeApps.FoundExactly | src/desktop.cpp:1620-1641 | an id is found exactly if the last line that sets the key under the section lists it |
| MimeApps.DesktopEscape | src/desktop.cpp:297-314 | the character loop computes the escaped text |
| MimeApps.JoinDesktopList | src/desktop.cpp:185-196 | the loop computes the joined list |
| MimeApps.ParseMimeapps | src/desktop.cpp:1544-1567 | the line loop with its current section computes the parsed sections |
| MimeApps.RenderMimeapps | src/desktop.cpp:1569-1583 | the loops over sections and keys in map order compute the rendered text |
| MimeAppsWriting.RenderedFile | src/desktop.cpp:1569-1583 | the rendered text: for each section with keys, in ascending order, its line in brackets, a line key=list for each key in ascending order, and an empty line |
| MimeAppsWriting.ListIs | src/desktop.cpp:185-196 | a list is each non-empty id, escaped, with a semicolon behind it |
| MimeAppsWriting.EscapeIs | src/desktop.cpp:297-314 | a backslash becomes two, a newline a backslash and an n, every other character stays |
| MimeAppsWriting.BeforeIs | src/desktop.cpp:1524 | the map order: a beginning before the whole, else the first differing character decides |
| MimeAppsWriting.KeptInOrder | src/desktop.cpp:1601-1605 | removing leaves exactly the other ids, in their order |
| MimeAppsWriting.NewInOrder | src/desktop.cpp:1610-1615 | the new ids follow the old ones in the order in which they are first asked for |
| MimeAppsWriting.NormalizedInOrder | src/desktop.cpp:1643-1657 | exactly the accepted ids are passed on, with their suffix, in order |
| MimeAppsWriting.SafeIdIs | src/desktop.cpp:111-123 | an id is accepted exactly if it is not empty, does not begin with a dot, and consists of ASCII letters, digits, dots, dashes and underscores |
| MimeAppsWriting.SafeMimeIs | src/desktop.cpp:139-158 | a MIME name is accepted exactly if it is two parts around a slash, each not empty, without a dot in front or two in a row, and of ASCII letters, digits, dots, dashes, underscores and plus signs |
| MimeAppsWriting.AcceptedKeyIs | src/desktop.cpp:1775 | default applications are accepted exactly for MIME names and for keys that begin with x-scheme-handler/ |
| MimeApps.MimeappsFile.UpdateKey | src/desktop.cpp:1585-1618 | the file becomes the edited text, a read error leaves it alone, and a failed write is reported; each exactly when its call says so |
| MimeApps.MimeappsFile.QueryKey | src/desktop.cpp:1620-1641 | finds the id exactly if the file could be probed and read and the last line that sets the key under that section lists the id; reports exactly a failed read of a file that is there |
| Migration.Executor.ExecutePlan | src/migration_filesystem.cpp:8-196 | one result per action, in order; ok exactly if the plan is valid and every action is executed or skipped; an invalid plan does nothing; a valid one is a run of its actions, each a permitted step with its reported state from the tree that the one before left to the tree that the next one finds, down to the final tree; a dry run changes nothing; an old entry that no step may write or remove is there unchanged |
| Migration.RunKeeps | src/migration_filesystem.cpp:8-196 | over a run of any length an entry that no action from some point on may write or remove is at the end as it was then |
| Migration.ContentSurvives | src/migration_filesystem.cpp:8-196 | whatever an executed directory action held at its source is, at the end of the plan, under its target with the same kind and bytes, if the verifying scan missed no difference and no later action touches it there |
| Migration.FileSurvives | src/migration_filesystem.cpp:8-196 | a copied or renamed file is at its target at the end of the plan, if no later action touches it there |
| Migration.GoodActionSucceeds | src/migration_filesystem.cpp:61-192 | if nothing forbids an action, its source and target are apart and every call does what it is asked, the action is executed, and a directory is then mirrored at its target without exception |
| Migration.TriedExactly | src/migration_filesystem.cpp:35-81 | an action is tried exactly if it is a permitted file action on an existing source of its kind, a directory without symbolic links or special files below it, towards a target that is free or may be overwritten |
| Migration.UntriedKeeps | src/migration_filesystem.cpp:35-81 | an action that is not tried changes nothing, if the look for unsupported entries went to its end |
| Migration.MatchIs | src/migration_internal.hpp:333-388 | an entry matches exactly if its copy is at the same place below the target, and both are directories or files with the same bytes |
| Migration.DryRunKeeps | src/migration_filesystem.cpp:44-58 | no step of a dry run changes anything |
| Migration.OneMoreStep | src/migration_filesystem.cpp:8-196 | a run followed by a permitted step from its last tree is a run |
| Migration.Executor.ExecuteAction | src/migration_filesystem.cpp:35-193 | from the tree it finds to the tree it leaves the action is a permitted step, with exactly the state that the answers of the file system call for: gates, path errors and errors a complete scan finds block without change; nothing but the target is written and nothing but directories above it is new; a directory to move is removed only after a verification whose tree is what was found plus the copy, and the verified copy is what is left at the target; an executed file action has put the source's node at the target |
| Migration.Executor.TransferDirectory | src/migration_filesystem.cpp:103-188 | the state is exactly the one the answers call for, and the copy counts as verified exactly as said; whatever the copy did, nothing but the target is written, and the source loses no entry unless it was verified first; the check is on the tree that was found plus the copy; with disjoint trees an executed action, or a move whose removal failed without a rollback, leaves the verified copy at the target, which mirrors the source exactly if the entries the scan did not reach match too; after a rollback the copy is gone |
| Migration.Executor.FinishMove | src/migration_filesystem.cpp:140-188 | a removal that succeeds ends the move; one that fails leaves the copy if the target was there before, and otherwise rolls it back |
| Migration.Executor.VerifySupportedDirectoryCopy | src/migration_internal.hpp:276-392 | success means a scan that compared at least the first entry, if there is one, and found every entry it reached in the copy with the same kind and bytes; if all entries can be looked at, it fails only for an entry that does not match |
| Migration.Executor.CompareEntry | src/migration_internal.hpp:333-388 | an entry matches exactly if it can be read and its copy has the same kind and, for a file, the same bytes |
| Migration.RegularFilesHaveSameContent | src/migration_internal.hpp:208-274 | the 8192-byte chunk comparer says yes exactly for equal contents of which no read fails |
| Migration.VerifiedMirrors | src/migration_internal.hpp:323-391 | after a successful verification the target mirrors the source if and only if the entries the scan did not reach match too |
| Migration.BrokenScanLosesFile | src/migration_internal.hpp:323-331 | a scan that breaks off after its first entry verifies although the copy lacks the second file, which removing the source then loses |
| Migration.MisleadsExactly | src/migration_internal.hpp:315-391 | for every tree: some scan verifies a target that does not mirror the source if and only if both roots are directories, an entry with which a scan can begin has its copy, and some entry has not |
| Migration.RollbackLosesFile | src/migration_filesystem.cpp:148-170 | a removal that stopped after the file, followed by the rollback of the copy, leaves no file at all |
| Migration.Executor.HasErrors | src/migration_internal.hpp:400-466 | the gate and file diagnostics contain an error exactly as specified, if the scan of the source is complete |
| Migration.Executor.ScanForUnsupported | src/migration_internal.hpp:151-192 | reports a symlink or special file only if there is one, and always if the scan is complete |
| Migration.Executor.TransferFile | src/migration_filesystem.cpp:103-188 | executed exactly if the call succeeds; a copied or renamed file is at the target; no other entry changes but the source of a successful rename; a failed rename changes nothing |
| InotifyIndex.EveryRunAgrees | src/watch_inotify.cpp:187-209 | over all runs of watching, unwatching, discovering and stopping: both indexes hold the same records under the right keys, no list is empty, no id watches a directory twice, and the kernel's live descriptors are exactly the indexed ones |
| InotifyIndex.UnwatchKeepsOthers | src/watch_inotify.cpp:187-209 | removing an id leaves every other id its records and the kernel exactly the descriptors another id uses |
| InotifyIndex.RemovedStaysRemoved | src/watch_inotify.cpp:699-710 | a removed id is not revived by discovery, until it is watched again |
| InotifyIndex.AddOneAgrees | src/watch_inotify.cpp:458-500 | adding one directory, for a new or an already live descriptor, keeps the agreement |
| InotifyIndex.AddOneIs | src/watch_inotify.cpp:458-500 | a request that the kernel answers, for a root the id does not watch yet, puts one record with its descriptor, id, root, watched path and filter at the end of both lists and makes the descriptor live; any other changes nothing |
| InotifyIndex.AllAreAdded | src/watch_inotify.cpp:166-176 | all answered requests of a watch for new, distinct roots are recorded, in order |
| InotifyIndex.RunningTakes | src/watch_inotify.cpp:110-185 | a running backend takes every watch, and every directory discovered below a live one |
| InotifyIndex.StopIsFinal | src/watch_inotify.cpp:230-249 | after a stop nothing is ever watched again, and only a stop stops the backend |
| InotifyIndex.WithoutParts | src/watch_inotify.cpp:197-201 | removal keeps the records of the other ids in their order |
| InotifyIndex.WithoutOne | src/watch_inotify.cpp:197-201 | a record goes exactly if it is of the removed id |
| InotifyIndex.RemovedAgrees | src/watch_inotify.cpp:187-209 | removing an id keeps the agreement |
| InotifyIndex.InotifyBackend.RemoveWatch | src/watch_inotify.cpp:187-209 | the loop over the id's records, which may visit a descriptor twice, computes the specified removal |
| InotifyIndex.InotifyBackend.AddOneLocked | src/watch_inotify.cpp:458-500 | a duplicate root or a kernel error changes nothing; otherwise both indexes and the kernel gain the record |
| InotifyIndex.InotifyBackend.AddWatch | src/watch_inotify.cpp:110-185 | all directories of the watch are added in turn; ok exactly if the id is live afterwards |
| InotifyIndex.InotifyBackend.AddDiscoveredWatch | src/watch_inotify.cpp:699-710 | nothing for a stopped backend or a removed id |
| InotifyIndex.InotifyBackend.StopBackend | src/watch_inotify.cpp:230-254 | the first stop empties both indexes and drops all kernel watches; a later one does nothing |
| PathLists.ParsedPathsAreFixed | src/paths.cpp:1464-1541 | joining the parsed paths and parsing again gives the same paths, for every value, every option and every separator |
| PathLists.ReportIsComplete | src/paths.cpp:1464-1526 | one candidate per segment; the selected ones in order are the paths; each is a normal form, none twice if duplicates are dropped; no usable segment is lost |
| PathLists.CandidatesAre | src/paths.cpp:1464-1526 | the text is cut at the separator of the options, or at colons, and each piece, in order, is exactly the candidate its rule says: empty, relative where absolute paths are required, duplicate of a selected one where those are dropped, else selected in normal form |
| PathLists.JoinedOfPieces | src/paths.cpp:1464-1541 | joining the pieces gives the text back, and no piece holds the separator |
| PathLists.NormalIsIdempotent | src/paths.cpp:173-176 | the normal form of a normal form is itself (section [fs.path.generic] of ISO C++17) |
| PathLists.NormalForm | src/paths.cpp:173-176 | a normal form has resolved names with single slashes between them: no dots, dot-dots only at the front of a relative path, a slash behind exactly if the path ends in a slash or in dots and the last name is not dot-dot, and a dot if nothing is left |
| PathLists.NormalLeadsThere | src/paths.cpp:173-176 | from every directory a path and its normal form lead to the same place in a tree without symbolic links |
| PathLists.NormalKeepsRoot | src/paths.cpp:173-176 | a normal form is not empty and is absolute exactly if the path is |
| PathLists.SeparatorStaysOut | src/paths.cpp:173-176 | a character that is not in a path is not in its normal form, even if it is / or . |
| PathLists.NamesOfText | src/paths.cpp:173-176 | the names of a normalized text are the names it was made of |
| PathLists.ParsePathList | src/paths.cpp:1464-1526 | the character loop with its flushes computes the specified report |
| PathLists.Flush | src/paths.cpp:1471-1514 | one segment is ignored as empty, relative or duplicate, or selected in normal form, and the seen set follows |
| PathLists.JoinPathList | src/paths.cpp:1528-1541 | the loop computes the joined text |

## Left out

- Watcher.Impl.AddWatch: the backend keeps the id it is given, as the three backends of the library do; the source would also store a watch under an id that a backend chooses (src/watch.cpp:214).
- Pipeline.EveryRunIsSafe: is about pull mode before stop, because nothing is delivered for certain after it; an event whose watch is removed later is only shown to be covered until then, because removal drops pending events by design.
- PipelineTargets.MissedExactlyIfExposed: the run may choose the options of the watches; without settle options no event is replaced.
- Watcher.Impl.DeliverPopped: the two queues give no common FIFO order when the callback is cleared (src/watch.cpp:809-813), so none is stated.
- SettleScheduler.ActKeepsInvariant: the index agreement is stated until stop, after which the worker may leave its settle task behind.
- SettleSeries.CompletionsSettle: counts polls, not time: how late after its due time a poll comes is up to the system. That no poll is early (`Timely`) is proved for all runs with a steady clock.
- EventQueue.QueueIsLossyFifo: event fields the queue never looks at (caller tag, old path) are not modelled; `serial` exists only in the model and tells equal events apart.
- OverloadAdapter.WatcherOverloadAdapter.Flush: paths are compared as text, and the order of the decisions is left open (std::map orders by path components); the sync root of a signal is not used by the adapter and is omitted.
- DurableWriteSafety.OldOrNew: is about the death of the process, not about losing power, so flushes order nothing in the model; no other program writes the files meanwhile.
- DurableWriteSafety.ReportIsTrue: a validator that reads anything but the written file is covered only in that it may reject at any time; the directory-created note and message texts are omitted.
- FileWriter.Disk.WriteAllBytes: any finite number of interruptions and empty writes, since an endless one never returns; after the end of the script every call fails.
- FileWriter.Disk.WriteDurableFile: the POSIX branches only.
- VersionedCommit.NoLostUpdate: all writers use one target and the versioned commit; the lock domain is a fixed function of the path, so symbolic links to the target are left out; a token check that misreads the file without an error is left out.
- SettingsWriter.WriteVersioned: the warning for a lexical lock domain and message texts are omitted.
- RegRoundTrip.RoundTrip: JSON snapshots are read by nlohmann/json, which is not part of this model.
- RegText.DwordRegTextToBytes: the 32-bit accumulator is an integer here; eight hex digits never exceed its range.
- MimeApps.MimeappsFile.UpdateKey: what a failed write leaves in the file is arbitrary, and a parameter.
- MimeAppsEdits.AssociationIsFound: choosing the file path, dry runs and the activation plan are omitted.
- Migration.Executor.ExecutePlan: the existed-before and exists-after flags and rollback details of a result are omitted; symbolic links and special files are opaque nodes.
- Migration.Executor.HasErrors: status calls on source and target are taken to succeed; failing scans are modelled.
- Migration.Executor.TransferDirectory: nothing is claimed about the content of a source that was verified and then removed half way before a rollback, nor about the mirror for a target inside its source; what a copy that is not right leaves under a target is arbitrary until it is verified; the answer that a copy is right is taken at its word, also for a target with entries of other kinds, where no system would give it.
- InotifyIndex.EveryRunAgrees: the kernel never drops a watch by itself; ready events, pending moves and the discovery queue are omitted, since records are copied before the lock is taken again (src/watch_inotify.cpp:502-526).
- PathLists.NormalIsIdempotent: POSIX paths only; drive letters and UNC roots are not modelled.
- Watcher threads, condition variables and joins: every region under the mutex is one step, and waiting is a step that is not enabled.
- Windows and libuv backends, desktop bundles, plug-in path sets, root resolution, the C interface, string tables and demos: mostly calls into other code or single branches.
