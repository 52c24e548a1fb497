# Bokeh media server: a verified model

Bokeh is a media server written in Go. This project models its stateful core in Dafny and proves what
that core is relied on for. Each SQL statement is one atomic change of a map of rows.

| files | what they model |
|---|---|
| `DispatcherRuns`, `DispatcherInvariant`, `DispatcherTheorems`, `DispatcherQueues`, `DispatcherExamples` | the job dispatcher as a state machine: run loop, its queue, enqueuing goroutines, sub-job workers with semaphore and wait group, crash and restart, in every interleaving |
| `JobTable`, `JobContext`, `Dispatcher`, `Scheduling` | the same code as classes over a jobs table: queue, picking, flushing, the claim loop; order and progress over many calls |
| `SegmentSet`, `SegmentNames`, `Session` | the set of HLS segments as a canonical range list, segment file names, and the planning of ffmpeg runs |
| `SeekRuns` | seeks of one session that overlap, in every interleaving of their decide, kill, start and publish |
| `Collections`, `LevelSearch` | the collection tree with its denormalised root column, access checks, recursive queries, and the thumbnail search by levels |
| `CollectionScan`, `ScanTheorems` | the incremental scan: folder walk, mtime - size - hash cascade, mark-missing; one scan and runs of scans |
| `TokenRotation` | devices and refresh tokens over any sequence of login, refresh, ban, unban and delete requests that do not overlap |
| `TokenRuns`, `TokenAnswers`, `DeviceLimits`, `TokenExamples` | the same requests statement by statement, overlapping in every possible way: what is kept, what decides their answers, and the limit of active devices |
| `RateLimiter` | the login rate limiter with its in-place filtering, against the whole failure history |
| `DatePrefix` | date prefixes of folder names: patterns, labels, extraction and its inverse |
| `Options`, `Sets`, `Utf8` | an option type, facts about finite sets, strings cut in bytes |

What the outside world decides is a parameter: clocks and times, which handler or statement fails, what
other goroutines mark or enqueue while a lock is free, what a directory walk reports, when a context is
cancelled, random choices.

`DispatcherRuns` has one predicate per step, after the lines it stands for in
`internal/jobs/dispatcher.go`: `InsertJob` and `AppendJob` (85-95, two steps because the lock is taken
in between), `LoadQuery` and `LoadAppend` (161-192), `PickJob` (200-204), `Drop`, `Resume`, `Start` and
`Fail` (206-252), `StartHandler` and `HandlerReturned` (262-268), `FlushBatch` and `FlushBatchFails`
(`internal/jobs/jobs_common.go`, 99-122), `FlushToDrain` and `FlushToDone` (276-283), `Yield`, `Claim`,
`ClaimFails` and `DrainEnd` (331-384), `Launch`, `LaunchUnhandled`, `Finish`, `Release`, `WorkerExit`
and `Join` (363-374, 389-411), `Crash` (with `internal/repository/jobs.go`, 216-229). History
variables record handler invocations and what was written for whom; no step reads them.

## Where the code differs from what it says

The model follows the code. Each of these is proved, with the exact condition or a concrete run.

- `firstAvailableAfter` (`internal/streaming/segmentset.go`, 54-63) returns the start of the next range, or none.
  That is the documented answer, the lowest available number above n or none when there is none, if and only
  if n and n+1 are not both available: `NextRunIsLeastAvailable`, `NextRunExamples`.
- `seekTo` promises that existing segments are never overwritten (`internal/streaming/session.go`, 270-273). The
  plan is made before the running encoder is stopped, and segments may be marked while it is. So an
  available segment is overwritten if and only if one marked meanwhile lies at or after the target with
  nothing available before it in the gap: `SeekOverwritesExactlyWhen`; the run `SeekBackOverwrites`; before
  the call, `SafeFromRunning`.
- `seekTo` and `ServeSegment` are documented to restart at the first missing segment at or before the target
  (`internal/streaming/session.go`, 200-201 and 270-273). They restart at the target, which is that segment if and
  only if it is 0 or the one before it is available: `StartsGapExactlyWhen`.
- `seekTo` stops the encoder before it starts its own, but two seeks that overlap may both do so before
  either publishes its process (`internal/streaming/session.go`, 298-306), and two encoders run:
  `OrphansExactlyWhen`, `OneEncoderExactlyWhen`, `TwoEncoders`; `SerialSeeksOrphanNothing`.
- A refresh consists of lookups and an UPDATE that does not test the old hash (`internal/api/auth.go`, 255-339;
  `internal/repository/devices.go`, 91-117), without a transaction. So a token is accepted again if and only if another
  request with it was past its lookups when it was first accepted: `AcceptedAgainExactlyWhen`,
  `AcceptedTwice`. A request that begins later is refused: `LaterRequestsAreRefused`.
- For the same reason a banned device gets a live hash if and only if a login or refresh had found it before
  the ban (`BanHoldsExactlyWhen`, `BannedDeviceRefreshes`), and a token no device knows becomes known again
  if and only if a refresh with it is past its lookups on a device that still exists
  (`DeadStaysDeadExactlyWhen`, `DeadTokenRevived`).
- Login on a known device writes the empty string into `previous_refresh_token_hash`, a UNIQUE column
  (`internal/api/auth.go`, 203-209; `internal/db/migrations/000001_schema.up.sql`, 45). A login that has found its
  device not banned fails if and only if the device still exists and another one, of any user, holds the empty
  string at the time of its UPDATE: `ReloginFailsExactlyWhen`, `OverlappingReloginFails`. A ban in between does not
  stop it: `BannedDeviceLogsIn`. Without overlap that is decided when the login begins:
  `ReloginWorksExactlyWhen`, `ReloginExample`.
- Login on a new device can fail as well: if and only if another login of the same user and uuid has inserted
  the device since the lookup, and it still exists (`internal/api/auth.go`, 156-202): `FirstLoginRefusedExactlyWhen`,
  `OverlappingFirstLoginFails`. Without overlap it never does: `FirstLoginWorks`.
- The maximum of fifteen active devices (`internal/repository/devices.go`, 247-248) is exceeded by unbanning a
  device of a user who has fifteen, and by overlapping logins, in no other way: `ExceedsLimitExactlyWhen`,
  `MoveExceedsLimitExactlyWhen`, `SixteenDevices`.
- A parent can be marked done, and its sub-jobs deleted, while some of them are queued and have never run. Of a
  type with support: after a flush that wrote nothing although an earlier run, interrupted by a crash, had
  written rows (`CrashWhileFlushingLosesSubJobs`), and after a failing claim (`internal/jobs/dispatcher.go`, 347-351
  and 384; `FailingClaimLosesSubJobs`). Of a type without support: whenever its flush wrote rows
  (`internal/jobs/dispatcher.go`, 276-283). `DoneMeansCompletedOrLost` and `DeletedUnfinishedExactlyWhen` give the exact
  condition; `NothingLostWithoutCrash` excludes the first way before any crash, for sub-jobs that a flush has
  written.
- Scanning a directory again is documented to return its row without modification
  (`internal/repository/collections.go`, 33-35); the statement sets the parent, so the row is unmodified if and only
  if it had that parent: `UpsertAgainModifiesExactlyWhen`.
- Date extraction indexes a table of 13 month names and panics if and only if a month is above 12:
  `PanicsOnLateMonths`, `PanicExample`.
- `ParseDateString` is documented for the prefixes alone; it also accepts a prefix followed by a separator
  and any text: `LabelledDateStrings`, `TextAfterDateExample`.
- `ExtractDatePrefixStr` cuts off as many bytes as the trimmed name has (`internal/utils/string_utils.go`, 138-145). With
  trailing spaces the prefix reaches into the stripped name, and may end inside a character:
  `PartsRebuildName`, `HalfCharacterExample`.

## Model

| member | source | states |
|---|---|---|
| `DispatcherInvariant.StepKeeps` | internal/jobs/dispatcher.go:138-411 | Every step of the state machine, by the run loop, an enqueuing goroutine, a sub-job worker or a crash, keeps the invariant: which rows may be running, what semaphore and wait group count, how often handlers ran, which sub-job rows a parent has. |
| `DispatcherInvariant.ReachableInv` | internal/jobs/dispatcher.go:138-284 | The invariant holds in every state of every execution, for all interleavings. |
| `DispatcherInvariant.FinishRows` | internal/repository/jobs.go:127-134 | Marking a finished sub-job done, which also deletes sub-jobs of that id, changes only its own status. |
| `DispatcherInvariant.LoadedFrom` | internal/jobs/dispatcher.go:176-191 | Loading adds only entries that were selected, so every queued entry still names a top-level row and its type. |
| `DispatcherTheorems.HandlerOncePerRestart` | internal/jobs/dispatcher.go:195-284 | Between two restarts no handler is invoked twice for one row, although an id can be queued twice; without crashes never at all. |
| `DispatcherTheorems.StatusPath` | internal/jobs/dispatcher.go:224-284 | A top-level row is never deleted and only moves queued to running or failed, running to failed, done or running_sub_jobs, and running_sub_jobs to done; it goes from queued to failed only without a handler and without one being invoked; a crash only puts running back to queued. |
| `DispatcherTheorems.StatusPathSteps` | internal/jobs/dispatcher.go:224-284 | Each of these moves has one cause: running when the handler is about to be started, failed only by that call, running_sub_jobs only after a flush that wrote rows of a type with support, done only after a flush or by the claim loop. |
| `DispatcherTheorems.SubJobPath` | internal/jobs/dispatcher.go:347-411 | A sub-job goes from queued to running by being claimed, ends done or failed as its handler does, fails without being run when its type has no handler, goes back to queued only in a crash, and disappears only with its parent. |
| `DispatcherTheorems.PickedJobMoves` | internal/jobs/dispatcher.go:206-252 | A picked queued row is marked running when its type has a handler and failed otherwise; a resumable one is resumed when its type has a handler; any other is left as it is. |
| `DispatcherTheorems.RunLoopNeverStuck` | internal/jobs/dispatcher.go:138-284 | In every reachable state the run loop has a next step in which nothing fails; idle and not paused it can pick as long as anything is queued. |
| `DispatcherTheorems.ClaimsInOrder` | internal/repository/jobs.go:232-252 | A claim of the state machine takes the queued sub-jobs with the smallest ids, a hundred at most, and marks exactly those running. |
| `DispatcherTheorems.FlushesInOrder` | internal/jobs/jobs_common.go:99-122 | A flush step writes the next five hundred specs of the buffer, or all that are left, as queued sub-jobs under consecutive new ids, and nothing else. |
| `DispatcherTheorems.FinishedForGood` | internal/repository/jobs.go:216-229 | A row that is done or failed keeps its status until it is deleted and its handler never runs again, across any number of crashes and restarts. |
| `DispatcherTheorems.CompletedParent` | internal/jobs/dispatcher.go:270-283 | When a parent completes, each spec its last run buffered had become exactly one row unless a batch insert failed, and the handler of every row ever written for it has run at least once, exactly once when nothing crashed; only sub-jobs without a handler are excepted. |
| `DispatcherTheorems.DoneMeansCompletedOrLost` | internal/jobs/dispatcher.go:270-386 | A parent whose type supports sub-jobs becomes done by completing in that sense when none of its sub-jobs is queued at that moment, and otherwise loses those that are; there is no third way. |
| `DispatcherTheorems.DeletedUnfinishedExactlyWhen` | internal/jobs/dispatcher.go:276-283 | A step deletes an unfinished sub-job if and only if it marks its parent done directly after the flush, or after a failing claim. |
| `DispatcherTheorems.NothingLostWithoutCrash` | internal/jobs/dispatcher.go:276-283 | As long as nothing has crashed, a flush of a supported type that goes straight to done leaves none of the sub-jobs that were written by flushes behind. |
| `DispatcherTheorems.RowsMatchBuffer` | internal/jobs/jobs_common.go:87-123 | While a parent is in running_sub_jobs its sub-job rows are one per written spec, with that spec, and subjobs_enqueued is their number. |
| `DispatcherTheorems.DeletedWhenFinished` | internal/repository/jobs.go:127-134 | When a parent is about to be marked done, the sub-jobs deleted with it are all finished if and only if none is queued. |
| `DispatcherTheorems.InFlight` | internal/jobs/dispatcher.go:323-374 | At most the configured maximum of handlers is in flight, or one for each CPU when none is configured, and when the next batch may be claimed no row at all is running. |
| `DispatcherTheorems.BarrierHolds` | internal/jobs/dispatcher.go:363-374 | The wait group is at zero exactly when no worker goroutine of the batch is left; the semaphore counts those that have not released it. |
| `DispatcherTheorems.NoDeadlock` | internal/jobs/dispatcher.go:363-374 | Semaphore and wait group cannot deadlock: in every reachable state of a batch some worker statement can be executed, or, when none is left, the batch can be joined. |
| `DispatcherTheorems.BatchEnds` | internal/jobs/dispatcher.go:363-374 | A batch of n sub-jobs is over after at most 4n worker statements, whatever enqueuing goroutines do meanwhile. |
| `DispatcherTheorems.NothingStranded` | internal/jobs/dispatcher.go:161-171 | Whenever the run loop is between jobs, each top-level row is finished or one that loadFromDB selects. |
| `DispatcherExamples.CrashWhileFlushingLosesSubJobs` | internal/jobs/dispatcher.go:270-278 | A concrete execution: a crash between the flush and running_sub_jobs, after which the parent ends done and a sub-job it had written is deleted without having run. |
| `DispatcherExamples.FailingClaimLosesSubJobs` | internal/jobs/dispatcher.go:347-351 | A concrete execution without a crash: a failing claim ends in a done parent whose queued sub-job is deleted. |
| `DispatcherQueues.StepMovesQueue` | internal/jobs/dispatcher.go:85-95 | What each step of an execution does to the queue: append, reload, pick, put back in front, forget in a crash, or nothing. |
| `DispatcherQueues.QueueServed` | internal/jobs/dispatcher.go:85-345 | Between two crashes every execution is a sequence of appends, picks and put-backs, so what holds of those holds of it. |
| `DispatcherQueues.PickedInOrder` | internal/jobs/dispatcher.go:287-308 | In every execution, between crashes, a non-transcode entry with k of them ahead is the (k+1)-th job picked from then on. |
| `DispatcherQueues.TranscodesInOrder` | internal/jobs/dispatcher.go:304-307 | In every execution, between crashes and while none yields, transcodes are picked in the order in which they are queued. |
| `DispatcherQueues.YieldedComesBack` | internal/jobs/dispatcher.go:336-345 | A transcode parent that has yielded is the next transcode that is picked, unless another yields or the process crashes before. |
| `DispatcherQueues.TranscodesGiveWay` | internal/jobs/dispatcher.go:331-345 | A transcode parent claims only while nothing but transcodes is queued, and yields only while something else is; nothing is picked while paused. |
| `DispatcherQueues.ReloadQueuesAll` | internal/jobs/dispatcher.go:161-192 | A reload queues all that its query has found, adds nothing else, and no id that is queued already. |
| `Scheduling.FirstComeFirstServed` | internal/jobs/dispatcher.go:287-308 | Whatever is appended, reloaded or put back meanwhile, the k-th pick returns the k-th non-transcode job of the queue. |
| `Scheduling.PositionAmongNonTranscodes` | internal/jobs/dispatcher.go:295-302 | An entry with k non-transcode entries ahead of it is the k-th of them, so the (k+1)-th pick returns it. |
| `Scheduling.PickIsOldest` | internal/jobs/dispatcher.go:295-307 | A pick removes one entry, keeps the order of the others, and takes a transcode only when nothing else is queued. |
| `Scheduling.PickIsOldestTranscode` | internal/jobs/dispatcher.go:304-307 | A transcode is picked only from a queue of transcodes, and then the first one; any other pick leaves the transcodes as they are. |
| `Scheduling.TranscodesFirstComeFirstServed` | internal/jobs/dispatcher.go:287-308 | Whatever is appended and picked in between, transcodes are picked in the order in which they are queued, as long as none is put back. |
| `Scheduling.YieldedIsNext` | internal/jobs/dispatcher.go:336-345 | A parent put back in front is the next transcode picked, unless another one is put back after it. |
| `Scheduling.PickUnique` | internal/jobs/dispatcher.go:287-308 | Which entry is picked is determined by the queue. |
| `Scheduling.NoTranscodeAfterYield` | internal/jobs/dispatcher.go:336-345 | After a transcode has yielded, whatever is appended, the next pick is not a transcode. |
| `Dispatchers.LoadedMeaning` | internal/jobs/dispatcher.go:161-192 | After a reload every queued or resumable top-level row is queued, the old queue is kept in front, and each added id is such a row with its type, new, and added once. |
| `Scheduling.DrainsEverything` | internal/jobs/dispatcher.go:195-284 | With nothing arriving, as many calls of processNext as there are entries empty the queue and bring every row with a registered handler to done or failed. |
| `Scheduling.CoveredAfterStep` | internal/jobs/dispatcher.go:195-222 | One call of processNext leaves every row that can still be worked on in the queue. |
| `Dispatchers.Dispatcher.Enqueue` | internal/jobs/dispatcher.go:85-95 | One queued top-level row and one entry at the end of the queue. |
| `Dispatchers.Dispatcher.SelectLive` | internal/jobs/dispatcher.go:162-165 | Exactly the queued and running_sub_jobs top-level rows, each once, oldest first. |
| `Dispatchers.Dispatcher.LoadFromDB` | internal/jobs/dispatcher.go:161-192 | The queue followed by the selected rows it does not hold yet. |
| `Dispatchers.Dispatcher.PickNext` | internal/jobs/dispatcher.go:287-308 | None exactly on an empty queue; else the first entry that is no video_transcode is removed and returned, and when there is none the first entry of all. |
| `Dispatchers.Dispatcher.HasNonTranscodeJobs` | internal/jobs/dispatcher.go:311-320 | Whether some queued entry is not a transcode. |
| `Dispatchers.Dispatcher.RunSubJob` | internal/jobs/dispatcher.go:389-411 | The handler is invoked exactly when its type has one; the sub-job ends done on success and failed otherwise, and no other row changes. |
| `Dispatchers.Dispatcher.RunBatch` | internal/jobs/dispatcher.go:363-374 | Every claimed sub-job ends done or failed; those with a handler ran once each. One after another here. |
| `Dispatchers.Dispatcher.StopsEarly` | internal/jobs/dispatcher.go:332-351 | Cancellation, then yielding, then a failing claim; a yielding transcode goes back to the front of the queue. |
| `Dispatchers.Dispatcher.ClaimAndRun` | internal/jobs/dispatcher.go:347-374 | Either a non-empty batch was finished, or nothing was queued any more; the finished part of the sub-jobs grows with every batch. |
| `Dispatchers.Dispatcher.RunPasses` | internal/jobs/dispatcher.go:331-381 | The claim loop terminates on the number of queued sub-jobs; when it ends by itself all of them were handled. |
| `Dispatchers.Dispatcher.ExecuteSubJobs` | internal/jobs/dispatcher.go:323-386 | Each queued sub-job with a handler ran exactly once before its parent became done and its rows were deleted; a parent that yielded or was cancelled is unchanged, stands in front of the queue if it yielded, and can be resumed with the rest still queued. |
| `Dispatchers.Dispatcher.Flush` | internal/jobs/jobs_common.go:87-123 | The buffered specs that reach the table become consecutive queued children of the job, and count is their number. |
| `Dispatchers.Dispatcher.FlushAndDrain` | internal/jobs/dispatcher.go:270-283 | After a handler returned: sub-jobs are written and run exactly once each, or the job is done at once when there are none or its type has no support. |
| `Dispatchers.Dispatcher.Drain` | internal/jobs/dispatcher.go:213-222 | A resumed or fresh claim loop ends with the parent done and all its queued sub-jobs run, and never leaves a top-level row running. |
| `Dispatchers.Dispatcher.WorkOn` | internal/jobs/dispatcher.go:206-284 | From the fetched row on: the row taken ends as its handler does, and no other top-level row changes. |
| `Dispatchers.Dispatcher.ProcessNext` | internal/jobs/dispatcher.go:195-284 | Nothing while paused or empty; otherwise one picked entry is worked on, the handler is invoked exactly on a queued row with a handler, no top-level row is left running, and the queue only loses the entry picked, gains entries at its end, and may get a yielding transcode back in front. |
| `JobTables.JobTable.JobCreate` | internal/repository/jobs.go:18-28 | A fresh id and one queued row; nothing else changes. |
| `JobTables.JobTable.JobCreateSubJobBatch` | internal/repository/jobs.go:48-79 | All rows and the counter, or, when the statement fails, nothing. |
| `JobTables.JobTable.JobMarkDone` | internal/repository/jobs.go:127-136 | Exactly the sub-jobs of the job disappear; the job is done and every other row is as before. |
| `JobTables.JobTable.JobsResetStuck` | internal/repository/jobs.go:216-229 | Exactly the running rows become queued; no row appears, disappears or changes otherwise. |
| `JobTables.JobTable.JobClaimSubJobBatch` | internal/repository/jobs.go:232-252 | Claims the first queued sub-jobs of the parent in order, up to the limit and all of them when they fit; empty exactly when none is queued. |
| `JobTables.InsertedChildrenMeaning` | internal/repository/jobs.go:64-78 | Each spec becomes exactly one queued row with the next id, the counter grows by their number, nothing else changes. |
| `JobTables.InsertedTwice` | internal/jobs/jobs_common.go:99-122 | Writing two batches one after the other is writing their concatenation once. |
| `JobContexts.AllDelivered` | internal/jobs/jobs_common.go:99-122 | No spec is written twice, and all are written when no batch fails. |
| `JobContexts.DeliveredMeaning` | internal/jobs/jobs_common.go:97-122 | The specs that reach the table are, in order, exactly those whose batch of five hundred is not rejected. |
| `JobContexts.JobContext.FlushBatch` | internal/jobs/jobs_common.go:104-121 | One batch is written whole or not at all. |
| `JobContexts.JobContext.FlushSubJobs` | internal/jobs/jobs_common.go:87-123 | The buffer is emptied; the table gains exactly the specs of the batches that did not fail, in order, and the returned total and the counter are their number. |
| `SegmentSets.SegmentSet.Search` | internal/streaming/segmentset.go:19-20 | The binary search finds the first range above n, justified by the order of the ranges. |
| `SegmentSets.SegmentSet.Add` | internal/streaming/segmentset.go:18-45 | Through all of its cases add yields the canonical list of the old set with n put in. |
| `SegmentSets.SegmentSet.Contains` | internal/streaming/segmentset.go:49-52 | For length at least 1 true exactly when all of [n, n+length) is available; for smaller lengths exactly what it then tests. |
| `SegmentSets.SegmentSet.FirstAvailableAfter` | internal/streaming/segmentset.go:57-63 | The least number above n that is available while its predecessor is not; not found exactly when there is none. |
| `SegmentSets.NextRunIsLeastAvailable` | internal/streaming/segmentset.go:54-63 | Found or not, the answer is the documented one, the lowest available number above n or none when there is none, if and only if n and n+1 are not both available. |
| `SegmentSets.NextRunExamples` | internal/streaming/segmentset.go:57-63 | Two concrete answers that are not the documented one: 8 where 3 is available, and none where 3 is available. |
| `SegmentSets.AddedCorrectly` | internal/streaming/segmentset.go:27-44 | Merge, extend left, extend right and insert each denote the old set with n put in and stay canonical. |
| `SegmentSets.ContainsMeaning` | internal/streaming/segmentset.go:49-52 | One comparison with the range left of the search position decides the whole interval. |
| `SegmentSets.CanonicalUnique` | internal/streaming/segmentset.go:10-15 | Two lists satisfying the invariant that denote the same set are the same list. |
| `SegmentSets.AddRunDenotes` | internal/streaming/segmentset.go:17-45 | After any sequence of adds the ranges are canonical and denote exactly the numbers added. |
| `SegmentSets.RunsAgree` | internal/streaming/segmentset.go:17-45 | Two sequences of adds end in the same ranges if and only if they add the same numbers, whatever the order and the repeats. |
| `SegmentSets.FillingAGap` | internal/streaming/session.go:283-295 | Filling a bounded gap pulls the next range down to its start and swallows the left neighbour exactly when that ended just before. |
| `SegmentNames.FormatIsValid` | internal/streaming/session.go:592-609 | Formatting gives a valid name exactly for non-negative numbers. |
| `SegmentNames.ValidExactlyWhen` | internal/streaming/session.go:597-609 | A name is valid if and only if it is seg_, one or more digits, and .ts. |
| `SegmentNames.FormatWrites` | internal/streaming/session.go:592-595 | A number is written in at least five digits, with leading zeros up to five only. |
| `SegmentNames.FormatThenParse` | internal/streaming/session.go:592-617 | Parsing undoes formatting on every 64-bit number. |
| `SegmentNames.FormatInjective` | internal/streaming/session.go:592-595 | Different numbers get different names. |
| `SegmentNames.ParseThenFormat` | internal/streaming/session.go:611-617 | Formatting the parse of a valid name gives it back if and only if it has at least five digits, no surplus leading zero, and fits 64 bits. |
| `SegmentNames.PrefixAndSuffixApart` | internal/streaming/session.go:599-602 | The slice between prefix and suffix never panics. |
| `Streaming.Session.constructor` | internal/streaming/session.go:113-170 | A new session encodes the whole file from segment 0 into the manifest clients are served. |
| `Streaming.Session.SeekTo` | internal/streaming/session.go:274-309 | One seek at a time: nothing for an available target; else the run that is started writes exactly the segments from the target up to the next one that were missing when the seek decided. |
| `Streaming.Session.KillAfterCurrentSegment` | internal/streaming/session.go:313-361 | The published encoder is stopped; what was marked during the wait, which may end by its deadline with nothing marked, is available. |
| `Streaming.Session.ProactiveGapFill` | internal/streaming/session.go:451-487 | Picks the least missing segment of its two-segment window, or nothing exactly when both are available or the next one lies from the current segment up to 3 ahead, 100 for a remux. |
| `Streaming.Session.ServeSegment` | internal/streaming/session.go:202-268 | Seeks exactly when the segment is missing and lies before the current one or more than 3 ahead of it, 100 for a remux, which restarts the encoder unless the segment became available in between; served exactly when available after the wait; a follow-up seek only targets a missing segment; currentSegment is the one sought or the last the watcher saw. |
| `Streaming.PlanIsGap` | internal/streaming/session.go:283-295 | The window [target, next available) is disjoint from the set, has positive duration, and an unbounded run is planned exactly when nothing follows. |
| `Streaming.GapPlanUnique` | internal/streaming/session.go:291-295 | The plan is determined by the set and the target. |
| `Streaming.RestartOverwritesNothing` | internal/streaming/session.go:270-297 | The documented promise that existing segments are never overwritten holds at the start of the run if and only if nothing in its window was marked while the old run was being stopped. |
| `Streaming.SeekOverwritesExactlyWhen` | internal/streaming/session.go:283-304 | An available segment is overwritten if and only if one marked since the seek decided lies at or after the target with nothing available before it from the target on. |
| `Streaming.SafeFromRunning` | internal/streaming/session.go:283-304 | What can be told before the call: the running and the planned encoder share a segment if and only if both write the later of their starts. If not, and if none of the other numbers that may be marked meanwhile (the watcher marks the one before a file being created, an exit the highest file) lies in the gap, nothing is overwritten. |
| `Streaming.StartsGapExactlyWhen` | internal/streaming/session.go:270-295 | The run starts at the first missing segment at or before the target if and only if that is the target itself; otherwise it leaves those before the target missing. |
| `Streaming.SeekBackOverwrites` | internal/streaming/session.go:274-309 | A concrete run of a new session, through its constructor and two seeks: segment 5 is finished while the seek back to 2 stops its encoder, and the new run writes it again. |
| `Streaming.SeekTouchesServedManifest` | internal/streaming/session.go:493-535 | A seek rewrites the manifest clients read if and only if it restarts at segment 0 with nothing available above. |
| `Streaming.BoundedRunClosesGap` | internal/streaming/session.go:291-295 | Marking all of a bounded run extends the next range down to the target and removes one range when the segment before the target was available. |
| `SeekRuns.ReachableAccounted` | internal/streaming/session.go:274-361 | In every interleaving of seeks each running encoder is the published one, about to be published, or an orphan. |
| `SeekRuns.OneEncoderExactlyWhen` | internal/streaming/session.go:298-309 | When no seek is under way nothing but the published encoder runs if and only if no orphan still runs. |
| `SeekRuns.PublishedAfterKill` | internal/streaming/session.go:300-309 | After a kill there is a published encoder again if and only if some seek has published since and no kill has followed. |
| `SeekRuns.OrphansExactlyWhen` | internal/streaming/session.go:298-309 | A publishing seek orphans an encoder if and only if another seek has published since it killed, none has killed after that, and that encoder is still running. |
| `SeekRuns.SerialSeeksOrphanNothing` | internal/streaming/session.go:274-309 | Seeks that are never past their kill at the same time leave no orphan. |
| `SeekRuns.TwoEncoders` | internal/streaming/session.go:274-309 | A concrete run: two overlapping seeks of a new session leave two encoders running, of which the session knows one. |
| `SeekRuns.StartedRunOverwrites` | internal/streaming/session.go:283-304 | Under any overlap a started run writes an available segment if and only if one of its window was marked after its seek decided. |
| `Collections.RootIsTop` | internal/repository/collections.go:10-50 | Following parent links ends at exactly the row named by root_collection_id. |
| `Collections.UnderTop` | internal/repository/collections.go:291-303 | The rows below a top-level collection are exactly the rows with its id as root. |
| `Collections.CreateKeepsInv` | internal/repository/collections.go:17-31 | A new top-level row keeps the table well hung. |
| `Collections.UpsertKeepsInv` | internal/repository/collections.go:36-50 | Both branches of the upsert, insert and conflict, keep the table well hung; a conflict never hits a top-level row. |
| `Collections.DeleteKeepsInv` | internal/repository/collections.go:89-95 | Deleting a collection with everything below it keeps the table well hung. |
| `Collections.GrantsSeenFromBelow` | internal/repository/collections.go:192-203 | Some ancestor of a collection is granted to a user if and only if its root is. |
| `Collections.CollectionStore.CollectionCreate` | internal/repository/collections.go:17-31 | A fresh row that is its own root. |
| `Collections.CollectionStore.UpsertSubCollection` | internal/repository/collections.go:36-50 | Existing row re-hung, or one row inserted with the type of the library; None exactly when parent or root is missing; the table stays well hung if and only if the parent belongs to that root and lies above the path. |
| `Collections.UpsertAgainModifiesExactlyWhen` | internal/repository/collections.go:32-46 | Scanning a directory again leaves its row unmodified if and only if it hangs below that parent already; nothing but its parent ever changes. |
| `Collections.CollectionStore.VisitFolder` | internal/jobs/definitions/collection_scan.go:299-323 | The directory has a row below the row of its parent directory, or below the scanned collection when that is not recorded. |
| `Collections.CollectionStore.WalkFolders` | internal/jobs/definitions/collection_scan.go:295-326 | Every directory has its own row in this library below the scanned collection; rows of other paths are untouched; when parents are visited first the parent links mirror the directory tree. |
| `Collections.CollectionStore.CollectionDelete` | internal/repository/collections.go:89-95 | Removes exactly the collection, everything below it, and their grants. |
| `CollectionScan.MediaLibrary.DeleteCollection` | internal/repository/collections.go:89-95 | With the collections below it exactly their items are deleted; no other item or collection changes. |
| `Collections.CollectionStore.GrantAccessToUser` | internal/repository/collections.go:246-256 | Adds exactly the grants on top-level collections among those named. |
| `Collections.CollectionStore.GrantAccessToUsers` | internal/repository/collections.go:260-270 | Adds the grants when the collection is top-level and nothing otherwise. |
| `Collections.CollectionStore.ExistsAndAccessible` | internal/repository/collections.go:192-203 | The one-join check equals a grant on the topmost ancestor, and a grant on any ancestor. |
| `Collections.CollectionStore.DescendantIDs` | internal/repository/collections.go:291-303 | The recursive query terminates and returns exactly the rows properly below; for a top-level collection those with it as root. |
| `Collections.CollectionStore.IsDescendantOf` | internal/repository/collections.go:306-319 | True exactly when the ancestor exists and parent links lead from the child up to it. |
| `LevelSearch.RandomHashWithVariants` | internal/repository/media_item.go:203-248 | Returns the hash of an item that is neither missing nor hidden, has variants and an edge above 400, from the shallowest level that has one, and nothing if and only if no level down to 8 has one, on any table. |
| `LevelSearch.NothingBelowEmpty` | internal/repository/media_item.go:206-209 | Stopping at an empty level misses nothing. |
| `LevelSearch.ClimbsIsDepth` | internal/repository/media_item.go:233-245 | On the collections table the level of a row is its distance from the start. |
| `LevelSearch.ShownFromSameLibrary` | internal/repository/media_item.go:203-248 | Whatever is shown comes from the library of the collection asked for. |
| `CollectionScan.MediaLibrary.Upsert` | internal/repository/media_item.go:33-61 | Updates the row with that path and collection when there is one and otherwise inserts one that is visible, present, as the file is and named after it, for any collection; the items stay consistent with the folders if and only if the collection is the folder of the path. |
| `CollectionScan.MediaLibrary.KnownForScan` | internal/repository/media_item.go:572-628 | The map describes exactly the items of the tree, missing ones included, by path. |
| `CollectionScan.MediaLibrary.VisitKnown` | internal/jobs/definitions/collection_scan.go:143-206 | What the three-level cascade leaves of the item and whether it queues it, field by field, for every combination of faults; without faults that is what rehashing would give when the file looks newer, and otherwise only a cleared missing flag. |
| `CollectionScan.MediaLibrary.VisitFile` | internal/jobs/definitions/collection_scan.go:128-240 | A visit changes or inserts at most the item of its path and queues it at most once, whatever fails; without faults it does exactly what the cascade or the upsert says. |
| `CollectionScan.MediaLibrary.WalkFiles` | internal/jobs/definitions/collection_scan.go:97-242 | Over the whole walk, faults and cancellation included, only items of seen paths change, none becomes missing, and each is queued at most once; without faults all seen items are settled. |
| `CollectionScan.MediaLibrary.MarkUnseen` | internal/jobs/definitions/collection_scan.go:267-282 | Marks exactly the unseen items of the tree, as far as it gets. |
| `CollectionScan.MediaLibrary.Scan` | internal/jobs/definitions/collection_scan.go:51-291 | The whole job: what every scan keeps, however it ends, with new items visible and as on disk; the exact result of one without faults; done exactly when the collection is there and enabled and the context outlives the scan. |
| `CollectionScan.StemCutsExtension` | internal/jobs/definitions/collection_scan.go:228-228 | The title of a new item is its base name without exactly the extension, from the last dot on. |
| `CollectionScan.NewItemMeaning` | internal/repository/media_item.go:40-42 | A new item has the folder, path, size, hash and time given, is neither missing nor hidden, and is titled after its file without the extension. |
| `CollectionScan.PathIdentifiesItem` | internal/repository/media_item.go:572-628 | Within a scanned tree a path names at most one item, so keying the snapshot by path loses none. |
| `CollectionScan.SeenByMeaning` | internal/jobs/definitions/collection_scan.go:100-125 | The seen paths are those of the supported files reported before cancellation. |
| `CollectionScan.WalkCutShort` | internal/jobs/definitions/collection_scan.go:262-265 | A cancelled walk marks nothing missing. |
| `CollectionScan.WalkThenMark` | internal/jobs/definitions/collection_scan.go:262-282 | Walk and marking together: kept identities in any case, the complete result when nothing went wrong. |
| `ScanTheorems.CascadeEqualsRehash` | internal/jobs/definitions/collection_scan.go:51-60 | An undisturbed scan leaves and queues exactly what hashing every file would if and only if every changed file has a newer time than the stored one. |
| `ScanTheorems.CompleteMeaning` | internal/jobs/definitions/collection_scan.go:143-282 | What an undisturbed scan leaves of each item of the tree and whether it queues it, field by field. |
| `ScanTheorems.AfterComplete` | internal/jobs/definitions/collection_scan.go:153-206 | After an undisturbed scan an item is missing exactly when its path was not walked, and its stored time is the maximum of the old one and that on disk. |
| `ScanTheorems.StoredFollowsDisk` | internal/jobs/definitions/collection_scan.go:94-242 | Over any run of undisturbed scans of a changing disk, of any collections, every item holds the content its file had when last walked and the newest time it was walked with, provided changed content always comes with a newer time. |
| `ScanTheorems.NoNewerNoChange` | internal/jobs/definitions/collection_scan.go:152-161 | Under that proviso a file that looks no newer than anything stored has the content last stored, so the fast path loses nothing. |
| `ScanTheorems.RescanIsQuiet` | internal/jobs/definitions/collection_scan.go:152-161 | Scanning an unchanged disk again, with all metadata present, changes and queues nothing. |
| `ScanTheorems.ItemsSurvive` | internal/jobs/definitions/collection_scan.go:267-282 | Over any run of scans, failing or cancelled anywhere, an item keeps its id, place, title and hidden flag, and never becomes missing while its file is walked. |
| `ScanTheorems.IdsAreFresh` | internal/repository/media_item.go:33-61 | Over any run of scans new items get ids never used before. |
| `TokenRotation.AuthService.HandleLogin` | internal/api/auth.go:156-210 | Exactly the login transition for requests that do not overlap (LoginAloneIsStep): banned, new device with eviction, or a replaced session that a unique column may refuse; the session lasts ninety days from now; only its own row changes, and only an active device of the user can disappear. |
| `TokenRotation.AuthService.HandleRefresh` | internal/api/auth.go:233-342 | Exactly the refresh transition for requests that do not overlap (RefreshAloneIsStep), in the order in which the handler checks: one row gets the new token, the presented one as previous, and ninety days from now; or the devices of one user are deleted and those of all others are untouched; or nothing changes. |
| `TokenRotation.AuthService.HandleBan` | internal/repository/devices.go:195-204 | Bans an owned device and nulls its hashes and expiry; every other row is untouched. |
| `TokenRotation.AuthService.HandleUnban` | internal/repository/devices.go:207-213 | Clears the ban and nothing else. |
| `TokenRotation.AuthService.HandleDelete` | internal/repository/devices.go:171-180 | Deletes an owned device, as logout does with the current one. |
| `TokenRotation.AuthService.HandleDeleteForUser` | internal/repository/devices.go:183-192 | A device is there afterwards if and only if it was before and belongs to another user, and then it is unchanged. |
| `TokenRotation.AuthService.HandleDeleteByID` | internal/repository/devices.go:239-245 | Deletes exactly the devices named. |
| `TokenRotation.AuthService.DeviceUpdateSession` | internal/repository/devices.go:91-117 | One row changes, or none when a unique column would clash or there is no such row. |
| `TokenRotation.AuthService.DeviceCreate` | internal/repository/devices.go:73-89 | One row is inserted under a fresh id, unless the user has that uuid already or the hash is taken. |
| `TokenRotation.AuthService.DeviceEvictLRU` | internal/repository/devices.go:130-147 | Deletes one least recently seen active device, or nothing when there is none. |
| `TokenRotation.StepKeeps` | internal/repository/devices.go:73-117 | For requests that do not overlap, every request keeps: hashes are unique across devices and columns, tokens are generated ones, a banned device has no hash. |
| `TokenRotation.OneState` | internal/repository/devices.go:47-71 | For requests that do not overlap, a token is current on at most one device, previous on at most one, and never both. |
| `TokenRotation.TokenAges` | internal/api/auth.go:256-342 | For requests that do not overlap, a token only moves from current to previous to dead; it becomes previous exactly by being accepted, and a previous one is never accepted. |
| `TokenRotation.SpentForGood` | internal/api/auth.go:256-342 | Over any sequence of requests that do not overlap spent tokens stay spent and dead ones stay dead. |
| `TokenRotation.AcceptedOnce` | internal/api/auth.go:233-342 | Over any sequence of requests that do not overlap each refresh token is accepted at most once. |
| `TokenRotation.AcceptedExactlyWhen` | internal/api/auth.go:278-342 | For requests that do not overlap, a refresh is accepted if and only if the token is current on a device with that uuid, has not expired and the user may connect; the rotation never clashes. |
| `TokenRotation.DeletionKillsTheirTokens` | internal/repository/devices.go:171-192 | A deletion kills the tokens of the devices that are gone and leaves all others where they are. |
| `TokenRotation.DeletedDeviceIsGone` | internal/repository/devices.go:171-180 | Logging out deletes that device only, and its tokens are dead. |
| `TokenRotation.ReuseRevokesUser` | internal/api/auth.go:259-276 | For requests that do not overlap, presenting a rotated token deletes exactly the devices of its user, leaves those of others unchanged, and kills all the tokens of the user. |
| `TokenRotation.ReloginWorksExactlyWhen` | internal/api/auth.go:203-209 | For requests that do not overlap, logging in again on a known device works if and only if it is not banned and no other device holds the empty string in its UNIQUE previous-hash column. |
| `TokenRotation.ReloginExample` | internal/db/migrations/000001_schema.up.sql:44-45 | A concrete run: two users log in, the first logs in again, and the second then cannot. |
| `TokenRotation.FirstLoginWorks` | internal/api/auth.go:184-202 | For requests that do not overlap, login on a new device never violates a UNIQUE constraint. |
| `TokenRuns.MoveKeeps` | internal/api/auth.go:156-342 | Every statement of every request, in any interleaving, keeps: a hash sits only on the device its token was issued to, rows are unique in user and uuid and in the empty string. |
| `TokenRuns.ReachableTracked` | internal/api/auth.go:156-342 | This holds in every state of every run of overlapping requests. |
| `TokenRuns.RotateLands` | internal/repository/devices.go:91-117 | The UPDATE of a refresh never violates a UNIQUE constraint, however requests overlap. |
| `TokenRuns.OnePlace` | internal/repository/devices.go:47-71 | However requests overlap, a token is current on at most one device, previous on at most one, and never both. |
| `TokenRuns.AcceptedAgainExactlyWhen` | internal/api/auth.go:255-339 | After its first acceptance a token can be accepted again if and only if another request with it was past its lookups at that moment. |
| `TokenRuns.LaterRequestsAreRefused` | internal/api/auth.go:255-339 | Whoever is accepted with a token after its first acceptance had begun and was past its lookups then; a refresh that begins later never is. |
| `TokenRuns.IssuedTokenIsKnown` | internal/repository/devices.go:91-117 | The token an accepted refresh answers with is on its device if and only if the device was not deleted since the lookup. |
| `TokenRuns.BanHoldsExactlyWhen` | internal/repository/devices.go:195-204 | A banned device stays without a hash until it is unbanned if and only if no login or refresh had found it before the ban. |
| `TokenRuns.DeadStaysDeadExactlyWhen` | internal/repository/devices.go:91-117 | A token no device knows stays unknown if and only if no refresh with it is past its lookups on a device that still exists. |
| `TokenRuns.RefreshAloneIsStep` | internal/api/auth.go:255-339 | The statements of one refresh, run without overlap, are exactly one refresh transition of the devices table. |
| `TokenRuns.LoginAloneIsStep` | internal/api/auth.go:156-210 | The statements of one login, run without overlap, are exactly one login transition. |
| `TokenAnswers.ReplaceLandsExactlyWhen` | internal/repository/devices.go:91-117 | However requests overlap, the UPDATE of a login on a known device succeeds if and only if the device is gone or no other device holds the empty string then. |
| `TokenAnswers.ReloginFailsExactlyWhen` | internal/api/auth.go:156-209 | A login that has found its device not banned fails if and only if the device still exists and another one holds the empty string at the time of its UPDATE; a ban in between does not stop it. |
| `TokenAnswers.InsertAllowedExactlyWhen` | internal/repository/devices.go:73-89 | However requests overlap, the INSERT of a login is refused if and only if a device of that user and uuid exists then. |
| `TokenAnswers.FirstLoginRefusedExactlyWhen` | internal/api/auth.go:156-202 | A login that has found no device is refused if and only if another login of the same user and uuid has inserted one since that has not been deleted. |
| `TokenAnswers.RefreshAcceptedExactlyWhen` | internal/api/auth.go:255-339 | A refresh is accepted if and only if its first lookup found the token previous nowhere, its second found it current on a device with that uuid and not expired, and it was not given up, as when the user may not connect; nothing that happens after the lookups matters. |
| `TokenAnswers.RefreshRevokesExactlyWhen` | internal/api/auth.go:256-303 | A refresh deletes all devices of a user, and no others, if and only if its first lookup found the token previous on one of them, or its second found it current on one with another uuid. |
| `DeviceLimits.LoginKeepsLimit` | internal/api/auth.go:184-202 | A login that does not overlap leaves its user at most fifteen active devices, or as many as before, and does not add to those of others. |
| `DeviceLimits.ExceedsLimitExactlyWhen` | internal/repository/devices.go:207-213 | For requests that do not overlap, a request takes a user above fifteen active devices if and only if it unbans a device of a user who has fifteen. |
| `DeviceLimits.SerialRunKeepsLimit` | internal/repository/devices.go:247-248 | Over any sequence of requests that do not overlap and unban nothing, nobody has more than fifteen active devices. |
| `DeviceLimits.MoveExceedsLimitExactlyWhen` | internal/repository/devices.go:73-89 | However requests overlap, a statement takes a user above fifteen active devices if and only if it inserts or unbans a device of a user who has fifteen. |
| `DeviceLimits.UndisturbedInsertKeepsLimit` | internal/api/auth.go:186-202 | A login keeps the limit, or the number of active devices there was, when no device of its user is inserted or unbanned between its count and its INSERT. |
| `TokenExamples.AcceptedTwice` | internal/api/auth.go:255-339 | A concrete run from an empty table: two refreshes with one token are both accepted. |
| `TokenExamples.BannedDeviceRefreshes` | internal/api/auth.go:418-440 | A concrete run: a device is banned between the lookup and the UPDATE of a refresh, and the token issued then is accepted later. |
| `TokenExamples.DeadTokenRevived` | internal/repository/devices.go:91-117 | A concrete run: after two rotations a delayed UPDATE makes the first token a previous one again. |
| `TokenExamples.OverlappingReloginFails` | internal/api/auth.go:156-209 | A concrete run: two users log in again; when the second finds its device nobody holds the empty string, and still its UPDATE fails. |
| `TokenExamples.BannedDeviceLogsIn` | internal/api/auth.go:156-209 | A concrete run: a device is banned after a login has found it, and the login gives it a hash. |
| `TokenExamples.OverlappingFirstLoginFails` | internal/api/auth.go:184-202 | A concrete run: of two overlapping first logins of one device the second is refused. |
| `TokenExamples.SixteenDevices` | internal/api/auth.go:186-202 | A concrete run: two overlapping logins of a user with fourteen devices leave sixteen active ones. |
| `RateLimiting.LoginRateLimiter.IsLocked` | internal/api/rate_limiter.go:36-48 | The state and the answer are those of the value-level step that IsLockedMatchesHistory is about; an expired lock is removed. |
| `RateLimiting.LoginRateLimiter.FilterInPlace` | internal/api/rate_limiter.go:60-66 | Overwriting the slice in its own backing array keeps exactly the attempts after the cutoff, at their increasing indices. |
| `RateLimiting.LoginRateLimiter.Append` | internal/api/rate_limiter.go:67-68 | Appending in place or into a grown copy adds one element at the end. |
| `RateLimiting.LoginRateLimiter.Recent` | internal/api/rate_limiter.go:57-67 | The filtered list of one address with the new failure; no backing array is shared between addresses, so the lists of the others are untouched. |
| `RateLimiting.LoginRateLimiter.Record` | internal/api/rate_limiter.go:52-76 | Through slices, arrays and both caches the state and the answer are those of the value-level step that RecordMatchesHistory is about. |
| `RateLimiting.AfterMeaning` | internal/api/rate_limiter.go:60-66 | Filtering keeps exactly the elements later than the cutoff, in order. |
| `RateLimiting.AfterTimes` | internal/api/rate_limiter.go:60-66 | Each of them as often as it occurs, and no other. |
| `RateLimiting.RecordStepMeaning` | internal/api/rate_limiter.go:52-76 | A failure locks for thirty minutes and drops the list if and only if with it at least five are stored in the last minute; otherwise the list keeps exactly those; other addresses are untouched. |
| `RateLimiting.FailuresMeaning` | internal/api/rate_limiter.go:50-76 | The history of an address is the list of all its failures, in order, and of no others. |
| `RateLimiting.AfterTwice` | internal/api/rate_limiter.go:60-66 | Pruning by an earlier and then a later cutoff is pruning by the later one. |
| `RateLimiting.PruneStep` | internal/api/rate_limiter.go:60-68 | Pruning at every failure loses nothing the window needs. |
| `RateLimiting.RunAgrees` | internal/api/rate_limiter.go:36-76 | After any run of failures and queries with a non-decreasing clock the stored lists and locks agree with the whole history. |
| `RateLimiting.RecordMatchesHistory` | internal/api/rate_limiter.go:50-76 | Record answers true if and only if at least five failures of its address, this one included, came after its last lock and within the last minute, counted by index over the whole history; stored lists stay below five. |
| `RateLimiting.IsLockedMatchesHistory` | internal/api/rate_limiter.go:35-48 | IsLocked answers true exactly until 30 minutes after the last locking failure. |
| `DatePrefixes.PatternsAreShapes` | internal/utils/string_utils.go:37-47 | Each regular expression accepts exactly the names beginning with one of its digit shapes and a tail. |
| `DatePrefixes.PatternsAreExclusive` | internal/utils/string_utils.go:37-47 | At most one of the four patterns accepts a name. |
| `DatePrefixes.ShapeIsUnique` | internal/utils/string_utils.go:56-131 | A name has at most one shape, so the order of patterns and of their alternatives is irrelevant. |
| `DatePrefixes.Recognised` | internal/utils/string_utils.go:56-131 | A name beginning with a shape is parsed by that shape. |
| `DatePrefixes.RecognisedExactlyWhen` | internal/utils/string_utils.go:37-47 | A name has a shape if and only if its columns are the digits, dots and dashes of that shape, followed by one separator and at least one more character, none a newline. |
| `DatePrefixes.ShownAsWritten` | internal/utils/string_utils.go:56-131 | What is shown for a name, in terms of its text: years as they stand, days without a leading zero, months by name, ends only as far as they differ; and the rest of the name, trimmed. |
| `DatePrefixes.TrimSpaceMeaning` | internal/utils/string_utils.go:62-62 | Trimming cuts off exactly the leading and trailing white space of Unicode. |
| `DatePrefixes.ReadsItsText` | internal/utils/string_utils.go:60-84 | Every text that fits a shape is the text of the date read from it: each number stands in its columns, and an omitted year or month of an end is that of the start. |
| `DatePrefixes.AcrossYears` | internal/utils/string_utils.go:92-93 | A range across years reads as its first day, a dash and its last day. |
| `DatePrefixes.WithinYear` | internal/utils/string_utils.go:86-90 | Within a year a range reads as its first day without the year, a dash and its last day, without the month when it is the same. |
| `DatePrefixes.PanicsOnLateMonths` | internal/utils/string_utils.go:49-52 | Extraction panics if and only if a month of the date is above 12. |
| `DatePrefixes.PanicExample` | internal/utils/string_utils.go:49-52 | A concrete name: 2024.13.01 Trip panics. |
| `DatePrefixes.LabelSurvivesStorage` | internal/utils/string_utils.go:135-179 | For every name the prefix from ExtractDatePrefixStr, cut in bytes as there, is shown by ParseDateString with the label ExtractDatePrefix gives the full name; both extract the same stripped name, find a date in the same names, and panic on the same names. |
| `DatePrefixes.PartsRebuildName` | internal/utils/string_utils.go:138-145 | Prefix, some blanks or underscores, and stripped name make up the input if and only if it has no trailing space or nothing after the date. |
| `DatePrefixes.HalfCharacterExample` | internal/utils/string_utils.go:138-145 | A concrete name with a trailing space whose stored prefix ends in half of the first character of the stripped name. |
| `DatePrefixes.LabelledDateStrings` | internal/utils/string_utils.go:147-161 | ParseDateString recognises exactly the strings that are a date, or begin with one followed by a separator and no newline. |
| `DatePrefixes.TextAfterDateExample` | internal/utils/string_utils.go:147-161 | A concrete string that is not a prefix alone and is recognised: 2024 anything. |
| `DatePrefixes.TrimmedIsSuffix` | internal/utils/string_utils.go:62-62 | A trimmed string ends the original exactly when nothing was trimmed on the right. |

## Left out

- HTTP handlers, cookies, JSON, JWT, bcrypt and SHA-256: a token stands for its own hash, and generated tokens are distinct.
- DeviceGuard, access history and the revocation of access tokens: they do not influence refresh tokens.
- Dispatchers.Dispatcher.RunBatch: runs the sub-jobs of a batch one after another; their interleavings are in DispatcherRuns.
- Database errors other than a failing batch insert, a failing claim, a unique or foreign key violation and the faults of a scan.
- AttachTranscodeSubJob and findOrCreateTranscodeParent, which insert a sub-job without a flush: the handler of a video_transcode parent buffers nothing, so a parent taken from `queued` is marked done at once and the children attached to it are deleted, without any crash (DeletedWhenFinished shows the condition).
- DispatcherTheorems.NothingLostWithoutCrash: about sub-jobs that a flush has written, not about those attached by AttachTranscodeSubJob.
- JobTables.JobTable.JobClaimSubJobBatch: returns the claimed rows in id order, which the statement's RETURNING clause does not promise.
- queued_at: rows are ordered by id, the order in which they are inserted.
- Job steps, progress texts, error messages and timestamps of rows; the maintenance queries of the jobs table.
- Registering handlers is a step that adds a type; a type is not registered twice between two restarts.
- watchSegments, whose effect depends on file system events: the numbers it marks and the value it leaves in currentSegment are parameters.
- The removal of a partial segment file after a kill, the idle sweeper, and the command line of ffmpeg beyond offset, start number, duration and manifest.
- Streaming.Session.SeekTo: one seek at a time; what overlapping seeks do is in SeekRuns.
- Streaming.Session.KillAfterCurrentSegment: one seek at a time, so that nothing runs afterwards; overlapping seeks are in SeekRuns.
- Streaming.Session.ServeSegment: the 12 second deadline and a closed request are one outcome, not ready.
- Overflow of 64-bit segment numbers, except in Atoi, which clamps.
- Eviction from the rate limiter's LRU caches: their capacity is taken not to be exceeded, and one mutex makes each call atomic.
- Collections without a relative path, renaming, enabling and listing collections, manual thumbnails.
- Concurrent changes of the collections or items tables while a scan runs, such as an administrator deleting a collection or hiding items (internal/api/admin.go, 114, 790 and 882): the theorems about scans are about tables that only that scan changes.
- Gaps in id sequences after failed or conflicting inserts.
- MIME types beyond their category, the content hash function, indexed_at, and the type name of a queued scan job, which the library's category determines.
- Directories that cannot be read: a scan does not walk what is below them, so "walked" in the theorems means reported by the walk.
- CollectionScan.MediaLibrary.Scan: the walk of files is a list of callbacks on a disk that does not change meanwhile; that all directories lie below the scanned collection is a fact about directory walks.
- Order of the rows a query without ORDER BY returns, and ORDER BY RANDOM(): any choice.
- DatePrefixes.LabelSurvivesStorage: names are sequences of Unicode scalar values, not byte strings outside UTF-8; a byte of half a character is read as U+FFFD, and whether the database accepts such a prefix is not modelled.
- GenerateSortName, EXIF parsing, full-text search, pagination, lens tables, the cron scheduler, and internal/transcoder/transcoder.go, which nothing registers.
