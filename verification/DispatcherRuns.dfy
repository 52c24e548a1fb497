/** The dispatcher as a state machine: its run loop, the goroutines that enqueue jobs, the worker
    goroutines of a batch, crashes and restarts, interleaved in every possible way. */
module DispatcherRuns {
  import opened Dispatchers
  import opened JobContexts
  import opened JobTables
  import opened Options

  /** Where the run loop is.  In Batch, waiting are claimed sub-jobs not started yet, and the
      worker goroutines are inside their handler (running), past it but still holding the
      semaphore (marked), or past that but not yet counted off the wait group (released). */
  datatype Phase =
    | Idle
    | Loading(found: seq<QueuedJob>)
    | Picked(job: QueuedJob)
    | Starting(id: int)
    | Handling(id: int)
    | Flushing(id: int, unsent: seq<Spec>, written: nat)
    | Draining(id: int)
    | Batch(id: int, waiting: seq<int>, running: set<int>, marked: set<int>, released: set<int>, sem: int, wg: int)

  /** Fields after cpus are history: they record what happened and influence nothing. */
  datatype State = State(
    rows: Rows, nextId: int,
    queue: seq<QueuedJob>,
    unappended: set<QueuedJob>,       // inserted by Enqueue, not yet in the queue
    handlers: map<string, Meta>, paused: bool, phase: Phase, cpus: int,
    invoked: multiset<int>,           // handler invocations since the last restart
    runs: multiset<int>,              // handler invocations ever
    unhandled: set<int>,              // sub-jobs failed because their type had no handler
    ledger: Ledger,
    lost: set<int>,                   // parents that became done while some of their sub-jobs were queued
    completed: set<int>,              // other parents that became done and whose type supports sub-jobs
    crashes: nat)

  /** Per parent: what was written for it, under which ids, and what should have been: the rows of
      earlier runs that a crash interrupted and all that the last run buffered.  dropped are the
      parents that lost a batch in the flush. */
  datatype Ledger = Ledger(buffers: map<int, seq<Spec>>, sent: map<int, seq<Spec>>, kids: map<int, seq<int>>,
                           dropped: set<int>)

  ghost predicate Init(s: State) {
    && s.rows == map[] && s.queue == [] && s.unappended == {} && s.handlers == map[] && s.phase == Idle && s.cpus >= 1
    && s.invoked == multiset{} && s.runs == multiset{} && s.unhandled == {}
    && s.ledger == Ledger(map[], map[], map[], {}) && s.lost == {} && s.completed == {} && s.crashes == 0
  }

  // ---- steps of other goroutines ----

  ghost predicate InsertJob(s: State, spec: Spec, viaEnqueue: bool, s': State) {
    s' == s.(rows := Inserted(s.rows, s.nextId, spec, None), nextId := s.nextId + 1,
             unappended := if viaEnqueue then s.unappended + {QueuedJob(s.nextId, spec.jobType)} else s.unappended)
  }

  ghost predicate AppendJob(s: State, job: QueuedJob, s': State) {
    job in s.unappended && s' == s.(queue := s.queue + [job], unappended := s.unappended - {job})
  }

  ghost predicate RegisterType(s: State, jobType: string, meta: Meta, s': State) {
    jobType !in s.handlers && s' == s.(handlers := s.handlers[jobType := meta])
  }

  ghost predicate SetPaused(s: State, pause: bool, s': State) {
    s' == s.(paused := pause)
  }

  // ---- steps of the run loop up to the handler ----

  ghost predicate LoadQuery(s: State, found: seq<QueuedJob>, s': State) {
    s.phase == Idle && IsSelection(s.rows, found) && s' == s.(phase := Loading(found))
  }

  ghost predicate LoadAppend(s: State, s': State) {
    s.phase.Loading? && s' == s.(queue := Loaded(s.queue, s.phase.found), phase := Idle)
  }

  ghost predicate PickJob(s: State, i: int, s': State) {
    s.phase == Idle && !s.paused && IsPick(s.queue, i)
      && s' == s.(queue := RemoveAt(s.queue, i), phase := Picked(s.queue[i]))
  }

  function TypeOf(s: State, id: int): string
    requires id in s.rows
  {
    s.rows[id].spec.jobType
  }

  /** The picked row is gone, finished, or to be resumed without a handler for its type. */
  ghost predicate Drop(s: State, s': State) {
    && s.phase.Picked?
    && (s.phase.job.id in s.rows ==>
          && s.rows[s.phase.job.id].status != Queued
          && (s.rows[s.phase.job.id].status == RunningSubJobs ==> TypeOf(s, s.phase.job.id) !in s.handlers))
    && s' == s.(phase := Idle)
  }

  ghost predicate Resume(s: State, id: int, s': State) {
    && s.phase.Picked? && s.phase.job.id == id
    && id in s.rows && s.rows[id].status == RunningSubJobs && TypeOf(s, id) in s.handlers
    && s' == s.(phase := Draining(id))
  }

  ghost predicate Start(s: State, id: int, s': State) {
    && s.phase.Picked? && s.phase.job.id == id
    && id in s.rows && s.rows[id].status == Queued && TypeOf(s, id) in s.handlers
    && s' == s.(rows := WithStatus(s.rows, id, Running), phase := Starting(id))
  }

  /** No handler for the picked job's type, exiftool does not start, or the handler fails. */
  ghost predicate Fail(s: State, id: int, s': State) {
    && (|| (s.phase.Picked? && s.phase.job.id == id && id in s.rows && s.rows[id].status == Queued
            && TypeOf(s, id) !in s.handlers)
        || s.phase == Starting(id) || s.phase == Handling(id))
    && s' == s.(rows := WithStatus(s.rows, id, Failed), phase := Idle)
  }

  ghost predicate StartHandler(s: State, id: int, s': State) {
    s.phase == Starting(id)
      && s' == s.(phase := Handling(id), invoked := s.invoked + multiset{id}, runs := s.runs + multiset{id})
  }

  // ---- steps of the run loop after the handler ----

  function Opened(l: Ledger, id: int, buffered: seq<Spec>): Ledger {
    var sent := if id in l.sent then l.sent[id] else [];
    l.(buffers := l.buffers[id := sent + buffered], sent := l.sent[id := sent],
       kids := l.kids[id := if id in l.kids then l.kids[id] else []])
  }

  ghost predicate HandlerReturned(s: State, id: int, buffered: seq<Spec>, s': State) {
    && s.phase == Handling(id)
    && s' == s.(phase := Flushing(id, buffered, 0), ledger := Opened(s.ledger, id, buffered))
  }

  function ChunkLength(unsent: seq<Spec>): nat {
    if |unsent| > BATCH_SIZE then BATCH_SIZE else |unsent|
  }

  function Ids(first: int, n: nat): (ids: seq<int>)
    ensures |ids| == n && forall k | 0 <= k < n :: ids[k] == first + k
  {
    seq(n, k requires 0 <= k => first + k)
  }

  ghost predicate FlushBatch(s: State, id: int, s': State) {
    var l, n := s.ledger, if s.phase.Flushing? then ChunkLength(s.phase.unsent) else 0;
    && s.phase.Flushing? && s.phase.id == id && s.phase.unsent != [] && id in s.rows && id in l.kids && id in l.sent
    && s' == s.(rows := InsertedChildren(s.rows, s.nextId, id, s.phase.unsent[..n]), nextId := s.nextId + n,
                phase := Flushing(id, s.phase.unsent[n..], s.phase.written + n),
                ledger := l.(sent := l.sent[id := l.sent[id] + s.phase.unsent[..n]],
                             kids := l.kids[id := l.kids[id] + Ids(s.nextId, n)]))
  }

  ghost predicate FlushBatchFails(s: State, id: int, s': State) {
    && s.phase.Flushing? && s.phase.id == id && s.phase.unsent != []
    && s' == s.(phase := Flushing(id, s.phase.unsent[ChunkLength(s.phase.unsent)..], s.phase.written),
                ledger := s.ledger.(dropped := s.ledger.dropped + {id}))
  }

  predicate SupportsSubjobs(s: State, id: int) {
    id in s.rows && TypeOf(s, id) in s.handlers && s.handlers[TypeOf(s, id)].supportsSubjobs
  }

  predicate Flushed(s: State, id: int) {
    s.phase.Flushing? && s.phase.id == id && s.phase.unsent == []
  }

  /** This run of the handler has written rows and the type supports sub-jobs. */
  predicate ToDrain(s: State, id: int) {
    Flushed(s, id) && s.phase.written > 0 && SupportsSubjobs(s, id)
  }

  /** The parent is marked done and its sub-jobs are deleted; this is lost work if any is queued. */
  function Closed(s: State, id: int): State {
    s.(rows := MarkedDone(s.rows, id), phase := Idle,
       lost := if QueuedChildren(s.rows, id) != {} then s.lost + {id} else s.lost,
       completed := if QueuedChildren(s.rows, id) == {} && SupportsSubjobs(s, id) then s.completed + {id}
         else s.completed)
  }

  ghost predicate FlushToDrain(s: State, id: int, s': State) {
    && ToDrain(s, id)
    && s' == s.(rows := WithStatus(s.rows, id, RunningSubJobs), phase := Draining(id))
  }

  ghost predicate FlushToDone(s: State, id: int, s': State) {
    Flushed(s, id) && !ToDrain(s, id) && s' == Closed(s, id)
  }

  // ---- the claim loop ----

  predicate MustYield(s: State, id: int) {
    id in s.rows && TypeOf(s, id) == TRANSCODE && HasNonTranscode(s.queue)
  }

  ghost predicate Yield(s: State, id: int, s': State) {
    && s.phase == Draining(id) && MustYield(s, id)
    && s' == s.(queue := [QueuedJob(id, TRANSCODE)] + s.queue, phase := Idle)
  }

  ghost predicate Claim(s: State, id: int, batch: seq<int>, s': State) {
    && s.phase == Draining(id) && !MustYield(s, id) && batch != [] && IsClaim(s.rows, id, CLAIM_LIMIT, batch)
    && s' == s.(rows := Claimed(s.rows, batch), phase := Batch(id, batch, {}, {}, {}, 0, 0))
  }

  ghost predicate ClaimFails(s: State, id: int, s': State) {
    s.phase == Draining(id) && !MustYield(s, id) && s' == Closed(s, id)
  }

  ghost predicate DrainEnd(s: State, id: int, s': State) {
    s.phase == Draining(id) && !MustYield(s, id) && QueuedChildren(s.rows, id) == {} && s' == Closed(s, id)
  }

  // ---- the workers of a batch ----

  function Concurrency(meta: Meta, cpus: int): int {
    if meta.maxConcurrency <= 0 then cpus else meta.maxConcurrency
  }

  /** The capacity of the semaphore. */
  function Limit(s: State): int {
    if s.phase.Batch? && s.phase.id in s.rows && TypeOf(s, s.phase.id) in s.handlers
    then Concurrency(s.handlers[TypeOf(s, s.phase.id)], s.cpus) else 0
  }

  /** The next claimed sub-job gets a goroutine once the semaphore has room. */
  ghost predicate CanLaunch(s: State, j: int) {
    s.phase.Batch? && s.phase.waiting != [] && s.phase.waiting[0] == j && j in s.rows && s.phase.sem < Limit(s)
  }

  ghost predicate Launch(s: State, j: int, s': State) {
    var p := s.phase;
    && CanLaunch(s, j) && TypeOf(s, j) in s.handlers
    && s' == s.(phase := p.(waiting := p.waiting[1..], sem := p.sem + 1, wg := p.wg + 1, running := p.running + {j}),
                invoked := s.invoked + multiset{j}, runs := s.runs + multiset{j})
  }

  ghost predicate LaunchUnhandled(s: State, j: int, s': State) {
    var p := s.phase;
    && CanLaunch(s, j) && TypeOf(s, j) !in s.handlers
    && s' == s.(rows := WithStatus(s.rows, j, Failed), unhandled := s.unhandled + {j},
                phase := p.(waiting := p.waiting[1..], sem := p.sem + 1, wg := p.wg + 1, marked := p.marked + {j}))
  }

  ghost predicate Finish(s: State, j: int, ok: bool, s': State) {
    var p := s.phase;
    && p.Batch? && j in p.running
    && s' == s.(rows := if ok then MarkedDone(s.rows, j) else WithStatus(s.rows, j, Failed),
                phase := p.(running := p.running - {j}, marked := p.marked + {j}))
  }

  ghost predicate Release(s: State, j: int, s': State) {
    var p := s.phase;
    p.Batch? && j in p.marked
      && s' == s.(phase := p.(marked := p.marked - {j}, released := p.released + {j}, sem := p.sem - 1))
  }

  ghost predicate WorkerExit(s: State, j: int, s': State) {
    var p := s.phase;
    p.Batch? && j in p.released && s' == s.(phase := p.(released := p.released - {j}, wg := p.wg - 1))
  }

  ghost predicate Join(s: State, s': State) {
    s.phase.Batch? && s.phase.waiting == [] && s.phase.wg == 0 && s' == s.(phase := Draining(s.phase.id))
  }

  /** A crash loses the memory of the process; the restart resets rows left running. */
  ghost predicate Crash(s: State, s': State) {
    s' == s.(rows := StuckReset(s.rows), queue := [], unappended := {}, handlers := map[], paused := false,
             phase := Idle, invoked := multiset{}, crashes := s.crashes + 1)
  }

  // ---- runs ----

  datatype Step =
    | SInsertJob(spec: Spec, viaEnqueue: bool) | SAppendJob(job: QueuedJob) | SRegisterType(jobType: string, meta: Meta)
    | SSetPaused(pause: bool) | SLoadQuery(found: seq<QueuedJob>) | SLoadAppend | SPickJob(i: int) | SDrop
    | SResume(id: int)
    | SStart(id: int) | SFail(id: int) | SStartHandler(id: int) | SHandlerReturned(id: int, buffered: seq<Spec>)
    | SFlushBatch(id: int) | SFlushBatchFails(id: int) | SFlushToDrain(id: int) | SFlushToDone(id: int)
    | SYield(id: int)
    | SClaim(id: int, batch: seq<int>) | SClaimFails(id: int) | SDrainEnd(id: int) | SLaunch(j: int)
    | SLaunchUnhandled(j: int)
    | SFinish(j: int, ok: bool) | SRelease(j: int) | SWorkerExit(j: int) | SJoin | SCrash

  ghost predicate Does(s: State, step: Step, s': State) {
    match step
    case SInsertJob(spec, viaEnqueue) => InsertJob(s, spec, viaEnqueue, s')
    case SAppendJob(job) => AppendJob(s, job, s')
    case SRegisterType(jobType, meta) => RegisterType(s, jobType, meta, s')
    case SSetPaused(pause) => SetPaused(s, pause, s')
    case SLoadQuery(found) => LoadQuery(s, found, s')
    case SLoadAppend => LoadAppend(s, s')
    case SPickJob(i) => PickJob(s, i, s')
    case SDrop => Drop(s, s')
    case SResume(id) => Resume(s, id, s')
    case SStart(id) => Start(s, id, s')
    case SFail(id) => Fail(s, id, s')
    case SStartHandler(id) => StartHandler(s, id, s')
    case SHandlerReturned(id, buffered) => HandlerReturned(s, id, buffered, s')
    case SFlushBatch(id) => FlushBatch(s, id, s')
    case SFlushBatchFails(id) => FlushBatchFails(s, id, s')
    case SFlushToDrain(id) => FlushToDrain(s, id, s')
    case SFlushToDone(id) => FlushToDone(s, id, s')
    case SYield(id) => Yield(s, id, s')
    case SClaim(id, batch) => Claim(s, id, batch, s')
    case SClaimFails(id) => ClaimFails(s, id, s')
    case SDrainEnd(id) => DrainEnd(s, id, s')
    case SLaunch(j) => Launch(s, j, s')
    case SLaunchUnhandled(j) => LaunchUnhandled(s, j, s')
    case SFinish(j, ok) => Finish(s, j, ok, s')
    case SRelease(j) => Release(s, j, s')
    case SWorkerExit(j) => WorkerExit(s, j, s')
    case SJoin => Join(s, s')
    case SCrash => Crash(s, s')
  }

  /** states is what the system goes through when steps are taken one after the other. */
  ghost predicate Execution(states: seq<State>, steps: seq<Step>) {
    && |states| == |steps| + 1 && Init(states[0])
    && forall k | 0 <= k < |steps| :: Does(states[k], steps[k], states[k + 1])
  }
}
