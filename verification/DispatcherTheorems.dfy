/** What the dispatcher guarantees in every execution. */
module DispatcherTheorems {
  import opened DispatcherInvariant
  import opened DispatcherRuns
  import opened Dispatchers
  import opened JobTables
  import opened Options
  import Sets

  // ---- handlers run once ----

  /** Between two restarts no handler is invoked twice for the same row; without any crash, never. */
  lemma HandlerOncePerRestart(states: seq<State>, steps: seq<Step>, id: int)
    requires Execution(states, steps)
    ensures states[|steps|].invoked[id] <= 1
    ensures states[|steps|].crashes == 0 ==> states[|steps|].runs[id] <= 1
  {
    ReachableInv(states, steps, |steps|);
  }

  // ---- the life of a top-level row ----

  ghost predicate Moves(from: Status, to: Status) {
    || from == to
    || (from == Queued && (to == Running || to == Failed))
    || (from == Running && (to == Failed || to == Done || to == RunningSubJobs))
    || (from == RunningSubJobs && to == Done)
  }

  /** A top-level row is never deleted and only takes the moves above, or falls back from running
      to queued in a crash.  It fails straight from queued only when its type has no handler. */
  ghost predicate FollowsPath(s: State, step: Step, s': State, id: int)
    requires id in s.rows
  {
    && id in s'.rows && s'.rows[id].parent == None && s'.rows[id].spec == s.rows[id].spec
    && (if step == SCrash
        then s'.rows[id].status == (if s.rows[id].status == Running then Queued else s.rows[id].status)
        else Moves(s.rows[id].status, s'.rows[id].status))
    && (s.rows[id].status == Queued && s'.rows[id].status == Failed
        ==> TypeOf(s, id) !in s.handlers && s'.runs == s.runs)
    && (s'.runs[id] != s.runs[id] ==> s.rows[id].status == Running && s'.runs[id] == s.runs[id] + 1)
  }

  lemma StatusPath(s: State, step: Step, s': State, id: int)
    requires Inv(s) && Does(s, step, s') && id in s.rows && s.rows[id].parent == None
    ensures FollowsPath(s, step, s', id)
  {
    if HandlerStep(step) || EndStep(step) {
      StatusPathOfJob(s, step, s', id);
    } else {
      StatusPathElsewhere(s, step, s', id);
    }
  }

  lemma StatusPathOfQueue(s: State, step: Step, s': State, id: int)
    requires TableInv(s.rows, s.nextId) && Does(s, step, s') && id in s.rows && s.rows[id].parent == None
    requires QueueStep(step)
    ensures FollowsPath(s, step, s', id)
  {
  }

  lemma StatusPathOfJob(s: State, step: Step, s': State, id: int)
    requires Machine(s) && Does(s, step, s') && id in s.rows && s.rows[id].parent == None
    requires HandlerStep(step) || EndStep(step)
    ensures FollowsPath(s, step, s', id)
  {
    if step.SFlushBatch? {
      FlushedRows(s, step.id, s');
    } else if EndStep(step) {
      StatusPathAtEnd(s, step, s', id);
    }
  }

  lemma StatusPathAtEnd(s: State, step: Step, s': State, id: int)
    requires Machine(s) && Does(s, step, s') && id in s.rows && s.rows[id].parent == None && EndStep(step)
    ensures FollowsPath(s, step, s', id)
  {
  }

  lemma StatusPathElsewhere(s: State, step: Step, s': State, id: int)
    requires Machine(s) && Does(s, step, s') && id in s.rows && s.rows[id].parent == None
    requires QueueStep(step) || WorkerStep(step)
    ensures FollowsPath(s, step, s', id)
  {
    if step.SFinish? {
      FinishRows(s, step.j, step.ok, s');
    } else if step.SClaim? {
      assert forall c | c in step.batch :: c in QueuedChildren(s.rows, step.id);
    } else if step.SLaunch? || step.SLaunchUnhandled? {
      StatusPathOfLaunch(s, step, s', id);
    } else if QueueStep(step) {
      StatusPathOfQueue(s, step, s', id);
    }
  }

  lemma StatusPathOfLaunch(s: State, step: Step, s': State, id: int)
    requires BatchInv(s.rows, s.phase, Limit(s)) && Does(s, step, s') && (step.SLaunch? || step.SLaunchUnhandled?)
    requires id in s.rows && s.rows[id].parent == None
    ensures FollowsPath(s, step, s', id)
  {
    assert step.j in s.phase.waiting;
  }

  /** Which step it takes: a row becomes running only when its handler is about to be started, fails
      only by that, and becomes done or resumable only after its buffer has been flushed. */
  lemma StatusPathSteps(s: State, step: Step, s': State, id: int)
    requires Machine(s) && Does(s, step, s') && id in s.rows && s.rows[id].parent == None
    requires id in s'.rows && s'.rows[id].status != s.rows[id].status
    ensures match s'.rows[id].status
            case Queued => step == SCrash
            case Running => step == SStart(id) && s.rows[id].spec.jobType in s.handlers
            case Failed => step == SFail(id)
            case Done => step == SFlushToDone(id) || step == SClaimFails(id) || step == SDrainEnd(id)
            case RunningSubJobs =>
              && step == SFlushToDrain(id) && s.phase == Flushing(id, [], s.phase.written) && s.phase.written > 0
              && s.rows[id].spec.jobType in s.handlers && s.handlers[s.rows[id].spec.jobType].supportsSubjobs
  {
    if HandlerStep(step) || EndStep(step) {
      JobStepNamed(s, step, s', id);
    } else {
      StatusPathElsewhere(s, step, s', id);
      NotElsewhere(s, step, s', id);
    }
  }

  lemma JobStepNamed(s: State, step: Step, s': State, id: int)
    requires Machine(s) && Does(s, step, s') && id in s.rows && s.rows[id].parent == None
    requires (HandlerStep(step) || EndStep(step)) && id in s'.rows && s'.rows[id].status != s.rows[id].status
    ensures match s'.rows[id].status
            case Queued => step == SCrash
            case Running => step == SStart(id) && s.rows[id].spec.jobType in s.handlers
            case Failed => step == SFail(id)
            case Done => step == SFlushToDone(id) || step == SClaimFails(id) || step == SDrainEnd(id)
            case RunningSubJobs =>
              && step == SFlushToDrain(id) && s.phase == Flushing(id, [], s.phase.written) && s.phase.written > 0
              && s.rows[id].spec.jobType in s.handlers && s.handlers[s.rows[id].spec.jobType].supportsSubjobs
  {
    if step.SFlushBatch? {
      FlushedRows(s, step.id, s');
    }
  }

  lemma NotElsewhere(s: State, step: Step, s': State, id: int)
    requires Machine(s) && Does(s, step, s') && id in s.rows && s.rows[id].parent == None
    requires QueueStep(step) || WorkerStep(step)
    ensures id in s'.rows && s'.rows[id].status == s.rows[id].status
  {
    if step.SFinish? {
      FinishRows(s, step.j, step.ok, s');
    } else if step.SClaim? {
      ClaimsInOrder(s, step.id, step.batch, s');
    }
  }

  /** The life of a sub-job: claimed when queued, run to done or failed as its handler ends, failed
      without being run when its type has none, put back to queued by a crash, and deleted only with
      its parent. */
  lemma SubJobPath(s: State, step: Step, s': State, c: int)
    requires Machine(s) && Does(s, step, s') && c in s.rows && s.rows[c].parent.Some?
    ensures c !in s'.rows ==> EndStep(step) && step != SCrash
    ensures c in s'.rows && s'.rows[c].status != s.rows[c].status ==>
              match s'.rows[c].status
              case Queued => step == SCrash && s.rows[c].status == Running
              case Running => step.SClaim? && c in step.batch && s.rows[c].status == Queued
              case Done => step == SFinish(c, true) && s.rows[c].status == Running
              case Failed => s.rows[c].status == Running
                             && (step == SFinish(c, false)
                                 || (step == SLaunchUnhandled(c) && s.rows[c].spec.jobType !in s.handlers))
              case RunningSubJobs => false
  {
    if step.SFinish? {
      FinishRows(s, step.j, step.ok, s');
    } else if step.SClaim? {
      ClaimsInOrder(s, step.id, step.batch, s');
    } else if step.SFlushBatch? {
      FlushedRows(s, step.id, s');
    } else if HandlerStep(step) || EndStep(step) {
      SubJobUntouched(s, step, s', c);
    } else {
      SubJobAtWork(s, step, s', c);
    }
  }

  lemma SubJobUntouched(s: State, step: Step, s': State, c: int)
    requires Machine(s) && Does(s, step, s') && c in s.rows && s.rows[c].parent.Some?
    requires (HandlerStep(step) || EndStep(step)) && !step.SFlushBatch?
    ensures c !in s'.rows ==> EndStep(step) && step != SCrash
    ensures c in s'.rows && s'.rows[c].status != s.rows[c].status ==>
              step == SCrash && s.rows[c].status == Running && s'.rows[c].status == Queued
  {
  }

  lemma SubJobAtWork(s: State, step: Step, s': State, c: int)
    requires BatchInv(s.rows, s.phase, Limit(s)) && Does(s, step, s') && c in s.rows
    requires (QueueStep(step) || WorkerStep(step)) && !step.SFinish? && !step.SClaim?
    ensures c in s'.rows
    ensures s'.rows[c].status != s.rows[c].status ==>
              step == SLaunchUnhandled(c) && s.rows[c].spec.jobType !in s.handlers && s.rows[c].status == Running
              && s'.rows[c].status == Failed
  {
    if step.SLaunchUnhandled? {
      assert step.j in s.phase.waiting;
    }
  }

  // ---- finished rows ----

  /** The id has been given out and its row is finished, or finished and deleted. */
  ghost predicate Settled(s: State, id: int) {
    id < s.nextId && (id in s.rows ==> Terminal(s.rows[id].status))
  }

  ghost predicate StaysSettled(s: State, s': State, id: int) {
    && Settled(s', id) && s'.runs[id] == s.runs[id]
    && (id in s'.rows ==> id in s.rows && s'.rows[id].status == s.rows[id].status)
  }

  lemma SettledStep(s: State, step: Step, s': State, id: int)
    requires Machine(s) && Does(s, step, s') && Settled(s, id)
    ensures StaysSettled(s, s', id)
  {
    if HandlerStep(step) || EndStep(step) {
      SettledJobStep(s, step, s', id);
    } else if QueueStep(step) {
      SettledQueueStep(s, step, s', id);
    } else {
      SettledWorkerStep(s, step, s', id);
    }
  }

  lemma SettledJobStep(s: State, step: Step, s': State, id: int)
    requires Machine(s) && Does(s, step, s') && Settled(s, id) && (HandlerStep(step) || EndStep(step))
    ensures StaysSettled(s, s', id)
  {
    if step.SFlushBatch? {
      FlushedRows(s, step.id, s');
    } else if EndStep(step) {
      SettledEndStep(s, step, s', id);
    }
  }

  lemma SettledEndStep(s: State, step: Step, s': State, id: int)
    requires Machine(s) && Does(s, step, s') && Settled(s, id) && EndStep(step)
    ensures StaysSettled(s, s', id)
  {
  }

  lemma SettledQueueStep(s: State, step: Step, s': State, id: int)
    requires Machine(s) && Does(s, step, s') && Settled(s, id) && QueueStep(step)
    ensures StaysSettled(s, s', id)
  {
  }

  lemma SettledWorkerStep(s: State, step: Step, s': State, id: int)
    requires Machine(s) && Does(s, step, s') && Settled(s, id) && WorkerStep(step)
    ensures StaysSettled(s, s', id)
  {
    if step.SFinish? {
      FinishRows(s, step.j, step.ok, s');
    } else if step.SClaim? {
      assert forall c | c in step.batch :: c in QueuedChildren(s.rows, step.id);
    } else if step.SLaunch? || step.SLaunchUnhandled? {
      SettledLaunch(s, step, s', id);
    }
  }

  lemma SettledLaunch(s: State, step: Step, s': State, id: int)
    requires BatchInv(s.rows, s.phase, Limit(s)) && Does(s, step, s') && (step.SLaunch? || step.SLaunchUnhandled?)
    requires Settled(s, id)
    ensures StaysSettled(s, s', id)
  {
    assert step.j in s.phase.waiting;
  }

  /** Nothing has happened to row id since s0, except that it may have been deleted. */
  ghost predicate Untouched(s0: State, s: State, id: int) {
    && Settled(s, id) && s.runs[id] == s0.runs[id]
    && (id in s.rows ==> id in s0.rows && s.rows[id].status == s0.rows[id].status)
  }

  lemma UntouchedStep(s0: State, s: State, step: Step, s': State, id: int)
    requires Untouched(s0, s, id) && Inv(s) && Does(s, step, s')
    ensures Untouched(s0, s', id)
  {
    SettledStep(s, step, s', id);
  }

  /** A row that is done or failed keeps that status until it is deleted, and its handler never
      runs again, whatever crashes and restarts follow. */
  lemma {:induction false} FinishedForGood(states: seq<State>, steps: seq<Step>, i: nat, j: nat, id: int)
    requires Execution(states, steps) && i <= j <= |steps|
    requires id in states[i].rows && Terminal(states[i].rows[id].status)
    ensures Untouched(states[i], states[j], id)
    decreases j
  {
    if i == j {
      ReachableInv(states, steps, i);
    } else {
      FinishedForGood(states, steps, i, j - 1, id);
      ReachableInv(states, steps, j - 1);
      UntouchedStep(states[i], states[j - 1], steps[j - 1], states[j], id);
    }
  }

  // ---- parents and their sub-jobs ----

  /** A parent whose type supports sub-jobs becomes done in one of two ways: completed, when none of
      its sub-jobs is queued at that moment, and otherwise losing those that are. */
  lemma DoneMeansCompletedOrLost(s: State, step: Step, s': State, parent: int)
    requires Inv(s) && Does(s, step, s')
    requires parent in s.rows && s.rows[parent].parent == None && SupportsSubjobs(s, parent)
    requires s.rows[parent].status != Done && parent in s'.rows && s'.rows[parent].status == Done
    ensures if QueuedChildren(s.rows, parent) == {} then parent in s'.completed else parent in s'.lost
  {
    if EndStep(step) {
      DoneAtEnd(s, step, s', parent);
    } else {
      NotDoneHere(s, step, s', parent);
    }
  }

  lemma DoneAtEnd(s: State, step: Step, s': State, parent: int)
    requires TableInv(s.rows, s.nextId) && Does(s, step, s') && EndStep(step)
    requires parent in s.rows && s.rows[parent].parent == None && SupportsSubjobs(s, parent)
    requires s.rows[parent].status != Done && parent in s'.rows && s'.rows[parent].status == Done
    ensures if QueuedChildren(s.rows, parent) == {} then parent in s'.completed else parent in s'.lost
  {
  }

  /** An unfinished sub-job is deleted exactly by its parent being marked done after a flush that
      wrote nothing, or one whose type has no support, or after a failing claim. */
  lemma DeletedUnfinishedExactlyWhen(s: State, step: Step, s': State, c: int, parent: int)
    requires Inv(s) && Does(s, step, s')
    requires c in s.rows && s.rows[c].parent == Some(parent) && !Terminal(s.rows[c].status)
    ensures c !in s'.rows <==> step == SFlushToDone(parent) || step == SClaimFails(parent)
  {
    if EndStep(step) {
      EndDeletes(s, step, s', c, parent);
    } else {
      KeptHere(s, step, s', c);
    }
  }

  lemma EndDeletes(s: State, step: Step, s': State, c: int, parent: int)
    requires Does(s, step, s') && EndStep(step)
    requires TableInv(s.rows, s.nextId) && RunningInv(s.rows, s.phase)
    requires c in s.rows && s.rows[c].parent == Some(parent) && !Terminal(s.rows[c].status)
    ensures c !in s'.rows <==> step == SFlushToDone(parent) || step == SClaimFails(parent)
  {
    assert !s.phase.Batch? ==> c in QueuedChildren(s.rows, parent);
  }

  lemma KeptHere(s: State, step: Step, s': State, c: int)
    requires Machine(s) && Does(s, step, s') && !EndStep(step) && c in s.rows
    ensures c in s'.rows
  {
    if step.SFlushBatch? {
      FlushedRows(s, step.id, s');
    }
    if step.SFinish? {
      FinishRows(s, step.j, step.ok, s');
    }
  }

  /** As long as nothing has crashed, a flush that wrote nothing has nothing to lose. */
  lemma NothingLostWithoutCrash(s: State, parent: int, s': State)
    requires Inv(s) && FlushToDone(s, parent, s') && SupportsSubjobs(s, parent) && s.crashes == 0
    ensures Children(s.rows, parent) == {} && parent in s'.completed
  {
    assert KidsOf(s.rows, parent, s.ledger);
    assert BufferMatches(parent, s.phase, s.ledger);
    assert s.ledger.kids[parent] == [];
    assert forall c :: c !in Children(s.rows, parent);
  }

  lemma NotDoneHere(s: State, step: Step, s': State, parent: int)
    requires Machine(s) && Does(s, step, s') && !EndStep(step)
    requires parent in s.rows && s.rows[parent].parent == None && parent in s'.rows && s.rows[parent].status != Done
    ensures s'.rows[parent].status != Done
  {
    if step.SFlushBatch? {
      FlushedRows(s, step.id, s');
    } else if step.SFinish? {
      FinishRows(s, step.j, step.ok, s');
    } else if HandlerStep(step) {
      NotDoneByHandler(s, step, s', parent);
    }
  }

  lemma NotDoneByHandler(s: State, step: Step, s': State, parent: int)
    requires TableInv(s.rows, s.nextId) && Does(s, step, s') && HandlerStep(step) && !step.SFlushBatch?
    requires parent in s.rows && parent in s'.rows && s.rows[parent].status != Done
    ensures s'.rows[parent].status != Done
  {
  }

  /** When a parent is completed, every spec that the last run of its handler buffered has become
      exactly one row (when no batch was dropped), and the handler of every row ever written for it
      has run: at least once, and exactly once when there was no crash; only sub-jobs whose type had
      no handler are excepted. */
  lemma CompletedParent(states: seq<State>, steps: seq<Step>, parent: int)
    requires Execution(states, steps) && parent in states[|steps|].completed
    ensures var s := states[|steps|];
            && parent in s.ledger.kids && parent in s.ledger.buffers && parent in s.ledger.sent
            && (parent !in s.ledger.dropped ==> |s.ledger.kids[parent]| == |s.ledger.buffers[parent]|)
            && (forall i, j | 0 <= i < j < |s.ledger.kids[parent]| ::
                    s.ledger.kids[parent][i] < s.ledger.kids[parent][j])
            && (forall k | 0 <= k < |s.ledger.kids[parent]| :: var c := s.ledger.kids[parent][k];
                  c in s.unhandled || (s.runs[c] >= 1 && (s.crashes == 0 ==> s.runs[c] == 1)))
  {
    ReachableInv(states, steps, |steps|);
  }

  /** While a parent's sub-jobs run, its sub-job rows are exactly the specs written for it, and
      its counter is their number. */
  lemma RowsMatchBuffer(states: seq<State>, steps: seq<Step>, parent: int)
    requires Execution(states, steps)
    requires var s := states[|steps|]; parent in s.rows && s.rows[parent].status == RunningSubJobs
    ensures var s := states[|steps|];
            && parent in s.ledger.kids && parent in s.ledger.sent && parent in s.ledger.buffers
            && (parent !in s.ledger.dropped ==> s.ledger.sent[parent] == s.ledger.buffers[parent])
            && s.rows[parent].subjobsEnqueued == |s.ledger.sent[parent]| == |s.ledger.kids[parent]|
            && (forall c :: c in Children(s.rows, parent) <==> c in s.ledger.kids[parent])
            && (forall k | 0 <= k < |s.ledger.kids[parent]| :: var c := s.ledger.kids[parent][k];
                  c in s.rows && s.rows[c].spec == s.ledger.sent[parent][k])
  {
    ReachableInv(states, steps, |steps|);
    var s := states[|steps|];
    assert s.rows[parent].parent == None;
    assert KidsOf(s.rows, parent, s.ledger);
    assert BufferMatches(parent, s.phase, s.ledger);
    forall c
      ensures c in Children(s.rows, parent) <==> c in s.ledger.kids[parent]
    {
    }
  }

  /** At the moment a parent is marked done, the sub-jobs deleted with it are all finished exactly
      when none of them is queued.  The claim loop only ends normally in that case; a parent that
      skips it, or whose claim fails, may not be in it. */
  lemma DeletedWhenFinished(states: seq<State>, steps: seq<Step>, parent: int)
    requires Execution(states, steps)
    requires Closing(states[|steps|], parent)
    ensures var s := states[|steps|];
            (forall c | c in Children(s.rows, parent) :: Terminal(s.rows[c].status))
              <==> QueuedChildren(s.rows, parent) == {}
  {
    ReachableInv(states, steps, |steps|);
    var s := states[|steps|];
    forall c | c in Children(s.rows, parent) && c !in QueuedChildren(s.rows, parent)
      ensures Terminal(s.rows[c].status)
    {
    }
    if forall c | c in Children(s.rows, parent) :: Terminal(s.rows[c].status) {
      assert forall c :: c !in QueuedChildren(s.rows, parent);
    }
  }

  // ---- the run loop ----

  /** The n least elements of left, or all. */
  ghost predicate AreLeast(left: set<int>, n: nat, batch: seq<int>) {
    && |batch| <= n && (forall i | 0 <= i < |batch| :: batch[i] in left)
    && (forall i, j | 0 <= i < j < |batch| :: batch[i] < batch[j])
    && (forall c, b | c in left && c !in batch && b in batch :: b < c)
    && (|batch| < n ==> forall c | c in left :: c in batch)
  }

  lemma {:induction false} Least(left: set<int>, n: nat) returns (batch: seq<int>)
    ensures AreLeast(left, n, batch) && (left != {} && n > 0 ==> batch != [])
    decreases left
  {
    if left == {} || n == 0 {
      batch := [];
    } else {
      Sets.MinExists(left);
      var m :| m in left && forall x | x in left :: m <= x;
      var rest := Least(left - {m}, n - 1);
      batch := [m] + rest;
      LeastFirst(left, n, m, rest, batch);
    }
  }

  lemma LeastFirst(left: set<int>, n: nat, m: int, rest: seq<int>, batch: seq<int>)
    requires n > 0 && m in left && (forall x | x in left :: m <= x) && AreLeast(left - {m}, n - 1, rest)
    requires batch == [m] + rest
    ensures AreLeast(left, n, batch)
  {
    assert forall c :: c in batch <==> c == m || c in rest;
    assert forall i | 0 <= i < |rest| :: rest[i] in left - {m};
  }

  predicate RunLoopStep(step: Step) {
    !step.SInsertJob? && !step.SAppendJob? && !step.SRegisterType? && !step.SSetPaused? && !step.SCrash?
  }

  /** A step of the run loop that is no failure of a statement or of a handler. */
  predicate RegularStep(step: Step) {
    RunLoopStep(step) && !step.SClaimFails? && !step.SFlushBatchFails? && (step.SFinish? ==> step.ok)
  }

  /** What becomes of a picked job: a queued row is marked running when its type has a handler, and else
      failed; a resumable one is resumed when its type has a handler; anything else is left as it is. */
  lemma PickedJobMoves(s: State, step: Step, s': State)
    requires s.phase.Picked? && Does(s, step, s') && RunLoopStep(step)
    ensures var id := s.phase.job.id;
            if id !in s.rows then s' == s.(phase := Idle)
            else
              var row := s.rows[id];
              var handled := row.spec.jobType in s.handlers;
              if row.status == Queued then
                s' == if handled then s.(rows := s.rows[id := row.(status := Running)], phase := Starting(id))
                      else s.(rows := s.rows[id := row.(status := Failed)], phase := Idle)
              else s' == s.(phase := if row.status == RunningSubJobs && handled then Draining(id) else Idle)
  {
  }

  lemma CanWorkOn(s: State)
    requires s.phase.Picked?
    ensures exists step, s' :: RegularStep(step) && Does(s, step, s')
  {
    var id := s.phase.job.id;
    if id in s.rows && s.rows[id].status == Queued {
      CanStart(s, id);
    } else if id in s.rows && s.rows[id].status == RunningSubJobs && TypeOf(s, id) in s.handlers {
      assert Does(s, SResume(id), s.(phase := Draining(id)));
    } else {
      assert Does(s, SDrop, s.(phase := Idle));
    }
  }

  lemma CanStart(s: State, id: int)
    requires s.phase.Picked? && s.phase.job.id == id && id in s.rows && s.rows[id].status == Queued
    ensures exists step, s' :: RegularStep(step) && Does(s, step, s')
  {
    if TypeOf(s, id) in s.handlers {
      assert Does(s, SStart(id), s.(rows := WithStatus(s.rows, id, Running), phase := Starting(id)));
    } else {
      assert Does(s, SFail(id), s.(rows := WithStatus(s.rows, id, Failed), phase := Idle));
    }
  }

  lemma CanFlush(s: State)
    requires s.phase.Starting? || s.phase.Handling? || s.phase.Flushing?
    requires s.phase.Flushing? ==> s.phase.id in s.rows && s.phase.id in s.ledger.kids && s.phase.id in s.ledger.sent
    ensures exists step, s' :: RegularStep(step) && Does(s, step, s')
  {
    var id := s.phase.id;
    if s.phase.Starting? {
      var s' := s.(phase := Handling(id), invoked := s.invoked + multiset{id}, runs := s.runs + multiset{id});
      assert Does(s, SStartHandler(id), s');
    } else if s.phase.Handling? {
      assert Does(s, SHandlerReturned(id, []), s.(phase := Flushing(id, [], 0), ledger := Opened(s.ledger, id, [])));
    } else if s.phase.unsent != [] {
      CanWriteBatch(s, id);
    } else if ToDrain(s, id) {
      assert Does(s, SFlushToDrain(id), s.(rows := WithStatus(s.rows, id, RunningSubJobs), phase := Draining(id)));
    } else {
      assert Does(s, SFlushToDone(id), Closed(s, id));
    }
  }

  lemma FlushHasBooks(s: State)
    requires Inv(s) && s.phase.Flushing?
    ensures s.phase.id in s.rows && s.phase.id in s.ledger.kids && s.phase.id in s.ledger.sent
  {
    assert BufferMatches(s.phase.id, s.phase, s.ledger);
  }

  lemma CanWriteBatch(s: State, id: int)
    requires s.phase.Flushing? && s.phase.id == id && s.phase.unsent != []
    requires id in s.rows && id in s.ledger.kids && id in s.ledger.sent
    ensures exists step, s' :: RegularStep(step) && Does(s, step, s')
  {
    var l, n := s.ledger, ChunkLength(s.phase.unsent);
    var s' := s.(rows := InsertedChildren(s.rows, s.nextId, id, s.phase.unsent[..n]), nextId := s.nextId + n,
                 phase := Flushing(id, s.phase.unsent[n..], s.phase.written + n),
                 ledger := l.(sent := l.sent[id := l.sent[id] + s.phase.unsent[..n]],
                              kids := l.kids[id := l.kids[id] + Ids(s.nextId, n)]));
    assert FlushBatch(s, id, s');
    assert Does(s, SFlushBatch(id), s');
  }

  lemma CanDrain(s: State)
    requires s.phase.Draining?
    ensures exists step, s' :: RegularStep(step) && Does(s, step, s')
  {
    var id := s.phase.id;
    if MustYield(s, id) {
      assert Does(s, SYield(id), s.(queue := [QueuedJob(id, TRANSCODE)] + s.queue, phase := Idle));
    } else if QueuedChildren(s.rows, id) == {} {
      assert Does(s, SDrainEnd(id), Closed(s, id));
    } else {
      var batch := Least(QueuedChildren(s.rows, id), CLAIM_LIMIT);
      CanClaim(s, id, batch);
    }
  }

  lemma CanClaim(s: State, id: int, batch: seq<int>)
    requires s.phase == Draining(id) && !MustYield(s, id) && batch != []
    requires AreLeast(QueuedChildren(s.rows, id), CLAIM_LIMIT, batch)
    ensures exists step, s' :: RegularStep(step) && Does(s, step, s')
  {
    var s' := s.(rows := Claimed(s.rows, batch), phase := Batch(id, batch, {}, {}, {}, 0, 0));
    assert IsClaim(s.rows, id, CLAIM_LIMIT, batch);
    assert Does(s, SClaim(id, batch), s');
  }

  lemma {:induction false} PickExists(queue: seq<QueuedJob>, n: nat)
    requires n <= |queue| && queue != [] && forall k | 0 <= k < n :: IsTranscode(queue[k])
    ensures exists i :: IsPick(queue, i)
    decreases |queue| - n
  {
    if n == |queue| {
      assert IsPick(queue, 0);
    } else if IsTranscode(queue[n]) {
      PickExists(queue, n + 1);
    } else {
      assert IsPick(queue, n);
    }
  }

  /** The run loop is never stuck: whatever it is doing it has a next step in which nothing fails, and
      when it is idle and not paused it can pick as long as anything is queued. */
  lemma RunLoopNeverStuck(states: seq<State>, steps: seq<Step>)
    requires Execution(states, steps)
    requires var s := states[|steps|]; s.phase == Idle ==> !s.paused && s.queue != []
    ensures exists step, s' :: RegularStep(step) && Does(states[|steps|], step, s')
  {
    var s := states[|steps|];
    if s.phase == Idle {
      PickExists(s.queue, 0);
      CanPick(s);
    } else if s.phase.Loading? {
      assert Does(s, SLoadAppend, s.(queue := Loaded(s.queue, s.phase.found), phase := Idle));
    } else if s.phase.Picked? {
      CanWorkOn(s);
    } else if s.phase.Draining? {
      CanDrain(s);
    } else if s.phase.Batch? {
      NoDeadlock(states, steps);
      BatchMoves(s);
    } else {
      ReachableInv(states, steps, |steps|);
      if s.phase.Flushing? {
        FlushHasBooks(s);
      }
      CanFlush(s);
    }
  }

  lemma CanPick(s: State)
    requires s.phase == Idle && !s.paused && exists i :: IsPick(s.queue, i)
    ensures exists step, s' :: RegularStep(step) && Does(s, step, s')
  {
    var i :| IsPick(s.queue, i);
    assert Does(s, SPickJob(i), s.(queue := RemoveAt(s.queue, i), phase := Picked(s.queue[i])));
  }

  lemma BatchMoves(s: State)
    requires (exists s' :: Does(s, SJoin, s'))
             || exists step, s' :: WorkerMoves(step) && (step.SFinish? ==> step.ok) && Does(s, step, s')
    ensures exists step, s' :: RegularStep(step) && Does(s, step, s')
  {
    if s' :| Does(s, SJoin, s') {
      assert RegularStep(SJoin);
    } else {
      var step, s' :| WorkerMoves(step) && (step.SFinish? ==> step.ok) && Does(s, step, s');
      assert RegularStep(step);
    }
  }

  // ---- concurrency ----

  /** At most Limit handlers are in flight in a batch, and a batch is only claimed when nothing is
      running at all. */
  lemma InFlight(states: seq<State>, steps: seq<Step>)
    requires Execution(states, steps)
    ensures var s := states[|steps|];
            && (s.phase.Batch? ==>
                  && s.phase.id in s.rows && s.rows[s.phase.id].spec.jobType in s.handlers
                  && var limit := s.handlers[s.rows[s.phase.id].spec.jobType].maxConcurrency;
                     |s.phase.running| <= if limit > 0 then limit else s.cpus)
            && (s.phase.Draining? ==> forall id | id in s.rows :: s.rows[id].status != Running)
  {
    ReachableInv(states, steps, |steps|);
  }

  /** A claim takes the queued sub-jobs of the parent with the smallest ids, a hundred at most, marks
      them running, and changes nothing else. */
  lemma ClaimsInOrder(s: State, id: int, batch: seq<int>, s': State)
    requires Claim(s, id, batch, s')
    ensures |batch| <= 100 && forall i, j | 0 <= i < j < |batch| :: batch[i] < batch[j]
    ensures forall c | c in batch :: c in s.rows && s.rows[c].parent == Some(id) && s.rows[c].status == Queued
    ensures forall c | c in s.rows && s.rows[c].parent == Some(id) && s.rows[c].status == Queued && c !in batch ::
              |batch| == 100 && forall b | b in batch :: b < c
    ensures s'.rows.Keys == s.rows.Keys
    ensures forall r | r in s.rows :: s'.rows[r] == if r in batch then s.rows[r].(status := Running) else s.rows[r]
  {
    assert forall c :: c in QueuedChildren(s.rows, id) <==>
                         c in s.rows && s.rows[c].parent == Some(id) && s.rows[c].status == Queued;
  }

  /** A flush step writes the next five hundred specs of the buffer, or all that are left, as queued
      sub-jobs under consecutive new ids. */
  lemma FlushesInOrder(s: State, id: int, s': State)
    requires Machine(s) && FlushBatch(s, id, s')
    ensures var n := if |s.phase.unsent| < 500 then |s.phase.unsent| else 500;
            && s'.phase == Flushing(id, s.phase.unsent[n..], s.phase.written + n) && s'.nextId == s.nextId + n
            && (forall r | r in s'.rows && r !in s.rows :: s.nextId <= r < s.nextId + n)
            && (forall k | 0 <= k < n ::
                  s.nextId + k in s'.rows && s'.rows[s.nextId + k] == Job(s.phase.unsent[k], Queued, Some(id), 0))
            && (forall r | r in s.rows && r != id :: r in s'.rows && s'.rows[r] == s.rows[r])
  {
    FlushedRows(s, id, s');
    forall k | 0 <= k < ChunkLength(s.phase.unsent)
      ensures s.nextId + k in s'.rows && s'.rows[s.nextId + k] == Job(s.phase.unsent[k], Queued, Some(id), 0)
    {
      assert InBlock(s.nextId + k, s.nextId, ChunkLength(s.phase.unsent));
    }
  }

  /** The wait group is at zero exactly when no worker goroutine is left. */
  lemma BarrierHolds(states: seq<State>, steps: seq<Step>)
    requires Execution(states, steps) && states[|steps|].phase.Batch?
    ensures var p := states[|steps|].phase; p.wg == 0 <==> p.running == {} && p.marked == {} && p.released == {}
    ensures var p := states[|steps|].phase; p.sem == |p.running + p.marked|
  {
    ReachableInv(states, steps, |steps|);
  }

  /** What is left to do for the workers of a batch: four statements for a sub-job that is waiting. */
  function WorkLeft(p: Phase): int {
    if p.Batch? then 4 * |p.waiting| + 3 * |p.running| + 2 * |p.marked| + |p.released| else 0
  }

  predicate WorkerMoves(step: Step) {
    step.SLaunch? || step.SLaunchUnhandled? || step.SFinish? || step.SRelease? || step.SWorkerExit?
  }

  lemma CanLeave(s: State)
    requires Machine(s) && s.phase.Batch? && s.phase.waiting == [] && WorkLeft(s.phase) == 0
    ensures exists s' :: Does(s, SJoin, s')
  {
    assert Join(s, s.(phase := Draining(s.phase.id)));
    assert Does(s, SJoin, s.(phase := Draining(s.phase.id)));
  }

  lemma CanStartNext(s: State)
    requires Machine(s) && s.phase.Batch? && s.phase.waiting != [] && s.phase.sem < Limit(s)
    ensures exists step, s' :: WorkerMoves(step) && (step.SFinish? ==> step.ok) && Does(s, step, s')
  {
    var j := s.phase.waiting[0];
    assert j in s.phase.waiting;
    if TypeOf(s, j) in s.handlers {
      CanLaunchHandled(s, j);
    } else {
      CanLaunchUnhandled(s, j);
    }
  }

  lemma CanLaunchHandled(s: State, j: int)
    requires CanLaunch(s, j) && TypeOf(s, j) in s.handlers
    ensures exists step, s' :: WorkerMoves(step) && (step.SFinish? ==> step.ok) && Does(s, step, s')
  {
    var p := s.phase;
    var s' := s.(phase := p.(waiting := p.waiting[1..], sem := p.sem + 1, wg := p.wg + 1, running := p.running + {j}),
                 invoked := s.invoked + multiset{j}, runs := s.runs + multiset{j});
    assert Does(s, SLaunch(j), s');
  }

  lemma CanLaunchUnhandled(s: State, j: int)
    requires CanLaunch(s, j) && TypeOf(s, j) !in s.handlers
    ensures exists step, s' :: WorkerMoves(step) && (step.SFinish? ==> step.ok) && Does(s, step, s')
  {
    var p := s.phase;
    var s' := s.(rows := WithStatus(s.rows, j, Failed), unhandled := s.unhandled + {j},
                 phase := p.(waiting := p.waiting[1..], sem := p.sem + 1, wg := p.wg + 1, marked := p.marked + {j}));
    assert Does(s, SLaunchUnhandled(j), s');
  }

  lemma CanMoveOn(s: State)
    requires s.phase.Batch? && s.phase.running + s.phase.marked + s.phase.released != {}
    ensures exists step, s' :: WorkerMoves(step) && (step.SFinish? ==> step.ok) && Does(s, step, s')
  {
    var p := s.phase;
    Sets.Inhabited(p.running + p.marked + p.released);
    var j :| j in p.running + p.marked + p.released;
    if j in p.running {
      var s' := s.(rows := MarkedDone(s.rows, j), phase := p.(running := p.running - {j}, marked := p.marked + {j}));
      assert Does(s, SFinish(j, true), s');
    } else if j in p.marked {
      var s' := s.(phase := p.(marked := p.marked - {j}, released := p.released + {j}, sem := p.sem - 1));
      assert Does(s, SRelease(j), s');
    } else {
      var s' := s.(phase := p.(released := p.released - {j}, wg := p.wg - 1));
      assert Does(s, SWorkerExit(j), s');
    }
  }

  /** Semaphore and wait group never deadlock: as long as there is work left some worker statement can
      be executed, and when none is left the batch can be joined. */
  lemma NoDeadlock(states: seq<State>, steps: seq<Step>)
    requires Execution(states, steps) && states[|steps|].phase.Batch?
    ensures var s := states[|steps|];
            if WorkLeft(s.phase) == 0 then exists s' :: Does(s, SJoin, s')
            else exists step, s' :: WorkerMoves(step) && (step.SFinish? ==> step.ok) && Does(s, step, s')
  {
    ReachableInv(states, steps, |steps|);
    var s := states[|steps|];
    if s.phase.running + s.phase.marked + s.phase.released != {} {
      CanMoveOn(s);
    } else if s.phase.waiting != [] {
      CanStartNext(s);
    } else {
      CanLeave(s);
    }
  }

  /** Each worker statement leaves less to do, and nobody else adds to it. */
  lemma BatchShrinks(s: State, step: Step, s': State)
    requires Machine(s) && Does(s, step, s') && s.phase.Batch? && s'.phase.Batch?
    ensures s'.phase.id == s.phase.id && 0 <= WorkLeft(s'.phase) <= WorkLeft(s.phase)
    ensures WorkerMoves(step) ==> WorkLeft(s'.phase) < WorkLeft(s.phase)
  {
    if WorkerMoves(step) {
      WorkerShrinks(s, step, s');
    }
  }

  /** How many of the steps from i up to k are worker statements. */
  function WorkerSteps(steps: seq<Step>, i: nat, k: nat): nat
    requires i <= k <= |steps|
    decreases k
  {
    if i == k then 0 else WorkerSteps(steps, i, k - 1) + if WorkerMoves(steps[k - 1]) then 1 else 0
  }

  predicate Shrinks(s: State, step: Step, s': State) {
    0 <= WorkLeft(s'.phase) && WorkLeft(s'.phase) + (if WorkerMoves(step) then 1 else 0) <= WorkLeft(s.phase)
  }

  lemma {:induction false} ShrinksAlong(states: seq<State>, steps: seq<Step>, i: nat, k: nat)
    requires |states| == |steps| + 1 && i <= k <= |steps|
    requires forall l | i <= l < k :: Shrinks(states[l], steps[l], states[l + 1])
    requires 0 <= WorkLeft(states[i].phase)
    ensures 0 <= WorkLeft(states[k].phase) <= WorkLeft(states[i].phase) - WorkerSteps(steps, i, k)
    decreases k
  {
    if i == k {
    } else {
      ShrinksAlong(states, steps, i, k - 1);
      assert Shrinks(states[k - 1], steps[k - 1], states[k]);
    }
  }

  /** A batch of n sub-jobs is over after at most 4n worker statements, whatever others do meanwhile. */
  lemma BatchEnds(states: seq<State>, steps: seq<Step>, i: nat, k: nat)
    requires Execution(states, steps) && i <= k <= |steps|
    requires forall l | i <= l <= k :: states[l].phase.Batch?
    ensures WorkerSteps(steps, i, k) <= WorkLeft(states[i].phase)
    ensures i > 0 && steps[i - 1].SClaim? ==> WorkerSteps(steps, i, k) <= 4 * |steps[i - 1].batch|
  {
    forall l | i <= l < k
      ensures Shrinks(states[l], steps[l], states[l + 1])
    {
      StepShrinks(states, steps, l);
    }
    ShrinksAlong(states, steps, i, k);
    if i > 0 && steps[i - 1].SClaim? {
      ClaimedWork(states[i - 1], steps[i - 1], states[i]);
    }
  }

  lemma ClaimedWork(s: State, step: Step, s': State)
    requires Does(s, step, s') && step.SClaim?
    ensures WorkLeft(s'.phase) == 4 * |step.batch|
  {
  }

  lemma StepShrinks(states: seq<State>, steps: seq<Step>, l: nat)
    requires Execution(states, steps) && l < |steps| && states[l].phase.Batch? && states[l + 1].phase.Batch?
    ensures Shrinks(states[l], steps[l], states[l + 1])
  {
    ReachableInv(states, steps, l);
    BatchShrinks(states[l], steps[l], states[l + 1]);
  }

  lemma WorkerShrinks(s: State, step: Step, s': State)
    requires BatchInv(s.rows, s.phase, Limit(s)) && Does(s, step, s') && WorkerMoves(step)
    ensures s'.phase.Batch? && s'.phase.id == s.phase.id && WorkLeft(s'.phase) < WorkLeft(s.phase)
  {
    if step.SLaunch? || step.SLaunchUnhandled? {
      assert step.j in s.phase.waiting;
    }
  }

  // ---- nothing is stranded ----

  /** Whenever the run loop is between jobs, each top-level row is finished or one that
      loadFromDB selects: none is left running. */
  lemma NothingStranded(states: seq<State>, steps: seq<Step>, id: int)
    requires Execution(states, steps)
    requires var s := states[|steps|]; s.phase == Idle && id in s.rows && s.rows[id].parent == None
    ensures var status := states[|steps|].rows[id].status;
            status == Queued || status == RunningSubJobs || status == Done || status == Failed
    ensures var s := states[|steps|]; Terminal(s.rows[id].status) || Selected(s.rows, id)
  {
    ReachableInv(states, steps, |steps|);
  }
}
