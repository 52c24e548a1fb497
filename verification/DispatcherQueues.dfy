/** The queue in every execution: in which order the run loop picks what is queued. */
module DispatcherQueues {
  import opened DispatcherRuns
  import opened Dispatchers
  import opened Scheduling

  /** What a step does to the queue. */
  ghost predicate QueueMoves(s: State, step: Step, s': State) {
    match step
    case SAppendJob(job) => s'.queue == s.queue + [job]
    case SLoadAppend => s.queue <= s'.queue
    case SPickJob(i) => 0 <= i < |s.queue| && !s.paused && IsPick(s.queue, i) && s'.queue == RemoveAt(s.queue, i)
                        && s'.phase.Picked? && s'.phase.job == s.queue[i]
    case SYield(id) => s'.queue == [QueuedJob(id, "video_transcode")] + s.queue
    case SCrash => s'.queue == []
    case _ => s'.queue == s.queue
  }

  lemma StepMovesQueue(s: State, step: Step, s': State)
    requires Does(s, step, s')
    ensures QueueMoves(s, step, s')
  {
  }

  ghost predicate QueueHistory(states: seq<State>, steps: seq<Step>) {
    |states| == |steps| + 1 && forall l | 0 <= l < |steps| :: QueueMoves(states[l], steps[l], states[l + 1])
  }

  lemma HasQueueHistory(states: seq<State>, steps: seq<Step>)
    requires Execution(states, steps)
    ensures QueueHistory(states, steps)
  {
    forall l | 0 <= l < |steps|
      ensures QueueMoves(states[l], steps[l], states[l + 1])
    {
      StepMovesQueue(states[l], steps[l], states[l + 1]);
    }
  }

  /** The jobs picked by the steps from i up to k, in order. */
  function PickedJobs(states: seq<State>, steps: seq<Step>, i: nat, k: nat): seq<QueuedJob>
    requires |states| == |steps| + 1 && i <= k <= |steps|
    decreases k - i
  {
    if i == k then []
    else
      (if steps[i].SPickJob? && states[i + 1].phase.Picked? then [states[i + 1].phase.job] else [])
      + PickedJobs(states, steps, i + 1, k)
  }

  predicate PutsBack(ops: seq<QueueOp>) {
    exists op :: op in ops && op.PutBack?
  }

  /** Between two crashes the steps of an execution are a sequence of appends, picks and put-backs. */
  lemma {:induction false} QueueServed(states: seq<State>, steps: seq<Step>, i: nat, k: nat) returns (ops: seq<QueueOp>)
    requires QueueHistory(states, steps) && i <= k <= |steps|
    requires forall l | i <= l < k :: steps[l] != SCrash
    ensures Serves(states[i].queue, ops, PickedJobs(states, steps, i, k))
    ensures Picks(ops) == |PickedJobs(states, steps, i, k)|
    ensures (forall l | i <= l < k :: !steps[l].SYield?) ==> !PutsBack(ops)
    decreases k - i
  {
    if i == k {
      ops := [];
    } else {
      var rest := QueueServed(states, steps, i + 1, k);
      assert QueueMoves(states[i], steps[i], states[i + 1]);
      ops := ServedBefore(states[i], steps[i], states[i + 1], rest, PickedJobs(states, steps, i + 1, k));
      assert !steps[i].SYield? && !PutsBack(rest) ==> !PutsBack(ops);
    }
  }

  lemma ServedBefore(s: State, step: Step, s': State, rest: seq<QueueOp>, picked: seq<QueuedJob>)
      returns (ops: seq<QueueOp>)
    requires QueueMoves(s, step, s') && step != SCrash && Serves(s'.queue, rest, picked) && Picks(rest) == |picked|
    ensures var now := if step.SPickJob? && s'.phase.Picked? then [s'.phase.job] else [];
            Serves(s.queue, ops, now + picked) && Picks(ops) == |now + picked|
    ensures forall op | op in ops :: op in rest || !op.PutBack? || step.SYield?
  {
    var op := match step
      case SAppendJob(job) => Append([job])
      case SLoadAppend => Append(s'.queue[|s.queue|..])
      case SPickJob(_) => Pick
      case SYield(id) => PutBack(id)
      case _ => Append([]);
    ops := [op] + rest;
    assert ops[1..] == rest;
    if step.SPickJob? {
      ServedByPick(s.queue, step.i, s'.queue, rest, picked, ops);
    } else {
      assert [] + picked == picked;
      assert op.Append? ==> s.queue + op.jobs == s'.queue;
    }
  }

  lemma ServedByPick(queue: seq<QueuedJob>, i: int, queue': seq<QueuedJob>, rest: seq<QueueOp>, picked: seq<QueuedJob>,
                     ops: seq<QueueOp>)
    requires IsPick(queue, i) && queue' == RemoveAt(queue, i) && Serves(queue', rest, picked)
    requires ops != [] && ops[0] == Pick && ops[1..] == rest
    ensures Serves(queue, ops, [queue[i]] + picked)
  {
    assert ([queue[i]] + picked)[1..] == picked;
  }

  /** In every execution, between crashes: an entry that has k non-transcodes ahead of it, and is none
      itself, is the (k+1)-th job picked from then on. */
  lemma PickedInOrder(states: seq<State>, steps: seq<Step>, i: nat, k: nat, p: nat)
    requires Execution(states, steps) && i <= k <= |steps| && forall l | i <= l < k :: steps[l] != SCrash
    requires p < |states[i].queue| && states[i].queue[p].jobType != "video_transcode"
    ensures var n := |NonTranscodes(states[i].queue[..p])|;
            n < |PickedJobs(states, steps, i, k)| ==> PickedJobs(states, steps, i, k)[n] == states[i].queue[p]
  {
    HasQueueHistory(states, steps);
    var ops := QueueServed(states, steps, i, k);
    var queue, picked := states[i].queue, PickedJobs(states, steps, i, k);
    PositionAmongNonTranscodes(queue, p);
    if |NonTranscodes(queue[..p])| < |picked| {
      FirstComeFirstServed(queue, ops, picked, |NonTranscodes(queue[..p])|);
    }
  }

  lemma TranscodesAlong(states: seq<State>, steps: seq<Step>, i: nat, k: nat, n: nat)
    requires QueueHistory(states, steps) && i <= k <= |steps|
    requires forall l | i <= l < k :: steps[l] != SCrash && !steps[l].SYield?
    requires n < |Transcodes(states[i].queue)| && n < |Transcodes(PickedJobs(states, steps, i, k))|
    ensures Transcodes(PickedJobs(states, steps, i, k))[n] == Transcodes(states[i].queue)[n]
  {
    var ops := QueueServed(states, steps, i, k);
    TranscodesFirstComeFirstServed(states[i].queue, ops, PickedJobs(states, steps, i, k), n);
  }

  lemma YieldedAlong(states: seq<State>, steps: seq<Step>, i: nat, k: nat, id: int)
    requires QueueHistory(states, steps) && i < k <= |steps| && steps[i] == SYield(id)
    requires forall l | i < l < k :: steps[l] != SCrash && !steps[l].SYield?
    requires Transcodes(PickedJobs(states, steps, i + 1, k)) != []
    ensures Transcodes(PickedJobs(states, steps, i + 1, k))[0] == QueuedJob(id, "video_transcode")
  {
    YieldedInFront(states[i], steps[i], states[i + 1], id);
    TranscodesAlong(states, steps, i + 1, k, 0);
  }

  /** Likewise transcodes among themselves, while none is put back. */
  lemma TranscodesInOrder(states: seq<State>, steps: seq<Step>, i: nat, k: nat, n: nat)
    requires Execution(states, steps) && i <= k <= |steps|
    requires forall l | i <= l < k :: steps[l] != SCrash && !steps[l].SYield?
    requires n < |Transcodes(states[i].queue)| && n < |Transcodes(PickedJobs(states, steps, i, k))|
    ensures Transcodes(PickedJobs(states, steps, i, k))[n] == Transcodes(states[i].queue)[n]
  {
    HasQueueHistory(states, steps);
    TranscodesAlong(states, steps, i, k, n);
  }

  /** A parent that yields at step i is the next transcode that is picked, unless another one yields or
      the process crashes before. */
  lemma YieldedComesBack(states: seq<State>, steps: seq<Step>, i: nat, k: nat, id: int)
    requires Execution(states, steps) && i < k <= |steps| && steps[i] == SYield(id)
    requires forall l | i < l < k :: steps[l] != SCrash && !steps[l].SYield?
    requires Transcodes(PickedJobs(states, steps, i + 1, k)) != []
    ensures Transcodes(PickedJobs(states, steps, i + 1, k))[0] == QueuedJob(id, "video_transcode")
  {
    HasQueueHistory(states, steps);
    YieldedAlong(states, steps, i, k, id);
  }

  lemma YieldedInFront(s: State, step: Step, s': State, id: int)
    requires QueueMoves(s, step, s') && step == SYield(id)
    ensures Transcodes(s'.queue) != [] && Transcodes(s'.queue)[0] == QueuedJob(id, "video_transcode")
  {
    TranscodesConcat([QueuedJob(id, "video_transcode")], s.queue);
    OneTranscode(QueuedJob(id, "video_transcode"));
  }

  lemma {:induction false} AllQueued(queue: seq<QueuedJob>, found: seq<QueuedJob>)
    ensures forall q | q in found :: Queues(Loaded(queue, found), q.id)
    ensures forall q | q in Loaded(queue, found) :: q in queue || (q in found && !Queues(queue, q.id))
  {
    if found == [] {
      assert Loaded(queue, found) == queue;
    } else {
      var init, last := found[..|found| - 1], found[|found| - 1];
      AllQueued(queue, init);
      EntriesAdded(Loaded(queue, init), Loaded(queue, found), if Queues(queue, last.id) then [] else [last]);
      forall q | q in found
        ensures Queues(Loaded(queue, found), q.id)
      {
        LastQueued(queue, init, last, Loaded(queue, found), q);
      }
    }
  }

  lemma EntriesAdded(before: seq<QueuedJob>, after: seq<QueuedJob>, added: seq<QueuedJob>)
    requires after == before + added
    ensures forall id | Queues(before, id) :: Queues(after, id)
    ensures forall q | q in after :: q in before || q in added
  {
    forall id | Queues(before, id)
      ensures Queues(after, id)
    {
      var i :| 0 <= i < |before| && before[i].id == id;
      assert after[i].id == id;
    }
  }

  lemma LastQueued(queue: seq<QueuedJob>, init: seq<QueuedJob>, last: QueuedJob, all: seq<QueuedJob>, q: QueuedJob)
    requires all == Loaded(queue, init) + if Queues(queue, last.id) then [] else [last]
    requires q == last || Queues(all, q.id)
    ensures Queues(all, q.id)
  {
    if Queues(queue, last.id) {
      var i :| 0 <= i < |queue| && queue[i].id == last.id;
      assert all[i].id == last.id;
    } else {
      assert all[|all| - 1].id == last.id;
    }
  }

  /** Reloading queues all that the query has found, adds nothing else, and nothing that is queued already. */
  lemma ReloadQueuesAll(s: State, s': State)
    requires LoadAppend(s, s')
    ensures forall q | q in s.phase.found :: exists i | 0 <= i < |s'.queue| :: s'.queue[i].id == q.id
    ensures s.queue <= s'.queue
    ensures forall q | q in s'.queue ::
              q in s.queue || (q in s.phase.found && forall k | 0 <= k < |s.queue| :: s.queue[k].id != q.id)
  {
    AllQueued(s.queue, s.phase.found);
    forall q | q in s.phase.found
      ensures exists i | 0 <= i < |s'.queue| :: s'.queue[i].id == q.id
    {
      assert Queues(s'.queue, q.id);
    }
  }

  /** A transcode parent claims sub-jobs only while nothing but transcodes is queued, and nothing at all
      is picked while the dispatcher is paused. */
  lemma TranscodesGiveWay(s: State, step: Step, s': State)
    requires Does(s, step, s')
    ensures step.SClaim? && step.id in s.rows && s.rows[step.id].spec.jobType == "video_transcode" ==>
              forall q | q in s.queue :: q.jobType == "video_transcode"
    ensures step.SYield? ==>
              && step.id in s.rows && s.rows[step.id].spec.jobType == "video_transcode"
              && exists q :: q in s.queue && q.jobType != "video_transcode"
    ensures step.SPickJob? ==> !s.paused
  {
  }
}
