/** Order and progress of the dispatcher's queue over many operations. */
module Scheduling {
  import opened Dispatchers
  import opened JobTables
  import opened Options

  // ---- non-transcode jobs are served first come, first served ----

  function NonTranscodes(queue: seq<QueuedJob>): seq<QueuedJob> {
    if queue == [] then []
    else (if IsTranscode(queue[0]) then [] else [queue[0]]) + NonTranscodes(queue[1..])
  }

  lemma Regroup(a: seq<QueuedJob>, b: seq<QueuedJob>, c: seq<QueuedJob>)
    ensures a + (b + c) == a + b + c
  {
  }

  lemma {:induction false} NonTranscodesConcat(a: seq<QueuedJob>, b: seq<QueuedJob>)
    ensures NonTranscodes(a + b) == NonTranscodes(a) + NonTranscodes(b)
  {
    if a == [] {
      assert a + b == b;
    } else {
      NonTranscodesConcat(a[1..], b);
      assert (a + b)[0] == a[0] && (a + b)[1..] == a[1..] + b;
      Regroup(if IsTranscode(a[0]) then [] else [a[0]], NonTranscodes(a[1..]), NonTranscodes(b));
    }
  }

  lemma {:induction false} NoNonTranscodes(queue: seq<QueuedJob>)
    ensures NonTranscodes(queue) == [] <==> forall i | 0 <= i < |queue| :: IsTranscode(queue[i])
  {
    if queue == [] {
    } else {
      NoNonTranscodes(queue[1..]);
      assert forall i | 0 < i < |queue| :: queue[i] == queue[1..][i - 1];
    }
  }

  /** A pick takes the oldest non-transcode entry when there is one. */
  lemma PickIsOldest(queue: seq<QueuedJob>, i: int)
    requires IsPick(queue, i)
    ensures NonTranscodes(queue)
            == (if IsTranscode(queue[i]) then [] else [queue[i]]) + NonTranscodes(RemoveAt(queue, i))
    ensures IsTranscode(queue[i]) ==> NonTranscodes(RemoveAt(queue, i)) == []
  {
    Cut(queue, i, queue[..i], queue[i + 1..]);
    OldestFirst(queue[..i], queue[i], queue[i + 1..]);
  }

  lemma Cut(queue: seq<QueuedJob>, i: int, front: seq<QueuedJob>, back: seq<QueuedJob>)
    requires IsPick(queue, i) && front == queue[..i] && back == queue[i + 1..]
    ensures queue == front + [queue[i]] + back && RemoveAt(queue, i) == front + back
    ensures forall k | 0 <= k < |front| :: IsTranscode(front[k])
    ensures IsTranscode(queue[i]) ==> forall k | 0 <= k < |back| :: IsTranscode(back[k])
  {
    assert IsTranscode(queue[i]) ==> forall k | i < k < |queue| :: IsTranscode(queue[k]);
  }

  lemma OldestFirst(front: seq<QueuedJob>, q: QueuedJob, back: seq<QueuedJob>)
    requires forall k | 0 <= k < |front| :: IsTranscode(front[k])
    requires IsTranscode(q) ==> forall k | 0 <= k < |back| :: IsTranscode(back[k])
    ensures NonTranscodes(front + [q] + back) == (if IsTranscode(q) then [] else [q]) + NonTranscodes(front + back)
    ensures IsTranscode(q) ==> NonTranscodes(front + back) == []
  {
    AroundPick(front, q, back);
    NoNonTranscodes(front);
    NoNonTranscodes(back);
  }

  lemma AroundPick(front: seq<QueuedJob>, q: QueuedJob, back: seq<QueuedJob>)
    ensures NonTranscodes(front + [q] + back) == NonTranscodes(front) + (if IsTranscode(q) then [] else [q])
            + NonTranscodes(back)
    ensures NonTranscodes(front + back) == NonTranscodes(front) + NonTranscodes(back)
  {
    NonTranscodesConcat(front + [q], back);
    NonTranscodesConcat(front, [q]);
    NonTranscodesConcat(front, back);
    assert [q][1..] == [];
    assert NonTranscodes([q]) == if IsTranscode(q) then [] else [q];
  }

  /** What happens to the queue: jobs are appended (Enqueue, loadFromDB), a job is picked, a
      transcode parent that yields is put back in front. */
  datatype QueueOp = Append(jobs: seq<QueuedJob>) | Pick | PutBack(id: int)

  /** picked lists what the picks among ops return, in order; a pick from an empty queue returns
      nothing. */
  ghost predicate Serves(queue: seq<QueuedJob>, ops: seq<QueueOp>, picked: seq<QueuedJob>)
    decreases |ops|
  {
    if ops == [] then picked == []
    else match ops[0]
      case Append(jobs) => Serves(queue + jobs, ops[1..], picked)
      case PutBack(id) => Serves([QueuedJob(id, TRANSCODE)] + queue, ops[1..], picked)
      case Pick =>
        if queue == [] then Serves(queue, ops[1..], picked)
        else
          && picked != []
          && exists i :: IsPick(queue, i) && picked[0] == queue[i] && Serves(RemoveAt(queue, i), ops[1..], picked[1..])
  }

  function Picks(ops: seq<QueueOp>): nat {
    if ops == [] then 0 else (if ops[0].Pick? then 1 else 0) + Picks(ops[1..])
  }

  /** Whatever is appended, reloaded or put back meanwhile, the k-th non-transcode job of the
      queue is what the k-th pick returns, counting from 0. */
  lemma {:induction false} FirstComeFirstServed(queue: seq<QueuedJob>, ops: seq<QueueOp>, picked: seq<QueuedJob>,
                                                k: nat)
    requires Serves(queue, ops, picked)
    requires k < |NonTranscodes(queue)| && k < Picks(ops)
    ensures k < |picked| && picked[k] == NonTranscodes(queue)[k]
    decreases |ops|
  {
    match ops[0]
    case Append(jobs) =>
      NonTranscodesConcat(queue, jobs);
      FirstComeFirstServed(queue + jobs, ops[1..], picked, k);
    case PutBack(id) =>
      assert ([QueuedJob(id, TRANSCODE)] + queue)[1..] == queue;
      FirstComeFirstServed([QueuedJob(id, TRANSCODE)] + queue, ops[1..], picked, k);
    case Pick =>
      var i :| IsPick(queue, i) && picked[0] == queue[i] && Serves(RemoveAt(queue, i), ops[1..], picked[1..]);
      PickIsOldest(queue, i);
      if k > 0 {
        FirstComeFirstServed(RemoveAt(queue, i), ops[1..], picked[1..], k - 1);
      }
  }

  // ---- so are transcodes among themselves ----

  /** The entries with the job type video_transcode, in order. */
  function Transcodes(queue: seq<QueuedJob>): seq<QueuedJob> {
    if queue == [] then []
    else (if queue[0].jobType == "video_transcode" then [queue[0]] else []) + Transcodes(queue[1..])
  }

  lemma {:induction false} TranscodesConcat(a: seq<QueuedJob>, b: seq<QueuedJob>)
    ensures Transcodes(a + b) == Transcodes(a) + Transcodes(b)
  {
    if a == [] {
      assert a + b == b;
    } else {
      TranscodesConcat(a[1..], b);
      assert (a + b)[0] == a[0] && (a + b)[1..] == a[1..] + b;
      Regroup(if a[0].jobType == "video_transcode" then [a[0]] else [], Transcodes(a[1..]), Transcodes(b));
    }
  }

  lemma OneTranscode(q: QueuedJob)
    ensures Transcodes([q]) == if q.jobType == "video_transcode" then [q] else []
  {
    assert [q][1..] == [];
  }

  /** A pick takes the oldest transcode or none. */
  lemma PickIsOldestTranscode(queue: seq<QueuedJob>, i: int)
    requires IsPick(queue, i)
    ensures if queue[i].jobType == "video_transcode"
            then i == 0 && Transcodes(queue) == queue == [queue[0]] + Transcodes(RemoveAt(queue, 0))
            else Transcodes(RemoveAt(queue, i)) == Transcodes(queue)
  {
    Cut(queue, i, queue[..i], queue[i + 1..]);
    TranscodesAround(queue[..i], queue[i], queue[i + 1..]);
    if queue[i].jobType == "video_transcode" {
      AllTranscodes(queue);
      AllTranscodes(queue[1..]);
      assert RemoveAt(queue, 0) == queue[1..];
    }
  }

  lemma TranscodesAround(front: seq<QueuedJob>, q: QueuedJob, back: seq<QueuedJob>)
    ensures Transcodes(front + [q] + back) == Transcodes(front) + Transcodes([q]) + Transcodes(back)
    ensures Transcodes(front + back) == Transcodes(front) + Transcodes(back)
    ensures q.jobType != "video_transcode" ==> Transcodes(front + [q] + back) == Transcodes(front + back)
  {
    TranscodesConcat(front + [q], back);
    TranscodesConcat(front, [q]);
    TranscodesConcat(front, back);
    OneTranscode(q);
  }

  lemma {:induction false} AllTranscodes(queue: seq<QueuedJob>)
    requires forall k | 0 <= k < |queue| :: IsTranscode(queue[k])
    ensures Transcodes(queue) == queue
  {
    if queue == [] {
    } else {
      AllTranscodes(queue[1..]);
    }
  }

  /** As long as nothing is put back in front, transcodes are picked in the order in which they are
      queued, whatever is appended and whatever else is picked in between. */
  lemma {:induction false} TranscodesFirstComeFirstServed(queue: seq<QueuedJob>, ops: seq<QueueOp>,
                                                          picked: seq<QueuedJob>, k: nat)
    requires Serves(queue, ops, picked) && forall op | op in ops :: !op.PutBack?
    requires k < |Transcodes(queue)| && k < |Transcodes(picked)|
    ensures Transcodes(picked)[k] == Transcodes(queue)[k]
    decreases |ops|
  {
    if ops == [] {
      assert false;
    } else if ops[0].Append? {
      TranscodesConcat(queue, ops[0].jobs);
      TranscodesFirstComeFirstServed(queue + ops[0].jobs, ops[1..], picked, k);
    } else if queue == [] {
      assert false;
    } else {
      assert ops[0] in ops;
      var i :| IsPick(queue, i) && picked[0] == queue[i] && Serves(RemoveAt(queue, i), ops[1..], picked[1..]);
      PickedTranscode(queue, ops, picked, k, i);
    }
  }

  lemma {:induction false} PickedTranscode(queue: seq<QueuedJob>, ops: seq<QueueOp>, picked: seq<QueuedJob>, k: nat,
                                           i: int)
    requires ops != [] && picked != [] && forall op | op in ops :: !op.PutBack?
    requires IsPick(queue, i) && picked[0] == queue[i] && Serves(RemoveAt(queue, i), ops[1..], picked[1..])
    requires k < |Transcodes(queue)| && k < |Transcodes(picked)|
    ensures Transcodes(picked)[k] == Transcodes(queue)[k]
    decreases |ops|, 0
  {
    PickIsOldestTranscode(queue, i);
    if picked[0].jobType == "video_transcode" {
      if k > 0 {
        TranscodesFirstComeFirstServed(RemoveAt(queue, i), ops[1..], picked[1..], k - 1);
      }
    } else {
      TranscodesFirstComeFirstServed(RemoveAt(queue, i), ops[1..], picked[1..], k);
    }
  }

  /** A parent that has yielded is the next transcode picked, unless another is put back in front. */
  lemma YieldedIsNext(id: int, queue: seq<QueuedJob>, ops: seq<QueueOp>, picked: seq<QueuedJob>)
    requires Serves(queue, [PutBack(id)] + ops, picked) && forall op | op in ops :: !op.PutBack?
    requires Transcodes(picked) != []
    ensures Transcodes(picked)[0] == QueuedJob(id, "video_transcode")
  {
    var queue' := [QueuedJob(id, TRANSCODE)] + queue;
    assert ([PutBack(id)] + ops)[1..] == ops;
    TranscodesConcat([QueuedJob(id, TRANSCODE)], queue);
    OneTranscode(QueuedJob(id, TRANSCODE));
    TranscodesFirstComeFirstServed(queue', ops, picked, 0);
  }

  /** A non-transcode entry with k such entries ahead of it is the k-th one. */
  lemma PositionAmongNonTranscodes(queue: seq<QueuedJob>, i: nat)
    requires i < |queue| && !IsTranscode(queue[i])
    ensures var k := |NonTranscodes(queue[..i])|;
            k < |NonTranscodes(queue)| && NonTranscodes(queue)[k] == queue[i]
  {
    assert queue == queue[..i] + queue[i..];
    NonTranscodesConcat(queue[..i], queue[i..]);
  }

  /** After a transcode yields, whatever is appended, the next pick is not a transcode. */
  lemma NoTranscodeAfterYield(queue: seq<QueuedJob>, id: int, appended: seq<QueuedJob>, i: int)
    requires HasNonTranscode(queue)
    requires IsPick([QueuedJob(id, TRANSCODE)] + queue + appended, i)
    ensures !IsTranscode(([QueuedJob(id, TRANSCODE)] + queue + appended)[i])
  {
    var q := [QueuedJob(id, TRANSCODE)] + queue + appended;
    var k :| 0 <= k < |queue| && !IsTranscode(queue[k]);
    assert q[k + 1] == queue[k];
    assert HasNonTranscode(q);
  }

  lemma PickUnique(queue: seq<QueuedJob>, i: int, j: int)
    requires IsPick(queue, i) && IsPick(queue, j)
    ensures i == j
  {
  }

  // ---- draining ----

  /** Every row that can be worked on and whose type has a handler is queued. */
  ghost predicate Covered(types: set<string>, queue: seq<QueuedJob>, rows: Rows) {
    forall id | Selected(rows, id) && rows[id].spec.jobType in types :: Queues(queue, id)
  }

  /** Every entry names a top-level row of the table. */
  ghost predicate Known(queue: seq<QueuedJob>, rows: Rows) {
    QueueMatches(queue, rows) && forall i | 0 <= i < |queue| :: queue[i].id in rows
  }

  /** Top-level rows survive a call; finished ones stay finished and none is left running. */
  lemma TopLevelAfterWork(types: set<string>, rows: Rows, id: int, rows': Rows)
    requires id in rows && rows[id].parent == None && WorkedOn(types, rows, id, rows')
    ensures forall r | r in rows && rows[r].parent == None ::
              && r in rows' && rows'[r].parent == None && rows'[r].spec == rows[r].spec
              && (rows'[r].status == rows[r].status || (r == id && Live(rows[r].status) && Terminal(rows'[r].status)))
    ensures forall r | r in rows' && rows'[r].parent == None :: r in rows && rows[r].parent == None
  {
  }

  lemma KnownAfterStep(types: set<string>, queue: seq<QueuedJob>, rows: Rows, i: int, rows': Rows)
    requires Known(queue, rows) && IsPick(queue, i) && WorkedOn(types, rows, queue[i].id, rows')
    ensures Known(RemoveAt(queue, i), rows')
  {
  }

  lemma CoveredAfterStep(types: set<string>, queue: seq<QueuedJob>, rows: Rows, i: int, rows': Rows)
    requires Known(queue, rows) && Covered(types, queue, rows)
    requires IsPick(queue, i) && WorkedOn(types, rows, queue[i].id, rows')
    ensures Covered(types, RemoveAt(queue, i), rows')
  {
    TopLevelAfterWork(types, rows, queue[i].id, rows');
    var queue' := RemoveAt(queue, i);
    forall r | Selected(rows', r) && rows'[r].spec.jobType in types
      ensures Queues(queue', r)
    {
      assert Selected(rows, r);
      var k :| 0 <= k < |queue| && queue[k].id == r;
      assert k != i;
      assert queue'[if k < i then k else k - 1].id == r;
    }
  }

  lemma NothingLeft(types: set<string>, queue: seq<QueuedJob>, rows: Rows)
    requires queue == [] && Covered(types, queue, rows) && NoTopLevelRunning(rows)
    ensures forall id | id in rows && rows[id].parent == None && rows[id].spec.jobType in types ::
              Terminal(rows[id].status)
  {
    forall id | id in rows && rows[id].parent == None && rows[id].spec.jobType in types
      ensures !Selected(rows, id)
    {
      assert !Queues(queue, id);
    }
  }

  /** With nothing arriving, as many calls of processNext as there are entries empty the queue
      and bring every row whose type has a handler to done or failed. */
  lemma {:induction false} DrainsEverything(types: set<string>, queues: seq<seq<QueuedJob>>, tables: seq<Rows>)
    requires queues != [] && |queues| == |tables| == |queues[0]| + 1
    requires Known(queues[0], tables[0]) && Covered(types, queues[0], tables[0]) && NoTopLevelRunning(tables[0])
    requires forall k | 0 <= k < |queues| - 1 :: ProcessStep(types, queues[k], tables[k], queues[k + 1], tables[k + 1])
    ensures queues[|queues| - 1] == []
    ensures forall id | id in tables[0] && tables[0][id].parent == None && tables[0][id].spec.jobType in types ::
              id in tables[|tables| - 1] && Terminal(tables[|tables| - 1][id].status)
    decreases |queues|
  {
    if |queues[0]| == 0 {
      NothingLeft(types, queues[0], tables[0]);
    } else {
      assert ProcessStep(types, queues[0], tables[0], queues[1], tables[1]);
      var i :| IsPick(queues[0], i) && queues[1] == RemoveAt(queues[0], i)
        && WorkedOn(types, tables[0], queues[0][i].id, tables[1]);
      TopLevelAfterWork(types, tables[0], queues[0][i].id, tables[1]);
      KnownAfterStep(types, queues[0], tables[0], i, tables[1]);
      CoveredAfterStep(types, queues[0], tables[0], i, tables[1]);
      DrainsEverything(types, queues[1..], tables[1..]);
    }
  }
}
