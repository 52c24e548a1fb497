/** The dispatcher's in-memory queue and its run loop body. */
module Dispatchers {
  import opened JobContexts
  import opened JobTables
  import opened Options
  import Sets

  const TRANSCODE: string := "video_transcode"
  const CLAIM_LIMIT: nat := 100

  datatype QueuedJob = QueuedJob(id: int, jobType: string)

  datatype Meta = Meta(supportsSubjobs: bool, maxConcurrency: int)

  // ---- the queue, as a value ----

  predicate IsTranscode(q: QueuedJob) {
    q.jobType == TRANSCODE
  }

  predicate HasNonTranscode(queue: seq<QueuedJob>) {
    exists i | 0 <= i < |queue| :: !IsTranscode(queue[i])
  }

  /** i is the entry that has priority: the first non-transcode one, else the first of all. */
  predicate IsPick(queue: seq<QueuedJob>, i: int) {
    && 0 <= i < |queue|
    && (forall k | 0 <= k < i :: IsTranscode(queue[k]))
    && (IsTranscode(queue[i]) ==> i == 0 && !HasNonTranscode(queue))
  }

  function RemoveAt(queue: seq<QueuedJob>, i: int): seq<QueuedJob>
    requires 0 <= i < |queue|
  {
    queue[..i] + queue[i + 1..]
  }

  predicate Queues(queue: seq<QueuedJob>, id: int) {
    exists i | 0 <= i < |queue| :: queue[i].id == id
  }

  /** The rows loadFromDB selects. */
  predicate Selected(rows: Rows, id: int) {
    id in rows && Live(rows[id].status) && rows[id].parent == None
  }

  /** found lists the selected rows, each once, in the order they were queued. */
  ghost predicate IsSelection(rows: Rows, found: seq<QueuedJob>) {
    && (forall i | 0 <= i < |found| ::
          Selected(rows, found[i].id) && found[i].jobType == rows[found[i].id].spec.jobType)
    && (forall i, j | 0 <= i < j < |found| :: found[i].id < found[j].id)
    && (forall id | Selected(rows, id) :: Queues(found, id))
  }

  /** queue followed by those of found whose id is not queued yet. */
  function Loaded(queue: seq<QueuedJob>, found: seq<QueuedJob>): seq<QueuedJob> {
    queue + Absent(queue, found)
  }

  function Absent(queue: seq<QueuedJob>, found: seq<QueuedJob>): seq<QueuedJob> {
    if found == [] then []
    else
      var rest, last := Absent(queue, found[..|found| - 1]), found[|found| - 1];
      if Queues(queue, last.id) then rest else rest + [last]
  }

  // ---- what the outside world decides ----

  datatype HandlerResult = HandlerFails | HandlerReturns(buffered: seq<Spec>)

  /** arrivals[k]: the jobs other goroutines enqueue before the k-th pass of the claim loop. */
  datatype DrainEnv = DrainEnv(succeeds: set<int>, arrivals: seq<seq<Spec>>, cancelAt: Option<nat>,
                               claimFailsAt: Option<nat>)

  datatype Env = Env(exiftoolStarts: bool, handler: HandlerResult, failingBatches: set<int>, drain: DrainEnv)

  datatype DrainResult = AllRun | Yielded | Cancelled | ClaimFailed

  /** No row hangs below a row that itself has a parent. */
  ghost predicate TwoLevels(rows: Rows) {
    forall id | id in rows && rows[id].parent.Some? ::
      rows[id].parent.value in rows && rows[rows[id].parent.value].parent == None
  }

  /** Only statuses of parent's children differ, and top-level rows may have been added. */
  ghost predicate OnlyChildrenMoved(rows: Rows, next: int, parent: int, rows': Rows) {
    && (forall id | id in rows :: id in rows' && rows'[id].(status := rows[id].status) == rows[id])
    && (forall id | id in rows && rows[id].parent != Some(parent) :: rows'[id] == rows[id])
    && (forall id | id in rows' && id !in rows :: next <= id && rows'[id].parent == None && rows'[id].status == Queued)
  }

  ghost function Elements(ids: seq<int>): set<int> {
    set c | c in ids
  }

  ghost predicate Increasing(ids: seq<int>) {
    forall i, j | 0 <= i < j < |ids| :: ids[i] < ids[j]
  }

  /** Of the children queued in rows, those in handled are finished, those in claimed are marked
      running and the others are still queued; ran lists the finished ones that had a handler. */
  ghost predicate Progress(rows: Rows, next: int, parent: int, types: set<string>, rows': Rows,
                           ran: seq<int>, handled: set<int>, claimed: seq<int>)
  {
    var queued := QueuedChildren(rows, parent);
    && OnlyChildrenMoved(rows, next, parent, rows')
    && Increasing(ran) && Increasing(claimed)
    && (forall c | c in handled :: c in queued && Terminal(rows'[c].status))
    && (forall c | c in claimed :: c in queued && c !in handled && rows'[c].status == Running)
    && (forall c | c in queued && c !in handled && c !in claimed :: rows'[c].status == Queued)
    && (forall c | c in Children(rows, parent) && c !in queued :: rows'[c] == rows[c])
    && (forall c :: c in ran <==> c in handled && rows[c].spec.jobType in types)
    && (forall c, d | c in handled && d in queued && d !in handled :: c < d)
    && (forall c, d | c in claimed && d in queued && d !in handled && d !in claimed :: c < d)
  }

  class Dispatcher {
    const table: JobTable
    var queue: seq<QueuedJob>
    var handlers: map<string, Meta>
    var paused: bool

    ghost predicate Valid()
      reads this, table
    {
      table.Valid() && TwoLevels(table.rows)
    }

    constructor (table: JobTable)
      requires table.Valid() && TwoLevels(table.rows)
      ensures this.table == table && Valid() && queue == [] && handlers == map[] && !paused
    {
      this.table, queue, handlers, paused := table, [], map[], false;
    }

    method Register(jobType: string, meta: Meta)
      modifies this`handlers
      ensures handlers == old(handlers)[jobType := meta]
    {
      handlers := handlers[jobType := meta];
    }

    method Enqueue(spec: Spec) returns (id: int)
      requires Valid()
      modifies this`queue, table
      ensures Valid() && id == old(table.nextId) && table.nextId == id + 1
      ensures table.rows == Inserted(old(table.rows), id, spec, None)
      ensures id !in old(table.rows) && table.rows == old(table.rows)[id := Job(spec, Queued, None, 0)]
      ensures queue == old(queue) + [QueuedJob(id, spec.jobType)]
    {
      id := table.JobCreate(spec, None);
      queue := queue + [QueuedJob(id, spec.jobType)];
    }

    method SelectLive() returns (found: seq<QueuedJob>)
      requires Valid()
      ensures IsSelection(table.rows, found)
      ensures forall i, j | 0 <= i < j < |found| :: found[i].id < found[j].id
      ensures forall q | q in found ::
                && q.id in table.rows && q.jobType == table.rows[q.id].spec.jobType && table.rows[q.id].parent == None
                && (table.rows[q.id].status == Queued || table.rows[q.id].status == RunningSubJobs)
      ensures forall id | id in table.rows && table.rows[id].parent == None
                          && (table.rows[id].status == Queued || table.rows[id].status == RunningSubJobs) ::
                exists i | 0 <= i < |found| :: found[i].id == id
    {
      found := [];
      var left := set id | id in table.rows && Selected(table.rows, id);
      while left != {}
        invariant forall id | id in left :: Selected(table.rows, id)
        invariant forall id | Selected(table.rows, id) :: id in left || Queues(found, id)
        invariant forall i | 0 <= i < |found| ::
                    Selected(table.rows, found[i].id) && found[i].jobType == table.rows[found[i].id].spec.jobType
        invariant forall i, j | 0 <= i < j < |found| :: found[i].id < found[j].id
        invariant forall i, id | 0 <= i < |found| && id in left :: found[i].id < id
        decreases left
      {
        Sets.MinExists(left);
        var m :| m in left && forall x | x in left :: m <= x;
        var entry := QueuedJob(m, table.rows[m].spec.jobType);
        QueuesAppend(found, entry);
        found := found + [entry];
        left := left - {m};
      }
      SelectionMeaning(table.rows, found);
    }

    /** Adds every selected row that is not queued yet. */
    method LoadFromDB()
      requires Valid()
      modifies this`queue
      ensures exists found :: IsSelection(table.rows, found) && queue == Loaded(old(queue), found)
      ensures old(queue) <= queue
      ensures forall i | |old(queue)| <= i < |queue| ::
                && queue[i].id in table.rows && queue[i].jobType == table.rows[queue[i].id].spec.jobType
                && forall k | 0 <= k < |old(queue)| :: old(queue)[k].id != queue[i].id
      ensures forall i, j | |old(queue)| <= i < j < |queue| :: queue[i].id < queue[j].id
      ensures forall id | id in table.rows && table.rows[id].parent == None
                          && (table.rows[id].status == Queued || table.rows[id].status == RunningSubJobs) ::
                exists i | 0 <= i < |queue| :: queue[i].id == id
    {
      var rows := SelectLive();
      var existing := set i | 0 <= i < |queue| :: queue[i].id;
      for k := 0 to |rows|
        invariant queue == Loaded(old(queue), rows[..k])
      {
        assert rows[..k + 1][..k] == rows[..k];
        assert rows[k].id in existing <==> Queues(old(queue), rows[k].id);
        if rows[k].id !in existing {
          queue := queue + [rows[k]];
        }
      }
      assert rows[..|rows|] == rows;
      LoadedMeaning(table.rows, old(queue), rows, queue);
    }

    method PickNext() returns (job: Option<QueuedJob>)
      modifies this`queue
      ensures job == None <==> old(queue) == []
      ensures job == None ==> queue == old(queue)
      ensures job.Some? ==>
                exists i :: IsPick(old(queue), i) && job.value == old(queue)[i] && queue == RemoveAt(old(queue), i)
      ensures old(queue) != [] && (forall q | q in old(queue) :: q.jobType == "video_transcode") ==>
                job == Some(old(queue)[0]) && queue == old(queue)[1..]
      ensures forall i | 0 <= i < |old(queue)| && old(queue)[i].jobType != "video_transcode"
                         && forall k | 0 <= k < i :: old(queue)[k].jobType == "video_transcode" ::
                job == Some(old(queue)[i]) && queue == old(queue)[..i] + old(queue)[i + 1..]
    {
      if |queue| == 0 {
        return None;
      }
      for i := 0 to |queue|
        invariant queue == old(queue)
        invariant forall k | 0 <= k < i :: IsTranscode(queue[k])
      {
        if queue[i].jobType != TRANSCODE {
          var picked := queue[i];
          queue := queue[..i] + queue[i + 1..];
          PickMeaning(old(queue), i);
          return Some(picked);
        }
      }
      var first := queue[0];
      queue := queue[1..];
      PickMeaning(old(queue), 0);
      return Some(first);
    }

    method HasNonTranscodeJobs() returns (r: bool)
      ensures r <==> HasNonTranscode(queue)
      ensures r <==> exists q :: q in queue && q.jobType != "video_transcode"
    {
      for i := 0 to |queue|
        invariant forall k | 0 <= k < i :: IsTranscode(queue[k])
      {
        if queue[i].jobType != TRANSCODE {
          return true;
        }
      }
      return false;
    }

    /** Runs one claimed sub-job: its handler is invoked when its type has one. */
    method RunSubJob(id: int, succeeds: bool) returns (invoked: bool)
      requires Valid() && id in table.rows && table.rows[id].parent.Some?
      modifies table`rows
      ensures Valid() && invoked == (old(table.rows)[id].spec.jobType in handlers)
      ensures table.rows == WithStatus(old(table.rows), id, if invoked && succeeds then Done else Failed)
      ensures table.rows.Keys == old(table.rows).Keys
      ensures table.rows[id] == old(table.rows)[id].(status := if invoked && succeeds then Done else Failed)
    {
      invoked := table.rows[id].spec.jobType in handlers;
      if invoked && succeeds {
        assert forall r | r in table.rows :: table.rows[r].parent != Some(id);
        assert MarkedDone(table.rows, id) == WithStatus(table.rows, id, Done);
        table.JobMarkDone(id);
      } else {
        table.JobMark(id, Failed);
      }
    }

    /** Other goroutines enqueue jobs. */
    method Arrive(specs: seq<Spec>)
      requires Valid()
      modifies this`queue, table
      ensures Valid() && old(queue) <= queue && old(table.nextId) <= table.nextId
      ensures forall id | id in old(table.rows) :: id in table.rows && table.rows[id] == old(table.rows)[id]
      ensures forall id | id in table.rows && id !in old(table.rows) ::
                old(table.nextId) <= id && table.rows[id].parent == None && table.rows[id].status == Queued
      ensures specs == [] ==> queue == old(queue) && table.rows == old(table.rows) && table.nextId == old(table.nextId)
    {
      for i := 0 to |specs|
        invariant Valid() && old(queue) <= queue && old(table.nextId) <= table.nextId
        invariant forall id | id in old(table.rows) :: id in table.rows && table.rows[id] == old(table.rows)[id]
        invariant forall id | id in table.rows && id !in old(table.rows) ::
                    old(table.nextId) <= id && table.rows[id].parent == None && table.rows[id].status == Queued
        invariant i == 0 ==> queue == old(queue) && table.rows == old(table.rows) && table.nextId == old(table.nextId)
      {
        var _ := Enqueue(specs[i]);
      }
    }

    /** The first of the claimed sub-jobs. */
    method RunFirst(parentId: int, claimed: seq<int>, succeeds: set<int>, ran: seq<int>,
                    ghost rows: Rows, ghost next: int, ghost handled: set<int>)
        returns (ran': seq<int>)
      requires Valid() && claimed != []
      requires Progress(rows, next, parentId, handlers.Keys, table.rows, ran, handled, claimed)
      modifies table`rows
      ensures Valid() && table.rows.Keys == old(table.rows).Keys
      ensures Progress(rows, next, parentId, handlers.Keys, table.rows, ran', handled + {claimed[0]}, claimed[1..])
    {
      var c := claimed[0];
      assert c in claimed;
      ghost var before := table.rows;
      var invoked := RunSubJob(c, c in succeeds);
      ProgressStep(rows, next, parentId, handlers.Keys, before, ran, handled, claimed,
                   if invoked && c in succeeds then Done else Failed);
      ran' := if invoked then ran + [c] else ran;
    }

    /** Runs the claimed batch.  The sub-jobs are started in order; here each one also finishes
        before the next starts. */
    method RunBatch(parentId: int, batch: seq<int>, succeeds: set<int>, ran: seq<int>,
                    ghost rows: Rows, ghost next: int, ghost handled: set<int>)
        returns (ran': seq<int>)
      requires Valid() && Progress(rows, next, parentId, handlers.Keys, table.rows, ran, handled, batch)
      modifies table`rows
      ensures Valid()
      ensures Progress(rows, next, parentId, handlers.Keys, table.rows, ran', handled + Elements(batch), [])
      ensures table.rows.Keys == old(table.rows).Keys
    {
      ran' := ran;
      var left := batch;
      ghost var done := handled;
      while left != []
        invariant Valid() && table.rows.Keys == old(table.rows).Keys
        invariant done + Elements(left) == handled + Elements(batch)
        invariant Progress(rows, next, parentId, handlers.Keys, table.rows, ran', done, left)
        decreases |left|
      {
        ran' := RunFirst(parentId, left, succeeds, ran', rows, next, done);
        FirstElement(left);
        done, left := done + {left[0]}, left[1..];
      }
      assert Elements(left) == {};
    }

    /** The start of a pass: jobs arrive, then cancellation, yielding and a failing claim are
        looked for, in this order. */
    method StopsEarly(parentId: int, env: DrainEnv, pass: nat) returns (stop: Option<DrainResult>)
      requires Valid() && parentId in table.rows
      modifies this`queue, table
      ensures Valid() && old(table.nextId) <= table.nextId
      ensures forall id | id in old(table.rows) :: id in table.rows && table.rows[id] == old(table.rows)[id]
      ensures forall id | id in table.rows && id !in old(table.rows) ::
                old(table.nextId) <= id && table.rows[id].parent == None && table.rows[id].status == Queued
      ensures stop == Some(Yielded) ==> table.rows[parentId].spec.jobType == TRANSCODE && HasNonTranscode(queue)
      ensures QueueGrows(old(queue), parentId, stop == Some(Yielded), Quiet(env), queue)
      ensures Quiet(env) ==> table.rows == old(table.rows)
      ensures stop != Some(AllRun)
      ensures stop == Some(Cancelled) ==> env.cancelAt.Some?
      ensures stop == Some(ClaimFailed) ==> env.claimFailsAt.Some?
    {
      var arriving := if pass < |env.arrivals| then env.arrivals[pass] else [];
      assert pass < |env.arrivals| ==> env.arrivals[pass] in env.arrivals;
      Arrive(arriving);
      if env.cancelAt.Some? && env.cancelAt.value <= pass {
        return Some(Cancelled);
      }
      if table.rows[parentId].spec.jobType == TRANSCODE {
        var waiting := HasNonTranscodeJobs();
        if waiting {
          HasNonTranscodeAfter([QueuedJob(parentId, TRANSCODE)], queue);
          queue := [QueuedJob(parentId, TRANSCODE)] + queue;
          return Some(Yielded);
        }
      }
      if env.claimFailsAt == Some(pass) {
        return Some(ClaimFailed);
      }
      return None;
    }

    /** Claims a batch and runs it; an empty batch ends the loop. */
    method ClaimAndRun(parentId: int, succeeds: set<int>, ran: seq<int>, ghost rows: Rows, ghost next: int,
                       ghost handled: set<int>)
        returns (again: bool, ran': seq<int>, ghost handled': set<int>)
      requires Valid() && Progress(rows, next, parentId, handlers.Keys, table.rows, ran, handled, [])
      modifies table`rows
      ensures Valid() && Progress(rows, next, parentId, handlers.Keys, table.rows, ran', handled', [])
      ensures handled' <= QueuedChildren(rows, parentId) && table.rows.Keys == old(table.rows).Keys
      ensures if again then handled < handled' else handled' == QueuedChildren(rows, parentId)
    {
      ran', handled' := ran, handled;
      ProgressQueued(rows, next, parentId, handlers.Keys, table.rows, ran, handled);
      ghost var before := table.rows;
      var batch := table.JobClaimSubJobBatch(parentId, CLAIM_LIMIT);
      if |batch| == 0 {
        assert table.rows == before;
        assert forall c | c in QueuedChildren(rows, parentId) :: c !in QueuedChildren(rows, parentId) - handled;
        return false, ran, handled;
      }
      ProgressClaim(rows, next, parentId, handlers.Keys, before, ran, handled, CLAIM_LIMIT, batch);
      ran' := RunBatch(parentId, batch, succeeds, ran, rows, next, handled);
      assert batch[0] in batch;
      handled' := handled + Elements(batch);
      ProgressQueued(rows, next, parentId, handlers.Keys, table.rows, ran', handled');
      again := true;
    }

    /** The claim loop: runs the queued sub-jobs of the parent in batches until none is left,
        the context is cancelled, a claim fails, or a transcode has to yield. */
    method RunPasses(parentId: int, env: DrainEnv) returns (result: DrainResult, ran: seq<int>, ghost handled: set<int>)
      requires Valid() && parentId in table.rows
      modifies this`queue, table
      ensures Valid() && parentId in table.rows
      ensures Progress(old(table.rows), old(table.nextId), parentId, handlers.Keys, table.rows, ran, handled, [])
      ensures result == AllRun ==> handled == QueuedChildren(old(table.rows), parentId)
      ensures QueueGrows(old(queue), parentId, result == Yielded, Quiet(env), queue)
      ensures Quiet(env) ==> table.rows.Keys == old(table.rows).Keys
      ensures result == Yielded ==> old(table.rows)[parentId].spec.jobType == TRANSCODE && HasNonTranscode(queue)
      ensures result == Cancelled ==> env.cancelAt.Some?
      ensures result == ClaimFailed ==> env.claimFailsAt.Some?
    {
      result, ran, handled := AllRun, [], {};
      ghost var rows, next := table.rows, table.nextId;
      var pass, again := 0, true;
      while again
        invariant Valid() && parentId in table.rows && 0 <= pass && next <= table.nextId
        invariant Progress(rows, next, parentId, handlers.Keys, table.rows, ran, handled, [])
        invariant again ==> result == AllRun
        invariant !again && result == AllRun ==> handled == QueuedChildren(rows, parentId)
        invariant QueueGrows(old(queue), parentId, result == Yielded, Quiet(env), queue)
        invariant Quiet(env) ==> table.rows.Keys == rows.Keys
        invariant result == Yielded ==> rows[parentId].spec.jobType == TRANSCODE && HasNonTranscode(queue)
        invariant result == Cancelled ==> env.cancelAt.Some?
        invariant result == ClaimFailed ==> env.claimFailsAt.Some?
        decreases again, QueuedChildren(rows, parentId) - handled
      {
        ghost var before, queued, prior := table.rows, queue, handled;
        var stop := StopsEarly(parentId, env, pass);
        ProgressWithArrivals(rows, next, parentId, handlers.Keys, before, ran, handled, table.rows);
        QueueGrowsTwice(old(queue), parentId, queued, stop == Some(Yielded), Quiet(env), queue);
        if stop.Some? {
          result, again := stop.value, false;
        } else {
          again, ran, handled := ClaimAndRun(parentId, env.succeeds, ran, rows, next, handled);
          assert again ==> QueuedChildren(rows, parentId) - handled < QueuedChildren(rows, parentId) - prior;
        }
        pass := pass + 1;
      }
    }

    method ExecuteSubJobs(parentId: int, env: DrainEnv) returns (result: DrainResult, ran: seq<int>)
      requires Valid() && parentId in table.rows && table.rows[parentId].parent == None
      modifies this`queue, table
      ensures Valid()
      ensures DrainOutcome(old(table.rows), old(table.nextId), parentId, handlers.Keys, result, table.rows, ran)
      ensures result == Yielded ==>
                old(table.rows)[parentId].spec.jobType == TRANSCODE && HasNonTranscode(queue)
      ensures QueueGrows(old(queue), parentId, result == Yielded, Quiet(env), queue)
      ensures Quiet(env) ==> table.rows.Keys <= old(table.rows).Keys && result != Cancelled
      ensures parentId in table.rows && table.rows[parentId]
              == if result == AllRun || result == ClaimFailed then old(table.rows)[parentId].(status := Done)
                 else old(table.rows)[parentId]
      ensures result == AllRun || result == ClaimFailed ==>
                forall r | r in table.rows :: table.rows[r].parent != Some(parentId)
      ensures result == Yielded ==>
                && queue != [] && queue[0] == QueuedJob(parentId, "video_transcode")
                && exists q :: q in queue && q.jobType != "video_transcode"
      ensures result == Cancelled ==> env.cancelAt.Some?
      ensures result == ClaimFailed ==> env.claimFailsAt.Some?
    {
      ghost var rows, next := table.rows, table.nextId;
      ghost var handled;
      result, ran, handled := RunPasses(parentId, env);
      OutcomeOfPasses(rows, next, parentId, handlers.Keys, result, table.rows, ran, handled);
      if result == AllRun || result == ClaimFailed {
        table.JobMarkDone(parentId);
      }
    }

    /** Picks one job and works on it as far as it goes. */
    method ProcessNext(env: Env) returns (invoked: bool, ran: seq<int>)
      requires Valid() && NoTopLevelRunning(table.rows) && QueueMatches(queue, table.rows)
      modifies this`queue, table
      ensures Valid() && NoTopLevelRunning(table.rows)
      ensures paused || old(queue) == [] ==> queue == old(queue) && table.rows == old(table.rows) && !invoked
      ensures !paused && old(queue) != [] && Quiet(env.drain) ==>
                ProcessStep(handlers.Keys, old(queue), old(table.rows), queue, table.rows)
      ensures !paused && old(queue) != [] ==>
                exists i :: IsPick(old(queue), i)
                            && QueueOnlyGrows(RemoveAt(old(queue), i), old(queue)[i].id, queue)
                            && Result(handlers, old(table.rows), old(table.nextId), old(queue)[i].id, env, table.rows,
                                      invoked, ran)
    {
      invoked, ran := false, [];
      if paused {
        return;
      }
      ghost var queue0, rows0 := queue, table.rows;
      var picked := PickNext();
      if picked == None {
        return;
      }
      ghost var i :| IsPick(queue0, i) && picked.value == queue0[i] && queue == RemoveAt(queue0, i);
      var id := picked.value.id;
      if id in table.rows {
        invoked, ran := WorkOn(id, env, queue0, i);
      }
      assert Result(handlers, rows0, old(table.nextId), queue0[i].id, env, table.rows, invoked, ran);
    }

    /** The part of processNext after the job row has been fetched. */
    method WorkOn(id: int, env: Env, ghost queue0: seq<QueuedJob>, ghost i: int) returns (invoked: bool, ran: seq<int>)
      requires Valid() && NoTopLevelRunning(table.rows) && id in table.rows && table.rows[id].parent == None
      requires IsPick(queue0, i) && queue == RemoveAt(queue0, i)
      requires queue0[i] == QueuedJob(id, table.rows[id].spec.jobType)
      modifies this`queue, table
      ensures Valid() && NoTopLevelRunning(table.rows)
      ensures Quiet(env.drain) ==> queue == old(queue) && WorkedOn(handlers.Keys, old(table.rows), id, table.rows)
      ensures QueueOnlyGrows(old(queue), id, queue)
      ensures Result(handlers, old(table.rows), old(table.nextId), id, env, table.rows, invoked, ran)
      ensures var row, handled := old(table.rows)[id], old(table.rows)[id].spec.jobType in handlers;
              && (invoked <==> row.status == Queued && handled && env.exiftoolStarts)
              && (row.status != Queued && !(row.status == RunningSubJobs && handled) ==>
                    table.rows == old(table.rows) && queue == old(queue))
              && (row.status == Queued && (!invoked || env.handler.HandlerFails?) ==>
                    table.rows == old(table.rows)[id := row.(status := Failed)] && queue == old(queue))
              && (invoked && !handlers[row.spec.jobType].supportsSubjobs ==> ran == [])
    {
      invoked, ran := false, [];
      var jobType, status := table.rows[id].spec.jobType, table.rows[id].status;
      if status == RunningSubJobs {
        if jobType in handlers {
          ran := Drain(id, env.drain, queue0, i);
        }
        return;
      }
      if status != Queued {
        return;
      }
      invoked, ran := RunQueued(id, env, queue0, i);
    }

    /** From a queued row on: no handler for its type, exiftool not starting, or its handler. */
    method RunQueued(id: int, env: Env, ghost queue0: seq<QueuedJob>, ghost i: int)
        returns (invoked: bool, ran: seq<int>)
      requires Valid() && NoTopLevelRunning(table.rows) && id in table.rows && table.rows[id].parent == None
      requires table.rows[id].status == Queued && IsPick(queue0, i) && queue == RemoveAt(queue0, i)
      requires queue0[i] == QueuedJob(id, table.rows[id].spec.jobType)
      modifies this`queue, table
      ensures Valid() && NoTopLevelRunning(table.rows)
      ensures Quiet(env.drain) ==> queue == old(queue) && TopLevelFinished(old(table.rows), id, table.rows)
      ensures QueueOnlyGrows(old(queue), id, queue)
      ensures Result(handlers, old(table.rows), old(table.nextId), id, env, table.rows, invoked, ran)
      ensures invoked <==> old(table.rows)[id].spec.jobType in handlers && env.exiftoolStarts
      ensures !invoked || env.handler.HandlerFails? ==>
                table.rows == old(table.rows)[id := old(table.rows)[id].(status := Failed)] && queue == old(queue)
      ensures invoked && !handlers[old(table.rows)[id].spec.jobType].supportsSubjobs ==> ran == []
    {
      invoked, ran := false, [];
      ghost var rows := table.rows;
      if table.rows[id].spec.jobType !in handlers {
        MarkFailed(id, rows);
        return;
      }
      table.JobMark(id, Running);
      if !env.exiftoolStarts {
        MarkFailed(id, rows);
        return;
      }
      invoked := true;
      if env.handler.HandlerFails? {
        MarkFailed(id, rows);
        return;
      }
      ran := FlushAndDrain(id, env, queue0, i);
    }

    /** rows is the table from before the row was marked running. */
    method MarkFailed(id: int, ghost rows: Rows)
      requires Valid() && NoTopLevelRunning(rows) && TwoLevels(rows) && id in rows && rows[id].parent == None
      requires table.rows == rows || table.rows == WithStatus(rows, id, Running)
      modifies table`rows
      ensures Valid() && NoTopLevelRunning(table.rows)
      ensures table.rows == rows[id := rows[id].(status := Failed)] && TopLevelFinished(rows, id, table.rows)
    {
      table.JobMark(id, Failed);
    }

    /** The handler has returned without an error: its sub-jobs are written, then run. */
    method FlushAndDrain(id: int, env: Env, ghost queue0: seq<QueuedJob>, ghost i: int) returns (ran: seq<int>)
      requires Valid() && id in table.rows && table.rows[id].parent == None && env.handler.HandlerReturns?
      requires forall r | r in table.rows && table.rows[r].parent == None && r != id :: table.rows[r].status != Running
      requires IsPick(queue0, i) && queue == RemoveAt(queue0, i)
      requires queue0[i] == QueuedJob(id, table.rows[id].spec.jobType) && queue0[i].jobType in handlers
      modifies this`queue, table
      ensures QueueOnlyGrows(old(queue), id, queue)
      ensures Valid() && NoTopLevelRunning(table.rows) && Increasing(ran)
      ensures Quiet(env.drain) ==>
                queue == old(queue) && TopLevelFinished(old(table.rows), id, table.rows)
                  && table.rows[id].status == Done
      ensures Calm(env) && handlers[queue0[i].jobType].supportsSubjobs ==>
                AllBufferedRan(handlers.Keys, old(table.nextId), env.handler.buffered, ran)
      ensures !handlers[queue0[i].jobType].supportsSubjobs ==> ran == [] && queue == old(queue)
    {
      ghost var next := table.nextId;
      var count := Flush(id, env.handler.buffered, env.failingBatches);
      if count > 0 && handlers[table.rows[id].spec.jobType].supportsSubjobs {
        assert forall k | next <= k < next + count :: InBlock(k, next, count);
        ran := StartDraining(id, env.drain, queue0, i);
      } else {
        ran := [];
        table.JobMarkDone(id);
      }
    }

    method StartDraining(id: int, env: DrainEnv, ghost queue0: seq<QueuedJob>, ghost i: int) returns (ran: seq<int>)
      requires Valid() && id in table.rows && table.rows[id].parent == None
      requires forall r | r in table.rows && table.rows[r].parent == None && r != id :: table.rows[r].status != Running
      requires IsPick(queue0, i) && queue == RemoveAt(queue0, i)
      requires queue0[i] == QueuedJob(id, table.rows[id].spec.jobType)
      modifies this`queue, table
      ensures Valid() && NoTopLevelRunning(table.rows) && Increasing(ran)
      ensures QueueOnlyGrows(old(queue), id, queue)
      ensures Quiet(env) ==>
                queue == old(queue) && TopLevelFinished(old(table.rows), id, table.rows)
                  && table.rows[id].status == Done
      ensures Quiet(env) && env.claimFailsAt == None ==> forall c | c in QueuedChildren(old(table.rows), id) ::
                c in ran <==> old(table.rows)[c].spec.jobType in handlers
    {
      ghost var rows := table.rows;
      table.JobMark(id, RunningSubJobs);
      assert QueuedChildren(rows, id) - {id} <= QueuedChildren(table.rows, id);
      ran := Drain(id, env, queue0, i);
    }

    /** Writes what the handler buffered; count is the number of rows added. */
    method Flush(id: int, buffered: seq<Spec>, failing: set<int>) returns (count: nat)
      requires Valid() && id in table.rows && table.rows[id].parent == None
      modifies table
      ensures Valid() && id in table.rows && table.nextId == old(table.nextId) + count
      ensures forall r | r in old(table.rows) && r != id :: r in table.rows && table.rows[r] == old(table.rows)[r]
      ensures forall r | r in table.rows && r !in old(table.rows) :: table.rows[r].parent == Some(id)
      ensures table.rows[id] == old(table.rows)[id].(subjobsEnqueued := old(table.rows)[id].subjobsEnqueued + count)
      ensures count == |Delivered(buffered, failing, 0)|
      ensures forall r | InBlock(r, old(table.nextId), count) ::
                r in table.rows && table.rows[r] == Job(Delivered(buffered, failing, 0)[r - old(table.nextId)], Queued,
                                                        Some(id), 0)
      ensures failing == {} ==> Delivered(buffered, failing, 0) == buffered
    {
      AllDelivered(buffered, failing, 0);
      var jc := new JobContext(table, id);
      jc.subJobBuf := buffered;
      InsertedChildrenMeaning(table.rows, table.nextId, id, Delivered(buffered, failing, 0));
      count := jc.FlushSubJobs(failing);
    }

    /** The claim loop as processNext reaches it. */
    method Drain(id: int, env: DrainEnv, ghost queue0: seq<QueuedJob>, ghost i: int) returns (ran: seq<int>)
      requires Valid() && id in table.rows && table.rows[id].parent == None && table.rows[id].status == RunningSubJobs
      requires NoTopLevelRunning(table.rows)
      requires IsPick(queue0, i) && queue == RemoveAt(queue0, i)
      requires queue0[i] == QueuedJob(id, table.rows[id].spec.jobType)
      modifies this`queue, table
      ensures QueueOnlyGrows(old(queue), id, queue)
      ensures Valid() && NoTopLevelRunning(table.rows) && Increasing(ran)
      ensures Quiet(env) ==>
                queue == old(queue) && TopLevelFinished(old(table.rows), id, table.rows)
                  && table.rows[id].status == Done
      ensures Quiet(env) && env.claimFailsAt == None ==> forall c | c in QueuedChildren(old(table.rows), id) ::
                c in ran <==> old(table.rows)[c].spec.jobType in handlers
    {
      ghost var rows, next := table.rows, table.nextId;
      var result;
      result, ran := ExecuteSubJobs(id, env);
      OutcomeKeepsTopLevel(rows, next, id, handlers.Keys, result, table.rows, ran);
      if IsTranscode(queue0[i]) {
        NoneLeftAfterTranscode(queue0, i, id);
      }
    }
  }

  // ---- reloading ----

  lemma PickMeaning(queue: seq<QueuedJob>, i: int)
    requires IsPick(queue, i)
    ensures (forall q | q in queue :: q.jobType == "video_transcode") ==> i == 0 && RemoveAt(queue, i) == queue[1..]
    ensures forall k | 0 <= k < |queue| && queue[k].jobType != "video_transcode"
                       && forall j | 0 <= j < k :: queue[j].jobType == "video_transcode" ::
              k == i && RemoveAt(queue, i) == queue[..k] + queue[k + 1..]
  {
    assert queue[i] in queue;
  }

  lemma SelectionMeaning(rows: Rows, found: seq<QueuedJob>)
    requires IsSelection(rows, found)
    ensures forall q | q in found ::
              && q.id in rows && q.jobType == rows[q.id].spec.jobType && rows[q.id].parent == None
              && (rows[q.id].status == Queued || rows[q.id].status == RunningSubJobs)
    ensures forall id | id in rows && rows[id].parent == None
                        && (rows[id].status == Queued || rows[id].status == RunningSubJobs) ::
              exists i | 0 <= i < |found| :: found[i].id == id
  {
    forall id | id in rows && rows[id].parent == None
      && (rows[id].status == Queued || rows[id].status == RunningSubJobs)
      ensures exists i | 0 <= i < |found| :: found[i].id == id
    {
      assert Selected(rows, id) && Queues(found, id);
    }
  }

  /** After loadFromDB every selected row is queued; what was queued before stays in front, and
      each added id is new and added once. */
  lemma LoadedMeaning(rows: Rows, queue: seq<QueuedJob>, found: seq<QueuedJob>, all: seq<QueuedJob>)
    requires IsSelection(rows, found) && all == Loaded(queue, found)
    ensures forall id | id in rows && rows[id].parent == None
                        && (rows[id].status == Queued || rows[id].status == RunningSubJobs) ::
              exists i | 0 <= i < |all| :: all[i].id == id
    ensures queue <= all
    ensures forall i | |queue| <= i < |all| ::
              && all[i].id in rows && all[i].jobType == rows[all[i].id].spec.jobType && rows[all[i].id].parent == None
              && (rows[all[i].id].status == Queued || rows[all[i].id].status == RunningSubJobs)
              && forall k | 0 <= k < |queue| :: queue[k].id != all[i].id
    ensures forall i, j | |queue| <= i < j < |all| :: all[i].id < all[j].id
  {
    AbsentMeaning(queue, found);
    AddedEntries(rows, queue, found, Absent(queue, found), all);
    forall id | id in rows && rows[id].parent == None
      && (rows[id].status == Queued || rows[id].status == RunningSubJobs)
      ensures exists i | 0 <= i < |all| :: all[i].id == id
    {
      assert Selected(rows, id);
      SelectedIsQueued(rows, queue, found, Absent(queue, found), all, id);
    }
  }

  lemma AddedEntries(rows: Rows, queue: seq<QueuedJob>, found: seq<QueuedJob>, absent: seq<QueuedJob>,
                     all: seq<QueuedJob>)
    requires IsSelection(rows, found) && AreAbsent(queue, found, absent) && all == queue + absent
    ensures forall i | |queue| <= i < |all| ::
              && Selected(rows, all[i].id) && all[i].jobType == rows[all[i].id].spec.jobType
              && forall k | 0 <= k < |queue| :: queue[k].id != all[i].id
    ensures forall i, j | |queue| <= i < j < |all| :: all[i].id < all[j].id
  {
    forall i | |queue| <= i < |all|
      ensures Selected(rows, all[i].id) && all[i].jobType == rows[all[i].id].spec.jobType && !Queues(queue, all[i].id)
    {
      assert all[i] == absent[i - |queue|];
    }
  }

  lemma SelectedIsQueued(rows: Rows, queue: seq<QueuedJob>, found: seq<QueuedJob>, absent: seq<QueuedJob>,
                         all: seq<QueuedJob>, id: int)
    requires IsSelection(rows, found) && AreAbsent(queue, found, absent) && all == queue + absent && Selected(rows, id)
    ensures exists i | 0 <= i < |all| :: all[i].id == id
  {
    if k :| 0 <= k < |queue| && queue[k].id == id {
      assert all[k].id == id;
    } else {
      assert !Queues(queue, id) && Queues(found, id);
      var j :| 0 <= j < |found| && found[j].id == id;
      var k :| 0 <= k < |absent| && absent[k] == found[j];
      assert all[|queue| + k].id == id;
    }
  }

  /** absent are the entries of found whose ids are not queued, in order. */
  ghost predicate AreAbsent(queue: seq<QueuedJob>, found: seq<QueuedJob>, absent: seq<QueuedJob>) {
    && (forall k | 0 <= k < |absent| :: absent[k] in found && !Queues(queue, absent[k].id))
    && (forall i, j | 0 <= i < j < |absent| :: absent[i].id < absent[j].id)
    && (forall j | 0 <= j < |found| && !Queues(queue, found[j].id) :: found[j] in absent)
  }

  lemma {:induction false} AbsentMeaning(queue: seq<QueuedJob>, found: seq<QueuedJob>)
    requires forall i, j | 0 <= i < j < |found| :: found[i].id < found[j].id
    ensures AreAbsent(queue, found, Absent(queue, found))
  {
    if found == [] {
    } else {
      var rest, last := found[..|found| - 1], found[|found| - 1];
      AbsentMeaning(queue, rest);
      AbsentStep(queue, found, rest, last, Absent(queue, rest));
    }
  }

  lemma AbsentStep(queue: seq<QueuedJob>, found: seq<QueuedJob>, rest: seq<QueuedJob>, last: QueuedJob,
                   before: seq<QueuedJob>)
    requires found == rest + [last] && AreAbsent(queue, rest, before)
    requires forall i, j | 0 <= i < j < |found| :: found[i].id < found[j].id
    ensures AreAbsent(queue, found, if Queues(queue, last.id) then before else before + [last])
  {
    assert found[|rest|] == last;
    forall k | 0 <= k < |before|
      ensures before[k] in found && before[k].id < last.id
    {
      var i :| 0 <= i < |rest| && rest[i] == before[k];
      assert found[i] == before[k];
    }
    forall j | 0 <= j < |found| - 1 && !Queues(queue, found[j].id)
      ensures found[j] in before
    {
      assert rest[j] == found[j];
    }
  }

  lemma OutcomeOfPasses(rows: Rows, next: int, parent: int, types: set<string>, result: DrainResult,
                        rows': Rows, ran: seq<int>, handled: set<int>)
    requires parent in rows && rows[parent].parent == None && TwoLevels(rows')
    requires Progress(rows, next, parent, types, rows', ran, handled, [])
    requires result == AllRun ==> handled == QueuedChildren(rows, parent)
    ensures var finished := result == AllRun || result == ClaimFailed;
            var after := if finished then MarkedDone(rows', parent) else rows';
            DrainOutcome(rows, next, parent, types, result, after, ran) && TwoLevels(after)
  {
  }

  lemma QueueGrowsTwice(queue: seq<QueuedJob>, parent: int, queue': seq<QueuedJob>, yielded: bool, quiet: bool,
                        queue'': seq<QueuedJob>)
    requires QueueGrows(queue, parent, false, quiet, queue') && QueueGrows(queue', parent, yielded, quiet, queue'')
    ensures QueueGrows(queue, parent, yielded, quiet, queue'')
  {
  }

  lemma OutcomeKeepsTopLevel(rows: Rows, next: int, parent: int, types: set<string>, result: DrainResult,
                             rows': Rows, ran: seq<int>)
    requires parent in rows && rows[parent].parent == None
    requires DrainOutcome(rows, next, parent, types, result, rows', ran)
    ensures forall r | r in rows && rows[r].parent == None && r != parent :: r in rows' && rows'[r] == rows[r]
    ensures parent in rows' && rows'[parent].parent == None && rows'[parent].spec == rows[parent].spec
    ensures rows'[parent].status == if result == AllRun || result == ClaimFailed then Done else rows[parent].status
    ensures forall r | r in rows' && rows'[r].parent == None && r !in rows :: rows'[r].status == Queued
    ensures forall r | r in rows && r in rows' :: rows'[r].parent == rows[r].parent
  {
  }

  lemma NoneLeftAfterTranscode(queue: seq<QueuedJob>, i: int, id: int)
    requires IsPick(queue, i) && IsTranscode(queue[i])
    ensures !HasNonTranscode([QueuedJob(id, TRANSCODE)] + RemoveAt(queue, i))
  {
  }

  // ---- one call of processNext ----

  /** Nothing arrives, nobody cancels. */
  ghost predicate Quiet(env: DrainEnv) {
    env.cancelAt == None && forall specs | specs in env.arrivals :: specs == []
  }

  ghost predicate NoTopLevelRunning(rows: Rows) {
    forall id | id in rows && rows[id].parent == None :: rows[id].status != Running
  }

  /** Queue entries name top-level rows and repeat their type. */
  ghost predicate QueueMatches(queue: seq<QueuedJob>, rows: Rows) {
    forall i | 0 <= i < |queue| && queue[i].id in rows ::
      rows[queue[i].id].parent == None && rows[queue[i].id].spec.jobType == queue[i].jobType
  }

  /** Nothing arrives, nobody cancels, and every statement succeeds. */
  ghost predicate Calm(env: Env) {
    Quiet(env.drain) && env.drain.claimFailsAt == None && env.failingBatches == {}
  }

  /** The sub-jobs written for buffered, which got the ids from next on, have run: each exactly
      once (ran has no repeats), save those whose type has no handler. */
  ghost predicate AllBufferedRan(types: set<string>, next: int, buffered: seq<Spec>, ran: seq<int>) {
    forall c | InBlock(c, next, |buffered|) :: c in ran <==> buffered[c - next].jobType in types
  }

  /** How a call ends for the row it took: the handler is invoked exactly on a queued row whose
      type has one; the row ends as the handler does; in calm weather its buffer has been run. */
  ghost predicate Result(handlers: map<string, Meta>, rows: Rows, next: int, id: int, env: Env,
                         rows': Rows, invoked: bool, ran: seq<int>)
  {
    && (invoked <==> id in rows && rows[id].status == Queued && rows[id].spec.jobType in handlers && env.exiftoolStarts)
    && (id in rows && rows[id].status == Queued && (!invoked || env.handler.HandlerFails?) ==>
          rows' == WithStatus(rows, id, Failed) && ran == [])
    && (invoked && env.handler.HandlerReturns? && Quiet(env.drain) ==> id in rows' && rows'[id].status == Done)
    && (id in rows && rows[id].status == RunningSubJobs && rows[id].spec.jobType in handlers && Quiet(env.drain) ==>
          id in rows' && rows'[id].status == Done)
    && (invoked && env.handler.HandlerReturns? && Calm(env) && handlers[rows[id].spec.jobType].supportsSubjobs ==>
          AllBufferedRan(handlers.Keys, next, env.handler.buffered, ran))
    && (id in rows && rows[id].status == RunningSubJobs && rows[id].spec.jobType in handlers && Calm(env) ==>
          forall c | c in QueuedChildren(rows, id) :: c in ran <==> rows[c].spec.jobType in handlers)
    && Increasing(ran)
  }

  /** Row id has been brought to an end and no other top-level row changed. */
  ghost predicate TopLevelFinished(rows: Rows, id: int, rows': Rows)
    requires id in rows
  {
    && (forall r | r in rows && rows[r].parent == None && r != id :: r in rows' && rows'[r] == rows[r])
    && (forall r | r in rows' && rows'[r].parent == None :: r in rows && rows[r].parent == None)
    && id in rows' && rows'[id].parent == None && rows'[id].spec == rows[id].spec && Terminal(rows'[id].status)
  }

  /** A row that can be worked on and whose type has a handler ends done or failed; a row that is
      not queued or resumable stays as it is. */
  ghost predicate WorkedOn(types: set<string>, rows: Rows, id: int, rows': Rows) {
    && (id in rows && rows[id].parent == None && rows'!= rows
        ==> TopLevelFinished(rows, id, rows') && Live(rows[id].status))
    && (id in rows && Selected(rows, id) && rows[id].spec.jobType in types ==> TopLevelFinished(rows, id, rows'))
    && (id !in rows ==> rows' == rows)
  }

  /** A call of processNext while nothing arrives. */
  ghost predicate ProcessStep(types: set<string>, queue: seq<QueuedJob>, rows: Rows, queue': seq<QueuedJob>,
                              rows': Rows) {
    exists i :: IsPick(queue, i) && queue' == RemoveAt(queue, i) && WorkedOn(types, rows, queue[i].id, rows')
  }

  /** Every sub-job handler runs at most once, only for sub-jobs that were queued, and exactly
      once for each of them before the parent becomes done, unless a claim failed.  A parent
      left unfinished can be resumed: its sub-jobs are finished or still queued. */
  ghost predicate DrainOutcome(rows: Rows, next: int, parent: int, types: set<string>, result: DrainResult,
                               rows': Rows, ran: seq<int>)
    requires parent in rows
  {
    var queued := QueuedChildren(rows, parent);
    && Increasing(ran)
    && (forall c | c in ran :: c in queued && rows[c].spec.jobType in types)
    && (result == AllRun ==> forall c | c in queued :: c in ran <==> rows[c].spec.jobType in types)
    && (result == AllRun || result == ClaimFailed ==> ParentFinished(rows, next, parent, rows'))
    && (result == Yielded || result == Cancelled ==>
          exists handled :: Progress(rows, next, parent, types, rows', ran, handled, []))
  }

  /** The parent is done and its sub-jobs are deleted; other rows are as before, apart from newly
      queued top-level ones. */
  ghost predicate ParentFinished(rows: Rows, next: int, parent: int, rows': Rows)
    requires parent in rows
  {
    && parent in rows' && rows'[parent] == rows[parent].(status := Done)
    && Children(rows', parent) == {}
    && (forall id | id in rows && rows[id].parent == Some(parent) :: id !in rows')
    && (forall id | id in rows && id != parent && rows[id].parent != Some(parent) ::
            id in rows' && rows'[id] == rows[id])
    && (forall id | id in rows' && id !in rows :: next <= id && rows'[id].parent == None && rows'[id].status == Queued)
  }

  lemma ProgressQueued(rows: Rows, next: int, parent: int, types: set<string>, rows': Rows, ran: seq<int>,
                       handled: set<int>)
    requires Progress(rows, next, parent, types, rows', ran, handled, [])
    ensures QueuedChildren(rows', parent) == QueuedChildren(rows, parent) - handled
    ensures handled <= QueuedChildren(rows, parent)
  {
    forall c | c in handled
      ensures c in QueuedChildren(rows, parent)
    {
    }
    forall c
      ensures c in QueuedChildren(rows', parent) <==> c in QueuedChildren(rows, parent) - handled
    {
      if c in rows && rows[c].parent == Some(parent) {
        assert c in Children(rows, parent);
      }
    }
  }

  lemma ProgressClaim(rows: Rows, next: int, parent: int, types: set<string>, rows': Rows, ran: seq<int>,
                      handled: set<int>, limit: nat, batch: seq<int>)
    requires Progress(rows, next, parent, types, rows', ran, handled, []) && IsClaim(rows', parent, limit, batch)
    ensures Progress(rows, next, parent, types, Claimed(rows', batch), ran, handled, batch)
  {
  }

  lemma ProgressWithArrivals(rows: Rows, next: int, parent: int, types: set<string>, rows': Rows, ran: seq<int>,
                             handled: set<int>, rows'': Rows)
    requires Progress(rows, next, parent, types, rows', ran, handled, [])
    requires forall id | id in rows' :: id in rows'' && rows''[id] == rows'[id]
    requires forall id | id in rows'' && id !in rows' ::
               next <= id && rows''[id].parent == None && rows''[id].status == Queued
    ensures Progress(rows, next, parent, types, rows'', ran, handled, [])
  {
  }

  /** Other goroutines append; a transcode that yields goes back to the front. */
  ghost predicate QueueGrows(queue: seq<QueuedJob>, parent: int, yielded: bool, quiet: bool, queue': seq<QueuedJob>) {
    var kept := (if yielded then [QueuedJob(parent, TRANSCODE)] else []) + queue;
    kept <= queue' && (quiet ==> queue' == kept)
  }

  /** The queue is kept in order, behind the parent if that has yielded, and jobs are appended. */
  ghost predicate QueueOnlyGrows(queue: seq<QueuedJob>, parent: int, queue': seq<QueuedJob>) {
    QueueGrows(queue, parent, true, false, queue') || QueueGrows(queue, parent, false, false, queue')
  }

  lemma HasNonTranscodeAfter(front: seq<QueuedJob>, queue: seq<QueuedJob>)
    requires HasNonTranscode(queue)
    ensures HasNonTranscode(front + queue)
  {
    var i :| 0 <= i < |queue| && !IsTranscode(queue[i]);
    assert (front + queue)[|front| + i] == queue[i];
  }

  lemma FirstElement(s: seq<int>)
    requires s != []
    ensures Elements(s) == {s[0]} + Elements(s[1..])
  {
    assert s == [s[0]] + s[1..];
  }

  lemma FirstOfIncreasing(s: seq<int>)
    requires Increasing(s) && s != []
    ensures Increasing(s[1..])
    ensures forall d :: d in s[1..] <==> d in s && d != s[0]
    ensures forall d | d in s[1..] :: s[0] < d
  {
  }

  lemma LastOfIncreasing(s: seq<int>, c: int)
    requires Increasing(s) && forall d | d in s :: d < c
    ensures Increasing(s + [c])
  {
    assert forall k | 0 <= k < |s| :: s[k] in s;
  }

  lemma ProgressStep(rows: Rows, next: int, parent: int, types: set<string>, rows': Rows,
                     ran: seq<int>, handled: set<int>, claimed: seq<int>, status: Status)
    requires Progress(rows, next, parent, types, rows', ran, handled, claimed)
    requires claimed != [] && claimed[0] in rows && Terminal(status)
    ensures var c := claimed[0];
            Progress(rows, next, parent, types, WithStatus(rows', c, status),
                     if rows[c].spec.jobType in types then ran + [c] else ran, handled + {c}, claimed[1..])
  {
    assert claimed[0] in claimed;
    FirstOfIncreasing(claimed);
    if rows[claimed[0]].spec.jobType in types {
      LastOfIncreasing(ran, claimed[0]);
    }
  }

  lemma QueuesAppend(found: seq<QueuedJob>, entry: QueuedJob)
    ensures forall id :: Queues(found + [entry], id) <==> Queues(found, id) || id == entry.id
  {
    var all := found + [entry];
    forall id
      ensures Queues(all, id) <==> Queues(found, id) || id == entry.id
    {
      if i :| 0 <= i < |found| && found[i].id == id {
        assert all[i].id == id;
      }
      if id == entry.id {
        assert all[|found|].id == id;
      }
    }
  }
}
