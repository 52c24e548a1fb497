/** What every step of the dispatcher keeps, in three layers: the machine itself, the counts of
    handler invocations, and the books on sub-jobs. */
module DispatcherInvariant {
  import opened Dispatchers
  import opened DispatcherRuns
  import opened JobTables
  import opened Options

  // ---- the machine ----

  /** Each row's parent is a top-level row. */
  ghost predicate TableInv(rows: Rows, next: int) {
    && (forall id | id in rows :: id < next)
    && (forall id | id in rows && rows[id].parent.Some? ::
          && rows[id].parent.value in rows && rows[rows[id].parent.value].parent == None
          && rows[id].status != RunningSubJobs)
  }

  ghost predicate Entry(rows: Rows, q: QueuedJob) {
    q.id in rows && rows[q.id].parent == None && rows[q.id].spec.jobType == q.jobType
  }

  ghost predicate QueueInv(rows: Rows, queue: seq<QueuedJob>, unappended: set<QueuedJob>, p: Phase) {
    && (forall i | 0 <= i < |queue| :: Entry(rows, queue[i]))
    && (forall q | q in unappended :: Entry(rows, q))
    && (p.Loading? ==> forall i | 0 <= i < |p.found| :: Entry(rows, p.found[i]))
    && (p.Picked? ==> Entry(rows, p.job))
  }

  ghost predicate WorksOn(p: Phase, id: int) {
    (p.Starting? || p.Handling? || p.Flushing?) && p.id == id
  }

  /** The row the run loop works on, and the status it then has. */
  ghost predicate PhaseInv(rows: Rows, handlers: map<string, Meta>, p: Phase) {
    p.Starting? || p.Handling? || p.Flushing? || p.Draining? || p.Batch? ==>
      && p.id in rows && rows[p.id].parent == None && rows[p.id].spec.jobType in handlers
      && rows[p.id].status == if p.Draining? || p.Batch? then RunningSubJobs else Running
  }

  /** A row is running only while somebody is working on it. */
  ghost predicate RunningInv(rows: Rows, p: Phase) {
    forall id | id in rows && rows[id].status == Running ::
      if rows[id].parent == None then WorksOn(p, id)
      else p.Batch? && rows[id].parent == Some(p.id) && (id in p.waiting || id in p.running)
  }

  /** The semaphore and the wait group count what they are meant to count. */
  ghost predicate BatchInv(rows: Rows, p: Phase, limit: int) {
    p.Batch? ==>
      && (forall i, j | 0 <= i < j < |p.waiting| :: p.waiting[i] != p.waiting[j])
      && (forall c | c in p.waiting :: c !in p.running && c !in p.marked && c !in p.released)
      && p.running !! p.marked !! p.released
      && (forall c | c in p.waiting || c in p.running ::
              c in rows && rows[c].parent == Some(p.id) && rows[c].status == Running)
      && (forall c | c in p.marked || c in p.released ::
              c in rows && rows[c].parent == Some(p.id) && Terminal(rows[c].status))
      && p.sem == |p.running| + |p.marked|
      && p.wg == |p.running| + |p.marked| + |p.released|
      && p.sem <= limit
  }

  ghost predicate Machine(s: State) {
    && s.cpus >= 1
    && TableInv(s.rows, s.nextId)
    && QueueInv(s.rows, s.queue, s.unappended, s.phase)
    && PhaseInv(s.rows, s.handlers, s.phase)
    && RunningInv(s.rows, s.phase)
    && BatchInv(s.rows, s.phase, Limit(s))
  }

  // ---- counts ----

  ghost predicate CountInv(rows: Rows, next: int, p: Phase, invoked: multiset<int>, runs: multiset<int>,
                           unhandled: set<int>) {
    && (forall id :: invoked[id] <= 1 && invoked[id] <= runs[id])
    && (forall id | runs[id] > 0 :: id < next)
    && (forall id | id in rows && rows[id].status == Queued :: invoked[id] == 0)
    && (forall id | id in rows && (rows[id].status == Done || rows[id].status == RunningSubJobs) :: runs[id] > 0)
    && (forall id | id in rows && rows[id].status == Failed && rows[id].parent.Some? :: runs[id] > 0 || id in unhandled)
    && (p.Starting? ==> invoked[p.id] == 0)
    && (p.Handling? || p.Flushing? ==> runs[p.id] > 0)
    && (p.Batch? ==> (forall c | c in p.waiting :: invoked[c] == 0) && (forall c | c in p.running :: runs[c] > 0))
  }

  ghost predicate Counted(s: State) {
    && CountInv(s.rows, s.nextId, s.phase, s.invoked, s.runs, s.unhandled)
    && (s.crashes == 0 ==> s.invoked == s.runs)
  }

  // ---- books ----

  ghost predicate Ascending(ids: seq<int>, next: int) {
    (forall i, j | 0 <= i < j < |ids| :: ids[i] < ids[j]) && forall i | 0 <= i < |ids| :: ids[i] < next
  }

  /** The sub-job rows of a parent are exactly the ones that were written for it, one per spec. */
  ghost predicate KidsMatch(rows: Rows, parent: int, l: Ledger)
    requires parent in rows
  {
    && parent in l.kids && parent in l.sent
    && |l.kids[parent]| == |l.sent[parent]| == rows[parent].subjobsEnqueued
    && (forall c | c in rows && rows[c].parent == Some(parent) :: c in l.kids[parent])
    && (forall k | 0 <= k < |l.kids[parent]| ::
          var c := l.kids[parent][k]; c in rows && rows[c].parent == Some(parent) && rows[c].spec == l.sent[parent][k])
  }

  ghost predicate NoKids(rows: Rows, parent: int) {
    forall c | c in rows :: rows[c].parent != Some(parent)
  }

  /** The parent's buffer is being written or has been handed over to the claim loop. */
  ghost predicate HasKids(rows: Rows, parent: int, p: Phase)
    requires parent in rows
  {
    rows[parent].status == RunningSubJobs || (p.Flushing? && p.id == parent)
  }

  /** What the flush of a parent has still to write. */
  function Pending(parent: int, p: Phase): seq<Spec> {
    if p.Flushing? && p.id == parent then p.unsent else []
  }

  ghost predicate BufferMatches(parent: int, p: Phase, l: Ledger) {
    && parent in l.kids && parent in l.sent && parent in l.buffers
    && (parent !in l.dropped ==> l.buffers[parent] == l.sent[parent] + Pending(parent, p))
  }

  ghost predicate LedgerInv(rows: Rows, next: int, l: Ledger) {
    && l.sent.Keys == l.kids.Keys
    && forall parent | parent in l.kids ::
         parent in rows && rows[parent].parent == None && Ascending(l.kids[parent], next)
  }

  /** A parent has the sub-jobs that were written for it until it is done, and then none. */
  ghost predicate KidsOf(rows: Rows, parent: int, l: Ledger)
    requires parent in rows
  {
    if parent in l.kids && rows[parent].status != Done then KidsMatch(rows, parent, l)
    else NoKids(rows, parent) && (parent !in l.kids ==> rows[parent].subjobsEnqueued == 0)
  }

  ghost predicate KidsInv(rows: Rows, next: int, p: Phase, l: Ledger) {
    && LedgerInv(rows, next, l)
    && (forall parent | parent in rows && rows[parent].parent == None :: KidsOf(rows, parent, l))
    && (forall parent | parent in rows && rows[parent].parent == None && HasKids(rows, parent, p) ::
            BufferMatches(parent, p, l))
  }

  /** Before any crash no handler runs twice, so all rows of a parent come from one flush. */
  ghost predicate OneFlush(rows: Rows, p: Phase, l: Ledger) {
    forall parent | parent in l.kids && parent in rows ::
      && rows[parent].status != Queued
      && (rows[parent].status == Running ==> p.Flushing? && p.id == parent && |l.kids[parent]| == p.written)
  }

  /** Everything a completed parent buffered was written, unless a batch was dropped, and every
      row written was run, unless its type had no handler. */
  ghost predicate CompletedInv(rows: Rows, l: Ledger, completed: set<int>, runs: multiset<int>, unhandled: set<int>) {
    forall parent | parent in completed ::
      && parent in rows && rows[parent].status == Done
      && parent in l.kids && parent in l.sent && parent in l.buffers
      && |l.kids[parent]| == |l.sent[parent]|
      && (parent !in l.dropped ==> l.sent[parent] == l.buffers[parent])
      && (forall k | 0 <= k < |l.kids[parent]| :: runs[l.kids[parent][k]] > 0 || l.kids[parent][k] in unhandled)
  }

  ghost predicate Booked(s: State) {
    && KidsInv(s.rows, s.nextId, s.phase, s.ledger)
    && (s.crashes == 0 ==> OneFlush(s.rows, s.phase, s.ledger))
    && CompletedInv(s.rows, s.ledger, s.completed, s.runs, s.unhandled)
  }

  ghost predicate Inv(s: State) {
    Machine(s) && Counted(s) && Booked(s)
  }


  // ---- steps that leave the job rows alone ----

  lemma {:induction false} AppendJobKeeps(s: State, job: QueuedJob, s': State)
    requires Inv(s) && AppendJob(s, job, s')
    ensures Inv(s')
  {
  }

  lemma {:induction false} RegisterTypeKeeps(s: State, jobType: string, meta: Meta, s': State)
    requires Inv(s) && RegisterType(s, jobType, meta, s')
    ensures Inv(s')
  {
  }

  lemma {:induction false} SetPausedKeeps(s: State, pause: bool, s': State)
    requires Inv(s) && SetPaused(s, pause, s')
    ensures Inv(s')
  {
  }

  lemma {:induction false} LoadQueryKeeps(s: State, found: seq<QueuedJob>, s': State)
    requires Inv(s) && LoadQuery(s, found, s')
    ensures Inv(s')
  {
  }

  lemma {:induction false} LoadAppendKeeps(s: State, s': State)
    requires Inv(s) && LoadAppend(s, s')
    ensures Inv(s')
  {
    LoadedFrom(s.queue, s.phase.found);
    forall i | 0 <= i < |s'.queue|
      ensures Entry(s'.rows, s'.queue[i])
    {
      assert s'.queue[i] in Loaded(s.queue, s.phase.found);
    }
  }

  lemma {:induction false} PickJobKeeps(s: State, i: int, s': State)
    requires Inv(s) && PickJob(s, i, s')
    ensures Inv(s')
  {
  }

  lemma {:induction false} DropKeeps(s: State, s': State)
    requires Inv(s) && Drop(s, s')
    ensures Inv(s')
  {
  }

  lemma {:induction false} ResumeKeeps(s: State, id: int, s': State)
    requires Inv(s) && Resume(s, id, s')
    ensures Inv(s')
  {
  }

  lemma {:induction false} YieldKeeps(s: State, id: int, s': State)
    requires Inv(s) && Yield(s, id, s')
    ensures Inv(s')
  {
  }

  lemma {:induction false} JoinKeeps(s: State, s': State)
    requires Inv(s) && Join(s, s')
    ensures Inv(s')
  {
  }

  lemma {:induction false} StartHandlerKeeps(s: State, id: int, s': State)
    requires Inv(s) && StartHandler(s, id, s')
    ensures Inv(s')
  {
  }

  lemma {:induction false} HandlerReturnedKeeps(s: State, id: int, buffered: seq<Spec>, s': State)
    requires Inv(s) && HandlerReturned(s, id, buffered, s')
    ensures Inv(s')
  {
    OpenedBooks(s.rows, s.nextId, s.ledger, id, buffered);
  }

  /** The books of a parent are opened by the first run of its handler and kept by a later one. */
  lemma OpenedBooks(rows: Rows, next: int, l: Ledger, id: int, buffered: seq<Spec>)
    requires KidsInv(rows, next, Handling(id), l) && id in rows && rows[id].parent == None && rows[id].status == Running
    ensures KidsInv(rows, next, Flushing(id, buffered, 0), Opened(l, id, buffered))
  {
    assert KidsOf(rows, id, l);
  }

  lemma {:induction false} FlushBatchFailsKeeps(s: State, id: int, s': State)
    requires Inv(s) && FlushBatchFails(s, id, s')
    ensures Inv(s')
  {
  }

  lemma {:induction false} WorkerExitKeeps(s: State, j: int, s': State)
    requires Inv(s) && WorkerExit(s, j, s')
    ensures Inv(s')
  {
  }

  lemma {:induction false} LoadedFrom(queue: seq<QueuedJob>, found: seq<QueuedJob>)
    ensures forall q | q in Loaded(queue, found) :: q in queue || q in found
  {
    if found == [] {
    } else {
      LoadedFrom(queue, found[..|found| - 1]);
    }
  }

  // ---- steps that only change the status of job rows ----

  ghost predicate OnlyStatus(rows: Rows, rows': Rows) {
    rows'.Keys == rows.Keys && forall r | r in rows :: rows'[r] == rows[r].(status := rows'[r].status)
  }

  /** A parent keeps its books when it is not marked done and its flush has as much to write as before. */
  ghost predicate SameStage(rows: Rows, rows': Rows, parent: int, p: Phase, p': Phase)
    requires parent in rows && parent in rows'
  {
    && (rows'[parent].status == Done <==> rows[parent].status == Done)
    && (HasKids(rows', parent, p') ==> HasKids(rows, parent, p) && Pending(parent, p') == Pending(parent, p))
  }

  lemma StatusKids(rows: Rows, rows': Rows, parent: int, l: Ledger)
    requires OnlyStatus(rows, rows') && parent in rows
             && (rows'[parent].status == Done <==> rows[parent].status == Done)
    requires KidsOf(rows, parent, l)
    ensures KidsOf(rows', parent, l)
  {
  }

  lemma StatusKidsInv(rows: Rows, rows': Rows, next: int, p: Phase, p': Phase, l: Ledger)
    requires OnlyStatus(rows, rows') && KidsInv(rows, next, p, l)
    requires forall parent | parent in rows && rows[parent].parent == None :: SameStage(rows, rows', parent, p, p')
    ensures KidsInv(rows', next, p', l)
  {
    forall parent | parent in rows' && rows'[parent].parent == None
      ensures KidsOf(rows', parent, l)
      ensures HasKids(rows', parent, p') ==> BufferMatches(parent, p', l)
    {
      assert SameStage(rows, rows', parent, p, p');
      StatusKids(rows, rows', parent, l);
    }
  }

  lemma StatusBooks(s: State, s': State)
    requires Booked(s) && OnlyStatus(s.rows, s'.rows)
    requires s'.nextId == s.nextId && s'.ledger == s.ledger && s'.completed == s.completed
    requires forall parent | parent in s.rows && s.rows[parent].parent == None ::
               SameStage(s.rows, s'.rows, parent, s.phase, s'.phase)
    requires s.unhandled <= s'.unhandled && forall c :: s.runs[c] <= s'.runs[c]
    ensures KidsInv(s'.rows, s'.nextId, s'.phase, s'.ledger)
    ensures CompletedInv(s'.rows, s'.ledger, s'.completed, s'.runs, s'.unhandled)
  {
    StatusKidsInv(s.rows, s'.rows, s.nextId, s.phase, s'.phase, s.ledger);
    forall parent | parent in s'.completed
      ensures parent in s'.rows && s'.rows[parent].status == Done
    {
      assert s.rows[parent].parent == None;
    }
  }

  // ---- steps that change job rows ----

  lemma DoneLeaf(rows: Rows, next: int, j: int)
    requires TableInv(rows, next) && (j in rows ==> rows[j].parent.Some?)
    ensures MarkedDone(rows, j) == WithStatus(rows, j, Done)
  {
    assert forall r | r in rows :: rows[r].parent != Some(j);
    assert (map r | r in rows && rows[r].parent != Some(j) :: rows[r]) == rows;
  }

  ghost predicate Closing(s: State, id: int) {
    s.phase == Draining(id) || Flushed(s, id)
  }

  /** Marking the parent done deletes its sub-jobs and disturbs no other parent's. */
  lemma DoneBooks(s: State, id: int)
    requires Machine(s) && Booked(s) && id in s.rows && s.rows[id].parent == None && Closing(s, id)
    ensures KidsInv(MarkedDone(s.rows, id), s.nextId, Idle, s.ledger)
    ensures s.crashes == 0 ==> OneFlush(MarkedDone(s.rows, id), Idle, s.ledger)
    ensures CompletedInv(MarkedDone(s.rows, id), s.ledger, s.completed, s.runs, s.unhandled)
  {
    var after := MarkedDone(s.rows, id);
    assert NoKids(after, id);
  }

  /** When no sub-job of a parent is left queued, each has run or had no handler. */
  lemma ChildrenFinished(s: State, id: int)
    requires Machine(s) && Counted(s) && Closing(s, id) && QueuedChildren(s.rows, id) == {}
    ensures forall c | c in s.rows && s.rows[c].parent == Some(id) ::
              Terminal(s.rows[c].status) && (s.runs[c] > 0 || c in s.unhandled)
  {
    forall c | c in s.rows && s.rows[c].parent == Some(id)
      ensures Terminal(s.rows[c].status)
    {
      assert c !in QueuedChildren(s.rows, id);
    }
  }

  lemma ClosedBooked(s: State, id: int)
    requires Inv(s) && Closing(s, id)
    ensures Booked(Closed(s, id))
  {
    DoneBooks(s, id);
    if QueuedChildren(s.rows, id) == {} && SupportsSubjobs(s, id) {
      ChildrenFinished(s, id);
      NewlyCompleted(s, id);
    }
  }

  lemma NewlyCompleted(s: State, id: int)
    requires Inv(s) && Closing(s, id)
    requires forall c | c in s.rows && s.rows[c].parent == Some(id) :: s.runs[c] > 0 || c in s.unhandled
    ensures CompletedInv(MarkedDone(s.rows, id), s.ledger, s.completed + {id}, s.runs, s.unhandled)
  {
    assert BufferMatches(id, s.phase, s.ledger);
    assert KidsMatch(s.rows, id, s.ledger);
  }

  lemma FlushedRows(s: State, id: int, s': State)
    requires Machine(s) && FlushBatch(s, id, s')
    ensures var n := ChunkLength(s.phase.unsent);
            && (forall r | r in s.rows :: r in s'.rows && (r != id ==> s'.rows[r] == s.rows[r]))
            && (forall r | r in s'.rows :: r in s.rows
                  || (InBlock(r, s.nextId, n) && s'.rows[r] == Job(s.phase.unsent[r - s.nextId], Queued, Some(id), 0)))
            && (forall r | InBlock(r, s.nextId, n) :: r in s'.rows && r !in s.rows)
            && s'.rows[id] == s.rows[id].(subjobsEnqueued := s.rows[id].subjobsEnqueued + n)
  {
    InsertedChildrenMeaning(s.rows, s.nextId, id, s.phase.unsent[..ChunkLength(s.phase.unsent)]);
  }

  lemma FlushedTable(s: State, id: int, s': State)
    requires Machine(s) && FlushBatch(s, id, s')
    ensures TableInv(s'.rows, s'.nextId)
  {
    FlushedRows(s, id, s');
    forall r | r in s'.rows && s'.rows[r].parent.Some?
      ensures s'.rows[r].parent.value in s'.rows && s'.rows[s'.rows[r].parent.value].parent == None
              && s'.rows[r].status != RunningSubJobs
    {
      if r in s.rows {
        assert s.rows[r].parent == s'.rows[r].parent && s.rows[r].status == s'.rows[r].status;
        var v := s.rows[r].parent.value;
        assert v in s.rows && v in s'.rows;
      } else {
        assert s'.rows[r].parent == Some(id) && id in s'.rows;
      }
    }
  }

  /** The batch just written extends the books of its parent by one id per spec. */
  lemma FlushedKids(s: State, id: int, s': State)
    requires Machine(s) && Booked(s) && FlushBatch(s, id, s')
    ensures Ascending(s'.ledger.kids[id], s'.nextId)
    ensures KidsMatch(s'.rows, id, s'.ledger) && BufferMatches(id, s'.phase, s'.ledger)
  {
    FlushedRows(s, id, s');
    var n := ChunkLength(s.phase.unsent);
    var kids, kids', sent, sent' := s.ledger.kids[id], s'.ledger.kids[id], s.ledger.sent[id], s'.ledger.sent[id];
    assert BufferMatches(id, s'.phase, s'.ledger) by {
      assert s.phase.unsent == s.phase.unsent[..n] + s.phase.unsent[n..];
      assert BufferMatches(id, s.phase, s.ledger);
    }
    assert KidsMatch(s.rows, id, s.ledger);
    forall c | c in s'.rows && s'.rows[c].parent == Some(id)
      ensures c in kids'
    {
      KidKnown(s, id, s', kids, kids', c);
    }
    forall k | 0 <= k < |kids'|
      ensures var c := kids'[k]; c in s'.rows && s'.rows[c].parent == Some(id) && s'.rows[c].spec == sent'[k]
    {
      FlushedKid(s, id, s', kids, kids', sent, sent', k);
    }
  }

  lemma KidKnown(s: State, id: int, s': State, kids: seq<int>, kids': seq<int>, c: int)
    requires Machine(s) && FlushBatch(s, id, s') && kids' == kids + Ids(s.nextId, ChunkLength(s.phase.unsent))
    requires forall r | r in s.rows && s.rows[r].parent == Some(id) :: r in kids
    requires c in s'.rows && s'.rows[c].parent == Some(id)
    ensures c in kids'
  {
    FlushedRows(s, id, s');
    if c !in s.rows {
      assert kids'[|kids| + c - s.nextId] == c;
    }
  }

  lemma FlushedKid(s: State, id: int, s': State, kids: seq<int>, kids': seq<int>, sent: seq<Spec>, sent': seq<Spec>,
                   k: nat)
    requires Machine(s) && FlushBatch(s, id, s') && |kids| == |sent| && k < |kids'|
    requires var n := ChunkLength(s.phase.unsent);
             kids' == kids + Ids(s.nextId, n) && sent' == sent + s.phase.unsent[..n]
    requires forall i | 0 <= i < |kids| ::
               var c := kids[i]; c in s.rows && s.rows[c].parent == Some(id) && s.rows[c].spec == sent[i]
    ensures var c := kids'[k]; c in s'.rows && s'.rows[c].parent == Some(id) && s'.rows[c].spec == sent'[k]
  {
    FlushedRows(s, id, s');
    if k >= |kids| {
      assert InBlock(kids'[k], s.nextId, ChunkLength(s.phase.unsent));
    } else {
      assert kids'[k] == kids[k] && sent'[k] == sent[k];
    }
  }

  lemma {:induction false} InsertJobMachine(s: State, spec: Spec, viaEnqueue: bool, s': State)
    requires Machine(s) && InsertJob(s, spec, viaEnqueue, s')
    ensures Machine(s')
  {
  }

  lemma {:induction false} InsertJobCounted(s: State, spec: Spec, viaEnqueue: bool, s': State)
    requires Machine(s) && Counted(s) && InsertJob(s, spec, viaEnqueue, s')
    ensures Counted(s')
  {
  }

  lemma {:induction false} InsertJobBooked(s: State, spec: Spec, viaEnqueue: bool, s': State)
    requires Inv(s) && InsertJob(s, spec, viaEnqueue, s')
    ensures Booked(s')
  {
  }

  lemma {:induction false} StartCounted(s: State, id: int, s': State)
    requires Machine(s) && Counted(s) && Start(s, id, s')
    ensures Machine(s') && Counted(s')
  {
  }

  lemma {:induction false} StartBooked(s: State, id: int, s': State)
    requires Inv(s) && Start(s, id, s')
    ensures Booked(s')
  {
    StatusBooks(s, s');
  }

  lemma {:induction false} FailCounted(s: State, id: int, s': State)
    requires Machine(s) && Counted(s) && Fail(s, id, s')
    ensures Machine(s') && Counted(s')
  {
  }

  lemma {:induction false} FailBooked(s: State, id: int, s': State)
    requires Inv(s) && Fail(s, id, s')
    ensures Booked(s')
  {
    StatusBooks(s, s');
  }

  lemma {:induction false} FlushBatchCounted(s: State, id: int, s': State)
    requires Machine(s) && Counted(s) && FlushBatch(s, id, s')
    ensures Machine(s') && Counted(s')
  {
    FlushedRows(s, id, s');
    FlushedTable(s, id, s');
  }

  /** The books of other parents are not concerned. */
  lemma FlushedElsewhere(s: State, id: int, s': State, parent: int)
    requires Machine(s) && Booked(s) && FlushBatch(s, id, s') && parent in s.rows && s.rows[parent].parent == None
    requires parent != id
    ensures parent in s'.rows && s'.rows[parent] == s.rows[parent]
    ensures KidsOf(s'.rows, parent, s'.ledger)
    ensures HasKids(s'.rows, parent, s'.phase) ==> BufferMatches(parent, s'.phase, s'.ledger)
  {
    FlushedRows(s, id, s');
    assert KidsOf(s.rows, parent, s.ledger);
  }

  lemma {:induction false} FlushBatchBooked(s: State, id: int, s': State)
    requires Inv(s) && FlushBatch(s, id, s')
    ensures Booked(s')
  {
    FlushedRows(s, id, s');
    FlushedKids(s, id, s');
    forall parent | parent in s'.rows && s'.rows[parent].parent == None
      ensures KidsOf(s'.rows, parent, s'.ledger)
      ensures HasKids(s'.rows, parent, s'.phase) ==> BufferMatches(parent, s'.phase, s'.ledger)
    {
      if parent != id {
        FlushedElsewhere(s, id, s', parent);
      }
    }
    assert LedgerInv(s'.rows, s'.nextId, s'.ledger);
  }

  lemma {:induction false} FlushToDrainCounted(s: State, id: int, s': State)
    requires Machine(s) && Counted(s) && FlushToDrain(s, id, s')
    ensures Machine(s') && Counted(s')
  {
  }

  lemma {:induction false} FlushToDrainBooked(s: State, id: int, s': State)
    requires Inv(s) && FlushToDrain(s, id, s')
    ensures Booked(s')
  {
    StatusBooks(s, s');
  }

  lemma {:induction false} FlushToDoneCounted(s: State, id: int, s': State)
    requires Machine(s) && Counted(s) && FlushToDone(s, id, s')
    ensures Machine(s') && Counted(s')
  {
  }

  lemma {:induction false} FlushToDoneBooked(s: State, id: int, s': State)
    requires Inv(s) && FlushToDone(s, id, s')
    ensures Booked(s')
  {
    ClosedBooked(s, id);
  }

  lemma {:induction false} ClaimCounted(s: State, id: int, batch: seq<int>, s': State)
    requires Machine(s) && Counted(s) && Claim(s, id, batch, s')
    ensures Machine(s') && Counted(s')
  {
  }

  lemma {:induction false} ClaimBooked(s: State, id: int, batch: seq<int>, s': State)
    requires Inv(s) && Claim(s, id, batch, s')
    ensures Booked(s')
  {
    StatusBooks(s, s');
  }

  lemma {:induction false} ClaimFailsCounted(s: State, id: int, s': State)
    requires Machine(s) && Counted(s) && ClaimFails(s, id, s')
    ensures Machine(s') && Counted(s')
  {
  }

  lemma {:induction false} ClaimFailsBooked(s: State, id: int, s': State)
    requires Inv(s) && ClaimFails(s, id, s')
    ensures Booked(s')
  {
    ClosedBooked(s, id);
  }

  lemma {:induction false} DrainEndCounted(s: State, id: int, s': State)
    requires Machine(s) && Counted(s) && DrainEnd(s, id, s')
    ensures Machine(s') && Counted(s')
  {
  }

  lemma {:induction false} DrainEndBooked(s: State, id: int, s': State)
    requires Inv(s) && DrainEnd(s, id, s')
    ensures Booked(s')
  {
    ClosedBooked(s, id);
  }

  lemma {:induction false} LaunchMachine(s: State, j: int, s': State)
    requires Machine(s) && Launch(s, j, s')
    ensures Machine(s')
  {
  }

  lemma {:induction false} LaunchCounted(s: State, j: int, s': State)
    requires Machine(s) && Counted(s) && Launch(s, j, s')
    ensures Counted(s')
  {
  }

  lemma {:induction false} LaunchBooked(s: State, j: int, s': State)
    requires Inv(s) && Launch(s, j, s')
    ensures Booked(s')
  {
    StatusBooks(s, s');
  }

  lemma {:induction false} LaunchUnhandledMachine(s: State, j: int, s': State)
    requires Machine(s) && LaunchUnhandled(s, j, s')
    ensures Machine(s')
  {
    LaunchUnhandledBatch(s, j, s');
  }

  lemma LaunchUnhandledBatch(s: State, j: int, s': State)
    requires BatchInv(s.rows, s.phase, Limit(s)) && LaunchUnhandled(s, j, s') && Limit(s') == Limit(s)
    ensures BatchInv(s'.rows, s'.phase, Limit(s'))
  {
    assert j in s.phase.waiting;
    assert |s.phase.marked + {j}| == |s.phase.marked| + 1;
  }

  lemma {:induction false} LaunchUnhandledCounted(s: State, j: int, s': State)
    requires Machine(s) && Counted(s) && LaunchUnhandled(s, j, s')
    ensures Counted(s')
  {
  }

  lemma {:induction false} LaunchUnhandledBooked(s: State, j: int, s': State)
    requires Inv(s) && LaunchUnhandled(s, j, s')
    ensures Booked(s')
  {
    StatusBooks(s, s');
  }

  /** A sub-job has no sub-jobs, so marking it done deletes nothing. */
  lemma FinishRows(s: State, j: int, ok: bool, s': State)
    requires Machine(s) && Finish(s, j, ok, s')
    ensures j in s.rows && s.rows[j].parent == Some(s.phase.id) && s.rows[j].status == Running
    ensures s'.rows == WithStatus(s.rows, j, if ok then Done else Failed)
  {
    DoneLeaf(s.rows, s.nextId, j);
  }

  lemma FinishSets(s: State, j: int, ok: bool, s': State)
    requires Machine(s) && Finish(s, j, ok, s')
    requires j in s.rows && s.rows[j].parent == Some(s.phase.id)
             && s'.rows == WithStatus(s.rows, j, if ok then Done else Failed)
    ensures BatchInv(s'.rows, s'.phase, Limit(s'))
  {
    assert s.phase.running == (s.phase.running - {j}) + {j};
    assert |s.phase.marked + {j}| == |s.phase.marked| + 1;
  }

  lemma {:induction false} FinishMachine(s: State, j: int, ok: bool, s': State)
    requires Machine(s) && Finish(s, j, ok, s')
    ensures Machine(s')
  {
    FinishRows(s, j, ok, s');
    FinishSets(s, j, ok, s');
  }

  lemma {:induction false} FinishCounted(s: State, j: int, ok: bool, s': State)
    requires Machine(s) && Counted(s) && Finish(s, j, ok, s')
    ensures Counted(s')
  {
    FinishRows(s, j, ok, s');
    FinishSets(s, j, ok, s');
  }

  lemma {:induction false} FinishBooked(s: State, j: int, ok: bool, s': State)
    requires Inv(s) && Finish(s, j, ok, s')
    ensures Booked(s')
  {
    FinishRows(s, j, ok, s');
    StatusBooks(s, s');
  }

  lemma {:induction false} ReleaseCounted(s: State, j: int, s': State)
    requires Machine(s) && Counted(s) && Release(s, j, s')
    ensures Machine(s') && Counted(s')
  {
    ReleaseBatch(s, j, s');
  }

  lemma ReleaseBatch(s: State, j: int, s': State)
    requires BatchInv(s.rows, s.phase, Limit(s)) && Release(s, j, s') && Limit(s') == Limit(s)
    ensures BatchInv(s'.rows, s'.phase, Limit(s'))
  {
    assert s.phase.marked == (s.phase.marked - {j}) + {j};
    assert |s.phase.released + {j}| == |s.phase.released| + 1;
  }

  lemma {:induction false} ReleaseBooked(s: State, j: int, s': State)
    requires Inv(s) && Release(s, j, s')
    ensures Booked(s')
  {
    StatusBooks(s, s');
  }

  lemma {:induction false} CrashCounted(s: State, s': State)
    requires Machine(s) && Counted(s) && Crash(s, s')
    ensures Machine(s') && Counted(s')
  {
  }

  lemma {:induction false} CrashBooked(s: State, s': State)
    requires Inv(s) && Crash(s, s')
    ensures Booked(s')
  {
    StatusBooks(s, s');
  }

  // ---- every step, every run ----

  predicate QueueStep(step: Step) {
    step.SAppendJob? || step.SRegisterType? || step.SSetPaused? || step.SLoadQuery? || step.SLoadAppend?
      || step.SPickJob? || step.SDrop? || step.SResume? || step.SYield?
  }

  lemma QueueStepKeeps(s: State, step: Step, s': State)
    requires Inv(s) && Does(s, step, s') && QueueStep(step)
    ensures Inv(s')
  {
    match step
    case SAppendJob(job) =>
      AppendJobKeeps(s, job, s');
    case SRegisterType(jobType, meta) =>
      RegisterTypeKeeps(s, jobType, meta, s');
    case SSetPaused(pause) =>
      SetPausedKeeps(s, pause, s');
    case SLoadQuery(found) =>
      LoadQueryKeeps(s, found, s');
    case SLoadAppend =>
      LoadAppendKeeps(s, s');
    case SPickJob(i) =>
      PickJobKeeps(s, i, s');
    case SDrop =>
      DropKeeps(s, s');
    case SResume(id) =>
      ResumeKeeps(s, id, s');
    case SYield(id) =>
      YieldKeeps(s, id, s');
    case _ =>
  }

  predicate HandlerStep(step: Step) {
    step.SInsertJob? || step.SStart? || step.SFail? || step.SStartHandler? || step.SHandlerReturned?
      || step.SFlushBatch? || step.SFlushBatchFails? || step.SFlushToDrain?
  }

  lemma HandlerStepKeeps(s: State, step: Step, s': State)
    requires Inv(s) && Does(s, step, s') && HandlerStep(step)
    ensures Inv(s')
  {
    match step
    case SInsertJob(spec, viaEnqueue) =>
      InsertJobMachine(s, spec, viaEnqueue, s');
      InsertJobCounted(s, spec, viaEnqueue, s');
      InsertJobBooked(s, spec, viaEnqueue, s');
    case SStart(id) =>
      StartCounted(s, id, s');
      StartBooked(s, id, s');
    case SFail(id) =>
      FailCounted(s, id, s');
      FailBooked(s, id, s');
    case SStartHandler(id) =>
      StartHandlerKeeps(s, id, s');
    case SHandlerReturned(id, buffered) =>
      HandlerReturnedKeeps(s, id, buffered, s');
    case SFlushBatch(id) =>
      FlushBatchCounted(s, id, s');
      FlushBatchBooked(s, id, s');
    case SFlushBatchFails(id) =>
      FlushBatchFailsKeeps(s, id, s');
    case SFlushToDrain(id) =>
      FlushToDrainCounted(s, id, s');
      FlushToDrainBooked(s, id, s');
    case _ =>
  }

  predicate EndStep(step: Step) {
    step.SFlushToDone? || step.SClaimFails? || step.SDrainEnd? || step.SCrash?
  }

  lemma EndStepKeeps(s: State, step: Step, s': State)
    requires Inv(s) && Does(s, step, s') && EndStep(step)
    ensures Inv(s')
  {
    match step
    case SFlushToDone(id) =>
      FlushToDoneCounted(s, id, s');
      FlushToDoneBooked(s, id, s');
    case SClaimFails(id) =>
      ClaimFailsCounted(s, id, s');
      ClaimFailsBooked(s, id, s');
    case SDrainEnd(id) =>
      DrainEndCounted(s, id, s');
      DrainEndBooked(s, id, s');
    case SCrash =>
      CrashCounted(s, s');
      CrashBooked(s, s');
    case _ =>
  }

  predicate WorkerStep(step: Step) {
    step.SClaim? || step.SLaunch? || step.SLaunchUnhandled? || step.SFinish? || step.SRelease? || step.SWorkerExit?
      || step.SJoin?
  }

  lemma WorkerStepKeeps(s: State, step: Step, s': State)
    requires Inv(s) && Does(s, step, s') && WorkerStep(step)
    ensures Inv(s')
  {
    if step.SClaim? || step.SLaunch? || step.SLaunchUnhandled? {
      BatchBeginKeeps(s, step, s');
    } else {
      BatchEndKeeps(s, step, s');
    }
  }

  lemma BatchBeginKeeps(s: State, step: Step, s': State)
    requires Inv(s) && Does(s, step, s') && (step.SClaim? || step.SLaunch? || step.SLaunchUnhandled?)
    ensures Inv(s')
  {
    match step
    case SClaim(id, batch) =>
      ClaimCounted(s, id, batch, s');
      ClaimBooked(s, id, batch, s');
    case SLaunch(j) =>
      LaunchMachine(s, j, s');
      LaunchCounted(s, j, s');
      LaunchBooked(s, j, s');
    case SLaunchUnhandled(j) =>
      LaunchUnhandledMachine(s, j, s');
      LaunchUnhandledCounted(s, j, s');
      LaunchUnhandledBooked(s, j, s');
    case _ =>
  }

  lemma BatchEndKeeps(s: State, step: Step, s': State)
    requires Inv(s) && Does(s, step, s') && (step.SFinish? || step.SRelease? || step.SWorkerExit? || step.SJoin?)
    ensures Inv(s')
  {
    match step
    case SFinish(j, ok) =>
      FinishMachine(s, j, ok, s');
      FinishCounted(s, j, ok, s');
      FinishBooked(s, j, ok, s');
    case SRelease(j) =>
      ReleaseCounted(s, j, s');
      ReleaseBooked(s, j, s');
    case SWorkerExit(j) =>
      WorkerExitKeeps(s, j, s');
    case SJoin =>
      JoinKeeps(s, s');
    case _ =>
  }

  lemma StepKeeps(s: State, step: Step, s': State)
    requires Inv(s) && Does(s, step, s')
    ensures Inv(s')
  {
    if QueueStep(step) {
      QueueStepKeeps(s, step, s');
    } else if HandlerStep(step) {
      HandlerStepKeeps(s, step, s');
    } else if EndStep(step) {
      EndStepKeeps(s, step, s');
    } else {
      WorkerStepKeeps(s, step, s');
    }
  }

  lemma InitInv(s: State)
    requires Init(s)
    ensures Inv(s)
  {
  }

  lemma {:induction false} ReachableInv(states: seq<State>, steps: seq<Step>, k: nat)
    requires Execution(states, steps) && k <= |steps|
    ensures Inv(states[k])
  {
    if k == 0 {
      InitInv(states[0]);
    } else {
      ReachableInv(states, steps, k - 1);
      StepKeeps(states[k - 1], steps[k - 1], states[k]);
    }
  }
}
