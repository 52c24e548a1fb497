/** The jobs table.  Every statement the repository issues is one atomic change of a map of rows. */
module JobTables {
  import opened Options
  import Sets

  datatype Status = Queued | Running | RunningSubJobs | Done | Failed

  /** What a job is asked to do; fixed when the row is inserted. */
  datatype Spec = Spec(jobType: string, relatedId: Option<int>, relatedType: Option<string>)

  datatype Job = Job(spec: Spec, status: Status, parent: Option<int>, subjobsEnqueued: nat)

  type Rows = map<int, Job>

  predicate Live(s: Status) {
    s == Queued || s == RunningSubJobs
  }

  predicate Terminal(s: Status) {
    s == Done || s == Failed
  }

  function Children(rows: Rows, parent: int): set<int> {
    set id | id in rows && rows[id].parent == Some(parent)
  }

  function QueuedChildren(rows: Rows, parent: int): set<int> {
    set id | id in rows && rows[id].parent == Some(parent) && rows[id].status == Queued
  }

  predicate InBlock(id: int, first: int, n: nat) {
    first <= id < first + n
  }

  /** n consecutive ids from first on. */
  function Block(first: int, n: nat): (ids: set<int>)
    ensures forall id :: id in ids <==> InBlock(id, first, n)
  {
    set id | first <= id < first + n && InBlock(id, first, n)
  }

  // ---- the statements ----

  function Inserted(rows: Rows, id: int, spec: Spec, parent: Option<int>): Rows {
    rows[id := Job(spec, Queued, parent, 0)]
  }

  /** INSERT of one row per spec, and the parent's counter raised by their number. */
  function InsertedChildren(rows: Rows, next: int, parent: int, specs: seq<Spec>): (after: Rows)
    requires parent in rows
    ensures parent in after
  {
    if specs == [] then rows
    else
      var k := |specs| - 1;
      InsertedChild(InsertedChildren(rows, next, parent, specs[..k]), next + k, parent, specs[k])
  }

  function InsertedChild(rows: Rows, id: int, parent: int, spec: Spec): Rows
    requires parent in rows
  {
    Inserted(rows[parent := rows[parent].(subjobsEnqueued := rows[parent].subjobsEnqueued + 1)], id, spec, Some(parent))
  }

  function WithStatus(rows: Rows, id: int, s: Status): Rows {
    if id in rows then rows[id := rows[id].(status := s)] else rows
  }

  /** Marks the job done and deletes its sub-jobs. */
  function MarkedDone(rows: Rows, id: int): Rows {
    WithStatus(map r | r in rows && rows[r].parent != Some(id) :: rows[r], id, Done)
  }

  function StuckReset(rows: Rows): Rows {
    map id | id in rows :: if rows[id].status == Running then rows[id].(status := Queued) else rows[id]
  }

  function Claimed(rows: Rows, batch: seq<int>): Rows {
    map id | id in rows :: if id in batch then rows[id].(status := Running) else rows[id]
  }

  /** batch is the first limit queued children of parent, by id. */
  ghost predicate IsClaim(rows: Rows, parent: int, limit: nat, batch: seq<int>) {
    && |batch| <= limit
    && (forall i | 0 <= i < |batch| :: batch[i] in QueuedChildren(rows, parent))
    && (forall i, j | 0 <= i < j < |batch| :: batch[i] < batch[j])
    && (forall c, b | c in QueuedChildren(rows, parent) && c !in batch && b in batch :: b < c)
    && (|batch| < limit ==> forall c | c in QueuedChildren(rows, parent) :: c in batch)
  }

  class JobTable {
    var rows: Rows
    var nextId: int

    ghost predicate Valid()
      reads this
    {
      forall id | id in rows :: id < nextId
    }

    constructor ()
      ensures Valid() && rows == map[]
    {
      rows, nextId := map[], 1;
    }

    method JobCreate(spec: Spec, parent: Option<int>) returns (id: int)
      requires Valid()
      modifies this
      ensures Valid() && id == old(nextId) && nextId == id + 1
      ensures rows == Inserted(old(rows), id, spec, parent)
      ensures id !in old(rows) && rows == old(rows)[id := Job(spec, Queued, parent, 0)]
    {
      id := nextId;
      rows := Inserted(rows, id, spec, parent);
      nextId := nextId + 1;
    }

    /** fails: the statement returns an error and changes nothing. */
    method JobCreateSubJobBatch(parentId: int, specs: seq<Spec>, fails: bool) returns (n: nat, ok: bool)
      requires Valid() && parentId in rows
      modifies this
      ensures Valid()
      ensures specs == [] ==> ok && n == 0 && rows == old(rows) && nextId == old(nextId)
      ensures specs != [] && fails ==> !ok && n == 0 && rows == old(rows) && nextId == old(nextId)
      ensures specs != [] && !fails ==>
                ok && n == |specs| && nextId == old(nextId) + n
                  && rows == InsertedChildren(old(rows), old(nextId), parentId, specs)
    {
      if specs == [] {
        return 0, true;
      }
      if fails {
        return 0, false;
      }
      InsertedChildrenMeaning(rows, nextId, parentId, specs);
      rows := InsertedChildren(rows, nextId, parentId, specs);
      nextId := nextId + |specs|;
      return |specs|, true;
    }

    method JobMark(id: int, s: Status)
      requires Valid() && s != Done
      modifies this`rows
      ensures Valid() && rows == WithStatus(old(rows), id, s)
      ensures rows.Keys == old(rows).Keys
      ensures forall r | r in rows :: rows[r] == if r == id then old(rows)[r].(status := s) else old(rows)[r]
    {
      rows := WithStatus(rows, id, s);
    }

    method JobMarkDone(id: int)
      requires Valid()
      modifies this`rows
      ensures Valid() && rows == MarkedDone(old(rows), id)
      ensures forall r :: r in rows <==> r in old(rows) && old(rows)[r].parent != Some(id)
      ensures forall r | r in rows :: rows[r] == if r == id then old(rows)[r].(status := Done) else old(rows)[r]
    {
      rows := MarkedDone(rows, id);
    }

    method JobsResetStuck()
      requires Valid()
      modifies this`rows
      ensures Valid() && rows == StuckReset(old(rows)) && rows.Keys == old(rows).Keys
      ensures forall r | r in rows && old(rows)[r].status == Running :: rows[r] == old(rows)[r].(status := Queued)
      ensures forall r | r in rows && old(rows)[r].status != Running :: rows[r] == old(rows)[r]
    {
      rows := StuckReset(rows);
    }

    method JobClaimSubJobBatch(parentId: int, limit: nat) returns (batch: seq<int>)
      requires Valid()
      modifies this`rows
      ensures Valid() && IsClaim(old(rows), parentId, limit, batch) && rows == Claimed(old(rows), batch)
      ensures batch == [] <==> limit == 0 || QueuedChildren(old(rows), parentId) == {}
      ensures |batch| <= limit && forall i, j | 0 <= i < j < |batch| :: batch[i] < batch[j]
      ensures forall c | c in batch ::
                c in old(rows) && old(rows)[c].parent == Some(parentId) && old(rows)[c].status == Queued
      ensures forall c | c in old(rows) && old(rows)[c].parent == Some(parentId) && old(rows)[c].status == Queued ::
                c in batch || (|batch| == limit && forall b | b in batch :: b < c)
      ensures rows.Keys == old(rows).Keys
      ensures forall r | r in rows :: rows[r] == if r in batch then old(rows)[r].(status := Running) else old(rows)[r]
    {
      batch := [];
      var left := QueuedChildren(rows, parentId);
      while |batch| < limit && left != {}
        invariant rows == old(rows) && |batch| <= limit
        invariant forall c :: c in QueuedChildren(rows, parentId) <==> c in batch || c in left
        invariant forall i, j | 0 <= i < j < |batch| :: batch[i] < batch[j]
        invariant forall b, c | b in batch && c in left :: b < c
        decreases left
      {
        Sets.MinExists(left);
        var m :| m in left && forall x | x in left :: m <= x;
        assert forall i | 0 <= i < |batch| :: batch[i] in batch;
        batch := batch + [m];
        left := left - {m};
      }
      if batch == [] && limit != 0 {
        assert forall c :: c !in QueuedChildren(rows, parentId);
      }
      if batch != [] {
        assert batch[0] in batch;
      }
      assert forall c :: c in QueuedChildren(rows, parentId) <==>
                           c in rows && rows[c].parent == Some(parentId) && rows[c].status == Queued;
      rows := Claimed(rows, batch);
    }
  }

  // ---- what the statements mean ----

  /** Each spec becomes exactly one queued row, the counter grows by their number, and nothing
      else changes. */
  lemma {:induction false} InsertedChildrenMeaning(rows: Rows, next: int, parent: int, specs: seq<Spec>)
    requires parent in rows && forall id | id in rows :: id < next
    ensures var after := InsertedChildren(rows, next, parent, specs);
            && after.Keys == rows.Keys + Block(next, |specs|)
            && (forall id | InBlock(id, next, |specs|) :: after[id] == Job(specs[id - next], Queued, Some(parent), 0))
            && (forall id | id in rows && id != parent :: after[id] == rows[id])
            && after[parent] == rows[parent].(subjobsEnqueued := rows[parent].subjobsEnqueued + |specs|)
  {
    if specs == [] {
    } else {
      var k := |specs| - 1;
      InsertedChildrenMeaning(rows, next, parent, specs[..k]);
      assert InBlock(next + k, next, |specs|);
    }
  }

  /** Two statements in a row insert what one statement with both lists would. */
  lemma {:induction false} InsertedTwice(rows: Rows, next: int, parent: int, a: seq<Spec>, b: seq<Spec>)
    requires parent in rows
    ensures InsertedChildren(InsertedChildren(rows, next, parent, a), next + |a|, parent, b)
            == InsertedChildren(rows, next, parent, a + b)
    decreases |b|
  {
    if b == [] {
      assert a + b == a;
    } else {
      var k := |b| - 1;
      InsertedTwice(rows, next, parent, a, b[..k]);
      assert (a + b)[..|a| + k] == a + b[..k];
    }
  }
}
