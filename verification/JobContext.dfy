/** The buffer in which a handler collects sub-jobs, and its flush to the jobs table. */
module JobContexts {
  import opened JobTables

  const BATCH_SIZE: int := 500

  /** The part of buf from index from on that reaches the table when the batches starting at the
      offsets in failing are rejected. */
  ghost function Delivered(buf: seq<Spec>, failing: set<int>, from: nat): seq<Spec>
    requires from <= |buf|
    decreases |buf| - from
  {
    if from == |buf| then []
    else
      var end := if from + BATCH_SIZE > |buf| then |buf| else from + BATCH_SIZE;
      (if from in failing then [] else buf[from..end]) + Delivered(buf, failing, end)
  }

  lemma {:induction false} AllDelivered(buf: seq<Spec>, failing: set<int>, from: nat)
    requires from <= |buf|
    ensures |Delivered(buf, failing, from)| <= |buf| - from
    ensures (forall offset | from <= offset < |buf| :: offset !in failing)
            ==> Delivered(buf, failing, from) == buf[from..]
    decreases |buf| - from
  {
    if from >= |buf| {
    } else {
      var end := if from + BATCH_SIZE > |buf| then |buf| else from + BATCH_SIZE;
      AllDelivered(buf, failing, end);
      assert buf[from..] == buf[from..end] + buf[end..];
    }
  }

  predicate Ascends(kept: seq<nat>) {
    forall i, j | 0 <= i < j < |kept| :: kept[i] < kept[j]
  }

  /** sent lists the specs of buf from index from on, in order, whose batch of 500 is not rejected;
      kept are their indices. */
  ghost predicate IsDelivery(buf: seq<Spec>, failing: set<int>, from: nat, kept: seq<nat>, sent: seq<Spec>) {
    && |kept| == |sent| && Ascends(kept)
    && (forall i | 0 <= i < |kept| :: from <= kept[i] < |buf| && sent[i] == buf[kept[i]])
    && (forall k | from <= k < |buf| :: k in kept <==> k - k % 500 !in failing)
  }

  lemma {:induction false} DeliveredFrom(buf: seq<Spec>, failing: set<int>, from: nat) returns (kept: seq<nat>)
    requires from <= |buf| && (from % 500 == 0 || from == |buf|)
    ensures IsDelivery(buf, failing, from, kept, Delivered(buf, failing, from))
    decreases |buf| - from
  {
    if from == |buf| {
      kept := [];
    } else {
      var end := if from + BATCH_SIZE > |buf| then |buf| else from + BATCH_SIZE;
      var rest := DeliveredFrom(buf, failing, end);
      var first := if from in failing then [] else seq(end - from, i => from + i);
      BatchDelivered(buf, failing, from, end, rest, Delivered(buf, failing, end), first);
      kept := first + rest;
    }
  }

  lemma BatchDelivered(buf: seq<Spec>, failing: set<int>, from: nat, end: nat, rest: seq<nat>, sent: seq<Spec>,
                       first: seq<nat>)
    requires from < end <= |buf| && from % 500 == 0 && end <= from + 500 && IsDelivery(buf, failing, end, rest, sent)
    requires first == if from in failing then [] else seq(end - from, i => from + i)
    ensures IsDelivery(buf, failing, from, first + rest, (if from in failing then [] else buf[from..end]) + sent)
  {
    forall k | from <= k < |buf|
      ensures k in first + rest <==> k - k % 500 !in failing
    {
      KeptInBatch(failing, from, end, rest, first, k);
    }
  }

  lemma KeptInBatch(failing: set<int>, from: nat, end: nat, rest: seq<nat>, first: seq<nat>, k: nat)
    requires from < end <= from + 500 && from % 500 == 0 && from <= k && forall i | 0 <= i < |rest| :: end <= rest[i]
    requires first == if from in failing then [] else seq(end - from, i => from + i)
    ensures k in first + rest <==> if k < end then k - k % 500 !in failing else k in rest
  {
    if k < end {
      assert k - k % 500 == from;
      assert from !in failing ==> first[k - from] == k;
      assert k !in rest;
    }
  }

  /** The specs that reach the table are those whose batch of 500 is not rejected, in order. */
  lemma DeliveredMeaning(buf: seq<Spec>, failing: set<int>) returns (kept: seq<nat>)
    ensures forall i, j | 0 <= i < j < |kept| :: kept[i] < kept[j]
    ensures forall k: nat :: k in kept <==> k < |buf| && k - k % 500 !in failing
    ensures |Delivered(buf, failing, 0)| == |kept|
    ensures forall i | 0 <= i < |kept| :: kept[i] < |buf| && Delivered(buf, failing, 0)[i] == buf[kept[i]]
  {
    kept := DeliveredFrom(buf, failing, 0);
  }

  lemma DeliveredStep(buf: seq<Spec>, failing: set<int>, from: nat, sent: seq<Spec>)
    requires from < |buf|
    ensures var end := if from + BATCH_SIZE > |buf| then |buf| else from + BATCH_SIZE;
            sent + Delivered(buf, failing, from)
            == (sent + if from in failing then [] else buf[from..end]) + Delivered(buf, failing, end)
  {
  }

  class JobContext {
    const table: JobTable
    const jobId: int
    var subJobBuf: seq<Spec>

    constructor (table: JobTable, jobId: int)
      ensures this.table == table && this.jobId == jobId && subJobBuf == []
    {
      this.table, this.jobId, this.subJobBuf := table, jobId, [];
    }

    method AddSubJob(spec: Spec)
      modifies this
      ensures subJobBuf == old(subJobBuf) + [spec]
    {
      subJobBuf := subJobBuf + [spec];
    }

    /** One batch; ghost arguments say which rows were there before and what was sent so far. */
    method FlushBatch(chunk: seq<Spec>, fails: bool, ghost rows: Rows, ghost next: int, ghost sent: seq<Spec>)
        returns (n: nat)
      requires table.Valid() && jobId in rows
      requires table.nextId == next + |sent| && table.rows == InsertedChildren(rows, next, jobId, sent)
      modifies table
      ensures table.Valid()
      ensures var sent' := sent + (if fails then [] else chunk);
              && n == |sent'| - |sent| && table.nextId == next + |sent'|
              && table.rows == InsertedChildren(rows, next, jobId, sent')
    {
      InsertedTwice(rows, next, jobId, sent, chunk);
      var count, ok := table.JobCreateSubJobBatch(jobId, chunk, fails);
      assert sent + [] == sent;
      if !ok {
        return 0;
      }
      return count;
    }

    /** Writes the buffer in batches; the returned total counts the rows that were written. */
    method FlushSubJobs(failing: set<int>) returns (total: nat)
      requires table.Valid() && jobId in table.rows
      modifies this, table
      ensures table.Valid() && subJobBuf == []
      ensures var sent := Delivered(old(subJobBuf), failing, 0);
              && total == |sent| && table.nextId == old(table.nextId) + |sent|
              && table.rows == InsertedChildren(old(table.rows), old(table.nextId), jobId, sent)
    {
      var buf := subJobBuf;
      subJobBuf := [];
      ghost var rows, next, sent := table.rows, table.nextId, [];
      total := 0;
      if |buf| == 0 {
        return;
      }
      var i := 0;
      while i < |buf|
        invariant 0 <= i && table.Valid() && subJobBuf == []
        invariant sent + Delivered(buf, failing, if i < |buf| then i else |buf|) == Delivered(buf, failing, 0)
        invariant total == |sent| && table.nextId == next + |sent|
        invariant table.rows == InsertedChildren(rows, next, jobId, sent)
      {
        var end := i + BATCH_SIZE;
        if end > |buf| {
          end := |buf|;
        }
        DeliveredStep(buf, failing, i, sent);
        var n := FlushBatch(buf[i..end], i in failing, rows, next, sent);
        total := total + n;
        sent := sent + (if i in failing then [] else buf[i..end]);
        i := i + BATCH_SIZE;
      }
      assert sent == sent + [] == Delivered(buf, failing, 0);
    }
  }
}
