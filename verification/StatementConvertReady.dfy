/** What a history says about an allocated task: when its allocation can be converted. */
module StatementConvertReady {
  import opened Cluster
  import opened StatementSpec
  import opened StatementHistory
  import opened StatementRollback
  import opened StatementConvert
  import opened StatementConvertLaws

  /** Every task of the job that an entry of the log allocated is still allocated. */
  predicate StillAllocated(spec: Spec, c: Core, log: Log, job: JobId)
    requires WellFormed(spec, c)
  {
    forall k :: 0 <= k < |log| && IsAllocationOf(spec, log[k], job) ==> c.tasks[log[k].task].status.Allocated?
  }

  /** No allocation of the job comes before an entry that has been undone. */
  predicate UndosBefore(spec: Spec, log: Log, job: JobId) {
    forall u, k :: 0 <= u < |log| && 0 <= k < |log| && log[u].UndoOp? && IsAllocationOf(spec, log[k], job) ==>
      log[u].index < k
  }

  // ---------------------------------------------------------------- one task through the log

  /** What an entry makes of its task. */
  lemma EntryStatus(spec: Spec, op: Operation, h0: Core, h1: Core)
    requires Recorded(spec, op, h0, h1)
    ensures var t := TaskOf(op);
            && t in h0.tasks && t in h1.tasks && t in h1.ledger && !h1.tasks[t].status.Pending?
            && (op.EvictOp? ==> h1.tasks[t].status.Releasing?)
            && (op.PipelineOp? ==> h1.tasks[t].status.Pipelined?)
            && (op.AllocateOp? ==>
                  h0.tasks[t].status.Pending? && h1.tasks[t].status.Allocated? && h1.tasks[t].node == op.nextNode)
            && (op.UndoOp? ==> op.target.EvictOp? && h1.tasks[t].status == op.target.previous.status
                               && h1.tasks[t].node == op.target.previous.node)
  {
    if op.UndoOp? {
      var g0, g1 :| Recorded(spec, op.target, g0, g1);
    }
  }

  /** A task stays as its last entry left it. */
  lemma SinceEntry(spec: Spec, log: Log, h: History, c: Core, m: nat, j: nat)
    requires IsHistory(spec, log, h, c) && m < j <= |log|
    requires forall i :: m < i < j ==> TaskOf(log[i]) != TaskOf(log[m])
    ensures Recorded(spec, log[m], h[m].0, h[m].1) && TaskSame(At(h, c, j), h[m].1, TaskOf(log[m]))
  {
    hide Recorded, PublicLog, Same, Settled;
    var t := TaskOf(log[m]);
    assert HistoryStep(spec, log, h, c, m);
    RecordedIsWellFormed(spec, log[m], h[m].0, h[m].1);
    TaskIsKnown(spec, log[m], h[m].0, h[m].1);
    SameTask(At(h, c, m + 1), h[m].1, t);
    Untouched(spec, log, h, c, t, m + 1, j);
  }

  lemma TaskIsKnown(spec: Spec, op: Operation, h0: Core, h1: Core)
    requires Recorded(spec, op, h0, h1)
    ensures TaskOf(op) in spec.tasks && JobFound(spec, TaskOf(op))
  {
  }

  /** An allocation is the first entry about its task. */
  lemma {:induction false} NothingBefore(spec: Spec, log: Log, h: History, c: Core, k: nat, j: nat)
    requires IsHistory(spec, log, h, c) && j <= k < |log| && log[k].AllocateOp?
    ensures forall m :: j <= m < k ==> TaskOf(log[m]) != TaskOf(log[k])
    decreases k - j
  {
    hide Recorded, PublicLog, Same, Settled;
    if j < k {
      NothingBefore(spec, log, h, c, k, j + 1);
      assert HistoryStep(spec, log, h, c, k) && HistoryStep(spec, log, h, c, j);
      EntryStatus(spec, log[k], h[k].0, h[k].1);
      EntryStatus(spec, log[j], h[j].0, h[j].1);
      if TaskOf(log[j]) == TaskOf(log[k]) { SinceEntry(spec, log, h, c, j, k); }
    }
  }

  /** A task that is allocated is on the node it was allocated on, however often it was evicted and
      brought back since. */
  lemma {:induction false} AllocatedWhere(spec: Spec, log: Log, h: History, c: Core, k: nat, j: nat)
    requires IsHistory(spec, log, h, c) && k < j <= |log| && log[k].AllocateOp?
    requires WellFormed(spec, At(h, c, j)) && log[k].task in spec.tasks
    requires At(h, c, j).tasks[log[k].task].status.Allocated?
    ensures At(h, c, j).tasks[log[k].task].node == log[k].nextNode
    decreases j
  {
    hide Recorded, PublicLog, Same, Settled;
    var t, m := log[k].task, j - 1;
    assert HistoryStep(spec, log, h, c, m);
    RecordedIsWellFormed(spec, log[m], h[m].0, h[m].1);
    if TaskOf(log[m]) != t {
      Untouched(spec, log, h, c, t, m, j);
      AllocatedWhere(spec, log, h, c, k, m);
    } else {
      SinceEntry(spec, log, h, c, m, j);
      EntryStatus(spec, log[m], h[m].0, h[m].1);
      if log[m].AllocateOp? {
        NothingBefore(spec, log, h, c, m, 0);
      } else {
        BroughtBack(spec, log, h, c, k, m);
      }
    }
  }

  /** Undoing an eviction of an allocated task puts it back on the node it was allocated on. */
  lemma BroughtBack(spec: Spec, log: Log, h: History, c: Core, k: nat, m: nat)
    requires IsHistory(spec, log, h, c) && k < m < |log| && log[k].AllocateOp? && log[k].task in spec.tasks
    requires log[m].UndoOp? && TaskOf(log[m]) == log[k].task && log[m].target.EvictOp?
    requires log[m].target.previous.status.Allocated?
    ensures log[m].target.previous.node == log[k].nextNode
    decreases m, 0
  {
    hide Same, Settled, Recorded, HistoryStep;
    var e := log[m].index;
    assert log[e] == log[m].target;
    NothingBefore(spec, log, h, c, k, 0);
    assert k < e < m;
    EvictedFrom(spec, log, h, c, e);
    AllocatedWhere(spec, log, h, c, k, e);
  }

  /** An eviction captured the task as it was. */
  lemma EvictedFrom(spec: Spec, log: Log, h: History, c: Core, e: nat)
    requires IsHistory(spec, log, h, c) && e < |log| && log[e].EvictOp?
    ensures WellFormed(spec, At(h, c, e)) && log[e].task in At(h, c, e).tasks
    ensures log[e].previous == At(h, c, e).tasks[log[e].task]
  {
    hide PublicLog, Same, Settled;
    assert HistoryStep(spec, log, h, c, e);
  }

  /** A task that is still allocated can be converted. */
  lemma StillReady(spec: Spec, log: Log, h: History, c: Core, k: nat)
    requires IsHistory(spec, log, h, c) && Settled(spec, c) && k < |log| && log[k].AllocateOp?
    requires log[k].task in spec.tasks && c.tasks[log[k].task].status.Allocated?
    ensures Ready(spec, c, log[k])
  {
    AllocatedWhere(spec, log, h, c, k, |log|);
    assert HistoryStep(spec, log, h, c, k);
  }

  lemma EntryNode(spec: Spec, op: Operation, h0: Core, h1: Core)
    requires Recorded(spec, op, h0, h1)
    ensures TaskOf(op) in h1.tasks && h1.tasks[TaskOf(op)].node in spec.nodes
    ensures op.AllocateOp? ==> op.nextNode in spec.nodes
  {
  }

  lemma {:induction false} LastAbout(log: Log, k: nat) returns (m: nat)
    requires k < |log|
    ensures k <= m < |log| && TaskOf(log[m]) == TaskOf(log[k])
    ensures forall i :: m < i < |log| ==> TaskOf(log[i]) != TaskOf(log[k])
    decreases |log| - k
  {
    m := k;
    if i :| k < i < |log| && TaskOf(log[i]) == TaskOf(log[k]) { m := LastAbout(log, i); }
  }

  /** Whatever became of it since, a task that was allocated is on some node. */
  lemma StaysOnNode(spec: Spec, log: Log, h: History, c: Core, k: nat)
    requires IsHistory(spec, log, h, c) && k < |log| && log[k].AllocateOp?
    ensures var t := log[k].task;
            && t in spec.tasks && JobFound(spec, t) && log[k].nextNode in spec.nodes && c.tasks[t].node in spec.nodes
  {
    hide Recorded, PublicLog, Same, Settled;
    var m := LastAbout(log, k);
    SinceEntry(spec, log, h, c, m, |log|);
    EntryNode(spec, log[m], h[m].0, h[m].1);
    assert HistoryStep(spec, log, h, c, k);
    EntryNode(spec, log[k], h[k].0, h[k].1);
    TaskIsKnown(spec, log[k], h[k].0, h[k].1);
  }

  /** With nothing undone that came after it, such an allocation is the only entry about its task. */
  lemma {:induction false} NothingAfter(spec: Spec, log: Log, h: History, c: Core, k: nat, j: nat)
    requires IsHistory(spec, log, h, c) && k < j <= |log| && log[k].AllocateOp?
    requires log[k].task in spec.tasks && c.tasks[log[k].task].status.Allocated?
    requires forall u :: 0 <= u < |log| && log[u].UndoOp? ==> log[u].index < k
    ensures forall m :: j <= m < |log| ==> TaskOf(log[m]) != log[k].task
    decreases |log| - j
  {
    hide Recorded, PublicLog, Same, Settled;
    if j < |log| {
      NothingAfter(spec, log, h, c, k, j + 1);
      if TaskOf(log[j]) == log[k].task {
        SinceEntry(spec, log, h, c, j, |log|);
        EntryStatus(spec, log[j], h[j].0, h[j].1);
        if log[j].AllocateOp? { NothingBefore(spec, log, h, c, j, 0); }
        UndoTarget(log, j);
        NothingBefore(spec, log, h, c, k, 0);
      }
    }
  }

  lemma UndoTarget(log: Log, j: nat)
    requires PublicLog(log) && j < |log|
    ensures log[j].UndoOp? ==> log[j].index < j && log[log[j].index] == log[j].target
  {
  }

  // ---------------------------------------------------------------- all allocations of a job

  /** For a log with a history, all that a conversion needs is that the job's allocated tasks still are
      allocated, and that nothing has been undone that came after one of the allocations. */
  lemma ConvertReadyIff(spec: Spec, log: Log, h: History, c: Core, job: JobId)
    requires IsHistory(spec, log, h, c) && Settled(spec, c)
    ensures ConvertReady(spec, c, log, job) <==> StillAllocated(spec, c, log, job) && UndosBefore(spec, log, job)
  {
    if StillAllocated(spec, c, log, job) && UndosBefore(spec, log, job) {
      forall k | 0 <= k < |log| && IsAllocationOf(spec, log[k], job) ensures ReadyAt(spec, c, log, k) {
        hide Recorded, PublicLog, Same, Settled, HistoryStep;
        StillReady(spec, log, h, c, k);
        NothingBefore(spec, log, h, c, k, 0);
        NothingAfter(spec, log, h, c, k, k + 1);
      }
    }
    if ConvertReady(spec, c, log, job) {
      forall k | 0 <= k < |log| && IsAllocationOf(spec, log[k], job)
        ensures c.tasks[log[k].task].status.Allocated?
        ensures forall u :: 0 <= u < |log| && log[u].UndoOp? ==> log[u].index < k
      {
        assert ReadyAt(spec, c, log, k);
      }
    }
  }
}
