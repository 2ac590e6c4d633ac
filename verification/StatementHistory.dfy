/** Undoing log entries one at a time. A history pairs every log entry with the states before and
    after the call that wrote it; undoing the entries from the end walks that history backwards. */
module StatementHistory {
  import opened Cluster
  import opened Options
  import opened StatementSpec

  // ---------------------------------------------------------------- the shape of the log between calls

  /** Entry `j` is the last entry about the task of entry `k` that comes before `k`. */
  predicate JustBefore(log: Log, j: nat, k: nat)
    requires j < k < |log|
  {
    TaskOf(log[j]) == TaskOf(log[k]) && forall m :: j < m < k ==> TaskOf(log[m]) != TaskOf(log[k])
  }

  predicate IsRepipeline(op: Operation) {
    op.PipelineOp? && op.wasOnNode
  }

  /** Undo entries point backwards at evictions, none of which is undone twice. */
  ghost predicate UndoneOnce(log: Log) {
    && (forall k :: 0 <= k < |log| && log[k].UndoOp? ==>
          log[k].index < k && log[k].target == log[log[k].index] && log[k].target.EvictOp?)
    && (forall j, k :: 0 <= j < k < |log| && log[j].UndoOp? && log[k].UndoOp? ==> log[j].index != log[k].index)
  }

  /** Between calls it is so, and a task that was pipelined onto a node still holding it had been evicted
      just before. */
  ghost predicate PublicLog(log: Log) {
    && UndoneOnce(log)
    && (forall k :: 0 <= k < |log| && IsRepipeline(log[k]) ==>
          exists j :: 0 <= j < k && JustBefore(log, j, k) && log[j].EvictOp?)
  }

  lemma PublicIsBackward(log: Log)
    requires PublicLog(log)
    ensures Backward(log)
  {
  }

  /** If nothing is undone twice, an eviction is valid exactly when no undo entry points at it; every other
      entry is valid. */
  lemma UndoneOnceValidity(log: Log, i: nat)
    requires UndoneOnce(log) && Backward(log) && i < |log|
    ensures OperationValid(log, i) <==> forall k :: 0 <= k < |log| && log[k].UndoOp? ==> log[k].index != i
    ensures !log[i].EvictOp? ==> OperationValid(log, i)
  {
    match FirstUndo(log, i, 0)
    case None =>
    case Some(u) =>
      assert log[u].target.EvictOp?;
      assert FirstUndo(log, u, 0).None?;
      assert OperationValid(log, u);
  }

  /** So it is between calls. */
  lemma PublicValidity(log: Log, i: nat)
    requires PublicLog(log) && Backward(log) && i < |log|
    ensures OperationValid(log, i) <==> forall k :: 0 <= k < |log| && log[k].UndoOp? ==> log[k].index != i
    ensures !log[i].EvictOp? ==> OperationValid(log, i)
  {
    hide OperationValid;
    assert UndoneOnce(log);
    UndoneOnceValidity(log, i);
  }

  // ---------------------------------------------------------------- one entry and its inverse

  /** The task still is what eviction `op` made of it, so that undoing the eviction can be redone. */
  predicate AsEvicted(c: Core, op: Operation)
    requires op.EvictOp? && op.task in c.tasks
  {
    var r := c.tasks[op.task];
    var slot := Slot(op.previous.node, op.task);
    && r.status.Releasing? && r.virtual && r.node == op.previous.node
    && slot in c.pods && c.pods[slot] == Copy(Releasing, true, op.previous.groups, op.previous.numa)
  }

  /** Entry `op` was written by a call that led from `h0` to `h1`. */
  ghost predicate Recorded(spec: Spec, op: Operation, h0: Core, h1: Core)
    decreases op
  {
    var t := TaskOf(op);
    && WellFormed(spec, h0) && WellFormed(spec, h1) && OpKnown(spec, op) && t in spec.tasks && JobFound(spec, t)
    && match op
       case EvictOp(_, previous, _) =>
         var slot := Slot(previous.node, t);
         && previous == h0.tasks[t] && IsActiveAllocated(previous.status)
         && slot in h0.pods && h0.pods[slot] == CopyOf(previous)
         && h1 == Evicted(h0, t)
       case PipelineOp(_, previous, host, wasOnNode) =>
         && host in spec.nodes
         && IsPlaceable(h0.tasks[t].status) && SameRecord(previous, h0.tasks[t])
         && wasOnNode == (Slot(host, t) in h0.pods)
         && (wasOnNode ==> h0.tasks[t].node == host)
         && h1 == PipelinedTo(spec, h0, t, host)
       case AllocateOp(_, host, _, virtual) =>
         && host in spec.nodes
         && h0.tasks[t].status.Pending? && h0.tasks[t].node == NO_NODE && h0.tasks[t].virtual == virtual
         && Slot(host, t) !in h0.pods
         && h1 == AllocatedTo(h0, t, host)
       case UndoOp(_, target) =>
         && target.EvictOp? && (exists g0, g1 :: Recorded(spec, target, g0, g1))
         && AsEvicted(h0, target)
         && h1 == Unevicted(spec, h0, target)
  }

  /** What undoing the entry does to the session. */
  function Inverse(spec: Spec, op: Operation, c: Core): Core
    requires WellFormed(spec, c) && OpKnown(spec, op) && TaskOf(op) in spec.tasks
  {
    match op
    case EvictOp(_, _, _) => Unevicted(spec, c, op)
    case PipelineOp(_, _, _, _) => Unpipelined(spec, c, op)
    case AllocateOp(t, _, numa, virtual) => Unallocated(spec, c, t, numa, virtual)
    case UndoOp(_, target) => Evicted(c, TaskOf(op))
  }

  /** Tasks missing from their node once entries |log|-1 down to i are undone: each was pipelined onto
      its own node by an undone entry, and the eviction that would put it back is not undone. */
  function Lost(log: Log, i: nat): set<TaskId>
    requires i <= |log|
    decreases |log| - i
  {
    if i == |log| then {}
    else
      var rest := Lost(log, i + 1) - {TaskOf(log[i])};
      if IsRepipeline(log[i]) then rest + {TaskOf(log[i])} else rest
  }

  /** A task is lost exactly when the first undone entry about it is such a re-pipelining. */
  lemma {:induction false} LostIff(log: Log, i: nat, t: TaskId)
    requires i <= |log|
    ensures t in Lost(log, i) <==>
      exists k :: i <= k < |log| && IsRepipeline(log[k]) && TaskOf(log[k]) == t &&
        forall j :: i <= j < k ==> TaskOf(log[j]) != t
    decreases |log| - i
  {
    if i < |log| {
      LostIff(log, i + 1, t);
    }
  }

  /** The next entry to undo about a lost task is the eviction that puts it back. */
  lemma LostIsEvictedBefore(log: Log, i: nat)
    requires PublicLog(log) && 0 < i <= |log| && TaskOf(log[i - 1]) in Lost(log, i)
    ensures log[i - 1].EvictOp?
  {
    var t := TaskOf(log[i - 1]);
    LostIff(log, i, t);
    var k :| i <= k < |log| && IsRepipeline(log[k]) && TaskOf(log[k]) == t &&
             forall j :: i <= j < k ==> TaskOf(log[j]) != t;
    var j :| 0 <= j < k && JustBefore(log, j, k) && log[j].EvictOp?;
    assert !(j < i - 1);
  }

  function LostAfter(op: Operation, lost: set<TaskId>): set<TaskId> {
    if IsRepipeline(op) then lost - {TaskOf(op)} + {TaskOf(op)} else lost - {TaskOf(op)}
  }

  lemma TouchRestoresSlot(h0: Core, t: TaskId, r1: Record, node: NodeName, e1: Option<Copy>, delta: int,
                          h1: Core, s: Core, r0: Record, e0: Option<Copy>, lost: set<TaskId>, lost': set<TaskId>, x: Slot)
    requires t in h0.tasks && t in h0.ledger && t in s.ledger
    requires h1 == Touch(h0, t, r1, node, e1, delta).(orphans := h1.orphans)
    requires SameSlot(s, h1, lost, x)
    requires t in lost ==> r1.node == node
    requires lost' == (if e0.None? && Slot(node, t) in h0.pods then lost - {t} + {t} else lost - {t})
    requires if e0.None? && Slot(node, t) in h0.pods then h0.tasks[t].node == node
             else e0 == OnNode(h0, Slot(node, t))
    ensures SameSlot(Touch(s, t, r0, node, e0, -delta), h0, lost', x)
  {
  }

  /** One update answered by another that gives the task its old record back: all that is left to
      check is the entry in the task map of the node both updates write. */
  lemma TouchRestores(h0: Core, t: TaskId, r1: Record, node: NodeName, e1: Option<Copy>, delta: int,
                      h1: Core, s: Core, r0: Record, e0: Option<Copy>, lost: set<TaskId>, lost': set<TaskId>)
    requires t in h0.tasks && t in h0.ledger && t in s.ledger
    requires h1 == Touch(h0, t, r1, node, e1, delta).(orphans := h1.orphans)
    requires Same(s, h1, lost) && SameRecord(r0, h0.tasks[t])
    requires t in lost ==> r1.node == node
    requires lost' == (if e0.None? && Slot(node, t) in h0.pods then lost - {t} + {t} else lost - {t})
    requires if e0.None? && Slot(node, t) in h0.pods then h0.tasks[t].node == node
             else e0 == OnNode(h0, Slot(node, t))
    ensures Same(Touch(s, t, r0, node, e0, -delta), h0, lost')
  {
    hide SameSlot;
    var s' := Touch(s, t, r0, node, e0, -delta);
    assert s'.ledger == h0.ledger;
    forall u | u in h0.tasks ensures SameRecord(s'.tasks[u], h0.tasks[u]) {
      assert SameRecord(s.tasks[u], h1.tasks[u]);
    }
    forall x: Slot ensures SameSlot(s', h0, lost', x) {
      assert SameSlot(s, h1, lost, x);
      TouchRestoresSlot(h0, t, r1, node, e1, delta, h1, s, r0, e0, lost, lost', x);
    }
  }

  lemma EvictRestores(spec: Spec, op: Operation, h0: Core, h1: Core, s: Core, lost: set<TaskId>)
    requires op.EvictOp? && Recorded(spec, op, h0, h1) && WellFormed(spec, s) && Same(s, h1, lost)
    requires TaskOf(op) in lost ==> op.EvictOp?
    ensures Same(Inverse(spec, op, s), h0, LostAfter(op, lost))
  {
    var t := TaskOf(op);
    assert SameRecord(s.tasks[t], h1.tasks[t]);
    var r1, r0 := h1.tasks[t], Inverse(spec, op, s).tasks[t];
    TouchRestores(h0, t, r1, op.previous.node, Some(CopyOf(r1)), -1, h1, s, r0, Some(CopyOf(r0)),
                  lost, LostAfter(op, lost));
  }

  lemma PipelineRestores(spec: Spec, op: Operation, h0: Core, h1: Core, s: Core, lost: set<TaskId>)
    requires op.PipelineOp? && Recorded(spec, op, h0, h1) && WellFormed(spec, s) && Same(s, h1, lost)
    requires TaskOf(op) in lost ==> op.EvictOp?
    ensures Same(Inverse(spec, op, s), h0, LostAfter(op, lost))
  {
    var t := TaskOf(op);
    assert SameRecord(s.tasks[t], h1.tasks[t]);
    var r1, r0 := h1.tasks[t], Inverse(spec, op, s).tasks[t];
    TouchRestores(h0, t, r1, op.nextNode, Some(CopyOf(r1)), 1, h1, s, r0, None, lost, LostAfter(op, lost));
  }

  lemma AllocateRestores(spec: Spec, op: Operation, h0: Core, h1: Core, s: Core, lost: set<TaskId>)
    requires op.AllocateOp? && Recorded(spec, op, h0, h1) && WellFormed(spec, s) && Same(s, h1, lost)
    requires TaskOf(op) in lost ==> op.EvictOp?
    ensures Same(Inverse(spec, op, s), h0, LostAfter(op, lost))
  {
    var t := TaskOf(op);
    assert SameRecord(s.tasks[t], h1.tasks[t]);
    var r1, r0 := h1.tasks[t], Inverse(spec, op, s).tasks[t];
    TouchRestores(h0, t, r1, op.nextNode, Some(CopyOf(r1)), 1, h1, s, r0, None, lost, LostAfter(op, lost));
  }

  lemma UndoRestores(spec: Spec, op: Operation, h0: Core, h1: Core, s: Core, lost: set<TaskId>)
    requires op.UndoOp? && Recorded(spec, op, h0, h1) && WellFormed(spec, s) && Same(s, h1, lost)
    requires TaskOf(op) in lost ==> op.EvictOp?
    ensures Same(Inverse(spec, op, s), h0, LostAfter(op, lost))
  {
    var t := TaskOf(op);
    assert SameRecord(s.tasks[t], h1.tasks[t]);
    var r1, r0 := h1.tasks[t], Inverse(spec, op, s).tasks[t];
    TouchRestores(h0, t, r1, r1.node, Some(CopyOf(r1)), 1, h1, s, r0, Some(CopyOf(r0)), lost, LostAfter(op, lost));
  }

  /** Undoing an entry takes any state that looks like the one after the call to one that looks like
      the one before it, up to the copies that are lost. */
  lemma InverseRestores(spec: Spec, op: Operation, h0: Core, h1: Core, s: Core, lost: set<TaskId>)
    requires Recorded(spec, op, h0, h1) && WellFormed(spec, s) && Same(s, h1, lost)
    requires TaskOf(op) in lost ==> op.EvictOp?
    ensures Same(Inverse(spec, op, s), h0, LostAfter(op, lost))
  {
    match op
    case EvictOp(_, _, _) => EvictRestores(spec, op, h0, h1, s, lost);
    case PipelineOp(_, _, _, _) => PipelineRestores(spec, op, h0, h1, s, lost);
    case AllocateOp(_, _, _, _) => AllocateRestores(spec, op, h0, h1, s, lost);
    case UndoOp(_, _) => UndoRestores(spec, op, h0, h1, s, lost);
  }
}
