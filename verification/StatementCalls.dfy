/** The calls that make up a statement: what the scheduler keeps to when it makes them, and that each
    of them keeps the statement's history. */
module StatementCalls {
  import opened Cluster
  import opened Options
  import opened StatementSpec
  import opened StatementHistory
  import opened StatementRollback

  /** Place is the scheduler writing GPU groups and a NUMA placement into a task before it places it. */
  datatype Call =
    | Place(task: TaskId, groups: seq<string>, numa: Numa)
    | DoEvict(task: TaskId, metadata: EvictionMetadata)
    | DoPipeline(task: TaskId, host: NodeName, canUndoEviction: bool)
    | DoAllocate(task: TaskId, host: NodeName)
    | DoUnevict(task: TaskId)
    | DoRollback(checkpoint: nat)

  function Perform(spec: Spec, c: Core, log: Log, a: Call): (r: Outcome)
    requires WellFormed(spec, c) && Backward(log) && Known(spec, log)
    requires a.DoRollback? || a.task in spec.tasks
    ensures WellFormed(spec, r.core) && Backward(r.log) && Known(spec, r.log)
  {
    match a
    case Place(t, groups, numa) =>
      Outcome(WithRecord(c, t, c.tasks[t].(groups := groups, numa := numa)), log, true)
    case DoEvict(t, metadata) => Evict(spec, c, log, t, metadata)
    case DoPipeline(t, host, canUndo) => Pipeline(spec, c, log, t, host, canUndo)
    case DoAllocate(t, host) => Allocate(spec, c, log, t, host)
    case DoUnevict(t) => Unevict(spec, c, log, t)
    case DoRollback(cp) => Rollback(spec, c, log, cp)
  }

  /** The eviction that Unevict would undo left the task as it is now. */
  predicate Unevictable(spec: Spec, c: Core, log: Log, t: TaskId)
    requires WellFormed(spec, c) && Backward(log) && t in spec.tasks
  {
    var e := EarliestValidEvict(log, t, 0);
    e.Some? && AsEvicted(c, log[e.value])
  }

  /** The last entry about the task is an eviction. */
  predicate JustEvicted(log: Log, t: TaskId) {
    exists j :: 0 <= j < |log| && log[j].EvictOp? && log[j].task == t &&
      forall m :: j < m < |log| ==> TaskOf(log[m]) != t
  }

  /** What the scheduler's actions keep to: they evict active tasks, place pending or evicted ones,
      bind pending unplaced ones, and undo an eviction only while the task is as the eviction left it. */
  predicate Disciplined(spec: Spec, c: Core, log: Log, a: Call)
    requires WellFormed(spec, c) && Backward(log)
  {
    (a.DoRollback? || (a.task in spec.tasks && JobFound(spec, a.task))) &&
    match a
    case Place(t, _, _) => IsPlaceable(c.tasks[t].status)
    case DoEvict(t, _) => IsActiveAllocated(c.tasks[t].status) && c.tasks[t].node in spec.nodes
    case DoPipeline(t, host, canUndo) =>
      && host in spec.nodes && IsPlaceable(c.tasks[t].status)
      && (if PipelineUnevicts(spec, c, t, host, canUndo) then Unevictable(spec, c, log, t)
          else Slot(host, t) in c.pods ==> c.tasks[t].node == host && JustEvicted(log, t))
    case DoAllocate(t, host) =>
      && host in spec.nodes && c.tasks[t].status.Pending? && c.tasks[t].node == NO_NODE
      && Slot(host, t) !in c.pods
    case DoUnevict(t) => Unevictable(spec, c, log, t)
    case DoRollback(cp) => cp <= |log| && Lost(log, cp) == {}
  }

  // ---------------------------------------------------------------- one call keeps the history

  /** A step of one history is a step of another that agrees with it there. */
  lemma StepCarries(spec: Spec, log: Log, h: History, c: Core, log': Log, h': History, c': Core, k: nat)
    requires IsHistory(spec, log, h, c) && k < |log| && k < |log'| == |h'| && log'[k] == log[k] && h'[k] == h[k]
    requires At(h', c', k + 1) == At(h, c, k + 1) || Same(At(h', c', k + 1), At(h, c, k + 1), {})
    ensures HistoryStep(spec, log', h', c', k)
  {
    assert HistoryStep(spec, log, h, c, k);
    if At(h', c', k + 1) != At(h, c, k + 1) {
      SameCompose(At(h', c', k + 1), At(h, c, k + 1), h[k].1, {});
    }
  }

  lemma LastStep(spec: Spec, log: Log, h: History, c0: Core, op: Operation, c1: Core)
    requires |h| == |log| && Settled(spec, c0) && Recorded(spec, op, c0, c1)
    ensures HistoryStep(spec, log + [op], h + [(c0, c1)], c1, |log|)
    ensures OpKnown(spec, op) && WellFormed(spec, c1)
  {
    SameReflexive(c1);
  }

  /** A log entry is appended: the history grows by the states around the call. */
  lemma HistoryGrows(spec: Spec, c: Core, log: Log, h: History, c0: Core, op: Operation, c1: Core)
    requires IsHistory(spec, log, h, c) && Same(c0, c, {}) && Settled(spec, c0)
    requires Recorded(spec, op, c0, c1) && PublicLog(log + [op])
    ensures IsHistory(spec, log + [op], h + [(c0, c1)], c1)
  {
    hide Recorded, Same, Settled, PublicLog;
    var log', h' := log + [op], h + [(c0, c1)];
    LastStep(spec, log, h, c0, op, c1);
    forall k | 0 <= k < |log'| ensures HistoryStep(spec, log', h', c1, k) {
      if k < |log| { StepCarries(spec, log, h, c, log', h', c1, k); }
    }
  }

  /** An entry that is neither an undo nor a re-pipelining keeps the log in shape. */
  lemma PublicAppend(log: Log, op: Operation)
    requires PublicLog(log) && !op.UndoOp? && (IsRepipeline(op) ==> JustEvicted(log, TaskOf(op)))
    ensures PublicLog(log + [op])
  {
    var log' := log + [op];
    forall k | 0 <= k < |log'| && IsRepipeline(log'[k])
      ensures exists j :: 0 <= j < k && JustBefore(log', j, k) && log'[j].EvictOp?
    {
      if k < |log| {
        var j :| 0 <= j < k && JustBefore(log, j, k) && log[j].EvictOp?;
        assert JustBefore(log', j, k) && log'[j].EvictOp?;
      } else {
        var j :| 0 <= j < |log| && log[j].EvictOp? && log[j].task == TaskOf(op) &&
                 forall m :: j < m < |log| ==> TaskOf(log[m]) != TaskOf(op);
        assert JustBefore(log', j, k) && log'[j].EvictOp?;
      }
    }
  }

  lemma PublicAppendUndo(log: Log, e: nat)
    requires PublicLog(log) && Backward(log) && e < |log| && log[e].EvictOp? && OperationValid(log, e)
    ensures PublicLog(log + [UndoOp(e, log[e])])
  {
    PublicValidity(log, e);
    var log' := log + [UndoOp(e, log[e])];
    forall k | 0 <= k < |log'| && IsRepipeline(log'[k])
      ensures exists j :: 0 <= j < k && JustBefore(log', j, k) && log'[j].EvictOp?
    {
      var j :| 0 <= j < k && JustBefore(log, j, k) && log[j].EvictOp?;
      assert JustBefore(log', j, k) && log'[j].EvictOp?;
    }
  }

  /** What a disciplined call must do: keep a history, and leave the checkpoints it does not cut off alone. */
  ghost predicate Keeps(spec: Spec, c: Core, log: Log, h: History, r: Outcome, h': History)
    requires |h| == |log|
  {
    && r.ok && IsHistory(spec, r.log, h', r.core) && Settled(spec, r.core)
    && (log <= r.log || r.log <= log)
    && (forall k :: 0 <= k <= |log| && k <= |r.log| ==> SameCheckpoint(c, h, r.core, h', k))
  }

  ghost predicate SameCheckpoint(c: Core, h: History, c': Core, h': History, k: nat)
    requires k <= |h| && k <= |h'|
  {
    Same(At(h', c', k), At(h, c, k), {})
  }

  lemma GrowsKeeps(spec: Spec, c: Core, log: Log, h: History, c0: Core, op: Operation, c1: Core)
    requires IsHistory(spec, log, h, c) && Same(c0, c, {}) && Settled(spec, c0)
    requires Recorded(spec, op, c0, c1) && PublicLog(log + [op]) && Settled(spec, c1)
    ensures Keeps(spec, c, log, h, Outcome(c1, log + [op], true), h + [(c0, c1)])
  {
    hide Recorded, PublicLog, Same, Settled;
    HistoryGrows(spec, c, log, h, c0, op, c1);
    var h' := h + [(c0, c1)];
    forall k | 0 <= k <= |log| ensures SameCheckpoint(c, h, c1, h', k) {
      if k < |log| { SameReflexive(h[k].0); }
    }
  }

  /** An update that puts an active task and its node's copy in step, or makes the task inactive. */
  lemma TouchSettled(spec: Spec, c: Core, t: TaskId, r: Record, node: NodeName, e: Option<Copy>, delta: int, d: Core)
    requires t in c.tasks && t in c.ledger && Settled(spec, c)
    requires d == Touch(c, t, r, node, e, delta).(orphans := d.orphans)
    requires IsActiveAllocated(r.status) ==> r.node == node && e == Some(CopyOf(r))
    ensures Settled(spec, d)
  {
  }

  lemma EvictKeeps(spec: Spec, c: Core, log: Log, h: History, t: TaskId, metadata: EvictionMetadata)
    returns (h': History)
    requires IsHistory(spec, log, h, c) && Settled(spec, c) && Backward(log)
    requires Disciplined(spec, c, log, DoEvict(t, metadata))
    ensures Keeps(spec, c, log, h, Evict(spec, c, log, t, metadata), h')
  {
    var op := EvictOp(t, c.tasks[t], metadata);
    var c1 := Evicted(c, t);
    var r := c1.tasks[t];
    TouchSettled(spec, c, t, r, r.node, Some(CopyOf(r)), -1, c1);
    assert Recorded(spec, op, c, c1);
    PublicAppend(log, op);
    SameReflexive(c);
    hide Recorded, PublicLog, Same, Settled;
    GrowsKeeps(spec, c, log, h, c, op, c1);
    h' := h + [(c, c1)];
  }

  lemma AllocateKeeps(spec: Spec, c: Core, log: Log, h: History, t: TaskId, host: NodeName) returns (h': History)
    requires IsHistory(spec, log, h, c) && Settled(spec, c) && Backward(log)
    requires Disciplined(spec, c, log, DoAllocate(t, host))
    ensures Keeps(spec, c, log, h, Allocate(spec, c, log, t, host), h')
  {
    var op := AllocateOp(t, host, c.tasks[t].numa, c.tasks[t].virtual);
    var c1 := AllocatedTo(c, t, host);
    var r := c1.tasks[t];
    TouchSettled(spec, c, t, r, host, Some(CopyOf(r)), 1, c1);
    assert Recorded(spec, op, c, c1);
    PublicAppend(log, op);
    SameReflexive(c);
    hide Recorded, PublicLog, Same, Settled;
    GrowsKeeps(spec, c, log, h, c, op, c1);
    h' := h + [(c, c1)];
  }

  lemma PipelineOntoKeeps(spec: Spec, c: Core, log: Log, h: History, t: TaskId, host: NodeName)
    returns (h': History)
    requires IsHistory(spec, log, h, c) && Settled(spec, c) && Backward(log)
    requires t in spec.tasks && JobFound(spec, t) && host in spec.nodes && IsPlaceable(c.tasks[t].status)
    requires Slot(host, t) in c.pods ==> c.tasks[t].node == host && JustEvicted(log, t)
    ensures Keeps(spec, c, log, h, PipelineOnto(spec, c, log, t, host), h')
  {
    var op := PipelineOp(t, PipelinePrevious(spec, c, t, host), host, Slot(host, t) in c.pods);
    var c1 := PipelinedTo(spec, c, t, host);
    var r := c1.tasks[t];
    TouchSettled(spec, c, t, r, host, Some(CopyOf(r)), 1, c1);
    assert Recorded(spec, op, c, c1);
    PublicAppend(log, op);
    SameReflexive(c);
    hide Recorded, PublicLog, Same, Settled;
    GrowsKeeps(spec, c, log, h, c, op, c1);
    h' := h + [(c, c1)];
  }

  /** An eviction in the log had an active victim. */
  lemma EvictedWasActive(spec: Spec, log: Log, h: History, c: Core, e: nat)
    requires IsHistory(spec, log, h, c) && e < |log| && log[e].EvictOp?
    ensures IsActiveAllocated(log[e].previous.status) && JobFound(spec, log[e].task)
    ensures exists g0, g1 :: Recorded(spec, log[e], g0, g1)
  {
    assert HistoryStep(spec, log, h, c, e);
  }

  /** Undoing eviction `e` of a task that is as the eviction left it is a recorded step. */
  lemma UnevictRecorded(spec: Spec, c0: Core, e: nat, target: Operation)
    requires WellFormed(spec, c0) && Settled(spec, c0) && target.EvictOp? && OpKnown(spec, target)
    requires JobFound(spec, target.task) && IsActiveAllocated(target.previous.status) && AsEvicted(c0, target)
    requires exists g0, g1 :: Recorded(spec, target, g0, g1)
    ensures var c1 := Unevicted(spec, c0, target);
            Recorded(spec, UndoOp(e, target), c0, c1) && Settled(spec, c1)
  {
    var c1 := Unevicted(spec, c0, target);
    var t := target.task;
    var r := c1.tasks[t];
    TouchSettled(spec, c0, t, r, r.node, Some(CopyOf(r)), 1, c1);
  }

  /** Unevict undoes the earliest valid eviction. */
  lemma UnevictOutcome(spec: Spec, c: Core, log: Log, t: TaskId)
    requires WellFormed(spec, c) && Backward(log) && Known(spec, log) && t in spec.tasks
    requires EarliestValidEvict(log, t, 0).Some?
    ensures var e := EarliestValidEvict(log, t, 0).value;
            Unevict(spec, c, log, t) == Outcome(Unevicted(spec, c, log[e]), log + [UndoOp(e, log[e])], true)
  {
    var e := EarliestValidEvict(log, t, 0).value;
    assert ValidEvict(log, t, e) && OpKnown(spec, log[e]);
    assert Reverse(spec, c, log, log[e]) == Outcome(Unevicted(spec, c, log[e]), log, true);
  }

  lemma UnevictKeeps(spec: Spec, c: Core, log: Log, h: History, c0: Core, t: TaskId) returns (h': History)
    requires IsHistory(spec, log, h, c) && Same(c0, c, {}) && Settled(spec, c0) && Backward(log)
    requires WellFormed(spec, c0) && t in spec.tasks && Unevictable(spec, c0, log, t)
    ensures Keeps(spec, c, log, h, Unevict(spec, c0, log, t), h')
  {
    hide Recorded, Same, Settled, PublicLog, Keeps;
    var e := EarliestValidEvict(log, t, 0).value;
    UnevictOutcome(spec, c0, log, t);
    EvictedWasActive(spec, log, h, c, e);
    UnevictRecorded(spec, c0, e, log[e]);
    PublicAppendUndo(log, e);
    var c1 := Unevicted(spec, c0, log[e]);
    GrowsKeeps(spec, c, log, h, c0, UndoOp(e, log[e]), c1);
    h' := h + [(c0, c1)];
  }

  /** Writing placement wishes changes nothing that counts. */
  lemma PlaceIsSame(spec: Spec, c: Core, t: TaskId, groups: seq<string>, numa: Numa)
    requires WellFormed(spec, c) && Settled(spec, c) && t in c.tasks && IsPlaceable(c.tasks[t].status)
    ensures var c' := WithRecord(c, t, c.tasks[t].(groups := groups, numa := numa));
            Same(c', c, {}) && Settled(spec, c') && WellFormed(spec, c')
  {
    var c' := WithRecord(c, t, c.tasks[t].(groups := groups, numa := numa));
    assert SamePods(c', c, {}) by {
      hide Settled, WellFormed;
      forall s: Slot ensures SameSlot(c', c, {}, s) { assert OnNode(c', s) == OnNode(c, s); }
    }
    assert Settled(spec, c') by {
      hide SamePods, WellFormed;
      forall u | u in c'.tasks && IsActiveAllocated(c'.tasks[u].status) && c'.tasks[u].node in spec.nodes
        ensures Slot(c'.tasks[u].node, u) in c'.pods && c'.pods[Slot(c'.tasks[u].node, u)] == CopyOf(c'.tasks[u])
      {
        assert u != t && c'.tasks[u] == c.tasks[u];
      }
    }
  }

  lemma HistoryMoves(spec: Spec, log: Log, h: History, c: Core, c': Core)
    requires IsHistory(spec, log, h, c) && Same(c', c, {}) && WellFormed(spec, c')
    ensures IsHistory(spec, log, h, c')
  {
    forall k | 0 <= k < |log| ensures HistoryStep(spec, log, h, c', k) {
      StepCarries(spec, log, h, c, log, h, c', k);
    }
  }

  lemma PlaceKeeps(spec: Spec, c: Core, log: Log, h: History, t: TaskId, groups: seq<string>, numa: Numa)
    requires IsHistory(spec, log, h, c) && Settled(spec, c)
    requires t in spec.tasks && IsPlaceable(c.tasks[t].status)
    ensures Keeps(spec, c, log, h,
                  Outcome(WithRecord(c, t, c.tasks[t].(groups := groups, numa := numa)), log, true), h)
  {
    var c' := WithRecord(c, t, c.tasks[t].(groups := groups, numa := numa));
    PlaceIsSame(spec, c, t, groups, numa);
    HistoryMoves(spec, log, h, c, c');
    forall k | 0 <= k <= |log| ensures SameCheckpoint(c, h, c', h, k) {
      SameReflexive(At(h, c, k));
    }
  }

  lemma PipelineKeeps(spec: Spec, c: Core, log: Log, h: History, t: TaskId, host: NodeName, canUndo: bool)
    returns (h': History)
    requires IsHistory(spec, log, h, c) && Settled(spec, c) && Backward(log)
    requires Disciplined(spec, c, log, DoPipeline(t, host, canUndo))
    ensures Keeps(spec, c, log, h, Pipeline(spec, c, log, t, host, canUndo), h')
  {
    if PipelineUnevicts(spec, c, t, host, canUndo) {
      var onNode := c.pods[Slot(host, t)];
      PlaceIsSame(spec, c, t, onNode.groups, onNode.numa);
      h' := UnevictKeeps(spec, c, log, h, WithRecord(c, t, c.tasks[t].(groups := onNode.groups, numa := onNode.numa)), t);
    } else {
      h' := PipelineOntoKeeps(spec, c, log, h, t, host);
    }
  }

  lemma PublicPrefix(log: Log, cp: nat)
    requires PublicLog(log) && cp <= |log|
    ensures PublicLog(log[..cp])
  {
    var log' := log[..cp];
    forall k | 0 <= k < |log'| && IsRepipeline(log'[k])
      ensures exists j :: 0 <= j < k && JustBefore(log', j, k) && log'[j].EvictOp?
    {
      var j :| 0 <= j < k && JustBefore(log, j, k) && log[j].EvictOp?;
      assert JustBefore(log', j, k) && log'[j].EvictOp?;
    }
  }

  lemma SettledSame(spec: Spec, a: Core, b: Core)
    requires Same(a, b, {}) && Settled(spec, b)
    ensures Settled(spec, a)
  {
    SameNothingLost(a, b);
    forall t | t in a.tasks && IsActiveAllocated(a.tasks[t].status) && a.tasks[t].node in spec.nodes
      ensures var slot := Slot(a.tasks[t].node, t); slot in a.pods && a.pods[slot] == CopyOf(a.tasks[t])
    {
      assert SameRecord(a.tasks[t], b.tasks[t]);
    }
  }

  lemma HistoryPrefix(spec: Spec, log: Log, h: History, c: Core, cp: nat, c': Core)
    requires IsHistory(spec, log, h, c) && cp <= |log| && WellFormed(spec, c') && Same(c', At(h, c, cp), {})
    ensures IsHistory(spec, log[..cp], h[..cp], c')
  {
    hide Recorded, PublicLog, Same, Settled, WellFormed, HistoryStep;
    PublicPrefix(log, cp);
    forall k | 0 <= k < cp ensures HistoryStep(spec, log[..cp], h[..cp], c', k) {
      StepCarries(spec, log, h, c, log[..cp], h[..cp], c', k);
    }
  }

  lemma RollbackKeeps(spec: Spec, c: Core, log: Log, h: History, cp: nat) returns (h': History)
    requires IsHistory(spec, log, h, c) && Settled(spec, c) && Backward(log)
    requires Disciplined(spec, c, log, DoRollback(cp))
    ensures Keeps(spec, c, log, h, Rollback(spec, c, log, cp), h')
  {
    hide Recorded, PublicLog, Same, Settled;
    RollbackRestores(spec, log, h, c, cp);
    var r := Rollback(spec, c, log, cp);
    h' := h[..cp];
    HistoryPrefix(spec, log, h, c, cp, r.core);
    if cp < |log| { assert HistoryStep(spec, log, h, c, cp); }
    SettledSame(spec, r.core, At(h, c, cp));
    forall k | 0 <= k <= cp ensures SameCheckpoint(c, h, r.core, h', k) {
      if k < cp { SameReflexive(h[k].0); }
    }
  }

  lemma PerformKeeps(spec: Spec, c: Core, log: Log, h: History, a: Call) returns (h': History)
    requires IsHistory(spec, log, h, c) && Settled(spec, c) && Backward(log)
    requires Disciplined(spec, c, log, a)
    ensures Keeps(spec, c, log, h, Perform(spec, c, log, a), h')
  {
    match a
    case Place(t, groups, numa) => PlaceKeeps(spec, c, log, h, t, groups, numa); h' := h;
    case DoEvict(t, metadata) => h' := EvictKeeps(spec, c, log, h, t, metadata);
    case DoPipeline(t, host, canUndo) => h' := PipelineKeeps(spec, c, log, h, t, host, canUndo);
    case DoAllocate(t, host) => h' := AllocateKeeps(spec, c, log, h, t, host);
    case DoUnevict(t) => SameReflexive(c); h' := UnevictKeeps(spec, c, log, h, c, t);
    case DoRollback(cp) => h' := RollbackKeeps(spec, c, log, h, cp);
  }

  lemma EmptyHistory(spec: Spec, c: Core)
    requires WellFormed(spec, c)
    ensures IsHistory(spec, [], [], c)
  {
  }

  // ---------------------------------------------------------------- charges left behind

  /** Does the call move a task to other GPUs of the node that holds it? */
  predicate MovesGpu(spec: Spec, c: Core, a: Call)
    requires WellFormed(spec, c)
  {
    a.DoPipeline? && a.task in spec.tasks && PipelineMovesGpu(spec, c, a.task, a.host)
  }

  /** The copy that the call drops from its node without taking its charge off. */
  function Dropped(spec: Spec, c: Core, a: Call): seq<(Slot, Copy)>
    requires WellFormed(spec, c)
  {
    if MovesGpu(spec, c, a) then [(Slot(a.host, a.task), c.pods[Slot(a.host, a.task)])] else []
  }

  /** Only a GPU move leaves a charge behind; no other call adds one or takes one away. */
  lemma PerformDrops(spec: Spec, c: Core, log: Log, h: History, a: Call)
    requires IsHistory(spec, log, h, c) && Settled(spec, c) && Backward(log)
    requires Disciplined(spec, c, log, a)
    ensures Perform(spec, c, log, a).core.orphans == c.orphans + Dropped(spec, c, a)
  {
    hide Rollback, Unevict;
    match a
    case DoRollback(cp) => RollbackRestores(spec, log, h, c, cp);
    case DoUnevict(t) => UnevictOutcome(spec, c, log, t);
    case DoPipeline(t, host, canUndo) =>
      if PipelineUnevicts(spec, c, t, host, canUndo) {
        var onNode := c.pods[Slot(host, t)];
        UnevictOutcome(spec, WithRecord(c, t, c.tasks[t].(groups := onNode.groups, numa := onNode.numa)), log, t);
      }
    case _ =>
  }
}
