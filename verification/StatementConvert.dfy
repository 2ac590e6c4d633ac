/** ConvertAllAllocatedToPipelined: the allocations of a job leave the middle of the log and come
    back at its end as pipelined tasks. */
module StatementConvert {
  import opened Cluster
  import opened Options
  import opened StatementSpec
  import opened StatementHistory
  import opened StatementRollback

  predicate IsAllocationOf(spec: Spec, op: Operation, job: JobId) {
    op.AllocateOp? && op.task in spec.tasks && spec.tasks[op.task].job == job
  }

  /** The entries that the loop converts, in log order. */
  function Allocations(spec: Spec, log: Log, job: JobId): Log {
    if log == [] then []
    else
      var rest := Allocations(spec, log[..|log| - 1], job);
      var op := log[|log| - 1];
      if IsAllocationOf(spec, op, job) then rest + [op] else rest
  }

  /** The entries that the final filter retains. */
  function Kept(spec: Spec, log: Log, job: JobId): Log {
    if log == [] then []
    else
      var rest := Kept(spec, log[..|log| - 1], job);
      var op := log[|log| - 1];
      if IsAllocationOf(spec, op, job) then rest else rest + [op]
  }

  /** unallocate followed by Pipeline on the same node; the virtual flag is set in between. */
  function ConvertOne(spec: Spec, c: Core, log: Log, op: Operation): (r: Outcome)
    requires WellFormed(spec, c) && op.AllocateOp? && op.task in spec.tasks
    ensures WellFormed(spec, r.core) && Extends(spec, log, r.log)
  {
    var t := op.task;
    if c.tasks[t].node !in spec.nodes then Outcome(WithRecord(c, t, NextStatus(spec, t, c.tasks[t], Pending)), log, false)
    else PipelineOnto(spec, Unallocated(spec, c, t, c.tasks[t].numa, true), log, t, op.nextNode)
  }

  predicate AllAllocations(spec: Spec, todo: Log) {
    forall k :: 0 <= k < |todo| ==> todo[k].AllocateOp? && todo[k].task in spec.tasks
  }

  function ConvertEach(spec: Spec, c: Core, log: Log, todo: Log): (r: Outcome)
    requires WellFormed(spec, c) && AllAllocations(spec, todo)
    ensures WellFormed(spec, r.core) && log <= r.log
    decreases |todo|
  {
    if todo == [] then Outcome(c, log, true)
    else
      var r := ConvertOne(spec, c, log, todo[0]);
      if !r.ok then r else ConvertEach(spec, r.core, r.log, todo[1..])
  }

  lemma {:induction false} AllocationsAre(spec: Spec, log: Log, job: JobId)
    ensures forall k :: 0 <= k < |Allocations(spec, log, job)| ==> IsAllocationOf(spec, Allocations(spec, log, job)[k], job)
    decreases |log|
  {
    if log != [] { AllocationsAre(spec, log[..|log| - 1], job); }
  }

  /** Statement.ConvertAllAllocatedToPipelined */
  function Convert(spec: Spec, c: Core, log: Log, job: JobId): (r: Outcome)
    requires WellFormed(spec, c)
    ensures WellFormed(spec, r.core)
  {
    AllocationsAre(spec, log, job);
    var r := ConvertEach(spec, c, log, Allocations(spec, log, job));
    if !r.ok then r else r.(log := Kept(spec, r.log, job))
  }

  // ---------------------------------------------------------------- filtering

  lemma {:induction false} KeptOfConcat(spec: Spec, a: Log, b: Log, job: JobId)
    ensures Kept(spec, a + b, job) == Kept(spec, a, job) + Kept(spec, b, job)
    ensures Allocations(spec, a + b, job) == Allocations(spec, a, job) + Allocations(spec, b, job)
    decreases |b|
  {
    if b == [] {
      assert a + b == a;
    } else {
      var b' := b[..|b| - 1];
      assert (a + b)[..|a + b| - 1] == a + b';
      KeptOfConcat(spec, a, b', job);
    }
  }

  lemma OneEntry(spec: Spec, op: Operation, job: JobId)
    ensures Kept(spec, [op], job) == if IsAllocationOf(spec, op, job) then [] else [op]
    ensures Allocations(spec, [op], job) == if IsAllocationOf(spec, op, job) then [op] else []
  {
    assert [op][..0] == [];
  }

  /** The first entry that the loop converts. */
  lemma {:induction false} FirstAllocation(spec: Spec, log: Log, job: JobId) returns (k: nat)
    requires Allocations(spec, log, job) != []
    ensures k < |log| && log[k] == Allocations(spec, log, job)[0] && IsAllocationOf(spec, log[k], job)
    ensures Kept(spec, log[..k], job) == log[..k] && Allocations(spec, log[..k], job) == []
    decreases |log|
  {
    var rest := log[..|log| - 1];
    if Allocations(spec, rest, job) != [] {
      k := FirstAllocation(spec, rest, job);
      assert rest[..k] == log[..k];
    } else {
      k := |log| - 1;
      NoAllocation(spec, rest, job);
    }
  }

  lemma {:induction false} NoAllocation(spec: Spec, log: Log, job: JobId)
    requires Allocations(spec, log, job) == []
    ensures Kept(spec, log, job) == log
    ensures forall k :: 0 <= k < |log| ==> !IsAllocationOf(spec, log[k], job)
    decreases |log|
  {
    if log != [] {
      var rest := log[..|log| - 1];
      NoAllocation(spec, rest, job);
      assert log == rest + [log[|log| - 1]];
    }
  }

  lemma {:induction false} KeptHasNoAllocation(spec: Spec, log: Log, job: JobId)
    ensures forall k :: 0 <= k < |Kept(spec, log, job)| ==> !IsAllocationOf(spec, Kept(spec, log, job)[k], job)
    decreases |log|
  {
    if log != [] { KeptHasNoAllocation(spec, log[..|log| - 1], job); }
  }

  // ---------------------------------------------------------------- one entry

  function Without(log: Log, k: nat): Log
    requires k < |log|
  {
    log[..k] + log[k + 1..]
  }

  /** The state with task `t` taken back to where it was before its allocation, except for its flag. */
  function Shelved(c: Core, t: TaskId, r: Record, node: NodeName, credit: int): Core {
    Core(c.tasks[t := r], c.pods - {Slot(node, t)}, c.orphans, c.ledger[t := credit])
  }

  /** The task is as its allocation left it. */
  predicate AsAllocated(c: Core, op: Operation)
    requires op.AllocateOp? && op.task in c.tasks
  {
    var r := c.tasks[op.task];
    r.status.Allocated? && r.node == op.nextNode && Slot(op.nextNode, op.task) in c.pods
  }

  /** Entry `k` is an allocation that nothing else in the log depends on. */
  ghost predicate Removable(log: Log, k: nat)
    requires k < |log|
  {
    && log[k].AllocateOp?
    && (forall j :: 0 <= j < |log| && j != k ==> TaskOf(log[j]) != TaskOf(log[k]))
    && (forall u :: 0 <= u < |log| && log[u].UndoOp? ==> log[u].index < k)
  }

  lemma PublicWithout(log: Log, k: nat)
    requires PublicLog(log) && k < |log| && Removable(log, k)
    ensures PublicLog(Without(log, k))
  {
    var log' := Without(log, k);
    assert forall i :: 0 <= i < k ==> log'[i] == log[i];
    assert forall i :: k <= i < |log'| ==> log'[i] == log[i + 1];
    forall i | 0 <= i < |log'| && log'[i].UndoOp?
      ensures log'[i].index < i && log'[i].target == log'[log'[i].index] && log'[i].target.EvictOp?
    {
      var u := if i < k then i else i + 1;
      assert log[u] == log'[i] && log[u].index < k;
    }
    forall i, j | 0 <= i < j < |log'| && log'[i].UndoOp? && log'[j].UndoOp?
      ensures log'[i].index != log'[j].index
    {
      var u, v := if i < k then i else i + 1, if j < k then j else j + 1;
      assert log[u] == log'[i] && log[v] == log'[j];
    }
    forall i | 0 <= i < |log'| && IsRepipeline(log'[i])
      ensures exists j :: 0 <= j < i && JustBefore(log', j, i) && log'[j].EvictOp?
    {
      RepipelineWithout(log, k, i);
    }
  }

  /** Entries of the same task keep their neighbours when an entry of another task goes. */
  lemma JustBeforeWithout(log: Log, k: nat, v: nat, u: nat)
    requires k < |log| && v < u < |log| && v != k && u != k && JustBefore(log, v, u)
    ensures JustBefore(Without(log, k), if v < k then v else v - 1, if u < k then u else u - 1)
  {
    var log' := Without(log, k);
    var j, i := if v < k then v else v - 1, if u < k then u else u - 1;
    assert log'[j] == log[v] && log'[i] == log[u];
    forall m | j < m < i ensures TaskOf(log'[m]) != TaskOf(log'[i]) {
      var w := if m < k then m else m + 1;
      assert log'[m] == log[w];
    }
  }

  lemma RepipelineWithout(log: Log, k: nat, i: nat)
    requires PublicLog(log) && k < |log| && Removable(log, k) && i < |Without(log, k)|
    requires IsRepipeline(Without(log, k)[i])
    ensures exists j :: 0 <= j < i && JustBefore(Without(log, k), j, i) && Without(log, k)[j].EvictOp?
  {
    hide JustBefore;
    var u := if i < k then i else i + 1;
    assert Without(log, k)[i] == log[u];
    var v :| 0 <= v < u && JustBefore(log, v, u) && log[v].EvictOp?;
    assert v != k;
    JustBeforeWithout(log, k, v, u);
    var j := if v < k then v else v - 1;
    assert Without(log, k)[j] == log[v];
  }

  /** Shelving one task and updating another commute. */
  lemma TouchShelved(c: Core, u: TaskId, ru: Record, nu: NodeName, e: Option<Copy>, delta: int,
                     t: TaskId, r: Record, node: NodeName, credit: int)
    requires u != t && u in c.ledger
    ensures Shelved(Touch(c, u, ru, nu, e, delta), t, r, node, credit)
         == Touch(Shelved(c, t, r, node, credit), u, ru, nu, e, delta)
  {
    var a := Shelved(Touch(c, u, ru, nu, e, delta), t, r, node, credit);
    var b := Touch(Shelved(c, t, r, node, credit), u, ru, nu, e, delta);
    assert a.pods == b.pods;
    assert a.tasks == b.tasks;
    assert a.ledger == b.ledger;
  }

  lemma ShelvedKeepsOthers(spec: Spec, c: Core, t: TaskId, r: Record, node: NodeName, credit: int)
    requires WellFormed(spec, c) && t in spec.tasks
    ensures var g := Shelved(c, t, r, node, credit);
            && WellFormed(spec, g)
            && (forall u :: u != t && u in c.tasks ==> g.tasks[u] == c.tasks[u])
            && (forall s: Slot :: s.task != t ==> OnNode(g, s) == OnNode(c, s))
  {
  }

  /** Two states that `u` alone tells apart, both with another task shelved. */
  lemma UpdateShelved(spec: Spec, h0: Core, h1: Core, u: TaskId, ru: Record, nu: NodeName, e: Option<Copy>, delta: int,
                      t: TaskId, r: Record, node: NodeName, credit: int)
    requires WellFormed(spec, h0) && WellFormed(spec, h1) && u in spec.tasks && t in spec.tasks && u != t
    requires h1 == Touch(h0, u, ru, nu, e, delta).(orphans := h1.orphans)
    ensures var g0, g1 := Shelved(h0, t, r, node, credit), Shelved(h1, t, r, node, credit);
            && WellFormed(spec, g0) && WellFormed(spec, g1) && u in g0.ledger
            && g0.tasks[u] == h0.tasks[u] && OnNode(g0, Slot(nu, u)) == OnNode(h0, Slot(nu, u))
            && g0.orphans == h0.orphans && g1 == Touch(g0, u, ru, nu, e, delta).(orphans := h1.orphans)
  {
    TouchShelved(h0, u, ru, nu, e, delta, t, r, node, credit);
  }

  lemma EvictShelved(spec: Spec, op: Operation, h0: Core, h1: Core, t: TaskId, r: Record, node: NodeName, credit: int)
    requires op.EvictOp? && Recorded(spec, op, h0, h1) && TaskOf(op) != t && t in spec.tasks
    ensures Recorded(spec, op, Shelved(h0, t, r, node, credit), Shelved(h1, t, r, node, credit))
  {
    hide Shelved, CopyOf;
    var ru := h1.tasks[op.task];
    UpdateShelved(spec, h0, h1, op.task, ru, ru.node, Some(CopyOf(ru)), -1, t, r, node, credit);
    assert OnNode(h0, Slot(op.previous.node, op.task)) == Some(CopyOf(op.previous));
  }

  lemma UndoShelved(spec: Spec, op: Operation, h0: Core, h1: Core, t: TaskId, r: Record, node: NodeName, credit: int)
    requires op.UndoOp? && Recorded(spec, op, h0, h1) && TaskOf(op) != t && t in spec.tasks
    ensures Recorded(spec, op, Shelved(h0, t, r, node, credit), Shelved(h1, t, r, node, credit))
  {
    hide Shelved, CopyOf;
    var u := op.target.task;
    var ru := h1.tasks[u];
    UpdateShelved(spec, h0, h1, u, ru, op.target.previous.node, Some(CopyOf(ru)), 1, t, r, node, credit);
    assert OnNode(h0, Slot(op.target.previous.node, u)).Some?;
  }

  lemma AllocateShelved(spec: Spec, op: Operation, h0: Core, h1: Core, t: TaskId, r: Record, node: NodeName, credit: int)
    requires op.AllocateOp? && Recorded(spec, op, h0, h1) && TaskOf(op) != t && t in spec.tasks
    ensures Recorded(spec, op, Shelved(h0, t, r, node, credit), Shelved(h1, t, r, node, credit))
  {
    hide Shelved, CopyOf;
    var placed := h0.tasks[op.task].(status := Allocated, node := op.nextNode);
    UpdateShelved(spec, h0, h1, op.task, placed.(virtual := true), op.nextNode, Some(CopyOf(placed)), 1,
                  t, r, node, credit);
    assert OnNode(h0, Slot(op.nextNode, op.task)) == None;
  }

  lemma PipelineShelved(spec: Spec, op: Operation, h0: Core, h1: Core, t: TaskId, r: Record, node: NodeName, credit: int)
    requires op.PipelineOp? && Recorded(spec, op, h0, h1) && TaskOf(op) != t && t in spec.tasks
    ensures Recorded(spec, op, Shelved(h0, t, r, node, credit), Shelved(h1, t, r, node, credit))
  {
    hide Shelved, CopyOf, GpuPlacementChanged;
    var placed := h0.tasks[op.task].(status := Pipelined, node := op.nextNode);
    UpdateShelved(spec, h0, h1, op.task, placed.(virtual := true), op.nextNode, Some(CopyOf(placed)), 1,
                  t, r, node, credit);
    var slot := Slot(op.nextNode, op.task);
    assert OnNode(h0, slot).Some? <==> slot in h0.pods;
  }

  /** A call about another task is a recorded call also with `t` shelved. */
  lemma RecordedShelved(spec: Spec, op: Operation, h0: Core, h1: Core, t: TaskId, r: Record, node: NodeName, credit: int)
    requires Recorded(spec, op, h0, h1) && TaskOf(op) != t && t in spec.tasks
    ensures Recorded(spec, op, Shelved(h0, t, r, node, credit), Shelved(h1, t, r, node, credit))
  {
    hide Recorded;
    match op
    case EvictOp(_, _, _) => EvictShelved(spec, op, h0, h1, t, r, node, credit);
    case PipelineOp(_, _, _, _) => PipelineShelved(spec, op, h0, h1, t, r, node, credit);
    case AllocateOp(_, _, _, _) => AllocateShelved(spec, op, h0, h1, t, r, node, credit);
    case UndoOp(_, _) => UndoShelved(spec, op, h0, h1, t, r, node, credit);
  }

  lemma SameShelved(a: Core, b: Core, t: TaskId, r: Record, node: NodeName, credit: int)
    requires Same(a, b, {})
    ensures Same(Shelved(a, t, r, node, credit), Shelved(b, t, r, node, credit), {})
  {
    SameNothingLost(a, b);
    var a', b' := Shelved(a, t, r, node, credit), Shelved(b, t, r, node, credit);
    forall u | u in b'.tasks ensures SameRecord(a'.tasks[u], b'.tasks[u]) {
      if u != t { assert SameRecord(a.tasks[u], b.tasks[u]); }
    }
    assert a'.pods == b'.pods;
  }

  /** With `t` shelved, its own allocation changes nothing. */
  lemma AllocationShelved(spec: Spec, op: Operation, h0: Core, h1: Core, r: Record, credit: int)
    requires op.AllocateOp? && Recorded(spec, op, h0, h1)
    ensures Shelved(h0, op.task, r, op.nextNode, credit) == Shelved(h1, op.task, r, op.nextNode, credit)
  {
    assert h1.pods - {Slot(op.nextNode, op.task)} == h0.pods - {Slot(op.nextNode, op.task)};
  }

  lemma SettledShelved(spec: Spec, c: Core, t: TaskId, r: Record, node: NodeName, credit: int)
    requires WellFormed(spec, c) && Settled(spec, c) && t in spec.tasks && !IsActiveAllocated(r.status)
    ensures Settled(spec, Shelved(c, t, r, node, credit))
  {
  }

  function ShelvedHistory(h: History, k: nat, t: TaskId, r: Record, node: NodeName, credit: int): (g: History)
    requires k < |h|
    ensures |g| == |h| - 1
    ensures forall i :: 0 <= i < |g| ==>
      var p := if i < k then h[i] else h[i + 1];
      g[i] == (Shelved(p.0, t, r, node, credit), Shelved(p.1, t, r, node, credit))
  {
    seq(|h| - 1, i requires 0 <= i < |h| - 1 =>
      var p := if i < k then h[i] else h[i + 1];
      (Shelved(p.0, t, r, node, credit), Shelved(p.1, t, r, node, credit)))
  }

  /** Taking an allocation out of the log leaves a history in which the task was never allocated. */
  lemma HistoryWithout(spec: Spec, log: Log, h: History, c: Core, k: nat, r: Record, credit: int)
    requires IsHistory(spec, log, h, c) && k < |log| && Removable(log, k) && !IsActiveAllocated(r.status)
    requires log[k].AllocateOp?
    ensures IsHistory(spec, Without(log, k), ShelvedHistory(h, k, log[k].task, r, log[k].nextNode, credit),
                      Shelved(c, log[k].task, r, log[k].nextNode, credit))
  {
    hide Recorded, PublicLog, Same, Settled;
    var t, node := log[k].task, log[k].nextNode;
    var log', h', c' := Without(log, k), ShelvedHistory(h, k, t, r, node, credit), Shelved(c, t, r, node, credit);
    PublicWithout(log, k);
    assert OpKnown(spec, log[k]);
    ShelvedKeepsOthers(spec, c, t, r, node, credit);
    forall i | 0 <= i < |log'| ensures HistoryStep(spec, log', h', c', i) {
      StepWithout(spec, log, h, c, k, r, credit, i);
    }
  }

  lemma StepWithout(spec: Spec, log: Log, h: History, c: Core, k: nat, r: Record, credit: int, i: nat)
    requires IsHistory(spec, log, h, c) && k < |log| && Removable(log, k) && !IsActiveAllocated(r.status)
    requires log[k].AllocateOp? && i < |log| - 1
    ensures HistoryStep(spec, Without(log, k), ShelvedHistory(h, k, log[k].task, r, log[k].nextNode, credit),
                        Shelved(c, log[k].task, r, log[k].nextNode, credit), i)
  {
    hide Recorded, PublicLog, Same, Settled, Shelved, WellFormed, Known, Removable, HistoryStep;
    var u := if i < k then i else i + 1;
    RecordWithout(spec, log, h, c, k, r, credit, u);
    LinkWithout(spec, log, h, c, k, r, credit, u);
    AtWithout(spec, log, h, c, k, r, credit, i);
  }

  /** The pieces of a step of the shelved history. */
  lemma AtWithout(spec: Spec, log: Log, h: History, c: Core, k: nat, r: Record, credit: int, i: nat)
    requires k < |log| == |h| && log[k].AllocateOp? && i < |log| - 1
    requires var t, node, u := log[k].task, log[k].nextNode, if i < k then i else i + 1;
             var next := if u + 1 == k then k + 1 else u + 1;
             && Recorded(spec, log[u], Shelved(h[u].0, t, r, node, credit), Shelved(h[u].1, t, r, node, credit))
             && Settled(spec, Shelved(h[u].0, t, r, node, credit))
             && Same(Shelved(At(h, c, next), t, r, node, credit), Shelved(h[u].1, t, r, node, credit), {})
    ensures HistoryStep(spec, Without(log, k), ShelvedHistory(h, k, log[k].task, r, log[k].nextNode, credit),
                        Shelved(c, log[k].task, r, log[k].nextNode, credit), i)
  {
    hide Recorded, Same, Settled, Shelved;
    var u := if i < k then i else i + 1;
    assert Without(log, k)[i] == log[u];
  }

  lemma RecordWithout(spec: Spec, log: Log, h: History, c: Core, k: nat, r: Record, credit: int, u: nat)
    requires IsHistory(spec, log, h, c) && k < |log| && Removable(log, k) && !IsActiveAllocated(r.status)
    requires log[k].AllocateOp? && u < |log| && u != k
    ensures var t, node := log[k].task, log[k].nextNode;
            && Recorded(spec, log[u], Shelved(h[u].0, t, r, node, credit), Shelved(h[u].1, t, r, node, credit))
            && Settled(spec, Shelved(h[u].0, t, r, node, credit))
  {
    hide Recorded, PublicLog, Same, Settled, Shelved;
    var t, node := log[k].task, log[k].nextNode;
    assert HistoryStep(spec, log, h, c, u);
    assert OpKnown(spec, log[k]);
    RecordedShelved(spec, log[u], h[u].0, h[u].1, t, r, node, credit);
    RecordedIsWellFormed(spec, log[u], h[u].0, h[u].1);
    SettledShelved(spec, h[u].0, t, r, node, credit);
  }

  /** The state after entry `u` is the state before the next entry that stays. */
  lemma LinkWithout(spec: Spec, log: Log, h: History, c: Core, k: nat, r: Record, credit: int, u: nat)
    requires IsHistory(spec, log, h, c) && k < |log| && Removable(log, k)
    requires log[k].AllocateOp? && u < |log| && u != k
    ensures var t, node := log[k].task, log[k].nextNode;
            var next := if u + 1 == k then k + 1 else u + 1;
            Same(Shelved(At(h, c, next), t, r, node, credit), Shelved(h[u].1, t, r, node, credit), {})
  {
    hide Recorded, PublicLog, Same, Settled, Shelved;
    var t, node := log[k].task, log[k].nextNode;
    assert HistoryStep(spec, log, h, c, u) && HistoryStep(spec, log, h, c, k);
    SameShelved(At(h, c, u + 1), h[u].1, t, r, node, credit);
    if u + 1 == k {
      AllocationShelved(spec, log[k], h[k].0, h[k].1, r, credit);
      SameShelved(At(h, c, k + 1), h[k].1, t, r, node, credit);
      SameCompose(Shelved(At(h, c, k + 1), t, r, node, credit), Shelved(h[k].0, t, r, node, credit),
                  Shelved(h[u].1, t, r, node, credit), {});
    }
  }

  lemma RecordedIsWellFormed(spec: Spec, op: Operation, h0: Core, h1: Core)
    requires Recorded(spec, op, h0, h1)
    ensures WellFormed(spec, h0) && WellFormed(spec, h1)
  {
  }

  // ---------------------------------------------------------------- what the other calls leave alone

  /** Task `t` is the same in both states. */
  ghost predicate TaskSame(a: Core, b: Core, t: TaskId) {
    && t in a.tasks && t in b.tasks && t in a.ledger && t in b.ledger
    && SameRecord(a.tasks[t], b.tasks[t]) && a.ledger[t] == b.ledger[t]
    && (forall n :: OnNode(a, Slot(n, t)) == OnNode(b, Slot(n, t)))
  }

  lemma SameTask(a: Core, b: Core, t: TaskId)
    requires Same(a, b, {}) && t in b.tasks && t in b.ledger
    ensures TaskSame(a, b, t)
  {
    SameNothingLost(a, b);
  }

  lemma RecordedLeavesOthers(spec: Spec, op: Operation, h0: Core, h1: Core, t: TaskId)
    requires Recorded(spec, op, h0, h1) && TaskOf(op) != t && t in spec.tasks
    ensures TaskSame(h0, h1, t)
  {
  }

  /** Nothing happens to a task between two entries about it. */
  lemma {:induction false} Untouched(spec: Spec, log: Log, h: History, c: Core, t: TaskId, i: nat, j: nat)
    requires IsHistory(spec, log, h, c) && i <= j <= |log| && t in spec.tasks
    requires forall m :: i <= m < j ==> TaskOf(log[m]) != t
    ensures TaskSame(At(h, c, i), At(h, c, j), t)
    decreases j - i
  {
    hide Recorded, PublicLog, Same, Settled;
    if i < j {
      assert HistoryStep(spec, log, h, c, i);
      RecordedLeavesOthers(spec, log[i], h[i].0, h[i].1, t);
      RecordedIsWellFormed(spec, log[i], h[i].0, h[i].1);
      SameTask(At(h, c, i + 1), h[i].1, t);
      Untouched(spec, log, h, c, t, i + 1, j);
    } else if i < |log| {
      assert HistoryStep(spec, log, h, c, i);
      RecordedIsWellFormed(spec, log[i], h[i].0, h[i].1);
    }
  }
}
