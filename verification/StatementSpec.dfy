/** What each Statement call does to the session and to the operation log, as functions of the
    state before the call. The reverse closures of the log entries are kept as the data they capture. */
module StatementSpec {
  import opened Cluster
  import opened Options

  datatype EvictionMetadata = EvictionMetadata(action: string, message: string)

  /** `previous` holds the fields the reverse closure captured. A PipelineOp also notes whether the
      node already held the task, and an UndoOp captures the operation it undoes as well as its index. */
  datatype Operation =
    | EvictOp(task: TaskId, previous: Record, metadata: EvictionMetadata)
    | PipelineOp(task: TaskId, previous: Record, nextNode: NodeName, wasOnNode: bool)
    | AllocateOp(task: TaskId, nextNode: NodeName, previousNuma: Numa, previousVirtual: bool)
    | UndoOp(index: nat, target: Operation)

  type Log = seq<Operation>

  datatype Outcome = Outcome(core: Core, log: Log, ok: bool)

  /** The task an entry is about; for an undo entry, that of the operation it undoes. */
  function TaskOf(op: Operation): TaskId {
    match op
    case EvictOp(t, _, _) => t
    case PipelineOp(t, _, _, _) => t
    case AllocateOp(t, _, _, _) => t
    case UndoOp(_, target) => TaskOf(target)
  }

  /** Every undo entry points strictly backwards. */
  predicate Backward(log: Log) {
    forall k :: 0 <= k < |log| && log[k].UndoOp? ==>
      log[k].index < k && (log[k].target.UndoOp? ==> log[k].target.index < k)
  }

  /** The entry is about a task of the session, and an evicted task's node is in the session. */
  predicate OpKnown(spec: Spec, op: Operation) {
    match op
    case EvictOp(t, previous, _) => t in spec.tasks && previous.node in spec.nodes
    case PipelineOp(t, _, _, _) => t in spec.tasks
    case AllocateOp(t, _, _, _) => t in spec.tasks
    case UndoOp(_, target) => OpKnown(spec, target)
  }

  predicate Known(spec: Spec, log: Log) {
    forall k :: 0 <= k < |log| ==> OpKnown(spec, log[k])
  }

  /** The first undo entry at or after `from` that points at entry `i`. */
  function FirstUndo(log: Log, i: nat, from: nat): (r: Option<nat>)
    requires from <= |log|
    ensures r.Some? ==> from <= r.value < |log| && log[r.value].UndoOp? && log[r.value].index == i
    ensures r.Some? ==> forall k :: from <= k < r.value ==> !(log[k].UndoOp? && log[k].index == i)
    ensures r.None? ==> forall k :: from <= k < |log| ==> !(log[k].UndoOp? && log[k].index == i)
    decreases |log| - from
  {
    if from == |log| then None
    else if log[from].UndoOp? && log[from].index == i then Some(from)
    else FirstUndo(log, i, from + 1)
  }

  /** An entry is valid unless an undo entry that is itself valid points at it. */
  predicate OperationValid(log: Log, i: nat)
    requires Backward(log) && i < |log|
    decreases |log| - i
  {
    match FirstUndo(log, i, 0)
    case None => true
    case Some(u) => !OperationValid(log, u)
  }

  // ---------------------------------------------------------------- single effects

  /** job.UpdateTaskStatus: only a task of a known job changes status. */
  function NextStatus(spec: Spec, t: TaskId, r: Record, s: Status): Record
    requires t in spec.tasks
  {
    if JobFound(spec, t) then r.(status := s) else r
  }

  function Evicted(c: Core, t: TaskId): Core
    requires t in c.tasks && t in c.ledger
  {
    var r := c.tasks[t].(status := Releasing, virtual := true);
    Touch(c, t, r, r.node, Some(CopyOf(r)), -1)
  }

  /** unevict: puts the captured fields back; the node name is left as it is. */
  function Unevicted(spec: Spec, c: Core, op: Operation): Core
    requires op.EvictOp? && op.task in spec.tasks && op.task in c.tasks && op.task in c.ledger
  {
    var t := op.task;
    var r := NextStatus(spec, t, c.tasks[t], op.previous.status)
             .(groups := op.previous.groups, numa := op.previous.numa, virtual := op.previous.virtual);
    Touch(c, t, r, op.previous.node, Some(CopyOf(r)), 1)
  }

  /** unpipeline after its node lookup succeeded. */
  function Unpipelined(spec: Spec, c: Core, op: Operation): Core
    requires op.PipelineOp? && op.task in spec.tasks && op.task in c.tasks && op.task in c.ledger
  {
    var t := op.task;
    var r := NextStatus(spec, t, c.tasks[t], op.previous.status)
             .(groups := op.previous.groups, numa := op.previous.numa,
               virtual := op.previous.virtual, node := op.previous.node);
    Touch(c, t, r, c.tasks[t].node, None, -1)
  }

  /** unallocate after its node lookup succeeded. The GPU groups stay as they are. */
  function Unallocated(spec: Spec, c: Core, t: TaskId, numa: Numa, virtual: bool): Core
    requires t in spec.tasks && t in c.tasks && t in c.ledger
  {
    var r := NextStatus(spec, t, c.tasks[t], Pending)
             .(numa := numa, virtual := virtual, node := NO_NODE);
    Touch(c, t, r, c.tasks[t].node, None, -1)
  }

  /** Has the task been given other GPU groups than the node's copy has? */
  predicate GpuPlacementChanged(spec: Spec, r: Record, onNode: Copy, t: TaskId)
    requires t in spec.tasks
  {
    |r.groups| > 0 && spec.tasks[t].shared && r.groups != [WHOLE_GPU_INDICATOR] && r.groups != onNode.groups
  }

  predicate NumaPlacementChanged(r: Record, onNode: Copy) {
    |r.numa| > 0 && r.numa != onNode.numa
  }

  /** Does Pipeline turn into an unevict? */
  predicate PipelineUnevicts(spec: Spec, c: Core, t: TaskId, host: NodeName, canUndoEviction: bool)
    requires t in spec.tasks && t in c.tasks
  {
    && canUndoEviction && Slot(host, t) in c.pods
    && !GpuPlacementChanged(spec, c.tasks[t], c.pods[Slot(host, t)], t)
    && !NumaPlacementChanged(c.tasks[t], c.pods[Slot(host, t)])
  }

  /** Does Pipeline move the task to other GPUs of a node that still holds it? */
  predicate PipelineMovesGpu(spec: Spec, c: Core, t: TaskId, host: NodeName)
    requires t in spec.tasks && t in c.tasks
  {
    Slot(host, t) in c.pods && GpuPlacementChanged(spec, c.tasks[t], c.pods[Slot(host, t)], t)
  }

  /** A GPU move replaces the node's copy without taking its charge off the node first. */
  function PipelinedTo(spec: Spec, c: Core, t: TaskId, host: NodeName): Core
    requires t in spec.tasks && t in c.tasks && t in c.ledger
  {
    var r := c.tasks[t].(status := Pipelined, node := host);
    var left := if PipelineMovesGpu(spec, c, t, host)
                then c.orphans + [(Slot(host, t), c.pods[Slot(host, t)])] else c.orphans;
    Touch(c, t, r.(virtual := true), host, Some(CopyOf(r)), 1).(orphans := left)
  }

  function PipelinePrevious(spec: Spec, c: Core, t: TaskId, host: NodeName): Record
    requires t in spec.tasks && t in c.tasks
  {
    var r := c.tasks[t];
    if Slot(host, t) !in c.pods then r
    else
      var onNode := c.pods[Slot(host, t)];
      r.(groups := if GpuPlacementChanged(spec, r, onNode, t) then onNode.groups else r.groups,
         numa := if NumaPlacementChanged(r, onNode) then onNode.numa else r.numa)
  }

  function AllocatedTo(c: Core, t: TaskId, host: NodeName): Core
    requires t in c.tasks && t in c.ledger
  {
    var r := c.tasks[t].(status := Allocated, node := host);
    Touch(c, t, r.(virtual := true), host, Some(CopyOf(r)), 1)
  }

  // ---------------------------------------------------------------- calls

  /** `next` is `log`, or `log` with one more entry that is not an undo entry. */
  predicate Extends(spec: Spec, log: Log, next: Log) {
    log <= next && |next| <= |log| + 1 &&
    (|next| == |log| + 1 ==> !next[|log|].UndoOp? && OpKnown(spec, next[|log|]))
  }

  /** Statement.Evict */
  function Evict(spec: Spec, c: Core, log: Log, t: TaskId, metadata: EvictionMetadata): (r: Outcome)
    requires WellFormed(spec, c) && t in spec.tasks
    ensures WellFormed(spec, r.core) && Extends(spec, log, r.log)
  {
    var r := c.tasks[t];
    if !JobFound(spec, t) || r.node !in spec.nodes then Outcome(c, log, false)
    else if Slot(r.node, t) !in c.pods then Outcome(WithRecord(c, t, r.(status := Releasing)), log, false)
    else Outcome(Evicted(c, t), log + [EvictOp(t, r, metadata)], true)
  }

  /** Statement.Allocate; a failed AddTask leaves the status and node name already changed. */
  function Allocate(spec: Spec, c: Core, log: Log, t: TaskId, host: NodeName): (r: Outcome)
    requires WellFormed(spec, c) && t in spec.tasks
    ensures WellFormed(spec, r.core) && Extends(spec, log, r.log)
  {
    var r := c.tasks[t];
    if !JobFound(spec, t) then Outcome(c, log, false)
    else if host !in spec.nodes || Slot(host, t) in c.pods then
      Outcome(WithRecord(c, t, r.(status := Allocated, node := host)), log, false)
    else
      Outcome(AllocatedTo(c, t, host), log + [AllocateOp(t, host, r.numa, r.virtual)], true)
  }

  /** Statement.Pipeline when it does not become an unevict. */
  function PipelineOnto(spec: Spec, c: Core, log: Log, t: TaskId, host: NodeName): (r: Outcome)
    requires WellFormed(spec, c) && t in spec.tasks
    ensures WellFormed(spec, r.core) && Extends(spec, log, r.log)
  {
    if host !in spec.nodes || !JobFound(spec, t) then Outcome(c, log, false)
    else
      Outcome(PipelinedTo(spec, c, t, host),
              log + [PipelineOp(t, PipelinePrevious(spec, c, t, host), host, Slot(host, t) in c.pods)], true)
  }

  /** Reverse(): what running the closure of `op` does; false when it reports an error. */
  function Reverse(spec: Spec, c: Core, log: Log, op: Operation): (r: Outcome)
    requires WellFormed(spec, c) && OpKnown(spec, op) && Known(spec, log)
    requires Backward(log) && (op.UndoOp? && op.target.UndoOp? ==> op.target.index < |log|)
    ensures WellFormed(spec, r.core) && Backward(r.log) && Known(spec, r.log) && log <= r.log
    decreases if op.UndoOp? && op.target.UndoOp? then op.target.index + 1 else 0, 0
  {
    match op
    case EvictOp(t, _, _) => Outcome(Unevicted(spec, c, op), log, true)
    case PipelineOp(t, previous, _, _) =>
      if c.tasks[t].node in spec.nodes then Outcome(Unpipelined(spec, c, op), log, true)
      else Outcome(WithRecord(c, t, NextStatus(spec, t, c.tasks[t], previous.status)
                                    .(groups := previous.groups, virtual := previous.virtual)), log, false)
    case AllocateOp(t, _, numa, virtual) =>
      if c.tasks[t].node in spec.nodes then Outcome(Unallocated(spec, c, t, numa, virtual), log, true)
      else Outcome(WithRecord(c, t, NextStatus(spec, t, c.tasks[t], Pending)), log, false)
    case UndoOp(_, target) =>
      assert OpKnown(spec, target);
      match target
      case EvictOp(t, _, metadata) => Evict(spec, c, log, t, metadata)
      case PipelineOp(t, _, host, _) => PipelineOnto(spec, c, log, t, host)
      case AllocateOp(t, host, _, _) => Allocate(spec, c, log, t, host)
      case UndoOp(k, _) => UndoOperation(spec, c, log, k)
  }

  /** Statement.undoOperation */
  function UndoOperation(spec: Spec, c: Core, log: Log, i: nat): (r: Outcome)
    requires WellFormed(spec, c) && Backward(log) && Known(spec, log) && i < |log|
    ensures WellFormed(spec, r.core) && Backward(r.log) && Known(spec, r.log) && log <= r.log
    decreases i, 1
  {
    if !OperationValid(log, i) then Outcome(c, log, true)
    else
      var reversed := Reverse(spec, c, log, log[i]);
      if !reversed.ok then reversed
      else reversed.(log := reversed.log + [UndoOp(i, log[i])])
  }

  predicate ValidEvict(log: Log, t: TaskId, i: nat)
    requires Backward(log) && i < |log|
  {
    OperationValid(log, i) && log[i].EvictOp? && log[i].task == t
  }

  function EarliestValidEvict(log: Log, t: TaskId, from: nat): (r: Option<nat>)
    requires Backward(log) && from <= |log|
    ensures r.Some? ==>
      from <= r.value < |log| && ValidEvict(log, t, r.value) && forall k :: from <= k < r.value ==> !ValidEvict(log, t, k)
    ensures r.None? ==> forall k :: from <= k < |log| ==> !ValidEvict(log, t, k)
    decreases |log| - from
  {
    if from == |log| then None
    else if ValidEvict(log, t, from) then Some(from)
    else EarliestValidEvict(log, t, from + 1)
  }

  /** Statement.Unevict */
  function Unevict(spec: Spec, c: Core, log: Log, t: TaskId): (r: Outcome)
    requires WellFormed(spec, c) && Backward(log) && Known(spec, log) && t in spec.tasks
    ensures WellFormed(spec, r.core) && Backward(r.log) && Known(spec, r.log) && log <= r.log
  {
    match EarliestValidEvict(log, t, 0)
    case None => Outcome(c, log, false)
    case Some(e) => UndoOperation(spec, c, log, e)
  }

  /** Statement.Pipeline */
  function Pipeline(spec: Spec, c: Core, log: Log, t: TaskId, host: NodeName, canUndoEviction: bool): (r: Outcome)
    requires WellFormed(spec, c) && Backward(log) && Known(spec, log) && t in spec.tasks
    ensures WellFormed(spec, r.core) && Backward(r.log) && Known(spec, r.log) && log <= r.log
  {
    if host !in spec.nodes || !JobFound(spec, t) then Outcome(c, log, false)
    else if PipelineUnevicts(spec, c, t, host, canUndoEviction) then
      var onNode := c.pods[Slot(host, t)];
      Unevict(spec, WithRecord(c, t, c.tasks[t].(groups := onNode.groups, numa := onNode.numa)), log, t)
    else PipelineOnto(spec, c, log, t, host)
  }

  /** The loop of Rollback and Discard: undo entries i-1 down to cp. */
  function UndoDownTo(spec: Spec, c: Core, log: Log, i: nat, cp: nat): (r: Outcome)
    requires WellFormed(spec, c) && Backward(log) && Known(spec, log) && cp <= i <= |log|
    ensures WellFormed(spec, r.core) && Backward(r.log) && Known(spec, r.log) && log <= r.log
    decreases i
  {
    if i == cp then Outcome(c, log, true)
    else
      var step := UndoOperation(spec, c, log, i - 1);
      if !step.ok then step else UndoDownTo(spec, step.core, step.log, i - 1, cp)
  }

  /** Statement.Rollback */
  function Rollback(spec: Spec, c: Core, log: Log, cp: int): (r: Outcome)
    requires WellFormed(spec, c) && Backward(log) && Known(spec, log)
    ensures WellFormed(spec, r.core) && Backward(r.log) && Known(spec, r.log)
  {
    if cp < 0 || cp > |log| then Outcome(c, log, false)
    else
      var undone := UndoDownTo(spec, c, log, |log|, cp);
      if !undone.ok then undone else undone.(log := undone.log[..cp])
  }

  /** The loop of Discard: errors are ignored. */
  function DiscardDown(spec: Spec, c: Core, log: Log, i: nat): (r: Outcome)
    requires WellFormed(spec, c) && Backward(log) && Known(spec, log) && i <= |log|
    ensures WellFormed(spec, r.core)
    decreases i
  {
    if i == 0 then Outcome(c, log, true)
    else
      var step := UndoOperation(spec, c, log, i - 1);
      DiscardDown(spec, step.core, step.log, i - 1)
  }

  /** Statement.Discard */
  function Discard(spec: Spec, c: Core, log: Log): (r: Outcome)
    requires WellFormed(spec, c) && Backward(log) && Known(spec, log)
    ensures r.ok && r.log == [] && WellFormed(spec, r.core)
  {
    if log == [] then Outcome(c, log, true)
    else Outcome(DiscardDown(spec, c, log, |log|).core, [], true)
  }
}
