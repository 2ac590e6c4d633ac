/** The part of a scheduling session that a Statement reads and writes: pods (tasks),
    the copy of a task that each node keeps, and the count kept by the plugins' event handlers. */
module Cluster {
  import opened Options

  type TaskId = string
  type NodeName = string
  type JobId = string

  const NO_NODE: NodeName := ""
  const WHOLE_GPU_INDICATOR := "-1"

  datatype Status =
    | Pending | Gated | Allocated | Pipelined | Binding | Bound | Running
    | Releasing | Succeeded | Failed | Unknown | Deleted | StuckInReleasing

  /** Statuses whose resources the job counts as its own allocation or reservation. */
  predicate IsActiveAllocated(s: Status) {
    s.Allocated? || s.Pipelined? || s.Binding? || s.Bound? || s.Running?
  }

  /** Statuses counted in a job's AllocatedVector. */
  predicate IsAllocated(s: Status) {
    s.Allocated? || s.Binding? || s.Bound? || s.Running?
  }

  /** Statuses from which the scheduler may still place a task. */
  predicate IsPlaceable(s: Status) {
    s.Pending? || s.Releasing?
  }

  /** One charge per NUMA zone: zone index and amount. */
  type Numa = seq<(int, int)>

  /** What never changes during a session. `nodes` maps a node to its allocatable vector, and
      `dims` is the length of every resource vector of the session. */
  datatype TaskSpec = TaskSpec(job: JobId, request: seq<int>, shared: bool, reservation: bool)
  datatype Spec = Spec(tasks: map<TaskId, TaskSpec>, nodes: map<NodeName, seq<int>>, jobs: set<JobId>, dims: nat)

  /** The session's own record of a task, shared by the job and the callers. */
  datatype Record = Record(status: Status, node: NodeName, virtual: bool, groups: seq<string>, numa: Numa)

  /** A node's private copy of a task. `excluded` is the one thing read from the copy's virtual
      flag: a victim of this session is left out of the inter-pod affinity index. */
  datatype Copy = Copy(status: Status, excluded: bool, groups: seq<string>, numa: Numa)

  datatype Slot = Slot(node: NodeName, task: TaskId)

  /** `pods` holds every node's task map, keyed by node and task. `orphans` lists copies that were
      dropped from a node's map while their charge stayed on the node (see Statement.Pipeline). */
  datatype Core = Core(
    tasks: map<TaskId, Record>,
    pods: map<Slot, Copy>,
    orphans: seq<(Slot, Copy)>,
    ledger: map<TaskId, int>)

  function CopyOf(r: Record): Copy {
    Copy(r.status, r.status.Releasing? && r.virtual, r.groups, r.numa)
  }

  function OnNode(c: Core, s: Slot): Option<Copy> {
    if s in c.pods then Some(c.pods[s]) else None
  }

  function WithRecord(c: Core, t: TaskId, r: Record): Core {
    c.(tasks := c.tasks[t := r])
  }

  /** The one shape of every session update: task `t` gets record `r`, the entry for `t` in the task
      map of `node` becomes `entry`, and the plugins are told of `delta` allocations. */
  function Touch(c: Core, t: TaskId, r: Record, node: NodeName, entry: Option<Copy>, delta: int): (d: Core)
    requires t in c.ledger
  {
    Core(c.tasks[t := r],
         if entry.Some? then c.pods[Slot(node, t) := entry.value] else c.pods - {Slot(node, t)},
         c.orphans,
         c.ledger[t := c.ledger[t] + delta])
  }

  predicate JobFound(spec: Spec, t: TaskId)
    requires t in spec.tasks
  {
    spec.tasks[t].job in spec.jobs
  }

  ghost predicate WellFormed(spec: Spec, c: Core) {
    && c.tasks.Keys == spec.tasks.Keys == c.ledger.Keys
    && (forall s <- c.pods.Keys :: s.node in spec.nodes && s.task in spec.tasks)
    && (forall i :: 0 <= i < |c.orphans| ==>
          c.orphans[i].0.node in spec.nodes && c.orphans[i].0.task in spec.tasks)
    && NO_NODE !in spec.nodes
  }

  /** Every active task whose node is in the session sits on that node, and the node's copy agrees
      with the task's record. The snapshot that opens a session establishes this. */
  ghost predicate Settled(spec: Spec, c: Core) {
    forall t <- c.tasks.Keys | IsActiveAllocated(c.tasks[t].status) && c.tasks[t].node in spec.nodes ::
      var slot := Slot(c.tasks[t].node, t);
      slot in c.pods && c.pods[slot] == CopyOf(c.tasks[t])
  }

  /** Two records that differ at most in the GPU groups and NUMA placement of a task that is
      still to be placed. The scheduler overwrites those two fields freely before it places a task. */
  predicate SameRecord(a: Record, b: Record) {
    && a.status == b.status && a.node == b.node && a.virtual == b.virtual
    && (!IsPlaceable(b.status) ==> a.groups == b.groups && a.numa == b.numa)
  }

  predicate LostSlot(b: Core, lost: set<TaskId>, s: Slot) {
    s.task in lost && s.task in b.tasks && s.node == b.tasks[s.task].node
  }

  ghost predicate SameSlot(a: Core, b: Core, lost: set<TaskId>, s: Slot) {
    if LostSlot(b, lost, s) then OnNode(b, s).Some? && OnNode(a, s).None?
    else OnNode(a, s) == OnNode(b, s)
  }

  ghost predicate SamePods(a: Core, b: Core, lost: set<TaskId>) {
    forall s: Slot :: SameSlot(a, b, lost, s)
  }

  /** `a` is `b`, except that in `a` the tasks in `lost` are missing from the node they are on. */
  ghost predicate Same(a: Core, b: Core, lost: set<TaskId>) {
    && a.tasks.Keys == b.tasks.Keys
    && a.ledger == b.ledger
    && (forall t <- b.tasks.Keys :: SameRecord(a.tasks[t], b.tasks[t]))
    && SamePods(a, b, lost)
  }

  lemma SameNothingLost(a: Core, b: Core)
    requires Same(a, b, {})
    ensures a.pods == b.pods
  {
    forall s: Slot ensures OnNode(a, s) == OnNode(b, s) { assert SameSlot(a, b, {}, s); }
    forall s: Slot ensures s in a.pods <==> s in b.pods { assert OnNode(a, s) == OnNode(b, s); }
    forall s | s in a.pods ensures a.pods[s] == b.pods[s] { assert OnNode(a, s) == OnNode(b, s); }
  }

  lemma SameCompose(a: Core, b: Core, c: Core, lost: set<TaskId>)
    requires Same(a, b, lost) && Same(b, c, {})
    ensures Same(a, c, lost)
  {
    SameNothingLost(b, c);
    forall t | t in c.tasks ensures SameRecord(a.tasks[t], c.tasks[t]) {
      assert SameRecord(a.tasks[t], b.tasks[t]) && SameRecord(b.tasks[t], c.tasks[t]);
    }
    forall s: Slot ensures SameSlot(a, c, lost, s) {
      assert SameSlot(a, b, lost, s);
    }
  }

  lemma SameReflexive(a: Core)
    ensures Same(a, a, {})
  {
  }
}
