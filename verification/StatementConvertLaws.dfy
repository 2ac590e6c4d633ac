/** After ConvertAllAllocatedToPipelined: what became of the tasks, the log, and earlier checkpoints. */
module StatementConvertLaws {
  import opened Cluster
  import opened Options
  import opened StatementSpec
  import opened StatementHistory
  import opened StatementRollback
  import opened StatementCalls
  import opened StatementConvert

  // ---------------------------------------------------------------- the converted tasks

  predicate DistinctTasks(todo: Log) {
    forall i, j :: 0 <= i < j < |todo| ==> TaskOf(todo[i]) != TaskOf(todo[j])
  }

  predicate Ready(spec: Spec, c: Core, op: Operation)
    requires WellFormed(spec, c)
  {
    && op.AllocateOp? && op.task in spec.tasks && JobFound(spec, op.task) && op.nextNode in spec.nodes
    && AsAllocated(c, op)
  }

  /** The pipeline entry that replaces an allocation: it would take the task back to pending, but flagged. */
  function PipeFor(c: Core, op: Operation): Operation {
    if op.AllocateOp? && op.task in c.tasks then
      var r := c.tasks[op.task];
      PipelineOp(op.task, Record(Pending, NO_NODE, true, r.groups, r.numa), op.nextNode, false)
    else op
  }

  function PipesFor(c: Core, todo: Log): Log {
    if todo == [] then [] else [PipeFor(c, todo[0])] + PipesFor(c, todo[1..])
  }

  predicate AllReady(spec: Spec, c: Core, todo: Log)
    requires WellFormed(spec, c)
  {
    AllAllocations(spec, todo) && forall k :: 0 <= k < |todo| ==> Ready(spec, c, todo[k])
  }

  /** One conversion: the task is pipelined on the node it was allocated on, flagged; nothing else moves. */
  lemma ConvertOneEffect(spec: Spec, c: Core, log: Log, op: Operation)
    requires WellFormed(spec, c) && Ready(spec, c, op)
    ensures var r := ConvertOne(spec, c, log, op);
            var t := op.task;
            && r.ok && r.log == log + [PipeFor(c, op)]
            && r.core.tasks == c.tasks[t := c.tasks[t].(status := Pipelined, virtual := true)]
            && r.core.pods == c.pods[Slot(op.nextNode, t) := CopyOf(r.core.tasks[t])]
            && r.core.ledger == c.ledger && r.core.orphans == c.orphans
  {
    var t := op.task;
    var u := Unallocated(spec, c, t, c.tasks[t].numa, true);
    assert Slot(op.nextNode, t) !in u.pods;
    var r := ConvertOne(spec, c, log, op);
    assert r.core.tasks == c.tasks[t := c.tasks[t].(status := Pipelined, virtual := true)];
    assert r.core.pods == c.pods[Slot(op.nextNode, t) := CopyOf(r.core.tasks[t])];
    assert r.core.ledger == c.ledger;
  }

  function Tasks(todo: Log): set<TaskId> {
    set k | 0 <= k < |todo| :: TaskOf(todo[k])
  }

  predicate Converted(c: Core, c': Core, op: Operation) {
    && op.AllocateOp? && op.task in c.tasks && op.task in c'.tasks
    && c'.tasks[op.task] == c.tasks[op.task].(status := Pipelined, virtual := true)
    && OnNode(c', Slot(op.nextNode, op.task)) == Some(CopyOf(c'.tasks[op.task]))
  }

  ghost predicate SameOutside(c: Core, c': Core, touched: set<TaskId>) {
    && c'.ledger == c.ledger && c'.orphans == c.orphans && c'.tasks.Keys == c.tasks.Keys
    && (forall u <- c.tasks.Keys :: u !in touched ==> c'.tasks[u] == c.tasks[u])
    && (forall s: Slot :: s.task !in touched ==> OnNode(c', s) == OnNode(c, s))
  }

  /** Every task of `todo` is pipelined and flagged on its node; every other task, the plugins' count
      and the other task map entries are untouched. */
  ghost predicate AllConverted(c: Core, c': Core, todo: Log) {
    SameOutside(c, c', Tasks(todo)) && forall k :: 0 <= k < |todo| ==> Converted(c, c', todo[k])
  }

  lemma TasksOf(op: Operation, rest: Log)
    ensures Tasks([op] + rest) == {TaskOf(op)} + Tasks(rest)
  {
    var todo := [op] + rest;
    forall k | 0 <= k < |rest| ensures TaskOf(rest[k]) in Tasks(todo) { assert todo[k + 1] == rest[k]; }
    assert todo[0] == op;
  }

  lemma ConversionsCompose(c: Core, one: Core, c': Core, op: Operation, rest: Log)
    requires Converted(c, one, op) && SameOutside(c, one, {op.task}) && AllConverted(one, c', rest)
    requires TaskOf(op) !in Tasks(rest) && forall k :: 0 <= k < |rest| ==> rest[k].AllocateOp?
    ensures AllConverted(c, c', [op] + rest)
  {
    var todo := [op] + rest;
    TasksOf(op, rest);
    forall k | 0 <= k < |todo| ensures Converted(c, c', todo[k]) {
      if k == 0 {
        assert OnNode(c', Slot(op.nextNode, op.task)) == OnNode(one, Slot(op.nextNode, op.task));
      } else {
        assert todo[k] == rest[k - 1] && Converted(one, c', rest[k - 1]);
        assert TaskOf(rest[k - 1]) in Tasks(rest);
      }
    }
  }

  lemma ReadyRemains(spec: Spec, c: Core, one: Core, op: Operation, other: Operation)
    requires WellFormed(spec, c) && WellFormed(spec, one) && Ready(spec, c, other) && op.AllocateOp?
    requires SameOutside(c, one, {op.task}) && other.task != op.task
    ensures Ready(spec, one, other) && PipeFor(one, other) == PipeFor(c, other)
  {
    assert OnNode(one, Slot(other.nextNode, other.task)) == OnNode(c, Slot(other.nextNode, other.task));
  }

  lemma ConvertOneConverts(spec: Spec, c: Core, log: Log, op: Operation)
    requires WellFormed(spec, c) && Ready(spec, c, op)
    ensures var r := ConvertOne(spec, c, log, op);
            && r.ok && r.log == log + [PipeFor(c, op)]
            && Converted(c, r.core, op) && SameOutside(c, r.core, {op.task})
  {
    ConvertOneEffect(spec, c, log, op);
  }

  lemma DistinctRest(todo: Log)
    requires DistinctTasks(todo) && todo != []
    ensures DistinctTasks(todo[1..]) && TaskOf(todo[0]) !in Tasks(todo[1..])
  {
    var rest := todo[1..];
    forall i, j | 0 <= i < j < |rest| ensures TaskOf(rest[i]) != TaskOf(rest[j]) {
      assert TaskOf(todo[i + 1]) != TaskOf(todo[j + 1]);
    }
    forall k | 0 <= k < |rest| ensures TaskOf(rest[k]) != TaskOf(todo[0]) {
      assert TaskOf(todo[0]) != TaskOf(todo[k + 1]);
    }
  }

  lemma ReadyRest(spec: Spec, c: Core, todo: Log)
    requires WellFormed(spec, c) && AllReady(spec, c, todo) && todo != []
    ensures Ready(spec, c, todo[0]) && AllReady(spec, c, todo[1..])
  {
    hide Ready;
    var rest := todo[1..];
    forall k | 0 <= k < |rest| ensures Ready(spec, c, rest[k]) && rest[k].AllocateOp? && rest[k].task in spec.tasks {
      assert rest[k] == todo[k + 1];
    }
  }

  /** Converting one task leaves the others ready, with the same entries to be written for them. */
  lemma AllReadyRemain(spec: Spec, c: Core, one: Core, op: Operation, rest: Log)
    requires WellFormed(spec, c) && WellFormed(spec, one) && op.AllocateOp? && SameOutside(c, one, {op.task})
    requires op.task !in Tasks(rest) && AllReady(spec, c, rest)
    ensures AllReady(spec, one, rest) && PipesFor(one, rest) == PipesFor(c, rest)
  {
    hide Ready, SameOutside, PipeFor;
    forall k | 0 <= k < |rest| ensures Ready(spec, one, rest[k]) && PipeFor(one, rest[k]) == PipeFor(c, rest[k]) {
      assert TaskOf(rest[k]) in Tasks(rest);
      ReadyRemains(spec, c, one, op, rest[k]);
    }
    SamePipes(c, one, rest);
  }

  lemma {:induction false} SamePipes(c: Core, one: Core, todo: Log)
    requires forall k :: 0 <= k < |todo| ==> PipeFor(one, todo[k]) == PipeFor(c, todo[k])
    ensures PipesFor(one, todo) == PipesFor(c, todo)
    decreases |todo|
  {
    if todo != [] { SamePipes(c, one, todo[1..]); }
  }

  lemma {:induction false} ConvertEachEffect(spec: Spec, c: Core, log: Log, todo: Log)
    requires WellFormed(spec, c) && DistinctTasks(todo) && AllReady(spec, c, todo)
    ensures var r := ConvertEach(spec, c, log, todo);
            r.ok && r.log == log + PipesFor(c, todo) && AllConverted(c, r.core, todo)
    decreases |todo|
  {
    hide ConvertOne, SameOutside, Converted, DistinctTasks, Ready, AllConverted, PipeFor;
    if todo == [] {
      NothingConverted(c);
    } else {
      var op, rest := todo[0], todo[1..];
      assert todo == [op] + rest;
      ReadyRest(spec, c, todo);
      DistinctRest(todo);
      ConvertOneConverts(spec, c, log, op);
      var one := ConvertOne(spec, c, log, op);
      AllReadyRemain(spec, c, one.core, op, rest);
      ConvertEachEffect(spec, one.core, one.log, rest);
      ConversionsCompose(c, one.core, ConvertEach(spec, c, log, todo).core, op, rest);
    }
  }

  lemma NothingConverted(c: Core)
    ensures AllConverted(c, c, [])
  {
  }

  // ---------------------------------------------------------------- earlier checkpoints

  /** The state with the virtual flag of the given tasks set. */
  function Flagged(c: Core, tasks: set<TaskId>): Core {
    c.(tasks := map t | t in c.tasks :: if t in tasks then c.tasks[t].(virtual := true) else c.tasks[t])
  }

  lemma SameFlagged(a: Core, b: Core, tasks: set<TaskId>)
    requires Same(a, b, {})
    ensures Same(Flagged(a, tasks), Flagged(b, tasks), {})
  {
    SameNothingLost(a, b);
    forall t | t in b.tasks ensures SameRecord(Flagged(a, tasks).tasks[t], Flagged(b, tasks).tasks[t]) {
      assert SameRecord(a.tasks[t], b.tasks[t]);
    }
  }

  lemma FlaggedTwice(c: Core, a: set<TaskId>, b: set<TaskId>)
    ensures Flagged(Flagged(c, a), b) == Flagged(c, a + b)
  {
  }

  ghost predicate FlaggedCheckpoint(h: History, c: Core, h': History, c': Core, i: nat, tasks: set<TaskId>)
    requires i <= |h| && i <= |h'|
  {
    Same(At(h', c', i), Flagged(At(h, c, i), tasks), {})
  }

  /** Before its allocation, shelving a task does no more than set its flag. */
  lemma ShelvedIsFlagged(c: Core, t: TaskId, r: Record, node: NodeName, credit: int)
    requires t in c.tasks && t in c.ledger && c.tasks[t].status.Pending? && c.tasks[t].node == NO_NODE
    requires r.status.Pending? && r.node == NO_NODE && r.virtual
    requires OnNode(c, Slot(node, t)) == None && c.ledger[t] == credit
    ensures Same(Shelved(c, t, r, node, credit), Flagged(c, {t}), {})
  {
    assert c.pods - {Slot(node, t)} == c.pods;
    assert c.ledger[t := credit] == c.ledger;
  }

  /** The allocated task had been pending and unplaced all along, and its count is one up since. */
  lemma BeforeAllocation(spec: Spec, log: Log, h: History, c: Core, k: nat, i: nat)
    requires IsHistory(spec, log, h, c) && k < |log| && Removable(log, k) && i <= k
    ensures var t, b := TaskOf(log[k]), At(h, c, i);
            && t in b.tasks && t in b.ledger && t in c.ledger
            && b.tasks[t].status.Pending? && b.tasks[t].node == NO_NODE
            && OnNode(b, Slot(log[k].nextNode, t)) == None && b.ledger[t] == c.ledger[t] - 1
  {
    hide Recorded, PublicLog, Same, Settled;
    var t := TaskOf(log[k]);
    assert OpKnown(spec, log[k]);
    assert HistoryStep(spec, log, h, c, k);
    AllocationFacts(spec, log[k], h[k].0, h[k].1);
    Untouched(spec, log, h, c, t, i, k);
    Untouched(spec, log, h, c, t, k + 1, |log|);
    SameTask(At(h, c, k + 1), h[k].1, t);
  }

  lemma AllocationFacts(spec: Spec, op: Operation, h0: Core, h1: Core)
    requires op.AllocateOp? && Recorded(spec, op, h0, h1)
    ensures var t := op.task;
            && t in h0.tasks && t in h0.ledger && t in h1.tasks && t in h1.ledger
            && h0.tasks[t].status.Pending? && h0.tasks[t].node == NO_NODE
            && OnNode(h0, Slot(op.nextNode, t)) == None && h1.ledger[t] == h0.ledger[t] + 1
  {
  }

  /** Converting one allocation keeps a history, whose checkpoints up to it differ in one flag only. */
  lemma ConvertEntry(spec: Spec, log: Log, h: History, c: Core, k: nat) returns (h': History)
    requires IsHistory(spec, log, h, c) && Settled(spec, c) && k < |log| && Removable(log, k)
    requires Ready(spec, c, log[k])
    ensures var c' := ConvertOne(spec, c, log, log[k]).core;
            var log' := Without(log, k) + [PipeFor(c, log[k])];
            && IsHistory(spec, log', h', c') && Settled(spec, c')
            && forall i :: 0 <= i <= k ==> FlaggedCheckpoint(h, c, h', c', i, {TaskOf(log[k])})
  {
    hide Settled, Removable, HistoryStep, PublicLog, Shelved, ConvertOne, Flagged, PipeFor, Same,
      ShelvedHistory, Backward, PipelineOnto, Unallocated, Without;
    var op := log[k];
    var t, node := op.task, op.nextNode;
    var r := Record(Pending, NO_NODE, true, c.tasks[t].groups, c.tasks[t].numa);
    var credit := c.ledger[t] - 1;
    var c1 := Shelved(c, t, r, node, credit);
    HistoryWithout(spec, log, h, c, k, r, credit);
    SettledShelved(spec, c, t, r, node, credit);
    var log1, h1 := Without(log, k), ShelvedHistory(h, k, t, r, node, credit);
    PublicIsBackward(log1);
    PipelineShelf(spec, c, log, log1, op);
    h' := PipelineOntoKeeps(spec, c1, log1, h1, t, node);
    var c' := ConvertOne(spec, c, log, op).core;
    forall i | 0 <= i <= k ensures FlaggedCheckpoint(h, c, h', c', i, {t}) {
      assert SameCheckpoint(c1, h1, c', h', i);
      CheckpointShelved(spec, log, h, c, k, r, i);
      SameCompose(At(h', c', i), At(h1, c1, i), Flagged(At(h, c, i), {t}), {});
    }
  }

  /** A conversion shelves the task and pipelines it from there. */
  lemma PipelineShelf(spec: Spec, c: Core, log: Log, log1: Log, op: Operation)
    requires WellFormed(spec, c) && Ready(spec, c, op)
    ensures var t, node := op.task, op.nextNode;
            var r := Record(Pending, NO_NODE, true, c.tasks[t].groups, c.tasks[t].numa);
            var c1 := Shelved(c, t, r, node, c.ledger[t] - 1);
            && WellFormed(spec, c1) && c1.tasks[t] == r && Slot(node, t) !in c1.pods
            && PipelineOnto(spec, c1, log1, t, node) ==
               Outcome(ConvertOne(spec, c, log, op).core, log1 + [PipeFor(c, op)], true)
  {
    var t, node := op.task, op.nextNode;
    var r := Record(Pending, NO_NODE, true, c.tasks[t].groups, c.tasks[t].numa);
    assert Shelved(c, t, r, node, c.ledger[t] - 1) == Unallocated(spec, c, t, c.tasks[t].numa, true);
  }

  lemma CheckpointShelved(spec: Spec, log: Log, h: History, c: Core, k: nat, r: Record, i: nat)
    requires IsHistory(spec, log, h, c) && k < |log| && Removable(log, k) && i <= k
    requires r.status.Pending? && r.node == NO_NODE && r.virtual
    requires TaskOf(log[k]) in c.ledger
    ensures var t, node, credit := TaskOf(log[k]), log[k].nextNode, c.ledger[TaskOf(log[k])] - 1;
            Same(At(ShelvedHistory(h, k, t, r, node, credit), Shelved(c, t, r, node, credit), i),
                 Flagged(At(h, c, i), {t}), {})
  {
    hide Recorded, PublicLog, Same, Settled, Shelved, Flagged;
    var t, node, credit := TaskOf(log[k]), log[k].nextNode, c.ledger[TaskOf(log[k])] - 1;
    BeforeAllocation(spec, log, h, c, k, i);
    ShelvedIsFlagged(At(h, c, i), t, r, node, credit);
    if i == k {
      assert HistoryStep(spec, log, h, c, k);
      AllocationShelved(spec, log[k], h[k].0, h[k].1, r, credit);
      SameShelved(At(h, c, k + 1), h[k].1, t, r, node, credit);
      SameCompose(Shelved(At(h, c, k + 1), t, r, node, credit), Shelved(h[k].0, t, r, node, credit),
                  Flagged(At(h, c, k), {t}), {});
    }
  }

  // ---------------------------------------------------------------- the whole conversion

  /** Every allocation of the job is as its call left it, is the only entry about its task, and comes
      after everything that has been undone. */
  ghost predicate ConvertReady(spec: Spec, c: Core, log: Log, job: JobId)
    requires WellFormed(spec, c)
  {
    forall k :: 0 <= k < |log| && IsAllocationOf(spec, log[k], job) ==> ReadyAt(spec, c, log, k)
  }

  ghost predicate ReadyAt(spec: Spec, c: Core, log: Log, k: nat)
    requires WellFormed(spec, c) && k < |log|
  {
    Removable(log, k) && Ready(spec, c, log[k])
  }

  lemma Associate(a: Log, b: Log, c: Log)
    ensures (a + b) + c == a + (b + c)
  {
  }

  lemma ConvertOneSuffix(spec: Spec, c: Core, a: Log, b: Log, op: Operation) returns (more: Log)
    requires WellFormed(spec, c) && op.AllocateOp? && op.task in spec.tasks
    ensures var ra, rb := ConvertOne(spec, c, a, op), ConvertOne(spec, c, b, op);
            ra.core == rb.core && ra.ok == rb.ok && ra.log == a + more && rb.log == b + more
  {
    var ra := ConvertOne(spec, c, a, op);
    more := if |ra.log| == |a| then [] else [ra.log[|a|]];
  }

  /** The session after the loop, and what it appends, do not depend on what the log held before. */
  lemma {:induction false} SameSuffix(spec: Spec, c: Core, a: Log, b: Log, todo: Log) returns (more: Log)
    requires WellFormed(spec, c) && AllAllocations(spec, todo)
    ensures var ra, rb := ConvertEach(spec, c, a, todo), ConvertEach(spec, c, b, todo);
            ra.core == rb.core && ra.ok == rb.ok && ra.log == a + more && rb.log == b + more
    decreases |todo|
  {
    hide ConvertOne;
    more := [];
    if todo != [] {
      more := ConvertOneSuffix(spec, c, a, b, todo[0]);
      var ra, rb := ConvertOne(spec, c, a, todo[0]), ConvertOne(spec, c, b, todo[0]);
      if ra.ok {
        var rest := SameSuffix(spec, ra.core, ra.log, rb.log, todo[1..]);
        Associate(a, more, rest);
        Associate(b, more, rest);
        more := more + rest;
      }
    }
  }

  /** Taking out the first allocation and appending its pipeline entry, as far as the filters go. */
  lemma FiltersWithout(spec: Spec, log: Log, job: JobId, k: nat, pipe: Operation)
    requires k < |log| && IsAllocationOf(spec, log[k], job) && !IsAllocationOf(spec, pipe, job)
    requires Allocations(spec, log[..k], job) == []
    ensures Allocations(spec, log, job) == [log[k]] + Allocations(spec, Without(log, k) + [pipe], job)
    ensures Kept(spec, Without(log, k) + [pipe], job) == Kept(spec, log, job) + [pipe]
  {
    hide Kept, Allocations, IsAllocationOf;
    var a, b := log[..k], log[k + 1..];
    assert log == (a + [log[k]]) + b;
    KeptOfConcat(spec, a + [log[k]], b, job);
    KeptOfConcat(spec, a, [log[k]], job);
    OneEntry(spec, log[k], job);
    KeptOfConcat(spec, a + b, [pipe], job);
    KeptOfConcat(spec, a, b, job);
    OneEntry(spec, pipe, job);
  }

  lemma ReadyWithout(spec: Spec, c: Core, log: Log, job: JobId, k: nat)
    requires WellFormed(spec, c) && ConvertReady(spec, c, log, job)
    requires k < |log| && IsAllocationOf(spec, log[k], job) && Allocations(spec, log[..k], job) == []
    ensures Ready(spec, c, log[k])
    ensures ConvertReady(spec, ConvertOne(spec, c, log, log[k]).core, Without(log, k) + [PipeFor(c, log[k])], job)
  {
    hide ConvertOne, SameOutside, Converted, Removable, Allocations;
    var op := log[k];
    assert ReadyAt(spec, c, log, k);
    ConvertOneConverts(spec, c, log, op);
    var c' := ConvertOne(spec, c, log, op).core;
    var log' := Without(log, k) + [PipeFor(c, op)];
    NoAllocation(spec, log[..k], job);
    assert forall j :: 0 <= j < k ==> log'[j] == log[..k][j];
    forall i | 0 <= i < |log'| && IsAllocationOf(spec, log'[i], job) ensures ReadyAt(spec, c', log', i) {
      assert k <= i < |log| - 1 && log'[i] == log[i + 1];
      assert ReadyAt(spec, c, log, i + 1);
      RemovableWithout(log, k, PipeFor(c, op), i);
      RemovableOthers(log, k, i + 1);
      ReadyRemains(spec, c, c', op, log'[i]);
    }
  }

  lemma RemovableOthers(log: Log, k: nat, j: nat)
    requires k < |log| && Removable(log, k) && j < |log| && j != k
    ensures TaskOf(log[j]) != TaskOf(log[k])
  {
  }

  lemma RemovableWithout(log: Log, k: nat, pipe: Operation, i: nat)
    requires k < |log| && Removable(log, k) && k <= i < |log| - 1 && Removable(log, i + 1)
    requires pipe.PipelineOp? && TaskOf(pipe) == TaskOf(log[k])
    ensures Removable(Without(log, k) + [pipe], i)
  {
    var log' := Without(log, k) + [pipe];
    assert forall j :: 0 <= j < k ==> log'[j] == log[j];
    assert forall j :: k <= j < |log| - 1 ==> log'[j] == log[j + 1];
    forall j | 0 <= j < |log'| && j != i ensures TaskOf(log'[j]) != TaskOf(log'[i]) {
      var u := if j < k then j else j + 1;
      assert j < |log| - 1 ==> log'[j] == log[u];
    }
    forall u | 0 <= u < |log'| && log'[u].UndoOp? ensures log'[u].index < i {
      var v := if u < k then u else u + 1;
      assert log'[u] == log[v];
    }
  }

  lemma ConvertNothing(spec: Spec, c: Core, log: Log, job: JobId)
    requires WellFormed(spec, c) && Allocations(spec, log, job) == []
    ensures Convert(spec, c, log, job) == Outcome(c, log, true)
  {
    NoAllocation(spec, log, job);
  }

  /** The conversion succeeds and keeps a history whose checkpoints before the first allocation differ from
      the old ones in the flag of the converted tasks only. */
  lemma {:induction false} ConvertKeeps(spec: Spec, c: Core, log: Log, h: History, job: JobId) returns (h': History)
    requires IsHistory(spec, log, h, c) && Settled(spec, c) && ConvertReady(spec, c, log, job)
    ensures var r := Convert(spec, c, log, job);
            var tasks := Tasks(Allocations(spec, log, job));
            && r.ok && IsHistory(spec, r.log, h', r.core) && Settled(spec, r.core)
            && forall i :: 0 <= i <= |log| && i <= |r.log| && Allocations(spec, log[..i], job) == [] ==>
                 FlaggedCheckpoint(h, c, h', r.core, i, tasks)
    decreases |Allocations(spec, log, job)|
  {
    hide Recorded, PublicLog, Same, Settled, Ready, Removable, ReadyAt, FlaggedCheckpoint, ConvertOne, Convert, HistoryStep;
    var todo := Allocations(spec, log, job);
    if todo == [] {
      h' := h;
      ConvertNothing(spec, c, log, job);
      forall i | 0 <= i <= |log| ensures FlaggedCheckpoint(h, c, h', c, i, {}) { NoFlags(h, c, i); }
      assert Tasks(todo) == {};
    } else {
      var k := FirstAllocation(spec, log, job);
      ReadyWithout(spec, c, log, job, k);
      assert ReadyAt(spec, c, log, k);
      UnfoldReadyAt(spec, c, log, k);
      var pipe := PipeFor(c, log[k]);
      var h1 := ConvertEntry(spec, log, h, c, k);
      var one := ConvertOne(spec, c, log, log[k]);
      var log1 := Without(log, k) + [pipe];
      FiltersWithout(spec, log, job, k, pipe);
      h' := ConvertKeeps(spec, one.core, log1, h1, job);
      ConvertFirst(spec, c, log, job, k);
      var r := Convert(spec, c, log, job);
      assert Tasks(todo) == {TaskOf(log[k])} + Tasks(Allocations(spec, log1, job)) by {
        TasksOf(log[k], Allocations(spec, log1, job));
      }
      forall i | 0 <= i <= |log| && i <= |r.log| && Allocations(spec, log[..i], job) == []
        ensures FlaggedCheckpoint(h, c, h', r.core, i, Tasks(todo))
      {
        FirstIsFirst(spec, log, job, k, i);
        assert log1[..i] == log[..i];
        ComposeFlags(h, c, h1, one.core, h', r.core, i, {TaskOf(log[k])}, Tasks(Allocations(spec, log1, job)));
      }
    }
  }

  lemma UnfoldReadyAt(spec: Spec, c: Core, log: Log, k: nat)
    requires WellFormed(spec, c) && k < |log| && ReadyAt(spec, c, log, k)
    ensures Removable(log, k) && Ready(spec, c, log[k])
            && !IsAllocationOf(spec, PipeFor(c, log[k]), spec.tasks[log[k].task].job)
  {
  }

  lemma NoFlags(h: History, c: Core, i: nat)
    requires i <= |h|
    ensures FlaggedCheckpoint(h, c, h, c, i, {})
  {
    assert Flagged(At(h, c, i), {}) == At(h, c, i);
  }

  lemma FirstIsFirst(spec: Spec, log: Log, job: JobId, k: nat, i: nat)
    requires k < |log| && i <= |log| && IsAllocationOf(spec, log[k], job) && Allocations(spec, log[..i], job) == []
    ensures i <= k
  {
    NoAllocation(spec, log[..i], job);
    assert forall m :: 0 <= m < i ==> log[..i][m] == log[m];
  }

  lemma ComposeFlags(h: History, c: Core, h1: History, c1: Core, h2: History, c2: Core, i: nat,
                     a: set<TaskId>, b: set<TaskId>)
    requires i <= |h| && i <= |h1| && i <= |h2|
    requires FlaggedCheckpoint(h, c, h1, c1, i, a) && FlaggedCheckpoint(h1, c1, h2, c2, i, b)
    ensures FlaggedCheckpoint(h, c, h2, c2, i, a + b)
  {
    hide Same, Flagged;
    SameFlagged(At(h1, c1, i), Flagged(At(h, c, i), a), b);
    FlaggedTwice(At(h, c, i), a, b);
    SameCompose(At(h2, c2, i), Flagged(At(h1, c1, i), b), Flagged(At(h, c, i), a + b), {});
  }

  /** Converting everything is converting the first allocation and then the rest. */
  lemma ConvertFirst(spec: Spec, c: Core, log: Log, job: JobId, k: nat)
    requires WellFormed(spec, c) && k < |log| && IsAllocationOf(spec, log[k], job) && Ready(spec, c, log[k])
    requires Allocations(spec, log[..k], job) == []
    requires var one := ConvertOne(spec, c, log, log[k]);
             Convert(spec, one.core, Without(log, k) + [PipeFor(c, log[k])], job).ok
    ensures var one := ConvertOne(spec, c, log, log[k]);
            Convert(spec, c, log, job) == Convert(spec, one.core, Without(log, k) + [PipeFor(c, log[k])], job)
  {
    var op := log[k];
    var pipe := PipeFor(c, op);
    var log1 := Without(log, k) + [pipe];
    ConvertOneConverts(spec, c, log, op);
    var one := ConvertOne(spec, c, log, op);
    FiltersWithout(spec, log, job, k, pipe);
    AllocationsAre(spec, log, job);
    AllocationsAre(spec, log1, job);
    var rest := Allocations(spec, log1, job);
    assert Allocations(spec, log, job)[1..] == rest && Allocations(spec, log, job)[0] == op;
    hide ConvertOne, Converted, SameOutside, Ready, Kept, Allocations, PipeFor, IsAllocationOf, WellFormed;
    var more := SameSuffix(spec, one.core, one.log, log1, rest);
    KeptOfConcat(spec, one.log, more, job);
    KeptOfConcat(spec, log, [pipe], job);
    KeptOfConcat(spec, log1, more, job);
    OneEntry(spec, pipe, job);
  }
}
