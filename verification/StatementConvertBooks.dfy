/** What converting the allocations of a job does to the resource vectors of nodes and jobs. */
module StatementConvertBooks {
  import opened Cluster
  import opened StatementSpec
  import opened StatementHistory
  import opened StatementRollback
  import opened StatementCalls
  import opened StatementConvert
  import opened StatementConvertLaws
  import opened StatementConvertReady
  import opened StatementConvertLog
  import opened StatementRuns
  import opened Accounting

  /** The entries allocate known tasks on known nodes. */
  predicate Placed(spec: Spec, todo: Log) {
    forall k :: 0 <= k < |todo| ==> todo[k].AllocateOp? && todo[k].task in spec.tasks && todo[k].nextNode in spec.nodes
  }

  /** What node `n` is charged of resource `i` for the tasks that `todo` allocates there. */
  ghost function ChargeSum(spec: Spec, n: NodeName, i: nat, todo: Log): int
    requires WellSized(spec) && Placed(spec, todo) && i < spec.dims
  {
    if todo == [] then 0
    else
      var s := Slot(todo[0].nextNode, todo[0].task);
      (if s.node == n then Charge(spec, s, i) else 0) + ChargeSum(spec, n, i, todo[1..])
  }

  /** What the tasks that `todo` allocates request of resource `i`. */
  ghost function RequestSum(spec: Spec, i: nat, todo: Log): int
    requires WellSized(spec) && Placed(spec, todo) && i < spec.dims
  {
    if todo == [] then 0 else spec.tasks[todo[0].task].request[i] + RequestSum(spec, i, todo[1..])
  }

  // ---------------------------------------------------------------- one task

  lemma TotalUpdate(spec: Spec, kind: Kind, n: NodeName, i: nat, pods: map<Slot, Copy>, s: Slot, copy: Copy)
    requires WellSized(spec) && PodsKnown(spec, pods) && i < spec.dims && s in pods
    ensures Total(spec, kind, n, i, pods[s := copy]) == Total(spec, kind, n, i, pods) +
            if s.node == n then Share(spec, kind, s, copy.status, i) - Share(spec, kind, s, pods[s].status, i) else 0
  {
    hide Total, Share, WellSized;
    TotalWithout(spec, kind, n, i, pods, s);
    TotalWithout(spec, kind, n, i, pods[s := copy], s);
    assert pods[s := copy] - {s} == pods - {s};
  }

  /** The copy of the task that the node holds has the status its entry gave it. */
  predicate HeldAllocated(c: Core, op: Operation) {
    op.AllocateOp? && var copy := OnNode(c, Slot(op.nextNode, op.task)); copy.Some? && copy.value.status.Allocated?
  }

  /** From state to state, the sums of a node shift `x` from releasing to idle and those of a job fall by `y`. */
  ghost predicate Shift(spec: Spec, c: Core, c': Core, n: NodeName, job: JobId, i: nat, x: int, y: int)
    requires WellSized(spec) && WellFormed(spec, c) && WellFormed(spec, c') && i < spec.dims
  {
    && c'.orphans == c.orphans
    && Total(spec, Used, n, i, c'.pods) == Total(spec, Used, n, i, c.pods)
    && Total(spec, Idle, n, i, c'.pods) == Total(spec, Idle, n, i, c.pods) + x
    && Total(spec, Freed, n, i, c'.pods) == Total(spec, Freed, n, i, c.pods) - x
    && JobTotal(spec, job, i, c'.tasks) == JobTotal(spec, job, i, c.tasks) - y
  }

  lemma ConvertOneShifts(spec: Spec, c: Core, log: Log, op: Operation, n: NodeName, job: JobId, i: nat)
    requires WellSized(spec) && WellFormed(spec, c) && i < spec.dims && Ready(spec, c, op) && HeldAllocated(c, op)
    ensures var s := Slot(op.nextNode, op.task);
            Shift(spec, c, ConvertOne(spec, c, log, op).core, n, job, i,
                  if s.node == n then Charge(spec, s, i) else 0,
                  if spec.tasks[op.task].job == job then spec.tasks[op.task].request[i] else 0)
  {
    hide ConvertOne, Charge;
    ConvertOneEffect(spec, c, log, op);
    var one := ConvertOne(spec, c, log, op).core;
    var s := Slot(op.nextNode, op.task);
    TotalUpdate(spec, Used, n, i, c.pods, s, one.pods[s]);
    TotalUpdate(spec, Idle, n, i, c.pods, s, one.pods[s]);
    TotalUpdate(spec, Freed, n, i, c.pods, s, one.pods[s]);
    JobTotalUpdate(spec, job, i, c.tasks, op.task, one.tasks[op.task]);
  }

  // ---------------------------------------------------------------- all tasks

  lemma StillHeld(c: Core, one: Core, op: Operation, rest: Log)
    requires op.AllocateOp? && SameOutside(c, one, {op.task}) && op.task !in Tasks(rest)
    requires forall k :: 0 <= k < |rest| ==> HeldAllocated(c, rest[k])
    ensures forall k :: 0 <= k < |rest| ==> HeldAllocated(one, rest[k])
  {
    forall k | 0 <= k < |rest| ensures HeldAllocated(one, rest[k]) {
      assert HeldAllocated(c, rest[k]) && TaskOf(rest[k]) in Tasks(rest);
      var s := Slot(rest[k].nextNode, rest[k].task);
      assert OnNode(one, s) == OnNode(c, s);
    }
  }

  lemma ReadyIsPlaced(spec: Spec, c: Core, todo: Log)
    requires WellFormed(spec, c) && AllReady(spec, c, todo)
    ensures Placed(spec, todo)
  {
    forall k | 0 <= k < |todo|
      ensures todo[k].AllocateOp? && todo[k].task in spec.tasks && todo[k].nextNode in spec.nodes
    {
      assert Ready(spec, c, todo[k]);
    }
  }

  lemma {:induction false} ConvertEachShifts(
      spec: Spec, c: Core, log: Log, todo: Log, n: NodeName, owner: JobId, job: JobId, i: nat)
    requires WellSized(spec) && WellFormed(spec, c) && i < spec.dims && AllReady(spec, c, todo) && DistinctTasks(todo)
    requires forall k :: 0 <= k < |todo| ==> HeldAllocated(c, todo[k]) && IsAllocationOf(spec, todo[k], owner)
    ensures Placed(spec, todo)
    ensures Shift(spec, c, ConvertEach(spec, c, log, todo).core, n, job, i,
                  ChargeSum(spec, n, i, todo), if job == owner then RequestSum(spec, i, todo) else 0)
    decreases |todo|
  {
    hide Ready, HeldAllocated, Total, JobTotal, Charge, DistinctTasks, SameOutside, ConvertOne, WellSized;
    ReadyIsPlaced(spec, c, todo);
    if todo != [] {
      var op, rest := todo[0], todo[1..];
      ReadyRest(spec, c, todo);
      DistinctRest(todo);
      ConvertOneConverts(spec, c, log, op);
      assert HeldAllocated(c, op) && IsAllocationOf(spec, op, owner);
      ConvertOneShifts(spec, c, log, op, n, job, i);
      var one := ConvertOne(spec, c, log, op);
      AllReadyRemain(spec, c, one.core, op, rest);
      StillHeld(c, one.core, op, rest);
      ConvertEachShifts(spec, one.core, one.log, rest, n, owner, job, i);
    }
  }

  /** The sums say nothing of a node on which nothing was allocated. */
  lemma {:induction false} NothingThere(spec: Spec, n: NodeName, i: nat, todo: Log)
    requires WellSized(spec) && Placed(spec, todo) && i < spec.dims
    requires forall k :: 0 <= k < |todo| ==> todo[k].nextNode != n
    ensures ChargeSum(spec, n, i, todo) == 0
    decreases |todo|
  {
    if todo != [] { NothingThere(spec, n, i, todo[1..]); }
  }

  // ---------------------------------------------------------------- the books

  ghost predicate NodeShifts(spec: Spec, v: Vectors, v': Vectors, n: NodeName, todo: Log, i: nat)
    requires WellSized(spec) && Placed(spec, todo) && i < spec.dims
  {
    && |v.used| == |v'.used| == |v.idle| == |v'.idle| == |v.releasing| == |v'.releasing| == spec.dims
    && v'.used[i] == v.used[i]
    && v'.idle[i] == v.idle[i] + ChargeSum(spec, n, i, todo)
    && v'.releasing[i] == v.releasing[i] - ChargeSum(spec, n, i, todo)
  }

  ghost predicate JobFalls(spec: Spec, v: seq<int>, v': seq<int>, todo: Log, i: nat)
    requires WellSized(spec) && Placed(spec, todo) && i < spec.dims
  {
    |v| == |v'| == spec.dims && v'[i] == v[i] - RequestSum(spec, i, todo)
  }

  /** On every node, idle resources rise and releasing ones fall by the charges of the tasks converted there,
      and what is in use stays. The job's allocated total falls by what the converted tasks request. Other
      nodes and jobs keep their vectors. */
  ghost predicate BooksShift(spec: Spec, b: Books, b': Books, todo: Log, job: JobId)
    requires WellSized(spec) && Placed(spec, todo)
  {
    && b'.nodes.Keys == b.nodes.Keys == spec.nodes.Keys && b'.jobs.Keys == b.jobs.Keys == spec.jobs
    && (forall n, i: nat :: n in spec.nodes && i < spec.dims ==> NodeShifts(spec, b.nodes[n], b'.nodes[n], n, todo, i))
    && (forall n <- spec.nodes.Keys ::
          (forall k :: 0 <= k < |todo| ==> todo[k].nextNode != n) ==> b'.nodes[n] == b.nodes[n])
    && (job in spec.jobs ==> forall i: nat :: i < spec.dims ==> JobFalls(spec, b.jobs[job], b'.jobs[job], todo, i))
    && (forall j <- spec.jobs :: j != job ==> b'.jobs[j] == b.jobs[j])
  }

  lemma ShiftedNode(spec: Spec, c: Core, b: Books, c': Core, b': Books, n: NodeName, job: JobId, i: nat, y: int, todo: Log)
    requires Balanced(spec, c, b) && Balanced(spec, c', b') && n in spec.nodes && i < spec.dims && Placed(spec, todo)
    requires Shift(spec, c, c', n, job, i, ChargeSum(spec, n, i, todo), y)
    ensures NodeShifts(spec, b.nodes[n], b'.nodes[n], n, todo, i)
  {
    assert NodeBalanced(spec, c, n, b.nodes[n]) && NodeBalanced(spec, c', n, b'.nodes[n]);
    assert NodeBalancedAt(spec, c, n, b.nodes[n], i) && NodeBalancedAt(spec, c', n, b'.nodes[n], i);
  }

  lemma UnshiftedNode(spec: Spec, v: Vectors, v': Vectors, n: NodeName, todo: Log)
    requires WellSized(spec) && Placed(spec, todo)
    requires |v.used| == |v'.used| == |v.idle| == |v'.idle| == |v.releasing| == |v'.releasing| == spec.dims
    requires forall i: nat :: i < spec.dims ==> NodeShifts(spec, v, v', n, todo, i)
    requires forall k :: 0 <= k < |todo| ==> todo[k].nextNode != n
    ensures v' == v
  {
    forall i: nat | i < spec.dims
      ensures v'.used[i] == v.used[i] && v'.idle[i] == v.idle[i] && v'.releasing[i] == v.releasing[i]
    {
      NothingThere(spec, n, i, todo);
      assert NodeShifts(spec, v, v', n, todo, i);
    }
    assert v'.used == v.used && v'.idle == v.idle && v'.releasing == v.releasing;
  }

  lemma ShiftedJob(spec: Spec, c: Core, b: Books, c': Core, b': Books, n: NodeName, job: JobId, i: nat, x: int, y: int)
    requires Balanced(spec, c, b) && Balanced(spec, c', b') && job in spec.jobs && i < spec.dims
    requires Shift(spec, c, c', n, job, i, x, y)
    ensures |b.jobs[job]| == |b'.jobs[job]| == spec.dims && b'.jobs[job][i] == b.jobs[job][i] - y
  {
    assert JobBalanced(spec, c, job, b.jobs[job]) && JobBalanced(spec, c', job, b'.jobs[job]);
  }

  /** The allocations of the job that the loop converts are all held by their nodes as allocated. */
  lemma AllocationsHeld(spec: Spec, log: Log, h: History, c: Core, job: JobId)
    requires IsHistory(spec, log, h, c) && Settled(spec, c) && StillAllocated(spec, c, log, job)
    ensures var todo := Allocations(spec, log, job);
            && AllReady(spec, c, todo) && DistinctTasks(todo) && Placed(spec, todo)
            && (forall k :: 0 <= k < |todo| ==> HeldAllocated(c, todo[k]) && IsAllocationOf(spec, todo[k], job))
  {
    hide HistoryStep, PublicLog;
    var todo := Allocations(spec, log, job);
    AllocationsReady(spec, log, h, c, job);
    AllocationsAre(spec, log, job);
    ReadyIsPlaced(spec, c, todo);
    forall k | 0 <= k < |todo| ensures HeldAllocated(c, todo[k]) {
      assert Ready(spec, c, todo[k]);
    }
  }

  lemma ConvertShifts(spec: Spec, log: Log, h: History, c: Core, job: JobId, n: NodeName, j: JobId, i: nat)
    requires IsHistory(spec, log, h, c) && Settled(spec, c) && StillAllocated(spec, c, log, job)
    requires WellSized(spec) && i < spec.dims
    ensures var todo := Allocations(spec, log, job);
            && Placed(spec, todo)
            && Shift(spec, c, Convert(spec, c, log, job).core, n, j, i, ChargeSum(spec, n, i, todo),
                     if j == job then RequestSum(spec, i, todo) else 0)
  {
    hide HistoryStep, PublicLog, Settled, Shift, ChargeSum, RequestSum;
    AllocationsHeld(spec, log, h, c, job);
    ConvertEachShifts(spec, c, log, Allocations(spec, log, job), n, job, j, i);
  }

  /** ConvertAllAllocatedToPipelined, on the books. */
  lemma ConvertBooks(spec: Spec, log: Log, h: History, c: Core, job: JobId, b: Books, b': Books)
    requires IsHistory(spec, log, h, c) && Settled(spec, c) && StillAllocated(spec, c, log, job)
    requires Balanced(spec, c, b) && Balanced(spec, Convert(spec, c, log, job).core, b')
    ensures Placed(spec, Allocations(spec, log, job))
    ensures BooksShift(spec, b, b', Allocations(spec, log, job), job)
  {
    hide HistoryStep, PublicLog, Settled, Shift, ChargeSum, RequestSum, NodeBalanced, JobBalanced, StillAllocated,
      Convert, Allocations, Placed;
    var todo := Allocations(spec, log, job);
    var c' := Convert(spec, c, log, job).core;
    AllocationsHeld(spec, log, h, c, job);
    forall n, i: nat | n in spec.nodes && i < spec.dims ensures NodeShifts(spec, b.nodes[n], b'.nodes[n], n, todo, i) {
      ConvertShifts(spec, log, h, c, job, n, job, i);
      ShiftedNode(spec, c, b, c', b', n, job, i, RequestSum(spec, i, todo), todo);
    }
    forall n | n in spec.nodes && forall k :: 0 <= k < |todo| ==> todo[k].nextNode != n
      ensures b'.nodes[n] == b.nodes[n]
    {
      SizesOf(spec, c, b, n);
      SizesOf(spec, c', b', n);
      UnshiftedNode(spec, b.nodes[n], b'.nodes[n], n, todo);
    }
    forall j | j in spec.jobs ensures JobMoves(spec, b.jobs[j], b'.jobs[j], j, job, todo) {
      JobOfConversion(spec, log, h, c, job, b, b', j);
    }
  }

  ghost predicate JobMoves(spec: Spec, v: seq<int>, v': seq<int>, j: JobId, job: JobId, todo: Log)
    requires WellSized(spec) && Placed(spec, todo)
  {
    if j == job then forall i: nat :: i < spec.dims ==> JobFalls(spec, v, v', todo, i) else v' == v
  }

  lemma JobOfConversion(spec: Spec, log: Log, h: History, c: Core, job: JobId, b: Books, b': Books, j: JobId)
    requires IsHistory(spec, log, h, c) && Settled(spec, c) && StillAllocated(spec, c, log, job)
    requires Balanced(spec, c, b) && Balanced(spec, Convert(spec, c, log, job).core, b') && j in spec.jobs
    ensures Placed(spec, Allocations(spec, log, job))
    ensures JobMoves(spec, b.jobs[j], b'.jobs[j], j, job, Allocations(spec, log, job))
  {
    hide HistoryStep, PublicLog, Settled, Shift, ChargeSum, RequestSum, NodeBalanced, StillAllocated, Convert,
      Allocations, Placed, JobTotal;
    var todo := Allocations(spec, log, job);
    var c' := Convert(spec, c, log, job).core;
    assert JobBalanced(spec, c, j, b.jobs[j]) && JobBalanced(spec, c', j, b'.jobs[j]);
    AllocationsHeld(spec, log, h, c, job);
    forall i: nat | i < spec.dims
      ensures b'.jobs[j][i] == b.jobs[j][i] - if j == job then RequestSum(spec, i, todo) else 0
    {
      ConvertShifts(spec, log, h, c, job, NO_NODE, j, i);
      ShiftedJob(spec, c, b, c', b', NO_NODE, j, i, ChargeSum(spec, NO_NODE, i, todo),
                 if j == job then RequestSum(spec, i, todo) else 0);
    }
  }

  /** The same at the end of any run of calls that left the job's allocations standing. */
  lemma ConvertBooksAfterRun(spec: Spec, start: Core, actions: seq<Action>, job: JobId, b: Books, b': Books)
    requires WellFormed(spec, start) && Settled(spec, start) && Allowed(spec, start, [], actions, 0)
    requires var now := Run(spec, start, [], actions, 0);
             && StillAllocated(spec, now.core, now.log, job)
             && Balanced(spec, now.core, b) && Balanced(spec, Convert(spec, now.core, now.log, job).core, b')
    ensures var todo := Allocations(spec, Run(spec, start, [], actions, 0).log, job);
            Placed(spec, todo) && BooksShift(spec, b, b', todo, job)
  {
    hide HistoryStep, PublicLog, Settled, Allowed, Run, Balanced, StillAllocated, Convert, Allocations, Placed, BooksShift;
    EmptyHistory(spec, start);
    var h := RunKeeps(spec, start, [], [], actions, 0);
    var now := Run(spec, start, [], actions, 0);
    ConvertBooks(spec, now.log, h, now.core, job, b, b');
  }
}
