/** Where a statement does not restore the session, and exactly when. */
module StatementLimits {
  import opened Cluster
  import opened Options
  import opened StatementSpec
  import opened StatementHistory
  import opened StatementRollback
  import opened StatementCalls
  import opened StatementCommit
  import opened StatementConvert
  import opened StatementConvertLaws
  import opened StatementConvertReady
  import opened StatementConvertLog
  import opened StatementRuns
  import opened StatementBooks
  import opened Accounting

  // ---------------------------------------------------------------- runs given call by call

  ghost predicate Calls(spec: Spec, s: Outcome, call: Call, s': Outcome) {
    && WellFormed(spec, s.core) && Backward(s.log) && Known(spec, s.log)
    && Disciplined(spec, s.core, s.log, call) && s' == Perform(spec, s.core, s.log, call)
  }

  function Basics(calls: seq<Call>): seq<Action> {
    seq(|calls|, i requires 0 <= i < |calls| => Basic(calls[i]))
  }

  /** Disciplined calls in a row are an allowed run. */
  lemma {:induction false} RunOfCalls(spec: Spec, ss: seq<Outcome>, calls: seq<Call>, floor: nat)
    requires |ss| == |calls| + 1 && forall i :: 0 <= i < |calls| ==> Calls(spec, ss[i], calls[i], ss[i + 1])
    requires forall i :: 0 <= i < |ss| ==> floor <= |ss[i].log|
    requires WellFormed(spec, ss[0].core) && Backward(ss[0].log) && Known(spec, ss[0].log)
    ensures Allowed(spec, ss[0].core, ss[0].log, Basics(calls), floor)
    ensures var r := Run(spec, ss[0].core, ss[0].log, Basics(calls), floor);
            r.core == ss[|calls|].core && r.log == ss[|calls|].log
    decreases |calls|
  {
    hide Disciplined, Perform, WellFormed, Backward, Known;
    if calls != [] {
      assert Calls(spec, ss[0], calls[0], ss[1]);
      assert Basics(calls)[1..] == Basics(calls[1..]) && Basics(calls)[0] == Basic(calls[0]);
      RunOfCalls(spec, ss[1..], calls[1..], floor);
    }
  }

  // ---------------------------------------------------------------- unevicting

  /** Undoing an eviction can itself be undone if and only if the task still is as the eviction left
      it. (The node it was evicted from is taken not to hold an active copy of it.) */
  lemma UnevictInvertibleIff(spec: Spec, c: Core, op: Operation)
    requires WellFormed(spec, c) && op.EvictOp? && OpKnown(spec, op) && JobFound(spec, op.task)
    requires IsActiveAllocated(op.previous.status) && c.tasks[op.task].node in spec.nodes
    requires var left := OnNode(c, Slot(op.previous.node, op.task));
             left.Some? ==> !IsActiveAllocated(left.value.status)
    ensures Same(Evicted(Unevicted(spec, c, op), op.task), c, {}) <==> AsEvicted(c, op)
  {
    var t := op.task;
    var c1 := Unevicted(spec, c, op);
    var c2 := Evicted(c1, t);
    var here, there := Slot(c.tasks[t].node, t), Slot(op.previous.node, t);
    assert c2.tasks[t] == c1.tasks[t].(status := Releasing, virtual := true);
    if AsEvicted(c, op) {
      assert c2.ledger == c.ledger;
      forall s: Slot ensures SameSlot(c2, c, {}, s) { assert !LostSlot(c, {}, s); }
    } else {
      assert !(SameRecord(c2.tasks[t], c.tasks[t]) && SameSlot(c2, c, {}, here) && SameSlot(c2, c, {}, there));
    }
  }

  /** A task evicted from one node and pipelined to another: pipelining it back with undo allowed
      undoes the first eviction, and rolling that back leaves the first node with an active copy. */
  lemma UnevictAfterMove(spec: Spec, c: Core, t: TaskId, host: NodeName, metadata: EvictionMetadata)
    requires WellFormed(spec, c) && Settled(spec, c) && t in spec.tasks && JobFound(spec, t)
    requires IsActiveAllocated(c.tasks[t].status) && c.tasks[t].node in spec.nodes
    requires host in spec.nodes && host != c.tasks[t].node && Slot(host, t) !in c.pods
    ensures var e := Evict(spec, c, [], t, metadata);
            var p := PipelineOnto(spec, e.core, e.log, t, host);
            && e.ok && p.ok && Backward(p.log) && Known(spec, p.log)
            && var u := Pipeline(spec, p.core, p.log, t, c.tasks[t].node, true);
               var back := Rollback(spec, u.core, u.log, |p.log|);
               && u.ok && u.log == p.log + [UndoOp(0, e.log[0])] && back.ok && back.log == p.log
               && !Same(back.core, p.core, {})
  {
    hide Evict, PipelineOnto, Pipeline, Rollback, Settled, OpKnown, Same, Evicted, Unevicted, Backward;
    var home := c.tasks[t].node;
    var op := EvictOp(t, c.tasks[t], metadata);
    var e := Evict(spec, c, [], t, metadata);
    var op2 := PipelineOp(t, e.core.tasks[t], host, false);
    var p := PipelineOnto(spec, e.core, e.log, t, host);
    MovedTask(spec, c, t, host, metadata);
    assert p.log == [op, op2];
    PipelineBackUnevicts(spec, p.core, op, op2, home);
    var u := Pipeline(spec, p.core, p.log, t, home, true);
    UnevictedElsewhere(spec, p.core, op, host);
    RollbackOfUnevict(spec, u.core, op, op2);
    UnevictInvertibleIff(spec, p.core, op);
  }

  /** Unevicting a task leaves it where it has been moved to. */
  lemma UnevictedElsewhere(spec: Spec, c: Core, op: Operation, host: NodeName)
    requires WellFormed(spec, c) && op.EvictOp? && OpKnown(spec, op) && c.tasks[op.task].node == host
    requires Slot(host, op.task) in c.pods
    ensures var u := Unevicted(spec, c, op);
            WellFormed(spec, u) && u.tasks[op.task].node == host && Slot(host, op.task) in u.pods
  {
  }

  lemma MovedTask(spec: Spec, c: Core, t: TaskId, host: NodeName, metadata: EvictionMetadata)
    requires WellFormed(spec, c) && Settled(spec, c) && t in spec.tasks && JobFound(spec, t)
    requires IsActiveAllocated(c.tasks[t].status) && c.tasks[t].node in spec.nodes
    requires host in spec.nodes && host != c.tasks[t].node && Slot(host, t) !in c.pods
    ensures var e := Evict(spec, c, [], t, metadata);
            var p := PipelineOnto(spec, e.core, e.log, t, host);
            var r := c.tasks[t];
            && e.ok && e.log == [EvictOp(t, r, metadata)]
            && p.ok && p.log == e.log + [PipelineOp(t, e.core.tasks[t], host, false)]
            && OpKnown(spec, p.log[0]) && OpKnown(spec, p.log[1])
            && OnNode(p.core, Slot(r.node, t)) == Some(Copy(Releasing, true, r.groups, r.numa))
            && Slot(host, t) in p.core.pods
            && p.core.tasks[t] == Record(Pipelined, host, true, r.groups, r.numa)
  {
  }

  lemma PipelineBackUnevicts(spec: Spec, c: Core, op: Operation, op2: Operation, home: NodeName)
    requires WellFormed(spec, c) && op.EvictOp? && op2.PipelineOp? && op2.task == op.task
    requires OpKnown(spec, op) && OpKnown(spec, op2) && JobFound(spec, op.task)
    requires home == op.previous.node
    requires OnNode(c, Slot(home, op.task)) ==
             Some(Copy(Releasing, true, c.tasks[op.task].groups, c.tasks[op.task].numa))
    ensures Backward([op, op2]) && Known(spec, [op, op2])
    ensures Pipeline(spec, c, [op, op2], op.task, home, true)
         == Outcome(Unevicted(spec, c, op), [op, op2, UndoOp(0, op)], true)
  {
    var log := [op, op2];
    assert FirstUndo(log, 0, 0).None?;
    assert EarliestValidEvict(log, op.task, 0) == Some(0);
    assert WithRecord(c, op.task, c.tasks[op.task]) == c;
    assert UndoOperation(spec, c, log, 0).log == [op, op2, UndoOp(0, op)];
  }

  lemma RollbackOfUnevict(spec: Spec, c: Core, op: Operation, op2: Operation)
    requires WellFormed(spec, c) && op.EvictOp? && op2.PipelineOp? && OpKnown(spec, op) && OpKnown(spec, op2)
    requires JobFound(spec, op.task) && c.tasks[op.task].node in spec.nodes
    requires Slot(c.tasks[op.task].node, op.task) in c.pods
    ensures var log := [op, op2, UndoOp(0, op)];
            && Backward(log) && Known(spec, log)
            && Rollback(spec, c, log, 2) == Outcome(Evicted(c, op.task), [op, op2], true)
  {
    var log := [op, op2, UndoOp(0, op)];
    assert OpKnown(spec, log[2]);
    assert FirstUndo(log, 2, 0).None?;
    var step := UndoOperation(spec, c, log, 2);
    assert step.ok && step.core == Evicted(c, op.task);
    assert UndoDownTo(spec, c, log, 3, 2) == step;
    assert step.log[..2] == [op, op2];
  }

  // ---------------------------------------------------------------- an eviction left behind

  /** The task is undone from its earliest valid eviction. */
  lemma UnevictStep(spec: Spec, c: Core, log: Log, t: TaskId, e: nat)
    requires WellFormed(spec, c) && Backward(log) && Known(spec, log) && t in spec.tasks && JobFound(spec, t)
    requires EarliestValidEvict(log, t, 0) == Some(e) && AsEvicted(c, log[e])
    ensures Calls(spec, Outcome(c, log, true), DoUnevict(t),
                  Outcome(Unevicted(spec, c, log[e]), log + [UndoOp(e, log[e])], true))
  {
    UnevictOutcome(spec, c, log, t);
  }

  /** Evict, pipeline back without undoing, evict again, and unevict. */
  function EvictTwice(start: Core, t: TaskId, m1: EvictionMetadata, m2: EvictionMetadata): seq<Call>
    requires t in start.tasks
  {
    [DoEvict(t, m1), DoPipeline(t, start.tasks[t].node, false), DoEvict(t, m2), DoUnevict(t)]
  }

  /** Unevict undoes the earliest valid eviction only. After this run the session is what it was, the task
      included, and yet Commit sends the second eviction to the cluster, whatever the cluster accepts. */
  lemma UnevictLeavesEviction(spec: Spec, start: Core, t: TaskId, m1: EvictionMetadata, m2: EvictionMetadata,
                              accepted: set<nat>)
    requires WellFormed(spec, start) && Settled(spec, start) && t in spec.tasks && JobFound(spec, t)
    requires IsActiveAllocated(start.tasks[t].status) && start.tasks[t].node in spec.nodes
    ensures var actions := Basics(EvictTwice(start, t, m1, m2));
            && Allowed(spec, start, [], actions, 0)
            && var now := Run(spec, start, [], actions, 0);
               && now.core == start && |now.log| == 4 && now.log[2].EvictOp? && now.log[2].task == t
               && Effect(2, 2 in accepted) in Sent(now.log, accepted, 4)
  {
    hide Calls, Settled, Allowed, Run, Basics, Sent;
    var s := EvictTwiceCalls(spec, start, t, m1, m2);
    RunOfCalls(spec, s, EvictTwice(start, t, m1, m2), 0);
    var log := s[4].log;
    assert log[3].UndoOp? && log[3].index == 0;
    assert FirstUndo(log, 2, 0).None?;
    assert Survives(log, 2);
    SentExactly(log, accepted, 4);
  }

  lemma EvictTwiceCalls(spec: Spec, start: Core, t: TaskId, m1: EvictionMetadata, m2: EvictionMetadata)
    returns (s: seq<Outcome>)
    requires WellFormed(spec, start) && Settled(spec, start) && t in spec.tasks && JobFound(spec, t)
    requires IsActiveAllocated(start.tasks[t].status) && start.tasks[t].node in spec.nodes
    ensures |s| == 5 && s[0] == Outcome(start, [], true)
    ensures var calls := EvictTwice(start, t, m1, m2);
            forall i :: 0 <= i < 4 ==> Calls(spec, s[i], calls[i], s[i + 1])
    ensures s[4].core == start && WellFormed(spec, start) && Backward(s[4].log)
    ensures |s[4].log| == 4 && s[4].log[0].EvictOp? && s[4].log[1].PipelineOp?
    ensures s[4].log[2] == EvictOp(t, Repipelined(start, t), m2) && s[4].log[3] == UndoOp(0, s[4].log[0])
  {
    hide Calls, Settled, Evicted, Unevicted, Known, Backward, CopyOf;
    var e1, e2 := EvictOp(t, start.tasks[t], m1), EvictOp(t, Repipelined(start, t), m2);
    EvictCalls(spec, start, [], t, m1);
    var p, c2 := RepipelineCalls(spec, start, t, m1);
    EvictCalls(spec, c2, [e1, p], t, m2);
    assert [e1, p] + [e2] == [e1, p, e2] && [] + [e1] == [e1];
    SecondEviction(spec, start, t, e1, p, e2, c2);
    var s3 := Outcome(Evicted(c2, t), [e1, p, e2], true);
    s := [Outcome(start, [], true), Outcome(Evicted(start, t), [e1], true), Outcome(c2, [e1, p], true), s3,
          Outcome(start, [e1, p, e2, UndoOp(0, e1)], true)];
  }

  lemma SecondEviction(spec: Spec, start: Core, t: TaskId, e1: Operation, p: Operation, e2: Operation, c2: Core)
    requires WellFormed(spec, start) && Settled(spec, start) && t in spec.tasks && JobFound(spec, t)
    requires IsActiveAllocated(start.tasks[t].status) && start.tasks[t].node in spec.nodes
    requires e1.EvictOp? && e1.task == t && e1.previous == start.tasks[t] && p.PipelineOp? && e2.EvictOp?
    requires WellFormed(spec, c2) && c2.orphans == start.orphans && WellFormed(spec, Evicted(c2, t))
    requires c2.tasks == start.tasks[t := Repipelined(start, t)] && c2.ledger == start.ledger
    requires c2.pods == start.pods[Slot(start.tasks[t].node, t) := CopyOf(Repipelined(start, t))]
    requires Backward([e1, p, e2]) && Known(spec, [e1, p, e2])
    ensures Calls(spec, Outcome(Evicted(c2, t), [e1, p, e2], true), DoUnevict(t),
                  Outcome(start, [e1, p, e2, UndoOp(0, e1)], true))
    ensures Backward([e1, p, e2, UndoOp(0, e1)])
  {
    var log := [e1, p, e2];
    BackToStart(spec, start, t, e1, c2);
    assert AsEvicted(Evicted(c2, t), e1);
    hide Calls, Settled, Evicted, Unevicted, WellFormed, AsEvicted;
    assert FirstUndo(log, 0, 0).None?;
    assert ValidEvict(log, t, 0);
    UnevictStep(spec, Evicted(c2, t), log, t, 0);
    assert log + [UndoOp(0, e1)] == [e1, p, e2, UndoOp(0, e1)];
  }

  function Repipelined(start: Core, t: TaskId): Record
    requires t in start.tasks
  {
    start.tasks[t].(status := Pipelined, virtual := true)
  }

  lemma EvictCalls(spec: Spec, c: Core, log: Log, t: TaskId, metadata: EvictionMetadata)
    requires WellFormed(spec, c) && Settled(spec, c) && Backward(log) && Known(spec, log)
    requires t in spec.tasks && JobFound(spec, t)
    requires IsActiveAllocated(c.tasks[t].status) && c.tasks[t].node in spec.nodes
    ensures Calls(spec, Outcome(c, log, true), DoEvict(t, metadata),
                  Outcome(Evicted(c, t), log + [EvictOp(t, c.tasks[t], metadata)], true))
    ensures Backward(log + [EvictOp(t, c.tasks[t], metadata)]) && Known(spec, log + [EvictOp(t, c.tasks[t], metadata)])
    ensures WellFormed(spec, Evicted(c, t))
  {
  }

  lemma RepipelineCalls(spec: Spec, start: Core, t: TaskId, metadata: EvictionMetadata)
    returns (p: Operation, c2: Core)
    requires WellFormed(spec, start) && Settled(spec, start) && t in spec.tasks && JobFound(spec, t)
    requires IsActiveAllocated(start.tasks[t].status) && start.tasks[t].node in spec.nodes
    ensures var e1 := EvictOp(t, start.tasks[t], metadata);
            && p.PipelineOp? && p.task == t && p.wasOnNode && Backward([e1, p]) && Known(spec, [e1, p])
            && Calls(spec, Outcome(Evicted(start, t), [e1], true), DoPipeline(t, start.tasks[t].node, false),
                     Outcome(c2, [e1, p], true))
    ensures WellFormed(spec, c2) && Settled(spec, c2) && c2.orphans == start.orphans
    ensures c2.tasks == start.tasks[t := Repipelined(start, t)] && c2.ledger == start.ledger
    ensures c2.pods == start.pods[Slot(start.tasks[t].node, t) := CopyOf(Repipelined(start, t))]
  {
    hide Settled;
    var node := start.tasks[t].node;
    var e1 := EvictOp(t, start.tasks[t], metadata);
    var c1 := Evicted(start, t);
    assert [e1][0] == e1;
    assert JustEvicted([e1], t);
    p := PipelineOp(t, PipelinePrevious(spec, c1, t, node), node, true);
    c2 := PipelinedTo(spec, c1, t, node);
    assert [e1] + [p] == [e1, p];
    RepipelineState(spec, start, t);
  }

  lemma RepipelineState(spec: Spec, start: Core, t: TaskId)
    requires WellFormed(spec, start) && Settled(spec, start) && t in spec.tasks && JobFound(spec, t)
    requires IsActiveAllocated(start.tasks[t].status) && start.tasks[t].node in spec.nodes
    ensures var c2 := PipelinedTo(spec, Evicted(start, t), t, start.tasks[t].node);
            && WellFormed(spec, c2) && Settled(spec, c2) && c2.orphans == start.orphans
            && c2.tasks == start.tasks[t := Repipelined(start, t)] && c2.ledger == start.ledger
            && c2.pods == start.pods[Slot(start.tasks[t].node, t) := CopyOf(Repipelined(start, t))]
  {
    var c1 := Evicted(start, t);
    assert !PipelineMovesGpu(spec, c1, t, start.tasks[t].node);
    var c2 := PipelinedTo(spec, c1, t, start.tasks[t].node);
    assert c2.ledger == start.ledger && c2.tasks == start.tasks[t := Repipelined(start, t)];
  }

  lemma BackToStart(spec: Spec, start: Core, t: TaskId, e1: Operation, c2: Core)
    requires WellFormed(spec, start) && Settled(spec, start) && t in spec.tasks && JobFound(spec, t)
    requires IsActiveAllocated(start.tasks[t].status) && start.tasks[t].node in spec.nodes
    requires e1.EvictOp? && e1.task == t && e1.previous == start.tasks[t]
    requires WellFormed(spec, c2) && c2.orphans == start.orphans
    requires c2.tasks == start.tasks[t := Repipelined(start, t)] && c2.ledger == start.ledger
    requires c2.pods == start.pods[Slot(start.tasks[t].node, t) := CopyOf(Repipelined(start, t))]
    ensures Unevicted(spec, Evicted(c2, t), e1) == start
  {
    var c4 := Unevicted(spec, Evicted(c2, t), e1);
    assert c4.tasks == start.tasks && c4.ledger == start.ledger;
    assert c4.pods == start.pods;
  }

  // ---------------------------------------------------------------- conversion

  /** Allocate a task, then evict and unevict another one. */
  function AllocateThenUndo(a: TaskId, host: NodeName, v: TaskId, metadata: EvictionMetadata): seq<Call> {
    [DoAllocate(a, host), DoEvict(v, metadata), DoUnevict(v)]
  }

  /** After this run, converting the allocations of the first task's job leaves an undo entry that points
      at itself, so that asking for its validity would never end. */
  lemma ConvertBreaksUndo(spec: Spec, start: Core, a: TaskId, host: NodeName, v: TaskId, metadata: EvictionMetadata)
    requires WellFormed(spec, start) && Settled(spec, start) && a in spec.tasks && v in spec.tasks
    requires JobFound(spec, a) && start.tasks[a].status.Pending? && start.tasks[a].node == NO_NODE
    requires host in spec.nodes && Slot(host, a) !in start.pods
    requires JobFound(spec, v) && IsActiveAllocated(start.tasks[v].status) && start.tasks[v].node in spec.nodes
    ensures var actions := Basics(AllocateThenUndo(a, host, v, metadata));
            && Allowed(spec, start, [], actions, 0)
            && var now := Run(spec, start, [], actions, 0);
               var evict := EvictOp(v, start.tasks[v], metadata);
               var r := Convert(spec, now.core, now.log, spec.tasks[a].job);
               && StillAllocated(spec, now.core, now.log, spec.tasks[a].job)
               && r.ok && |r.log| == 3 && r.log[..2] == [evict, UndoOp(1, evict)]
               && r.log[2].PipelineOp? && r.log[2].task == a && !Backward(r.log)
  {
    hide Calls, Allowed, Run, Basics, Convert, Settled, HistoryStep, PublicLog;
    var s := AllocateThenUndoCalls(spec, start, a, host, v, metadata);
    RunOfCalls(spec, s, AllocateThenUndo(a, host, v, metadata), 0);
    var actions := Basics(AllocateThenUndo(a, host, v, metadata));
    EmptyHistory(spec, start);
    var h := RunKeeps(spec, start, [], [], actions, 0);
    ConvertThree(spec, s[3].log, h, s[3].core, spec.tasks[a].job);
  }

  lemma ConvertThree(spec: Spec, log: Log, h: History, c: Core, job: JobId)
    requires IsHistory(spec, log, h, c) && Settled(spec, c)
    requires |log| == 3 && IsAllocationOf(spec, log[0], job) && c.tasks[log[0].task].status.Allocated?
    requires log[1].EvictOp? && log[2] == UndoOp(1, log[1])
    ensures StillAllocated(spec, c, log, job)
    ensures var r := Convert(spec, c, log, job);
            && r.ok && |r.log| == 3 && r.log[..2] == log[1..]
            && r.log[2].PipelineOp? && r.log[2].task == log[0].task && !Backward(r.log)
  {
    hide Convert, Settled, HistoryStep, PublicLog, Kept, Allocations, AllConverted;
    var alloc := log[0];
    assert log == [alloc, log[1], log[2]];
    FilterThree(spec, alloc, log[1], log[2], job);
    ConvertOutcome(spec, log, h, c, job);
    assert PipesFor(c, [alloc]) == [PipeFor(c, alloc)] by { assert [alloc][1..] == []; }
    var out := Convert(spec, c, log, job).log;
    assert out == [log[1], log[2], PipeFor(c, alloc)];
    assert out[1].UndoOp? && out[1].index == 1;
  }

  lemma AllocateThenUndoCalls(spec: Spec, start: Core, a: TaskId, host: NodeName, v: TaskId,
                              metadata: EvictionMetadata) returns (s: seq<Outcome>)
    requires WellFormed(spec, start) && Settled(spec, start) && a in spec.tasks && v in spec.tasks
    requires JobFound(spec, a) && start.tasks[a].status.Pending? && start.tasks[a].node == NO_NODE
    requires host in spec.nodes && Slot(host, a) !in start.pods
    requires JobFound(spec, v) && IsActiveAllocated(start.tasks[v].status) && start.tasks[v].node in spec.nodes
    ensures |s| == 4 && s[0] == Outcome(start, [], true)
    ensures var calls := AllocateThenUndo(a, host, v, metadata);
            forall i :: 0 <= i < 3 ==> Calls(spec, s[i], calls[i], s[i + 1])
    ensures var alloc := AllocateOp(a, host, start.tasks[a].numa, start.tasks[a].virtual);
            var evict := EvictOp(v, start.tasks[v], metadata);
            s[3].log == [alloc, evict, UndoOp(1, evict)]
    ensures a in s[3].core.tasks && s[3].core.tasks[a].status.Allocated?
  {
    hide Calls, Settled, Evicted, Unevicted, Backward, Known;
    var alloc := AllocateOp(a, host, start.tasks[a].numa, start.tasks[a].virtual);
    var evict := EvictOp(v, start.tasks[v], metadata);
    var c1, log := AllocatedTo(start, a, host), [alloc, evict];
    AllocateCalls(spec, start, a, host);
    EvictCalls(spec, c1, [alloc], v, metadata);
    assert [alloc] + [evict] == log;
    EvictThenUnevict(spec, c1, alloc, evict);
    var c2 := Evicted(c1, v);
    s := [Outcome(start, [], true), Outcome(c1, [alloc], true), Outcome(c2, log, true),
          Outcome(Unevicted(spec, c2, evict), [alloc, evict, UndoOp(1, evict)], true)];
  }

  lemma EvictThenUnevict(spec: Spec, c1: Core, alloc: Operation, evict: Operation)
    requires WellFormed(spec, c1) && Settled(spec, c1) && alloc.AllocateOp? && evict.EvictOp?
    requires evict.task in spec.tasks && JobFound(spec, evict.task) && evict.previous == c1.tasks[evict.task]
    requires IsActiveAllocated(evict.previous.status) && evict.previous.node in spec.nodes
    requires WellFormed(spec, Evicted(c1, evict.task)) && Backward([alloc, evict]) && Known(spec, [alloc, evict])
    requires alloc.task in spec.tasks && alloc.task != evict.task && c1.tasks[alloc.task].status.Allocated?
    ensures var c2 := Evicted(c1, evict.task);
            var c3 := Unevicted(spec, c2, evict);
            && Calls(spec, Outcome(c2, [alloc, evict], true), DoUnevict(evict.task),
                     Outcome(c3, [alloc, evict, UndoOp(1, evict)], true))
            && alloc.task in c3.tasks && c3.tasks[alloc.task].status.Allocated?
  {
    hide Calls;
    var log := [alloc, evict];
    assert FirstUndo(log, 1, 0).None?;
    assert ValidEvict(log, evict.task, 1) && !ValidEvict(log, evict.task, 0);
    UnevictStep(spec, Evicted(c1, evict.task), log, evict.task, 1);
    assert log + [UndoOp(1, evict)] == [alloc, evict, UndoOp(1, evict)];
  }

  lemma AllocateCalls(spec: Spec, start: Core, a: TaskId, host: NodeName)
    requires WellFormed(spec, start) && Settled(spec, start) && a in spec.tasks
    requires JobFound(spec, a) && start.tasks[a].status.Pending? && start.tasks[a].node == NO_NODE
    requires host in spec.nodes && Slot(host, a) !in start.pods
    ensures var alloc := AllocateOp(a, host, start.tasks[a].numa, start.tasks[a].virtual);
            var c1 := AllocatedTo(start, a, host);
            && Calls(spec, Outcome(start, [], true), DoAllocate(a, host), Outcome(c1, [alloc], true))
            && WellFormed(spec, c1) && Settled(spec, c1) && Backward([alloc]) && Known(spec, [alloc])
  {
    hide Settled;
    var alloc := AllocateOp(a, host, start.tasks[a].numa, start.tasks[a].virtual);
    assert [] + [alloc] == [alloc];
    AllocatedSettled(spec, start, a, host);
  }

  lemma AllocatedSettled(spec: Spec, start: Core, a: TaskId, host: NodeName)
    requires WellFormed(spec, start) && Settled(spec, start) && a in spec.tasks && host in spec.nodes
    ensures WellFormed(spec, AllocatedTo(start, a, host)) && Settled(spec, AllocatedTo(start, a, host))
  {
  }

  lemma FilterThree(spec: Spec, alloc: Operation, evict: Operation, undo: Operation, job: JobId)
    requires IsAllocationOf(spec, alloc, job) && !IsAllocationOf(spec, evict, job) && !IsAllocationOf(spec, undo, job)
    ensures Kept(spec, [alloc, evict, undo], job) == [evict, undo]
    ensures Allocations(spec, [alloc, evict, undo], job) == [alloc]
  {
    hide Kept, Allocations, IsAllocationOf;
    assert [alloc, evict, undo] == [alloc] + [evict, undo] && [evict, undo] == [evict] + [undo];
    KeptOfConcat(spec, [alloc], [evict, undo], job);
    KeptOfConcat(spec, [evict], [undo], job);
    OneEntry(spec, alloc, job);
    OneEntry(spec, evict, job);
    OneEntry(spec, undo, job);
  }

  // ---------------------------------------------------------------- what a rollback does not restore

  /** A checkpoint after an eviction, and then the task is pipelined back onto its node: rolling back loses
      the node's copy of the task. */
  lemma RollbackLosesCopy(spec: Spec, start: Core, t: TaskId, metadata: EvictionMetadata)
    requires WellFormed(spec, start) && Settled(spec, start) && t in spec.tasks && JobFound(spec, t)
    requires IsActiveAllocated(start.tasks[t].status) && start.tasks[t].node in spec.nodes
    ensures var before := Basics([DoEvict(t, metadata)]);
            var after := Basics([DoPipeline(t, start.tasks[t].node, false)]);
            && Allowed(spec, start, [], before, 0)
            && var cp := Run(spec, start, [], before, 0);
               && |cp.log| == 1 && Allowed(spec, cp.core, cp.log, after, 1)
               && var now := Run(spec, cp.core, cp.log, after, 1);
                  var back := Rollback(spec, now.core, now.log, 1);
                  && back.ok && Lost(now.log, 1) == {t} && !Same(back.core, cp.core, {})
  {
    hide Settled, Allowed, Run, Basics, Rollback, Same, Lost, RunFlags, RunDrops, Flagged;
    EvictThenRepipeline(spec, start, t, metadata);
    RollbackReturnsToCheckpoint(
      spec, start, Basics([DoEvict(t, metadata)]), Basics([DoPipeline(t, start.tasks[t].node, false)]));
  }

  lemma EvictThenRepipeline(spec: Spec, start: Core, t: TaskId, metadata: EvictionMetadata)
    requires WellFormed(spec, start) && Settled(spec, start) && t in spec.tasks && JobFound(spec, t)
    requires IsActiveAllocated(start.tasks[t].status) && start.tasks[t].node in spec.nodes
    ensures var before := Basics([DoEvict(t, metadata)]);
            var after := Basics([DoPipeline(t, start.tasks[t].node, false)]);
            && Allowed(spec, start, [], before, 0)
            && var cp := Run(spec, start, [], before, 0);
               && |cp.log| == 1 && Allowed(spec, cp.core, cp.log, after, 1)
               && Lost(Run(spec, cp.core, cp.log, after, 1).log, 1) == {t}
  {
    hide Calls, Settled, Allowed, Run, Basics, Lost, Evicted, Known, Backward, CopyOf, Repipelined;
    var e1 := EvictOp(t, start.tasks[t], metadata);
    var before, after := [DoEvict(t, metadata)], [DoPipeline(t, start.tasks[t].node, false)];
    EvictCalls(spec, start, [], t, metadata);
    assert [] + [e1] == [e1];
    var p, c2 := RepipelineCalls(spec, start, t, metadata);
    var s1 := Outcome(Evicted(start, t), [e1], true);
    RunOfCalls(spec, [Outcome(start, [], true), s1], before, 0);
    RunOfCalls(spec, [s1, Outcome(c2, [e1, p], true)], after, 1);
    LostInTwo(e1, p);
  }

  lemma LostInTwo(e1: Operation, p: Operation)
    requires e1.EvictOp? && p.PipelineOp? && p.task == e1.task && p.wasOnNode
    ensures Lost([e1, p], 1) == {e1.task}
  {
    forall t ensures t in Lost([e1, p], 1) <==> t == e1.task { LostIff([e1, p], 1, t); }
  }

  /** Allocate a task and convert the allocations of its job. */
  function AllocateThenConvert(spec: Spec, a: TaskId, host: NodeName): seq<Action>
    requires a in spec.tasks
  {
    [Basic(DoAllocate(a, host)), DoConvert(spec.tasks[a].job)]
  }

  /** A task that was not flagged is flagged after a conversion and a discard or a rollback. */
  lemma ConvertedFlagStays(spec: Spec, start: Core, a: TaskId, host: NodeName)
    requires WellFormed(spec, start) && Settled(spec, start) && a in spec.tasks
    requires JobFound(spec, a) && start.tasks[a].status.Pending? && start.tasks[a].node == NO_NODE
    requires host in spec.nodes && Slot(host, a) !in start.pods && !start.tasks[a].virtual
    ensures var actions := AllocateThenConvert(spec, a, host);
            && Allowed(spec, start, [], actions, 0)
            && var now := Run(spec, start, [], actions, 0);
               && !Same(Discard(spec, now.core, now.log).core, start, {})
               && !Same(Rollback(spec, now.core, now.log, 0).core, start, {})
  {
    hide Settled, Same, Discard, Rollback, Flagged, AllocateThenConvert;
    var actions := AllocateThenConvert(spec, a, host);
    ConvertOfOne(spec, start, a, host);
    DiscardRestores(spec, start, actions);
    RollbackReturnsToCheckpoint(spec, start, [], actions);
  }

  lemma ConvertOfOne(spec: Spec, start: Core, a: TaskId, host: NodeName)
    requires WellFormed(spec, start) && Settled(spec, start) && a in spec.tasks
    requires JobFound(spec, a) && start.tasks[a].status.Pending? && start.tasks[a].node == NO_NODE
    requires host in spec.nodes && Slot(host, a) !in start.pods
    ensures var actions := AllocateThenConvert(spec, a, host);
            Allowed(spec, start, [], actions, 0) && a in RunFlags(spec, start, [], actions, 0)
  {
    hide Settled, HistoryStep, PublicLog, Convert, Same, Allowed, Run, RunFlags, Permitted, Act, Perform, Disciplined, Tasks,
      IsAllocationOf;
    var alloc := AllocateOp(a, host, start.tasks[a].numa, start.tasks[a].virtual);
    var job, c1 := spec.tasks[a].job, AllocatedTo(start, a, host);
    AllocateCalls(spec, start, a, host);
    RunOfCalls(spec, [Outcome(start, [], true), Outcome(c1, [alloc], true)], [DoAllocate(a, host)], 0);
    EmptyHistory(spec, start);
    var h := RunKeeps(spec, start, [], [], Basics([DoAllocate(a, host)]), 0);
    ConvertIsPermitted(spec, c1, alloc, h, job);
    CallThenConvert(spec, start, DoAllocate(a, host), Outcome(c1, [alloc], true), job);
  }

  /** The only allocation of a log can be converted. */
  lemma ConvertIsPermitted(spec: Spec, c: Core, alloc: Operation, h: History, job: JobId)
    requires IsHistory(spec, [alloc], h, c) && Settled(spec, c)
    requires alloc.AllocateOp? && alloc.task in spec.tasks && spec.tasks[alloc.task].job == job
    requires c.tasks[alloc.task].status.Allocated?
    ensures Backward([alloc]) && Permitted(spec, c, [alloc], DoConvert(job), 0)
    ensures alloc.task in Flags(spec, [alloc], DoConvert(job))
  {
    hide Settled, HistoryStep, PublicLog, Convert, Allocations;
    OneEntry(spec, alloc, job);
    assert [alloc][0] == alloc && [alloc][..0] == [];
    NoneBefore(spec, [alloc], job, 0);
    ConvertKeepsShape(spec, c, [alloc], h, job);
  }

  lemma CallThenConvert(spec: Spec, start: Core, call: Call, r: Outcome, job: JobId)
    requires WellFormed(spec, start) && Calls(spec, Outcome(start, [], true), call, r)
    requires WellFormed(spec, r.core) && Backward(r.log) && Known(spec, r.log)
    requires Permitted(spec, r.core, r.log, DoConvert(job), 0)
    ensures var actions := [Basic(call), DoConvert(job)];
            && Allowed(spec, start, [], actions, 0)
            && RunFlags(spec, start, [], actions, 0) >= Flags(spec, r.log, DoConvert(job))
  {
    hide Disciplined, Perform, WellFormed, Backward, Known, Convert, Flags, StillAllocated, UndosBefore;
    var actions := [Basic(call), DoConvert(job)];
    assert actions[1..] == [DoConvert(job)] && actions[1..][1..] == [];
    var two := Act(spec, r.core, r.log, DoConvert(job), 0);
    assert Allowed(spec, two.core, two.log, [], 0);
    assert Allowed(spec, r.core, r.log, actions[1..], 0);
  }

  // ---------------------------------------------------------------- the GPU move

  /** Evict a task on a shared GPU, give it other GPU groups, and pipeline it onto its own node. */
  function GpuMove(start: Core, t: TaskId, metadata: EvictionMetadata, groups: seq<string>, numa: Numa, canUndo: bool)
    : seq<Call>
    requires t in start.tasks
  {
    [DoEvict(t, metadata), Place(t, groups, numa), DoPipeline(t, start.tasks[t].node, canUndo)]
  }

  /** The state in which the evicted task has been given its new groups. */
  function Regrouped(start: Core, t: TaskId, groups: seq<string>, numa: Numa): Core
    requires t in start.tasks && t in start.ledger
  {
    var e := Evicted(start, t);
    WithRecord(e, t, e.tasks[t].(groups := groups, numa := numa))
  }

  lemma GpuMoveCalls(spec: Spec, start: Core, t: TaskId, metadata: EvictionMetadata, groups: seq<string>, numa: Numa)
    requires WellFormed(spec, start) && Settled(spec, start) && t in spec.tasks && JobFound(spec, t)
    requires IsActiveAllocated(start.tasks[t].status) && start.tasks[t].node in spec.nodes
    requires spec.tasks[t].shared && |groups| > 0 && groups != [WHOLE_GPU_INDICATOR] && groups != start.tasks[t].groups
    ensures var op := EvictOp(t, start.tasks[t], metadata);
            var e, w := Outcome(Evicted(start, t), [op], true), Outcome(Regrouped(start, t, groups, numa), [op], true);
            && Calls(spec, Outcome(start, [], true), DoEvict(t, metadata), e)
            && Calls(spec, e, Place(t, groups, numa), w)
            && WellFormed(spec, w.core) && Backward([op]) && Known(spec, [op])
            && w.core.orphans == start.orphans && w.core.tasks[t].status.Releasing?
            && w.core.tasks[t].node == start.tasks[t].node
            && PipelineMovesGpu(spec, w.core, t, start.tasks[t].node)
            && w.core.pods[Slot(start.tasks[t].node, t)].status.Releasing?
  {
  }

  /** That is an allowed run, and it drops the releasing copy while its charge stays. */
  lemma GpuMoveDrops(spec: Spec, start: Core, t: TaskId, metadata: EvictionMetadata,
                     groups: seq<string>, numa: Numa, canUndo: bool) returns (orphan: Copy)
    requires WellFormed(spec, start) && Settled(spec, start) && t in spec.tasks && JobFound(spec, t)
    requires IsActiveAllocated(start.tasks[t].status) && start.tasks[t].node in spec.nodes
    requires spec.tasks[t].shared && |groups| > 0 && groups != [WHOLE_GPU_INDICATOR] && groups != start.tasks[t].groups
    ensures var actions := Basics(GpuMove(start, t, metadata, groups, numa, canUndo));
            && Allowed(spec, start, [], actions, 0) && orphan.status.Releasing?
            && RunDrops(spec, start, [], actions, 0) == [(Slot(start.tasks[t].node, t), orphan)]
  {
    hide Calls, Settled, Allowed, RunDrops, Run, Evicted, Regrouped, Basics, PipelineMovesGpu;
    var node := start.tasks[t].node;
    var op := EvictOp(t, start.tasks[t], metadata);
    var s0, s1 := Outcome(start, [], true), Outcome(Evicted(start, t), [op], true);
    var s2 := Outcome(Regrouped(start, t, groups, numa), [op], true);
    GpuMoveCalls(spec, start, t, metadata, groups, numa);
    orphan := s2.core.pods[Slot(node, t)];
    var s3 := GpuMoveStep(spec, s2.core, op, canUndo);
    var calls := GpuMove(start, t, metadata, groups, numa, canUndo);
    RunOfCalls(spec, [s0, s1, s2, s3], calls, 0);
    DropsOf(spec, start, Basics(calls), (Slot(node, t), orphan));
  }

  /** What a run drops is what its session has more orphans in the end. */
  lemma DropsOf(spec: Spec, start: Core, actions: seq<Action>, o: (Slot, Copy))
    requires WellFormed(spec, start) && Settled(spec, start) && Allowed(spec, start, [], actions, 0)
    requires Run(spec, start, [], actions, 0).core.orphans == start.orphans + [o]
    ensures RunDrops(spec, start, [], actions, 0) == [o]
  {
    hide Allowed, Run, HistoryStep, Settled, RunDrops;
    EmptyHistory(spec, start);
    var h := RunKeeps(spec, start, [], [], actions, 0);
    var more := RunDrops(spec, start, [], actions, 0);
    assert more == (start.orphans + more)[|start.orphans|..] == (start.orphans + [o])[|start.orphans|..] == [o];
  }

  lemma GpuMoveStep(spec: Spec, c: Core, op: Operation, canUndo: bool) returns (p: Outcome)
    requires WellFormed(spec, c) && op.EvictOp? && OpKnown(spec, op) && JobFound(spec, op.task)
    requires Backward([op]) && Known(spec, [op])
    requires IsPlaceable(c.tasks[op.task].status) && c.tasks[op.task].node == op.previous.node
    requires PipelineMovesGpu(spec, c, op.task, op.previous.node)
    ensures Calls(spec, Outcome(c, [op], true), DoPipeline(op.task, op.previous.node, canUndo), p)
    ensures var slot := Slot(op.previous.node, op.task);
            slot in c.pods && p.core.orphans == c.orphans + [(slot, c.pods[slot])]
  {
    assert [op][0] == op;
    assert JustEvicted([op], op.task);
    p := Perform(spec, c, [op], DoPipeline(op.task, op.previous.node, canUndo));
  }

  ghost predicate LeaksAt(spec: Spec, v: Vectors, v': Vectors, slot: Slot, i: nat)
    requires WellSized(spec) && slot.node in spec.nodes && slot.task in spec.tasks && i < spec.dims
  {
    && |v.used| == |v'.used| == |v.idle| == |v'.idle| == |v.releasing| == |v'.releasing| == spec.dims
    && v'.used[i] == v.used[i] + Charge(spec, slot, i)
    && v'.idle[i] == v.idle[i] - Charge(spec, slot, i)
    && v'.releasing[i] == v.releasing[i] + Charge(spec, slot, i)
  }

  /** Discarding it leaves the victim's charge on the node once more than before, in use and releasing: the
      vectors are restored if and only if that charge is zero. */
  lemma GpuMoveLeaksCharge(spec: Spec, start: Core, t: TaskId, metadata: EvictionMetadata, groups: seq<string>,
                           numa: Numa, canUndo: bool, b: Books, b': Books)
    requires WellFormed(spec, start) && Settled(spec, start) && t in spec.tasks && JobFound(spec, t)
    requires IsActiveAllocated(start.tasks[t].status) && start.tasks[t].node in spec.nodes
    requires spec.tasks[t].shared && |groups| > 0 && groups != [WHOLE_GPU_INDICATOR] && groups != start.tasks[t].groups
    requires Balanced(spec, start, b)
    requires var actions := Basics(GpuMove(start, t, metadata, groups, numa, canUndo));
             Allowed(spec, start, [], actions, 0) ==>
               var now := Run(spec, start, [], actions, 0); Balanced(spec, Discard(spec, now.core, now.log).core, b')
    ensures var slot := Slot(start.tasks[t].node, t);
            && slot.node in b.nodes && slot.node in b'.nodes
            && (forall i: nat :: i < spec.dims ==> LeaksAt(spec, b.nodes[slot.node], b'.nodes[slot.node], slot, i))
            && (b' == b <==> Weightless(spec, slot))
  {
    hide Settled, Allowed, Run, Discard, NodeBalanced, JobBalanced, RunDrops, GpuMove, NoGpuMove, MovesWeighNothing, Carries;
    var orphan := GpuMoveDrops(spec, start, t, metadata, groups, numa, canUndo);
    var actions := Basics(GpuMove(start, t, metadata, groups, numa, canUndo));
    DiscardRestoresBooks(spec, start, actions, b, b');
    OneDropped(spec, b, b', Slot(start.tasks[t].node, t), orphan);
  }

  lemma OneDropped(spec: Spec, b: Books, b': Books, slot: Slot, orphan: Copy)
    requires WellSized(spec) && slot.node in spec.nodes && slot.task in spec.tasks && orphan.status.Releasing?
    requires b'.nodes.Keys == b.nodes.Keys == spec.nodes.Keys && OrphansKnown(spec, [(slot, orphan)])
    requires forall n, i: nat :: n in spec.nodes && i < spec.dims ==>
      Carries(spec, b.nodes[n], b'.nodes[n], [(slot, orphan)], map[], n, i)
    requires b' == b <==> SumToNothing(spec, [(slot, orphan)])
    ensures forall i: nat :: i < spec.dims ==> LeaksAt(spec, b.nodes[slot.node], b'.nodes[slot.node], slot, i)
    ensures b' == b <==> Weightless(spec, slot)
  {
    var more := [(slot, orphan)];
    forall i: nat | i < spec.dims ensures LeaksAt(spec, b.nodes[slot.node], b'.nodes[slot.node], slot, i) {
      assert Carries(spec, b.nodes[slot.node], b'.nodes[slot.node], more, map[], slot.node, i);
      OrphanOne(spec, Used, slot.node, i, (slot, orphan));
      OrphanOne(spec, Idle, slot.node, i, (slot, orphan));
      OrphanOne(spec, Freed, slot.node, i, (slot, orphan));
    }
    SumToNothingIff(spec, more);
    assert Weightless(spec, slot) ==> forall k :: 0 <= k < |more| ==> Weightless(spec, more[k].0);
    if b' == b {
      forall i: nat | i < spec.dims ensures Charge(spec, slot, i) == 0 {
        assert LeaksAt(spec, b.nodes[slot.node], b'.nodes[slot.node], slot, i);
      }
    }
  }

  lemma OrphanOne(spec: Spec, kind: Kind, n: NodeName, i: nat, o: (Slot, Copy))
    requires WellSized(spec) && o.0.node in spec.nodes && o.0.task in spec.tasks && i < spec.dims
    ensures OrphanTotal(spec, kind, n, i, [o]) == if o.0.node == n then Share(spec, kind, o.0, o.1.status, i) else 0
  {
    assert [o][..0] == [];
  }
}
