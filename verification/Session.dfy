/** The session object: tasks, node task maps and the incrementally kept resource vectors. */
module Session {
  import opened Cluster
  import opened Accounting

  function At(v: seq<int>, i: nat): int {
    if i < |v| then v[i] else 0
  }

  /** ResourceVector.Add: a shorter vector is extended with zeros first. */
  method Plus(v: seq<int>, w: seq<int>) returns (r: seq<int>)
    ensures |r| == (if |v| < |w| then |w| else |v|)
    ensures forall i :: 0 <= i < |r| ==> r[i] == At(v, i) + At(w, i)
  {
    r := [];
    var n := if |v| < |w| then |w| else |v|;
    while |r| < n
      invariant |r| <= n
      invariant forall i :: 0 <= i < |r| ==> r[i] == At(v, i) + At(w, i)
    {
      r := r + [At(v, |r|) + At(w, |r|)];
    }
  }

  /** ResourceVector.Sub */
  method Minus(v: seq<int>, w: seq<int>) returns (r: seq<int>)
    ensures |r| == (if |v| < |w| then |w| else |v|)
    ensures forall i :: 0 <= i < |r| ==> r[i] == At(v, i) - At(w, i)
  {
    r := [];
    var n := if |v| < |w| then |w| else |v|;
    while |r| < n
      invariant |r| <= n
      invariant forall i :: 0 <= i < |r| ==> r[i] == At(v, i) - At(w, i)
    {
      r := r + [At(v, |r|) - At(w, |r|)];
    }
  }

  /** ResourceVector.Set: an index outside the vector is ignored. */
  function Put(v: seq<int>, i: nat, x: int): (r: seq<int>)
    ensures |r| == |v|
  {
    if i < |v| then v[i := x] else v
  }

  /** The vector to track for a task on a node: the task's own request without its share of a GPU, without
      the GPU of a reservation pod, and then without the resources that the node does not have. */
  method Tracked(spec: Spec, s: Slot) returns (r: seq<int>)
    requires WellSized(spec) && s.node in spec.nodes && s.task in spec.tasks
    ensures |r| == spec.dims && forall i :: 0 <= i < spec.dims ==> r[i] == Charge(spec, s, i)
  {
    var task := spec.tasks[s.task];
    r := task.request;
    if task.shared { r := Put(r, GPU_INDEX, 0); }
    if task.reservation { r := Put(r, GPU_INDEX, 0); }
    ghost var before := r;
    for k := 0 to |r|
      invariant |r| == |before| == spec.dims
      invariant forall i :: 0 <= i < k ==> r[i] == Charge(spec, s, i)
      invariant forall i :: k <= i < |r| ==> r[i] == before[i]
    {
      if spec.nodes[s.node][k] == 0 { r := Put(r, k, 0); }
    }
  }

  /** `w` is `v` with `times` the task's shares added. */
  ghost predicate Shifted(spec: Spec, v: Vectors, w: Vectors, s: Slot, status: Status, times: int)
    requires WellSized(spec) && s.node in spec.nodes && s.task in spec.tasks
  {
    && |v.idle| == |v.used| == |v.releasing| == |w.idle| == |w.used| == |w.releasing| == spec.dims
    && forall i: nat :: i < spec.dims ==>
         && w.used[i] == v.used[i] + times * Share(spec, Used, s, status, i)
         && w.idle[i] == v.idle[i] + times * Share(spec, Idle, s, status, i)
         && w.releasing[i] == v.releasing[i] + times * Share(spec, Freed, s, status, i)
  }

  /** addTaskResources */
  method AddResources(spec: Spec, v: Vectors, s: Slot, status: Status) returns (w: Vectors)
    requires WellSized(spec) && s.node in spec.nodes && s.task in spec.tasks
    requires |v.idle| == |v.used| == |v.releasing| == spec.dims
    ensures Shifted(spec, v, w, s, status, 1)
  {
    var track := Tracked(spec, s);
    var used := Plus(v.used, track);
    var idle, releasing := v.idle, v.releasing;
    if status.Releasing? {
      releasing := Plus(releasing, track);
      idle := Minus(idle, track);
    } else if status.Pipelined? {
      releasing := Minus(releasing, track);
    } else {
      idle := Minus(idle, track);
    }
    w := Vectors(idle, used, releasing);
  }

  /** removeTaskResources */
  method RemoveResources(spec: Spec, v: Vectors, s: Slot, status: Status) returns (w: Vectors)
    requires WellSized(spec) && s.node in spec.nodes && s.task in spec.tasks
    requires |v.idle| == |v.used| == |v.releasing| == spec.dims
    ensures Shifted(spec, v, w, s, status, -1)
  {
    var track := Tracked(spec, s);
    var used := Minus(v.used, track);
    var idle, releasing := v.idle, v.releasing;
    if status.Releasing? {
      releasing := Minus(releasing, track);
      idle := Plus(idle, track);
    } else if status.Pipelined? {
      releasing := Plus(releasing, track);
    } else {
      idle := Plus(idle, track);
    }
    w := Vectors(idle, used, releasing);
  }

  // ---------------------------------------------------------------- the books follow one update

  /** One node and one resource, when a task joins a node: that node's vectors are shifted, all others stay. */
  lemma AddBalancedAt(spec: Spec, c: Core, v: Vectors, s: Slot, copy: Copy, w: Vectors, n: NodeName, i: nat)
    requires WellSized(spec) && WellFormed(spec, c) && n in spec.nodes && NodeBalanced(spec, c, n, v) && i < spec.dims
    requires s.node in spec.nodes && s.task in spec.tasks && s !in c.pods
    requires if s.node == n then Shifted(spec, v, w, s, copy.status, 1) else w == v
    ensures |w.idle| == |w.used| == |w.releasing| == spec.dims
    ensures NodeBalancedAt(spec, c.(pods := c.pods[s := copy]), n, w, i)
  {
    hide Share, Total, OrphanTotal;
    assert NodeBalancedAt(spec, c, n, v, i);
    TotalWith(spec, Used, n, i, c.pods, s, copy);
    TotalWith(spec, Idle, n, i, c.pods, s, copy);
    TotalWith(spec, Freed, n, i, c.pods, s, copy);
  }

  lemma RemoveBalancedAt(spec: Spec, c: Core, v: Vectors, s: Slot, w: Vectors, n: NodeName, i: nat)
    requires WellSized(spec) && WellFormed(spec, c) && n in spec.nodes && NodeBalanced(spec, c, n, v) && i < spec.dims
    requires s in c.pods
    requires if s.node == n then Shifted(spec, v, w, s, c.pods[s].status, -1) else w == v
    ensures |w.idle| == |w.used| == |w.releasing| == spec.dims
    ensures NodeBalancedAt(spec, c.(pods := c.pods - {s}), n, w, i)
  {
    hide Share, Total, OrphanTotal;
    assert NodeBalancedAt(spec, c, n, v, i);
    TotalWithout(spec, Used, n, i, c.pods, s);
    TotalWithout(spec, Idle, n, i, c.pods, s);
    TotalWithout(spec, Freed, n, i, c.pods, s);
  }

  lemma AddBalanced(spec: Spec, c: Core, b: Books, s: Slot, copy: Copy, w: Vectors)
    requires Balanced(spec, c, b) && s.node in spec.nodes && s.task in spec.tasks && s !in c.pods
    requires Shifted(spec, b.nodes[s.node], w, s, copy.status, 1)
    ensures Balanced(spec, c.(pods := c.pods[s := copy]), b.(nodes := b.nodes[s.node := w]))
  {
    hide Share, Total, OrphanTotal, JobTotal, NodeBalancedAt;
    var c', b' := c.(pods := c.pods[s := copy]), b.(nodes := b.nodes[s.node := w]);
    forall n | n in spec.nodes ensures NodeBalanced(spec, c', n, b'.nodes[n]) {
      assert NodeBalanced(spec, c, n, b.nodes[n]);
      forall i: nat | i < spec.dims ensures NodeBalancedAt(spec, c', n, b'.nodes[n], i) {
        AddBalancedAt(spec, c, b.nodes[n], s, copy, b'.nodes[n], n, i);
      }
    }
    SameJobs(spec, c, b, c', b');
  }

  lemma RemoveBalanced(spec: Spec, c: Core, b: Books, s: Slot, w: Vectors)
    requires Balanced(spec, c, b) && s in c.pods
    requires Shifted(spec, b.nodes[s.node], w, s, c.pods[s].status, -1)
    ensures Balanced(spec, c.(pods := c.pods - {s}), b.(nodes := b.nodes[s.node := w]))
  {
    hide Share, Total, OrphanTotal, JobTotal, NodeBalancedAt;
    var c', b' := c.(pods := c.pods - {s}), b.(nodes := b.nodes[s.node := w]);
    forall n | n in spec.nodes ensures NodeBalanced(spec, c', n, b'.nodes[n]) {
      assert NodeBalanced(spec, c, n, b.nodes[n]);
      forall i: nat | i < spec.dims ensures NodeBalancedAt(spec, c', n, b'.nodes[n], i) {
        RemoveBalancedAt(spec, c, b.nodes[n], s, b'.nodes[n], n, i);
      }
    }
    SameJobs(spec, c, b, c', b');
  }

  /** Dropping a node's copy without its charge makes the copy an orphan; the vectors stay. */
  lemma OrphanBalanced(spec: Spec, c: Core, b: Books, s: Slot)
    requires Balanced(spec, c, b) && s in c.pods
    ensures Balanced(spec, c.(pods := c.pods - {s}, orphans := c.orphans + [(s, c.pods[s])]), b)
  {
    var c' := c.(pods := c.pods - {s}, orphans := c.orphans + [(s, c.pods[s])]);
    forall n | n in spec.nodes ensures NodeBalanced(spec, c', n, b.nodes[n]) {
      assert NodeBalanced(spec, c, n, b.nodes[n]);
      forall i: nat | i < spec.dims ensures NodeBalancedAt(spec, c', n, b.nodes[n], i) {
        assert NodeBalancedAt(spec, c, n, b.nodes[n], i);
        assert c'.orphans[..|c'.orphans| - 1] == c.orphans;
        hide Share;
        TotalWithout(spec, Used, n, i, c.pods, s);
        TotalWithout(spec, Idle, n, i, c.pods, s);
        TotalWithout(spec, Freed, n, i, c.pods, s);
      }
    }
    SameJobs(spec, c, b, c', b);
  }

  lemma SameJobs(spec: Spec, c: Core, b: Books, c': Core, b': Books)
    requires Balanced(spec, c, b) && WellFormed(spec, c') && c'.tasks == c.tasks && b'.jobs == b.jobs
    ensures forall j <- spec.jobs :: JobBalanced(spec, c', j, b'.jobs[j])
  {
    forall j | j in spec.jobs ensures JobBalanced(spec, c', j, b'.jobs[j]) {
      assert JobBalanced(spec, c, j, b.jobs[j]);
    }
  }

  /** A new record for a task, with the job's total adjusted if the status changes. */
  lemma RecordBalanced(spec: Spec, c: Core, b: Books, t: TaskId, r: Record, total: seq<int>)
    requires Balanced(spec, c, b) && t in spec.tasks && spec.tasks[t].job in spec.jobs && |total| == spec.dims
    requires var job := spec.tasks[t].job;
             |b.jobs[job]| == spec.dims && forall i :: 0 <= i < spec.dims ==>
               total[i] == b.jobs[job][i] - JobShare(spec, job, i, t, c.tasks[t]) + JobShare(spec, job, i, t, r)
    ensures Balanced(spec, WithRecord(c, t, r), b.(jobs := b.jobs[spec.tasks[t].job := total]))
  {
    var c', b' := WithRecord(c, t, r), b.(jobs := b.jobs[spec.tasks[t].job := total]);
    forall j | j in spec.jobs ensures JobBalanced(spec, c', j, b'.jobs[j]) {
      assert JobBalanced(spec, c, j, b.jobs[j]);
      forall i | 0 <= i < spec.dims ensures b'.jobs[j][i] == JobTotal(spec, j, i, c'.tasks) {
        JobTotalUpdate(spec, j, i, c.tasks, t, r);
      }
    }
    SameNodes(spec, c, b, c', b');
  }

  lemma SameNodes(spec: Spec, c: Core, b: Books, c': Core, b': Books)
    requires Balanced(spec, c, b) && WellFormed(spec, c') && b'.nodes == b.nodes
    requires c'.pods == c.pods && c'.orphans == c.orphans
    ensures forall n <- spec.nodes.Keys :: NodeBalanced(spec, c', n, b'.nodes[n])
  {
    forall n | n in spec.nodes ensures NodeBalanced(spec, c', n, b'.nodes[n]) {
      assert NodeBalanced(spec, c, n, b.nodes[n]);
      forall i: nat | i < spec.dims ensures NodeBalancedAt(spec, c', n, b'.nodes[n], i) {
        assert NodeBalancedAt(spec, c, n, b.nodes[n], i);
      }
    }
  }

  /** A record whose status is unchanged needs no adjustment. */
  lemma FieldsBalanced(spec: Spec, c: Core, b: Books, t: TaskId, r: Record)
    requires Balanced(spec, c, b) && t in spec.tasks && r.status == c.tasks[t].status
    ensures Balanced(spec, WithRecord(c, t, r), b)
  {
    var c' := WithRecord(c, t, r);
    forall j | j in spec.jobs ensures JobBalanced(spec, c', j, b.jobs[j]) {
      assert JobBalanced(spec, c, j, b.jobs[j]);
      forall i | 0 <= i < spec.dims ensures b.jobs[j][i] == JobTotal(spec, j, i, c'.tasks) {
        JobTotalSame(spec, j, i, c.tasks, c'.tasks);
      }
    }
    SameNodes(spec, c, b, c', b);
  }

  lemma LedgerBalanced(spec: Spec, c: Core, b: Books, t: TaskId, delta: int)
    requires Balanced(spec, c, b) && t in spec.tasks
    ensures Balanced(spec, c.(ledger := c.ledger[t := c.ledger[t] + delta]), b)
  {
    var c' := c.(ledger := c.ledger[t := c.ledger[t] + delta]);
    SameNodes(spec, c, b, c', b);
    SameJobs(spec, c, b, c', b);
  }

  function Zeros(n: nat): seq<int> {
    seq(n, _ => 0)
  }

  lemma {:induction false} NoneAllocated(spec: Spec, job: JobId, i: nat, tasks: map<TaskId, Record>)
    requires WellSized(spec) && tasks.Keys <= spec.tasks.Keys && i < spec.dims
    requires forall t <- tasks.Keys :: !IsAllocated(tasks[t].status)
    ensures JobTotal(spec, job, i, tasks) == 0
    decreases |tasks|
  {
    if tasks.Keys != {} {
      var t :| t in tasks.Keys;
      JobTotalWithout(spec, job, i, tasks, t);
      NoneAllocated(spec, job, i, tasks - {t});
    }
  }

  // ---------------------------------------------------------------- the object

  class Session {
    const spec: Spec
    var tasks: map<TaskId, Record>
    var pods: map<Slot, Copy>
    ghost var orphans: seq<(Slot, Copy)>
    var ledger: map<TaskId, int>
    var nodes: map<NodeName, Vectors>
    var jobs: map<JobId, seq<int>>

    ghost function State(): Core
      reads this
    {
      Core(tasks, pods, orphans, ledger)
    }

    /** The vectors equal the sums they stand for. */
    ghost predicate Valid()
      reads this
    {
      && tasks.Keys == spec.tasks.Keys == ledger.Keys
      && WellFormed(spec, State()) && Balanced(spec, State(), Books(nodes, jobs))
    }

    /** A session in which every task is pending and every node is empty. */
    constructor (spec: Spec)
      requires WellSized(spec) && NO_NODE !in spec.nodes
      ensures Valid() && this.spec == spec && pods == map[] && orphans == []
      ensures forall t <- tasks.Keys :: tasks[t] == Record(Pending, NO_NODE, false, [], [])
    {
      this.spec := spec;
      tasks := map t | t in spec.tasks :: Record(Pending, NO_NODE, false, [], []);
      pods := map[];
      orphans := [];
      ledger := map t | t in spec.tasks :: 0;
      nodes := map n | n in spec.nodes :: Vectors(spec.nodes[n], Zeros(spec.dims), Zeros(spec.dims));
      jobs := map j | j in spec.jobs :: Zeros(spec.dims);
      new;
      forall j, i: nat | j in spec.jobs && i < spec.dims ensures JobTotal(spec, j, i, tasks) == 0 {
        NoneAllocated(spec, j, i, tasks);
      }
    }

    /** job.UpdateTaskStatus for a task of a known job. */
    method UpdateTaskStatus(t: TaskId, status: Status)
      requires Valid() && t in spec.tasks && JobFound(spec, t)
      modifies this`tasks, this`jobs
      ensures Valid() && tasks == old(tasks)[t := old(tasks)[t].(status := status)]
    {
      var job, request := spec.tasks[t].job, spec.tasks[t].request;
      assert JobBalanced(spec, State(), job, jobs[job]);
      var total := jobs[job];
      if IsAllocated(tasks[t].status) {
        total := Minus(total, request);
      }
      if IsAllocated(status) {
        total := Plus(total, request);
      }
      RecordBalanced(spec, State(), Books(nodes, jobs), t, tasks[t].(status := status), total);
      tasks := tasks[t := tasks[t].(status := status)];
      jobs := jobs[job := total];
    }

    /** Plain writes to the other fields of a task. */
    method SetFields(t: TaskId, r: Record)
      requires Valid() && t in spec.tasks && r.status == tasks[t].status
      modifies this`tasks
      ensures Valid() && tasks == old(tasks)[t := r]
    {
      FieldsBalanced(spec, State(), Books(nodes, jobs), t, r);
      tasks := tasks[t := r];
    }

    /** Update the status if the job is known, and then the other fields. */
    method SetRecord(t: TaskId, r: Record)
      requires Valid() && t in spec.tasks && (JobFound(spec, t) || r.status == tasks[t].status)
      modifies this`tasks, this`jobs
      ensures Valid() && tasks == old(tasks)[t := r]
    {
      hide Balanced, WellFormed;
      if JobFound(spec, t) {
        UpdateTaskStatus(t, r.status);
      }
      SetFields(t, r);
      assert tasks == old(tasks)[t := r];
    }

    /** The allocate (1) or deallocate (-1) event handlers of the plugins. */
    method Notify(t: TaskId, delta: int)
      requires Valid() && t in spec.tasks
      modifies this`ledger
      ensures Valid() && ledger == old(ledger)[t := old(ledger)[t] + delta]
    {
      LedgerBalanced(spec, State(), Books(nodes, jobs), t, delta);
      ledger := ledger[t := ledger[t] + delta];
    }

    /** node.AddTask: the node keeps its own copy of the task. */
    method AddTask(n: NodeName, t: TaskId) returns (ok: bool)
      requires Valid() && n in spec.nodes && t in spec.tasks
      modifies this`pods, this`nodes
      ensures Valid() && ok == (Slot(n, t) !in old(pods))
      ensures pods == if ok then old(pods)[Slot(n, t) := CopyOf(tasks[t])] else old(pods)
    {
      var s := Slot(n, t);
      if s in pods {
        return false;
      }
      var copy := CopyOf(tasks[t]);
      assert NodeBalanced(spec, State(), n, nodes[n]);
      var w := AddResources(spec, nodes[n], s, copy.status);
      AddBalanced(spec, State(), Books(nodes, jobs), s, copy, w);
      pods := pods[s := copy];
      nodes := nodes[n := w];
      ok := true;
    }

    /** node.RemoveTask: takes off what the stored copy was charged. */
    method RemoveTask(n: NodeName, t: TaskId) returns (ok: bool)
      requires Valid() && n in spec.nodes && t in spec.tasks
      modifies this`pods, this`nodes
      ensures Valid() && ok == (Slot(n, t) in old(pods))
      ensures pods == old(pods) - {Slot(n, t)}
    {
      hide WellFormed, NodeBalancedAt, JobBalanced;
      var s := Slot(n, t);
      if s !in pods {
        assert pods - {s} == pods;
        return false;
      }
      assert NodeBalanced(spec, State(), n, nodes[n]);
      var w := RemoveResources(spec, nodes[n], s, pods[s].status);
      RemoveBalanced(spec, State(), Books(nodes, jobs), s, w);
      pods := pods - {s};
      nodes := nodes[n := w];
      ok := true;
    }

    /** node.UpdateTask: remove, then add. */
    method UpdateTask(n: NodeName, t: TaskId) returns (ok: bool)
      requires Valid() && n in spec.nodes && t in spec.tasks
      modifies this`pods, this`nodes
      ensures Valid() && ok == (Slot(n, t) in old(pods))
      ensures pods == if ok then old(pods)[Slot(n, t) := CopyOf(tasks[t])] else old(pods)
    {
      hide Balanced, WellFormed;
      ok := RemoveTask(n, t);
      if ok {
        var added := AddTask(n, t);
        assert pods == old(pods)[Slot(n, t) := CopyOf(tasks[t])];
      } else {
        assert pods == old(pods);
      }
    }

    /** node.ConsolidateSharedPodInfoToDifferentGPU: the old copy is dropped, its charge is not. */
    method ConsolidateToDifferentGpu(n: NodeName, t: TaskId)
      requires Valid() && n in spec.nodes && t in spec.tasks && Slot(n, t) in pods
      modifies this`pods, this`nodes, this`orphans
      ensures Valid()
      ensures pods == old(pods)[Slot(n, t) := CopyOf(tasks[t])]
      ensures orphans == old(orphans) + [(Slot(n, t), old(pods)[Slot(n, t)])]
    {
      hide WellFormed, NodeBalanced, JobBalanced;
      var s := Slot(n, t);
      OrphanBalanced(spec, State(), Books(nodes, jobs), s);
      orphans := orphans + [(s, pods[s])];
      pods := pods - {s};
      var added := AddTask(n, t);
      assert pods == old(pods)[s := CopyOf(tasks[t])];
    }
  }
}
