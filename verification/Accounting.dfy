/** The resource vectors of nodes and jobs, as sums over the tasks. The session keeps them
    incrementally; here they are recomputed, which makes them a function of the task maps. */
module Accounting {
  import opened Cluster

  const GPU_INDEX := 2

  datatype Vectors = Vectors(idle: seq<int>, used: seq<int>, releasing: seq<int>)
  datatype Books = Books(nodes: map<NodeName, Vectors>, jobs: map<JobId, seq<int>>)

  ghost predicate WellSized(spec: Spec) {
    && (forall n <- spec.nodes.Keys :: |spec.nodes[n]| == spec.dims)
    && (forall t <- spec.tasks.Keys :: |spec.tasks[t].request| == spec.dims)
  }

  /** What a task is charged for resource `i` on its node: nothing for a resource the node does not
      have, and no GPU for a task on a shared GPU or a reservation pod. */
  function Charge(spec: Spec, s: Slot, i: nat): int
    requires WellSized(spec) && s.node in spec.nodes && s.task in spec.tasks && i < spec.dims
  {
    var task := spec.tasks[s.task];
    if spec.nodes[s.node][i] == 0 then 0
    else if i == GPU_INDEX && (task.shared || task.reservation) then 0
    else task.request[i]
  }

  datatype Kind = Idle | Used | Freed

  /** The share of one task in a node's vector. A pipelined task waits for releasing resources. */
  function Share(spec: Spec, kind: Kind, s: Slot, status: Status, i: nat): int
    requires WellSized(spec) && s.node in spec.nodes && s.task in spec.tasks && i < spec.dims
  {
    var x := Charge(spec, s, i);
    match kind
    case Used => x
    case Idle => if status.Pipelined? then 0 else -x
    case Freed => if status.Releasing? then x else if status.Pipelined? then -x else 0
  }

  ghost predicate PodsKnown(spec: Spec, pods: map<Slot, Copy>) {
    forall s <- pods.Keys :: s.node in spec.nodes && s.task in spec.tasks
  }

  /** The sum of the shares of all tasks in the task map of node `n`. */
  ghost function Total(spec: Spec, kind: Kind, n: NodeName, i: nat, pods: map<Slot, Copy>): int
    requires WellSized(spec) && PodsKnown(spec, pods) && i < spec.dims
    decreases |pods|
  {
    if pods.Keys == {} then 0
    else
      var s :| s in pods.Keys;
      (if s.node == n then Share(spec, kind, s, pods[s].status, i) else 0) + Total(spec, kind, n, i, pods - {s})
  }

  ghost predicate OrphansKnown(spec: Spec, orphans: seq<(Slot, Copy)>) {
    forall k :: 0 <= k < |orphans| ==> orphans[k].0.node in spec.nodes && orphans[k].0.task in spec.tasks
  }

  /** The same sum over copies that were dropped while their charge stayed. */
  ghost function OrphanTotal(spec: Spec, kind: Kind, n: NodeName, i: nat, orphans: seq<(Slot, Copy)>): int
    requires WellSized(spec) && OrphansKnown(spec, orphans) && i < spec.dims
  {
    if orphans == [] then 0
    else
      var last := orphans[|orphans| - 1];
      OrphanTotal(spec, kind, n, i, orphans[..|orphans| - 1]) +
      (if last.0.node == n then Share(spec, kind, last.0, last.1.status, i) else 0)
  }

  /** What the tasks of a job with an allocated status request of resource `i`. */
  ghost function JobTotal(spec: Spec, job: JobId, i: nat, tasks: map<TaskId, Record>): int
    requires WellSized(spec) && tasks.Keys <= spec.tasks.Keys && i < spec.dims
    decreases |tasks|
  {
    if tasks.Keys == {} then 0
    else
      var t :| t in tasks.Keys;
      JobShare(spec, job, i, t, tasks[t]) + JobTotal(spec, job, i, tasks - {t})
  }

  function JobShare(spec: Spec, job: JobId, i: nat, t: TaskId, r: Record): int
    requires WellSized(spec) && t in spec.tasks && i < spec.dims
  {
    if spec.tasks[t].job == job && IsAllocated(r.status) then spec.tasks[t].request[i] else 0
  }

  // ---------------------------------------------------------------- adding and removing one task

  lemma TotalUnfold(spec: Spec, kind: Kind, n: NodeName, i: nat, pods: map<Slot, Copy>) returns (p: Slot)
    requires WellSized(spec) && PodsKnown(spec, pods) && i < spec.dims && pods.Keys != {}
    ensures p in pods
    ensures Total(spec, kind, n, i, pods) ==
            (if p.node == n then Share(spec, kind, p, pods[p].status, i) else 0) + Total(spec, kind, n, i, pods - {p})
  {
    p :| p in pods.Keys &&
         Total(spec, kind, n, i, pods) ==
         (if p.node == n then Share(spec, kind, p, pods[p].status, i) else 0) + Total(spec, kind, n, i, pods - {p});
  }

  lemma {:induction false} TotalWithout(
      spec: Spec, kind: Kind, n: NodeName, i: nat, pods: map<Slot, Copy>, s: Slot)
    requires WellSized(spec) && PodsKnown(spec, pods) && i < spec.dims && s in pods
    ensures Total(spec, kind, n, i, pods) ==
            (if s.node == n then Share(spec, kind, s, pods[s].status, i) else 0) + Total(spec, kind, n, i, pods - {s})
    decreases |pods|
  {
    hide Share, WellSized, Total;
    var p := TotalUnfold(spec, kind, n, i, pods);
    if p != s {
      TotalWithout(spec, kind, n, i, pods - {p}, s);
      TotalWithout(spec, kind, n, i, pods - {s}, p);
      assert (pods - {p}) - {s} == (pods - {s}) - {p};
    }
  }

  lemma TotalWith(spec: Spec, kind: Kind, n: NodeName, i: nat, pods: map<Slot, Copy>, s: Slot, copy: Copy)
    requires WellSized(spec) && PodsKnown(spec, pods) && i < spec.dims
    requires s !in pods && s.node in spec.nodes && s.task in spec.tasks
    ensures Total(spec, kind, n, i, pods[s := copy]) ==
            (if s.node == n then Share(spec, kind, s, copy.status, i) else 0) + Total(spec, kind, n, i, pods)
  {
    TotalWithout(spec, kind, n, i, pods[s := copy], s);
    assert pods[s := copy] - {s} == pods;
  }

  lemma JobTotalUnfold(spec: Spec, job: JobId, i: nat, tasks: map<TaskId, Record>) returns (p: TaskId)
    requires WellSized(spec) && tasks.Keys <= spec.tasks.Keys && i < spec.dims && tasks.Keys != {}
    ensures p in tasks
    ensures JobTotal(spec, job, i, tasks) == JobShare(spec, job, i, p, tasks[p]) + JobTotal(spec, job, i, tasks - {p})
  {
    p :| p in tasks.Keys &&
         JobTotal(spec, job, i, tasks) == JobShare(spec, job, i, p, tasks[p]) + JobTotal(spec, job, i, tasks - {p});
  }

  lemma {:induction false} JobTotalWithout(spec: Spec, job: JobId, i: nat, tasks: map<TaskId, Record>, t: TaskId)
    requires WellSized(spec) && tasks.Keys <= spec.tasks.Keys && i < spec.dims && t in tasks
    ensures JobTotal(spec, job, i, tasks) == JobShare(spec, job, i, t, tasks[t]) + JobTotal(spec, job, i, tasks - {t})
    decreases |tasks|
  {
    hide JobShare, WellSized, JobTotal;
    var p := JobTotalUnfold(spec, job, i, tasks);
    if p != t {
      JobTotalWithout(spec, job, i, tasks - {p}, t);
      JobTotalWithout(spec, job, i, tasks - {t}, p);
      assert (tasks - {p}) - {t} == (tasks - {t}) - {p};
    }
  }

  lemma JobTotalUpdate(spec: Spec, job: JobId, i: nat, tasks: map<TaskId, Record>, t: TaskId, r: Record)
    requires WellSized(spec) && tasks.Keys <= spec.tasks.Keys && i < spec.dims && t in tasks
    ensures JobTotal(spec, job, i, tasks[t := r]) ==
            JobTotal(spec, job, i, tasks) - JobShare(spec, job, i, t, tasks[t]) + JobShare(spec, job, i, t, r)
  {
    JobTotalWithout(spec, job, i, tasks, t);
    JobTotalWithout(spec, job, i, tasks[t := r], t);
    assert tasks[t := r] - {t} == tasks - {t};
  }

  /** Job totals read nothing of a record but its status. */
  lemma {:induction false} JobTotalSame(
      spec: Spec, job: JobId, i: nat, a: map<TaskId, Record>, b: map<TaskId, Record>)
    requires WellSized(spec) && i < spec.dims && a.Keys == b.Keys <= spec.tasks.Keys
    requires forall t <- a.Keys :: a[t].status == b[t].status
    ensures JobTotal(spec, job, i, a) == JobTotal(spec, job, i, b)
    decreases |a|
  {
    if a.Keys != {} {
      var t :| t in a.Keys;
      JobTotalWithout(spec, job, i, a, t);
      JobTotalWithout(spec, job, i, b, t);
      JobTotalSame(spec, job, i, a - {t}, b - {t});
    }
  }

  // ---------------------------------------------------------------- the books and the session

  ghost predicate NodeBalanced(spec: Spec, c: Core, n: NodeName, v: Vectors)
    requires WellSized(spec) && WellFormed(spec, c) && n in spec.nodes
  {
    && |v.idle| == |v.used| == |v.releasing| == spec.dims
    && forall i: nat :: i < spec.dims ==> NodeBalancedAt(spec, c, n, v, i)
  }

  ghost predicate NodeBalancedAt(spec: Spec, c: Core, n: NodeName, v: Vectors, i: nat)
    requires WellSized(spec) && WellFormed(spec, c) && n in spec.nodes
    requires |v.idle| == |v.used| == |v.releasing| == spec.dims && i < spec.dims
  {
    && v.used[i] == Total(spec, Used, n, i, c.pods) + OrphanTotal(spec, Used, n, i, c.orphans)
    && v.idle[i] == spec.nodes[n][i] + Total(spec, Idle, n, i, c.pods) + OrphanTotal(spec, Idle, n, i, c.orphans)
    && v.releasing[i] == Total(spec, Freed, n, i, c.pods) + OrphanTotal(spec, Freed, n, i, c.orphans)
  }

  ghost predicate JobBalanced(spec: Spec, c: Core, job: JobId, v: seq<int>)
    requires WellSized(spec) && WellFormed(spec, c)
  {
    |v| == spec.dims && forall i :: 0 <= i < spec.dims ==> v[i] == JobTotal(spec, job, i, c.tasks)
  }

  /** Every vector equals the sum it stands for. */
  ghost predicate Balanced(spec: Spec, c: Core, b: Books) {
    && WellSized(spec) && WellFormed(spec, c)
    && b.nodes.Keys == spec.nodes.Keys && b.jobs.Keys == spec.jobs
    && (forall n <- spec.nodes.Keys :: NodeBalanced(spec, c, n, b.nodes[n]))
    && (forall j <- spec.jobs :: JobBalanced(spec, c, j, b.jobs[j]))
  }

  lemma SameJobBooks(spec: Spec, c: Core, b: Books, c': Core, b': Books)
    requires Balanced(spec, c, b) && Balanced(spec, c', b')
    requires c.tasks.Keys == c'.tasks.Keys && forall t <- c.tasks.Keys :: SameRecord(c'.tasks[t], c.tasks[t])
    ensures b'.jobs == b.jobs
  {
    forall j | j in spec.jobs ensures b'.jobs[j] == b.jobs[j] {
      assert JobBalanced(spec, c, j, b.jobs[j]) && JobBalanced(spec, c', j, b'.jobs[j]);
      forall i | 0 <= i < spec.dims ensures b'.jobs[j][i] == b.jobs[j][i] {
        JobTotalSame(spec, j, i, c.tasks, c'.tasks);
      }
    }
  }

  lemma {:induction false} OrphansSplit(
      spec: Spec, kind: Kind, n: NodeName, i: nat, a: seq<(Slot, Copy)>, b: seq<(Slot, Copy)>)
    requires WellSized(spec) && OrphansKnown(spec, a + b) && i < spec.dims
    ensures OrphansKnown(spec, a) && OrphansKnown(spec, b)
    ensures OrphanTotal(spec, kind, n, i, a + b) ==
            OrphanTotal(spec, kind, n, i, a) + OrphanTotal(spec, kind, n, i, b)
    decreases |b|
  {
    assert forall k :: 0 <= k < |a| ==> (a + b)[k] == a[k];
    assert forall k :: 0 <= k < |b| ==> (a + b)[|a| + k] == b[k];
    if b == [] {
      assert a + b == a;
    } else {
      var b' := b[..|b| - 1];
      assert (a + b)[..|a + b| - 1] == a + b';
      OrphansSplit(spec, kind, n, i, a, b');
    }
  }

  lemma RemoveBoth(pods: map<Slot, Copy>, part: map<Slot, Copy>, s: Slot)
    requires s in part && part.Keys <= pods.Keys
    ensures (part - {s}).Keys <= (pods - {s}).Keys && |part - {s}| < |part|
    ensures (pods - {s}) - (part - {s}).Keys == pods - part.Keys
  {
    assert (part - {s}).Keys == part.Keys - {s};
  }

  lemma {:induction false} TotalSplits(
      spec: Spec, kind: Kind, n: NodeName, i: nat, pods: map<Slot, Copy>, part: map<Slot, Copy>)
    requires WellSized(spec) && PodsKnown(spec, pods) && i < spec.dims
    requires part.Keys <= pods.Keys && forall s <- part.Keys :: part[s] == pods[s]
    ensures PodsKnown(spec, part)
    ensures Total(spec, kind, n, i, pods) == Total(spec, kind, n, i, part) + Total(spec, kind, n, i, pods - part.Keys)
    decreases |part|
  {
    hide Share, WellSized, Total;
    if part.Keys == {} {
      assert pods - part.Keys == pods && part == map[];
      TotalOfNothing(spec, kind, n, i);
    } else {
      var s :| s in part.Keys;
      TotalWithout(spec, kind, n, i, pods, s);
      TotalWithout(spec, kind, n, i, part, s);
      RemoveBoth(pods, part, s);
      TotalSplits(spec, kind, n, i, pods - {s}, part - {s});
    }
  }

  lemma TotalOfNothing(spec: Spec, kind: Kind, n: NodeName, i: nat)
    requires WellSized(spec) && i < spec.dims
    ensures Total(spec, kind, n, i, map[]) == 0
  {
  }

  /** The copies that a session like `c` but for the lost tasks is missing. */
  function LostCopies(c: Core, lost: set<TaskId>): map<Slot, Copy> {
    map s | s in c.pods && LostSlot(c, lost, s) :: c.pods[s]
  }

  lemma PodsLeft(a: Core, c: Core, lost: set<TaskId>)
    requires Same(a, c, lost)
    ensures a.pods == c.pods - LostCopies(c, lost).Keys
  {
    forall s: Slot ensures SameSlot(a, c, lost, s) && (s in a.pods <==> s in c.pods && !LostSlot(c, lost, s)) {
      assert SameSlot(a, c, lost, s);
      assert OnNode(a, s).Some? <==> s in a.pods;
    }
    forall s | s in a.pods ensures a.pods[s] == c.pods[s] { assert SameSlot(a, c, lost, s); }
  }

  /** Node `n` carries the charges of `more` on top of what it carried, and no longer those of `gone`, in
      resource `i`. */
  ghost predicate Carries(spec: Spec, v: Vectors, v': Vectors, more: seq<(Slot, Copy)>, gone: map<Slot, Copy>,
                          n: NodeName, i: nat)
    requires WellSized(spec) && OrphansKnown(spec, more) && PodsKnown(spec, gone) && i < spec.dims
  {
    && |v.used| == |v'.used| == |v.idle| == |v'.idle| == |v.releasing| == |v'.releasing| == spec.dims
    && v'.used[i] == v.used[i] + OrphanTotal(spec, Used, n, i, more) - Total(spec, Used, n, i, gone)
    && v'.idle[i] == v.idle[i] + OrphanTotal(spec, Idle, n, i, more) - Total(spec, Idle, n, i, gone)
    && v'.releasing[i] == v.releasing[i] + OrphanTotal(spec, Freed, n, i, more) - Total(spec, Freed, n, i, gone)
  }

  /** Charges orphaned in between, less the shares of lost copies, are exactly what the node vectors of two
      alike sessions differ by. */
  lemma OrphanedDifference(spec: Spec, c: Core, b: Books, c': Core, b': Books, more: seq<(Slot, Copy)>,
                           lost: set<TaskId>, n: NodeName, i: nat)
    requires Balanced(spec, c, b) && Balanced(spec, c', b')
    requires Same(c', c, lost) && c'.orphans == c.orphans + more && OrphansKnown(spec, more)
    requires n in spec.nodes && i < spec.dims
    ensures PodsKnown(spec, LostCopies(c, lost))
    ensures Carries(spec, b.nodes[n], b'.nodes[n], more, LostCopies(c, lost), n, i)
  {
    hide Same, LostCopies, Total, OrphanTotal, WellSized, PodsKnown, OrphansKnown, JobBalanced;
    PodsLeft(c', c, lost);
    LostAreHeld(spec, c, lost);
    assert NodeBalanced(spec, c, n, b.nodes[n]) && NodeBalanced(spec, c', n, b'.nodes[n]);
    assert NodeBalancedAt(spec, c, n, b.nodes[n], i) && NodeBalancedAt(spec, c', n, b'.nodes[n], i);
    DifferenceOf(spec, Used, n, i, c, c', more, LostCopies(c, lost));
    DifferenceOf(spec, Idle, n, i, c, c', more, LostCopies(c, lost));
    DifferenceOf(spec, Freed, n, i, c, c', more, LostCopies(c, lost));
  }

  lemma LostAreHeld(spec: Spec, c: Core, lost: set<TaskId>)
    requires WellFormed(spec, c)
    ensures var gone := LostCopies(c, lost);
            gone.Keys <= c.pods.Keys && (forall s <- gone.Keys :: gone[s] == c.pods[s]) && PodsKnown(spec, gone)
  {
  }

  lemma DifferenceOf(spec: Spec, kind: Kind, n: NodeName, i: nat, c: Core, c': Core, more: seq<(Slot, Copy)>,
                     gone: map<Slot, Copy>)
    requires WellSized(spec) && WellFormed(spec, c) && WellFormed(spec, c') && i < spec.dims
    requires gone.Keys <= c.pods.Keys && (forall s <- gone.Keys :: gone[s] == c.pods[s]) && c'.pods == c.pods - gone.Keys
    requires c'.orphans == c.orphans + more && OrphansKnown(spec, more) && PodsKnown(spec, gone)
    ensures Total(spec, kind, n, i, c'.pods) + OrphanTotal(spec, kind, n, i, c'.orphans) ==
            Total(spec, kind, n, i, c.pods) + OrphanTotal(spec, kind, n, i, c.orphans)
            + OrphanTotal(spec, kind, n, i, more) - Total(spec, kind, n, i, gone)
  {
    TotalSplits(spec, kind, n, i, c.pods, gone);
    OrphansSplit(spec, kind, n, i, c.orphans, more);
  }

  // ---------------------------------------------------------------- charges left behind

  /** The charge of a copy that was dropped is zero in every resource. */
  ghost predicate Weightless(spec: Spec, s: Slot)
    requires WellSized(spec) && s.node in spec.nodes && s.task in spec.tasks
  {
    forall i: nat :: i < spec.dims ==> Charge(spec, s, i) == 0
  }

  ghost predicate NonNegative(spec: Spec)
    requires WellSized(spec)
  {
    forall t, i: nat :: t in spec.tasks && i < spec.dims ==> spec.tasks[t].request[i] >= 0
  }

  /** The dropped copies sum to nothing, in every vector of every node. */
  ghost predicate SumToNothing(spec: Spec, more: seq<(Slot, Copy)>)
    requires WellSized(spec) && OrphansKnown(spec, more)
  {
    forall kind: Kind, n, i: nat :: n in spec.nodes && i < spec.dims ==> OrphanTotal(spec, kind, n, i, more) == 0
  }

  /** What was dropped and what is gone weigh the same, in every vector of every node. */
  ghost predicate Cancel(spec: Spec, more: seq<(Slot, Copy)>, gone: map<Slot, Copy>)
    requires WellSized(spec) && OrphansKnown(spec, more) && PodsKnown(spec, gone)
  {
    forall kind: Kind, n, i: nat :: n in spec.nodes && i < spec.dims ==>
      OrphanTotal(spec, kind, n, i, more) == Total(spec, kind, n, i, gone)
  }

  lemma CancelNothing(spec: Spec, more: seq<(Slot, Copy)>)
    requires WellSized(spec) && OrphansKnown(spec, more)
    ensures Cancel(spec, more, map[]) <==> SumToNothing(spec, more)
  {
    hide OrphanTotal;
    assert forall kind: Kind, n, i: nat :: i < spec.dims ==> Total(spec, kind, n, i, map[]) == 0;
  }

  lemma {:induction false} WeightlessSum(spec: Spec, kind: Kind, n: NodeName, i: nat, more: seq<(Slot, Copy)>)
    requires WellSized(spec) && OrphansKnown(spec, more) && i < spec.dims
    requires forall k :: 0 <= k < |more| ==> Weightless(spec, more[k].0)
    ensures OrphanTotal(spec, kind, n, i, more) == 0
    decreases |more|
  {
    if more != [] {
      assert Weightless(spec, more[|more| - 1].0);
      WeightlessSum(spec, kind, n, i, more[..|more| - 1]);
    }
  }

  lemma {:induction false} UsedSum(spec: Spec, n: NodeName, i: nat, more: seq<(Slot, Copy)>, k: nat)
    requires WellSized(spec) && NonNegative(spec) && OrphansKnown(spec, more) && i < spec.dims
    ensures OrphanTotal(spec, Used, n, i, more) >= 0
    ensures k < |more| && more[k].0.node == n ==> Charge(spec, more[k].0, i) <= OrphanTotal(spec, Used, n, i, more)
    decreases |more|
  {
    if more != [] {
      var last := more[|more| - 1].0;
      assert spec.tasks[last.task].request[i] >= 0;
      UsedSum(spec, n, i, more[..|more| - 1], k);
      assert k < |more| - 1 ==> more[..|more| - 1][k] == more[k];
    }
  }

  /** If no request is negative, charges do not cancel. */
  lemma SumToNothingIff(spec: Spec, more: seq<(Slot, Copy)>)
    requires WellSized(spec) && OrphansKnown(spec, more)
    ensures (forall k :: 0 <= k < |more| ==> Weightless(spec, more[k].0)) ==> SumToNothing(spec, more)
    ensures NonNegative(spec) && SumToNothing(spec, more) ==> forall k :: 0 <= k < |more| ==> Weightless(spec, more[k].0)
  {
    hide Charge, Share;
    if forall k :: 0 <= k < |more| ==> Weightless(spec, more[k].0) {
      forall kind: Kind, n, i: nat | n in spec.nodes && i < spec.dims ensures OrphanTotal(spec, kind, n, i, more) == 0 {
        WeightlessSum(spec, kind, n, i, more);
      }
    }
    if NonNegative(spec) && SumToNothing(spec, more) {
      forall k, i: nat | 0 <= k < |more| && i < spec.dims ensures Charge(spec, more[k].0, i) == 0 {
        UsedSum(spec, more[k].0.node, i, more, k);
        ChargeNotNegative(spec, more[k].0, i);
        assert OrphanTotal(spec, Used, more[k].0.node, i, more) == 0;
      }
    }
  }

  lemma ChargeNotNegative(spec: Spec, s: Slot, i: nat)
    requires WellSized(spec) && NonNegative(spec) && s.node in spec.nodes && s.task in spec.tasks && i < spec.dims
    ensures Charge(spec, s, i) >= 0
  {
    assert spec.tasks[s.task].request[i] >= 0;
  }

  /** Two sessions that are alike but for lost copies, with others dropped in between: their vectors differ by
      exactly the charges dropped less those of the lost copies, so they are equal if and only if these
      cancel. Job totals are equal anyway. */
  lemma DroppedBooks(spec: Spec, c: Core, b: Books, c': Core, b': Books, more: seq<(Slot, Copy)>, lost: set<TaskId>)
    requires Balanced(spec, c, b) && Balanced(spec, c', b')
    requires Same(c', c, lost) && c'.orphans == c.orphans + more
    ensures OrphansKnown(spec, more) && PodsKnown(spec, LostCopies(c, lost)) && b'.jobs == b.jobs
    ensures var gone := LostCopies(c, lost);
            && (forall n, i: nat :: n in spec.nodes && i < spec.dims ==>
                  Carries(spec, b.nodes[n], b'.nodes[n], more, gone, n, i))
            && (b' == b <==> Cancel(spec, more, gone))
  {
    hide NodeBalanced, JobBalanced, OrphanTotal, Same, Total, LostCopies, Carries, Cancel, WellFormed, PodsKnown, WellSized;
    MoreKnown(spec, c, c', more);
    SameJobBooks(spec, c, b, c', b') by { SameRecords(c', c, lost); }
    var gone := LostCopies(c, lost);
    LostAreHeld(spec, c, lost);
    forall n, i: nat | n in spec.nodes && i < spec.dims ensures Carries(spec, b.nodes[n], b'.nodes[n], more, gone, n, i) {
      OrphanedDifference(spec, c, b, c', b', more, lost, n, i);
    }
    CarriesIff(spec, c, b, c', b', more, gone);
  }

  lemma MoreKnown(spec: Spec, c: Core, c': Core, more: seq<(Slot, Copy)>)
    requires WellFormed(spec, c') && c'.orphans == c.orphans + more
    ensures OrphansKnown(spec, more)
  {
    forall k | 0 <= k < |more| ensures more[k].0.node in spec.nodes && more[k].0.task in spec.tasks {
      assert c'.orphans[|c.orphans| + k] == more[k];
    }
  }

  lemma CarriesIff(spec: Spec, c: Core, b: Books, c': Core, b': Books, more: seq<(Slot, Copy)>, gone: map<Slot, Copy>)
    requires Balanced(spec, c, b) && Balanced(spec, c', b') && b'.jobs == b.jobs
    requires OrphansKnown(spec, more) && PodsKnown(spec, gone)
    requires forall n, i: nat :: n in spec.nodes && i < spec.dims ==> Carries(spec, b.nodes[n], b'.nodes[n], more, gone, n, i)
    ensures b' == b <==> Cancel(spec, more, gone)
  {
    hide NodeBalanced, JobBalanced, OrphanTotal, Total, WellFormed, PodsKnown, WellSized, OrphansKnown;
    if Cancel(spec, more, gone) {
      hide Cancel, Carries;
      forall n | n in spec.nodes ensures b'.nodes[n] == b.nodes[n] {
        SizesOf(spec, c, b, n);
        SizesOf(spec, c', b', n);
        NothingCarried(spec, b.nodes[n], b'.nodes[n], more, gone, n);
      }
      assert b'.nodes == b.nodes;
    }
    if b' == b {
      forall kind: Kind, n, i: nat | n in spec.nodes && i < spec.dims
        ensures OrphanTotal(spec, kind, n, i, more) == Total(spec, kind, n, i, gone)
      {
        assert Carries(spec, b.nodes[n], b'.nodes[n], more, gone, n, i);
        match kind { case Used => case Idle => case Freed => }
      }
    }
  }

  lemma SameRecords(a: Core, b: Core, lost: set<TaskId>)
    requires Same(a, b, lost)
    ensures a.tasks.Keys == b.tasks.Keys && forall t <- b.tasks.Keys :: SameRecord(a.tasks[t], b.tasks[t])
  {
  }

  lemma SizesOf(spec: Spec, c: Core, b: Books, n: NodeName)
    requires Balanced(spec, c, b) && n in spec.nodes
    ensures |b.nodes[n].used| == |b.nodes[n].idle| == |b.nodes[n].releasing| == spec.dims
  {
    assert NodeBalanced(spec, c, n, b.nodes[n]);
  }

  lemma NothingCarried(spec: Spec, v: Vectors, v': Vectors, more: seq<(Slot, Copy)>, gone: map<Slot, Copy>, n: NodeName)
    requires WellSized(spec) && OrphansKnown(spec, more) && PodsKnown(spec, gone) && Cancel(spec, more, gone)
    requires n in spec.nodes
    requires |v.used| == |v'.used| == |v.idle| == |v'.idle| == |v.releasing| == |v'.releasing| == spec.dims
    requires forall i: nat :: i < spec.dims ==> Carries(spec, v, v', more, gone, n, i)
    ensures v' == v
  {
    hide OrphanTotal, Total;
    forall i: nat | i < spec.dims
      ensures v'.used[i] == v.used[i] && v'.idle[i] == v.idle[i] && v'.releasing[i] == v.releasing[i]
    {
      assert Carries(spec, v, v', more, gone, n, i);
    }
    assert v'.used == v.used && v'.idle == v.idle && v'.releasing == v.releasing;
  }
}
