/** What a conversion does to the log: which entries stay, where they end up, and when undo entries
    still point at what they undid. */
module StatementConvertLog {
  import opened Cluster
  import opened StatementSpec
  import opened StatementHistory
  import opened StatementRollback
  import opened StatementConvert
  import opened StatementConvertLaws
  import opened StatementConvertReady

  // ---------------------------------------------------------------- the outcome

  lemma {:induction false} AllocationIndex(spec: Spec, log: Log, job: JobId, i: nat) returns (k: nat)
    requires i < |Allocations(spec, log, job)|
    ensures k < |log| && log[k] == Allocations(spec, log, job)[i] && IsAllocationOf(spec, log[k], job)
    decreases |log|
  {
    var rest := log[..|log| - 1];
    if i < |Allocations(spec, rest, job)| {
      k := AllocationIndex(spec, rest, job, i);
    } else {
      k := |log| - 1;
    }
  }

  lemma {:induction false} AllocationsDistinct(spec: Spec, log: Log, h: History, c: Core, job: JobId, n: nat)
    requires IsHistory(spec, log, h, c) && n <= |log|
    ensures DistinctTasks(Allocations(spec, log[..n], job))
    decreases n
  {
    hide HistoryStep, PublicLog, WellFormed, Known;
    if n > 0 {
      AllocationsDistinct(spec, log, h, c, job, n - 1);
      var rest := log[..n - 1];
      assert log[..n][..n - 1] == rest && log[..n][n - 1] == log[n - 1];
      var todo := Allocations(spec, rest, job);
      if IsAllocationOf(spec, log[n - 1], job) {
        NothingBefore(spec, log, h, c, n - 1, 0);
        forall i | 0 <= i < |todo| ensures TaskOf(todo[i]) != TaskOf(log[n - 1]) {
          var k := AllocationIndex(spec, rest, job, i);
          assert log[k] == todo[i];
        }
      }
    }
  }

  lemma AllocationsReady(spec: Spec, log: Log, h: History, c: Core, job: JobId)
    requires IsHistory(spec, log, h, c) && Settled(spec, c) && StillAllocated(spec, c, log, job)
    ensures AllReady(spec, c, Allocations(spec, log, job)) && DistinctTasks(Allocations(spec, log, job))
  {
    hide PublicLog, HistoryStep, Settled;
    AllocationsAre(spec, log, job);
    var todo := Allocations(spec, log, job);
    forall i | 0 <= i < |todo| ensures Ready(spec, c, todo[i]) {
      var k := AllocationIndex(spec, log, job, i);
      StillReady(spec, log, h, c, k);
    }
    AllocationsDistinct(spec, log, h, c, job, |log|);
    assert log[..|log|] == log;
  }

  lemma {:induction false} PipesAreKept(spec: Spec, c: Core, todo: Log, job: JobId)
    requires WellFormed(spec, c) && AllReady(spec, c, todo)
    ensures Kept(spec, PipesFor(c, todo), job) == PipesFor(c, todo)
    decreases |todo|
  {
    if todo != [] {
      ReadyRest(spec, c, todo);
      PipesAreKept(spec, c, todo[1..], job);
      KeptOfConcat(spec, [PipeFor(c, todo[0])], PipesFor(c, todo[1..]), job);
      OneEntry(spec, PipeFor(c, todo[0]), job);
    }
  }

  /** The conversion leaves no allocation of the job in the log, appends one pipeline entry per
      allocation, converts exactly the allocated tasks, and touches nothing else. */
  lemma ConvertOutcome(spec: Spec, log: Log, h: History, c: Core, job: JobId)
    requires IsHistory(spec, log, h, c) && Settled(spec, c) && StillAllocated(spec, c, log, job)
    ensures var r := Convert(spec, c, log, job);
            var todo := Allocations(spec, log, job);
            && r.ok && r.log == Kept(spec, log, job) + PipesFor(c, todo)
            && (forall k :: 0 <= k < |r.log| ==> !IsAllocationOf(spec, r.log[k], job))
            && AllConverted(c, r.core, todo)
  {
    hide AllConverted, AllReady, DistinctTasks, Kept, Allocations, HistoryStep, PublicLog, Settled, StillAllocated;
    var todo := Allocations(spec, log, job);
    AllocationsReady(spec, log, h, c, job);
    ConvertEachEffect(spec, c, log, todo);
    KeptOfConcat(spec, log, PipesFor(c, todo), job);
    PipesAreKept(spec, c, todo, job);
    KeptHasNoAllocation(spec, log + PipesFor(c, todo), job);
  }

  // ---------------------------------------------------------------- the entries, whatever became of the tasks

  predicate Movable(spec: Spec, c: Core, op: Operation)
    requires WellFormed(spec, c)
  {
    && op.AllocateOp? && op.task in spec.tasks && JobFound(spec, op.task) && op.nextNode in spec.nodes
    && c.tasks[op.task].node in spec.nodes
  }

  /** One pipeline entry for each allocation, of the same task onto the same node. */
  predicate PipesOf(todo: Log, pipes: Log) {
    |pipes| == |todo| && forall k :: 0 <= k < |todo| ==>
      todo[k].AllocateOp? && pipes[k].PipelineOp? && pipes[k].task == todo[k].task && pipes[k].nextNode == todo[k].nextNode
  }

  lemma ConvertOneGoes(spec: Spec, c: Core, log: Log, op: Operation) returns (pipe: Operation)
    requires WellFormed(spec, c) && Movable(spec, c, op)
    ensures var r := ConvertOne(spec, c, log, op);
            && r.ok && r.log == log + [pipe] && PipesOf([op], [pipe])
            && forall other: Operation :: Movable(spec, c, other) ==> Movable(spec, r.core, other)
  {
    var r := ConvertOne(spec, c, log, op);
    pipe := r.log[|log|];
  }

  lemma {:induction false} ConvertEachGoes(spec: Spec, c: Core, log: Log, todo: Log) returns (pipes: Log)
    requires WellFormed(spec, c) && AllAllocations(spec, todo) && forall k :: 0 <= k < |todo| ==> Movable(spec, c, todo[k])
    ensures var r := ConvertEach(spec, c, log, todo);
            r.ok && r.log == log + pipes && PipesOf(todo, pipes)
    decreases |todo|
  {
    hide ConvertOne, Movable, WellFormed;
    if todo == [] {
      pipes := [];
    } else {
      var pipe := ConvertOneGoes(spec, c, log, todo[0]);
      var one := ConvertOne(spec, c, log, todo[0]);
      assert forall k :: 0 <= k < |todo| - 1 ==> todo[1..][k] == todo[k + 1];
      var rest := ConvertEachGoes(spec, one.core, one.log, todo[1..]);
      pipes := [pipe] + rest;
      assert PipesOf([todo[0]], [pipe]) && [todo[0]][0] == todo[0] && [pipe][0] == pipe;
    }
  }

  lemma {:induction false} PipesKept(spec: Spec, todo: Log, pipes: Log, job: JobId)
    requires PipesOf(todo, pipes)
    ensures Kept(spec, pipes, job) == pipes
    decreases |pipes|
  {
    if pipes != [] {
      var n := |pipes| - 1;
      PipesKept(spec, todo[..n], pipes[..n], job);
      assert pipes[n].PipelineOp?;
    }
  }

  /** A conversion of a log with a history never fails, and its log is the retained entries and one pipeline
      entry for each allocation, in order. */
  lemma ConvertGoes(spec: Spec, log: Log, h: History, c: Core, job: JobId) returns (pipes: Log)
    requires IsHistory(spec, log, h, c)
    ensures var r := Convert(spec, c, log, job);
            && r.ok && r.log == Kept(spec, log, job) + pipes && PipesOf(Allocations(spec, log, job), pipes)
  {
    hide HistoryStep, PublicLog, Kept, Allocations, PipesOf, ConvertEach;
    AllocationsAre(spec, log, job);
    var todo := Allocations(spec, log, job);
    forall i | 0 <= i < |todo| ensures Movable(spec, c, todo[i]) {
      var k := AllocationIndex(spec, log, job, i);
      StaysOnNode(spec, log, h, c, k);
    }
    pipes := ConvertEachGoes(spec, c, log, todo);
    KeptOfConcat(spec, log, pipes, job);
    PipesKept(spec, todo, pipes, job);
  }

  // ---------------------------------------------------------------- where entries end up

  /** The place in the filtered log of what was entry `e`. */
  function NewIndex(spec: Spec, log: Log, job: JobId, e: nat): nat
    requires e <= |log|
  {
    |Kept(spec, log[..e], job)|
  }

  lemma {:induction false} SizesAdd(spec: Spec, log: Log, job: JobId)
    ensures |Kept(spec, log, job)| + |Allocations(spec, log, job)| == |log|
    decreases |log|
  {
    if log != [] { SizesAdd(spec, log[..|log| - 1], job); }
  }

  /** A retained entry moves forward by the number of the job's allocations before it, so its index is
      the same if and only if there are none. */
  lemma EntryMoves(spec: Spec, log: Log, job: JobId, e: nat)
    requires e < |log| && !IsAllocationOf(spec, log[e], job)
    ensures var p := NewIndex(spec, log, job, e);
            && p == e - |Allocations(spec, log[..e], job)|
            && p < |Kept(spec, log, job)| && Kept(spec, log, job)[p] == log[e]
            && (p == e <==> Allocations(spec, log[..e], job) == [])
  {
    hide Kept, Allocations;
    SizesAdd(spec, log[..e], job);
    KeptSplits(spec, log, job, e);
  }

  lemma KeptSplits(spec: Spec, log: Log, job: JobId, e: nat)
    requires e < |log| && !IsAllocationOf(spec, log[e], job)
    ensures exists rest :: Kept(spec, log, job) == Kept(spec, log[..e], job) + ([log[e]] + rest)
  {
    hide Kept, Allocations, IsAllocationOf;
    var a, b := log[..e], log[e + 1..];
    assert log == a + ([log[e]] + b);
    KeptOfConcat(spec, a, [log[e]] + b, job);
    KeptOfConcat(spec, [log[e]], b, job);
    OneEntry(spec, log[e], job);
  }

  lemma NewIndexGrows(spec: Spec, log: Log, job: JobId, e: nat, f: nat)
    requires e <= f <= |log|
    ensures NewIndex(spec, log, job, e) <= NewIndex(spec, log, job, f)
    ensures e < f && !IsAllocationOf(spec, log[e], job) ==> NewIndex(spec, log, job, e) < NewIndex(spec, log, job, f)
  {
    hide Kept;
    var a, b := log[..e], log[e..f];
    assert log[..f] == a + b;
    KeptOfConcat(spec, a, b, job);
    if e < f && !IsAllocationOf(spec, log[e], job) {
      assert log[..f][..e] == a;
      KeptSplits(spec, log[..f], job, e);
    }
  }

  /** Retained entries do not collide. */
  lemma NewIndexInjective(spec: Spec, log: Log, job: JobId, e: nat, f: nat)
    requires e < |log| && f < |log| && !IsAllocationOf(spec, log[e], job) && !IsAllocationOf(spec, log[f], job)
    requires NewIndex(spec, log, job, e) == NewIndex(spec, log, job, f)
    ensures e == f
  {
    hide NewIndex;
    if e < f { NewIndexGrows(spec, log, job, e, f); }
    if f < e { NewIndexGrows(spec, log, job, f, e); }
  }

  lemma {:induction false} KeptFrom(spec: Spec, log: Log, job: JobId, j: nat) returns (k: nat)
    requires j < |Kept(spec, log, job)|
    ensures k < |log| && Kept(spec, log, job)[j] == log[k] && !IsAllocationOf(spec, log[k], job)
    ensures NewIndex(spec, log, job, k) == j
    decreases |log|
  {
    var rest := log[..|log| - 1];
    if j < |Kept(spec, rest, job)| {
      k := KeptFrom(spec, rest, job, j);
      assert rest[..k] == log[..k];
    } else {
      k := |log| - 1;
    }
  }

  /** The undo entries of the converted log are undo entries of the log before. */
  lemma UndosFrom(spec: Spec, log: Log, h: History, c: Core, job: JobId, j: nat) returns (u: nat)
    requires IsHistory(spec, log, h, c)
    requires j < |Convert(spec, c, log, job).log| && Convert(spec, c, log, job).log[j].UndoOp?
    ensures u < |log| && log[u] == Convert(spec, c, log, job).log[j] && NewIndex(spec, log, job, u) == j
  {
    hide HistoryStep, PublicLog, WellFormed, Known, Convert, Kept;
    var pipes := ConvertGoes(spec, log, h, c, job);
    var kept := Kept(spec, log, job);
    assert forall k :: 0 <= k < |pipes| ==> Convert(spec, c, log, job).log[|kept| + k] == pipes[k];
    assert j < |kept|;
    u := KeptFrom(spec, log, job, j);
  }

  /** And all of those are retained. */
  lemma EntryStays(spec: Spec, log: Log, h: History, c: Core, job: JobId, u: nat)
    requires IsHistory(spec, log, h, c) && u < |log| && !IsAllocationOf(spec, log[u], job)
    ensures var p := NewIndex(spec, log, job, u);
            p < |Convert(spec, c, log, job).log| && Convert(spec, c, log, job).log[p] == log[u]
  {
    hide HistoryStep, PublicLog, WellFormed, Known, Convert, Kept, NewIndex;
    var pipes := ConvertGoes(spec, log, h, c, job);
    EntryMoves(spec, log, job, u);
  }

  // ---------------------------------------------------------------- validity

  /** Every retained entry is valid afterwards exactly if it was before; in particular every undo entry
      still points backwards, so that the question has an answer. */
  ghost predicate KeepsValidity(spec: Spec, log: Log, log': Log, job: JobId)
    requires Backward(log) && |Kept(spec, log, job)| <= |log'|
  {
    Backward(log') && forall i :: 0 <= i < |log| && !IsAllocationOf(spec, log[i], job) ==> SameValidity(spec, log, log', job, i)
  }

  ghost predicate SameValidity(spec: Spec, log: Log, log': Log, job: JobId, i: nat)
    requires Backward(log) && Backward(log') && i < |log|
  {
    var p := NewIndex(spec, log, job, i);
    p < |log'| && OperationValid(log', p) == OperationValid(log, i)
  }

  lemma SameValidityHolds(spec: Spec, log: Log, h: History, c: Core, job: JobId, i: nat)
    requires IsHistory(spec, log, h, c) && Backward(log) && UndosBefore(spec, log, job)
    requires i < |log| && !IsAllocationOf(spec, log[i], job)
    requires var log' := Convert(spec, c, log, job).log; UndoneOnce(log') && Backward(log')
    ensures SameValidity(spec, log, Convert(spec, c, log, job).log, job, i)
  {
    hide HistoryStep, PublicLog, UndoneOnce, WellFormed, Known, Convert, NewIndex, OperationValid, UndosBefore;
    var log' := Convert(spec, c, log, job).log;
    var p := NewIndex(spec, log, job, i);
    EntryStays(spec, log, h, c, job, i);
    HistoryIsPublic(spec, log, h, c);
    PublicValidity(log, i);
    UndoneOnceValidity(log', p);
    if u :| 0 <= u < |log| && log[u].UndoOp? && log[u].index == i {
      EntryStays(spec, log, h, c, job, u);
      IndexStays(spec, log, job, u);
    }
    if v :| 0 <= v < |log'| && log'[v].UndoOp? && log'[v].index == p {
      var u := UndosFrom(spec, log, h, c, job, v);
      IndexStays(spec, log, job, u);
      NewIndexInjective(spec, log, job, i, p);
    }
  }

  /** With no allocation of the job before anything undone, the undo entries stay in order. */
  lemma StillUndoneOnce(spec: Spec, log: Log, h: History, c: Core, job: JobId)
    requires IsHistory(spec, log, h, c) && UndosBefore(spec, log, job)
    ensures UndoneOnce(Convert(spec, c, log, job).log) && Backward(Convert(spec, c, log, job).log)
  {
    hide HistoryStep, PublicLog, WellFormed, Known, Convert, NewIndex, UndosBefore;
    var log' := Convert(spec, c, log, job).log;
    HistoryIsPublic(spec, log, h, c);
    forall j | 0 <= j < |log'| && log'[j].UndoOp?
      ensures log'[j].index < j && log'[j].target == log'[log'[j].index] && log'[j].target.EvictOp?
    {
      var u := UndosFrom(spec, log, h, c, job, j);
      var e := log[u].index;
      IndexStays(spec, log, job, u);
      EntryStays(spec, log, h, c, job, e);
      UndoOf(log, u);
      NewIndexGrows(spec, log, job, e, u);
    }
    forall i, j | 0 <= i < j < |log'| && log'[i].UndoOp? && log'[j].UndoOp? ensures log'[i].index != log'[j].index {
      var u := UndosFrom(spec, log, h, c, job, i);
      var v := UndosFrom(spec, log, h, c, job, j);
      UndoneTwice(log, u, v);
    }
  }

  lemma UndoOf(log: Log, u: nat)
    requires PublicLog(log) && u < |log| && log[u].UndoOp?
    ensures log[u].index < u && log[u].target == log[log[u].index] && log[u].target.EvictOp?
  {
  }

  lemma UndoneTwice(log: Log, u: nat, v: nat)
    requires PublicLog(log) && u < |log| && v < |log| && u != v && log[u].UndoOp? && log[v].UndoOp?
    ensures log[u].index != log[v].index
  {
  }

  lemma HistoryIsPublic(spec: Spec, log: Log, h: History, c: Core)
    requires IsHistory(spec, log, h, c)
    ensures PublicLog(log)
  {
  }

  /** With no allocation of the job before it, what has been undone keeps its index. */
  lemma IndexStays(spec: Spec, log: Log, job: JobId, u: nat)
    requires PublicLog(log) && UndosBefore(spec, log, job) && u < |log| && log[u].UndoOp?
    ensures var e := log[u].index;
            e < |log| && !IsAllocationOf(spec, log[e], job) && NewIndex(spec, log, job, e) == e
  {
    var e := log[u].index;
    assert log[e].EvictOp?;
    NoneBefore(spec, log, job, e);
    EntryMoves(spec, log, job, e);
  }

  lemma {:induction false} NoneBefore(spec: Spec, log: Log, job: JobId, e: nat)
    requires e <= |log| && forall k :: 0 <= k < e ==> !IsAllocationOf(spec, log[k], job)
    ensures Allocations(spec, log[..e], job) == []
    decreases e
  {
    if e > 0 {
      NoneBefore(spec, log, job, e - 1);
      assert log[..e][..e - 1] == log[..e - 1];
    }
  }

  /** The first entry from `from` on that has been undone. */
  lemma {:induction false} FirstUndone(log: Log, from: nat, u: nat) returns (v: nat)
    requires u < |log| && log[u].UndoOp? && log[u].index >= from
    ensures v < |log| && log[v].UndoOp? && log[v].index >= from
    ensures forall w :: 0 <= w < |log| && log[w].UndoOp? && log[w].index >= from ==> log[w].index >= log[v].index
    decreases log[u].index
  {
    if w :| 0 <= w < |log| && log[w].UndoOp? && from <= log[w].index < log[u].index {
      v := FirstUndone(log, from, w);
    } else {
      v := u;
    }
  }

  /** Otherwise the first undone entry behind an allocation moves away from the undo entry, and what was
      undone counts as valid again. */
  lemma UndoneBecomesValid(spec: Spec, log: Log, h: History, c: Core, job: JobId)
    requires IsHistory(spec, log, h, c) && Backward(log) && !UndosBefore(spec, log, job)
    requires Backward(Convert(spec, c, log, job).log)
    ensures exists i :: 0 <= i < |log| && !IsAllocationOf(spec, log[i], job)
                        && !SameValidity(spec, log, Convert(spec, c, log, job).log, job, i)
  {
    hide HistoryStep, PublicLog, WellFormed, Known, Convert, OperationValid, NewIndex;
    var log' := Convert(spec, c, log, job).log;
    HistoryIsPublic(spec, log, h, c);
    var u, k :| 0 <= u < |log| && 0 <= k < |log| && log[u].UndoOp? && IsAllocationOf(spec, log[k], job) && log[u].index >= k;
    var first := FirstIndex(spec, log, job, k);
    var v := FirstUndone(log, first, u);
    var e := log[v].index;
    UndoOf(log, v);
    assert log[e].EvictOp? && first < e;
    var p := NewIndex(spec, log, job, e);
    EntryMoves(spec, log, job, e);
    EntryStays(spec, log, h, c, job, e);
    NewIndexGrows(spec, log, job, first, e);
    PlaceOfFirst(spec, log, job, first);
    AllocationBefore(spec, log, job, first, e);
    assert first <= p < e;
    forall j | 0 <= j < |log'| && log'[j].UndoOp? ensures log'[j].index != p {
      var w := UndosFrom(spec, log, h, c, job, j);
    }
    PublicValidity(log, e);
    NobodyPoints(log', p);
  }

  lemma NobodyPoints(log: Log, p: nat)
    requires Backward(log) && p < |log| && forall j :: 0 <= j < |log| && log[j].UndoOp? ==> log[j].index != p
    ensures OperationValid(log, p)
  {
    assert FirstUndo(log, p, 0).None?;
  }

  lemma FirstIndex(spec: Spec, log: Log, job: JobId, k: nat) returns (first: nat)
    requires k < |log| && IsAllocationOf(spec, log[k], job)
    ensures first <= k && IsAllocationOf(spec, log[first], job)
    ensures forall j :: 0 <= j < first ==> !IsAllocationOf(spec, log[j], job)
    decreases k
  {
    first := k;
    if j :| 0 <= j < k && IsAllocationOf(spec, log[j], job) { first := FirstIndex(spec, log, job, j); }
  }

  lemma PlaceOfFirst(spec: Spec, log: Log, job: JobId, first: nat)
    requires first <= |log| && forall j :: 0 <= j < first ==> !IsAllocationOf(spec, log[j], job)
    ensures NewIndex(spec, log, job, first) == first
  {
    NoneBefore(spec, log, job, first);
    SizesAdd(spec, log[..first], job);
  }

  lemma AllocationBefore(spec: Spec, log: Log, job: JobId, k: nat, e: nat)
    requires k < e <= |log| && IsAllocationOf(spec, log[k], job)
    ensures Allocations(spec, log[..e], job) != []
  {
    if Allocations(spec, log[..e], job) == [] { NoAllocation(spec, log[..e], job); }
    assert log[..e][k] == log[k];
  }

  /** The conversion keeps the validity of every entry it retains if and only if no allocation of the job
      comes before an entry that has been undone. */
  lemma ConvertKeepsValidityIff(spec: Spec, log: Log, h: History, c: Core, job: JobId)
    requires IsHistory(spec, log, h, c) && Backward(log)
    ensures var r := Convert(spec, c, log, job);
            && |Kept(spec, log, job)| <= |r.log|
            && (KeepsValidity(spec, log, r.log, job) <==> UndosBefore(spec, log, job))
  {
    hide HistoryStep, PublicLog, WellFormed, Known, Convert, OperationValid, UndosBefore, SameValidity, UndoneOnce;
    var r := Convert(spec, c, log, job);
    var pipes := ConvertGoes(spec, log, h, c, job);
    if UndosBefore(spec, log, job) {
      StillUndoneOnce(spec, log, h, c, job);
      forall i | 0 <= i < |log| && !IsAllocationOf(spec, log[i], job) ensures SameValidity(spec, log, r.log, job, i) {
        SameValidityHolds(spec, log, h, c, job, i);
      }
    } else if Backward(r.log) {
      UndoneBecomesValid(spec, log, h, c, job);
    }
  }
}
