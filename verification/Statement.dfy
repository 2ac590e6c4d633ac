/** The Statement object. Every method is proved to do what its function in StatementSpec says, on
    a session whose resource vectors stay equal to the sums they stand for. */
module Statement {
  import opened Cluster
  import opened StatementSpec
  import opened StatementConvert
  import opened StatementCommit
  import opened SessionSteps
  import Accounting
  import Session

  class Statement {
    const ssn: Session.Session
    var operations: Log

    constructor (ssn: Session.Session)
      ensures this.ssn == ssn && operations == []
    {
      this.ssn := ssn;
      operations := [];
    }

    ghost predicate Valid()
      reads this, ssn
    {
      ssn.Valid() && Backward(operations) && Known(ssn.spec, operations)
    }

    /** The session and the log as one value. */
    ghost function Now(ok: bool): Outcome
      reads this, ssn
    {
      Outcome(ssn.State(), operations, ok)
    }

    method Checkpoint() returns (cp: nat)
      ensures cp == |operations|
    {
      cp := |operations|;
    }

    /** operationValid: the first undo entry that points at `i` decides. */
    method IsValid(i: nat) returns (valid: bool)
      requires Backward(operations) && i < |operations|
      ensures valid == OperationValid(operations, i)
      decreases |operations| - i
    {
      var undoIndex := 0;
      while undoIndex < |operations|
        invariant 0 <= undoIndex <= |operations|
        invariant FirstUndo(operations, i, 0) == FirstUndo(operations, i, undoIndex)
      {
        if operations[undoIndex].UndoOp? && operations[undoIndex].index == i {
          var undone := IsValid(undoIndex);
          return !undone;
        }
        undoIndex := undoIndex + 1;
      }
      valid := true;
    }

    method Evict(t: TaskId, metadata: EvictionMetadata) returns (ok: bool)
      requires Valid() && t in ssn.spec.tasks
      modifies this`operations, ssn
      ensures Valid() && Now(ok) == StatementSpec.Evict(ssn.spec, old(ssn.State()), old(operations), t, metadata)
    {
      hide Accounting.Balanced, WellFormed;
      var previous := ssn.tasks[t];
      if !JobFound(ssn.spec, t) || previous.node !in ssn.spec.nodes {
        return false;
      }
      ok := EvictTask(ssn, t);
      if ok {
        operations := operations + [EvictOp(t, previous, metadata)];
      }
    }

    method Allocate(t: TaskId, host: NodeName) returns (ok: bool)
      requires Valid() && t in ssn.spec.tasks
      modifies this`operations, ssn
      ensures Valid() && Now(ok) == StatementSpec.Allocate(ssn.spec, old(ssn.State()), old(operations), t, host)
    {
      hide Accounting.Balanced, WellFormed;
      var previous := ssn.tasks[t];
      if !JobFound(ssn.spec, t) {
        return false;
      }
      ok := AllocateTask(ssn, t, host);
      if ok {
        operations := operations + [AllocateOp(t, host, previous.numa, previous.virtual)];
      }
    }

    /** Pipeline from where it is clear that the call does not become an unevict. */
    method PipelineOnto(t: TaskId, host: NodeName) returns (ok: bool)
      requires Valid() && t in ssn.spec.tasks
      modifies this`operations, ssn
      ensures Valid()
      ensures Now(ok) == StatementSpec.PipelineOnto(ssn.spec, old(ssn.State()), old(operations), t, host)
    {
      hide Accounting.Balanced, WellFormed;
      if host !in ssn.spec.nodes || !JobFound(ssn.spec, t) {
        return false;
      }
      var found := Slot(host, t) in ssn.pods;
      var previous := PipelineTask(ssn, t, host);
      operations := operations + [PipelineOp(t, previous, host, found)];
      ok := true;
    }

    method Pipeline(t: TaskId, host: NodeName, canUndoEviction: bool) returns (ok: bool)
      requires Valid() && t in ssn.spec.tasks
      modifies this`operations, ssn
      ensures Valid()
      ensures Now(ok) == StatementSpec.Pipeline(ssn.spec, old(ssn.State()), old(operations), t, host, canUndoEviction)
    {
      if host !in ssn.spec.nodes || !JobFound(ssn.spec, t) {
        return false;
      }
      var slot := Slot(host, t);
      if slot in ssn.pods && canUndoEviction
         && !GpuPlacementChanged(ssn.spec, ssn.tasks[t], ssn.pods[slot], t)
         && !NumaPlacementChanged(ssn.tasks[t], ssn.pods[slot]) {
        var onNode := ssn.pods[slot];
        ssn.SetRecord(t, ssn.tasks[t].(groups := onNode.groups, numa := onNode.numa));
        ok := Unevict(t);
      } else {
        ok := PipelineOnto(t, host);
      }
    }

    /** Reverse(): run the closure of an entry. */
    method Reverse(op: Operation) returns (ok: bool)
      requires Valid() && OpKnown(ssn.spec, op)
      requires op.UndoOp? && op.target.UndoOp? ==> op.target.index < |operations|
      modifies this`operations, ssn
      ensures Valid() && Now(ok) == StatementSpec.Reverse(ssn.spec, old(ssn.State()), old(operations), op)
      decreases if op.UndoOp? && op.target.UndoOp? then op.target.index + 1 else 0, 0
    {
      match op
      case EvictOp(_, _, _) =>
        UnevictTask(ssn, op);
        ok := true;
      case PipelineOp(_, _, _, _) =>
        ok := UnpipelineTask(ssn, op);
      case AllocateOp(t, _, numa, virtual) =>
        ok := UnallocateTask(ssn, t, numa, virtual);
      case UndoOp(_, target) =>
        assert OpKnown(ssn.spec, target);
        match target
        case EvictOp(t, _, metadata) => ok := Evict(t, metadata);
        case PipelineOp(t, _, host, _) => ok := PipelineOnto(t, host);
        case AllocateOp(t, host, _, _) => ok := Allocate(t, host);
        case UndoOp(k, _) => ok := UndoOperation(k);
    }

    method UndoOperation(i: nat) returns (ok: bool)
      requires Valid() && i < |operations|
      modifies this`operations, ssn
      ensures Valid() && Now(ok) == StatementSpec.UndoOperation(ssn.spec, old(ssn.State()), old(operations), i)
      decreases i, 1
    {
      hide Accounting.Balanced, WellFormed;
      var valid := IsValid(i);
      if !valid {
        return true;
      }
      var op := operations[i];
      ok := Reverse(op);
      if ok {
        operations := operations + [UndoOp(i, op)];
      }
    }

    /** undoEarliestValidOperation for evictions */
    method Unevict(t: TaskId) returns (ok: bool)
      requires Valid() && t in ssn.spec.tasks
      modifies this`operations, ssn
      ensures Valid() && Now(ok) == StatementSpec.Unevict(ssn.spec, old(ssn.State()), old(operations), t)
    {
      var index := 0;
      while index < |operations|
        invariant 0 <= index <= |operations|
        invariant Valid() && ssn.State() == old(ssn.State()) && operations == old(operations)
        invariant EarliestValidEvict(operations, t, 0) == EarliestValidEvict(operations, t, index)
      {
        var valid := IsValid(index);
        if valid && operations[index].EvictOp? && operations[index].task == t {
          ok := UndoOperation(index);
          return;
        }
        index := index + 1;
      }
      ok := false;
    }

    method Rollback(cp: int) returns (ok: bool)
      requires Valid()
      modifies this`operations, ssn
      ensures Valid() && Now(ok) == StatementSpec.Rollback(ssn.spec, old(ssn.State()), old(operations), cp)
    {
      hide Accounting.Balanced, WellFormed, StatementSpec.UndoOperation;
      if cp < 0 || cp > |operations| {
        return false;
      }
      var i := |operations|;
      ghost var goal := UndoDownTo(ssn.spec, ssn.State(), operations, i, cp);
      while i > cp
        invariant cp <= i <= |operations| && Valid()
        invariant UndoDownTo(ssn.spec, ssn.State(), operations, i, cp) == goal
      {
        ok := UndoOperation(i - 1);
        if !ok {
          return;
        }
        i := i - 1;
      }
      operations := operations[..cp];
      ok := true;
    }

    method Discard()
      requires Valid()
      modifies this`operations, ssn
      ensures Valid() && Now(true) == StatementSpec.Discard(ssn.spec, old(ssn.State()), old(operations))
    {
      hide Accounting.Balanced, WellFormed, StatementSpec.UndoOperation;
      if |operations| == 0 {
        return;
      }
      var i := |operations|;
      ghost var goal := DiscardDown(ssn.spec, ssn.State(), operations, i);
      while i > 0
        invariant 0 <= i <= |operations| && Valid()
        invariant DiscardDown(ssn.spec, ssn.State(), operations, i) == goal
      {
        var undone := UndoOperation(i - 1);
        i := i - 1;
      }
      operations := [];
    }

    /** Commit's loop over the log; the second result says whether every call it made was accepted. */
    method Commit(accepted: set<nat>) returns (sent: seq<Effect>, events: seq<(JobId, string)>)
      requires Valid()
      modifies this`operations
      ensures operations == []
      ensures sent == Sent(old(operations), accepted, |old(operations)|)
      ensures forall a :: 0 <= a < |sent| ==> sent[a].index < |old(operations)|
      ensures forall k :: k in events <==> k in EventKeys(ssn.spec, old(operations), sent)
      ensures forall a, b :: 0 <= a < b < |events| ==> events[a] != events[b]
    {
      hide Session.Session.Valid, OperationValid, EventKeys;
      sent := [];
      var keys: set<(JobId, string)> := {};
      NoKeys(ssn.spec, operations);
      var i := 0;
      var stopped := false;
      ghost var log := operations;
      while i < |operations| && !stopped
        invariant 0 <= i <= |operations| && operations == log
        invariant sent == Sent(log, accepted, i)
        invariant forall a :: 0 <= a < |sent| ==> sent[a].index < |log|
        invariant keys == EventKeys(ssn.spec, log, sent)
        invariant stopped == Stopped(log, accepted, i)
      {
        var valid := IsValid(i);
        if valid && !operations[i].UndoOp? {
          ghost var before := sent;
          sent := sent + [Effect(i, i in accepted)];
          KeysGrow(ssn.spec, log, before, Effect(i, i in accepted));
          if operations[i].EvictOp? && i in accepted {
            keys := keys + {(ssn.spec.tasks[operations[i].task].job, operations[i].metadata.action)};
          }
          if operations[i].AllocateOp? && i !in accepted {
            stopped := true;
            assert Stops(log, accepted, i);
          }
        }
        i := i + 1;
      }
      if stopped { NothingSentAfter(log, accepted, i, |log|); }
      operations := [];
      events := RecordEvents(keys);
    }

    /** The loop body of ConvertAllAllocatedToPipelined. */
    method ConvertTask(op: Operation) returns (ok: bool)
      requires Valid() && op.AllocateOp? && op.task in ssn.spec.tasks
      modifies this`operations, ssn
      ensures Valid() && Now(ok) == ConvertOne(ssn.spec, old(ssn.State()), old(operations), op)
    {
      hide Accounting.Balanced, WellFormed, StatementSpec.PipelineOnto;
      ok := UnallocateTask(ssn, op.task, ssn.tasks[op.task].numa, true);
      if ok {
        ok := PipelineOnto(op.task, op.nextNode);
      }
    }

    /** The rebuilding of the log without the job's allocations. */
    method Filtered(job: JobId) returns (kept: Log)
      requires Known(ssn.spec, operations)
      ensures kept == Kept(ssn.spec, operations, job)
    {
      kept := [];
      assert operations[..0] == [];
      for k := 0 to |operations|
        invariant kept == Kept(ssn.spec, operations[..k], job)
      {
        assert operations[..k + 1][..k] == operations[..k];
        var op := operations[k];
        if !(op.AllocateOp? && ssn.spec.tasks[op.task].job == job) {
          kept := kept + [op];
        }
      }
      assert operations[..|operations|] == operations;
    }

    method ConvertAllAllocatedToPipelined(job: JobId) returns (ok: bool)
      requires Valid()
      modifies this`operations, ssn
      ensures ssn.Valid() && Now(ok) == Convert(ssn.spec, old(ssn.State()), old(operations), job)
    {
      hide Accounting.Balanced, WellFormed, ConvertOne;
      var all := operations;
      ghost var todo := Allocations(ssn.spec, all, job);
      AllocationsAre(ssn.spec, all, job);
      ghost var goal := ConvertEach(ssn.spec, ssn.State(), operations, todo);
      ghost var done := 0;
      var k := 0;
      assert all[..0] == [];
      while k < |all|
        invariant 0 <= k <= |all| && Valid() && done <= |todo|
        invariant |Allocations(ssn.spec, all[..k], job)| == done
        invariant ConvertEach(ssn.spec, ssn.State(), operations, todo[done..]) == goal
      {
        var op := all[k];
        assert all[..k + 1][..k] == all[..k] && all[..k + 1][k] == op;
        if op.AllocateOp? && ssn.spec.tasks[op.task].job == job {
          NextAllocation(ssn.spec, all, job, k);
          assert todo[done..][1..] == todo[done + 1..];
          ok := ConvertTask(op);
          if !ok {
            return;
          }
          done := done + 1;
        }
        k := k + 1;
      }
      assert all[..k] == all;
      operations := Filtered(job);
      ok := true;
    }
  }

  lemma NextAllocation(spec: Spec, all: Log, job: JobId, k: nat)
    requires k < |all| && IsAllocationOf(spec, all[k], job)
    ensures var done := |Allocations(spec, all[..k], job)|;
            done < |Allocations(spec, all, job)| && Allocations(spec, all, job)[done] == all[k]
  {
    assert all == all[..k] + ([all[k]] + all[k + 1..]);
    assert all[..k] + [all[k]] + all[k + 1..] == all;
    AllocationsConcat(spec, all[..k], [all[k]] + all[k + 1..], job);
    AllocationsConcat(spec, [all[k]], all[k + 1..], job);
    assert [all[k]][..0] == [];
  }

  lemma AllocationsConcat(spec: Spec, a: Log, b: Log, job: JobId)
    ensures Allocations(spec, a + b, job) == Allocations(spec, a, job) + Allocations(spec, b, job)
  {
    KeptOfConcat(spec, a, b, job);
  }

  lemma NoKeys(spec: Spec, log: Log)
    requires Known(spec, log)
    ensures EventKeys(spec, log, []) == {}
  {
  }

  lemma KeysGrow(spec: Spec, log: Log, sent: seq<Effect>, e: Effect)
    requires Known(spec, log) && e.index < |log| && forall a :: 0 <= a < |sent| ==> sent[a].index < |log|
    ensures EventKeys(spec, log, sent + [e]) == EventKeys(spec, log, sent) +
      (if e.accepted && log[e.index].EvictOp?
       then {(spec.tasks[log[e.index].task].job, log[e.index].metadata.action)} else {})
  {
    var more := sent + [e];
    assert forall a :: 0 <= a < |sent| ==> more[a] == sent[a];
    assert more[|sent|] == e;
  }

  lemma {:induction false} NothingSentAfter(log: Log, accepted: set<nat>, i: nat, n: nat)
    requires Backward(log) && i <= n <= |log| && Stopped(log, accepted, i)
    ensures Sent(log, accepted, n) == Sent(log, accepted, i)
    decreases n
  {
    if i < n {
      NothingSentAfter(log, accepted, i, n - 1);
      var j :| 0 <= j < i && Stops(log, accepted, j);
      assert Stopped(log, accepted, n - 1);
    }
  }
}
