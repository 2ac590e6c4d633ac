/** Rollback walks a statement's history backwards. */
module StatementRollback {
  import opened Cluster
  import opened StatementSpec
  import opened StatementHistory

  /** The states right before and right after the call that wrote each log entry. */
  type History = seq<(Core, Core)>

  /** The session when the log had `i` entries: just before entry `i` was written, or now. */
  ghost function At(h: History, c: Core, i: nat): Core
    requires i <= |h|
  {
    if i < |h| then h[i].0 else c
  }

  /** `h` is a history of `log` that ends in `c`. Between two calls the scheduler may only have
      rewritten the placement wishes of tasks that are still to be placed. */
  ghost predicate IsHistory(spec: Spec, log: Log, h: History, c: Core) {
    && PublicLog(log) && Known(spec, log) && WellFormed(spec, c) && |h| == |log|
    && (forall k :: 0 <= k < |log| ==> HistoryStep(spec, log, h, c, k))
  }

  ghost predicate HistoryStep(spec: Spec, log: Log, h: History, c: Core, k: nat)
    requires k < |log| == |h|
  {
    && Recorded(spec, log[k], h[k].0, h[k].1) && Settled(spec, h[k].0)
    && Same(At(h, c, k + 1), h[k].1, {})
  }

  // ---------------------------------------------------------------- the log while it is being unwound

  /** `ext` is what undoing entries |log|-1 down to `i` appended: one undo entry for each of them. */
  ghost predicate Unwound(log: Log, ext: Log, i: nat) {
    && i <= |log|
    && (forall k :: 0 <= k < |ext| && ext[k].UndoOp? ==>
          i <= ext[k].index < |log| && ext[k].target == log[ext[k].index])
    && (forall j :: i <= j < |log| ==> Undoes(ext, j))
  }

  ghost predicate Undoes(ext: Log, j: nat) {
    exists k :: 0 <= k < |ext| && ext[k].UndoOp? && ext[k].index == j
  }

  /** In an unwinding log, undo entries point backwards into the original log, and the original ones at evictions. */
  lemma UnwoundTargets(log: Log, ext: Log, i: nat, k: nat)
    requires PublicLog(log) && Unwound(log, ext, i) && k < |log + ext| && (log + ext)[k].UndoOp?
    ensures var op := (log + ext)[k];
            && op.index < k && op.index < |log| && op.target == log[op.index]
            && (if k < |log| then op.target.EvictOp? else i <= op.index)
  {
    assert k < |log| ==> (log + ext)[k] == log[k];
    assert k >= |log| ==> (log + ext)[k] == ext[k - |log|];
  }

  lemma UnwoundIsBackward(log: Log, ext: Log, i: nat)
    requires PublicLog(log) && Unwound(log, ext, i)
    ensures Backward(log + ext)
  {
    var all := log + ext;
    forall k | 0 <= k < |all| && all[k].UndoOp?
      ensures all[k].index < k && (all[k].target.UndoOp? ==> all[k].target.index < k)
    {
      UnwoundTargets(log, ext, i, k);
    }
  }

  /** Nothing points at an entry that unwinding appended. */
  lemma NeverUndone(log: Log, ext: Log, i: nat, v: nat)
    requires PublicLog(log) && Unwound(log, ext, i) && Backward(log + ext) && |log| <= v < |log + ext|
    ensures OperationValid(log + ext, v)
  {
    var all := log + ext;
    forall k | 0 <= k < |all| && all[k].UndoOp? ensures all[k].index != v { UnwoundTargets(log, ext, i, k); }
    assert FirstUndo(all, v, 0).None?;
  }

  /** An undo entry of the original log, once undone itself, is not valid. */
  lemma UndoneUndo(log: Log, ext: Log, i: nat, u: nat)
    requires PublicLog(log) && Unwound(log, ext, i) && Backward(log + ext)
    requires i <= u < |log| && log[u].UndoOp?
    ensures !OperationValid(log + ext, u)
  {
    var all := log + ext;
    assert Undoes(ext, u);
    var k :| 0 <= k < |ext| && ext[k].UndoOp? && ext[k].index == u;
    assert all[|log| + k] == ext[k];
    var v := FirstUndo(all, u, 0).value;
    UnwoundTargets(log, ext, i, v);
    assert all[v].target == log[u];
    NeverUndone(log, ext, i, v);
  }

  /** When its turn comes, an entry is valid again, whatever undid it before. */
  lemma UnwoundValidity(log: Log, ext: Log, i: nat)
    requires PublicLog(log) && Unwound(log, ext, i + 1)
    ensures Backward(log + ext) && OperationValid(log + ext, i)
  {
    var all := log + ext;
    UnwoundIsBackward(log, ext, i + 1);
    match FirstUndo(all, i, 0)
    case None =>
    case Some(u) =>
      UnwoundTargets(log, ext, i + 1, u);
      assert u < |log|;
      assert all[u] == log[u];
      UndoneUndo(log, ext, i + 1, u);
  }

  /** Undoing entry `i` appends at most a re-run eviction, and then the undo entry for `i`. */
  lemma UnwoundGrows(log: Log, ext: Log, i: nat, more: Log)
    requires Unwound(log, ext, i + 1) && i < |log|
    requires forall k :: 0 <= k < |more| ==> !more[k].UndoOp?
    ensures Unwound(log, ext + more + [UndoOp(i, log[i])], i)
  {
    var ext' := ext + more + [UndoOp(i, log[i])];
    assert forall k :: 0 <= k < |ext| ==> ext'[k] == ext[k];
    assert forall k :: 0 <= k < |more| ==> ext'[|ext| + k] == more[k];
    assert ext'[|ext| + |more|] == UndoOp(i, log[i]);
    forall k | 0 <= k < |ext'| && ext'[k].UndoOp?
      ensures i <= ext'[k].index < |log| && ext'[k].target == log[ext'[k].index]
    {
      assert !(|ext| <= k < |ext| + |more|);
    }
    forall j | i <= j < |log| ensures Undoes(ext', j) {
      if j > i {
        assert Undoes(ext, j);
        var k :| 0 <= k < |ext| && ext[k].UndoOp? && ext[k].index == j;
        assert ext'[k] == ext[k];
      }
    }
  }

  /** Re-running an eviction that had been undone succeeds. */
  lemma RedoSucceeds(spec: Spec, op: Operation, h0: Core, h1: Core, s: Core, lost: set<TaskId>)
    requires op.UndoOp? && Recorded(spec, op, h0, h1) && WellFormed(spec, s) && Same(s, h1, lost)
    requires TaskOf(op) !in lost
    ensures JobFound(spec, TaskOf(op)) && s.tasks[TaskOf(op)].node in spec.nodes
    ensures Slot(s.tasks[TaskOf(op)].node, TaskOf(op)) in s.pods
  {
    var t := TaskOf(op);
    assert SameRecord(s.tasks[t], h1.tasks[t]);
    assert SameSlot(s, h1, lost, Slot(s.tasks[t].node, t));
  }

  /** Running the closure of an entry is the inverse step, and it reports no error. */
  lemma ReverseIsInverse(spec: Spec, op: Operation, h0: Core, h1: Core, s: Core, lost: set<TaskId>, all: Log)
    requires Recorded(spec, op, h0, h1) && WellFormed(spec, s) && Same(s, h1, lost)
    requires TaskOf(op) in lost ==> op.EvictOp?
    requires Backward(all) && Known(spec, all)
    ensures var r := Reverse(spec, s, all, op);
            r.ok && r.core == Inverse(spec, op, s) && Extends(spec, all, r.log)
  {
    var t := TaskOf(op);
    assert SameRecord(s.tasks[t], h1.tasks[t]);
    if op.UndoOp? { RedoSucceeds(spec, op, h0, h1, s, lost); }
  }

  lemma ReverseRestores(spec: Spec, op: Operation, h0: Core, h1: Core, s: Core, lost: set<TaskId>, all: Log)
    requires Recorded(spec, op, h0, h1) && WellFormed(spec, s) && Same(s, h1, lost)
    requires TaskOf(op) in lost ==> op.EvictOp?
    requires Backward(all) && Known(spec, all)
    ensures var r := Reverse(spec, s, all, op);
            r.ok && Extends(spec, all, r.log) && r.core.orphans == s.orphans && Same(r.core, h0, LostAfter(op, lost))
    ensures op.UndoOp? ==> op.target.EvictOp?
  {
    ReverseIsInverse(spec, op, h0, h1, s, lost, all);
    InverseRestores(spec, op, h0, h1, s, lost);
  }

  /** Undoing one entry of an unwinding log: the session takes the inverse step, the log grows. */
  lemma UnwindStep(spec: Spec, log: Log, ext: Log, i: nat, s: Core) returns (ext': Log)
    requires PublicLog(log) && Unwound(log, ext, i + 1) && i < |log|
    requires Backward(log + ext) && Known(spec, log + ext) && WellFormed(spec, s) && OpKnown(spec, log[i])
    requires log[i].UndoOp? ==> log[i].target.EvictOp?
    requires var r := Reverse(spec, s, log + ext, log[i]); r.ok && Extends(spec, log + ext, r.log)
    ensures Unwound(log, ext', i)
    ensures UndoOperation(spec, s, log + ext, i)
         == Outcome(Reverse(spec, s, log + ext, log[i]).core, log + ext', true)
  {
    var op, all := log[i], log + ext;
    assert all[i] == op;
    UnwoundValidity(log, ext, i);
    var r := Reverse(spec, s, all, op);
    var more := r.log[|all|..];
    ext' := ext + more + [UndoOp(i, op)];
    assert forall k :: 0 <= k < |more| ==> more[k] == r.log[|all| + k];
    UnwoundGrows(log, ext, i, more);
    assert r.log + [UndoOp(i, op)] == log + ext';
  }

  /** One round of the loop, from any state that looks like the history at entry `i + 1`. */
  lemma UndoOneRestores(spec: Spec, log: Log, h: History, c: Core, s: Core, ext: Log, i: nat) returns (ext': Log)
    requires IsHistory(spec, log, h, c) && i < |log|
    requires WellFormed(spec, s) && Same(s, At(h, c, i + 1), Lost(log, i + 1))
    requires Unwound(log, ext, i + 1) && Backward(log + ext) && Known(spec, log + ext)
    ensures Unwound(log, ext', i)
    ensures var r := UndoOperation(spec, s, log + ext, i);
            && r.ok && r.log == log + ext' && r.core.orphans == s.orphans
            && Same(r.core, h[i].0, Lost(log, i))
  {
    hide Recorded, PublicLog, Same, Reverse, UndoOperation;
    var op := log[i];
    assert HistoryStep(spec, log, h, c, i);
    SameCompose(s, At(h, c, i + 1), h[i].1, Lost(log, i + 1));
    if TaskOf(op) in Lost(log, i + 1) { LostIsEvictedBefore(log, i + 1); }
    ReverseRestores(spec, op, h[i].0, h[i].1, s, Lost(log, i + 1), log + ext);
    ext' := UnwindStep(spec, log, ext, i, s);
    assert Lost(log, i) == LostAfter(op, Lost(log, i + 1));
  }

  /** The loop of Rollback, from any state that looks like the history at entry `i`. */
  lemma {:induction false} UndoDownToRestores(
      spec: Spec, log: Log, h: History, c: Core, s: Core, ext: Log, i: nat, cp: nat)
    requires IsHistory(spec, log, h, c) && cp <= i <= |log|
    requires WellFormed(spec, s) && Same(s, At(h, c, i), Lost(log, i))
    requires Unwound(log, ext, i) && Backward(log + ext) && Known(spec, log + ext)
    ensures var r := UndoDownTo(spec, s, log + ext, i, cp);
            r.ok && log <= r.log && r.core.orphans == s.orphans && Same(r.core, At(h, c, cp), Lost(log, cp))
    decreases i
  {
    hide HistoryStep, Recorded, PublicLog, Same, UndoOperation;
    if i > cp {
      var ext' := UndoOneRestores(spec, log, h, c, s, ext, i - 1);
      var r := UndoOperation(spec, s, log + ext, i - 1);
      UndoDownToRestores(spec, log, h, c, r.core, ext', i - 1, cp);
    }
  }

  /** Rollback succeeds, cuts the log back, and restores the session of the checkpoint except that the
      lost tasks are missing from their node. */
  lemma RollbackRestores(spec: Spec, log: Log, h: History, c: Core, cp: nat)
    requires IsHistory(spec, log, h, c) && Backward(log) && cp <= |log|
    ensures var r := Rollback(spec, c, log, cp);
            r.ok && r.log == log[..cp] && r.core.orphans == c.orphans && Same(r.core, At(h, c, cp), Lost(log, cp))
  {
    hide HistoryStep, Recorded, PublicLog, Same;
    assert log + [] == log;
    SameReflexive(c);
    UndoDownToRestores(spec, log, h, c, c, [], |log|, cp);
  }

  // ---------------------------------------------------------------- Discard

  lemma {:induction false} DiscardIsUndo(spec: Spec, c: Core, log: Log, i: nat)
    requires WellFormed(spec, c) && Backward(log) && Known(spec, log) && i <= |log|
    requires UndoDownTo(spec, c, log, i, 0).ok
    ensures DiscardDown(spec, c, log, i).core == UndoDownTo(spec, c, log, i, 0).core
    decreases i
  {
    if i > 0 {
      var step := UndoOperation(spec, c, log, i - 1);
      DiscardIsUndo(spec, step.core, step.log, i - 1);
    }
  }

  /** Undoing the whole log loses no task: the eviction before a re-pipelining is undone as well. */
  lemma NothingLostFromStart(log: Log)
    requires PublicLog(log)
    ensures Lost(log, 0) == {}
  {
    forall t ensures t !in Lost(log, 0) { LostIff(log, 0, t); }
  }

  /** Discard restores the session before the first entry, with nothing lost. */
  lemma DiscardReturns(spec: Spec, log: Log, h: History, c: Core)
    requires IsHistory(spec, log, h, c) && Backward(log)
    ensures var r := Discard(spec, c, log);
            r.core.orphans == c.orphans && Same(r.core, At(h, c, 0), {})
  {
    hide HistoryStep, Recorded, PublicLog, Same, UndoOperation;
    RollbackRestores(spec, log, h, c, 0);
    NothingLostFromStart(log);
    DiscardIsUndo(spec, c, log, |log|);
  }
}
