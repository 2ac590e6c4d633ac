/** Laws of whole runs that follow from the history: the plugins' count, and which evictions are in force. */
module StatementLaws {
  import opened Cluster
  import opened StatementSpec
  import opened StatementHistory
  import opened StatementRollback
  import opened StatementCalls
  import opened StatementConvert
  import opened StatementConvertLaws
  import opened StatementConvertReady
  import opened StatementRuns

  // ---------------------------------------------------------------- the plugins' count

  function Active(c: Core, t: TaskId): int
    requires t in c.tasks
  {
    if IsActiveAllocated(c.tasks[t].status) then 1 else 0
  }

  /** What the calls of the plugins' event handlers for `t` that wrote entries `..n` add up to. */
  function Credits(log: Log, t: TaskId, n: nat): int
    requires n <= |log|
  {
    if n == 0 then 0
    else Credits(log, t, n - 1) + (if TaskOf(log[n - 1]) != t then 0 else if log[n - 1].EvictOp? then -1 else 1)
  }

  /** The same sum over the entries that are still valid; undoing an eviction counts for nothing. */
  function ValidCredits(log: Log, t: TaskId, n: nat): int
    requires Backward(log) && n <= |log|
  {
    if n == 0 then 0
    else ValidCredits(log, t, n - 1) +
         (if TaskOf(log[n - 1]) != t || !OperationValid(log, n - 1) || log[n - 1].UndoOp? then 0
          else if log[n - 1].EvictOp? then -1 else 1)
  }

  /** Each recorded call moves the plugins' count together with the task's being active. */
  lemma RecordedCredit(spec: Spec, op: Operation, h0: Core, h1: Core, t: TaskId)
    requires Recorded(spec, op, h0, h1) && t in spec.tasks
    ensures t in h0.tasks && t in h0.ledger && t in h1.tasks && t in h1.ledger
    ensures h1.ledger[t] - Active(h1, t) == h0.ledger[t] - Active(h0, t)
    ensures h1.ledger[t] == h0.ledger[t] + (if TaskOf(op) != t then 0 else if op.EvictOp? then -1 else 1)
  {
  }

  lemma HistoryWellFormed(spec: Spec, log: Log, h: History, c: Core, n: nat)
    requires IsHistory(spec, log, h, c) && n <= |log|
    ensures WellFormed(spec, At(h, c, n))
  {
    if n < |log| { assert HistoryStep(spec, log, h, c, n); }
  }

  lemma StepCredit(spec: Spec, log: Log, h: History, c: Core, t: TaskId, n: nat)
    requires IsHistory(spec, log, h, c) && n < |log| && t in spec.tasks
    ensures WellFormed(spec, At(h, c, n)) && WellFormed(spec, At(h, c, n + 1))
    ensures var was, now := At(h, c, n), At(h, c, n + 1);
            && now.ledger[t] - Active(now, t) == was.ledger[t] - Active(was, t)
            && now.ledger[t] == was.ledger[t] + Credits(log, t, n + 1) - Credits(log, t, n)
  {
    hide Recorded, Same, PublicLog;
    HistoryWellFormed(spec, log, h, c, n);
    HistoryWellFormed(spec, log, h, c, n + 1);
    assert HistoryStep(spec, log, h, c, n);
    RecordedCredit(spec, log[n], h[n].0, h[n].1, t);
    SameCredit(At(h, c, n + 1), h[n].1, t);
  }

  lemma SameCredit(a: Core, b: Core, t: TaskId)
    requires Same(a, b, {}) && t in b.tasks && t in b.ledger
    ensures t in a.tasks && t in a.ledger && a.ledger[t] == b.ledger[t] && Active(a, t) == Active(b, t)
  {
    assert SameRecord(a.tasks[t], b.tasks[t]);
  }

  lemma {:induction false} HistoryCredit(spec: Spec, log: Log, h: History, c: Core, t: TaskId, n: nat)
    requires IsHistory(spec, log, h, c) && n <= |log| && t in spec.tasks
    ensures WellFormed(spec, At(h, c, 0)) && WellFormed(spec, At(h, c, n))
    ensures var now, start := At(h, c, n), At(h, c, 0);
            && now.ledger[t] == start.ledger[t] + Credits(log, t, n)
            && now.ledger[t] - Active(now, t) == start.ledger[t] - Active(start, t)
  {
    hide Recorded, Same, PublicLog;
    HistoryWellFormed(spec, log, h, c, n);
    if n > 0 {
      HistoryCredit(spec, log, h, c, t, n - 1);
      StepCredit(spec, log, h, c, t, n - 1);
    }
  }

  /** Appending an undo entry makes its target invalid, and changes the validity of nothing else. */
  lemma ValidityAppend(log: Log, op: Operation, i: nat)
    requires PublicLog(log) && PublicLog(log + [op]) && Backward(log) && Backward(log + [op]) && i < |log|
    ensures OperationValid(log + [op], i) == (OperationValid(log, i) && !(op.UndoOp? && op.index == i))
    ensures op.UndoOp? && op.index == i ==> OperationValid(log, i) && log[i] == op.target
  {
    var log' := log + [op];
    assert forall k :: 0 <= k < |log| ==> log'[k] == log[k];
    assert log'[|log|] == op;
    PublicValidity(log, i);
    PublicValidity(log', i);
  }

  lemma UndoesEvict(log: Log, op: Operation)
    requires PublicLog(log + [op])
    ensures op.UndoOp? ==> op.target.EvictOp?
  {
    assert (log + [op])[|log|] == op;
  }

  lemma {:induction false} ValidCreditsAppend(log: Log, op: Operation, t: TaskId, n: nat)
    requires PublicLog(log) && PublicLog(log + [op]) && Backward(log) && Backward(log + [op]) && n <= |log|
    ensures ValidCredits(log + [op], t, n) == ValidCredits(log, t, n) +
              (if op.UndoOp? && op.index < n && TaskOf(op) == t then 1 else 0)
    decreases n
  {
    hide PublicLog, OperationValid, Backward;
    if n > 0 {
      UndoesEvict(log, op);
      assert (log + [op])[n - 1] == log[n - 1];
      ValidCreditsAppend(log, op, t, n - 1);
      ValidityAppend(log, op, n - 1);
    }
  }

  /** Over a log between calls, counting only the valid entries gives the same sum. */
  lemma {:induction false} ValidCreditsSuffice(log: Log, t: TaskId)
    requires PublicLog(log) && Backward(log)
    ensures ValidCredits(log, t, |log|) == Credits(log, t, |log|)
    decreases |log|
  {
    if log != [] {
      var n := |log| - 1;
      var rest, op := log[..n], log[n];
      assert log == rest + [op];
      PublicPrefix(log, n);
      PublicIsBackward(rest);
      ValidCreditsSuffice(rest, t);
      ValidCreditsAppend(rest, op, t, n);
      CreditsPrefix(log, t, n, n);
      LastIsValid(log);
      assert op.UndoOp? ==> op.index < n;
      hide PublicLog, OperationValid, Backward;
    }
  }

  lemma LastIsValid(log: Log)
    requires PublicLog(log) && Backward(log) && log != []
    ensures OperationValid(log, |log| - 1)
  {
    PublicValidity(log, |log| - 1);
  }

  lemma {:induction false} CreditsPrefix(log: Log, t: TaskId, n: nat, m: nat)
    requires m <= n <= |log|
    ensures Credits(log[..n], t, m) == Credits(log, t, m)
    decreases m
  {
    if m > 0 { CreditsPrefix(log, t, n, m - 1); }
  }

  /** After any disciplined run, conversions and discards included, a plugin's count for a task has moved
      exactly as the valid log entries say, and in lockstep with the task being active. So an eviction
      that was undone weighs nothing. */
  lemma LedgerFollowsValidEntries(spec: Spec, start: Core, actions: seq<Action>, t: TaskId)
    requires WellFormed(spec, start) && Settled(spec, start) && Allowed(spec, start, [], actions, 0)
    requires t in spec.tasks
    ensures var now := Run(spec, start, [], actions, 0);
            && now.core.ledger[t] - start.ledger[t] == ValidCredits(now.log, t, |now.log|)
            && now.core.ledger[t] - start.ledger[t] == Active(now.core, t) - Active(start, t)
  {
    hide HistoryStep, Recorded, PublicLog, Same, Settled, Allowed, Run;
    EmptyHistory(spec, start);
    var now := Run(spec, start, [], actions, 0);
    var h := RunKeeps(spec, start, [], [], actions, 0);
    HistoryCredit(spec, now.log, h, now.core, t, |now.log|);
    SameCredit(At(h, now.core, 0), Flagged(start, RunFlags(spec, start, [], actions, 0)), t);
    ValidCreditsSuffice(now.log, t);
  }

  // ---------------------------------------------------------------- evictions in force

  /** Entry `k` is the last one about its task. */
  predicate IsLast(log: Log, k: nat)
    requires k < |log|
  {
    forall m :: k < m < |log| ==> TaskOf(log[m]) != TaskOf(log[k])
  }

  /** After any disciplined run, the last entry about a task says whether it is evicted: if that is an
      eviction, it is valid and the task and its node's copy are as it left them; otherwise the task is
      not being evicted. */
  lemma LastEntryDecides(spec: Spec, start: Core, actions: seq<Action>, k: nat)
    requires WellFormed(spec, start) && Settled(spec, start) && Allowed(spec, start, [], actions, 0)
    requires var log := Run(spec, start, [], actions, 0).log; k < |log| && IsLast(log, k)
    ensures var now := Run(spec, start, [], actions, 0);
            var op, t := now.log[k], TaskOf(now.log[k]);
            && t in now.core.tasks && OperationValid(now.log, k)
            && (now.core.tasks[t].status.Releasing? <==> op.EvictOp?)
            && (op.EvictOp? ==> AsEvicted(now.core, op))
  {
    hide HistoryStep, PublicLog, Same, Settled, Allowed, Run, Recorded, OperationValid;
    EmptyHistory(spec, start);
    var now := Run(spec, start, [], actions, 0);
    var h := RunKeeps(spec, start, [], [], actions, 0);
    LastEntryOf(spec, now.log, h, now.core, k);
  }

  lemma LastEntryOf(spec: Spec, log: Log, h: History, c: Core, k: nat)
    requires IsHistory(spec, log, h, c) && Backward(log) && k < |log| && IsLast(log, k)
    ensures var op, t := log[k], TaskOf(log[k]);
            && t in c.tasks && OperationValid(log, k) && (c.tasks[t].status.Releasing? <==> op.EvictOp?)
            && (op.EvictOp? ==> AsEvicted(c, op))
  {
    hide HistoryStep, Same, Settled, Recorded, OperationValid;
    var op := log[k];
    SinceEntry(spec, log, h, c, k, |log|);
    EntryStatus(spec, op, h[k].0, h[k].1);
    if op.EvictOp? { EvictLeaves(spec, op, h[k].0, h[k].1, c); }
    if op.UndoOp? { UndoneWasActive(spec, op, h[k].0, h[k].1); }
    PublicValidity(log, k);
    forall u | 0 <= u < |log| && log[u].UndoOp? ensures log[u].index != k {
      assert TaskOf(log[u]) == TaskOf(log[log[u].index]);
    }
  }

  lemma EvictLeaves(spec: Spec, op: Operation, h0: Core, h1: Core, c: Core)
    requires op.EvictOp? && Recorded(spec, op, h0, h1) && TaskSame(c, h1, op.task)
    ensures AsEvicted(c, op)
  {
    assert AsEvicted(h1, op);
    assert OnNode(c, Slot(op.previous.node, op.task)) == OnNode(h1, Slot(op.previous.node, op.task));
  }

  lemma UndoneWasActive(spec: Spec, op: Operation, h0: Core, h1: Core)
    requires op.UndoOp? && Recorded(spec, op, h0, h1)
    ensures op.target.EvictOp? && IsActiveAllocated(op.target.previous.status)
  {
    var g0, g1 :| Recorded(spec, op.target, g0, g1);
  }

  /** An eviction that is not valid is not the last entry about its task: the entry that undid it is later. */
  lemma UndoneIsNotLast(spec: Spec, start: Core, actions: seq<Action>, e: nat)
    requires WellFormed(spec, start) && Settled(spec, start) && Allowed(spec, start, [], actions, 0)
    requires var log := Run(spec, start, [], actions, 0).log; e < |log| && !OperationValid(log, e)
    ensures !IsLast(Run(spec, start, [], actions, 0).log, e)
  {
    hide HistoryStep, PublicLog, Same, Settled, Allowed, Run, Recorded, OperationValid, IsLast;
    EmptyHistory(spec, start);
    var now := Run(spec, start, [], actions, 0);
    var h := RunKeeps(spec, start, [], [], actions, 0);
    if IsLast(now.log, e) { LastEntryOf(spec, now.log, h, now.core, e); }
  }

  /** Wherever the task is by now, Unevict takes its earliest valid eviction away; so the task has no valid eviction left if
      and only if it had just one. */
  lemma UnevictClearsIff(spec: Spec, c: Core, log: Log, h: History, t: TaskId)
    requires IsHistory(spec, log, h, c) && Backward(log)
    requires t in spec.tasks && EarliestValidEvict(log, t, 0).Some?
    ensures var e := EarliestValidEvict(log, t, 0).value;
            var r := Unevict(spec, c, log, t);
            && r.log == log + [UndoOp(e, log[e])]
            && (EarliestValidEvict(r.log, t, 0).None? <==> EarliestValidEvict(log, t, e + 1).None?)
  {
    hide HistoryStep, Same, Settled, Recorded, OperationValid, Unevict, PublicLog;
    var e := EarliestValidEvict(log, t, 0).value;
    UnevictOutcome(spec, c, log, t);
    PublicAppendUndo(log, e);
    var op := UndoOp(e, log[e]);
    PublicIsBackward(log + [op]);
    forall i | 0 <= i < |log| ensures ValidEvict(log + [op], t, i) == (ValidEvict(log, t, i) && i != e) {
      ValidityAppend(log, op, i);
      assert (log + [op])[i] == log[i];
    }
    assert (log + [op])[|log|] == op;
    var x, y := EarliestValidEvict(log + [op], t, 0), EarliestValidEvict(log, t, e + 1);
    assert x.Some? ==> ValidEvict(log + [op], t, x.value) && x.value < |log| && ValidEvict(log, t, x.value);
    assert y.Some? ==> ValidEvict(log, t, y.value) && ValidEvict(log + [op], t, y.value);
  }
}
