/** Whole runs of a statement: any sequence of calls, conversions and discards, with checkpoints and
    rollbacks in between. */
module StatementRuns {
  import opened Cluster
  import opened StatementSpec
  import opened StatementHistory
  import opened StatementRollback
  import opened StatementCalls
  import opened StatementConvert
  import opened StatementConvertLaws
  import opened StatementConvertReady
  import opened StatementConvertLog

  datatype Action = Basic(call: Call) | DoConvert(job: JobId) | DoDiscard

  /** A conversion is made while the job's allocated tasks still are allocated and nothing has been
      undone that came after one of them; it leaves the log before `floor` alone. (The log it leaves
      is then always in shape, by ConvertKeepsShape.) */
  ghost predicate Permitted(spec: Spec, c: Core, log: Log, a: Action, floor: nat)
    requires WellFormed(spec, c) && Backward(log) && Known(spec, log) && floor <= |log|
  {
    match a
    case Basic(call) => Disciplined(spec, c, log, call)
    case DoConvert(job) =>
      && StillAllocated(spec, c, log, job) && UndosBefore(spec, log, job) && Allocations(spec, log[..floor], job) == []
      && Backward(Convert(spec, c, log, job).log) && Known(spec, Convert(spec, c, log, job).log)
    case DoDiscard => true
  }

  ghost function Act(spec: Spec, c: Core, log: Log, a: Action, floor: nat): (r: Outcome)
    requires WellFormed(spec, c) && Backward(log) && Known(spec, log) && floor <= |log|
    requires Permitted(spec, c, log, a, floor)
    ensures WellFormed(spec, r.core) && Backward(r.log) && Known(spec, r.log)
  {
    match a
    case Basic(call) => Perform(spec, c, log, call)
    case DoConvert(job) => Convert(spec, c, log, job)
    case DoDiscard => Discard(spec, c, log)
  }

  /** Every action is permitted, and the log never gets shorter than `floor`. */
  ghost predicate Allowed(spec: Spec, c: Core, log: Log, actions: seq<Action>, floor: nat)
    requires WellFormed(spec, c) && Backward(log) && Known(spec, log) && floor <= |log|
    decreases actions
  {
    actions == [] ||
    (&& Permitted(spec, c, log, actions[0], floor)
     && var r := Act(spec, c, log, actions[0], floor);
        floor <= |r.log| && Allowed(spec, r.core, r.log, actions[1..], floor))
  }

  ghost function Run(spec: Spec, c: Core, log: Log, actions: seq<Action>, floor: nat): (r: Outcome)
    requires WellFormed(spec, c) && Backward(log) && Known(spec, log) && floor <= |log|
    requires Allowed(spec, c, log, actions, floor)
    ensures WellFormed(spec, r.core) && Backward(r.log) && Known(spec, r.log) && floor <= |r.log|
    decreases actions
  {
    if actions == [] then Outcome(c, log, true)
    else
      var r := Act(spec, c, log, actions[0], floor);
      Run(spec, r.core, r.log, actions[1..], floor)
  }

  /** The tasks whose allocation the action converts. */
  function Flags(spec: Spec, log: Log, a: Action): set<TaskId> {
    if a.DoConvert? then Tasks(Allocations(spec, log, a.job)) else {}
  }

  /** The copies that the action drops from a node while their charge stays. */
  function Drops(spec: Spec, c: Core, a: Action): seq<(Slot, Copy)>
    requires WellFormed(spec, c)
  {
    if a.Basic? then Dropped(spec, c, a.call) else []
  }

  /** The tasks that the run converts. */
  ghost function RunFlags(spec: Spec, c: Core, log: Log, actions: seq<Action>, floor: nat): set<TaskId>
    requires WellFormed(spec, c) && Backward(log) && Known(spec, log) && floor <= |log|
    requires Allowed(spec, c, log, actions, floor)
    decreases actions
  {
    if actions == [] then {}
    else
      var r := Act(spec, c, log, actions[0], floor);
      Flags(spec, log, actions[0]) + RunFlags(spec, r.core, r.log, actions[1..], floor)
  }

  /** The copies that the run drops while their charge stays: one for each GPU move. */
  ghost function RunDrops(spec: Spec, c: Core, log: Log, actions: seq<Action>, floor: nat): seq<(Slot, Copy)>
    requires WellFormed(spec, c) && Backward(log) && Known(spec, log) && floor <= |log|
    requires Allowed(spec, c, log, actions, floor)
    decreases actions
  {
    if actions == [] then []
    else
      var r := Act(spec, c, log, actions[0], floor);
      Drops(spec, c, actions[0]) + RunDrops(spec, r.core, r.log, actions[1..], floor)
  }

  // ---------------------------------------------------------------- one action keeps the history

  /** What an action must do: keep a history, and leave the checkpoint at `floor` alone but for flags. */
  ghost predicate ActsWell(
    spec: Spec, c: Core, log: Log, h: History, a: Action, floor: nat, r: Outcome, h': History)
    requires WellFormed(spec, c) && floor <= |log| == |h|
  {
    && r.ok && IsHistory(spec, r.log, h', r.core) && Settled(spec, r.core)
    && floor <= |r.log| && r.log[..floor] == log[..floor]
    && FlaggedCheckpoint(h, c, h', r.core, floor, Flags(spec, log, a))
    && r.core.orphans == c.orphans + Drops(spec, c, a)
  }

  lemma BasicActsWell(spec: Spec, c: Core, log: Log, h: History, call: Call, floor: nat) returns (h': History)
    requires IsHistory(spec, log, h, c) && Settled(spec, c) && Backward(log) && floor <= |log|
    requires Disciplined(spec, c, log, call) && floor <= |Perform(spec, c, log, call).log|
    ensures ActsWell(spec, c, log, h, Basic(call), floor, Perform(spec, c, log, call), h')
  {
    hide HistoryStep, Recorded, PublicLog, Same, Settled, Perform, Flagged, Dropped;
    h' := PerformKeeps(spec, c, log, h, call);
    PerformDrops(spec, c, log, h, call);
    assert SameCheckpoint(c, h, Perform(spec, c, log, call).core, h', floor);
    FlagNothing(At(h, c, floor));
  }

  lemma FlagNothing(c: Core)
    ensures Flagged(c, {}) == c
  {
  }

  lemma ConvertActsWell(spec: Spec, c: Core, log: Log, h: History, job: JobId, floor: nat) returns (h': History)
    requires IsHistory(spec, log, h, c) && Settled(spec, c) && floor <= |log|
    requires StillAllocated(spec, c, log, job) && UndosBefore(spec, log, job) && Allocations(spec, log[..floor], job) == []
    ensures ActsWell(spec, c, log, h, DoConvert(job), floor, Convert(spec, c, log, job), h')
  {
    hide HistoryStep, Recorded, PublicLog, Same, Settled, Flagged, Convert, StillAllocated, UndosBefore, Kept, ConvertReady;
    ConvertReadyIff(spec, log, h, c, job);
    h' := ConvertKeeps(spec, c, log, h, job);
    ConvertOutcome(spec, log, h, c, job);
    KeptPrefix(spec, log, job, floor);
    var r := Convert(spec, c, log, job);
    assert r.log[..floor] == Kept(spec, log, job)[..floor];
  }

  /** Entries before the first allocation keep their place. */
  lemma KeptPrefix(spec: Spec, log: Log, job: JobId, n: nat)
    requires n <= |log| && Allocations(spec, log[..n], job) == []
    ensures n <= |Kept(spec, log, job)| && Kept(spec, log, job)[..n] == log[..n]
  {
    NoAllocation(spec, log[..n], job);
    assert log == log[..n] + log[n..];
    KeptOfConcat(spec, log[..n], log[n..], job);
  }

  /** A conversion of allocations that can be converted leaves the log in shape. */
  lemma ConvertKeepsShape(spec: Spec, c: Core, log: Log, h: History, job: JobId)
    requires IsHistory(spec, log, h, c) && Settled(spec, c)
    requires StillAllocated(spec, c, log, job) && UndosBefore(spec, log, job)
    ensures Backward(Convert(spec, c, log, job).log) && Known(spec, Convert(spec, c, log, job).log)
  {
    hide HistoryStep, Recorded, PublicLog, Same, Settled, Convert, StillAllocated, UndosBefore, ConvertReady;
    ConvertReadyIff(spec, log, h, c, job);
    var h' := ConvertKeeps(spec, c, log, h, job);
    PublicIsBackward(Convert(spec, c, log, job).log);
  }

  lemma DiscardActsWell(spec: Spec, c: Core, log: Log, h: History) returns (h': History)
    requires IsHistory(spec, log, h, c) && Settled(spec, c) && Backward(log)
    ensures ActsWell(spec, c, log, h, DoDiscard, 0, Discard(spec, c, log), h')
  {
    hide HistoryStep, Recorded, PublicLog, Same, Settled, Flagged, Discard;
    DiscardReturns(spec, log, h, c);
    var r := Discard(spec, c, log);
    EmptyHistory(spec, r.core);
    StartSettled(spec, log, h, c);
    SettledSame(spec, r.core, At(h, c, 0));
    FlagNothing(At(h, c, 0));
    h' := [];
    assert r.log[..0] == log[..0];
  }

  lemma StartSettled(spec: Spec, log: Log, h: History, c: Core)
    requires IsHistory(spec, log, h, c) && Settled(spec, c)
    ensures Settled(spec, At(h, c, 0))
  {
    if log != [] { assert HistoryStep(spec, log, h, c, 0); }
  }

  lemma ActKeeps(spec: Spec, c: Core, log: Log, h: History, a: Action, floor: nat) returns (h': History)
    requires IsHistory(spec, log, h, c) && Settled(spec, c) && Backward(log) && floor <= |log|
    requires Permitted(spec, c, log, a, floor) && floor <= |Act(spec, c, log, a, floor).log|
    ensures ActsWell(spec, c, log, h, a, floor, Act(spec, c, log, a, floor), h')
  {
    hide HistoryStep, PublicLog, Settled, ActsWell, Perform, Convert, Discard;
    match a
    case Basic(call) => h' := BasicActsWell(spec, c, log, h, call, floor);
    case DoConvert(job) => h' := ConvertActsWell(spec, c, log, h, job, floor);
    case DoDiscard => h' := DiscardActsWell(spec, c, log, h);
  }

  // ---------------------------------------------------------------- runs

  lemma {:induction false} RunKeeps(spec: Spec, c: Core, log: Log, h: History, actions: seq<Action>, floor: nat)
    returns (h': History)
    requires IsHistory(spec, log, h, c) && Settled(spec, c) && Backward(log) && floor <= |log|
    requires Allowed(spec, c, log, actions, floor)
    ensures var r := Run(spec, c, log, actions, floor);
            && r.ok && IsHistory(spec, r.log, h', r.core) && Settled(spec, r.core)
            && floor <= |r.log| && r.log[..floor] == log[..floor]
            && FlaggedCheckpoint(h, c, h', r.core, floor, RunFlags(spec, c, log, actions, floor))
            && r.core.orphans == c.orphans + RunDrops(spec, c, log, actions, floor)
    decreases actions
  {
    hide HistoryStep, PublicLog, Settled, Act, Permitted, FlaggedCheckpoint, Flags, Drops;
    if actions == [] {
      h' := h;
      NoFlags(h, c, floor);
    } else {
      var r := Act(spec, c, log, actions[0], floor);
      var h1 := ActKeeps(spec, c, log, h, actions[0], floor);
      h' := RunKeeps(spec, r.core, r.log, h1, actions[1..], floor);
      var r' := Run(spec, r.core, r.log, actions[1..], floor);
      ComposeFlags(h, c, h1, r.core, h', r'.core, floor, Flags(spec, log, actions[0]),
                   RunFlags(spec, r.core, r.log, actions[1..], floor));
    }
  }

  lemma {:induction false} FlagsKnown(spec: Spec, c: Core, log: Log, actions: seq<Action>, floor: nat)
    requires WellFormed(spec, c) && Backward(log) && Known(spec, log) && floor <= |log|
    requires Allowed(spec, c, log, actions, floor)
    ensures RunFlags(spec, c, log, actions, floor) <= spec.tasks.Keys
    decreases actions
  {
    hide Permitted, Act;
    if actions != [] {
      var r := Act(spec, c, log, actions[0], floor);
      FlagsKnown(spec, r.core, r.log, actions[1..], floor);
      if actions[0].DoConvert? { AllocationsAre(spec, log, actions[0].job); }
    }
  }

  // ---------------------------------------------------------------- back to a checkpoint

  /** Take a checkpoint anywhere in a disciplined run, go on with any disciplined run that leaves the log
      up to it alone, and roll back: the log is as it was, and so is the session, except that the tasks
      in Lost are missing from their node and converted tasks keep the virtual flag. */
  lemma RollbackReturnsToCheckpoint(
      spec: Spec, start: Core, before: seq<Action>, after: seq<Action>)
    requires WellFormed(spec, start) && Settled(spec, start) && Allowed(spec, start, [], before, 0)
    requires var cp := Run(spec, start, [], before, 0);
             Allowed(spec, cp.core, cp.log, after, |cp.log|)
    ensures var cp := Run(spec, start, [], before, 0);
            var now := Run(spec, cp.core, cp.log, after, |cp.log|);
            var back := Rollback(spec, now.core, now.log, |cp.log|);
            var lost, flags := Lost(now.log, |cp.log|), RunFlags(spec, cp.core, cp.log, after, |cp.log|);
            && back.ok && back.log == cp.log && flags <= cp.core.tasks.Keys
            && back.core.orphans == cp.core.orphans + RunDrops(spec, cp.core, cp.log, after, |cp.log|)
            && Same(back.core, Flagged(cp.core, flags), lost)
            && (Same(back.core, cp.core, {}) <==> lost == {} && forall t <- flags :: cp.core.tasks[t].virtual)
  {
    hide HistoryStep, Recorded, PublicLog, Same, Settled, Rollback, Flagged, Allowed, Run;
    EmptyHistory(spec, start);
    var cp := Run(spec, start, [], before, 0);
    var n := |cp.log|;
    var h := RunKeeps(spec, start, [], [], before, 0);
    var now := Run(spec, cp.core, cp.log, after, n);
    var h' := RunKeeps(spec, cp.core, cp.log, h, after, n);
    var flags, lost := RunFlags(spec, cp.core, cp.log, after, n), Lost(now.log, n);
    FlagsKnown(spec, cp.core, cp.log, after, n);
    RollbackRestores(spec, now.log, h', now.core, n);
    var back := Rollback(spec, now.core, now.log, n);
    SameCompose(back.core, At(h', now.core, n), Flagged(cp.core, flags), lost);
    forall t | t in lost ensures t in cp.core.tasks { LostIsKnown(spec, now.log, n, t); }
    SameButLostIff(back.core, cp.core, flags, lost);
  }

  /** A state that is like a checkpoint up to flags and lost copies is like it if and only if nothing is
      lost and every flag was set already. */
  lemma SameButLostIff(a: Core, c: Core, flags: set<TaskId>, lost: set<TaskId>)
    requires Same(a, Flagged(c, flags), lost) && flags <= c.tasks.Keys && lost <= c.tasks.Keys
    ensures Same(a, c, {}) <==> lost == {} && forall t <- flags :: c.tasks[t].virtual
  {
    var f := Flagged(c, flags);
    if lost != {} {
      var t :| t in lost;
      var slot := Slot(c.tasks[t].node, t);
      assert f.tasks[t].node == c.tasks[t].node && SameSlot(a, f, lost, slot);
      assert !SameSlot(a, c, {}, slot);
    } else if forall t <- flags :: c.tasks[t].virtual {
      assert f == c;
    } else {
      var t :| t in flags && !c.tasks[t].virtual;
      assert SameRecord(a.tasks[t], f.tasks[t]) && !SameRecord(a.tasks[t], c.tasks[t]);
    }
  }

  lemma LostIsKnown(spec: Spec, log: Log, i: nat, t: TaskId)
    requires Known(spec, log) && i <= |log| && t in Lost(log, i)
    ensures t in spec.tasks
  {
    LostIff(log, i, t);
  }

  /** After any disciplined run, Discard puts every task and every node's task map back, also when
      evicted tasks were pipelined onto the node they were on; only converted tasks keep the flag. */
  lemma DiscardRestores(spec: Spec, start: Core, actions: seq<Action>)
    requires WellFormed(spec, start) && Settled(spec, start) && Allowed(spec, start, [], actions, 0)
    ensures var now := Run(spec, start, [], actions, 0);
            var r := Discard(spec, now.core, now.log);
            var flags := RunFlags(spec, start, [], actions, 0);
            && r.log == [] && flags <= start.tasks.Keys
            && r.core.orphans == start.orphans + RunDrops(spec, start, [], actions, 0)
            && Same(r.core, Flagged(start, flags), {})
            && (Same(r.core, start, {}) <==> forall t <- flags :: start.tasks[t].virtual)
  {
    hide HistoryStep, Recorded, PublicLog, Same, Settled, Flagged, Allowed, Run, Discard;
    EmptyHistory(spec, start);
    var now := Run(spec, start, [], actions, 0);
    var h := RunKeeps(spec, start, [], [], actions, 0);
    var flags := RunFlags(spec, start, [], actions, 0);
    FlagsKnown(spec, start, [], actions, 0);
    DiscardReturns(spec, now.log, h, now.core);
    var r := Discard(spec, now.core, now.log);
    SameCompose(r.core, At(h, now.core, 0), Flagged(start, flags), {});
    SameButLostIff(r.core, start, flags, {});
  }
}
