/** When a rollback or a discard also restores the resource vectors of nodes and jobs. */
module StatementBooks {
  import opened Cluster
  import opened StatementSpec
  import opened StatementHistory
  import opened StatementCalls
  import opened StatementConvertLaws
  import opened StatementRuns
  import opened Accounting

  /** Flags weigh nothing. */
  lemma FlaggedBalanced(spec: Spec, c: Core, b: Books, flags: set<TaskId>)
    requires Balanced(spec, c, b)
    ensures Balanced(spec, Flagged(c, flags), b) && Flagged(c, flags).orphans == c.orphans
  {
    var f := Flagged(c, flags);
    forall n | n in spec.nodes ensures NodeBalanced(spec, f, n, b.nodes[n]) {
      assert NodeBalanced(spec, c, n, b.nodes[n]);
      forall i: nat | i < spec.dims ensures NodeBalancedAt(spec, f, n, b.nodes[n], i) {
        assert NodeBalancedAt(spec, c, n, b.nodes[n], i);
      }
    }
    forall j | j in spec.jobs ensures JobBalanced(spec, f, j, b.jobs[j]) {
      assert JobBalanced(spec, c, j, b.jobs[j]);
      forall i | 0 <= i < spec.dims ensures b.jobs[j][i] == JobTotal(spec, j, i, f.tasks) {
        JobTotalSame(spec, j, i, c.tasks, f.tasks);
      }
    }
  }

  /** Every GPU move of the run is of a task that the node is charged nothing for. */
  ghost predicate MovesWeighNothing(spec: Spec, c: Core, log: Log, actions: seq<Action>, floor: nat)
    requires WellSized(spec) && WellFormed(spec, c) && Backward(log) && Known(spec, log) && floor <= |log|
    requires Allowed(spec, c, log, actions, floor)
    decreases actions
  {
    actions == [] ||
    (&& (forall o <- Drops(spec, c, actions[0]) :: Weightless(spec, o.0))
     && var r := Act(spec, c, log, actions[0], floor);
        MovesWeighNothing(spec, r.core, r.log, actions[1..], floor))
  }

  /** No call of the run moves a task to other GPUs of its node. */
  ghost predicate NoGpuMove(spec: Spec, c: Core, log: Log, actions: seq<Action>, floor: nat)
    requires WellFormed(spec, c) && Backward(log) && Known(spec, log) && floor <= |log|
    requires Allowed(spec, c, log, actions, floor)
    decreases actions
  {
    actions == [] ||
    (&& !(actions[0].Basic? && MovesGpu(spec, c, actions[0].call))
     && var r := Act(spec, c, log, actions[0], floor);
        NoGpuMove(spec, r.core, r.log, actions[1..], floor))
  }

  lemma {:induction false} MovesAreDrops(spec: Spec, c: Core, log: Log, actions: seq<Action>, floor: nat)
    requires WellSized(spec) && WellFormed(spec, c) && Backward(log) && Known(spec, log) && floor <= |log|
    requires Allowed(spec, c, log, actions, floor)
    ensures OrphansKnown(spec, RunDrops(spec, c, log, actions, floor))
    ensures var more := RunDrops(spec, c, log, actions, floor);
            && (MovesWeighNothing(spec, c, log, actions, floor) <==>
                  forall k :: 0 <= k < |more| ==> Weightless(spec, more[k].0))
            && (NoGpuMove(spec, c, log, actions, floor) <==> more == [])
    decreases actions
  {
    hide Permitted, Act, Weightless, Drops, MovesGpu, WellSized;
    if actions != [] {
      var r := Act(spec, c, log, actions[0], floor);
      var first, rest := Drops(spec, c, actions[0]), RunDrops(spec, r.core, r.log, actions[1..], floor);
      MovesAreDrops(spec, r.core, r.log, actions[1..], floor);
      DropsKnown(spec, c, actions[0]);
      WeightlessConcat(spec, first, rest);
    }
  }

  lemma WeightlessConcat(spec: Spec, a: seq<(Slot, Copy)>, b: seq<(Slot, Copy)>)
    requires WellSized(spec) && OrphansKnown(spec, a) && OrphansKnown(spec, b)
    ensures OrphansKnown(spec, a + b)
    ensures (forall k :: 0 <= k < |a + b| ==> Weightless(spec, (a + b)[k].0)) <==>
            && (forall o <- a :: Weightless(spec, o.0)) && (forall k :: 0 <= k < |b| ==> Weightless(spec, b[k].0))
  {
    hide Weightless;
    assert forall k :: 0 <= k < |a| ==> (a + b)[k] == a[k] && a[k] in a;
    assert forall k :: 0 <= k < |b| ==> (a + b)[|a| + k] == b[k];
  }

  lemma DropsKnown(spec: Spec, c: Core, a: Action)
    requires WellFormed(spec, c)
    ensures OrphansKnown(spec, Drops(spec, c, a))
    ensures Drops(spec, c, a) == [] <==> !(a.Basic? && MovesGpu(spec, c, a.call))
  {
  }

  /** Books of a session before, and of one that is like it but for flags, dropped and lost copies. */
  lemma BooksComeBackIff(spec: Spec, c: Core, b: Books, c': Core, b': Books, flags: set<TaskId>, lost: set<TaskId>,
                         c0: Core, log: Log, actions: seq<Action>, floor: nat)
    requires Balanced(spec, c, b) && Balanced(spec, c', b') && Same(c', Flagged(c, flags), lost)
    requires WellFormed(spec, c0) && Backward(log) && Known(spec, log) && floor <= |log|
    requires Allowed(spec, c0, log, actions, floor)
    requires c'.orphans == c.orphans + RunDrops(spec, c0, log, actions, floor)
    ensures OrphansKnown(spec, RunDrops(spec, c0, log, actions, floor)) && PodsKnown(spec, LostCopies(c, lost))
    ensures ComeBackIff(spec, b, b', c0, log, actions, floor, LostCopies(c, lost))
  {
    hide Same, SumToNothing, Weightless, Allowed, RunDrops, Carries, NoGpuMove, MovesWeighNothing, NonNegative, Flagged,
      Known, OrphansKnown, NodeBalanced, JobBalanced, WellFormed, LostCopies, Cancel;
    var more := RunDrops(spec, c0, log, actions, floor);
    FlaggedBalanced(spec, c, b, flags);
    DroppedBooks(spec, Flagged(c, flags), b, c', b', more, lost);
    FlaggedLost(c, flags, lost);
    CancelNothing(spec, more);
    MovesAreDrops(spec, c0, log, actions, floor);
    SumToNothingIff(spec, more);
  }

  lemma FlaggedLost(c: Core, flags: set<TaskId>, lost: set<TaskId>)
    ensures LostCopies(Flagged(c, flags), lost) == LostCopies(c, lost)
  {
  }

  /** The job totals are those of before. The nodes carry the charges of the copies that the run dropped on
      top, and no longer those of the copies that are gone, so that the books are those of before if and only
      if these cancel. If none is gone, they do if and only if the dropped ones sum to nothing: if every GPU move
      weighs nothing, in particular if there is none, and if no request is negative only then. */
  ghost predicate ComeBackIff(spec: Spec, b: Books, b': Books, c: Core, log: Log, actions: seq<Action>, floor: nat,
                              gone: map<Slot, Copy>)
    requires WellSized(spec) && WellFormed(spec, c) && Backward(log) && Known(spec, log) && floor <= |log|
    requires Allowed(spec, c, log, actions, floor) && OrphansKnown(spec, RunDrops(spec, c, log, actions, floor))
    requires PodsKnown(spec, gone)
  {
    var more := RunDrops(spec, c, log, actions, floor);
    && b'.jobs == b.jobs && b'.nodes.Keys == b.nodes.Keys == spec.nodes.Keys
    && (forall n, i: nat :: n in spec.nodes && i < spec.dims ==>
          Carries(spec, b.nodes[n], b'.nodes[n], more, gone, n, i))
    && (b' == b <==> Cancel(spec, more, gone))
    && (gone == map[] ==>
          && (b' == b <==> SumToNothing(spec, more))
          && (NoGpuMove(spec, c, log, actions, floor) ==> b' == b)
          && (MovesWeighNothing(spec, c, log, actions, floor) ==> b' == b)
          && (NonNegative(spec) ==> (b' == b <==> MovesWeighNothing(spec, c, log, actions, floor))))
  }

  /** What a rollback makes of the idle, used and releasing vectors of every node and the allocated total of
      every job. If it loses no task it restores them if and only if the GPU moves since the checkpoint weigh
      nothing. */
  lemma RollbackRestoresBooks(
      spec: Spec, start: Core, before: seq<Action>, after: seq<Action>, b: Books, b': Books)
    requires WellFormed(spec, start) && Settled(spec, start) && Allowed(spec, start, [], before, 0)
    requires var cp := Run(spec, start, [], before, 0);
             && Balanced(spec, cp.core, b) && Allowed(spec, cp.core, cp.log, after, |cp.log|)
             && var now := Run(spec, cp.core, cp.log, after, |cp.log|);
                Balanced(spec, Rollback(spec, now.core, now.log, |cp.log|).core, b')
    ensures var cp := Run(spec, start, [], before, 0);
            var now := Run(spec, cp.core, cp.log, after, |cp.log|);
            var lost := Lost(now.log, |cp.log|);
            && OrphansKnown(spec, RunDrops(spec, cp.core, cp.log, after, |cp.log|))
            && PodsKnown(spec, LostCopies(cp.core, lost)) && (lost == {} ==> LostCopies(cp.core, lost) == map[])
            && ComeBackIff(spec, b, b', cp.core, cp.log, after, |cp.log|, LostCopies(cp.core, lost))
  {
    hide Settled, Allowed, Run, Rollback, Balanced, Same, ComeBackIff, Lost, OrphansKnown;
    RollbackReturnsToCheckpoint(spec, start, before, after);
    var cp := Run(spec, start, [], before, 0);
    var now := Run(spec, cp.core, cp.log, after, |cp.log|);
    var back := Rollback(spec, now.core, now.log, |cp.log|);
    BooksComeBackIff(spec, cp.core, b, back.core, b', RunFlags(spec, cp.core, cp.log, after, |cp.log|),
                     Lost(now.log, |cp.log|), cp.core, cp.log, after, |cp.log|);
  }

  /** Discard restores all vectors if and only if the GPU moves of the run weigh nothing. */
  lemma DiscardRestoresBooks(spec: Spec, start: Core, actions: seq<Action>, b: Books, b': Books)
    requires WellFormed(spec, start) && Settled(spec, start) && Allowed(spec, start, [], actions, 0)
    requires Balanced(spec, start, b)
    requires var now := Run(spec, start, [], actions, 0); Balanced(spec, Discard(spec, now.core, now.log).core, b')
    ensures OrphansKnown(spec, RunDrops(spec, start, [], actions, 0))
    ensures ComeBackIff(spec, b, b', start, [], actions, 0, map[])
  {
    hide Settled, Allowed, Run, Discard, Balanced, Same, ComeBackIff;
    DiscardRestores(spec, start, actions);
    var now := Run(spec, start, [], actions, 0);
    var r := Discard(spec, now.core, now.log);
    BooksComeBackIff(spec, start, b, r.core, b', RunFlags(spec, start, [], actions, 0), {}, start, [], actions, 0);
    assert LostCopies(start, {}) == map[];
  }
}
