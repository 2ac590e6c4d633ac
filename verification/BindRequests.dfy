/** The life of BindRequest objects: the scheduler creates, replaces and deletes them, and any number
    of reconciles read one, work on it and then try to record their outcome. */
module BindRequests {
  import opened Options
  import opened BinderApi

  /** `version` is the resource version; the API server never hands one out twice. */
  datatype Stored = Stored(uid: nat, version: nat, request: Request)

  /** `reading` maps a reconcile in flight to the name and the object it read. */
  datatype Store = Store(objects: map<RequestKey, Stored>, next: nat, reading: map<nat, (RequestKey, Stored)>)

  /** What UpdateStatus makes of the request it holds. */
  function Concluded(r: Request, failed: bool): Request {
    if failed then r.(phase := RequestFailed, attempts := if RetriesLeft(r) then r.attempts + 1 else r.attempts)
    else r.(phase := RequestSucceeded)
  }

  /** The status patch carries the version that was read, and is only sent when the phase changes. */
  predicate Lands(s: Store, id: nat, failed: bool)
    requires id in s.reading
  {
    var (k, read) := s.reading[id];
    && Concluded(read.request, failed).phase != read.request.phase
    && k in s.objects && s.objects[k].version == read.version
  }

  datatype Step =
    | Created(key: RequestKey, request: Request)
    | Touched(key: RequestKey)
    | MarkedDeleted(key: RequestKey)
    | Removed(key: RequestKey)
    | Begins(id: nat, key: RequestKey)
    | Ends(id: nat, failed: bool, answered: bool)

  /** A new request has no status; the reconcile stops at once unless the request is actionable. */
  predicate Enabled(s: Store, step: Step) {
    match step
    case Created(k, r) => k !in s.objects && r.phase.RequestPending? && r.attempts == 0 && !r.deleting
    case Touched(k) => k in s.objects
    case MarkedDeleted(k) => k in s.objects
    case Removed(k) => k in s.objects
    case Begins(id, k) => id !in s.reading && k in s.objects && Actionable(s.objects[k].request)
    case Ends(id, _, _) => id in s.reading
  }

  function Perform(s: Store, step: Step): Store
    requires Enabled(s, step)
  {
    match step
    case Created(k, r) => s.(objects := s.objects[k := Stored(s.next, s.next, r)], next := s.next + 1)
    case Touched(k) => s.(objects := s.objects[k := s.objects[k].(version := s.next)], next := s.next + 1)
    case MarkedDeleted(k) =>
      var o := s.objects[k];
      s.(objects := s.objects[k := o.(version := s.next, request := o.request.(deleting := true))], next := s.next + 1)
    case Removed(k) => s.(objects := s.objects - {k})
    case Begins(id, k) => s.(reading := s.reading[id := (k, s.objects[k])])
    case Ends(id, failed, answered) =>
      var (k, read) := s.reading[id];
      if answered && Lands(s, id, failed) then
        Store(s.objects[k := read.(version := s.next, request := Concluded(read.request, failed))],
              s.next + 1, s.reading - {id})
      else s.(reading := s.reading - {id})
  }

  ghost predicate Run(ss: seq<Store>, steps: seq<Step>) {
    && |ss| == |steps| + 1
    && forall i :: 0 <= i < |steps| ==> Enabled(ss[i], steps[i]) && ss[i + 1] == Perform(ss[i], steps[i])
  }

  const EMPTY := Store(map[], 0, map[])

  // ---------------------------------------------------------------- what every run keeps

  /** The failures that are on record: at most one, however often the binding failed. */
  ghost predicate Counted(r: Request) {
    match r.phase
    case RequestPending => r.attempts == 0
    case RequestFailed => r.attempts == if r.limit.Some? && r.limit.value > 0 then 1 else 0
    case RequestSucceeded =>
      r.attempts == 0 || (r.attempts == 1 && r.limit.Some? && r.limit.value > 0)
  }

  ghost predicate Dated(s: Store) {
    forall k <- s.objects.Keys :: s.objects[k].version < s.next && s.objects[k].uid < s.next
  }

  /** An object in the store that still has the version a reconcile read is the object it read. */
  ghost predicate ReadsFit(s: Store) {
    forall id <- s.reading.Keys ::
      var (k, read) := s.reading[id];
      && read.version < s.next && Actionable(read.request) && Counted(read.request)
      && forall h <- s.objects.Keys :: s.objects[h].version == read.version ==> h == k && s.objects[h] == read
  }

  ghost predicate DistinctVersions(s: Store) {
    forall k <- s.objects.Keys, h <- s.objects.Keys :: s.objects[k].version == s.objects[h].version ==> k == h
  }

  ghost predicate Sound(s: Store) {
    && Dated(s) && DistinctVersions(s) && ReadsFit(s)
    && forall k <- s.objects.Keys :: Counted(s.objects[k].request)
  }

  lemma WriteKeepsSound(s: Store, k: RequestKey, o: Stored)
    requires Sound(s) && o.version == s.next && o.uid <= s.next && Counted(o.request)
    ensures Sound(s.(objects := s.objects[k := o], next := s.next + 1))
  {
    hide Counted, Actionable;
  }

  lemma ForgetKeepsSound(s: Store, id: nat)
    requires Sound(s)
    ensures Sound(s.(reading := s.reading - {id}))
  {
    hide Counted, Actionable;
  }

  lemma RestKeepsSound(s: Store, step: Step)
    requires Sound(s) && Enabled(s, step) && (step.Removed? || step.Begins?)
    ensures Sound(Perform(s, step))
  {
    hide Counted, Actionable;
  }

  /** A failure is counted only when it ends the pending phase. */
  lemma ConcludedIsCounted(r: Request, failed: bool)
    requires Counted(r) && Actionable(r) && Concluded(r, failed).phase != r.phase
    ensures Counted(Concluded(r, failed))
  {
  }

  lemma StepKeepsSound(s: Store, step: Step)
    requires Sound(s) && Enabled(s, step)
    ensures Sound(Perform(s, step))
  {
    hide Sound;
    match step
    case Created(k, r) => WriteKeepsSound(s, k, Stored(s.next, s.next, r));
    case Touched(k) => Written(s, k); WriteKeepsSound(s, k, s.objects[k].(version := s.next));
    case MarkedDeleted(k) =>
      Written(s, k);
      WriteKeepsSound(s, k, s.objects[k].(version := s.next, request := s.objects[k].request.(deleting := true)));
    case Removed(k) => RestKeepsSound(s, step);
    case Begins(_, _) => RestKeepsSound(s, step);
    case Ends(id, failed, answered) =>
      var (k, read) := s.reading[id];
      if answered && Lands(s, id, failed) {
        ReadFits(s, id);
        Written(s, k);
        ConcludedIsCounted(read.request, failed);
        WriteKeepsSound(s, k, read.(version := s.next, request := Concluded(read.request, failed)));
        ForgetKeepsSound(Store(s.objects[k := read.(version := s.next, request := Concluded(read.request, failed))],
                               s.next + 1, s.reading), id);
      } else {
        ForgetKeepsSound(s, id);
      }
  }

  lemma Written(s: Store, k: RequestKey)
    requires Sound(s) && k in s.objects
    ensures s.objects[k].uid < s.next && Counted(s.objects[k].request)
  {
  }

  lemma ReadFits(s: Store, id: nat)
    requires Sound(s) && id in s.reading
    ensures var (k, read) := s.reading[id];
            && Actionable(read.request) && Counted(read.request)
            && (k in s.objects && s.objects[k].version == read.version ==> s.objects[k] == read)
  {
  }

  lemma {:induction false} RunKeepsSound(ss: seq<Store>, steps: seq<Step>, i: nat, j: nat)
    requires Run(ss, steps) && i <= j < |ss| && Sound(ss[i])
    ensures Sound(ss[j])
    decreases j
  {
    hide Sound, Perform, Enabled;
    if i < j {
      RunKeepsSound(ss, steps, i, j - 1);
      StepKeepsSound(ss[j - 1], steps[j - 1]);
    }
  }

  /** In every run the persisted counter stays within the backoff limit, and never passes one. */
  lemma AttemptsWithinLimit(ss: seq<Store>, steps: seq<Step>, i: nat, k: RequestKey)
    requires Run(ss, steps) && ss[0] == EMPTY && i < |ss| && k in ss[i].objects
    ensures var r := ss[i].objects[k].request;
            && 0 <= r.attempts <= 1
            && (r.limit.Some? && r.limit.value >= 0 ==> r.attempts <= r.limit.value)
  {
    RunKeepsSound(ss, steps, 0, i);
  }

  /** A failed request is still worked on exactly if its limit is at least two: a limit of two or more
      never runs out. */
  lemma FailedIsRetriedIff(ss: seq<Store>, steps: seq<Step>, i: nat, k: RequestKey)
    requires Run(ss, steps) && ss[0] == EMPTY && i < |ss| && k in ss[i].objects
    requires ss[i].objects[k].request.phase.RequestFailed?
    ensures var r := ss[i].objects[k].request;
            Actionable(r) <==> !r.deleting && r.limit.Some? && r.limit.value >= 2
  {
    RunKeepsSound(ss, steps, 0, i);
  }

  /** What keeps failing: the request is created, and reconcile after reconcile reads it and fails. */
  function FailingSteps(k: RequestKey, r: Request, times: nat): (steps: seq<Step>)
    ensures |steps| == 2 * times + 1
  {
    if times == 0 then [Created(k, r)] else FailingSteps(k, r, times - 1) + [Begins(0, k), Ends(0, true, true)]
  }

  lemma RunGrows(ss: seq<Store>, steps: seq<Step>, step: Step)
    requires Run(ss, steps) && Enabled(ss[|steps|], step)
    ensures Run(ss + [Perform(ss[|steps|], step)], steps + [step])
  {
    hide Enabled, Perform;
  }

  /** One more failure of a request that is read as it is. */
  lemma FailsOnceMore(s: Store, k: RequestKey)
    requires k in s.objects && s.reading == map[] && Actionable(s.objects[k].request)
    requires var r := s.objects[k].request; r.limit.Some? && r.limit.value >= 2 && Counted(r)
    ensures Enabled(s, Begins(0, k)) && Enabled(Perform(s, Begins(0, k)), Ends(0, true, true))
    ensures var s' := Perform(Perform(s, Begins(0, k)), Ends(0, true, true));
            && k in s'.objects && s'.reading == map[]
            && s'.objects[k].request == s.objects[k].request.(phase := RequestFailed, attempts := 1)
  {
    assert Perform(s, Begins(0, k)).reading - {0} == map[];
  }

  /** A limit of two or more never runs out: the request can fail any number of times, one failure is on
      record and the binder still works on it. */
  lemma {:induction false} FailsForEver(k: RequestKey, r: Request, times: nat) returns (ss: seq<Store>)
    requires Enabled(EMPTY, Created(k, r)) && r.limit.Some? && r.limit.value >= 2
    ensures Run(ss, FailingSteps(k, r, times)) && ss[0] == EMPTY
    ensures var s := ss[2 * times + 1];
            && k in s.objects && s.reading == map[] && Actionable(s.objects[k].request)
            && s.objects[k].request == if times == 0 then r else r.(phase := RequestFailed, attempts := 1)
  {
    hide Run, Perform;
    if times == 0 {
      ss := FirstRequest(k, r);
    } else {
      var before := FailsForEver(k, r, times - 1);
      var steps := FailingSteps(k, r, times - 1);
      assert |before| == |steps| + 1 by { RunSize(before, steps); }
      var s := before[|steps|];
      FailsOnceMore(s, k);
      var s1 := Perform(s, Begins(0, k));
      RunGrows(before, steps, Begins(0, k));
      RunGrows(before + [s1], steps + [Begins(0, k)], Ends(0, true, true));
      ss := before + [s1] + [Perform(s1, Ends(0, true, true))];
      assert steps + [Begins(0, k)] + [Ends(0, true, true)] == FailingSteps(k, r, times);
    }
  }

  lemma FirstRequest(k: RequestKey, r: Request) returns (ss: seq<Store>)
    requires Enabled(EMPTY, Created(k, r))
    ensures Run(ss, [Created(k, r)]) && |ss| == 2 && ss[0] == EMPTY
    ensures k in ss[1].objects && ss[1].reading == map[] && ss[1].objects[k].request == r
  {
    ss := [EMPTY, Perform(EMPTY, Created(k, r))];
  }

  lemma RunSize(ss: seq<Store>, steps: seq<Step>)
    requires Run(ss, steps)
    ensures |ss| == |steps| + 1
  {
  }

  /** An outcome is recorded only on the very object that the reconcile read, as it was read. */
  lemma OutcomeLandsOnWhatWasRead(ss: seq<Store>, steps: seq<Step>, i: nat)
    requires Run(ss, steps) && ss[0] == EMPTY && i < |steps| && steps[i].Ends?
    ensures var (k, read) := ss[i].reading[steps[i].id];
            ss[i + 1].objects != ss[i].objects ==>
              && k in ss[i].objects && ss[i].objects[k] == read
              && ss[i + 1].objects - {k} == ss[i].objects - {k}
              && k in ss[i + 1].objects && ss[i + 1].objects[k].uid == read.uid
  {
    RunKeepsSound(ss, steps, 0, i);
  }

  // ---------------------------------------------------------------- one object over time

  function Rank(p: RequestPhase): nat {
    match p
    case RequestPending => 0
    case RequestFailed => 1
    case RequestSucceeded => 2
  }

  /** What may have changed about an object: its status moved forwards, or it is being deleted. */
  ghost predicate Later(a: Stored, b: Stored) {
    && a.uid == b.uid && a.request.limit == b.request.limit && a.request.pod == b.request.pod
    && a.request.groups == b.request.groups
    && Rank(a.request.phase) <= Rank(b.request.phase) && a.request.attempts <= b.request.attempts
    && (a.request.phase.RequestSucceeded? ==> b.request.attempts == a.request.attempts)
    && (a.request.deleting ==> b.request.deleting)
  }

  lemma StepIsLater(s: Store, step: Step, k: RequestKey)
    requires Sound(s) && Enabled(s, step) && k in s.objects
    ensures var s' := Perform(s, step);
            && s.objects[k].uid < s'.next
            && (k in s'.objects ==> Later(s.objects[k], s'.objects[k]))
  {
    Written(s, k);
    if step.Ends? { ReadFits(s, step.id); }
  }

  /** Object identities only grow, so an object that has been replaced does not come back. */
  ghost predicate NotBack(s: Store, uid: nat, k: RequestKey) {
    uid < s.next && (k in s.objects ==> s.objects[k].uid > uid)
  }

  lemma NotBackStep(s: Store, step: Step, uid: nat, k: RequestKey)
    requires Sound(s) && Enabled(s, step) && NotBack(s, uid, k)
    ensures NotBack(Perform(s, step), uid, k)
  {
    if step.Ends? { ReadFits(s, step.id); }
  }

  /** An object that is no longer there has been replaced by a newer one, or by none. */
  lemma {:induction false} GoneForGood(ss: seq<Store>, steps: seq<Step>, i: nat, j: nat, k: RequestKey)
    requires Run(ss, steps) && i <= j < |ss| && Sound(ss[i]) && k in ss[i].objects
    requires !(k in ss[j].objects && ss[j].objects[k].uid == ss[i].objects[k].uid)
    ensures NotBack(ss[j], ss[i].objects[k].uid, k)
    decreases j
  {
    hide Sound, Perform, Enabled;
    var uid := ss[i].objects[k].uid;
    if i < j {
      RunKeepsSound(ss, steps, i, j - 1);
      if k in ss[j - 1].objects && ss[j - 1].objects[k].uid == uid {
        StepIsLater(ss[j - 1], steps[j - 1], k);
      } else {
        GoneForGood(ss, steps, i, j - 1, k);
        NotBackStep(ss[j - 1], steps[j - 1], uid, k);
      }
    }
  }

  /** Over every run, as long as an object exists its status only moves forwards: Succeeded stays
      Succeeded, a failure is not forgotten, and the counter does not fall. */
  lemma {:induction false} StatusMovesForwards(ss: seq<Store>, steps: seq<Step>, i: nat, j: nat, k: RequestKey)
    requires Run(ss, steps) && i <= j < |ss| && Sound(ss[i])
    requires k in ss[i].objects && k in ss[j].objects && ss[i].objects[k].uid == ss[j].objects[k].uid
    ensures Later(ss[i].objects[k], ss[j].objects[k])
    decreases j
  {
    hide Sound, Perform, Enabled;
    if i < j {
      RunKeepsSound(ss, steps, i, j - 1);
      var uid := ss[i].objects[k].uid;
      if k in ss[j - 1].objects && ss[j - 1].objects[k].uid == uid {
        StatusMovesForwards(ss, steps, i, j - 1, k);
        StepIsLater(ss[j - 1], steps[j - 1], k);
      } else {
        GoneForGood(ss, steps, i, j - 1, k);
        NotBackStep(ss[j - 1], steps[j - 1], uid, k);
      }
    }
  }

  // ---------------------------------------------------------------- the reconciler

  /** Seconds until the next try: one shifted left by the failures on record. */
  function Delay(attempts: nat): nat {
    if attempts == 0 then 1 else 2 * Delay(attempts - 1)
  }

  /** The delay doubles with the recorded failures, but as at most one is recorded it never passes two
      seconds. */
  lemma DelayStaysShort(ss: seq<Store>, steps: seq<Step>, i: nat, id: nat)
    requires Run(ss, steps) && ss[0] == EMPTY && i < |ss| && id in ss[i].reading
    ensures var r := ss[i].reading[id].1.request;
            r.attempts >= 0 && 1 <= Delay(r.attempts) <= 2
  {
    RunKeepsSound(ss, steps, 0, i);
    ReadFits(ss[i], id);
    assert Delay(0) == 1 && Delay(1) == 2;
  }

  /** `s'` is `s` after its only reconcile has ended. */
  ghost predicate Recorded(s: Store, failed: bool, answered: bool, s': Store) {
    0 in s.reading && s' == Perform(s, Ends(0, failed, answered))
  }

  class Reconciler {
    var objects: map<RequestKey, Stored>
    var next: nat

    /** UpdateStatus for a reconcile that read `read` under the name `k`. The API server may also refuse
        the patch for reasons of its own. The first result is the delay before another try. */
    method UpdateStatus(k: RequestKey, read: Stored, failed: bool) returns (after: Option<nat>, terminal: bool)
      requires read.request.attempts >= 0
      modifies this
      ensures exists answered :: Recorded(Store(old(objects), old(next), map[0 := (k, read)]), failed, answered,
                                          Store(objects, next, map[]))
      ensures after == if failed && RetriesLeft(read.request) then Some(Delay(read.request.attempts)) else None
      ensures terminal ==> failed && !RetriesLeft(read.request)
    {
      after, terminal := None, false;
      ghost var before := Store(objects, next, map[0 := (k, read)]);
      assert map[0 := (k, read)] - {0} == map[];
      var updated := read.request;
      if failed {
        if updated.limit.Some? && updated.limit.value > updated.attempts {
          after := Some(Delay(updated.attempts));
          updated := updated.(attempts := updated.attempts + 1);
        }
        updated := updated.(phase := RequestFailed);
      } else {
        updated := updated.(phase := RequestSucceeded);
      }
      assert updated == Concluded(read.request, failed);
      if updated.phase == read.request.phase {
        assert Recorded(before, failed, false, Store(objects, next, map[]));
        return;
      }
      var refused: bool := *;
      if k !in objects || objects[k].version != read.version {
        assert Recorded(before, failed, false, Store(objects, next, map[]));
        return;
      }
      if refused {
        assert Recorded(before, failed, false, Store(objects, next, map[]));
      } else {
        objects := objects[k := read.(version := next, request := updated)];
        next := next + 1;
        assert Recorded(before, failed, true, Store(objects, next, map[]));
      }
      terminal := failed && after.None?;
    }
  }
}
