/** The step-by-step sync of the protocol, run without interruption, has the effect of the sync of
    the reservation service. */
module SyncRefinement {
  import opened BinderApi
  import opened Reservation
  import opened BindProtocol

  ghost predicate NoneProtecting(o: Objects, g: Group, toCheck: set<PodKey>) {
    && !ProtectedByOpenRequest(o, g)
    && forall p <- PodsOfSucceeded(o, g) - toCheck :: !Unfinished(o.pods, p)
  }

  /** How far the sync of `g`, begun in `o`, has got. */
  ghost predicate OnTheWay(o: Objects, s: State, g: Group) {
    if g !in s.busy then SyncOf(o, s.objects, g)
    else
      match s.busy[g]
      case ListingSingle => s.objects == o
      case ListingMulti(reserved, live, running) =>
        && s.objects == o && live == SinglyLive(o, g) && running == RunningOf(o, live)
        && (reserved.None? ==> !IsReserved(o, g))
        && (reserved.Some? ==> Reserved(reserved.value, g) in o.reservations)
      case EvictingPods(running) =>
        && !IsReserved(o, g) && running <= RunningPods(o, g)
        && s.objects == WithoutPods(o, RunningPods(o, g) - running)
      case ListingRequests(n) =>
        s.objects == o && Reserved(n, g) in o.reservations && !HasLivePodIn(o, g)
      case CheckingPods(n, toCheck) =>
        && s.objects == o && Reserved(n, g) in o.reservations && !HasLivePodIn(o, g)
        && toCheck <= PodsOfSucceeded(o, g) && NoneProtecting(o, g, toCheck)
      case Dropping(n) =>
        && s.objects == o && Reserved(n, g) in o.reservations && !HasLivePodIn(o, g) && !Protected(o, g)
      case _ => false
  }

  lemma ListsAreComplete(o: Objects, g: Group)
    ensures SinglyLive(o, g) + MultiplyLive(o, g) == {} <==> !HasLivePodIn(o, g)
    ensures RunningOf(o, SinglyLive(o, g)) + RunningOf(o, MultiplyLive(o, g)) == RunningPods(o, g)
  {
    if HasLivePodIn(o, g) {
      var p :| p in o.pods && Live(o.pods[p]) && Labelled(o.pods[p], g);
      assert p in SinglyLive(o, g) + MultiplyLive(o, g);
    }
    if p :| p in SinglyLive(o, g) + MultiplyLive(o, g) {
      assert p in o.pods;
    }
  }

  lemma UnprotectedIff(o: Objects, g: Group)
    ensures !Protected(o, g) <==> NoneProtecting(o, g, {})
  {
    assert forall k :: k in o.requests && o.requests[k].phase.RequestSucceeded? && g in o.requests[k].groups ==>
        o.requests[k].pod in PodsOfSucceeded(o, g) - {};
    if !Protected(o, g) {
      forall p | p in PodsOfSucceeded(o, g) ensures !Unfinished(o.pods, p) {
        var k :| k in o.requests && o.requests[k].phase.RequestSucceeded?
                 && g in o.requests[k].groups && o.requests[k].pod == p;
        assert !Protecting(o.pods, o.requests[k], g);
      }
    }
  }

  lemma SyncStep(o: Objects, s: State, step: Step, g: Group)
    requires OnTheWay(o, s, g) && g in s.busy && Enabled(s, step) && StepOf(step, g) && !step.Fails?
    ensures OnTheWay(o, Perform(s, step), g)
  {
    hide SyncOf, HasLivePodIn, Protected, NoneProtecting, IsReserved;
    ListsAreComplete(o, g);
    UnprotectedIff(o, g);
    match s.busy[g]
    case ListingSingle => NotListed(o, g);
    case ListingMulti(_, _, _) => Spared(o, g);
    case EvictingPods(running) => Evicting(o, s, step, g);
    case ListingRequests(n) => Spared(o, g); OpenDecides(o, g);
    case CheckingPods(n, toCheck) => CheckingPod(o, s, step, g);
    case Dropping(n) => DroppingEnds(o, g, n);
  }

  lemma NotListed(o: Objects, g: Group)
    ensures (forall r <- o.reservations.Keys :: r.group != g) ==> !IsReserved(o, g)
  {
  }

  lemma Spared(o: Objects, g: Group)
    ensures IsReserved(o, g) && (HasLivePodIn(o, g) || Protected(o, g)) ==> SyncOf(o, o, g)
    ensures forall n: Node :: Reserved(n, g) in o.reservations ==> IsReserved(o, g)
    ensures WithoutPods(o, {}) == o
    ensures RunningPods(o, g) - RunningPods(o, g) == {}
  {
  }

  lemma OpenDecides(o: Objects, g: Group)
    ensures ProtectedByOpenRequest(o, g) ==> Protected(o, g)
    ensures !ProtectedByOpenRequest(o, g) ==> NoneProtecting(o, g, PodsOfSucceeded(o, g))
  {
  }

  lemma Evicting(o: Objects, s: State, step: Step, g: Group)
    requires OnTheWay(o, s, g) && g in s.busy && s.busy[g].EvictingPods?
    requires Enabled(s, step) && StepOf(step, g) && !step.Fails?
    ensures OnTheWay(o, Perform(s, step), g)
  {
    var running := s.busy[g].running;
    if step.EvictsPod? {
      assert s.objects.pods - {step.pod} == o.pods - (RunningPods(o, g) - (running - {step.pod}));
    } else {
      assert RunningPods(o, g) - {} == RunningPods(o, g);
    }
  }

  lemma CheckingPod(o: Objects, s: State, step: Step, g: Group)
    requires OnTheWay(o, s, g) && g in s.busy && s.busy[g].CheckingPods?
    requires Enabled(s, step) && StepOf(step, g) && !step.Fails?
    ensures OnTheWay(o, Perform(s, step), g)
  {
    UnprotectedIff(o, g);
    Spared(o, g);
  }

  lemma DroppingEnds(o: Objects, g: Group, n: Node)
    requires Reserved(n, g) in o.reservations && !HasLivePodIn(o, g) && !Protected(o, g)
    ensures SyncOf(o, o.(reservations := o.reservations - {Reserved(n, g)}), g)
  {
  }

  /** A run of the mutex holder alone, from the start of a sync and without a refused call. */
  ghost predicate SoloSync(ss: seq<State>, steps: seq<Step>, g: Group) {
    && Run(ss, steps) && |steps| > 0 && steps[0] == StartSync(g)
    && (forall i :: 0 <= i < |steps| ==> StepOf(steps[i], g) && !steps[i].Fails?)
    && (forall i :: 0 < i < |steps| ==> g in ss[i].busy)
  }

  lemma {:induction false} SoloSyncIsOnTheWay(ss: seq<State>, steps: seq<Step>, g: Group, k: nat)
    requires SoloSync(ss, steps, g) && 0 < k < |ss|
    ensures OnTheWay(ss[0].objects, ss[k], g)
  {
    hide Enabled, Perform, OnTheWay;
    if k == 1 {
      SyncBegins(ss[0], g);
    } else {
      SoloSyncIsOnTheWay(ss, steps, g, k - 1);
      SyncStep(ss[0].objects, ss[k - 1], steps[k - 1], g);
    }
  }

  lemma SyncBegins(s: State, g: Group)
    requires Enabled(s, StartSync(g))
    ensures OnTheWay(s.objects, Perform(s, StartSync(g)), g)
  {
  }

  /** The protocol's sync, left to itself, does what a sync of the service does. */
  lemma SoloSyncIsSync(ss: seq<State>, steps: seq<Step>, g: Group)
    requires SoloSync(ss, steps, g) && g !in ss[|ss| - 1].busy
    ensures SyncOf(ss[0].objects, ss[|ss| - 1].objects, g)
  {
    SoloSyncIsOnTheWay(ss, steps, g, |ss| - 1);
  }
}
