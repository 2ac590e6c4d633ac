/** The reservation protocol, one API call per step. Reservation calls for a GPU group hold that
    group's mutex; everything else in the cluster runs freely between their steps. */
module BindProtocol {
  import opened Options
  import opened BinderApi

  /** Where the holder of a group's mutex is. Reserve goes Finding, Creating, Waiting, Labelling; a
      sync goes ListingSingle, ListingMulti and then one of the last three. */
  datatype Activity =
    | Finding(pod: PodKey, node: Node, multi: bool)
    | Creating(pod: PodKey, node: Node, multi: bool)
    | Waiting(pod: PodKey, node: Node, multi: bool)
    | Labelling(pod: PodKey, index: string, multi: bool)
    | ListingSingle
    | ListingMulti(reserved: Option<Node>, live: set<PodKey>, running: set<PodKey>)
    | EvictingPods(running: set<PodKey>)
    | ListingRequests(node: Node)
    | CheckingPods(node: Node, toCheck: set<PodKey>)
    | Dropping(node: Node)

  datatype State = State(objects: Objects, busy: map<Group, Activity>)

  datatype Step =
    // the rest of the cluster
    | PodCreated(pod: PodKey)
    | PodMoved(pod: PodKey, phase: PodPhase)
    | PodRevived(pod: PodKey, phase: PodPhase)
    | PodDeleted(pod: PodKey)
    | LabelsRemoved(pod: PodKey, keepSingle: bool, keep: set<Group>)
    | RequestWritten(key: RequestKey, request: Request)
    | RequestDeleted(key: RequestKey)
    | IndexWritten(reserved: Reserved, index: string)
    // the binder
    | StartReserve(group: Group, pod: PodKey, node: Node, multi: bool)
    | StartSync(group: Group)
    | Fails(group: Group)
    | TimesOut(group: Group)
    | Goes(group: Group)
    | Finds(group: Group, node: Node)
    | ListsReservation(group: Group, node: Node)
    | EvictsPod(group: Group, pod: PodKey)
    | ChecksPod(group: Group, pod: PodKey)

  function SinglyLive(o: Objects, g: Group): set<PodKey> {
    set p | p in o.pods && Live(o.pods[p]) && o.pods[p].single == Some(g)
  }

  function MultiplyLive(o: Objects, g: Group): set<PodKey> {
    set p | p in o.pods && Live(o.pods[p]) && g in o.pods[p].multi
  }

  function RunningOf(o: Objects, pods: set<PodKey>): set<PodKey> {
    set p | p in pods && p in o.pods && o.pods[p].phase.PodRunning?
  }

  /** Requests that have not succeeded are judged by the list alone, the others by a look at their pod. */
  predicate ProtectedByOpenRequest(o: Objects, g: Group) {
    exists k :: k in o.requests && !o.requests[k].phase.RequestSucceeded? && Protecting(o.pods, o.requests[k], g)
  }

  function PodsOfSucceeded(o: Objects, g: Group): set<PodKey> {
    set k | k in o.requests && o.requests[k].phase.RequestSucceeded? && g in o.requests[k].groups :: o.requests[k].pod
  }

  function WithLabel(p: Pod, g: Group, multi: bool): Pod {
    if multi then p.(multi := p.multi + {g}) else p.(single := Some(g))
  }

  function Freed(s: State, g: Group): State {
    s.(busy := s.busy - {g})
  }

  function At(s: State, g: Group, a: Activity): State {
    s.(busy := s.busy[g := a])
  }

  /** Which steps can be taken. A pod starts without GPU group labels, and a reservation pod writes its
      index once. */
  predicate Enabled(s: State, step: Step) {
    var o := s.objects;
    match step
    case PodCreated(p) => p !in o.pods
    case PodMoved(p, phase) => p in o.pods && (Live(o.pods[p].(phase := phase)) ==> Live(o.pods[p]))
    case PodRevived(p, phase) => p in o.pods && Live(o.pods[p].(phase := phase)) && !Live(o.pods[p])
    case PodDeleted(p) => p in o.pods
    case LabelsRemoved(p, _, _) => p in o.pods
    case RequestWritten(_, _) => true
    case RequestDeleted(k) => k in o.requests
    case IndexWritten(r, _) => r in o.reservations && o.reservations[r].None?
    case StartReserve(g, _, _, _) => g !in s.busy
    case StartSync(g) => g !in s.busy
    case Fails(g) => g in s.busy
    case TimesOut(g) => g in s.busy && s.busy[g].Waiting?
    case Finds(g, n) => g in s.busy && s.busy[g].Finding? && Reserved(n, g) in o.reservations
    case ListsReservation(g, n) => g in s.busy && s.busy[g].ListingSingle? && Reserved(n, g) in o.reservations
    case EvictsPod(g, p) => g in s.busy && s.busy[g].EvictingPods? && p in s.busy[g].running && p in o.pods
    case ChecksPod(g, p) => g in s.busy && s.busy[g].CheckingPods? && p in s.busy[g].toCheck
    case Goes(g) =>
      g in s.busy &&
      match s.busy[g]
      case Finding(_, _, _) => forall r <- o.reservations.Keys :: r.group != g
      case Creating(_, _, _) => true
      case Waiting(_, n, _) => Reserved(n, g) in o.reservations && o.reservations[Reserved(n, g)].Some?
      case Labelling(p, _, _) => p in o.pods
      case ListingSingle => forall r <- o.reservations.Keys :: r.group != g
      case ListingMulti(_, _, _) => true
      case EvictingPods(running) => running == {}
      case ListingRequests(_) => true
      case CheckingPods(_, toCheck) => toCheck == {}
      case Dropping(_) => true
  }

  function MovedOn(s: State, g: Group): State
    requires Enabled(s, Goes(g))
  {
    var o := s.objects;
    match s.busy[g]
    case Finding(p, n, multi) => At(s, g, Creating(p, n, multi))
    case Creating(p, n, multi) =>
      var created := if Reserved(n, g) in o.reservations then o.reservations else o.reservations[Reserved(n, g) := None];
      At(s.(objects := o.(reservations := created)), g, Waiting(p, n, multi))
    case Waiting(p, n, multi) => At(s, g, Labelling(p, o.reservations[Reserved(n, g)].value, multi))
    case Labelling(p, _, multi) =>
      Freed(s.(objects := o.(pods := o.pods[p := WithLabel(o.pods[p], g, multi)])), g)
    case ListingSingle => At(s, g, ListingMulti(None, SinglyLive(o, g), RunningOf(o, SinglyLive(o, g))))
    case ListingMulti(reserved, live, running) =>
      if reserved.None? then At(s, g, EvictingPods(running + RunningOf(o, MultiplyLive(o, g))))
      else if live + MultiplyLive(o, g) != {} then Freed(s, g)
      else At(s, g, ListingRequests(reserved.value))
    case EvictingPods(_) => Freed(s, g)
    case ListingRequests(n) =>
      if ProtectedByOpenRequest(o, g) then Freed(s, g) else At(s, g, CheckingPods(n, PodsOfSucceeded(o, g)))
    case CheckingPods(n, _) => At(s, g, Dropping(n))
    case Dropping(n) => Freed(s.(objects := o.(reservations := o.reservations - {Reserved(n, g)})), g)
  }

  function Perform(s: State, step: Step): State
    requires Enabled(s, step)
  {
    var o := s.objects;
    match step
    case PodCreated(p) => s.(objects := o.(pods := o.pods[p := Pod(PodPending, None, {})]))
    case PodMoved(p, phase) => s.(objects := o.(pods := o.pods[p := o.pods[p].(phase := phase)]))
    case PodRevived(p, phase) => s.(objects := o.(pods := o.pods[p := o.pods[p].(phase := phase)]))
    case PodDeleted(p) => s.(objects := o.(pods := o.pods - {p}))
    case LabelsRemoved(p, keepSingle, keep) =>
      var pod := o.pods[p];
      s.(objects := o.(pods := o.pods[p := pod.(single := if keepSingle then pod.single else None,
                                               multi := pod.multi * keep)]))
    case RequestWritten(k, r) => s.(objects := o.(requests := o.requests[k := r]))
    case RequestDeleted(k) => s.(objects := o.(requests := o.requests - {k}))
    case IndexWritten(r, index) => s.(objects := o.(reservations := o.reservations[r := Some(index)]))
    case StartReserve(g, p, n, multi) => At(s, g, Finding(p, n, multi))
    case StartSync(g) => At(s, g, ListingSingle)
    // a failed label patch is followed by a sync under the same mutex; any other failure ends the call
    case Fails(g) => if s.busy[g].Labelling? then At(s, g, ListingSingle) else Freed(s, g)
    case TimesOut(g) =>
      Freed(s.(objects := o.(reservations := o.reservations - {Reserved(s.busy[g].node, g)})), g)
    case Finds(g, n) =>
      var index := o.reservations[Reserved(n, g)];
      if index.None? then Freed(s, g) else At(s, g, Labelling(s.busy[g].pod, index.value, s.busy[g].multi))
    case ListsReservation(g, n) =>
      At(s, g, ListingMulti(Some(n), SinglyLive(o, g), RunningOf(o, SinglyLive(o, g))))
    case EvictsPod(g, p) =>
      At(s.(objects := o.(pods := o.pods - {p})), g, EvictingPods(s.busy[g].running - {p}))
    case ChecksPod(g, p) =>
      if Unfinished(o.pods, p) then Freed(s, g)
      else At(s, g, CheckingPods(s.busy[g].node, s.busy[g].toCheck - {p}))
    case Goes(g) => MovedOn(s, g)
  }

  // ---------------------------------------------------------------- runs

  ghost predicate Run(ss: seq<State>, steps: seq<Step>) {
    && |ss| == |steps| + 1
    && forall i :: 0 <= i < |steps| ==> Enabled(ss[i], steps[i]) && ss[i + 1] == Perform(ss[i], steps[i])
  }

  /** The group has a reservation on `n`, no other one, and it holds device `index`. */
  ghost predicate Established(o: Objects, g: Group, n: Node, index: string) {
    && Reserved(n, g) in o.reservations && o.reservations[Reserved(n, g)] == Some(index)
    && OnlyOn(o, g, n)
  }

  ghost predicate OnlyOn(o: Objects, g: Group, n: Node) {
    forall r <- o.reservations.Keys :: r.group == g ==> r.node == n
  }

  /** What holds of a group at every step of every run that starts without reservations. */
  ghost predicate Tidy(s: State, g: Group) {
    && AtMostOneReservation(s.objects, g)
    && (g in s.busy ==>
          match s.busy[g]
          case Creating(_, _, _) => forall r <- s.objects.reservations.Keys :: r.group != g
          case Waiting(_, n, _) => OnlyOn(s.objects, g, n)
          case Labelling(_, index, _) => exists n :: Established(s.objects, g, n, index)
          case _ => true)
  }

  /** The steps of the holder of a group's mutex. */
  predicate StepOf(step: Step, g: Group) {
    match step
    case StartReserve(h, _, _, _) => h == g
    case StartSync(h) => h == g
    case Fails(h) => h == g
    case TimesOut(h) => h == g
    case Goes(h) => h == g
    case Finds(h, _) => h == g
    case ListsReservation(h, _) => h == g
    case EvictsPod(h, _) => h == g
    case ChecksPod(h, _) => h == g
    case _ => false
  }

  /** The group's mutex holder has not moved, and its reservations are the same up to a written index. */
  ghost predicate LeftAlone(s: State, s': State, g: Group) {
    && (g in s.busy <==> g in s'.busy) && (g in s.busy ==> s'.busy[g] == s.busy[g])
    && forall n: Node {:trigger Reserved(n, g)} ::
         && (Reserved(n, g) in s.objects.reservations <==> Reserved(n, g) in s'.objects.reservations)
         && (Reserved(n, g) in s.objects.reservations && s.objects.reservations[Reserved(n, g)].Some? ==>
               s'.objects.reservations[Reserved(n, g)] == s.objects.reservations[Reserved(n, g)])
  }

  lemma OthersLeaveAlone(s: State, step: Step, g: Group)
    requires Enabled(s, step) && !StepOf(step, g)
    ensures LeftAlone(s, Perform(s, step), g)
  {
  }

  lemma LeftAloneKeepsEstablished(s: State, s': State, g: Group, n: Node, index: string)
    requires LeftAlone(s, s', g) && Established(s.objects, g, n, index)
    ensures Established(s'.objects, g, n, index)
  {
    forall r | r in s'.objects.reservations && r.group == g ensures r.node == n {
      assert Reserved(r.node, g) in s.objects.reservations;
    }
  }

  lemma LeftAloneKeepsTidy(s: State, s': State, g: Group)
    requires LeftAlone(s, s', g) && Tidy(s, g)
    ensures Tidy(s', g)
  {
    forall r | r in s'.objects.reservations && r.group == g ensures r in s.objects.reservations {
      assert r == Reserved(r.node, g);
    }
    if g in s.busy && s.busy[g].Labelling? {
      var n :| Established(s.objects, g, n, s.busy[g].index);
      LeftAloneKeepsEstablished(s, s', g, n, s.busy[g].index);
    }
  }

  lemma OwnStepKeepsTidy(s: State, step: Step, g: Group)
    requires Tidy(s, g) && Enabled(s, step) && StepOf(step, g)
    ensures Tidy(Perform(s, step), g)
  {
    var s' := Perform(s, step);
    if step.Finds? && s.objects.reservations[Reserved(step.node, g)].Some? {
      assert Established(s'.objects, g, step.node, s'.busy[g].index);
    }
    if step.Goes? && s.busy[g].Waiting? {
      assert Established(s'.objects, g, s.busy[g].node, s'.busy[g].index);
    }
  }

  lemma StepKeepsTidy(s: State, step: Step, g: Group)
    requires Tidy(s, g) && Enabled(s, step)
    ensures Tidy(Perform(s, step), g)
  {
    hide Enabled, Perform, Tidy;
    if StepOf(step, g) {
      OwnStepKeepsTidy(s, step, g);
    } else {
      OthersLeaveAlone(s, step, g);
      LeftAloneKeepsTidy(s, Perform(s, step), g);
    }
  }

  lemma {:induction false} RunKeepsTidy(ss: seq<State>, steps: seq<Step>, g: Group, k: nat)
    requires Run(ss, steps) && Tidy(ss[0], g) && k < |ss|
    ensures Tidy(ss[k], g)
  {
    hide Enabled, Perform, Tidy;
    if k > 0 {
      RunKeepsTidy(ss, steps, g, k - 1);
      StepKeepsTidy(ss[k - 1], steps[k - 1], g);
    }
  }

  /** In every run that starts with no reservation and no call in flight, a group never has two
      reservation pods, so its pods never end up on different devices. */
  lemma NeverTwoReservations(ss: seq<State>, steps: seq<Step>, g: Group, k: nat)
    requires Run(ss, steps) && ss[0].busy == map[] && ss[0].objects.reservations == map[] && k < |ss|
    ensures AtMostOneReservation(ss[k].objects, g)
  {
    RunKeepsTidy(ss, steps, g, k);
  }

  /** A reservation call that succeeds leaves the pod labelled, the mutex free, and the group with one
      reservation on the device whose index the call returns. */
  lemma ReserveEstablishes(s: State, g: Group)
    requires Tidy(s, g) && Enabled(s, Goes(g)) && s.busy[g].Labelling?
    ensures var s', a := Perform(s, Goes(g)), s.busy[g];
            && g !in s'.busy && a.pod in s'.objects.pods && Labelled(s'.objects.pods[a.pod], g)
            && exists n :: Established(s'.objects, g, n, a.index)
  {
    var n :| Established(s.objects, g, n, s.busy[g].index);
    assert Established(Perform(s, Goes(g)).objects, g, n, s.busy[g].index);
  }

  // ---------------------------------------------------------------- a reservation that is needed stays

  ghost predicate NoLive(o: Objects, g: Group, single: bool, multi: bool) {
    forall p <- o.pods.Keys :: Live(o.pods[p]) ==>
      (single ==> o.pods[p].single != Some(g)) && (multi ==> g !in o.pods[p].multi)
  }

  /** What the mutex holder knows while the group's reservation is established and needed: it never
      gets as far as deleting anything. */
  ghost predicate Secure(s: State, g: Group, n: Node, index: string) {
    && Established(s.objects, g, n, index)
    && (g in s.busy ==>
          match s.busy[g]
          case Finding(_, _, _) => true
          case Labelling(_, i, _) => i == index
          case ListingSingle => true
          case ListingMulti(reserved, live, _) =>
            reserved == Some(n) && (live == {} ==> NoLive(s.objects, g, true, false))
          case ListingRequests(m) => m == n && NoLive(s.objects, g, true, true)
          case _ => false)
  }

  /** The step brings back to life a pod that a sync in flight has already looked for and missed: after the
      first list one of the group by its single label, after the second one of the group by either label. */
  predicate RevivesUnseen(s: State, step: Step, g: Group) {
    && step.PodRevived? && step.pod in s.objects.pods && g in s.busy
    && match s.busy[g]
       case ListingMulti(_, live, _) => live == {} && s.objects.pods[step.pod].single == Some(g)
       case ListingRequests(_) => Labelled(s.objects.pods[step.pod], g)
       case _ => false
  }

  lemma OthersKeepNoLive(s: State, step: Step, g: Group, multi: bool)
    requires Enabled(s, step) && !StepOf(step, g) && !RevivesUnseen(s, step, g) && NoLive(s.objects, g, true, multi)
    requires g in s.busy && (if multi then s.busy[g].ListingRequests? else s.busy[g].ListingMulti? && s.busy[g].live == {})
    ensures NoLive(Perform(s, step).objects, g, true, multi)
  {
  }

  lemma OthersKeepSecure(s: State, step: Step, g: Group, n: Node, index: string)
    requires Secure(s, g, n, index) && Enabled(s, step) && !StepOf(step, g) && !RevivesUnseen(s, step, g)
    ensures Secure(Perform(s, step), g, n, index)
  {
    hide Enabled, Perform, Established, NoLive;
    OthersLeaveAlone(s, step, g);
    LeftAloneKeepsEstablished(s, Perform(s, step), g, n, index);
    if g in s.busy && s.busy[g].ListingMulti? && s.busy[g].live == {} {
      OthersKeepNoLive(s, step, g, false);
    }
    if g in s.busy && s.busy[g].ListingRequests? {
      OthersKeepNoLive(s, step, g, true);
    }
  }

  lemma OwnStepKeepsSecure(s: State, step: Step, g: Group, n: Node, index: string)
    requires Secure(s, g, n, index) && Enabled(s, step) && StepOf(step, g) && Needed(s.objects, g)
    ensures Secure(Perform(s, step), g, n, index) && !step.EvictsPod?
  {
    var o := s.objects;
    if step.Goes? {
      assert Reserved(n, g) in o.reservations;
      match s.busy[g]
      case ListingMulti(_, live, _) =>
        if live + MultiplyLive(o, g) == {} {
          forall p | p in o.pods && Live(o.pods[p]) ensures g !in o.pods[p].multi {
            assert p !in MultiplyLive(o, g);
          }
          assert NoLive(o, g, true, true);
        }
      case ListingRequests(_) =>
        NeededWithoutPodsIsProtected(o, g);
        var k :| k in o.requests && Actionable(o.requests[k]) && g in o.requests[k].groups;
        ProtectingIff(o.pods, o.requests[k], g);
      case _ =>
    } else if step.ListsReservation? {
      if SinglyLive(o, g) == {} {
        forall p | p in o.pods && Live(o.pods[p]) ensures o.pods[p].single != Some(g) {
          assert p !in SinglyLive(o, g);
        }
      }
    }
  }

  /** The group is needed in every state, and no pod comes back to life behind the back of a sync in flight.
      Pods may come back at any other time. */
  ghost predicate Undisturbed(ss: seq<State>, steps: seq<Step>, g: Group)
    requires Run(ss, steps)
  {
    && (forall i :: 0 <= i < |ss| ==> Needed(ss[i].objects, g))
    && (forall i :: 0 <= i < |steps| ==> !RevivesUnseen(ss[i], steps[i], g))
  }

  lemma {:induction false} SecureThroughout(ss: seq<State>, steps: seq<Step>, g: Group, n: Node, index: string, k: nat)
    requires Run(ss, steps) && Undisturbed(ss, steps, g) && k < |ss| && Secure(ss[0], g, n, index)
    ensures Secure(ss[k], g, n, index)
    ensures forall i :: 0 <= i < k && StepOf(steps[i], g) ==> !steps[i].EvictsPod?
  {
    hide Enabled, Perform, Secure, Needed;
    if k > 0 {
      SecureThroughout(ss, steps, g, n, index, k - 1);
      if StepOf(steps[k - 1], g) {
        OwnStepKeepsSecure(ss[k - 1], steps[k - 1], g, n, index);
      } else {
        OthersKeepSecure(ss[k - 1], steps[k - 1], g, n, index);
      }
    }
  }

  /** Once a group's reservation is established, then in every interleaving it stays, with the same
      device, for as long as somebody needs it; and no sync of the group deletes a pod meanwhile.
      Who needs it may change from one state to the next. */
  lemma ReservationPersists(ss: seq<State>, steps: seq<Step>, g: Group, n: Node, index: string)
    requires Run(ss, steps) && Undisturbed(ss, steps, g)
    requires g !in ss[0].busy && Established(ss[0].objects, g, n, index)
    ensures Established(ss[|ss| - 1].objects, g, n, index)
    ensures forall i :: 0 <= i < |steps| && StepOf(steps[i], g) ==> !steps[i].EvictsPod?
  {
    SecureThroughout(ss, steps, g, n, index, |ss| - 1);
  }

  /** Two pods that reserve the same group get the same device, if the group is needed in between. */
  lemma SameDevice(ss: seq<State>, steps: seq<Step>, g: Group, a: Activity, b: Activity)
    requires Run(ss, steps) && |steps| >= 2 && Tidy(ss[0], g)
    requires steps[0] == Goes(g) && ss[0].busy[g] == a && a.Labelling?
    requires steps[|steps| - 1] == Goes(g) && ss[|steps| - 1].busy[g] == b && b.Labelling?
    requires Run(ss[1..], steps[1..]) && Undisturbed(ss[1..], steps[1..], g)
    ensures a.index == b.index
  {
    ReserveEstablishes(ss[0], g);
    var n :| Established(ss[1].objects, g, n, a.index);
    SecureThroughout(ss[1..], steps[1..], g, n, a.index, |steps| - 2);
  }
}
