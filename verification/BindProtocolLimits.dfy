/** Exactly when a reservation can be lost although it is needed at every step. */
module BindProtocolLimits {
  import opened Options
  import opened BinderApi
  import opened BindProtocol

  /** The objects and the mutex of a group "g" reserved on "n", with one pod and at most one request. */
  function Scene(phase: PodPhase, requested: bool, reserved: bool, activity: Option<Activity>): State {
    State(Objects(map["pod" := Pod(phase, Some("g"), {})],
                  if reserved then map[Reserved("n", "g") := Some("gpu")] else map[],
                  if requested then map["r" := Request("other", ["g"], None, RequestPending, 0, false)] else map[]),
          if activity.None? then map[] else map["g" := activity.value])
  }

  /** A sync sees no live pod, because the group's only pod is in phase Unknown. */
  lemma SyncSeesNoPod()
    ensures var s0 := Scene(PodUnknown, true, true, None);
            var s1 := Scene(PodUnknown, true, true, Some(ListingSingle));
            var s2 := Scene(PodUnknown, true, true, Some(ListingMulti(Some("n"), {}, {})));
            var s3 := Scene(PodUnknown, true, true, Some(ListingRequests("n")));
            && Enabled(s0, StartSync("g")) && Perform(s0, StartSync("g")) == s1
            && Enabled(s1, ListsReservation("g", "n")) && Perform(s1, ListsReservation("g", "n")) == s2
            && Enabled(s2, Goes("g")) && Perform(s2, Goes("g")) == s3
  {
    var o := Scene(PodUnknown, true, true, None).objects;
    assert SinglyLive(o, "g") == {} && MultiplyLive(o, "g") == {} && RunningOf(o, {}) == {};
  }

  /** Then the pod runs again, and the request goes away. */
  lemma PodRunsAgain()
    ensures var s3 := Scene(PodUnknown, true, true, Some(ListingRequests("n")));
            var s4 := Scene(PodRunning, true, true, Some(ListingRequests("n")));
            var s5 := Scene(PodRunning, false, true, Some(ListingRequests("n")));
            && Enabled(s3, PodRevived("pod", PodRunning)) && Perform(s3, PodRevived("pod", PodRunning)) == s4
            && Enabled(s4, RequestDeleted("r")) && Perform(s4, RequestDeleted("r")) == s5
  {
  }

  lemma SyncDropsReservation()
    ensures var s5 := Scene(PodRunning, false, true, Some(ListingRequests("n")));
            var s6 := Scene(PodRunning, false, true, Some(CheckingPods("n", {})));
            var s7 := Scene(PodRunning, false, true, Some(Dropping("n")));
            var s8 := Scene(PodRunning, false, false, None);
            && Enabled(s5, Goes("g")) && Perform(s5, Goes("g")) == s6
            && Enabled(s6, Goes("g")) && Perform(s6, Goes("g")) == s7
            && Enabled(s7, Goes("g")) && Perform(s7, Goes("g")) == s8
  {
    var o := Scene(PodRunning, false, true, None).objects;
    assert PodsOfSucceeded(o, "g") == {};
    assert map[Reserved("n", "g") := Some("gpu")] - {Reserved("n", "g")} == map[];
  }

  lemma SceneNeedsGroup(phase: PodPhase, requested: bool, reserved: bool, activity: Option<Activity>)
    requires requested || phase.PodRunning?
    ensures Needed(Scene(phase, requested, reserved, activity).objects, "g")
  {
    var o := Scene(phase, requested, reserved, activity).objects;
    if requested { assert "r" in o.requests && Actionable(o.requests["r"]); }
    else { assert "pod" in o.pods && Live(o.pods["pod"]); }
  }

  lemma Ends()
    ensures var s := Scene(PodUnknown, true, true, None);
            "g" !in s.busy && Established(s.objects, "g", "n", "gpu")
    ensures RevivesUnseen(Scene(PodUnknown, true, true, Some(ListingRequests("n"))), PodRevived("pod", PodRunning), "g")
    ensures var s := Scene(PodRunning, false, false, None);
            !IsReserved(s.objects, "g") && HasLivePodIn(s.objects, "g")
  {
    var o := Scene(PodRunning, false, false, None).objects;
    assert "pod" in o.pods && Live(o.pods["pod"]);
  }

  /** Without the assumption about revived pods the reservation can go although the group is needed at
      every step: a sync that saw the pod in phase Unknown and then no request deletes it under a pod
      that is running again. */
  lemma RevivedPodLosesReservation() returns (ss: seq<State>, steps: seq<Step>)
    ensures Run(ss, steps) && (forall i :: 0 <= i < |ss| ==> Needed(ss[i].objects, "g"))
    ensures "g" !in ss[0].busy && Established(ss[0].objects, "g", "n", "gpu")
    ensures exists i :: 0 <= i < |steps| && RevivesUnseen(ss[i], steps[i], "g")
    ensures !IsReserved(ss[|ss| - 1].objects, "g") && HasLivePodIn(ss[|ss| - 1].objects, "g")
  {
    hide Enabled, Perform, Scene, Needed, RevivesUnseen, Established, IsReserved, HasLivePodIn;
    var phases := [PodUnknown, PodUnknown, PodUnknown, PodUnknown,
                   PodRunning, PodRunning, PodRunning, PodRunning, PodRunning];
    var activities := [None, Some(ListingSingle), Some(ListingMulti(Some("n"), {}, {})), Some(ListingRequests("n")),
                       Some(ListingRequests("n")), Some(ListingRequests("n")), Some(CheckingPods("n", {})),
                       Some(Dropping("n")), None];
    ss := seq(9, i requires 0 <= i < 9 => Scene(phases[i], i < 5, i < 8, activities[i]));
    steps := [StartSync("g"), ListsReservation("g", "n"), Goes("g"), PodRevived("pod", PodRunning), RequestDeleted("r"),
              Goes("g"), Goes("g"), Goes("g")];
    SyncSeesNoPod();
    PodRunsAgain();
    SyncDropsReservation();
    Ends();
    assert RevivesUnseen(ss[3], steps[3], "g");
    forall i | 0 <= i < |ss| ensures Needed(ss[i].objects, "g") {
      SceneNeedsGroup(phases[i], i < 5, i < 8, activities[i]);
    }
  }

  // ---------------------------------------------------------------- the exact condition

  /** From here the reservation can go while the group is needed in every state, without any pod coming back
      to life behind a sync's back from here on. */
  ghost predicate CanLose(s: State, g: Group) {
    exists ss, steps :: Loses(ss, steps, s, g)
  }

  ghost predicate Loses(ss: seq<State>, steps: seq<Step>, s: State, g: Group) {
    && Run(ss, steps) && ss[0] == s && Undisturbed(ss, steps, g) && !IsReserved(ss[|ss| - 1].objects, g)
  }

  lemma LostAlready(s: State, g: Group)
    requires Needed(s.objects, g) && !IsReserved(s.objects, g)
    ensures CanLose(s, g)
  {
    assert Loses([s], [], s, g);
  }

  lemma LoseLater(s: State, step: Step, g: Group)
    requires Needed(s.objects, g) && Enabled(s, step) && !RevivesUnseen(s, step, g) && CanLose(Perform(s, step), g)
    ensures CanLose(s, g)
  {
    hide Enabled, Perform, Needed, IsReserved, RevivesUnseen;
    var ss, steps :| Loses(ss, steps, Perform(s, step), g);
    var ss', steps' := [s] + ss, [step] + steps;
    forall i | 0 <= i < |steps'| ensures Enabled(ss'[i], steps'[i]) && ss'[i + 1] == Perform(ss'[i], steps'[i]) {
      if i > 0 { assert steps'[i] == steps[i - 1] && ss'[i] == ss[i - 1]; }
    }
    assert Loses(ss', steps', s, g);
  }

  /** The group's last pod is alive, and keeps the group needed whatever becomes of the requests. */
  predicate Holds(o: Objects, g: Group, p: PodKey) {
    p in o.pods && Live(o.pods[p]) && Labelled(o.pods[p], g)
  }

  lemma HeldIsNeeded(o: Objects, g: Group, p: PodKey)
    requires Holds(o, g, p)
    ensures Needed(o, g)
  {
  }

  /** The end of a sync that has seen no pod and finds no request. */
  lemma DropsWithoutRequests(s: State, g: Group, n: Node, p: PodKey)
    requires g in s.busy && s.busy[g] == ListingRequests(n) && s.objects.requests == map[]
    requires OnlyOn(s.objects, g, n) && Holds(s.objects, g, p)
    ensures CanLose(s, g)
  {
    var s1 := Perform(s, Goes(g));
    assert PodsOfSucceeded(s.objects, g) == {};
    var s2 := Perform(s1, Goes(g));
    var s3 := Perform(s2, Goes(g));
    hide CanLose, MovedOn;
    HeldIsNeeded(s.objects, g, p);
    LostAlready(s3, g);
    LoseLater(s2, Goes(g), g);
    LoseLater(s1, Goes(g), g);
    LoseLater(s, Goes(g), g);
  }

  /** The requests go away one by one, and then the sync ends. */
  lemma {:induction false} DropsPod(s: State, g: Group, n: Node, p: PodKey)
    requires g in s.busy && s.busy[g] == ListingRequests(n)
    requires OnlyOn(s.objects, g, n) && Holds(s.objects, g, p)
    ensures CanLose(s, g)
    decreases |s.objects.requests|
  {
    hide CanLose, Needed;
    if s.objects.requests == map[] {
      DropsWithoutRequests(s, g, n, p);
    } else {
      var k :| k in s.objects.requests;
      DropsPod(Perform(s, RequestDeleted(k)), g, n, p);
      HeldIsNeeded(s.objects, g, p);
      LoseLater(s, RequestDeleted(k), g);
    }
  }

  function ManyLabelled(o: Objects, g: Group): set<PodKey> {
    set q | q in o.pods && g in o.pods[q].multi
  }

  /** The pods that the second list would show lose those labels one by one. */
  lemma {:induction false} DropsUnlisted(s: State, g: Group, n: Node, running: set<PodKey>, p: PodKey)
    requires g in s.busy && s.busy[g] == ListingMulti(Some(n), {}, running)
    requires OnlyOn(s.objects, g, n) && Holds(s.objects, g, p) && s.objects.pods[p].single == Some(g)
    ensures CanLose(s, g)
    decreases ManyLabelled(s.objects, g)
  {
    hide CanLose, Needed;
    HeldIsNeeded(s.objects, g, p);
    if q :| q in ManyLabelled(s.objects, g) {
      var step := LabelsRemoved(q, true, {});
      var s' := Perform(s, step);
      assert ManyLabelled(s'.objects, g) == ManyLabelled(s.objects, g) - {q};
      DropsUnlisted(s', g, n, running, p);
      LoseLater(s, step, g);
    } else {
      assert forall q <- s.objects.pods.Keys :: q !in ManyLabelled(s.objects, g);
      assert MultiplyLive(s.objects, g) == {};
      DropsPod(Perform(s, Goes(g)), g, n, p);
      LoseLater(s, Goes(g), g);
    }
  }

  /** Every pod that comes back to life unseen can cost the group its reservation. */
  lemma UnseenRevivalLoses(s: State, step: Step, g: Group, n: Node, index: string)
    requires Secure(s, g, n, index) && Enabled(s, step) && RevivesUnseen(s, step, g)
    ensures CanLose(Perform(s, step), g)
  {
    hide CanLose;
    var s' := Perform(s, step);
    if s.busy[g].ListingRequests? {
      DropsPod(s', g, n, step.pod);
    } else {
      DropsUnlisted(s', g, n, s.busy[g].running, step.pod);
    }
  }

  /** The condition is exact: while a reservation is established and needed, a step makes it possible that
      it goes, with no further disturbance, if and only if the step brings a pod back to life unseen. */
  lemma LosesIffUnseenRevival(s: State, step: Step, g: Group, n: Node, index: string)
    requires Secure(s, g, n, index) && Needed(s.objects, g) && Enabled(s, step)
    requires Needed(Perform(s, step).objects, g)
    ensures CanLose(Perform(s, step), g) <==> RevivesUnseen(s, step, g)
  {
    hide Enabled, Perform, Needed, Secure, RevivesUnseen;
    if RevivesUnseen(s, step, g) {
      UnseenRevivalLoses(s, step, g, n, index);
    } else {
      var s' := Perform(s, step);
      if StepOf(step, g) { OwnStepKeepsSecure(s, step, g, n, index); } else { OthersKeepSecure(s, step, g, n, index); }
      if CanLose(s', g) {
        var ss, steps :| Loses(ss, steps, s', g);
        SecureThroughout(ss, steps, g, n, index, |ss| - 1);
        SecureIsReserved(ss[|ss| - 1], g, n, index);
      }
    }
  }

  lemma SecureIsReserved(s: State, g: Group, n: Node, index: string)
    requires Secure(s, g, n, index)
    ensures IsReserved(s.objects, g)
  {
  }

  /** The same along runs: up to the first pod that comes back to life unseen a reservation that is needed
      throughout is safe, and from then on it can go. */
  lemma FirstUnseenRevivalDecides(ss: seq<State>, steps: seq<Step>, g: Group, n: Node, index: string)
    requires Run(ss, steps) && |steps| > 0 && g !in ss[0].busy && Established(ss[0].objects, g, n, index)
    requires forall i :: 0 <= i < |ss| ==> Needed(ss[i].objects, g)
    requires forall i :: 0 <= i < |steps| - 1 ==> !RevivesUnseen(ss[i], steps[i], g)
    ensures CanLose(ss[|steps|], g) <==> RevivesUnseen(ss[|steps| - 1], steps[|steps| - 1], g)
  {
    hide Enabled, Perform, Needed, RevivesUnseen, CanLose;
    var k := |steps| - 1;
    var before, calls := ss[..k + 1], steps[..k];
    assert Run(before, calls) && Undisturbed(before, calls, g);
    SecureThroughout(before, calls, g, n, index, k);
    assert before[k] == ss[k] && Needed(ss[k + 1].objects, g);
    LosesIffUnseenRevival(ss[k], steps[k], g, n, index);
  }
}
