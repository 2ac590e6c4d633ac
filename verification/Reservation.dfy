/** The reservation service against an API server that may refuse any call. */
module Reservation {
  import opened Options
  import opened BinderApi
  import opened Sequences

  function RunningPods(o: Objects, g: Group): set<PodKey> {
    set p | p in o.pods && o.pods[p].phase.PodRunning? && Labelled(o.pods[p], g)
  }

  function WithoutPods(o: Objects, gone: set<PodKey>): Objects {
    o.(pods := o.pods - gone)
  }

  /** What a successful sync of one group does. */
  ghost predicate SyncOf(o: Objects, o': Objects, g: Group) {
    if !IsReserved(o, g) then o' == WithoutPods(o, RunningPods(o, g))
    else if HasLivePodIn(o, g) || Protected(o, g) then o' == o
    else exists n: Node :: Reserved(n, g) in o.reservations
                           && o' == o.(reservations := o.reservations - {Reserved(n, g)})
  }

  /** No pod of the group runs without a reservation. */
  ghost predicate RunningIsReserved(o: Objects, g: Group) {
    IsReserved(o, g) || RunningPods(o, g) == {}
  }

  /** No reservation of the group stands idle. */
  ghost predicate ReservedIsUsed(o: Objects, g: Group) {
    IsReserved(o, g) ==> HasLivePodIn(o, g) || Protected(o, g)
  }

  /** After a successful sync the group is in order, and a second sync changes nothing. */
  lemma SyncSettles(o: Objects, o': Objects, g: Group)
    requires SyncOf(o, o', g) && AtMostOneReservation(o, g)
    ensures RunningIsReserved(o', g) && ReservedIsUsed(o', g)
    ensures forall o'' :: SyncOf(o', o'', g) ==> o'' == o'
  {
    if IsReserved(o, g) && !HasLivePodIn(o, g) && !Protected(o, g) {
      forall p | p in o.pods && o.pods[p].phase.PodRunning? ensures !Labelled(o.pods[p], g) {
        assert Live(o.pods[p]);
      }
    }
    if !IsReserved(o', g) {
      assert RunningPods(o', g) == {};
      assert WithoutPods(o', {}) == o';
    }
  }

  /** With several reservations of a group, a sync that drops one keeps the others: exactly then an
      idle reservation is left. */
  lemma IdleLeftoverIff(o: Objects, o': Objects, g: Group)
    requires SyncOf(o, o', g)
    ensures !ReservedIsUsed(o', g) <==>
      !AtMostOneReservation(o, g) && !HasLivePodIn(o, g) && !Protected(o, g)
  {
    if AtMostOneReservation(o, g) {
      SyncSettles(o, o', g);
    } else {
      var n, m :| Reserved(n, g) in o.reservations && Reserved(m, g) in o.reservations && n != m;
      assert IsReserved(o, g);
      if !HasLivePodIn(o, g) && !Protected(o, g) {
        assert Reserved(n, g) in o'.reservations || Reserved(m, g) in o'.reservations;
        assert o'.pods == o.pods && o'.requests == o.requests;
      }
    }
  }

  // ---------------------------------------------------------------- one pass over several groups

  ghost predicate SyncAll(os: seq<Objects>, gs: seq<Group>) {
    |os| == |gs| + 1 && forall i :: 0 <= i < |gs| ==> SyncOf(os[i], os[i + 1], gs[i])
  }

  lemma OtherGroupKeepsReserved(o: Objects, o': Objects, h: Group, g: Group)
    requires SyncOf(o, o', h) && RunningIsReserved(o, g) && h != g
    ensures RunningIsReserved(o', g) && (AtMostOneReservation(o, g) ==> AtMostOneReservation(o', g))
  {
    assert o'.pods.Keys <= o.pods.Keys;
    assert RunningPods(o', g) <= RunningPods(o, g);
    if IsReserved(o, g) {
      var n :| Reserved(n, g) in o.reservations;
      assert Reserved(n, g) in o'.reservations;
    }
  }

  lemma SyncKeepsAtMostOne(o: Objects, o': Objects, h: Group, g: Group)
    requires SyncOf(o, o', h) && AtMostOneReservation(o, g)
    ensures AtMostOneReservation(o', g)
  {
  }

  /** Whatever the order of the groups, after a pass no pod of any of them runs unreserved. */
  lemma {:induction false} PassLeavesNoUnreserved(os: seq<Objects>, gs: seq<Group>, g: Group, k: nat)
    requires SyncAll(os, gs) && k <= |gs| && g in gs[..k] && AtMostOneReservation(os[0], g)
    ensures RunningIsReserved(os[k], g)
  {
    if gs[k - 1] == g {
      PassKeepsAtMostOne(os, gs, g, k - 1);
      SyncSettles(os[k - 1], os[k], g);
    } else {
      assert g in gs[..k - 1];
      PassLeavesNoUnreserved(os, gs, g, k - 1);
      OtherGroupKeepsReserved(os[k - 1], os[k], gs[k - 1], g);
    }
  }

  lemma {:induction false} PassKeepsAtMostOne(os: seq<Objects>, gs: seq<Group>, g: Group, k: nat)
    requires SyncAll(os, gs) && k <= |gs| && AtMostOneReservation(os[0], g)
    ensures AtMostOneReservation(os[k], g)
  {
    if k > 0 {
      PassKeepsAtMostOne(os, gs, g, k - 1);
      SyncKeepsAtMostOne(os[k - 1], os[k], gs[k - 1], g);
    }
  }

  ghost predicate EachOnce(gs: seq<Group>) {
    forall i, j :: 0 <= i < j < |gs| ==> gs[i] != gs[j]
  }

  /** The running pods of those groups that have no reservation. */
  ghost function Doomed(o: Objects, gs: seq<Group>): set<PodKey> {
    set p | p in o.pods && o.pods[p].phase.PodRunning?
            && exists i :: 0 <= i < |gs| && !IsReserved(o, gs[i]) && Labelled(o.pods[p], gs[i])
  }

  ghost predicate InUse(o: Objects, g: Group) {
    HasLivePodIn(o, g) || Protected(o, g)
  }

  /** The reservations of the group are the same in both. */
  ghost predicate SameReservations(o: Objects, o': Objects, g: Group) {
    forall n: Node {:trigger Reserved(n, g)} :: Reserved(n, g) in o'.reservations <==> Reserved(n, g) in o.reservations
  }

  lemma DoomedGrows(o: Objects, gs: seq<Group>, k: nat)
    requires k < |gs|
    ensures Doomed(o, gs[..k + 1]) == Doomed(o, gs[..k]) + if IsReserved(o, gs[k]) then {} else RunningPods(o, gs[k])
  {
    var before, after := gs[..k], gs[..k + 1];
    assert forall i :: 0 <= i < k ==> before[i] == after[i];
    assert after[k] == gs[k];
  }

  /** The objects after part of a pass: the doomed pods of the groups so far are gone, the requests are
      there, and so are the reservations of the groups to come. */
  lemma {:induction false} PassSoFar(os: seq<Objects>, gs: seq<Group>, k: nat, g: Group)
    requires SyncAll(os, gs) && EachOnce(gs) && k <= |gs|
    ensures os[k].pods == os[0].pods - Doomed(os[0], gs[..k]) && os[k].requests == os[0].requests
    ensures g !in gs[..k] ==> SameReservations(os[0], os[k], g)
    decreases k
  {
    hide HasLivePodIn, Protected;
    if k == 0 {
      assert Doomed(os[0], gs[..0]) == {};
    } else {
      var h := gs[k - 1];
      PassSoFar(os, gs, k - 1, g);
      PassSoFar(os, gs, k - 1, h);
      assert gs[..k - 1] == gs[..k][..k - 1] && h !in gs[..k - 1];
      SameIsReserved(os[0], os[k - 1], h);
      DoomedGrows(os[0], gs, k - 1);
      assert SyncOf(os[k - 1], os[k], h);
      if g !in gs[..k] {
        assert gs[..k][k - 1] == h && g !in gs[..k - 1] && g != h;
        OthersKeepReservations(os[k - 1], os[k], h, g);
      }
      if !IsReserved(os[0], h) {
        RunningLeft(os[0], os[k - 1], Doomed(os[0], gs[..k - 1]), h);
      }
    }
  }

  lemma SameIsReserved(o: Objects, o': Objects, g: Group)
    requires SameReservations(o, o', g)
    ensures IsReserved(o', g) <==> IsReserved(o, g)
  {
    if IsReserved(o, g) { var n :| Reserved(n, g) in o.reservations; assert Reserved(n, g) in o'.reservations; }
    if IsReserved(o', g) { var n :| Reserved(n, g) in o'.reservations; assert Reserved(n, g) in o.reservations; }
  }

  lemma OthersKeepReservations(o: Objects, o': Objects, h: Group, g: Group)
    requires SyncOf(o, o', h) && h != g
    ensures SameReservations(o, o', g)
  {
  }

  lemma RunningLeft(o: Objects, o': Objects, gone: set<PodKey>, h: Group)
    requires o'.pods == o.pods - gone
    ensures o'.pods - RunningPods(o', h) == o.pods - (gone + RunningPods(o, h))
  {
  }

  lemma SameInUse(o: Objects, o': Objects, g: Group)
    requires o'.pods == o.pods && o'.requests == o.requests
    ensures InUse(o', g) <==> InUse(o, g)
  {
  }

  /** A sync leaves the group a reservation if and only if it had one that was in use. */
  lemma SyncReservedIff(o: Objects, o': Objects, g: Group)
    requires SyncOf(o, o', g) && AtMostOneReservation(o, g)
    ensures IsReserved(o', g) <==> IsReserved(o, g) && InUse(o, g)
  {
  }

  lemma {:induction false} ReservedSince(os: seq<Objects>, gs: seq<Group>, i: nat, k: nat)
    requires SyncAll(os, gs) && EachOnce(gs) && i < k <= |gs|
    ensures IsReserved(os[k], gs[i]) <==> IsReserved(os[i + 1], gs[i])
    decreases k
  {
    hide SyncOf, IsReserved;
    if k > i + 1 {
      ReservedSince(os, gs, i, k - 1);
      assert SyncOf(os[k - 1], os[k], gs[k - 1]);
      OthersKeepReservations(os[k - 1], os[k], gs[k - 1], gs[i]);
      SameIsReserved(os[k - 1], os[k], gs[i]);
    }
  }

  /** A pass leaves a group with an idle reservation if and only if the group has a reservation that was
      in use when its turn came, but only by pods that the pass deletes for the groups that come later. */
  lemma PassLeavesIdleIff(os: seq<Objects>, gs: seq<Group>, i: nat)
    requires SyncAll(os, gs) && EachOnce(gs) && i < |gs| && AtMostOneReservation(os[0], gs[i])
    ensures var o, g := os[0], gs[i];
            !ReservedIsUsed(os[|gs|], g) <==>
              && IsReserved(o, g) && InUse(WithoutPods(o, Doomed(o, gs[..i])), g)
              && !InUse(WithoutPods(o, Doomed(o, gs)), g)
  {
    hide SyncOf, IsReserved, InUse, Doomed, AtMostOneReservation;
    var o, g, n := os[0], gs[i], |gs|;
    PassSoFar(os, gs, i, g);
    PassSoFar(os, gs, n, g);
    assert gs[..n] == gs;
    SameInUse(WithoutPods(o, Doomed(o, gs[..i])), os[i], g);
    SameInUse(WithoutPods(o, Doomed(o, gs)), os[n], g);
    SameIsReserved(o, os[i], g);
    PassKeepsAtMostOne(os, gs, g, i);
    SyncReservedIff(os[i], os[i + 1], g);
    ReservedSince(os, gs, i, n);
    UsedIs(os[n], g);
  }

  lemma UsedIs(o: Objects, g: Group)
    ensures ReservedIsUsed(o, g) <==> (IsReserved(o, g) ==> InUse(o, g))
  {
  }

  /** A pass may leave an idle reservation: deleting a pod for one of its groups can leave the
      reservation of its other group, synced earlier, without a user. */
  lemma PassCanLeaveIdle() returns (os: seq<Objects>, g: Group)
    ensures SyncAll(os, ["a", "b"]) && g in ["a", "b"] && AtMostOneReservation(os[0], "a")
    ensures AtMostOneReservation(os[0], "b") && !ReservedIsUsed(os[2], g)
  {
    g := "a";
    var o := Objects(map["pod" := Pod(PodRunning, None, {"a", "b"})], map[Reserved("n", "a") := Some("gpu")], map[]);
    assert "pod" in o.pods && Live(o.pods["pod"]) && Labelled(o.pods["pod"], "a");
    assert Reserved("n", "a") in o.reservations;
    assert "pod" in RunningPods(o, "b");
    os := [o, o, WithoutPods(o, RunningPods(o, "b"))];
    assert os[2].pods == map[];
    assert Reserved("n", "a") in os[2].reservations;
  }

  // ---------------------------------------------------------------- the service

  /** The API server answered; it need not. */
  method Answered() returns (ok: bool) {
    ok := *;
  }

  class Service {
    var pods: map<PodKey, Pod>
    var reservations: map<Reserved, Option<string>>
    var requests: map<RequestKey, Request>

    ghost function Now(): Objects
      reads this
    {
      Objects(pods, reservations, requests)
    }

    method HasActiveBindRequests(g: Group) returns (ok: bool, active: bool)
      ensures ok ==> active == Protected(Now(), g)
    {
      active := false;
      ok := Answered();
      if !ok {
        return;
      }
      var keys := Listed(requests.Keys);
      var i := 0;
      while i < |keys|
        invariant 0 <= i <= |keys| && !active && ok
        invariant forall j :: 0 <= j < i ==> !Protecting(pods, requests[keys[j]], g)
      {
        var r := requests[keys[i]];
        i := i + 1;
        if g !in r.groups {
          continue;
        }
        if r.phase.RequestFailed? {
          if r.limit.None? || r.attempts >= r.limit.value {
            continue;
          }
          active := true;
          return;
        }
        if r.phase.RequestSucceeded? {
          ok := Answered();
          if !ok {
            return;
          }
          if Unfinished(pods, r.pod) {
            active := true;
            return;
          }
          continue;
        }
        active := true;
        return;
      }
    }

    /** deleteNonReservedPods; a pod that is listed twice cannot be deleted twice. */
    method DeleteNonReservedPods(listed: seq<PodKey>, phases: map<PodKey, PodPhase>) returns (ok: bool)
      requires forall p <- listed :: p in phases
      modifies this`pods
      ensures forall p <- old(pods).Keys - pods.Keys :: p in listed && phases[p].PodRunning?
      ensures pods == old(pods) - (old(pods).Keys - pods.Keys)
      ensures ok ==> forall p <- listed :: phases[p].PodRunning? ==> p !in pods
    {
      var i := 0;
      ok := true;
      while i < |listed|
        invariant 0 <= i <= |listed| && ok
        invariant pods == old(pods) - (old(pods).Keys - pods.Keys)
        invariant forall p <- old(pods).Keys - pods.Keys :: p in listed && phases[p].PodRunning?
        invariant forall p <- listed[..i] :: phases[p].PodRunning? ==> p !in pods
      {
        var p := listed[i];
        i := i + 1;
        if !phases[p].PodRunning? {
          continue;
        }
        ok := Answered();
        if !ok || p !in pods {
          ok := false;
          return;
        }
        pods := pods - {p};
      }
    }

    /** The two pod lists of a sync, without the reservation pods: the group's live pods. */
    method LivePods(g: Group) returns (ok: bool, fractions: seq<PodKey>)
      ensures ok ==> forall p :: p in fractions <==> p in pods && Live(pods[p]) && Labelled(pods[p], g)
    {
      fractions := [];
      var single := Listed(set p | p in pods && pods[p].single == Some(g));
      ok := Answered();
      if !ok {
        return;
      }
      var multi := Listed(set p | p in pods && g in pods[p].multi);
      var all := single + multi;
      assert forall p :: p in all <==> p in pods && Labelled(pods[p], g);
      for i := 0 to |all|
        invariant forall p <- fractions :: p in pods && Live(pods[p]) && Labelled(pods[p], g)
        invariant forall p <- all[..i] :: Live(pods[p]) ==> p in fractions
      {
        assert all[i] in all;
        if Live(pods[all[i]]) {
          fractions := fractions + [all[i]];
        }
      }
      assert all[..|all|] == all;
    }

    /** syncForGpuGroupWithLock */
    method SyncForGpuGroup(g: Group) returns (ok: bool)
      modifies this`pods, this`reservations
      ensures ok ==> SyncOf(old(Now()), Now(), g)
      ensures !ok ==> reservations == old(reservations) && exists gone ::
        gone <= RunningPods(old(Now()), g) && pods == old(pods) - gone && (IsReserved(Now(), g) ==> gone == {})
    {
      assert pods == pods - {};
      ok := Answered();
      if !ok {
        return;
      }
      var names := Listed(set r | r in reservations && r.group == g);
      var fractions;
      ok, fractions := LivePods(g);
      if !ok {
        return;
      }
      if |names| == 0 {
        assert forall r <- reservations.Keys :: r.group == g ==> r in names;
        var phases := map p | p in pods :: pods[p].phase;
        ok := DeleteNonReservedPods(fractions, phases);
        assert old(pods).Keys - pods.Keys <= RunningPods(old(Now()), g);
        if ok {
          assert old(pods).Keys - pods.Keys == RunningPods(old(Now()), g);
        }
        return;
      }
      var name := names[|names| - 1];
      assert name in names && name == Reserved(name.node, g);
      if |fractions| == 0 {
        var active;
        ok, active := HasActiveBindRequests(g);
        if !ok || active {
          return;
        }
        ok := Answered();
        if !ok {
          return;
        }
        reservations := reservations - {name};
      } else {
        assert fractions[0] in fractions;
      }
    }

    /** SyncForPodsList: one sync after another, until one fails. The trace has one state per sync. */
    method SyncForGroups(groups: set<Group>) returns (ok: bool, order: seq<Group>, ghost trace: seq<Objects>)
      modifies this`pods, this`reservations
      ensures ok ==> SyncAll(trace, order) && trace[0] == old(Now()) && trace[|order|] == Now()
      ensures EachOnce(order) && forall g :: g in order <==> g in groups
    {
      order := Listed(groups);
      trace := [Now()];
      ok := true;
      for i := 0 to |order|
        invariant ok && SyncAll(trace, order[..i]) && trace[0] == old(Now()) && trace[i] == Now()
      {
        ok := SyncForGpuGroup(order[i]);
        if !ok {
          return;
        }
        trace := trace + [Now()];
      }
      assert order[..|order|] == order;
    }

    /** findGPUIndexByGroup: the index of the first reservation listed. */
    method FindGpuIndex(g: Group) returns (ok: bool, index: Option<string>)
      ensures ok && index.Some? ==> exists n: Node ::
        Reserved(n, g) in reservations && reservations[Reserved(n, g)] == index
      ensures ok && index.None? ==> !IsReserved(Now(), g)
    {
      index := None;
      ok := Answered();
      if !ok {
        return;
      }
      var names := Listed(set r | r in reservations && r.group == g);
      if |names| == 0 {
        assert forall r <- reservations.Keys :: r.group == g ==> r in names;
        return;
      }
      assert names[0] in names && names[0] == Reserved(names[0].node, g);
      index := reservations[names[0]];
      ok := index.Some?;
    }

    /** createGPUReservationPodAndGetIndex. What the reservation pod writes, if it writes in time, comes
        from outside. A pod that does not answer is deleted again, if the API server lets it. */
    method CreateReservation(node: Node, g: Group) returns (ok: bool, index: string)
      modifies this`reservations
      ensures var r := Reserved(node, g);
              if ok then reservations == old(reservations)[r := Some(index)]
                         && (r in old(reservations) && old(reservations)[r].Some? ==> old(reservations)[r].value == index)
              else reservations - {r} == old(reservations) - {r}
    {
      index := "";
      var r := Reserved(node, g);
      ok := Answered();
      if !ok {
        return;
      }
      if r !in reservations {
        reservations := reservations[r := None];
      }
      var written: Option<string> := *;
      if reservations[r].Some? {
        written := reservations[r];
      }
      if !written.Some? {
        var deleted := Answered();
        if deleted {
          reservations := reservations - {r};
        }
        ok := false;
        return;
      }
      index := written.value;
      reservations := reservations[r := written];
    }

    /** ReserveGpuDevice, without the mutex. */
    method ReserveGpuDevice(p: PodKey, node: Node, g: Group, isMulti: bool) returns (ok: bool, index: string)
      modifies this`pods, this`reservations
      ensures ok ==> p in pods && Labelled(pods[p], g) && pods - {p} == old(pods) - {p} && pods.Keys == old(pods).Keys
      ensures ok ==> exists n: Node :: Reserved(n, g) in reservations && reservations[Reserved(n, g)] == Some(index)
      ensures ok && IsReserved(old(Now()), g) ==> reservations == old(reservations)
      ensures AtMostOneReservation(old(Now()), g) ==> AtMostOneReservation(Now(), g)
    {
      index := "";
      var found;
      ok, found := FindGpuIndex(g);
      if !ok {
        return;
      }
      if found.Some? {
        index := found.value;
      } else {
        ok, index := CreateReservation(node, g);
        assert forall n: Node :: n != node ==> Reserved(n, g) !in (reservations - {Reserved(node, g)});
        assert forall n: Node :: Reserved(n, g) in reservations ==> n == node;
        if !ok {
          return;
        }
        assert Reserved(node, g) in reservations;
      }
      ok := Answered();
      if !ok || p !in pods {
        ok := false;
        ghost var before := Now();
        var synced := SyncForGpuGroup(g);
        if synced {
          SyncKeepsIf(before, Now(), g);
        }
        return;
      }
      pods := pods[p := if isMulti then pods[p].(multi := pods[p].multi + {g}) else pods[p].(single := Some(g))];
    }

    /** RemovePodGpuGroupsConnection */
    method RemovePodGpuGroupsConnection(p: PodKey) returns (ok: bool)
      modifies this`pods
      ensures ok ==> p in pods && forall g: Group :: !Labelled(pods[p], g)
      ensures !ok ==> pods == old(pods)
      ensures pods - {p} == old(pods) - {p} && pods.Keys == old(pods).Keys
    {
      ok := Answered();
      if !ok || p !in pods {
        return false;
      }
      pods := pods[p := pods[p].(single := None, multi := {})];
    }
  }

  lemma SyncKeepsIf(o: Objects, o': Objects, g: Group)
    requires SyncOf(o, o', g)
    ensures AtMostOneReservation(o, g) ==> AtMostOneReservation(o', g)
  {
    if AtMostOneReservation(o, g) {
      SyncKeepsAtMostOne(o, o', g, g);
    }
  }
}
