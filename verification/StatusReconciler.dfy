/** The operator's status conditions: how a reconcile keeps them, and why it comes to rest. */
module StatusReconciler {

  datatype Kind = Deployed | Available | DependenciesFulfilled | Ready | Reconciling | Other(name: string)

  /** `stamp` stands for the reason and the transition time, which are never compared. */
  datatype Condition = Condition(kind: Kind, generation: int, status: bool, message: string, stamp: int)

  /** The new condition says nothing that the old one does not. */
  predicate Says(before: Condition, after: Condition) {
    before.generation == after.generation && before.status == after.status && before.message == after.message
  }

  /** The first condition of a kind, if any. */
  function Find(cs: seq<Condition>, kind: Kind): (i: nat)
    ensures i <= |cs| && (i < |cs| ==> cs[i].kind == kind) && forall j :: 0 <= j < i ==> cs[j].kind != kind
  {
    if cs == [] then 0
    else
      var i := Find(cs[..|cs| - 1], kind);
      if i < |cs| - 1 then i else if cs[|cs| - 1].kind == kind then |cs| - 1 else |cs|
  }

  /** The list already holds the condition, as far as anybody compares. */
  predicate Holds(cs: seq<Condition>, c: Condition) {
    var i := Find(cs, c.kind);
    i < |cs| && Says(cs[i], c)
  }

  /** reconcileCondition, the list afterwards */
  function Upserted(cs: seq<Condition>, c: Condition): seq<Condition> {
    var i := Find(cs, c.kind);
    if Holds(cs, c) then cs else if i < |cs| then cs[i := c] else cs + [c]
  }

  ghost predicate OnePerKind(cs: seq<Condition>) {
    forall i, j :: 0 <= i < j < |cs| ==> cs[i].kind != cs[j].kind
  }

  lemma FindIs(cs: seq<Condition>, kind: Kind, i: nat)
    requires i < |cs| && cs[i].kind == kind && forall j :: 0 <= j < i ==> cs[j].kind != kind
    ensures Find(cs, kind) == i
  {
  }

  lemma UpsertedHolds(cs: seq<Condition>, c: Condition)
    ensures Holds(Upserted(cs, c), c)
  {
    if !Holds(cs, c) { FindIs(Upserted(cs, c), c.kind, Find(cs, c.kind)); }
  }

  lemma UpsertedLeavesOthers(cs: seq<Condition>, c: Condition, other: Condition)
    requires other.kind != c.kind
    ensures Holds(Upserted(cs, c), other) <==> Holds(cs, other)
  {
    var k := Find(cs, other.kind);
    if k < |cs| { FindIs(Upserted(cs, c), other.kind, k); }
  }

  lemma UpsertedOnePerKind(cs: seq<Condition>, c: Condition)
    requires OnePerKind(cs)
    ensures OnePerKind(Upserted(cs, c))
  {
  }

  /** An update is there afterwards, leaves every other kind alone, and keeps one condition per kind. */
  lemma UpsertedKeeps(cs: seq<Condition>, c: Condition, other: Condition)
    ensures Holds(Upserted(cs, c), c)
    ensures other.kind != c.kind ==> (Holds(Upserted(cs, c), other) <==> Holds(cs, other))
    ensures OnePerKind(cs) ==> OnePerKind(Upserted(cs, c))
  {
    hide Holds, Upserted, OnePerKind;
    UpsertedHolds(cs, c);
    if other.kind != c.kind { UpsertedLeavesOthers(cs, c, other); }
    if OnePerKind(cs) { UpsertedOnePerKind(cs, c); }
  }

  function UpsertedAll(cs: seq<Condition>, wanted: seq<Condition>): seq<Condition>
    decreases |wanted|
  {
    if wanted == [] then cs else UpsertedAll(Upserted(cs, wanted[0]), wanted[1..])
  }

  /** How many patches that takes. */
  function Patches(cs: seq<Condition>, wanted: seq<Condition>): nat
    decreases |wanted|
  {
    if wanted == [] then 0
    else (if Holds(cs, wanted[0]) then 0 else 1) + Patches(Upserted(cs, wanted[0]), wanted[1..])
  }

  lemma {:induction false} OthersStay(cs: seq<Condition>, wanted: seq<Condition>, c: Condition)
    requires forall i :: 0 <= i < |wanted| ==> wanted[i].kind != c.kind
    ensures Holds(UpsertedAll(cs, wanted), c) <==> Holds(cs, c)
    decreases |wanted|
  {
    if wanted != [] {
      UpsertedKeeps(cs, wanted[0], c);
      OthersStay(Upserted(cs, wanted[0]), wanted[1..], c);
    }
  }

  lemma {:induction false} AllHeld(cs: seq<Condition>, wanted: seq<Condition>, i: nat)
    requires OnePerKind(wanted) && i < |wanted|
    ensures Holds(UpsertedAll(cs, wanted), wanted[i])
    decreases |wanted|
  {
    var next := Upserted(cs, wanted[0]);
    if i == 0 {
      UpsertedKeeps(cs, wanted[0], wanted[0]);
      OthersStay(next, wanted[1..], wanted[0]);
    } else {
      AllHeld(next, wanted[1..], i - 1);
    }
  }

  lemma {:induction false} NothingToDo(cs: seq<Condition>, wanted: seq<Condition>)
    requires forall i :: 0 <= i < |wanted| ==> Holds(cs, wanted[i])
    ensures UpsertedAll(cs, wanted) == cs && Patches(cs, wanted) == 0
    decreases |wanted|
  {
    if wanted != [] {
      assert Holds(cs, wanted[0]);
      assert forall i :: 0 <= i < |wanted| - 1 ==> wanted[1..][i] == wanted[i + 1];
      NothingToDo(cs, wanted[1..]);
    }
  }

  // ---------------------------------------------------------------- a reconcile

  /** What the operands answer. */
  datatype Answers = Answers(deployed: (bool, string), available: (bool, string), dependencies: (bool, string))

  function DeployedCondition(gen: int, a: Answers, now: int): Condition {
    Condition(Deployed, gen, a.deployed.0, a.deployed.1, now)
  }

  function ReconcilingCondition(gen: int, busy: bool, now: int): Condition {
    Condition(Reconciling, gen, busy,
              if busy then "Reconciliation in progress" else "Reconciliation completed successfully", now)
  }

  /** The conditions of ReconcileStatus, in its order. */
  function FullStatus(gen: int, a: Answers, now: int): seq<Condition> {
    [ DeployedCondition(gen, a, now),
      Condition(Available, gen, a.available.0, a.available.1, now),
      Condition(DependenciesFulfilled, gen, a.dependencies.0, a.dependencies.1, now),
      Condition(Ready, gen, a.available.0, if a.available.0 then "System is ready" else "System not ready", now),
      ReconcilingCondition(gen, false, now) ]
  }

  /** hasReconcilingConditionForGeneration */
  predicate Begun(cs: seq<Condition>, gen: int) {
    var i := Find(cs, Reconciling);
    i < |cs| && cs[i].generation == gen
  }

  function StartStatus(cs: seq<Condition>, gen: int, a: Answers, now: int): seq<Condition> {
    if Begun(cs, gen) then [] else [ReconcilingCondition(gen, true, now), DeployedCondition(gen, a, now)]
  }

  function Reconciled(cs: seq<Condition>, gen: int, a: Answers, now: int): seq<Condition> {
    UpsertedAll(UpsertedAll(cs, StartStatus(cs, gen, a, now)), FullStatus(gen, a, now))
  }

  function ReconcilePatches(cs: seq<Condition>, gen: int, a: Answers, now: int): nat {
    Patches(cs, StartStatus(cs, gen, a, now)) +
    Patches(UpsertedAll(cs, StartStatus(cs, gen, a, now)), FullStatus(gen, a, now))
  }

  lemma HoldsAlike(cs: seq<Condition>, c: Condition, d: Condition)
    requires Holds(cs, c) && c.kind == d.kind && Says(c, d)
    ensures Holds(cs, d)
  {
  }

  lemma HasBegun(cs: seq<Condition>, c: Condition)
    requires Holds(cs, c) && c.kind == Reconciling
    ensures Begun(cs, c.generation)
  {
  }

  /** Two passes with the same answers write the same conditions, up to their stamps. */
  lemma StatusAlike(gen: int, a: Answers, now: int, later: int, i: nat)
    requires i < 5
    ensures var first, second := FullStatus(gen, a, now), FullStatus(gen, a, later);
            |first| == |second| == 5 && first[i].kind == second[i].kind && Says(first[i], second[i])
  {
  }

  lemma StatusKinds(gen: int, a: Answers, now: int)
    ensures |FullStatus(gen, a, now)| == 5 && OnePerKind(FullStatus(gen, a, now))
    ensures FullStatus(gen, a, now)[4].kind == Reconciling && FullStatus(gen, a, now)[4].generation == gen
  {
  }

  /** Every condition of a later pass is there after a pass. */
  lemma LaterStatusHeld(cs: seq<Condition>, gen: int, a: Answers, now: int, later: int, i: nat)
    requires i < 5
    ensures |FullStatus(gen, a, later)| == 5 && Holds(Reconciled(cs, gen, a, now), FullStatus(gen, a, later)[i])
  {
    hide UpsertedAll, Holds, FullStatus, OnePerKind, Says;
    StatusKinds(gen, a, now);
    StatusAlike(gen, a, now, later, i);
    AllHeld(UpsertedAll(cs, StartStatus(cs, gen, a, now)), FullStatus(gen, a, now), i);
    HoldsAlike(Reconciled(cs, gen, a, now), FullStatus(gen, a, now)[i], FullStatus(gen, a, later)[i]);
  }

  /** Once a whole pass has gone through, a later pass for the same generation and with the same answers
      sends no patch and leaves the conditions as they are, at whatever time it runs: the loop of status
      update and reconcile comes to rest after one pass. */
  lemma Quiescent(cs: seq<Condition>, gen: int, a: Answers, now: int, later: int)
    ensures var after := Reconciled(cs, gen, a, now);
            ReconcilePatches(after, gen, a, later) == 0 && Reconciled(after, gen, a, later) == after
  {
    hide UpsertedAll, Patches, Holds, Begun, FullStatus;
    var second, after := FullStatus(gen, a, later), Reconciled(cs, gen, a, now);
    StatusKinds(gen, a, later);
    forall i | 0 <= i < |second| ensures Holds(after, second[i]) {
      LaterStatusHeld(cs, gen, a, now, later, i);
    }
    HasBegun(after, second[4]);
    assert StartStatus(after, gen, a, later) == [];
    NothingToDo(after, []);
    NothingToDo(after, second);
  }

  lemma {:induction false} AllKeepOnePerKind(cs: seq<Condition>, wanted: seq<Condition>)
    requires OnePerKind(cs)
    ensures OnePerKind(UpsertedAll(cs, wanted))
    decreases |wanted|
  {
    if wanted != [] {
      UpsertedKeeps(cs, wanted[0], wanted[0]);
      AllKeepOnePerKind(Upserted(cs, wanted[0]), wanted[1..]);
    }
  }

  /** A reconcile keeps at most one condition per kind. */
  lemma ReconcileKeepsOnePerKind(cs: seq<Condition>, gen: int, a: Answers, now: int)
    requires OnePerKind(cs)
    ensures OnePerKind(Reconciled(cs, gen, a, now))
  {
    AllKeepOnePerKind(cs, StartStatus(cs, gen, a, now));
    AllKeepOnePerKind(UpsertedAll(cs, StartStatus(cs, gen, a, now)), FullStatus(gen, a, now));
  }

  class Status {
    var conditions: seq<Condition>
    var patches: nat

    /** reconcileCondition. The conditions in memory change even if the patch is refused. */
    method ReconcileCondition(c: Condition) returns (ok: bool)
      modifies this
      ensures conditions == Upserted(old(conditions), c)
      ensures patches == old(patches) + if Holds(old(conditions), c) then 0 else 1
      ensures Holds(old(conditions), c) ==> ok
    {
      var i := 0;
      while i < |conditions| && conditions[i].kind != c.kind
        invariant 0 <= i <= |conditions| && conditions == old(conditions) && patches == old(patches)
        invariant forall j :: 0 <= j < i ==> conditions[j].kind != c.kind
      {
        i := i + 1;
      }
      if i < |conditions| {
        FindIs(conditions, c.kind, i);
        if Says(conditions[i], c) {
          return true;
        }
        conditions := conditions[i := c];
      } else {
        conditions := conditions + [c];
      }
      patches := patches + 1;
      ok := *;
    }

    /** A list of conditions one after the other, until a patch is refused. */
    method ReconcileAll(wanted: seq<Condition>) returns (ok: bool)
      modifies this
      ensures ok ==> conditions == UpsertedAll(old(conditions), wanted)
      ensures ok ==> patches == old(patches) + Patches(old(conditions), wanted)
    {
      ok := true;
      assert wanted[0..] == wanted;
      for i := 0 to |wanted|
        invariant ok && UpsertedAll(conditions, wanted[i..]) == UpsertedAll(old(conditions), wanted)
        invariant patches + Patches(conditions, wanted[i..]) == old(patches) + Patches(old(conditions), wanted)
      {
        assert wanted[i..][1..] == wanted[i + 1..] && wanted[i..][0] == wanted[i];
        ok := ReconcileCondition(wanted[i]);
        if !ok {
          return;
        }
      }
    }

    /** UpdateStartReconcileStatus and then ReconcileStatus, with every answer from the operands the same. */
    method Reconcile(gen: int, a: Answers, now: int) returns (ok: bool)
      modifies this
      ensures ok ==> conditions == Reconciled(old(conditions), gen, a, now)
      ensures ok ==> patches == old(patches) + ReconcilePatches(old(conditions), gen, a, now)
    {
      ok := ReconcileAll(StartStatus(conditions, gen, a, now));
      if ok {
        ok := ReconcileAll(FullStatus(gen, a, now));
      }
    }
  }
}
