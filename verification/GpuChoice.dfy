/** Which GPUs of a node a task that shares GPUs is given. */
module GpuChoice {
  import opened Cluster
  import opened Options
  import opened Sequences

  const WHOLE := WHOLE_GPU_INDICATOR

  /** What the choice reads of a node and a task. `shared` are the node's GPU groups in use, `fitting`
      those with room for the task, `idleNow` those with room that is free already. */
  datatype Offer = Offer(
    shared: set<string>, fitting: set<string>, idleNow: set<string>,
    idle: real, releasing: real, scores: map<string, real>, allocatable: bool)

  /** Go's conversion from float to int. */
  function Truncated(x: real): int {
    if x >= 0.0 then x.Floor else -((-x).Floor)
  }

  /** How many whole GPUs are offered. */
  function Wholes(o: Offer): nat {
    if o.idle > 0.0 || o.releasing > 0.0
    then (var n := Truncated(o.idle) + Truncated(o.releasing); if n > 0 then n else 0)
    else 0
  }

  /** How often an entry is offered: each shared group with room once, and the whole-GPU entry once for
      each whole GPU. */
  function Offered(o: Offer, g: string): nat {
    (if g in o.shared && g in o.fitting then 1 else 0) + (if g == WHOLE then Wholes(o) else 0)
  }

  ghost predicate Filtered(o: Offer, gpus: seq<string>) {
    forall g :: multiset(gpus)[g] == Offered(o, g)
  }

  /** The entries that could be scored. */
  function Scorable(o: Offer, gpus: seq<string>): seq<string> {
    if gpus == [] then []
    else Scorable(o, gpus[..|gpus| - 1]) + if gpus[|gpus| - 1] in o.scores then [gpus[|gpus| - 1]] else []
  }

  ghost predicate BestFirst(o: Offer, gpus: seq<string>) {
    && (forall i :: 0 <= i < |gpus| ==> gpus[i] in o.scores)
    && (forall i, j :: 0 <= i < j < |gpus| ==> o.scores[gpus[i]] >= o.scores[gpus[j]])
  }

  /** What FittingGPUs may return: every offered entry that can be scored, best first. */
  ghost predicate Fitting(o: Offer, sorted: seq<string>) {
    BestFirst(o, sorted) && forall g :: multiset(sorted)[g] == if g in o.scores then Offered(o, g) else 0
  }

  // ---------------------------------------------------------------- filter and sort

  /** filterGpusByEnoughResources, with the map in some order */
  method Filter(o: Offer) returns (gpus: seq<string>)
    ensures Filtered(o, gpus)
  {
    gpus := [];
    var shared := Listed(o.shared);
    for i := 0 to |shared|
      invariant forall g :: multiset(gpus)[g] == if g in shared[..i] && g in o.fitting then 1 else 0
    {
      assert shared[..i + 1] == shared[..i] + [shared[i]];
      assert shared[i] !in shared[..i];
      if shared[i] in o.fitting {
        gpus := gpus + [shared[i]];
      }
    }
    assert shared[..|shared|] == shared;
    ghost var groups := gpus;
    if o.idle > 0.0 || o.releasing > 0.0 {
      var k := 0;
      while k < Truncated(o.idle) + Truncated(o.releasing)
        invariant 0 <= k <= Wholes(o) && multiset(gpus) == multiset(groups)[WHOLE := multiset(groups)[WHOLE] + k]
      {
        gpus := gpus + [WHOLE];
        k := k + 1;
      }
    }
  }

  function ScoreOf(o: Offer, g: string): real {
    if g in o.scores then o.scores[g] else 0.0
  }

  function Higher(o: Offer): (string, string) -> bool {
    (a: string, b: string) => ScoreOf(o, a) > ScoreOf(o, b)
  }

  lemma {:induction false} ScorableCounts(o: Offer, gpus: seq<string>, g: string)
    ensures multiset(Scorable(o, gpus))[g] == if g in o.scores then multiset(gpus)[g] else 0
    decreases |gpus|
  {
    if gpus != [] {
      ScorableCounts(o, gpus[..|gpus| - 1], g);
      assert gpus == gpus[..|gpus| - 1] + [gpus[|gpus| - 1]];
    }
  }

  lemma SortedIsFitting(o: Offer, gpus: seq<string>, sorted: seq<string>)
    requires Filtered(o, gpus) && Sorted(Higher(o), sorted) && multiset(sorted) == multiset(Scorable(o, gpus))
    ensures Fitting(o, sorted)
  {
    forall g ensures multiset(sorted)[g] == if g in o.scores then Offered(o, g) else 0 { ScorableCounts(o, gpus, g); }
    forall i | 0 <= i < |sorted| ensures sorted[i] in o.scores { assert sorted[i] in multiset(sorted); }
    forall i, j | 0 <= i < j < |sorted| ensures ScoreOf(o, sorted[i]) >= ScoreOf(o, sorted[j]) {
      assert !Higher(o)(sorted[j], sorted[i]);
    }
  }

  lemma HigherIsWeakOrder(o: Offer)
    ensures WeakOrder(Higher(o))
  {
  }

  /** FittingGPUs; entries of equal score keep the order in which they were listed. */
  method FittingGpus(o: Offer) returns (sorted: seq<string>)
    ensures Fitting(o, sorted)
  {
    hide Filtered, Fitting, WeakOrder, Sorted;
    var gpus := Filter(o);
    HigherIsWeakOrder(o);
    sorted := [];
    NothingSorted(Higher(o));
    for i := 0 to |gpus|
      invariant Sorted(Higher(o), sorted) && multiset(sorted) == multiset(Scorable(o, gpus[..i]))
    {
      assert gpus[..i + 1][..i] == gpus[..i];
      if gpus[i] in o.scores {
        sorted := Insert(Higher(o), sorted, gpus[i]);
      }
    }
    assert gpus[..|gpus|] == gpus;
    SortedIsFitting(o, gpus, sorted);
  }

  // ---------------------------------------------------------------- choice

  datatype Choice = Choice(groups: seq<string>, isReleasing: bool)

  /** Must the task wait for this GPU? */
  predicate Waits(o: Offer, g: string, isSimulation: bool) {
    if g == WHOLE then isSimulation || !o.allocatable else g !in o.idleNow || !o.allocatable
  }

  /** The chosen group for entry `i`: a new one for a whole GPU. */
  function GroupFor(sorted: seq<string>, uuids: seq<string>, i: nat): string
    requires i < |sorted| <= |uuids|
  {
    if sorted[i] == WHOLE then uuids[i] else sorted[i]
  }

  /** GetNodePreferableGpuForSharing. `uuids` stands for the generated UUIDs, one for each position. */
  method Prefer(o: Offer, sorted: seq<string>, count: int, isSimulation: bool, uuids: seq<string>)
    returns (r: Option<Choice>)
    requires |sorted| <= |uuids|
    ensures r.Some? <==> 1 <= count <= |sorted|
    ensures r.Some? ==>
      && |r.value.groups| == count
      && (forall i :: 0 <= i < count ==> r.value.groups[i] == GroupFor(sorted, uuids, i))
      && (r.value.isReleasing <==> exists i :: 0 <= i < count && Waits(o, sorted[i], isSimulation))
  {
    var groups, isReleasing := [], false;
    for i := 0 to |sorted|
      invariant |groups| == i && (count < 1 || i < count)
      invariant forall j :: 0 <= j < i ==> groups[j] == GroupFor(sorted, uuids, j)
      invariant isReleasing <==> exists j :: 0 <= j < i && Waits(o, sorted[j], isSimulation)
    {
      var g := sorted[i];
      if g == WHOLE {
        isReleasing := isReleasing || isSimulation || !o.allocatable;
        groups := groups + [uuids[i]];
      } else {
        isReleasing := isReleasing || g !in o.idleNow || !o.allocatable;
        groups := groups + [g];
      }
      if |groups| == count {
        return Some(Choice(groups, isReleasing));
      }
    }
    r := None;
  }

  // ---------------------------------------------------------------- what the choice guarantees

  /** The chosen groups are distinct: shared groups occur once, and new ones are new. */
  lemma ChosenAreDistinct(o: Offer, sorted: seq<string>, uuids: seq<string>, i: nat, j: nat)
    requires Fitting(o, sorted) && WHOLE !in o.shared && |sorted| <= |uuids| && i < j < |sorted|
    requires forall a, b :: 0 <= a < b < |uuids| ==> uuids[a] != uuids[b]
    requires forall f <- uuids :: f !in o.shared && f != WHOLE
    ensures GroupFor(sorted, uuids, i) != GroupFor(sorted, uuids, j)
  {
    assert sorted[i] in multiset(sorted) && sorted[j] in multiset(sorted);
    assert uuids[i] in uuids && uuids[j] in uuids;
    if sorted[i] == sorted[j] { TwiceIn(sorted, i, j); }
  }

  lemma TwiceIn(s: seq<string>, i: nat, j: nat)
    requires i < j < |s| && s[i] == s[j]
    ensures multiset(s)[s[i]] >= 2
  {
    assert s == s[..i] + [s[i]] + s[i + 1..j] + [s[j]] + s[j + 1..];
  }

  lemma PrefixCounts(s: seq<string>, n: nat, g: string)
    requires n <= |s|
    ensures multiset(s[..n])[g] <= multiset(s)[g]
  {
    assert s == s[..n] + s[n..];
  }

  /** At most as many new groups are made as there are whole GPUs, idle or being released. */
  lemma NewGroupsWithinWholes(o: Offer, sorted: seq<string>, count: nat)
    requires Fitting(o, sorted) && WHOLE !in o.shared && count <= |sorted|
    ensures multiset(sorted[..count])[WHOLE] <= Wholes(o)
  {
    PrefixCounts(sorted, count, WHOLE);
  }

  function UsableGroups(o: Offer): set<string> {
    set g | g in o.shared && g in o.fitting && g in o.scores
  }

  /** How many GPUs there are to choose from. */
  function Available(o: Offer): nat {
    |UsableGroups(o)| + if WHOLE in o.scores then Wholes(o) else 0
  }

  lemma FittingLength(o: Offer, sorted: seq<string>)
    requires Fitting(o, sorted) && WHOLE !in o.shared
    ensures |sorted| == Available(o)
  {
    var wholes := if WHOLE in o.scores then Wholes(o) else 0;
    var expected := multiset(UsableGroups(o))[WHOLE := wholes];
    assert multiset(sorted) == expected;
    assert |multiset(UsableGroups(o))| == |UsableGroups(o)|;
    assert |sorted| == |multiset(sorted)|;
  }

  /** From the node to the choice: it fails exactly if fewer GPUs than asked for can be used; otherwise
      it gives that many distinct groups, prefers none over a better one, and makes no more new groups
      than there are whole GPUs. */
  method ChooseGpus(o: Offer, count: int, isSimulation: bool, uuids: seq<string>)
    returns (r: Option<Choice>, ghost sorted: seq<string>)
    requires WHOLE !in o.shared && |uuids| >= Available(o)
    requires forall a, b :: 0 <= a < b < |uuids| ==> uuids[a] != uuids[b]
    requires forall f <- uuids :: f !in o.shared && f != WHOLE
    ensures Fitting(o, sorted) && (r.Some? <==> 1 <= count <= Available(o))
    ensures r.Some? ==> |r.value.groups| == count && |sorted| >= count
    ensures r.Some? ==> forall i, j :: 0 <= i < j < count ==> r.value.groups[i] != r.value.groups[j]
    ensures r.Some? ==> forall i, j :: 0 <= i < count <= j < |sorted| ==> o.scores[sorted[j]] <= o.scores[sorted[i]]
    ensures r.Some? ==> forall i :: 0 <= i < count && sorted[i] != WHOLE ==> r.value.groups[i] == sorted[i]
    ensures r.Some? ==> multiset(sorted[..count])[WHOLE] <= Wholes(o)
  {
    hide Available, Wholes;
    var list := FittingGpus(o);
    sorted := list;
    FittingLength(o, sorted);
    r := Prefer(o, list, count, isSimulation, uuids);
    if r.Some? {
      NewGroupsWithinWholes(o, sorted, count);
      forall i, j | 0 <= i < j < count ensures r.value.groups[i] != r.value.groups[j] {
        ChosenAreDistinct(o, sorted, uuids, i, j);
      }
    }
  }
}
