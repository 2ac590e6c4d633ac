/** The node's exporter: which memory-group value it publishes for each pod, pass after pass. */
module Exporter {
  import opened MemoryGroups
  import opened MemoryAggregation

  type Uid = string

  /** A container that should hold memory, with its requests. */
  datatype Expected = Expected(name: string, requests: map<string, int>)

  /** `annotated` says whether the pod already carries a value; `started` has the containers that run or
      have ended, and `anyStarted` whether there is any, of a kind that counts. */
  datatype Pod = Pod(uid: Uid, guaranteed: bool, annotated: bool, expected: seq<Expected>,
                     started: set<string>, anyStarted: bool, observed: seq<Container>)

  /** The annotation: none yet, "null", or a list of groups. */
  datatype Value = Absent | Incomplete | Listed(groups: seq<Group>)

  function Names(expected: seq<Expected>): set<string> {
    set e | e in expected :: e.name
  }

  predicate HasBlock(memory: seq<Block>, name: string) {
    exists i :: 0 <= i < |memory| && Resource(memory[i]) == name
  }

  /** A requested resource has been observed: the container has started, is reported, and has a block. */
  predicate Observed(p: Pod, e: Expected, name: string) {
    && e.name in p.started
    && exists i :: 0 <= i < |p.observed| && p.observed[i].name == e.name && HasBlock(p.observed[i].memory, name)
  }

  predicate Wanted(e: Expected, name: string) {
    name in e.requests && IsMemory(name) && e.requests[name] > 0
  }

  /** memoryObservationComplete */
  predicate Complete(p: Pod) {
    forall i :: 0 <= i < |p.expected| ==>
      forall name <- p.expected[i].requests.Keys :: Wanted(p.expected[i], name) ==> Observed(p, p.expected[i], name)
  }

  /** memoryObservationComplete, for an accepted observation */
  method IsComplete(p: Pod) returns (complete: bool)
    requires !DuplicateNames(p.observed)
    ensures complete == Complete(p)
  {
    var i := 0;
    while i < |p.expected|
      invariant 0 <= i <= |p.expected|
      invariant forall j :: 0 <= j < i ==>
        forall name <- p.expected[j].requests.Keys :: Wanted(p.expected[j], name) ==> Observed(p, p.expected[j], name)
    {
      var left := p.expected[i].requests.Keys;
      while left != {}
        invariant left <= p.expected[i].requests.Keys
        invariant forall name <- p.expected[i].requests.Keys - left ::
          Wanted(p.expected[i], name) ==> Observed(p, p.expected[i], name)
        decreases left
      {
        var name :| name in left;
        left := left - {name};
        if !Wanted(p.expected[i], name) {
          continue;
        }
        var found := FindBlock(p, p.expected[i], name);
        if !found {
          return false;
        }
      }
      i := i + 1;
    }
    complete := true;
  }

  method FindBlock(p: Pod, e: Expected, name: string) returns (found: bool)
    requires !DuplicateNames(p.observed)
    ensures found == Observed(p, e, name)
  {
    if e.name !in p.started {
      return false;
    }
    var i := 0;
    while i < |p.observed| && p.observed[i].name != e.name
      invariant 0 <= i <= |p.observed| && forall j :: 0 <= j < i ==> p.observed[j].name != e.name
    {
      i := i + 1;
    }
    if i == |p.observed| {
      return false;
    }
    found := false;
    var memory := p.observed[i].memory;
    for k := 0 to |memory|
      invariant found <==> exists q :: 0 <= q < k && Resource(memory[q]) == name
    {
      if Resource(memory[k]) == name {
        found := true;
      }
    }
    assert found == HasBlock(memory, name);
    assert forall j :: 0 <= j < |p.observed| && p.observed[j].name == e.name ==> j == i;
  }

  /** Nothing at all has been seen of the pod's memory yet. */
  ghost predicate NothingSeen(p: Pod) {
    && p.guaranteed && !Rejected(p.observed, Names(p.expected)) && !Complete(p)
    && Blocks(p.observed) == [] && !p.anyStarted
  }

  /** MemoryGroupsValue: no value exactly while nothing has been seen, now or before; a list exactly if
      the observation is accepted and complete, and then it is the list of its groups. */
  method MemoryGroupsValue(p: Pod, previously: bool) returns (v: Value)
    ensures v.Absent? <==> NothingSeen(p) && !previously
    ensures !p.guaranteed ==> v == Listed([])
    ensures p.guaranteed ==> (v.Listed? <==> !Rejected(p.observed, Names(p.expected)) && Complete(p))
    ensures p.guaranteed && v.Listed? ==> Grouped(v.groups, Blocks(p.observed)) && InKeyOrder(v.groups)
  {
    if !p.guaranteed {
      return Listed([]);
    }
    var ok, groups, represented := Aggregate(p.observed, Names(p.expected));
    if !ok {
      return Incomplete;
    }
    var complete := IsComplete(p);
    if !complete {
      NoGroupsNoBlocks(groups, Blocks(p.observed));
      if |groups| != 0 || p.anyStarted || previously {
        return Incomplete;
      }
      return Absent;
    }
    v := Listed(groups);
  }

  lemma NoGroupsNoBlocks(groups: seq<Group>, blocks: seq<Block>)
    requires Grouped(groups, blocks)
    ensures groups == [] <==> blocks == []
  {
    if blocks != [] { assert Occurs(blocks, Mask(blocks[0])); assert HasGroup(groups, Mask(blocks[0])); }
    if groups != [] { assert HasGroup(groups, Ids(groups[0])); assert Occurs(blocks, Ids(groups[0])); }
  }

  // ---------------------------------------------------------------- passes

  /** One pass on a node with real GPUs: `values[i]` is computed for `pods[i]`, and `published` are the
      pods whose value, not absent, is on the pod at the end of the pass. */
  datatype Pass = Pass(pods: seq<Pod>, values: seq<Value>, published: set<Uid>)

  function Uids(pods: seq<Pod>): set<Uid> {
    set p | p in pods :: p.uid
  }

  ghost predicate PassFrom(written: set<Uid>, pass: Pass) {
    && |pass.values| == |pass.pods| && pass.published <= Uids(pass.pods)
    && forall i :: 0 <= i < |pass.pods| ==>
         (pass.values[i].Absent? ==> NothingSeen(pass.pods[i]) && !pass.pods[i].annotated && pass.pods[i].uid !in written)
  }

  /** What the exporter remembers: the pods that have had a value, as long as they are listed. */
  function Remembered(written: set<Uid>, pass: Pass): set<Uid> {
    (written + pass.published) * Uids(pass.pods)
  }

  ghost predicate Passes(written: seq<set<Uid>>, passes: seq<Pass>) {
    && |written| == |passes| + 1
    && forall k :: 0 <= k < |passes| ==>
         PassFrom(written[k], passes[k]) && written[k + 1] == Remembered(written[k], passes[k])
  }

  lemma {:induction false} StaysRemembered(written: seq<set<Uid>>, passes: seq<Pass>, i: nat, j: nat, uid: Uid)
    requires Passes(written, passes) && i < j <= |passes| && uid in passes[i].published
    requires forall k :: i <= k < j ==> uid in Uids(passes[k].pods)
    ensures uid in written[j]
    decreases j
  {
    if i < j - 1 { StaysRemembered(written, passes, i, j - 1, uid); }
  }

  /** Over every run of passes: once a value has been published for a pod, every later pass that lists
      the pod, without a pass in between that does not, computes a value for it, whatever the annotation
      that it reads and whatever podResources reports. */
  lemma NeverAbsentAgain(written: seq<set<Uid>>, passes: seq<Pass>, i: nat, j: nat, q: nat)
    requires Passes(written, passes) && i < j < |passes| && q < |passes[j].pods|
    requires passes[j].pods[q].uid in passes[i].published
    requires forall k :: i <= k <= j ==> passes[j].pods[q].uid in Uids(passes[k].pods)
    ensures !passes[j].values[q].Absent?
  {
    StaysRemembered(written, passes, i, j, passes[j].pods[q].uid);
  }

  class Exporter {
    var written: set<Uid>

    /** reconcile on a node with real GPUs, after its two list calls; each patch may be refused. */
    method Reconcile(pods: seq<Pod>) returns (pass: Pass)
      modifies this
      ensures pass.pods == pods && PassFrom(old(written), pass) && written == Remembered(old(written), pass)
    {
      var values: seq<Value> := [];
      var published: set<Uid> := {};
      for i := 0 to |pods|
        invariant |values| == i && published <= Uids(pods[..i]) && written == old(written) + published
        invariant PassFrom(old(written), Pass(pods[..i], values, published))
      {
        var p := pods[i];
        assert pods[..i + 1] == pods[..i] + [p];
        var value := MemoryGroupsValue(p, p.annotated || p.uid in written);
        values := values + [value];
        var refused: bool := *;
        if refused || value.Absent? {
          continue;
        }
        written := written + {p.uid};
        published := published + {p.uid};
      }
      assert pods[..|pods|] == pods;
      pass := Pass(pods, values, published);
      written := written * Uids(pods);
    }
  }
}
