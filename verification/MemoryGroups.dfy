/** The observed memory groups of a pod: how much of each memory resource its containers hold on each
    set of NUMA nodes. */
module MemoryGroups {
  import opened Options
  import opened Sequences
  import opened Strings
  import opened ZoneNames

  const MAX_AMOUNT: int := 0x7fff_ffff_ffff_ffff
  const REGULAR := "memory"

  /** A memory block as podResources reports it; a node without an ID is a nil entry. */
  datatype Block = Block(nodes: seq<Option<int>>, size: nat, memoryType: string)
  datatype Container = Container(name: string, memory: seq<Block>)

  /** A set of NUMA nodes, in ascending order, and the amount of each resource on it. */
  datatype Group = Group(nodes: seq<nat>, amounts: map<string, nat>)

  /** memoryResourceName */
  function Resource(b: Block): string {
    if b.memoryType == "" then REGULAR else b.memoryType
  }

  predicate IsMemory(name: string) {
    name == REGULAR || "hugepages-" <= name
  }

  predicate GoodNode(n: Option<int>) {
    n.Some? && n.value >= 0
  }

  function Mask(b: Block): (s: set<nat>) {
    set i | 0 <= i < |b.nodes| && GoodNode(b.nodes[i]) :: b.nodes[i].value
  }

  /** A block that the aggregation accepts on its own. */
  predicate Sound(b: Block) {
    && (forall i :: 0 <= i < |b.nodes| ==> GoodNode(b.nodes[i]))
    && |b.nodes| > 0 && b.size <= MAX_AMOUNT && IsMemory(Resource(b))
  }

  predicate For(b: Block, mask: set<nat>, name: string) {
    Mask(b) == mask && Resource(b) == name
  }

  /** The bytes of a resource on a set of nodes. */
  function Total(blocks: seq<Block>, mask: set<nat>, name: string): nat {
    if blocks == [] then 0
    else Total(blocks[..|blocks| - 1], mask, name) +
         if For(blocks[|blocks| - 1], mask, name) then blocks[|blocks| - 1].size else 0
  }

  ghost predicate Strictly(ids: seq<nat>) {
    forall i, j :: 0 <= i < j < |ids| ==> ids[i] < ids[j]
  }

  function Ids(g: Group): set<nat> {
    set n | n in g.nodes
  }

  ghost predicate Present(blocks: seq<Block>, mask: set<nat>, name: string) {
    exists i :: 0 <= i < |blocks| && For(blocks[i], mask, name)
  }

  ghost predicate Occurs(blocks: seq<Block>, mask: set<nat>) {
    exists i :: 0 <= i < |blocks| && Mask(blocks[i]) == mask
  }

  ghost predicate HasGroup(groups: seq<Group>, mask: set<nat>) {
    exists i :: 0 <= i < |groups| && Ids(groups[i]) == mask
  }

  /** The group lists exactly the resources that some block has on its nodes, with all their bytes. */
  ghost predicate Exact(g: Group, blocks: seq<Block>) {
    && Strictly(g.nodes)
    && (forall name :: name in g.amounts <==> Present(blocks, Ids(g), name))
    && (forall name <- g.amounts.Keys :: g.amounts[name] == Total(blocks, Ids(g), name))
  }

  /** One exact group for every set of nodes that occurs. */
  ghost predicate Grouped(groups: seq<Group>, blocks: seq<Block>) {
    && (forall i :: 0 <= i < |groups| ==> Exact(groups[i], blocks))
    && (forall mask :: HasGroup(groups, mask) <==> Occurs(blocks, mask))
    && (forall i, j :: 0 <= i < j < |groups| ==> groups[i].nodes != groups[j].nodes)
  }

  ghost predicate InKeyOrder(groups: seq<Group>) {
    forall i, j :: 0 <= i < j < |groups| ==> StringLess(Key(groups[i].nodes), Key(groups[j].nodes))
  }

  // ---------------------------------------------------------------- one canonical result

  lemma DropBlock(blocks: seq<Block>, i: nat, mask: set<nat>, name: string)
    requires i < |blocks|
    ensures Total(blocks, mask, name) ==
      Total(blocks[..i] + blocks[i + 1..], mask, name) + if For(blocks[i], mask, name) then blocks[i].size else 0
  {
    var b, tail := blocks[i], blocks[i + 1..];
    assert blocks == blocks[..i] + ([b] + tail);
    TotalConcat(blocks[..i], [b] + tail, mask, name);
    TotalConcat([b], tail, mask, name);
    TotalConcat(blocks[..i], tail, mask, name);
    assert [b][..0] == [];
  }

  lemma {:induction false} TotalConcat(a: seq<Block>, b: seq<Block>, mask: set<nat>, name: string)
    ensures Total(a + b, mask, name) == Total(a, mask, name) + Total(b, mask, name)
    decreases |b|
  {
    if b == [] {
      assert a + b == a;
    } else {
      assert (a + b)[..|a + b| - 1] == a + b[..|b| - 1];
      TotalConcat(a, b[..|b| - 1], mask, name);
    }
  }

  /** The totals do not depend on the order of the blocks. */
  lemma {:induction false} TotalPermutes(a: seq<Block>, b: seq<Block>, mask: set<nat>, name: string)
    requires multiset(a) == multiset(b)
    ensures Total(a, mask, name) == Total(b, mask, name)
    decreases |a|
  {
    hide Total;
    assert |a| == |multiset(a)| == |multiset(b)| == |b|;
    if a == [] {
      assert b == [];
    } else {
      var k := |a| - 1;
      assert a[k] in multiset(a);
      var i :| 0 <= i < |b| && b[i] == a[k];
      DropBlock(a, k, mask, name);
      DropBlock(b, i, mask, name);
      DropItem(a, k);
      DropItem(b, i);
      TotalPermutes(a[..k] + a[k + 1..], b[..i] + b[i + 1..], mask, name);
    }
  }

  lemma SameMembers(a: seq<Block>, b: seq<Block>)
    requires multiset(a) == multiset(b)
    ensures forall x :: x in a <==> x in b
    ensures forall mask, name :: Present(a, mask, name) <==> Present(b, mask, name)
    ensures forall mask :: Occurs(a, mask) <==> Occurs(b, mask)
  {
    forall x ensures x in a <==> x in b {
      assert x in a <==> x in multiset(a);
      assert x in b <==> x in multiset(b);
    }
    MembersPresent(a, b);
    MembersPresent(b, a);
  }

  lemma MembersPresent(a: seq<Block>, b: seq<Block>)
    requires forall x :: x in a ==> x in b
    ensures forall mask, name :: Present(a, mask, name) ==> Present(b, mask, name)
    ensures forall mask :: Occurs(a, mask) ==> Occurs(b, mask)
  {
    forall mask, name | Present(a, mask, name) ensures Present(b, mask, name) {
      var i :| 0 <= i < |a| && For(a[i], mask, name);
      assert a[i] in b;
    }
    forall mask | Occurs(a, mask) ensures Occurs(b, mask) {
      var i :| 0 <= i < |a| && Mask(a[i]) == mask;
      assert a[i] in b;
    }
  }

  lemma SameGroup(g: Group, h: Group, a: seq<Block>, b: seq<Block>)
    requires Exact(g, a) && Exact(h, b) && multiset(a) == multiset(b) && Ids(g) == Ids(h)
    ensures g == h
  {
    SameMembers(a, b);
    forall n ensures n in g.nodes <==> n in h.nodes {
      assert n in g.nodes <==> n in Ids(g);
      assert n in h.nodes <==> n in Ids(h);
    }
    StrictOrderIsUnique((x: nat, y: nat) => x < y, g.nodes, h.nodes);
    forall name ensures name in g.amounts <==> name in h.amounts { }
    forall name | name in g.amounts ensures g.amounts[name] == h.amounts[name] {
      TotalPermutes(a, b, Ids(g), name);
    }
    assert g.amounts == h.amounts;
  }

  predicate KeyLess(g: Group, h: Group) {
    StringLess(Key(g.nodes), Key(h.nodes))
  }

  lemma GroupsHaveCounterparts(gs: seq<Group>, a: seq<Block>, hs: seq<Group>, b: seq<Block>, g: Group)
    requires Grouped(gs, a) && Grouped(hs, b) && multiset(a) == multiset(b) && g in gs
    ensures g in hs
  {
    SameMembers(a, b);
    var i :| 0 <= i < |gs| && gs[i] == g;
    assert HasGroup(gs, Ids(g));
    assert HasGroup(hs, Ids(g));
    var j :| 0 <= j < |hs| && Ids(hs[j]) == Ids(g);
    SameGroup(g, hs[j], a, b);
  }

  /** The same blocks, in whatever order, have only one list of groups in key order. */
  lemma CanonicalGroups(gs: seq<Group>, a: seq<Block>, hs: seq<Group>, b: seq<Block>)
    requires Grouped(gs, a) && Grouped(hs, b) && multiset(a) == multiset(b) && InKeyOrder(gs) && InKeyOrder(hs)
    ensures gs == hs
  {
    forall g ensures g in gs <==> g in hs {
      if g in gs { GroupsHaveCounterparts(gs, a, hs, b, g); }
      if g in hs { GroupsHaveCounterparts(hs, b, gs, a, g); }
    }
    forall g, h | KeyLess(g, h) ensures !KeyLess(h, g) { StringTotal(Key(g.nodes), Key(h.nodes)); }
    StrictOrderIsUnique(KeyLess, gs, hs);
  }

  // ---------------------------------------------------------------- adding one block

  lemma AppendBlock(done: seq<Block>, b: Block, mask: set<nat>, name: string)
    ensures Total(done + [b], mask, name) == Total(done, mask, name) + if For(b, mask, name) then b.size else 0
    ensures Present(done + [b], mask, name) <==> Present(done, mask, name) || For(b, mask, name)
    ensures Occurs(done + [b], mask) <==> Occurs(done, mask) || Mask(b) == mask
  {
    var more := done + [b];
    assert more[..|more| - 1] == done && more[|done|] == b;
    assert forall i :: 0 <= i < |done| ==> more[i] == done[i];
  }

  lemma {:induction false} AbsentIsZero(blocks: seq<Block>, mask: set<nat>, name: string)
    requires !Present(blocks, mask, name)
    ensures Total(blocks, mask, name) == 0
    decreases |blocks|
  {
    if blocks != [] {
      var n := |blocks| - 1;
      assert !For(blocks[n], mask, name);
      assert forall i :: 0 <= i < n ==> blocks[..n][i] == blocks[i];
      AbsentIsZero(blocks[..n], mask, name);
    }
  }

  /** The group with the block's bytes added. */
  function WithBlock(g: Group, b: Block): Group {
    var name := Resource(b);
    Group(g.nodes, g.amounts[name := (if name in g.amounts then g.amounts[name] else 0) + b.size])
  }

  lemma WithBlockExact(g: Group, done: seq<Block>, b: Block)
    requires Exact(g, done) && Ids(g) == Mask(b)
    ensures Exact(WithBlock(g, b), done + [b])
    ensures WithBlock(g, b).amounts[Resource(b)] == Total(done + [b], Mask(b), Resource(b))
  {
    var h := WithBlock(g, b);
    assert Ids(h) == Ids(g);
    forall name ensures name in h.amounts <==> Present(done + [b], Ids(h), name) {
      AppendBlock(done, b, Ids(h), name);
    }
    forall name | name in h.amounts ensures h.amounts[name] == Total(done + [b], Ids(h), name) {
      AppendBlock(done, b, Ids(h), name);
      if name !in g.amounts { AbsentIsZero(done, Ids(h), name); }
    }
  }

  lemma OtherExact(g: Group, done: seq<Block>, b: Block)
    requires Exact(g, done) && Ids(g) != Mask(b)
    ensures Exact(g, done + [b])
  {
    forall name ensures name in g.amounts <==> Present(done + [b], Ids(g), name) { AppendBlock(done, b, Ids(g), name); }
    forall name | name in g.amounts ensures g.amounts[name] == Total(done + [b], Ids(g), name) {
      AppendBlock(done, b, Ids(g), name);
    }
  }

  /** A group for nodes that no block has yet. */
  lemma NewGroupExact(ids: seq<nat>, done: seq<Block>)
    requires Strictly(ids) && !Occurs(done, Ids(Group(ids, map[])))
    ensures Exact(Group(ids, map[]), done)
  {
  }

  lemma IdsDiffer(g: Group, h: Group)
    requires Strictly(g.nodes) && Strictly(h.nodes) && g.nodes != h.nodes
    ensures Ids(g) != Ids(h)
  {
    if Ids(g) == Ids(h) {
      forall n ensures n in g.nodes <==> n in h.nodes {
        assert n in Ids(g) <==> n in g.nodes;
        assert n in Ids(h) <==> n in h.nodes;
      }
      StrictOrderIsUnique((x: nat, y: nat) => x < y, g.nodes, h.nodes);
    }
  }

  lemma GroupedInPlace(groups: seq<Group>, done: seq<Block>, b: Block, k: nat)
    requires Grouped(groups, done) && k < |groups| && Ids(groups[k]) == Mask(b)
    ensures Grouped(groups[k := WithBlock(groups[k], b)], done + [b])
  {
    var next := groups[k := WithBlock(groups[k], b)];
    assert forall i :: 0 <= i < |next| ==> next[i].nodes == groups[i].nodes && Ids(next[i]) == Ids(groups[i]);
    forall i | 0 <= i < |next| ensures Exact(next[i], done + [b]) {
      if i == k { WithBlockExact(groups[k], done, b); }
      else {
        assert groups[i].nodes != groups[k].nodes;
        IdsDiffer(groups[i], groups[k]);
        OtherExact(groups[i], done, b);
      }
    }
    forall mask ensures HasGroup(next, mask) <==> Occurs(done + [b], mask) {
      AppendBlock(done, b, mask, "");
      SameIdsHasGroup(groups, next, mask);
      assert HasGroup(groups, Mask(b));
    }
  }

  lemma SameIdsHasGroup(gs: seq<Group>, hs: seq<Group>, mask: set<nat>)
    requires |gs| == |hs| && forall i :: 0 <= i < |gs| ==> Ids(gs[i]) == Ids(hs[i])
    ensures HasGroup(gs, mask) <==> HasGroup(hs, mask)
  {
    if HasGroup(gs, mask) { var i :| 0 <= i < |gs| && Ids(gs[i]) == mask; assert Ids(hs[i]) == mask; }
    if HasGroup(hs, mask) { var i :| 0 <= i < |hs| && Ids(hs[i]) == mask; assert Ids(gs[i]) == mask; }
  }

  lemma GroupedAppend(groups: seq<Group>, done: seq<Block>, b: Block, ids: seq<nat>)
    requires Grouped(groups, done) && Strictly(ids) && Ids(Group(ids, map[])) == Mask(b) && !HasGroup(groups, Mask(b))
    ensures Grouped(groups + [WithBlock(Group(ids, map[]), b)], done + [b])
  {
    var g := Group(ids, map[]);
    var h := WithBlock(g, b);
    var next := groups + [h];
    assert Ids(h) == Ids(g);
    NewGroupExact(ids, done);
    WithBlockExact(g, done, b);
    forall i | 0 <= i < |next| ensures Exact(next[i], done + [b]) {
      if i < |groups| {
        assert Ids(groups[i]) != Mask(b);
        OtherExact(groups[i], done, b);
      }
    }
    forall mask ensures HasGroup(next, mask) <==> Occurs(done + [b], mask) {
      AppendBlock(done, b, mask, "");
      if HasGroup(groups, mask) { var i :| 0 <= i < |groups| && Ids(groups[i]) == mask; assert Ids(next[i]) == mask; }
      assert Ids(next[|groups|]) == Mask(b);
      assert forall i :: 0 <= i < |groups| ==> next[i] == groups[i];
    }
    forall i | 0 <= i < |groups| ensures next[i].nodes != h.nodes {
      assert Ids(groups[i]) != Mask(b);
    }
  }
}
