/** aggregateMemoryGroups: what it rejects, and what it returns. */
module MemoryAggregation {
  import opened Sequences
  import opened Strings
  import opened ZoneNames
  import opened MemoryGroups

  function Blocks(containers: seq<Container>): seq<Block> {
    if containers == [] then []
    else Blocks(containers[..|containers| - 1]) + containers[|containers| - 1].memory
  }

  ghost predicate DuplicateNames(containers: seq<Container>) {
    exists i, j :: 0 <= i < j < |containers| && containers[i].name == containers[j].name
  }

  predicate Unexpected(c: Container, expected: set<string>) {
    c.memory != [] && c.name !in expected
  }

  ghost predicate Overflows(blocks: seq<Block>) {
    exists mask, name :: Total(blocks, mask, name) > MAX_AMOUNT
  }

  /** The observations that are reported as invalid. */
  ghost predicate Rejected(containers: seq<Container>, expected: set<string>) {
    || DuplicateNames(containers)
    || (exists c <- containers :: Unexpected(c, expected))
    || (exists b <- Blocks(containers) :: !Sound(b))
    || Overflows(Blocks(containers))
  }

  // ---------------------------------------------------------------- adding a block

  method SortedIds(nodes: set<nat>) returns (ids: seq<nat>)
    ensures Strictly(ids) && forall n :: n in ids <==> n in nodes
  {
    var list := Listed(nodes);
    ids := [];
    for k := 0 to |list|
      invariant Strictly(ids) && forall n :: n in ids <==> n in list[..k]
    {
      var x := list[k];
      var i := 0;
      while i < |ids| && ids[i] < x
        invariant 0 <= i <= |ids| && forall j :: 0 <= j < i ==> ids[j] < x
      {
        i := i + 1;
      }
      ids := Inserted(ids, x, i);
    }
    assert list[..|list|] == list;
  }

  function Inserted(ids: seq<nat>, x: nat, i: nat): (r: seq<nat>)
    requires i <= |ids| && Strictly(ids) && x !in ids
    requires (forall j :: 0 <= j < i ==> ids[j] < x) && (i < |ids| ==> x <= ids[i])
    ensures Strictly(r) && forall n :: n in r <==> n == x || n in ids
  {
    assert i < |ids| ==> ids[i] in ids;
    assert ids == ids[..i] + ids[i..];
    ids[..i] + [x] + ids[i..]
  }

  /** The set of a block's nodes, unless one is nil or negative. */
  method NodesOf(b: Block) returns (ok: bool, nodes: set<nat>)
    ensures ok <==> forall i :: 0 <= i < |b.nodes| ==> GoodNode(b.nodes[i])
    ensures ok ==> nodes == Mask(b)
  {
    nodes := {};
    for i := 0 to |b.nodes|
      invariant forall j :: 0 <= j < i ==> GoodNode(b.nodes[j])
      invariant nodes == set j | 0 <= j < i && GoodNode(b.nodes[j]) :: b.nodes[j].value
    {
      if !(b.nodes[i].Some? && b.nodes[i].value >= 0) {
        return false, nodes;
      }
      nodes := nodes + {b.nodes[i].value};
    }
    ok := true;
  }

  /** The map from key to group index. */
  ghost predicate Indexed(groups: seq<Group>, byMask: map<string, nat>) {
    && (forall k <- byMask.Keys :: byMask[k] < |groups| && Key(groups[byMask[k]].nodes) == k)
    && (forall i :: 0 <= i < |groups| ==> Key(groups[i].nodes) in byMask && byMask[Key(groups[i].nodes)] == i)
  }

  lemma FoundIsMask(groups: seq<Group>, byMask: map<string, nat>, ids: seq<nat>)
    requires Indexed(groups, byMask) && Key(ids) in byMask
    ensures groups[byMask[Key(ids)]].nodes == ids
  {
    KeyInjective(groups[byMask[Key(ids)]].nodes, ids);
  }

  lemma NotFoundIsNew(groups: seq<Group>, byMask: map<string, nat>, ids: seq<nat>, done: seq<Block>)
    requires Indexed(groups, byMask) && Key(ids) !in byMask && Strictly(ids) && Grouped(groups, done)
    ensures !HasGroup(groups, Ids(Group(ids, map[])))
  {
    forall i | 0 <= i < |groups| ensures Ids(groups[i]) != Ids(Group(ids, map[])) {
      assert Key(groups[i].nodes) != Key(ids);
      assert Exact(groups[i], done);
      IdsDiffer(groups[i], Group(ids, map[]));
    }
  }

  /** The body of the inner loop. */
  method AddBlock(groups: seq<Group>, byMask: map<string, nat>, b: Block, ghost done: seq<Block>)
    returns (ok: bool, groups': seq<Group>, byMask': map<string, nat>)
    requires Grouped(groups, done) && Indexed(groups, byMask)
    ensures ok <==> Sound(b) && Total(done + [b], Mask(b), Resource(b)) <= MAX_AMOUNT
    ensures ok ==> Grouped(groups', done + [b]) && Indexed(groups', byMask')
  {
    hide Grouped, Total;
    groups', byMask' := groups, byMask;
    var nodes;
    ok, nodes := NodesOf(b);
    if !ok {
      return;
    }
    assert |b.nodes| > 0 ==> b.nodes[0].value in nodes;
    if |nodes| == 0 || b.size > MAX_AMOUNT || !IsMemory(Resource(b)) {
      return false, groups, byMask;
    }
    var ids := SortedIds(nodes);
    var key := Key(ids);
    ghost var g := Group(ids, map[]);
    assert Ids(g) == Mask(b);
    if key in byMask {
      var index := byMask[key];
      FoundIsMask(groups, byMask, ids);
      assert Ids(groups[index]) == Ids(g);
      var next := WithBlock(groups[index], b);
      GroupedInPlace(groups, done, b, index);
      ExactOf(groups, done, index);
      WithBlockExact(groups[index], done, b);
      ok := next.amounts[Resource(b)] <= MAX_AMOUNT;
      groups' := groups[index := next];
    } else {
      NotFoundIsNew(groups, byMask, ids, done);
      var next := WithBlock(Group(ids, map[]), b);
      GroupedAppend(groups, done, b, ids);
      ExactNew(groups, done, ids, b);
      ok := next.amounts[Resource(b)] <= MAX_AMOUNT;
      groups', byMask' := groups + [next], byMask[key := |groups|];
    }
  }

  lemma ExactOf(groups: seq<Group>, done: seq<Block>, i: nat)
    requires Grouped(groups, done) && i < |groups|
    ensures Exact(groups[i], done)
  {
  }

  lemma ExactNew(groups: seq<Group>, done: seq<Block>, ids: seq<nat>, b: Block)
    requires Grouped(groups, done) && Strictly(ids) && Ids(Group(ids, map[])) == Mask(b) && !HasGroup(groups, Mask(b))
    ensures WithBlock(Group(ids, map[]), b).amounts[Resource(b)] == Total(done + [b], Mask(b), Resource(b))
  {
    NewGroupExact(ids, done);
    WithBlockExact(Group(ids, map[]), done, b);
  }

  // ---------------------------------------------------------------- the whole observation

  lemma {:induction false} TotalGrows(a: seq<Block>, b: seq<Block>, mask: set<nat>, name: string)
    ensures Total(a, mask, name) <= Total(a + b, mask, name)
  {
    TotalConcat(a, b, mask, name);
  }

  /** What the loops know after the blocks in `done`. */
  ghost predicate Accepted(done: seq<Block>) {
    (forall i :: 0 <= i < |done| ==> Sound(done[i])) && !Overflows(done)
  }

  lemma AcceptedGrows(done: seq<Block>, b: Block)
    requires Accepted(done) && Sound(b) && Total(done + [b], Mask(b), Resource(b)) <= MAX_AMOUNT
    ensures Accepted(done + [b])
  {
    forall mask, name ensures Total(done + [b], mask, name) <= MAX_AMOUNT {
      AppendBlock(done, b, mask, name);
      assert !For(b, mask, name) ==> Total(done, mask, name) <= MAX_AMOUNT;
    }
  }

  lemma RefusedStays(done: seq<Block>, b: Block, rest: seq<Block>)
    requires !(Sound(b) && Total(done + [b], Mask(b), Resource(b)) <= MAX_AMOUNT)
    ensures !Accepted(done + [b] + rest)
  {
    var all := done + [b] + rest;
    assert all[|done|] == b;
    if Sound(b) {
      TotalGrows(done + [b], rest, Mask(b), Resource(b));
      assert Total(all, Mask(b), Resource(b)) > MAX_AMOUNT;
    }
  }

  /** The inner loop: all blocks of one container. */
  method AddBlocks(groups: seq<Group>, byMask: map<string, nat>, memory: seq<Block>, ghost done: seq<Block>)
    returns (ok: bool, groups': seq<Group>, byMask': map<string, nat>)
    requires Grouped(groups, done) && Indexed(groups, byMask) && Accepted(done)
    ensures ok <==> Accepted(done + memory)
    ensures ok ==> Grouped(groups', done + memory) && Indexed(groups', byMask')
  {
    hide Grouped, Indexed, Accepted, Total, Sound;
    groups', byMask' := groups, byMask;
    ok := true;
    assert done + memory[..0] == done;
    for j := 0 to |memory|
      invariant Grouped(groups', done + memory[..j]) && Indexed(groups', byMask') && Accepted(done + memory[..j]) && ok
    {
      ghost var so := done + memory[..j];
      assert done + memory[..j + 1] == so + [memory[j]];
      assert done + memory == so + [memory[j]] + memory[j + 1..];
      ok, groups', byMask' := AddBlock(groups', byMask', memory[j], so);
      if !ok {
        RefusedStays(so, memory[j], memory[j + 1..]);
        return;
      }
      AcceptedGrows(so, memory[j]);
    }
    assert memory[..|memory|] == memory;
  }

  lemma {:induction false} AcceptedPrefix(a: seq<Block>, b: seq<Block>)
    requires Accepted(a + b)
    ensures Accepted(a)
  {
    assert forall i :: 0 <= i < |a| ==> (a + b)[i] == a[i];
    forall mask, name ensures Total(a, mask, name) <= MAX_AMOUNT { TotalGrows(a, b, mask, name); }
  }

  lemma {:induction false} BlocksSplit(containers: seq<Container>, i: nat)
    requires i <= |containers|
    ensures exists rest :: Blocks(containers) == Blocks(containers[..i]) + rest
    decreases |containers| - i
  {
    if i == |containers| {
      assert containers[..i] == containers;
      assert Blocks(containers) == Blocks(containers[..i]) + [];
    } else {
      BlocksSplit(containers, i + 1);
      var rest :| Blocks(containers) == Blocks(containers[..i + 1]) + rest;
      assert containers[..i + 1][..i] == containers[..i];
      assert Blocks(containers) == Blocks(containers[..i]) + (containers[i].memory + rest);
    }
  }

  lemma RejectedByPrefix(containers: seq<Container>, expected: set<string>, i: nat)
    requires i <= |containers| && !Accepted(Blocks(containers[..i]))
    ensures Rejected(containers, expected)
  {
    BlocksSplit(containers, i);
    var rest :| Blocks(containers) == Blocks(containers[..i]) + rest;
    if Accepted(Blocks(containers)) {
      AcceptedPrefix(Blocks(containers[..i]), rest);
    }
    if k :| 0 <= k < |Blocks(containers)| && !Sound(Blocks(containers)[k]) {
      assert Blocks(containers)[k] in Blocks(containers);
    }
  }

  lemma NotRejected(containers: seq<Container>, expected: set<string>, represented: set<string>)
    requires Accepted(Blocks(containers)) && Registered(containers, expected, |containers|, represented)
    ensures !Rejected(containers, expected)
    ensures represented == set j | 0 <= j < |containers| :: containers[j].name
  {
  }

  method InsertGroup(groups: seq<Group>, g: Group) returns (r: seq<Group>)
    requires InKeyOrder(groups) && forall i :: 0 <= i < |groups| ==> groups[i].nodes != g.nodes
    ensures InKeyOrder(r) && multiset(r) == multiset(groups) + multiset{g}
  {
    var i := 0;
    while i < |groups| && StringLess(Key(groups[i].nodes), Key(g.nodes))
      invariant 0 <= i <= |groups|
      invariant forall j :: 0 <= j < i ==> StringLess(Key(groups[j].nodes), Key(g.nodes))
    {
      i := i + 1;
    }
    r := groups[..i] + [g] + groups[i..];
    assert groups == groups[..i] + groups[i..];
    forall j | i <= j < |groups| ensures StringLess(Key(g.nodes), Key(groups[j].nodes)) {
      StringTotal(Key(g.nodes), Key(groups[i].nodes));
      if Key(g.nodes) == Key(groups[i].nodes) { KeyInjective(g.nodes, groups[i].nodes); }
      if i < j { StringTransitive(Key(g.nodes), Key(groups[i].nodes), Key(groups[j].nodes)); }
    }
    InsertedInOrder(groups, g, i);
  }

  lemma InsertedInOrder(groups: seq<Group>, g: Group, i: nat)
    requires InKeyOrder(groups) && i <= |groups|
    requires forall j :: 0 <= j < i ==> StringLess(Key(groups[j].nodes), Key(g.nodes))
    requires forall j :: i <= j < |groups| ==> StringLess(Key(g.nodes), Key(groups[j].nodes))
    ensures InKeyOrder(groups[..i] + [g] + groups[i..])
  {
    var r := groups[..i] + [g] + groups[i..];
    assert forall k :: 0 <= k < |r| ==> r[k] == if k < i then groups[k] else if k == i then g else groups[k - 1];
  }

  lemma GroupedPermutes(gs: seq<Group>, hs: seq<Group>, blocks: seq<Block>)
    requires Grouped(gs, blocks) && multiset(gs) == multiset(hs) && InKeyOrder(hs)
    ensures Grouped(hs, blocks)
  {
    forall g ensures g in gs <==> g in hs {
      assert g in gs <==> g in multiset(gs);
      assert g in hs <==> g in multiset(hs);
    }
    forall i | 0 <= i < |hs| ensures Exact(hs[i], blocks) { assert hs[i] in gs; }
    forall mask ensures HasGroup(hs, mask) <==> Occurs(blocks, mask) {
      assert HasGroup(gs, mask) <==> Occurs(blocks, mask);
      if HasGroup(gs, mask) { var i :| 0 <= i < |gs| && Ids(gs[i]) == mask; assert gs[i] in hs; }
      if HasGroup(hs, mask) { var i :| 0 <= i < |hs| && Ids(hs[i]) == mask; assert hs[i] in gs; }
    }
    forall i, j | 0 <= i < j < |hs| ensures hs[i].nodes != hs[j].nodes {
      StringTotal(Key(hs[i].nodes), Key(hs[j].nodes));
    }
  }

  /** The final sort by key. */
  method SortGroups(groups: seq<Group>, ghost blocks: seq<Block>) returns (sorted: seq<Group>)
    requires Grouped(groups, blocks)
    ensures Grouped(sorted, blocks) && InKeyOrder(sorted)
  {
    sorted := [];
    for i := 0 to |groups|
      invariant InKeyOrder(sorted) && multiset(sorted) == multiset(groups[..i])
    {
      forall k | 0 <= k < |sorted| ensures sorted[k].nodes != groups[i].nodes {
        assert sorted[k] in multiset(groups[..i]);
      }
      assert groups[..i + 1] == groups[..i] + [groups[i]];
      sorted := InsertGroup(sorted, groups[i]);
    }
    assert groups[..|groups|] == groups;
    GroupedPermutes(groups, sorted, blocks);
  }

  lemma NothingGrouped()
    ensures Grouped([], []) && Indexed([], map[]) && Accepted([])
  {
    assert forall mask, name :: Total([], mask, name) == 0;
  }

  /** aggregateMemoryGroups: fails exactly on a rejected observation; otherwise every byte of every
      resource is in the one group of its set of nodes, and the groups are in key order. */
  method Aggregate(containers: seq<Container>, expected: set<string>)
    returns (ok: bool, groups: seq<Group>, represented: set<string>)
    ensures ok <==> !Rejected(containers, expected)
    ensures ok ==> Grouped(groups, Blocks(containers)) && InKeyOrder(groups)
    ensures ok ==> represented == set j | 0 <= j < |containers| :: containers[j].name
  {
    hide Grouped, Indexed, Accepted, Rejected, InKeyOrder, Registered;
    groups, represented := [], {};
    var byMask: map<string, nat> := map[];
    NothingGrouped();
    NothingRegistered(containers, expected);
    for i := 0 to |containers|
      invariant Grouped(groups, Blocks(containers[..i])) && Indexed(groups, byMask)
      invariant Accepted(Blocks(containers[..i])) && Registered(containers, expected, i, represented)
    {
      var c := containers[i];
      assert containers[..i + 1][..i] == containers[..i];
      if c.name in represented {
        RejectedDuplicate(containers, expected, i, represented);
        return false, groups, represented;
      }
      if |c.memory| > 0 && c.name !in expected {
        RejectedUnexpected(containers, expected, i);
        return false, groups, represented;
      }
      RegisteredGrows(containers, expected, i, represented);
      represented := represented + {c.name};
      ok, groups, byMask := AddBlocks(groups, byMask, c.memory, Blocks(containers[..i]));
      if !ok {
        RejectedByPrefix(containers, expected, i + 1);
        return;
      }
    }
    assert containers[..|containers|] == containers;
    NotRejected(containers, expected, represented);
    groups := SortGroups(groups, Blocks(containers));
    ok := true;
  }

  /** The first `i` containers have different names, all in `represented`, and none is unexpected. */
  ghost predicate Registered(containers: seq<Container>, expected: set<string>, i: nat, represented: set<string>)
    requires i <= |containers|
  {
    && represented == (set j | 0 <= j < i :: containers[j].name)
    && (forall j :: 0 <= j < i ==> !Unexpected(containers[j], expected))
    && (forall j, k :: 0 <= j < k < i ==> containers[j].name != containers[k].name)
  }

  lemma NothingRegistered(containers: seq<Container>, expected: set<string>)
    ensures Registered(containers, expected, 0, {}) && containers[..0] == []
  {
  }

  lemma RegisteredGrows(containers: seq<Container>, expected: set<string>, i: nat, represented: set<string>)
    requires i < |containers| && Registered(containers, expected, i, represented)
    requires containers[i].name !in represented && !Unexpected(containers[i], expected)
    ensures Registered(containers, expected, i + 1, represented + {containers[i].name})
  {
  }

  lemma RejectedDuplicate(containers: seq<Container>, expected: set<string>, i: nat, represented: set<string>)
    requires i < |containers| && Registered(containers, expected, i, represented) && containers[i].name in represented
    ensures Rejected(containers, expected)
  {
    var j :| 0 <= j < i && containers[j].name == containers[i].name;
  }

  lemma RejectedUnexpected(containers: seq<Container>, expected: set<string>, i: nat)
    requires i < |containers| && Unexpected(containers[i], expected)
    ensures Rejected(containers, expected)
  {
    assert containers[i] in containers;
  }

  // ---------------------------------------------------------------- the order does not matter

  /** A container with its blocks in no order. */
  function Loose(c: Container): (string, multiset<Block>) {
    (c.name, multiset(c.memory))
  }

  function View(containers: seq<Container>): seq<(string, multiset<Block>)> {
    seq(|containers|, i requires 0 <= i < |containers| => Loose(containers[i]))
  }

  /** The same observation, with containers and blocks in another order. */
  ghost predicate Reordered(a: seq<Container>, b: seq<Container>) {
    multiset(View(a)) == multiset(View(b))
  }

  function Union(v: seq<(string, multiset<Block>)>): multiset<Block> {
    if v == [] then multiset{} else Union(v[..|v| - 1]) + v[|v| - 1].1
  }

  lemma {:induction false} UnionConcat(v: seq<(string, multiset<Block>)>, w: seq<(string, multiset<Block>)>)
    ensures Union(v + w) == Union(v) + Union(w)
    decreases |w|
  {
    if w == [] {
      assert v + w == v;
    } else {
      assert (v + w)[..|v + w| - 1] == v + w[..|w| - 1];
      UnionConcat(v, w[..|w| - 1]);
    }
  }

  lemma UnionOne(x: (string, multiset<Block>))
    ensures Union([x]) == x.1
  {
    assert [x][..0] == [];
  }

  lemma UnionDrop(v: seq<(string, multiset<Block>)>, i: nat)
    requires i < |v|
    ensures Union(v) == Union(v[..i] + v[i + 1..]) + v[i].1
  {
    hide Union;
    UnionOne(v[i]);
    var head, tail := v[..i], v[i + 1..];
    assert v == head + ([v[i]] + tail);
    UnionConcat(head, [v[i]] + tail);
    UnionConcat([v[i]], tail);
    UnionConcat(head, tail);
    Exchanged(Union(head), v[i].1, Union(tail));
  }

  lemma Exchanged(a: multiset<Block>, b: multiset<Block>, c: multiset<Block>)
    ensures a + (b + c) == (a + c) + b
  {
  }

  lemma {:induction false} UnionPermutes(v: seq<(string, multiset<Block>)>, w: seq<(string, multiset<Block>)>)
    requires multiset(v) == multiset(w)
    ensures Union(v) == Union(w)
    decreases |v|
  {
    hide Union;
    assert |v| == |multiset(v)| == |multiset(w)| == |w|;
    if v == [] {
      assert w == [];
    } else {
      var k := |v| - 1;
      assert v[k] in multiset(v);
      var i :| 0 <= i < |w| && w[i] == v[k];
      UnionDrop(v, k);
      UnionDrop(w, i);
      DropItem(v, k);
      DropItem(w, i);
      UnionPermutes(v[..k] + v[k + 1..], w[..i] + w[i + 1..]);
    }
  }

  lemma {:induction false} UnionIsBlocks(containers: seq<Container>)
    ensures Union(View(containers)) == multiset(Blocks(containers))
    decreases |containers|
  {
    if containers != [] {
      var n := |containers| - 1;
      UnionIsBlocks(containers[..n]);
      assert View(containers)[..n] == View(containers[..n]);
    }
  }

  lemma ReorderedBlocks(a: seq<Container>, b: seq<Container>)
    requires Reordered(a, b)
    ensures multiset(Blocks(a)) == multiset(Blocks(b))
  {
    UnionIsBlocks(a);
    UnionIsBlocks(b);
    UnionPermutes(View(a), View(b));
  }

  /** A name is on two containers exactly if two entries of the view carry it. */
  ghost predicate NameTwice(v: seq<(string, multiset<Block>)>) {
    exists i, j :: 0 <= i < j < |v| && v[i].0 == v[j].0
  }

  /** A second entry for another place of a permutation. */
  lemma SecondPlace<T>(v: seq<T>, w: seq<T>, i: nat, j: nat) returns (k: nat, l: nat)
    requires multiset(v) == multiset(w) && i < j < |v|
    ensures k < |w| && l < |w| && k != l && w[k] == v[i] && w[l] == v[j]
  {
    assert v[i] in multiset(v);
    k :| 0 <= k < |w| && w[k] == v[i];
    DropItem(v, i);
    DropItem(w, k);
    var rest, others := v[..i] + v[i + 1..], w[..k] + w[k + 1..];
    assert multiset(rest) == multiset(others);
    assert rest[j - 1] == v[j];
    assert v[j] in multiset(rest);
    var m :| 0 <= m < |others| && others[m] == v[j];
    l := if m < k then m else m + 1;
  }

  lemma NameTwicePermutes(v: seq<(string, multiset<Block>)>, w: seq<(string, multiset<Block>)>)
    requires multiset(v) == multiset(w) && NameTwice(v)
    ensures NameTwice(w)
  {
    var i, j :| 0 <= i < j < |v| && v[i].0 == v[j].0;
    var k, l := SecondPlace(v, w, i, j);
    assert w[k].0 == w[l].0;
  }

  lemma RejectedPermutes(a: seq<Container>, b: seq<Container>, expected: set<string>)
    requires Reordered(a, b) && Rejected(a, expected)
    ensures Rejected(b, expected)
  {
    ReorderedBlocks(a, b);
    SameMembers(Blocks(a), Blocks(b));
    if DuplicateNames(a) {
      var i, j :| 0 <= i < j < |a| && a[i].name == a[j].name;
      assert View(a)[i].0 == View(a)[j].0;
      NameTwicePermutes(View(a), View(b));
      var k, l :| 0 <= k < l < |View(b)| && View(b)[k].0 == View(b)[l].0;
      assert b[k].name == b[l].name;
    } else if c :| c in a && Unexpected(c, expected) {
      var i :| 0 <= i < |a| && a[i] == c;
      assert View(a)[i] in multiset(View(a));
      assert View(a)[i] in multiset(View(b));
      var k :| 0 <= k < |View(b)| && View(b)[k] == View(a)[i];
      assert |b[k].memory| == |multiset(b[k].memory)|;
      assert b[k] in b && Unexpected(b[k], expected);
    } else if x :| x in Blocks(a) && !Sound(x) {
      assert x in Blocks(b);
    } else {
      var mask, name :| Total(Blocks(a), mask, name) > MAX_AMOUNT;
      TotalPermutes(Blocks(a), Blocks(b), mask, name);
    }
  }

  /** Reordering containers and blocks changes neither whether an observation is accepted nor the groups
      that it is given. */
  lemma OrderDoesNotMatter(a: seq<Container>, b: seq<Container>, expected: set<string>, gs: seq<Group>, hs: seq<Group>)
    requires Reordered(a, b)
    ensures Rejected(a, expected) <==> Rejected(b, expected)
    ensures Grouped(gs, Blocks(a)) && InKeyOrder(gs) && Grouped(hs, Blocks(b)) && InKeyOrder(hs) ==> gs == hs
  {
    if Rejected(a, expected) { RejectedPermutes(a, b, expected); }
    if Rejected(b, expected) { RejectedPermutes(b, a, expected); }
    ReorderedBlocks(a, b);
    if Grouped(gs, Blocks(a)) && InKeyOrder(gs) && Grouped(hs, Blocks(b)) && InKeyOrder(hs) {
      CanonicalGroups(gs, Blocks(a), hs, Blocks(b));
    }
  }
}
