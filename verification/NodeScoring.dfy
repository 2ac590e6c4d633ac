/** Scoring the nodes for a task in parallel chunks, and ordering them by score. */
module NodeScoring {
  import opened Arithmetic
  import opened Options
  import opened Sequences
  import opened Strings

  // ---------------------------------------------------------------- chunks

  function Workers(pool: int, n: nat): (w: nat)
    ensures w >= 1
  {
    var w := if pool < n then pool else n;
    if w > 1 then w else 1
  }

  function ChunkSize(n: nat, w: nat): nat
    requires w > 0
  {
    (n + w - 1) / w
  }

  /** Where worker `k` stops: the end of its chunk or of the nodes, and nowhere before it starts. */
  function End(n: nat, w: nat, k: nat): nat
    requires w > 0
  {
    var start, size := k * ChunkSize(n, w), ChunkSize(n, w);
    if start + size < n then start + size else if start < n then n else start
  }

  lemma RoundedUp(n: nat, w: nat)
    requires w > 0
    ensures w * ((n + w - 1) / w) >= n
  {
    assert w * ((n + w - 1) / w) + (n + w - 1) % w == n + w - 1;
  }

  /** The worker whose chunk a node is in. */
  function Owner(n: nat, w: nat, i: nat): (k: nat)
    requires w > 0 && i < n
    ensures k < w && k * ChunkSize(n, w) <= i < End(n, w, k)
  {
    OwnerExists(n, w, i);
    i / ChunkSize(n, w)
  }

  lemma OwnerExists(n: nat, w: nat, i: nat)
    requires w > 0 && i < n
    ensures ChunkSize(n, w) > 0 && i / ChunkSize(n, w) < w
    ensures (i / ChunkSize(n, w)) * ChunkSize(n, w) <= i < End(n, w, i / ChunkSize(n, w))
  {
    var size := ChunkSize(n, w);
    RoundedUp(n, w);
    var k := i / size;
    assert k * size <= i < k * size + size;
    if k >= w { Mono(w, k, size); }
  }

  /** Nobody else has that node. */
  lemma OwnerIsUnique(n: nat, w: nat, i: nat, k: nat)
    requires w > 0 && k * ChunkSize(n, w) <= i < End(n, w, k) && i < n
    ensures k == Owner(n, w, i)
  {
    var size, o := ChunkSize(n, w), Owner(n, w, i);
    assert (k + 1) * size == k * size + size && (o + 1) * size == o * size + size;
    if k < o { Mono(k + 1, o, size); }
    if o < k { Mono(o + 1, k, size); }
  }

  // ---------------------------------------------------------------- workers in any interleaving

  datatype Scored = Scored(name: string, score: real)

  /** The shared array, how far each worker has got, and how often each slot was written. A slot is
      empty at the start, and stays so if the scoring of its node fails. */
  datatype Board = Board(progress: seq<nat>, scores: seq<Option<Scored>>, writes: seq<nat>)

  ghost predicate Started(b: Board, n: nat, w: nat)
    requires w > 0
  {
    && |b.progress| == w && |b.scores| == |b.writes| == n
    && (forall k :: 0 <= k < w ==> b.progress[k] == k * ChunkSize(n, w))
    && (forall i :: 0 <= i < n ==> b.scores[i] == None && b.writes[i] == 0)
  }

  ghost predicate Finished(b: Board, n: nat, w: nat)
    requires w > 0
  {
    |b.progress| == w && forall k :: 0 <= k < w ==> b.progress[k] >= End(n, w, k)
  }

  /** Worker `k` scores its next node. */
  ghost predicate Scores(b: Board, values: seq<Option<Scored>>, w: nat, k: nat, b': Board)
    requires w > 0
  {
    var n := |values|;
    && k < w == |b.progress| && |b.scores| == |b.writes| == n && b.progress[k] < End(n, w, k) && b.progress[k] < n
    && var j := b.progress[k];
       b' == Board(b.progress[k := j + 1], b.scores[j := values[j]], b.writes[j := b.writes[j] + 1])
  }

  ghost predicate Schedule(bs: seq<Board>, values: seq<Option<Scored>>, w: nat, order: seq<nat>)
    requires w > 0
  {
    && |bs| == |order| + 1 && Started(bs[0], |values|, w)
    && forall t :: 0 <= t < |order| ==> Scores(bs[t], values, w, order[t], bs[t + 1])
  }

  ghost predicate SlotFits(b: Board, values: seq<Option<Scored>>, w: nat, i: nat)
    requires w > 0 && |b.progress| == w && |b.scores| == |b.writes| == |values| && i < |values|
  {
    if i < b.progress[Owner(|values|, w, i)] then b.scores[i] == values[i] && b.writes[i] == 1
    else b.scores[i] == None && b.writes[i] == 0
  }

  ghost predicate OnTrack(b: Board, values: seq<Option<Scored>>, w: nat)
    requires w > 0
  {
    && |b.progress| == w && |b.scores| == |b.writes| == |values|
    && (forall k :: 0 <= k < w ==> k * ChunkSize(|values|, w) <= b.progress[k])
    && (forall i :: 0 <= i < |values| ==> SlotFits(b, values, w, i))
  }

  lemma StartedOnTrack(b: Board, values: seq<Option<Scored>>, w: nat)
    requires w > 0 && Started(b, |values|, w)
    ensures OnTrack(b, values, w)
  {
    forall i | 0 <= i < |values| ensures SlotFits(b, values, w, i) {
      assert b.progress[Owner(|values|, w, i)] <= i;
    }
  }

  lemma StepOnTrack(b: Board, values: seq<Option<Scored>>, w: nat, k: nat, b': Board)
    requires w > 0 && OnTrack(b, values, w) && Scores(b, values, w, k, b')
    ensures OnTrack(b', values, w)
  {
    hide ChunkSize, End;
    var n, j := |values|, b.progress[k];
    OwnerIsUnique(n, w, j, k);
    forall i | 0 <= i < n ensures SlotFits(b', values, w, i) {
      assert SlotFits(b, values, w, i);
    }
  }

  lemma {:induction false} ScheduleOnTrack(bs: seq<Board>, values: seq<Option<Scored>>, w: nat, order: seq<nat>, t: nat)
    requires w > 0 && Schedule(bs, values, w, order) && t < |bs|
    ensures OnTrack(bs[t], values, w)
  {
    hide OnTrack, Scores;
    if t == 0 {
      StartedOnTrack(bs[0], values, w);
    } else {
      ScheduleOnTrack(bs, values, w, order, t - 1);
      StepOnTrack(bs[t - 1], values, w, order[t - 1], bs[t]);
    }
  }

  /** However the workers are interleaved, when all have finished every slot has been written exactly
      once, with the score of its node. */
  lemma EverySlotWrittenOnce(bs: seq<Board>, values: seq<Option<Scored>>, w: nat, order: seq<nat>)
    requires w > 0 && Schedule(bs, values, w, order) && Finished(bs[|bs| - 1], |values|, w)
    ensures var b := bs[|bs| - 1];
            |b.scores| == |b.writes| == |values|
            && forall i :: 0 <= i < |values| ==> b.scores[i] == values[i] && b.writes[i] == 1
  {
    ScheduleOnTrack(bs, values, w, order, |bs| - 1);
    var b := bs[|bs| - 1];
    forall i | 0 <= i < |values| ensures b.scores[i] == values[i] && b.writes[i] == 1 {
      assert SlotFits(b, values, w, i);
      assert b.progress[Owner(|values|, w, i)] >= End(|values|, w, Owner(|values|, w, i));
    }
  }

  // ---------------------------------------------------------------- ordering

  /** Highest score first, and by name within a score. */
  predicate Better(a: Scored, b: Scored) {
    a.score > b.score || (a.score == b.score && StringLess(a.name, b.name))
  }

  /** A node whose scoring failed leaves an empty slot. */
  function Slots(nodes: seq<string>, score: string -> Option<real>): seq<Option<Scored>> {
    seq(|nodes|, i requires 0 <= i < |nodes| => SlotOf(nodes[i], score(nodes[i])))
  }

  function SlotOf(name: string, score: Option<real>): Option<Scored> {
    if score.Some? then Some(Scored(name, score.value)) else None
  }

  function Filled(slots: seq<Option<Scored>>): seq<Scored> {
    if slots == [] then []
    else Filled(slots[..|slots| - 1]) + if slots[|slots| - 1].Some? then [slots[|slots| - 1].value] else []
  }

  function Names(s: seq<Scored>): seq<string> {
    seq(|s|, i requires 0 <= i < |s| => s[i].name)
  }

  /** `names` is a best-first order of the nodes in the filled slots. */
  ghost predicate Ordering(slots: seq<Option<Scored>>, names: seq<string>) {
    exists s :: Sorted(Better, s) && multiset(s) == multiset(Filled(slots)) && names == Names(s)
  }

  ghost predicate DistinctNames(slots: seq<Option<Scored>>) {
    forall i, j :: 0 <= i < j < |slots| && slots[i].Some? && slots[j].Some? ==> slots[i].value.name != slots[j].value.name
  }

  lemma {:induction false} FilledFrom(slots: seq<Option<Scored>>, x: Scored)
    requires x in Filled(slots)
    ensures Some(x) in slots
    decreases |slots|
  {
    var n := |slots| - 1;
    if slots[n] != Some(x) { FilledFrom(slots[..n], x); }
  }

  /** With distinct node names there is only one such order. */
  lemma OrderingIsUnique(slots: seq<Option<Scored>>, a: seq<string>, b: seq<string>)
    requires DistinctNames(slots) && Ordering(slots, a) && Ordering(slots, b)
    ensures a == b
  {
    var s :| Sorted(Better, s) && multiset(s) == multiset(Filled(slots)) && a == Names(s);
    var t :| Sorted(Better, t) && multiset(t) == multiset(Filled(slots)) && b == Names(t);
    forall x, y | x in multiset(s) && y in multiset(s) && x != y ensures Better(x, y) || Better(y, x) {
      assert x in multiset(Filled(slots)) && y in multiset(Filled(slots));
      FilledFrom(slots, x);
      FilledFrom(slots, y);
      StringTotal(x.name, y.name);
    }
    OneSortedOrder(Better, s, t);
  }

  /** Whatever the interleaving of the workers, the nodes come out as if they had been scored one after
      the other and then sorted. */
  lemma ParallelIsSequential(bs: seq<Board>, nodes: seq<string>, score: string -> Option<real>, w: nat, order: seq<nat>,
                             a: seq<string>, b: seq<string>)
    requires w > 0 && Schedule(bs, Slots(nodes, score), w, order) && Finished(bs[|bs| - 1], |nodes|, w)
    requires forall i, j :: 0 <= i < j < |nodes| ==> nodes[i] != nodes[j]
    requires Ordering(bs[|bs| - 1].scores, a) && Ordering(Slots(nodes, score), b)
    ensures a == b
  {
    EverySlotWrittenOnce(bs, Slots(nodes, score), w, order);
    assert bs[|bs| - 1].scores == Slots(nodes, score);
    OrderingIsUnique(Slots(nodes, score), a, b);
  }

  // ---------------------------------------------------------------- the session's methods

  /** scoreChunk: one worker writes its slots and no others. */
  method ScoreChunk(scores: array<Option<Scored>>, nodes: seq<string>, score: string -> Option<real>, w: nat, k: nat)
    requires w > 0 && scores.Length == |nodes|
    modifies scores
    ensures forall i :: 0 <= i < |nodes| ==>
      scores[i] == if k * ChunkSize(|nodes|, w) <= i < End(|nodes|, w, k) then Slots(nodes, score)[i] else old(scores[i])
  {
    var i := k * ChunkSize(|nodes|, w);
    ghost var start := i;
    while i < End(|nodes|, w, k)
      invariant start <= i <= End(|nodes|, w, k)
      invariant forall j :: 0 <= j < |nodes| ==>
        scores[j] == if start <= j < i then Slots(nodes, score)[j] else old(scores[j])
    {
      scores[i] := SlotOf(nodes[i], score(nodes[i]));
      i := i + 1;
    }
  }

  lemma BetterIsWeakOrder()
    ensures WeakOrder(Better)
  {
    forall a, b | Better(a, b) ensures !Better(b, a) { StringTotal(a.name, b.name); }
    forall a, b, c | !Better(b, a) && !Better(c, b) ensures !Better(c, a) {
      StringTotal(a.name, b.name);
      StringTotal(b.name, c.name);
      StringTotal(a.name, c.name);
      if StringLess(a.name, b.name) && StringLess(b.name, c.name) { StringTransitive(a.name, b.name, c.name); }
    }
  }

  /** sortNodesByScore */
  method SortNodesByScore(slots: seq<Option<Scored>>) returns (ordered: seq<string>)
    ensures Ordering(slots, ordered)
  {
    BetterIsWeakOrder();
    hide WeakOrder, Sorted;
    var s := [];
    NothingSorted(Better);
    for i := 0 to |slots|
      invariant Sorted(Better, s) && multiset(s) == multiset(Filled(slots[..i]))
    {
      assert slots[..i + 1][..i] == slots[..i];
      if slots[i].Some? {
        s := Insert(Better, s, slots[i].value);
      }
    }
    assert slots[..|slots|] == slots;
    ordered := Names(s);
  }

  /** OrderedNodesByTask, with the chunks one after the other as when the pool takes no work. */
  method OrderedNodesByTask(nodes: seq<string>, score: string -> Option<real>, pool: int) returns (ordered: seq<string>)
    ensures Ordering(Slots(nodes, score), ordered)
  {
    var w := Workers(pool, |nodes|);
    var scores := new Option<Scored>[|nodes|](_ => None);
    var k := 0;
    while k < w
      invariant 0 <= k <= w
      invariant forall i :: 0 <= i < |nodes| && Owner(|nodes|, w, i) < k ==> scores[i] == Slots(nodes, score)[i]
    {
      ScoreChunk(scores, nodes, score, w, k);
      k := k + 1;
    }
    assert scores[..] == Slots(nodes, score);
    ordered := SortNodesByScore(scores[..]);
  }
}
