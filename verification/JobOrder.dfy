/** The order in which jobs are tried, and the order in which they are evicted. */
module JobOrder {
  import opened Sequences
  import opened PriorityQueue
  import opened Strings

  /** `data` is whatever the plugins look at. */
  datatype Job<D> = Job(uid: string, created: int, data: D)

  type Compare<!D> = (Job<D>, Job<D>) -> int

  /** A comparator that could come from a ranking: swapping the arguments swaps the sign, and "not
      after" is transitive. */
  ghost predicate Consistent<D(!new)>(c: Compare<D>) {
    && (forall a, b :: c(a, b) < 0 <==> c(b, a) > 0)
    && (forall a, b, d :: c(a, b) <= 0 && c(b, d) <= 0 ==> c(a, d) <= 0)
  }

  ghost predicate AllConsistent<D(!new)>(cs: seq<Compare<D>>) {
    forall i :: 0 <= i < |cs| ==> Consistent(cs[i])
  }

  /** The first comparator that is not indifferent decides. */
  function Chain<D>(cs: seq<Compare<D>>, a: Job<D>, b: Job<D>): int {
    if cs == [] then 0
    else if cs[0](a, b) != 0 then cs[0](a, b)
    else Chain(cs[1..], a, b)
  }

  /** jobOrderCreationFallback */
  predicate Older<D>(a: Job<D>, b: Job<D>) {
    if a.created == b.created then StringLess(a.uid, b.uid) else a.created < b.created
  }

  /** JobOrderFn */
  predicate JobLess<D>(cs: seq<Compare<D>>, a: Job<D>, b: Job<D>) {
    var c := Chain(cs, a, b);
    if c != 0 then c < 0 else Older(a, b)
  }

  /** VictimOrderFn */
  predicate VictimLess<D>(cs: seq<Compare<D>>, vs: seq<Compare<D>>, a: Job<D>, b: Job<D>) {
    var c, v := Chain(cs, a, b), Chain(vs, a, b);
    if c != 0 then c > 0 else if v != 0 then v < 0 else !Older(a, b)
  }

  // ---------------------------------------------------------------- the chain

  lemma {:induction false} ChainSwaps<D(!new)>(cs: seq<Compare<D>>, a: Job<D>, b: Job<D>)
    requires AllConsistent(cs)
    ensures Chain(cs, a, b) < 0 <==> Chain(cs, b, a) > 0
    decreases |cs|
  {
    if cs != [] {
      assert Consistent(cs[0]);
      ChainSwaps(cs[1..], a, b);
    }
  }

  lemma {:induction false} ChainTransitive<D(!new)>(cs: seq<Compare<D>>, a: Job<D>, b: Job<D>, d: Job<D>)
    requires AllConsistent(cs) && Chain(cs, a, b) <= 0 && Chain(cs, b, d) <= 0
    ensures Chain(cs, a, d) <= 0
    ensures Chain(cs, a, b) < 0 || Chain(cs, b, d) < 0 ==> Chain(cs, a, d) < 0
    decreases |cs|
  {
    if cs != [] {
      var c := cs[0];
      assert Consistent(c);
      assert c(a, d) <= 0 && (c(a, d) == 0 ==> c(d, a) <= 0);
      if c(a, d) == 0 {
        assert c(d, b) <= 0 && c(b, a) <= 0;
        ChainTransitive(cs[1..], a, b, d);
      }
    }
  }

  lemma OlderOrder<D>(a: Job<D>, b: Job<D>)
    ensures !(Older(a, b) && Older(b, a))
    ensures a.uid != b.uid || a.created != b.created <==> Older(a, b) || Older(b, a)
  {
    StringTotal(a.uid, b.uid);
  }

  lemma OlderTransitive<D>(a: Job<D>, b: Job<D>, d: Job<D>)
    requires Older(a, b) && Older(b, d)
    ensures Older(a, d)
  {
    if a.created == b.created == d.created { StringTransitive(a.uid, b.uid, d.uid); }
  }

  // ---------------------------------------------------------------- the job order

  /** JobOrderFn never puts each of two jobs before the other, and decides between any two whose UIDs
      differ. */
  lemma JobLessDecides<D(!new)>(cs: seq<Compare<D>>, a: Job<D>, b: Job<D>)
    requires AllConsistent(cs)
    ensures !(JobLess(cs, a, b) && JobLess(cs, b, a))
    ensures a.uid != b.uid ==> JobLess(cs, a, b) || JobLess(cs, b, a)
  {
    ChainSwaps(cs, a, b);
    ChainSwaps(cs, b, a);
    OlderOrder(a, b);
  }

  lemma JobLessTransitive<D(!new)>(cs: seq<Compare<D>>, a: Job<D>, b: Job<D>, d: Job<D>)
    requires AllConsistent(cs) && JobLess(cs, a, b) && JobLess(cs, b, d)
    ensures JobLess(cs, a, d)
  {
    ChainTransitive(cs, a, b, d);
    if Chain(cs, a, b) == 0 && Chain(cs, b, d) == 0 {
      ChainSwaps(cs, a, b);
      ChainSwaps(cs, b, a);
      ChainSwaps(cs, b, d);
      ChainSwaps(cs, d, b);
      ChainTransitive(cs, d, b, a);
      ChainSwaps(cs, a, d);
      ChainSwaps(cs, d, a);
      OlderTransitive(a, b, d);
    }
  }

  /** Jobs that neither is before the other tie in every comparator, the creation time and the UID. */
  lemma TieIsComplete<D(!new)>(cs: seq<Compare<D>>, a: Job<D>, b: Job<D>)
    requires AllConsistent(cs) && !JobLess(cs, a, b) && !JobLess(cs, b, a)
    ensures Chain(cs, a, b) == 0 && a.uid == b.uid && a.created == b.created
  {
    ChainSwaps(cs, a, b);
    ChainSwaps(cs, b, a);
    OlderOrder(a, b);
  }

  lemma NotLessTransitive<D(!new)>(cs: seq<Compare<D>>, a: Job<D>, b: Job<D>, d: Job<D>)
    requires AllConsistent(cs) && !JobLess(cs, b, a) && !JobLess(cs, d, b)
    ensures !JobLess(cs, d, a)
  {
    JobLessDecides(cs, a, d);
    if JobLess(cs, a, b) && JobLess(cs, b, d) {
      JobLessTransitive(cs, a, b, d);
    } else if JobLess(cs, a, b) {
      TieIsComplete(cs, b, d);
      LikeJobs(cs, b, d, a);
    } else {
      TieIsComplete(cs, a, b);
      LikeJobs(cs, a, b, d);
    }
  }

  /** Jobs that tie stand in the same order to any third one. */
  lemma LikeJobs<D(!new)>(cs: seq<Compare<D>>, a: Job<D>, b: Job<D>, d: Job<D>)
    requires AllConsistent(cs) && Chain(cs, a, b) == 0 && a.uid == b.uid && a.created == b.created
    ensures JobLess(cs, a, d) == JobLess(cs, b, d) && JobLess(cs, d, a) == JobLess(cs, d, b)
  {
    ChainSwaps(cs, a, b);
    ChainSwaps(cs, b, a);
    LikeChain(cs, a, b, d);
    LikeChain(cs, b, a, d);
  }

  lemma LikeChain<D(!new)>(cs: seq<Compare<D>>, a: Job<D>, b: Job<D>, d: Job<D>)
    requires AllConsistent(cs) && Chain(cs, a, b) == 0 && Chain(cs, b, a) == 0
    ensures Chain(cs, a, d) < 0 ==> Chain(cs, b, d) < 0
    ensures Chain(cs, d, a) < 0 ==> Chain(cs, d, b) < 0
    ensures Chain(cs, a, d) > 0 ==> Chain(cs, b, d) > 0
    ensures Chain(cs, d, a) > 0 ==> Chain(cs, d, b) > 0
  {
    ChainSwaps(cs, a, d);
    ChainSwaps(cs, d, a);
    ChainSwaps(cs, b, d);
    ChainSwaps(cs, d, b);
    if Chain(cs, a, d) < 0 { ChainTransitive(cs, b, a, d); }
    if Chain(cs, d, a) < 0 { ChainTransitive(cs, d, a, b); }
  }

  /** The job order is fit for the priority queue. */
  lemma JobOrderIsWeakOrder<D(!new)>(cs: seq<Compare<D>>)
    requires AllConsistent(cs)
    ensures WeakOrder((a: Job<D>, b: Job<D>) => JobLess(cs, a, b))
  {
    forall a: Job<D>, b: Job<D> | JobLess(cs, a, b) ensures !JobLess(cs, b, a) { JobLessDecides(cs, a, b); }
    forall a: Job<D>, b: Job<D>, d: Job<D> | !JobLess(cs, b, a) && !JobLess(cs, d, b) ensures !JobLess(cs, d, a) {
      NotLessTransitive(cs, a, b, d);
    }
  }

  /** Jobs with distinct UIDs leave an unbounded queue in one order, whatever order they came in. */
  lemma JobsDrainInOneOrder<D(!new)>(cs: seq<Compare<D>>, xs: seq<Job<D>>, ys: seq<Job<D>>)
    requires AllConsistent(cs) && multiset(xs) == multiset(ys)
    requires forall i, j :: 0 <= i < j < |xs| ==> xs[i].uid != xs[j].uid
    ensures var less := (a: Job<D>, b: Job<D>) => JobLess(cs, a, b);
            && Drained(less, PushedAll(less, xs)) == Drained(less, PushedAll(less, ys))
            && Sorted(less, Drained(less, PushedAll(less, xs)))
            && multiset(Drained(less, PushedAll(less, xs))) == multiset(xs)
  {
    var less := (a: Job<D>, b: Job<D>) => JobLess(cs, a, b);
    JobOrderIsWeakOrder(cs);
    forall a, b | a in multiset(xs) && b in multiset(xs) && a != b ensures less(a, b) || less(b, a) {
      var i :| 0 <= i < |xs| && xs[i] == a;
      var j :| 0 <= j < |xs| && xs[j] == b;
      assert a.uid != b.uid;
      JobLessDecides(cs, a, b);
    }
    DrainIsCanonical(less, xs, ys);
  }

  // ---------------------------------------------------------------- the victim order

  /** With no victim comparators the victim order is the job order turned round. */
  lemma VictimOrderIsReverse<D(!new)>(cs: seq<Compare<D>>, a: Job<D>, b: Job<D>)
    requires AllConsistent(cs)
    ensures VictimLess(cs, [], a, b) <==> !JobLess(cs, a, b)
    ensures a.uid != b.uid ==> (VictimLess(cs, [], a, b) <==> JobLess(cs, b, a))
  {
    JobLessDecides(cs, a, b);
  }

  /** VictimOrderFn puts each of two jobs before the other exactly if they tie in everything; jobs with
      different UIDs are put in exactly one order. */
  lemma VictimLessBothIff<D(!new)>(cs: seq<Compare<D>>, vs: seq<Compare<D>>, a: Job<D>, b: Job<D>)
    requires AllConsistent(cs) && AllConsistent(vs)
    ensures VictimLess(cs, vs, a, b) && VictimLess(cs, vs, b, a) <==>
      Chain(cs, a, b) == 0 && Chain(vs, a, b) == 0 && a.uid == b.uid && a.created == b.created
    ensures a.uid != b.uid ==> (VictimLess(cs, vs, a, b) <==> !VictimLess(cs, vs, b, a))
  {
    ChainSwaps(cs, a, b);
    ChainSwaps(cs, b, a);
    ChainSwaps(vs, a, b);
    ChainSwaps(vs, b, a);
    OlderOrder(a, b);
  }

  lemma {:induction false} ChainOfSame<D(!new)>(cs: seq<Compare<D>>, a: Job<D>)
    requires AllConsistent(cs)
    ensures Chain(cs, a, a) == 0
    decreases |cs|
  {
    if cs != [] {
      assert Consistent(cs[0]);
      ChainOfSame(cs[1..], a);
    }
  }

  /** So it puts every job before itself. */
  lemma VictimBeforeItself<D(!new)>(cs: seq<Compare<D>>, vs: seq<Compare<D>>, a: Job<D>)
    requires AllConsistent(cs) && AllConsistent(vs)
    ensures VictimLess(cs, vs, a, a)
  {
    ChainOfSame(cs, a);
    ChainOfSame(vs, a);
    VictimLessBothIff(cs, vs, a, a);
  }

  /** The chain with both signs: strictly after if either step is strict, indifferent if both are. */
  lemma ChainBackwards<D(!new)>(cs: seq<Compare<D>>, a: Job<D>, b: Job<D>, d: Job<D>)
    requires AllConsistent(cs) && Chain(cs, a, b) >= 0 && Chain(cs, b, d) >= 0
    ensures Chain(cs, a, d) >= 0
    ensures Chain(cs, a, d) > 0 <==> Chain(cs, a, b) > 0 || Chain(cs, b, d) > 0
  {
    ChainSwaps(cs, b, a);
    ChainSwaps(cs, a, b);
    ChainSwaps(cs, d, b);
    ChainSwaps(cs, b, d);
    ChainTransitive(cs, d, b, a);
    ChainSwaps(cs, d, a);
    ChainSwaps(cs, a, d);
    if Chain(cs, a, b) == 0 && Chain(cs, b, d) == 0 { ChainTransitive(cs, a, b, d); }
  }

  /** Among jobs with different UIDs the victim order is transitive, so it is a strict total order. */
  lemma VictimLessTransitive<D(!new)>(cs: seq<Compare<D>>, vs: seq<Compare<D>>, a: Job<D>, b: Job<D>, d: Job<D>)
    requires AllConsistent(cs) && AllConsistent(vs) && a.uid != b.uid && b.uid != d.uid && a.uid != d.uid
    requires VictimLess(cs, vs, a, b) && VictimLess(cs, vs, b, d)
    ensures VictimLess(cs, vs, a, d)
  {
    ChainBackwards(cs, a, b, d);
    if Chain(cs, a, d) == 0 {
      ChainTransitive(vs, a, b, d);
      if Chain(vs, a, b) == 0 && Chain(vs, b, d) == 0 {
        ChainBackwards(vs, a, b, d);
        OlderOrder(a, b);
        OlderOrder(b, d);
        OlderOrder(a, d);
        OlderTransitive(d, b, a);
      }
    }
  }

  /** JobOrderFn, as the loop over the comparators. */
  method JobOrderFn<D>(cs: seq<Compare<D>>, l: Job<D>, r: Job<D>) returns (less: bool)
    ensures less == JobLess(cs, l, r)
  {
    assert cs[0..] == cs;
    for i := 0 to |cs|
      invariant Chain(cs[i..], l, r) == Chain(cs, l, r)
    {
      var j := cs[i](l, r);
      if j != 0 {
        return j < 0;
      }
      assert cs[i..][1..] == cs[i + 1..];
    }
    less := Older(l, r);
  }

  /** VictimOrderFn, as its two loops. */
  method VictimOrderFn<D>(cs: seq<Compare<D>>, vs: seq<Compare<D>>, l: Job<D>, r: Job<D>) returns (less: bool)
    ensures less == VictimLess(cs, vs, l, r)
  {
    assert cs[0..] == cs && vs[0..] == vs;
    for i := 0 to |cs|
      invariant Chain(cs[i..], l, r) == Chain(cs, l, r)
    {
      var j := cs[i](l, r);
      if j != 0 {
        return j > 0;
      }
      assert cs[i..][1..] == cs[i + 1..];
    }
    for i := 0 to |vs|
      invariant Chain(vs[i..], l, r) == Chain(vs, l, r)
    {
      var v := vs[i](l, r);
      if v != 0 {
        return v < 0;
      }
      assert vs[i..][1..] == vs[i + 1..];
    }
    less := !Older(l, r);
  }
}
