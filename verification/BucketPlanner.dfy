/** The planner that splits the E2E packages into buckets of similar run time. */
module BucketPlanner {
  import opened Arithmetic
  import opened Sequences

  datatype Bucket = Bucket(packages: seq<string>, weight: int)

  /** A package without a weight counts as zero. */
  function WeightOf(weights: map<string, int>, p: string): int {
    if p in weights then weights[p] else 0
  }

  function Load(weights: map<string, int>, packages: seq<string>): int {
    if packages == [] then 0
    else Load(weights, packages[..|packages| - 1]) + WeightOf(weights, packages[|packages| - 1])
  }

  function Max(a: int, b: int): int {
    if a < b then b else a
  }

  function Largest(weights: map<string, int>, packages: seq<string>): (r: int)
    ensures r >= 0 && forall p <- packages :: WeightOf(weights, p) <= r
  {
    if packages == [] then 0
    else Max(Largest(weights, packages[..|packages| - 1]), WeightOf(weights, packages[|packages| - 1]))
  }

  function Sum(buckets: seq<Bucket>): int {
    if buckets == [] then 0 else Sum(buckets[..|buckets| - 1]) + buckets[|buckets| - 1].weight
  }

  /** heaviest */
  function Heaviest(buckets: seq<Bucket>): (r: int)
    ensures r >= 0 && forall b <- buckets :: b.weight <= r
    ensures r == 0 || exists b <- buckets :: b.weight == r
  {
    if buckets == [] then 0
    else Max(Heaviest(buckets[..|buckets| - 1]), buckets[|buckets| - 1].weight)
  }

  function All(buckets: seq<Bucket>): multiset<string> {
    if buckets == [] then multiset{}
    else All(buckets[..|buckets| - 1]) + multiset(buckets[|buckets| - 1].packages)
  }

  ghost predicate Weighed(weights: map<string, int>, buckets: seq<Bucket>) {
    forall b <- buckets :: b.weight == Load(weights, b.packages)
  }

  /** A way to run the packages in `m` buckets. */
  ghost predicate Split(weights: map<string, int>, packages: seq<string>, m: nat, buckets: seq<Bucket>) {
    |buckets| == m && All(buckets) == multiset(packages) && Weighed(weights, buckets)
  }

  // ---------------------------------------------------------------- sums

  lemma {:induction false} AllUpdate(buckets: seq<Bucket>, i: nat, b: Bucket, p: string)
    requires i < |buckets| && b.packages == buckets[i].packages + [p]
    ensures All(buckets[i := b]) == All(buckets) + multiset{p}
    decreases |buckets|
  {
    var n := |buckets| - 1;
    if i < n {
      assert buckets[i := b][..n] == buckets[..n][i := b];
      AllUpdate(buckets[..n], i, b, p);
    } else {
      assert buckets[i := b][..n] == buckets[..n];
    }
  }

  /** No bucket is more than `gap` above another, so each is at most the average plus `gap`. */
  lemma {:induction false} AverageBound(buckets: seq<Bucket>, i: nat, gap: int, k: nat)
    requires i < |buckets| && k <= |buckets|
    requires forall j :: 0 <= j < |buckets| ==> buckets[i].weight <= buckets[j].weight + gap
    ensures k * buckets[i].weight <= Sum(buckets[..k]) + (if i < k then k - 1 else k) * gap
    decreases k
  {
    if k > 0 {
      AverageBound(buckets, i, gap, k - 1);
      assert buckets[..k][..k - 1] == buckets[..k - 1];
      OneMore(k - 1, buckets[i].weight, Sum(buckets[..k - 1]), buckets[k - 1].weight, if i < k - 1 then k - 2 else k - 1,
              gap, if i == k - 1 then 0 else 1);
    }
  }

  /** The load of a split is the load of its packages. */
  lemma {:induction false} SumIsLoad(weights: map<string, int>, buckets: seq<Bucket>, packages: seq<string>)
    requires Weighed(weights, buckets) && All(buckets) == multiset(packages)
    ensures Sum(buckets) == Load(weights, packages)
  {
    var flat := Flat(buckets);
    FlatSums(weights, buckets);
    LoadPermutes(weights, flat, packages);
  }

  function Flat(buckets: seq<Bucket>): seq<string> {
    if buckets == [] then [] else Flat(buckets[..|buckets| - 1]) + buckets[|buckets| - 1].packages
  }

  lemma {:induction false} FlatSums(weights: map<string, int>, buckets: seq<Bucket>)
    requires Weighed(weights, buckets)
    ensures Sum(buckets) == Load(weights, Flat(buckets)) && All(buckets) == multiset(Flat(buckets))
    decreases |buckets|
  {
    if buckets != [] {
      var n := |buckets| - 1;
      FlatSums(weights, buckets[..n]);
      LoadConcat(weights, Flat(buckets[..n]), buckets[n].packages);
    }
  }

  lemma {:induction false} LoadConcat(weights: map<string, int>, a: seq<string>, b: seq<string>)
    ensures Load(weights, a + b) == Load(weights, a) + Load(weights, b)
    decreases |b|
  {
    if b == [] {
      assert a + b == a;
    } else {
      assert (a + b)[..|a + b| - 1] == a + b[..|b| - 1];
      LoadConcat(weights, a, b[..|b| - 1]);
    }
  }

  lemma DropOne(weights: map<string, int>, b: seq<string>, i: nat)
    requires i < |b|
    ensures Load(weights, b) == Load(weights, b[..i] + b[i + 1..]) + WeightOf(weights, b[i])
  {
    var p, tail := b[i], b[i + 1..];
    assert b == b[..i] + ([p] + tail);
    LoadConcat(weights, b[..i], [p] + tail);
    LoadConcat(weights, [p], tail);
    LoadConcat(weights, b[..i], tail);
    assert [p][..0] == [];
  }

  lemma {:induction false} LoadPermutes(weights: map<string, int>, a: seq<string>, b: seq<string>)
    requires multiset(a) == multiset(b)
    ensures Load(weights, a) == Load(weights, b)
    decreases |a|
  {
    hide Load;
    assert |a| == |multiset(a)| == |multiset(b)| == |b|;
    if a == [] {
      assert b == [];
    } else {
      var k := |a| - 1;
      assert a[k] in multiset(a);
      var i :| 0 <= i < |b| && b[i] == a[k];
      DropOne(weights, a, k);
      DropOne(weights, b, i);
      DropItem(a, k);
      DropItem(b, i);
      LoadPermutes(weights, a[..k] + a[k + 1..], b[..i] + b[i + 1..]);
    }
  }

  // ---------------------------------------------------------------- how good a greedy split is

  /** No bucket is more than `gap` heavier than another. */
  ghost predicate Level(buckets: seq<Bucket>, gap: int) {
    forall i, j :: 0 <= i < |buckets| && 0 <= j < |buckets| ==> buckets[i].weight <= buckets[j].weight + gap
  }

  ghost predicate NonNegative(weights: map<string, int>) {
    forall p <- weights.Keys :: weights[p] >= 0
  }

  lemma {:induction false} LoadNonNegative(weights: map<string, int>, packages: seq<string>, p: string)
    requires NonNegative(weights)
    ensures Load(weights, packages) >= 0
    ensures p in packages ==> WeightOf(weights, p) <= Load(weights, packages)
    decreases |packages|
  {
    if packages != [] {
      LoadNonNegative(weights, packages[..|packages| - 1], p);
    }
  }

  /** The bound of list scheduling: m times the heaviest bucket is at most the total and m-1 times the
      largest package. */
  lemma GreedyBound(weights: map<string, int>, packages: seq<string>, m: nat, buckets: seq<Bucket>)
    requires NonNegative(weights) && m > 0 && Split(weights, packages, m, buckets)
    requires Level(buckets, Largest(weights, packages))
    ensures m * Heaviest(buckets) <= Load(weights, packages) + (m - 1) * Largest(weights, packages)
  {
    hide Load, All, Largest;
    LoadNonNegative(weights, packages, "");
    var largest := Largest(weights, packages);
    if Heaviest(buckets) == 0 {
      Mono(0, m - 1, largest);
    } else {
      var b :| b in buckets && b.weight == Heaviest(buckets);
      var i :| 0 <= i < |buckets| && buckets[i] == b;
      AverageBound(buckets, i, largest, m);
      assert buckets[..m] == buckets;
      SumIsLoad(weights, buckets, packages);
    }
  }

  lemma {:induction false} SumAtMost(buckets: seq<Bucket>, peak: int)
    requires forall b <- buckets :: b.weight <= peak
    ensures Sum(buckets) <= |buckets| * peak
    decreases |buckets|
  {
    if buckets != [] {
      SumAtMost(buckets[..|buckets| - 1], peak);
      assert |buckets| * peak == (|buckets| - 1) * peak + peak;
    }
  }

  lemma {:induction false} HolderOf(buckets: seq<Bucket>, p: string) returns (b: Bucket)
    requires p in All(buckets)
    ensures b in buckets && p in b.packages
    decreases |buckets|
  {
    var n := |buckets| - 1;
    if p in buckets[n].packages { b := buckets[n]; } else { b := HolderOf(buckets[..n], p); }
  }

  lemma {:induction false} LargestIsAWeight(weights: map<string, int>, packages: seq<string>)
    ensures Largest(weights, packages) == 0 ||
            exists p <- packages :: WeightOf(weights, p) == Largest(weights, packages)
    decreases |packages|
  {
    if packages != [] {
      var n := |packages| - 1;
      LargestIsAWeight(weights, packages[..n]);
      if Largest(weights, packages) != 0 {
        if Largest(weights, packages) == WeightOf(weights, packages[n]) {
          assert packages[n] in packages;
        } else {
          var p :| p in packages[..n] && WeightOf(weights, p) == Largest(weights, packages[..n]);
          assert p in packages;
        }
      }
    }
  }

  /** No split has a peak below the average or below the largest package. */
  lemma PeakAtLeast(weights: map<string, int>, packages: seq<string>, m: nat, other: seq<Bucket>)
    requires NonNegative(weights) && Split(weights, packages, m, other)
    ensures Load(weights, packages) <= m * Heaviest(other) && Largest(weights, packages) <= Heaviest(other)
  {
    SumIsLoad(weights, other, packages);
    SumAtMost(other, Heaviest(other));
    LargestIsAWeight(weights, packages);
    if Largest(weights, packages) != 0 {
      var p :| p in packages && WeightOf(weights, p) == Largest(weights, packages);
      assert p in multiset(packages);
      var b := HolderOf(other, p);
      LoadNonNegative(weights, b.packages, p);
    }
  }

  /** Every greedy split is less than twice as heavy as any split of the same packages, the best
      included. */
  lemma GreedyIsNearOptimal(
    weights: map<string, int>, packages: seq<string>, m: nat, buckets: seq<Bucket>, other: seq<Bucket>)
    requires NonNegative(weights) && m > 0 && Split(weights, packages, m, buckets)
    requires Level(buckets, Largest(weights, packages)) && Split(weights, packages, m, other)
    ensures m * Heaviest(buckets) <= (2 * m - 1) * Heaviest(other)
  {
    hide Level, Split, Heaviest, Load, Largest;
    GreedyBound(weights, packages, m, buckets);
    PeakAtLeast(weights, packages, m, other);
    TwiceThePeak(m, Heaviest(buckets), Load(weights, packages), Largest(weights, packages), Heaviest(other));
  }

  lemma TwiceThePeak(m: nat, heaviest: int, total: int, largest: int, peak: int)
    requires m > 0 && m * heaviest <= total + (m - 1) * largest && total <= m * peak && largest <= peak
    ensures m * heaviest <= (2 * m - 1) * peak
  {
    Mono(largest, peak, m - 1);
    Distribute(m, m - 1, peak);
  }

  // ---------------------------------------------------------------- no bucket stays empty

  /** While a bucket is empty, no bucket has two packages. */
  ghost predicate Spread(buckets: seq<Bucket>) {
    forall i, j :: 0 <= i < |buckets| && 0 <= j < |buckets| && buckets[i].packages == [] ==> |buckets[j].packages| <= 1
  }

  lemma {:induction false} CountAtMost(buckets: seq<Bucket>)
    requires forall b <- buckets :: |b.packages| <= 1
    ensures |All(buckets)| <= |buckets|
    ensures (exists b <- buckets :: b.packages == []) ==> |All(buckets)| < |buckets|
    decreases |buckets|
  {
    if buckets != [] { CountAtMost(buckets[..|buckets| - 1]); }
  }

  lemma SpreadFills(buckets: seq<Bucket>, packages: seq<string>)
    requires Spread(buckets) && All(buckets) == multiset(packages) && |packages| >= |buckets|
    ensures forall b <- buckets :: b.packages != []
  {
    assert |multiset(packages)| == |packages|;
    if i :| 0 <= i < |buckets| && buckets[i].packages == [] {
      forall b | b in buckets ensures |b.packages| <= 1 {
        var j :| 0 <= j < |buckets| && buckets[j] == b;
      }
      CountAtMost(buckets);
      assert buckets[i] in buckets;
    }
  }

  ghost predicate Positive(weights: map<string, int>, packages: seq<string>) {
    forall p <- packages :: p in weights && weights[p] > 0
  }

  /** With positive weights an empty bucket is a weightless one. */
  lemma {:induction false} EmptyIffWeightless(weights: map<string, int>, packages: seq<string>)
    requires Positive(weights, packages)
    ensures Load(weights, packages) >= 0 && (Load(weights, packages) == 0 <==> packages == [])
    decreases |packages|
  {
    if packages != [] {
      EmptyIffWeightless(weights, packages[..|packages| - 1]);
      assert packages[|packages| - 1] in packages;
    }
  }

  // ---------------------------------------------------------------- the planner

  method Shuffled(packages: seq<string>) returns (shuffled: seq<string>)
    ensures multiset(shuffled) == multiset(packages)
  {
    shuffled := packages;
    var i := |shuffled|;
    while i > 1
      invariant i <= |shuffled| && multiset(shuffled) == multiset(packages)
    {
      i := i - 1;
      var j :| 0 <= j <= i;
      shuffled := shuffled[i := shuffled[j]][j := shuffled[i]];
    }
  }

  /** One of the lightest buckets, whichever the random source prefers. */
  method Lightest(buckets: seq<Bucket>) returns (target: nat)
    requires |buckets| > 0
    ensures target < |buckets| && forall j :: 0 <= j < |buckets| ==> buckets[target].weight <= buckets[j].weight
  {
    var lightest := [0];
    var i := 1;
    while i < |buckets|
      invariant 1 <= i <= |buckets| && |lightest| > 0
      invariant forall q :: 0 <= q < |lightest| ==> 0 <= lightest[q] < i
      invariant forall q, j :: 0 <= q < |lightest| && 0 <= j < i ==> buckets[lightest[q]].weight <= buckets[j].weight
    {
      if buckets[i].weight < buckets[lightest[0]].weight {
        lightest := [i];
      } else if buckets[i].weight == buckets[lightest[0]].weight {
        lightest := lightest + [i];
      }
      i := i + 1;
    }
    var k :| 0 <= k < |lightest|;
    target := lightest[k];
  }

  /** Putting a package into a lightest bucket keeps the buckets level. */
  lemma PlacedKeepsLevel(weights: map<string, int>, buckets: seq<Bucket>, i: nat, p: string, gap: int)
    requires i < |buckets| && Level(buckets, gap) && 0 <= WeightOf(weights, p) <= gap
    requires forall j :: 0 <= j < |buckets| ==> buckets[i].weight <= buckets[j].weight
    ensures Level(buckets[i := Bucket(buckets[i].packages + [p], buckets[i].weight + WeightOf(weights, p))], gap)
  {
  }

  lemma PlacedKeepsSpread(weights: map<string, int>, buckets: seq<Bucket>, i: nat, p: string, w: int)
    requires i < |buckets| && Spread(buckets)
    requires forall j :: 0 <= j < |buckets| ==> buckets[i].weight <= buckets[j].weight
    requires forall j :: 0 <= j < |buckets| ==>
      buckets[j].weight >= 0 && (buckets[j].packages == [] <==> buckets[j].weight == 0)
    ensures Spread(buckets[i := Bucket(buckets[i].packages + [p], w)])
  {
  }

  /** The bucket with one package more. */
  function Grown(weights: map<string, int>, b: Bucket, p: string): Bucket {
    Bucket(b.packages + [p], b.weight + WeightOf(weights, p))
  }

  /** What holds of the buckets after the packages in `placed`. */
  ghost predicate Greedy(
    weights: map<string, int>, packages: seq<string>, m: nat, placed: seq<string>, buckets: seq<Bucket>)
  {
    && Split(weights, placed, m, buckets)
    && (NonNegative(weights) ==> Level(buckets, Largest(weights, packages)))
    && (Positive(weights, packages) ==> Spread(buckets))
  }

  /** A split that is level for weights that are not negative, and without empty buckets for positive
      weights and enough packages. */
  ghost predicate Balanced(weights: map<string, int>, packages: seq<string>, m: nat, buckets: seq<Bucket>) {
    && Split(weights, packages, m, buckets)
    && (NonNegative(weights) ==> Level(buckets, Largest(weights, packages)))
    && (Positive(weights, packages) && |packages| >= m ==> forall b <- buckets :: b.packages != [])
  }

  lemma GrownKeepsSplit(weights: map<string, int>, m: nat, placed: seq<string>, buckets: seq<Bucket>, i: nat, p: string)
    requires Split(weights, placed, m, buckets) && i < m
    ensures Split(weights, placed + [p], m, buckets[i := Grown(weights, buckets[i], p)])
  {
    var b := Grown(weights, buckets[i], p);
    AllUpdate(buckets, i, b, p);
    assert b.packages[..|b.packages| - 1] == buckets[i].packages;
    assert buckets[i] in buckets;
  }

  lemma GreedyStep(weights: map<string, int>, packages: seq<string>, m: nat, placed: seq<string>,
                   buckets: seq<Bucket>, i: nat, p: string)
    requires Greedy(weights, packages, m, placed, buckets) && i < m && p in packages
    requires multiset(placed) <= multiset(packages) && |buckets| == m
    requires forall j :: 0 <= j < m ==> buckets[i].weight <= buckets[j].weight
    ensures Greedy(weights, packages, m, placed + [p], buckets[i := Grown(weights, buckets[i], p)])
  {
    hide Split, Level, Spread, Largest;
    GrownKeepsSplit(weights, m, placed, buckets, i, p);
    assert Split(weights, placed, m, buckets);
    if NonNegative(weights) {
      AtMostLargest(weights, packages, p);
      PlacedKeepsLevel(weights, buckets, i, p, Largest(weights, packages));
    }
    if Positive(weights, packages) {
      WeightlessAreEmpty(weights, m, buckets, packages, placed);
      PlacedKeepsSpread(weights, buckets, i, p, buckets[i].weight + WeightOf(weights, p));
    }
  }

  lemma AtMostLargest(weights: map<string, int>, packages: seq<string>, p: string)
    requires p in packages
    ensures WeightOf(weights, p) <= Largest(weights, packages)
  {
  }

  /** assign: whatever the shuffle and the tie-breaks, all packages are placed, the buckets are level,
      and with positive weights and enough packages none stays empty. */
  method Assign(packages: seq<string>, weights: map<string, int>, m: nat) returns (buckets: seq<Bucket>)
    requires m > 0
    ensures Balanced(weights, packages, m, buckets)
  {
    hide Greedy, Split, Level, Positive, NonNegative, Largest;
    var shuffled := Shuffled(packages);
    buckets := seq(m, _ => Bucket([], 0));
    GreedyStart(weights, packages, m, buckets);
    assert shuffled[..0] == [];
    for k := 0 to |shuffled|
      invariant Greedy(weights, packages, m, shuffled[..k], buckets) && |buckets| == m
    {
      var target := Lightest(buckets);
      PrefixOf(shuffled, packages, k);
      GreedyStep(weights, packages, m, shuffled[..k], buckets, target, shuffled[k]);
      buckets := buckets[target := Grown(weights, buckets[target], shuffled[k])];
    }
    assert shuffled[..|shuffled|] == shuffled;
    GreedyEnd(weights, packages, m, shuffled, buckets);
  }

  lemma PrefixOf(shuffled: seq<string>, packages: seq<string>, k: nat)
    requires multiset(shuffled) == multiset(packages) && k < |shuffled|
    ensures multiset(shuffled[..k]) <= multiset(packages) && shuffled[k] in packages
    ensures shuffled[..k + 1] == shuffled[..k] + [shuffled[k]]
  {
    assert shuffled == shuffled[..k] + shuffled[k..];
    assert shuffled[k] in multiset(shuffled);
  }

  lemma GreedyStart(weights: map<string, int>, packages: seq<string>, m: nat, buckets: seq<Bucket>)
    requires |buckets| == m && forall i :: 0 <= i < m ==> buckets[i] == Bucket([], 0)
    ensures Greedy(weights, packages, m, [], buckets)
  {
    NothingIn(buckets);
  }

  lemma GreedyEnd(
    weights: map<string, int>, packages: seq<string>, m: nat, shuffled: seq<string>, buckets: seq<Bucket>)
    requires Greedy(weights, packages, m, shuffled, buckets) && multiset(shuffled) == multiset(packages)
    ensures Balanced(weights, packages, m, buckets)
  {
    if Positive(weights, packages) && |packages| >= m {
      SpreadFills(buckets, packages);
    }
  }

  lemma {:induction false} NothingIn(buckets: seq<Bucket>)
    requires forall i :: 0 <= i < |buckets| ==> buckets[i] == Bucket([], 0)
    ensures All(buckets) == multiset{}
    decreases |buckets|
  {
    if buckets != [] { NothingIn(buckets[..|buckets| - 1]); }
  }

  lemma {:induction false} PackagesOf(buckets: seq<Bucket>, b: Bucket)
    requires b in buckets
    ensures multiset(b.packages) <= All(buckets)
    decreases |buckets|
  {
    var n := |buckets| - 1;
    if b != buckets[n] {
      assert b in buckets[..n];
      PackagesOf(buckets[..n], b);
    }
  }

  lemma WeightlessAreEmpty(
    weights: map<string, int>, m: nat, buckets: seq<Bucket>, packages: seq<string>, placed: seq<string>)
    requires Positive(weights, packages) && Split(weights, placed, m, buckets)
    requires multiset(placed) <= multiset(packages)
    ensures forall j :: 0 <= j < |buckets| ==>
      buckets[j].weight >= 0 && (buckets[j].packages == [] <==> buckets[j].weight == 0)
  {
    forall j | 0 <= j < |buckets|
      ensures buckets[j].weight >= 0 && (buckets[j].packages == [] <==> buckets[j].weight == 0)
    {
      var b := buckets[j];
      PackagesOf(buckets, b);
      forall p | p in b.packages ensures p in packages { assert p in multiset(b.packages); assert p in multiset(packages); }
      EmptyIffWeightless(weights, b.packages);
    }
  }

  /** Go's division rounds towards zero. */
  function Quotient(a: int, b: int): int
    requires b > 0
  {
    if a >= 0 then a / b else -((-a) / b)
  }

  const ATTEMPTS := 200
  const TOLERANCE_PERCENT := 110

  function Target(weights: map<string, int>, packages: seq<string>, m: nat): int
    requires m > 0
  {
    var ideal := Quotient(Load(weights, packages) + m - 1, m);
    Max(Quotient(ideal * TOLERANCE_PERCENT + 99, 100), Largest(weights, packages))
  }

  /** The target is the least load that fits every package and is 110 % of the average bucket, both rounded up. */
  lemma TargetIsLeast(weights: map<string, int>, packages: seq<string>, m: nat, average: int, load: int)
    requires m > 0 && Load(weights, packages) >= 0
    requires (average - 1) * m < Load(weights, packages) <= average * m
    ensures load >= Target(weights, packages, m) <==>
            && load >= 0 && (forall p <- packages :: load >= WeightOf(weights, p))
            && 100 * load >= TOLERANCE_PERCENT * average
  {
    hide Load, Largest;
    Ceiling(Load(weights, packages), m, average);
    LargestIsAWeight(weights, packages);
    if average < 0 { Mono(average, -1, m); }
  }

  /** Whatever the weights, buckets at the target have room for all packages. */
  lemma TargetHasRoom(weights: map<string, int>, packages: seq<string>, m: nat)
    requires m > 0
    ensures Load(weights, packages) <= Target(weights, packages, m) * m
  {
    hide Load, Largest;
    var total, target := Load(weights, packages), Target(weights, packages, m);
    var average := (total + m - 1) / m;
    Distribute(average, -1, m);
    if total <= 0 {
      Mono(0, target, m);
    } else {
      Ceiling(total, m, average);
      Mono(average, target, m);
    }
  }

  /** targetLoad */
  method TargetLoad(packages: seq<string>, weights: map<string, int>, m: nat) returns (target: int)
    requires m > 0
    ensures (forall p <- packages :: WeightOf(weights, p) <= target) && Load(weights, packages) <= target * m
    ensures target == Target(weights, packages, m)
  {
    hide Quotient;
    var total, largest := 0, 0;
    for i := 0 to |packages|
      invariant total == Load(weights, packages[..i]) && largest == Largest(weights, packages[..i])
    {
      assert packages[..i + 1][..i] == packages[..i];
      total := total + WeightOf(weights, packages[i]);
      largest := Max(largest, WeightOf(weights, packages[i]));
    }
    assert packages[..|packages|] == packages;
    var ideal := Quotient(total + m - 1, m);
    target := Max(Quotient(ideal * TOLERANCE_PERCENT + 99, 100), largest);
    TargetHasRoom(weights, packages, m);
  }

  function Count(counts: map<string, nat>, p: string): nat {
    if p in counts then counts[p] else 0
  }

  ghost predicate Counts(counts: map<string, nat>, m: multiset<string>) {
    forall p: string :: Count(counts, p) == m[p]
  }

  method CountInto(before: map<string, nat>, inside: seq<string>, ghost m: multiset<string>)
    returns (counts: map<string, nat>)
    requires Counts(before, m)
    ensures Counts(counts, m + multiset(inside))
  {
    counts := before;
    for j := 0 to |inside|
      invariant Counts(counts, m + multiset(inside[..j]))
    {
      assert inside[..j + 1] == inside[..j] + [inside[j]];
      counts := counts[inside[j] := Count(counts, inside[j]) + 1];
    }
    assert inside[..|inside|] == inside;
  }

  /** The first half of validate: counts the packages, unless a bucket is empty. */
  method CountPackages(buckets: seq<Bucket>) returns (filled: bool, counts: map<string, nat>)
    ensures filled <==> forall b <- buckets :: b.packages != []
    ensures filled ==> Counts(counts, All(buckets))
  {
    hide Counts;
    counts := map[];
    assert buckets[..0] == [];
    assert Counts(counts, All([])) by { NothingCounted(); }
    for i := 0 to |buckets|
      invariant forall b <- buckets[..i] :: b.packages != []
      invariant Counts(counts, All(buckets[..i]))
    {
      if |buckets[i].packages| == 0 {
        assert buckets[i] in buckets;
        return false, counts;
      }
      assert buckets[..i + 1][..i] == buckets[..i];
      counts := CountInto(counts, buckets[i].packages, All(buckets[..i]));
    }
    assert buckets[..|buckets|] == buckets;
    filled := true;
  }

  lemma NothingCounted()
    ensures Counts(map[], All([]))
  {
  }

  /** validate: passes exactly if no bucket is empty and each of the packages is in exactly one place. */
  method Validate(buckets: seq<Bucket>, packages: seq<string>) returns (valid: bool)
    ensures valid <==> (forall b <- buckets :: b.packages != []) && forall p <- packages :: All(buckets)[p] == 1
  {
    hide All;
    var counts;
    valid, counts := CountPackages(buckets);
    if !valid {
      return;
    }
    for i := 0 to |packages|
      invariant forall p <- packages[..i] :: All(buckets)[p] == 1
    {
      if Count(counts, packages[i]) != 1 {
        return false;
      }
    }
  }

  datatype Planned = Refused | Planned(buckets: seq<Bucket>, valid: bool)

  /** Of the candidates tried, `peak` is the smallest, and only the last can be within the target. */
  ghost predicate BestOf(tried: seq<int>, peak: int, target: int) {
    && peak in tried && (forall h <- tried :: peak <= h)
    && (forall i :: 0 <= i < |tried| - 1 ==> tried[i] > target)
  }

  lemma PeakIsNat(buckets: seq<Bucket>)
    ensures Heaviest(buckets) >= 0
  {
  }

  lemma BestOfGrows(tried: seq<int>, peak: int, h: int, target: int)
    requires forall i :: 0 <= i < |tried| ==> tried[i] > target
    requires tried != [] ==> BestOf(tried, peak, target)
    ensures BestOf(tried + [h], if tried == [] || h < peak then h else peak, target)
  {
    var best := if tried == [] || h < peak then h else peak;
    assert best in tried + [h] by { assert (tried + [h])[|tried|] == h; }
  }

  ghost predicate Distinct(packages: seq<string>) {
    forall i, j :: 0 <= i < j < |packages| ==> packages[i] != packages[j]
  }

  method Plan(packages: seq<string>, weights: map<string, int>, m: int) returns (r: Planned, ghost tried: seq<int>)
    ensures r.Refused? <==> m < 1 || |packages| < m
    ensures r.Planned? ==>
      && Balanced(weights, packages, m, r.buckets) && BestOf(tried, Heaviest(r.buckets), Target(weights, packages, m))
      && (|tried| == ATTEMPTS || (|tried| < ATTEMPTS && Heaviest(r.buckets) <= Target(weights, packages, m)))
    ensures r.Planned? && Positive(weights, packages) && Distinct(packages) ==> r.valid
  {
    tried := [];
    if m < 1 {
      return Refused, tried;
    }
    if |packages| < m {
      return Refused, tried;
    }
    hide Balanced, Positive, Heaviest, Target, BestOf, Distinct, All;
    var target := TargetLoad(packages, weights, m);
    var best, bestMax := [], -1;
    var candidate := 0;
    while candidate < ATTEMPTS
      invariant 0 <= candidate <= ATTEMPTS && |tried| == candidate
      invariant bestMax == -1 <==> candidate == 0
      invariant forall i :: 0 <= i < |tried| ==> tried[i] > target
      invariant candidate > 0 ==> Balanced(weights, packages, m, best) && bestMax == Heaviest(best)
      invariant candidate > 0 ==> BestOf(tried, bestMax, target)
    {
      var buckets := Assign(packages, weights, m);
      var maxLoad := Heaviest(buckets);
      PeakIsNat(buckets);
      BestOfGrows(tried, bestMax, maxLoad, target);
      tried := tried + [maxLoad];
      if bestMax == -1 || maxLoad < bestMax {
        best, bestMax := buckets, maxLoad;
      }
      candidate := candidate + 1;
      if maxLoad <= target {
        break;
      }
    }
    var valid := Validate(best, packages);
    if Distinct(packages) && Positive(weights, packages) {
      BalancedIsValid(weights, packages, m, best);
    }
    r := Planned(best, valid);
  }

  lemma {:induction false} OnceIn(packages: seq<string>, p: string)
    requires p in packages && Distinct(packages)
    ensures multiset(packages)[p] == 1
    decreases |packages|
  {
    var n := |packages| - 1;
    assert packages == packages[..n] + [packages[n]];
    if p != packages[n] { OnceIn(packages[..n], p); }
  }

  lemma BalancedIsValid(weights: map<string, int>, packages: seq<string>, m: nat, buckets: seq<Bucket>)
    requires Balanced(weights, packages, m, buckets) && Distinct(packages) && Positive(weights, packages)
    requires |packages| >= m
    ensures (forall b <- buckets :: b.packages != []) && forall p <- packages :: All(buckets)[p] == 1
  {
    forall p | p in packages ensures All(buckets)[p] == 1 { OnceIn(packages, p); }
  }
}
