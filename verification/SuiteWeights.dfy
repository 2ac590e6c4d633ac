/** Estimated run times of the E2E packages, from the reports of earlier runs. */
module SuiteWeights {
  import opened Options
  import opened BucketPlanner
  import opened Sequences

  /** The package that a report is about, if its path names one, and the run time in nanoseconds. */
  datatype Report = Report(package: Option<string>, runTime: int)

  const SECOND := 1_000_000_000

  function Seconds(r: Report): int {
    Quotient(r.runTime + SECOND - 1, SECOND)
  }

  predicate About(r: Report, p: string) {
    r.package == Some(p)
  }

  function Runs(history: seq<Report>, p: string): nat {
    if history == [] then 0
    else Runs(history[..|history| - 1], p) + if About(history[|history| - 1], p) then 1 else 0
  }

  function TotalSeconds(history: seq<Report>, p: string): int {
    if history == [] then 0
    else TotalSeconds(history[..|history| - 1], p) +
         if About(history[|history| - 1], p) then Seconds(history[|history| - 1]) else 0
  }

  /** One more than the average, rounded up. */
  function Estimate(history: seq<Report>, p: string): int
    requires Runs(history, p) > 0
  {
    Quotient(TotalSeconds(history, p) + Runs(history, p) - 1, Runs(history, p)) + 1
  }

  function Observed(history: seq<Report>, packages: seq<string>): seq<int> {
    if packages == [] then []
    else
      var rest, p := Observed(history, packages[..|packages| - 1]), packages[|packages| - 1];
      if Runs(history, p) > 0 then rest + [Estimate(history, p)] else rest
  }

  ghost predicate Ascending(s: seq<int>) {
    forall i, j :: 0 <= i < j < |s| ==> s[i] <= s[j]
  }

  /** The middle one of the observed weights, the upper one of two; one if there are none. */
  ghost predicate IsFallback(observed: seq<int>, fallback: int) {
    if observed == [] then fallback == 1
    else exists s :: Ascending(s) && multiset(s) == multiset(observed) && |s| == |observed| && fallback == s[|s| / 2]
  }

  method SortInts(s: seq<int>) returns (r: seq<int>)
    ensures Ascending(r) && multiset(r) == multiset(s) && |r| == |s|
  {
    r := [];
    for k := 0 to |s|
      invariant Sorted((a: int, b: int) => a < b, r) && multiset(r) == multiset(s[..k])
    {
      assert s[..k + 1] == s[..k] + [s[k]];
      r := Insert((a: int, b: int) => a < b, r, s[k]);
    }
    assert s[..|s|] == s;
    assert |r| == |multiset(r)| == |multiset(s)| == |s|;
  }

  function Lookup(m: map<string, int>, p: string): int {
    if p in m then m[p] else 0
  }

  /** The sums and counts per package. */
  method Tally(history: seq<Report>) returns (sums: map<string, int>, counts: map<string, int>)
    ensures forall p: string :: Lookup(sums, p) == TotalSeconds(history, p) && Lookup(counts, p) == Runs(history, p)
  {
    sums, counts := map[], map[];
    for i := 0 to |history|
      invariant forall p: string ::
        Lookup(sums, p) == TotalSeconds(history[..i], p) && Lookup(counts, p) == Runs(history[..i], p)
    {
      assert history[..i + 1][..i] == history[..i];
      var report := history[i];
      if report.package.Some? {
        var p := report.package.value;
        sums := sums[p := Lookup(sums, p) + Seconds(report)];
        counts := counts[p := Lookup(counts, p) + 1];
      }
    }
    assert history[..|history|] == history;
  }

  lemma ObservedStep(history: seq<Report>, packages: seq<string>, i: nat)
    requires i <= |packages|
    ensures i == 0 ==> Observed(history, packages[..i]) == []
    ensures i < |packages| ==>
              var before, p := Observed(history, packages[..i]), packages[i];
              Observed(history, packages[..i + 1]) == if Runs(history, p) > 0 then before + [Estimate(history, p)] else before
  {
    if i < |packages| { assert packages[..i + 1][..i] == packages[..i]; }
  }

  /** The packages that have reports, with their weights. */
  method Known(packages: seq<string>, history: seq<Report>) returns (weights: map<string, int>, observed: seq<int>)
    ensures observed == Observed(history, packages)
    ensures weights.Keys == set p | p in packages && Runs(history, p) > 0
    ensures forall p <- weights.Keys :: weights[p] == Estimate(history, p)
  {
    hide Runs, TotalSeconds, Quotient, Observed;
    var sums, counts := Tally(history);
    weights, observed := map[], [];
    ObservedStep(history, packages, 0);
    for i := 0 to |packages|
      invariant observed == Observed(history, packages[..i])
      invariant weights.Keys == set p | p in packages[..i] && Runs(history, p) > 0
      invariant forall p <- weights.Keys :: Runs(history, p) > 0 && weights[p] == Estimate(history, p)
    {
      ObservedStep(history, packages, i);
      assert packages[..i + 1] == packages[..i] + [packages[i]];
      var p := packages[i];
      var count := Lookup(counts, p);
      if count > 0 {
        weights := weights[p := Quotient(Lookup(sums, p) + count - 1, count) + 1];
        observed := observed + [weights[p]];
      }
    }
    assert packages[..|packages|] == packages;
  }

  method Fallback(observed: seq<int>) returns (fallback: int)
    ensures IsFallback(observed, fallback)
  {
    fallback := 1;
    if |observed| > 0 {
      var sorted := SortInts(observed);
      fallback := sorted[|sorted| / 2];
    }
  }

  /** Gives the packages that have no weight yet the weight `w`. */
  method FillMissing(packages: seq<string>, known: map<string, int>, w: int)
    returns (weights: map<string, int>, missing: seq<string>)
    requires known.Keys <= set p | p in packages
    ensures weights.Keys == set p | p in packages
    ensures forall p <- packages :: weights[p] == if p in known then known[p] else w
    ensures Distinct(missing) && forall p :: p in missing <==> p in packages && p !in known
  {
    weights, missing := known, [];
    for i := 0 to |packages|
      invariant weights.Keys == known.Keys + set p | p in packages[..i]
      invariant forall p <- weights.Keys :: weights[p] == if p in known then known[p] else w
      invariant Distinct(missing) && forall p :: p in missing <==> p in packages[..i] && p !in known
    {
      var p := packages[i];
      assert packages[..i + 1] == packages[..i] + [p];
      if p !in weights {
        weights := weights[p := w];
        missing := missing + [p];
      }
    }
    assert packages[..|packages|] == packages;
  }

  /** Weights: the estimate for a package with history, and twice the fallback for every other one,
      which is reported as missing. */
  method Weights(packages: seq<string>, history: seq<Report>) returns (weights: map<string, int>, missing: seq<string>)
    ensures weights.Keys == set p | p in packages
    ensures forall p <- packages :: Runs(history, p) > 0 ==> weights[p] == Estimate(history, p)
    ensures exists fallback :: IsFallback(Observed(history, packages), fallback)
                               && forall p <- packages :: Runs(history, p) == 0 ==> weights[p] == 2 * fallback
    ensures forall p :: p in missing <==> p in packages && Runs(history, p) == 0
    ensures Distinct(missing)
  {
    hide IsFallback, Estimate, Runs, Observed, Distinct;
    var known, observed := Known(packages, history);
    var fallback := Fallback(observed);
    weights, missing := FillMissing(packages, known, fallback * 2);
  }

  // ---------------------------------------------------------------- weights are positive

  lemma {:induction false} SecondsNotNegative(history: seq<Report>, p: string)
    requires forall r <- history :: r.runTime >= 0
    ensures TotalSeconds(history, p) >= 0
    decreases |history|
  {
    if history != [] { SecondsNotNegative(history[..|history| - 1], p); }
  }

  lemma EstimatePositive(history: seq<Report>, p: string)
    requires (forall r <- history :: r.runTime >= 0) && Runs(history, p) > 0
    ensures Estimate(history, p) > 0
  {
    SecondsNotNegative(history, p);
  }

  lemma {:induction false} ObservedPositive(history: seq<Report>, packages: seq<string>)
    requires forall r <- history :: r.runTime >= 0
    ensures forall w <- Observed(history, packages) :: w > 0
    decreases |packages|
  {
    if packages != [] {
      ObservedPositive(history, packages[..|packages| - 1]);
      var p := packages[|packages| - 1];
      if Runs(history, p) > 0 { EstimatePositive(history, p); }
    }
  }

  /** For run times that are not negative, every weight that Weights can give is positive; so the plan
      made from them fills every bucket and passes its own validation. */
  lemma WeightsArePositive(packages: seq<string>, history: seq<Report>, weights: map<string, int>, fallback: int)
    requires forall r <- history :: r.runTime >= 0
    requires weights.Keys == (set p | p in packages) && IsFallback(Observed(history, packages), fallback)
    requires forall p <- packages ::
      weights[p] == if Runs(history, p) > 0 then Estimate(history, p) else 2 * fallback
    ensures Positive(weights, packages) && NonNegative(weights)
  {
    var observed := Observed(history, packages);
    ObservedPositive(history, packages);
    if observed != [] {
      var s :| Ascending(s) && multiset(s) == multiset(observed) && |s| == |observed| && fallback == s[|s| / 2];
      assert s[|s| / 2] in multiset(s);
      assert fallback in observed;
    }
    forall p | p in packages ensures weights[p] > 0 {
      if Runs(history, p) > 0 { EstimatePositive(history, p); }
    }
  }

  /** From reports to buckets: distinct packages, at least as many as buckets, always give a valid plan. */
  method PlanFromReports(packages: seq<string>, history: seq<Report>, m: int) returns (r: Planned)
    requires Distinct(packages) && forall report <- history :: report.runTime >= 0
    ensures r.Refused? <==> m < 1 || |packages| < m
    ensures r.Planned? ==> r.valid && |r.buckets| == m
  {
    var weights, missing := Weights(packages, history);
    ghost var fallback :| IsFallback(Observed(history, packages), fallback)
                          && forall p <- packages :: Runs(history, p) == 0 ==> weights[p] == 2 * fallback;
    WeightsArePositive(packages, history, weights, fallback);
    ghost var tried;
    r, tried := Plan(packages, weights, m);
  }
}
