/** What a trend baseline is (backend/disk_fill_trend.py): its mean and its deviation as weighted sums
    over everything observed. */
module DiskBaseline {
  import opened Common
  import opened DiskTrend

  /** What later observations leave of the i-th one. */
  function Left(seen: seq<Observation>, i: nat): real
    decreases |seen| - i
  {
    if i + 1 >= |seen| then 1.0 else Times(1.0 - seen[i + 1].alpha, Left(seen, i + 1))
  }

  /** The first observation counts in full, each later one by its alpha, and all fade with those
      that follow. */
  function Weight(seen: seq<Observation>, i: nat): real
    requires i < |seen|
  {
    Times(if i == 0 then 1.0 else seen[i].alpha, Left(seen, i))
  }

  function TotalWeight(seen: seq<Observation>, n: nat): real
    requires n <= |seen|
  {
    if n == 0 then 0.0 else TotalWeight(seen, n - 1) + Times(Weight(seen, n - 1), 1.0)
  }

  function WeightedValues(seen: seq<Observation>, n: nat): real
    requires n <= |seen|
  {
    if n == 0 then 0.0 else WeightedValues(seen, n - 1) + Times(Weight(seen, n - 1), seen[n - 1].value)
  }

  /** The weighted distances of the observations from the mean of those before them. */
  function WeightedDistances(seen: seq<Observation>, n: nat): real
    requires n <= |seen|
  {
    if n <= 1 then 0.0
    else
      WeightedDistances(seen, n - 1)
      + Times(Weight(seen, n - 1), Abs(seen[n - 1].value - WeightedValues(seen[..n - 1], n - 1)))
  }

  lemma Reorder(a: real, b: real, c: real)
    ensures Times(a, Times(b, c)) == Times(b, Times(a, c))
  {
  }

  lemma Spread(b: real, sum: real, w: real, x: real)
    ensures Times(b, sum + Times(w, x)) == Times(b, sum) + Times(Times(b, w), x)
  {
  }

  lemma Units(x: real)
    ensures Times(1.0, x) == x && Times(x, 1.0) == x && Times(x, 0.0) == 0.0
  {
  }

  lemma {:induction false} LeftFades(seen: seq<Observation>, last: Observation, i: nat)
    requires i < |seen|
    ensures Left(seen + [last], i) == Times(1.0 - last.alpha, Left(seen, i))
    decreases |seen| - i
  {
    hide Times;
    var all := seen + [last];
    if i + 1 < |seen| {
      LeftFades(seen, last, i + 1);
      Reorder(1.0 - seen[i + 1].alpha, 1.0 - last.alpha, Left(seen, i + 1));
    } else {
      assert Left(all, i + 1) == 1.0;
    }
  }

  lemma WeightFades(seen: seq<Observation>, last: Observation, i: nat)
    requires i < |seen|
    ensures Weight(seen + [last], i) == Times(1.0 - last.alpha, Weight(seen, i))
  {
    hide Times, Left;
    LeftFades(seen, last, i);
    Reorder(if i == 0 then 1.0 else seen[i].alpha, 1.0 - last.alpha, Left(seen, i));
  }

  lemma {:induction false} SumsFade(seen: seq<Observation>, last: Observation, n: nat)
    requires n <= |seen|
    ensures var all, b := seen + [last], 1.0 - last.alpha;
            && TotalWeight(all, n) == Times(b, TotalWeight(seen, n))
            && WeightedValues(all, n) == Times(b, WeightedValues(seen, n))
            && WeightedDistances(all, n) == Times(b, WeightedDistances(seen, n))
  {
    hide Times, Weight, Abs;
    var b := 1.0 - last.alpha;
    Units(b);
    if n > 0 {
      var k, all := n - 1, seen + [last];
      SumsFade(seen, last, k);
      WeightFades(seen, last, k);
      assert all[..k] == seen[..k];
      Spread(b, TotalWeight(seen, k), Weight(seen, k), 1.0);
      Spread(b, WeightedValues(seen, k), Weight(seen, k), seen[k].value);
      if n > 1 {
        Spread(b, WeightedDistances(seen, k), Weight(seen, k), Abs(seen[k].value - WeightedValues(seen[..k], k)));
      }
    }
  }

  /** One more observation. */
  lemma SumsEnd(seen: seq<Observation>, last: Observation)
    requires seen != []
    ensures var all, n, b := seen + [last], |seen|, 1.0 - last.alpha;
            && TotalWeight(all, n + 1) == Times(b, TotalWeight(seen, n)) + last.alpha
            && WeightedValues(all, n + 1) == Times(b, WeightedValues(seen, n)) + Times(last.alpha, last.value)
            && WeightedDistances(all, n + 1)
               == Times(b, WeightedDistances(seen, n)) + Times(last.alpha, Abs(last.value - WeightedValues(seen, n)))
  {
    hide Times, Abs, Weight;
    var all, n := seen + [last], |seen|;
    SumsFade(seen, last, n);
    LastWeight(all);
    Units(last.alpha);
    assert all[..n] == seen && all[n] == last;
    MeansAgree(seen, last);
  }

  lemma LastWeight(seen: seq<Observation>)
    requires |seen| >= 2
    ensures Weight(seen, |seen| - 1) == seen[|seen| - 1].alpha
  {
    assert Left(seen, |seen| - 1) == 1.0;
  }

  lemma MeansAgree(seen: seq<Observation>, last: Observation)
    requires seen != []
    ensures var all, n := seen + [last], |seen|;
            && TotalWeight(all, n + 1) == TotalWeight(all, n) + Times(Weight(all, n), 1.0)
            && WeightedValues(all, n + 1) == WeightedValues(all, n) + Times(Weight(all, n), last.value)
            && WeightedDistances(all, n + 1)
               == WeightedDistances(all, n) + Times(Weight(all, n), Abs(last.value - WeightedValues(seen, n)))
  {
    hide Times, Abs, Weight;
    assert (seen + [last])[..|seen|] == seen;
  }

  lemma Updated(b: Baseline, value: real, alpha: real)
    requires 0.0 < alpha <= 1.0
    ensures var r := UpdateBaseline(Some(b), b.host, b.metric, value, alpha);
            && r.Ok? && r.value.host == b.host && r.value.metric == b.metric && r.value.sampleCount == b.sampleCount + 1
            && r.value.mean == Times(1.0 - alpha, b.mean) + Times(alpha, value)
            && r.value.deviation == Times(1.0 - alpha, b.deviation) + Times(alpha, Abs(value - b.mean))
  {
    hide Abs;
    EwmaIsWeighted(b.mean, alpha, value);
  }

  lemma FirstIsWeighted(seen: seq<Observation>)
    requires |seen| == 1
    ensures WeightedValues(seen, 1) == seen[0].value && WeightedDistances(seen, 1) == 0.0 && TotalWeight(seen, 1) == 1.0
  {
    assert Left(seen, 0) == 1.0 && Weight(seen, 0) == 1.0;
    assert WeightedValues(seen, 0) == 0.0 && TotalWeight(seen, 0) == 0.0;
  }

  /** Main result: the mean of a baseline is the weighted sum of everything observed, its deviation the
      weighted sum of the distances from the mean so far, and the weights add up to one. */
  lemma {:induction false} BaselineIsWeighted(host: string, metric: string, seen: seq<Observation>)
    requires seen != [] && forall i | 0 <= i < |seen| :: 0.0 < seen[i].alpha <= 1.0
    ensures Fold(host, metric, seen)
            == Ok(Some(Baseline(host, metric, WeightedValues(seen, |seen|), WeightedDistances(seen, |seen|), |seen|)))
    ensures TotalWeight(seen, |seen|) == 1.0
  {
    hide Times, UpdateBaseline, WeightedValues, WeightedDistances, TotalWeight;
    var init, last := seen[..|seen| - 1], seen[|seen| - 1];
    assert seen == init + [last];
    if init == [] {
      assert Fold(host, metric, init) == Ok(None);
      FirstIsWeighted(seen);
      SeedsWith(host, metric, last.value, last.alpha);
    } else {
      BaselineIsWeighted(host, metric, init);
      SumsEnd(init, last);
      Units(1.0 - last.alpha);
      Updated(Fold(host, metric, init).value.value, last.value, last.alpha);
    }
  }

  lemma SeedsWith(host: string, metric: string, value: real, alpha: real)
    requires 0.0 < alpha <= 1.0
    ensures UpdateBaseline(None, host, metric, value, alpha) == Ok(Baseline(host, metric, value, 0.0, 1))
  {
  }

  /** Which updates are refused, and why. */
  lemma UpdateRefusedIff(b: Option<Baseline>, host: string, metric: string, value: real, alpha: real)
    ensures var r := UpdateBaseline(b, host, metric, value, alpha);
            && (r == Err(BadAlpha) <==> alpha <= 0.0 || alpha > 1.0)
            && (r == Err(HostMismatch) <==> 0.0 < alpha <= 1.0 && b.Some? && b.value.host != host)
            && (r == Err(MetricMismatch) <==> 0.0 < alpha <= 1.0 && b.Some? && b.value.host == host && b.value.metric != metric)
            && r != Err(TooFewSamples)
  {
  }
}
