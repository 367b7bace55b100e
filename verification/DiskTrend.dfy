/** Trend baselines and disk-fill projection (backend/disk_fill_trend.py), over the reals. */
module DiskTrend {
  import opened Common

  datatype Error = BadAlpha | HostMismatch | MetricMismatch | TooFewSamples

  datatype Baseline = Baseline(host: string, metric: string, mean: real, deviation: real, sampleCount: nat)

  function Abs(x: real): real {
    if x < 0.0 then -x else x
  }

  function UpdateBaseline(b: Option<Baseline>, host: string, metric: string, value: real, alpha: real)
    : Result<Baseline, Error>
  {
    if !(0.0 < alpha <= 1.0) then Err(BadAlpha)
    else if b.None? then Ok(Baseline(host, metric, value, 0.0, 1))
    else if b.value.host != host then Err(HostMismatch)
    else if b.value.metric != metric then Err(MetricMismatch)
    else
      var delta := value - b.value.mean;
      Ok(Baseline(host, metric, b.value.mean + alpha * delta,
                  (1.0 - alpha) * b.value.deviation + alpha * Abs(delta), b.value.sampleCount + 1))
  }

  // ---------------------------------------------------------------- baselines

  /** A value folded in, with the weight it was given. */
  datatype Observation = Observation(value: real, alpha: real)

  function Fold(host: string, metric: string, seen: seq<Observation>): Result<Option<Baseline>, Error> {
    if seen == [] then Ok(None)
    else
      match Fold(host, metric, seen[..|seen| - 1])
      case Err(e) => Err(e)
      case Ok(b) =>
        match UpdateBaseline(b, host, metric, seen[|seen| - 1].value, seen[|seen| - 1].alpha)
        case Err(e) => Err(e)
        case Ok(b') => Ok(Some(b'))
  }

  lemma WeightedIsBetween(alpha: real, x: real, y: real, lo: real, hi: real)
    requires 0.0 < alpha <= 1.0 && lo <= x <= hi && lo <= y <= hi
    ensures lo <= (1.0 - alpha) * x + alpha * y <= hi
  {
    assert (1.0 - alpha) * x + alpha * y - lo == (1.0 - alpha) * (x - lo) + alpha * (y - lo);
    assert hi - ((1.0 - alpha) * x + alpha * y) == (1.0 - alpha) * (hi - x) + alpha * (hi - y);
    NotNegative(1.0 - alpha, x - lo);
    NotNegative(alpha, y - lo);
    NotNegative(1.0 - alpha, hi - x);
    NotNegative(alpha, hi - y);
  }

  lemma NotNegative(a: real, b: real)
    requires a >= 0.0 && b >= 0.0
    ensures a * b >= 0.0
  {
  }

  lemma EwmaIsWeighted(mean: real, alpha: real, value: real)
    ensures mean + alpha * (value - mean) == (1.0 - alpha) * mean + alpha * value
  {
  }

  lemma UpdateStaysInRange(b: Baseline, value: real, alpha: real, lo: real, hi: real)
    requires 0.0 < alpha <= 1.0 && lo <= value <= hi && lo <= b.mean <= hi && 0.0 <= b.deviation <= hi - lo
    ensures var r := UpdateBaseline(Some(b), b.host, b.metric, value, alpha);
            && r.Ok? && r.value.host == b.host && r.value.metric == b.metric && r.value.sampleCount == b.sampleCount + 1
            && lo <= r.value.mean <= hi && 0.0 <= r.value.deviation <= hi - lo
  {
    EwmaIsWeighted(b.mean, alpha, value);
    WeightedIsBetween(alpha, b.mean, value, lo, hi);
    WeightedIsBetween(alpha, b.deviation, Abs(value - b.mean), 0.0, hi - lo);
  }

  /** Main result: over any observations with any valid weights, the mean stays between the
      least and the greatest value and the deviation between zero and their difference. */
  lemma {:induction false} BaselineStaysInRange(host: string, metric: string, seen: seq<Observation>, lo: real, hi: real)
    requires seen != [] && forall i | 0 <= i < |seen| :: 0.0 < seen[i].alpha <= 1.0 && lo <= seen[i].value <= hi
    ensures var r := Fold(host, metric, seen);
            && r.Ok? && r.value.Some?
            && r.value.value.host == host && r.value.value.metric == metric && r.value.value.sampleCount == |seen|
            && lo <= r.value.value.mean <= hi && 0.0 <= r.value.value.deviation <= hi - lo
  {
    var init, last := seen[..|seen| - 1], seen[|seen| - 1];
    if init == [] {
      assert Fold(host, metric, init) == Ok(None);
    } else {
      BaselineStaysInRange(host, metric, init, lo, hi);
      UpdateStaysInRange(Fold(host, metric, init).value.value, last.value, last.alpha, lo, hi);
      hide UpdateBaseline;
    }
  }

  // ---------------------------------------------------------------- projection

  datatype Sample = Sample(timestamp: real, value: real)

  datatype Projection = Projection(host: string, hoursToFull: Option<real>, alert: bool)

  /** Insertion from the right keeps samples with equal timestamps in their order. */
  function InsertSorted(xs: seq<Sample>, s: Sample): seq<Sample> {
    if xs == [] || xs[|xs| - 1].timestamp <= s.timestamp then xs + [s]
    else InsertSorted(xs[..|xs| - 1], s) + [xs[|xs| - 1]]
  }

  function SortByTime(samples: seq<Sample>): (r: seq<Sample>)
    ensures |r| == |samples|
  {
    if samples == [] then []
    else
      var r := InsertSorted(SortByTime(samples[..|samples| - 1]), samples[|samples| - 1]);
      SortKeepsLength(SortByTime(samples[..|samples| - 1]), samples[|samples| - 1]);
      r
  }

  lemma {:induction false} SortKeepsLength(xs: seq<Sample>, s: Sample)
    ensures |InsertSorted(xs, s)| == |xs| + 1
  {
    if !(xs == [] || xs[|xs| - 1].timestamp <= s.timestamp) {
      SortKeepsLength(xs[..|xs| - 1], s);
    }
  }

  /** The sums of the fit, by what they add up for a sample. */
  datatype Moment = X | Y | Square(mx: real) | Cross(mx: real, my: real)

  /** A product, named so that proofs about sums can leave it alone. */
  function Times(a: real, b: real): real {
    a * b
  }

  function Term(s: Sample, t0: real, m: Moment): real {
    var x := s.timestamp - t0;
    match m
    case X => x
    case Y => s.value
    case Square(mx) => Times(x - mx, x - mx)
    case Cross(mx, my) => Times(x - mx, s.value - my)
  }

  function Total(samples: seq<Sample>, t0: real, m: Moment): real {
    if samples == [] then 0.0 else Total(samples[..|samples| - 1], t0, m) + Term(samples[|samples| - 1], t0, m)
  }

  function Mean(samples: seq<Sample>, t0: real, m: Moment): real
    requires samples != []
  {
    Total(samples, t0, m) / (|samples| as real)
  }

  function Denominator(samples: seq<Sample>, t0: real): real
    requires samples != []
  {
    Total(samples, t0, Square(Mean(samples, t0, X)))
  }

  function Numerator(samples: seq<Sample>, t0: real): real
    requires samples != []
  {
    Total(samples, t0, Cross(Mean(samples, t0, X), Mean(samples, t0, Y)))
  }

  /** The least-squares slope, if the timestamps differ. */
  function Slope(samples: seq<Sample>, t0: real): Option<real>
    requires samples != []
  {
    if Denominator(samples, t0) == 0.0 then None else Some(Numerator(samples, t0) / Denominator(samples, t0))
  }

  /** What follows from a slope and the latest value. */
  function Conclude(host: string, slope: Option<real>, latest: real, thresholdHours: real): Projection {
    if slope.None? || slope.value >= 0.0 then Projection(host, None, false)
    else
      var hours := latest / (-slope.value) / 3600.0;
      Projection(host, Some(hours), hours < thresholdHours)
  }

  function ProjectDiskFill(host: string, samples: seq<Sample>, thresholdHours: real): Result<Projection, Error> {
    if |samples| < 2 then Err(TooFewSamples)
    else
      var ordered := SortByTime(samples);
      Ok(Conclude(host, Slope(ordered, ordered[0].timestamp), ordered[|ordered| - 1].value, thresholdHours))
  }

  // ---------------------------------------------------------------- sorting

  predicate Ordered(xs: seq<Sample>) {
    forall i, j | 0 <= i < j < |xs| :: xs[i].timestamp <= xs[j].timestamp
  }

  lemma {:induction false} InsertFacts(xs: seq<Sample>, s: Sample)
    requires Ordered(xs)
    ensures Ordered(InsertSorted(xs, s)) && |InsertSorted(xs, s)| == |xs| + 1
    ensures InsertSorted(xs, s)[|xs|] == if xs == [] || xs[|xs| - 1].timestamp <= s.timestamp then s else xs[|xs| - 1]
  {
    if !(xs == [] || xs[|xs| - 1].timestamp <= s.timestamp) {
      var init, last := xs[..|xs| - 1], xs[|xs| - 1];
      InsertFacts(init, s);
      OrderedSnoc(InsertSorted(init, s), last);
    } else {
      OrderedSnoc(xs, s);
    }
  }

  lemma OrderedSnoc(xs: seq<Sample>, s: Sample)
    requires Ordered(xs) && (xs == [] || xs[|xs| - 1].timestamp <= s.timestamp)
    ensures Ordered(xs + [s])
  {
  }

  lemma {:induction false} InsertKeepsAll(xs: seq<Sample>, s: Sample)
    ensures multiset(InsertSorted(xs, s)) == multiset(xs) + multiset{s}
  {
    if !(xs == [] || xs[|xs| - 1].timestamp <= s.timestamp) {
      var init, last := xs[..|xs| - 1], xs[|xs| - 1];
      InsertKeepsAll(init, s);
      Front(xs);
    }
  }

  lemma Front(xs: seq<Sample>)
    requires xs != []
    ensures xs == xs[..|xs| - 1] + [xs[|xs| - 1]]
    ensures multiset(xs) == multiset(xs[..|xs| - 1]) + multiset{xs[|xs| - 1]}
  {
    assert xs == xs[..|xs| - 1] + [xs[|xs| - 1]];
  }

  /** The last of the samples with the greatest timestamp, in the order given. */
  function Latest(samples: seq<Sample>): Sample
    requires samples != []
  {
    var last := samples[|samples| - 1];
    if |samples| == 1 then last
    else
      var before := Latest(samples[..|samples| - 1]);
      if before.timestamp <= last.timestamp then last else before
  }

  lemma {:induction false} SortFacts(samples: seq<Sample>)
    ensures Ordered(SortByTime(samples)) && multiset(SortByTime(samples)) == multiset(samples)
    ensures samples != [] ==> SortByTime(samples)[|samples| - 1] == Latest(samples)
  {
    if samples != [] {
      var init, last := samples[..|samples| - 1], samples[|samples| - 1];
      SortFacts(init);
      Front(samples);
      InsertFacts(SortByTime(init), last);
      InsertKeepsAll(SortByTime(init), last);
      hide Ordered, InsertSorted;
    }
  }

  // ---------------------------------------------------------------- order of the samples

  lemma {:induction false} TotalWithout(samples: seq<Sample>, k: nat, t0: real, m: Moment)
    requires k < |samples|
    ensures Total(samples, t0, m) == Total(samples[..k] + samples[k + 1..], t0, m) + Term(samples[k], t0, m)
  {
    var last := |samples| - 1;
    if k == last {
      assert samples[..k] + samples[k + 1..] == samples[..last];
    } else {
      var init := samples[..last];
      TotalWithout(init, k, t0, m);
      var less := samples[..k] + samples[k + 1..];
      assert less[..|less| - 1] == init[..k] + init[k + 1..];
    }
  }

  lemma {:induction false} TotalOfMultiset(a: seq<Sample>, b: seq<Sample>, t0: real, m: Moment)
    requires multiset(a) == multiset(b)
    ensures Total(a, t0, m) == Total(b, t0, m)
  {
    if a == [] {
      SameSize(a, b);
    } else {
      var k := WhereLastIs(a, b);
      TotalWithout(b, k, t0, m);
      TotalOfMultiset(a[..|a| - 1], b[..k] + b[k + 1..], t0, m);
    }
  }

  lemma WhereLastIs(a: seq<Sample>, b: seq<Sample>) returns (k: nat)
    requires a != [] && multiset(a) == multiset(b)
    ensures k < |b| && b[k] == a[|a| - 1] && multiset(a[..|a| - 1]) == multiset(b[..k] + b[k + 1..])
  {
    var last := a[|a| - 1];
    Front(a);
    assert last in multiset(b);
    k :| 0 <= k < |b| && b[k] == last;
    assert b == b[..k] + [last] + b[k + 1..];
    var less := b[..k] + b[k + 1..];
    assert multiset(b) == multiset(less) + multiset{last};
    assert multiset(less) == multiset(b) - multiset{last};
    assert multiset(a[..|a| - 1]) == multiset(a) - multiset{last};
  }

  lemma SameSize(a: seq<Sample>, b: seq<Sample>)
    requires multiset(a) == multiset(b)
    ensures |a| == |b|
  {
    assert |multiset(a)| == |a| && |multiset(b)| == |b|;
  }

  lemma SlopeOfMultiset(a: seq<Sample>, b: seq<Sample>, t0: real)
    requires a != [] && multiset(a) == multiset(b)
    ensures b != [] && Slope(a, t0) == Slope(b, t0)
  {
    SameSize(a, b);
    TotalOfMultiset(a, b, t0, X);
    TotalOfMultiset(a, b, t0, Y);
    TotalOfMultiset(a, b, t0, Square(Mean(a, t0, X)));
    TotalOfMultiset(a, b, t0, Cross(Mean(a, t0, X), Mean(a, t0, Y)));
  }

  lemma FirstIsEarliest(a: seq<Sample>, b: seq<Sample>)
    requires Ordered(a) && Ordered(b) && a != [] && multiset(a) == multiset(b)
    ensures b != [] && a[0].timestamp == b[0].timestamp
  {
    SameSize(a, b);
    assert a[0] in multiset(b) && b[0] in multiset(a);
    var i :| 0 <= i < |b| && b[i] == a[0];
    var j :| 0 <= j < |a| && a[j] == b[0];
  }

  function Earliest(samples: seq<Sample>): real
    requires samples != []
  {
    var last := samples[|samples| - 1].timestamp;
    if |samples| == 1 then last
    else
      var before := Earliest(samples[..|samples| - 1]);
      if before <= last then before else last
  }

  lemma {:induction false} EarliestIsLeast(samples: seq<Sample>)
    requires samples != []
    ensures exists s :: s in samples && s.timestamp == Earliest(samples)
    ensures forall s :: s in samples ==> Earliest(samples) <= s.timestamp
  {
    assert samples[|samples| - 1] in samples;
    if |samples| > 1 {
      EarliestIsLeast(samples[..|samples| - 1]);
      assert samples == samples[..|samples| - 1] + [samples[|samples| - 1]];
    }
  }

  lemma SortedStartsEarliest(samples: seq<Sample>)
    requires samples != []
    ensures SortByTime(samples)[0].timestamp == Earliest(samples)
  {
    var ordered := SortByTime(samples);
    SortFacts(samples);
    EarliestIsLeast(samples);
    hide Earliest, SortByTime;
    assert ordered[0] in multiset(samples);
    var s :| s in samples && s.timestamp == Earliest(samples);
    assert s in multiset(ordered);
    var i :| 0 <= i < |ordered| && ordered[i] == s;
  }

  /** All samples have one timestamp, or the values do not fall along the fit. */
  predicate NeverFull(samples: seq<Sample>)
    requires samples != []
  {
    AllAt(samples, samples[0].timestamp) || Numerator(samples, Earliest(samples)) >= 0.0
  }

  /** The projection's branch, told from the samples as they are given. */
  lemma NoTimeToFullIff(host: string, samples: seq<Sample>, thresholdHours: real)
    requires |samples| >= 2
    ensures ProjectDiskFill(host, samples, thresholdHours).value.hoursToFull.None? <==> NeverFull(samples)
  {
    var ordered, t0 := SortByTime(samples), Earliest(samples);
    SortFacts(samples);
    SortedStartsEarliest(samples);
    SlopeOfMultiset(ordered, samples, t0);
    NoFitIffOneTime(samples, t0);
    SquaresArePositive(samples, t0, Mean(samples, t0, X));
    hide SortByTime, Earliest, Total, AllAt;
    if Slope(samples, t0).Some? {
      SignOfQuotient(Numerator(samples, t0), Denominator(samples, t0));
    }
  }

  lemma SignOfQuotient(a: real, b: real)
    requires b > 0.0
    ensures a / b >= 0.0 <==> a >= 0.0
  {
    assert (a / b) * b == a;
  }

  /** Main result: the order in which samples are given matters only through the value of the
      last one with the greatest timestamp: two orders give the same projection exactly when
      there is one timestamp, the values do not fall along the fit, or that value is the same. */
  lemma OrderMattersOnlyThroughLatest(host: string, a: seq<Sample>, b: seq<Sample>, thresholdHours: real)
    requires multiset(a) == multiset(b)
    ensures |a| >= 2 ==>
              |b| == |a|
              && (ProjectDiskFill(host, a, thresholdHours) == ProjectDiskFill(host, b, thresholdHours)
                  <==> NeverFull(a) || Latest(a).value == Latest(b).value)
    ensures |a| < 2 ==> ProjectDiskFill(host, a, thresholdHours) == ProjectDiskFill(host, b, thresholdHours)
  {
    SameSize(a, b);
    if |a| >= 2 {
      SortedAlike(a, b);
      NoTimeToFullIff(host, a, thresholdHours);
      hide NeverFull, Slope, Latest, SortByTime;
      var x := SortByTime(a);
      ConclusionsDiffer(host, Slope(x, x[0].timestamp), Latest(a).value, Latest(b).value, thresholdHours);
    }
  }

  /** Two samples that tie at the greatest timestamp, given in either order. */
  function Tied(first: real, second: real): seq<Sample> {
    [Sample(0.0, 12.0), Sample(0.0, 10.0), Sample(1.0, first), Sample(1.0, second)]
  }

  lemma TotalOfTied(first: real, second: real, m: Moment)
    ensures Total(Tied(first, second), 0.0, m)
            == Term(Sample(0.0, 12.0), 0.0, m) + Term(Sample(0.0, 10.0), 0.0, m)
               + Term(Sample(1.0, first), 0.0, m) + Term(Sample(1.0, second), 0.0, m)
  {
    var all := Tied(first, second);
    hide Term;
    assert all[..3][..2] == all[..2] && all[..2][..1] == all[..1] && all[..1][..0] == [];
    assert Total(all[..1], 0.0, m) == Term(all[0], 0.0, m);
    assert Total(all[..2], 0.0, m) == Total(all[..1], 0.0, m) + Term(all[1], 0.0, m);
    assert Total(all[..3], 0.0, m) == Total(all[..2], 0.0, m) + Term(all[2], 0.0, m);
  }

  /** Ties do make a difference: the same samples, with the two that tie swapped, project
      differently. */
  lemma TiesMakeADifference(host: string, thresholdHours: real)
    ensures multiset(Tied(5.0, 3.0)) == multiset(Tied(3.0, 5.0))
    ensures ProjectDiskFill(host, Tied(5.0, 3.0), thresholdHours) != ProjectDiskFill(host, Tied(3.0, 5.0), thresholdHours)
  {
    hide *;
    TiedAreTheSame();
    TiedFall();
    OrderMattersOnlyThroughLatest(host, Tied(5.0, 3.0), Tied(3.0, 5.0), thresholdHours);
  }

  lemma TiedAreTheSame()
    ensures multiset(Tied(5.0, 3.0)) == multiset(Tied(3.0, 5.0)) && |Tied(5.0, 3.0)| == |Tied(3.0, 5.0)| == 4
  {
  }

  lemma TiedFall()
    ensures |Tied(5.0, 3.0)| == |Tied(3.0, 5.0)| == 4 && !NeverFull(Tied(5.0, 3.0))
    ensures Latest(Tied(5.0, 3.0)).value == 3.0 && Latest(Tied(3.0, 5.0)).value == 5.0
  {
    var a := Tied(5.0, 3.0);
    EarliestOfTied(a);
    LatestOfTied(5.0, 3.0);
    LatestOfTied(3.0, 5.0);
    TotalOfTied(5.0, 3.0, X);
    TotalOfTied(5.0, 3.0, Y);
    TotalOfTied(5.0, 3.0, Cross(0.5, 7.5));
    hide Total, Earliest, Latest;
    assert Mean(a, 0.0, X) == 0.5 && Mean(a, 0.0, Y) == 7.5;
    assert Numerator(a, 0.0) == -7.0;
    assert a[0].timestamp != a[2].timestamp;
  }

  lemma EarliestOfTied(a: seq<Sample>)
    requires a == Tied(5.0, 3.0)
    ensures Earliest(a) == 0.0
  {
    EarliestIsLeast(a);
    hide Earliest;
    assert a[0] in a;
  }

  lemma LatestOfTied(first: real, second: real)
    ensures Latest(Tied(first, second)).value == second
  {
    var all := Tied(first, second);
    LatestIsGreatest(all[..3]);
    hide Latest;
    assert forall s | s in all :: s.timestamp <= 1.0;
    LatestUnfolds(all);
  }

  lemma LatestUnfolds(samples: seq<Sample>)
    requires |samples| > 1 && Latest(samples[..|samples| - 1]).timestamp <= samples[|samples| - 1].timestamp
    ensures Latest(samples) == samples[|samples| - 1]
  {
  }

  lemma SortedAlike(a: seq<Sample>, b: seq<Sample>)
    requires multiset(a) == multiset(b) && |a| >= 2 && |b| == |a|
    ensures var x, y := SortByTime(a), SortByTime(b);
            && Slope(x, x[0].timestamp) == Slope(y, y[0].timestamp)
            && x[|x| - 1] == Latest(a) && y[|y| - 1] == Latest(b)
  {
    var x, y := SortByTime(a), SortByTime(b);
    SortFacts(a);
    SortFacts(b);
    FirstIsEarliest(x, y);
    SlopeOfMultiset(x, y, x[0].timestamp);
  }

  lemma ConclusionsDiffer(host: string, slope: Option<real>, a: real, b: real, thresholdHours: real)
    ensures Conclude(host, slope, a, thresholdHours) == Conclude(host, slope, b, thresholdHours)
            <==> Conclude(host, slope, a, thresholdHours).hoursToFull.None? || a == b
  {
    if slope.Some? && slope.value < 0.0 {
      SameHours(a, b, -slope.value);
    }
  }

  lemma SameHours(a: real, b: real, rate: real)
    requires rate > 0.0
    ensures a / rate / 3600.0 == b / rate / 3600.0 <==> a == b
  {
    assert (a / rate) * rate == a && (b / rate) * rate == b;
  }

  /** With distinct timestamps the order never matters. */
  lemma DistinctTimesHaveOneLatest(host: string, a: seq<Sample>, b: seq<Sample>, thresholdHours: real)
    requires multiset(a) == multiset(b)
    requires forall i, j | 0 <= i < j < |a| :: a[i].timestamp != a[j].timestamp
    ensures ProjectDiskFill(host, a, thresholdHours) == ProjectDiskFill(host, b, thresholdHours)
  {
    OrderMattersOnlyThroughLatest(host, a, b, thresholdHours);
    if |a| >= 2 {
      SameSize(a, b);
      LatestIsGreatest(a);
      LatestIsGreatest(b);
      assert Latest(b) in multiset(a) && Latest(a) in multiset(b);
    }
  }

  lemma {:induction false} LatestIsGreatest(samples: seq<Sample>)
    requires samples != []
    ensures Latest(samples) in samples
    ensures forall s :: s in samples ==> s.timestamp <= Latest(samples).timestamp
  {
    if |samples| > 1 {
      LatestIsGreatest(samples[..|samples| - 1]);
      assert samples == samples[..|samples| - 1] + [samples[|samples| - 1]];
    }
  }

  // ---------------------------------------------------------------- space that never falls

  /** Values never fall as time goes on. */
  predicate NeverFalls(samples: seq<Sample>) {
    forall a, b :: a in samples && b in samples && a.timestamp < b.timestamp ==> a.value <= b.value
  }

  /** Moving the values by a constant moves the cross sum by it times the sum of the deviations. */
  lemma {:induction false} DeviationsFrom(samples: seq<Sample>, t0: real, mx: real, c: real, d: real)
    ensures Total(samples, t0, Cross(mx, c))
            == Total(samples, t0, Cross(mx, d)) + Times(d - c, Total(samples, t0, X) - Times(|samples| as real, mx))
  {
    if samples == [] {
      ZeroTimes(d - c, mx);
    } else {
      var init, last := samples[..|samples| - 1], samples[|samples| - 1];
      DeviationsFrom(init, t0, mx, c, d);
      hide Times;
      var x, n := last.timestamp - t0, |init| as real;
      ShiftFactor(x - mx, last.value, c, d);
      OneMore(n, mx);
      assert |samples| as real == n + 1.0;
      assert Total(samples, t0, X) - Times(n + 1.0, mx) == (Total(init, t0, X) - Times(n, mx)) + (x - mx);
      Distribute(d - c, Total(init, t0, X) - Times(n, mx), x - mx);
    }
  }

  lemma ZeroTimes(a: real, b: real)
    ensures Times(a, 0.0 - Times(0.0, b)) == 0.0
  {
  }

  lemma ShiftFactor(x: real, y: real, c: real, d: real)
    ensures Times(x, y - c) == Times(x, y - d) + Times(d - c, x)
  {
  }

  lemma OneMore(n: real, x: real)
    ensures Times(n + 1.0, x) == Times(n, x) + x
  {
  }

  lemma Distribute(k: real, a: real, b: real)
    ensures Times(k, a + b) == Times(k, a) + Times(k, b)
  {
  }

  /** A value that separates the samples before a time from those after it. */
  lemma {:induction false} Separator(samples: seq<Sample>, time: real) returns (c: real)
    requires NeverFalls(samples)
    ensures forall s :: s in samples ==> if s.timestamp < time then s.value <= c else s.value >= c
  {
    c := 0.0;
    if samples != [] {
      var init, last := samples[..|samples| - 1], samples[|samples| - 1];
      assert samples == init + [last];
      assert last in samples && forall s :: s in init ==> s in samples;
      c := Separator(init, time);
      if last.timestamp < time {
        c := if c < last.value then last.value else c;
      } else {
        c := if c > last.value then last.value else c;
      }
      assert forall s :: s in samples ==> s in init || s == last;
    }
  }

  lemma {:induction false} SeparatedIsNotNegative(samples: seq<Sample>, t0: real, mx: real, c: real)
    requires forall s :: s in samples ==> if s.timestamp < t0 + mx then s.value <= c else s.value >= c
    ensures Total(samples, t0, Cross(mx, c)) >= 0.0
  {
    if samples != [] {
      var init, last := samples[..|samples| - 1], samples[|samples| - 1];
      SeparatedIsNotNegative(init, t0, mx, c);
      hide Times;
      assert last in samples;
      SameSign(last.timestamp - t0 - mx, last.value - c);
    }
  }

  lemma SameSign(x: real, y: real)
    requires if x < 0.0 then y <= 0.0 else y >= 0.0
    ensures Times(x, y) >= 0.0
  {
  }

  lemma SquareIsPositive(x: real)
    ensures if x == 0.0 then Times(x, x) == 0.0 else Times(x, x) > 0.0
  {
    if x == 0.0 {
      TimesNothing(x);
    } else {
      ProductIsPositive(x, x);
    }
    hide Times;
  }

  lemma ProductIsPositive(a: real, b: real)
    requires (a > 0.0 && b > 0.0) || (a < 0.0 && b < 0.0)
    ensures Times(a, b) > 0.0
  {
  }

  predicate AllAt(samples: seq<Sample>, time: real) {
    forall i | 0 <= i < |samples| :: samples[i].timestamp == time
  }

  lemma {:induction false} SquaresArePositive(samples: seq<Sample>, t0: real, mx: real)
    ensures if AllAt(samples, t0 + mx) then Total(samples, t0, Square(mx)) == 0.0 else Total(samples, t0, Square(mx)) > 0.0
  {
    if samples != [] {
      var init, last := samples[..|samples| - 1], samples[|samples| - 1];
      SquaresArePositive(init, t0, mx);
      SquareIsPositive(last.timestamp - t0 - mx);
      hide Times;
      assert AllAt(samples, t0 + mx) <==> AllAt(init, t0 + mx) && last.timestamp == t0 + mx;
    }
  }

  /** The deviations of the times from their mean add up to zero. */
  lemma MeanBalances(samples: seq<Sample>, t0: real)
    requires samples != []
    ensures Total(samples, t0, X) == Times(|samples| as real, Mean(samples, t0, X))
    ensures Total(samples, t0, Y) == Times(|samples| as real, Mean(samples, t0, Y))
  {
    hide Total;
    TimesQuotient(Total(samples, t0, X), |samples| as real);
    TimesQuotient(Total(samples, t0, Y), |samples| as real);
  }

  lemma TimesQuotient(a: real, n: real)
    requires n > 0.0
    ensures Times(n, a / n) == a
  {
  }

  /** Chebyshev's sum inequality, for the sums of the fit. */
  lemma RisingHasNoNegativeSlope(samples: seq<Sample>, t0: real)
    requires samples != [] && NeverFalls(samples)
    ensures Numerator(samples, t0) >= 0.0
    ensures Slope(samples, t0).Some? ==> Slope(samples, t0).value >= 0.0
  {
    var mx, my := Mean(samples, t0, X), Mean(samples, t0, Y);
    var c := Separator(samples, t0 + mx);
    SeparatedIsNotNegative(samples, t0, mx, c);
    DeviationsFrom(samples, t0, mx, my, c);
    MeanBalances(samples, t0);
    TimesNothing(c - my);
    SquaresArePositive(samples, t0, mx);
    hide Total, Times, Mean;
    if Denominator(samples, t0) != 0.0 {
      QuotientIsNotNegative(Numerator(samples, t0), Denominator(samples, t0));
    }
  }

  lemma TimesNothing(a: real)
    ensures Times(a, 0.0) == 0.0
  {
  }

  lemma QuotientIsNotNegative(a: real, b: real)
    requires a >= 0.0 && b > 0.0
    ensures a / b >= 0.0
  {
  }

  /** Main result: samples whose free space never falls over time give no alert and no time to
      full, in whatever order they are given. */
  lemma NoAlertUnlessSpaceFalls(host: string, samples: seq<Sample>, thresholdHours: real)
    requires |samples| >= 2 && NeverFalls(samples)
    ensures ProjectDiskFill(host, samples, thresholdHours) == Ok(Projection(host, None, false))
  {
    var ordered := SortByTime(samples);
    SortFacts(samples);
    forall s | s in ordered ensures s in samples {
      assert s in multiset(ordered);
    }
    RisingHasNoNegativeSlope(ordered, ordered[0].timestamp);
  }

  // ---------------------------------------------------------------- samples on a line

  /** Values on a line that falls from a start at a rate. */
  predicate OnLine(samples: seq<Sample>, t0: real, start: real, rate: real) {
    forall i | 0 <= i < |samples| :: samples[i].value == start - Times(rate, samples[i].timestamp - t0)
  }

  lemma {:induction false} LineValues(samples: seq<Sample>, t0: real, start: real, rate: real)
    requires OnLine(samples, t0, start, rate)
    ensures Total(samples, t0, Y) == Times(|samples| as real, start) - Times(rate, Total(samples, t0, X))
  {
    if samples == [] {
      TimesNothing(rate);
      assert Times(0.0, start) == 0.0;
    } else {
      var init, last := samples[..|samples| - 1], samples[|samples| - 1];
      LineValues(init, t0, start, rate);
      hide Times;
      Distribute(rate, Total(init, t0, X), last.timestamp - t0);
      OneMore(|init| as real, start);
      assert |samples| as real == |init| as real + 1.0;
    }
  }

  lemma {:induction false} LineCrosses(samples: seq<Sample>, t0: real, start: real, rate: real, mx: real)
    requires OnLine(samples, t0, start, rate)
    ensures Total(samples, t0, Cross(mx, start - Times(rate, mx))) == -Times(rate, Total(samples, t0, Square(mx)))
  {
    if samples == [] {
      TimesNothing(rate);
    } else {
      var init, last := samples[..|samples| - 1], samples[|samples| - 1];
      LineCrosses(init, t0, start, rate, mx);
      hide Times;
      var x := last.timestamp - t0;
      OnTheLine(x, mx, start, rate, last.value);
      Distribute(rate, Total(init, t0, Square(mx)), Times(x - mx, x - mx));
    }
  }

  lemma OnTheLine(x: real, mx: real, start: real, rate: real, value: real)
    requires value == start - Times(rate, x)
    ensures Times(x - mx, value - (start - Times(rate, mx))) == -Times(rate, Times(x - mx, x - mx))
  {
    assert value - (start - Times(rate, mx)) == -rate * (x - mx);
    assert (x - mx) * (-rate * (x - mx)) == -rate * ((x - mx) * (x - mx));
  }

  lemma SlopeOfLine(samples: seq<Sample>, t0: real, start: real, rate: real, i: nat, j: nat)
    requires OnLine(samples, t0, start, rate)
    requires i < j < |samples| && samples[i].timestamp != samples[j].timestamp
    ensures Slope(samples, t0) == Some(-rate)
  {
    var mx, my := Mean(samples, t0, X), Mean(samples, t0, Y);
    LineValues(samples, t0, start, rate);
    MeanBalances(samples, t0);
    MeanOnLine(|samples| as real, mx, my, start, rate);
    LineCrosses(samples, t0, start, rate, mx);
    SquaresArePositive(samples, t0, mx);
    assert !AllAt(samples, t0 + mx) by {
      assert samples[i].timestamp != t0 + mx || samples[j].timestamp != t0 + mx;
    }
    hide Total, OnLine, AllAt, Mean, Times;
    QuotientIsRate(Numerator(samples, t0), Denominator(samples, t0), rate);
  }

  lemma QuotientIsRate(a: real, b: real, rate: real)
    requires b > 0.0 && a == -Times(rate, b)
    ensures a / b == -rate
  {
    RateBack(rate, b);
  }

  lemma RateBack(rate: real, b: real)
    requires b != 0.0
    ensures (-rate * b) / b == -rate
  {
  }

  lemma MeanOnLine(n: real, mx: real, my: real, start: real, rate: real)
    requires n > 0.0 && Times(n, my) == Times(n, start) - Times(rate, Times(n, mx))
    ensures my == start - Times(rate, mx)
  {
    var line := start - Times(rate, mx);
    assert rate * (n * mx) == n * (rate * mx);
    assert n * line == n * start - n * (rate * mx);
    SameFactor(n, my, line);
  }

  lemma SameFactor(n: real, a: real, b: real)
    requires n > 0.0 && n * a == n * b
    ensures a == b
  {
    assert (n * a) / n == a && (n * b) / n == b;
  }

  /** The same line, with time counted from another origin. */
  lemma LineShifts(xs: seq<Sample>, start: real, rate: real, t0: real)
    requires OnLine(xs, 0.0, start, rate)
    ensures OnLine(xs, t0, start - Times(rate, t0), rate)
  {
    forall i | 0 <= i < |xs| ensures xs[i].value == (start - Times(rate, t0)) - Times(rate, xs[i].timestamp - t0) {
      Distribute(rate, t0, xs[i].timestamp - t0);
    }
  }

  /** Main result: samples on a falling line, at two times or more, project exactly the latest
      value divided by the rate. */
  lemma FallingLineProjectsExactly(
    host: string, samples: seq<Sample>, thresholdHours: real, start: real, rate: real, i: nat, j: nat)
    requires rate > 0.0 && OnLine(samples, 0.0, start, rate)
    requires i < j < |samples| && samples[i].timestamp != samples[j].timestamp
    ensures var hours := Latest(samples).value / rate / 3600.0;
            ProjectDiskFill(host, samples, thresholdHours) == Ok(Projection(host, Some(hours), hours < thresholdHours))
  {
    hide *;
    var ordered := SortByTime(samples);
    SortFacts(samples);
    SortedLine(samples, ordered, start, rate);
    var k, l := TwoTimes(samples, ordered, i, j);
    var t0 := ordered[0].timestamp;
    LineShifts(ordered, start, rate, t0);
    SlopeOfLine(ordered, t0, start - Times(rate, t0), rate, k, l);
    ConcludeFrom(host, samples, thresholdHours, rate);
  }

  lemma ConcludeFrom(host: string, samples: seq<Sample>, thresholdHours: real, rate: real)
    requires rate > 0.0 && |samples| >= 2
    requires var ordered := SortByTime(samples);
             Slope(ordered, ordered[0].timestamp) == Some(-rate) && ordered[|ordered| - 1] == Latest(samples)
    ensures var hours := Latest(samples).value / rate / 3600.0;
            ProjectDiskFill(host, samples, thresholdHours) == Ok(Projection(host, Some(hours), hours < thresholdHours))
  {
    hide Slope, SortByTime, Latest, Conclude;
    ConcludeFalling(host, Latest(samples).value, rate, thresholdHours);
  }

  lemma ConcludeFalling(host: string, latest: real, rate: real, thresholdHours: real)
    requires rate > 0.0
    ensures var hours := latest / rate / 3600.0;
            Conclude(host, Some(-rate), latest, thresholdHours) == Projection(host, Some(hours), hours < thresholdHours)
  {
    assert -(-rate) == rate;
  }

  lemma SortedLine(samples: seq<Sample>, ordered: seq<Sample>, start: real, rate: real)
    requires multiset(ordered) == multiset(samples) && OnLine(samples, 0.0, start, rate)
    ensures OnLine(ordered, 0.0, start, rate)
  {
    hide Times;
    forall i | 0 <= i < |ordered| ensures ordered[i].value == start - Times(rate, ordered[i].timestamp - 0.0) {
      assert ordered[i] in multiset(samples);
      var k :| 0 <= k < |samples| && samples[k] == ordered[i];
    }
  }

  lemma TwoTimes(samples: seq<Sample>, ordered: seq<Sample>, i: nat, j: nat) returns (k: nat, l: nat)
    requires multiset(ordered) == multiset(samples)
    requires i < j < |samples| && samples[i].timestamp != samples[j].timestamp
    ensures k < l < |ordered| && ordered[k].timestamp != ordered[l].timestamp
  {
    assert samples[i] in multiset(ordered) && samples[j] in multiset(ordered);
    var a: nat :| a < |ordered| && ordered[a] == samples[i];
    var b: nat :| b < |ordered| && ordered[b] == samples[j];
    k, l := if a < b then a else b, if a < b then b else a;
  }

  /** Main result: there is no fit exactly when all samples have the same timestamp. */
  lemma NoFitIffOneTime(samples: seq<Sample>, t0: real)
    requires samples != []
    ensures Slope(samples, t0).None? <==> AllAt(samples, samples[0].timestamp)
  {
    var mx := Mean(samples, t0, X);
    SquaresArePositive(samples, t0, mx);
    if AllAt(samples, samples[0].timestamp) {
      var x := samples[0].timestamp - t0;
      SameTimes(samples, t0, x);
      MeanOfSame(|samples| as real, x);
    }
  }

  lemma MeanOfSame(n: real, x: real)
    requires n > 0.0
    ensures Times(n, x) / n == x
  {
  }

  lemma {:induction false} SameTimes(samples: seq<Sample>, t0: real, x: real)
    requires AllAt(samples, t0 + x)
    ensures Total(samples, t0, X) == Times(|samples| as real, x)
  {
    if samples != [] {
      var init, last := samples[..|samples| - 1], samples[|samples| - 1];
      SameTimes(init, t0, x);
      OneMore(|init| as real, x);
      assert |samples| as real == |init| as real + 1.0;
      hide Times;
    }
  }
}
