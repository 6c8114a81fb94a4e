/** Counter-diagonal summaries of binless's fast decay update
    (binless/src/fast_decay.cpp): the least-squares Poisson log decay, which
    gives up when a counter-diagonal has no observed count, and the
    summaries the spline fit of the decay starts from.

    Observations are bucketed by their counter-diagonal `bin2 - bin1`. A
    value the source computes as `0 / 0` (the mean distance of a
    counter-diagonal without observations) is `None` here, and so is every
    value computed from it. The expected counts of the current state and the
    current decay curve are computed by code that is not part of this
    model: they are given as a sequence and as a function value. */
module FastDecay {
  import opened Basics
  import FastBinless

  /** `DecaySummary`: per counter-diagonal, the mean genomic distance, the
      working response `kappahat`, its weight and the number of
      observations. */
  datatype DecaySummary = DecaySummary(distance: seq<Option<real>>, kappahat: seq<Option<real>>,
                                       weight: seq<real>, ncounts: seq<nat>)

  // ---------------------------------------------------------------------
  // Per-diagonal totals
  // ---------------------------------------------------------------------

  /** Per counter-diagonal `d`, the number of observations on it. */
  function DiagonalCounts(bin1: seq<int>, bin2: seq<int>, nbins: nat): (r: seq<nat>)
    requires |bin1| == |bin2|
    ensures |r| == nbins
    ensures forall d :: 0 <= d < nbins ==>
              r[d] == CountWhere(FastBinless.Diagonals(bin1, bin2), FastBinless.Diagonals(bin1, bin2), d, |bin1|)
  {
    var diag := FastBinless.Diagonals(bin1, bin2);
    seq(nbins, d requires 0 <= d < nbins => CountWhere(diag, diag, d, |bin1|))
  }

  /** The accumulation loops of `compute_poisson_lsq_log_decay` and
      `get_decay_summary`: two per-observation quantities, the distance and a
      count summed per counter-diagonal. */
  method DiagonalTotals(bin1: seq<int>, bin2: seq<int>, first: seq<real>, second: seq<real>,
                        distances: seq<real>, nbins: nat)
    returns (firstSums: seq<real>, secondSums: seq<real>, distanceSums: seq<real>, ncounts: seq<nat>)
    requires |first| == |bin1| && |second| == |bin1| && |distances| == |bin1|
    requires FastBinless.UpperTriangle(bin1, bin2, nbins)
    ensures firstSums == FastBinless.DiagonalSums(first, bin1, bin2, nbins)
    ensures secondSums == FastBinless.DiagonalSums(second, bin1, bin2, nbins)
    ensures distanceSums == FastBinless.DiagonalSums(distances, bin1, bin2, nbins)
    ensures ncounts == DiagonalCounts(bin1, bin2, nbins)
  {
    ghost var diag := FastBinless.Diagonals(bin1, bin2);
    firstSums := seq(nbins, _ => 0.0);
    secondSums := firstSums;
    distanceSums := firstSums;
    ncounts := seq(nbins, _ => 0);
    var i := 0;
    while i < |bin1|
      invariant 0 <= i <= |bin1|
      invariant |firstSums| == nbins && |secondSums| == nbins && |distanceSums| == nbins && |ncounts| == nbins
      invariant forall d :: 0 <= d < nbins ==>
                  firstSums[d] == SumWhere(first, diag, diag, d, i)
                  && secondSums[d] == SumWhere(second, diag, diag, d, i)
                  && distanceSums[d] == SumWhere(distances, diag, diag, d, i)
                  && ncounts[d] == CountWhere(diag, diag, d, i)
    {
      var d := bin2[i] - bin1[i];
      firstSums := firstSums[d := firstSums[d] + first[i]];
      secondSums := secondSums[d := secondSums[d] + second[i]];
      distanceSums := distanceSums[d := distanceSums[d] + distances[i]];
      ncounts := ncounts[d := ncounts[d] + 1];
      i := i + 1;
    }
  }

  /** A counter-diagonal holds an observation exactly when its count is
      positive; with positive weights, exactly when its weight is positive;
      and a sum over a counter-diagonal without observations is 0. */
  lemma PopulatedDiagonal(bin1: seq<int>, bin2: seq<int>, values: seq<real>, weights: seq<real>, nbins: nat, d: nat)
    requires |values| == |bin1| && |weights| == |bin1| && FastBinless.UpperTriangle(bin1, bin2, nbins) && d < nbins
    requires forall i :: 0 <= i < |weights| ==> weights[i] > 0.0
    ensures DiagonalCounts(bin1, bin2, nbins)[d] > 0 <==> FastBinless.DiagonalSums(weights, bin1, bin2, nbins)[d] > 0.0
    ensures DiagonalCounts(bin1, bin2, nbins)[d] == 0 ==> FastBinless.DiagonalSums(values, bin1, bin2, nbins)[d] == 0.0
  {
    var diag := FastBinless.Diagonals(bin1, bin2);
    CountWherePositive(diag, diag, d, |bin1|);
    if CountWhere(diag, diag, d, |bin1|) > 0 {
      var j :| 0 <= j < |bin1| && Matches(diag, diag, d, j);
      SumWherePositive(weights, diag, diag, d, |bin1|, j);
    } else {
      SumWhereNoMatch(weights, diag, diag, d, |bin1|);
      SumWhereNoMatch(values, diag, diag, d, |bin1|);
    }
  }

  /** `distance / ncounts` on one counter-diagonal: `None` (the source's
      `0 / 0`) when it has no observations. */
  function MeanDistance(sum: real, count: nat): (r: Option<real>)
    ensures count == 0 <==> r.None?
    ensures count > 0 ==> r.value * (count as real) == sum
  {
    if count == 0 then None else Some(sum / count as real)
  }

  /** `MeanDistance` of every counter-diagonal. */
  function MeanDistances(sums: seq<real>, counts: seq<nat>): (r: seq<Option<real>>)
    requires |sums| == |counts|
    ensures |r| == |sums| && forall d :: 0 <= d < |sums| ==> r[d] == MeanDistance(sums[d], counts[d])
  {
    seq(|sums|, d requires 0 <= d < |sums| => MeanDistance(sums[d], counts[d]))
  }

  // ---------------------------------------------------------------------
  // compute_poisson_lsq_log_decay
  // ---------------------------------------------------------------------

  /** `exp(log_expected)` of every observation. */
  function ExpectedCounts(logExpected: seq<real>, num: Numerics): (r: seq<real>)
    requires num.Valid()
    ensures |r| == |logExpected|
    ensures forall i :: 0 <= i < |r| ==> r[i] == FastBinless.ExpectedCount(num, logExpected[i]) && r[i] > 0.0
  {
    seq(|logExpected|, i requires 0 <= i < |logExpected| => FastBinless.ExpectedCount(num, logExpected[i]))
  }

  /** Some counter-diagonal has a zero summed observed count. */
  predicate HasZero(sums: seq<real>)
  {
    exists d :: 0 <= d < |sums| && sums[d] == 0.0
  }

  /** The check loop of `compute_poisson_lsq_log_decay`. */
  method FindZeroDiagonal(sums: seq<real>) returns (found: bool)
    ensures found <==> HasZero(sums)
  {
    found := false;
    var d := 0;
    while d < |sums|
      invariant 0 <= d <= |sums|
      invariant found <==> exists k :: 0 <= k < d && sums[k] == 0.0
    {
      if sums[d] == 0.0 {
        found := true;
      }
      d := d + 1;
    }
  }

  /** Unweighted mean; an empty vector has none, and its value does not
      matter since nothing is shifted by it. */
  function Mean(s: seq<real>): real
  {
    if |s| == 0 then 0.0 else Sum(s) / |s| as real
  }

  lemma {:induction false} SumShift(s: seq<real>, c: real)
    ensures Sum(Shift(s, c)) == Sum(s) - (|s| as real) * c
  {
    if |s| > 0 {
      var n := |s| - 1;
      assert Shift(s, c)[..n] == Shift(s[..n], c);
      SumShift(s[..n], c);
    }
  }

  /** Shifting by the mean leaves a vector with sum, hence mean, 0. */
  lemma CentredSumZero(s: seq<real>)
    ensures Sum(Shift(s, Mean(s))) == 0.0
  {
    SumShift(s, Mean(s));
    if |s| > 0 {
      var n := |s| as real;
      var m := Sum(s) / n;
      assert m == Mean(s);
      assert n * m == Sum(s);
    }
  }

  /** A counter-diagonal with a non-zero observed sum holds an observation,
      hence a positive expected sum. */
  lemma ExpectedPositive(bin1: seq<int>, bin2: seq<int>, observed: seq<real>, expected: seq<real>, nbins: nat)
    requires |observed| == |bin1| && |expected| == |bin1| && FastBinless.UpperTriangle(bin1, bin2, nbins)
    requires forall i :: 0 <= i < |expected| ==> expected[i] > 0.0
    requires !HasZero(FastBinless.DiagonalSums(observed, bin1, bin2, nbins))
    ensures forall d :: 0 <= d < nbins ==>
              DiagonalCounts(bin1, bin2, nbins)[d] > 0 && FastBinless.DiagonalSums(expected, bin1, bin2, nbins)[d] > 0.0
  {
    forall d | 0 <= d < nbins
      ensures DiagonalCounts(bin1, bin2, nbins)[d] > 0 && FastBinless.DiagonalSums(expected, bin1, bin2, nbins)[d] > 0.0
    {
      assert FastBinless.DiagonalSums(observed, bin1, bin2, nbins)[d] != 0.0;
      PopulatedDiagonal(bin1, bin2, observed, expected, nbins, d);
    }
  }

  /** `log(sum_obs / sum_exp)` per counter-diagonal. */
  function LogRatios(sumObs: seq<real>, sumExp: seq<real>, num: Numerics): (r: seq<real>)
    requires |sumObs| == |sumExp| && forall d :: 0 <= d < |sumExp| ==> sumExp[d] > 0.0
    ensures |r| == |sumObs|
    ensures forall d :: 0 <= d < |sumObs| ==> r[d] == num.log(sumObs[d] / sumExp[d])
  {
    seq(|sumObs|, d requires 0 <= d < |sumObs| => num.log(sumObs[d] / sumExp[d]))
  }

  /** The log decay of `compute_poisson_lsq_log_decay`, once every
      counter-diagonal has a non-zero observed sum: the log ratios of
      observed to expected sums, shifted to mean 0. */
  function CentredLogDecay(bin1: seq<int>, bin2: seq<int>, observed: seq<real>, logExpected: seq<real>,
                           nbins: nat, num: Numerics): (r: seq<real>)
    requires |observed| == |bin1| && |logExpected| == |bin1| && num.Valid()
    requires FastBinless.UpperTriangle(bin1, bin2, nbins)
    requires !HasZero(FastBinless.DiagonalSums(observed, bin1, bin2, nbins))
    ensures |r| == nbins
  {
    var expected := ExpectedCounts(logExpected, num);
    ExpectedPositive(bin1, bin2, observed, expected, nbins);
    var logs := LogRatios(FastBinless.DiagonalSums(observed, bin1, bin2, nbins),
                          FastBinless.DiagonalSums(expected, bin1, bin2, nbins), num);
    Shift(logs, Mean(logs))
  }

  /** Every value defined. */
  function Defined(s: seq<real>): (r: seq<Option<real>>)
    ensures |r| == |s| && forall d :: 0 <= d < |s| ==> r[d] == Some(s[d])
  {
    seq(|s|, d requires 0 <= d < |s| => Some(s[d]))
  }

  /** `exp` of every value. */
  function ExpAll(s: seq<real>, num: Numerics): (r: seq<real>)
    ensures |r| == |s| && forall d :: 0 <= d < |s| ==> r[d] == num.exp(s[d])
  {
    seq(|s|, d requires 0 <= d < |s| => num.exp(s[d]))
  }

  /** What `compute_poisson_lsq_log_decay` returns, or `None` when it aborts
      on a counter-diagonal whose observed counts sum to 0. */
  function PoissonLsqLogDecay(bin1: seq<int>, bin2: seq<int>, observed: seq<real>, distances: seq<real>,
                              logExpected: seq<real>, nbins: nat, num: Numerics): (r: Option<DecaySummary>)
    requires |observed| == |bin1| && |distances| == |bin1| && |logExpected| == |bin1| && num.Valid()
    requires FastBinless.UpperTriangle(bin1, bin2, nbins)
  {
    if HasZero(FastBinless.DiagonalSums(observed, bin1, bin2, nbins)) then None
    else
      var logDecay := CentredLogDecay(bin1, bin2, observed, logExpected, nbins, num);
      Some(DecaySummary(MeanDistances(FastBinless.DiagonalSums(distances, bin1, bin2, nbins),
                                      DiagonalCounts(bin1, bin2, nbins)),
                        Defined(logDecay), ExpAll(logDecay, num), DiagonalCounts(bin1, bin2, nbins)))
  }

  /** `compute_poisson_lsq_log_decay`. */
  method ComputePoissonLsqLogDecay(bin1: seq<int>, bin2: seq<int>, observed: seq<real>, distances: seq<real>,
                                   logExpected: seq<real>, nbins: nat, num: Numerics) returns (r: Option<DecaySummary>)
    requires |observed| == |bin1| && |distances| == |bin1| && |logExpected| == |bin1| && num.Valid()
    requires FastBinless.UpperTriangle(bin1, bin2, nbins)
    ensures r == PoissonLsqLogDecay(bin1, bin2, observed, distances, logExpected, nbins, num)
  {
    var expected := ExpectedCounts(logExpected, num);
    var sumObs, sumExp, distanceSums, ncounts := DiagonalTotals(bin1, bin2, observed, expected, distances, nbins);
    var distance := MeanDistances(distanceSums, ncounts);
    var zero := FindZeroDiagonal(sumObs);
    if zero {
      return None;
    }
    ExpectedPositive(bin1, bin2, observed, expected, nbins);
    var logs := LogRatios(sumObs, sumExp, num);
    var logDecay := Shift(logs, Mean(logs));
    r := Some(DecaySummary(distance, Defined(logDecay), ExpAll(logDecay, num), ncounts));
  }

  /** `compute_poisson_lsq_log_decay` gives up exactly when some
      counter-diagonal has observed counts summing to 0, and otherwise
      returns the centred log decay with its exponential as weight. */
  lemma PoissonLsqLogDecayAborts(bin1: seq<int>, bin2: seq<int>, observed: seq<real>, distances: seq<real>,
                                 logExpected: seq<real>, nbins: nat, num: Numerics)
    requires |observed| == |bin1| && |distances| == |bin1| && |logExpected| == |bin1| && num.Valid()
    requires FastBinless.UpperTriangle(bin1, bin2, nbins)
    ensures var r := PoissonLsqLogDecay(bin1, bin2, observed, distances, logExpected, nbins, num);
            r.None? <==> exists d :: 0 <= d < nbins && FastBinless.DiagonalSums(observed, bin1, bin2, nbins)[d] == 0.0
    ensures var r := PoissonLsqLogDecay(bin1, bin2, observed, distances, logExpected, nbins, num);
            r.Some? ==>
              var logDecay := CentredLogDecay(bin1, bin2, observed, logExpected, nbins, num);
              r.value.kappahat == Defined(logDecay) && r.value.weight == ExpAll(logDecay, num)
              && r.value.ncounts == DiagonalCounts(bin1, bin2, nbins)
  {
  }

  /** Once no counter-diagonal has a zero observed sum, every
      counter-diagonal holds an observation and its distance is the mean of
      its observations' distances. */
  lemma PoissonLsqDistances(bin1: seq<int>, bin2: seq<int>, observed: seq<real>, distances: seq<real>,
                            nbins: nat, d: nat)
    requires |observed| == |bin1| && |distances| == |bin1| && FastBinless.UpperTriangle(bin1, bin2, nbins)
    requires !HasZero(FastBinless.DiagonalSums(observed, bin1, bin2, nbins)) && d < nbins
    ensures var counts := DiagonalCounts(bin1, bin2, nbins);
            var distance := MeanDistances(FastBinless.DiagonalSums(distances, bin1, bin2, nbins), counts);
            counts[d] > 0 && distance[d].Some?
            && distance[d].value * (counts[d] as real) == FastBinless.DiagonalSums(distances, bin1, bin2, nbins)[d]
  {
    assert FastBinless.DiagonalSums(observed, bin1, bin2, nbins)[d] != 0.0;
    PopulatedDiagonal(bin1, bin2, observed, seq(|bin1|, _ => 1.0), nbins, d);
  }

  /** The log decay sums to 0 and is, per counter-diagonal, the log ratio of
      observed to expected counts less the mean of those ratios; every
      expected sum is positive. */
  lemma CentredLogDecayMeaning(bin1: seq<int>, bin2: seq<int>, observed: seq<real>, logExpected: seq<real>,
                               nbins: nat, num: Numerics)
    requires |observed| == |bin1| && |logExpected| == |bin1| && num.Valid()
    requires FastBinless.UpperTriangle(bin1, bin2, nbins)
    requires !HasZero(FastBinless.DiagonalSums(observed, bin1, bin2, nbins))
    ensures var sumObs := FastBinless.DiagonalSums(observed, bin1, bin2, nbins);
            var sumExp := FastBinless.DiagonalSums(ExpectedCounts(logExpected, num), bin1, bin2, nbins);
            var logDecay := CentredLogDecay(bin1, bin2, observed, logExpected, nbins, num);
            (forall d :: 0 <= d < nbins ==> sumExp[d] > 0.0)
            && Sum(logDecay) == 0.0
            && forall d :: 0 <= d < nbins ==>
                 logDecay[d] + Mean(LogRatios(sumObs, sumExp, num)) == num.log(sumObs[d] / sumExp[d])
  {
    var expected := ExpectedCounts(logExpected, num);
    ExpectedPositive(bin1, bin2, observed, expected, nbins);
    var logs := LogRatios(FastBinless.DiagonalSums(observed, bin1, bin2, nbins),
                          FastBinless.DiagonalSums(expected, bin1, bin2, nbins), num);
    CentredSumZero(logs);
  }

  // ---------------------------------------------------------------------
  // get_decay_summary
  // ---------------------------------------------------------------------

  /** `kappahat / weight` on one counter-diagonal, 0 without weight. */
  function WeightAverage(sum: real, weight: real): (r: real)
    ensures weight > 0.0 ==> r * weight == sum
    ensures weight <= 0.0 ==> r == 0.0
  {
    if weight > 0.0 then sum / weight else 0.0
  }

  /** `WeightAverage` of every counter-diagonal. */
  function WeightAverages(sums: seq<real>, weights: seq<real>): (r: seq<real>)
    requires |sums| == |weights|
    ensures |r| == |sums| && forall d :: 0 <= d < |sums| ==> r[d] == WeightAverage(sums[d], weights[d])
  {
    seq(|sums|, d requires 0 <= d < |sums| => WeightAverage(sums[d], weights[d]))
  }

  /** The normalisation loop of `get_decay_summary`. */
  method AverageByWeight(sums: seq<real>, weights: seq<real>) returns (r: seq<real>)
    requires |sums| == |weights|
    ensures r == WeightAverages(sums, weights)
  {
    r := sums;
    var d := 0;
    while d < |sums|
      invariant 0 <= d <= |sums| && |r| == |sums|
      invariant forall k :: 0 <= k < d ==> r[k] == WeightAverage(sums[k], weights[k])
      invariant forall k :: d <= k < |r| ==> r[k] == sums[k]
    {
      r := r[d := if weights[d] > 0.0 then r[d] / weights[d] else 0.0];
      d := d + 1;
    }
  }

  /** `kappahat += log_decay`: the current decay curve evaluated at the log
      of each counter-diagonal's mean distance. */
  function AddCurrentDecay(averages: seq<real>, distance: seq<Option<real>>, logDecayAt: real -> real,
                           num: Numerics): (r: seq<Option<real>>)
    requires |averages| == |distance|
    ensures |r| == |averages|
    ensures forall d :: 0 <= d < |averages| ==>
              r[d] == if distance[d].None? then None else Some(averages[d] + logDecayAt(num.log(distance[d].value)))
  {
    seq(|averages|, d requires 0 <= d < |averages| =>
          if distance[d].None? then None else Some(averages[d] + logDecayAt(num.log(distance[d].value))))
  }

  /** The summary built from the per-diagonal totals: weighted residual
      sums, weights, distance sums and counts. */
  function Summary(sums: seq<real>, weight: seq<real>, distanceSums: seq<real>, ncounts: seq<nat>,
                   logDecayAt: real -> real, num: Numerics): (r: DecaySummary)
    requires |sums| == |weight| == |distanceSums| == |ncounts|
    ensures |r.distance| == |sums| && |r.kappahat| == |sums| && r.weight == weight && r.ncounts == ncounts
  {
    var distance := MeanDistances(distanceSums, ncounts);
    DecaySummary(distance, AddCurrentDecay(WeightAverages(sums, weight), distance, logDecayAt, num), weight, ncounts)
  }

  /** What `get_decay_summary` returns. */
  function DecaySummaryOf(bin1: seq<int>, bin2: seq<int>, observed: seq<real>, distances: seq<real>,
                          logExpected: seq<real>, logDecayAt: real -> real, nbins: nat, num: Numerics): (r: DecaySummary)
    requires |observed| == |bin1| && |distances| == |bin1| && |logExpected| == |bin1| && num.Valid()
    requires FastBinless.UpperTriangle(bin1, bin2, nbins)
    ensures |r.distance| == nbins && |r.kappahat| == nbins && |r.weight| == nbins && |r.ncounts| == nbins
  {
    var z := FastBinless.PoissonResiduals(observed, logExpected, num);
    Summary(FastBinless.DiagonalSums(FastBinless.WeightedResiduals(z), bin1, bin2, nbins),
            FastBinless.DiagonalSums(z.weights, bin1, bin2, nbins),
            FastBinless.DiagonalSums(distances, bin1, bin2, nbins), DiagonalCounts(bin1, bin2, nbins),
            logDecayAt, num)
  }

  /** `get_decay_summary`. */
  method GetDecaySummary(bin1: seq<int>, bin2: seq<int>, observed: seq<real>, distances: seq<real>,
                         logExpected: seq<real>, logDecayAt: real -> real, nbins: nat, num: Numerics)
    returns (r: DecaySummary)
    requires |observed| == |bin1| && |distances| == |bin1| && |logExpected| == |bin1| && num.Valid()
    requires FastBinless.UpperTriangle(bin1, bin2, nbins)
    ensures r == DecaySummaryOf(bin1, bin2, observed, distances, logExpected, logDecayAt, nbins, num)
  {
    var z := FastBinless.GetPoissonResiduals(observed, logExpected, num);
    var sums, weight, distanceSums, ncounts :=
      DiagonalTotals(bin1, bin2, FastBinless.WeightedResiduals(z), z.weights, distances, nbins);
    var distance := MeanDistances(distanceSums, ncounts);
    var averages := AverageByWeight(sums, weight);
    r := DecaySummary(distance, AddCurrentDecay(averages, distance, logDecayAt, num), weight, ncounts);
  }

  /** On every counter-diagonal of `get_decay_summary`: it has a weight
      exactly when it has observations, exactly when its distance and its
      `kappahat` are defined; and its weight is its expected count. */
  lemma DecaySummaryDefined(bin1: seq<int>, bin2: seq<int>, observed: seq<real>, distances: seq<real>,
                            logExpected: seq<real>, logDecayAt: real -> real, nbins: nat, num: Numerics, d: nat)
    requires |observed| == |bin1| && |distances| == |bin1| && |logExpected| == |bin1| && num.Valid()
    requires FastBinless.UpperTriangle(bin1, bin2, nbins) && d < nbins
    ensures var r := DecaySummaryOf(bin1, bin2, observed, distances, logExpected, logDecayAt, nbins, num);
            (r.ncounts[d] > 0 <==> r.weight[d] > 0.0)
            && (r.ncounts[d] > 0 <==> r.distance[d].Some?)
            && (r.ncounts[d] > 0 <==> r.kappahat[d].Some?)
            && r.weight[d] == FastBinless.DiagonalSums(ExpectedCounts(logExpected, num), bin1, bin2, nbins)[d]
  {
    var z := FastBinless.PoissonResiduals(observed, logExpected, num);
    assert z.weights == ExpectedCounts(logExpected, num);
    PopulatedDiagonal(bin1, bin2, observed, z.weights, nbins, d);
  }

  /** Diagonal `d` of a summary whose `kappahat` is set and whose weight is
      positive sits at the current decay at its log mean distance moved by
      `(observedSum - weight) / weight`. */
  predicate Corrected(r: DecaySummary, logDecayAt: real -> real, num: Numerics, observedSum: real, d: nat)
  {
    d < |r.kappahat| && d < |r.distance| && d < |r.weight| ==>
      r.kappahat[d].Some? && r.distance[d].Some? && r.weight[d] > 0.0 ==>
        (r.kappahat[d].value - logDecayAt(num.log(r.distance[d].value))) * r.weight[d] == observedSum - r.weight[d]
  }

  /** The `kappahat` of a counter-diagonal with observations is the current
      decay at its log mean distance moved by `(observed - expected) /
      expected`. */
  lemma DecaySummaryCorrection(bin1: seq<int>, bin2: seq<int>, observed: seq<real>, distances: seq<real>,
                               logExpected: seq<real>, logDecayAt: real -> real, nbins: nat, num: Numerics, d: nat)
    requires |observed| == |bin1| && |distances| == |bin1| && |logExpected| == |bin1| && num.Valid()
    requires FastBinless.UpperTriangle(bin1, bin2, nbins) && d < nbins
    ensures Corrected(DecaySummaryOf(bin1, bin2, observed, distances, logExpected, logDecayAt, nbins, num),
                      logDecayAt, num, FastBinless.DiagonalSums(observed, bin1, bin2, nbins)[d], d)
  {
    var z := FastBinless.PoissonResiduals(observed, logExpected, num);
    FastBinless.DiagonalResidualSums(bin1, bin2, observed, logExpected, num, nbins, d);
    SummaryCorrection(FastBinless.DiagonalSums(FastBinless.WeightedResiduals(z), bin1, bin2, nbins),
                      FastBinless.DiagonalSums(z.weights, bin1, bin2, nbins),
                      FastBinless.DiagonalSums(distances, bin1, bin2, nbins), DiagonalCounts(bin1, bin2, nbins),
                      logDecayAt, num, FastBinless.DiagonalSums(observed, bin1, bin2, nbins)[d], d);
  }

  lemma SummaryCorrection(sums: seq<real>, weight: seq<real>, distanceSums: seq<real>, ncounts: seq<nat>,
                          logDecayAt: real -> real, num: Numerics, observedSum: real, d: nat)
    requires |sums| == |weight| == |distanceSums| == |ncounts| && d < |sums|
    requires sums[d] == observedSum - weight[d]
    ensures Corrected(Summary(sums, weight, distanceSums, ncounts, logDecayAt, num), logDecayAt, num, observedSum, d)
  {
    var r := Summary(sums, weight, distanceSums, ncounts, logDecayAt, num);
    var averages := WeightAverages(sums, weight);
    if r.kappahat[d].Some? && weight[d] > 0.0 {
      var current := logDecayAt(num.log(r.distance[d].value));
      MovedBy(r.kappahat[d].value, current, averages[d], weight[d], sums[d]);
    }
  }

  lemma MovedBy(k: real, current: real, average: real, weight: real, sum: real)
    requires weight > 0.0 && k == average + current && average == WeightAverage(sum, weight)
    ensures (k - current) * weight == sum
  {
  }
}
