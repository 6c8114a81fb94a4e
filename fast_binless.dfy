/** The fast outer loop of binless normalisation
    (csnorm/src/fast_binless.cpp): IRLS residuals, the exposure, bias and
    decay updates, the relative precision, the two signal adjustments and the
    driver that sequences them.

    Bins and dataset names are 1-based as in the source; the accumulators
    are indexed by `bin - 1`, `name - 1` and `bin2 - bin1`. The expected
    counts of the current state and the signal fit (`fast_compute_signal`,
    the fused-lasso estimators) are computed by code that is not part of this
    model: they are given as function values. */
module FastBinless {
  import opened Basics

  // ---------------------------------------------------------------------
  // Residuals
  // ---------------------------------------------------------------------

  /** `ResidualsPair`: one residual and one weight per observation. */
  datatype ResidualsPair = ResidualsPair(residuals: seq<real>, weights: seq<real>)

  /** Normal residuals with log link: an observation `<= 0` is dropped with
      residual and weight 0; otherwise weight 1 and residual
      `log(observed) - log_expected`. */
  function NormalResiduals(observed: seq<real>, logExpected: seq<real>, num: Numerics): (z: ResidualsPair)
    requires |observed| == |logExpected|
    ensures |z.residuals| == |observed| && |z.weights| == |observed|
  {
    ResidualsPair(
      seq(|observed|, i requires 0 <= i < |observed| =>
        if observed[i] > 0.0 then num.log(observed[i]) - logExpected[i] else 0.0),
      seq(|observed|, i requires 0 <= i < |observed| => if observed[i] > 0.0 then 1.0 else 0.0))
  }

  /** `get_normal_residuals`. */
  method GetNormalResiduals(observed: seq<real>, logExpected: seq<real>, num: Numerics) returns (z: ResidualsPair)
    requires |observed| == |logExpected|
    ensures z == NormalResiduals(observed, logExpected, num)
  {
    var residuals: seq<real> := [];
    var weights: seq<real> := [];
    var i := 0;
    while i < |observed|
      invariant 0 <= i <= |observed| && |residuals| == i && |weights| == i
      invariant forall k :: 0 <= k < i ==> residuals[k] == NormalResiduals(observed, logExpected, num).residuals[k]
      invariant forall k :: 0 <= k < i ==> weights[k] == NormalResiduals(observed, logExpected, num).weights[k]
    {
      if observed[i] > 0.0 {
        residuals := residuals + [num.log(observed[i]) - logExpected[i]];
        weights := weights + [1.0];
      } else {
        residuals := residuals + [0.0];
        weights := weights + [0.0];
      }
      i := i + 1;
    }
    z := ResidualsPair(residuals, weights);
  }

  /** Each weight is 0 or 1, it is 0 exactly for the dropped observations,
      and a dropped observation contributes nothing to a weighted sum. */
  lemma NormalResidualsDropZeros(observed: seq<real>, logExpected: seq<real>, num: Numerics)
    requires |observed| == |logExpected|
    ensures var z := NormalResiduals(observed, logExpected, num);
            forall i :: 0 <= i < |observed| ==>
              (z.weights[i] == 0.0 || z.weights[i] == 1.0)
              && (z.weights[i] == 0.0 <==> observed[i] <= 0.0)
              && (observed[i] <= 0.0 ==> z.residuals[i] * z.weights[i] == 0.0)
  {
  }

  /** The expected count `exp(log_expected)`, positive. */
  function ExpectedCount(num: Numerics, logExpected: real): (r: real)
    requires num.Valid()
    ensures r > 0.0
  {
    num.exp(logExpected)
  }

  /** Poisson residuals with log link: weight `exp(log_expected)` and residual
      `observed / weight - 1`. */
  function PoissonResiduals(observed: seq<real>, logExpected: seq<real>, num: Numerics): (z: ResidualsPair)
    requires |observed| == |logExpected| && num.Valid()
    ensures |z.residuals| == |observed| && |z.weights| == |observed|
  {
    ResidualsPair(
      seq(|observed|, i requires 0 <= i < |observed| => observed[i] / ExpectedCount(num, logExpected[i]) - 1.0),
      seq(|observed|, i requires 0 <= i < |observed| => ExpectedCount(num, logExpected[i])))
  }

  /** `get_poisson_residuals`. */
  method GetPoissonResiduals(observed: seq<real>, logExpected: seq<real>, num: Numerics) returns (z: ResidualsPair)
    requires |observed| == |logExpected| && num.Valid()
    ensures z == PoissonResiduals(observed, logExpected, num)
  {
    var residuals: seq<real> := [];
    var weights: seq<real> := [];
    var i := 0;
    while i < |observed|
      invariant 0 <= i <= |observed| && |residuals| == i && |weights| == i
      invariant forall k :: 0 <= k < i ==> residuals[k] == PoissonResiduals(observed, logExpected, num).residuals[k]
      invariant forall k :: 0 <= k < i ==> weights[k] == PoissonResiduals(observed, logExpected, num).weights[k]
    {
      var expected := ExpectedCount(num, logExpected[i]);
      residuals := residuals + [observed[i] / expected - 1.0];
      weights := weights + [expected];
      i := i + 1;
    }
    z := ResidualsPair(residuals, weights);
  }

  /** The weights are the (positive) expected counts and a weighted residual
      is observed minus expected. */
  lemma PoissonResidualsMeaning(observed: seq<real>, logExpected: seq<real>, num: Numerics)
    requires |observed| == |logExpected| && num.Valid()
    ensures var z := PoissonResiduals(observed, logExpected, num);
            forall i :: 0 <= i < |observed| ==>
              z.weights[i] > 0.0 && z.residuals[i] * z.weights[i] == observed[i] - z.weights[i]
  {
    var z := PoissonResiduals(observed, logExpected, num);
    forall i | 0 <= i < |observed|
      ensures z.residuals[i] * z.weights[i] == observed[i] - z.weights[i]
    {
      var e := ExpectedCount(num, logExpected[i]);
      assert (observed[i] / e - 1.0) * e == observed[i] - e;
    }
  }

  // ---------------------------------------------------------------------
  // Exposures
  // ---------------------------------------------------------------------

  /** Every key lies in `1 .. n`. */
  predicate KeysIn(keys: seq<int>, n: nat)
  {
    forall i :: 0 <= i < |keys| ==> 1 <= keys[i] <= n
  }

  /** Some observation carries the key `d + 1`. */
  predicate HasKey(keys: seq<int>, d: int)
  {
    exists i :: 0 <= i < |keys| && keys[i] == d + 1
  }

  /** Every key `1 .. n` is carried by some observation. */
  predicate EveryKeyUsed(keys: seq<int>, n: nat)
  {
    forall d :: 0 <= d < n ==> HasKey(keys, d)
  }

  /** The weighted residual `residual * weight` of every observation. */
  function WeightedResiduals(z: ResidualsPair): (r: seq<real>)
    requires |z.residuals| == |z.weights|
    ensures |r| == |z.residuals|
  {
    Times(z.residuals, z.weights)
  }

  /** Per dataset `d` (0-based), the sum of `values` over its observations:
      the accumulator `acc[name - 1] += value`. */
  function DatasetSums(values: seq<real>, name: seq<int>, ndatasets: nat): (r: seq<real>)
    requires |values| == |name|
    ensures |r| == ndatasets
    ensures forall d :: 0 <= d < ndatasets ==> r[d] == SumWhere(values, name, name, d + 1, |name|)
  {
    seq(ndatasets, d requires 0 <= d < ndatasets => SumWhere(values, name, name, d + 1, |name|))
  }

  /** Every entry positive. */
  predicate AllPositive(s: seq<real>)
  {
    forall i :: 0 <= i < |s| ==> s[i] > 0.0
  }

  /** Per dataset, the weight-averaged residual added to the current
      exposure. */
  function ExposureUpdates(sums: seq<real>, weightsums: seq<real>, exposuresOri: seq<real>): (r: seq<real>)
    requires |sums| == |weightsums| == |exposuresOri| && AllPositive(weightsums)
    ensures |r| == |sums|
  {
    seq(|sums|, d requires 0 <= d < |sums| => sums[d] / weightsums[d] + exposuresOri[d])
  }

  /** The first loop of `fast_compute_exposures`: per dataset, the sum of
      the weighted residuals and the sum of the weights. */
  method AccumulateByName(name: seq<int>, products: seq<real>, weights: seq<real>, ndatasets: nat)
    returns (sums: seq<real>, weightsums: seq<real>)
    requires |products| == |name| && |weights| == |name| && KeysIn(name, ndatasets)
    ensures sums == DatasetSums(products, name, ndatasets)
    ensures weightsums == DatasetSums(weights, name, ndatasets)
  {
    sums := seq(ndatasets, _ => 0.0);
    weightsums := seq(ndatasets, _ => 0.0);
    var i := 0;
    while i < |name|
      invariant 0 <= i <= |name| && |sums| == ndatasets && |weightsums| == ndatasets
      invariant forall d :: 0 <= d < ndatasets ==>
                  sums[d] == SumWhere(products, name, name, d + 1, i)
                  && weightsums[d] == SumWhere(weights, name, name, d + 1, i)
    {
      var nm := name[i] - 1;
      sums := sums[nm := sums[nm] + products[i]];
      weightsums := weightsums[nm := weightsums[nm] + weights[i]];
      i := i + 1;
    }
  }

  /** With positive weights, every dataset that has an observation has a
      positive weight sum. */
  lemma DatasetWeightsPositive(weights: seq<real>, name: seq<int>, ndatasets: nat)
    requires |weights| == |name| && AllPositive(weights) && EveryKeyUsed(name, ndatasets)
    ensures AllPositive(DatasetSums(weights, name, ndatasets))
  {
    var r := DatasetSums(weights, name, ndatasets);
    forall d | 0 <= d < ndatasets
      ensures r[d] > 0.0
    {
      assert HasKey(name, d);
      var j :| 0 <= j < |name| && name[j] == d + 1;
      assert Matches(name, name, d + 1, j);
      SumWherePositive(weights, name, name, d + 1, |name|, j);
    }
  }

  /** The exposures `fast_compute_exposures` computes: per dataset, the
      weight-averaged Poisson residual added to the current exposure. Every
      dataset must have an observation, or the source divides 0 by 0. */
  function NewExposures(name: seq<int>, observed: seq<real>, logExpected: seq<real>,
                        exposuresOri: seq<real>, num: Numerics): (r: seq<real>)
    requires |name| == |observed| == |logExpected| && num.Valid()
    requires KeysIn(name, |exposuresOri|) && EveryKeyUsed(name, |exposuresOri|)
    ensures |r| == |exposuresOri|
  {
    var z := PoissonResiduals(observed, logExpected, num);
    PoissonResidualsMeaning(observed, logExpected, num);
    DatasetWeightsPositive(z.weights, name, |exposuresOri|);
    ExposureUpdates(DatasetSums(WeightedResiduals(z), name, |exposuresOri|),
                    DatasetSums(z.weights, name, |exposuresOri|), exposuresOri)
  }

  /** `fast_compute_exposures`. */
  method FastComputeExposures(name: seq<int>, observed: seq<real>, logExpected: seq<real>,
                              exposuresOri: seq<real>, num: Numerics) returns (exposures: seq<real>)
    requires |name| == |observed| == |logExpected| && num.Valid()
    requires KeysIn(name, |exposuresOri|) && EveryKeyUsed(name, |exposuresOri|)
    ensures exposures == NewExposures(name, observed, logExpected, exposuresOri, num)
  {
    var ndatasets := |exposuresOri|;
    var z := GetPoissonResiduals(observed, logExpected, num);
    PoissonResidualsMeaning(observed, logExpected, num);
    var sums, weightsums := AccumulateByName(name, WeightedResiduals(z), z.weights, ndatasets);
    DatasetWeightsPositive(z.weights, name, ndatasets);
    exposures := sums;
    var i := 0;
    while i < ndatasets
      invariant 0 <= i <= ndatasets && |exposures| == ndatasets
      invariant forall d :: 0 <= d < i ==> exposures[d] == sums[d] / weightsums[d] + exposuresOri[d]
      invariant forall d :: i <= d < ndatasets ==> exposures[d] == sums[d]
    {
      exposures := exposures[i := exposures[i] / weightsums[i] + exposuresOri[i]];
      i := i + 1;
    }
  }

  /** The summed weighted residuals of a key are its observed minus its
      expected counts. */
  lemma {:induction false} WeightedResidualSums<K>(keysA: seq<K>, keysB: seq<K>, observed: seq<real>,
                                                   logExpected: seq<real>, num: Numerics, k: K, n: nat)
    requires |keysA| == |keysB| == |observed| == |logExpected| && num.Valid() && n <= |observed|
    ensures var z := PoissonResiduals(observed, logExpected, num);
            SumWhere(WeightedResiduals(z), keysA, keysB, k, n)
            == SumWhere(observed, keysA, keysB, k, n) - SumWhere(z.weights, keysA, keysB, k, n)
  {
    if n > 0 {
      WeightedResidualSums(keysA, keysB, observed, logExpected, num, k, n - 1);
      PoissonResidualsMeaning(observed, logExpected, num);
    }
  }

  /** Every dataset's expected count is positive, and its new exposure is
      the old one plus the correction `observed / expected - 1` over the
      dataset's observations. */
  lemma ExposureUpdateMeaning(name: seq<int>, observed: seq<real>, logExpected: seq<real>,
                              exposuresOri: seq<real>, num: Numerics, d: nat)
    requires |name| == |observed| == |logExpected| && num.Valid() && d < |exposuresOri|
    requires KeysIn(name, |exposuresOri|) && EveryKeyUsed(name, |exposuresOri|)
    ensures var z := PoissonResiduals(observed, logExpected, num);
            var expected := DatasetSums(z.weights, name, |exposuresOri|)[d];
            expected > 0.0
            && NewExposures(name, observed, logExpected, exposuresOri, num)[d]
               == DatasetSums(observed, name, |exposuresOri|)[d] / expected - 1.0 + exposuresOri[d]
  {
    var z := PoissonResiduals(observed, logExpected, num);
    PoissonResidualsMeaning(observed, logExpected, num);
    DatasetWeightsPositive(z.weights, name, |exposuresOri|);
    WeightedResidualSums(name, name, observed, logExpected, num, d + 1, |name|);
    var expected := SumWhere(z.weights, name, name, d + 1, |name|);
    var obs := SumWhere(observed, name, name, d + 1, |name|);
    assert expected == DatasetSums(z.weights, name, |exposuresOri|)[d];
    DivMinusOne(obs, expected);
  }

  /** `(a - e) / e == a / e - 1` for positive `e`. */
  lemma DivMinusOne(a: real, e: real)
    requires e > 0.0
    ensures (a - e) / e == a / e - 1.0
  {
    var q := (a - e) / e;
    var p := a / e;
    assert q * e == a - e;
    assert p * e == a;
    assert (q - (p - 1.0)) * e == 0.0;
    ProductZero(q - (p - 1.0), e);
  }

  /** A product with a positive factor is 0 only when the other factor is. */
  lemma ProductZero(x: real, e: real)
    requires e > 0.0 && x * e == 0.0
    ensures x == 0.0
  {
    if x != 0.0 {
      assert false;
    }
  }

  // ---------------------------------------------------------------------
  // Biases and decay
  // ---------------------------------------------------------------------

  /** One bin's weighted average residual (0 when the bin has no weight)
      added to its current value. */
  function BinAverage(sum: real, weightsum: real, ori: real): (r: real)
    ensures weightsum <= 0.0 ==> r == ori
    ensures weightsum > 0.0 ==> (r - ori) * weightsum == sum
  {
    (if weightsum > 0.0 then sum / weightsum else 0.0) + ori
  }

  /** `BinAverage` of every bin. */
  function Averaged(sums: seq<real>, weightsums: seq<real>, ori: seq<real>): (r: seq<real>)
    requires |sums| == |weightsums| == |ori|
    ensures |r| == |sums|
    ensures forall k :: 0 <= k < |sums| ==> r[k] == BinAverage(sums[k], weightsums[k], ori[k])
  {
    seq(|sums|, k requires 0 <= k < |sums| => BinAverage(sums[k], weightsums[k], ori[k]))
  }

  /** `x` minus its weighted mean under the weights `w`. */
  function Centred(x: seq<real>, w: seq<real>): (r: seq<real>)
    requires |x| == |w| && Sum(w) != 0.0
    ensures |r| == |x|
  {
    Shift(x, Dot(x, w) / Sum(w))
  }

  /** The re-centred vector has zero weighted mean. */
  lemma CentredHasZeroWeightedMean(x: seq<real>, w: seq<real>)
    requires |x| == |w| && Sum(w) != 0.0
    ensures Dot(Centred(x, w), w) == 0.0
  {
    var avg := Dot(x, w) / Sum(w);
    DotShift(x, w, avg);
    assert avg * Sum(w) == Dot(x, w);
  }

  /** The second and third loops of `fast_compute_log_biases` and
      `fast_compute_log_decay`: average per bin, add the current values, then
      subtract the weighted mean. */
  method Recentre(sums: seq<real>, weightsums: seq<real>, ori: seq<real>) returns (r: seq<real>)
    requires |sums| == |weightsums| == |ori|
    requires Sum(weightsums) > 0.0
    ensures r == Centred(Averaged(sums, weightsums, ori), weightsums)
  {
    var values, avg, wsum := AddCurrent(sums, weightsums, ori);
    avg := avg / wsum;
    r := SubtractAll(values, avg);
  }

  /** The second loop: every bin's `BinAverage`, with the weighted sum of the
      results and the sum of the weights. */
  method AddCurrent(sums: seq<real>, weightsums: seq<real>, ori: seq<real>)
    returns (values: seq<real>, avg: real, wsum: real)
    requires |sums| == |weightsums| == |ori|
    ensures values == Averaged(sums, weightsums, ori)
    ensures avg == Dot(values, weightsums) && wsum == Sum(weightsums)
  {
    var n := |sums|;
    ghost var raw := Averaged(sums, weightsums, ori);
    values := sums;
    avg := 0.0;
    wsum := 0.0;
    var i := 0;
    while i < n
      invariant 0 <= i <= n && |values| == n
      invariant forall k :: 0 <= k < i ==> values[k] == raw[k]
      invariant forall k :: i <= k < n ==> values[k] == sums[k]
      invariant avg == Dot(raw[..i], weightsums[..i]) && wsum == Sum(weightsums[..i])
    {
      var v := BinAverage(values[i], weightsums[i], ori[i]);
      values := values[i := v];
      assert raw[..i + 1][..i] == raw[..i] && weightsums[..i + 1][..i] == weightsums[..i];
      avg := avg + v * weightsums[i];
      wsum := wsum + weightsums[i];
      i := i + 1;
    }
    assert raw[..n] == raw && weightsums[..n] == weightsums;
  }

  /** The third loop: every entry minus `avg`. */
  method SubtractAll(values: seq<real>, avg: real) returns (r: seq<real>)
    ensures r == Shift(values, avg)
  {
    r := values;
    var i := 0;
    while i < |r|
      invariant 0 <= i <= |r| && |r| == |values|
      invariant forall k :: 0 <= k < i ==> r[k] == values[k] - avg
      invariant forall k :: i <= k < |r| ==> r[k] == values[k]
    {
      r := r[i := r[i] - avg];
      i := i + 1;
    }
  }

  /** Observations of the upper triangle: `1 <= bin1 <= bin2 <= nbins`. */
  predicate UpperTriangle(bin1: seq<int>, bin2: seq<int>, nbins: nat)
  {
    |bin1| == |bin2| && forall i :: 0 <= i < |bin1| ==> 1 <= bin1[i] <= bin2[i] <= nbins
  }

  /** Per bin `b` (0-based), the sum of `values` over the observations with
      either bin equal to `b + 1`, each observation counted once. */
  function BinSums(values: seq<real>, bin1: seq<int>, bin2: seq<int>, nbins: nat): (r: seq<real>)
    requires |values| == |bin1| == |bin2|
    ensures |r| == nbins
    ensures forall b :: 0 <= b < nbins ==> r[b] == SumWhere(values, bin1, bin2, b + 1, |values|)
  {
    seq(nbins, b requires 0 <= b < nbins => SumWhere(values, bin1, bin2, b + 1, |values|))
  }

  /** The counter-diagonal `bin2 - bin1` of every observation. */
  function Diagonals(bin1: seq<int>, bin2: seq<int>): (r: seq<int>)
    requires |bin1| == |bin2|
    ensures |r| == |bin1| && forall i :: 0 <= i < |bin1| ==> r[i] == bin2[i] - bin1[i]
  {
    seq(|bin1|, i requires 0 <= i < |bin1| => bin2[i] - bin1[i])
  }

  /** Per counter-diagonal `d`, the sum of `values` over its observations. */
  function DiagonalSums(values: seq<real>, bin1: seq<int>, bin2: seq<int>, nbins: nat): (r: seq<real>)
    requires |values| == |bin1| == |bin2|
    ensures |r| == nbins
    ensures forall d :: 0 <= d < nbins ==>
              r[d] == SumWhere(values, Diagonals(bin1, bin2), Diagonals(bin1, bin2), d, |values|)
  {
    var diag := Diagonals(bin1, bin2);
    seq(nbins, d requires 0 <= d < nbins => SumWhere(values, diag, diag, d, |values|))
  }

  /** The first loop of `fast_compute_log_biases`. */
  method AccumulateByBin(bin1: seq<int>, bin2: seq<int>, products: seq<real>, weights: seq<real>, nbins: nat)
    returns (sums: seq<real>, weightsums: seq<real>)
    requires |products| == |bin1| && |weights| == |bin1| && UpperTriangle(bin1, bin2, nbins)
    ensures sums == BinSums(products, bin1, bin2, nbins)
    ensures weightsums == BinSums(weights, bin1, bin2, nbins)
  {
    sums := seq(nbins, _ => 0.0);
    weightsums := seq(nbins, _ => 0.0);
    var i := 0;
    while i < |bin1|
      invariant 0 <= i <= |bin1| && |sums| == nbins && |weightsums| == nbins
      invariant forall b :: 0 <= b < nbins ==>
                  sums[b] == SumWhere(products, bin1, bin2, b + 1, i)
                  && weightsums[b] == SumWhere(weights, bin1, bin2, b + 1, i)
    {
      var b1 := bin1[i] - 1;
      var b2 := bin2[i] - 1;
      var w := weights[i];
      var b := products[i];
      sums := sums[b1 := sums[b1] + b];
      weightsums := weightsums[b1 := weightsums[b1] + w];
      if b1 != b2 {
        sums := sums[b2 := sums[b2] + b];
        weightsums := weightsums[b2 := weightsums[b2] + w];
      }
      i := i + 1;
    }
  }

  /** The first loop of `fast_compute_log_decay`. */
  method AccumulateByDiagonal(bin1: seq<int>, bin2: seq<int>, products: seq<real>, weights: seq<real>, nbins: nat)
    returns (sums: seq<real>, weightsums: seq<real>)
    requires |products| == |bin1| && |weights| == |bin1| && UpperTriangle(bin1, bin2, nbins)
    ensures sums == DiagonalSums(products, bin1, bin2, nbins)
    ensures weightsums == DiagonalSums(weights, bin1, bin2, nbins)
  {
    ghost var diag := Diagonals(bin1, bin2);
    sums := seq(nbins, _ => 0.0);
    weightsums := seq(nbins, _ => 0.0);
    var i := 0;
    while i < |bin1|
      invariant 0 <= i <= |bin1| && |sums| == nbins && |weightsums| == nbins
      invariant forall d :: 0 <= d < nbins ==>
                  sums[d] == SumWhere(products, diag, diag, d, i)
                  && weightsums[d] == SumWhere(weights, diag, diag, d, i)
    {
      var d := bin2[i] - bin1[i];
      sums := sums[d := sums[d] + products[i]];
      weightsums := weightsums[d := weightsums[d] + weights[i]];
      i := i + 1;
    }
  }

  /** With positive weights and at least one observation, the per-bin weight
      sums add up to a positive total. */
  lemma BinWeightsPositive(weights: seq<real>, bin1: seq<int>, bin2: seq<int>, nbins: nat)
    requires |weights| == |bin1| > 0 && AllPositive(weights) && UpperTriangle(bin1, bin2, nbins)
    ensures Sum(BinSums(weights, bin1, bin2, nbins)) > 0.0
  {
    var r := BinSums(weights, bin1, bin2, nbins);
    forall b | 0 <= b < nbins
      ensures r[b] >= 0.0
    {
      SumWhereNonNegative(weights, bin1, bin2, b + 1, |weights|);
    }
    assert Matches(bin1, bin2, bin1[0], 0);
    SumWherePositive(weights, bin1, bin2, bin1[0], |weights|, 0);
    SumPositive(r, bin1[0] - 1);
  }

  /** The same for the per-counter-diagonal weight sums. */
  lemma DiagonalWeightsPositive(weights: seq<real>, bin1: seq<int>, bin2: seq<int>, nbins: nat)
    requires |weights| == |bin1| > 0 && AllPositive(weights) && UpperTriangle(bin1, bin2, nbins)
    ensures Sum(DiagonalSums(weights, bin1, bin2, nbins)) > 0.0
  {
    var r := DiagonalSums(weights, bin1, bin2, nbins);
    var diag := Diagonals(bin1, bin2);
    forall d | 0 <= d < nbins
      ensures r[d] >= 0.0
    {
      SumWhereNonNegative(weights, diag, diag, d, |weights|);
    }
    assert Matches(diag, diag, diag[0], 0);
    SumWherePositive(weights, diag, diag, diag[0], |weights|, 0);
    SumPositive(r, diag[0]);
  }

  /** The log biases `fast_compute_log_biases` computes: each observation's
      weighted residual goes to its two bins, once when they coincide; every
      bin's weighted average is added to its current bias; the result is
      re-centred to zero weighted mean. */
  function NewLogBiases(bin1: seq<int>, bin2: seq<int>, observed: seq<real>, logExpected: seq<real>,
                        oriLogBiases: seq<real>, num: Numerics): (r: seq<real>)
    requires |observed| == |logExpected| == |bin1| > 0 && num.Valid()
    requires UpperTriangle(bin1, bin2, |oriLogBiases|)
    ensures |r| == |oriLogBiases|
  {
    var z := PoissonResiduals(observed, logExpected, num);
    var n := |oriLogBiases|;
    PoissonResidualsMeaning(observed, logExpected, num);
    BinWeightsPositive(z.weights, bin1, bin2, n);
    var weightsums := BinSums(z.weights, bin1, bin2, n);
    Centred(Averaged(BinSums(WeightedResiduals(z), bin1, bin2, n), weightsums, oriLogBiases), weightsums)
  }

  /** `fast_compute_log_biases`. */
  method FastComputeLogBiases(bin1: seq<int>, bin2: seq<int>, observed: seq<real>, logExpected: seq<real>,
                              oriLogBiases: seq<real>, num: Numerics) returns (logBiases: seq<real>)
    requires |observed| == |logExpected| == |bin1| > 0 && num.Valid()
    requires UpperTriangle(bin1, bin2, |oriLogBiases|)
    ensures logBiases == NewLogBiases(bin1, bin2, observed, logExpected, oriLogBiases, num)
  {
    var z := GetPoissonResiduals(observed, logExpected, num);
    PoissonResidualsMeaning(observed, logExpected, num);
    var sums, weightsums := AccumulateByBin(bin1, bin2, WeightedResiduals(z), z.weights, |oriLogBiases|);
    BinWeightsPositive(z.weights, bin1, bin2, |oriLogBiases|);
    logBiases := Recentre(sums, weightsums, oriLogBiases);
  }

  /** The new log biases have zero mean weighted by the expected counts per
      bin. */
  lemma NewLogBiasesCentred(bin1: seq<int>, bin2: seq<int>, observed: seq<real>, logExpected: seq<real>,
                            oriLogBiases: seq<real>, num: Numerics)
    requires |observed| == |logExpected| == |bin1| > 0 && num.Valid()
    requires UpperTriangle(bin1, bin2, |oriLogBiases|)
    ensures var z := PoissonResiduals(observed, logExpected, num);
            Dot(NewLogBiases(bin1, bin2, observed, logExpected, oriLogBiases, num),
                BinSums(z.weights, bin1, bin2, |oriLogBiases|)) == 0.0
  {
    var z := PoissonResiduals(observed, logExpected, num);
    var n := |oriLogBiases|;
    PoissonResidualsMeaning(observed, logExpected, num);
    BinWeightsPositive(z.weights, bin1, bin2, n);
    var weightsums := BinSums(z.weights, bin1, bin2, n);
    CentredHasZeroWeightedMean(Averaged(BinSums(WeightedResiduals(z), bin1, bin2, n), weightsums, oriLogBiases), weightsums);
  }

  /** Before re-centring, a bin with expected count `e > 0` and observed count
      `o` moves by `(o - e) / e`; a bin with none keeps its bias. */
  lemma BinCorrection(bin1: seq<int>, bin2: seq<int>, observed: seq<real>, logExpected: seq<real>,
                      oriLogBiases: seq<real>, num: Numerics, b: nat)
    requires |observed| == |logExpected| == |bin1| == |bin2| && num.Valid() && b < |oriLogBiases|
    ensures var z := PoissonResiduals(observed, logExpected, num);
            var n := |oriLogBiases|;
            var expected := BinSums(z.weights, bin1, bin2, n)[b];
            var moved := Averaged(BinSums(WeightedResiduals(z), bin1, bin2, n), BinSums(z.weights, bin1, bin2, n), oriLogBiases)[b];
            (expected > 0.0 ==> (moved - oriLogBiases[b]) * expected == BinSums(observed, bin1, bin2, n)[b] - expected)
            && (expected <= 0.0 ==> moved == oriLogBiases[b])
  {
    WeightedResidualSums(bin1, bin2, observed, logExpected, num, b + 1, |observed|);
  }

  /** The log decay `fast_compute_log_decay` computes: the same as the biases
      with every observation going to its counter-diagonal `bin2 - bin1`. */
  function NewLogDecay(bin1: seq<int>, bin2: seq<int>, observed: seq<real>, logExpected: seq<real>,
                       oriLogDecay: seq<real>, num: Numerics): (r: seq<real>)
    requires |observed| == |logExpected| == |bin1| > 0 && num.Valid()
    requires UpperTriangle(bin1, bin2, |oriLogDecay|)
    ensures |r| == |oriLogDecay|
  {
    var z := PoissonResiduals(observed, logExpected, num);
    var n := |oriLogDecay|;
    PoissonResidualsMeaning(observed, logExpected, num);
    DiagonalWeightsPositive(z.weights, bin1, bin2, n);
    var weightsums := DiagonalSums(z.weights, bin1, bin2, n);
    Centred(Averaged(DiagonalSums(WeightedResiduals(z), bin1, bin2, n), weightsums, oriLogDecay), weightsums)
  }

  /** `fast_compute_log_decay`. */
  method FastComputeLogDecay(bin1: seq<int>, bin2: seq<int>, observed: seq<real>, logExpected: seq<real>,
                             oriLogDecay: seq<real>, num: Numerics) returns (logDecay: seq<real>)
    requires |observed| == |logExpected| == |bin1| > 0 && num.Valid()
    requires UpperTriangle(bin1, bin2, |oriLogDecay|)
    ensures logDecay == NewLogDecay(bin1, bin2, observed, logExpected, oriLogDecay, num)
  {
    var z := GetPoissonResiduals(observed, logExpected, num);
    PoissonResidualsMeaning(observed, logExpected, num);
    var sums, weightsums := AccumulateByDiagonal(bin1, bin2, WeightedResiduals(z), z.weights, |oriLogDecay|);
    DiagonalWeightsPositive(z.weights, bin1, bin2, |oriLogDecay|);
    logDecay := Recentre(sums, weightsums, oriLogDecay);
  }

  /** The new log decay has zero mean weighted by the expected counts per
      counter-diagonal. */
  lemma NewLogDecayCentred(bin1: seq<int>, bin2: seq<int>, observed: seq<real>, logExpected: seq<real>,
                           oriLogDecay: seq<real>, num: Numerics)
    requires |observed| == |logExpected| == |bin1| > 0 && num.Valid()
    requires UpperTriangle(bin1, bin2, |oriLogDecay|)
    ensures var z := PoissonResiduals(observed, logExpected, num);
            Dot(NewLogDecay(bin1, bin2, observed, logExpected, oriLogDecay, num),
                DiagonalSums(z.weights, bin1, bin2, |oriLogDecay|)) == 0.0
  {
    var z := PoissonResiduals(observed, logExpected, num);
    var n := |oriLogDecay|;
    PoissonResidualsMeaning(observed, logExpected, num);
    DiagonalWeightsPositive(z.weights, bin1, bin2, n);
    var weightsums := DiagonalSums(z.weights, bin1, bin2, n);
    CentredHasZeroWeightedMean(Averaged(DiagonalSums(WeightedResiduals(z), bin1, bin2, n), weightsums, oriLogDecay), weightsums);
  }

  /** Per counter-diagonal, the summed weighted residuals are the observed
      minus the expected counts. */
  lemma DiagonalResidualSums(bin1: seq<int>, bin2: seq<int>, observed: seq<real>, logExpected: seq<real>,
                             num: Numerics, nbins: nat, d: nat)
    requires |observed| == |logExpected| == |bin1| == |bin2| && num.Valid() && d < nbins
    ensures var z := PoissonResiduals(observed, logExpected, num);
            DiagonalSums(WeightedResiduals(z), bin1, bin2, nbins)[d]
            == DiagonalSums(observed, bin1, bin2, nbins)[d] - DiagonalSums(z.weights, bin1, bin2, nbins)[d]
  {
    var diag := Diagonals(bin1, bin2);
    WeightedResidualSums(diag, diag, observed, logExpected, num, d, |observed|);
  }

  /** Before re-centring, a counter-diagonal with expected count `e > 0` and
      observed count `o` moves by `(o - e) / e`; one with none keeps its
      value. */
  lemma DiagonalCorrection(bin1: seq<int>, bin2: seq<int>, observed: seq<real>, logExpected: seq<real>,
                           oriLogDecay: seq<real>, num: Numerics, d: nat)
    requires |observed| == |logExpected| == |bin1| == |bin2| && num.Valid() && d < |oriLogDecay|
    ensures var z := PoissonResiduals(observed, logExpected, num);
            var n := |oriLogDecay|;
            var expected := DiagonalSums(z.weights, bin1, bin2, n)[d];
            var moved := Averaged(DiagonalSums(WeightedResiduals(z), bin1, bin2, n), DiagonalSums(z.weights, bin1, bin2, n), oriLogDecay)[d];
            (expected > 0.0 ==> (moved - oriLogDecay[d]) * expected == DiagonalSums(observed, bin1, bin2, n)[d] - expected)
            && (expected <= 0.0 ==> moved == oriLogDecay[d])
  {
    var z := PoissonResiduals(observed, logExpected, num);
    var n := |oriLogDecay|;
    DiagonalResidualSums(bin1, bin2, observed, logExpected, num, n, d);
    var sums := DiagonalSums(WeightedResiduals(z), bin1, bin2, n);
    var weightsums := DiagonalSums(z.weights, bin1, bin2, n);
    var moved := Averaged(sums, weightsums, oriLogDecay)[d];
    assert moved == BinAverage(sums[d], weightsums[d], oriLogDecay[d]);
    if weightsums[d] > 0.0 {
      assert (moved - oriLogDecay[d]) * weightsums[d] == sums[d];
    }
  }

  // ---------------------------------------------------------------------
  // Relative precision
  // ---------------------------------------------------------------------

  /** Entry-wise difference. */
  function Minus(a: seq<real>, b: seq<real>): (r: seq<real>)
    requires |a| == |b|
    ensures |r| == |a| && forall i :: 0 <= i < |a| ==> r[i] == a[i] - b[i]
  {
    seq(|a|, i requires 0 <= i < |a| => a[i] - b[i])
  }

  /** `max |w - wold| / (max w - min w)`; `None` when the range is 0, where the
      source's quotient is infinite or not a number and compares false with
      every tolerance. */
  function Precision(weights: seq<real>, weightsOld: seq<real>): Option<real>
    requires |weights| == |weightsOld| > 0
  {
    var range := SeqMax(weights) - SeqMin(weights);
    if range > 0.0 then Some(MaxAbs(Minus(weights, weightsOld)) / range) else None
  }

  /** The sign of a quotient by a positive number is the sign of the
      numerator. */
  lemma QuotientSign(a: real, b: real)
    requires b > 0.0
    ensures a > 0.0 ==> a / b > 0.0
    ensures a == 0.0 ==> a / b == 0.0
    ensures a >= 0.0 ==> a / b >= 0.0
  {
    var q := a / b;
    assert q * b == a;
    if q < 0.0 {
      assert q * b < 0.0;
    }
    if q > 0.0 {
      assert q * b > 0.0;
    }
  }

  /** The largest move is 0 exactly when no weight moved. */
  lemma LargestMoveZero(weights: seq<real>, weightsOld: seq<real>)
    requires |weights| == |weightsOld| > 0
    ensures MaxAbs(Minus(weights, weightsOld)) >= 0.0
    ensures MaxAbs(Minus(weights, weightsOld)) == 0.0 <==> weights == weightsOld
  {
    var diff := Minus(weights, weightsOld);
    var delta := MaxAbs(diff);
    MaxAbsBounds(diff);
    assert Abs(diff[0]) >= 0.0;
    if weights == weightsOld {
      var j :| 0 <= j < |diff| && delta == Abs(diff[j]);
    } else {
      var k :| 0 <= k < |weights| && weights[k] != weightsOld[k];
      assert Abs(diff[k]) > 0.0;
    }
  }

  /** The precision is non-negative, and 0 exactly when no weight moved. */
  lemma PrecisionMeaning(weights: seq<real>, weightsOld: seq<real>)
    requires |weights| == |weightsOld| > 0
    ensures var p := Precision(weights, weightsOld);
            p.Some? ==> p.value >= 0.0 && (p.value == 0.0 <==> weights == weightsOld)
  {
    var p := Precision(weights, weightsOld);
    if p.Some? {
      LargestMoveZero(weights, weightsOld);
      QuotientSign(MaxAbs(Minus(weights, weightsOld)), SeqMax(weights) - SeqMin(weights));
    }
  }

  /** The loop of `fast_precision`: the largest move and the smallest and
      largest new weight. */
  method MoveAndRange(weights: seq<real>, weightsOld: seq<real>) returns (delta: real, minval: real, maxval: real)
    requires |weights| == |weightsOld| > 0
    ensures delta == MaxAbs(Minus(weights, weightsOld))
    ensures minval == SeqMin(weights) && maxval == SeqMax(weights)
  {
    ghost var diff := Minus(weights, weightsOld);
    delta := Abs(weights[0] - weightsOld[0]);
    maxval := weights[0];
    minval := weights[0];
    var i := 1;
    assert diff[..1] == [diff[0]] && weights[..1] == [weights[0]];
    while i < |weights|
      invariant 1 <= i <= |weights|
      invariant delta == MaxAbs(diff[..i])
      invariant minval == SeqMin(weights[..i]) && maxval == SeqMax(weights[..i])
    {
      ExtremesSnoc(diff, i);
      ExtremesSnoc(weights, i);
      delta := Max(Abs(weights[i] - weightsOld[i]), delta);
      minval := Min(weights[i], minval);
      maxval := Max(weights[i], maxval);
      i := i + 1;
    }
    assert diff[..i] == diff && weights[..i] == weights;
  }

  /** `fast_precision`. */
  method FastPrecision(weights: seq<real>, weightsOld: seq<real>) returns (p: Option<real>)
    requires |weights| == |weightsOld| > 0
    ensures p == Precision(weights, weightsOld)
  {
    var delta, minval, maxval := MoveAndRange(weights, weightsOld);
    if maxval - minval > 0.0 {
      p := Some(delta / (maxval - minval));
    } else {
      p := None;
    }
  }

  /** `precision < tol_val`. */
  predicate Converged(precision: Option<real>, tolVal: real)
  {
    precision.Some? && precision.value < tolVal
  }

  // ---------------------------------------------------------------------
  // Signal adjustments
  // ---------------------------------------------------------------------

  /** The `(bin - 1, name - 1)` table key of every observation. */
  function RowKeys(bin: seq<int>, name: seq<int>): (r: seq<(int, int)>)
    requires |bin| == |name|
    ensures |r| == |bin| && forall i :: 0 <= i < |bin| ==> r[i] == (bin[i] - 1, name[i] - 1)
  {
    seq(|bin|, i requires 0 <= i < |bin| => (bin[i] - 1, name[i] - 1))
  }

  /** The `(bin2 - bin1, name - 1)` table key of every observation. */
  function DiagKeys(bin1: seq<int>, bin2: seq<int>, name: seq<int>): (r: seq<(int, int)>)
    requires |bin1| == |bin2| == |name|
    ensures |r| == |bin1| && forall i :: 0 <= i < |bin1| ==> r[i] == (bin2[i] - bin1[i], name[i] - 1)
  {
    seq(|bin1|, i requires 0 <= i < |bin1| => (bin2[i] - bin1[i], name[i] - 1))
  }

  /** The minimum signal of row `b` (0-based) of dataset `nm` (0-based),
      started at the largest signal: a row gathers the observations with
      either bin equal to `b + 1`. */
  function RowMin(bin1: seq<int>, bin2: seq<int>, name: seq<int>, logSignal: seq<real>, b: int, nm: int): real
    requires |bin1| == |bin2| == |name| == |logSignal| > 0
  {
    MinWhere(logSignal, RowKeys(bin1, name), RowKeys(bin2, name), (b, nm), |logSignal|, SeqMax(logSignal))
  }

  /** The minimum signal of counter-diagonal `d` of dataset `nm`. */
  function DiagMin(bin1: seq<int>, bin2: seq<int>, name: seq<int>, logSignal: seq<real>, d: int, nm: int): real
    requires |bin1| == |bin2| == |name| == |logSignal| > 0
  {
    var keys := DiagKeys(bin1, bin2, name);
    MinWhere(logSignal, keys, keys, (d, nm), |logSignal|, SeqMax(logSignal))
  }

  /** The adjustment of observation `i`: the largest of the minima of its two
      rows and of its counter-diagonal, within its dataset. */
  function Adjustment(bin1: seq<int>, bin2: seq<int>, name: seq<int>, logSignal: seq<real>, i: nat): real
    requires |bin1| == |bin2| == |name| == |logSignal| > 0 && i < |logSignal|
  {
    var nm := name[i] - 1;
    Max(Max(RowMin(bin1, bin2, name, logSignal, bin1[i] - 1, nm), RowMin(bin1, bin2, name, logSignal, bin2[i] - 1, nm)),
        DiagMin(bin1, bin2, name, logSignal, bin2[i] - bin1[i], nm))
  }

  /** Observation `i` is in row `b` of dataset `nm` exactly when it belongs
      to that dataset and one of its bins is `b + 1`. */
  lemma RowMatch(bin1: seq<int>, bin2: seq<int>, name: seq<int>, i: nat, b: int, nm: int)
    requires |bin1| == |bin2| == |name| && i < |name|
    ensures Matches(RowKeys(bin1, name), RowKeys(bin2, name), (b, nm), i)
            <==> nm == name[i] - 1 && (b == bin1[i] - 1 || b == bin2[i] - 1)
  {
  }

  /** Observation `i` is on counter-diagonal `d` of dataset `nm` exactly
      when it belongs to that dataset and `bin2 - bin1 == d`. */
  lemma DiagMatch(bin1: seq<int>, bin2: seq<int>, name: seq<int>, i: nat, d: int, nm: int)
    requires |bin1| == |bin2| == |name| && i < |name|
    ensures Matches(DiagKeys(bin1, bin2, name), DiagKeys(bin1, bin2, name), (d, nm), i)
            <==> nm == name[i] - 1 && d == bin2[i] - bin1[i]
  {
  }

  /** A `rows` by `cols` matrix. */
  predicate IsMatrix(t: seq<seq<real>>, rows: nat, cols: nat)
  {
    |t| == rows && forall b :: 0 <= b < rows ==> |t[b]| == cols
  }

  /** `t(b, nm) = min(t(b, nm), v)`. */
  function Lower(t: seq<seq<real>>, b: nat, nm: nat, v: real): (r: seq<seq<real>>)
    requires b < |t| && nm < |t[b]|
    ensures |r| == |t| && forall c :: 0 <= c < |t| ==> |r[c]| == |t[c]|
    ensures forall c, m :: 0 <= c < |t| && 0 <= m < |t[c]| ==>
              r[c][m] == if c == b && m == nm then Min(t[c][m], v) else t[c][m]
  {
    t[b := t[b][nm := Min(t[b][nm], v)]]
  }

  /** `t(b, m)` is the minimum signal of row `b` of dataset `m` over the
      first `n` observations, started at `init`. */
  predicate RowMinimaUpTo(t: seq<seq<real>>, bin1: seq<int>, bin2: seq<int>, name: seq<int>, logSignal: seq<real>,
                          init: real, nbins: nat, ndatasets: nat, n: nat)
    requires |bin1| == |bin2| == |name| == |logSignal| && n <= |logSignal| && IsMatrix(t, nbins, ndatasets)
  {
    forall b, m :: 0 <= b < nbins && 0 <= m < ndatasets ==>
      t[b][m] == MinWhere(logSignal, RowKeys(bin1, name), RowKeys(bin2, name), (b, m), n, init)
  }

  /** `t(d, m)` is the minimum signal of counter-diagonal `d` of dataset `m`
      over the first `n` observations, started at `init`. */
  predicate DiagMinimaUpTo(t: seq<seq<real>>, bin1: seq<int>, bin2: seq<int>, name: seq<int>, logSignal: seq<real>,
                           init: real, nbins: nat, ndatasets: nat, n: nat)
    requires |bin1| == |bin2| == |name| == |logSignal| && n <= |logSignal| && IsMatrix(t, nbins, ndatasets)
  {
    forall d, m :: 0 <= d < nbins && 0 <= m < ndatasets ==>
      t[d][m] == MinWhere(logSignal, DiagKeys(bin1, bin2, name), DiagKeys(bin1, bin2, name), (d, m), n, init)
  }

  /** The row matrix after observation `i`: its entries in both of the
      observation's rows lowered, once when the rows coincide. */
  function LowerRows(t: seq<seq<real>>, bin1: seq<int>, bin2: seq<int>, name: seq<int>, logSignal: seq<real>,
                     nbins: nat, ndatasets: nat, i: nat): (r: seq<seq<real>>)
    requires |bin1| == |bin2| == |name| == |logSignal| && i < |logSignal|
    requires UpperTriangle(bin1, bin2, nbins) && KeysIn(name, ndatasets) && IsMatrix(t, nbins, ndatasets)
    ensures IsMatrix(r, nbins, ndatasets)
    ensures forall b, m :: 0 <= b < nbins && 0 <= m < ndatasets ==>
              r[b][m] == if m == name[i] - 1 && (b == bin1[i] - 1 || b == bin2[i] - 1)
                         then Min(t[b][m], logSignal[i]) else t[b][m]
  {
    var once := Lower(t, bin1[i] - 1, name[i] - 1, logSignal[i]);
    if bin1[i] != bin2[i] then Lower(once, bin2[i] - 1, name[i] - 1, logSignal[i]) else once
  }

  /** Lowering the two row entries of observation `i` extends the row minima
      from the first `i` observations to the first `i + 1`. */
  lemma RowMinimaStep(bin1: seq<int>, bin2: seq<int>, name: seq<int>, logSignal: seq<real>, maxSignal: real,
                      nbins: nat, ndatasets: nat, i: nat, before: seq<seq<real>>)
    requires |bin1| == |bin2| == |name| == |logSignal| && i < |logSignal|
    requires UpperTriangle(bin1, bin2, nbins) && KeysIn(name, ndatasets) && IsMatrix(before, nbins, ndatasets)
    requires RowMinimaUpTo(before, bin1, bin2, name, logSignal, maxSignal, nbins, ndatasets, i)
    ensures RowMinimaUpTo(LowerRows(before, bin1, bin2, name, logSignal, nbins, ndatasets, i),
                          bin1, bin2, name, logSignal, maxSignal, nbins, ndatasets, i + 1)
  {
    var after := LowerRows(before, bin1, bin2, name, logSignal, nbins, ndatasets, i);
    forall b, m | 0 <= b < nbins && 0 <= m < ndatasets
      ensures after[b][m] == MinWhere(logSignal, RowKeys(bin1, name), RowKeys(bin2, name), (b, m), i + 1, maxSignal)
    {
      RowMatch(bin1, bin2, name, i, b, m);
    }
  }

  /** Lowering the counter-diagonal entry of observation `i` extends the
      counter-diagonal minima from `i` observations to `i + 1`. */
  lemma DiagMinimaStep(bin1: seq<int>, bin2: seq<int>, name: seq<int>, logSignal: seq<real>, maxSignal: real,
                       nbins: nat, ndatasets: nat, i: nat, before: seq<seq<real>>)
    requires |bin1| == |bin2| == |name| == |logSignal| && i < |logSignal|
    requires UpperTriangle(bin1, bin2, nbins) && KeysIn(name, ndatasets) && IsMatrix(before, nbins, ndatasets)
    requires DiagMinimaUpTo(before, bin1, bin2, name, logSignal, maxSignal, nbins, ndatasets, i)
    ensures DiagMinimaUpTo(Lower(before, bin2[i] - bin1[i], name[i] - 1, logSignal[i]),
                           bin1, bin2, name, logSignal, maxSignal, nbins, ndatasets, i + 1)
  {
    var after := Lower(before, bin2[i] - bin1[i], name[i] - 1, logSignal[i]);
    forall d, m | 0 <= d < nbins && 0 <= m < ndatasets
      ensures after[d][m] == MinWhere(logSignal, DiagKeys(bin1, bin2, name), DiagKeys(bin1, bin2, name), (d, m), i + 1, maxSignal)
    {
      DiagMatch(bin1, bin2, name, i, d, m);
    }
  }

  /** Both minima matrices are complete over the first `n` observations. */
  predicate MinimaUpTo(rows: seq<seq<real>>, diags: seq<seq<real>>, bin1: seq<int>, bin2: seq<int>, name: seq<int>,
                       logSignal: seq<real>, maxSignal: real, nbins: nat, ndatasets: nat, n: nat)
    requires |bin1| == |bin2| == |name| == |logSignal| && n <= |logSignal|
  {
    && IsMatrix(rows, nbins, ndatasets) && IsMatrix(diags, nbins, ndatasets)
    && RowMinimaUpTo(rows, bin1, bin2, name, logSignal, maxSignal, nbins, ndatasets, n)
    && DiagMinimaUpTo(diags, bin1, bin2, name, logSignal, maxSignal, nbins, ndatasets, n)
  }

  /** The `rows` by `cols` matrix filled with `v`. */
  function Filled(rows: nat, cols: nat, v: real): (r: seq<seq<real>>)
    ensures IsMatrix(r, rows, cols)
    ensures forall b, m :: 0 <= b < rows && 0 <= m < cols ==> r[b][m] == v
  {
    seq(rows, _ => seq(cols, _ => v))
  }

  /** The body of the first loop of `fast_remove_signal_degeneracy`:
      observation `i` lowers its counter-diagonal entry and its row entries. */
  method VisitObservation(bin1: seq<int>, bin2: seq<int>, name: seq<int>, logSignal: seq<real>, maxSignal: real,
                          nbins: nat, ndatasets: nat, i: nat, minPerRow: seq<seq<real>>, minPerDiag: seq<seq<real>>)
    returns (rows: seq<seq<real>>, diags: seq<seq<real>>)
    requires |bin1| == |bin2| == |name| == |logSignal| && i < |logSignal|
    requires UpperTriangle(bin1, bin2, nbins) && KeysIn(name, ndatasets)
    requires MinimaUpTo(minPerRow, minPerDiag, bin1, bin2, name, logSignal, maxSignal, nbins, ndatasets, i)
    ensures MinimaUpTo(rows, diags, bin1, bin2, name, logSignal, maxSignal, nbins, ndatasets, i + 1)
  {
    var nm := name[i] - 1;
    var b1 := bin1[i] - 1;
    var b2 := bin2[i] - 1;
    diags := Lower(minPerDiag, b2 - b1, nm, logSignal[i]);
    rows := LowerRows(minPerRow, bin1, bin2, name, logSignal, nbins, ndatasets, i);
    RowMinimaStep(bin1, bin2, name, logSignal, maxSignal, nbins, ndatasets, i, minPerRow);
    DiagMinimaStep(bin1, bin2, name, logSignal, maxSignal, nbins, ndatasets, i, minPerDiag);
  }

  /** The per-row and per-counter-diagonal minima of
      `fast_remove_signal_degeneracy`, one matrix entry per bin and dataset. */
  method SignalMinima(bin1: seq<int>, bin2: seq<int>, name: seq<int>, logSignal: seq<real>, nbins: nat, ndatasets: nat)
    returns (minPerRow: seq<seq<real>>, minPerDiag: seq<seq<real>>)
    requires |bin1| == |bin2| == |name| == |logSignal| > 0
    requires UpperTriangle(bin1, bin2, nbins) && KeysIn(name, ndatasets)
    ensures MinimaUpTo(minPerRow, minPerDiag, bin1, bin2, name, logSignal, SeqMax(logSignal), nbins, ndatasets, |logSignal|)
  {
    var maxSignal := SeqMax(logSignal);
    minPerRow := Filled(nbins, ndatasets, maxSignal);
    minPerDiag := minPerRow;
    MinimaStart(bin1, bin2, name, logSignal, maxSignal, nbins, ndatasets);
    var i := 0;
    while i < |logSignal|
      invariant 0 <= i <= |logSignal|
      invariant MinimaUpTo(minPerRow, minPerDiag, bin1, bin2, name, logSignal, maxSignal, nbins, ndatasets, i)
    {
      minPerRow, minPerDiag := VisitObservation(bin1, bin2, name, logSignal, maxSignal, nbins, ndatasets, i, minPerRow, minPerDiag);
      i := i + 1;
    }
    assert i == |logSignal|;
  }

  /** Before any observation every minimum is its starting value. */
  lemma MinimaStart(bin1: seq<int>, bin2: seq<int>, name: seq<int>, logSignal: seq<real>, maxSignal: real,
                    nbins: nat, ndatasets: nat)
    requires |bin1| == |bin2| == |name| == |logSignal|
    ensures var t := Filled(nbins, ndatasets, maxSignal);
            MinimaUpTo(t, t, bin1, bin2, name, logSignal, maxSignal, nbins, ndatasets, 0)
  {
  }

  /** Minima over every observation are the row and counter-diagonal
      minima. */
  lemma MinimaDone(bin1: seq<int>, bin2: seq<int>, name: seq<int>, logSignal: seq<real>, nbins: nat, ndatasets: nat,
                   minPerRow: seq<seq<real>>, minPerDiag: seq<seq<real>>)
    requires |bin1| == |bin2| == |name| == |logSignal| > 0
    requires MinimaUpTo(minPerRow, minPerDiag, bin1, bin2, name, logSignal, SeqMax(logSignal), nbins, ndatasets, |logSignal|)
    ensures forall b, nm :: 0 <= b < nbins && 0 <= nm < ndatasets ==>
              minPerRow[b][nm] == RowMin(bin1, bin2, name, logSignal, b, nm)
              && minPerDiag[b][nm] == DiagMin(bin1, bin2, name, logSignal, b, nm)
  {
  }

  /** The adjustment of observation `i` read from the two minima matrices. */
  function AdjustmentIn(minPerRow: seq<seq<real>>, minPerDiag: seq<seq<real>>, bin1: seq<int>, bin2: seq<int>,
                        name: seq<int>, nbins: nat, ndatasets: nat, i: nat): real
    requires IsMatrix(minPerRow, nbins, ndatasets) && IsMatrix(minPerDiag, nbins, ndatasets)
    requires UpperTriangle(bin1, bin2, nbins) && |name| == |bin1| && KeysIn(name, ndatasets) && i < |bin1|
  {
    var nm := name[i] - 1;
    Max(Max(minPerRow[bin1[i] - 1][nm], minPerRow[bin2[i] - 1][nm]), minPerDiag[bin2[i] - bin1[i]][nm])
  }

  /** The second loop of `fast_remove_signal_degeneracy`. */
  method LowerSignal(bin1: seq<int>, bin2: seq<int>, name: seq<int>, logSignal: seq<real>, nbins: nat, ndatasets: nat,
                     minPerRow: seq<seq<real>>, minPerDiag: seq<seq<real>>) returns (r: seq<real>)
    requires IsMatrix(minPerRow, nbins, ndatasets) && IsMatrix(minPerDiag, nbins, ndatasets)
    requires UpperTriangle(bin1, bin2, nbins) && |name| == |bin1| == |logSignal| && KeysIn(name, ndatasets)
    ensures |r| == |logSignal|
    ensures forall i :: 0 <= i < |r| ==>
              r[i] == Max(logSignal[i] - AdjustmentIn(minPerRow, minPerDiag, bin1, bin2, name, nbins, ndatasets, i), 0.0)
  {
    r := logSignal;
    var i := 0;
    while i < |logSignal|
      invariant 0 <= i <= |logSignal| && |r| == |logSignal|
      invariant forall k :: 0 <= k < i ==>
                  r[k] == Max(logSignal[k] - AdjustmentIn(minPerRow, minPerDiag, bin1, bin2, name, nbins, ndatasets, k), 0.0)
      invariant forall k :: i <= k < |r| ==> r[k] == logSignal[k]
    {
      var nm := name[i] - 1;
      var b1 := bin1[i] - 1;
      var b2 := bin2[i] - 1;
      var adjust := Max(Max(minPerRow[b1][nm], minPerRow[b2][nm]), minPerDiag[b2 - b1][nm]);
      r := r[i := Max(r[i] - adjust, 0.0)];
      i := i + 1;
    }
  }

  /** `fast_remove_signal_degeneracy`: every signal lowered by its
      adjustment, floored at 0. */
  function DegeneracyRemoved(bin1: seq<int>, bin2: seq<int>, name: seq<int>, logSignal: seq<real>): (r: seq<real>)
    requires |bin1| == |bin2| == |name| == |logSignal| > 0
    ensures |r| == |logSignal|
  {
    seq(|logSignal|, i requires 0 <= i < |logSignal| => Max(logSignal[i] - Adjustment(bin1, bin2, name, logSignal, i), 0.0))
  }

  /** Entry `i` of the signal with its degeneracy removed. */
  lemma DegeneracyRemovedAt(bin1: seq<int>, bin2: seq<int>, name: seq<int>, logSignal: seq<real>, i: nat)
    requires |bin1| == |bin2| == |name| == |logSignal| > 0 && i < |logSignal|
    ensures DegeneracyRemoved(bin1, bin2, name, logSignal)[i]
            == Max(logSignal[i] - Adjustment(bin1, bin2, name, logSignal, i), 0.0)
  {
  }

  /** `fast_remove_signal_degeneracy`. */
  method FastRemoveSignalDegeneracy(bin1: seq<int>, bin2: seq<int>, name: seq<int>, logSignal: seq<real>,
                                    nbins: nat, ndatasets: nat) returns (r: seq<real>)
    requires |bin1| == |bin2| == |name| == |logSignal| > 0
    requires UpperTriangle(bin1, bin2, nbins) && KeysIn(name, ndatasets)
    ensures r == DegeneracyRemoved(bin1, bin2, name, logSignal)
  {
    var minPerRow, minPerDiag := SignalMinima(bin1, bin2, name, logSignal, nbins, ndatasets);
    r := LowerSignal(bin1, bin2, name, logSignal, nbins, ndatasets, minPerRow, minPerDiag);
    LoweredByMinima(bin1, bin2, name, logSignal, nbins, ndatasets, minPerRow, minPerDiag, r);
  }

  /** Lowering every signal by the adjustment read from complete minima
      matrices removes the degeneracy. */
  lemma LoweredByMinima(bin1: seq<int>, bin2: seq<int>, name: seq<int>, logSignal: seq<real>,
                        nbins: nat, ndatasets: nat, minPerRow: seq<seq<real>>, minPerDiag: seq<seq<real>>, r: seq<real>)
    requires |bin1| == |bin2| == |name| == |logSignal| > 0
    requires UpperTriangle(bin1, bin2, nbins) && KeysIn(name, ndatasets)
    requires MinimaUpTo(minPerRow, minPerDiag, bin1, bin2, name, logSignal, SeqMax(logSignal), nbins, ndatasets, |logSignal|)
    requires |r| == |logSignal|
    requires forall i :: 0 <= i < |r| ==>
               r[i] == Max(logSignal[i] - AdjustmentIn(minPerRow, minPerDiag, bin1, bin2, name, nbins, ndatasets, i), 0.0)
    ensures r == DegeneracyRemoved(bin1, bin2, name, logSignal)
  {
    var spec := DegeneracyRemoved(bin1, bin2, name, logSignal);
    forall i | 0 <= i < |r|
      ensures r[i] == spec[i]
    {
      AdjustmentFromMinima(bin1, bin2, name, logSignal, nbins, ndatasets, minPerRow, minPerDiag, i);
      DegeneracyRemovedAt(bin1, bin2, name, logSignal, i);
    }
  }

  /** Read from complete minima matrices, the adjustment of observation `i`
      is its adjustment. */
  lemma AdjustmentFromMinima(bin1: seq<int>, bin2: seq<int>, name: seq<int>, logSignal: seq<real>,
                             nbins: nat, ndatasets: nat, minPerRow: seq<seq<real>>, minPerDiag: seq<seq<real>>, i: nat)
    requires |bin1| == |bin2| == |name| == |logSignal| > 0 && i < |logSignal|
    requires UpperTriangle(bin1, bin2, nbins) && KeysIn(name, ndatasets)
    requires MinimaUpTo(minPerRow, minPerDiag, bin1, bin2, name, logSignal, SeqMax(logSignal), nbins, ndatasets, |logSignal|)
    ensures AdjustmentIn(minPerRow, minPerDiag, bin1, bin2, name, nbins, ndatasets, i)
            == Adjustment(bin1, bin2, name, logSignal, i)
  {
    MinimaDone(bin1, bin2, name, logSignal, nbins, ndatasets, minPerRow, minPerDiag);
    var nm := name[i] - 1;
    assert minPerRow[bin1[i] - 1][nm] == RowMin(bin1, bin2, name, logSignal, bin1[i] - 1, nm);
    assert minPerRow[bin2[i] - 1][nm] == RowMin(bin1, bin2, name, logSignal, bin2[i] - 1, nm);
    assert minPerDiag[bin2[i] - bin1[i]][nm] == DiagMin(bin1, bin2, name, logSignal, bin2[i] - bin1[i], nm);
  }

  /** The adjustment never exceeds the observation's own signal, so the
      floor at 0 never bites: every output is exactly the signal minus its
      adjustment, and is non-negative. */
  lemma AdjustmentBelowSignal(bin1: seq<int>, bin2: seq<int>, name: seq<int>, logSignal: seq<real>, i: nat)
    requires |bin1| == |bin2| == |name| == |logSignal| > 0 && i < |logSignal|
    ensures Adjustment(bin1, bin2, name, logSignal, i) <= logSignal[i]
    ensures DegeneracyRemoved(bin1, bin2, name, logSignal)[i] == logSignal[i] - Adjustment(bin1, bin2, name, logSignal, i)
  {
    var rowA := RowKeys(bin1, name);
    var rowB := RowKeys(bin2, name);
    var diag := DiagKeys(bin1, bin2, name);
    var nm := name[i] - 1;
    var top := SeqMax(logSignal);
    MinWhereBelow(logSignal, rowA, rowB, (bin1[i] - 1, nm), |logSignal|, top, i);
    MinWhereBelow(logSignal, rowA, rowB, (bin2[i] - 1, nm), |logSignal|, top, i);
    MinWhereBelow(logSignal, diag, diag, (bin2[i] - bin1[i], nm), |logSignal|, top, i);
  }

  /** The minimum signal of dataset `nm` (1-based), started at the largest
      signal. */
  function DatasetMin(name: seq<int>, logSignal: seq<real>, nm: int): real
    requires |name| == |logSignal| > 0
  {
    MinWhere(logSignal, name, name, nm, |logSignal|, SeqMax(logSignal))
  }

  /** The first loop of `fast_shift_signal`: the minimum signal of every
      dataset. */
  method DatasetMinima(name: seq<int>, logSignal: seq<real>, ndatasets: nat) returns (minPerDset: seq<real>)
    requires |name| == |logSignal| > 0 && KeysIn(name, ndatasets)
    ensures |minPerDset| == ndatasets
    ensures forall d :: 0 <= d < ndatasets ==> minPerDset[d] == DatasetMin(name, logSignal, d + 1)
  {
    var maxSignal := SeqMax(logSignal);
    minPerDset := seq(ndatasets, _ => maxSignal);
    var i := 0;
    while i < |logSignal|
      invariant 0 <= i <= |logSignal| && |minPerDset| == ndatasets
      invariant forall d :: 0 <= d < ndatasets ==> minPerDset[d] == MinWhere(logSignal, name, name, d + 1, i, maxSignal)
    {
      var nm := name[i] - 1;
      minPerDset := minPerDset[nm := Min(minPerDset[nm], logSignal[i])];
      i := i + 1;
    }
  }

  /** `fast_shift_signal`: every signal minus its dataset's minimum, floored
      at 0. */
  function ShiftedSignal(name: seq<int>, logSignal: seq<real>): (r: seq<real>)
    requires |name| == |logSignal| > 0
    ensures |r| == |logSignal|
    ensures forall i :: 0 <= i < |r| ==> r[i] == Max(logSignal[i] - DatasetMin(name, logSignal, name[i]), 0.0)
  {
    seq(|logSignal|, i requires 0 <= i < |logSignal| => Max(logSignal[i] - DatasetMin(name, logSignal, name[i]), 0.0))
  }

  /** `fast_shift_signal`. */
  method FastShiftSignal(name: seq<int>, logSignal: seq<real>, ndatasets: nat) returns (r: seq<real>)
    requires |name| == |logSignal| > 0 && KeysIn(name, ndatasets)
    ensures r == ShiftedSignal(name, logSignal)
  {
    var minPerDset := DatasetMinima(name, logSignal, ndatasets);
    r := logSignal;
    var i := 0;
    while i < |logSignal|
      invariant 0 <= i <= |logSignal| && |r| == |logSignal|
      invariant forall k :: 0 <= k < i ==> r[k] == Max(logSignal[k] - minPerDset[name[k] - 1], 0.0)
      invariant forall k :: i <= k < |r| ==> r[k] == logSignal[k]
    {
      r := r[i := Max(r[i] - minPerDset[name[i] - 1], 0.0)];
      i := i + 1;
    }
  }

  /** After the shift every signal is its distance to its dataset's minimum,
      hence non-negative, and every dataset with observations has a signal
      exactly 0. */
  lemma ShiftSignalMeaning(name: seq<int>, logSignal: seq<real>, nm: int)
    requires |name| == |logSignal| > 0
    ensures forall i :: 0 <= i < |logSignal| ==>
              ShiftedSignal(name, logSignal)[i] == logSignal[i] - DatasetMin(name, logSignal, name[i])
    ensures (exists i :: 0 <= i < |name| && name[i] == nm) ==>
              exists i :: 0 <= i < |name| && name[i] == nm && ShiftedSignal(name, logSignal)[i] == 0.0
  {
    var shifted := ShiftedSignal(name, logSignal);
    forall i | 0 <= i < |logSignal|
      ensures shifted[i] == logSignal[i] - DatasetMin(name, logSignal, name[i])
    {
      MinWhereBelow(logSignal, name, name, name[i], |logSignal|, SeqMax(logSignal), i);
    }
    if exists i :: 0 <= i < |name| && name[i] == nm {
      var j :| 0 <= j < |name| && name[j] == nm;
      SeqMaxBounds(logSignal);
      MinWhereAttained(logSignal, name, name, nm, |logSignal|, SeqMax(logSignal), j);
      var k :| 0 <= k < |logSignal| && Matches(name, name, nm, k)
               && logSignal[k] == DatasetMin(name, logSignal, nm);
      assert name[k] == nm && shifted[k] == 0.0;
    }
  }

  // ---------------------------------------------------------------------
  // The driver
  // ---------------------------------------------------------------------

  /** What `fast_compute_signal` returns: the new log signal, its `phihat`
      and its IRLS weights. */
  datatype SignalFit = SignalFit(beta: seq<real>, phihat: seq<real>, weights: seq<real>)

  /** The estimates the driver updates, and records after every step. */
  datatype Estimates = Estimates(exposures: seq<real>, logBiases: seq<real>, logDecay: seq<real>,
                                 logSignal: seq<real>)

  /** `FastSignalData`: the observations (fixed) and the current estimates
      (updated by the driver). `expectedModel` computes `log_expected` from
      exposures, biases, decay and signal. */
  class FastSignalData {
    const name: seq<int>
    const bin1: seq<int>
    const bin2: seq<int>
    const observed: seq<real>
    const nbins: nat
    const ndatasets: nat
    const expectedModel: (seq<real>, seq<real>, seq<real>, seq<real>) -> seq<real>
    var exposures: seq<real>
    var logBiases: seq<real>
    var logDecay: seq<real>
    var logSignal: seq<real>
    var signalPhihat: seq<real>
    var signalWeights: seq<real>

    /** The observations: upper-triangle bins, dataset keys `1 .. ndatasets`
        all in use, and an expected count per observation. */
    ghost predicate WellFormed()
    {
      |observed| > 0 && |name| == |observed| && UpperTriangle(bin1, bin2, nbins) && |bin1| == |observed|
      && KeysIn(name, ndatasets) && EveryKeyUsed(name, ndatasets)
      && (forall e, b, d, s :: |expectedModel(e, b, d, s)| == |observed|)
    }

    /** Estimates of the sizes the observations call for. */
    predicate Fits(e: Estimates)
    {
      |e.exposures| == ndatasets && |e.logBiases| == nbins && |e.logDecay| == nbins
      && |e.logSignal| == |observed|
    }

    function Current(): Estimates
      reads this
    {
      Estimates(exposures, logBiases, logDecay, logSignal)
    }

    ghost predicate Valid()
      reads this
    {
      WellFormed() && Fits(Current()) && |signalWeights| == |observed|
    }

    /** `get_log_expected`. */
    function LogExpected(): (r: seq<real>)
      reads this
      requires Valid()
      ensures |r| == |observed|
    {
      expectedModel(exposures, logBiases, logDecay, logSignal)
    }

    constructor (name: seq<int>, bin1: seq<int>, bin2: seq<int>, observed: seq<real>, nbins: nat, ndatasets: nat,
                 expectedModel: (seq<real>, seq<real>, seq<real>, seq<real>) -> seq<real>,
                 exposures: seq<real>, logBiases: seq<real>, logDecay: seq<real>, logSignal: seq<real>,
                 signalPhihat: seq<real>, signalWeights: seq<real>)
      ensures this.name == name && this.bin1 == bin1 && this.bin2 == bin2 && this.observed == observed
      ensures this.nbins == nbins && this.ndatasets == ndatasets && this.expectedModel == expectedModel
      ensures this.exposures == exposures && this.logBiases == logBiases && this.logDecay == logDecay
      ensures this.logSignal == logSignal && this.signalPhihat == signalPhihat && this.signalWeights == signalWeights
    {
      this.name := name;
      this.bin1 := bin1;
      this.bin2 := bin2;
      this.observed := observed;
      this.nbins := nbins;
      this.ndatasets := ndatasets;
      this.expectedModel := expectedModel;
      this.exposures := exposures;
      this.logBiases := logBiases;
      this.logDecay := logDecay;
      this.logSignal := logSignal;
      this.signalPhihat := signalPhihat;
      this.signalWeights := signalWeights;
    }
  }

  /** One entry of `diagnostics`: the step's number and precision, whether it
      converged, whether it applied the floor shift (rather than the
      degeneracy removal), and the estimates after it. */
  datatype Diagnostic = Diagnostic(step: nat, precision: Option<real>, converged: bool, shifted: bool,
                                   estimates: Estimates)

  /** The control of one step, as the driver must record it. */
  predicate StepRecorded(d: Diagnostic, k: nat, ngibbs: nat, tolVal: real)
  {
    d.step == k + 1
    && (d.converged <==> Converged(d.precision, tolVal))
    && (d.shifted <==> d.converged || d.step == ngibbs)
  }

  /** The estimates `e` with the exposures recomputed from their own expected
      counts: the update that opens `fast_binless` and closes every step. */
  function ExposuresUpdated(out: FastSignalData, num: Numerics, e: Estimates): (r: Estimates)
    requires out.WellFormed() && out.Fits(e) && num.Valid()
    ensures out.Fits(r)
    ensures r.logBiases == e.logBiases && r.logDecay == e.logDecay && r.logSignal == e.logSignal
  {
    var logExpected := out.expectedModel(e.exposures, e.logBiases, e.logDecay, e.logSignal);
    e.(exposures := NewExposures(out.name, out.observed, logExpected, e.exposures, num))
  }

  /** Step `k + 1` of `fast_binless`, started from the estimates `before` with
      the fit `signal` of that step and the weights `oldWeights` of the
      previous fit, records `d`: the precision of the new weights against the
      old ones; new biases from the expected counts; new decay from the
      expected counts with those biases; the fitted signal shifted to its
      floors or freed of its degeneracy; then new exposures from the
      expected counts of all of these. */
  ghost predicate StepFollows(out: FastSignalData, num: Numerics, ngibbs: nat, tolVal: real, k: nat,
                              before: Estimates, oldWeights: seq<real>, signal: SignalFit, d: Diagnostic)
  {
    out.WellFormed() && num.Valid() && out.Fits(before)
    && |signal.beta| == |out.observed| && |signal.weights| == |out.observed| && |oldWeights| == |out.observed|
    && StepRecorded(d, k, ngibbs, tolVal)
    && d.precision == Precision(signal.weights, oldWeights)
    && (var e := d.estimates;
        e.logBiases == NewLogBiases(out.bin1, out.bin2, out.observed,
                         out.expectedModel(before.exposures, before.logBiases, before.logDecay, before.logSignal),
                         before.logBiases, num)
        && e.logDecay == NewLogDecay(out.bin1, out.bin2, out.observed,
                           out.expectedModel(before.exposures, e.logBiases, before.logDecay, before.logSignal),
                           before.logDecay, num)
        && e.logSignal == (if d.shifted then ShiftedSignal(out.name, signal.beta)
                           else DegeneracyRemoved(out.bin1, out.bin2, out.name, signal.beta))
        && e == ExposuresUpdated(out, num, e.(exposures := before.exposures)))
  }

  /** Some observation of dataset `nm` has the value 0. */
  predicate ZeroInDataset(name: seq<int>, values: seq<real>, nm: int)
  {
    exists i :: 0 <= i < |name| && i < |values| && name[i] == nm && values[i] == 0.0
  }

  /** The estimates a step records keep their sizes, and the new biases and
      the new decay have zero mean under the IRLS weights they were computed
      with. */
  lemma StepCentred(out: FastSignalData, num: Numerics, ngibbs: nat, tolVal: real, k: nat,
                    before: Estimates, oldWeights: seq<real>, signal: SignalFit, d: Diagnostic)
    requires StepFollows(out, num, ngibbs, tolVal, k, before, oldWeights, signal, d)
    ensures out.Fits(d.estimates)
    ensures var z := PoissonResiduals(out.observed,
                       out.expectedModel(before.exposures, before.logBiases, before.logDecay, before.logSignal), num);
            Dot(d.estimates.logBiases, BinSums(z.weights, out.bin1, out.bin2, out.nbins)) == 0.0
    ensures var z := PoissonResiduals(out.observed,
                       out.expectedModel(before.exposures, d.estimates.logBiases, before.logDecay, before.logSignal), num);
            Dot(d.estimates.logDecay, DiagonalSums(z.weights, out.bin1, out.bin2, out.nbins)) == 0.0
  {
    var e := d.estimates;
    var expected1 := out.expectedModel(before.exposures, before.logBiases, before.logDecay, before.logSignal);
    NewLogBiasesCentred(out.bin1, out.bin2, out.observed, expected1, before.logBiases, num);
    var expected2 := out.expectedModel(before.exposures, e.logBiases, before.logDecay, before.logSignal);
    NewLogDecayCentred(out.bin1, out.bin2, out.observed, expected2, before.logDecay, num);
  }

  /** Every step leaves a non-negative signal. A converged or last step
      shifts the fitted signal to its datasets' floors, leaving a zero in
      every dataset; any other step lowers each fitted value by exactly its
      row/diagonal adjustment. */
  lemma StepSignal(out: FastSignalData, num: Numerics, ngibbs: nat, tolVal: real, k: nat,
                   before: Estimates, oldWeights: seq<real>, signal: SignalFit, d: Diagnostic)
    requires StepFollows(out, num, ngibbs, tolVal, k, before, oldWeights, signal, d)
    ensures forall i :: 0 <= i < |out.observed| ==> d.estimates.logSignal[i] >= 0.0
    ensures d.converged || k + 1 == ngibbs ==>
              forall nm :: 1 <= nm <= out.ndatasets ==> ZeroInDataset(out.name, d.estimates.logSignal, nm)
    ensures !d.converged && k + 1 != ngibbs ==>
              forall i :: 0 <= i < |out.observed| ==>
                d.estimates.logSignal[i] == signal.beta[i] - Adjustment(out.bin1, out.bin2, out.name, signal.beta, i)
  {
    var s := d.estimates.logSignal;
    var beta := signal.beta;
    if d.shifted {
      var shifted := ShiftedSignal(out.name, beta);
      assert s == shifted;
      forall nm | 1 <= nm <= out.ndatasets ensures ZeroInDataset(out.name, shifted, nm) {
        assert HasKey(out.name, nm - 1);
        ShiftSignalMeaning(out.name, beta, nm);
      }
    } else {
      var removed := DegeneracyRemoved(out.bin1, out.bin2, out.name, beta);
      assert s == removed;
      forall i | 0 <= i < |beta|
        ensures removed[i] >= 0.0
        ensures removed[i] == beta[i] - Adjustment(out.bin1, out.bin2, out.name, beta, i)
      {
        AdjustmentBelowSignal(out.bin1, out.bin2, out.name, beta, i);
      }
    }
  }

  /** A step's precision, when defined, is non-negative and zero exactly
      when the fitted weights did not move; the step converged exactly when
      it is defined and below the tolerance. */
  lemma StepPrecision(out: FastSignalData, num: Numerics, ngibbs: nat, tolVal: real, k: nat,
                      before: Estimates, oldWeights: seq<real>, signal: SignalFit, d: Diagnostic)
    requires StepFollows(out, num, ngibbs, tolVal, k, before, oldWeights, signal, d)
    ensures d.precision.Some? ==>
              d.precision.value >= 0.0 && (d.precision.value == 0.0 <==> signal.weights == oldWeights)
    ensures d.converged <==> d.precision.Some? && d.precision.value < tolVal
  {
    PrecisionMeaning(signal.weights, oldWeights);
  }

  /** The first part of a step of `fast_binless`: new log biases from the
      current expected counts, then new log decay from the expected counts
      with those biases. */
  method UpdateBiasesAndDecay(out: FastSignalData, num: Numerics)
    requires out.Valid() && num.Valid()
    modifies out
    ensures out.Valid()
    ensures out.logBiases == NewLogBiases(out.bin1, out.bin2, out.observed,
              out.expectedModel(old(out.exposures), old(out.logBiases), old(out.logDecay), old(out.logSignal)),
              old(out.logBiases), num)
    ensures out.logDecay == NewLogDecay(out.bin1, out.bin2, out.observed,
              out.expectedModel(old(out.exposures), out.logBiases, old(out.logDecay), old(out.logSignal)),
              old(out.logDecay), num)
    ensures unchanged(out`exposures) && unchanged(out`logSignal)
    ensures unchanged(out`signalPhihat) && unchanged(out`signalWeights)
  {
    var biases := FastComputeLogBiases(out.bin1, out.bin2, out.observed, out.LogExpected(), out.logBiases, num);
    out.logBiases := biases;
    var decay := FastComputeLogDecay(out.bin1, out.bin2, out.observed, out.LogExpected(), out.logDecay, num);
    out.logDecay := decay;
  }

  /** The signal part of a step: take the fitted signal, then either shift it
      to its datasets' floors or remove its degeneracy with the biases and
      decay. */
  method UpdateSignal(out: FastSignalData, signal: SignalFit, shift: bool)
    requires out.Valid()
    requires |signal.beta| == |out.observed| && |signal.weights| == |out.observed|
    modifies out
    ensures out.Valid()
    ensures out.logSignal == if shift then ShiftedSignal(out.name, signal.beta)
                             else DegeneracyRemoved(out.bin1, out.bin2, out.name, signal.beta)
    ensures out.signalPhihat == signal.phihat && out.signalWeights == signal.weights
    ensures unchanged(out`exposures) && unchanged(out`logBiases) && unchanged(out`logDecay)
  {
    out.signalPhihat := signal.phihat;
    out.signalWeights := signal.weights;
    var adjust: seq<real>;
    if shift {
      adjust := FastShiftSignal(out.name, signal.beta, out.ndatasets);
    } else {
      adjust := FastRemoveSignalDegeneracy(out.bin1, out.bin2, out.name, signal.beta, out.nbins, out.ndatasets);
    }
    out.logSignal := adjust;
  }

  /** The exposures update that opens `fast_binless` and closes every step. */
  method UpdateExposures(out: FastSignalData, num: Numerics)
    requires out.Valid() && num.Valid()
    modifies out
    ensures out.Valid()
    ensures out.Current() == ExposuresUpdated(out, num, old(out.Current()))
    ensures unchanged(out`signalPhihat) && unchanged(out`signalWeights)
  {
    var exposures := FastComputeExposures(out.name, out.observed, out.LogExpected(), out.exposures, num);
    out.exposures := exposures;
  }

  /** One step of `fast_binless` after the initial exposures: biases, decay,
      signal, precision, the adjustment and the exposures. */
  method Step(out: FastSignalData, step: nat, ngibbs: nat, tolVal: real, num: Numerics, signal: SignalFit)
    returns (d: Diagnostic)
    requires out.Valid() && num.Valid()
    requires |signal.beta| == |out.observed| && |signal.weights| == |out.observed| && step >= 1
    modifies out
    ensures out.Valid()
    ensures StepFollows(out, num, ngibbs, tolVal, step - 1, old(out.Current()), old(out.signalWeights), signal, d)
    ensures out.Current() == d.estimates
    ensures out.signalPhihat == signal.phihat && out.signalWeights == signal.weights
  {
    var precision := FastPrecision(signal.weights, out.signalWeights);
    var converged := precision.Some? && precision.value < tolVal;
    var shift := converged || step == ngibbs;
    UpdateBiasesAndDecay(out, num);
    UpdateSignal(out, signal, shift);
    UpdateExposures(out, num);
    d := Diagnostic(step, precision, converged, shift, out.Current());
  }

  /** The estimates step `k + 1` starts from: the initial ones, then those
      step `k` recorded. */
  function EstimatesBefore(start: Estimates, diagnostics: seq<Diagnostic>, k: nat): Estimates
    requires k <= |diagnostics|
  {
    if k == 0 then start else diagnostics[k - 1].estimates
  }

  /** The weights step `k + 1` compares with: the initial ones, then those of
      fit `k`. */
  function WeightsBefore(startWeights: seq<real>, fit: nat -> SignalFit, k: nat): seq<real>
  {
    if k == 0 then startWeights else fit(k).weights
  }

  /** Entry `k` of `diagnostics` is the step that follows the entry before
      it (or the initial estimates and weights), with fit `k + 1`. */
  ghost predicate EntryFollows(out: FastSignalData, num: Numerics, ngibbs: nat, tolVal: real, start: Estimates,
                               startWeights: seq<real>, fit: nat -> SignalFit, diagnostics: seq<Diagnostic>, k: nat)
    requires k < |diagnostics|
  {
    StepFollows(out, num, ngibbs, tolVal, k, EstimatesBefore(start, diagnostics, k),
                WeightsBefore(startWeights, fit, k), fit(k + 1), diagnostics[k])
  }

  /** Every entry of `diagnostics` follows the one before it. */
  ghost predicate Recorded(out: FastSignalData, num: Numerics, ngibbs: nat, tolVal: real, start: Estimates,
                           startWeights: seq<real>, fit: nat -> SignalFit, diagnostics: seq<Diagnostic>)
  {
    forall k :: 0 <= k < |diagnostics| ==>
      EntryFollows(out, num, ngibbs, tolVal, start, startWeights, fit, diagnostics, k)
  }

  /** An entry keeps following its predecessor when a step is appended. */
  lemma EntryFollowsSnoc(out: FastSignalData, num: Numerics, ngibbs: nat, tolVal: real, start: Estimates,
                         startWeights: seq<real>, fit: nat -> SignalFit, diagnostics: seq<Diagnostic>, d: Diagnostic,
                         k: nat)
    requires k < |diagnostics| && EntryFollows(out, num, ngibbs, tolVal, start, startWeights, fit, diagnostics, k)
    ensures EntryFollows(out, num, ngibbs, tolVal, start, startWeights, fit, diagnostics + [d], k)
  {
    var next := diagnostics + [d];
    assert next[k] == diagnostics[k];
    assert EstimatesBefore(start, next, k) == EstimatesBefore(start, diagnostics, k);
  }

  /** The appended step follows the last recorded one. */
  lemma EntryFollowsLast(out: FastSignalData, num: Numerics, ngibbs: nat, tolVal: real, start: Estimates,
                         startWeights: seq<real>, fit: nat -> SignalFit, diagnostics: seq<Diagnostic>, d: Diagnostic)
    requires StepFollows(out, num, ngibbs, tolVal, |diagnostics|, EstimatesBefore(start, diagnostics, |diagnostics|),
                         WeightsBefore(startWeights, fit, |diagnostics|), fit(|diagnostics| + 1), d)
    ensures EntryFollows(out, num, ngibbs, tolVal, start, startWeights, fit, diagnostics + [d], |diagnostics|)
  {
    var next := diagnostics + [d];
    assert next[|diagnostics|] == d;
    assert EstimatesBefore(start, next, |diagnostics|) == EstimatesBefore(start, diagnostics, |diagnostics|);
  }

  /** Every recorded entry still follows its predecessor once a step is
      appended. */
  lemma RecordedPrefix(out: FastSignalData, num: Numerics, ngibbs: nat, tolVal: real, start: Estimates,
                       startWeights: seq<real>, fit: nat -> SignalFit, diagnostics: seq<Diagnostic>, d: Diagnostic)
    requires Recorded(out, num, ngibbs, tolVal, start, startWeights, fit, diagnostics)
    ensures forall k :: 0 <= k < |diagnostics| ==>
              EntryFollows(out, num, ngibbs, tolVal, start, startWeights, fit, diagnostics + [d], k)
  {
    forall k | 0 <= k < |diagnostics|
      ensures EntryFollows(out, num, ngibbs, tolVal, start, startWeights, fit, diagnostics + [d], k)
    {
      EntryFollowsSnoc(out, num, ngibbs, tolVal, start, startWeights, fit, diagnostics, d, k);
    }
  }

  /** Appending an entry that follows the last one keeps the record. */
  lemma RecordedSnoc(out: FastSignalData, num: Numerics, ngibbs: nat, tolVal: real, start: Estimates,
                     startWeights: seq<real>, fit: nat -> SignalFit, diagnostics: seq<Diagnostic>, d: Diagnostic)
    requires Recorded(out, num, ngibbs, tolVal, start, startWeights, fit, diagnostics)
    requires EntryFollows(out, num, ngibbs, tolVal, start, startWeights, fit, diagnostics + [d], |diagnostics|)
    ensures Recorded(out, num, ngibbs, tolVal, start, startWeights, fit, diagnostics + [d])
  {
    RecordedPrefix(out, num, ngibbs, tolVal, start, startWeights, fit, diagnostics, d);
  }

  /** The `phihat` of fit `k`, or the initial one. */
  function PhihatBefore(startPhihat: seq<real>, fit: nat -> SignalFit, k: nat): seq<real>
  {
    if k == 0 then startPhihat else fit(k).phihat
  }

  /** The object holds what the last recorded step left behind, or the
      initial estimates and fit when there is none. */
  ghost predicate Reached(out: FastSignalData, num: Numerics, ngibbs: nat, tolVal: real, start: Estimates,
                          startWeights: seq<real>, startPhihat: seq<real>, fit: nat -> SignalFit,
                          diagnostics: seq<Diagnostic>)
    reads out
  {
    out.Valid() && Recorded(out, num, ngibbs, tolVal, start, startWeights, fit, diagnostics)
    && out.Current() == EstimatesBefore(start, diagnostics, |diagnostics|)
    && out.signalWeights == WeightsBefore(startWeights, fit, |diagnostics|)
    && out.signalPhihat == PhihatBefore(startPhihat, fit, |diagnostics|)
  }

  /** The body of the loop of `fast_binless`: step `|diagnostics| + 1` with
      its fit, its entry appended to `diagnostics`, and whether the loop
      stops there. */
  method GibbsIteration(out: FastSignalData, ngibbs: nat, tolVal: real, num: Numerics, fit: nat -> SignalFit,
                        ghost start: Estimates, ghost startWeights: seq<real>, ghost startPhihat: seq<real>,
                        diagnostics: seq<Diagnostic>) returns (next: seq<Diagnostic>, stop: bool)
    requires num.Valid()
    requires forall s :: |fit(s).beta| == |out.observed| && |fit(s).weights| == |out.observed|
    requires Reached(out, num, ngibbs, tolVal, start, startWeights, startPhihat, fit, diagnostics)
    modifies out
    ensures |next| == |diagnostics| + 1 && next[..|diagnostics|] == diagnostics
    ensures stop == next[|diagnostics|].converged
    ensures Reached(out, num, ngibbs, tolVal, start, startWeights, startPhihat, fit, next)
  {
    var step := |diagnostics| + 1;
    var d := Step(out, step, ngibbs, tolVal, num, fit(step));
    EntryFollowsLast(out, num, ngibbs, tolVal, start, startWeights, fit, diagnostics, d);
    RecordedSnoc(out, num, ngibbs, tolVal, start, startWeights, fit, diagnostics, d);
    next := diagnostics + [d];
    stop := d.converged;
  }

  /** `fast_binless`: initial exposures, then at most `ngibbs` steps, leaving
      the loop right after the first converged step. `fit(step)` is what
      `fast_compute_signal` returns at that step. Step `k + 1` starts from the
      estimates recorded by step `k` (or the initial ones) and compares its
      weights with those of fit `k` (or the initial ones); the object ends
      with the estimates and the fit of the last step. */
  method FastBinless(out: FastSignalData, ngibbs: nat, tolVal: real, num: Numerics, fit: nat -> SignalFit)
    returns (diagnostics: seq<Diagnostic>)
    requires out.Valid() && num.Valid()
    requires forall s :: |fit(s).beta| == |out.observed| && |fit(s).weights| == |out.observed|
    modifies out
    ensures out.Valid()
    ensures |diagnostics| <= ngibbs
    ensures ngibbs > 0 ==> |diagnostics| > 0
    ensures forall k :: 0 <= k < |diagnostics| - 1 ==> !diagnostics[k].converged
    ensures |diagnostics| < ngibbs ==> |diagnostics| > 0 && diagnostics[|diagnostics| - 1].converged
    ensures Recorded(out, num, ngibbs, tolVal, ExposuresUpdated(out, num, old(out.Current())), old(out.signalWeights),
                     fit, diagnostics)
    ensures |diagnostics| == 0 ==> out.Current() == ExposuresUpdated(out, num, old(out.Current()))
                                   && out.signalWeights == old(out.signalWeights)
                                   && out.signalPhihat == old(out.signalPhihat)
    ensures |diagnostics| > 0 ==> out.Current() == diagnostics[|diagnostics| - 1].estimates
                                  && out.signalWeights == fit(|diagnostics|).weights
                                  && out.signalPhihat == fit(|diagnostics|).phihat
  {
    UpdateExposures(out, num);
    ghost var start := out.Current();
    ghost var startWeights := out.signalWeights;
    ghost var startPhihat := out.signalPhihat;
    diagnostics := [];
    var step := 1;
    while step <= ngibbs
      invariant 1 <= step <= ngibbs + 1 && |diagnostics| == step - 1
      invariant forall k :: 0 <= k < |diagnostics| ==> !diagnostics[k].converged
      invariant Reached(out, num, ngibbs, tolVal, start, startWeights, startPhihat, fit, diagnostics)
    {
      ghost var done := diagnostics;
      var stop;
      diagnostics, stop := GibbsIteration(out, ngibbs, tolVal, num, fit, start, startWeights, startPhihat, diagnostics);
      assert forall k :: 0 <= k < |done| ==> diagnostics[k] == done[k];
      if stop {
        break;
      }
      step := step + 1;
    }
  }
}
