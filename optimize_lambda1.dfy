/** Choice of the sparsity penalty `lambda1` at offset 0
    (csnorm/src/optimize_lambda1.cpp).

    The patch membership of the cells (`cl["membership"]` and `cl["no"]`) is
    an input, and so are the forbidden values of the non-positive case
    (`get_constant_diagonal_values` is not part of this model). Brent's
    minimiser is a function parameter: any point it returns is accepted. The
    source's `constrained` flag is the constant `true`, so the constrained
    branches are the only ones modelled. */
module Lambda1 {
  import opened Basics
  import opened Util
  import opened Objective
  import Lambda1ECprime

  // ---------------------------------------------------------------------
  // The objective functor
  // ---------------------------------------------------------------------

  /** `obj_lambda1`: the extreme patch values, the tolerance,
      `lsnc = log(sum(ncounts))`, the forbidden values and the per-cell
      vectors. */
  datatype ObjLambda1 = ObjLambda1(
    minval: real, maxval: real, tolVal: real, lsnc: real,
    patchno: seq<int>, forbiddenVals: seq<real>,
    value: seq<real>, weight: seq<real>, valuehat: seq<real>)
  {
    predicate Valid()
    {
      |patchno| == |value| && |weight| == |value| && |valuehat| == |value|
    }
  }

  /** Some forbidden value lies further than `lambda1 + tol/2` from 0. */
  predicate Forbidden(obj: ObjLambda1, lambda1: real)
  {
    exists i :: 0 <= i < |obj.forbiddenVals| && Abs(obj.forbiddenVals[i]) > lambda1 + obj.tolVal / 2.0
  }

  /** `n` zeros. */
  function Zeros(n: nat): (r: seq<real>)
    ensures |r| == n && forall i :: 0 <= i < n ==> r[i] == 0.0
  {
    seq(n, _ => 0.0)
  }

  /** `obj_lambda1::get`. */
  function Get(obj: ObjLambda1, lambda1: real): (r: Evaluation)
    requires obj.Valid()
    ensures r.lambda1 == lambda1 && r.eCprime == 0.0
    ensures r.dof.None? <==> Forbidden(obj, lambda1)
    ensures r.dof.None? <==> r.bic.Largest?
    ensures r.dof.Some? ==> r.dof.value <= |obj.patchno|
  {
    if Forbidden(obj, lambda1) then
      Evaluation(0.0, lambda1, Largest, None)
    else
      var soft := SoftThresholded(obj.value, 0.0, lambda1);
      var dof := Dof(soft, obj.patchno, obj.tolVal);
      var bic := WeightedSquaredError(obj.weight, obj.valuehat, soft) + obj.lsnc * dof as real;
      Evaluation(0.0, lambda1, Finite(bic), Some(dof))
  }

  /** `operator()`: the BIC at `lambda1 = 10^x`, the function Brent minimises. */
  function Bic(obj: ObjLambda1, num: Numerics, x: real): (r: Score)
    requires obj.Valid()
    ensures r.Largest? <==> Forbidden(obj, num.pow10(x))
  {
    Get(obj, num.pow10(x)).bic
  }

  /** A `lambda1` is allowed exactly when the band `lambda1 + tol/2` covers
      the largest forbidden magnitude; larger penalties stay allowed. */
  lemma AllowedIffAboveForbidden(obj: ObjLambda1, lambda1: real, larger: real)
    requires |obj.forbiddenVals| > 0
    ensures !Forbidden(obj, lambda1) <==> MaxAbs(obj.forbiddenVals) <= lambda1 + obj.tolVal / 2.0
    ensures !Forbidden(obj, lambda1) && lambda1 <= larger ==> !Forbidden(obj, larger)
  {
    var fv := obj.forbiddenVals;
    MaxAbsBounds(fv);
    var j :| 0 <= j < |fv| && MaxAbs(fv) == Abs(fv[j]);
    if !Forbidden(obj, lambda1) {
      assert Abs(fv[j]) <= lambda1 + obj.tolVal / 2.0;
    }
  }

  /** An allowed evaluation's BIC is at least its dof penalty, and the dof
      never exceeds the number of patches. */
  lemma GetPenaltyBounds(obj: ObjLambda1, lambda1: real, npatches: nat)
    requires obj.Valid()
    requires forall i :: 0 <= i < |obj.weight| ==> obj.weight[i] >= 0.0
    requires forall i :: 0 <= i < |obj.patchno| ==> 0 <= obj.patchno[i] < npatches
    ensures var r := Get(obj, lambda1);
            r.dof.Some? ==> r.dof.value <= npatches && r.bic.value >= obj.lsnc * r.dof.value as real
  {
    var r := Get(obj, lambda1);
    if r.dof.Some? {
      var soft := SoftThresholded(obj.value, 0.0, lambda1);
      DofAtMostPatchCount(soft, obj.patchno, obj.tolVal, npatches);
      WeightedSquaredErrorNonNegative(obj.weight, obj.valuehat, soft);
    }
  }

  /** A penalty at least as large as every value thresholds everything to 0:
      no patch survives and the BIC is `sum(weight * valuehat^2)`, the score
      of the single-patch border case. */
  lemma LargePenaltyKillsAll(obj: ObjLambda1, lambda1: real)
    requires obj.Valid() && lambda1 >= 0.0 && obj.tolVal >= 0.0
    requires forall i :: 0 <= i < |obj.value| ==> Abs(obj.value[i]) <= lambda1
    requires !Forbidden(obj, lambda1)
    ensures Get(obj, lambda1).dof == Some(0)
    ensures Get(obj, lambda1).bic == Finite(WeightedSquaredError(obj.weight, obj.valuehat, Zeros(|obj.value|)))
  {
    var soft := SoftThresholded(obj.value, 0.0, lambda1);
    forall i | 0 <= i < |soft| ensures soft[i] == 0.0 {
      assert Abs(obj.value[i] - 0.0) <= lambda1;
    }
    assert soft == Zeros(|obj.value|);
    assert Dof(soft, obj.patchno, obj.tolVal) == 0;
  }

  // ---------------------------------------------------------------------
  // refine_minimum
  // ---------------------------------------------------------------------

  /** The candidate penalties: the non-negative patch values (`positive`) or
      the absolute patch values, then only those `>= lam1Min`. */
  function LambdaCandidates(patchvals: seq<real>, positive: bool, lam1Min: real): (r: seq<real>)
    ensures forall x :: x in r ==> x >= lam1Min
  {
    AtLeast(if positive then AtLeast(patchvals, 0.0) else AbsAll(patchvals), lam1Min)
  }

  /** `std::min(n, k)` as a loop bound, never negative. */
  function Clip(k: int, n: nat): (r: nat)
    ensures r <= n
  {
    if k < 0 then 0 else if k < n then k else n
  }

  /** The last `k` entries of `c`, last first. */
  function NearestFirst(c: seq<real>, k: nat): (r: seq<real>)
    requires k <= |c|
    ensures |r| == k && forall i :: 0 <= i < k ==> r[i] == c[|c| - 1 - i]
  {
    seq(k, i requires 0 <= i < k => c[|c| - 1 - i])
  }

  /** The penalties `refine_minimum` evaluates, in order: `lam1Min`, then up
      to `refineNum` candidates below `lam1` from the nearest down, then up to
      `refineNum` candidates at or above `lam1` from the nearest up. */
  function RefineOrder(lam1: real, lam1Min: real, refineNum: int, lv: seq<real>): (r: seq<real>)
    ensures |r| > 0 && r[0] == lam1Min
    ensures forall x :: x in r ==> x == lam1Min || x in lv
  {
    var c1 := Below(lv, lam1);
    var c2 := AtLeast(lv, lam1);
    var below := NearestFirst(c1, Clip(refineNum, |c1|));
    var above := c2[..Clip(refineNum, |c2|)];
    assert forall x :: x in below ==> x in c1;
    assert forall x :: x in above ==> x in c2;
    [lam1Min] + below + above
  }

  /** With `positive` and sorted patch values, both candidate lists are
      sorted, so the candidates visited are the `refineNum` nearest to `lam1`
      on each side: every skipped one below lies below every visited one
      below, and every skipped one above lies above every visited one above. */
  lemma RefineVisitsNearest(patchvals: seq<real>, lam1Min: real, lam1: real, refineNum: int)
    requires Ascending(patchvals)
    ensures var lv := LambdaCandidates(patchvals, true, lam1Min);
            var c1 := Below(lv, lam1);
            var c2 := AtLeast(lv, lam1);
            var k1 := Clip(refineNum, |c1|);
            var k2 := Clip(refineNum, |c2|);
            (forall i, j :: 0 <= i < |c1| - k1 <= j < |c1| ==> c1[i] <= c1[j] < lam1)
            && (forall i, j :: 0 <= i < k2 <= j < |c2| ==> lam1 <= c2[i] <= c2[j])
  {
    var lv := LambdaCandidates(patchvals, true, lam1Min);
    AtLeastAscending(patchvals, 0.0);
    AtLeastAscending(AtLeast(patchvals, 0.0), lam1Min);
    BelowAscending(lv, lam1);
    AtLeastAscending(lv, lam1);
    var c1 := Below(lv, lam1);
    var c2 := AtLeast(lv, lam1);
    assert forall j :: 0 <= j < |c1| ==> c1[j] in c1;
    assert forall j :: 0 <= j < |c2| ==> c2[j] in c2;
  }

  /** `obj.get` as a function value, the functor the scans call. */
  function Getter(obj: ObjLambda1): real -> Evaluation
    requires obj.Valid()
  {
    x => Get(obj, x)
  }

  /** `refine_minimum`. Without candidates it is `get(lam1)`; otherwise the
      first lowest-BIC evaluation along `RefineOrder`. */
  method RefineMinimum(obj: ObjLambda1, lam1: real, lam1Min: real, refineNum: int,
                       patchvals: seq<real>, positive: bool) returns (r: Evaluation)
    requires obj.Valid()
    ensures var lv := LambdaCandidates(patchvals, positive, lam1Min);
            |lv| == 0 ==> r == Get(obj, lam1)
    ensures var lv := LambdaCandidates(patchvals, positive, lam1Min);
            var evals := EvaluationsOf(Getter(obj), RefineOrder(lam1, lam1Min, refineNum, lv));
            |lv| > 0 ==> r == evals[FirstMinimumIndex(evals)]
  {
    var lambdavals := if positive then AtLeast(patchvals, 0.0) else AbsAll(patchvals);
    lambdavals := AtLeast(lambdavals, lam1Min);
    if |lambdavals| == 0 {
      r := Get(obj, lam1);
      return;
    }
    var get := Getter(obj);
    var best := get(lam1Min);
    assert EvaluationsOf(get, [lam1Min]) == [best];
    var candidates1 := Below(lambdavals, lam1);
    var below := NearestFirst(candidates1, Clip(refineNum, |candidates1|));
    var afterBelow := Scan(get, Some(best), [lam1Min], below);
    var candidates2 := AtLeast(lambdavals, lam1);
    var above := candidates2[..Clip(refineNum, |candidates2|)];
    var afterAbove := Scan(get, afterBelow, [lam1Min] + below, above);
    r := afterAbove.value;
    assert [lam1Min] + below + above == RefineOrder(lam1, lam1Min, refineNum, lambdavals);
  }

  /** What the refinement guarantees when there are candidates: the answer is
      `get` at its own `lambda1`, that `lambda1` is `lam1Min` or a candidate,
      and no visited penalty, `lam1Min` included, has a strictly smaller
      BIC. */
  lemma RefineMinimumMeaning(obj: ObjLambda1, lam1: real, lam1Min: real, refineNum: int, lv: seq<real>)
    requires obj.Valid()
    ensures var order := RefineOrder(lam1, lam1Min, refineNum, lv);
            var evals := EvaluationsOf(Getter(obj), order);
            var r := evals[FirstMinimumIndex(evals)];
            r == Get(obj, r.lambda1)
            && (r.lambda1 == lam1Min || r.lambda1 in lv)
            && (forall x :: x in order ==> !Less(Get(obj, x).bic, r.bic))
            && !Less(Get(obj, lam1Min).bic, r.bic)
  {
    var order := RefineOrder(lam1, lam1Min, refineNum, lv);
    FirstMinimumMeaning(Getter(obj), order);
    assert order[0] in order;
  }

  // ---------------------------------------------------------------------
  // cpp_optimize_lambda1
  // ---------------------------------------------------------------------

  /** The objective `cpp_optimize_lambda1` builds from its inputs: the
      forbidden values are the per-diagonal minima of `beta` under
      `positive`, and the given constant-diagonal values otherwise. */
  function ObjectiveFor(weight: seq<real>, phihat: seq<real>, beta: seq<real>, ncounts: seq<real>,
                        diagIdx: seq<int>, patchno: seq<int>, tol: real, positive: bool,
                        constantDiagValues: seq<real>, num: Numerics): (obj: ObjLambda1)
    requires |beta| > 0 && |weight| == |beta| && |phihat| == |beta| && |diagIdx| == |beta| && |patchno| == |beta|
    requires ValidPatchIds(patchno)
    requires forall i :: 0 <= i < |diagIdx| ==> diagIdx[i] >= 0
    ensures obj.Valid()
    ensures obj.minval <= obj.maxval
    ensures positive ==> |obj.forbiddenVals| > 0
  {
    var slots := PatchSlots(beta, patchno, |patchno|, IntMax(patchno) + 1);
    ObjLambda1(SeqMin(slots), SeqMax(slots), tol, num.log(Sum(ncounts)), patchno,
               if positive then Lambda1ECprime.MinimumDiagonalValues(beta, diagIdx) else constantDiagValues,
               beta, weight, phihat)
  }

  /** `lmin`: `max(lambda1_min, tol/2)`, raised under `positive` to the
      magnitudes of the first and the last forbidden values. */
  function SearchMinimum(obj: ObjLambda1, lambda1Min: real, positive: bool): (r: real)
    requires positive ==> |obj.forbiddenVals| > 0
    ensures r >= lambda1Min && r >= obj.tolVal / 2.0
    ensures positive ==> r >= Abs(obj.forbiddenVals[0]) && r >= Abs(obj.forbiddenVals[|obj.forbiddenVals| - 1])
  {
    var lmin := Max(lambda1Min, obj.tolVal / 2.0);
    if positive then
      var fv := obj.forbiddenVals;
      Max(lmin, Max(Abs(fv[0]), Abs(fv[|fv| - 1])))
    else lmin
  }

  /** `lmax`: the larger magnitude of the extreme patch values. */
  function SearchMaximum(obj: ObjLambda1): (r: real)
    ensures r >= Abs(obj.minval) && r >= Abs(obj.maxval)
    ensures r == Abs(obj.minval) || r == Abs(obj.maxval)
  {
    Max(Abs(obj.maxval), Abs(obj.minval))
  }

  /** `lambda1 = 10^x` at the point Brent returns over
      `[log10(lmin), log10(lmax)]`. */
  function BrentPoint(lmin: real, lmax: real, num: Numerics, brent: (real, real) -> real): real
  {
    num.pow10(brent(num.log10(lmin), num.log10(lmax)))
  }

  /** Some patch value yields a refinement candidate at or above `lmin`. */
  predicate HasCandidate(slots: seq<real>, positive: bool, lmin: real)
  {
    exists k :: 0 <= k < |slots| && (if positive then slots[k] >= 0.0 && slots[k] >= lmin else Abs(slots[k]) >= lmin)
  }

  /** The candidate list is empty exactly when no patch value qualifies,
      whatever the order of the patch values. */
  lemma CandidatesFromSlots(patchvals: seq<real>, slots: seq<real>, positive: bool, lmin: real)
    requires multiset(patchvals) == multiset(slots)
    ensures |LambdaCandidates(patchvals, positive, lmin)| == 0 <==> !HasCandidate(slots, positive, lmin)
  {
    var lv := LambdaCandidates(patchvals, positive, lmin);
    var base := if positive then AtLeast(patchvals, 0.0) else AbsAll(patchvals);
    if |lv| > 0 {
      assert lv[0] in lv;
      assert lv[0] in base;
      var i :| 0 <= i < |patchvals| && (if positive then patchvals[i] == lv[0] else Abs(patchvals[i]) == lv[0]);
      assert patchvals[i] in multiset(slots);
      var k :| 0 <= k < |slots| && slots[k] == patchvals[i];
    }
    if HasCandidate(slots, positive, lmin) {
      var k :| 0 <= k < |slots| && (if positive then slots[k] >= 0.0 && slots[k] >= lmin else Abs(slots[k]) >= lmin);
      assert slots[k] in multiset(patchvals);
      var i :| 0 <= i < |patchvals| && patchvals[i] == slots[k];
      var x := if positive then patchvals[i] else Abs(patchvals[i]);
      if !positive {
        assert base[i] == x;
      }
      assert x in base;
      assert x in lv;
    }
  }

  /** `cpp_optimize_lambda1`. `ncomponents` is `cl["no"]`, `brent` the
      minimiser and `constantDiagValues` the result of
      `get_constant_diagonal_values`. */
  method CppOptimizeLambda1(weight: seq<real>, phihat: seq<real>, beta: seq<real>, ncounts: seq<real>,
                            diagIdx: seq<int>, patchno: seq<int>, ncomponents: int,
                            tol: real, positive: bool, lambda1Min: real, refineNum: int,
                            constantDiagValues: seq<real>, num: Numerics, brent: (real, real) -> real)
    returns (r: Evaluation)
    requires |beta| > 0 && |weight| == |beta| && |phihat| == |beta| && |diagIdx| == |beta| && |patchno| == |beta|
    requires ValidPatchIds(patchno)
    requires forall i :: 0 <= i < |diagIdx| ==> diagIdx[i] >= 0
    ensures var slots := PatchSlots(beta, patchno, |patchno|, IntMax(patchno) + 1);
            ncomponents == 1 ==>
              |slots| > 0
              && r == Evaluation(0.0, MaxAbs(slots), Finite(WeightedSquaredError(weight, phihat, Zeros(|phihat|))), Some(0))
    ensures var obj := ObjectiveFor(weight, phihat, beta, ncounts, diagIdx, patchno, tol, positive, constantDiagValues, num);
            var lmin := SearchMinimum(obj, lambda1Min, positive);
            ncomponents != 1 && lmin > SearchMaximum(obj) ==> r == Get(obj, lmin)
    ensures var obj := ObjectiveFor(weight, phihat, beta, ncounts, diagIdx, patchno, tol, positive, constantDiagValues, num);
            var slots := PatchSlots(beta, patchno, |patchno|, IntMax(patchno) + 1);
            var lmin := SearchMinimum(obj, lambda1Min, positive);
            var lmax := SearchMaximum(obj);
            ncomponents != 1 && lmin <= lmax ==>
              (!HasCandidate(slots, positive, lmin) ==> r == Get(obj, BrentPoint(lmin, lmax, num, brent)))
              && (HasCandidate(slots, positive, lmin) ==>
                    r == Get(obj, r.lambda1) && r.lambda1 >= lmin && !Less(Get(obj, lmin).bic, r.bic))
  {
    var lmin := Max(lambda1Min, tol / 2.0);
    var patchvals := GetPatchValues(beta, patchno);
    ghost var slots := PatchSlots(beta, patchno, |patchno|, IntMax(patchno) + 1);
    if ncomponents == 1 {
      MaxAbsPermutation(patchvals, slots);
      r := Evaluation(0.0, MaxAbs(patchvals), Finite(WeightedSquaredError(weight, phihat, Zeros(|phihat|))), Some(0));
      return;
    }
    SortedEnds(patchvals, slots);
    var minval := patchvals[0];
    var maxval := patchvals[|patchvals| - 1];
    var lmax := Max(Abs(maxval), Abs(minval));
    var forbiddenVals: seq<real>;
    if positive {
      forbiddenVals := Lambda1ECprime.GetMinimumDiagonalValues(beta, diagIdx);
      lmin := Max(lmin, Max(Abs(forbiddenVals[0]), Abs(forbiddenVals[|forbiddenVals| - 1])));
    } else {
      forbiddenVals := constantDiagValues;
    }
    var obj := ObjLambda1(minval, maxval, tol, num.log(Sum(ncounts)), patchno, forbiddenVals, beta, weight, phihat);
    assert obj == ObjectiveFor(weight, phihat, beta, ncounts, diagIdx, patchno, tol, positive, constantDiagValues, num);
    assert lmin == SearchMinimum(obj, lambda1Min, positive);
    if lmin > lmax {
      r := Get(obj, lmin);
      return;
    }
    r := SearchAndRefine(obj, slots, patchvals, lmin, lmax, refineNum, positive, num, brent);
  }

  /** The search of `cpp_optimize_lambda1`: Brent over
      `[log10(lmin), log10(lmax)]`, then `refine_minimum` around its point. */
  method SearchAndRefine(obj: ObjLambda1, ghost slots: seq<real>, patchvals: seq<real>, lmin: real, lmax: real,
                         refineNum: int, positive: bool, num: Numerics, brent: (real, real) -> real)
    returns (r: Evaluation)
    requires obj.Valid() && multiset(patchvals) == multiset(slots)
    ensures !HasCandidate(slots, positive, lmin) ==> r == Get(obj, BrentPoint(lmin, lmax, num, brent))
    ensures HasCandidate(slots, positive, lmin) ==>
              r == Get(obj, r.lambda1) && r.lambda1 >= lmin && !Less(Get(obj, lmin).bic, r.bic)
  {
    var x := brent(num.log10(lmin), num.log10(lmax));
    var lam1 := num.pow10(x);
    r := RefineMinimum(obj, lam1, lmin, refineNum, patchvals, positive);
    CandidatesFromSlots(patchvals, slots, positive, lmin);
    var lv := LambdaCandidates(patchvals, positive, lmin);
    if |lv| > 0 {
      RefineMinimumMeaning(obj, lam1, lmin, refineNum, lv);
    }
  }
}
