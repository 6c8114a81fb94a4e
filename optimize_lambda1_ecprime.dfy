/** Joint choice of the sparsity penalty `lambda1` and of the offset
    `eCprime` (csnorm/src/optimize_lambda1_eCprime.cpp).

    The patch membership of the cells (`cl["membership"]` and `cl["no"]`
    from `boost_build_patch_graph_components`) is an input. Brent's minimiser
    is a function parameter: any point it returns is accepted. */
module Lambda1ECprime {
  import opened Basics
  import opened Util
  import opened Objective

  // ---------------------------------------------------------------------
  // get_minimum_diagonal_values
  // ---------------------------------------------------------------------

  /** Per counter-diagonal `d`, the minimum of `value` over its cells, started
      at `max(value)`. */
  function MinimumDiagonalValues(value: seq<real>, diagIdx: seq<int>): (r: seq<real>)
    requires |value| > 0 && |value| == |diagIdx|
    requires forall i :: 0 <= i < |diagIdx| ==> diagIdx[i] >= 0
    ensures |r| == IntMax(diagIdx) + 1
    ensures forall d :: 0 <= d < |r| ==> r[d] <= SeqMax(value)
    ensures forall d, i :: 0 <= d < |r| && 0 <= i < |value| && diagIdx[i] == d ==> r[d] <= value[i]
    ensures forall d :: 0 <= d < |r| ==>
              r[d] == SeqMax(value) || exists i :: 0 <= i < |value| && diagIdx[i] == d && r[d] == value[i]
  {
    var n := IntMax(diagIdx) + 1;
    var r := seq(n, d requires 0 <= d < n => GroupMin(value, diagIdx, d));
    MinimumDiagonalBounds(value, diagIdx, n);
    r
  }

  /** Every group minimum lies at or below every cell of its group and is
      either the starting value or one of those cells. */
  lemma MinimumDiagonalBounds(value: seq<real>, diagIdx: seq<int>, n: int)
    requires |value| > 0 && |value| == |diagIdx|
    ensures forall d, i :: 0 <= d < n && 0 <= i < |value| && diagIdx[i] == d ==>
              GroupMin(value, diagIdx, d) <= value[i]
    ensures forall d :: 0 <= d < n ==>
              var m := GroupMin(value, diagIdx, d);
              m == SeqMax(value) || exists i :: 0 <= i < |value| && diagIdx[i] == d && m == value[i]
  {
    forall d, i | 0 <= d < n && 0 <= i < |value| && diagIdx[i] == d
      ensures GroupMin(value, diagIdx, d) <= value[i]
    {
      MinWhereBelow(value, diagIdx, diagIdx, d, |value|, SeqMax(value), i);
    }
    forall d | 0 <= d < n
      ensures var m := GroupMin(value, diagIdx, d);
              m == SeqMax(value) || exists i :: 0 <= i < |value| && diagIdx[i] == d && m == value[i]
    {
      MinWhereCases(value, diagIdx, diagIdx, d, |value|, SeqMax(value));
    }
  }

  /** `get_minimum_diagonal_values`. */
  method GetMinimumDiagonalValues(value: seq<real>, diagIdx: seq<int>) returns (diagvals: seq<real>)
    requires |value| > 0 && |value| == |diagIdx|
    requires forall i :: 0 <= i < |diagIdx| ==> diagIdx[i] >= 0
    ensures diagvals == MinimumDiagonalValues(value, diagIdx)
  {
    var ndiags := IntMax(diagIdx) + 1;
    var maxValue := SeqMax(value);
    var vals := new real[ndiags](_ => maxValue);
    var i := 0;
    while i < |diagIdx|
      invariant 0 <= i <= |diagIdx|
      invariant forall d :: 0 <= d < ndiags ==> vals[d] == MinWhere(value, diagIdx, diagIdx, d, i, maxValue)
    {
      vals[diagIdx[i]] := Min(vals[diagIdx[i]], value[i]);
      i := i + 1;
    }
    diagvals := vals[..];
  }

  // ---------------------------------------------------------------------
  // The objective functor
  // ---------------------------------------------------------------------

  /** `obj_lambda1_eCprime`: the extreme patch values, the tolerance,
      `lsnc = log(sum(ncounts))`, whether the forbidden values constrain the
      offset, and the per-cell vectors. */
  datatype ObjLambda1ECprime = ObjLambda1ECprime(
    minval: real, maxval: real, tolVal: real, lsnc: real, constrained: bool,
    patchno: seq<int>, forbiddenVals: seq<real>,
    value: seq<real>, weight: seq<real>, valuehat: seq<real>)
  {
    predicate Valid()
    {
      |patchno| == |value| && |weight| == |value| && |valuehat| == |value|
    }
  }

  /** The offset chosen for a given `lambda1`: the midpoint of the patch
      values when they all fit in a band of half-width `lambda1 + tol/2`,
      otherwise the offset that puts the band's lower edge `tol` below the
      smallest patch value. */
  function ECprime(obj: ObjLambda1ECprime, lambda1: real): real
  {
    if obj.maxval - obj.minval < 2.0 * lambda1 + obj.tolVal then (obj.maxval + obj.minval) / 2.0
    else lambda1 + obj.minval - obj.tolVal
  }

  /** A forbidden value lies further than `lambda1 + tol` from the offset. */
  predicate ForbiddenOffset(obj: ObjLambda1ECprime, lambda1: real)
  {
    exists i :: 0 <= i < |obj.forbiddenVals| && Abs(ECprime(obj, lambda1) - obj.forbiddenVals[i]) > lambda1 + obj.tolVal
  }

  /** `beta + c`. */
  function Offset(v: seq<real>, c: real): (r: seq<real>)
    ensures |r| == |v| && forall i :: 0 <= i < |v| ==> r[i] == v[i] + c
  {
    seq(|v|, i requires 0 <= i < |v| => v[i] + c)
  }

  /** `obj_lambda1_eCprime::get`. */
  function Get(obj: ObjLambda1ECprime, lambda1: real): (r: Evaluation)
    requires obj.Valid()
    ensures r.lambda1 == lambda1
    ensures r.dof.None? <==> obj.constrained && ForbiddenOffset(obj, lambda1)
    ensures r.dof.None? <==> r.bic.Largest?
    ensures r.dof.None? ==> r.eCprime == 0.0
    ensures r.dof.Some? ==> r.eCprime == ECprime(obj, lambda1) && r.dof.value <= |obj.patchno|
  {
    var eCprime := ECprime(obj, lambda1);
    if obj.constrained && ForbiddenOffset(obj, lambda1) then
      Evaluation(0.0, lambda1, Largest, None)
    else
      var soft := SoftThresholded(obj.value, eCprime, lambda1);
      var dof := Dof(soft, obj.patchno, obj.tolVal);
      var bic := WeightedSquaredError(obj.weight, obj.valuehat, Offset(soft, eCprime)) + obj.lsnc * dof as real;
      Evaluation(eCprime, lambda1, Finite(bic), Some(dof))
  }

  /** `operator()`: the BIC at `lambda1 = 10^x`, the function Brent minimises. */
  function Bic(obj: ObjLambda1ECprime, num: Numerics, x: real): (r: Score)
    requires obj.Valid()
    ensures r.Largest? <==> obj.constrained && ForbiddenOffset(obj, num.pow10(x))
  {
    Get(obj, num.pow10(x)).bic
  }

  /** An unconstrained evaluation's BIC is at least its dof penalty, and the
      dof never exceeds the number of patches. */
  lemma GetPenaltyBounds(obj: ObjLambda1ECprime, lambda1: real, npatches: nat)
    requires obj.Valid()
    requires forall i :: 0 <= i < |obj.weight| ==> obj.weight[i] >= 0.0
    requires forall i :: 0 <= i < |obj.patchno| ==> 0 <= obj.patchno[i] < npatches
    ensures var r := Get(obj, lambda1);
            r.dof.Some? ==> r.dof.value <= npatches && r.bic.value >= obj.lsnc * r.dof.value as real
  {
    var r := Get(obj, lambda1);
    if r.dof.Some? {
      var eCprime := ECprime(obj, lambda1);
      var soft := SoftThresholded(obj.value, eCprime, lambda1);
      DofAtMostPatchCount(soft, obj.patchno, obj.tolVal, npatches);
      WeightedSquaredErrorNonNegative(obj.weight, obj.valuehat, Offset(soft, eCprime));
    }
  }

  /** When the patch values span less than `2*lambda1 + tol`, the offset is
      their midpoint and no patch survives the threshold: dof is 0. */
  lemma NarrowRangeHasNoDof(obj: ObjLambda1ECprime, lambda1: real)
    requires obj.Valid() && lambda1 >= 0.0 && obj.tolVal >= 0.0
    requires forall i :: 0 <= i < |obj.value| ==> obj.minval <= obj.value[i] <= obj.maxval
    requires obj.maxval - obj.minval < 2.0 * lambda1 + obj.tolVal
    ensures Get(obj, lambda1).dof.Some? ==> Get(obj, lambda1).dof == Some(0)
  {
    var c := ECprime(obj, lambda1);
    if !(obj.constrained && ForbiddenOffset(obj, lambda1)) {
      var soft := SoftThresholded(obj.value, c, lambda1);
      forall i | 0 <= i < |soft| ensures Abs(soft[i]) <= obj.tolVal / 2.0 {
        var v := obj.value[i];
        assert Abs(v - c) < lambda1 + obj.tolVal / 2.0;
      }
      assert Dof(soft, obj.patchno, obj.tolVal) == 0;
      assert Get(obj, lambda1).dof == Some(Dof(soft, obj.patchno, obj.tolVal));
    }
  }

  /** Otherwise the smallest patch value is thresholded to 0 (for
      `lambda1 >= tol/2`) while the largest keeps a magnitude of at least
      `2*tol`, so it survives whenever `tol > 0`. */
  lemma WideRangeExtremes(obj: ObjLambda1ECprime, lambda1: real)
    requires lambda1 >= obj.tolVal / 2.0 && obj.tolVal >= 0.0
    requires obj.maxval - obj.minval >= 2.0 * lambda1 + obj.tolVal
    ensures Soft(obj.minval, ECprime(obj, lambda1), lambda1) == 0.0
    ensures Soft(obj.maxval, ECprime(obj, lambda1), lambda1) >= 2.0 * obj.tolVal
  {
  }

  // ---------------------------------------------------------------------
  // refine_minimum
  // ---------------------------------------------------------------------

  /** The candidate `lambda1` a patch value `v` yields against the base `b`. */
  function Candidate(v: real, base: real, tol: real): real
  {
    (v - base + tol) / 2.0
  }

  /** `(patchvals - patchvals(0) + tol)/2`. */
  function LambdaValues(patchvals: seq<real>, tol: real): (r: seq<real>)
    requires |patchvals| > 0
    ensures |r| == |patchvals|
    ensures forall i :: 0 <= i < |r| ==> r[i] == Candidate(patchvals[i], patchvals[0], tol)
  {
    seq(|patchvals|, i requires 0 <= i < |patchvals| => Candidate(patchvals[i], patchvals[0], tol))
  }

  /** Sorted patch values give sorted candidates. */
  lemma LambdaValuesAscending(patchvals: seq<real>, tol: real)
    requires |patchvals| > 0 && Ascending(patchvals)
    ensures Ascending(LambdaValues(patchvals, tol))
  {
  }

  /** `obj.get` as a function value, the functor the scans call. */
  function Getter(obj: ObjLambda1ECprime): real -> Evaluation
    requires obj.Valid()
  {
    x => Get(obj, x)
  }

  /** `refine_minimum`: the first lowest-BIC evaluation among the candidates
      in `[lam1Min, lam1Max]`, or `None` when there are none. */
  method RefineMinimum(obj: ObjLambda1ECprime, lam1Min: real, lam1Max: real, patchvals: seq<real>, tol: real)
    returns (best: Option<Evaluation>)
    requires obj.Valid() && |patchvals| > 0
    ensures var candidates := Within(LambdaValues(patchvals, tol), lam1Min, lam1Max);
            var evals := EvaluationsOf(Getter(obj), candidates);
            (best.None? <==> |candidates| == 0)
            && (best.Some? ==> best.value == evals[FirstMinimumIndex(evals)])
  {
    var lambdavals := LambdaValues(patchvals, tol);
    var candidates := Within(lambdavals, lam1Min, lam1Max);
    best := Scan(Getter(obj), None, [], candidates);
    assert [] + candidates == candidates;
  }

  /** The answer of `refine_minimum` is `get` at one of the candidates in
      `[lam1Min, lam1Max]`, and no candidate has a strictly smaller BIC. */
  lemma RefineMinimumMeaning(obj: ObjLambda1ECprime, lam1Min: real, lam1Max: real, patchvals: seq<real>, tol: real)
    requires obj.Valid() && |patchvals| > 0
    ensures var candidates := Within(LambdaValues(patchvals, tol), lam1Min, lam1Max);
            var evals := EvaluationsOf(Getter(obj), candidates);
            |candidates| > 0 ==>
              var best := evals[FirstMinimumIndex(evals)];
              best == Get(obj, best.lambda1) && best.lambda1 in candidates
              && forall x :: x in candidates ==> !Less(Get(obj, x).bic, best.bic)
  {
    var candidates := Within(LambdaValues(patchvals, tol), lam1Min, lam1Max);
    if |candidates| > 0 {
      FirstMinimumMeaning(Getter(obj), candidates);
      var evals := EvaluationsOf(Getter(obj), candidates);
      assert evals[FirstMinimumIndex(evals)].lambda1 == candidates[FirstMinimumIndex(evals)];
    }
  }

  /** With sorted patch values the candidates ascend, so the answer of
      `refine_minimum` is the first of the lowest: every smaller candidate
      has a strictly larger BIC. */
  lemma RefineMinimumFirst(obj: ObjLambda1ECprime, lam1Min: real, lam1Max: real, patchvals: seq<real>, tol: real)
    requires obj.Valid() && |patchvals| > 0 && Ascending(patchvals)
    ensures var candidates := Within(LambdaValues(patchvals, tol), lam1Min, lam1Max);
            var evals := EvaluationsOf(Getter(obj), candidates);
            |candidates| > 0 ==>
              var best := evals[FirstMinimumIndex(evals)];
              forall x :: x in candidates && x < best.lambda1 ==> Less(best.bic, Get(obj, x).bic)
  {
    var candidates := Within(LambdaValues(patchvals, tol), lam1Min, lam1Max);
    if |candidates| > 0 {
      var evals := EvaluationsOf(Getter(obj), candidates);
      var j := FirstMinimumIndex(evals);
      assert evals[j].lambda1 == candidates[j];
      LambdaValuesAscending(patchvals, tol);
      WithinAscending(LambdaValues(patchvals, tol), lam1Min, lam1Max);
      FirstMinimumAscending(Getter(obj), candidates);
    }
  }

  // ---------------------------------------------------------------------
  // cpp_optimize_lambda1_eCprime
  // ---------------------------------------------------------------------

  /** Some patch value yields a candidate inside `[lo, hi]`. */
  predicate HasCandidate(vals: seq<real>, base: real, tol: real, lo: real, hi: real)
  {
    exists k :: 0 <= k < |vals| && lo <= Candidate(vals[k], base, tol) <= hi
  }

  /** The objective `cpp_optimize_lambda1_eCprime` builds from its inputs. */
  function ObjectiveFor(weight: seq<real>, phihat: seq<real>, beta: seq<real>, ncounts: seq<real>,
                        diagIdx: seq<int>, patchno: seq<int>, tol: real, constrained: bool, num: Numerics): (obj: ObjLambda1ECprime)
    requires |beta| > 0 && |weight| == |beta| && |phihat| == |beta| && |diagIdx| == |beta| && |patchno| == |beta|
    requires ValidPatchIds(patchno)
    requires forall i :: 0 <= i < |diagIdx| ==> diagIdx[i] >= 0
    ensures obj.Valid()
    ensures obj.minval <= obj.maxval
    ensures constrained ==> |obj.forbiddenVals| > 0
  {
    var slots := PatchSlots(beta, patchno, |patchno|, IntMax(patchno) + 1);
    ObjLambda1ECprime(SeqMin(slots), SeqMax(slots), tol, num.log(Sum(ncounts)), constrained, patchno,
                      if constrained then MinimumDiagonalValues(beta, diagIdx) else [],
                      beta, weight, phihat)
  }

  /** `lambda1_min`, raised under the constraint so that the band around the
      offset can reach the largest forbidden value. */
  function RaisedMinimum(obj: ObjLambda1ECprime, lambda1Min: real): (r: real)
    requires obj.constrained ==> |obj.forbiddenVals| > 0
    ensures r >= lambda1Min
    ensures obj.constrained ==> r >= (SeqMax(obj.forbiddenVals) - obj.minval) / 2.0 + obj.tolVal
  {
    if obj.constrained then Max(lambda1Min, (SeqMax(obj.forbiddenVals) - obj.minval) / 2.0 + obj.tolVal)
    else lambda1Min
  }

  /** `lambda1 = 10^x` at the point Brent returns over
      `[log10(max(lmin, tol/2)), log10(maxval - minval)]`. */
  function BrentPoint(obj: ObjLambda1ECprime, lmin: real, num: Numerics, brent: (real, real) -> real): real
  {
    num.pow10(brent(num.log10(Max(lmin, obj.tolVal / 2.0)), num.log10(obj.maxval - obj.minval)))
  }

  /** The refinement window around `lam1`: `percent_closest` percent either
      side, never below `lmin`. */
  function WindowLow(lam1: real, percentClosest: real, lmin: real): (lo: real)
    ensures lo >= lmin
  {
    Max(lam1 * (1.0 - percentClosest / 100.0), lmin)
  }

  function WindowHigh(lam1: real, percentClosest: real): (hi: real)
    ensures percentClosest >= 0.0 && lam1 >= 0.0 ==> hi >= lam1
  {
    lam1 * (1.0 + percentClosest / 100.0)
  }

  /** What the refinement step promises about a non-empty answer `r`, given
      the window `[lo, hi]` and the unsorted patch values `slots`: `r` is
      `get` at the candidate of some patch value, inside the window; no
      candidate in the window has a strictly smaller BIC; and every smaller
      candidate in the window has a strictly larger one, so `r` is the first
      lowest in the ascending scan. */
  predicate RefinedWithin(obj: ObjLambda1ECprime, slots: seq<real>, lo: real, hi: real, r: Evaluation)
    requires obj.Valid()
  {
    r == Get(obj, r.lambda1) && lo <= r.lambda1 <= hi
    && (exists k :: 0 <= k < |slots| && r.lambda1 == Candidate(slots[k], obj.minval, obj.tolVal))
    && (forall k :: 0 <= k < |slots| && lo <= Candidate(slots[k], obj.minval, obj.tolVal) <= hi ==>
          !Less(Get(obj, Candidate(slots[k], obj.minval, obj.tolVal)).bic, r.bic))
    && (forall k :: 0 <= k < |slots| && lo <= Candidate(slots[k], obj.minval, obj.tolVal) < r.lambda1 ==>
          Less(r.bic, Get(obj, Candidate(slots[k], obj.minval, obj.tolVal)).bic))
  }

  /** `cpp_optimize_lambda1_eCprime`. `ncomponents` is `cl["no"]`, `brent` the
      minimiser. `None` stands for the failure of reading `lambda1` from the
      empty vector `refine_minimum` returns when no candidate lies in its
      window. */
  method CppOptimizeLambda1ECprime(weight: seq<real>, phihat: seq<real>, beta: seq<real>, ncounts: seq<real>,
                                   diagIdx: seq<int>, patchno: seq<int>, ncomponents: int,
                                   tol: real, constrained: bool, lambda1Min: real, percentClosest: real,
                                   num: Numerics, brent: (real, real) -> real)
    returns (r: Option<Evaluation>)
    requires |beta| > 0 && |weight| == |beta| && |phihat| == |beta| && |diagIdx| == |beta| && |patchno| == |beta|
    requires ValidPatchIds(patchno)
    requires forall i :: 0 <= i < |diagIdx| ==> diagIdx[i] >= 0
    ensures var slots := PatchSlots(beta, patchno, |patchno|, IntMax(patchno) + 1);
            ncomponents == 1 ==>
              r == Some(Evaluation(SeqMin(slots), lambda1Min,
                                   Finite(WeightedSquaredError(weight, phihat, Offset(beta, SeqMin(slots)))), Some(0)))
    ensures var obj := ObjectiveFor(weight, phihat, beta, ncounts, diagIdx, patchno, tol, constrained, num);
            var lmin := RaisedMinimum(obj, lambda1Min);
            ncomponents != 1 && obj.maxval - obj.minval <= 2.0 * lmin ==> r == Some(Get(obj, lmin))
    ensures var obj := ObjectiveFor(weight, phihat, beta, ncounts, diagIdx, patchno, tol, constrained, num);
            var slots := PatchSlots(beta, patchno, |patchno|, IntMax(patchno) + 1);
            var lmin := RaisedMinimum(obj, lambda1Min);
            var lam1 := BrentPoint(obj, lmin, num, brent);
            var lo := WindowLow(lam1, percentClosest, lmin);
            var hi := WindowHigh(lam1, percentClosest);
            ncomponents != 1 && obj.maxval - obj.minval > 2.0 * lmin ==>
              (r.None? <==> !HasCandidate(slots, obj.minval, tol, lo, hi))
              && (r.Some? ==> RefinedWithin(obj, slots, lo, hi, r.value))
  {
    var patchvals := GetPatchValues(beta, patchno);
    ghost var slots := PatchSlots(beta, patchno, |patchno|, IntMax(patchno) + 1);
    SortedEnds(patchvals, slots);
    if ncomponents == 1 {
      r := Some(Evaluation(patchvals[0], lambda1Min,
                           Finite(WeightedSquaredError(weight, phihat, Offset(beta, patchvals[0]))), Some(0)));
      return;
    }
    var minval := patchvals[0];
    var maxval := patchvals[|patchvals| - 1];
    var forbiddenVals: seq<real> := [];
    var lmin := lambda1Min;
    if constrained {
      forbiddenVals := GetMinimumDiagonalValues(beta, diagIdx);
      lmin := Max(lmin, (SeqMax(forbiddenVals) - minval) / 2.0 + tol);
    }
    var obj := ObjLambda1ECprime(minval, maxval, tol, num.log(Sum(ncounts)), constrained, patchno,
                                 forbiddenVals, beta, weight, phihat);
    assert obj == ObjectiveFor(weight, phihat, beta, ncounts, diagIdx, patchno, tol, constrained, num);
    assert lmin == RaisedMinimum(obj, lambda1Min);
    if maxval - minval <= 2.0 * lmin {
      r := Some(Get(obj, lmin));
      return;
    }
    r := RefineAroundBrent(obj, slots, patchvals, lmin, percentClosest, num, brent);
  }

  /** The search of `cpp_optimize_lambda1_eCprime`: Brent over
      `[log10(max(lmin, tol/2)), log10(maxval - minval)]`, then the
      refinement within `percent_closest` percent of its point, then `get` at
      the refined `lambda1`. */
  method RefineAroundBrent(obj: ObjLambda1ECprime, ghost slots: seq<real>, patchvals: seq<real>, lmin: real,
                           percentClosest: real, num: Numerics, brent: (real, real) -> real)
    returns (r: Option<Evaluation>)
    requires obj.Valid() && |patchvals| > 0 && Ascending(patchvals)
    requires multiset(patchvals) == multiset(slots) && obj.minval == patchvals[0]
    ensures var lam1 := BrentPoint(obj, lmin, num, brent);
            var lo := WindowLow(lam1, percentClosest, lmin);
            var hi := WindowHigh(lam1, percentClosest);
            (r.None? <==> !HasCandidate(slots, obj.minval, obj.tolVal, lo, hi))
            && (r.Some? ==> RefinedWithin(obj, slots, lo, hi, r.value))
  {
    var tol := obj.tolVal;
    var x := brent(num.log10(Max(lmin, tol / 2.0)), num.log10(obj.maxval - obj.minval));
    var lam1 := num.pow10(x);
    assert lam1 == BrentPoint(obj, lmin, num, brent);
    var lo := WindowLow(lam1, percentClosest, lmin);
    var hi := WindowHigh(lam1, percentClosest);
    r := RefineInWindow(obj, slots, patchvals, lo, hi);
  }

  /** `refine_minimum` over `[lo, hi]`, then `get` at the refined `lambda1`. */
  method RefineInWindow(obj: ObjLambda1ECprime, ghost slots: seq<real>, patchvals: seq<real>, lo: real, hi: real)
    returns (r: Option<Evaluation>)
    requires obj.Valid() && |patchvals| > 0 && Ascending(patchvals)
    requires multiset(patchvals) == multiset(slots) && obj.minval == patchvals[0]
    ensures r.None? <==> !HasCandidate(slots, obj.minval, obj.tolVal, lo, hi)
    ensures r.Some? ==> RefinedWithin(obj, slots, lo, hi, r.value)
  {
    var retval := RefineMinimum(obj, lo, hi, patchvals, obj.tolVal);
    RefineMinimumMeaning(obj, lo, hi, patchvals, obj.tolVal);
    RefineMinimumFirst(obj, lo, hi, patchvals, obj.tolVal);
    CandidatesFromSlots(patchvals, slots, obj.tolVal, lo, hi);
    if retval.None? {
      r := None;
      return;
    }
    var e := Get(obj, retval.value.lambda1);
    r := Some(e);
    RefinedFromCandidates(obj, slots, patchvals, lo, hi, e);
  }

  /** An evaluation in the window that no refinement candidate beats meets
      `RefinedWithin`. */
  lemma RefinedFromCandidates(obj: ObjLambda1ECprime, slots: seq<real>, patchvals: seq<real>, lo: real, hi: real, e: Evaluation)
    requires obj.Valid() && |patchvals| > 0 && Ascending(patchvals)
    requires multiset(patchvals) == multiset(slots) && obj.minval == patchvals[0]
    requires e == Get(obj, e.lambda1) && e.lambda1 in Within(LambdaValues(patchvals, obj.tolVal), lo, hi)
    requires forall x :: x in Within(LambdaValues(patchvals, obj.tolVal), lo, hi) ==> !Less(Get(obj, x).bic, e.bic)
    requires forall x :: x in Within(LambdaValues(patchvals, obj.tolVal), lo, hi) && x < e.lambda1 ==>
               Less(e.bic, Get(obj, x).bic)
    ensures RefinedWithin(obj, slots, lo, hi, e)
  {
    CandidatesFromSlots(patchvals, slots, obj.tolVal, lo, hi);
  }

  /** The refinement candidates depend only on the multiset of patch values,
      with the smallest as base. */
  lemma CandidatesFromSlots(patchvals: seq<real>, slots: seq<real>, tol: real, lo: real, hi: real)
    requires |patchvals| > 0 && Ascending(patchvals) && multiset(patchvals) == multiset(slots)
    ensures |slots| > 0 && patchvals[0] == SeqMin(slots)
    ensures forall k :: 0 <= k < |slots| && lo <= Candidate(slots[k], SeqMin(slots), tol) <= hi ==>
              Candidate(slots[k], SeqMin(slots), tol) in Within(LambdaValues(patchvals, tol), lo, hi)
    ensures |Within(LambdaValues(patchvals, tol), lo, hi)| == 0 <==> !HasCandidate(slots, SeqMin(slots), tol, lo, hi)
    ensures forall x :: x in LambdaValues(patchvals, tol) ==>
              exists k :: 0 <= k < |slots| && x == Candidate(slots[k], SeqMin(slots), tol)
  {
    SortedEnds(patchvals, slots);
    var base := patchvals[0];
    var lv := LambdaValues(patchvals, tol);
    var w := Within(lv, lo, hi);
    forall k | 0 <= k < |slots| && lo <= Candidate(slots[k], base, tol) <= hi
      ensures Candidate(slots[k], base, tol) in w
    {
      assert slots[k] in multiset(patchvals);
      var i :| 0 <= i < |patchvals| && patchvals[i] == slots[k];
      assert lv[i] == Candidate(slots[k], base, tol);
    }
    forall x | x in lv ensures exists k :: 0 <= k < |slots| && x == Candidate(slots[k], base, tol) {
      var i :| 0 <= i < |lv| && lv[i] == x;
      assert patchvals[i] in multiset(slots);
      var k :| 0 <= k < |slots| && slots[k] == patchvals[i];
    }
    if |w| > 0 {
      assert w[0] in w;
      var i :| 0 <= i < |lv| && lv[i] == w[0];
      assert patchvals[i] in multiset(slots);
      var k :| 0 <= k < |slots| && slots[k] == patchvals[i];
      assert lo <= Candidate(slots[k], base, tol) <= hi;
    }
  }
}
