/** Vector helpers of csnorm/src/util.cpp: the soft-threshold map, the sorted
    per-patch values, the clamped reference-signal combination and the
    per-counter-diagonal "forbidden" minima. */
module Util {
  import opened Basics

  // ---------------------------------------------------------------------
  // Soft-thresholding
  // ---------------------------------------------------------------------

  /** Soft-threshold of one value `v` at offset `c` and level `l`. */
  function Soft(v: real, c: real, l: real): (r: real)
    ensures l >= 0.0 ==> (r == 0.0 || (r > 0.0 <==> v - c > 0.0))
    ensures l >= 0.0 ==> Abs(r) <= Abs(v - c)
    ensures l >= 0.0 ==> (r == 0.0 <==> Abs(v - c) <= l)
    ensures l >= 0.0 && r != 0.0 ==> Abs(v - c) == Abs(r) + l
  {
    var val := v - c;
    if val > 0.0 then Max(0.0, val - l) else Min(0.0, val + l)
  }

  /** The element-wise soft-threshold of a whole vector. */
  function SoftThresholded(beta: seq<real>, c: real, l: real): (r: seq<real>)
    ensures |r| == |beta|
    ensures forall i :: 0 <= i < |beta| ==> r[i] == Soft(beta[i], c, l)
  {
    seq(|beta|, i requires 0 <= i < |beta| => Soft(beta[i], c, l))
  }

  /** `soft_threshold`: the loop that pushes one thresholded value per input. */
  method SoftThreshold(beta: seq<real>, eCprime: real, lam1: real) returns (phi: seq<real>)
    ensures phi == SoftThresholded(beta, eCprime, lam1)
  {
    phi := [];
    var i := 0;
    while i < |beta|
      invariant 0 <= i <= |beta|
      invariant phi == SoftThresholded(beta[..i], eCprime, lam1)
    {
      var val := beta[i] - eCprime;
      phi := phi + [if val > 0.0 then Max(0.0, val - lam1) else Min(0.0, val + lam1)];
      i := i + 1;
    }
    assert beta[..i] == beta;
  }

  /** Thresholding at offset 0 and level 0 changes nothing. */
  lemma SoftIdentity(v: real)
    ensures Soft(v, 0.0, 0.0) == v
  {
  }

  /** Re-thresholding an output at `(0, 0)` returns it unchanged. */
  lemma SoftThresholdIdempotent(beta: seq<real>, c: real, l: real)
    ensures SoftThresholded(SoftThresholded(beta, c, l), 0.0, 0.0) == SoftThresholded(beta, c, l)
  {
    var once := SoftThresholded(beta, c, l);
    var twice := SoftThresholded(once, 0.0, 0.0);
    forall i | 0 <= i < |once| ensures twice[i] == once[i] {
      SoftIdentity(once[i]);
    }
  }

  // ---------------------------------------------------------------------
  // Sorting (std::sort on a vector, in place)
  // ---------------------------------------------------------------------

  /** In-place ascending sort that keeps the multiset of values. */
  method SortInPlace(a: array<real>)
    modifies a
    ensures Ascending(a[..])
    ensures multiset(a[..]) == multiset(old(a[..]))
  {
    var i := 0;
    while i < a.Length
      invariant 0 <= i <= a.Length
      invariant forall p, q :: 0 <= p < q < i ==> a[p] <= a[q]
      invariant multiset(a[..]) == multiset(old(a[..]))
    {
      var j := i;
      while j > 0 && a[j - 1] > a[j]
        invariant 0 <= j <= i
        invariant forall p, q :: 0 <= p < q <= i && p != j && q != j ==> a[p] <= a[q]
        invariant forall q :: j < q <= i ==> a[j] < a[q]
        invariant multiset(a[..]) == multiset(old(a[..]))
      {
        a[j - 1], a[j] := a[j], a[j - 1];
        j := j - 1;
      }
      i := i + 1;
    }
  }

  // ---------------------------------------------------------------------
  // get_patch_values
  // ---------------------------------------------------------------------

  predicate ValidPatchIds(patchno: seq<int>)
  {
    forall i :: 0 <= i < |patchno| ==> patchno[i] >= 0
  }

  /** The per-patch slots after the first `n` writes
      `unique_values(patchno(i)) = value(i)`, before sorting. */
  function PatchSlots(value: seq<real>, patchno: seq<int>, n: nat, npatches: nat): (r: seq<real>)
    requires n <= |value| && n <= |patchno|
    requires forall i :: 0 <= i < n ==> 0 <= patchno[i] < npatches
    ensures |r| == npatches
  {
    if n == 0 then seq(npatches, _ => 0.0)
    else PatchSlots(value, patchno, n - 1, npatches)[patchno[n - 1] := value[n - 1]]
  }

  /** Slot `k` holds the value of the LAST cell with patch id `k`, or 0 when
      no cell carries that id. */
  lemma {:induction false} PatchSlotsMeaning(value: seq<real>, patchno: seq<int>, n: nat, npatches: nat, k: nat)
    requires n <= |value| && n <= |patchno|
    requires forall i :: 0 <= i < n ==> 0 <= patchno[i] < npatches
    requires k < npatches
    ensures (forall i :: 0 <= i < n ==> patchno[i] != k) ==> PatchSlots(value, patchno, n, npatches)[k] == 0.0
    ensures (exists i :: 0 <= i < n && patchno[i] == k) ==>
              exists i :: 0 <= i < n && patchno[i] == k && PatchSlots(value, patchno, n, npatches)[k] == value[i]
                          && forall j :: i < j < n ==> patchno[j] != k
  {
    if n > 0 {
      var slots := PatchSlots(value, patchno, n, npatches);
      var prev := PatchSlots(value, patchno, n - 1, npatches);
      PatchSlotsMeaning(value, patchno, n - 1, npatches, k);
      if patchno[n - 1] == k {
        assert slots[k] == value[n - 1];
      } else {
        assert slots[k] == prev[k];
        if exists i :: 0 <= i < n && patchno[i] == k {
          var i :| 0 <= i < n && patchno[i] == k;
          assert i < n - 1;
          var w :| 0 <= w < n - 1 && patchno[w] == k && prev[k] == value[w]
                   && forall j :: w < j < n - 1 ==> patchno[j] != k;
          assert forall j :: w < j < n ==> patchno[j] != k;
        }
      }
    }
  }

  /** `get_patch_values`: one slot per patch id `0 .. max(patchno)`, filled
      with the patch's value, then sorted ascending. */
  method GetPatchValues(value: seq<real>, patchno: seq<int>) returns (r: seq<real>)
    requires |patchno| > 0 && |value| == |patchno|
    requires ValidPatchIds(patchno)
    ensures |r| == IntMax(patchno) + 1
    ensures Ascending(r)
    ensures multiset(r) == multiset(PatchSlots(value, patchno, |patchno|, IntMax(patchno) + 1))
  {
    var npatches := IntMax(patchno) + 1;
    var uniqueValues := new real[npatches](_ => 0.0);
    var i := 0;
    while i < |patchno|
      invariant 0 <= i <= |patchno|
      invariant uniqueValues[..] == PatchSlots(value, patchno, i, npatches)
    {
      uniqueValues[patchno[i]] := value[i];
      i := i + 1;
    }
    SortInPlace(uniqueValues);
    r := uniqueValues[..];
  }

  // ---------------------------------------------------------------------
  // compute_phi_ref
  // ---------------------------------------------------------------------

  /** A variance that may be infinite (`INFINITY` in the source). */
  datatype Variance = FiniteVariance(v: real) | InfiniteVariance

  predicate PositiveVariance(x: Variance)
  {
    x.FiniteVariance? ==> x.v > 0.0
  }

  /** Inverse variance; `1/INFINITY == 0`. */
  function InversePrecision(x: Variance): (r: real)
    requires PositiveVariance(x)
    ensures r >= 0.0 && (r > 0.0 <==> x.FiniteVariance?)
  {
    if x.InfiniteVariance? then 0.0 else 1.0 / x.v
  }

  /** The reference signal of one cell before the clamp at zero. */
  function PhiRefRaw(phihat: real, varHat: Variance, phihatRef: real, varRef: Variance, delta: real): real
    requires PositiveVariance(varHat) && PositiveVariance(varRef)
  {
    if varRef.InfiniteVariance? && varHat.InfiniteVariance? then (phihatRef + phihat) / 2.0
    else
      var pRef := InversePrecision(varRef);
      var pHat := InversePrecision(varHat);
      (phihatRef * pRef + (phihat - delta) * pHat) / (pRef + pHat)
  }

  /** A weighted mean with non-negative weights lies between its two terms. */
  lemma WeightedMeanBetween(a: real, p: real, b: real, q: real)
    requires p >= 0.0 && q >= 0.0 && p + q > 0.0
    ensures Min(a, b) <= (a * p + b * q) / (p + q) <= Max(a, b)
  {
    var lo, hi := Min(a, b), Max(a, b);
    assert a * p >= lo * p && b * q >= lo * q;
    assert a * p <= hi * p && b * q <= hi * q;
    assert lo * (p + q) <= a * p + b * q <= hi * (p + q);
  }

  /** The raw reference signal is the plain average of `phihat_ref` and
      `phihat` when both variances are infinite; otherwise an
      inverse-variance-weighted mean of `phihat_ref` and `phihat - delta`,
      which reduces to one of them when the other's variance is infinite. */
  lemma PhiRefRawMeaning(phihat: real, varHat: Variance, phihatRef: real, varRef: Variance, delta: real)
    requires PositiveVariance(varHat) && PositiveVariance(varRef)
    ensures var raw := PhiRefRaw(phihat, varHat, phihatRef, varRef, delta);
            && (varRef.InfiniteVariance? && varHat.InfiniteVariance? ==>
                  Min(phihatRef, phihat) <= raw <= Max(phihatRef, phihat))
            && (!(varRef.InfiniteVariance? && varHat.InfiniteVariance?) ==>
                  Min(phihatRef, phihat - delta) <= raw <= Max(phihatRef, phihat - delta))
            && (varRef.InfiniteVariance? && varHat.FiniteVariance? ==> raw == phihat - delta)
            && (varRef.FiniteVariance? && varHat.InfiniteVariance? ==> raw == phihatRef)
  {
    var pRef := InversePrecision(varRef);
    var pHat := InversePrecision(varHat);
    if !(varRef.InfiniteVariance? && varHat.InfiniteVariance?) {
      var raw := (phihatRef * pRef + (phihat - delta) * pHat) / (pRef + pHat);
      assert PhiRefRaw(phihat, varHat, phihatRef, varRef, delta) == raw;
      WeightedMeanBetween(phihatRef, pRef, phihat - delta, pHat);
      if varRef.InfiniteVariance? {
        assert pRef == 0.0 && pHat > 0.0;
        assert raw == (phihat - delta) * pHat / pHat;
      }
      if varHat.InfiniteVariance? {
        assert pHat == 0.0 && pRef > 0.0;
        assert raw == phihatRef * pRef / pRef;
      }
    }
  }

  /** `compute_phi_ref`: one clamped reference value per cell. */
  method ComputePhiRef(phihat: seq<real>, phihatVar: seq<Variance>, phihatRef: seq<real>,
                       phihatVarRef: seq<Variance>, delta: seq<real>) returns (r: seq<real>)
    requires |phihat| == |phihatVar| == |phihatRef| == |phihatVarRef| == |delta|
    requires forall i :: 0 <= i < |delta| ==> PositiveVariance(phihatVar[i]) && PositiveVariance(phihatVarRef[i])
    ensures |r| == |delta|
    ensures forall i :: 0 <= i < |delta| ==>
              r[i] == Max(PhiRefRaw(phihat[i], phihatVar[i], phihatRef[i], phihatVarRef[i], delta[i]), 0.0)
    ensures forall i :: 0 <= i < |delta| ==> r[i] >= 0.0
  {
    var n := |delta|;
    r := [];
    var i := 0;
    while i < n
      invariant 0 <= i <= n && |r| == i
      invariant forall k :: 0 <= k < i ==>
                  r[k] == Max(PhiRefRaw(phihat[k], phihatVar[k], phihatRef[k], phihatVarRef[k], delta[k]), 0.0)
    {
      var val := PhiRefRaw(phihat[i], phihatVar[i], phihatRef[i], phihatVarRef[i], delta[i]);
      val := Max(val, 0.0);
      r := r + [val];
      i := i + 1;
    }
  }

  // ---------------------------------------------------------------------
  // get_forbidden_values
  // ---------------------------------------------------------------------

  predicate Distinct(s: seq<real>)
  {
    forall i, j :: 0 <= i < j < |s| ==> s[i] != s[j]
  }

  /** Minimum `beta` of counter-diagonal group `d`, started at `max(beta)`. */
  function GroupMin(beta: seq<real>, diagGrp: seq<int>, d: int): real
    requires |beta| > 0 && |beta| == |diagGrp|
  {
    MinWhere(beta, diagGrp, diagGrp, d, |beta|, SeqMax(beta))
  }

  /** Group `d` contains at least one cell (`diagtouch(d)`). */
  predicate Touched(diagGrp: seq<int>, d: int)
  {
    exists i :: 0 <= i < |diagGrp| && diagGrp[i] == d
  }

  /** A value that occurs in `s` occurs exactly once when `s` is distinct. */
  lemma {:induction false} DistinctMultiplicity(s: seq<real>, x: real)
    requires Distinct(s)
    ensures multiset(s)[x] <= 1
  {
    if |s| > 0 {
      var t := s[..|s| - 1];
      assert s == t + [s[|s| - 1]];
      assert Distinct(t);
      DistinctMultiplicity(t, x);
      if x == s[|s| - 1] {
        assert x !in t;
      }
    }
  }

  /** A sequence with the multiset of a distinct sequence is distinct. */
  lemma SameMultisetDistinct(s: seq<real>, t: seq<real>)
    requires Distinct(t) && multiset(s) == multiset(t)
    ensures Distinct(s)
  {
    forall i, j | 0 <= i < j < |s| ensures s[i] != s[j] {
      if s[i] == s[j] {
        assert s == s[..i] + [s[i]] + s[i + 1..j] + [s[j]] + s[j + 1..];
        assert multiset(s)[s[i]] >= 2;
        DistinctMultiplicity(t, s[i]);
      }
    }
  }

  /** Rcpp sugar `values[mask]`: the entries whose mask is set, in order. */
  method KeepMasked(values: seq<real>, mask: seq<bool>) returns (kept: seq<real>)
    requires |values| == |mask|
    ensures forall x :: x in kept <==> exists e :: 0 <= e < |values| && mask[e] && x == values[e]
  {
    kept := [];
    var d := 0;
    while d < |values|
      invariant 0 <= d <= |values|
      invariant forall x :: x in kept <==> exists e :: 0 <= e < d && mask[e] && x == values[e]
    {
      if mask[d] {
        kept := kept + [values[d]];
      }
      d := d + 1;
    }
  }

  /** Rcpp sugar `unique`: the same values, each once. */
  method Unique(values: seq<real>) returns (distinct: seq<real>)
    ensures Distinct(distinct)
    ensures forall x :: x in distinct <==> x in values
  {
    distinct := [];
    var k := 0;
    while k < |values|
      invariant 0 <= k <= |values|
      invariant Distinct(distinct)
      invariant forall x :: x in distinct <==> x in values[..k]
    {
      if values[k] !in distinct {
        distinct := distinct + [values[k]];
      }
      assert values[..k + 1] == values[..k] + [values[k]];
      k := k + 1;
    }
    assert values[..k] == values;
  }

  /** Sorting a sequence of distinct values gives a strictly ascending
      sequence of the same values. */
  method SortDistinct(distinct: seq<real>) returns (r: seq<real>)
    requires Distinct(distinct)
    ensures StrictlyAscending(r)
    ensures forall x :: x in r <==> x in distinct
  {
    var sorted := new real[|distinct|](j requires 0 <= j < |distinct| => distinct[j]);
    assert sorted[..] == distinct;
    SortInPlace(sorted);
    r := sorted[..];
    SameMultisetDistinct(r, distinct);
    forall x | x in r ensures x in distinct {
      assert x in multiset(r);
    }
    forall x | x in distinct ensures x in r {
      assert x in multiset(distinct);
    }
  }

  /** The accumulation loop of `get_forbidden_values`: per group, the
      running minimum started at `max(beta)` and whether a cell was seen. */
  method GroupMinima(beta: seq<real>, diagGrp: seq<int>) returns (diagvals: seq<real>, diagtouch: seq<bool>)
    requires |beta| > 0 && |beta| == |diagGrp|
    requires forall i :: 0 <= i < |diagGrp| ==> diagGrp[i] >= 0
    ensures |diagvals| == |diagtouch| == IntMax(diagGrp) + 1
    ensures forall d :: 0 <= d < |diagvals| ==> diagvals[d] == GroupMin(beta, diagGrp, d)
    ensures forall d :: 0 <= d < |diagtouch| ==> (diagtouch[d] <==> Touched(diagGrp, d))
  {
    var ndiags := IntMax(diagGrp) + 1;
    var maxBeta := SeqMax(beta);
    var touch := new bool[ndiags](_ => false);
    var vals := new real[ndiags](_ => maxBeta);
    var i := 0;
    while i < |diagGrp|
      invariant 0 <= i <= |diagGrp|
      invariant forall d :: 0 <= d < ndiags ==> vals[d] == MinWhere(beta, diagGrp, diagGrp, d, i, maxBeta)
      invariant forall d :: 0 <= d < ndiags ==> (touch[d] <==> exists k :: 0 <= k < i && diagGrp[k] == d)
    {
      vals[diagGrp[i]] := Min(vals[diagGrp[i]], beta[i]);
      touch[diagGrp[i]] := true;
      i := i + 1;
    }
    diagvals, diagtouch := vals[..], touch[..];
  }

  /** `get_forbidden_values`: the minima of all counter-diagonal groups that
      contain a cell, without duplicates, ascending. */
  method GetForbiddenValues(beta: seq<real>, diagGrp: seq<int>) returns (r: seq<real>)
    requires |beta| > 0 && |beta| == |diagGrp|
    requires forall i :: 0 <= i < |diagGrp| ==> diagGrp[i] >= 0
    ensures StrictlyAscending(r)
    ensures forall x :: x in r <==> exists d :: 0 <= d <= IntMax(diagGrp) && Touched(diagGrp, d) && x == GroupMin(beta, diagGrp, d)
    ensures forall k :: 0 <= k < |r| ==> r[k] <= SeqMax(beta)
  {
    var diagvals, diagtouch := GroupMinima(beta, diagGrp);
    var kept := KeepMasked(diagvals, diagtouch);
    var distinct := Unique(kept);
    r := SortDistinct(distinct);
    forall k | 0 <= k < |r| ensures r[k] <= SeqMax(beta) {
      assert r[k] in r;
      var d :| 0 <= d <= IntMax(diagGrp) && Touched(diagGrp, d) && r[k] == GroupMin(beta, diagGrp, d);
    }
  }
}
