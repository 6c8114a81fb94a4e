/** The generalised fused-lasso estimator
    (csnorm/src/FusedLassoGeneralizedEstimator.hpp) over the ADMM library
    (csnorm/src/GFLLibrary.hpp).

    The ADMM iterations themselves are not part of this model: the library
    keeps its `beta`, `prepare` primes it, and `optimize` stores the solution
    it is given. A history of the calls records the order in which the
    estimator drives the library. */
module Estimator {
  import opened Basics
  import opened Util
  import GraphTrails

  /** One call into the library. */
  datatype LibraryCall =
    | PrepareCall(betaInit: seq<real>)
    | OptimizeCall(y: seq<real>, w: seq<real>, lambda2: real)

  /** The ADMM library: the fused-lasso problem size `n`, its convergence
      threshold and the current estimate `beta` (empty until `prepare`). */
  class GFLLibrary {
    const n: nat
    const converge: real
    var beta: seq<real>
    var counter: nat
    ghost var calls: seq<LibraryCall>

    constructor (nrows: nat, converge: real)
      ensures n == GraphTrails.GridSize(nrows) && this.converge == converge
      ensures beta == [] && counter == 0 && calls == []
    {
      n := nrows * (nrows + 1) / 2;
      this.converge := converge;
      beta := [];
      counter := 0;
      calls := [];
    }

    /** `prepare`: restart from `betaInit`. */
    method Prepare(betaInit: seq<real>)
      modifies this
      ensures beta == betaInit && counter == 0
      ensures calls == old(calls) + [PrepareCall(betaInit)]
    {
      beta := betaInit;
      counter := 0;
      calls := calls + [PrepareCall(betaInit)];
    }

    /** `optimize`: the ADMM run is outside the model; `solution` is the
      `beta` it reaches and `ninner` the number of inner iterations. */
    method Optimize(y: seq<real>, w: seq<real>, lambda2: real, solution: seq<real>, ninner: nat)
      requires |solution| == |beta|
      modifies this
      ensures beta == solution && counter == ninner
      ensures calls == old(calls) + [OptimizeCall(y, w, lambda2)]
    {
      beta := solution;
      counter := ninner;
      calls := calls + [OptimizeCall(y, w, lambda2)];
    }

    /** `get_beta`. */
    function GetBeta(): seq<real>
      reads this
    {
      beta
    }
  }

  /** `clamp`: every entry into `[-limit, limit]` when `limit > 0`. */
  function Clamp(beta: seq<real>, limit: real): (r: seq<real>)
    ensures |r| == |beta|
    ensures limit <= 0.0 ==> r == beta
    ensures limit > 0.0 ==> forall i :: 0 <= i < |beta| ==>
              -limit <= r[i] <= limit
              && (-limit <= beta[i] <= limit ==> r[i] == beta[i])
              && (beta[i] > limit ==> r[i] == limit)
              && (beta[i] < -limit ==> r[i] == -limit)
  {
    if limit > 0.0 then seq(|beta|, i requires 0 <= i < |beta| => Min(limit, Max(-limit, beta[i])))
    else beta
  }

  /** Clamping twice is clamping once. */
  lemma ClampIdempotent(beta: seq<real>, limit: real)
    ensures Clamp(Clamp(beta, limit), limit) == Clamp(beta, limit)
  {
  }

  /** The estimator over one library instance, clamping at `clampLimit`. */
  class FusedLassoGeneralizedEstimator {
    const lib: GFLLibrary
    const clampLimit: real

    constructor (nrows: nat, converge: real, clamp: real)
      ensures fresh(lib) && clampLimit == clamp
      ensures lib.n == GraphTrails.GridSize(nrows) && lib.beta == [] && lib.calls == []
    {
      lib := new GFLLibrary(nrows, converge);
      clampLimit := clamp;
    }

    /** `optimize`: `prepare(beta_init)`, then `optimize(y, w, lambda2)`. */
    method Optimize(y: seq<real>, betaInit: seq<real>, w: seq<real>, lambda2: real, solution: seq<real>, ninner: nat)
      requires |solution| == |betaInit|
      modifies lib
      ensures lib.calls == old(lib.calls) + [PrepareCall(betaInit), OptimizeCall(y, w, lambda2)]
      ensures lib.beta == solution && lib.counter == ninner
    {
      lib.Prepare(betaInit);
      lib.Optimize(y, w, lambda2, solution, ninner);
    }

    /** `get`: the soft-thresholded, clamped copy of the library's `beta`;
      the library is left untouched. */
    method Get(offset: real, lambda1: real) returns (r: seq<real>)
      ensures |r| == |lib.beta|
      ensures r == SoftThresholded(Clamp(lib.beta, clampLimit), offset, lambda1)
    {
      var clamped := Clamp(lib.GetBeta(), clampLimit);
      r := SoftThreshold(clamped, offset, lambda1);
    }
  }

  /** With its default arguments `get()` returns the clamped `beta` itself;
      with clamping disabled, the stored `beta`. */
  lemma GetDefaultIsClamped(beta: seq<real>, limit: real)
    ensures SoftThresholded(Clamp(beta, limit), 0.0, 0.0) == Clamp(beta, limit)
    ensures limit <= 0.0 ==> SoftThresholded(Clamp(beta, limit), 0.0, 0.0) == beta
  {
    var c := Clamp(beta, limit);
    forall i | 0 <= i < |c| ensures SoftThresholded(c, 0.0, 0.0)[i] == c[i] {
      SoftIdentity(c[i]);
    }
  }

  /** With a positive clamp and `lambda1 >= 0`, every value `get` returns
      lies in `[-clamp - |offset|, clamp + |offset|]`. */
  lemma GetBounded(beta: seq<real>, limit: real, offset: real, lambda1: real)
    requires limit > 0.0 && lambda1 >= 0.0
    ensures forall i :: 0 <= i < |beta| ==>
              Abs(SoftThresholded(Clamp(beta, limit), offset, lambda1)[i]) <= limit + Abs(offset)
  {
    var c := Clamp(beta, limit);
    forall i | 0 <= i < |beta|
      ensures Abs(SoftThresholded(c, offset, lambda1)[i]) <= limit + Abs(offset)
    {
      assert Abs(Soft(c[i], offset, lambda1)) <= Abs(c[i] - offset);
    }
  }
}
