/** Vocabulary shared by the two penalty objectives
    (csnorm/src/optimize_lambda1.cpp and
    csnorm/src/optimize_lambda1_eCprime.cpp): the named vector their `get`
    returns, the degrees of freedom of a thresholded fit, the
    "first strictly smaller BIC wins" scan of their `refine_minimum`, and the
    Rcpp filters that build the candidate lists. */
module Objective {
  import opened Basics

  /** `c(eCprime=, lambda1=, BIC=, dof=)`; `dof` is `None` for `NA`. */
  datatype Evaluation = Evaluation(eCprime: real, lambda1: real, bic: Score, dof: Option<nat>)

  // ---------------------------------------------------------------------
  // Degrees of freedom
  // ---------------------------------------------------------------------

  /** `patchno[abs(soft) > tol/2]` among the first `n` cells, as a set. */
  function SelectedUpTo(soft: seq<real>, patchno: seq<int>, tol: real, n: nat): set<int>
    requires |soft| == |patchno| && n <= |soft|
  {
    set i | 0 <= i < n && Abs(soft[i]) > tol / 2.0 :: patchno[i]
  }

  lemma {:induction false} SelectedUpToCardinality(soft: seq<real>, patchno: seq<int>, tol: real, n: nat)
    requires |soft| == |patchno| && n <= |soft|
    ensures |SelectedUpTo(soft, patchno, tol, n)| <= n
  {
    if n > 0 {
      SelectedUpToCardinality(soft, patchno, tol, n - 1);
      var prev := SelectedUpTo(soft, patchno, tol, n - 1);
      var extra: set<int> := if Abs(soft[n - 1]) > tol / 2.0 then {patchno[n - 1]} else {};
      assert SelectedUpTo(soft, patchno, tol, n) == prev + extra;
    }
  }

  /** The ids `0 .. n-1`. */
  function IdRange(n: nat): (r: set<int>)
    ensures |r| == n
    ensures forall k :: k in r <==> 0 <= k < n
  {
    if n == 0 then {} else IdRange(n - 1) + {n - 1}
  }

  lemma {:induction false} SubsetCardinality<T>(a: set<T>, b: set<T>)
    requires a <= b
    ensures |a| <= |b|
    decreases a
  {
    if a != {} {
      var x :| x in a;
      SubsetCardinality(a - {x}, b - {x});
    }
  }

  /** `unique(patchno[abs(soft) > tol/2]).size()`: the number of distinct
      patches that keep a cell above `tol/2` after thresholding. */
  function Dof(soft: seq<real>, patchno: seq<int>, tol: real): (r: nat)
    requires |soft| == |patchno|
    ensures r <= |soft|
    ensures r == 0 <==> forall i :: 0 <= i < |soft| ==> Abs(soft[i]) <= tol / 2.0
  {
    SelectedUpToCardinality(soft, patchno, tol, |soft|);
    var selected := SelectedUpTo(soft, patchno, tol, |soft|);
    assert forall i :: 0 <= i < |soft| && Abs(soft[i]) > tol / 2.0 ==> patchno[i] in selected;
    |selected|
  }

  /** With patch ids in `[0, npatches)`, at most `npatches` patches survive. */
  lemma DofAtMostPatchCount(soft: seq<real>, patchno: seq<int>, tol: real, npatches: nat)
    requires |soft| == |patchno|
    requires forall i :: 0 <= i < |patchno| ==> 0 <= patchno[i] < npatches
    ensures Dof(soft, patchno, tol) <= npatches
  {
    SubsetCardinality(SelectedUpTo(soft, patchno, tol, |soft|), IdRange(npatches));
  }

  // ---------------------------------------------------------------------
  // First minimum of a scan
  // ---------------------------------------------------------------------

  /** Index of the evaluation a left-to-right scan keeps when it replaces its
      best only on a strictly smaller BIC. */
  function FirstMinimumIndex(evals: seq<Evaluation>): (j: nat)
    requires |evals| > 0
    ensures j < |evals|
  {
    if |evals| == 1 then 0
    else
      var k := FirstMinimumIndex(evals[..|evals| - 1]);
      if Less(evals[|evals| - 1].bic, evals[k].bic) then |evals| - 1 else k
  }

  /** The scan keeps a lowest BIC, and the first one: every earlier BIC is
      strictly larger. */
  lemma {:induction false} FirstMinimumIndexMeaning(evals: seq<Evaluation>)
    requires |evals| > 0
    ensures var j := FirstMinimumIndex(evals);
            (forall i :: 0 <= i < |evals| ==> !Less(evals[i].bic, evals[j].bic))
            && (forall i :: 0 <= i < j ==> Less(evals[j].bic, evals[i].bic))
  {
    if |evals| > 1 {
      var prefix := evals[..|evals| - 1];
      FirstMinimumIndexMeaning(prefix);
      var k := FirstMinimumIndex(prefix);
      assert forall i :: 0 <= i < |prefix| ==> prefix[i] == evals[i];
      var last := |evals| - 1;
      if Less(evals[last].bic, evals[k].bic) {
        forall i | 0 <= i < last ensures Less(evals[last].bic, evals[i].bic) {
          LessIsStrictOrder(evals[last].bic, evals[k].bic, evals[i].bic);
          LessIsStrictOrder(evals[k].bic, evals[i].bic, evals[k].bic);
        }
        forall i | 0 <= i < |evals| ensures !Less(evals[i].bic, evals[last].bic) {
          LessIsStrictOrder(evals[i].bic, evals[last].bic, evals[k].bic);
        }
      }
    }
  }

  /** One step of the scan: appending an evaluation moves the best to it
      exactly when its BIC is strictly smaller. */
  lemma FirstMinimumStep(evals: seq<Evaluation>, e: Evaluation)
    requires |evals| > 0
    ensures FirstMinimumIndex(evals + [e]) ==
              if Less(e.bic, evals[FirstMinimumIndex(evals)].bic) then |evals| else FirstMinimumIndex(evals)
  {
    assert (evals + [e])[..|evals|] == evals;
  }

  /** The evaluations of `f` at each point of a list, in order. */
  function EvaluationsOf(f: real -> Evaluation, lambdas: seq<real>): (r: seq<Evaluation>)
    ensures |r| == |lambdas| && forall i :: 0 <= i < |lambdas| ==> r[i] == f(lambdas[i])
  {
    seq(|lambdas|, i requires 0 <= i < |lambdas| => f(lambdas[i]))
  }

  /** Evaluating one more point appends its evaluation. */
  lemma EvaluationsSnoc(f: real -> Evaluation, lambdas: seq<real>, x: real)
    ensures EvaluationsOf(f, lambdas + [x]) == EvaluationsOf(f, lambdas) + [f(x)]
  {
  }

  /** A scan that has visited `seen` keeps `best`: nothing before the first
      point, then the first lowest evaluation. */
  predicate Kept(f: real -> Evaluation, seen: seq<real>, best: Option<Evaluation>)
  {
    (best.None? <==> |seen| == 0)
    && (best.Some? ==> best.value == EvaluationsOf(f, seen)[FirstMinimumIndex(EvaluationsOf(f, seen))])
  }

  /** The body of a `refine_minimum` loop: evaluate the next point, keep the
      first evaluation, then replace the best only by a strictly smaller
      BIC. */
  method KeepBetter(f: real -> Evaluation, best: Option<Evaluation>, ghost seen: seq<real>, x: real)
    returns (next: Evaluation)
    requires Kept(f, seen, best)
    ensures Kept(f, seen + [x], Some(next))
  {
    var val := f(x);
    ghost var evals := EvaluationsOf(f, seen);
    EvaluationsSnoc(f, seen, x);
    if best.None? {
      next := val;
      assert evals + [val] == [val];
      return;
    }
    next := best.value;
    if Less(val.bic, best.value.bic) {
      next := val;
    }
    FirstMinimumStep(evals, val);
  }

  /** A `refine_minimum` loop over `candidates`, continuing a scan that has
      already visited `done` and kept `best0`: evaluate `f` at each candidate
      in turn and keep the first strictly smaller BIC. */
  method Scan(f: real -> Evaluation, best0: Option<Evaluation>, ghost done: seq<real>, candidates: seq<real>)
    returns (best: Option<Evaluation>)
    requires Kept(f, done, best0)
    ensures Kept(f, done + candidates, best)
  {
    best := best0;
    var i := 0;
    assert done + candidates[..0] == done;
    while i < |candidates|
      invariant 0 <= i <= |candidates|
      invariant Kept(f, done + candidates[..i], best)
    {
      var next := KeepBetter(f, best, done + candidates[..i], candidates[i]);
      assert done + candidates[..i + 1] == (done + candidates[..i]) + [candidates[i]];
      best := Some(next);
      i := i + 1;
    }
    assert i == |candidates|;
    assert candidates[..i] == candidates;
  }

  /** The first minimum of a scan is the evaluation of one of the points and
      no point has a strictly smaller BIC. */
  lemma FirstMinimumMeaning(f: real -> Evaluation, lambdas: seq<real>)
    requires |lambdas| > 0
    ensures var evals := EvaluationsOf(f, lambdas);
            var j := FirstMinimumIndex(evals);
            evals[j] == f(lambdas[j]) && lambdas[j] in lambdas
            && forall x :: x in lambdas ==> !Less(f(x).bic, evals[j].bic)
  {
    var evals := EvaluationsOf(f, lambdas);
    FirstMinimumIndexMeaning(evals);
    forall x | x in lambdas ensures !Less(f(x).bic, evals[FirstMinimumIndex(evals)].bic) {
      var k :| 0 <= k < |lambdas| && lambdas[k] == x;
      assert evals[k] == f(x);
    }
  }

  /** Over ascending points, every point below the kept one has a strictly
      larger BIC: the kept one is the first lowest in the order of the
      points. */
  lemma FirstMinimumAscending(f: real -> Evaluation, lambdas: seq<real>)
    requires |lambdas| > 0 && Ascending(lambdas)
    ensures var evals := EvaluationsOf(f, lambdas);
            var j := FirstMinimumIndex(evals);
            forall x :: x in lambdas && x < lambdas[j] ==> Less(evals[j].bic, f(x).bic)
  {
    var evals := EvaluationsOf(f, lambdas);
    var j := FirstMinimumIndex(evals);
    FirstMinimumIndexMeaning(evals);
    forall x | x in lambdas && x < lambdas[j] ensures Less(evals[j].bic, f(x).bic) {
      var m :| 0 <= m < |lambdas| && lambdas[m] == x;
      assert m < j;
    }
  }

  // ---------------------------------------------------------------------
  // Rcpp filters over candidate lists
  // ---------------------------------------------------------------------

  /** `v[v >= t]`. */
  function AtLeast(v: seq<real>, t: real): (r: seq<real>)
    ensures |r| <= |v|
    ensures forall x :: x in r <==> x in v && x >= t
  {
    if |v| == 0 then []
    else
      assert v == v[..|v| - 1] + [v[|v| - 1]];
      AtLeast(v[..|v| - 1], t) + (if v[|v| - 1] >= t then [v[|v| - 1]] else [])
  }

  /** `v[v < t]`. */
  function Below(v: seq<real>, t: real): (r: seq<real>)
    ensures |r| <= |v|
    ensures forall x :: x in r <==> x in v && x < t
  {
    if |v| == 0 then []
    else
      assert v == v[..|v| - 1] + [v[|v| - 1]];
      Below(v[..|v| - 1], t) + (if v[|v| - 1] < t then [v[|v| - 1]] else [])
  }

  /** `v[v >= lo & v <= hi]`. */
  function Within(v: seq<real>, lo: real, hi: real): (r: seq<real>)
    ensures |r| <= |v|
    ensures forall x :: x in r <==> x in v && lo <= x <= hi
  {
    if |v| == 0 then []
    else
      assert v == v[..|v| - 1] + [v[|v| - 1]];
      Within(v[..|v| - 1], lo, hi) + (if lo <= v[|v| - 1] <= hi then [v[|v| - 1]] else [])
  }

  /** Filtering a sorted vector keeps it sorted. */
  lemma {:induction false} AtLeastAscending(v: seq<real>, t: real)
    requires Ascending(v)
    ensures Ascending(AtLeast(v, t))
  {
    if |v| > 0 {
      var init := v[..|v| - 1];
      AtLeastAscending(init, t);
      var r := AtLeast(init, t);
      forall x | x in r ensures x <= v[|v| - 1] {
        var i :| 0 <= i < |init| && init[i] == x;
      }
      assert forall i :: 0 <= i < |r| ==> r[i] in r;
    }
  }

  lemma {:induction false} BelowAscending(v: seq<real>, t: real)
    requires Ascending(v)
    ensures Ascending(Below(v, t))
  {
    if |v| > 0 {
      var init := v[..|v| - 1];
      BelowAscending(init, t);
      var r := Below(init, t);
      forall x | x in r ensures x <= v[|v| - 1] {
        var i :| 0 <= i < |init| && init[i] == x;
      }
      assert forall i :: 0 <= i < |r| ==> r[i] in r;
    }
  }

  lemma {:induction false} WithinAscending(v: seq<real>, lo: real, hi: real)
    requires Ascending(v)
    ensures Ascending(Within(v, lo, hi))
  {
    if |v| > 0 {
      var init := v[..|v| - 1];
      WithinAscending(init, lo, hi);
      var r := Within(init, lo, hi);
      forall x | x in r ensures x <= v[|v| - 1] {
        var i :| 0 <= i < |init| && init[i] == x;
      }
      assert forall i :: 0 <= i < |r| ==> r[i] in r;
    }
  }

  /** `abs(v)`. */
  function AbsAll(v: seq<real>): (r: seq<real>)
    ensures |r| == |v| && forall i :: 0 <= i < |v| ==> r[i] == Abs(v[i])
  {
    seq(|v|, i requires 0 <= i < |v| => Abs(v[i]))
  }

  // ---------------------------------------------------------------------
  // Sorted permutations
  // ---------------------------------------------------------------------

  /** The first and last entries of a sorted permutation of `t` are the
      minimum and maximum of `t`. */
  lemma SortedEnds(s: seq<real>, t: seq<real>)
    requires |s| > 0 && Ascending(s) && multiset(s) == multiset(t)
    ensures |t| == |s|
    ensures s[0] == SeqMin(t) && s[|s| - 1] == SeqMax(t)
  {
    assert |multiset(s)| == |multiset(t)|;
    assert s[0] in multiset(t) && s[|s| - 1] in multiset(t);
    SeqMinBounds(t);
    SeqMaxBounds(t);
    var lo := SeqMin(t);
    var hi := SeqMax(t);
    assert lo in multiset(s) && hi in multiset(s);
  }

  /** `max(abs(.))` does not depend on the order of the entries. */
  lemma MaxAbsPermutation(s: seq<real>, t: seq<real>)
    requires |s| > 0 && multiset(s) == multiset(t)
    ensures |t| > 0 && MaxAbs(s) == MaxAbs(t)
  {
    assert |multiset(s)| == |multiset(t)|;
    MaxAbsBounds(s);
    MaxAbsBounds(t);
    var i :| 0 <= i < |s| && MaxAbs(s) == Abs(s[i]);
    var j :| 0 <= j < |t| && MaxAbs(t) == Abs(t[j]);
    assert s[i] in multiset(t) && t[j] in multiset(s);
  }
}
