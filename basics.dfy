/** Shared vocabulary of the model: optional values, the BIC score with its
    "largest double" sentinel, the transcendental functions the source takes
    from the C library, and sums / minima over sequences of reals. */
module Basics {

  datatype Option<T> = None | Some(value: T)

  /** A BIC score. `Largest` stands for `std::numeric_limits<double>::max()`,
      the sentinel returned for forbidden regions of the penalty; it compares
      above every finite score. */
  datatype Score = Finite(value: real) | Largest

  /** Strict "smaller than" on scores, as `val["BIC"] < best["BIC"]`. */
  predicate Less(a: Score, b: Score)
  {
    match (a, b)
    case (Finite(x), Finite(y)) => x < y
    case (Finite(_), Largest) => true
    case (Largest, _) => false
  }

  lemma LessIsStrictOrder(a: Score, b: Score, c: Score)
    ensures !Less(a, a)
    ensures Less(a, b) ==> !Less(b, a)
    ensures Less(a, b) && Less(b, c) ==> Less(a, c)
    ensures !Less(a, b) && !Less(b, a) ==> a == b
  {
  }

  /** The elementary functions the source calls (`exp`, `log`, `log10`,
      `pow(10, .)`). They are kept uninterpreted: the model only assumes that
      `exp` and `pow(10, .)` are positive. */
  datatype Numerics = Numerics(exp: real -> real, log: real -> real,
                               log10: real -> real, pow10: real -> real)
  {
    ghost predicate Valid()
    {
      (forall x :: exp(x) > 0.0) && (forall x :: pow10(x) > 0.0)
    }
  }

  function Abs(x: real): (r: real)
    ensures r >= 0.0 && (r == x || r == -x)
  {
    if x < 0.0 then -x else x
  }

  function Max(a: real, b: real): (r: real)
    ensures r >= a && r >= b && (r == a || r == b)
  {
    if a >= b then a else b
  }

  function Min(a: real, b: real): (r: real)
    ensures r <= a && r <= b && (r == a || r == b)
  {
    if a <= b then a else b
  }

  function Square(x: real): (r: real)
    ensures r >= 0.0
  {
    x * x
  }

  /** Sum of a sequence, accumulated left to right as the source's loops do. */
  function Sum(s: seq<real>): real
  {
    if |s| == 0 then 0.0 else Sum(s[..|s| - 1]) + s[|s| - 1]
  }

  lemma {:induction false} SumNonNegative(s: seq<real>)
    requires forall i :: 0 <= i < |s| ==> s[i] >= 0.0
    ensures Sum(s) >= 0.0
  {
    if |s| > 0 {
      SumNonNegative(s[..|s| - 1]);
    }
  }

  /** Smallest element of a non-empty sequence (Rcpp `min`). */
  function SeqMin(s: seq<real>): real
    requires |s| > 0
  {
    if |s| == 1 then s[0] else Min(SeqMin(s[..|s| - 1]), s[|s| - 1])
  }

  /** The minimum is at or below every element and is one of them. */
  lemma {:induction false} SeqMinBounds(s: seq<real>)
    requires |s| > 0
    ensures forall i :: 0 <= i < |s| ==> SeqMin(s) <= s[i]
    ensures exists i :: 0 <= i < |s| && SeqMin(s) == s[i]
  {
    if |s| > 1 {
      var init := s[..|s| - 1];
      SeqMinBounds(init);
      assert forall i :: 0 <= i < |init| ==> init[i] == s[i];
      var j :| 0 <= j < |init| && SeqMin(init) == init[j];
      if SeqMin(s) != s[j] {
        assert SeqMin(s) == s[|s| - 1];
      }
    } else {
      assert SeqMin(s) == s[0];
    }
  }

  /** Largest element of a non-empty sequence (Rcpp `max`). */
  function SeqMax(s: seq<real>): real
    requires |s| > 0
  {
    if |s| == 1 then s[0] else Max(SeqMax(s[..|s| - 1]), s[|s| - 1])
  }

  /** The maximum is at or above every element and is one of them. */
  lemma {:induction false} SeqMaxBounds(s: seq<real>)
    requires |s| > 0
    ensures forall i :: 0 <= i < |s| ==> s[i] <= SeqMax(s)
    ensures exists i :: 0 <= i < |s| && SeqMax(s) == s[i]
  {
    if |s| > 1 {
      var init := s[..|s| - 1];
      SeqMaxBounds(init);
      assert forall i :: 0 <= i < |init| ==> init[i] == s[i];
      var j :| 0 <= j < |init| && SeqMax(init) == init[j];
      if SeqMax(s) != s[j] {
        assert SeqMax(s) == s[|s| - 1];
      }
    } else {
      assert SeqMax(s) == s[0];
    }
  }

  /** `max(abs(v))` of a non-empty vector. */
  function MaxAbs(v: seq<real>): real
    requires |v| > 0
  {
    if |v| == 1 then Abs(v[0]) else Max(MaxAbs(v[..|v| - 1]), Abs(v[|v| - 1]))
  }

  /** The largest magnitude is at or above every magnitude and is one of
      them. */
  lemma {:induction false} MaxAbsBounds(v: seq<real>)
    requires |v| > 0
    ensures forall i :: 0 <= i < |v| ==> Abs(v[i]) <= MaxAbs(v)
    ensures exists i :: 0 <= i < |v| && MaxAbs(v) == Abs(v[i])
  {
    if |v| > 1 {
      var init := v[..|v| - 1];
      MaxAbsBounds(init);
      assert forall i :: 0 <= i < |init| ==> init[i] == v[i];
      var j :| 0 <= j < |init| && MaxAbs(init) == Abs(init[j]);
      if MaxAbs(v) != Abs(v[j]) {
        assert MaxAbs(v) == Abs(v[|v| - 1]);
      }
    } else {
      assert MaxAbs(v) == Abs(v[0]);
    }
  }

  /** Extending a prefix by one element: the running extremes of a loop. */
  lemma ExtremesSnoc(s: seq<real>, i: nat)
    requires 1 <= i < |s|
    ensures SeqMin(s[..i + 1]) == Min(SeqMin(s[..i]), s[i])
    ensures SeqMax(s[..i + 1]) == Max(SeqMax(s[..i]), s[i])
    ensures MaxAbs(s[..i + 1]) == Max(MaxAbs(s[..i]), Abs(s[i]))
  {
    assert s[..i + 1][..i] == s[..i];
  }

  /** `sum(a * b)`, accumulated left to right. */
  function Dot(a: seq<real>, b: seq<real>): real
    requires |a| == |b|
  {
    if |a| == 0 then 0.0
    else
      var n := |a| - 1;
      Dot(a[..n], b[..n]) + a[n] * b[n]
  }

  /** Every entry of `s` minus `c`. */
  function Shift(s: seq<real>, c: real): (r: seq<real>)
    ensures |r| == |s| && forall i :: 0 <= i < |s| ==> r[i] == s[i] - c
  {
    seq(|s|, i requires 0 <= i < |s| => s[i] - c)
  }

  /** Shifting commutes with taking a prefix. */
  lemma ShiftPrefix(x: seq<real>, c: real, n: nat)
    requires n <= |x|
    ensures Shift(x, c)[..n] == Shift(x[..n], c)
  {
  }

  /** The arithmetic of one step of `DotShift`: the last term, shifted by
      `c`, joins both sums. */
  lemma ShiftedTerm(shifted: real, dot: real, sum: real, total: real, x: real, xShifted: real, w: real, c: real)
    requires shifted == dot - c * sum && total == sum + w && xShifted == x - c
    ensures shifted + xShifted * w == (dot + x * w) - c * total
  {
  }

  /** Shifting every term of a weighted sum by `c` shifts it by `c` times the
      total weight. */
  lemma {:induction false} DotShift(x: seq<real>, w: seq<real>, c: real)
    requires |x| == |w|
    ensures Dot(Shift(x, c), w) == Dot(x, w) - c * Sum(w)
  {
    if |x| == 0 {
      assert c * Sum(w) == c * 0.0;
    } else {
      var n := |x| - 1;
      var shifted := Shift(x, c);
      ShiftPrefix(x, c, n);
      assert w[..n] == w[..|w| - 1];
      DotShift(x[..n], w[..n], c);
      ShiftedTerm(Dot(shifted[..n], w[..n]), Dot(x[..n], w[..n]), Sum(w[..n]), Sum(w), x[n], shifted[n], w[n], c);
    }
  }

  /** A sum of non-negative terms with a positive one is positive. */
  lemma {:induction false} SumPositive(s: seq<real>, j: nat)
    requires forall i :: 0 <= i < |s| ==> s[i] >= 0.0
    requires j < |s| && s[j] > 0.0
    ensures Sum(s) > 0.0
  {
    var n := |s| - 1;
    if j == n {
      SumNonNegative(s[..n]);
    } else {
      SumPositive(s[..n], j);
    }
  }

  /** Largest element of a non-empty sequence of integers (Rcpp `max` on an
      IntegerVector). */
  function IntMax(s: seq<int>): (r: int)
    requires |s| > 0
    ensures forall i :: 0 <= i < |s| ==> s[i] <= r
    ensures exists i :: 0 <= i < |s| && r == s[i]
  {
    if |s| == 1 then s[0]
    else
      var m := IntMax(s[..|s| - 1]);
      assert forall i :: 0 <= i < |s| - 1 ==> s[..|s| - 1][i] == s[i];
      if m >= s[|s| - 1] then m else s[|s| - 1]
  }

  predicate Ascending(s: seq<real>)
  {
    forall i, j :: 0 <= i < j < |s| ==> s[i] <= s[j]
  }

  predicate StrictlyAscending(s: seq<real>)
  {
    forall i, j :: 0 <= i < j < |s| ==> s[i] < s[j]
  }

  /** A cell matches key `k` when either of its two keys is `k`. Single-key
      groupings pass the same key sequence twice. */
  predicate Matches<K(==)>(keysA: seq<K>, keysB: seq<K>, k: K, i: nat)
    requires i < |keysA| && i < |keysB|
  {
    keysA[i] == k || keysB[i] == k
  }

  /** Sum of `values[i]` over the first `n` cells that match key `k`: the
      value of a `acc[key] += values[i]` accumulator after `n` steps. */
  function SumWhere<K(==)>(values: seq<real>, keysA: seq<K>, keysB: seq<K>, k: K, n: nat): real
    requires n <= |values| && n <= |keysA| && n <= |keysB|
  {
    if n == 0 then 0.0
    else SumWhere(values, keysA, keysB, k, n - 1)
         + (if Matches(keysA, keysB, k, n - 1) then values[n - 1] else 0.0)
  }

  /** Number of the first `n` cells that match key `k`. */
  function CountWhere<K(==)>(keysA: seq<K>, keysB: seq<K>, k: K, n: nat): (r: nat)
    requires n <= |keysA| && n <= |keysB|
    ensures r <= n
  {
    if n == 0 then 0
    else CountWhere(keysA, keysB, k, n - 1)
         + (if Matches(keysA, keysB, k, n - 1) then 1 else 0)
  }

  /** A key is counted exactly when some cell matches it. */
  lemma {:induction false} CountWherePositive<K>(keysA: seq<K>, keysB: seq<K>, k: K, n: nat)
    requires n <= |keysA| && n <= |keysB|
    ensures CountWhere(keysA, keysB, k, n) > 0 <==> exists i :: 0 <= i < n && Matches(keysA, keysB, k, i)
  {
    if n > 0 {
      CountWherePositive(keysA, keysB, k, n - 1);
      if Matches(keysA, keysB, k, n - 1) {
        assert CountWhere(keysA, keysB, k, n) > 0;
      }
    }
  }

  /** Minimum of `init` and of `values[i]` over the first `n` cells matching
      key `k`: the value of an `acc[key] = min(acc[key], values[i])`
      accumulator started at `init`. */
  function MinWhere<K(==)>(values: seq<real>, keysA: seq<K>, keysB: seq<K>, k: K, n: nat, init: real): (r: real)
    requires n <= |values| && n <= |keysA| && n <= |keysB|
    ensures r <= init
  {
    if n == 0 then init
    else
      var m := MinWhere(values, keysA, keysB, k, n - 1, init);
      if Matches(keysA, keysB, k, n - 1) then Min(m, values[n - 1]) else m
  }

  /** The minimum lies at or below every matching cell. */
  lemma {:induction false} MinWhereBelow<K>(values: seq<real>, keysA: seq<K>, keysB: seq<K>, k: K, n: nat,
                                            init: real, j: nat)
    requires n <= |values| && n <= |keysA| && n <= |keysB|
    requires j < n && Matches(keysA, keysB, k, j)
    ensures MinWhere(values, keysA, keysB, k, n, init) <= values[j]
  {
    if j < n - 1 {
      MinWhereBelow(values, keysA, keysB, k, n - 1, init, j);
    }
  }

  /** The minimum is `init` or the value of a matching cell. */
  lemma {:induction false} MinWhereCases<K>(values: seq<real>, keysA: seq<K>, keysB: seq<K>, k: K, n: nat, init: real)
    requires n <= |values| && n <= |keysA| && n <= |keysB|
    ensures var r := MinWhere(values, keysA, keysB, k, n, init);
            r == init || exists i :: 0 <= i < n && Matches(keysA, keysB, k, i) && r == values[i]
  {
    if n > 0 {
      MinWhereCases(values, keysA, keysB, k, n - 1, init);
    }
  }

  /** With positive values, a key that some cell matches has a positive
      sum. */
  lemma {:induction false} SumWherePositive<K>(values: seq<real>, keysA: seq<K>, keysB: seq<K>, k: K, n: nat, j: nat)
    requires n <= |values| && n <= |keysA| && n <= |keysB|
    requires forall i :: 0 <= i < n ==> values[i] > 0.0
    requires j < n && Matches(keysA, keysB, k, j)
    ensures SumWhere(values, keysA, keysB, k, n) > 0.0
  {
    if j < n - 1 {
      SumWherePositive(values, keysA, keysB, k, n - 1, j);
    } else {
      SumWhereNonNegative(values, keysA, keysB, k, n - 1);
    }
  }

  lemma {:induction false} SumWhereNonNegative<K>(values: seq<real>, keysA: seq<K>, keysB: seq<K>, k: K, n: nat)
    requires n <= |values| && n <= |keysA| && n <= |keysB|
    requires forall i :: 0 <= i < n ==> values[i] >= 0.0
    ensures SumWhere(values, keysA, keysB, k, n) >= 0.0
  {
    if n > 0 {
      SumWhereNonNegative(values, keysA, keysB, k, n - 1);
    }
  }

  /** A key matched by no cell sums to 0. */
  lemma {:induction false} SumWhereNoMatch<K>(values: seq<real>, keysA: seq<K>, keysB: seq<K>, k: K, n: nat)
    requires n <= |values| && n <= |keysA| && n <= |keysB|
    requires forall i :: 0 <= i < n ==> !Matches(keysA, keysB, k, i)
    ensures SumWhere(values, keysA, keysB, k, n) == 0.0
  {
    if n > 0 {
      SumWhereNoMatch(values, keysA, keysB, k, n - 1);
    }
  }

  /** When some matching cell lies at or below `init`, the minimum is the
      value of a matching cell. */
  lemma MinWhereAttained<K>(values: seq<real>, keysA: seq<K>, keysB: seq<K>, k: K, n: nat, init: real, j: nat)
    requires n <= |values| && n <= |keysA| && n <= |keysB|
    requires j < n && Matches(keysA, keysB, k, j) && values[j] <= init
    ensures exists i :: 0 <= i < n && Matches(keysA, keysB, k, i) && MinWhere(values, keysA, keysB, k, n, init) == values[i]
  {
    var r := MinWhere(values, keysA, keysB, k, n, init);
    MinWhereCases(values, keysA, keysB, k, n, init);
    MinWhereBelow(values, keysA, keysB, k, n, init, j);
    if r != values[j] {
      assert r < init;
    }
  }

  /** Pointwise product, as Rcpp sugar `a * b`. */
  function Times(a: seq<real>, b: seq<real>): (r: seq<real>)
    requires |a| == |b|
    ensures |r| == |a| && forall i :: 0 <= i < |a| ==> r[i] == a[i] * b[i]
  {
    seq(|a|, i requires 0 <= i < |a| => a[i] * b[i])
  }

  /** `sum(weight * SQUARE(target - fit))`, the weighted squared error used by
      every BIC in the source, accumulated left to right. */
  function WeightedSquaredError(weight: seq<real>, target: seq<real>, fit: seq<real>): real
    requires |weight| == |target| == |fit|
  {
    if |weight| == 0 then 0.0
    else
      var n := |weight| - 1;
      WeightedSquaredError(weight[..n], target[..n], fit[..n]) + weight[n] * Square(target[n] - fit[n])
  }

  lemma {:induction false} WeightedSquaredErrorNonNegative(weight: seq<real>, target: seq<real>, fit: seq<real>)
    requires |weight| == |target| == |fit|
    requires forall i :: 0 <= i < |weight| ==> weight[i] >= 0.0
    ensures WeightedSquaredError(weight, target, fit) >= 0.0
  {
    if |weight| > 0 {
      var n := |weight| - 1;
      WeightedSquaredErrorNonNegative(weight[..n], target[..n], fit[..n]);
      assert weight[n] * Square(target[n] - fit[n]) >= 0.0;
    }
  }
}
