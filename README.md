# csnorm / binless normalisation core, modelled in Dafny

This project models the numerical bookkeeping of csnorm and binless, two
normalisation libraries for Hi-C contact matrices. The parts modelled are:

- **util** (`Util`, `util.dfy`): the soft-threshold map, the sorted per-patch
  values, the reference signal `compute_phi_ref`, and the per-counter-diagonal
  "forbidden" minima.
- **trail decomposition** (`GraphTrails`, `graph_trails.dfy`): the row and
  column chains of the upper-triangular `nrow x nrow` grid, their flattening
  into `trails`/`breakpoints`, and the vertex numbering and edge list of the
  grid graph.
- **fused-lasso estimator read-out** (`Estimator`, `fused_lasso_estimator.dfy`):
  the solver library as a class holding `beta`, the estimator's
  prepare-then-optimize delegation, and `get` = soft-threshold of the clamped
  `beta`.
- **penalty selection** (`Objective`, `Lambda1`, `Lambda1ECprime`): the BIC
  objectives of `optimize_lambda1.cpp` and `optimize_lambda1_eCprime.cpp`,
  with their forbidden-region sentinel, border cases, search bounds and
  discrete refinement around the Brent minimum. `Objective` holds what the two
  files share: degrees of freedom, the first-minimum scan and candidate
  filters.
- **bounds checkers** (`Bounds`, `bounds_checker.dfy`): the four `is_valid`
  policies.
- **fast IRLS loop** (`FastBinless`, `fast_binless.dfy`):
  - the normal and Poisson residuals;
  - the exposure, bias and decay updates, with their re-centring;
  - the relative precision;
  - the per-dataset floor shift and the row/diagonal degeneracy removal;
  - the Gibbs driver over a `FastSignalData` object.
- **decay summaries** (`FastDecay`, `fast_decay.dfy`): the counter-diagonal
  aggregation of binless's `compute_poisson_lsq_log_decay` and
  `get_decay_summary`.

`Basics` (`basics.dfy`) holds shared pieces:
- `Option`;
- `Score`, a BIC that is either finite or the "largest double" sentinel;
- sums, extremes and keyed accumulators over sequences;
- `Numerics`, which carries `exp`, `log`, `log10` and `pow10` as function values. The only facts assumed about them are `exp(x) > 0` and `pow10(x) > 0`, stated as `Valid()`.

Reals stand for doubles. The loops of the source are methods with loop
invariants, and each is proved equal to a specification function. The
properties the source promises are then proved about those functions as
lemmas.

## Model

| member | source | states |
|---|---|---|
| Util.Soft | csnorm/src/util.cpp:14-15 | for `l >= 0`: the result is 0 or has the sign of `v - c`; it is never larger in magnitude than `v - c`; it is 0 exactly when `abs(v - c) <= l`; otherwise it is `v - c` moved towards 0 by `l` |
| Util.SoftThresholded | csnorm/src/util.cpp:8-18 | one output per input, each the soft threshold of its input |
| Util.SoftThreshold | csnorm/src/util.cpp:8-18 | the push_back loop builds exactly the element-wise soft threshold |
| Util.SoftIdentity | csnorm/src/util.cpp:15 | at offset 0 and penalty 0 the soft threshold is the identity |
| Util.SoftThresholdIdempotent | csnorm/src/util.cpp:8-18 | re-thresholding any output at `(0, 0)` returns it unchanged |
| Util.SortInPlace | csnorm/src/util.cpp:25 | the array ends ascending and is a permutation of its old contents |
| Util.PatchSlots | csnorm/src/util.cpp:22-24 | there are `npatches` slots |
| Util.PatchSlotsMeaning | csnorm/src/util.cpp:23-24 | slot `k` is 0 if no cell has patch id `k`; otherwise it holds the value of the last cell with id `k` |
| Util.GetPatchValues | csnorm/src/util.cpp:21-27 | returns `max(patchno) + 1` values, in ascending order, a permutation of the patch slots |
| Util.InversePrecision | csnorm/src/util.cpp:43-44 | `1/var` is non-negative, and 0 exactly for an infinite variance |
| Util.PhiRefRawMeaning | csnorm/src/util.cpp:38-46 | with both variances infinite the value lies between `phihat_ref` and `phihat`; otherwise it lies between `phihat_ref` and `phihat - delta`; with only the reference variance infinite it equals `phihat - delta`; with only the cell's variance infinite it equals `phihat_ref` |
| Util.ComputePhiRef | csnorm/src/util.cpp:29-50 | one value per cell: the precision-weighted combination clamped at 0, so every value is `>= 0` |
| Util.KeepMasked | csnorm/src/util.cpp:64 | keeps exactly the values whose mask entry is set |
| Util.Unique | csnorm/src/util.cpp:65 | the result has no duplicates and the same set of values |
| Util.SortDistinct | csnorm/src/util.cpp:66 | the result is strictly ascending with the same set of values |
| Util.GroupMinima | csnorm/src/util.cpp:57-63 | `diagvals[d]` is the minimum of `beta` over group `d`, starting from `max(beta)`; `diagtouch[d]` holds exactly when some cell is in group `d` |
| Util.GetForbiddenValues | csnorm/src/util.cpp:52-68 | strictly ascending (so duplicate-free); a value is in the result exactly when it is the minimum of a non-empty group; no value exceeds `max(beta)` |
| GraphTrails.CellIndex | csnorm/src/gfl/src/graph_trails.cpp:62-68 | the row-major index of cell `(b1, b2)` is below `nrow(nrow+1)/2` |
| GraphTrails.RowStartClosedForm | csnorm/src/gfl/src/graph_trails.cpp:57 | row `k` starts at `k(2n - k + 1)/2` |
| GraphTrails.RowStartEnd | csnorm/src/gfl/src/graph_trails.cpp:57 | the rows together hold exactly `n(n+1)/2` cells |
| GraphTrails.RowStartMonotone | csnorm/src/gfl/src/graph_trails.cpp:62-68 | rows start at increasing offsets, at least one cell apart |
| GraphTrails.RowStartStep | csnorm/src/gfl/src/graph_trails.cpp:70-78 | while a row has two or more cells, each row starts at least two cells after the previous one |
| GraphTrails.FindRow | csnorm/src/gfl/src/graph_trails.cpp:62-68 | every index in range lies in the span of some row |
| GraphTrails.CellIndexBijective | csnorm/src/gfl/src/graph_trails.cpp:62-68 | the numbering is one-to-one on cells with `1 <= b1 <= b2 <= n`, and every index below `n(n+1)/2` is some cell's index |
| GraphTrails.RowChain | csnorm/src/gfl/src/graph_trails.cpp:21-29 | row chain `k` has `n - k` elements: the cells of row `k + 1` in order |
| GraphTrails.ColumnChain | csnorm/src/gfl/src/graph_trails.cpp:31-40 | the column chain for `U1 = c` has `c` elements: the cells of column `c` from the top |
| GraphTrails.BoostTriangleGridChain | csnorm/src/gfl/src/graph_trails.cpp:15-42 | returns the row chains followed by the column chains |
| GraphTrails.RowChains | csnorm/src/gfl/src/graph_trails.cpp:21-29 | the counting loop emits exactly the row chains `0 .. nrow-2`; the last singleton row is not emitted |
| GraphTrails.ColumnChains | csnorm/src/gfl/src/graph_trails.cpp:31-40 | the `Ui` recurrence emits exactly the column chains for `U1 = 2 .. nrow` |
| GraphTrails.RowChainShape | csnorm/src/gfl/src/graph_trails.cpp:21-29 | there are `2(n-1)` chains; row chain `k` has length `n - k >= 2`; it is a run of consecutive indices; the first starts at 0 and each starts right after the previous one ends |
| GraphTrails.ColumnChainShape | csnorm/src/gfl/src/graph_trails.cpp:30-40 | the chain for `U1` has `U1` elements, starts at `U1 - 1` and steps by `n - i` at step `i` |
| GraphTrails.RowChainIncreasingInRange | csnorm/src/gfl/src/graph_trails.cpp:21-29 | each row chain is strictly increasing and inside `[0, n(n+1)/2)` |
| GraphTrails.ColumnChainIncreasingInRange | csnorm/src/gfl/src/graph_trails.cpp:31-40 | each column chain is strictly increasing and inside `[0, n(n+1)/2)` |
| GraphTrails.ChainsIncreasingInRange | csnorm/src/gfl/src/graph_trails.cpp:15-42 | every chain is strictly increasing and inside `[0, n(n+1)/2)` |
| GraphTrails.ChainsCoverGrid | csnorm/src/gfl/src/graph_trails.cpp:15-42 | `nrow <= 1` yields no chains; for `nrow >= 2` every index of the grid is in some chain |
| GraphTrails.BoostChainsToTrails | csnorm/src/gfl/src/graph_trails.cpp:44-53 | `trails` is the concatenation of the chains, `breakpoints` their cumulative end offsets, and `ntrails` the number of breakpoints |
| GraphTrails.BreakpointsAscendToEnd | csnorm/src/gfl/src/graph_trails.cpp:47-51 | breakpoints are ascending, positive and at most `|trails|`; the last equals `|trails|` when `trails` is non-empty |
| GraphTrails.TrailsRecoverChains | csnorm/src/gfl/src/graph_trails.cpp:47-52 | with non-empty chains there is one breakpoint per chain, and slicing `trails` between consecutive breakpoints gives back each chain |
| GraphTrails.TriangleTrailCount | csnorm/src/gfl/src/graph_trails.cpp:52 | the triangle grid yields `ntrails = 2(nrow - 1)` |
| GraphTrails.RowEdges | csnorm/src/gfl/src/graph_trails.cpp:72-77 | a row of `n - b1 + 1` cells contributes `2(n - b1)` edges |
| GraphTrails.Build2dConnectivityGraph | csnorm/src/gfl/src/graph_trails.cpp:55-80 | vertex `CellIndex(b1, b2)` has coordinates `(b1, b2)`, and the edge list is the grid's row-by-row edge list |
| GraphTrails.VertexCoordinates | csnorm/src/gfl/src/graph_trails.cpp:61-68 | the nested loop gives every cell's vertex its coordinates |
| GraphTrails.RowEdgesStep | csnorm/src/gfl/src/graph_trails.cpp:72-74 | step `j` of a row appends `(v-1, v)` and `(v, v + l)`, with `v` the running vertex |
| GraphTrails.GridEdgeList | csnorm/src/gfl/src/graph_trails.cpp:70-78 | the two loops over `l` and `j` add exactly the grid's row-by-row edge list |
| GraphTrails.GridEdgeCount | csnorm/src/gfl/src/graph_trails.cpp:70-78 | after `rows` rows the list holds `rows(2n - rows - 1)` edges |
| GraphTrails.TotalEdgeCount | csnorm/src/gfl/src/graph_trails.cpp:70-78 | the grid graph has `nrow(nrow - 1)` edges |
| GraphTrails.GridEdgesAreAdjacent | csnorm/src/gfl/src/graph_trails.cpp:73-74 | every edge joins two horizontally or vertically adjacent cells |
| GraphTrails.RowNeighboursJoined | csnorm/src/gfl/src/graph_trails.cpp:73 | every pair of horizontal neighbours is joined by an edge |
| GraphTrails.ColumnNeighboursJoined | csnorm/src/gfl/src/graph_trails.cpp:74 | every pair of vertical neighbours is joined by an edge |
| GraphTrails.GridEdgesContainRow | csnorm/src/gfl/src/graph_trails.cpp:71-78 | later rows never remove the edges an earlier row added |
| Estimator.GFLLibrary.constructor | csnorm/src/GFLLibrary.hpp:12-14 | the problem size is `nrows(nrows+1)/2`; no call has been made yet |
| Estimator.GFLLibrary.Prepare | csnorm/src/GFLLibrary.hpp:20 | `beta` becomes the start value; the call is logged |
| Estimator.GFLLibrary.Optimize | csnorm/src/GFLLibrary.hpp:25 | `beta` becomes the solver's solution, of the same length; the call is logged |
| Estimator.Clamp | csnorm/src/FusedLassoGeneralizedEstimator.hpp:43-51 | with `clamp_ <= 0` the input is returned unchanged; otherwise every entry ends in `[-clamp_, clamp_]`, entries already inside are unchanged, and entries outside go to the nearer bound |
| Estimator.ClampIdempotent | csnorm/src/FusedLassoGeneralizedEstimator.hpp:43-51 | clamping twice is clamping once |
| Estimator.FusedLassoGeneralizedEstimator.constructor | csnorm/src/FusedLassoGeneralizedEstimator.hpp:21-22 | builds a fresh library of size `nrows(nrows+1)/2` and records the clamp limit |
| Estimator.FusedLassoGeneralizedEstimator.Optimize | csnorm/src/FusedLassoGeneralizedEstimator.hpp:27-31 | the library receives `prepare(beta_init)` and then `optimize(y, w, lambda2)`, in that order |
| Estimator.FusedLassoGeneralizedEstimator.Get | csnorm/src/FusedLassoGeneralizedEstimator.hpp:38-40 | the result has the length of `beta` and is the soft threshold of the clamped `beta`; the library's `beta` is not modified |
| Estimator.GetDefaultIsClamped | csnorm/src/FusedLassoGeneralizedEstimator.hpp:38 | with default arguments `get` returns the clamped `beta`, which is `beta` itself when clamping is off |
| Estimator.GetBounded | csnorm/src/FusedLassoGeneralizedEstimator.hpp:38-51 | with clamping on, every output is within `clamp_ + abs(offset)` of 0 |
| Bounds.IsValid | csnorm/src/BoundsChecker.hpp:14-55 | `PositiveSign` holds iff the lower bound is at most every `beta`; `ForbidDegeneracy` holds iff every forbidden value is within the bounds; `AnySign` and `AllowDegeneracy` always hold |
| Bounds.ForbidDegeneracyWidening | csnorm/src/BoundsChecker.hpp:42-44 | valid bounds for a non-empty forbidden set are ordered, and widening valid bounds keeps them valid |
| Objective.SelectedUpToCardinality | csnorm/src/optimize_lambda1.cpp:40-41 | the set of selected patch ids has at most as many elements as cells |
| Objective.Dof | csnorm/src/optimize_lambda1.cpp:40-41 | dof is at most the number of cells, and 0 exactly when every soft value is within `tol/2` of 0 |
| Objective.DofAtMostPatchCount | csnorm/src/optimize_lambda1.cpp:40-41 | dof is at most the number of patches |
| Objective.FirstMinimumIndex | csnorm/src/optimize_lambda1.cpp:64-84 | the kept index is a valid position |
| Objective.FirstMinimumIndexMeaning | csnorm/src/optimize_lambda1.cpp:74 | no evaluation has a strictly smaller BIC than the kept one, and every earlier one has a strictly larger BIC (ties keep the first) |
| Objective.FirstMinimumStep | csnorm/src/optimize_lambda1.cpp:74 | one more evaluation replaces the best exactly when its BIC is strictly smaller |
| Objective.KeepBetter | csnorm/src/optimize_lambda1.cpp:74 | the comparison step: if the best so far is the first minimum of the points seen, the new best is the first minimum of those points and one more |
| Objective.Scan | csnorm/src/optimize_lambda1_eCprime.cpp:63-67 | the loop over candidates ends holding the first minimum of all points evaluated, and nothing exactly when none was |
| Objective.FirstMinimumMeaning | csnorm/src/optimize_lambda1.cpp:64-84 | the first minimum is the evaluation of one of the candidates, and no candidate has a strictly smaller BIC |
| Objective.FirstMinimumAscending | csnorm/src/optimize_lambda1_eCprime.cpp:66 | over ascending candidates, every candidate below the kept one has a strictly larger BIC, because `<` keeps the first of equal BICs |
| Objective.AtLeast | csnorm/src/optimize_lambda1.cpp:77 | keeps exactly the values `>= t` |
| Objective.Below | csnorm/src/optimize_lambda1.cpp:69 | keeps exactly the values `< t` |
| Objective.Within | csnorm/src/optimize_lambda1_eCprime.cpp:60 | keeps exactly the values in `[lo, hi]` |
| Objective.AtLeastAscending | csnorm/src/optimize_lambda1.cpp:77 | filtering an ascending sequence keeps it ascending |
| Objective.BelowAscending | csnorm/src/optimize_lambda1.cpp:69 | filtering an ascending sequence keeps it ascending |
| Objective.WithinAscending | csnorm/src/optimize_lambda1_eCprime.cpp:60 | filtering an ascending sequence keeps it ascending |
| Objective.AbsAll | csnorm/src/optimize_lambda1.cpp:56 | entry-wise absolute value |
| Objective.SortedEnds | csnorm/src/optimize_lambda1.cpp:112-113 | the first and last sorted patch values are the minimum and maximum patch slots |
| Objective.MaxAbsPermutation | csnorm/src/optimize_lambda1.cpp:108 | `max(abs(patchvals))` does not depend on the order of the patch values |
| Lambda1.Get | csnorm/src/optimize_lambda1.cpp:28-47 | `eCprime` is 0 and `lambda1` is echoed; the sentinel (largest BIC, no dof) is returned exactly when some forbidden value is forbidden at `lambda1`; otherwise dof is at most the number of cells |
| Lambda1.Bic | csnorm/src/optimize_lambda1.cpp:23-26 | the objective at `x` is the sentinel exactly when `10^x` is forbidden |
| Lambda1.AllowedIffAboveForbidden | csnorm/src/optimize_lambda1.cpp:31 | `lambda1` is allowed iff `max abs(fv) <= lambda1 + tol/2`, so every larger `lambda1` is allowed too |
| Lambda1.GetPenaltyBounds | csnorm/src/optimize_lambda1.cpp:40-42 | an allowed evaluation has `dof <= npatches` and `BIC >= log(sum ncounts) * dof` |
| Lambda1.LargePenaltyKillsAll | csnorm/src/optimize_lambda1.cpp:39-42 | when `lambda1` is at least every `abs(value)`, dof is 0 and BIC is the weighted squared error against 0 |
| Lambda1.LambdaCandidates | csnorm/src/optimize_lambda1.cpp:52-58 | every candidate is at least `lam1_min` |
| Lambda1.NearestFirst | csnorm/src/optimize_lambda1.cpp:69-73 | the first `k` values taken from the top of the list, nearest first |
| Lambda1.RefineOrder | csnorm/src/optimize_lambda1.cpp:64-83 | the visit order starts at `lam1_min` and only visits `lam1_min` or candidates |
| Lambda1.RefineVisitsNearest | csnorm/src/optimize_lambda1.cpp:69-83 | for sorted patch values, the visited candidates below `lam1` are the largest below it, and those at or above it are the smallest at or above it |
| Lambda1.RefineMinimum | csnorm/src/optimize_lambda1.cpp:49-85 | with no candidate it returns `get(lam1)`; otherwise it returns the first minimum over `lam1_min` and the visited candidates |
| Lambda1.RefineMinimumMeaning | csnorm/src/optimize_lambda1.cpp:64-84 | the refined result is the evaluation at `lam1_min` or at a candidate, no visited point has a strictly smaller BIC, and in particular it is no worse than `lam1_min` |
| Lambda1.ObjectiveFor | csnorm/src/optimize_lambda1.cpp:112-130 | builds a well-formed objective with `minval <= maxval`, and a non-empty forbidden set under `positive` |
| Lambda1.SearchMinimum | csnorm/src/optimize_lambda1.cpp:92 | `lmin >= lambda1_min` and `lmin >= tol/2`; under `positive` it is also at least `abs(fv[0])` and `abs(fv[last])` |
| Lambda1.SearchMaximum | csnorm/src/optimize_lambda1.cpp:114 | `lmax` is the larger of `abs(minval)` and `abs(maxval)` |
| Lambda1.CandidatesFromSlots | csnorm/src/optimize_lambda1.cpp:53-59 | the refinement has no candidate exactly when no patch slot yields one, whatever the slots' order |
| Lambda1.CppOptimizeLambda1 | csnorm/src/optimize_lambda1.cpp:87-159 | single patch: dof 0, `eCprime` 0, `lambda1 = max abs(patchvals)`, `BIC = sum weight*phihat^2`; `lmin > lmax`: `get(lmin)`; otherwise `get` at the Brent point when no patch value is a candidate, else `get` at some `lambda1 >= lmin` whose BIC is no worse than that of `get(lmin)` |
| Lambda1.SearchAndRefine | csnorm/src/optimize_lambda1.cpp:140-152 | the Brent-then-refine step returns `get` at the Brent point when there is no candidate, else a result no worse than `get(lmin)` |
| Lambda1ECprime.MinimumDiagonalValues | csnorm/src/optimize_lambda1_eCprime.cpp:49-55 | `max(diag_idx) + 1` entries; entry `d` is at most `max(value)` and at most every value on diagonal `d`, and it is either `max(value)` or one of those values |
| Lambda1ECprime.MinimumDiagonalBounds | csnorm/src/optimize_lambda1_eCprime.cpp:52-53 | a group minimum starting from `max(value)` is a lower bound of its group and is attained or equal to the start |
| Lambda1ECprime.GetMinimumDiagonalValues | csnorm/src/optimize_lambda1_eCprime.cpp:49-55 | the in-place loop computes exactly the per-diagonal minima |
| Lambda1ECprime.Offset | csnorm/src/optimize_lambda1_eCprime.cpp:34 | adds `eCprime` to every entry |
| Lambda1ECprime.Get | csnorm/src/optimize_lambda1_eCprime.cpp:23-38 | `lambda1` is echoed; the sentinel (largest BIC, no dof, `eCprime` 0) is returned exactly when the objective is constrained and some forbidden value is more than `lambda1 + tol` from `eCprime`; otherwise `eCprime` follows the range rule and dof is at most the number of cells |
| Lambda1ECprime.Bic | csnorm/src/optimize_lambda1_eCprime.cpp:21 | the objective at `x` is the sentinel exactly when `10^x` is forbidden under the constraint |
| Lambda1ECprime.GetPenaltyBounds | csnorm/src/optimize_lambda1_eCprime.cpp:32-34 | an allowed evaluation has `dof <= npatches` and `BIC >= lsnc * dof` |
| Lambda1ECprime.NarrowRangeHasNoDof | csnorm/src/optimize_lambda1_eCprime.cpp:24 | when the value range is below `2 lambda1 + tol`, the centred offset zeroes every value, so dof is 0 |
| Lambda1ECprime.WideRangeExtremes | csnorm/src/optimize_lambda1_eCprime.cpp:24 | on a wide range the offset `lambda1 + minval - tol` zeroes the minimum and keeps the maximum above `2 tol` |
| Lambda1ECprime.LambdaValues | csnorm/src/optimize_lambda1_eCprime.cpp:59 | one candidate `(patchval - patchvals[0] + tol)/2` per patch value |
| Lambda1ECprime.RefineMinimum | csnorm/src/optimize_lambda1_eCprime.cpp:57-69 | empty exactly when no candidate lies in `[lam1_min, lam1_max]`; otherwise the first minimum over the candidates in order |
| Lambda1ECprime.RefineMinimumMeaning | csnorm/src/optimize_lambda1_eCprime.cpp:57-69 | the refined result is `get` at one of the candidates inside the window, and no candidate has a strictly smaller BIC |
| Lambda1ECprime.RefineMinimumFirst | csnorm/src/optimize_lambda1_eCprime.cpp:63-66 | for sorted patch values, every window candidate below the refined `lambda1` has a strictly larger BIC (ties keep the smallest candidate) |
| Lambda1ECprime.ObjectiveFor | csnorm/src/optimize_lambda1_eCprime.cpp:87-98 | builds a well-formed objective with `minval <= maxval`, and a non-empty forbidden set when constrained |
| Lambda1ECprime.RaisedMinimum | csnorm/src/optimize_lambda1_eCprime.cpp:92-95 | the lower bound is at least `lambda1_min`, and when constrained at least `(max(fv) - minval)/2 + tol` |
| Lambda1ECprime.WindowLow | csnorm/src/optimize_lambda1_eCprime.cpp:113 | the refinement window never starts below `lambda1_min` |
| Lambda1ECprime.WindowHigh | csnorm/src/optimize_lambda1_eCprime.cpp:113 | the window ends at or above the Brent point |
| Lambda1ECprime.CppOptimizeLambda1ECprime | csnorm/src/optimize_lambda1_eCprime.cpp:71-116 | single patch: `eCprime = patchvals[0]`, `lambda1 = lambda1_min`, dof 0 and the weighted error against `beta + patchvals[0]`; narrow range: `get(lambda1_min)`; otherwise the error result exactly when the window around the Brent point holds no candidate, else `get` at a candidate `(slot - minval + tol)/2` of some patch slot inside the window, with no window candidate strictly better and every smaller window candidate strictly worse |
| Lambda1ECprime.RefineAroundBrent | csnorm/src/optimize_lambda1_eCprime.cpp:104-115 | refines in the window `[max(lam1(1 - p/100), lmin), lam1(1 + p/100)]` around the Brent point `lam1`: nothing exactly when no patch slot gives a candidate there, else `get` at a slot candidate in the window, no window candidate strictly better, every smaller one strictly worse |
| Lambda1ECprime.RefineInWindow | csnorm/src/optimize_lambda1_eCprime.cpp:113-115 | nothing exactly when no patch slot gives a candidate in the window; otherwise `get` at a slot candidate in the window, with no window candidate strictly better and every smaller window candidate strictly worse |
| Lambda1ECprime.RefinedFromCandidates | csnorm/src/optimize_lambda1_eCprime.cpp:57-69 | the first best candidate from the sorted patch values is, among the patch slots, a slot candidate, best, and strictly better than every smaller one |
| Lambda1ECprime.CandidatesFromSlots | csnorm/src/optimize_lambda1_eCprime.cpp:59-60 | `patchvals[0]` is the smallest slot; the sorted values give the same candidates in the window as the slots, and every candidate comes from a slot |
| FastBinless.NormalResiduals | csnorm/src/fast_binless.cpp:13-30 | one residual and one weight per observation |
| FastBinless.GetNormalResiduals | csnorm/src/fast_binless.cpp:13-30 | the loop computes the normal residual pairs |
| FastBinless.NormalResidualsDropZeros | csnorm/src/fast_binless.cpp:21-27 | weights are 0 or 1; a weight is 0 exactly when the count is `<= 0`, and then the weighted residual is 0 |
| FastBinless.ExpectedCount | csnorm/src/fast_binless.cpp:41 | the expected count is positive |
| FastBinless.PoissonResiduals | csnorm/src/fast_binless.cpp:33-46 | one residual and one weight per observation |
| FastBinless.GetPoissonResiduals | csnorm/src/fast_binless.cpp:33-46 | the loop computes the Poisson residual pairs |
| FastBinless.PoissonResidualsMeaning | csnorm/src/fast_binless.cpp:41-43 | every weight is positive, and residual times weight equals observed minus expected |
| FastBinless.DatasetSums | csnorm/src/fast_binless.cpp:55-59 | entry `d` is the sum over the rows of dataset `d + 1` |
| FastBinless.ExposureUpdates | csnorm/src/fast_binless.cpp:62-64 | one updated exposure per dataset |
| FastBinless.AccumulateByName | csnorm/src/fast_binless.cpp:55-59 | the accumulation loop computes the per-dataset sums of weighted residuals and weights |
| FastBinless.DatasetWeightsPositive | csnorm/src/fast_binless.cpp:58-63 | every dataset with rows has a positive weight sum, so the division is defined |
| FastBinless.NewExposures | csnorm/src/fast_binless.cpp:48-66 | one exposure per dataset |
| FastBinless.FastComputeExposures | csnorm/src/fast_binless.cpp:48-66 | the two loops compute the new exposures |
| FastBinless.WeightedResidualSums | csnorm/src/fast_binless.cpp:57 | a keyed sum of weighted Poisson residuals is the keyed sum of observed minus the keyed sum of expected |
| FastBinless.ExposureUpdateMeaning | csnorm/src/fast_binless.cpp:48-66 | the new exposure of dataset `d` is its observed total over its expected total, minus 1, plus the old exposure |
| FastBinless.BinAverage | csnorm/src/fast_binless.cpp:93-94 | with zero weight the old value is kept; otherwise the move times the weight sum is the weighted residual sum |
| FastBinless.Averaged | csnorm/src/fast_binless.cpp:92-94 | entry-wise bin average |
| FastBinless.Centred | csnorm/src/fast_binless.cpp:95-102 | one centred value per bin |
| FastBinless.CentredHasZeroWeightedMean | csnorm/src/fast_binless.cpp:89-102 | subtracting the weighted average leaves a zero weighted mean |
| FastBinless.Recentre | csnorm/src/fast_binless.cpp:89-102 | the average-then-subtract loops compute the centred averages |
| FastBinless.AddCurrent | csnorm/src/fast_binless.cpp:92-97 | the loop computes the bin averages, their weighted sum and the weight total |
| FastBinless.SubtractAll | csnorm/src/fast_binless.cpp:100-102 | subtracts the average from every entry |
| FastBinless.BinSums | csnorm/src/fast_binless.cpp:76-87 | entry `b` sums the cells with `bin1` or `bin2` equal to `b + 1`, counting a diagonal cell once |
| FastBinless.Diagonals | csnorm/src/fast_binless.cpp:118 | each cell's counter-diagonal is `bin2 - bin1` |
| FastBinless.DiagonalSums | csnorm/src/fast_binless.cpp:115-120 | entry `d` sums the cells on counter-diagonal `d` |
| FastBinless.AccumulateByBin | csnorm/src/fast_binless.cpp:76-87 | the loop computes the per-bin sums, adding an off-diagonal cell to both bins |
| FastBinless.AccumulateByDiagonal | csnorm/src/fast_binless.cpp:115-120 | the loop computes the per-diagonal sums |
| FastBinless.BinWeightsPositive | csnorm/src/fast_binless.cpp:96-98 | the total bin weight is positive, so the average is defined |
| FastBinless.DiagonalWeightsPositive | csnorm/src/fast_binless.cpp:129-131 | the total diagonal weight is positive, so the average is defined |
| FastBinless.NewLogBiases | csnorm/src/fast_binless.cpp:68-104 | one log bias per bin |
| FastBinless.FastComputeLogBiases | csnorm/src/fast_binless.cpp:68-104 | the three loops compute the new log biases |
| FastBinless.NewLogBiasesCentred | csnorm/src/fast_binless.cpp:89-102 | the new log biases have zero weighted mean under the per-bin weight sums |
| FastBinless.BinCorrection | csnorm/src/fast_binless.cpp:76-94 | for a bin with weight, the move times the expected total equals observed minus expected; a bin without weight keeps its bias |
| FastBinless.NewLogDecay | csnorm/src/fast_binless.cpp:107-137 | one log decay value per diagonal |
| FastBinless.FastComputeLogDecay | csnorm/src/fast_binless.cpp:107-137 | the three loops compute the new log decay |
| FastBinless.NewLogDecayCentred | csnorm/src/fast_binless.cpp:122-135 | the new log decay has zero weighted mean under the per-diagonal weight sums |
| FastBinless.DiagonalResidualSums | csnorm/src/fast_binless.cpp:115-120 | per diagonal, the weighted residual sum is the observed total minus the expected total |
| FastBinless.DiagonalCorrection | csnorm/src/fast_binless.cpp:115-127 | for a diagonal with weight, the move times the expected total equals observed minus expected; a diagonal without weight keeps its value |
| FastBinless.Minus | csnorm/src/fast_binless.cpp:145 | entry-wise difference |
| FastBinless.LargestMoveZero | csnorm/src/fast_binless.cpp:140-145 | the largest move is non-negative, and 0 exactly when the weights did not change |
| FastBinless.PrecisionMeaning | csnorm/src/fast_binless.cpp:139-150 | a defined precision is non-negative, and 0 exactly when the weights did not change |
| FastBinless.MoveAndRange | csnorm/src/fast_binless.cpp:140-148 | the loop computes the largest move and the minimum and maximum weight |
| FastBinless.FastPrecision | csnorm/src/fast_binless.cpp:139-150 | returns the largest move over the weight range, or nothing when the range is 0 |
| FastBinless.RowKeys | csnorm/src/fast_binless.cpp:163-168 | each cell's zero-based `(bin, dataset)` row key |
| FastBinless.DiagKeys | csnorm/src/fast_binless.cpp:165 | each cell's `(counter-diagonal, dataset)` key |
| FastBinless.RowMatch | csnorm/src/fast_binless.cpp:166-169 | a cell counts for row `b` of dataset `nm` iff it is in that dataset and `b` is one of its two bins |
| FastBinless.DiagMatch | csnorm/src/fast_binless.cpp:165 | a cell counts for diagonal `d` of dataset `nm` iff it is in that dataset and on that diagonal |
| FastBinless.Lower | csnorm/src/fast_binless.cpp:165 | lowers one table entry to the minimum with a value and leaves the others unchanged |
| FastBinless.LowerRows | csnorm/src/fast_binless.cpp:166-169 | lowers the entries of both bins of a cell, once when they coincide, and nothing else |
| FastBinless.RowMinimaStep | csnorm/src/fast_binless.cpp:161-170 | one visit keeps the row table equal to the minima over the cells seen so far |
| FastBinless.DiagMinimaStep | csnorm/src/fast_binless.cpp:161-170 | one visit keeps the diagonal table equal to the minima over the cells seen so far |
| FastBinless.Filled | csnorm/src/fast_binless.cpp:159-160 | an `nbins x ndatasets` table holding `max_signal` everywhere |
| FastBinless.VisitObservation | csnorm/src/fast_binless.cpp:161-170 | the loop body extends both minima tables by one cell |
| FastBinless.SignalMinima | csnorm/src/fast_binless.cpp:157-170 | the tables end holding the row and diagonal minima over all cells, starting from `max(log_signal)` |
| FastBinless.MinimaStart | csnorm/src/fast_binless.cpp:159-160 | the filled tables are the minima over no cells |
| FastBinless.MinimaDone | csnorm/src/fast_binless.cpp:161-170 | after all cells, every table entry is the row or diagonal minimum |
| FastBinless.LowerSignal | csnorm/src/fast_binless.cpp:173-180 | each signal is lowered by its adjustment read from the tables, floored at 0 |
| FastBinless.DegeneracyRemoved | csnorm/src/fast_binless.cpp:152-183 | one adjusted signal per cell |
| FastBinless.DegeneracyRemovedAt | csnorm/src/fast_binless.cpp:177-178 | cell `i` is its signal minus its adjustment, floored at 0 |
| FastBinless.FastRemoveSignalDegeneracy | csnorm/src/fast_binless.cpp:152-183 | the two loops compute the degeneracy-removed signal |
| FastBinless.LoweredByMinima | csnorm/src/fast_binless.cpp:173-180 | lowering by the completed tables gives the degeneracy-removed signal |
| FastBinless.AdjustmentFromMinima | csnorm/src/fast_binless.cpp:177 | the adjustment read from the completed tables is the largest of the two row minima and the diagonal minimum |
| FastBinless.AdjustmentBelowSignal | csnorm/src/fast_binless.cpp:177-178 | the adjustment never exceeds the cell's own signal, so the floor at 0 is never needed |
| FastBinless.DatasetMinima | csnorm/src/fast_binless.cpp:188-194 | the loop computes each dataset's minimum signal, starting from `max(log_signal)` |
| FastBinless.ShiftedSignal | csnorm/src/fast_binless.cpp:196-199 | each signal minus its dataset's minimum, floored at 0 |
| FastBinless.FastShiftSignal | csnorm/src/fast_binless.cpp:185-201 | the two loops compute the shifted signal |
| FastBinless.ShiftSignalMeaning | csnorm/src/fast_binless.cpp:190-199 | the floor is never needed; every dataset with rows has a row whose shifted signal is exactly 0 |
| FastBinless.FastSignalData.LogExpected | csnorm/src/fast_binless.cpp:18 | one expected log count per observation |
| FastBinless.FastSignalData.constructor | csnorm/src/fast_binless.cpp:206 | stores the observations and the initial estimates |
| FastBinless.UpdateBiasesAndDecay | csnorm/src/fast_binless.cpp:214-221 | biases are recomputed from the current state, then the decay from the state with the new biases; nothing else changes |
| FastBinless.UpdateSignal | csnorm/src/fast_binless.cpp:224-239 | the new signal is the shifted or the degeneracy-removed fit, and the fit's phihat and weights are stored |
| FastBinless.UpdateExposures | csnorm/src/fast_binless.cpp:241-243 | the new estimates are `ExposuresUpdated` of the old ones: exposures recomputed from the state after the signal update; nothing else changes |
| FastBinless.Step | csnorm/src/fast_binless.cpp:212-248 | one Gibbs step follows the state before it (`StepFollows`): its precision compares the fit's weights with the old ones; biases come from the old state, decay from the state with the new biases, the signal is the shifted fit exactly when converged or last and the degeneracy-removed fit otherwise, exposures come from the result; the object and the diagnostic hold the new estimates, and the fit's `phihat` and weights |
| FastBinless.StepCentred | csnorm/src/fast_binless.cpp:216-221 | after a step, the new biases and decay have zero weighted mean under the Poisson weights of the state they were computed from |
| FastBinless.StepSignal | csnorm/src/fast_binless.cpp:225-239 | after a step every log signal is non-negative; a converged or last step leaves some row of every dataset at exactly 0; any other step leaves each fitted signal minus its degeneracy adjustment |
| FastBinless.StepPrecision | csnorm/src/fast_binless.cpp:230-232 | a step's precision, when defined, is non-negative and 0 exactly when the weights did not move; the step converged exactly when it is defined and below `tol_val` |
| FastBinless.RecordedSnoc | csnorm/src/fast_binless.cpp:244 | appending a diagnostic that follows the last one keeps every entry following its predecessor |
| FastBinless.GibbsIteration | csnorm/src/fast_binless.cpp:212-249 | appends one diagnostic, which follows the previous entry (or the initial state) with fit `k + 1`; the object then holds its estimates and fit `k + 1`; stops exactly when that step converged |
| FastBinless.FastBinless | csnorm/src/fast_binless.cpp:203-255 | the initial exposures are recomputed; at most `ngibbs` steps and at least one when `ngibbs > 0`; entry `k` follows entry `k - 1` (or the initial state) with fit `k + 1` and the previous fit's weights; only the last step can have converged and stopping early means it did; the object ends with the last entry's estimates and the last fit's `phihat` and weights |
| FastDecay.DiagonalCounts | binless/src/fast_decay.cpp:38 | entry `d` counts the observations on counter-diagonal `d` |
| FastDecay.DiagonalTotals | binless/src/fast_decay.cpp:32-39 | the loop computes the per-diagonal sums of observed, expected and distance, and the counts |
| FastDecay.PopulatedDiagonal | binless/src/fast_decay.cpp:35-38 | with positive weights a diagonal has observations iff its weight sum is positive; an empty diagonal sums to 0 |
| FastDecay.MeanDistance | binless/src/fast_decay.cpp:40 | undefined exactly when the count is 0; otherwise mean times count is the sum |
| FastDecay.MeanDistances | binless/src/fast_decay.cpp:40 | entry-wise mean distance |
| FastDecay.ExpectedCounts | binless/src/fast_decay.cpp:34 | one positive expected count per observation |
| FastDecay.FindZeroDiagonal | binless/src/fast_decay.cpp:43-48 | reports a zero exactly when some diagonal's observed sum is 0 |
| FastDecay.SumShift | binless/src/fast_decay.cpp:52 | shifting every entry by `c` lowers the sum by `n c` |
| FastDecay.CentredSumZero | binless/src/fast_decay.cpp:51-52 | subtracting the mean leaves a zero sum |
| FastDecay.ExpectedPositive | binless/src/fast_decay.cpp:43-49 | past the abort check every diagonal has observations and a positive expected sum, so the ratio is defined |
| FastDecay.LogRatios | binless/src/fast_decay.cpp:49 | entry `d` is `log(sum_obs[d]/sum_exp[d])` |
| FastDecay.CentredLogDecay | binless/src/fast_decay.cpp:49-52 | one log decay value per diagonal |
| FastDecay.Defined | binless/src/fast_decay.cpp:53 | every entry defined |
| FastDecay.ExpAll | binless/src/fast_decay.cpp:53 | entry-wise `exp` |
| FastDecay.ComputePoissonLsqLogDecay | binless/src/fast_decay.cpp:20-54 | the loops compute the least-squares log decay summary, or the abort |
| FastDecay.PoissonLsqLogDecayAborts | binless/src/fast_decay.cpp:43-53 | aborts exactly when some diagonal's observed sum is 0; otherwise returns the centred log decay, its `exp` as weight and the counts |
| FastDecay.PoissonLsqDistances | binless/src/fast_decay.cpp:40 | past the abort every diagonal's distance is defined, and it is the sum of distances over the count |
| FastDecay.CentredLogDecayMeaning | binless/src/fast_decay.cpp:49-52 | expected sums are positive; the log decay sums to 0; it is the log ratio minus the mean log ratio |
| FastDecay.WeightAverage | binless/src/fast_decay.cpp:78 | 0 for a zero weight; otherwise average times weight is the sum |
| FastDecay.WeightAverages | binless/src/fast_decay.cpp:77-79 | entry-wise weight average |
| FastDecay.AverageByWeight | binless/src/fast_decay.cpp:77-79 | the loop computes the weight averages |
| FastDecay.AddCurrentDecay | binless/src/fast_decay.cpp:80-81 | adds the current decay at log distance; undefined where the distance is |
| FastDecay.Summary | binless/src/fast_decay.cpp:75-82 | the summary keeps the weights and counts and has one distance and one `kappahat` per diagonal |
| FastDecay.DecaySummaryOf | binless/src/fast_decay.cpp:56-83 | all four fields have one entry per diagonal |
| FastDecay.GetDecaySummary | binless/src/fast_decay.cpp:56-83 | the loops compute the decay summary |
| FastDecay.DecaySummaryDefined | binless/src/fast_decay.cpp:67-82 | a diagonal has observations iff its weight is positive, iff its distance is defined, iff its `kappahat` is defined; the weight is the expected total |
| FastDecay.DecaySummaryCorrection | binless/src/fast_decay.cpp:67-81 | where defined, `(kappahat - current decay) * weight` equals observed total minus weight |
| FastDecay.SummaryCorrection | binless/src/fast_decay.cpp:75-82 | the same correction identity for any summary built from residual sums |
| FastDecay.MovedBy | binless/src/fast_decay.cpp:78-81 | adding the current value to a weight average moves it by exactly `sum / weight` |

## Left out

- The ADMM fused-lasso solver: its `prepare`/`optimize` bodies, `setUp`, `alpha`, `inflate` and the inner-iteration count are not part of this model. `Estimator.GFLLibrary.Optimize` takes the solution and the iteration count as parameters and logs the calls. So only the delegation order and the read-out are modelled.
- `CandidatesGenerator.hpp`, `SparsityEstimator.hpp`, `optimize_lambda1_eCprime.hpp` and `perf_iteration_signal.hpp` are not part of this model. They compose or declare functions whose bodies are not available.
- Boost's `brent_find_minima` is a function parameter `brent(a, b)`. The model only uses the point it returns; the Brent iteration, `bits` and `maxiter` are not modelled.
- Boost's connected components (`boost_build_patch_graph_components`) is not part of this model. `patchno` and the component count `ncomponents` are inputs.
- `print_2d_connectivity_graph` and the graph's `std::cout` traces are not modelled: they are printing plus a Boost connected-components call. The graph itself is modelled as a coordinate list and an edge list.
- `get_constant_diagonal_values` (the non-`positive` branch of `cpp_optimize_lambda1`) is not part of this model. Its result is the parameter `constantDiagValues`.
- `fast_compute_signal` (the per-dataset fused-lasso signal fit) is not part of this model. `FastBinless.FastBinless` takes its per-step output through the function parameter `fit`.
- `FastSignalData`'s expected-count model (`get_log_expected`) and binless's decay evaluation are not part of this model. They are the function parameters `expectedModel` and `logDecayAt`, and binless's own residuals are taken to be `FastBinless.PoissonResiduals`.
- binless's `spline_log_decay_fit` and `step_log_decay` are not modelled. They are a GAM fit built on a sparse-matrix library.
- Rcpp data marshalling, all printing, the `std::clock` timings (`c_init`, `c_brent`, `c_refine`), the 100-point `grid` evaluation loop of `cpp_optimize_lambda1_eCprime`, and the printed `max_adjust` of `fast_remove_signal_degeneracy` are not modelled. None of them changes a result.
- Floating point: reals stand for doubles, and rounding is not modelled. The largest-double BIC sentinel is `Score.Largest`. An infinite variance is `Variance.InfiniteVariance`. A `0/0` mean distance is `None`. `exp`, `log`, `log10` and `pow10` are uninterpreted apart from `exp > 0` and `pow10 > 0`.
- FastBinless.Precision: returns `None` when the weight range is 0, where the source's quotient is infinite or not a number. Such a precision compares false with every tolerance, so it never converges, which is how the source behaves.
- `get_as_dataframe` is not part of this model. Each entry of `diagnostics` is a `FastBinless.Diagnostic` holding the estimates the data frame is built from, plus the step number, the precision and the two flags the loop computed. The returned list is the object's final state.
- FastBinless.FastSignalData.LogExpected: only its length is stated, because the expected-count model is a parameter.
- Util.GetPatchValues: is also the model of the identical copy of `get_patch_values` in `optimize_lambda1_eCprime.cpp` (lines 40-47). The two definitions do not differ.
- Bounds.IsValid: `is_valid` of `PositiveSign` reads `min(beta)`, and that of `ForbidDegeneracy` reads `minval`/`maxval`, although the stored members are `beta_`, `minval_` and `maxval_` (BoundsChecker.hpp lines 19 and 43). The model uses the stored members, which is evidently what was meant.
- Estimator.FusedLassoGeneralizedEstimator.constructor: the base-class constructor that would set `clamp_` is not part of this model. The clamp limit is taken as a constructor parameter.
- Lambda1ECprime.CppOptimizeLambda1ECprime: when the refinement window holds no candidate, `refine_minimum` returns an empty vector, and reading its `lambda1` fails. The model returns `None` in that case.
- Lambda1.CppOptimizeLambda1: in the refined case the contract states only that the result is `get` at some `lambda1 >= lmin` that is no worse than `get(lmin)`. It does not name the candidate. The exact visit order and first-minimum choice are stated by `Lambda1.RefineMinimum`.
- Lambda1.SearchAndRefine: states the same weaker property as `Lambda1.CppOptimizeLambda1`, for the same reason.
- The loops of `refine_minimum`, `fast_remove_signal_degeneracy` and the accumulators are split into helper methods (`Objective.Scan`, `FastBinless.VisitObservation`, `FastBinless.AccumulateByBin`, …), with one loop or loop body each. Their order of evaluation is the source's.
