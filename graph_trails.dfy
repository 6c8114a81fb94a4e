/** Trail decomposition of the upper-triangular grid
    (csnorm/src/gfl/src/graph_trails.cpp).

    The grid of size `n` holds the cells `(b1, b2)` with `1 <= b1 <= b2 <= n`,
    numbered row-major from 0. The decomposition emits one chain per row
    (except the last, single-cell row) and one chain per column (except the
    first, single-cell column); chains of the two families overlap. */
module GraphTrails {

  // ---------------------------------------------------------------------
  // Row-major numbering of the triangle
  // ---------------------------------------------------------------------

  /** Number of cells of the triangle, `n(n+1)/2`. */
  function GridSize(n: nat): nat
  {
    n * (n + 1) / 2
  }

  /** Linear index of the first cell of the 0-based row `k`. */
  function RowStart(n: nat, k: nat): nat
    requires k <= n
  {
    if k == 0 then 0 else RowStart(n, k - 1) + (n - (k - 1))
  }

  /** Linear index of cell `(b1, b2)`. */
  function CellIndex(n: nat, b1: nat, b2: nat): (r: nat)
    requires 1 <= b1 <= b2 <= n
    ensures r < GridSize(n)
  {
    RowStartMonotone(n, b1, n);
    RowStartEnd(n);
    RowStart(n, b1 - 1) + (b2 - b1)
  }

  /** `x` is the index of some cell. */
  ghost predicate IsCellIndex(n: nat, x: int)
  {
    exists b1, b2 :: ValidCell(n, b1, b2) && CellIndex(n, b1, b2) == x
  }

  predicate ValidCell(n: nat, b1: int, b2: int)
  {
    1 <= b1 <= b2 <= n
  }

  lemma {:induction false} RowStartClosedForm(n: nat, k: nat)
    requires k <= n
    ensures 2 * RowStart(n, k) == k * (2 * n - k + 1)
  {
    if k > 0 {
      RowStartClosedForm(n, k - 1);
      assert (k - 1) * (2 * n - k + 2) == k * (2 * n - k + 1) - 2 * (n - k + 1);
    }
  }

  /** The rows together hold exactly `n(n+1)/2` cells. */
  lemma RowStartEnd(n: nat)
    ensures RowStart(n, n) == GridSize(n)
  {
    RowStartClosedForm(n, n);
    assert 2 * RowStart(n, n) == n * (n + 1);
  }

  lemma {:induction false} RowStartMonotone(n: nat, a: nat, b: nat)
    requires a <= b <= n
    ensures RowStart(n, a) + (b - a) <= RowStart(n, b)
  {
    if a < b {
      RowStartMonotone(n, a, b - 1);
    }
  }

  /** Rows above the last hold at least two cells each. */
  lemma {:induction false} RowStartStep(n: nat, a: nat, b: nat)
    requires a <= b < n
    ensures RowStart(n, a) + 2 * (b - a) <= RowStart(n, b)
  {
    if a < b {
      RowStartStep(n, a, b - 1);
    }
  }

  /** Every linear index below `n(n+1)/2` lies in exactly one row. */
  lemma {:induction false} FindRow(n: nat, x: nat) returns (k: nat)
    requires x < RowStart(n, n)
    ensures k < n && RowStart(n, k) <= x < RowStart(n, k + 1)
  {
    k := 0;
    while RowStart(n, k + 1) <= x
      invariant k < n && RowStart(n, k) <= x
      decreases n - k
    {
      k := k + 1;
      if k == n {
        assert false;
      }
    }
  }

  /** The numbering is a bijection between the cells and `[0, n(n+1)/2)`. */
  lemma CellIndexBijective(n: nat)
    ensures forall b1, b2, c1, c2 :: (ValidCell(n, b1, b2) && ValidCell(n, c1, c2) &&
              CellIndex(n, b1, b2) == CellIndex(n, c1, c2)) ==> b1 == c1 && b2 == c2
    ensures forall x :: 0 <= x < GridSize(n) ==> IsCellIndex(n, x)
  {
    RowStartEnd(n);
    forall b1, b2, c1, c2 | ValidCell(n, b1, b2) && ValidCell(n, c1, c2) && CellIndex(n, b1, b2) == CellIndex(n, c1, c2)
      ensures b1 == c1 && b2 == c2
    {
      if b1 < c1 {
        RowStartMonotone(n, b1, c1 - 1);
      } else if c1 < b1 {
        RowStartMonotone(n, c1, b1 - 1);
      }
    }
    forall x | 0 <= x < GridSize(n) ensures IsCellIndex(n, x) {
      var k := FindRow(n, x);
      assert ValidCell(n, k + 1, k + 1 + (x - RowStart(n, k))) && CellIndex(n, k + 1, k + 1 + (x - RowStart(n, k))) == x;
    }
  }

  // ---------------------------------------------------------------------
  // boost_triangle_grid_chain
  // ---------------------------------------------------------------------

  /** Chain of the 0-based row `k`: its cells left to right, i.e. the run of
      consecutive indices `RowStart(k) .. RowStart(k+1) - 1`. */
  function RowChain(n: nat, k: nat): (r: seq<int>)
    requires k < n
    ensures |r| == n - k
    ensures forall j :: 0 <= j < |r| ==> r[j] == CellIndex(n, k + 1, k + 1 + j)
  {
    seq(n - k, j requires 0 <= j < n - k => RowStart(n, k) + j)
  }

  /** Chain of column `c` (1-based): its cells top to bottom. */
  function ColumnChain(n: nat, c: nat): (r: seq<int>)
    requires 1 <= c <= n
    ensures |r| == c
    ensures forall i :: 0 <= i < c ==> r[i] == CellIndex(n, i + 1, c)
  {
    seq(c, i requires 0 <= i < c => RowStart(n, i) + c - 1 - i)
  }

  /** The chains of the decomposition: rows `0 .. n-2`, then columns `2 .. n`. */
  function TriangleGridChains(n: nat): seq<seq<int>>
  {
    if n == 0 then []
    else seq(n - 1, k requires 0 <= k < n - 1 => RowChain(n, k))
         + seq(n - 1, j requires 0 <= j < n - 1 => ColumnChain(n, j + 2))
  }

  /** `boost_triangle_grid_chain`: rows of consecutive numbers, then columns
      following `U(i+1) = U(i) + (nrow - i)`. */
  method BoostTriangleGridChain(nrow: nat) returns (chains: seq<seq<int>>)
    ensures chains == TriangleGridChains(nrow)
  {
    chains := RowChains(nrow);
    var columns := ColumnChains(nrow);
    chains := chains + columns;
  }

  /** First loop of `boost_triangle_grid_chain`: consecutive indices are
      pushed into `current`, which is emitted whenever it reaches the current
      row length `l`; the final single-cell row is never emitted. */
  method RowChains(nrow: nat) returns (chains: seq<seq<int>>)
    ensures nrow == 0 ==> chains == []
    ensures nrow >= 1 ==> chains == seq(nrow - 1, k requires 0 <= k < nrow - 1 => RowChain(nrow, k))
  {
    var ntotal := nrow * (nrow + 1) / 2 - 1;
    RowStartEnd(nrow);
    chains := [];
    var l: int := nrow;
    var current: seq<int> := [0];
    var i := 1;
    while i <= ntotal
      invariant 1 <= i && (nrow >= 1 ==> i <= ntotal + 1)
      invariant nrow >= 1 ==> 1 <= l <= nrow
      invariant nrow >= 1 ==> RowStart(nrow, nrow - l) < i <= RowStart(nrow, nrow - l + 1)
      invariant nrow >= 1 ==> current == seq(i - RowStart(nrow, nrow - l), j requires 0 <= j < i - RowStart(nrow, nrow - l) => RowStart(nrow, nrow - l) + j)
      invariant nrow >= 1 ==> chains == seq(nrow - l, k requires 0 <= k < nrow - l => RowChain(nrow, k))
      invariant nrow == 0 ==> chains == []
    {
      if |current| == l {
        ghost var k := nrow - l;
        assert current == RowChain(nrow, k);
        assert k + 1 < nrow;
        chains := chains + [current];
        current := [i];
        l := l - 1;
      } else {
        current := current + [i];
      }
      i := i + 1;
    }
    if nrow >= 1 {
      ghost var k := nrow - l;
      if k + 1 < nrow {
        RowStartMonotone(nrow, k + 1, nrow);
      }
      assert k == nrow - 1;
    }
  }

  /** Second loop of `boost_triangle_grid_chain`: for each `U1` in
      `2 .. nrow`, the chain `U1-1, ...` where each index is the previous one
      plus `nrow - i`. */
  method ColumnChains(nrow: nat) returns (chains: seq<seq<int>>)
    ensures nrow == 0 ==> chains == []
    ensures nrow >= 1 ==> chains == seq(nrow - 1, j requires 0 <= j < nrow - 1 => ColumnChain(nrow, j + 2))
  {
    chains := [];
    var u1 := 2;
    while u1 <= nrow
      invariant 2 <= u1 && (u1 <= nrow + 1 || u1 == 2)
      invariant chains == seq(u1 - 2, j requires 0 <= j < u1 - 2 => ColumnChain(nrow, j + 2))
    {
      var ui := u1;
      var current := [ui - 1];
      var step := 1;
      while step < u1
        invariant 1 <= step <= u1
        invariant current == ColumnChain(nrow, u1)[..step]
        invariant ui == current[step - 1] + 1
      {
        var uip1 := ui + nrow - step;
        current := current + [uip1 - 1];
        ui := uip1;
        step := step + 1;
      }
      assert current == ColumnChain(nrow, u1);
      chains := chains + [current];
      u1 := u1 + 1;
    }
  }

  /** Shape of the row chains: `n-1` of them, of lengths `n, n-1, ..., 2`,
      each a run of consecutive indices, the first starting at 0 and each
      starting right after the previous one ends. */
  lemma RowChainShape(n: nat, k: nat)
    requires 1 <= n && k < n - 1
    ensures |TriangleGridChains(n)| == 2 * (n - 1)
    ensures TriangleGridChains(n)[k] == RowChain(n, k)
    ensures |RowChain(n, k)| == n - k >= 2
    ensures forall j :: 0 < j < n - k ==> RowChain(n, k)[j] == RowChain(n, k)[j - 1] + 1
    ensures RowChain(n, 0)[0] == 0
    ensures k > 0 ==> RowChain(n, k)[0] == RowChain(n, k - 1)[n - k] + 1
  {
  }

  /** Shape of the column chain of column `c`: `c` elements, starting at
      `c-1`, the step into element `i` being `n - i`. */
  lemma ColumnChainShape(n: nat, c: nat)
    requires 2 <= c <= n
    ensures TriangleGridChains(n)[n - 1 + c - 2] == ColumnChain(n, c)
    ensures |ColumnChain(n, c)| == c && ColumnChain(n, c)[0] == c - 1
    ensures forall i :: 1 <= i < c ==> ColumnChain(n, c)[i] == ColumnChain(n, c)[i - 1] + (n - i)
  {
  }

  predicate StrictlyIncreasing(s: seq<int>)
  {
    forall i, j :: 0 <= i < j < |s| ==> s[i] < s[j]
  }

  /** Every row chain is strictly increasing and stays inside the grid. */
  lemma RowChainIncreasingInRange(n: nat, k: nat)
    requires k < n
    ensures StrictlyIncreasing(RowChain(n, k))
    ensures forall j :: 0 <= j < |RowChain(n, k)| ==> 0 <= RowChain(n, k)[j] < GridSize(n)
  {
  }

  /** Every column chain is strictly increasing and stays inside the grid. */
  lemma ColumnChainIncreasingInRange(n: nat, c: nat)
    requires 1 <= c <= n
    ensures StrictlyIncreasing(ColumnChain(n, c))
    ensures forall j :: 0 <= j < |ColumnChain(n, c)| ==> 0 <= ColumnChain(n, c)[j] < GridSize(n)
  {
    var ch := ColumnChain(n, c);
    forall i, j | 0 <= i < j < c ensures ch[i] < ch[j] {
      RowStartStep(n, i, j);
    }
  }

  /** Every chain of the decomposition is strictly increasing and stays
      inside the grid. */
  lemma ChainsIncreasingInRange(n: nat, t: nat)
    requires t < |TriangleGridChains(n)|
    ensures StrictlyIncreasing(TriangleGridChains(n)[t])
    ensures forall j :: 0 <= j < |TriangleGridChains(n)[t]| ==> 0 <= TriangleGridChains(n)[t][j] < GridSize(n)
  {
    if t < n - 1 {
      assert TriangleGridChains(n)[t] == RowChain(n, t);
      RowChainIncreasingInRange(n, t);
    } else {
      var c := t - (n - 1) + 2;
      assert TriangleGridChains(n)[t] == ColumnChain(n, c);
      ColumnChainIncreasingInRange(n, c);
    }
  }

  /** `x` appears in one of the chains. */
  ghost predicate InSomeChain(chains: seq<seq<int>>, x: int)
  {
    exists t, j :: 0 <= t < |chains| && 0 <= j < |chains[t]| && chains[t][j] == x
  }

  /** For `n >= 2` every cell lies in some chain (in fact every cell outside
      the last row lies in its row's chain, and every cell outside the first
      column in its column's chain); for `n <= 1` there is no chain. */
  lemma ChainsCoverGrid(n: nat)
    ensures n <= 1 ==> TriangleGridChains(n) == []
    ensures n >= 2 ==> forall x :: 0 <= x < GridSize(n) ==> InSomeChain(TriangleGridChains(n), x)
  {
    if n >= 2 {
      RowStartEnd(n);
      var chains := TriangleGridChains(n);
      forall x | 0 <= x < GridSize(n) ensures InSomeChain(chains, x) {
        var k := FindRow(n, x);
        if k < n - 1 {
          assert chains[k][x - RowStart(n, k)] == x;
        } else {
          assert RowStart(n, n) == RowStart(n, n - 1) + 1;
          assert chains[2 * (n - 1) - 1] == ColumnChain(n, n);
          assert chains[2 * (n - 1) - 1][n - 1] == x;
        }
      }
    }
  }

  // ---------------------------------------------------------------------
  // boost_chains_to_trails
  // ---------------------------------------------------------------------

  /** Concatenation of all chains. */
  function Flatten(chains: seq<seq<int>>): seq<int>
  {
    if |chains| == 0 then [] else Flatten(chains[..|chains| - 1]) + chains[|chains| - 1]
  }

  /** The cumulative end offsets of the chains, skipping those that are 0
      (empty leading chains). */
  function Breakpoints(chains: seq<seq<int>>): seq<nat>
  {
    if |chains| == 0 then []
    else Breakpoints(chains[..|chains| - 1])
         + (if |Flatten(chains)| > 0 then [|Flatten(chains)|] else [])
  }

  /** `boost_chains_to_trails`: the chains concatenated into `trails`, with
      the end offset of each chain pushed as a breakpoint. */
  method BoostChainsToTrails(chains: seq<seq<int>>) returns (ntrails: nat, trails: seq<int>, breakpoints: seq<nat>)
    ensures trails == Flatten(chains)
    ensures breakpoints == Breakpoints(chains)
    ensures ntrails == |breakpoints|
  {
    trails := [];
    breakpoints := [];
    var j := 0;
    while j < |chains|
      invariant 0 <= j <= |chains|
      invariant trails == Flatten(chains[..j])
      invariant breakpoints + (if |trails| > 0 then [|trails|] else []) == Breakpoints(chains[..j])
    {
      assert chains[..j + 1][..j] == chains[..j];
      if |trails| > 0 {
        breakpoints := breakpoints + [|trails|];
      }
      trails := trails + chains[j];
      j := j + 1;
    }
    assert chains[..j] == chains;
    if |trails| > 0 {
      breakpoints := breakpoints + [|trails|];
    }
    ntrails := |breakpoints|;
  }

  /** The breakpoints ascend and the last one is the length of `trails`. */
  lemma {:induction false} BreakpointsAscendToEnd(chains: seq<seq<int>>)
    ensures forall i, j :: 0 <= i < j < |Breakpoints(chains)| ==> Breakpoints(chains)[i] <= Breakpoints(chains)[j]
    ensures forall i :: 0 <= i < |Breakpoints(chains)| ==> 0 < Breakpoints(chains)[i] <= |Flatten(chains)|
    ensures |Flatten(chains)| > 0 ==> |Breakpoints(chains)| > 0 && Breakpoints(chains)[|Breakpoints(chains)| - 1] == |Flatten(chains)|
  {
    if |chains| > 0 {
      BreakpointsAscendToEnd(chains[..|chains| - 1]);
    }
  }

  /** When no chain is empty there is one breakpoint per chain and the chains
      are recovered from `trails` between consecutive breakpoints. */
  lemma {:induction false} TrailsRecoverChains(chains: seq<seq<int>>)
    requires forall t :: 0 <= t < |chains| ==> |chains[t]| > 0
    ensures |Breakpoints(chains)| == |chains|
    ensures forall t :: 0 <= t < |chains| ==>
              var start := if t == 0 then 0 else Breakpoints(chains)[t - 1];
              start <= Breakpoints(chains)[t] <= |Flatten(chains)|
              && Flatten(chains)[start..Breakpoints(chains)[t]] == chains[t]
  {
    if |chains| > 0 {
      var init := chains[..|chains| - 1];
      TrailsRecoverChains(init);
      BreakpointsAscendToEnd(init);
      var m := |chains| - 1;
      assert Flatten(chains) == Flatten(init) + chains[m];
      assert Breakpoints(chains) == Breakpoints(init) + [|Flatten(chains)|];
      forall t | 0 <= t < |chains|
        ensures var start := if t == 0 then 0 else Breakpoints(chains)[t - 1];
                start <= Breakpoints(chains)[t] <= |Flatten(chains)|
                && Flatten(chains)[start..Breakpoints(chains)[t]] == chains[t]
      {
        if t < m {
          assert chains[t] == init[t];
          var start := if t == 0 then 0 else Breakpoints(init)[t - 1];
          assert Flatten(chains)[start..Breakpoints(init)[t]] == Flatten(init)[start..Breakpoints(init)[t]];
        } else {
          var start := if t == 0 then 0 else Breakpoints(init)[t - 1];
          assert start == |Flatten(init)| by {
            if t > 0 {
              assert |Flatten(init)| > 0;
            }
          }
        }
      }
    }
  }

  /** The triangle's trails: one breakpoint per chain, `2(n-1)` trails. */
  lemma TriangleTrailCount(n: nat)
    requires n >= 1
    ensures |Breakpoints(TriangleGridChains(n))| == 2 * (n - 1)
  {
    var chains := TriangleGridChains(n);
    forall t | 0 <= t < |chains| ensures |chains[t]| > 0 {
    }
    TrailsRecoverChains(chains);
  }

  // ---------------------------------------------------------------------
  // build_2d_connectivity_graph, as coordinates and an edge list
  // ---------------------------------------------------------------------

  /** Edge `(v-1, v)` between row neighbours `(b1, b1+j-1)` and `(b1, b1+j)`. */
  function RowNeighbourEdge(n: nat, b1: nat, j: nat): (int, int)
    requires 1 <= b1 && 1 <= j && b1 + j <= n
  {
    (CellIndex(n, b1, b1 + j - 1), CellIndex(n, b1, b1 + j))
  }

  /** Edge `(v, v+l)` between column neighbours `(b1, b1+j)` and `(b1+1, b1+j)`. */
  function ColumnNeighbourEdge(n: nat, b1: nat, j: nat): (int, int)
    requires 1 <= b1 && 1 <= j && b1 + j <= n
  {
    (CellIndex(n, b1, b1 + j), CellIndex(n, b1 + 1, b1 + j))
  }

  /** The two edges added for each cell `j = 1 .. n-b1` of row `b1`. */
  function RowEdges(n: nat, b1: nat): (r: seq<(int, int)>)
    requires 1 <= b1 <= n
    ensures |r| == 2 * (n - b1)
  {
    seq(2 * (n - b1), t requires 0 <= t < 2 * (n - b1) =>
      if t % 2 == 0 then RowNeighbourEdge(n, b1, t / 2 + 1) else ColumnNeighbourEdge(n, b1, t / 2 + 1))
  }

  /** All edges added while processing rows `1 .. rows`. */
  function GridEdges(n: nat, rows: nat): seq<(int, int)>
    requires rows <= n
  {
    if rows == 0 then [] else GridEdges(n, rows - 1) + RowEdges(n, rows)
  }

  /** `build_2d_connectivity_graph`: the coordinates of every vertex and the
      edges, in the order the source adds them. */
  method Build2dConnectivityGraph(nrow: nat) returns (coords: seq<(int, int)>, edges: seq<(int, int)>)
    ensures |coords| == GridSize(nrow)
    ensures forall b1, b2 :: ValidCell(nrow, b1, b2) ==> coords[CellIndex(nrow, b1, b2)] == (b1, b2)
    ensures edges == if nrow == 0 then [] else GridEdges(nrow, nrow - 1)
  {
    coords := VertexCoordinates(nrow);
    edges := GridEdgeList(nrow);
  }

  /** First loop of `build_2d_connectivity_graph`: vertex `v` gets the
      coordinates `(b1, b2)` of the row-major walk over the triangle. */
  method VertexCoordinates(nrow: nat) returns (coords: seq<(int, int)>)
    ensures |coords| == GridSize(nrow)
    ensures forall b1, b2 :: ValidCell(nrow, b1, b2) ==> coords[CellIndex(nrow, b1, b2)] == (b1, b2)
  {
    RowStartEnd(nrow);
    coords := [];
    var b1 := 1;
    while b1 <= nrow
      invariant 1 <= b1 <= nrow + 1
      invariant |coords| == RowStart(nrow, b1 - 1)
      invariant forall a, b :: 1 <= a < b1 && a <= b <= nrow ==>
                  CellIndex(nrow, a, b) < |coords| && coords[CellIndex(nrow, a, b)] == (a, b)
    {
      var b2 := b1;
      while b2 <= nrow
        invariant b1 <= b2 <= nrow + 1
        invariant |coords| == RowStart(nrow, b1 - 1) + (b2 - b1)
        invariant forall a, b :: 1 <= a < b1 && a <= b <= nrow ==>
                    CellIndex(nrow, a, b) < |coords| && coords[CellIndex(nrow, a, b)] == (a, b)
        invariant forall b :: b1 <= b < b2 ==> CellIndex(nrow, b1, b) < |coords| && coords[CellIndex(nrow, b1, b)] == (b1, b)
      {
        coords := coords + [(b1, b2)];
        b2 := b2 + 1;
      }
      forall a, b | 1 <= a < b1 && a <= b <= nrow ensures CellIndex(nrow, a, b) < RowStart(nrow, b1 - 1) {
        RowStartMonotone(nrow, a, b1 - 1);
      }
      b1 := b1 + 1;
    }
  }

  /** The edges of cell `j` of row `b1` extend the row's first `j - 1`
      pairs: `(v-1, v)` and `(v, v+l)` for `v` the cell's index and `l` the
      number of cells after the row's first. */
  lemma RowEdgesStep(n: nat, b1: nat, j: nat)
    requires 1 <= b1 && 1 <= j && b1 + j <= n
    ensures var v := RowStart(n, b1 - 1) + j;
            RowEdges(n, b1)[..2 * j]
            == RowEdges(n, b1)[..2 * (j - 1)] + [(v - 1, v), (v, v + (n - b1))]
  {
    var v := RowStart(n, b1 - 1) + j;
    assert RowNeighbourEdge(n, b1, j) == (v - 1, v);
    assert ColumnNeighbourEdge(n, b1, j) == (v, v + (n - b1));
    assert RowEdges(n, b1)[2 * (j - 1)] == RowNeighbourEdge(n, b1, j);
    assert RowEdges(n, b1)[2 * (j - 1) + 1] == ColumnNeighbourEdge(n, b1, j);
  }

  /** Second loop of `build_2d_connectivity_graph`: starting at the second
      vertex, for rows of decreasing length `l`, the edges `(v-1, v)` and
      `(v, v+l)`. */
  method GridEdgeList(nrow: nat) returns (edges: seq<(int, int)>)
    ensures edges == if nrow == 0 then [] else GridEdges(nrow, nrow - 1)
  {
    edges := [];
    var v := 1;
    var l: int := nrow - 1;
    while l >= 1
      invariant nrow >= 1 ==> 0 <= l <= nrow - 1
      invariant nrow == 0 ==> l == -1 && edges == []
      invariant nrow >= 1 ==> v == RowStart(nrow, nrow - 1 - l) + 1
      invariant nrow >= 1 ==> edges == GridEdges(nrow, nrow - 1 - l)
    {
      ghost var row := nrow - l;
      var j := 1;
      while j <= l
        invariant 1 <= j <= l + 1
        invariant v == RowStart(nrow, row - 1) + j
        invariant edges == GridEdges(nrow, row - 1) + RowEdges(nrow, row)[..2 * (j - 1)]
      {
        RowEdgesStep(nrow, row, j);
        edges := edges + [(v - 1, v), (v, v + l)];
        v := v + 1;
        j := j + 1;
      }
      assert RowEdges(nrow, row)[..2 * (j - 1)] == RowEdges(nrow, row);
      v := v + 1;
      l := l - 1;
    }
  }

  /** `n(n-1)` edges in total. */
  lemma {:induction false} GridEdgeCount(n: nat, rows: nat)
    requires rows <= n
    ensures 2 * |GridEdges(n, rows)| == 2 * rows * (2 * n - rows - 1)
  {
    if rows > 0 {
      GridEdgeCount(n, rows - 1);
    }
  }

  lemma TotalEdgeCount(n: nat)
    requires n >= 1
    ensures |GridEdges(n, n - 1)| == n * (n - 1)
  {
    GridEdgeCount(n, n - 1);
  }

  /** Every edge joins two row neighbours or two column neighbours. */
  lemma {:induction false} GridEdgesAreAdjacent(n: nat, rows: nat, t: nat)
    requires rows <= n && t < |GridEdges(n, rows)|
    ensures var e := GridEdges(n, rows)[t];
            exists a, b :: (ValidCell(n, a, b) && ValidCell(n, a, b + 1) && e == (CellIndex(n, a, b), CellIndex(n, a, b + 1)))
                        || (ValidCell(n, a, b) && ValidCell(n, a + 1, b) && e == (CellIndex(n, a, b), CellIndex(n, a + 1, b)))
  {
    var prev := GridEdges(n, rows - 1);
    if t < |prev| {
      GridEdgesAreAdjacent(n, rows - 1, t);
      assert GridEdges(n, rows)[t] == prev[t];
    } else {
      var u := t - |prev|;
      var j := u / 2 + 1;
      assert GridEdges(n, rows)[t] == RowEdges(n, rows)[u];
      if u % 2 == 0 {
        assert ValidCell(n, rows, rows + j - 1) && ValidCell(n, rows, rows + j - 1 + 1);
      } else {
        assert ValidCell(n, rows, rows + j) && ValidCell(n, rows + 1, rows + j);
      }
    }
  }

  /** Every pair of row neighbours is joined by an edge. */
  lemma RowNeighboursJoined(n: nat, a: nat, b: nat)
    requires n >= 1 && ValidCell(n, a, b) && ValidCell(n, a, b + 1)
    ensures (CellIndex(n, a, b), CellIndex(n, a, b + 1)) in GridEdges(n, n - 1)
  {
    var j := b - a + 1;
    var t := 2 * (j - 1);
    assert t % 2 == 0 && t / 2 + 1 == j;
    assert RowEdges(n, a)[t] == RowNeighbourEdge(n, a, j);
    GridEdgesContainRow(n, n - 1, a);
  }

  /** Every pair of column neighbours is joined by an edge. */
  lemma ColumnNeighboursJoined(n: nat, a: nat, b: nat)
    requires n >= 1 && ValidCell(n, a, b) && ValidCell(n, a + 1, b)
    ensures (CellIndex(n, a, b), CellIndex(n, a + 1, b)) in GridEdges(n, n - 1)
  {
    var j := b - a;
    var t := 2 * (j - 1) + 1;
    assert t % 2 == 1 && t / 2 + 1 == j;
    assert RowEdges(n, a)[t] == ColumnNeighbourEdge(n, a, j);
    GridEdgesContainRow(n, n - 1, a);
  }

  lemma {:induction false} GridEdgesContainRow(n: nat, rows: nat, a: nat)
    requires 1 <= a <= rows <= n
    ensures forall e :: e in RowEdges(n, a) ==> e in GridEdges(n, rows)
  {
    if a < rows {
      GridEdgesContainRow(n, rows - 1, a);
    }
  }
}
