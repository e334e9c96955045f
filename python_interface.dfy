/** The Python-facing wrapper around the GMLS engine
    (GMLS/src/swig/GMLS_Python.hpp): setters that copy NumPy arrays into the
    engine's views, the weighting-order defaulting, and the application of
    point-evaluation stencils to sampled source data.

    NumPy inputs are read-only values (`seq`); the views the wrapper builds
    and the NumPy array it returns are arrays. The engine's stencil table
    (getAlpha0TensorTo0Tensor for scalar point evaluation) is the function
    `alpha(target, position)`. */
module PythonInterface {
  import opened Vectors

  // ---------------------------------------------------------------------
  // Copying NumPy arrays into views

  /** A two-dimensional NumPy array: every row has `cols` entries. */
  predicate Rectangular<T>(a: seq<seq<T>>, cols: nat)
  {
    forall i :: 0 <= i < |a| ==> |a[i]| == cols
  }

  /** Copies a two-dimensional NumPy array entry by entry into a new view
      with the same dimensions. */
  method CopyToView<T(0)>(a: seq<seq<T>>, cols: nat) returns (v: array2<T>)
    requires Rectangular(a, cols)
    ensures fresh(v)
    ensures v.Length0 == |a| && v.Length1 == cols
    ensures forall i, j :: 0 <= i < |a| && 0 <= j < cols ==> v[i, j] == a[i][j]
  {
    v := new T[|a|, cols];
    for i := 0 to |a|
      invariant forall r, j :: 0 <= r < i && 0 <= j < cols ==> v[r, j] == a[r][j]
    {
      for j := 0 to cols
        invariant forall r, c :: 0 <= r < i && 0 <= c < cols ==> v[r, c] == a[r][c]
        invariant forall c :: 0 <= c < j ==> v[i, c] == a[i][c]
      {
        v[i, j] := a[i][j];
      }
    }
  }

  /** Copies a one-dimensional NumPy array entry by entry into a new view of
      the same length. */
  method CopyToVector(a: seq<real>) returns (v: array<real>)
    ensures fresh(v)
    ensures v[..] == a
  {
    v := new real[|a|];
    for i := 0 to |a|
      invariant v[..i] == a[..i]
    {
      v[i] := a[i];
    }
  }

  /** The manifold weighting power actually used: a negative request (the
      default is -1) falls back to the regular weighting power. */
  function ManifoldWeight(regular: int, manifold: int): (w: int)
    ensures manifold >= 0 ==> w == manifold
    ensures manifold < 0 ==> w == regular
  {
    if manifold < 0 then regular else manifold
  }

  /** The wrapper object. Its fields stand for the state it hands to the
      wrapped GMLS engine through that engine's setters. */
  class GmlsPython {
    const polyOrder: int
    const denseSolverType: string
    const manifoldPolyOrder: int
    const dimensions: int

    var weightingPower: int
    var manifoldWeightingPower: int
    var neighborLists: array2<int>
    var sourceSites: array2<real>
    var targetSites: array2<real>
    var windowSizes: array<real>

    /** The engine is configured but no data has been set yet. */
    constructor (polyOrder: int, denseSolverType: string, manifoldPolyOrder: int, dimensions: int)
      ensures this.polyOrder == polyOrder && this.denseSolverType == denseSolverType
      ensures this.manifoldPolyOrder == manifoldPolyOrder && this.dimensions == dimensions
      ensures neighborLists.Length0 == 0 && sourceSites.Length0 == 0
      ensures targetSites.Length0 == 0 && windowSizes.Length == 0
    {
      this.polyOrder := polyOrder;
      this.denseSolverType := denseSolverType;
      this.manifoldPolyOrder := manifoldPolyOrder;
      this.dimensions := dimensions;
      neighborLists := new int[0, 0];
      sourceSites := new real[0, 0];
      targetSites := new real[0, 0];
      windowSizes := new real[0];
    }

    /** Sets both weighting powers; pass -1 for the default manifold power. */
    method SetWeightingOrder(regular: int, manifold: int)
      modifies this`weightingPower, this`manifoldWeightingPower
      ensures weightingPower == regular
      ensures manifoldWeightingPower == ManifoldWeight(regular, manifold)
      ensures manifold < 0 ==> manifoldWeightingPower == weightingPower
    {
      manifoldWeightingPower := ManifoldWeight(regular, manifold);
      weightingPower := regular;
    }

    /** Neighbour table: row i holds its count in column 0 and the source
        indices in the columns after it. */
    method SetNeighbors(a: seq<seq<int>>, cols: nat)
      requires Rectangular(a, cols)
      modifies this`neighborLists
      ensures fresh(neighborLists)
      ensures neighborLists.Length0 == |a| && neighborLists.Length1 == cols
      ensures forall i, j :: 0 <= i < |a| && 0 <= j < cols ==> neighborLists[i, j] == a[i][j]
    {
      neighborLists := CopyToView(a, cols);
    }

    method SetSourceSites(a: seq<seq<real>>, cols: nat)
      requires Rectangular(a, cols)
      modifies this`sourceSites
      ensures fresh(sourceSites)
      ensures sourceSites.Length0 == |a| && sourceSites.Length1 == cols
      ensures forall i, j :: 0 <= i < |a| && 0 <= j < cols ==> sourceSites[i, j] == a[i][j]
    {
      sourceSites := CopyToView(a, cols);
    }

    method SetTargetSites(a: seq<seq<real>>, cols: nat)
      requires Rectangular(a, cols)
      modifies this`targetSites
      ensures fresh(targetSites)
      ensures targetSites.Length0 == |a| && targetSites.Length1 == cols
      ensures forall i, j :: 0 <= i < |a| && 0 <= j < cols ==> targetSites[i, j] == a[i][j]
    {
      targetSites := CopyToView(a, cols);
    }

    method SetWindowSizes(a: seq<real>)
      modifies this`windowSizes
      ensures fresh(windowSizes)
      ensures windowSizes[..] == a
    {
      windowSizes := CopyToVector(a);
    }
  }

  // ---------------------------------------------------------------------
  // Applying point-evaluation stencils

  /** The neighbour count stored in column 0 of a row. Both loops that read
      it run no iteration for a negative count. */
  function NeighbourCount(row: seq<int>): nat
    requires |row| > 0
  {
    if row[0] < 0 then 0 else row[0]
  }

  /** A neighbour row the stencil loops can read without leaving the row or
      the source data: the count fits in the row and every listed index
      names a source sample. */
  predicate ValidRow(row: seq<int>, sources: nat)
  {
    |row| > 0 && NeighbourCount(row) < |row| &&
    forall k :: 1 <= k <= NeighbourCount(row) ==> 0 <= row[k] < sources
  }

  predicate ValidTable(table: seq<seq<int>>, sources: nat)
  {
    forall t :: 0 <= t < |table| ==> ValidRow(table[t], sources)
  }

  /** The contribution of the first n neighbours of target t. */
  function PartialEstimate(row: seq<int>, source: seq<real>, alpha: (nat, nat) -> real, t: nat, n: nat): real
    requires ValidRow(row, |source|) && n <= NeighbourCount(row)
  {
    if n == 0 then 0.0
    else PartialEstimate(row, source, alpha, t, n - 1) + source[row[n]] * alpha(t, n - 1)
  }

  /** The sample values of the listed neighbours, in list order. */
  function Gather(row: seq<int>, source: seq<real>): (g: seq<real>)
    requires ValidRow(row, |source|)
    ensures |g| == NeighbourCount(row)
    ensures forall k :: 0 <= k < |g| ==> g[k] == source[row[k + 1]]
  {
    seq(NeighbourCount(row), k requires 0 <= k < NeighbourCount(row) => source[row[k + 1]])
  }

  /** The stencil (alpha vector) of target t, of length n. */
  function Stencil(alpha: (nat, nat) -> real, t: nat, n: nat): (s: seq<real>)
    ensures |s| == n && forall k :: 0 <= k < n ==> s[k] == alpha(t, k)
  {
    seq(n, k requires 0 <= k < n => alpha(t, k))
  }

  lemma {:induction false} PartialEstimateIsDot(row: seq<int>, source: seq<real>, alpha: (nat, nat) -> real, t: nat, n: nat)
    requires ValidRow(row, |source|) && n <= NeighbourCount(row)
    ensures PartialEstimate(row, source, alpha, t, n) == Dot(Gather(row, source)[..n], Stencil(alpha, t, n))
    decreases n
  {
    if n > 0 {
      PartialEstimateIsDot(row, source, alpha, t, n - 1);
      var g := Gather(row, source);
      assert g[..n][..n - 1] == g[..n - 1];
      assert Stencil(alpha, t, n)[..n - 1] == Stencil(alpha, t, n - 1);
    }
  }

  /** applyStencilTo0Tensor for one target: the inner product of the
      target's stencil with the sample values of its listed neighbours; a
      target without neighbours evaluates to zero. */
  function ApplyStencilAt(table: seq<seq<int>>, source: seq<real>, alpha: (nat, nat) -> real, t: nat): (r: real)
    requires t < |table| && ValidRow(table[t], |source|)
    ensures r == Dot(Gather(table[t], source), Stencil(alpha, t, NeighbourCount(table[t])))
    ensures NeighbourCount(table[t]) == 0 ==> r == 0.0
  {
    var n := NeighbourCount(table[t]);
    PartialEstimateIsDot(table[t], source, alpha, t, n);
    assert Gather(table[t], source)[..n] == Gather(table[t], source);
    PartialEstimate(table[t], source, alpha, t, n)
  }

  /** applyStencilTo0Tensor for all targets: a new array with one entry per
      row of the neighbour table, entry t being the single-target estimate. */
  method ApplyStencil(table: seq<seq<int>>, source: seq<real>, alpha: (nat, nat) -> real) returns (out: array<real>)
    requires ValidTable(table, |source|)
    ensures fresh(out)
    ensures out.Length == |table|
    ensures forall t :: 0 <= t < |table| ==> out[t] == ApplyStencilAt(table, source, alpha, t)
  {
    out := new real[|table|];
    for i := 0 to |table|
      invariant forall t :: 0 <= t < i ==> out[t] == ApplyStencilAt(table, source, alpha, t)
    {
      var row := table[i];
      var evaluation := 0.0;
      var count := if row[0] < 0 then 0 else row[0];
      for j := 0 to count
        invariant evaluation == PartialEstimate(row, source, alpha, i, j)
      {
        evaluation := evaluation + source[row[j + 1]] * alpha(i, j);
      }
      out[i] := evaluation;
    }
  }

  // ---------------------------------------------------------------------
  // Properties of the applied stencil

  /** Pointwise a * f + g. */
  function Combine(a: real, f: seq<real>, g: seq<real>): (h: seq<real>)
    requires |f| == |g|
    ensures |h| == |f| && forall k :: 0 <= k < |f| ==> h[k] == a * f[k] + g[k]
  {
    seq(|f|, k requires 0 <= k < |f| => a * f[k] + g[k])
  }

  lemma {:induction false} PartialEstimateLinear(row: seq<int>, f: seq<real>, g: seq<real>, a: real, alpha: (nat, nat) -> real, t: nat, n: nat)
    requires |f| == |g| && ValidRow(row, |f|) && n <= NeighbourCount(row)
    ensures PartialEstimate(row, Combine(a, f, g), alpha, t, n)
         == a * PartialEstimate(row, f, alpha, t, n) + PartialEstimate(row, g, alpha, t, n)
    decreases n
  {
    if n > 0 {
      PartialEstimateLinear(row, f, g, a, alpha, t, n - 1);
      var x, y, w := f[row[n]], g[row[n]], alpha(t, n - 1);
      assert (a * x + y) * w == a * (x * w) + y * w;
    }
  }

  /** Applying a stencil is linear in the sampled field: a stencil table
      computed once serves every field. */
  lemma ApplyStencilLinear(table: seq<seq<int>>, f: seq<real>, g: seq<real>, a: real, alpha: (nat, nat) -> real, t: nat)
    requires |f| == |g| && t < |table| && ValidRow(table[t], |f|)
    ensures ApplyStencilAt(table, Combine(a, f, g), alpha, t)
         == a * ApplyStencilAt(table, f, alpha, t) + ApplyStencilAt(table, g, alpha, t)
  {
    var row := table[t];
    var n := NeighbourCount(row);
    PartialEstimateIsDot(row, Combine(a, f, g), alpha, t, n);
    PartialEstimateIsDot(row, f, alpha, t, n);
    PartialEstimateIsDot(row, g, alpha, t, n);
    assert Gather(row, Combine(a, f, g))[..n] == Gather(row, Combine(a, f, g));
    assert Gather(row, f)[..n] == Gather(row, f);
    assert Gather(row, g)[..n] == Gather(row, g);
    PartialEstimateLinear(row, f, g, a, alpha, t, n);
  }

  lemma {:induction false} PartialEstimateFrame(row1: seq<int>, row2: seq<int>, f: seq<real>, g: seq<real>, alpha: (nat, nat) -> real, t: nat, n: nat)
    requires ValidRow(row1, |f|) && ValidRow(row2, |g|)
    requires n <= NeighbourCount(row1) && n <= NeighbourCount(row2)
    requires forall k :: 1 <= k <= n ==> row1[k] == row2[k] && f[row1[k]] == g[row2[k]]
    ensures PartialEstimate(row1, f, alpha, t, n) == PartialEstimate(row2, g, alpha, t, n)
    decreases n
  {
    if n > 0 {
      PartialEstimateFrame(row1, row2, f, g, alpha, t, n - 1);
    }
  }

  /** Only column 0 and columns 1..count of a neighbour row, and only the
      source samples those columns name, affect the estimate. */
  lemma ApplyStencilReadsOnlyListedNeighbours(table1: seq<seq<int>>, table2: seq<seq<int>>, f: seq<real>, g: seq<real>, alpha: (nat, nat) -> real, t: nat)
    requires t < |table1| && t < |table2|
    requires ValidRow(table1[t], |f|) && ValidRow(table2[t], |g|)
    requires table1[t][0] == table2[t][0]
    requires forall k :: 1 <= k <= NeighbourCount(table1[t]) ==>
               table1[t][k] == table2[t][k] && f[table1[t][k]] == g[table2[t][k]]
    ensures ApplyStencilAt(table1, f, alpha, t) == ApplyStencilAt(table2, g, alpha, t)
  {
    PartialEstimateFrame(table1[t], table2[t], f, g, alpha, t, NeighbourCount(table1[t]));
  }

  function Sum(s: seq<real>): real
    decreases |s|
  {
    if |s| == 0 then 0.0 else Sum(s[..|s| - 1]) + s[|s| - 1]
  }

  lemma {:induction false} PartialEstimateOfConstant(row: seq<int>, source: seq<real>, alpha: (nat, nat) -> real, t: nat, n: nat, c: real)
    requires ValidRow(row, |source|) && n <= NeighbourCount(row)
    requires forall k :: 1 <= k <= n ==> source[row[k]] == c
    ensures PartialEstimate(row, source, alpha, t, n) == c * Sum(Stencil(alpha, t, n))
    decreases n
  {
    if n > 0 {
      PartialEstimateOfConstant(row, source, alpha, t, n - 1, c);
      assert Stencil(alpha, t, n)[..n - 1] == Stencil(alpha, t, n - 1);
    }
  }

  /** When a target's stencil sums to one (the partition-of-unity property
      of point-evaluation stencils), a field that is constant on the
      target's neighbours is reproduced exactly. */
  lemma ApplyStencilReproducesConstants(table: seq<seq<int>>, source: seq<real>, alpha: (nat, nat) -> real, t: nat, c: real)
    requires t < |table| && ValidRow(table[t], |source|)
    requires Sum(Stencil(alpha, t, NeighbourCount(table[t]))) == 1.0
    requires forall k :: 1 <= k <= NeighbourCount(table[t]) ==> source[table[t][k]] == c
    ensures ApplyStencilAt(table, source, alpha, t) == c
  {
    PartialEstimateOfConstant(table[t], source, alpha, t, NeighbourCount(table[t]), c);
  }
}
