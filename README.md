# Compadre GMLS core: moment matrix, stencil application, bound-preserving remap step

This project models, in Dafny, three small sequential cores of the Compadre
toolkit (Generalized Moving Least Squares, GMLS) and proves properties about
them. All floating-point values are modelled as `real`, so every sum holds
exactly and no value is `NaN`.

- `vectors.dfy`, module `Vectors`: the inner product of two real vectors,
  shared by the three modules below. Proved: it is symmetric, and the inner
  product of a vector with itself is non-negative.

- `linear_algebra.dfy`, module `LinearAlgebra`: `createM`. It assembles the
  local moment matrix `M = Pᵀ P` from the weighted basis matrix `P`. `P` is
  stored column-major in a flat buffer with leading dimension `ld`. `M` is a
  two-dimensional array. The team barriers, the parallel reduction and the
  single-lane commits become plain nested loops; they only synchronise.
  Proved: every entry of the leading block is the inner product of two
  columns of `P`. The block is symmetric and its diagonal is non-negative.
  Nothing outside the block changes, and `P` is only read.
- `python_interface.dfy`, module `PythonInterface`: the Python wrapper
  `GMLS_Python`.
  - Its setters copy NumPy arrays into new views. The class `GmlsPython`
    keeps those views as fields.
  - The manifold weighting power defaults to the regular power.
  - Point-evaluation stencils are applied to sampled data, for one target or
    for all targets. The stencil table of the wrapped engine is the function
    `alpha(target, position)`.
  - Proved: the estimate is the inner product of the target's stencil with
    the gathered neighbour values. It is linear in the sampled field. It
    reads only the listed neighbours. It reproduces constant fields when the
    stencil sums to one. The array result is, entry by entry, the
    single-target result.
- `remap.dfy`, module `Remap`: `OBFET::solveAndUpdate`, the bound-preserving
  step of the conservative remap.
  - It copies the target weights and computes the local conserved quantity.
  - It computes each target's neighbour minimum and maximum. A neighbour index
    below the local source count reads local data; any other index reads
    halo data.
  - It passes everything to the optimiser, counts the targets that end out
    of bounds, and writes the column back.
  - The optimiser (CAAS) and the MPI reductions are one opaque function
    parameter. It receives the request built here and returns one value per
    local target.
  - Proved, over reals: the bounds bracket every neighbour value. The bound
    check counts exactly the violating targets. A target with no neighbours
    always violates.
  - The step stops at the first component with a violation. The components
    before it are already written back. Every written entry equals the
    optimiser's answer to the request built from the column's original
    values.

The running bounds start at `1e15` and `-1e15`, as the source does. The
lower bound is therefore the minimum of `1e15` and the neighbour values. It
equals one of the neighbour values if and only if some neighbour value is at
most `1e15`. `BoundsBracketNeighbours` states both directions, and the
mirror statement for the upper bound and `-1e15`.

A negative count in column 0 of a neighbour row gives zero iterations in
both stencil loops: the plain `for` loop and Kokkos's empty range policy.
`NeighbourCount` therefore clamps the count at zero.

## Model

| member | source | states |
|---|---|---|
| LinearAlgebra.Column | GMLS/src/Compadre_LinearAlgebra_Definitions.hpp:24-27 | column i of the column-major buffer has `rows` entries, entry k being `p[i*ld + k]`, which lies inside the buffer |
| LinearAlgebra.ColumnInBuffer | GMLS/src/Compadre_LinearAlgebra_Definitions.hpp:26-27 | with `rows <= ld` and `columns*ld` at most the buffer length, every column read `i*ld + k` (k < rows, i < columns) stays inside the buffer |
| Vectors.DotSymmetric | GMLS/src/Compadre_LinearAlgebra_Definitions.hpp:28 | the inner product does not depend on argument order |
| Vectors.DotSelfNonNegative | GMLS/src/Compadre_LinearAlgebra_Definitions.hpp:44 | a sum of squares is non-negative |
| LinearAlgebra.CrossSumIsColumnDot | GMLS/src/Compadre_LinearAlgebra_Definitions.hpp:24-29 | the off-diagonal reduction over the first n rows equals the inner product of the two columns' first n entries |
| LinearAlgebra.SquareSumIsCrossSum | GMLS/src/Compadre_LinearAlgebra_Definitions.hpp:41-45 | the separate diagonal sum of squares equals the off-diagonal formula with both indices equal |
| LinearAlgebra.EntryIsGram | GMLS/src/Compadre_LinearAlgebra_Definitions.hpp:18-51 | every entry written into the leading block is the inner product of the matching columns of P, so the block is Pᵀ P |
| LinearAlgebra.EntrySymmetricAndDiagonalNonNegative | GMLS/src/Compadre_LinearAlgebra_Definitions.hpp:31-48 | the stored block is symmetric and its diagonal is non-negative |
| LinearAlgebra.CreateM | GMLS/src/Compadre_LinearAlgebra_Definitions.hpp:10-59 | after the call the leading columns×columns block holds the off-diagonal reductions (mirrored) and the diagonal sums of squares; it is symmetric, equals Pᵀ P entrywise, has a non-negative diagonal; every entry outside the block is unchanged and P is only read; the outer loop keeps the whole leading i×i block final |
| PythonInterface.CopyToView | GMLS/src/swig/GMLS_Python.hpp:52-62 | a new view with the input's dimensions whose (i,j) entry is the input's (i,j) entry |
| PythonInterface.CopyToVector | GMLS/src/swig/GMLS_Python.hpp:136-146 | a new one-dimensional view equal, entry by entry, to the input |
| PythonInterface.ManifoldWeight | GMLS/src/swig/GMLS_Python.hpp:35-36 | a negative manifold weight is replaced by the regular weight; a non-negative one is kept |
| PythonInterface.GmlsPython.constructor | GMLS/src/swig/GMLS_Python.hpp:28-31 | records the configuration; no data views are set yet (all empty) |
| PythonInterface.GmlsPython.SetWeightingOrder | GMLS/src/swig/GMLS_Python.hpp:35-39 | the regular power is the given one, the manifold power the defaulted one; with a negative manifold request both are equal |
| PythonInterface.GmlsPython.SetNeighbors | GMLS/src/swig/GMLS_Python.hpp:41-66 | the neighbour view is a fresh copy of the input array with the same dimensions; nothing else changes |
| PythonInterface.GmlsPython.SetSourceSites | GMLS/src/swig/GMLS_Python.hpp:68-95 | the source-coordinate view is a fresh copy of the input array with the same dimensions |
| PythonInterface.GmlsPython.SetTargetSites | GMLS/src/swig/GMLS_Python.hpp:97-124 | the target-coordinate view is a fresh copy of the input array with the same dimensions |
| PythonInterface.GmlsPython.SetWindowSizes | GMLS/src/swig/GMLS_Python.hpp:126-150 | the window-size view is a fresh copy of the one-dimensional input |
| PythonInterface.Gather | GMLS/src/swig/GMLS_Python.hpp:171-172 | the gathered values are the source samples named by columns 1..count of the row, one per listed neighbour |
| PythonInterface.Stencil | GMLS/src/swig/GMLS_Python.hpp:173 | the stencil of a target is `alpha(t, k)` for each neighbour position k |
| PythonInterface.PartialEstimateIsDot | GMLS/src/swig/GMLS_Python.hpp:170-174 | the accumulated sum over the first n neighbours equals the inner product of the first n gathered values with the stencil |
| PythonInterface.ApplyStencilAt | GMLS/src/swig/GMLS_Python.hpp:158-177 | the single-target estimate is the inner product of the target's stencil with its gathered neighbour values; a target with count 0 evaluates to 0 |
| PythonInterface.ApplyStencil | GMLS/src/swig/GMLS_Python.hpp:179-217 | a new array with one entry per neighbour-table row, entry t equal to the single-target estimate for t |
| PythonInterface.PartialEstimateLinear | GMLS/src/swig/GMLS_Python.hpp:205-209 | the partial sums are linear in the sampled field |
| PythonInterface.ApplyStencilLinear | GMLS/src/swig/GMLS_Python.hpp:200-212 | applying a stencil to `a*f + g` gives `a` times the estimate of f plus the estimate of g |
| PythonInterface.PartialEstimateFrame | GMLS/src/swig/GMLS_Python.hpp:205-208 | partial sums agree for two rows and fields that agree on the first n listed ids and their samples |
| PythonInterface.ApplyStencilReadsOnlyListedNeighbours | GMLS/src/swig/GMLS_Python.hpp:202-207 | two tables and fields that agree on column 0, on columns 1..count and on the samples those columns name give the same estimate |
| PythonInterface.PartialEstimateOfConstant | GMLS/src/swig/GMLS_Python.hpp:170-174 | on a field constant c at the listed neighbours, the partial sum is c times the sum of the stencil's first n weights |
| PythonInterface.ApplyStencilReproducesConstants | GMLS/src/swig/GMLS_Python.hpp:158-177 | a stencil summing to one reproduces a field that is constant on the target's neighbours |
| Remap.CopyWeights | src/Compadre_OBFET.cpp:45-48 | the weights vector has one slot per row of the target weighting field, column 0 of that field for local targets and zero elsewhere |
| Remap.SourceWeightColumn | src/Compadre_OBFET.cpp:58 | column 0 of the source weighting field over the local source particles |
| Remap.SourceColumn | src/Compadre_OBFET.cpp:58 | column `comp` of the source field over the local source particles |
| Remap.WeightedSumIsDot | src/Compadre_OBFET.cpp:56-59 | the accumulated weighted sum over the first n particles equals the inner product of the weight column and the data column restricted to them |
| Remap.LocalConservedQuantity | src/Compadre_OBFET.cpp:56-59 | the local conserved quantity is the inner product of the source weights with the component's source values over the local source particles |
| Remap.NeighbourValues | src/Compadre_OBFET.cpp:73-77 | one value per neighbour of the target, read from local data below the local source count and from halo data (offset by that count) otherwise |
| Remap.LowerBoundIsMinimum | src/Compadre_OBFET.cpp:65-79 | the running minimum is at most 1e15 and at most every neighbour value, and equals 1e15 or one of the values |
| Remap.UpperBoundIsMaximum | src/Compadre_OBFET.cpp:66-80 | the running maximum is at least -1e15 and at least every neighbour value, and equals -1e15 or one of the values |
| Remap.BoundsBracketNeighbours | src/Compadre_OBFET.cpp:65-81 | min ≤ every neighbour value ≤ max; the min equals some neighbour value if and only if some value is at most 1e15, and the max equals some neighbour value if and only if some value is at least -1e15; no neighbours leaves 1e15 and -1e15; with neighbours min ≤ max |
| Remap.NeighbourBounds | src/Compadre_OBFET.cpp:72-81 | the loop over one target's neighbours yields the running min and max of their values, which bracket every neighbour value |
| Remap.GatherBounds | src/Compadre_OBFET.cpp:63-82 | target values, mins and maxs vectors with one slot per target row: column entry and neighbour bounds for local targets, the initial values elsewhere; each local target's bounds bracket its neighbour values |
| Remap.NoViolationsIffWithinBounds | src/Compadre_OBFET.cpp:140-145 | the out-of-bounds count is zero exactly when every local target's value lies within its bounds |
| Remap.TargetWithoutNeighboursFails | src/Compadre_OBFET.cpp:65-154 | a local target with an empty neighbour list keeps the bounds 1e15 and -1e15, so its component has a nonzero out-of-bounds count, and the step fails there, whatever the optimiser answers |
| Remap.CountOutOfBounds | src/Compadre_OBFET.cpp:140-145 | the count equals the number of targets above their max or below their min, and is zero exactly when all are within bounds |
| Remap.WriteColumn | src/Compadre_OBFET.cpp:157-160 | column `comp`, rows below the local target count, receives the updated values; every other entry is unchanged |
| Remap.SolveAndUpdate | src/Compadre_OBFET.cpp:24-163 | empty weighting names fail before any change; otherwise the first component with out-of-bounds targets fails with its nonzero count after the earlier components were written back; every written entry is the optimiser's answer to the request built from that column's original values; all other entries are unchanged |

## Left out

- `largestTwoEigenvectorsThreeByThreeSymmetric` (the power iteration in the same header as `createM`): floating-point iteration with square roots, driven by a tolerance with no termination bound.
- Team parallelism in `createM` (`team_barrier`, `parallel_reduce`, `Kokkos::single`) and the parallel loops in the stencil application: modelled as sequential loops, since they only synchronise; concurrency itself is not modelled.
- Floating-point rounding: every `double` is a `real`, so sums are exact in the model; the symmetry and indexing properties do not depend on this.
- LowerBoundIsMinimum, UpperBoundIsMaximum, BoundsBracketNeighbours, NoViolationsIffWithinBounds, CountOutOfBounds and TargetWithoutNeighboursFails: hold over reals only; the model has no `NaN`. In the program a `NaN` compares false both ways, so the min/max loop skips a `NaN` neighbour value and the bound check does not count a `NaN` updated value. Such a value arises, for example, when a target weight is zero and the division at src/Compadre_OBFET.cpp:128 gives 0/0.
- The wrapped GMLS engine is not part of this model: its constructor, `getNP`, `addTargets`, `generateAlphas` (`generatePointEvaluationStencil`) and `getAlpha0TensorTo0Tensor`; the stencil table enters as the function parameter `alpha`.
- PythonInterface.GmlsPython.constructor: does not model what the wrapped engine's constructor does beyond recording the configuration.
- NumPy and Kokkos plumbing: pointer access, `initializeKokkos`/`finalizeKokkos`, the destructor, and the out-of-memory branch of `PyArray_SimpleNew` (allocation always succeeds in the model).
- The default argument of `setWeightingOrder`: callers pass -1 explicitly.
- In `solveAndUpdate`: the MPI reductions, the CAAS optimiser and the division of its masses by the weights are folded into the opaque parameter `optimise`. The optimiser receives the local conserved quantity instead of the reduced global one.
- In `solveAndUpdate`: the Cobra `slbqp` branch (dead, since its flag is constant false), `srand(0)`, the residual diagnostic (its sum is only printed) and all console output.
- In `solveAndUpdate`: looking fields up by name or number in the field manager is not modelled; the step receives the local views directly, and a failing lookup is not modelled.
- Integer widths: counts and indices are unbounded naturals; the source's 32-bit `int` and `local_index_type` never overflow in the model.
