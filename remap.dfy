/** The bound-preserving post-processing step of the conservative remap
    (src/Compadre_OBFET.cpp, OBFET::solveAndUpdate).

    For every component of the target field the step computes the local
    conserved quantity of the source field, the target's current values and,
    for every local target, the smallest and largest source value among its
    neighbours. It hands these to an external optimiser, checks that every
    optimised value lies within its target's bounds, and writes the
    optimised values back into the target field.

    The optimiser (CAAS) together with the MPI reductions around it is the
    opaque function `optimise`: it receives the request built here and
    answers one value per local target. */
module Remap {
  import opened Vectors

  /** Initial running minimum and maximum of each target's bounds. */
  const InitialMin: real := 1000000000000000.0
  const InitialMax: real := -1000000000000000.0

  datatype RemapError =
    | SourceWeightingNameMissing
    | TargetWeightingNameMissing
    | OutOfBounds(component: nat, count: nat)

  datatype Outcome = Done | Failed(error: RemapError)

  /** Everything the step reads, as local views. Rows are particles,
      columns are field components; neighbour lists hold source indices,
      where an index below `sourceLocal` is a local source particle and any
      other index is a halo particle, offset by `sourceLocal`. */
  datatype Fields = Fields(
    sourceWeighting: seq<seq<real>>,
    targetWeighting: seq<seq<real>>,
    sourceData: seq<seq<real>>,
    haloData: seq<seq<real>>,
    neighbours: seq<seq<nat>>,
    sourceLocal: nat,
    targetLocal: nat)

  /** What the optimiser is given for one component. */
  datatype CaasRequest = CaasRequest(
    component: nat,
    weights: seq<real>,
    values: seq<real>,
    mins: seq<real>,
    maxs: seq<real>,
    localConserved: real)

  predicate ValidNeighbour(f: Fields, n: nat, components: nat)
  {
    if n < f.sourceLocal then n < |f.sourceData| && |f.sourceData[n]| >= components
    else n - f.sourceLocal < |f.haloData| && |f.haloData[n - f.sourceLocal]| >= components
  }

  /** The shapes every read of solveAndUpdate needs, for a target field of
      `rows` rows and `components` columns. */
  predicate ValidFields(f: Fields, rows: nat, components: nat)
  {
    f.targetLocal <= rows &&
    f.targetLocal <= |f.targetWeighting| &&
    (forall j :: 0 <= j < f.targetLocal ==> |f.targetWeighting[j]| > 0) &&
    f.sourceLocal <= |f.sourceWeighting| &&
    (forall j :: 0 <= j < f.sourceLocal ==> |f.sourceWeighting[j]| > 0) &&
    f.sourceLocal <= |f.sourceData| &&
    (forall j :: 0 <= j < f.sourceLocal ==> |f.sourceData[j]| >= components) &&
    f.targetLocal <= |f.neighbours| &&
    (forall j, k :: 0 <= j < f.targetLocal && 0 <= k < |f.neighbours[j]| ==>
       ValidNeighbour(f, f.neighbours[j][k], components))
  }

  // ---------------------------------------------------------------------
  // Target weights

  /** The weights vector: one slot per row of the target weighting field,
      column 0 of that field for local targets, zero elsewhere. */
  function Weights(f: Fields): seq<real>
    requires f.targetLocal <= |f.targetWeighting|
    requires forall j :: 0 <= j < f.targetLocal ==> |f.targetWeighting[j]| > 0
  {
    seq(|f.targetWeighting|, j requires 0 <= j < |f.targetWeighting| =>
      if j < f.targetLocal then f.targetWeighting[j][0] else 0.0)
  }

  method CopyWeights(f: Fields) returns (weights: seq<real>)
    requires f.targetLocal <= |f.targetWeighting|
    requires forall j :: 0 <= j < f.targetLocal ==> |f.targetWeighting[j]| > 0
    ensures |weights| == |f.targetWeighting|
    ensures forall j :: 0 <= j < f.targetLocal ==> weights[j] == f.targetWeighting[j][0]
    ensures forall j :: f.targetLocal <= j < |weights| ==> weights[j] == 0.0
    ensures weights == Weights(f)
  {
    weights := seq(|f.targetWeighting|, j => 0.0);
    for j := 0 to f.targetLocal
      invariant |weights| == |f.targetWeighting|
      invariant forall k :: 0 <= k < j ==> weights[k] == f.targetWeighting[k][0]
      invariant forall k :: j <= k < |weights| ==> weights[k] == 0.0
    {
      weights := weights[j := f.targetWeighting[j][0]];
    }
  }

  // ---------------------------------------------------------------------
  // Local conserved quantity

  /** Sum over the first n local source particles of weight * value. */
  function WeightedSum(f: Fields, comp: nat, n: nat): real
    requires n <= f.sourceLocal && f.sourceLocal <= |f.sourceWeighting| && f.sourceLocal <= |f.sourceData|
    requires forall j :: 0 <= j < f.sourceLocal ==> |f.sourceWeighting[j]| > 0 && |f.sourceData[j]| > comp
  {
    if n == 0 then 0.0
    else WeightedSum(f, comp, n - 1) + f.sourceWeighting[n - 1][0] * f.sourceData[n - 1][comp]
  }

  /** Column 0 of the source weighting field over the local particles. */
  function SourceWeightColumn(f: Fields): (w: seq<real>)
    requires f.sourceLocal <= |f.sourceWeighting|
    requires forall j :: 0 <= j < f.sourceLocal ==> |f.sourceWeighting[j]| > 0
    ensures |w| == f.sourceLocal && forall j :: 0 <= j < f.sourceLocal ==> w[j] == f.sourceWeighting[j][0]
  {
    seq(f.sourceLocal, j requires 0 <= j < f.sourceLocal => f.sourceWeighting[j][0])
  }

  /** Column `comp` of the source field over the local particles. */
  function SourceColumn(f: Fields, comp: nat): (s: seq<real>)
    requires f.sourceLocal <= |f.sourceData|
    requires forall j :: 0 <= j < f.sourceLocal ==> |f.sourceData[j]| > comp
    ensures |s| == f.sourceLocal && forall j :: 0 <= j < f.sourceLocal ==> s[j] == f.sourceData[j][comp]
  {
    seq(f.sourceLocal, j requires 0 <= j < f.sourceLocal => f.sourceData[j][comp])
  }

  lemma {:induction false} WeightedSumIsDot(f: Fields, comp: nat, n: nat)
    requires n <= f.sourceLocal && f.sourceLocal <= |f.sourceWeighting| && f.sourceLocal <= |f.sourceData|
    requires forall j :: 0 <= j < f.sourceLocal ==> |f.sourceWeighting[j]| > 0 && |f.sourceData[j]| > comp
    ensures WeightedSum(f, comp, n) == Dot(SourceWeightColumn(f)[..n], SourceColumn(f, comp)[..n])
    decreases n
  {
    if n > 0 {
      WeightedSumIsDot(f, comp, n - 1);
      var w, s := SourceWeightColumn(f), SourceColumn(f, comp);
      assert w[..n][..n - 1] == w[..n - 1];
      assert s[..n][..n - 1] == s[..n - 1];
    }
  }

  /** The local conserved quantity of component `comp`: the inner product of
      the source weights with the source values over the local particles. */
  method LocalConservedQuantity(f: Fields, comp: nat) returns (q: real)
    requires f.sourceLocal <= |f.sourceWeighting| && f.sourceLocal <= |f.sourceData|
    requires forall j :: 0 <= j < f.sourceLocal ==> |f.sourceWeighting[j]| > 0 && |f.sourceData[j]| > comp
    ensures q == WeightedSum(f, comp, f.sourceLocal)
    ensures q == Dot(SourceWeightColumn(f), SourceColumn(f, comp))
  {
    q := 0.0;
    for j := 0 to f.sourceLocal
      invariant q == WeightedSum(f, comp, j)
    {
      q := q + f.sourceWeighting[j][0] * f.sourceData[j][comp];
    }
    WeightedSumIsDot(f, comp, f.sourceLocal);
    assert SourceWeightColumn(f)[..f.sourceLocal] == SourceWeightColumn(f);
    assert SourceColumn(f, comp)[..f.sourceLocal] == SourceColumn(f, comp);
  }

  // ---------------------------------------------------------------------
  // Neighbour bounds

  /** The value of neighbour n: local source data below `sourceLocal`,
      halo data above it. */
  function NeighbourValue(f: Fields, components: nat, n: nat, comp: nat): real
    requires ValidNeighbour(f, n, components) && comp < components
  {
    if n < f.sourceLocal then f.sourceData[n][comp] else f.haloData[n - f.sourceLocal][comp]
  }

  /** The neighbour values of local target j, in neighbour-list order. */
  function NeighbourValues(f: Fields, components: nat, j: nat, comp: nat): (vs: seq<real>)
    requires j < f.targetLocal && f.targetLocal <= |f.neighbours| && comp < components
    requires forall k :: 0 <= k < |f.neighbours[j]| ==> ValidNeighbour(f, f.neighbours[j][k], components)
    ensures |vs| == |f.neighbours[j]|
    ensures forall k :: 0 <= k < |vs| ==> vs[k] == NeighbourValue(f, components, f.neighbours[j][k], comp)
  {
    seq(|f.neighbours[j]|, k requires 0 <= k < |f.neighbours[j]| => NeighbourValue(f, components, f.neighbours[j][k], comp))
  }

  /** The running minimum, started at InitialMin, after visiting vs in order. */
  function LowerBound(vs: seq<real>): real
    decreases |vs|
  {
    if |vs| == 0 then InitialMin
    else
      var lo := LowerBound(vs[..|vs| - 1]);
      var v := vs[|vs| - 1];
      if v < lo then v else lo
  }

  /** The running maximum, started at InitialMax, after visiting vs in order. */
  function UpperBound(vs: seq<real>): real
    decreases |vs|
  {
    if |vs| == 0 then InitialMax
    else
      var hi := UpperBound(vs[..|vs| - 1]);
      var v := vs[|vs| - 1];
      if v > hi then v else hi
  }

  /** The lower bound is below every neighbour value and below InitialMin,
      and it is InitialMin or one of the values: it is the minimum of
      InitialMin and the values. */
  lemma {:induction false} LowerBoundIsMinimum(vs: seq<real>)
    ensures LowerBound(vs) <= InitialMin
    ensures forall k :: 0 <= k < |vs| ==> LowerBound(vs) <= vs[k]
    ensures LowerBound(vs) == InitialMin || exists k :: 0 <= k < |vs| && LowerBound(vs) == vs[k]
    decreases |vs|
  {
    if |vs| > 0 {
      var init := vs[..|vs| - 1];
      LowerBoundIsMinimum(init);
      assert forall k :: 0 <= k < |init| ==> init[k] == vs[k];
    }
  }

  /** Mirror of LowerBoundIsMinimum for the upper bound. */
  lemma {:induction false} UpperBoundIsMaximum(vs: seq<real>)
    ensures UpperBound(vs) >= InitialMax
    ensures forall k :: 0 <= k < |vs| ==> UpperBound(vs) >= vs[k]
    ensures UpperBound(vs) == InitialMax || exists k :: 0 <= k < |vs| && UpperBound(vs) == vs[k]
    decreases |vs|
  {
    if |vs| > 0 {
      var init := vs[..|vs| - 1];
      UpperBoundIsMaximum(init);
      assert forall k :: 0 <= k < |init| ==> init[k] == vs[k];
    }
  }

  /** Every neighbour value lies within the bounds. The lower bound equals
      one of the neighbour values exactly when some neighbour value is at
      most InitialMin (and symmetrically for the upper bound and
      InitialMax). An empty neighbourhood keeps the initial bounds, whose
      lower bound exceeds the upper. */
  lemma BoundsBracketNeighbours(vs: seq<real>)
    ensures forall k :: 0 <= k < |vs| ==> LowerBound(vs) <= vs[k] <= UpperBound(vs)
    ensures (exists k :: 0 <= k < |vs| && LowerBound(vs) == vs[k]) <==>
            (exists k :: 0 <= k < |vs| && vs[k] <= InitialMin)
    ensures (exists k :: 0 <= k < |vs| && UpperBound(vs) == vs[k]) <==>
            (exists k :: 0 <= k < |vs| && vs[k] >= InitialMax)
    ensures |vs| == 0 ==> LowerBound(vs) == InitialMin && UpperBound(vs) == InitialMax
    ensures |vs| > 0 ==> LowerBound(vs) <= UpperBound(vs)
  {
    LowerBoundIsMinimum(vs);
    UpperBoundIsMaximum(vs);
    if |vs| > 0 {
      assert LowerBound(vs) <= vs[0] <= UpperBound(vs);
    }
  }

  /** Target values of one component as handed to the optimiser: the
      column's entry for local targets, zero elsewhere. */
  function TargetValues(column: seq<real>, targetLocal: nat): seq<real>
  {
    seq(|column|, j requires 0 <= j < |column| => if j < targetLocal then column[j] else 0.0)
  }

  function Mins(f: Fields, rows: nat, components: nat, comp: nat): seq<real>
    requires ValidFields(f, rows, components) && comp < components
  {
    seq(rows, j requires 0 <= j < rows =>
      if j < f.targetLocal then LowerBound(NeighbourValues(f, components, j, comp)) else InitialMin)
  }

  function Maxs(f: Fields, rows: nat, components: nat, comp: nat): seq<real>
    requires ValidFields(f, rows, components) && comp < components
  {
    seq(rows, j requires 0 <= j < rows =>
      if j < f.targetLocal then UpperBound(NeighbourValues(f, components, j, comp)) else InitialMax)
  }

  /** Column c of the target field as a sequence. */
  function ColumnOf(target: array2<real>, c: nat): (s: seq<real>)
    requires c < target.Length1
    reads target
    ensures |s| == target.Length0 && forall j :: 0 <= j < target.Length0 ==> s[j] == target[j, c]
  {
    seq(target.Length0, j requires 0 <= j < target.Length0 reads target => target[j, c])
  }

  /** Running min and max over the neighbours of one local target. */
  method NeighbourBounds(f: Fields, components: nat, j: nat, comp: nat) returns (lo: real, hi: real)
    requires j < f.targetLocal && f.targetLocal <= |f.neighbours| && comp < components
    requires forall k :: 0 <= k < |f.neighbours[j]| ==> ValidNeighbour(f, f.neighbours[j][k], components)
    ensures lo == LowerBound(NeighbourValues(f, components, j, comp))
    ensures hi == UpperBound(NeighbourValues(f, components, j, comp))
    ensures forall k :: 0 <= k < |f.neighbours[j]| ==>
              lo <= NeighbourValue(f, components, f.neighbours[j][k], comp) <= hi
  {
    ghost var vs := NeighbourValues(f, components, j, comp);
    var neighbours := f.neighbours[j];
    lo, hi := InitialMin, InitialMax;
    for k := 0 to |neighbours|
      invariant lo == LowerBound(vs[..k]) && hi == UpperBound(vs[..k])
    {
      var n := neighbours[k];
      var value := if n < f.sourceLocal then f.sourceData[n][comp] else f.haloData[n - f.sourceLocal][comp];
      assert vs[..k + 1][..k] == vs[..k];
      lo := if value < lo then value else lo;
      hi := if value > hi then value else hi;
    }
    assert vs[..|neighbours|] == vs;
    BoundsBracketNeighbours(vs);
  }

  /** The target values and neighbour bounds of component `comp` for every
      local target; the remaining slots keep their initial values. */
  method GatherBounds(f: Fields, target: array2<real>, comp: nat) returns (values: seq<real>, mins: seq<real>, maxs: seq<real>)
    requires ValidFields(f, target.Length0, target.Length1) && comp < target.Length1
    ensures values == TargetValues(ColumnOf(target, comp), f.targetLocal)
    ensures mins == Mins(f, target.Length0, target.Length1, comp)
    ensures maxs == Maxs(f, target.Length0, target.Length1, comp)
    ensures forall j, k :: 0 <= j < f.targetLocal && 0 <= k < |f.neighbours[j]| ==>
              mins[j] <= NeighbourValue(f, target.Length1, f.neighbours[j][k], comp) <= maxs[j]
  {
    var rows := target.Length0;
    values := seq(rows, j => 0.0);
    mins := seq(rows, j => InitialMin);
    maxs := seq(rows, j => InitialMax);
    for j := 0 to f.targetLocal
      invariant |values| == |mins| == |maxs| == rows
      invariant forall r :: 0 <= r < rows ==> values[r] == if r < j then target[r, comp] else 0.0
      invariant forall r :: 0 <= r < rows ==>
                  mins[r] == if r < j then LowerBound(NeighbourValues(f, target.Length1, r, comp)) else InitialMin
      invariant forall r :: 0 <= r < rows ==>
                  maxs[r] == if r < j then UpperBound(NeighbourValues(f, target.Length1, r, comp)) else InitialMax
    {
      values := values[j := target[j, comp]];
      var lo, hi := NeighbourBounds(f, target.Length1, j, comp);
      mins := mins[j := lo];
      maxs := maxs[j := hi];
    }
    forall j, k | 0 <= j < f.targetLocal && 0 <= k < |f.neighbours[j]|
      ensures mins[j] <= NeighbourValue(f, target.Length1, f.neighbours[j][k], comp) <= maxs[j]
    {
      var vs := NeighbourValues(f, target.Length1, j, comp);
      BoundsBracketNeighbours(vs);
      assert vs[k] == NeighbourValue(f, target.Length1, f.neighbours[j][k], comp);
    }
  }

  // ---------------------------------------------------------------------
  // Bound check and write-back

  predicate OutOfRange(x: real, lo: real, hi: real)
  {
    x > hi || x < lo
  }

  /** Number of the first n targets whose value lies outside its bounds. */
  function Violations(updated: seq<real>, mins: seq<real>, maxs: seq<real>, n: nat): nat
    requires n <= |updated| && n <= |mins| && n <= |maxs|
  {
    if n == 0 then 0
    else Violations(updated, mins, maxs, n - 1) + if OutOfRange(updated[n - 1], mins[n - 1], maxs[n - 1]) then 1 else 0
  }

  /** The count is zero exactly when every one of the first n values lies
      within its bounds. */
  lemma {:induction false} NoViolationsIffWithinBounds(updated: seq<real>, mins: seq<real>, maxs: seq<real>, n: nat)
    requires n <= |updated| && n <= |mins| && n <= |maxs|
    ensures Violations(updated, mins, maxs, n) == 0 <==>
              forall j :: 0 <= j < n ==> mins[j] <= updated[j] <= maxs[j]
    decreases n
  {
    if n > 0 {
      NoViolationsIffWithinBounds(updated, mins, maxs, n - 1);
    }
  }

  method CountOutOfBounds(updated: seq<real>, mins: seq<real>, maxs: seq<real>, n: nat) returns (count: nat)
    requires n <= |updated| && n <= |mins| && n <= |maxs|
    ensures count == Violations(updated, mins, maxs, n)
    ensures count == 0 <==> forall j :: 0 <= j < n ==> mins[j] <= updated[j] <= maxs[j]
  {
    count := 0;
    for j := 0 to n
      invariant count == Violations(updated, mins, maxs, j)
    {
      if updated[j] > maxs[j] || updated[j] < mins[j] {
        count := count + 1;
      }
    }
    NoViolationsIffWithinBounds(updated, mins, maxs, n);
  }

  /** Writes the first n updated values into column `comp` of the target
      field; nothing else in the field changes. */
  method WriteColumn(target: array2<real>, comp: nat, updated: seq<real>, n: nat)
    requires comp < target.Length1 && n <= target.Length0 && n <= |updated|
    modifies target
    ensures forall j, c :: 0 <= j < target.Length0 && 0 <= c < target.Length1 ==>
              target[j, c] == if c == comp && j < n then updated[j] else old(target[j, c])
  {
    for j := 0 to n
      invariant forall r, c :: 0 <= r < target.Length0 && 0 <= c < target.Length1 ==>
                  target[r, c] == if c == comp && r < j then updated[r] else old(target[r, c])
    {
      target[j, comp] := updated[j];
    }
  }

  // ---------------------------------------------------------------------
  // The whole step

  /** The request built for component `comp` when its column holds `column`. */
  function Request(f: Fields, components: nat, column: seq<real>, comp: nat): CaasRequest
    requires ValidFields(f, |column|, components) && comp < components
    requires forall j :: 0 <= j < f.sourceLocal ==> |f.sourceWeighting[j]| > 0 && |f.sourceData[j]| > comp
  {
    CaasRequest(comp, Weights(f), TargetValues(column, f.targetLocal),
                Mins(f, |column|, components, comp), Maxs(f, |column|, components, comp),
                WeightedSum(f, comp, f.sourceLocal))
  }

  /** updated_target_values: the optimiser's answer for local targets, zero
      for the remaining slots. */
  function Optimised(optimise: CaasRequest -> (nat -> real), request: CaasRequest, rows: nat, targetLocal: nat): seq<real>
  {
    seq(rows, j requires 0 <= j < rows => if j < targetLocal then optimise(request)(j) else 0.0)
  }

  /** The optimised values of component `comp` whose column holds `column`. */
  function ComponentUpdate(f: Fields, optimise: CaasRequest -> (nat -> real), components: nat, column: seq<real>, comp: nat): seq<real>
    requires ValidFields(f, |column|, components) && comp < components
  {
    Optimised(optimise, Request(f, components, column, comp), |column|, f.targetLocal)
  }

  /** How many local targets of component `comp` end outside their bounds. */
  function ComponentViolations(f: Fields, optimise: CaasRequest -> (nat -> real), components: nat, column: seq<real>, comp: nat): nat
    requires ValidFields(f, |column|, components) && comp < components
  {
    Violations(ComponentUpdate(f, optimise, components, column, comp),
               Mins(f, |column|, components, comp), Maxs(f, |column|, components, comp), f.targetLocal)
  }

  /** A local target without neighbours keeps the initial bounds 1e15 and
      -1e15, which no value satisfies: its component fails the bound check
      whatever the optimiser answers. */
  lemma TargetWithoutNeighboursFails(f: Fields, optimise: CaasRequest -> (nat -> real), components: nat,
                                     column: seq<real>, comp: nat, j: nat)
    requires ValidFields(f, |column|, components) && comp < components
    requires j < f.targetLocal && |f.neighbours[j]| == 0
    ensures ComponentViolations(f, optimise, components, column, comp) > 0
  {
    var mins, maxs := Mins(f, |column|, components, comp), Maxs(f, |column|, components, comp);
    assert NeighbourValues(f, components, j, comp) == [];
    assert mins[j] == InitialMin && maxs[j] == InitialMax;
    NoViolationsIffWithinBounds(ComponentUpdate(f, optimise, components, column, comp), mins, maxs, f.targetLocal);
  }

  /** Number of components whose columns were written back. */
  function Completed(r: Outcome, components: nat): nat
  {
    match r
    case Done => components
    case Failed(OutOfBounds(c, _)) => c
    case Failed(_) => 0
  }

  /** solveAndUpdate. Empty weighting-field names are rejected before any
      work. Otherwise the components are processed in order; the first one
      with a target outside its bounds stops the step with that count, after
      the components before it have been written back. Each written column
      holds, for local targets, the optimiser's answer to the request built
      from that column's original values; every other entry is unchanged. */
  method SolveAndUpdate(sourceWeightingName: string, targetWeightingName: string, f: Fields,
                        optimise: CaasRequest -> (nat -> real), target: array2<real>) returns (r: Outcome)
    requires ValidFields(f, target.Length0, target.Length1)
    modifies target
    ensures sourceWeightingName == [] ==> r == Failed(SourceWeightingNameMissing)
    ensures sourceWeightingName != [] && targetWeightingName == [] ==> r == Failed(TargetWeightingNameMissing)
    ensures sourceWeightingName != [] && targetWeightingName != [] ==> r.Done? || r.error.OutOfBounds?
    ensures r.Failed? && !r.error.OutOfBounds? ==> unchanged(target)
    ensures r.Failed? && r.error.OutOfBounds? ==>
              r.error.component < target.Length1 && r.error.count > 0 &&
              r.error.count == ComponentViolations(f, optimise, target.Length1, old(ColumnOf(target, r.error.component)), r.error.component)
    ensures forall c :: 0 <= c < Completed(r, target.Length1) ==>
              ComponentViolations(f, optimise, target.Length1, old(ColumnOf(target, c)), c) == 0
    ensures forall j, c :: 0 <= j < target.Length0 && 0 <= c < target.Length1 ==>
              target[j, c] == if c < Completed(r, target.Length1) && j < f.targetLocal
                              then ComponentUpdate(f, optimise, target.Length1, old(ColumnOf(target, c)), c)[j]
                              else old(target[j, c])
  {
    if |sourceWeightingName| == 0 {
      return Failed(SourceWeightingNameMissing);
    }
    if |targetWeightingName| == 0 {
      return Failed(TargetWeightingNameMissing);
    }
    var weights := CopyWeights(f);
    var rows, components := target.Length0, target.Length1;
    for i := 0 to components
      invariant forall c :: 0 <= c < i ==> ComponentViolations(f, optimise, components, old(ColumnOf(target, c)), c) == 0
      invariant forall j, c :: 0 <= j < rows && 0 <= c < components ==>
                  target[j, c] == if c < i && j < f.targetLocal
                                  then ComponentUpdate(f, optimise, components, old(ColumnOf(target, c)), c)[j]
                                  else old(target[j, c])
    {
      assert ColumnOf(target, i) == old(ColumnOf(target, i));
      var conserved := LocalConservedQuantity(f, i);
      var values, mins, maxs := GatherBounds(f, target, i);
      var request := CaasRequest(i, weights, values, mins, maxs, conserved);
      assert request == Request(f, components, old(ColumnOf(target, i)), i);
      var answer := optimise(request);
      var updated := seq(rows, j => 0.0);
      for j := 0 to f.targetLocal
        invariant |updated| == rows
        invariant forall r :: 0 <= r < rows ==> updated[r] == if r < j then answer(r) else 0.0
      {
        updated := updated[j := answer(j)];
      }
      assert updated == ComponentUpdate(f, optimise, components, old(ColumnOf(target, i)), i);
      var outOfBounds := CountOutOfBounds(updated, mins, maxs, f.targetLocal);
      if outOfBounds != 0 {
        return Failed(OutOfBounds(i, outOfBounds));
      }
      WriteColumn(target, i, updated, f.targetLocal);
    }
    return Done;
  }
}
