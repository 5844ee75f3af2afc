# Magnetic-fluid droplet solver: a Dafny model

The repository computes the shape of an axisymmetric drop of magnetic fluid.
The drop sits in a magnetic field and rotates with parameter W. Two relaxation
solvers drive the computation:

- the **fluid solver** (`MagneticFluid`) finds the meridian profile of the drop
  surface, a sequence of points (r, z). Each iteration solves two tridiagonal
  systems by the right sweep (`RightSweep`, the Thomas algorithm).
- the **field solver** (`MagneticField`) computes the magnetic potential on a
  curvilinear triangle grid of the meridian half-plane (`SimpleTriangleGrid`),
  with a Gauss-Seidel sweep over a six-neighbour stencil.

The **coordinator** (`Solution`) alternates the two solvers. It halves a
solver's relaxation parameter when that solver fails, and rolls back to the
last valid profile, grid and potential. It advances W towards its target.
Around this core sit:

- the numeric helpers of `util.h` and `math_ext.h`;
- Bezier curves;
- the command-line option matching of `util.cpp` and its handler
  `ProgramOptsHandler`;
- the data-file layout of `files_util.h`;
- the shared result codes.

The model has one module per source file:

| module | file | source |
|---|---|---|
| `Numerics` | numerics.dfy | Vector2 and the C library |
| `Util` | util.dfy | util.h |
| `MathExt` | math_ext.dfy | math_ext.h |
| `Sweep` | right_sweep.dfy | RightSweep.cpp |
| `Bezier` | bezier.dfy | BezierCurve.cpp |
| `Grids` | grid.dfy | SimpleTriangleGrid.cpp |
| `Field` | field.dfy | MagneticField.cpp |
| `Fluid` | fluid.dfy | MagneticFluid.cpp |
| `Coordinator` | solution.dfy | Solution.cpp |
| `ProgramOpts` | opts.dfy | util.cpp |
| `OptsHandler` | opts_handler.dfy | ProgramOptsHandler.cpp |
| `FilesUtil` | files_util.dfy | files_util.h |
| `ResultCodes` | result_codes.dfy | result_codes.h |

**Modelling choices**

- Objects whose fields the source updates in place are classes over `array`
  and `array2` with `modifies` frames: `RightSweep`, `BezierCurve`,
  `SimpleTriangleGrid`, `MagneticField`, `MagneticFluid`, `Solution` and
  `ProgramOptsHandler`.
- Each loop is a `while` loop proved against a specification function:
  - the sweep's alpha, beta and back-substitution recurrences;
  - the Gauss-Seidel fixed point of the field stencil;
  - the assembled tridiagonal systems of the fluid;
  - the cells of the generated grid.
- Doubles are `real`. `sin`, `cos`, `cbrt`, `pow`, `isfinite` and the value of
  a division by zero are uninterpreted functions in a `Numerics.Libm` record.
  The model assumes nothing about them.
- `assert_message` preconditions become `requires`.
- Conditions that depend on computed data are explicit outcomes:
  - the pedantic sweep's abort on a non-dominant matrix;
  - the exception of `readStringValue`.

**Notes on the code.** The model does what these lines do:

- **Fluid stopping test.** `calcRelaxation` of `MagneticFluid.cpp` compares the
  new z approximation with itself (line 147), so only the change in r decides
  when the loop stops.
- **Field wedge weighting.** The field coefficient of `MagneticField.cpp`
  (line 235) scales every wedge by `1 + chi`, inside and outside the drop
  alike.
- **Field validity test.** The field's `isApproximationValid` (lines
  538-552) checks only that each value is finite. It has no lower bound.
- **Two field interfaces.** `Solution.cpp` calls a field interface
  (`updateGrid`, `setGrid`, a `Matrix` potential) that `MagneticField.cpp`
  does not provide. Inside the coordinator the field is therefore abstract (see
  "Left out").

## Model

| member | source | states |
|---|---|---|
| Numerics.Trunc | Diploma/util/util.h:110 | the C cast `(int)x` truncates toward zero: within 1 of x, never beyond x, same sign |
| ResultCodes.Ordinal | Diploma/problem/result_codes.h:4-16 | every result code has one of the ten enumerator values 0..9 |
| ResultCodes.CodeOf | Diploma/problem/result_codes.h:4-16 | each enumerator value 0..9 names the code whose ordinal it is (the inverse of Ordinal) |
| ResultCodes.OrdinalRoundTrip | Diploma/problem/result_codes.h:4-16 | decoding a code's ordinal gives the code back, so distinct codes have distinct values |
| Util.Norm | Diploma/util/util.h:35-51 | the running maximum is -infinity exactly for an empty range, otherwise an upper bound of every \|next[i]-prev[i]\| that some index attains |
| Util.Norm2 | Diploma/util/util.h:53-72 | the same over a lines x columns block: -infinity iff the block is empty, else the attained maximum of the cell gaps |
| Util.CalcLerp | Diploma/util/util.h:74-77 | interpolation returns begin at 0, end at 1, and the common value when both ends agree |
| Util.CalcLerpVec | Diploma/util/util.h:98-101 | the Vector2 interpolation is the scalar one per component and hits both endpoints |
| Util.Relaxation | Diploma/util/util.h:79-85 | the first size entries become cur + param (next - cur) from the old values, the rest and curApprox are unchanged, and param 1 changes nothing |
| Util.Relaxation2 | Diploma/util/util.h:87-96 | the same rule on the leading lines x columns block of a matrix, every other cell unchanged |
| Util.CalcDoubleTriangleArea | Diploma/util/util.h:103-106 | the doubled signed area vanishes for a degenerate triangle with two equal vertices |
| Util.DoubleTriangleAreaAntisymmetric | Diploma/util/util.h:103-106 | exchanging the first and third vertex negates the area (orientation) |
| Util.ParametricIndices | Diploma/util/util.h:110-127 | the clamped bracket lies inside the polyline and is one point or one segment |
| Util.ClampedBracket | Diploma/util/util.h:113-127 | an index at or past the last point collapses to the last point, an inner index gives the segment (k, k+1) |
| Util.CalcParametricPoint | Diploma/util/util.h:108-139 | the polyline point is the first point at 0, the last point from 1 on, and inside [0,1) the interpolation on the segment that holds the parameter |
| Util.LocalParamStep | Diploma/util/util.h:134-136 | the local parameter of a bracket (k, k+1) has a nonzero denominator and equals (pointsNum-1) param - k |
| Util.ParametricBracket | Diploma/util/util.h:110-127 | where the clamped bracket lands for parameter 0, parameters >= 1 and parameters inside [0,1) |
| Util.BracketAtStart | Diploma/util/util.h:110-127 | at parameter 0 the bracket is the first segment, or the single point |
| Util.BracketPastEnd | Diploma/util/util.h:113-117 | from parameter 1 on both indices are clamped to the last point |
| Util.BracketInside | Diploma/util/util.h:110-111 | inside [0,1) the bracket is the segment floor((n-1) param) |
| MathExt.Lerp | Diploma/util/math_ext.h:13-18 | the template lerp agrees with util.h calcLerp and hits both endpoints |
| MathExt.LerpVec | Diploma/util/math_ext.h:13-18 | the Vector2 instance agrees with util.h's Vector2 calcLerp |
| MathExt.Relaxation | Diploma/util/math_ext.h:25-36 | for equal sizes every entry of nextApprox becomes the relaxed value of the old entries |
| MathExt.RelaxationMatrix | Diploma/util/math_ext.h:39-51 | for equal dimensions the raw-index loop relaxes every cell of the matrix |
| MathExt.DoubleTriangleArea | Diploma/util/math_ext.h:58-63 | the x/y template is the util.h doubled area |
| MathExt.ParametricPoint | Diploma/util/math_ext.h:70-107 | the point is the bracketing point itself when the clamped bracket collapses, otherwise the interpolation between the two bracketing points at (points - 1) * param minus the lower index |
| MathExt.ParametricPointAgrees | Diploma/util/math_ext.h:70-107 | parametric_point over an Array equals util.h calcParametricPoint over the same points |
| MathExt.ParametricPointEnds | Diploma/util/math_ext.h:70-107 | parametric_point starts at the first point and stays at the last one from parameter 1 on |
| Sweep.AlphaStepFrame | Diploma/util/RightSweep.cpp:90-102 | the alpha recurrence at i reads only alpha(i-1) and alpha(i) |
| Sweep.BetaStepFrame | Diploma/util/RightSweep.cpp:105-116 | the beta recurrence at i reads only beta(i-1) and beta(i) |
| Sweep.BackStepFrame | Diploma/util/RightSweep.cpp:119-129 | back substitution at i reads only x(i) and x(i+1) |
| Sweep.FirstRowHolds | Diploma/util/RightSweep.cpp:90-129 | the computed solution satisfies row 0 of the system |
| Sweep.LastRowHolds | Diploma/util/RightSweep.cpp:90-129 | the computed solution satisfies the last row |
| Sweep.InteriorRowHolds | Diploma/util/RightSweep.cpp:90-129 | the computed solution satisfies every interior row whose pivot is nonzero |
| Sweep.SweepSolvesSystem | Diploma/util/RightSweep.cpp:63-129 | when no pivot vanishes the alphas, betas and back substitution solve every row of the tridiagonal system |
| Sweep.StrictDominancePivots | Diploma/util/RightSweep.cpp:90-102 | under strict diagonal dominance every pivot is nonzero and every alpha before the last has magnitude below 1 |
| Sweep.DominanceAdmitsZeroPivot | Diploma/util/RightSweep.cpp:136-158 | isValid's non-strict test accepts a system whose first pivot is zero, so validity alone does not make the sweep well-defined |
| Sweep.RightSweep.System | Diploma/util/RightSweep.cpp:6-9 | the stored vectors form a well-formed system of the sweep's size |
| Sweep.RightSweep.constructor | Diploma/util/RightSweep.cpp:6-9 | every vector is fresh, sized n-1 or n, and zero-filled; the pedantic flag is stored |
| Sweep.RightSweep.Target | Diploma/util/RightSweep.cpp:26-46 | an access type addresses one of the four coefficient vectors |
| Sweep.RightSweep.Get | Diploma/util/RightSweep.cpp:26-46 | reading through operator() returns the addressed entry |
| Sweep.RightSweep.Set | Diploma/util/RightSweep.cpp:26-46 | writing through operator() changes exactly that entry of that vector |
| Sweep.RightSweep.IsValid | Diploma/util/RightSweep.cpp:136-158 | isValid holds exactly when no row's main entry is smaller in magnitude than its off-diagonal sum |
| Sweep.RightSweep.CalcAlpha | Diploma/util/RightSweep.cpp:90-102 | every alpha satisfies the forward recurrence -upper / (main + lower alpha(i-1)) |
| Sweep.RightSweep.CalcBeta | Diploma/util/RightSweep.cpp:105-116 | every beta satisfies the forward recurrence from the constant terms |
| Sweep.RightSweep.Reversal | Diploma/util/RightSweep.cpp:119-129 | every unknown is alpha x(i+1) + beta, filled from the last down |
| Sweep.RightSweep.Solve | Diploma/util/RightSweep.cpp:63-83 | a pedantic sweep stops, leaving the destination alone, exactly on a non-dominant system; otherwise the destination is the sweep's solution and solves the system when pivots are nonzero (always under strict dominance) |
| Sweep.RightSweep.SolveNew | Diploma/util/RightSweep.cpp:53-60 | the same into a fresh vector of the sweep's size |
| Bezier.BinomialEdges | Diploma/util/BezierCurve.cpp:43-60 | C(n,n) = 1 and C(n,k) = 0 beyond n |
| Bezier.Absorption | Diploma/util/BezierCurve.cpp:51-54 | k C(n,k) = n C(n-1,k-1), the identity behind the coefficient loop |
| Bezier.CoefficientStep | Diploma/util/BezierCurve.cpp:51-54 | C(n,i-1)(n-i+1) = i C(n,i), so the integer division of the loop is exact |
| Bezier.BinomialSymmetric | Diploma/util/BezierCurve.cpp:56-59 | C(n,k) = C(n,n-k), so mirroring the first half fills the table correctly |
| Bezier.SeededQuotient | Diploma/util/BezierCurve.cpp:27-36 | multiplying (1-t)^m k times by 1/(1-t) leaves (1-t)^(m-k) |
| Bezier.PowerOfUnitAndZero | Diploma/util/BezierCurve.cpp:33-35 | powers of 1 are 1 and positive powers of 0 are 0 |
| Bezier.EvaluatedSumIsBernstein | Diploma/util/BezierCurve.cpp:23-40 | with binomial coefficients and exact powers the accumulated sum is the Bernstein sum |
| Bezier.BernsteinAtZero | Diploma/util/BezierCurve.cpp:23-40 | the Bernstein sum at t = 0 is the first control point |
| Bezier.EvaluatedSumMeaning | Diploma/util/BezierCurve.cpp:23-40 | when pow returns the exact power, evaluate's sum is the Bernstein form of the curve |
| Bezier.BezierCurve.constructor | Diploma/util/BezierCurve.cpp:6-15 | the curve copies its control points and its coefficient table holds C(n-1, i) |
| Bezier.BezierCurve.CalculateCoefficients | Diploma/util/BezierCurve.cpp:43-60 | afterwards every coefficient is C(n-1, i) |
| Bezier.BezierCurve.Evaluate | Diploma/util/BezierCurve.cpp:23-40 | the result is the accumulated sum; for t != 1 with an exact pow it is the Bernstein point, and at t = 0 it is the first control point |
| Grids.SimpleTriangleGrid.constructor | Diploma/problem/grids/SimpleTriangleGrid.cpp:7-11 | the point matrix is fresh with surfaceSplits+1 rows and internal+external+1 columns, the surface column being internalSplitsNum |
| Grids.SimpleTriangleGrid.Generate | Diploma/problem/grids/SimpleTriangleGrid.cpp:96-157 | every cell of the grid holds the value generate assigns: axis, surface and far columns, boundary rows, and interpolated interior |
| Grids.SimpleTriangleGrid.GenerateColumns | Diploma/problem/grids/SimpleTriangleGrid.cpp:109-117 | each row gets its axis point, its surface point read backwards, and infMultiplier times the surface point in the last column |
| Grids.SimpleTriangleGrid.SetRowColumns | Diploma/problem/grids/SimpleTriangleGrid.cpp:114-116 | the three writes of one row, the later write winning where columns coincide, nothing else changed |
| Grids.SimpleTriangleGrid.SetBoundaryCells | Diploma/problem/grids/SimpleTriangleGrid.cpp:125-126 | row 0 then the last row of one column, nothing else changed |
| Grids.SimpleTriangleGrid.GenerateBoundaryRows | Diploma/problem/grids/SimpleTriangleGrid.cpp:119-139 | row 0 runs along the equator and the last row along the axis, out to infMultiplier times; other cells unchanged |
| Grids.SimpleTriangleGrid.GenerateInternalBoundary | Diploma/problem/grids/SimpleTriangleGrid.cpp:121-127 | internal columns of the boundary rows are the shares j/internal of the intersection radius and of the axis segment |
| Grids.SimpleTriangleGrid.GenerateExternalBoundary | Diploma/problem/grids/SimpleTriangleGrid.cpp:129-139 | external columns interpolate from the drop out to infMultiplier times its radius and height |
| Grids.SimpleTriangleGrid.GenerateInteriorRows | Diploma/problem/grids/SimpleTriangleGrid.cpp:141-156 | interior cells interpolate from the axis to the surface and from the surface to the last column; other cells unchanged |
| Grids.SimpleTriangleGrid.FillInteriorRow | Diploma/problem/grids/SimpleTriangleGrid.cpp:143-155 | the two inner loops of one interior row |
| Grids.SimpleTriangleGrid.GenerateFromCoordinates | Diploma/problem/grids/SimpleTriangleGrid.cpp:78-93 | for equally long coordinate arrays the grid is generated from the zipped surface points |
| Grids.Zip | Diploma/problem/grids/SimpleTriangleGrid.cpp:83-90 | point i has r from the first array and z from the second |
| Grids.RowColumnValues | Diploma/problem/grids/SimpleTriangleGrid.cpp:111-115 | the row loop's axis and surface values are the named cell values |
| Grids.SurfaceColumnEnds | Diploma/problem/grids/SimpleTriangleGrid.cpp:111-115 | the surface column starts at the equator point (last surface point) and ends at the top of the drop |
| Grids.AxisColumnEnds | Diploma/problem/grids/SimpleTriangleGrid.cpp:99-114 | the axis column runs from the origin to the special point where the last row's internal part starts |
| Field.TableWrapsAround | Diploma/problem/MagneticField.cpp:7-14 | entries 6 and 7 of TABLE_OFFSETS repeat 0 and 1, entries 1..6 are distinct, and all are unit steps |
| Field.SweepOrderOfNeighbours | Diploma/problem/MagneticField.cpp:333-387 | the neighbours calcNextValue takes from nextApprox (1, 5, 6) are swept before (i, j); those from curApprox (2, 3, 4) after |
| Field.Snapshot | Diploma/problem/MagneticField.cpp:397-404 | a matrix value linked to the content of an array |
| Field.MissingNeighbourCoefficient | Diploma/problem/MagneticField.cpp:284-327 | the coefficient of a neighbour outside the grid is zero, so calcNextValue may skip it |
| Field.Weights | Diploma/problem/MagneticField.cpp:239-330 | the seven coefficients of (i, j) in order |
| Field.NeighbourSumFrame | Diploma/problem/MagneticField.cpp:338-372 | the weighted sum reads nextApprox only at neighbours 1, 5 and 6 |
| Field.NextValueFrame | Diploma/problem/MagneticField.cpp:333-375 | calcNextValue is unchanged when nextApprox differs elsewhere |
| Field.BoundaryDetermined | Diploma/problem/MagneticField.cpp:406-433 | the boundary conditions fix row 0 and the last column completely |
| Field.Seed | Diploma/problem/MagneticField.cpp:397-433 | the starting approximation meets the boundary conditions and holds the last valid values everywhere else |
| Field.FixedStep | Diploma/problem/MagneticField.cpp:378-387 | writing the rule's value at (i, j) extends the swept fixed-point region by one cell |
| Field.FixedPointUnique | Diploma/problem/MagneticField.cpp:378-387 | two fixed points of a rule that reads only swept cells, with equal boundaries, are equal |
| Field.UpdateReadsVisited | Diploma/problem/MagneticField.cpp:333-375 | calcNextValue as a rule reads the swept matrix only at already visited cells |
| Field.GaussSeidelCells | Diploma/problem/MagneticField.cpp:378-387 | GaussSeidel means, in both directions, that every written cell holds calcNextValue of the result |
| Field.SweepStep | Diploma/problem/MagneticField.cpp:382-385 | writing calcNextValue at (i, j) advances the sweep by one cell |
| Field.GaussSeidelUnique | Diploma/problem/MagneticField.cpp:378-387 | the sweep's result is determined by curApprox and the boundary |
| Field.SweepStart | Diploma/problem/MagneticField.cpp:380-382 | before the first cell nothing is required |
| Field.SweepNextRow | Diploma/problem/MagneticField.cpp:380-386 | a finished row leaves the sweep ready for the next |
| Field.SweepDone | Diploma/problem/MagneticField.cpp:378-387 | after the last row every written cell is a fixed point |
| Field.WrittenCellIsInside | Diploma/problem/MagneticField.cpp:380-385 | the sweep never writes row 0 or the last column |
| Field.SameBoundaryKeepsBoundary | Diploma/problem/MagneticField.cpp:406-433 | matrices agreeing on row 0 and the last column both meet the boundary conditions |
| Field.Relaxed | Diploma/util/util.h:87-96 | matrix relaxation gives cur + param (next - cur) in every cell |
| Field.RelaxationKeepsBoundary | Diploma/problem/MagneticField.cpp:464-471 | relaxing between two matrices that meet the boundary conditions keeps them, and param 1 gives the new sweep |
| Field.StepDeterministic | Diploma/problem/MagneticField.cpp:464-471 | one iteration is a function of the previous approximation |
| Field.ChainExtend | Diploma/problem/MagneticField.cpp:464-505 | a trace extended by a related step is still a chain |
| Field.ChainDeterministic | Diploma/problem/MagneticField.cpp:464-505 | under a functional step relation two chains from the same seed agree |
| Field.StepFunctional | Diploma/problem/MagneticField.cpp:464-471 | one iteration relates each approximation to at most one successor |
| Field.TrajectoryDeterministic | Diploma/problem/MagneticField.cpp:390-505 | the approximations calcRelaxation passes through depend on nothing but the seed |
| Field.TrajectoryBoundary | Diploma/problem/MagneticField.cpp:390-505 | every approximation of the iteration meets the boundary conditions |
| Field.TriangleDerivativeOfLinear | Diploma/problem/MagneticField.cpp:596-599 | the triangle gradient formula of calcDerivatives is exact for linear fields a r + b z + d |
| Field.Pow2 | Diploma/problem/MagneticField.cpp:116 | 2^n is at least 1 |
| Field.Pow2AtLeast | Diploma/problem/MagneticField.cpp:116 | 2^n >= n + 1, so repeated halving passes any positive minimum |
| Field.HalvingsNeeded | Diploma/problem/MagneticField.cpp:110-118 | for a positive minimum some number of halvings brings any start value below it |
| Field.HalvingBound | Diploma/problem/MagneticField.cpp:110-118 | after at least that many halvings the parameter is below the minimum, bounding calcResult's loop |
| Field.MagneticField.Context | Diploma/problem/MagneticField.cpp:17-48 | the stencil context carries the grid, chi and the solver's dimensions |
| Field.MagneticField.IndicesValidMeansInGrid | Diploma/problem/MagneticField.cpp:555-558 | isIndicesValid holds exactly for indices inside the grid |
| Field.MagneticField.CalcCoefficient | Diploma/problem/MagneticField.cpp:239-330 | the result is the stencil coefficient (diagonal wedge sum or the two wedges of a neighbour) |
| Field.MagneticField.CalcDiagonalCoefficient | Diploma/problem/MagneticField.cpp:251-283 | the diagonal coefficient sums the six wedges whose vertices exist |
| Field.MagneticField.CalcNeighbourCoefficient | Diploma/problem/MagneticField.cpp:284-327 | a neighbour's coefficient sums the wedges on both sides of it |
| Field.MagneticField.SumNeighbours | Diploma/problem/MagneticField.cpp:338-362 | a loop of calcNextValue extends the weighted sum over its neighbours in order |
| Field.MagneticField.CalcNextValue | Diploma/problem/MagneticField.cpp:333-375 | the new value is minus the weighted neighbour sum over the diagonal coefficient, reading 2..4 from curApprox and 5, 6, 1 from nextApprox |
| Field.MagneticField.WriteCell | Diploma/problem/MagneticField.cpp:384 | the write changes exactly cell (i, j) |
| Field.MagneticField.SweepRow | Diploma/problem/MagneticField.cpp:382-385 | one row from the right end to column 0 advances the sweep and keeps the boundary |
| Field.MagneticField.CalcNextApproximation | Diploma/problem/MagneticField.cpp:378-387 | the result is the Gauss-Seidel fixed point over curApprox, with the boundary unchanged |
| Field.MagneticField.CopyLastValid | Diploma/problem/MagneticField.cpp:397-404 | both buffers copy the last valid values |
| Field.MagneticField.SetLastColumnToGridZ | Diploma/problem/MagneticField.cpp:406-410 | the last column of both buffers takes the grid's z |
| Field.MagneticField.ZeroFirstRow | Diploma/problem/MagneticField.cpp:412-416 | row 0 of both buffers is zero |
| Field.MagneticField.SetBoundaryColumn | Diploma/problem/MagneticField.cpp:418-433 | the last column of both buffers takes the far-field boundary value z - (1-b) z / (z^2+r^2)^(3/2) |
| Field.MagneticField.SeedApproximations | Diploma/problem/MagneticField.cpp:397-433 | both buffers hold the seed: last valid values under the boundary conditions |
| Field.MagneticField.Advance | Diploma/problem/MagneticField.cpp:470-471 | a sweep plus relaxation is one iteration step and keeps the boundary |
| Field.MagneticField.RelaxationStep | Diploma/problem/MagneticField.cpp:464-471 | the buffers are swapped and the trace grows by one step of the iteration |
| Field.MagneticField.ShouldContinue | Diploma/problem/MagneticField.cpp:505 | the loop continues exactly when some cell of the leading surfaceColumnIndex+1 columns moved by more than the tolerance and the counter is below the limit |
| Field.MagneticField.IterateRelaxation | Diploma/problem/MagneticField.cpp:397-505 | the iteration runs at least once from the seed, records a trajectory, and when it stops early the last step converged |
| Field.MagneticField.IsApproximationValid | Diploma/problem/MagneticField.cpp:538-552 | the result is true exactly when every value is finite |
| Field.MagneticField.StoreGrid | Diploma/problem/MagneticField.cpp:523-529 | lastValidGrid becomes a copy of the grid |
| Field.MagneticField.CalcFanDerivative | Diploma/problem/MagneticField.cpp:584-599 | the derivative at surface point i is the triangle gradient over the two given neighbours |
| Field.MagneticField.OuterAtFirstPoint | Diploma/problem/MagneticField.cpp:578-580 | the outer derivative at point 0 is the r difference quotient across the surface column |
| Field.MagneticField.InnerAtLastPoint | Diploma/problem/MagneticField.cpp:623-625 | the inner derivative at the last point is the z difference quotient |
| Field.MagneticField.CalcInnerFans | Diploma/problem/MagneticField.cpp:582-600 | inner derivatives 0..n-2 are the gradients over the triangle towards the axis; the last is untouched |
| Field.MagneticField.CalcOuterFans | Diploma/problem/MagneticField.cpp:603-621 | outer derivatives 1..n-1 are the gradients over the triangle outside the surface; the first is untouched |
| Field.MagneticField.CalcDerivatives | Diploma/problem/MagneticField.cpp:561-626 | every inner and outer derivative is the specified one for the accepted values and grid |
| Field.MagneticField.AcceptResult | Diploma/problem/MagneticField.cpp:519-531 | the new values become the last valid ones by a buffer swap, the grid is stored and the derivatives recomputed |
| Field.MagneticField.CalcRelaxation | Diploma/problem/MagneticField.cpp:390-535 | the iteration runs from the seed; success means converged and finite, and then values, grid and derivatives are updated; the limit code means the counter reached the limit; failure leaves the last valid state unchanged |
| Field.MagneticField.CalcInnerDerivative | Diploma/problem/MagneticField.cpp:124-127 | the inner derivative interpolated along the surface is the first one at 0 and the last one from 1 on |
| Field.MagneticField.CalcOuterDerivative | Diploma/problem/MagneticField.cpp:130-133 | the outer derivative likewise |
| Field.MagneticField.CalcInitialApproximation | Diploma/problem/MagneticField.cpp:218-230 | relaxation parameter 1, counter 0 and every last valid value 0 |
| Field.MagneticField.constructor | Diploma/problem/MagneticField.cpp:17-48 | sizes from the parameters, fresh buffers, surface column internalSplitsNum, and the initial approximation |
| Field.MagneticField.Attempt | Diploma/problem/MagneticField.cpp:112-117 | one relaxation; on failure the parameter is halved and the last valid state is kept; on success the parameter is kept and the run is accepted: a relaxation trajectory from the seed of the last valid values that stopped before the iteration limit, converged at accuracy times the parameter, finite, stored as the new last valid values with the grid, and the inner and outer derivatives computed from it |
| Field.MagneticField.CalcResult | Diploma/problem/MagneticField.cpp:106-121 | the parameter is the old one halved some number of times; success iff it is still at least the minimum; after any halving the parameter is still at least half the minimum, so the loop stops at the first value below it; an old parameter below the minimum gives the invalid code untried; on success the state is accepted for the run seeded from the last valid values (converged trajectory, finite values, grid and both derivatives stored); otherwise the last valid values, grid and derivatives are unchanged |
| Fluid.Rs | Diploma/problem/MagneticFluid.cpp:131-132 | the r components of a profile, position by position |
| Fluid.Zs | Diploma/problem/MagneticFluid.cpp:131-132 | the z components of a profile |
| Fluid.TrapezeSumsAgree | Diploma/problem/MagneticFluid.cpp:256-281 | the Vector2 overload's running sum equals the split-array sum |
| Fluid.IntegralOverloadsAgree | Diploma/problem/MagneticFluid.cpp:256-281 | the two calcIntegralTrapeze overloads agree |
| Fluid.TrapezeSumNonNegative | Diploma/problem/MagneticFluid.cpp:261-264 | over a profile with non-decreasing radius and non-negative heights every partial sum is non-negative |
| Fluid.IntegralNonNegative | Diploma/problem/MagneticFluid.cpp:256-267 | the volume integral of such a profile is non-negative |
| Fluid.MagneticF | Diploma/problem/MagneticFluid.cpp:314-337 | the forcing term is zero when w is 0, and non-negative when w >= 0, chi > 0 and the cube root of the volume is positive |
| Fluid.MagneticSumWithoutField | Diploma/problem/MagneticFluid.cpp:284-297 | with w = 0 every term of the magnetic sum vanishes |
| Fluid.PressureWithoutField | Diploma/problem/MagneticFluid.cpp:304-311 | with w = 0 the magnetic integral is zero and calcQ is -2 / r(last) |
| Fluid.RConstTerms | Diploma/problem/MagneticFluid.cpp:190-207 | one constant term per point |
| Fluid.RSystem | Diploma/problem/MagneticFluid.cpp:180-207 | the r system is well-formed and has one row per point |
| Fluid.RSystemDominant | Diploma/problem/MagneticFluid.cpp:180-207 | the r system always passes RightSweep::isValid |
| Fluid.NegativeReciprocal | Diploma/problem/MagneticFluid.cpp:198-202 | -1/p lies in [1/2, 1) for a pivot p in [-2, -1) |
| Fluid.RAlphaBounds | Diploma/problem/MagneticFluid.cpp:180-207 | the sweep's alphas for the r system stay in [0, 1) |
| Fluid.RSystemPivots | Diploma/problem/MagneticFluid.cpp:180-209 | no pivot of the r system is zero, whatever its constant terms, so its solve is well-defined |
| Fluid.ZConstTerms | Diploma/problem/MagneticFluid.cpp:230-246 | one constant term per point |
| Fluid.ZSystem | Diploma/problem/MagneticFluid.cpp:220-246 | the z system is well-formed with one row per radius |
| Fluid.ZInteriorBalanced | Diploma/problem/MagneticFluid.cpp:240-242 | every interior row balances: main = -(lower + upper) |
| Fluid.ZInteriorOffDiagonals | Diploma/problem/MagneticFluid.cpp:240-242 | for positive radii the off-diagonal entries of an interior row are at least 1 |
| Fluid.ZSystemDominant | Diploma/problem/MagneticFluid.cpp:220-246 | for positive radii the z system passes RightSweep::isValid |
| Fluid.ZAlphaOne | Diploma/problem/MagneticFluid.cpp:220-246 | the sweep's alpha is 1 up to row n-3 and each interior pivot is -upper |
| Fluid.BalancedRowAlpha | Diploma/problem/MagneticFluid.cpp:240-242 | a balanced row reached with alpha 1 has pivot -upper and alpha 1 again |
| Fluid.ZSystemPivots | Diploma/problem/MagneticFluid.cpp:220-248 | for positive radii no pivot of the z system is zero |
| Fluid.RSystemEntries | Diploma/problem/MagneticFluid.cpp:180-207 | vectors holding the r entries position by position are the r system |
| Fluid.RConstTermsEntries | Diploma/problem/MagneticFluid.cpp:190-207 | a vector holding the r constant terms position by position is RConstTerms |
| Fluid.ZSystemEntries | Diploma/problem/MagneticFluid.cpp:220-246 | vectors holding the z entries are the z system |
| Fluid.ZConstTermsEntries | Diploma/problem/MagneticFluid.cpp:230-246 | a vector holding the z constant terms is ZConstTerms |
| Fluid.Zip | Diploma/problem/MagneticFluid.cpp:162-166 | the stored profile has the new r and z as components |
| Fluid.Reframed | Diploma/problem/MagneticFluid.cpp:137-144 | the forces of a pass seen from another profile: the same w, chi, step and derivatives, that profile's buffers and its own volume integral |
| Fluid.TrajectoryExtend | Diploma/problem/MagneticFluid.cpp:135-148 | a run of passes followed by one more relaxation step from its last profile is again a run |
| Fluid.TrajectorySteps | Diploma/problem/MagneticFluid.cpp:135-148 | in a run every profile has one entry per point and every profile after the first is one relaxation step from the one before |
| Fluid.InitialProfile | Diploma/problem/MagneticFluid.cpp:115-121 | point i is (2/pi sin(pi/2 i h), 2/pi cos(pi/2 i h)) |
| Fluid.MagneticFluid.Context | Diploma/problem/MagneticFluid.cpp:314-337 | what calcMagneticF reads: the buffers, derivatives, w, chi and step |
| Fluid.MagneticFluid.constructor | Diploma/problem/MagneticFluid.cpp:8-20 | splitsNum+1 points at step 1/splitsNum, fresh buffers, zero profile and derivatives, initial relaxation parameter, counter 0 |
| Fluid.MagneticFluid.SetRelaxationParam | Diploma/problem/MagneticFluid.cpp:27-30 | only the relaxation parameter changes |
| Fluid.MagneticFluid.SetW | Diploma/problem/MagneticFluid.cpp:39-42 | only w changes |
| Fluid.MagneticFluid.SetChi | Diploma/problem/MagneticFluid.cpp:51-54 | only chi changes |
| Fluid.MagneticFluid.SetLastValidResult | Diploma/problem/MagneticFluid.cpp:75-78 | only the last valid profile changes |
| Fluid.MagneticFluid.SetDerivatives | Diploma/problem/MagneticFluid.cpp:87-90 | only the derivatives change |
| Fluid.MagneticFluid.ResetIterationsCounter | Diploma/problem/MagneticFluid.cpp:105-108 | only the counter changes, to 0 |
| Fluid.MagneticFluid.HeightCoef | Diploma/problem/MagneticFluid.cpp:99-102 | the height on the axis over the contact radius, when that radius is nonzero |
| Fluid.MagneticFluid.CalcInitialApproximation | Diploma/problem/MagneticFluid.cpp:115-121 | the last valid profile becomes the quarter-circle profile; nothing else changes |
| Fluid.MagneticFluid.CalcIntegralTrapeze | Diploma/problem/MagneticFluid.cpp:256-267 | the loop computes 2 pi times the trapeze sum |
| Fluid.MagneticFluid.CalcIntegralTrapezeVec | Diploma/problem/MagneticFluid.cpp:270-281 | the Vector2 overload computes the same integral as the split one |
| Fluid.MagneticFluid.VolumeNondimMul | Diploma/problem/MagneticFluid.cpp:93-96 | one over the cube root of the profile's volume integral, when that root is nonzero |
| Fluid.MagneticFluid.CalcMagneticIntegralTrapeze | Diploma/problem/MagneticFluid.cpp:284-297 | the loop computes half the magnetic sum |
| Fluid.MagneticFluid.CalcQ | Diploma/problem/MagneticFluid.cpp:304-311 | the pressure constant from the last radius and the magnetic integral |
| Fluid.MagneticFluid.IsApproximationValid | Diploma/problem/MagneticFluid.cpp:344-355 | false exactly when some entry is not finite or below -0.00001 |
| Fluid.MagneticFluid.SetRBoundaryRows | Diploma/problem/MagneticFluid.cpp:180-195 | rows 0, 1 and n-1 of the r system as written before the loop |
| Fluid.MagneticFluid.SetRInteriorRow | Diploma/problem/MagneticFluid.cpp:200-206 | one second-difference row of the r system, nothing else changed |
| Fluid.MagneticFluid.AssembleR | Diploma/problem/MagneticFluid.cpp:180-207 | the sweep holds exactly the r system for the given z values |
| Fluid.MagneticFluid.SetZBoundaryRows | Diploma/problem/MagneticFluid.cpp:220-235 | rows 0, n-2 and n-1 of the z system as written before the loop |
| Fluid.MagneticFluid.SetZInteriorRow | Diploma/problem/MagneticFluid.cpp:240-245 | one interior row of the z system, nothing else changed |
| Fluid.MagneticFluid.AssembleZ | Diploma/problem/MagneticFluid.cpp:220-246 | the sweep holds exactly the z system for the given radii |
| Fluid.MagneticFluid.CalcNextApproximationR | Diploma/problem/MagneticFluid.cpp:173-210 | the r system is always solved, and the new radii satisfy every row |
| Fluid.MagneticFluid.CalcNextApproximationZ | Diploma/problem/MagneticFluid.cpp:213-249 | the z system is solved (for positive radii always) and the new heights satisfy every row; only a pedantic sweep on a non-dominant system stops |
| Fluid.MagneticFluid.AdvanceR | Diploma/problem/MagneticFluid.cpp:140-141 | the new radii are the r solution relaxed towards the current ones |
| Fluid.MagneticFluid.AdvanceZ | Diploma/problem/MagneticFluid.cpp:143-144 | the new heights are the z solution on the new radii, relaxed |
| Fluid.MagneticFluid.RelaxationStep | Diploma/problem/MagneticFluid.cpp:137-144 | the buffers are swapped and one relaxation step is taken from the previous profile |
| Fluid.MagneticFluid.Advance | Diploma/problem/MagneticFluid.cpp:140-144 | the r half and then the z half of a pass make the next buffers one relaxation step from the current ones, unless a pedantic sweep stops |
| Fluid.MagneticFluid.SeedFromLastValid | Diploma/problem/MagneticFluid.cpp:129-133 | the next buffers hold the components of the last valid profile |
| Fluid.MagneticFluid.StoreLastValid | Diploma/problem/MagneticFluid.cpp:162-166 | the last valid profile becomes the new r and z, nothing else changes |
| Fluid.MagneticFluid.ShouldContinue | Diploma/problem/MagneticFluid.cpp:147-148 | the loop continues exactly when some radius moved by more than the tolerance and the counter is below the limit |
| Fluid.MagneticFluid.StepTrajectory | Diploma/problem/MagneticFluid.cpp:135-146 | one pass swaps the buffers and extends the run ending at the next buffers by the profile it computes |
| Fluid.MagneticFluid.ExtendAtBuffers | Diploma/problem/MagneticFluid.cpp:137-144 | a run ending at the current buffers extends by the step the buffers record |
| Fluid.MagneticFluid.RanStepped | Diploma/problem/MagneticFluid.cpp:135-148 | after a run of two or more profiles ending at the buffers, the next buffers are one relaxation step from the current ones |
| Fluid.MagneticFluid.ContinueRelaxation | Diploma/problem/MagneticFluid.cpp:135-148 | the run of profiles from the given start grows by one relaxation step per pass, so the start plus counter steps ends at the next buffers with the one before in the current buffers; stopping below the limit means converged |
| Fluid.MagneticFluid.IterateRelaxation | Diploma/problem/MagneticFluid.cpp:129-148 | counter >= 1 passes, recorded as a run of counter + 1 profiles that starts at the last valid profile, every profile one relaxation step from the one before, the last in the next buffers and the one before in the current buffers; stopping below the limit means converged |
| Fluid.MagneticFluid.AcceptIfValid | Diploma/problem/MagneticFluid.cpp:156-169 | success exactly when both new buffers are valid, and then the profile is stored; otherwise nothing changes |
| Fluid.MagneticFluid.CalcRelaxation | Diploma/problem/MagneticFluid.cpp:124-170 | the counter grows by the number of passes, which form a run of relaxation steps from the last valid profile to the next buffers; the code is the limit code when the counter reached the limit, invalid when a buffer is invalid, success otherwise; only success replaces the profile; parameters, derivatives and relaxation parameter are kept |
| ProgramOpts.CompareShortOpt | Diploma/util/util.cpp:3-10 | a match exactly when the first character is the option's and is neither NUL nor '=', and then the result refers to the next character |
| ProgramOpts.KeyEnd | Diploma/util/util.cpp:21 | the option name ends at the first '=' or at the end |
| ProgramOpts.LongOptMatch | Diploma/util/util.cpp:13-42 | the result of comparing a long option always points into the argument or is null |
| ProgramOpts.CompareLongOpt | Diploma/util/util.cpp:13-42 | the walk of argument and name together returns null for null, otherwise the specified match |
| ProgramOpts.KeyExtends | Diploma/util/util.cpp:21-26 | a key differing from the name in its first characters is not the name |
| ProgramOpts.KeyEndAfter | Diploma/util/util.cpp:21 | the key ends no earlier than any '='-free prefix |
| ProgramOpts.KeyEndOfName | Diploma/util/util.cpp:21 | after an '='-free name the key ends at the next '=' or the end |
| ProgramOpts.LongOptValue | Diploma/util/util.cpp:32-37 | `--name=value` yields a reference to exactly value |
| ProgramOpts.LongOptBare | Diploma/util/util.cpp:32-38 | a bare `--name` yields a reference to the terminator, an empty value |
| ProgramOpts.LongOptWholeName | Diploma/util/util.cpp:13-42 | a name never matches a proper prefix or a proper extension of itself |
| ProgramOpts.ShortLive | Diploma/util/util.cpp:47 | the short scan stops at the first terminator entry |
| ProgramOpts.LongLive | Diploma/util/util.cpp:67 | the long scan stops at the first null entry |
| ProgramOpts.LongLookup | Diploma/util/util.cpp:65-82 | the long lookup points into the argument |
| ProgramOpts.ShortLookupFirst | Diploma/util/util.cpp:45-62 | the short lookup returns the first live entry that matches with its id, or null and -1 |
| ProgramOpts.LongLookupFirst | Diploma/util/util.cpp:65-82 | the long lookup returns the first live entry whose name matches with its id, or null and -1 |
| ProgramOpts.GetShortOpt | Diploma/util/util.cpp:45-62 | the loop computes the short lookup |
| ProgramOpts.GetLongOpt | Diploma/util/util.cpp:65-82 | the loop computes the long lookup |
| ProgramOpts.GetOpt | Diploma/util/util.cpp:85-105 | no leading '-' gives null and -1; "--" with a long table is the long lookup; otherwise the short table if there is one; null always comes with -1 |
| OptsHandler.Field | Diploma/ProgramOptsHandler.cpp:216-351 | the parameter option k assigns, with the kind of value that option reads |
| OptsHandler.Assign | Diploma/ProgramOptsHandler.cpp:216-351 | one case of handleOpt: field k takes the value, every other field is unchanged, and no flag is cleared |
| OptsHandler.AssignInt | Diploma/ProgramOptsHandler.cpp:220-278 | an atoi option sets its own integer field only |
| OptsHandler.AssignReal | Diploma/ProgramOptsHandler.cpp:228-310 | an atof option sets its own real field only |
| OptsHandler.AssignFlag | Diploma/ProgramOptsHandler.cpp:328-346 | a switch sets its own flag only |
| OptsHandler.AssignText | Diploma/ProgramOptsHandler.cpp:312-326 | a label option sets its own label only |
| OptsHandler.FieldsDetermine | Diploma/ProgramOptsHandler.cpp:216-351 | parameter sets agreeing on all 32 option fields are equal, so each option has its own field |
| OptsHandler.Escape | Diploma/ProgramOptsHandler.cpp:358-381 | the escaped form of a value is at least as long |
| OptsHandler.UnquoteEscaped | Diploma/ProgramOptsHandler.cpp:367-378 | reading an escaped value back stops exactly at its closing quote and returns the value |
| OptsHandler.EscapeHead | Diploma/ProgramOptsHandler.cpp:371-374 | an escaped value never starts with a bare quote |
| OptsHandler.ReadStringValue | Diploma/ProgramOptsHandler.cpp:358-381 | the loop computes the unquoting: an error without an opening quote, else the characters up to the first unescaped quote |
| OptsHandler.HandleOneField | Diploma/ProgramOptsHandler.cpp:216-351 | handling fails exactly for a label not opened by a quote; an unknown id changes nothing; otherwise only the option's field changes |
| OptsHandler.LongOptsTable | Diploma/ProgramOptsHandler.cpp:42-76 | LONG_OPTS is a well-formed table ending in its null entry |
| OptsHandler.Fixups | Diploma/ProgramOptsHandler.cpp:204-212 | a zero W target forces one W result, equal chi bounds force one chi result, nothing else changes |
| OptsHandler.ParseKeepsFlags | Diploma/ProgramOptsHandler.cpp:185-202 | no argument ever turns a flag off |
| OptsHandler.ProblemParameters | Diploma/ProgramOptsHandler.cpp:135-166 | chi starts at chiInitial, resultsNum is the W count, the grid parameters come from the field options, and the relaxation settings are copied |
| OptsHandler.ProgramOptsHandler.constructor | Diploma/ProgramOptsHandler.cpp:82-116 | the defaults ProgramOptsHandler() sets (relaxation 1.0 down to 0.1, the infinity column at four times the surface) with every flag off |
| OptsHandler.ProgramOptsHandler.FromParams | Diploma/ProgramOptsHandler.cpp:119-122 | the handler holds the given parameters |
| OptsHandler.ProgramOptsHandler.HandleOpt | Diploma/ProgramOptsHandler.cpp:216-351 | the parameters become the handled ones, or stay and the error is reported |
| OptsHandler.ProgramOptsHandler.ParseOpts | Diploma/ProgramOptsHandler.cpp:185-213 | the arguments are handled in order and fixed up; afterwards the result counts obey the fix-ups |
| FilesUtil.PostfixJoined | Diploma/util/files_util.h:94-118 | the recursive postfix is every parameter in order, each preceded by the delimiter |
| FilesUtil.JoinedCons | Diploma/util/files_util.h:114-118 | the postfix of p followed by the rest is the delimiter, p, then the rest's postfix |
| FilesUtil.GenerateFileName | Diploma/util/files_util.h:121-128 | a name is prefix, joined parameters, dot, extension |
| FilesUtil.DefaultFileName | Diploma/util/files_util.h:131-135 | the default delimiter is "-" |
| FilesUtil.DefaultFileNameOfTwo | Diploma/util/files_util.h:206-212 | a two-parameter name such as fluid-chi-w.dat |
| FilesUtil.WriteFluidData | Diploma/util/files_util.h:185-203 | four header lines, then one line per surface point in order |
| FilesUtil.FieldRowLines | Diploma/util/files_util.h:232-235 | row i of the field file holds its points with their potentials in column order |
| FilesUtil.FieldRowsRowMajor | Diploma/util/files_util.h:230-236 | the field file is row-major: rows x columns lines, line i*columns + j is cell (i, j) |
| FilesUtil.FieldRowsLength | Diploma/util/files_util.h:230-236 | n rows hold n x columns lines |
| FilesUtil.WriteFieldData | Diploma/util/files_util.h:215-240 | the header, then every point with its potential, row by row |
| FilesUtil.BackSweep | Diploma/util/files_util.h:283-286 | the backwards row from a column down to the first one of the strip |
| FilesUtil.StripRowLength | Diploma/util/files_util.h:269-289 | the lines m cells of a row contribute: m in the last row; in any other row 4m, plus the back sweep minus three once the row is complete |
| FilesUtil.StripFullRowsLength | Diploma/util/files_util.h:269-289 | every row above the last one holds 5w + 2 lines for a strip of w + 1 columns |
| FilesUtil.StripRowsLength | Diploma/util/files_util.h:269-289 | the whole strip holds rows (w + 1) + (rows - 1)(4w + 1) lines |
| FilesUtil.WriteCell | Diploma/util/files_util.h:273-287 | the lines written for one cell of a strip |
| FilesUtil.WriteStripRow | Diploma/util/files_util.h:271-288 | the cells of one row in column order |
| FilesUtil.WriteStrip | Diploma/util/files_util.h:269-289 | the header followed by all rows of the strip |
| FilesUtil.WriteInternalGridData | Diploma/util/files_util.h:254-293 | the strip from the axis to the surface column |
| FilesUtil.WriteExternalGridData | Diploma/util/files_util.h:306-345 | the strip from the surface column to the last column |
| Coordinator.RunFluid | Diploma/problem/Solution.cpp:147 | a fluid relaxation keeps w, chi, the relaxation parameter, the derivatives and the size |
| Coordinator.RunField | Diploma/problem/Solution.cpp:152 | a field relaxation keeps chi, the relaxation parameter and the grid |
| Coordinator.DerivativesSpanSurface | Diploma/problem/Solution.cpp:216-230 | the first derivative is taken at parameter 0 and the last at parameter 1 |
| Coordinator.GetFluidParams | Diploma/problem/Solution.cpp:6-20 | the fluid starts at w = 0 and takes chi, accuracy, step limit, both relaxation parameters, splitting and sweep mode from the problem options |
| Coordinator.GetFieldParams | Diploma/problem/Solution.cpp:23-34 | the field shares the fluid's chi and takes the field accuracy, grid parameters, field step limit and field relaxation minimum |
| Coordinator.NewFluid | Diploma/problem/MagneticFluid.cpp:8-20 | splitsNum + 1 points, the given w and chi, the initial relaxation parameter, and a zero profile and zero derivatives of that length |
| Coordinator.IsTargetReached | Diploma/problem/Solution.cpp:191 | W counts as the target exactly when it is at least the target minus the 0.00001 tolerance |
| Coordinator.WSchedule | Diploma/problem/Solution.cpp:48-57 | with several results the W schedule stays below a positive target until the last step, and reaches it exactly from step resultsNum - 1 on (or within 0.00001) |
| Coordinator.Solution.constructor | Diploma/problem/Solution.cpp:41-58 | one result goes straight to the target; otherwise W starts at 0 with step target / (resultsNum - 1) |
| Coordinator.Solution.SetChi | Diploma/problem/Solution.cpp:65-70 | chi changes in the parameters and both solvers, and consistency with the snapshots is kept |
| Coordinator.Solution.UpdateLastValidResults | Diploma/problem/Solution.cpp:237-242 | the snapshots are taken from the solvers, so they are consistent |
| Coordinator.Solution.CalcDerivatives | Diploma/problem/Solution.cpp:216-230 | one inner field derivative per surface point, at parameter i/(n-1), spanning 0 to 1 |
| Coordinator.Solution.CalcInitials | Diploma/problem/Solution.cpp:120-134 | parameters back to 1, the fluid at the current W with its initial profile, the field relaxed on that profile's grid, derivatives from it, snapshots refreshed |
| Coordinator.Solution.IsAccuracyReached | Diploma/problem/Solution.cpp:249-253 | reached exactly when the new profile is within the accuracy of its snapshot and the new potential within the field accuracy of its snapshot |
| Coordinator.Solution.Rollback | Diploma/problem/Solution.cpp:170-172 | profile, potential and grid go back to the snapshots |
| Coordinator.Solution.Pass | Diploma/problem/Solution.cpp:147-184 | a fluid failure rolls back and halves the fluid's parameter; a field failure rolls back and halves the field's; double success stores both results, refreshes the snapshots and derivatives, and reports whether both moved within their accuracy |
| Coordinator.Solution.CalcResult | Diploma/problem/Solution.cpp:137-202 | no pass iff a parameter is already below its minimum; success moves W to w, TargetReached iff w is within tolerance of the target; otherwise W stays and the fluid returns to it; an early stop without success means a parameter fell below its minimum |
| Coordinator.Solution.CalcNextResult | Diploma/problem/Solution.cpp:205-209 | calcResult at the current W plus one step |

## Left out

- Floating point: doubles are reals, so rounding, overflow, NaN and infinity are
  not modelled. The C library functions and division by zero are
  uninterpreted, so properties that need their values hold only where they are
  stated conditionally.
- printf output (the diagnostic dumps of the field solver, the unknown-parameter
  message of parseOpts, the invalid-matrix message of the sweep), file and
  directory creation, and the plotting front-ends.
- Getters that only return a field (pointsNum, parameters, currentW,
  lastValidResult, the grid accessors and so on): the model reads the field.
- MagneticField::generateGrid (MagneticField.cpp:150-213) and the destructor:
  the grid is a constructor argument of the field model. generateGrid differs
  from `Grids.SimpleTriangleGrid.Generate`, which the model does cover: it
  places the far column and the far ends of the boundary rows at a hard-coded
  4.0 times the surface point (lines 167, 181-182) rather than at
  `infMultiplier`; it takes surface points from util.h's `calcParametricPoint`;
  and it copies the z of the far column into `lastValidValues` (lines 209-212),
  a write the field model never performs (its last valid values are whatever
  the constructor is given).
- The unsigned iteration counters of the solvers may wrap around in C; the
  model counts with unbounded integers.
- Coordinator.Solution: the fluid and field solvers, the grid of a profile, the
  inner derivative and the two norms of isAccuracyReached are abstract
  components of the coordinator, because Solution.cpp calls a field interface
  that MagneticField.cpp does not have; their behaviour is modelled in the
  Fluid and Field modules instead.
- Coordinator.Solution.CalcResult: the source loop runs until success or until
  a relaxation parameter drops below its minimum, which need not happen; the
  model bounds it by `fuel` passes.
- Coordinator.Solution.constructor: requires at least one split, and the
  snapshots' contents are unspecified until calcInitials takes them.
- Solution::resetIterationsCounters (Solution.cpp:109-113) and the
  iteration counters are not part of the coordinator model.
- Field.MagneticField.CalcResult: requires a positive minimum relaxation
  parameter; with a non-positive minimum the source loop does not terminate
  while relaxations keep failing.
- Field.MagneticField.CalcRelaxation: requires the grid to have a column on
  each side of the surface column (the stencils calcDerivatives reads).
- Fluid.MagneticFluid.CalcRelaxation: a pedantic right sweep that stops the
  program on a non-dominant z system is an explicit `SweepTerminated`
  outcome rather than a process exit.
- MathExt.Relaxation: requires the two arrays to be distinct objects; the
  source accepts one buffer passed twice, which leaves every cell unchanged.
  Every caller passes separate buffers (MagneticField.cpp:471,
  MagneticFluid.cpp:141 and 144).
- MathExt.RelaxationMatrix: requires the two matrices to be distinct objects,
  for the same reason as MathExt.Relaxation.
- Util.Relaxation2: requires the two matrices to be distinct objects, for the
  same reason as MathExt.Relaxation.
- Bezier.BezierCurve.CalculateCoefficients: the coefficients are `long long`
  in the source (BezierCurve.h:19) and the product at BezierCurve.cpp:53
  overflows from 63 control points on; the model computes with unbounded
  integers, so its C(n-1, i) holds only below that size. The program builds
  3-point curves (plots/PlotFieldIsolines.cpp:7-8).
- BezierCurve::evaluate at parameter 1 divides by zero; the Bernstein-form
  property is stated for parameters other than 1.
- Array.tpp (the Array and Matrix norm used by isAccuracyReached) is not part of
  this model.
- math_ext.h's parametric_point refers to an undeclared `linePoints`; the model
  reads it as its `points` argument.
