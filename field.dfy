/** MagneticField.cpp, the older variant of the potential solver: a
    Gauss-Seidel relaxation over a triangulated (lines x columns) grid of the
    meridian plane, whose stencil at cell (i, j) is the fan of six triangles
    listed by TABLE_OFFSETS, with fixed values on row 0 and on the last column,
    and a halving back-off of the relaxation parameter. */
module Field {
  import opened Numerics
  import opened ResultCodes
  import Util

  /** A (line, column) index pair of the grid. */
  datatype Indices2 = Indices2(i: int, j: int)

  /** TABLE_OFFSETS: the six neighbours of a cell in counter-clockwise order,
      starting from the upper-right one, with the first two repeated at the end
      so that consecutive pairs k, k + 1 (k < 7) name the triangles of the fan. */
  function TableOffset(k: int): Indices2
    requires 0 <= k < 8
  {
    if k == 0 || k == 6 then Indices2(-1, 1)
    else if k == 1 || k == 7 then Indices2(0, 1)
    else if k == 2 then Indices2(1, 0)
    else if k == 3 then Indices2(1, -1)
    else if k == 4 then Indices2(0, -1)
    else Indices2(-1, 0)
  }

  /** The cell at offset k from (i, j). */
  function Neighbour(i: int, j: int, k: int): Indices2
    requires 0 <= k < 8
  {
    Indices2(i + TableOffset(k).i, j + TableOffset(k).j)
  }

  /** The table closes its fan: entries 6 and 7 repeat entries 0 and 1, and the
      offsets 1..6 are six distinct unit steps, none of them the cell itself. */
  lemma TableWrapsAround()
    ensures TableOffset(6) == TableOffset(0) && TableOffset(7) == TableOffset(1)
    ensures forall k, l :: 1 <= k < l <= 6 ==> TableOffset(k) != TableOffset(l)
    ensures forall k :: 0 <= k < 8 ==>
      TableOffset(k) != Indices2(0, 0) && -1 <= TableOffset(k).i <= 1 && -1 <= TableOffset(k).j <= 1
  {
  }

  /** calcNextApproximation visits the rows upwards from 1 and, within a row,
      the columns downwards: cell `a` is visited before cell `b`. */
  predicate VisitedBefore(a: Indices2, b: Indices2)
  {
    a.i < b.i || (a.i == b.i && a.j > b.j)
  }

  /** The Gauss-Seidel reading of calcNextValue: the neighbours it takes from
      nextApprox (offsets 1, 5 and 6) are exactly those the sweep has already
      visited, and the ones it takes from curApprox (offsets 2, 3 and 4) are
      exactly those still to come. */
  lemma SweepOrderOfNeighbours(i: int, j: int)
    ensures forall k :: k in {1, 5, 6} ==> VisitedBefore(Neighbour(i, j, k), Indices2(i, j))
    ensures forall k :: k in {2, 3, 4} ==> VisitedBefore(Indices2(i, j), Neighbour(i, j, k))
  {
  }

  // ---------------------------------------------------------------------------
  // Matrices as values
  // ---------------------------------------------------------------------------

  /** A lines x columns matrix as a sequence of rows. */
  predicate Shaped<T>(m: seq<seq<T>>, lines: int, cols: int)
  {
    |m| == lines && forall i :: 0 <= i < lines ==> |m[i]| == cols
  }

  /** The matrix value `m` is the content of the array `a`. */
  ghost predicate Linked<T>(a: array2<T>, m: seq<seq<T>>)
    reads a
  {
    Shaped(m, a.Length0, a.Length1) &&
    forall i, j :: 0 <= i < a.Length0 && 0 <= j < a.Length1 ==> m[i][j] == a[i, j]
  }

  /** The content of an array as a matrix value. */
  ghost function Snapshot<T>(a: array2<T>): (m: seq<seq<T>>)
    reads a
    ensures Linked(a, m)
  {
    seq(a.Length0, i reads a requires 0 <= i < a.Length0 =>
      seq(a.Length1, j reads a requires 0 <= j < a.Length1 => a[i, j]))
  }

  /** What the stencil of the field equation depends on besides the
      approximations: the library, chi and the grid points. */
  datatype FieldContext = FieldContext(lib: Libm, chi: real, lines: int, cols: int, grid: seq<seq<Vec2>>)
  {
    predicate WellFormed()
    {
      lines >= 1 && cols >= 1 && Shaped(grid, lines, cols)
    }

    /** isIndicesValid. */
    predicate InRange(p: Indices2)
    {
      0 <= p.i < lines && 0 <= p.j < cols
    }

    /** Both further vertices of triangle k (of the fan of (i, j)) exist. */
    predicate WedgeExists(i: int, j: int, k: int)
      requires 0 <= k < 7
    {
      InRange(Neighbour(i, j, k)) && InRange(Neighbour(i, j, k + 1))
    }

    function Point(p: Indices2): Vec2
      requires WellFormed() && InRange(p)
    {
      grid[p.i][p.j]
    }
  }

  // ---------------------------------------------------------------------------
  // The coefficients of calcCoefficient
  // ---------------------------------------------------------------------------

  /** calcCoefficientIntegral: the integral of r (1 + chi) over a triangle of
      the given double area, by the vertex rule. */
  function CoefficientIntegral(chi: real, v1: Vec2, v2: Vec2, v3: Vec2, doubleTriangleArea: real): real
  {
    doubleTriangleArea * (1.0 + chi) * (v1.r + v2.r + v3.r) / 6.0
  }

  /** The contribution of triangle (v1, v2, v3) to the diagonal coefficient:
      |v3 - v2|^2 times the integral over the squared double area. */
  function DiagonalTerm(lib: Libm, chi: real, v1: Vec2, v2: Vec2, v3: Vec2): real
  {
    var area := Util.CalcDoubleTriangleArea(v1, v2, v3);
    var integralVal := CoefficientIntegral(chi, v1, v2, v3, area);
    var difZ := v3.z - v2.z;
    var difR := v3.r - v2.r;
    Div(lib, (difZ * difZ + difR * difR) * integralVal, area * area)
  }

  /** The contribution to the coefficient of v3 from the triangle in which v3
      is the later vertex (v1 the centre, v2 the earlier neighbour). */
  function LeadingTerm(lib: Libm, chi: real, v1: Vec2, v2: Vec2, v3: Vec2): real
  {
    var area := Util.CalcDoubleTriangleArea(v1, v2, v3);
    var integralVal := CoefficientIntegral(chi, v1, v2, v3, area);
    Div(lib, ((v3.z - v2.z) * (v2.z - v1.z) + (v3.r - v2.r) * (v2.r - v1.r)) * integralVal, area * area)
  }

  /** The contribution to the coefficient of v2 from the triangle in which v2
      is the earlier vertex. */
  function TrailingTerm(lib: Libm, chi: real, v1: Vec2, v2: Vec2, v3: Vec2): real
  {
    var area := Util.CalcDoubleTriangleArea(v1, v2, v3);
    var integralVal := CoefficientIntegral(chi, v1, v2, v3, area);
    Div(lib, ((v3.z - v2.z) * (v1.z - v3.z) + (v3.r - v2.r) * (v1.r - v3.r)) * integralVal, area * area)
  }

  /** The diagonal coefficient accumulated over the triangles 1..m-1 of the
      fan that lie inside the grid. */
  function DiagonalSum(c: FieldContext, i: int, j: int, m: int): real
    requires c.WellFormed() && c.InRange(Indices2(i, j)) && 1 <= m <= 7
  {
    if m == 1 then 0.0
    else
      var prev := DiagonalSum(c, i, j, m - 1);
      var k := m - 1;
      if c.WedgeExists(i, j, k) then
        prev + DiagonalTerm(c.lib, c.chi, c.Point(Indices2(i, j)), c.Point(Neighbour(i, j, k)), c.Point(Neighbour(i, j, k + 1)))
      else prev
  }

  /** calcCoefficient(i, j, coefIndex): the diagonal coefficient for index 0;
      for a neighbour 1..6, the triangle before it and the triangle after it,
      each counted only when it lies inside the grid. */
  function Coefficient(c: FieldContext, i: int, j: int, coefIndex: int): real
    requires c.WellFormed() && c.InRange(Indices2(i, j)) && 0 <= coefIndex <= 6
  {
    if coefIndex == 0 then DiagonalSum(c, i, j, 7)
    else
      var v1 := c.Point(Indices2(i, j));
      var k := coefIndex;
      var first :=
        if c.WedgeExists(i, j, k - 1) then
          0.0 + LeadingTerm(c.lib, c.chi, v1, c.Point(Neighbour(i, j, k - 1)), c.Point(Neighbour(i, j, k)))
        else 0.0;
      if c.WedgeExists(i, j, k) then
        first + TrailingTerm(c.lib, c.chi, v1, c.Point(Neighbour(i, j, k)), c.Point(Neighbour(i, j, k + 1)))
      else first
  }

  /** Both triangles of a neighbour's coefficient contain that neighbour, so a
      neighbour outside the grid has coefficient zero: calcNextValue, which
      skips such neighbours, loses nothing by doing so. */
  lemma MissingNeighbourCoefficient(c: FieldContext, i: int, j: int, k: int)
    requires c.WellFormed() && c.InRange(Indices2(i, j)) && 1 <= k <= 6
    requires !c.InRange(Neighbour(i, j, k))
    ensures Coefficient(c, i, j, k) == 0.0
  {
  }

  // ---------------------------------------------------------------------------
  // calcNextValue
  // ---------------------------------------------------------------------------

  /** The seven coefficients calcNextValue uses at (i, j): index 0 the
      diagonal one, 1..6 those of the neighbours. */
  function Weights(c: FieldContext, i: int, j: int): (w: seq<real>)
    requires c.WellFormed() && c.InRange(Indices2(i, j))
    ensures |w| == 7 && forall k :: 0 <= k < 7 ==> w[k] == Coefficient(c, i, j, k)
  {
    seq(7, k requires 0 <= k < 7 => Coefficient(c, i, j, k))
  }

  /** `acc` plus weight k times the value of neighbour k in `m`, when that
      neighbour lies inside the grid. */
  function Accumulate(c: FieldContext, w: seq<real>, m: seq<seq<real>>, i: int, j: int, acc: real, k: int): real
    requires |w| == 7 && Shaped(m, c.lines, c.cols) && 1 <= k <= 6
  {
    var p := Neighbour(i, j, k);
    if c.InRange(p) then acc + w[k] * m[p.i][p.j] else acc
  }

  /** `acc` extended by the neighbours lo..hi-1, in this order. */
  function Extend(c: FieldContext, w: seq<real>, m: seq<seq<real>>, i: int, j: int, acc: real, lo: int, hi: int): real
    requires |w| == 7 && Shaped(m, c.lines, c.cols) && 1 <= lo <= hi <= 7
    decreases hi - lo
  {
    if hi == lo then acc else Accumulate(c, w, m, i, j, Extend(c, w, m, i, j, acc, lo, hi - 1), hi - 1)
  }

  /** The weighted sum of calcNextValue: neighbours 2, 3 and 4 from `cur`,
      then neighbours 5, 6 and 1 from `next`, in this order. */
  function NeighbourSum(c: FieldContext, w: seq<real>, cur: seq<seq<real>>, next: seq<seq<real>>, i: int, j: int): real
    requires |w| == 7 && Shaped(cur, c.lines, c.cols) && Shaped(next, c.lines, c.cols)
  {
    Accumulate(c, w, next, i, j, Extend(c, w, next, i, j, Extend(c, w, cur, i, j, 0.0, 2, 5), 5, 7), 1)
  }

  /** The update of calcNextValue for given weights: minus the weighted sum
      of the neighbours over the diagonal weight. */
  function Combine(c: FieldContext, w: seq<real>, cur: seq<seq<real>>, next: seq<seq<real>>, i: int, j: int): real
    requires |w| == 7 && Shaped(cur, c.lines, c.cols) && Shaped(next, c.lines, c.cols)
  {
    Div(c.lib, -NeighbourSum(c, w, cur, next, i, j), w[0])
  }

  /** calcNextValue(i, j). */
  function NextValue(c: FieldContext, cur: seq<seq<real>>, next: seq<seq<real>>, i: int, j: int): real
    requires c.WellFormed() && Shaped(cur, c.lines, c.cols) && Shaped(next, c.lines, c.cols)
    requires c.InRange(Indices2(i, j))
  {
    Combine(c, Weights(c, i, j), cur, next, i, j)
  }

  /** Two matrices agree at the cells calcNextValue(i, j) reads from
      nextApprox: neighbours 1 (i, j + 1), 5 (i - 1, j) and 6 (i - 1, j + 1). */
  predicate ReadsAgree(c: FieldContext, next1: seq<seq<real>>, next2: seq<seq<real>>, i: int, j: int)
    requires Shaped(next1, c.lines, c.cols) && Shaped(next2, c.lines, c.cols)
  {
    (c.InRange(Indices2(i, j + 1)) ==> next1[i][j + 1] == next2[i][j + 1]) &&
    (c.InRange(Indices2(i - 1, j)) ==> next1[i - 1][j] == next2[i - 1][j]) &&
    (c.InRange(Indices2(i - 1, j + 1)) ==> next1[i - 1][j + 1] == next2[i - 1][j + 1])
  }

  /** One step of the sum is unchanged when the neighbour's value is. */
  lemma AccumulateFrame(c: FieldContext, w: seq<real>, m1: seq<seq<real>>, m2: seq<seq<real>>, i: int, j: int, acc: real, k: int)
    requires |w| == 7 && Shaped(m1, c.lines, c.cols) && Shaped(m2, c.lines, c.cols) && 1 <= k <= 6
    requires c.InRange(Neighbour(i, j, k)) ==>
      m1[Neighbour(i, j, k).i][Neighbour(i, j, k).j] == m2[Neighbour(i, j, k).i][Neighbour(i, j, k).j]
    ensures Accumulate(c, w, m1, i, j, acc, k) == Accumulate(c, w, m2, i, j, acc, k)
  {
  }

  lemma ExtendTwo(c: FieldContext, w: seq<real>, m: seq<seq<real>>, i: int, j: int, acc: real, lo: int)
    requires |w| == 7 && Shaped(m, c.lines, c.cols) && 1 <= lo <= 5
    ensures Extend(c, w, m, i, j, acc, lo, lo + 2) == Accumulate(c, w, m, i, j, Accumulate(c, w, m, i, j, acc, lo), lo + 1)
  {
    assert Extend(c, w, m, i, j, acc, lo, lo + 1) == Accumulate(c, w, m, i, j, acc, lo);
  }

  /** The weighted sum reads `next` only at neighbours 1, 5 and 6. */
  lemma NeighbourSumFrame(c: FieldContext, w: seq<real>, cur: seq<seq<real>>, next1: seq<seq<real>>, next2: seq<seq<real>>, i: int, j: int)
    requires |w| == 7 && Shaped(cur, c.lines, c.cols)
    requires Shaped(next1, c.lines, c.cols) && Shaped(next2, c.lines, c.cols)
    requires ReadsAgree(c, next1, next2, i, j)
    ensures NeighbourSum(c, w, cur, next1, i, j) == NeighbourSum(c, w, cur, next2, i, j)
  {
    assert Neighbour(i, j, 1) == Indices2(i, j + 1) && Neighbour(i, j, 5) == Indices2(i - 1, j) && Neighbour(i, j, 6) == Indices2(i - 1, j + 1);
    var fromCur := Extend(c, w, cur, i, j, 0.0, 2, 5);
    AccumulateFrame(c, w, next1, next2, i, j, fromCur, 5);
    var a := Accumulate(c, w, next1, i, j, fromCur, 5);
    AccumulateFrame(c, w, next1, next2, i, j, a, 6);
    ExtendTwo(c, w, next1, i, j, fromCur, 5);
    ExtendTwo(c, w, next2, i, j, fromCur, 5);
    AccumulateFrame(c, w, next1, next2, i, j, Accumulate(c, w, next1, i, j, a, 6), 1);
  }

  /** calcNextValue reads `next` only at neighbours 1, 5 and 6. */
  lemma NextValueFrame(c: FieldContext, cur: seq<seq<real>>, next1: seq<seq<real>>, next2: seq<seq<real>>, i: int, j: int)
    requires c.WellFormed() && Shaped(cur, c.lines, c.cols)
    requires Shaped(next1, c.lines, c.cols) && Shaped(next2, c.lines, c.cols)
    requires c.InRange(Indices2(i, j))
    requires ReadsAgree(c, next1, next2, i, j)
    ensures NextValue(c, cur, next1, i, j) == NextValue(c, cur, next2, i, j)
  {
    NeighbourSumFrame(c, Weights(c, i, j), cur, next1, next2, i, j);
  }

  // ---------------------------------------------------------------------------
  // The fixed values: row 0 and the last column
  // ---------------------------------------------------------------------------

  /** The value calcRelaxation imposes on the last column at grid point g:
      g.z - (1 - b) g.z / |g|^3 with b = 3 / (3 + chi). */
  function BoundaryValue(lib: Libm, chi: real, g: Vec2): real
  {
    BoundaryValueFor(lib, Div(lib, 3.0, 3.0 + chi), g)
  }

  /** The boundary value for a precomputed b. */
  function BoundaryValueFor(lib: Libm, b: real, g: Vec2): real
  {
    g.z - Div(lib, (1.0 - b) * g.z, lib.pow(g.z * g.z + g.r * g.r, 3.0 / 2.0))
  }

  /** Row 0 and the last column, which the sweep never writes. */
  predicate OnBoundary(c: FieldContext, a: int, b: int)
  {
    a == 0 || b == c.cols - 1
  }

  /** The boundary conditions: the last column holds the boundary values of its
      grid points, and the rest of row 0 holds zero. */
  predicate Boundary(c: FieldContext, m: seq<seq<real>>)
    requires c.WellFormed()
  {
    Shaped(m, c.lines, c.cols) &&
    (forall a :: 0 <= a < c.lines ==> m[a][c.cols - 1] == BoundaryValue(c.lib, c.chi, c.grid[a][c.cols - 1])) &&
    (forall b :: 0 <= b < c.cols - 1 ==> m[0][b] == 0.0)
  }

  /** Two matrices agree on row 0 and on the last column. */
  predicate SameBoundary(c: FieldContext, m1: seq<seq<real>>, m2: seq<seq<real>>)
    requires Shaped(m1, c.lines, c.cols) && Shaped(m2, c.lines, c.cols)
  {
    forall a, b :: 0 <= a < c.lines && 0 <= b < c.cols && OnBoundary(c, a, b) ==> m1[a][b] == m2[a][b]
  }

  /** The boundary conditions fix row 0 and the last column completely. */
  lemma BoundaryDetermined(c: FieldContext, m1: seq<seq<real>>, m2: seq<seq<real>>)
    requires c.WellFormed() && Boundary(c, m1) && Boundary(c, m2)
    ensures SameBoundary(c, m1, m2)
  {
  }

  /** The starting approximation of calcRelaxation: the last valid values with
      the boundary conditions written over them. */
  function Seed(c: FieldContext, lastValid: seq<seq<real>>): (m: seq<seq<real>>)
    requires c.WellFormed() && Shaped(lastValid, c.lines, c.cols)
    ensures Boundary(c, m)
    ensures forall a, b :: 0 <= a < c.lines && 0 <= b < c.cols && !OnBoundary(c, a, b) ==> m[a][b] == lastValid[a][b]
  {
    seq(c.lines, a requires 0 <= a < c.lines =>
      seq(c.cols, b requires 0 <= b < c.cols =>
        if b == c.cols - 1 then BoundaryValue(c.lib, c.chi, c.grid[a][b])
        else if a == 0 then 0.0
        else lastValid[a][b]))
  }

  // ---------------------------------------------------------------------------
  // calcNextApproximation as a Gauss-Seidel sweep
  // ---------------------------------------------------------------------------

  /** A rule giving the new value of cell (a, b) from the matrix being swept. */
  type CellUpdate = (seq<seq<real>>, int, int) -> real

  /** The rule reads the swept matrix only at the cells that calcNextApproximation
      visits before (a, b): neighbours 1, 5 and 6. */
  ghost predicate ReadsVisited(c: FieldContext, f: CellUpdate)
  {
    forall n1, n2, a, b ::
      Shaped(n1, c.lines, c.cols) && Shaped(n2, c.lines, c.cols) && ReadsAgree(c, n1, n2, a, b) ==> f(n1, a, b) == f(n2, a, b)
  }

  /** Every written cell (rows 1.., all columns but the last) visited before
      (i, j) holds the rule evaluated on the matrix itself. */
  predicate FixedBefore(c: FieldContext, f: CellUpdate, next: seq<seq<real>>, i: int, j: int)
    requires Shaped(next, c.lines, c.cols)
  {
    forall a, b :: 1 <= a < c.lines && 0 <= b < c.cols - 1 && VisitedBefore(Indices2(a, b), Indices2(i, j)) ==>
      next[a][b] == f(next, a, b)
  }

  /** Every written cell holds the rule evaluated on the matrix itself. */
  predicate FixedPoint(c: FieldContext, f: CellUpdate, next: seq<seq<real>>)
    requires Shaped(next, c.lines, c.cols)
  {
    forall a, b :: 1 <= a < c.lines && 0 <= b < c.cols - 1 ==> next[a][b] == f(next, a, b)
  }

  /** Writing the rule's value into cell (i, j) keeps every cell visited
      earlier a fixed point, because those cells read only cells visited
      before them, and (i, j) is not among them. */
  lemma FixedStep(c: FieldContext, f: CellUpdate, next: seq<seq<real>>, i: int, j: int, v: real)
    requires ReadsVisited(c, f) && Shaped(next, c.lines, c.cols)
    requires 1 <= i < c.lines && 0 <= j < c.cols - 1
    requires FixedBefore(c, f, next, i, j) && v == f(next, i, j)
    ensures Shaped(next[i := next[i][j := v]], c.lines, c.cols)
    ensures FixedBefore(c, f, next[i := next[i][j := v]], i, j - 1)
  {
    var next' := next[i := next[i][j := v]];
    assert ReadsAgree(c, next, next', i, j);
    forall a, b | 1 <= a < c.lines && 0 <= b < c.cols - 1 && VisitedBefore(Indices2(a, b), Indices2(i, j))
      ensures next'[a][b] == f(next', a, b)
    {
      assert ReadsAgree(c, next, next', a, b);
    }
  }

  /** Two fixed points with the same boundary agree at (i, j): by induction in
      sweep order over the cells the rule reads. */
  lemma {:induction false} FixedAgreesAt(c: FieldContext, f: CellUpdate, n1: seq<seq<real>>, n2: seq<seq<real>>, i: int, j: int)
    requires ReadsVisited(c, f) && Shaped(n1, c.lines, c.cols) && Shaped(n2, c.lines, c.cols)
    requires FixedPoint(c, f, n1) && FixedPoint(c, f, n2) && SameBoundary(c, n1, n2)
    requires c.InRange(Indices2(i, j))
    ensures n1[i][j] == n2[i][j]
    decreases i, c.cols - j
  {
    if !OnBoundary(c, i, j) {
      FixedAgreesAt(c, f, n1, n2, i - 1, j);
      if j + 1 < c.cols {
        FixedAgreesAt(c, f, n1, n2, i, j + 1);
        FixedAgreesAt(c, f, n1, n2, i - 1, j + 1);
      }
      assert ReadsAgree(c, n1, n2, i, j);
    }
  }

  lemma FixedPointUnique(c: FieldContext, f: CellUpdate, n1: seq<seq<real>>, n2: seq<seq<real>>)
    requires ReadsVisited(c, f) && Shaped(n1, c.lines, c.cols) && Shaped(n2, c.lines, c.cols)
    requires FixedPoint(c, f, n1) && FixedPoint(c, f, n2) && SameBoundary(c, n1, n2)
    ensures n1 == n2
  {
    forall a | 0 <= a < c.lines
      ensures n1[a] == n2[a]
    {
      forall b | 0 <= b < c.cols
        ensures n1[a][b] == n2[a][b]
      {
        FixedAgreesAt(c, f, n1, n2, a, b);
      }
    }
  }

  /** calcNextValue as a rule of the sweep over `cur`. */
  function Update(c: FieldContext, cur: seq<seq<real>>): CellUpdate
    requires c.WellFormed() && Shaped(cur, c.lines, c.cols)
  {
    (n: seq<seq<real>>, a: int, b: int) =>
      if Shaped(n, c.lines, c.cols) && c.InRange(Indices2(a, b)) then NextValue(c, cur, n, a, b) else 0.0
  }

  lemma UpdateReadsVisited(c: FieldContext, cur: seq<seq<real>>)
    requires c.WellFormed() && Shaped(cur, c.lines, c.cols)
    ensures ReadsVisited(c, Update(c, cur))
  {
    forall n1, n2, a, b | Shaped(n1, c.lines, c.cols) && Shaped(n2, c.lines, c.cols) && ReadsAgree(c, n1, n2, a, b)
      ensures Update(c, cur)(n1, a, b) == Update(c, cur)(n2, a, b)
    {
      if c.InRange(Indices2(a, b)) {
        NextValueFrame(c, cur, n1, n2, a, b);
      }
    }
  }

  /** The result of calcNextApproximation: every cell the sweep writes holds
      calcNextValue evaluated on the matrix itself. */
  predicate GaussSeidel(c: FieldContext, cur: seq<seq<real>>, next: seq<seq<real>>)
    requires c.WellFormed() && Shaped(cur, c.lines, c.cols) && Shaped(next, c.lines, c.cols)
  {
    FixedPoint(c, Update(c, cur), next)
  }

  /** GaussSeidel spelled out cell by cell, both ways. */
  lemma GaussSeidelCells(c: FieldContext, cur: seq<seq<real>>, next: seq<seq<real>>)
    requires c.WellFormed() && Shaped(cur, c.lines, c.cols) && Shaped(next, c.lines, c.cols)
    ensures GaussSeidel(c, cur, next) <==>
      forall a, b :: 1 <= a < c.lines && 0 <= b < c.cols - 1 ==> next[a][b] == NextValue(c, cur, next, a, b)
  {
  }

  /** The state of the sweep before cell (i, j). */
  predicate SweptBefore(c: FieldContext, cur: seq<seq<real>>, next: seq<seq<real>>, i: int, j: int)
    requires c.WellFormed() && Shaped(cur, c.lines, c.cols) && Shaped(next, c.lines, c.cols)
  {
    FixedBefore(c, Update(c, cur), next, i, j)
  }

  /** Writing calcNextValue into cell (i, j) moves the sweep on by one cell. */
  lemma SweepStep(c: FieldContext, cur: seq<seq<real>>, next: seq<seq<real>>, i: int, j: int, v: real)
    requires c.WellFormed() && Shaped(cur, c.lines, c.cols) && Shaped(next, c.lines, c.cols)
    requires 1 <= i < c.lines && 0 <= j < c.cols - 1
    requires SweptBefore(c, cur, next, i, j) && v == NextValue(c, cur, next, i, j)
    ensures Shaped(next[i := next[i][j := v]], c.lines, c.cols)
    ensures SweptBefore(c, cur, next[i := next[i][j := v]], i, j - 1)
  {
    UpdateReadsVisited(c, cur);
    FixedStep(c, Update(c, cur), next, i, j, v);
  }

  /** The sweep's result is determined by `cur` and the boundary: the fixed
      point characterises calcNextApproximation completely. */
  lemma GaussSeidelUnique(c: FieldContext, cur: seq<seq<real>>, n1: seq<seq<real>>, n2: seq<seq<real>>)
    requires c.WellFormed() && Shaped(cur, c.lines, c.cols) && Shaped(n1, c.lines, c.cols) && Shaped(n2, c.lines, c.cols)
    requires GaussSeidel(c, cur, n1) && GaussSeidel(c, cur, n2) && SameBoundary(c, n1, n2)
    ensures n1 == n2
  {
    UpdateReadsVisited(c, cur);
    FixedPointUnique(c, Update(c, cur), n1, n2);
  }

  /** Before the first cell of the sweep nothing is required yet. */
  lemma SweepStart(c: FieldContext, cur: seq<seq<real>>, next: seq<seq<real>>)
    requires c.WellFormed() && Shaped(cur, c.lines, c.cols) && Shaped(next, c.lines, c.cols)
    ensures SweptBefore(c, cur, next, 1, c.cols - 2)
  {
  }

  /** A finished row i leaves the sweep ready for row i + 1. */
  lemma SweepNextRow(c: FieldContext, cur: seq<seq<real>>, next: seq<seq<real>>, i: int)
    requires c.WellFormed() && Shaped(cur, c.lines, c.cols) && Shaped(next, c.lines, c.cols)
    requires SweptBefore(c, cur, next, i, -1)
    ensures SweptBefore(c, cur, next, i + 1, c.cols - 2)
  {
  }

  /** After the last row every written cell is a fixed point. */
  lemma SweepDone(c: FieldContext, cur: seq<seq<real>>, next: seq<seq<real>>)
    requires c.WellFormed() && Shaped(cur, c.lines, c.cols) && Shaped(next, c.lines, c.cols)
    requires SweptBefore(c, cur, next, c.lines, c.cols - 2)
    ensures GaussSeidel(c, cur, next)
  {
  }

  /** The sweep writes no cell of row 0 or of the last column. */
  lemma WrittenCellIsInside(c: FieldContext, n0: seq<seq<real>>, n: seq<seq<real>>, i: int, j: int, v: real)
    requires Shaped(n0, c.lines, c.cols) && Shaped(n, c.lines, c.cols) && SameBoundary(c, n0, n)
    requires 1 <= i < c.lines && 0 <= j < c.cols - 1
    ensures Shaped(n[i := n[i][j := v]], c.lines, c.cols) && SameBoundary(c, n0, n[i := n[i][j := v]])
  {
  }

  /** Matrices that agree on row 0 and the last column meet the boundary
      conditions together. */
  lemma SameBoundaryKeepsBoundary(c: FieldContext, m1: seq<seq<real>>, m2: seq<seq<real>>)
    requires c.WellFormed() && Boundary(c, m1) && Shaped(m2, c.lines, c.cols) && SameBoundary(c, m1, m2)
    ensures Boundary(c, m2)
  {
  }

  // ---------------------------------------------------------------------------
  // relaxation, the iteration step and the stop test
  // ---------------------------------------------------------------------------

  /** util.h `relaxation` on whole matrices: cur + (next - cur) * param cell by cell. */
  function Relaxed(c: FieldContext, cur: seq<seq<real>>, next: seq<seq<real>>, param: real): (x: seq<seq<real>>)
    requires Shaped(cur, c.lines, c.cols) && Shaped(next, c.lines, c.cols) && c.lines >= 0 && c.cols >= 0
    ensures Shaped(x, c.lines, c.cols)
    ensures forall a, b :: 0 <= a < c.lines && 0 <= b < c.cols ==> x[a][b] == Util.CalcLerp(cur[a][b], next[a][b], param)
  {
    seq(c.lines, a requires 0 <= a < c.lines =>
      seq(c.cols, b requires 0 <= b < c.cols => Util.CalcLerp(cur[a][b], next[a][b], param)))
  }

  /** Relaxing between two matrices that both meet the boundary conditions
      meets them too; with parameter 1 relaxation is the plain sweep. */
  lemma RelaxationKeepsBoundary(c: FieldContext, cur: seq<seq<real>>, next: seq<seq<real>>, param: real)
    requires c.WellFormed() && Boundary(c, cur) && Boundary(c, next)
    ensures Boundary(c, Relaxed(c, cur, next, param))
    ensures param == 1.0 ==> Relaxed(c, cur, next, param) == next
  {
    var x := Relaxed(c, cur, next, param);
    if param == 1.0 {
      assert forall a | 0 <= a < c.lines :: x[a] == next[a];
    }
  }

  /** One iteration of calcRelaxation's loop: `next` is `cur` relaxed towards
      the Gauss-Seidel sweep from `cur` under the boundary conditions. */
  ghost predicate StepFrom(c: FieldContext, cur: seq<seq<real>>, next: seq<seq<real>>, param: real)
    requires c.WellFormed() && Shaped(cur, c.lines, c.cols)
  {
    exists n :: Boundary(c, n) && GaussSeidel(c, cur, n) && next == Relaxed(c, cur, n, param)
  }

  /** An iteration step is a function of the previous approximation. */
  lemma StepDeterministic(c: FieldContext, cur: seq<seq<real>>, x1: seq<seq<real>>, x2: seq<seq<real>>, param: real)
    requires c.WellFormed() && Shaped(cur, c.lines, c.cols)
    requires StepFrom(c, cur, x1, param) && StepFrom(c, cur, x2, param)
    ensures x1 == x2
  {
    var n1 :| Boundary(c, n1) && GaussSeidel(c, cur, n1) && x1 == Relaxed(c, cur, n1, param);
    var n2 :| Boundary(c, n2) && GaussSeidel(c, cur, n2) && x2 == Relaxed(c, cur, n2, param);
    BoundaryDetermined(c, n1, n2);
    GaussSeidelUnique(c, cur, n1, n2);
  }

  /** Consecutive elements of `trace` are related by `R`. */
  ghost predicate Chain<T>(trace: seq<T>, R: (T, T) -> bool)
  {
    forall k :: 0 <= k < |trace| - 1 ==> R(trace[k], trace[k + 1])
  }

  /** A relation that relates each element to at most one successor. */
  ghost predicate Functional<T(!new)>(R: (T, T) -> bool)
  {
    forall x, y1, y2 :: R(x, y1) && R(x, y2) ==> y1 == y2
  }

  lemma ChainExtend<T>(trace: seq<T>, R: (T, T) -> bool, x: T)
    requires |trace| >= 1 && Chain(trace, R) && R(trace[|trace| - 1], x)
    ensures Chain(trace + [x], R)
  {
    var t := trace + [x];
    forall k | 0 <= k < |t| - 1
      ensures R(t[k], t[k + 1])
    {
      if k < |trace| - 1 {
        assert t[k] == trace[k] && t[k + 1] == trace[k + 1];
      }
    }
  }

  /** Under a functional relation a chain is determined by its first element
      and its length. */
  lemma {:induction false} ChainDeterministic<T(!new)>(t1: seq<T>, t2: seq<T>, R: (T, T) -> bool, k: int)
    requires Functional(R) && Chain(t1, R) && Chain(t2, R) && |t1| == |t2| && |t1| >= 1 && t1[0] == t2[0]
    requires 0 <= k < |t1|
    ensures t1[k] == t2[k]
  {
    if k > 0 {
      ChainDeterministic(t1, t2, R, k - 1);
      assert R(t1[k - 1], t1[k]) && R(t2[k - 1], t2[k]);
    }
  }

  /** One iteration of calcRelaxation's loop between matrices that meet the
      boundary conditions. */
  ghost function Step(c: FieldContext, param: real): (seq<seq<real>>, seq<seq<real>>) -> bool
    requires c.WellFormed()
  {
    (x: seq<seq<real>>, y: seq<seq<real>>) => Boundary(c, x) && Boundary(c, y) && StepFrom(c, x, y, param)
  }

  lemma StepFunctional(c: FieldContext, param: real)
    requires c.WellFormed()
    ensures Functional(Step(c, param))
  {
    forall x, y1, y2 | Step(c, param)(x, y1) && Step(c, param)(x, y2)
      ensures y1 == y2
    {
      StepDeterministic(c, x, y1, y2, param);
    }
  }

  /** The approximations calcRelaxation's loop passes through: the seed meets
      the boundary conditions and each later approximation is one step from
      its predecessor. */
  ghost predicate Trajectory(c: FieldContext, trace: seq<seq<seq<real>>>, param: real)
    requires c.WellFormed()
  {
    |trace| >= 1 && Boundary(c, trace[0]) && Chain(trace, Step(c, param))
  }

  /** calcRelaxation's approximations depend on nothing but the seed: two
      runs of the same length from the same seed with the same parameter pass
      through the same approximations. */
  lemma TrajectoryDeterministic(c: FieldContext, t1: seq<seq<seq<real>>>, t2: seq<seq<seq<real>>>, param: real)
    requires c.WellFormed() && Trajectory(c, t1, param) && Trajectory(c, t2, param)
    requires |t1| == |t2| && t1[0] == t2[0]
    ensures t1 == t2
  {
    StepFunctional(c, param);
    forall k | 0 <= k < |t1|
      ensures t1[k] == t2[k]
    {
      ChainDeterministic(t1, t2, Step(c, param), k);
    }
  }

  /** Every approximation of a trajectory meets the boundary conditions. */
  lemma TrajectoryBoundary(c: FieldContext, trace: seq<seq<seq<real>>>, param: real, k: int)
    requires c.WellFormed() && Trajectory(c, trace, param) && 0 <= k < |trace|
    ensures Boundary(c, trace[k])
  {
    if k > 0 {
      assert Step(c, param)(trace[k - 1], trace[k]);
    }
  }

  /** calcRelaxation's tolerance: accuracy scaled by the relaxation parameter. */
  function StopTolerance(params: FieldParams, relaxationParam: real): real
  {
    params.accuracy * relaxationParam
  }

  /** No cell of the leading lines x cols block moved by more than eps. */
  predicate Converged(next: seq<seq<real>>, cur: seq<seq<real>>, lines: int, cols: int, eps: real)
    requires lines <= |next| && lines <= |cur|
    requires forall a :: 0 <= a < lines ==> cols <= |next[a]| && cols <= |cur[a]|
  {
    forall a, b :: 0 <= a < lines && 0 <= b < cols ==> Util.Gap(next[a][b], cur[a][b]) <= eps
  }

  /** isApproximationValid on a matrix value. */
  predicate AllFinite(lib: Libm, m: seq<seq<real>>)
  {
    forall a, b :: 0 <= a < |m| && 0 <= b < |m[a]| ==> lib.isFinite(m[a][b])
  }

  // ---------------------------------------------------------------------------
  // calcDerivatives
  // ---------------------------------------------------------------------------

  /** The gradient of the linear interpolant of f1, f2, f3 over the triangle
      v1, v2, v3, by the ratio of double areas that calcDerivatives uses. */
  function TriangleDerivative(lib: Libm, v1: Vec2, v2: Vec2, v3: Vec2, f1: real, f2: real, f3: real): Vec2
  {
    var doubleArea := Util.CalcDoubleTriangleArea(v1, v2, v3);
    Vec2(
      Div(lib, Util.CalcDoubleTriangleArea(Vec2(f1, v1.z), Vec2(f2, v2.z), Vec2(f3, v3.z)), doubleArea),
      Div(lib, Util.CalcDoubleTriangleArea(Vec2(v1.r, f1), Vec2(v2.r, f2), Vec2(v3.r, f3)), doubleArea))
  }

  /** The formula is exact: for the values of a linear field a r + b z + d at
      the vertices of a non-degenerate triangle it yields the gradient (a, b). */
  lemma TriangleDerivativeOfLinear(lib: Libm, v1: Vec2, v2: Vec2, v3: Vec2, a: real, b: real, d: real)
    requires Util.CalcDoubleTriangleArea(v1, v2, v3) != 0.0
    ensures TriangleDerivative(lib, v1, v2, v3, a * v1.r + b * v1.z + d, a * v2.r + b * v2.z + d, a * v3.r + b * v3.z + d) == Vec2(a, b)
  {
    var f1, f2, f3 := a * v1.r + b * v1.z + d, a * v2.r + b * v2.z + d, a * v3.r + b * v3.z + d;
    var p, q, s, t := v1.r - v2.r, v1.z - v2.z, v3.r - v2.r, v3.z - v2.z;
    var area := p * t - s * q;
    assert f1 - f2 == a * p + b * q && f3 - f2 == a * s + b * t;
    GradientComponents(a, b, p, q, s, t);
    assert Util.CalcDoubleTriangleArea(Vec2(f1, v1.z), Vec2(f2, v2.z), Vec2(f3, v3.z)) == a * area;
    assert Util.CalcDoubleTriangleArea(Vec2(v1.r, f1), Vec2(v2.r, f2), Vec2(v3.r, f3)) == b * area;
  }

  /** Both cross products of the triangle edges with the edge differences of
      a linear field scale the triangle's own cross product. */
  lemma GradientComponents(a: real, b: real, p: real, q: real, s: real, t: real)
    ensures (a * p + b * q) * t - (a * s + b * t) * q == a * (p * t - s * q)
    ensures p * (a * s + b * t) - s * (a * p + b * q) == b * (p * t - s * q)
  {
  }

  /** The grid needs a column on each side of the surface column for the
      derivative stencils: an external column always, an internal one as soon
      as there is more than one surface point. */
  predicate DerivativeStencils(params: FieldParams)
  {
    params.infSplitsNum >= 1 && (params.surfaceSplitsNum >= 1 ==> params.internalSplitsNum >= 1)
  }

  /** The triangle derivative at surface point i from the cells at offsets
      k1 and k2 from (i, s). */
  function FanDerivative(lib: Libm, g: seq<seq<Vec2>>, v: seq<seq<real>>, lines: int, cols: int, i: int, s: int, k1: int, k2: int): Vec2
    requires Shaped(g, lines, cols) && Shaped(v, lines, cols)
    requires 0 <= i < lines && 0 <= s < cols && 0 <= k1 < 8 && 0 <= k2 < 8
    requires 0 <= Neighbour(i, s, k1).i < lines && 0 <= Neighbour(i, s, k1).j < cols
    requires 0 <= Neighbour(i, s, k2).i < lines && 0 <= Neighbour(i, s, k2).j < cols
  {
    var p2, p3 := Neighbour(i, s, k1), Neighbour(i, s, k2);
    TriangleDerivative(lib, g[i][s], g[p2.i][p2.j], g[p3.i][p3.j], v[i][s], v[p2.i][p2.j], v[p3.i][p3.j])
  }

  /** innerDerivatives[i]: the triangle below the surface towards the axis
      (offsets 3 and 4), and at the last surface point the difference quotient
      in z across the surface with a zero r component. */
  function InnerDerivative(lib: Libm, params: FieldParams, g: seq<seq<Vec2>>, v: seq<seq<real>>, i: int): Vec2
    requires DerivativeStencils(params) && params.surfaceSplitsNum >= 0 && params.internalSplitsNum >= 0
    requires Shaped(g, params.surfaceSplitsNum + 1, params.internalSplitsNum + params.infSplitsNum + 1)
    requires Shaped(v, params.surfaceSplitsNum + 1, params.internalSplitsNum + params.infSplitsNum + 1)
    requires 0 <= i <= params.surfaceSplitsNum
  {
    var s, limit := params.internalSplitsNum, params.surfaceSplitsNum;
    if i < limit then
      FanDerivative(lib, g, v, limit + 1, s + params.infSplitsNum + 1, i, s, 3, 4)
    else
      Vec2(0.0, Div(lib, v[limit][s + 1] - v[limit][s], g[limit][s + 1].z - g[limit][s].z))
  }

  /** outerDerivatives[i]: at surface point 0 the difference quotient in r
      across the surface with a zero z component, elsewhere the triangle
      outside the surface (offsets 6 and 1). */
  function OuterDerivative(lib: Libm, params: FieldParams, g: seq<seq<Vec2>>, v: seq<seq<real>>, i: int): Vec2
    requires DerivativeStencils(params) && params.surfaceSplitsNum >= 0 && params.internalSplitsNum >= 0
    requires Shaped(g, params.surfaceSplitsNum + 1, params.internalSplitsNum + params.infSplitsNum + 1)
    requires Shaped(v, params.surfaceSplitsNum + 1, params.internalSplitsNum + params.infSplitsNum + 1)
    requires 0 <= i <= params.surfaceSplitsNum
  {
    var s := params.internalSplitsNum;
    if i == 0 then
      Vec2(Div(lib, v[0][s + 1] - v[0][s], g[0][s + 1].r - g[0][s].r), 0.0)
    else
      FanDerivative(lib, g, v, params.surfaceSplitsNum + 1, s + params.infSplitsNum + 1, i, s, 6, 1)
  }

  // ---------------------------------------------------------------------------
  // calcResult's halving
  // ---------------------------------------------------------------------------

  function Pow2(n: nat): (p: real)
    ensures p >= 1.0
  {
    if n == 0 then 1.0 else 2.0 * Pow2(n - 1)
  }

  lemma {:induction false} Pow2AtLeast(n: nat)
    ensures Pow2(n) >= (n + 1) as real
  {
    if n > 0 {
      Pow2AtLeast(n - 1);
    }
  }

  /** Halving any start value drops below a positive minimum after finitely
      many steps: the number of steps bounds calcResult's loop. */
  lemma HalvingsNeeded(x: real, min: real) returns (n: nat)
    requires min > 0.0
    ensures x < min * Pow2(n)
  {
    var q := x / min;
    var f := q.Floor;
    n := if f < 0 then 1 else f + 1;
    assert q < n as real;
    Pow2AtLeast(n);
    var p := Pow2(n);
    assert q < p;
    QuotientBelow(x, min, p);
  }

  lemma QuotientBelow(x: real, m: real, p: real)
    requires m > 0.0 && x / m < p
    ensures x < m * p
  {
    assert x == (x / m) * m;
  }

  lemma {:induction false} Pow2Monotone(a: nat, b: nat)
    requires a <= b
    ensures Pow2(a) <= Pow2(b)
    decreases b - a
  {
    if a < b {
      Pow2Monotone(a, b - 1);
    }
  }

  lemma HalvingStep(x: real, h: nat)
    ensures (x * 0.5) * Pow2(h + 1) == x * Pow2(h)
  {
  }

  lemma ScaledBelow(x: real, min: real, p: real, q: real, p0: real)
    requires min > 0.0 && p >= q >= 1.0 && x * p == p0 && p0 < min * q
    ensures x < min
  {
    assert min * (p - q) >= 0.0;
    assert (min - x) * p > 0.0;
  }

  /** A value halved h times down from p0 < min * 2^n, with min positive,
      is below min once h reaches n. */
  lemma HalvingBound(p0: real, min: real, n: nat, h: nat, x: real)
    requires min > 0.0 && p0 < min * Pow2(n) && x * Pow2(h) == p0
    ensures h >= n ==> x < min
  {
    if h >= n {
      Pow2Monotone(n, h);
      ScaledBelow(x, min, Pow2(h), Pow2(n), p0);
    }
  }

  /** The MagneticParams fields the solver reads. */
  datatype FieldParams = FieldParams(
    surfaceSplitsNum: int,
    internalSplitsNum: int,
    infSplitsNum: int,
    relaxParamMin: real,
    chi: real,
    accuracy: real,
    iterationsNumMax: int)

  lemma AccumulateStep(c: FieldContext, w: seq<real>, m: seq<seq<real>>, i: int, j: int, acc: real, k: int, coef: real, value: real)
    requires |w| == 7 && Shaped(m, c.lines, c.cols) && 1 <= k <= 6
    requires c.InRange(Neighbour(i, j, k)) && coef == w[k] && value == m[Neighbour(i, j, k).i][Neighbour(i, j, k).j]
    ensures Accumulate(c, w, m, i, j, acc, k) == acc + coef * value
  {
  }

  // ---------------------------------------------------------------------------
  // The solver object
  // ---------------------------------------------------------------------------

  /** MagneticField: the grid and its last accepted copy, the three value
      buffers that calcRelaxation swaps, the derivatives along the surface
      column, the relaxation parameter and the iteration count. */
  class MagneticField {
    const params: FieldParams
    const gridLinesNum: int
    const gridColumnsNum: int
    const surfaceColumnIndex: int
    const grid: seq<seq<Vec2>>
    const lastValidGrid: array2<Vec2>
    var lastValidValues: array2<real>
    var nextApprox: array2<real>
    var curApprox: array2<real>
    const innerDerivatives: array<Vec2>
    const outerDerivatives: array<Vec2>
    var relaxationParam: real
    var iterationsCounter: int

    /** The sizes the constructor derives from the parameters, and the arrays
        that never change identity. */
    predicate Dimensioned()
    {
      params.surfaceSplitsNum >= 0 && params.internalSplitsNum >= 0 && params.infSplitsNum >= 0 &&
      gridLinesNum == params.surfaceSplitsNum + 1 &&
      gridColumnsNum == params.internalSplitsNum + params.infSplitsNum + 1 &&
      surfaceColumnIndex == params.internalSplitsNum &&
      Shaped(grid, gridLinesNum, gridColumnsNum) &&
      lastValidGrid.Length0 == gridLinesNum && lastValidGrid.Length1 == gridColumnsNum &&
      innerDerivatives.Length == gridLinesNum && outerDerivatives.Length == gridLinesNum &&
      innerDerivatives != outerDerivatives
    }

    /** The three value buffers are distinct lines x columns matrices. */
    predicate Valid()
      reads this
    {
      Dimensioned() &&
      lastValidValues.Length0 == gridLinesNum && lastValidValues.Length1 == gridColumnsNum &&
      nextApprox.Length0 == gridLinesNum && nextApprox.Length1 == gridColumnsNum &&
      curApprox.Length0 == gridLinesNum && curApprox.Length1 == gridColumnsNum &&
      lastValidValues != nextApprox && lastValidValues != curApprox && nextApprox != curApprox
    }

    /** The stencil's view of the object: the library, chi and the grid. */
    function Context(lib: Libm): (c: FieldContext)
      requires Dimensioned()
      ensures c.WellFormed() && c.lib == lib && c.chi == params.chi
      ensures c.lines == gridLinesNum && c.cols == gridColumnsNum && c.grid == grid
    {
      FieldContext(lib, params.chi, gridLinesNum, gridColumnsNum, grid)
    }

    /** isIndicesValid. */
    predicate IsIndicesValid(indices: Indices2)
    {
      indices.i >= 0 && indices.j >= 0 && indices.i < gridLinesNum && indices.j < gridColumnsNum
    }

    /** The valid indices are exactly those of the grid array, and those in
        range of the stencil. */
    lemma IndicesValidMeansInGrid(lib: Libm, indices: Indices2)
      requires Dimensioned()
      ensures IsIndicesValid(indices) <==> 0 <= indices.i < |grid| && 0 <= indices.j < |grid[indices.i]|
      ensures IsIndicesValid(indices) <==> Context(lib).InRange(indices)
    {
    }

    /** calcCoefficient(i, j, coefIndex): the diagonal coefficient sums the
        triangles 1..6 of the fan that lie in the grid; a neighbour's
        coefficient takes the two triangles next to it. */
    method CalcCoefficient(lib: Libm, i: int, j: int, coefIndex: int) returns (result: real)
      requires Dimensioned() && IsIndicesValid(Indices2(i, j)) && 0 <= coefIndex <= 6
      ensures result == Coefficient(Context(lib), i, j, coefIndex)
    {
      if coefIndex == 0 {
        result := CalcDiagonalCoefficient(lib, i, j);
      } else {
        result := CalcNeighbourCoefficient(lib, i, j, coefIndex);
      }
    }

    /** The coefIndex 0 branch of calcCoefficient. */
    method CalcDiagonalCoefficient(lib: Libm, i: int, j: int) returns (result: real)
      requires Dimensioned() && IsIndicesValid(Indices2(i, j))
      ensures result == DiagonalSum(Context(lib), i, j, 7)
    {
      ghost var c := Context(lib);
      var vert1 := grid[i][j];
      result := 0.0;
      var k := 1;
      while k < 7
        invariant 1 <= k <= 7 && result == DiagonalSum(c, i, j, k)
      {
        var curIndices, nextIndices := Neighbour(i, j, k), Neighbour(i, j, k + 1);
        if IsIndicesValid(curIndices) && IsIndicesValid(nextIndices) {
          var vert2, vert3 := grid[curIndices.i][curIndices.j], grid[nextIndices.i][nextIndices.j];
          assert vert1 == c.Point(Indices2(i, j)) && vert2 == c.Point(curIndices) && vert3 == c.Point(nextIndices);
          var term := DiagonalTerm(lib, params.chi, vert1, vert2, vert3);
          result := result + term;
        }
        k := k + 1;
      }
    }

    /** The coefIndex 1..6 branch of calcCoefficient. */
    method CalcNeighbourCoefficient(lib: Libm, i: int, j: int, coefIndex: int) returns (result: real)
      requires Dimensioned() && IsIndicesValid(Indices2(i, j)) && 1 <= coefIndex <= 6
      ensures result == Coefficient(Context(lib), i, j, coefIndex)
    {
      ghost var c := Context(lib);
      var vert1 := grid[i][j];
      assert vert1 == c.Point(Indices2(i, j));
      result := 0.0;
      var curIndices, nextIndices := Neighbour(i, j, coefIndex - 1), Neighbour(i, j, coefIndex);
      if IsIndicesValid(curIndices) && IsIndicesValid(nextIndices) {
        var vert2, vert3 := grid[curIndices.i][curIndices.j], grid[nextIndices.i][nextIndices.j];
        assert vert2 == c.Point(curIndices) && vert3 == c.Point(nextIndices);
        var term := LeadingTerm(lib, params.chi, vert1, vert2, vert3);
        result := result + term;
      }
      curIndices, nextIndices := Neighbour(i, j, coefIndex), Neighbour(i, j, coefIndex + 1);
      if IsIndicesValid(curIndices) && IsIndicesValid(nextIndices) {
        var vert2, vert3 := grid[curIndices.i][curIndices.j], grid[nextIndices.i][nextIndices.j];
        assert vert2 == c.Point(curIndices) && vert3 == c.Point(nextIndices);
        var term := TrailingTerm(lib, params.chi, vert1, vert2, vert3);
        result := result + term;
      }
    }

    method SumNeighbours(lib: Libm, i: int, j: int, ghost w: seq<real>, a: array2<real>, ghost m: seq<seq<real>>, acc: real, lo: int, hi: int)
      returns (result: real)
      requires Dimensioned() && IsIndicesValid(Indices2(i, j)) && 1 <= lo <= hi <= 7
      requires w == Weights(Context(lib), i, j)
      requires Linked(a, m) && a.Length0 == gridLinesNum && a.Length1 == gridColumnsNum
      ensures result == Extend(Context(lib), w, m, i, j, acc, lo, hi)
    {
      ghost var c := Context(lib);
      result := acc;
      var k := lo;
      while k < hi
        invariant lo <= k <= hi && result == Extend(c, w, m, i, j, acc, lo, k)
      {
        var resultIndices := Neighbour(i, j, k);
        if IsIndicesValid(resultIndices) {
          assert c.InRange(resultIndices);
          var coef := CalcCoefficient(lib, i, j, k);
          assert coef == w[k];
          var value := a[resultIndices.i, resultIndices.j];
          assert value == m[resultIndices.i][resultIndices.j];
          AccumulateStep(c, w, m, i, j, result, k, coef, value);
          result := result + coef * value;
        } else {
          assert !c.InRange(resultIndices);
        }
        k := k + 1;
      }
    }

    /** calcNextValue(i, j) on buffers holding `cur` and `next`: neighbours 2, 3
        and 4 from curApprox, then 5, 6 and 1 from nextApprox, each weighted by
        its coefficient when it lies in the grid, negated and divided by the
        diagonal coefficient. */
    method CalcNextValue(lib: Libm, i: int, j: int, ghost cur: seq<seq<real>>, ghost next: seq<seq<real>>) returns (v: real)
      requires Valid() && IsIndicesValid(Indices2(i, j))
      requires Linked(curApprox, cur) && Linked(nextApprox, next)
      ensures v == NextValue(Context(lib), cur, next, i, j)
    {
      ghost var c := Context(lib);
      ghost var w := Weights(c, i, j);
      var result := SumNeighbours(lib, i, j, w, curApprox, cur, 0.0, 2, 5);
      result := SumNeighbours(lib, i, j, w, nextApprox, next, result, 5, 7);
      result := SumNeighbours(lib, i, j, w, nextApprox, next, result, 1, 2);
      assert Extend(c, w, next, i, j, Extend(c, w, next, i, j, Extend(c, w, cur, i, j, 0.0, 2, 5), 5, 7), 1, 2) ==
        NeighbourSum(c, w, cur, next, i, j);
      var diagonal := CalcCoefficient(lib, i, j, 0);
      assert diagonal == w[0];
      v := Div(lib, -result, diagonal);
    }

    /** nextApprox[i][j] = v on a buffer holding `m`. */
    static method WriteCell(a: array2<real>, i: int, j: int, v: real, ghost m: seq<seq<real>>) returns (ghost m': seq<seq<real>>)
      requires Linked(a, m) && 0 <= i < a.Length0 && 0 <= j < a.Length1
      modifies a
      ensures Linked(a, m') && m' == m[i := m[i][j := v]]
    {
      a[i, j] := v;
      m' := m[i := m[i][j := v]];
    }

    /** One row of calcNextApproximation: the columns from gridColumnsNum - 2
        down to 0, each overwritten with calcNextValue. */
    method SweepRow(lib: Libm, i: int, ghost cur: seq<seq<real>>, ghost n0: seq<seq<real>>) returns (ghost n: seq<seq<real>>)
      requires Valid() && 1 <= i < gridLinesNum
      requires Linked(curApprox, cur) && Linked(nextApprox, n0)
      requires SweptBefore(Context(lib), cur, n0, i, gridColumnsNum - 2)
      modifies nextApprox
      ensures Linked(nextApprox, n) && Linked(curApprox, cur)
      ensures SweptBefore(Context(lib), cur, n, i, -1) && SameBoundary(Context(lib), n0, n)
    {
      ghost var c := Context(lib);
      n := n0;
      var j := gridColumnsNum - 2;
      while j >= 0
        invariant -1 <= j <= gridColumnsNum - 2
        invariant Linked(nextApprox, n) && Linked(curApprox, cur)
        invariant SweptBefore(c, cur, n, i, j) && SameBoundary(c, n0, n)
      {
        var v := CalcNextValue(lib, i, j, cur, n);
        SweepStep(c, cur, n, i, j, v);
        WrittenCellIsInside(c, n0, n, i, j, v);
        n := WriteCell(nextApprox, i, j, v, n);
        j := j - 1;
      }
    }

    /** calcNextApproximation: rows 1.. upwards, each swept from right to
        left. The result is the Gauss-Seidel fixed point over `cur` with the
        boundary of the buffer's previous content. */
    method CalcNextApproximation(lib: Libm, ghost cur: seq<seq<real>>, ghost n0: seq<seq<real>>) returns (ghost n: seq<seq<real>>)
      requires Valid() && Linked(curApprox, cur) && Linked(nextApprox, n0)
      modifies nextApprox
      ensures Linked(nextApprox, n) && Linked(curApprox, cur)
      ensures GaussSeidel(Context(lib), cur, n) && SameBoundary(Context(lib), n0, n)
    {
      ghost var c := Context(lib);
      n := n0;
      SweepStart(c, cur, n);
      var i := 1;
      while i < gridLinesNum
        invariant 1 <= i <= gridLinesNum
        invariant Linked(nextApprox, n) && Linked(curApprox, cur)
        invariant SweptBefore(c, cur, n, i, gridColumnsNum - 2) && SameBoundary(c, n0, n)
      {
        ghost var before := n;
        n := SweepRow(lib, i, cur, n);
        SweepNextRow(c, cur, n, i);
        i := i + 1;
      }
      SweepDone(c, cur, n);
    }

    /** The first loop of calcRelaxation: both buffers copy lastValidValues. */
    method CopyLastValid()
      requires Valid()
      modifies nextApprox, curApprox
      ensures forall a, b :: 0 <= a < gridLinesNum && 0 <= b < gridColumnsNum ==>
        nextApprox[a, b] == lastValidValues[a, b] && curApprox[a, b] == lastValidValues[a, b]
    {
      var i := 0;
      while i < gridLinesNum
        invariant 0 <= i <= gridLinesNum
        invariant forall a, b :: 0 <= a < i && 0 <= b < gridColumnsNum ==>
          nextApprox[a, b] == lastValidValues[a, b] && curApprox[a, b] == lastValidValues[a, b]
      {
        var j := 0;
        while j < gridColumnsNum
          invariant 0 <= j <= gridColumnsNum
          invariant forall a, b :: 0 <= a < i && 0 <= b < gridColumnsNum ==>
            nextApprox[a, b] == lastValidValues[a, b] && curApprox[a, b] == lastValidValues[a, b]
          invariant forall b :: 0 <= b < j ==> nextApprox[i, b] == lastValidValues[i, b] && curApprox[i, b] == lastValidValues[i, b]
        {
          nextApprox[i, j] := lastValidValues[i, j];
          curApprox[i, j] := nextApprox[i, j];
          j := j + 1;
        }
        i := i + 1;
      }
    }

    /** The second loop: the last column of both buffers takes the z
        coordinates of its grid points. */
    method SetLastColumnToGridZ()
      requires Valid()
      modifies nextApprox, curApprox
      ensures forall a, b :: 0 <= a < gridLinesNum && 0 <= b < gridColumnsNum ==>
        nextApprox[a, b] == (if b == gridColumnsNum - 1 then grid[a][b].z else old(nextApprox[a, b])) &&
        curApprox[a, b] == (if b == gridColumnsNum - 1 then grid[a][b].z else old(curApprox[a, b]))
    {
      var limitColumns := gridColumnsNum - 1;
      var i := 0;
      while i < gridLinesNum
        invariant 0 <= i <= gridLinesNum
        invariant forall a, b :: 0 <= a < gridLinesNum && 0 <= b < gridColumnsNum ==>
          nextApprox[a, b] == (if b == limitColumns && a < i then grid[a][b].z else old(nextApprox[a, b])) &&
          curApprox[a, b] == (if b == limitColumns && a < i then grid[a][b].z else old(curApprox[a, b]))
      {
        nextApprox[i, limitColumns] := grid[i][limitColumns].z;
        curApprox[i, limitColumns] := nextApprox[i, limitColumns];
        i := i + 1;
      }
    }

    /** The third loop: row 0 of both buffers is zeroed. */
    method ZeroFirstRow()
      requires Valid()
      modifies nextApprox, curApprox
      ensures forall a, b :: 0 <= a < gridLinesNum && 0 <= b < gridColumnsNum ==>
        nextApprox[a, b] == (if a == 0 then 0.0 else old(nextApprox[a, b])) &&
        curApprox[a, b] == (if a == 0 then 0.0 else old(curApprox[a, b]))
    {
      var i := 0;
      while i < gridColumnsNum
        invariant 0 <= i <= gridColumnsNum
        invariant forall a, b :: 0 <= a < gridLinesNum && 0 <= b < gridColumnsNum ==>
          nextApprox[a, b] == (if a == 0 && b < i then 0.0 else old(nextApprox[a, b])) &&
          curApprox[a, b] == (if a == 0 && b < i then 0.0 else old(curApprox[a, b]))
      {
        nextApprox[0, i] := 0.0;
        curApprox[0, i] := 0.0;
        i := i + 1;
      }
    }

    /** The fourth loop: the last column of both buffers takes its boundary
        values, with b = 3 / (3 + chi) computed once. */
    method SetBoundaryColumn(lib: Libm)
      requires Valid()
      modifies nextApprox, curApprox
      ensures forall a, b :: 0 <= a < gridLinesNum && 0 <= b < gridColumnsNum ==>
        nextApprox[a, b] == (if b == gridColumnsNum - 1 then BoundaryValue(lib, params.chi, grid[a][b]) else old(nextApprox[a, b])) &&
        curApprox[a, b] == (if b == gridColumnsNum - 1 then BoundaryValue(lib, params.chi, grid[a][b]) else old(curApprox[a, b]))
    {
      var b := Div(lib, 3.0, 3.0 + params.chi);
      var last := gridColumnsNum - 1;
      var i := 0;
      while i < gridLinesNum
        invariant 0 <= i <= gridLinesNum
        invariant forall a, k :: 0 <= a < gridLinesNum && 0 <= k < gridColumnsNum ==>
          nextApprox[a, k] == (if k == last && a < i then BoundaryValue(lib, params.chi, grid[a][k]) else old(nextApprox[a, k])) &&
          curApprox[a, k] == (if k == last && a < i then BoundaryValue(lib, params.chi, grid[a][k]) else old(curApprox[a, k]))
      {
        var value := BoundaryValueFor(lib, b, grid[i][last]);
        nextApprox[i, last] := value;
        curApprox[i, last] := nextApprox[i, last];
        i := i + 1;
      }
    }

    /** The four seeding loops of calcRelaxation: both buffers hold the last
        valid values under the boundary conditions. */
    method SeedApproximations(lib: Libm, ghost lastValid: seq<seq<real>>)
      requires Valid() && Linked(lastValidValues, lastValid)
      modifies nextApprox, curApprox
      ensures Linked(nextApprox, Seed(Context(lib), lastValid)) && Linked(curApprox, Seed(Context(lib), lastValid))
    {
      CopyLastValid();
      SetLastColumnToGridZ();
      ZeroFirstRow();
      SetBoundaryColumn(lib);
    }

    /** calcNextApproximation followed by relaxation over the whole grid: with
        `cur` in curApprox and `n0` in nextApprox, nextApprox becomes `cur`
        relaxed by relaxationParam towards the sweep from `cur`. */
    method Advance(lib: Libm, ghost cur: seq<seq<real>>, ghost n0: seq<seq<real>>) returns (ghost next: seq<seq<real>>)
      requires Valid() && Linked(curApprox, cur) && Linked(nextApprox, n0)
      requires Boundary(Context(lib), cur) && Boundary(Context(lib), n0)
      modifies nextApprox
      ensures Linked(nextApprox, next) && Linked(curApprox, cur)
      ensures Boundary(Context(lib), next) && StepFrom(Context(lib), cur, next, relaxationParam)
    {
      ghost var c := Context(lib);
      ghost var swept := CalcNextApproximation(lib, cur, n0);
      SameBoundaryKeepsBoundary(c, n0, swept);
      Util.Relaxation2(nextApprox, curApprox, gridLinesNum, gridColumnsNum, relaxationParam);
      next := Relaxed(c, cur, swept, relaxationParam);
      RelaxationKeepsBoundary(c, cur, swept, relaxationParam);
    }

    /** The body of calcRelaxation's do-while loop: swap the buffers, then
        sweep and relax. The approximations so far are `trace`, the last of
        them in nextApprox; curApprox holds `cur0`. The new approximation
        extends the trajectory by one step. */
    method RelaxationStep(lib: Libm, ghost trace: seq<seq<seq<real>>>, ghost cur0: seq<seq<real>>)
      returns (ghost trace': seq<seq<seq<real>>>)
      requires Valid() && Trajectory(Context(lib), trace, relaxationParam)
      requires Linked(nextApprox, trace[|trace| - 1]) && Linked(curApprox, cur0) && Boundary(Context(lib), cur0)
      modifies this`nextApprox, this`curApprox, nextApprox, curApprox
      ensures Valid() && nextApprox == old(curApprox) && curApprox == old(nextApprox)
      ensures |trace'| == |trace| + 1 && trace'[..|trace|] == trace && Trajectory(Context(lib), trace', relaxationParam)
      ensures Linked(nextApprox, trace'[|trace|]) && Linked(curApprox, trace[|trace| - 1])
    {
      ghost var c := Context(lib);
      ghost var last := trace[|trace| - 1];
      TrajectoryBoundary(c, trace, relaxationParam, |trace| - 1);
      nextApprox, curApprox := curApprox, nextApprox;
      ghost var next := Advance(lib, last, cur0);
      assert Step(c, relaxationParam)(last, next);
      ChainExtend(trace, Step(c, relaxationParam), next);
      trace' := trace + [next];
      assert trace'[..|trace|] == trace && trace'[0] == trace[0];
    }

    /** The condition of calcRelaxation's do-while loop: the largest change
        over the columns up to the surface exceeds `curEpsilon`, and fewer than
        iterationsNumMax steps have run. */
    method ShouldContinue(curEpsilon: real, counter: int, ghost next: seq<seq<real>>, ghost cur: seq<seq<real>>)
      returns (running: bool)
      requires Valid() && Linked(nextApprox, next) && Linked(curApprox, cur)
      ensures running <==> !Converged(next, cur, gridLinesNum, surfaceColumnIndex + 1, curEpsilon) &&
                           counter < params.iterationsNumMax
    {
      var norm := Util.Norm2(nextApprox, curApprox, gridLinesNum, surfaceColumnIndex + 1);
      running := Exceeds(norm, curEpsilon) && counter < params.iterationsNumMax;
    }

    /** nextApprox and curApprox are the given buffers, in place or swapped. */
    predicate HoldsApproximations(next: array2<real>, cur: array2<real>)
      reads this
    {
      (nextApprox == next && curApprox == cur) || (nextApprox == cur && curApprox == next)
    }

    /** The seeding loops and the do-while loop of calcRelaxation: the steps
        run from the seed until the change over the columns up to the surface
        is at most `curEpsilon` or iterationsNumMax steps have run. */
    method IterateRelaxation(lib: Libm, curEpsilon: real, ghost lastValid: seq<seq<real>>)
      returns (counter: int, ghost trace: seq<seq<seq<real>>>)
      requires Valid() && Linked(lastValidValues, lastValid)
      modifies this`nextApprox, this`curApprox, nextApprox, curApprox
      ensures Valid() && HoldsApproximations(old(nextApprox), old(curApprox))
      ensures counter >= 1 && |trace| == counter + 1 && Trajectory(Context(lib), trace, relaxationParam)
      ensures trace[0] == Seed(Context(lib), lastValid)
      ensures Linked(nextApprox, trace[counter]) && Linked(curApprox, trace[counter - 1])
      ensures counter < params.iterationsNumMax ==>
        Converged(trace[counter], trace[counter - 1], gridLinesNum, surfaceColumnIndex + 1, curEpsilon)
    {
      ghost var c := Context(lib);
      SeedApproximations(lib, lastValid);
      ghost var seed := Seed(c, lastValid);
      trace := [seed];
      counter := 0;
      var running := true;
      while running
        invariant Valid() && HoldsApproximations(old(nextApprox), old(curApprox))
        invariant counter >= 0 && |trace| == counter + 1 && Trajectory(c, trace, relaxationParam) && trace[0] == seed
        invariant Linked(nextApprox, trace[counter])
        invariant Linked(curApprox, trace[if counter == 0 then 0 else counter - 1])
        invariant running ==> counter < params.iterationsNumMax || counter == 0
        invariant !running ==> counter >= 1
        invariant !running && counter < params.iterationsNumMax ==>
          Converged(trace[counter], trace[counter - 1], gridLinesNum, surfaceColumnIndex + 1, curEpsilon)
        decreases running, params.iterationsNumMax - counter + 1
      {
        ghost var cur := trace[if counter == 0 then 0 else counter - 1];
        assert Boundary(c, cur) by { TrajectoryBoundary(c, trace, relaxationParam, if counter == 0 then 0 else counter - 1); }
        trace := RelaxationStep(lib, trace, cur);
        assert trace[0] == seed;
        counter := counter + 1;
        running := ShouldContinue(curEpsilon, counter, trace[counter], trace[counter - 1]);
      }
    }

    /** isApproximationValid: every entry of the lines x columns block is
        finite. */
    method IsApproximationValid(lib: Libm, approx: array2<real>, ghost m: seq<seq<real>>) returns (valid: bool)
      requires Dimensioned() && Linked(approx, m)
      requires approx.Length0 == gridLinesNum && approx.Length1 == gridColumnsNum
      ensures valid <==> AllFinite(lib, m)
    {
      var i := 0;
      while i < gridLinesNum
        invariant 0 <= i <= gridLinesNum
        invariant forall a, b :: 0 <= a < i && 0 <= b < gridColumnsNum ==> lib.isFinite(m[a][b])
      {
        var j := 0;
        while j < gridColumnsNum
          invariant 0 <= j <= gridColumnsNum
          invariant forall b :: 0 <= b < j ==> lib.isFinite(m[i][b])
        {
          if !lib.isFinite(approx[i, j]) {
            return false;
          }
          j := j + 1;
        }
        i := i + 1;
      }
      return true;
    }

    /** The grid copy of calcRelaxation's success branch. */
    method StoreGrid()
      requires Dimensioned()
      modifies lastValidGrid
      ensures Linked(lastValidGrid, grid)
    {
      var i := 0;
      while i < gridLinesNum
        invariant 0 <= i <= gridLinesNum
        invariant forall a, b :: 0 <= a < i && 0 <= b < gridColumnsNum ==> lastValidGrid[a, b] == grid[a][b]
      {
        var j := 0;
        while j < gridColumnsNum
          invariant 0 <= j <= gridColumnsNum
          invariant forall a, b :: 0 <= a < i && 0 <= b < gridColumnsNum ==> lastValidGrid[a, b] == grid[a][b]
          invariant forall b :: 0 <= b < j ==> lastValidGrid[i, b] == grid[i][b]
        {
          lastValidGrid[i, j] := grid[i][j];
          j := j + 1;
        }
        i := i + 1;
      }
    }

    /** The triangle derivative at surface point i of the accepted values,
        with the further vertices at offsets k1 and k2. */
    method CalcFanDerivative(lib: Libm, i: int, k1: int, k2: int, ghost g: seq<seq<Vec2>>, ghost v: seq<seq<real>>)
      returns (d: Vec2)
      requires Valid() && Linked(lastValidGrid, g) && Linked(lastValidValues, v)
      requires 0 <= i < gridLinesNum && surfaceColumnIndex < gridColumnsNum && 0 <= k1 < 8 && 0 <= k2 < 8
      requires IsIndicesValid(Neighbour(i, surfaceColumnIndex, k1)) && IsIndicesValid(Neighbour(i, surfaceColumnIndex, k2))
      ensures d == FanDerivative(lib, g, v, gridLinesNum, gridColumnsNum, i, surfaceColumnIndex, k1, k2)
    {
      var s := surfaceColumnIndex;
      var p2, p3 := Neighbour(i, s, k1), Neighbour(i, s, k2);
      d := TriangleDerivative(lib, lastValidGrid[i, s], lastValidGrid[p2.i, p2.j], lastValidGrid[p3.i, p3.j],
                              lastValidValues[i, s], lastValidValues[p2.i, p2.j], lastValidValues[p3.i, p3.j]);
    }

    /** calcDerivatives' first statement: the r difference quotient across
        the surface at point 0. */
    method OuterAtFirstPoint(lib: Libm, ghost g: seq<seq<Vec2>>, ghost v: seq<seq<real>>) returns (d: Vec2)
      requires Valid() && DerivativeStencils(params) && Linked(lastValidGrid, g) && Linked(lastValidValues, v)
      ensures d == OuterDerivative(lib, params, g, v, 0)
    {
      var s := surfaceColumnIndex;
      d := Vec2(Div(lib, lastValidValues[0, s + 1] - lastValidValues[0, s], lastValidGrid[0, s + 1].r - lastValidGrid[0, s].r), 0.0);
    }

    /** calcDerivatives' last statement: the z difference quotient across the
        surface at the last point. */
    method InnerAtLastPoint(lib: Libm, ghost g: seq<seq<Vec2>>, ghost v: seq<seq<real>>) returns (d: Vec2)
      requires Valid() && DerivativeStencils(params) && Linked(lastValidGrid, g) && Linked(lastValidValues, v)
      ensures d == InnerDerivative(lib, params, g, v, gridLinesNum - 1)
    {
      var s, limit := surfaceColumnIndex, gridLinesNum - 1;
      d := Vec2(0.0, Div(lib, lastValidValues[limit, s + 1] - lastValidValues[limit, s], lastValidGrid[limit, s + 1].z - lastValidGrid[limit, s].z));
    }

    /** calcDerivatives' first loop: the triangles towards the axis. */
    method CalcInnerFans(lib: Libm, ghost g: seq<seq<Vec2>>, ghost v: seq<seq<real>>)
      requires Valid() && DerivativeStencils(params) && Linked(lastValidGrid, g) && Linked(lastValidValues, v)
      modifies innerDerivatives
      ensures forall k :: 0 <= k < gridLinesNum - 1 ==> innerDerivatives[k] == InnerDerivative(lib, params, g, v, k)
      ensures innerDerivatives[gridLinesNum - 1] == old(innerDerivatives[gridLinesNum - 1])
    {
      var i := 0;
      while i < gridLinesNum - 1
        invariant 0 <= i <= gridLinesNum - 1
        invariant forall k :: 0 <= k < i ==> innerDerivatives[k] == InnerDerivative(lib, params, g, v, k)
        invariant innerDerivatives[gridLinesNum - 1] == old(innerDerivatives[gridLinesNum - 1])
      {
        var d := CalcFanDerivative(lib, i, 3, 4, g, v);
        assert d == InnerDerivative(lib, params, g, v, i);
        innerDerivatives[i] := d;
        i := i + 1;
      }
    }

    /** calcDerivatives' second loop: the triangles outside the surface. */
    method CalcOuterFans(lib: Libm, ghost g: seq<seq<Vec2>>, ghost v: seq<seq<real>>)
      requires Valid() && DerivativeStencils(params) && Linked(lastValidGrid, g) && Linked(lastValidValues, v)
      modifies outerDerivatives
      ensures forall k :: 1 <= k < gridLinesNum ==> outerDerivatives[k] == OuterDerivative(lib, params, g, v, k)
      ensures outerDerivatives[0] == old(outerDerivatives[0])
    {
      var i := 1;
      while i < gridLinesNum
        invariant 1 <= i <= gridLinesNum
        invariant forall k :: 1 <= k < i ==> outerDerivatives[k] == OuterDerivative(lib, params, g, v, k)
        invariant outerDerivatives[0] == old(outerDerivatives[0])
      {
        var d := CalcFanDerivative(lib, i, 6, 1, g, v);
        assert d == OuterDerivative(lib, params, g, v, i);
        outerDerivatives[i] := d;
        i := i + 1;
      }
    }

    /** calcDerivatives: the derivatives of the accepted values along the
        surface column, from inside (innerDerivatives) and from outside
        (outerDerivatives). */
    method CalcDerivatives(lib: Libm, ghost g: seq<seq<Vec2>>, ghost v: seq<seq<real>>)
      requires Valid() && DerivativeStencils(params) && Linked(lastValidGrid, g) && Linked(lastValidValues, v)
      modifies innerDerivatives, outerDerivatives
      ensures forall i :: 0 <= i < gridLinesNum ==>
        innerDerivatives[i] == InnerDerivative(lib, params, g, v, i) &&
        outerDerivatives[i] == OuterDerivative(lib, params, g, v, i)
    {
      var first := OuterAtFirstPoint(lib, g, v);
      outerDerivatives[0] := first;
      CalcInnerFans(lib, g, v);
      CalcOuterFans(lib, g, v);
      var last := InnerAtLastPoint(lib, g, v);
      innerDerivatives[gridLinesNum - 1] := last;
    }

    /** The three value buffers are the given ones in some order. */
    predicate HoldsValueArrays(l: array2<real>, n: array2<real>, c: array2<real>)
      reads this
    {
      (lastValidValues == l || lastValidValues == n || lastValidValues == c) &&
      (nextApprox == l || nextApprox == n || nextApprox == c) &&
      (curApprox == l || curApprox == n || curApprox == c)
    }

    /** calcRelaxation's success branch: nextApprox, holding `result`, is
        swapped into lastValidValues, the grid is copied to lastValidGrid and
        the derivatives are recomputed. */
    method AcceptResult(lib: Libm, ghost result: seq<seq<real>>)
      requires Valid() && DerivativeStencils(params) && Linked(nextApprox, result)
      modifies this`lastValidValues, this`nextApprox, lastValidGrid, innerDerivatives, outerDerivatives
      ensures Valid() && lastValidValues == old(nextApprox) && nextApprox == old(lastValidValues)
      ensures Linked(lastValidValues, result) && Linked(lastValidGrid, grid)
      ensures forall i :: 0 <= i < gridLinesNum ==>
        innerDerivatives[i] == InnerDerivative(lib, params, grid, result, i) &&
        outerDerivatives[i] == OuterDerivative(lib, params, grid, result, i)
    {
      lastValidValues, nextApprox := nextApprox, lastValidValues;
      StoreGrid();
      CalcDerivatives(lib, grid, result);
    }

    /** calcRelaxation: starting from the last valid values under the boundary
        conditions, repeat relaxation steps until the change over the columns
        up to the surface is at most accuracy * relaxationParam or
        iterationsNumMax steps have run. Hitting the limit takes precedence
        over an invalid result; only a result that is finite everywhere
        replaces the last valid values, and then the grid is copied and the
        derivatives are recomputed from them. */
    method CalcRelaxation(lib: Libm, ghost lastValid: seq<seq<real>>) returns (code: ResultCode, ghost trace: seq<seq<seq<real>>>)
      requires Valid() && DerivativeStencils(params) && Linked(lastValidValues, lastValid)
      modifies this`nextApprox, this`curApprox, this`lastValidValues, this`iterationsCounter
      modifies nextApprox, curApprox, lastValidGrid, innerDerivatives, outerDerivatives
      ensures Valid() && HoldsValueArrays(old(lastValidValues), old(nextApprox), old(curApprox))
      ensures
        var steps := iterationsCounter - old(iterationsCounter);
        steps >= 1 && |trace| == steps + 1 && Trajectory(Context(lib), trace, relaxationParam) &&
        trace[0] == Seed(Context(lib), lastValid) &&
        (code == FieldIterationsLimitExceeded <==> steps >= params.iterationsNumMax) &&
        (code == FieldInvalidResult <==> steps < params.iterationsNumMax && !AllFinite(lib, trace[steps])) &&
        (code == FieldSuccess <==> steps < params.iterationsNumMax && AllFinite(lib, trace[steps]))
      ensures code == FieldSuccess ==>
        var steps := iterationsCounter - old(iterationsCounter);
        Linked(lastValidValues, trace[steps]) && Linked(lastValidGrid, grid) &&
        Converged(trace[steps], trace[steps - 1], gridLinesNum, surfaceColumnIndex + 1, StopTolerance(params, relaxationParam)) &&
        forall i :: 0 <= i < gridLinesNum ==>
          innerDerivatives[i] == InnerDerivative(lib, params, grid, trace[steps], i) &&
          outerDerivatives[i] == OuterDerivative(lib, params, grid, trace[steps], i)
      ensures code != FieldSuccess ==>
        lastValidValues == old(lastValidValues) && unchanged(lastValidValues) &&
        unchanged(lastValidGrid) && unchanged(innerDerivatives) && unchanged(outerDerivatives)
    {
      var curEpsilon := StopTolerance(params, relaxationParam);
      var counter;
      counter, trace := IterateRelaxation(lib, curEpsilon, lastValid);
      iterationsCounter := iterationsCounter + counter;
      if counter >= params.iterationsNumMax {
        return FieldIterationsLimitExceeded, trace;
      }
      var valid := IsApproximationValid(lib, nextApprox, trace[counter]);
      if !valid {
        return FieldInvalidResult, trace;
      }
      AcceptResult(lib, trace[counter]);
      code := FieldSuccess;
    }

    /** calcInnerDerivative: the inner derivative interpolated along the
        surface points, from point 0 at param 0 to the last point at 1. */
    function CalcInnerDerivative(param: real): (d: Vec2)
      requires Dimensioned()
      reads innerDerivatives
      ensures param == 0.0 ==> d == innerDerivatives[0]
      ensures param >= 1.0 ==> d == innerDerivatives[gridLinesNum - 1]
    {
      Util.CalcParametricPoint(innerDerivatives[..], params.surfaceSplitsNum + 1, param)
    }

    /** calcOuterDerivative, likewise for the outer derivative. */
    function CalcOuterDerivative(param: real): (d: Vec2)
      requires Dimensioned()
      reads outerDerivatives
      ensures param == 0.0 ==> d == outerDerivatives[0]
      ensures param >= 1.0 ==> d == outerDerivatives[gridLinesNum - 1]
    {
      Util.CalcParametricPoint(outerDerivatives[..], params.surfaceSplitsNum + 1, param)
    }

    /** calcInitialApproximation: the relaxation parameter back to 1, the
        iteration count to 0 and every last valid value to 0. */
    method CalcInitialApproximation()
      requires Valid()
      modifies this`relaxationParam, this`iterationsCounter, lastValidValues
      ensures relaxationParam == 1.0 && iterationsCounter == 0
      ensures forall a, b :: 0 <= a < gridLinesNum && 0 <= b < gridColumnsNum ==> lastValidValues[a, b] == 0.0
    {
      relaxationParam := 1.0;
      iterationsCounter := 0;
      var i := 0;
      while i < gridLinesNum
        invariant 0 <= i <= gridLinesNum
        invariant relaxationParam == 1.0 && iterationsCounter == 0
        invariant forall a, b :: 0 <= a < i && 0 <= b < gridColumnsNum ==> lastValidValues[a, b] == 0.0
      {
        var j := 0;
        while j < gridColumnsNum
          invariant 0 <= j <= gridColumnsNum
          invariant relaxationParam == 1.0 && iterationsCounter == 0
          invariant forall a, b :: 0 <= a < i && 0 <= b < gridColumnsNum ==> lastValidValues[a, b] == 0.0
          invariant forall b :: 0 <= b < j ==> lastValidValues[i, b] == 0.0
        {
          lastValidValues[i, j] := 0.0;
          j := j + 1;
        }
        i := i + 1;
      }
    }

    /** MagneticField(params): lines = surfaceSplitsNum + 1, columns =
        internalSplitsNum + infSplitsNum + 1, the surface in column
        internalSplitsNum, fresh buffers and the initial approximation. The
        grid is the one generateGrid fills in. */
    constructor(params: FieldParams, grid: seq<seq<Vec2>>)
      requires params.surfaceSplitsNum >= 0 && params.internalSplitsNum >= 0 && params.infSplitsNum >= 0
      requires Shaped(grid, params.surfaceSplitsNum + 1, params.internalSplitsNum + params.infSplitsNum + 1)
      ensures Valid() && this.params == params && this.grid == grid
      ensures gridLinesNum == params.surfaceSplitsNum + 1
      ensures gridColumnsNum == params.internalSplitsNum + params.infSplitsNum + 1
      ensures surfaceColumnIndex == params.internalSplitsNum
      ensures relaxationParam == 1.0 && iterationsCounter == 0
      ensures forall a, b :: 0 <= a < gridLinesNum && 0 <= b < gridColumnsNum ==> lastValidValues[a, b] == 0.0
      ensures fresh(lastValidValues) && fresh(nextApprox) && fresh(curApprox)
      ensures fresh(lastValidGrid) && fresh(innerDerivatives) && fresh(outerDerivatives)
    {
      var lines := params.surfaceSplitsNum + 1;
      var cols := params.internalSplitsNum + params.infSplitsNum + 1;
      this.params := params;
      gridLinesNum := lines;
      gridColumnsNum := cols;
      surfaceColumnIndex := params.internalSplitsNum;
      relaxationParam := 1.0;
      this.grid := grid;
      lastValidGrid := new Vec2[lines, cols];
      lastValidValues := new real[lines, cols];
      nextApprox := new real[lines, cols];
      curApprox := new real[lines, cols];
      innerDerivatives := new Vec2[lines];
      outerDerivatives := new Vec2[lines];
      iterationsCounter := 0;
      new;
      CalcInitialApproximation();
    }

    /** The state a successful calcRelaxation leaves behind, for a run seeded
        from `lastValid`: the approximations form a trajectory of fewer than
        iterationsNumMax steps at the current relaxation parameter, the last
        one moved by at most the stopping tolerance and is finite, and it is
        the new last valid potential, with the grid copied and both derivative
        arrays recomputed from it. */
    ghost predicate Accepted(lib: Libm, lastValid: seq<seq<real>>, trace: seq<seq<seq<real>>>)
      requires Dimensioned() && DerivativeStencils(params)
      reads this`lastValidValues, this`relaxationParam, lastValidValues, lastValidGrid, innerDerivatives, outerDerivatives
    {
      var n := |trace| - 1;
      Shaped(lastValid, gridLinesNum, gridColumnsNum) &&
      n >= 1 && n < params.iterationsNumMax &&
      Trajectory(Context(lib), trace, relaxationParam) &&
      trace[0] == Seed(Context(lib), lastValid) &&
      Linked(lastValidValues, trace[n]) && Linked(lastValidGrid, grid) &&
      Shaped(trace[n], gridLinesNum, gridColumnsNum) && Shaped(trace[n - 1], gridLinesNum, gridColumnsNum) &&
      Converged(trace[n], trace[n - 1], gridLinesNum, surfaceColumnIndex + 1, StopTolerance(params, relaxationParam)) &&
      AllFinite(lib, trace[n]) &&
      forall i :: 0 <= i < gridLinesNum ==>
        innerDerivatives[i] == InnerDerivative(lib, params, grid, trace[n], i) &&
        outerDerivatives[i] == OuterDerivative(lib, params, grid, trace[n], i)
    }

    /** One pass of calcResult's loop: a relaxation and, when it fails, the
        relaxation parameter halved with everything else left as it was. */
    method Attempt(lib: Libm, ghost lastValid: seq<seq<real>>) returns (code: ResultCode, ghost trace: seq<seq<seq<real>>>)
      requires Valid() && DerivativeStencils(params) && Linked(lastValidValues, lastValid)
      modifies this`nextApprox, this`curApprox, this`lastValidValues, this`iterationsCounter, this`relaxationParam
      modifies nextApprox, curApprox, lastValidGrid, innerDerivatives, outerDerivatives
      ensures Valid()
      ensures code == FieldSuccess || code == FieldIterationsLimitExceeded || code == FieldInvalidResult
      ensures code == FieldSuccess ==> relaxationParam == old(relaxationParam) && Accepted(lib, lastValid, trace)
      ensures code != FieldSuccess ==>
        relaxationParam == old(relaxationParam) * 0.5 &&
        HoldsApproximations(old(nextApprox), old(curApprox)) && Linked(lastValidValues, lastValid) &&
        lastValidValues == old(lastValidValues) && unchanged(lastValidValues) &&
        unchanged(lastValidGrid) && unchanged(innerDerivatives) && unchanged(outerDerivatives)
    {
      code, trace := CalcRelaxation(lib, lastValid);
      if code != FieldSuccess {
        relaxationParam := relaxationParam * 0.5;
      }
    }

    /** calcResult: run calcRelaxation until it succeeds, halving the
        relaxation parameter after every failure, and give up once the
        parameter is below relaxParamMin. */
    method CalcResult(lib: Libm, ghost lastValid: seq<seq<real>>)
      returns (code: ResultCode, ghost halvings: nat, ghost trace: seq<seq<seq<real>>>)
      requires Valid() && DerivativeStencils(params) && params.relaxParamMin > 0.0 && Linked(lastValidValues, lastValid)
      modifies this`nextApprox, this`curApprox, this`lastValidValues, this`iterationsCounter, this`relaxationParam
      modifies nextApprox, curApprox, lastValidGrid, innerDerivatives, outerDerivatives
      ensures Valid()
      ensures relaxationParam * Pow2(halvings) == old(relaxationParam)
      ensures code == FieldSuccess || code == FieldIterationsLimitExceeded || code == FieldInvalidResult
      ensures code == FieldSuccess <==> relaxationParam >= params.relaxParamMin
      ensures halvings > 0 ==> 2.0 * relaxationParam >= params.relaxParamMin
      ensures old(relaxationParam) < params.relaxParamMin ==> code == FieldInvalidResult && halvings == 0
      ensures code == FieldSuccess ==> Accepted(lib, lastValid, trace)
      ensures code != FieldSuccess ==>
        lastValidValues == old(lastValidValues) && unchanged(lastValidValues) &&
        unchanged(lastValidGrid) && unchanged(innerDerivatives) && unchanged(outerDerivatives)
    {
      code := FieldInvalidResult;
      halvings := 0;
      ghost var budget := HalvingsNeeded(relaxationParam, params.relaxParamMin);
      trace := [];
      while relaxationParam >= params.relaxParamMin
        invariant Valid() && relaxationParam * Pow2(halvings) == old(relaxationParam)
        invariant code == FieldIterationsLimitExceeded || code == FieldInvalidResult
        invariant halvings > 0 ==> 2.0 * relaxationParam >= params.relaxParamMin
        invariant old(relaxationParam) < params.relaxParamMin ==> code == FieldInvalidResult && halvings == 0
        invariant HoldsApproximations(old(nextApprox), old(curApprox)) && Linked(lastValidValues, lastValid)
        invariant lastValidValues == old(lastValidValues) && unchanged(lastValidValues)
        invariant unchanged(lastValidGrid) && unchanged(innerDerivatives) && unchanged(outerDerivatives)
        decreases budget - halvings
      {
        HalvingBound(old(relaxationParam), params.relaxParamMin, budget, halvings, relaxationParam);
        ghost var before := relaxationParam;
        code, trace := Attempt(lib, lastValid);
        if code == FieldSuccess {
          break;
        }
        HalvingStep(before, halvings);
        halvings := halvings + 1;
      }
    }
  }
}
