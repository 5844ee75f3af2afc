/** SimpleTriangleGrid.cpp: the curvilinear grid of the meridian half-plane
    around the droplet. Row i runs from the symmetry axis (column 0) through
    the drop surface (column `surfaceColumnIndex`) out to the far boundary
    (the last column, the surface scaled by `infMultiplier`); row 0 lies on the
    equatorial plane z = 0 and the last row on the axis r = 0. */
module Grids {
  import opened Numerics
  import MathExt

  /** STGridParams as the constructor reads it (SimpleTriangleGrid.h names the
      third field `infSplitsNum`; the .cpp uses `externalSplitsNum`). */
  datatype STGridParams = STGridParams(surfaceSplitsNum: int, internalSplitsNum: int, externalSplitsNum: int,
                                       infMultiplier: real)

  /** z of the top of the drop: the first surface point. */
  function TopPointZ(surface: seq<Vec2>): real
    requires |surface| >= 1
  {
    surface[0].z
  }

  /** r where the surface meets the equatorial plane: the last surface point. */
  function IntersectPointR(surface: seq<Vec2>): real
    requires |surface| >= 1
  {
    surface[|surface| - 1].r
  }

  /** z of the axis point where the internal columns start on the last row:
      the top z split evenly over surface and internal splits, times the
      surface splits. */
  function SpecialPointZ(params: STGridParams, lib: Libm, surface: seq<Vec2>): real
    requires |surface| >= 1
  {
    Div(lib, TopPointZ(surface), (params.surfaceSplitsNum + params.internalSplitsNum) as real) *
      params.surfaceSplitsNum as real
  }

  /** The row parameter i / (rows - 1), as a double division. */
  function RowParam(params: STGridParams, lib: Libm, i: int): real
  {
    Div(lib, i as real, params.surfaceSplitsNum as real)
  }

  /** Column 0 of row i: on the axis, at the row's share of the special point. */
  function AxisPoint(params: STGridParams, lib: Libm, surface: seq<Vec2>, i: int): Vec2
    requires |surface| >= 1
  {
    Vec2(0.0, SpecialPointZ(params, lib, surface) * RowParam(params, lib, i))
  }

  /** The surface column of row i: the surface read backwards, so that row 0
      is the equator and the last row the top of the drop. */
  function SurfacePointAt(params: STGridParams, lib: Libm, surface: seq<Vec2>, i: int): Vec2
    requires |surface| >= 1
  {
    MathExt.ParametricPoint(surface, 1.0 - RowParam(params, lib, i))
  }

  /** Row 0 at an internal column j: on the equator, the share j / internal of
      the intersection radius. */
  function FirstRowInternalPoint(params: STGridParams, surface: seq<Vec2>, j: int): Vec2
    requires |surface| >= 1 && 1 <= j < params.internalSplitsNum
  {
    Vec2(IntersectPointR(surface) * (j as real / params.internalSplitsNum as real), 0.0)
  }

  /** The last row at an internal column j: on the axis, from the special
      point up to the top of the drop. */
  function LastRowInternalPoint(params: STGridParams, lib: Libm, surface: seq<Vec2>, j: int): Vec2
    requires |surface| >= 1 && 1 <= j < params.internalSplitsNum
  {
    Vec2(0.0, MathExt.Lerp(SpecialPointZ(params, lib, surface), TopPointZ(surface),
                           j as real / params.internalSplitsNum as real))
  }

  /** Row 0 at an external column j: on the equator, from the intersection
      radius out to `infMultiplier` times it. */
  function FirstRowExternalPoint(params: STGridParams, surface: seq<Vec2>, j: int): Vec2
    requires |surface| >= 1 && params.internalSplitsNum < j <= params.internalSplitsNum + params.externalSplitsNum
  {
    var r := IntersectPointR(surface);
    Vec2(MathExt.Lerp(r, params.infMultiplier * r,
                      (j - params.internalSplitsNum) as real / params.externalSplitsNum as real), 0.0)
  }

  /** The last row at an external column j: on the axis, from the top of the
      drop up to `infMultiplier` times its height. */
  function LastRowExternalPoint(params: STGridParams, surface: seq<Vec2>, j: int): Vec2
    requires |surface| >= 1 && params.internalSplitsNum < j <= params.internalSplitsNum + params.externalSplitsNum
  {
    var z := TopPointZ(surface);
    Vec2(0.0, MathExt.Lerp(z, params.infMultiplier * z,
                           (j - params.internalSplitsNum) as real / params.externalSplitsNum as real))
  }

  class SimpleTriangleGrid {
    const params: STGridParams
    const surfaceColumnIndex: int
    const points: array2<Vec2>

    /** The matrix has (surfaceSplits + 1) rows and (internal + external + 1)
        columns, and the surface column is column `internalSplitsNum`. */
    predicate Valid()
    {
      params.surfaceSplitsNum >= 0 && params.internalSplitsNum >= 0 && params.externalSplitsNum >= 0 &&
      surfaceColumnIndex == params.internalSplitsNum &&
      points.Length0 == params.surfaceSplitsNum + 1 &&
      points.Length1 == params.internalSplitsNum + params.externalSplitsNum + 1
    }

    /** SimpleTriangleGrid(params). */
    constructor(params: STGridParams)
      requires params.surfaceSplitsNum >= 0 && params.internalSplitsNum >= 0 && params.externalSplitsNum >= 0
      ensures Valid() && this.params == params && fresh(points)
    {
      this.params := params;
      surfaceColumnIndex := params.internalSplitsNum;
      points := new Vec2[params.surfaceSplitsNum + 1, params.internalSplitsNum + params.externalSplitsNum + 1]
                        ((_, _) => Vec2(0.0, 0.0));
    }

    /** The three special columns after the row loop of `generate`: the axis,
        the surface and the surface scaled out to the last column. Where the
        columns coincide, the later write wins. */
    predicate ColumnsGenerated(lib: Libm, surface: seq<Vec2>)
      requires Valid() && |surface| >= 1
      reads points
    {
      var surf, maxColumn := surfaceColumnIndex, points.Length1 - 1;
      (surf > 0 ==> forall i :: 0 <= i < points.Length0 ==> points[i, 0] == AxisPoint(params, lib, surface, i)) &&
      (surf < maxColumn ==>
        forall i :: 0 <= i < points.Length0 ==> points[i, surf] == SurfacePointAt(params, lib, surface, i)) &&
      (forall i :: 0 <= i < points.Length0 ==>
        points[i, maxColumn] == Scale(params.infMultiplier, SurfacePointAt(params, lib, surface, i)))
    }

    /** The cells the boundary-row loops of `generate` write: every column of
        row 0 and of the last row except the axis and the surface column. */
    predicate InBoundaryRows(i: int, j: int)
    {
      (i == 0 || i == points.Length0 - 1) && 1 <= j < points.Length1 && j != surfaceColumnIndex
    }

    /** The internal part of the boundary rows. With a single row, the
        last-row values win. */
    predicate InternalBoundaryGenerated(lib: Libm, surface: seq<Vec2>)
      requires Valid() && |surface| >= 1
      reads points
    {
      forall j :: 1 <= j < surfaceColumnIndex ==>
        points[points.Length0 - 1, j] == LastRowInternalPoint(params, lib, surface, j) &&
        (points.Length0 > 1 ==> points[0, j] == FirstRowInternalPoint(params, surface, j))
    }

    /** The external part of the boundary rows, out to the last column. */
    predicate ExternalBoundaryGenerated(surface: seq<Vec2>)
      requires Valid() && |surface| >= 1
      reads points
    {
      forall j :: surfaceColumnIndex < j < points.Length1 ==>
        points[points.Length0 - 1, j] == LastRowExternalPoint(params, surface, j) &&
        (points.Length0 > 1 ==> points[0, j] == FirstRowExternalPoint(params, surface, j))
    }

    /** The boundary rows: row 0 runs along the equator from the axis to the
        surface and on to `infMultiplier` times as far; the last row runs up
        the axis from the special point to the top of the drop and on to
        `infMultiplier` times as high. */
    predicate BoundaryRowsGenerated(lib: Libm, surface: seq<Vec2>)
      requires Valid() && |surface| >= 1
      reads points
    {
      InternalBoundaryGenerated(lib, surface) && ExternalBoundaryGenerated(surface)
    }

    /** The cells the interior-row loops of `generate` write. */
    predicate InInteriorRows(i: int, j: int)
    {
      0 < i < points.Length0 - 1 && 0 < j < points.Length1 - 1 && j != surfaceColumnIndex
    }

    /** Interior rows: internal columns interpolate from the axis to the
        surface, external columns from the surface to the last column. */
    predicate InteriorRowsGenerated()
      requires Valid()
      reads points
    {
      var maxRow, maxColumn, surf := points.Length0 - 1, points.Length1 - 1, surfaceColumnIndex;
      (forall i, j :: 0 < i < maxRow && 1 <= j < surf ==>
        points[i, j] == MathExt.LerpVec(points[i, 0], points[i, surf], j as real / surf as real)) &&
      (forall i, j :: 0 < i < maxRow && surf < j < maxColumn ==>
        points[i, j] == MathExt.LerpVec(points[i, surf], points[i, maxColumn],
                                        (j - surf) as real / params.externalSplitsNum as real))
    }

    /** Every cell holds what `generate` puts there for the surface `surface`:
        the special columns (the last one only off the boundary rows unless
        there are no external columns), the boundary rows and the interior
        rows. These regions cover the matrix, so the grid depends on nothing
        but the surface and the parameters. */
    predicate Generated(lib: Libm, surface: seq<Vec2>)
      requires Valid() && |surface| >= 1
      reads points
    {
      var surf, maxRow, maxColumn := surfaceColumnIndex, points.Length0 - 1, points.Length1 - 1;
      (surf > 0 ==> forall i :: 0 <= i < points.Length0 ==> points[i, 0] == AxisPoint(params, lib, surface, i)) &&
      (surf < maxColumn ==>
        forall i :: 0 <= i < points.Length0 ==> points[i, surf] == SurfacePointAt(params, lib, surface, i)) &&
      (forall i :: 0 <= i < points.Length0 && (0 < i < maxRow || params.externalSplitsNum == 0) ==>
        points[i, maxColumn] == Scale(params.infMultiplier, SurfacePointAt(params, lib, surface, i))) &&
      BoundaryRowsGenerated(lib, surface) &&
      InteriorRowsGenerated()
    }

    /** SimpleTriangleGrid::generate(surfacePoints): the surface must be
        non-empty (its first and last points are read). The row loop, the two
        boundary-row loops and the interior loops are the three steps below. */
    method Generate(lib: Libm, surfacePoints: seq<Vec2>)
      requires Valid() && |surfacePoints| >= 1
      modifies points
      ensures Generated(lib, surfacePoints)
    {
      GenerateColumns(lib, surfacePoints);
      GenerateBoundaryRows(lib, surfacePoints);
      GenerateInteriorRows();
    }

    /** The row loop of `generate`: axis, surface and last column of each row. */
    method GenerateColumns(lib: Libm, surfacePoints: seq<Vec2>)
      requires Valid() && |surfacePoints| >= 1
      modifies points
      ensures ColumnsGenerated(lib, surfacePoints)
    {
      var topPointZ := surfacePoints[0].z;
      var symmetryStep := Div(lib, topPointZ, (params.surfaceSplitsNum + params.internalSplitsNum) as real);
      var specialPointZ := symmetryStep * params.surfaceSplitsNum as real;
      var rowsNum := points.Length0;
      var maxRowIndex := rowsNum - 1;
      var maxColumnIndex := points.Length1 - 1;
      var surf := surfaceColumnIndex;
      ghost var s := surfacePoints;

      var i := 0;
      while i < rowsNum
        invariant 0 <= i <= rowsNum
        invariant surf > 0 ==> forall k :: 0 <= k < i ==> points[k, 0] == AxisPoint(params, lib, s, k)
        invariant surf < maxColumnIndex ==> forall k :: 0 <= k < i ==> points[k, surf] == SurfacePointAt(params, lib, s, k)
        invariant forall k :: 0 <= k < i ==>
          points[k, maxColumnIndex] == Scale(params.infMultiplier, SurfacePointAt(params, lib, s, k))
      {
        var param := Div(lib, i as real, maxRowIndex as real);
        var axisPoint := Vec2(0.0, specialPointZ * param);
        var surfacePoint := MathExt.ParametricPoint(surfacePoints, 1.0 - param);
        RowColumnValues(params, lib, s, i, specialPointZ, param);
        SetRowColumns(i, axisPoint, surfacePoint, Scale(params.infMultiplier, surfacePoint));
        i := i + 1;
      }
    }

    /** One step of the row loop: the axis, surface and last cell of row i, in
        that order of writing. */
    method SetRowColumns(i: int, axisPoint: Vec2, surfacePoint: Vec2, lastPoint: Vec2)
      requires Valid() && 0 <= i < points.Length0
      modifies points
      ensures surfaceColumnIndex > 0 ==> points[i, 0] == axisPoint
      ensures surfaceColumnIndex < points.Length1 - 1 ==> points[i, surfaceColumnIndex] == surfacePoint
      ensures points[i, points.Length1 - 1] == lastPoint
      ensures forall k, l ::
        (0 <= k < points.Length0 && 0 <= l < points.Length1 &&
         (k != i || (l != 0 && l != surfaceColumnIndex && l != points.Length1 - 1))) ==> points[k, l] == old(points[k, l])
    {
      points[i, 0] := axisPoint;
      points[i, surfaceColumnIndex] := surfacePoint;
      points[i, points.Length1 - 1] := lastPoint;
    }

    /** One step of the boundary-row loops: row 0 and then the last row of
        column j. */
    method SetBoundaryCells(j: int, bottomPoint: Vec2, topPoint: Vec2)
      requires Valid() && 0 <= j < points.Length1
      modifies points
      ensures points.Length0 > 1 ==> points[0, j] == bottomPoint
      ensures points[points.Length0 - 1, j] == topPoint
      ensures forall k, l ::
        (0 <= k < points.Length0 && 0 <= l < points.Length1 &&
         (l != j || 0 < k < points.Length0 - 1)) ==> points[k, l] == old(points[k, l])
    {
      points[0, j] := bottomPoint;
      points[points.Length0 - 1, j] := topPoint;
    }

    /** The two boundary-row loops of `generate`: internal columns, then
        external ones (including the last column). */
    method GenerateBoundaryRows(lib: Libm, surfacePoints: seq<Vec2>)
      requires Valid() && |surfacePoints| >= 1
      modifies points
      ensures BoundaryRowsGenerated(lib, surfacePoints)
      ensures forall i, j :: 0 <= i < points.Length0 && 0 <= j < points.Length1 && !InBoundaryRows(i, j) ==>
        points[i, j] == old(points[i, j])
    {
      GenerateInternalBoundary(lib, surfacePoints);
      label Internal:
      GenerateExternalBoundary(surfacePoints);
      forall j | 1 <= j < surfaceColumnIndex
        ensures points[points.Length0 - 1, j] == old@Internal(points[points.Length0 - 1, j])
        ensures points[0, j] == old@Internal(points[0, j])
      {
      }
    }

    /** The first boundary-row loop: columns strictly between the axis and the surface. */
    method GenerateInternalBoundary(lib: Libm, surfacePoints: seq<Vec2>)
      requires Valid() && |surfacePoints| >= 1
      modifies points
      ensures InternalBoundaryGenerated(lib, surfacePoints)
      ensures forall i, j ::
        (0 <= i < points.Length0 && 0 <= j < points.Length1 &&
         !(InBoundaryRows(i, j) && j < surfaceColumnIndex)) ==> points[i, j] == old(points[i, j])
    {
      var topPointZ := surfacePoints[0].z;
      var specialPointZ := SpecialPointZ(params, lib, surfacePoints);
      var intersectPointR := surfacePoints[|surfacePoints| - 1].r;
      var maxRowIndex := points.Length0 - 1;
      var surf := surfaceColumnIndex;
      ghost var s := surfacePoints;

      var j := 1;
      while j < surf
        invariant 1 <= j <= if surf >= 1 then surf else 1
        invariant forall k, l ::
          (0 <= k < points.Length0 && 0 <= l < points.Length1 &&
           !(InBoundaryRows(k, l) && l < j)) ==> points[k, l] == old(points[k, l])
        invariant forall l :: 1 <= l < j ==>
          points[maxRowIndex, l] == LastRowInternalPoint(params, lib, s, l) &&
          (maxRowIndex > 0 ==> points[0, l] == FirstRowInternalPoint(params, s, l))
      {
        var param := j as real / surf as real;
        var bottomPoint := Vec2(intersectPointR * param, 0.0);
        var topPoint := Vec2(0.0, MathExt.Lerp(specialPointZ, topPointZ, param));
        assert bottomPoint == FirstRowInternalPoint(params, s, j);
        assert topPoint == LastRowInternalPoint(params, lib, s, j);
        SetBoundaryCells(j, bottomPoint, topPoint);
        j := j + 1;
      }
    }

    /** The second boundary-row loop: columns past the surface, out to
        `infMultiplier` times the top and the equator radius. */
    method GenerateExternalBoundary(surfacePoints: seq<Vec2>)
      requires Valid() && |surfacePoints| >= 1
      modifies points
      ensures ExternalBoundaryGenerated(surfacePoints)
      ensures forall i, j ::
        (0 <= i < points.Length0 && 0 <= j < points.Length1 &&
         !(InBoundaryRows(i, j) && j > surfaceColumnIndex)) ==> points[i, j] == old(points[i, j])
    {
      var topPointZ := surfacePoints[0].z;
      var intersectPointR := surfacePoints[|surfacePoints| - 1].r;
      var maxRowIndex := points.Length0 - 1;
      var columnsNum := points.Length1;
      var surf := surfaceColumnIndex;
      var infTopPointZ := params.infMultiplier * topPointZ;
      var infIntersectPointR := params.infMultiplier * intersectPointR;
      var infColumnsNum := columnsNum - 1 - surf;
      ghost var s := surfacePoints;

      var j := surf + 1;
      while j < columnsNum
        invariant surf + 1 <= j <= columnsNum
        invariant forall k, l ::
          (0 <= k < points.Length0 && 0 <= l < points.Length1 &&
           !(InBoundaryRows(k, l) && surf < l < j)) ==> points[k, l] == old(points[k, l])
        invariant forall l :: surf < l < j ==>
          points[maxRowIndex, l] == LastRowExternalPoint(params, s, l) &&
          (maxRowIndex > 0 ==> points[0, l] == FirstRowExternalPoint(params, s, l))
      {
        var param := (j - surf) as real / infColumnsNum as real;
        var bottomPoint := Vec2(MathExt.Lerp(intersectPointR, infIntersectPointR, param), 0.0);
        var topPoint := Vec2(0.0, MathExt.Lerp(topPointZ, infTopPointZ, param));
        assert bottomPoint == FirstRowExternalPoint(params, s, j);
        assert topPoint == LastRowExternalPoint(params, s, j);
        SetBoundaryCells(j, bottomPoint, topPoint);
        j := j + 1;
      }
    }

    /** The interior-row loop of `generate`. */
    method GenerateInteriorRows()
      requires Valid()
      modifies points
      ensures InteriorRowsGenerated()
      ensures forall i, j :: 0 <= i < points.Length0 && 0 <= j < points.Length1 && !InInteriorRows(i, j) ==>
        points[i, j] == old(points[i, j])
    {
      var maxRowIndex := points.Length0 - 1;
      var maxColumnIndex := points.Length1 - 1;
      var surf := surfaceColumnIndex;
      var i := 1;
      while i < maxRowIndex
        invariant 1 <= i <= if maxRowIndex >= 1 then maxRowIndex else 1
        invariant forall k, j :: 0 <= k < points.Length0 && 0 <= j < points.Length1 && !(InInteriorRows(k, j) && k < i) ==>
          points[k, j] == old(points[k, j])
        invariant forall k, j :: 0 < k < i && 1 <= j < surf ==>
          points[k, j] == MathExt.LerpVec(points[k, 0], points[k, surf], j as real / surf as real)
        invariant forall k, j :: 0 < k < i && surf < j < maxColumnIndex ==>
          points[k, j] == MathExt.LerpVec(points[k, surf], points[k, maxColumnIndex],
                                          (j - surf) as real / params.externalSplitsNum as real)
      {
        FillInteriorRow(i);
        i := i + 1;
      }
    }

    /** The two inner loops of `generate` for one interior row i. */
    method FillInteriorRow(i: int)
      requires Valid() && 0 < i < points.Length0 - 1
      modifies points
      ensures forall k, j ::
        (0 <= k < points.Length0 && 0 <= j < points.Length1 &&
         (k != i || j == 0 || j == surfaceColumnIndex || j == points.Length1 - 1)) ==> points[k, j] == old(points[k, j])
      ensures forall j :: 1 <= j < surfaceColumnIndex ==>
        points[i, j] == MathExt.LerpVec(points[i, 0], points[i, surfaceColumnIndex], j as real / surfaceColumnIndex as real)
      ensures forall j :: surfaceColumnIndex < j < points.Length1 - 1 ==>
        points[i, j] == MathExt.LerpVec(points[i, surfaceColumnIndex], points[i, points.Length1 - 1],
                                        (j - surfaceColumnIndex) as real / params.externalSplitsNum as real)
    {
      var surf := surfaceColumnIndex;
      var maxColumnIndex := points.Length1 - 1;
      var infColumnsNum := maxColumnIndex - surf;
      var j := 1;
      while j < surf
        invariant 1 <= j <= if surf >= 1 then surf else 1
        invariant forall k, l :: 0 <= k < points.Length0 && 0 <= l < points.Length1 && (k != i || l == 0 || l >= j) ==>
          points[k, l] == old(points[k, l])
        invariant forall l :: 1 <= l < j ==>
          points[i, l] == MathExt.LerpVec(points[i, 0], points[i, surf], l as real / surf as real)
      {
        var param := j as real / surf as real;
        points[i, j] := MathExt.LerpVec(points[i, 0], points[i, surf], param);
        j := j + 1;
      }

      j := surf + 1;
      while j < maxColumnIndex
        invariant surf + 1 <= j <= if surf < maxColumnIndex then maxColumnIndex else surf + 1
        invariant forall k, l ::
          (0 <= k < points.Length0 && 0 <= l < points.Length1 &&
           (k != i || l == 0 || l == surf || l == maxColumnIndex || l >= j)) ==> points[k, l] == old(points[k, l])
        invariant forall l :: 1 <= l < surf ==>
          points[i, l] == MathExt.LerpVec(points[i, 0], points[i, surf], l as real / surf as real)
        invariant forall l :: surf < l < j ==>
          points[i, l] == MathExt.LerpVec(points[i, surf], points[i, maxColumnIndex], (l - surf) as real / infColumnsNum as real)
      {
        var param := (j - surf) as real / infColumnsNum as real;
        points[i, j] := MathExt.LerpVec(points[i, surf], points[i, maxColumnIndex], param);
        j := j + 1;
      }
    }

    /** SimpleTriangleGrid::generate(surfacePointsR, surfacePointsZ): the two
        coordinate arrays must have one length; they are zipped into points
        and the grid is generated from those. */
    method GenerateFromCoordinates(lib: Libm, surfacePointsR: seq<real>, surfacePointsZ: seq<real>)
      requires Valid() && |surfacePointsR| == |surfacePointsZ| >= 1
      modifies points
      ensures Generated(lib, Zip(surfacePointsR, surfacePointsZ))
    {
      var pointsNum := |surfacePointsR|;
      var surfacePoints := new Vec2[pointsNum];
      var i := 0;
      while i < pointsNum
        invariant 0 <= i <= pointsNum
        invariant forall k :: 0 <= k < i ==> surfacePoints[k] == Vec2(surfacePointsR[k], surfacePointsZ[k])
      {
        surfacePoints[i] := Vec2(surfacePointsR[i], surfacePointsZ[i]);
        i := i + 1;
      }
      assert surfacePoints[..] == Zip(surfacePointsR, surfacePointsZ);
      Generate(lib, surfacePoints[..]);
    }
  }

  /** The points with the given coordinates. */
  function Zip(rs: seq<real>, zs: seq<real>): (ps: seq<Vec2>)
    requires |rs| == |zs|
    ensures |ps| == |rs| && forall i :: 0 <= i < |ps| ==> ps[i].r == rs[i] && ps[i].z == zs[i]
  {
    seq(|rs|, i requires 0 <= i < |rs| => Vec2(rs[i], zs[i]))
  }

  /** The row loop of `generate` computes the axis and surface cells of row i
      as AxisPoint and SurfacePointAt state them. */
  lemma RowColumnValues(params: STGridParams, lib: Libm, surface: seq<Vec2>, i: int, specialZ: real, param: real)
    requires |surface| >= 1
    requires specialZ == Div(lib, TopPointZ(surface), (params.surfaceSplitsNum + params.internalSplitsNum) as real) *
                         params.surfaceSplitsNum as real
    requires param == Div(lib, i as real, params.surfaceSplitsNum as real)
    ensures Vec2(0.0, specialZ * param) == AxisPoint(params, lib, surface, i)
    ensures MathExt.ParametricPoint(surface, 1.0 - param) == SurfacePointAt(params, lib, surface, i)
  {
  }

  /** The surface column starts at the equator (the last surface point, on
      row 0) and ends at the top of the drop (surface point 0, on the last
      row). */
  lemma SurfaceColumnEnds(params: STGridParams, lib: Libm, surface: seq<Vec2>)
    requires |surface| >= 1 && params.surfaceSplitsNum >= 1
    ensures SurfacePointAt(params, lib, surface, 0) == surface[|surface| - 1]
    ensures SurfacePointAt(params, lib, surface, params.surfaceSplitsNum) == surface[0]
  {
    assert RowParam(params, lib, 0) == 0.0;
    assert RowParam(params, lib, params.surfaceSplitsNum) == 1.0;
    MathExt.ParametricPointEnds(surface);
  }

  /** The axis column runs from the origin (row 0) to the special point (last
      row), where the last row's internal part starts. */
  lemma AxisColumnEnds(params: STGridParams, lib: Libm, surface: seq<Vec2>)
    requires |surface| >= 1 && params.surfaceSplitsNum >= 1
    ensures AxisPoint(params, lib, surface, 0) == Vec2(0.0, 0.0)
    ensures AxisPoint(params, lib, surface, params.surfaceSplitsNum) == Vec2(0.0, SpecialPointZ(params, lib, surface))
  {
  }
}
