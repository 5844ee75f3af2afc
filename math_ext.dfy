/** The templated helpers of math_ext.h over Array and Matrix: lerp,
    whole-container relaxation, the double triangle area and parametric lookup.
    They agree with the raw-buffer versions of util.h, which is proved here. */
module MathExt {
  import opened Numerics
  import Util

  /** math_ext.h `lerp` for doubles. */
  function Lerp(start: real, end: real, param: real): (v: real)
    ensures v == Util.CalcLerp(start, end, param)
    ensures param == 0.0 ==> v == start
    ensures param == 1.0 ==> v == end
  {
    start + param * (end - start)
  }

  /** math_ext.h `lerp` for Vector2 (the arithmetic is componentwise). */
  function LerpVec(start: Vec2, end: Vec2, param: real): (v: Vec2)
    ensures v == Util.CalcLerpVec(start, end, param)
  {
    Add(start, Scale(param, Sub(end, start)))
  }

  /** math_ext.h `relaxation` on an Array: the sizes must agree, and every
      entry of `nextApprox` moves from `curApprox` towards its own value. */
  method Relaxation(nextApprox: array<real>, curApprox: array<real>, relaxationCoef: real)
    requires nextApprox.Length == curApprox.Length
    requires nextApprox != curApprox
    modifies nextApprox
    ensures forall i :: 0 <= i < nextApprox.Length ==>
      nextApprox[i] == Lerp(curApprox[i], old(nextApprox[i]), relaxationCoef)
  {
    var i := 0;
    while i < nextApprox.Length
      invariant 0 <= i <= nextApprox.Length
      invariant forall k :: 0 <= k < i ==> nextApprox[k] == Lerp(curApprox[k], old(nextApprox[k]), relaxationCoef)
      invariant forall k :: i <= k < nextApprox.Length ==> nextApprox[k] == old(nextApprox[k])
    {
      nextApprox[i] := Lerp(curApprox[i], nextApprox[i], relaxationCoef);
      i := i + 1;
    }
  }

  /** math_ext.h `relaxation` on a Matrix: dimensions must agree; the loop runs
      over the row-major raw index (tracked here as a row and a column), and
      every element is relaxed exactly once. */
  method RelaxationMatrix(nextApprox: array2<real>, curApprox: array2<real>, relaxationCoef: real)
    requires nextApprox.Length0 == curApprox.Length0 && nextApprox.Length1 == curApprox.Length1
    requires nextApprox != curApprox
    modifies nextApprox
    ensures forall i, j :: 0 <= i < nextApprox.Length0 && 0 <= j < nextApprox.Length1 ==>
      nextApprox[i, j] == Lerp(curApprox[i, j], old(nextApprox[i, j]), relaxationCoef)
  {
    var rowsNum, columnsNum := nextApprox.Length0, nextApprox.Length1;
    if columnsNum == 0 {
      return;
    }
    var elementsNum := rowsNum * columnsNum;
    var rawIndex, row, column := 0, 0, 0;
    while rawIndex < elementsNum
      invariant 0 <= row && 0 <= column < columnsNum
      invariant rawIndex == row * columnsNum + column && rawIndex <= elementsNum
      invariant forall i, j :: 0 <= i < rowsNum && 0 <= j < columnsNum && (i < row || (i == row && j < column)) ==>
        nextApprox[i, j] == Lerp(curApprox[i, j], old(nextApprox[i, j]), relaxationCoef)
      invariant forall i, j :: 0 <= i < rowsNum && 0 <= j < columnsNum && !(i < row || (i == row && j < column)) ==>
        nextApprox[i, j] == old(nextApprox[i, j])
    {
      RowBelow(row, column, rowsNum, columnsNum);
      nextApprox[row, column] := Lerp(curApprox[row, column], nextApprox[row, column], relaxationCoef);
      rawIndex := rawIndex + 1;
      if column + 1 == columnsNum {
        row, column := row + 1, 0;
      } else {
        column := column + 1;
      }
    }
    RowsDone(row, column, rowsNum, columnsNum);
  }

  /** A raw index below rowsNum * columnsNum lies in a row below rowsNum. */
  lemma RowBelow(row: int, column: int, rowsNum: int, columnsNum: int)
    requires 0 <= row && 0 <= column < columnsNum
    requires row * columnsNum + column < rowsNum * columnsNum
    ensures row < rowsNum
  {
    assert (rowsNum - row) * columnsNum > column;
    MultipleBounds(rowsNum - row, columnsNum);
  }

  /** The raw index rowsNum * columnsNum is the first position past the last row. */
  lemma RowsDone(row: int, column: int, rowsNum: int, columnsNum: int)
    requires 0 <= row && 0 <= column < columnsNum
    requires row * columnsNum + column == rowsNum * columnsNum
    ensures row == rowsNum && column == 0
  {
    assert (rowsNum - row) * columnsNum == column;
    MultipleBounds(rowsNum - row, columnsNum);
  }

  /** math_ext.h `doubleTriangleArea`, written over x and y; it is the util.h
      formula under the names r and z. */
  function DoubleTriangleArea(vert1: Vec2, vert2: Vec2, vert3: Vec2): (a: real)
    ensures a == Util.CalcDoubleTriangleArea(vert1, vert2, vert3)
  {
    (vert1.r - vert2.r) * (vert3.z - vert2.z) - (vert3.r - vert2.r) * (vert1.z - vert2.z)
  }

  /** math_ext.h `parametric_point` on an Array of points. The points must be
      non-empty (an empty Array would index element 0). */
  function ParametricPoint(points: seq<Vec2>, param: real): (p: Vec2)
    requires |points| >= 1
    ensures var (prevIndex, nextIndex) := Util.ParametricIndices(|points|, param);
      p == if prevIndex == nextIndex then points[prevIndex]
           else Util.CalcLerpVec(points[prevIndex], points[nextIndex], (|points| - 1) as real * param - prevIndex as real)
  {
    var maxIndex := |points| - 1;
    var (prevIndex, nextIndex) := Util.ParametricIndices(|points|, param);
    if prevIndex == nextIndex then
      points[prevIndex]
    else
      var prevParam := prevIndex as real / maxIndex as real;
      var nextParam := nextIndex as real / maxIndex as real;
      Util.LocalParamStep(prevIndex, |points|, param);
      var localParam := (param - prevParam) / (nextParam - prevParam);
      Util.CalcLerpVec(points[prevIndex], points[nextIndex], localParam)
  }

  /** `parametric_point` takes the same clamped bracket and local parameter as
      util.h `calcParametricPoint` over the whole array. */
  lemma ParametricPointAgrees(points: seq<Vec2>, param: real)
    requires |points| >= 1
    ensures ParametricPoint(points, param) == Util.CalcParametricPoint(points, |points|, param)
  {
  }

  /** `parametric_point` starts at the first point and stays at the last one
      from parameter 1 on. */
  lemma ParametricPointEnds(points: seq<Vec2>)
    requires |points| >= 1
    ensures ParametricPoint(points, 0.0) == points[0]
    ensures forall param :: param >= 1.0 ==> ParametricPoint(points, param) == points[|points| - 1]
  {
    Util.BracketAtStart(|points|);
    forall param | param >= 1.0
      ensures ParametricPoint(points, param) == points[|points| - 1]
    {
      Util.BracketPastEnd(|points|, param);
    }
  }
}
