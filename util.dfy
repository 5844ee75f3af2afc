/** The numeric helpers of util.h: the running-maximum norm, linear
    interpolation, successive relaxation on raw buffers, the signed double
    triangle area and parametric lookup along a polyline. */
module Util {
  import opened Numerics

  /** `|a - b|` for one buffer position. */
  function Gap(a: real, b: real): real { Abs(a - b) }

  /** util.h `norm(next, prev, size)`: the largest |next[i] - prev[i]| over the
      first `size` entries, or negative infinity when there are none. */
  method Norm(next: array<real>, prev: array<real>, size: int) returns (m: ExtReal)
    requires 0 <= size <= next.Length && size <= prev.Length
    ensures m == NegInfinity <==> size == 0
    ensures m.Finite? ==> forall i :: 0 <= i < size ==> Gap(next[i], prev[i]) <= m.value
    ensures m.Finite? ==> exists i :: 0 <= i < size && Gap(next[i], prev[i]) == m.value
  {
    m := NegInfinity;
    var i := 0;
    while i < size
      invariant 0 <= i <= size
      invariant m == NegInfinity <==> i == 0
      invariant m.Finite? ==> forall k :: 0 <= k < i ==> Gap(next[k], prev[k]) <= m.value
      invariant m.Finite? ==> exists k :: 0 <= k < i && Gap(next[k], prev[k]) == m.value
    {
      var tmp := Gap(next[i], prev[i]);
      if m == NegInfinity || tmp > m.value {
        m := Finite(tmp);
      }
      i := i + 1;
    }
  }

  /** util.h `norm(next, prev, linesNum, columnsNum)`: the same running maximum
      over the leading `linesNum` x `columnsNum` block of two matrices. */
  method Norm2(next: array2<real>, prev: array2<real>, linesNum: int, columnsNum: int) returns (m: ExtReal)
    requires 0 <= linesNum <= next.Length0 && linesNum <= prev.Length0
    requires 0 <= columnsNum <= next.Length1 && columnsNum <= prev.Length1
    ensures m == NegInfinity <==> linesNum == 0 || columnsNum == 0
    ensures m.Finite? ==> forall i, j :: 0 <= i < linesNum && 0 <= j < columnsNum ==> Gap(next[i, j], prev[i, j]) <= m.value
    ensures m.Finite? ==> exists i, j :: 0 <= i < linesNum && 0 <= j < columnsNum && Gap(next[i, j], prev[i, j]) == m.value
  {
    m := NegInfinity;
    var i := 0;
    while i < linesNum
      invariant 0 <= i <= linesNum
      invariant m == NegInfinity <==> i == 0 || columnsNum == 0
      invariant m.Finite? ==> forall a, b :: 0 <= a < i && 0 <= b < columnsNum ==> Gap(next[a, b], prev[a, b]) <= m.value
      invariant m.Finite? ==> exists a, b :: 0 <= a < i && 0 <= b < columnsNum && Gap(next[a, b], prev[a, b]) == m.value
    {
      var j := 0;
      while j < columnsNum
        invariant 0 <= j <= columnsNum
        invariant m == NegInfinity <==> (i == 0 && j == 0) || columnsNum == 0
        invariant m.Finite? ==> forall a, b :: ((0 <= a < i && 0 <= b < columnsNum) || (a == i && 0 <= b < j)) ==> Gap(next[a, b], prev[a, b]) <= m.value
        invariant m.Finite? ==> exists a, b :: ((0 <= a < i && 0 <= b < columnsNum) || (a == i && 0 <= b < j)) && Gap(next[a, b], prev[a, b]) == m.value
      {
        var tmp := Gap(next[i, j], prev[i, j]);
        if m == NegInfinity || tmp > m.value {
          m := Finite(tmp);
        }
        j := j + 1;
      }
      i := i + 1;
    }
  }

  /** util.h `calcLerp` on doubles. */
  function CalcLerp(begin: real, end: real, param: real): (v: real)
    ensures param == 0.0 ==> v == begin
    ensures param == 1.0 ==> v == end
    ensures begin == end ==> v == begin
  {
    begin + param * (end - begin)
  }

  /** util.h `calcLerp` on Vector2: the double version applied to r and to z. */
  function CalcLerpVec(begin: Vec2, end: Vec2, param: real): (v: Vec2)
    ensures v.r == CalcLerp(begin.r, end.r, param) && v.z == CalcLerp(begin.z, end.z, param)
    ensures param == 0.0 ==> v == begin
    ensures param == 1.0 ==> v == end
  {
    Vec2(CalcLerp(begin.r, end.r, param), CalcLerp(begin.z, end.z, param))
  }

  /** util.h `relaxation` on a raw buffer: each of the first `size` entries of
      `nextApprox` becomes the lerp from `curApprox` towards it. */
  method Relaxation(nextApprox: array<real>, curApprox: array<real>, size: int, relaxationCoef: real)
    requires 0 <= size <= nextApprox.Length && size <= curApprox.Length
    modifies nextApprox
    ensures forall i :: 0 <= i < size ==> nextApprox[i] == CalcLerp(old(curApprox[i]), old(nextApprox[i]), relaxationCoef)
    ensures forall i :: size <= i < nextApprox.Length ==> nextApprox[i] == old(nextApprox[i])
    ensures nextApprox != curApprox ==> curApprox[..] == old(curApprox[..])
    ensures relaxationCoef == 1.0 ==> nextApprox[..] == old(nextApprox[..])
  {
    var i := 0;
    while i < size
      invariant 0 <= i <= size
      invariant forall k :: 0 <= k < i ==> nextApprox[k] == CalcLerp(old(curApprox[k]), old(nextApprox[k]), relaxationCoef)
      invariant forall k :: i <= k < nextApprox.Length ==> nextApprox[k] == old(nextApprox[k])
      invariant forall k :: i <= k < curApprox.Length ==> curApprox[k] == old(curApprox[k])
      invariant nextApprox != curApprox ==> curApprox[..] == old(curApprox[..])
    {
      nextApprox[i] := CalcLerp(curApprox[i], nextApprox[i], relaxationCoef);
      i := i + 1;
    }
    if relaxationCoef == 1.0 {
      assert forall k :: 0 <= k < nextApprox.Length ==> nextApprox[k] == old(nextApprox[k]);
    }
  }

  /** util.h `relaxation` on a matrix: the same rule on the leading
      `linesNum` x `columnsNum` block, row by row. */
  method Relaxation2(nextApprox: array2<real>, curApprox: array2<real>, linesNum: int, columnsNum: int, relaxationCoef: real)
    requires 0 <= linesNum <= nextApprox.Length0 && linesNum <= curApprox.Length0
    requires 0 <= columnsNum <= nextApprox.Length1 && columnsNum <= curApprox.Length1
    requires nextApprox != curApprox
    modifies nextApprox
    ensures forall i, j :: 0 <= i < linesNum && 0 <= j < columnsNum ==>
      nextApprox[i, j] == CalcLerp(curApprox[i, j], old(nextApprox[i, j]), relaxationCoef)
    ensures forall i, j :: 0 <= i < nextApprox.Length0 && 0 <= j < nextApprox.Length1 && !(i < linesNum && j < columnsNum) ==>
      nextApprox[i, j] == old(nextApprox[i, j])
  {
    var i := 0;
    while i < linesNum
      invariant 0 <= i <= linesNum
      invariant forall a, b :: 0 <= a < i && 0 <= b < columnsNum ==>
        nextApprox[a, b] == CalcLerp(curApprox[a, b], old(nextApprox[a, b]), relaxationCoef)
      invariant forall a, b :: 0 <= a < nextApprox.Length0 && 0 <= b < nextApprox.Length1 && !(a < i && b < columnsNum) ==>
        nextApprox[a, b] == old(nextApprox[a, b])
    {
      var j := 0;
      while j < columnsNum
        invariant 0 <= j <= columnsNum
        invariant forall a, b :: ((0 <= a < i && 0 <= b < columnsNum) || (a == i && 0 <= b < j)) ==>
          nextApprox[a, b] == CalcLerp(curApprox[a, b], old(nextApprox[a, b]), relaxationCoef)
        invariant forall a, b :: (0 <= a < nextApprox.Length0 && 0 <= b < nextApprox.Length1 &&
          !((a < i && b < columnsNum) || (a == i && b < j))) ==> nextApprox[a, b] == old(nextApprox[a, b])
      {
        nextApprox[i, j] := CalcLerp(curApprox[i, j], nextApprox[i, j], relaxationCoef);
        j := j + 1;
      }
      i := i + 1;
    }
  }

  /** util.h `calcDoubleTriangleArea`: twice the signed area of the triangle. */
  function CalcDoubleTriangleArea(vert1: Vec2, vert2: Vec2, vert3: Vec2): (a: real)
    ensures vert1 == vert2 || vert2 == vert3 || vert1 == vert3 ==> a == 0.0
  {
    (vert1.r - vert2.r) * (vert3.z - vert2.z) - (vert3.r - vert2.r) * (vert1.z - vert2.z)
  }

  /** Exchanging the first and the third vertex reverses the orientation. */
  lemma DoubleTriangleAreaAntisymmetric(vert1: Vec2, vert2: Vec2, vert3: Vec2)
    ensures CalcDoubleTriangleArea(vert3, vert2, vert1) == -CalcDoubleTriangleArea(vert1, vert2, vert3)
  {
  }

  /** The bracketing index pair of util.h `calcParametricPoint`, after clamping. */
  function ParametricIndices(pointsNum: int, param: real): (ix: (int, int))
    requires pointsNum >= 1
    ensures 0 <= ix.0 <= pointsNum - 1 && 0 <= ix.1 <= pointsNum - 1
    ensures ix.1 == ix.0 || ix.1 == ix.0 + 1
  {
    ClampedBracket(pointsNum, Trunc((pointsNum - 1) as real * param))
  }

  /** The clamping of `calcParametricPoint`: the pair (prev, prev + 1) is pulled
      back onto the last point when prev reaches it, then both are floored at 0. */
  function ClampedBracket(pointsNum: int, prev0: int): (ix: (int, int))
    requires pointsNum >= 1
    ensures 0 <= ix.0 <= pointsNum - 1 && 0 <= ix.1 <= pointsNum - 1
    ensures ix.1 == ix.0 || ix.1 == ix.0 + 1
    ensures prev0 >= pointsNum - 1 ==> ix == (pointsNum - 1, pointsNum - 1)
    ensures 0 <= prev0 < pointsNum - 1 ==> ix == (prev0, prev0 + 1)
  {
    var next0 := prev0 + 1;
    var prev1 := if prev0 >= pointsNum - 1 then pointsNum - 1 else prev0;
    var next1 := if prev0 >= pointsNum - 1 then prev1 else next0;
    var prev2 := if prev1 < 0 then 0 else prev1;
    var next2 := if next1 < 0 then 0 else next1;
    (prev2, next2)
  }

  /** util.h `calcParametricPoint`: the point at `param` along the polyline of the
      first `pointsNum` points, parameterised uniformly over [0, 1]. */
  function CalcParametricPoint(linePoints: seq<Vec2>, pointsNum: int, param: real): (p: Vec2)
    requires 1 <= pointsNum <= |linePoints|
    ensures param == 0.0 ==> p == linePoints[0]
    ensures param >= 1.0 ==> p == linePoints[pointsNum - 1]
    ensures 0.0 <= param < 1.0 && pointsNum >= 2 ==>
      var k := ((pointsNum - 1) as real * param).Floor;
      0 <= k < pointsNum - 1 &&
      p == CalcLerpVec(linePoints[k], linePoints[k + 1], (pointsNum - 1) as real * param - k as real)
  {
    var ix := ParametricIndices(pointsNum, param);
    if ix.0 == ix.1 then
      linePoints[ix.0]
    else
      var prevParam := ix.0 as real / (pointsNum - 1) as real;
      var nextParam := ix.1 as real / (pointsNum - 1) as real;
      LocalParamStep(ix.0, pointsNum, param);
      var localParam := (param - prevParam) / (nextParam - prevParam);
      var p := CalcLerpVec(linePoints[ix.0], linePoints[ix.1], localParam);
      ParametricBracket(pointsNum, param);
      p
  }

  /** With a bracket (k, k + 1), the local parameter of the source is
      param * (n - 1) - k. */
  lemma LocalParamStep(k: int, pointsNum: int, param: real)
    requires pointsNum >= 2
    ensures (k + 1) as real / (pointsNum - 1) as real - k as real / (pointsNum - 1) as real != 0.0
    ensures (param - k as real / (pointsNum - 1) as real) /
            ((k + 1) as real / (pointsNum - 1) as real - k as real / (pointsNum - 1) as real)
            == (pointsNum - 1) as real * param - k as real
  {
    var m := (pointsNum - 1) as real;
    assert (k + 1) as real / m - k as real / m == 1.0 / m;
    calc {
      (param - k as real / m) / (1.0 / m);
      (param - k as real / m) * m;
      m * param - k as real;
    }
  }

  /** Where the clamped indices land for the interesting parameter ranges. */
  lemma ParametricBracket(pointsNum: int, param: real)
    requires pointsNum >= 1
    ensures param == 0.0 ==> ParametricIndices(pointsNum, param) == (0, if pointsNum == 1 then 0 else 1)
    ensures param >= 1.0 ==> ParametricIndices(pointsNum, param) == (pointsNum - 1, pointsNum - 1)
    ensures 0.0 <= param < 1.0 && pointsNum >= 2 ==>
      var k := ((pointsNum - 1) as real * param).Floor;
      0 <= k < pointsNum - 1 && ParametricIndices(pointsNum, param) == (k, k + 1)
  {
    if param == 0.0 {
      BracketAtStart(pointsNum);
    } else if param >= 1.0 {
      BracketPastEnd(pointsNum, param);
    } else if 0.0 <= param < 1.0 && pointsNum >= 2 {
      BracketInside(pointsNum, param);
    }
  }

  /** At parameter 0 the bracket is the first segment (or the single point). */
  lemma BracketAtStart(pointsNum: int)
    requires pointsNum >= 1
    ensures ParametricIndices(pointsNum, 0.0) == (0, if pointsNum == 1 then 0 else 1)
  {
    var x := (pointsNum - 1) as real * 0.0;
    assert x == 0.0;
    ScaledBracket(pointsNum, x);
  }

  /** From parameter 1 on, both indices are clamped to the last point. */
  lemma BracketPastEnd(pointsNum: int, param: real)
    requires pointsNum >= 1 && param >= 1.0
    ensures ParametricIndices(pointsNum, param) == (pointsNum - 1, pointsNum - 1)
  {
    var x := (pointsNum - 1) as real * param;
    assert ParametricIndices(pointsNum, param) == ClampedBracket(pointsNum, Trunc(x));
    ScaledRange((pointsNum - 1) as real, param, x);
    ScaledBracket(pointsNum, x);
  }

  /** Inside [0, 1) the bracket is the segment holding the scaled parameter. */
  lemma BracketInside(pointsNum: int, param: real)
    requires pointsNum >= 2 && 0.0 <= param < 1.0
    ensures var k := ((pointsNum - 1) as real * param).Floor;
      0 <= k < pointsNum - 1 && ParametricIndices(pointsNum, param) == (k, k + 1)
  {
    var x := (pointsNum - 1) as real * param;
    assert ParametricIndices(pointsNum, param) == ClampedBracket(pointsNum, Trunc(x));
    ScaledRange((pointsNum - 1) as real, param, x);
    ScaledBracket(pointsNum, x);
  }

  /** The clamped bracket of a scaled parameter x = (pointsNum - 1) * param. */
  lemma ScaledBracket(pointsNum: int, x: real)
    requires pointsNum >= 1
    ensures x == 0.0 ==> ClampedBracket(pointsNum, Trunc(x)) == (0, if pointsNum == 1 then 0 else 1)
    ensures x >= (pointsNum - 1) as real ==> ClampedBracket(pointsNum, Trunc(x)) == (pointsNum - 1, pointsNum - 1)
    ensures 0.0 <= x < (pointsNum - 1) as real ==>
      0 <= x.Floor < pointsNum - 1 && ClampedBracket(pointsNum, Trunc(x)) == (x.Floor, x.Floor + 1)
  {
  }

  /** Where x = m * param lies for a parameter at 0, past 1 or inside [0, 1). */
  lemma ScaledRange(m: real, param: real, x: real)
    requires m >= 0.0 && x == m * param
    ensures param >= 1.0 ==> x >= m
    ensures 0.0 <= param < 1.0 && m > 0.0 ==> 0.0 <= x < m
  {
    if param >= 1.0 {
      ProductSign(m, param - 1.0);
      assert x - m == m * (param - 1.0);
    } else if 0.0 <= param && m > 0.0 {
      ProductSign(m, param);
      ProductSign(m, 1.0 - param);
      assert m - x == m * (1.0 - param);
    }
  }

  /** Products of non-negative factors are non-negative, and positive when
      both factors are. */
  lemma ProductSign(a: real, b: real)
    requires a >= 0.0 && b >= 0.0
    ensures a * b >= 0.0
    ensures a > 0.0 && b > 0.0 ==> a * b > 0.0
  {
  }
}
