/** BezierCurve.cpp: a Bezier curve over control points P(0) .. P(n-1), with the
    binomial coefficients C(n-1, i) computed once by the constructor and the
    curve evaluated in Bernstein form. */
module Bezier {
  import opened Numerics

  /** The binomial coefficient C(n, k) by Pascal's rule; zero when k > n. */
  function Binomial(n: nat, k: nat): nat
  {
    if k == 0 then 1 else if n == 0 then 0 else Binomial(n - 1, k - 1) + Binomial(n - 1, k)
  }

  /** C(n, n) == 1 and C(n, k) == 0 beyond the last index. */
  lemma {:induction false} BinomialEdges(n: nat, k: nat)
    ensures k > n ==> Binomial(n, k) == 0
    ensures k == n ==> Binomial(n, k) == 1
  {
    if n > 0 && k > 0 {
      BinomialEdges(n - 1, k - 1);
      BinomialEdges(n - 1, k);
    }
  }

  /** The arithmetic of one induction step of Absorption, over plain integers. */
  lemma AbsorptionAlgebra(n: int, k: int, a: int, b: int, c: int, d: int)
    requires a == c + d && k * b == (n - 1) * d && (k - 1) * a == (n - 1) * c
    ensures k * (a + b) == n * a
  {
    calc {
      k * (a + b);
      (k - 1) * a + a + k * b;
      (n - 1) * c + a + (n - 1) * d;
      (n - 1) * (c + d) + a;
    }
  }

  /** The absorption identity k * C(n, k) == n * C(n-1, k-1). */
  lemma {:induction false} Absorption(n: nat, k: nat)
    requires n >= 1 && k >= 1
    ensures k * Binomial(n, k) == n * Binomial(n - 1, k - 1)
  {
    if n == 1 {
      if k >= 2 {
        BinomialEdges(0, k - 1);
        BinomialEdges(0, k);
      }
    } else if k == 1 {
      Absorption(n - 1, 1);
    } else {
      Absorption(n - 1, k);
      Absorption(n - 1, k - 1);
      AbsorptionAlgebra(n, k, Binomial(n - 1, k - 1), Binomial(n - 1, k), Binomial(n - 2, k - 2), Binomial(n - 2, k - 1));
    }
  }

  /** The arithmetic of CoefficientStep, over plain integers. */
  lemma CoefficientAlgebra(n: int, i: int, p: int, q: int, r: int)
    requires i * q == n * r && (i - 1) * p == n * (p - r)
    ensures p * (n - i + 1) == i * q
  {
    calc {
      p * (n - i + 1);
      n * p - (i - 1) * p;
      n * p - n * (p - r);
      n * r;
    }
  }

  /** The step of the first coefficient loop divides exactly:
      C(n, i-1) * (n - i + 1) == i * C(n, i). */
  lemma CoefficientStep(n: nat, i: nat)
    requires 1 <= i <= n
    ensures Binomial(n, i - 1) * (n - i + 1) == i * Binomial(n, i)
  {
    Absorption(n, i);
    if i >= 2 {
      Absorption(n, i - 1);
      assert Binomial(n - 1, i - 2) == Binomial(n, i - 1) - Binomial(n - 1, i - 1);
    }
    CoefficientAlgebra(n, i, Binomial(n, i - 1), Binomial(n, i), Binomial(n - 1, i - 1));
  }

  /** An exact quotient: C integer division of d * q by d gives q back. */
  lemma ExactQuotient(p: int, d: int, q: int)
    requires d > 0 && p == d * q
    ensures p / d == q
  {
    var r := p / d;
    assert (q - r) * d == p % d;
    MultipleBounds(q - r, d);
  }

  /** Pascal's triangle is symmetric: C(n, k) == C(n, n - k). */
  lemma {:induction false} BinomialSymmetric(n: nat, k: nat)
    requires k <= n
    ensures Binomial(n, k) == Binomial(n, n - k)
  {
    BinomialEdges(n, n);
    if 0 < k < n {
      BinomialSymmetric(n - 1, k - 1);
      BinomialSymmetric(n - 1, k);
      assert Binomial(n, n - k) == Binomial(n - 1, n - k - 1) + Binomial(n - 1, n - k);
    }
  }

  /** x to the power k, multiplied up one factor at a time as `evaluate` does. */
  function Power(x: real, k: nat): real
  {
    if k == 0 then 1.0 else Power(x, k - 1) * x
  }

  /** `first` multiplied k times by `factor`, as `evaluate` updates its
      running power of 1 - param. */
  function Seeded(first: real, factor: real, k: nat): real
  {
    if k == 0 then first else Seeded(first, factor, k - 1) * factor
  }

  /** Multiplying x^m k times by 1/x removes k factors. */
  lemma {:induction false} SeededQuotient(x: real, m: nat, k: nat)
    requires x != 0.0 && k <= m
    ensures Seeded(Power(x, m), 1.0 / x, k) == Power(x, m - k)
  {
    if k > 0 {
      SeededQuotient(x, m, k - 1);
      assert Power(x, m - k + 1) == Power(x, m - k) * x;
    }
  }

  /** One is a fixed point of every power; zero is one for every positive one. */
  lemma {:induction false} PowerOfUnitAndZero(k: nat)
    ensures Power(1.0, k) == 1.0
    ensures k > 0 ==> Power(0.0, k) == 0.0
  {
    if k > 0 {
      PowerOfUnitAndZero(k - 1);
    }
  }

  /** A control point weighted by a coefficient and two powers. */
  function Weighted(coefficient: real, tPower: real, restPower: real, point: Vec2): Vec2
  {
    Scale(coefficient * tPower * restPower, point)
  }

  /** Term i of the Bernstein form: C(n-1, i) t^i (1-t)^(n-1-i) P(i). */
  function BernsteinTerm(points: seq<Vec2>, t: real, i: nat): Vec2
    requires i < |points|
  {
    Weighted(Binomial(|points| - 1, i) as real, Power(t, i), Power(1.0 - t, |points| - 1 - i), points[i])
  }

  /** The sum of the first `count` Bernstein terms; the curve point is
      BernsteinSum(points, t, |points|). */
  function BernsteinSum(points: seq<Vec2>, t: real, count: nat): Vec2
    requires count <= |points|
  {
    if count == 0 then Vec2(0.0, 0.0) else Add(BernsteinSum(points, t, count - 1), BernsteinTerm(points, t, count - 1))
  }

  /** The partial sum `evaluate` has accumulated after `count` iterations, with
      coefficients `coefficients`, `first` the value it took for (1-t)^(n-1)
      and `inv` the value it took for 1/(1-t). */
  function EvaluatedSum(points: seq<Vec2>, coefficients: seq<int>, t: real, first: real, inv: real, count: nat): Vec2
    requires count <= |points| == |coefficients|
  {
    if count == 0 then Vec2(0.0, 0.0)
    else
      Add(EvaluatedSum(points, coefficients, t, first, inv, count - 1),
          Weighted(coefficients[count - 1] as real, Power(t, count - 1), Seeded(first, inv, count - 1), points[count - 1]))
  }

  /** With the binomial coefficients and the exact values of (1-t)^(n-1) and
      1/(1-t), the loop of `evaluate` computes the Bernstein form. */
  lemma {:induction false} EvaluatedSumIsBernstein(points: seq<Vec2>, coefficients: seq<int>, t: real, count: nat)
    requires t != 1.0 && count <= |points| == |coefficients| && |points| >= 1
    requires forall i :: 0 <= i < |coefficients| ==> coefficients[i] == Binomial(|points| - 1, i)
    ensures EvaluatedSum(points, coefficients, t, Power(1.0 - t, |points| - 1), 1.0 / (1.0 - t), count)
         == BernsteinSum(points, t, count)
  {
    if count > 0 {
      EvaluatedSumIsBernstein(points, coefficients, t, count - 1);
      SeededQuotient(1.0 - t, |points| - 1, count - 1);
    }
  }

  /** The curve starts at its first control point: all terms but the first
      vanish at t = 0. */
  lemma {:induction false} BernsteinAtZero(points: seq<Vec2>, count: nat)
    requires 1 <= count <= |points|
    ensures BernsteinSum(points, 0.0, count) == points[0]
  {
    if count == 1 {
      PowerOfUnitAndZero(|points| - 1);
    } else {
      BernsteinAtZero(points, count - 1);
      PowerOfUnitAndZero(count - 1);
    }
  }

  /** What the sum `evaluate` accumulates means, given what pow returned: the
      Bernstein form whenever pow is exact and t is not 1, and the first
      control point at t = 0. */
  lemma EvaluatedSumMeaning(points: seq<Vec2>, coefficients: seq<int>, lib: Libm, t: real)
    requires |points| >= 1 && |coefficients| == |points|
    requires forall i :: 0 <= i < |coefficients| ==> coefficients[i] == Binomial(|points| - 1, i)
    ensures var sum := EvaluatedSum(points, coefficients, t, lib.pow(1.0 - t, (|points| - 1) as real),
                                    Div(lib, 1.0, 1.0 - t), |points|);
      (t != 1.0 && lib.pow(1.0 - t, (|points| - 1) as real) == Power(1.0 - t, |points| - 1) ==>
         sum == BernsteinSum(points, t, |points|)) &&
      (t == 0.0 && lib.pow(1.0, (|points| - 1) as real) == 1.0 ==> sum == points[0])
  {
    if t != 1.0 && lib.pow(1.0 - t, (|points| - 1) as real) == Power(1.0 - t, |points| - 1) {
      EvaluatedSumIsBernstein(points, coefficients, t, |points|);
    }
    if t == 0.0 && lib.pow(1.0, (|points| - 1) as real) == 1.0 {
      PowerOfUnitAndZero(|points| - 1);
      EvaluatedSumIsBernstein(points, coefficients, t, |points|);
      BernsteinAtZero(points, |points|);
    }
  }

  class BezierCurve {
    const points: seq<Vec2>
    const coefficients: array<int>

    /** The coefficient table holds C(n-1, i) for the n control points. */
    predicate Valid()
      reads coefficients
    {
      |points| >= 1 && coefficients.Length == |points| &&
      forall i :: 0 <= i < coefficients.Length ==> coefficients[i] == Binomial(|points| - 1, i)
    }

    /** BezierCurve(points): copies the control points and fills the table. */
    constructor(points: seq<Vec2>)
      requires |points| >= 1
      ensures this.points == points && Valid() && fresh(coefficients)
    {
      this.points := points;
      coefficients := new int[|points|];
      new;
      CalculateCoefficients();
    }

    /** BezierCurve::calculateCoefficients: the first half (rounded up) by the
        step C(k, i) = C(k, i-1) * (k - i + 1) / i, the rest by mirroring. */
    method CalculateCoefficients()
      requires |points| >= 1 && coefficients.Length == |points|
      modifies coefficients
      ensures Valid()
    {
      var coeffsNum := coefficients.Length;
      var curveOrder := coeffsNum - 1;
      var halfCeil := (coeffsNum + 1) / 2;
      var halfFloor := coeffsNum / 2;
      assert halfFloor + halfCeil == coeffsNum && halfFloor <= halfCeil <= coeffsNum;

      coefficients[0] := 1;
      var i := 1;
      while i < halfCeil
        invariant 1 <= i <= halfCeil
        invariant forall k :: 0 <= k < i ==> coefficients[k] == Binomial(curveOrder, k)
      {
        CoefficientStep(curveOrder, i);
        var product := coefficients[i - 1] * (coeffsNum - i);
        ExactQuotient(product, i, Binomial(curveOrder, i));
        coefficients[i] := product / i;
        i := i + 1;
      }

      i := 0;
      while i < halfFloor
        invariant 0 <= i <= halfFloor
        invariant forall k :: 0 <= k < halfCeil ==> coefficients[k] == Binomial(curveOrder, k)
        invariant forall k :: curveOrder - i < k < coeffsNum ==> coefficients[k] == Binomial(curveOrder, k)
      {
        BinomialSymmetric(curveOrder, i);
        coefficients[curveOrder - i] := coefficients[i];
        i := i + 1;
      }
    }

    /** BezierCurve::evaluate(param): accumulates coefficient * param^i *
        (1-param)^(n-1-i) * P(i), the last factor obtained from
        pow(1-param, n-1) by repeated multiplication with 1/(1-param). With an
        exact pow this is the Bernstein form for every param but 1, and the
        first control point at param 0. */
    method Evaluate(lib: Libm, param: real) returns (result: Vec2)
      requires Valid()
      ensures result == EvaluatedSum(points, coefficients[..], param,
                                     lib.pow(1.0 - param, (|points| - 1) as real), Div(lib, 1.0, 1.0 - param), |points|)
      ensures param != 1.0 && lib.pow(1.0 - param, (|points| - 1) as real) == Power(1.0 - param, |points| - 1) ==>
        result == BernsteinSum(points, param, |points|)
      ensures param == 0.0 && lib.pow(1.0, (|points| - 1) as real) == 1.0 ==> result == points[0]
    {
      var pointsNum := |points|;
      var curParam := 1.0;
      var curOneMinusParam := lib.pow(1.0 - param, (pointsNum - 1) as real);
      var oneMinusParamInv := Div(lib, 1.0, 1.0 - param);
      ghost var first := curOneMinusParam;
      result := Vec2(0.0, 0.0);

      var i := 0;
      while i < pointsNum
        invariant 0 <= i <= pointsNum
        invariant curParam == Power(param, i)
        invariant curOneMinusParam == Seeded(first, oneMinusParamInv, i)
        invariant result == EvaluatedSum(points, coefficients[..], param, first, oneMinusParamInv, i)
      {
        result := Add(result, Weighted(coefficients[i] as real, curParam, curOneMinusParam, points[i]));
        curParam := curParam * param;
        curOneMinusParam := curOneMinusParam * oneMinusParamInv;
        i := i + 1;
      }

      EvaluatedSumMeaning(points, coefficients[..], lib, param);
    }
  }
}
