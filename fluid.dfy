/** The fluid-surface solver of MagneticFluid.cpp: the meridian profile
    (r(i), z(i)) of the droplet on a uniform parameter grid, refined by
    successive over-relaxation in which each half-step assembles a tridiagonal
    system (one for r, one for z) and solves it with the right sweep. */
module Fluid {
  import opened Numerics
  import opened Sweep
  import opened ResultCodes
  import MathExt
  import Util

  /** M_PI, M_2_PI and M_PI_2 as the C library defines them. */
  const Pi: real := 3.141592653589793
  const TwoOverPi: real := 0.6366197723675814
  const HalfPi: real := 1.5707963267948966

  /** Entries below this are rejected by isApproximationValid. */
  const NegativeTolerance: real := 0.00001

  /** The fluid parameters Solution.cpp fills in (getFluidParams). */
  datatype FluidParams = FluidParams(
    w: real, chi: real, epsilon: real, iterationsNumMax: int,
    relaxParamInitial: real, relaxParamMin: real, splitsNum: int, isRightSweepPedantic: bool)

  // ---------------------------------------------------------------------------
  // Trapezoid integrals
  // ---------------------------------------------------------------------------

  /** Term i of calcIntegralTrapeze: r(i) * z(i) * (r(i+1) - r(i-1)). */
  function TrapezeTerm(r: seq<real>, z: seq<real>, i: int): real
    requires |z| == |r| && 1 <= i && i + 1 < |r|
  {
    r[i] * z[i] * (r[i + 1] - r[i - 1])
  }

  /** The running sum of calcIntegralTrapeze after the terms 1 .. k - 1. */
  function TrapezeSum(r: seq<real>, z: seq<real>, k: int): real
    requires |z| == |r| && 0 <= k < |r|
  {
    if k <= 1 then 0.0 else TrapezeSum(r, z, k - 1) + TrapezeTerm(r, z, k - 1)
  }

  /** calcIntegralTrapeze(approxR, approxZ): 2 pi times the sum over the
      interior points. */
  function IntegralTrapeze(r: seq<real>, z: seq<real>): real
    requires |r| >= 1 && |z| == |r|
  {
    2.0 * Pi * TrapezeSum(r, z, |r| - 1)
  }

  /** The r components of a profile. */
  function Rs(p: seq<Vec2>): (r: seq<real>)
    ensures |r| == |p| && forall i :: 0 <= i < |p| ==> r[i] == p[i].r
  {
    seq(|p|, i requires 0 <= i < |p| => p[i].r)
  }

  /** The z components of a profile. */
  function Zs(p: seq<Vec2>): (z: seq<real>)
    ensures |z| == |p| && forall i :: 0 <= i < |p| ==> z[i] == p[i].z
  {
    seq(|p|, i requires 0 <= i < |p| => p[i].z)
  }

  /** The running sum of the Vector2 overload of calcIntegralTrapeze. */
  function TrapezeSumVec(p: seq<Vec2>, k: int): real
    requires 0 <= k < |p|
  {
    if k <= 1 then 0.0 else TrapezeSumVec(p, k - 1) + p[k - 1].r * p[k - 1].z * (p[k].r - p[k - 2].r)
  }

  /** The Vector2 overload of calcIntegralTrapeze. */
  function IntegralTrapezeVec(p: seq<Vec2>): real
    requires |p| >= 1
  {
    2.0 * Pi * TrapezeSumVec(p, |p| - 1)
  }

  /** The two overloads agree: the Vector2 sum is the split-buffer sum of the
      profile's components. */
  lemma {:induction false} TrapezeSumsAgree(p: seq<Vec2>, k: int)
    requires 0 <= k < |p|
    ensures TrapezeSumVec(p, k) == TrapezeSum(Rs(p), Zs(p), k)
  {
    if k > 1 {
      TrapezeSumsAgree(p, k - 1);
    }
  }

  /** The whole integrals agree as well. */
  lemma IntegralOverloadsAgree(p: seq<Vec2>)
    requires |p| >= 1
    ensures IntegralTrapezeVec(p) == IntegralTrapeze(Rs(p), Zs(p))
  {
    TrapezeSumsAgree(p, |p| - 1);
  }

  /** A profile whose radius never decreases along the arc and whose heights are
      not negative (the shape of the initial approximation). */
  predicate MonotoneProfile(r: seq<real>, z: seq<real>)
  {
    |z| == |r| &&
    (forall i :: 0 <= i < |r| ==> r[i] >= 0.0 && z[i] >= 0.0) &&
    (forall i :: 1 <= i < |r| ==> r[i - 1] <= r[i])
  }

  /** Three non-negative factors have a non-negative product. */
  lemma TripleProductNonNegative(a: real, b: real, c: real)
    requires a >= 0.0 && b >= 0.0 && c >= 0.0
    ensures a * b * c >= 0.0
  {
    Util.ProductSign(a, b);
    Util.ProductSign(a * b, c);
  }

  /** Over such a profile every term, and so the partial sum, is non-negative. */
  lemma {:induction false} TrapezeSumNonNegative(r: seq<real>, z: seq<real>, k: int)
    requires MonotoneProfile(r, z) && 0 <= k < |r|
    ensures TrapezeSum(r, z, k) >= 0.0
  {
    if k > 1 {
      TrapezeSumNonNegative(r, z, k - 1);
      assert r[k - 2] <= r[k - 1] && r[k - 1] <= r[k];
      TripleProductNonNegative(r[k - 1], z[k - 1], r[k] - r[k - 2]);
    }
  }

  /** The volume integral of such a profile is non-negative, so the cube root
      volumeNondimMul takes is of a non-negative number. */
  lemma IntegralNonNegative(r: seq<real>, z: seq<real>)
    requires MonotoneProfile(r, z) && |r| >= 1
    ensures IntegralTrapeze(r, z) >= 0.0
  {
    TrapezeSumNonNegative(r, z, |r| - 1);
    Util.ProductSign(2.0 * Pi, TrapezeSum(r, z, |r| - 1));
  }

  // ---------------------------------------------------------------------------
  // The magnetic force and the pressure term
  // ---------------------------------------------------------------------------

  /** What calcMagneticF reads besides the point index: the current w and chi,
      the grid step, the field derivatives along the surface, the two profile
      buffers and the cube root of the volume integral. */
  datatype ForceContext = ForceContext(
    w: real, chi: real, step: real, derivatives: seq<Vec2>,
    approxR: seq<real>, approxZ: seq<real>, integralCbrt: real)
  {
    predicate WellFormed()
    {
      |approxR| >= 1 && |approxZ| == |approxR| && |derivatives| == |approxR|
    }

    function Size(): int { |approxR| }
  }

  /** The normal-derivative factor of calcMagneticF: the z derivative at the
      first point, the r derivative at the last, and a central difference
      between. */
  function NormalDerivative(lib: Libm, c: ForceContext, index: int): real
    requires c.WellFormed() && 0 <= index < c.Size()
  {
    var deriv := c.derivatives[index];
    if index == 0 then deriv.z
    else if index == c.Size() - 1 then deriv.r
    else Div(lib, 0.5 * (-(c.approxZ[index + 1] - c.approxZ[index - 1]) * deriv.r +
                         (c.approxR[index + 1] - c.approxR[index - 1]) * deriv.z), c.step)
  }

  /** A non-negative quotient by a positive divisor is non-negative. */
  lemma QuotientNonNegative(lib: Libm, a: real, b: real)
    requires a >= 0.0 && b > 0.0
    ensures Div(lib, a, b) >= 0.0
  {
  }

  /** A square is never negative. */
  lemma SquareNonNegative(x: real)
    ensures x * x >= 0.0
  {
    if x < 0.0 {
      Util.ProductSign(-x, -x);
    } else {
      Util.ProductSign(x, x);
    }
  }

  /** calcMagneticF: the magnetic pressure at a surface point. It vanishes
      without a field (w = 0) and is never negative for w >= 0, chi > 0 and a
      positive volume. */
  function MagneticF(lib: Libm, c: ForceContext, index: int): (f: real)
    requires c.WellFormed() && 0 <= index < c.Size()
    ensures c.w == 0.0 && c.integralCbrt != 0.0 ==> f == 0.0
    ensures c.w >= 0.0 && c.chi > 0.0 && c.integralCbrt > 0.0 ==> f >= 0.0
  {
    var deriv := c.derivatives[index];
    var tmp := NormalDerivative(lib, c, index);
    var energy := tmp * tmp + Div(lib, deriv.r * deriv.r + deriv.z * deriv.z, c.chi);
    var f := Div(lib, 0.5 * c.w * energy, c.integralCbrt);
    if c.w >= 0.0 && c.chi > 0.0 && c.integralCbrt > 0.0 then
      SquareNonNegative(tmp);
      SquareNonNegative(deriv.r);
      SquareNonNegative(deriv.z);
      QuotientNonNegative(lib, deriv.r * deriv.r + deriv.z * deriv.z, c.chi);
      Util.ProductSign(0.5 * c.w, energy);
      QuotientNonNegative(lib, 0.5 * c.w * energy, c.integralCbrt);
      f
    else
      f
  }

  /** Term i of calcMagneticIntegralTrapeze. */
  function MagneticTerm(lib: Libm, c: ForceContext, i: int): real
    requires c.WellFormed() && 1 <= i && i + 1 < c.Size()
  {
    c.approxR[i] * (c.approxR[i + 1] - c.approxR[i - 1]) * MagneticF(lib, c, i)
  }

  /** The running sum of calcMagneticIntegralTrapeze after the terms 1 .. k - 1. */
  function MagneticSum(lib: Libm, c: ForceContext, k: int): real
    requires c.WellFormed() && 0 <= k < c.Size()
  {
    if k <= 1 then 0.0 else MagneticSum(lib, c, k - 1) + MagneticTerm(lib, c, k - 1)
  }

  /** calcMagneticIntegralTrapeze: half the sum over the interior points. */
  function MagneticIntegral(lib: Libm, c: ForceContext): real
    requires c.WellFormed()
  {
    0.5 * MagneticSum(lib, c, c.Size() - 1)
  }

  /** calcQ: the pressure constant from the last radius and the magnetic
      integral. */
  function PressureQ(lib: Libm, c: ForceContext): real
    requires c.WellFormed()
  {
    var invRValue := Div(lib, 1.0, c.approxR[c.Size() - 1]);
    -2.0 * invRValue * (1.0 - MagneticIntegral(lib, c) * invRValue)
  }

  /** Without a field every magnetic term vanishes. */
  lemma {:induction false} MagneticSumWithoutField(lib: Libm, c: ForceContext, k: int)
    requires c.WellFormed() && 0 <= k < c.Size()
    requires c.w == 0.0 && c.integralCbrt != 0.0
    ensures MagneticSum(lib, c, k) == 0.0
  {
    if k > 1 {
      MagneticSumWithoutField(lib, c, k - 1);
      assert MagneticF(lib, c, k - 1) == 0.0;
    }
  }

  /** Without a field the magnetic integral is zero and calcQ reduces to the
      capillary pressure -2 / r(n-1). */
  lemma PressureWithoutField(lib: Libm, c: ForceContext)
    requires c.WellFormed() && c.w == 0.0 && c.integralCbrt != 0.0
    ensures MagneticIntegral(lib, c) == 0.0
    ensures PressureQ(lib, c) == -2.0 * Div(lib, 1.0, c.approxR[c.Size() - 1])
  {
    MagneticSumWithoutField(lib, c, c.Size() - 1);
  }

  // ---------------------------------------------------------------------------
  // The r system (calcNextApproximationR)
  // ---------------------------------------------------------------------------

  /** Entry k of the lower diagonal calcNextApproximationR writes. */
  function RLowerAt(n: int, k: int): real
  {
    if k == 0 then 0.0 else if k == n - 2 then -1.0 else 1.0
  }

  /** Entry k of the main diagonal calcNextApproximationR writes. */
  function RMainAt(n: int, k: int): real
  {
    if k <= 1 || k == n - 1 then 1.0 else -2.0
  }

  /** Entry k of the upper diagonal calcNextApproximationR writes. */
  function RUpperAt(n: int, k: int): real
  {
    if k <= 1 then 0.0 else 1.0
  }

  /** Constant term i of the r system for the z values `valZ` and the pressure
      constant `valQ`. */
  function RConstTerm(lib: Libm, c: ForceContext, valQ: real, valZ: seq<real>, i: int): real
    requires c.WellFormed() && c.Size() >= 3 && |valZ| == c.Size() && 0 <= i < c.Size()
  {
    var n := c.Size();
    if i == 0 then 0.0
    else if i == 1 then c.step
    else if i == n - 1 then
      0.5 * c.step * c.step * (valQ - MagneticF(lib, c, n - 1) + Div(lib, 1.0, c.approxR[n - 1]))
    else
      var tmp := 0.5 * (valZ[i + 1] - valZ[i - 1]);
      -c.step * tmp * (valQ - Div(lib, tmp, c.step * c.approxR[i]) - MagneticF(lib, c, i))
  }

  /** The constant terms of the r system. */
  function RConstTerms(lib: Libm, c: ForceContext, valQ: real, valZ: seq<real>): (t: seq<real>)
    requires c.WellFormed() && c.Size() >= 3 && |valZ| == c.Size()
    ensures |t| == c.Size()
  {
    seq(c.Size(), i requires 0 <= i < c.Size() => RConstTerm(lib, c, valQ, valZ, i))
  }

  /** The system calcNextApproximationR leaves in the right sweep: two
      identity rows fix r(0) and r(1), interior rows are second differences,
      and the last row relates r(n-1) - r(n-2) to its constant. */
  function RSystem(n: int, constTerms: seq<real>): (s: Tridiagonal)
    requires n >= 3 && |constTerms| == n
    ensures s.WellFormed() && s.Size() == n
  {
    Tridiagonal(seq(n - 1, k => RLowerAt(n, k)), seq(n, k => RMainAt(n, k)),
                seq(n - 1, k => RUpperAt(n, k)), constTerms)
  }

  /** The r system always passes RightSweep::isValid. */
  lemma RSystemDominant(n: int, constTerms: seq<real>)
    requires n >= 3 && |constTerms| == n
    ensures DiagonallyDominant(RSystem(n, constTerms))
  {
    var s := RSystem(n, constTerms);
    forall i | 1 <= i < n - 1
      ensures !(Abs(s.main[i]) < Abs(s.lower[i - 1]) + Abs(s.upper[i]))
    {
    }
  }

  /** -1 / p lies in [1/2, 1) for a pivot p in [-2, -1). */
  lemma NegativeReciprocal(lib: Libm, p: real)
    requires -2.0 <= p < -1.0
    ensures 0.5 <= Div(lib, -1.0, p) < 1.0
  {
    var q := -1.0 / p;
    assert q * (-p) == 1.0;
  }

  /** The sweep coefficients of the r system stay in [0, 1): the first two are
      0, each interior one is -1 / (a - 2) for the previous one a. */
  lemma {:induction false} RAlphaBounds(lib: Libm, n: int, constTerms: seq<real>, a: seq<real>, i: int)
    requires n >= 3 && |constTerms| == n && |a| == n - 1
    requires forall k :: 0 <= k < n - 1 ==> AlphaStep(RSystem(n, constTerms), lib, a, k)
    requires 0 <= i < n - 1
    ensures 0.0 <= a[i] < 1.0
  {
    var s := RSystem(n, constTerms);
    assert AlphaStep(s, lib, a, i);
    if i <= 1 {
      assert s.upper[i] == 0.0;
      assert Pivot(s, a, i) == 1.0;
    } else {
      RAlphaBounds(lib, n, constTerms, a, i - 1);
      assert s.upper[i] == 1.0 && s.lower[i - 1] == 1.0 && s.main[i] == -2.0;
      assert Pivot(s, a, i) == -2.0 + a[i - 1];
      NegativeReciprocal(lib, Pivot(s, a, i));
    }
  }

  /** Hence no pivot of the r system is zero, whatever its constant terms: the
      last one is 1 - alpha(n-2) > 0. */
  lemma RSystemPivots(lib: Libm, n: int, constTerms: seq<real>, a: seq<real>)
    requires n >= 3 && |constTerms| == n && |a| == n - 1
    requires forall k :: 0 <= k < n - 1 ==> AlphaStep(RSystem(n, constTerms), lib, a, k)
    ensures forall i :: 0 <= i < n ==> Pivot(RSystem(n, constTerms), a, i) != 0.0
  {
    var s := RSystem(n, constTerms);
    forall i | 0 <= i < n
      ensures Pivot(s, a, i) != 0.0
    {
      if i == 0 {
      } else if i == 1 {
        RAlphaBounds(lib, n, constTerms, a, 0);
      } else if i < n - 1 {
        RAlphaBounds(lib, n, constTerms, a, i - 1);
        assert Pivot(s, a, i) == -2.0 + a[i - 1];
      } else {
        RAlphaBounds(lib, n, constTerms, a, n - 2);
        assert Pivot(s, a, i) == 1.0 - a[n - 2];
      }
    }
  }

  // ---------------------------------------------------------------------------
  // The z system (calcNextApproximationZ)
  // ---------------------------------------------------------------------------

  /** Entry k of the lower diagonal calcNextApproximationZ writes for radii r. */
  function ZLowerAt(lib: Libm, r: seq<real>, k: int): real
    requires |r| >= 3 && 0 <= k < |r| - 1
  {
    if k >= |r| - 3 then 0.0 else 1.0 + Div(lib, r[k], r[k + 1])
  }

  /** Entry k of the main diagonal calcNextApproximationZ writes. */
  function ZMainAt(lib: Libm, r: seq<real>, k: int): real
    requires |r| >= 3 && 0 <= k < |r|
  {
    if k == 0 then -1.0
    else if k >= |r| - 2 then 1.0
    else -(2.0 + Div(lib, r[k + 1] + r[k - 1], r[k]))
  }

  /** Entry k of the upper diagonal calcNextApproximationZ writes. */
  function ZUpperAt(lib: Libm, r: seq<real>, k: int): real
    requires |r| >= 3 && 0 <= k < |r| - 1
  {
    if k == 0 then 1.0 else if k == |r| - 2 then 0.0 else 1.0 + Div(lib, r[k + 1], r[k])
  }

  /** Constant term i of the z system for the radii `valR`. */
  function ZConstTerm(lib: Libm, c: ForceContext, valQ: real, valR: seq<real>, i: int): real
    requires c.WellFormed() && c.Size() >= 3 && |valR| == c.Size() && 0 <= i < c.Size()
  {
    var n := c.Size();
    if i == 0 then 0.25 * c.step * c.step * (valQ - MagneticF(lib, c, 0))
    else if i == n - 2 then
      c.step * (1.0 - 0.5 * c.step * (valQ - MagneticF(lib, c, n - 1) + Div(lib, 1.0, c.approxR[n - 1])))
    else if i == n - 1 then 0.0
    else c.step * (valR[i + 1] - valR[i - 1]) * (valQ - MagneticF(lib, c, i))
  }

  /** The constant terms of the z system. */
  function ZConstTerms(lib: Libm, c: ForceContext, valQ: real, valR: seq<real>): (t: seq<real>)
    requires c.WellFormed() && c.Size() >= 3 && |valR| == c.Size()
    ensures |t| == c.Size()
  {
    seq(c.Size(), i requires 0 <= i < c.Size() => ZConstTerm(lib, c, valQ, valR, i))
  }

  /** The system calcNextApproximationZ leaves in the right sweep: row 0
      relates z(1) - z(0) to its constant, rows n-2 and n-1 pin z(n-2) to its
      constant and z(n-1) to zero, and interior rows carry the radius ratios. */
  function ZSystem(lib: Libm, r: seq<real>, constTerms: seq<real>): (s: Tridiagonal)
    requires |r| >= 3 && |constTerms| == |r|
    ensures s.WellFormed() && s.Size() == |r|
  {
    var n := |r|;
    Tridiagonal(seq(n - 1, k requires 0 <= k < n - 1 => ZLowerAt(lib, r, k)),
                seq(n, k requires 0 <= k < n => ZMainAt(lib, r, k)),
                seq(n - 1, k requires 0 <= k < n - 1 => ZUpperAt(lib, r, k)), constTerms)
  }

  /** A radius profile that is zero or positive on the axis point and positive
      at every other point the z system divides by. */
  predicate PositiveRadii(r: seq<real>)
  {
    |r| >= 3 && r[0] >= 0.0 && forall k :: 1 <= k < |r| - 1 ==> r[k] > 0.0
  }

  /** Every interior row of the z system balances: main = -(lower + upper),
      whenever its radius is nonzero. */
  lemma ZInteriorBalanced(lib: Libm, r: seq<real>, constTerms: seq<real>, k: int)
    requires |r| >= 3 && |constTerms| == |r| && 1 <= k < |r| - 2 && r[k] != 0.0
    ensures var s := ZSystem(lib, r, constTerms); s.main[k] == -(s.lower[k - 1] + s.upper[k])
  {
    var s := ZSystem(lib, r, constTerms);
    assert s.lower[k - 1] == 1.0 + r[k - 1] / r[k];
    assert s.upper[k] == 1.0 + r[k + 1] / r[k];
    assert s.main[k] == -(2.0 + (r[k + 1] + r[k - 1]) / r[k]);
  }

  /** The off-diagonal entries of an interior row are at least 1 for such radii. */
  lemma ZInteriorOffDiagonals(lib: Libm, r: seq<real>, constTerms: seq<real>, k: int)
    requires PositiveRadii(r) && |constTerms| == |r| && 1 <= k < |r| - 2
    ensures var s := ZSystem(lib, r, constTerms); s.lower[k - 1] >= 1.0 && s.upper[k] >= 1.0
  {
    var s := ZSystem(lib, r, constTerms);
    QuotientNonNegative(lib, r[k - 1], r[k]);
    QuotientNonNegative(lib, r[k + 1], r[k]);
  }

  /** For such radii the z system passes RightSweep::isValid, every interior
      row with equality. */
  lemma ZSystemDominant(lib: Libm, r: seq<real>, constTerms: seq<real>)
    requires PositiveRadii(r) && |constTerms| == |r|
    ensures DiagonallyDominant(ZSystem(lib, r, constTerms))
  {
    var s := ZSystem(lib, r, constTerms);
    var n := |r|;
    forall i | 1 <= i < n - 1
      ensures !(Abs(s.main[i]) < Abs(s.lower[i - 1]) + Abs(s.upper[i]))
    {
      if i < n - 2 {
        ZInteriorBalanced(lib, r, constTerms, i);
        ZInteriorOffDiagonals(lib, r, constTerms, i);
      }
    }
  }

  /** The sweep over the z system: alpha is 1 up to row n-3 and each interior
      pivot is -upper, which is nonzero for such radii. */
  lemma {:induction false} ZAlphaOne(lib: Libm, r: seq<real>, constTerms: seq<real>, a: seq<real>, i: int)
    requires PositiveRadii(r) && |constTerms| == |r| && |a| == |r| - 1
    requires forall k :: 0 <= k < |r| - 1 ==> AlphaStep(ZSystem(lib, r, constTerms), lib, a, k)
    requires 0 <= i < |r| - 2
    ensures a[i] == 1.0
    ensures i >= 1 ==> Pivot(ZSystem(lib, r, constTerms), a, i) == -ZSystem(lib, r, constTerms).upper[i]
  {
    var s := ZSystem(lib, r, constTerms);
    assert AlphaStep(s, lib, a, i);
    if i == 0 {
      assert Pivot(s, a, 0) == -1.0;
    } else {
      ZAlphaOne(lib, r, constTerms, a, i - 1);
      ZInteriorBalanced(lib, r, constTerms, i);
      ZInteriorOffDiagonals(lib, r, constTerms, i);
      BalancedRowAlpha(lib, s.main[i], s.lower[i - 1], s.upper[i], a[i - 1], Pivot(s, a, i), a[i]);
    }
  }

  /** A row whose main entry balances its off-diagonals, reached with the
      previous alpha equal to 1, has pivot -upper and alpha 1 again. */
  lemma BalancedRowAlpha(lib: Libm, m: real, l: real, u: real, alphaPrev: real, p: real, alpha: real)
    requires alphaPrev == 1.0 && m == -(l + u) && u >= 1.0
    requires p == m + l * alphaPrev && alpha == Div(lib, -u, p)
    ensures p == -u && alpha == 1.0
  {
    assert l * alphaPrev == l;
  }

  /** Hence no pivot of the z system is zero for such radii. */
  lemma ZSystemPivots(lib: Libm, r: seq<real>, constTerms: seq<real>, a: seq<real>)
    requires PositiveRadii(r) && |constTerms| == |r| && |a| == |r| - 1
    requires forall k :: 0 <= k < |r| - 1 ==> AlphaStep(ZSystem(lib, r, constTerms), lib, a, k)
    ensures forall i :: 0 <= i < |r| ==> Pivot(ZSystem(lib, r, constTerms), a, i) != 0.0
  {
    var s := ZSystem(lib, r, constTerms);
    var n := |r|;
    forall i | 0 <= i < n
      ensures Pivot(s, a, i) != 0.0
    {
      if 1 <= i < n - 2 {
        ZAlphaOne(lib, r, constTerms, a, i);
        ZInteriorOffDiagonals(lib, r, constTerms, i);
      } else if i == n - 2 {
        ZAlphaOne(lib, r, constTerms, a, n - 3);
        assert Pivot(s, a, i) == 1.0;
      } else if i == n - 1 {
        assert Pivot(s, a, i) == 1.0;
      }
    }
  }

  /** Vectors holding the r system's entries, position by position, are that system. */
  lemma RSystemEntries(n: int, lower: seq<real>, main: seq<real>, upper: seq<real>, constTerms: seq<real>)
    requires n >= 3 && |lower| == n - 1 && |main| == n && |upper| == n - 1 && |constTerms| == n
    requires forall k :: 0 <= k < n - 1 ==> lower[k] == RLowerAt(n, k)
    requires forall k :: 0 <= k < n ==> main[k] == RMainAt(n, k)
    requires forall k :: 0 <= k < n - 1 ==> upper[k] == RUpperAt(n, k)
    ensures Tridiagonal(lower, main, upper, constTerms) == RSystem(n, constTerms)
  {
    assert lower == seq(n - 1, k => RLowerAt(n, k));
    assert main == seq(n, k => RMainAt(n, k));
    assert upper == seq(n - 1, k => RUpperAt(n, k));
  }

  /** A vector holding the r constant terms position by position is RConstTerms. */
  lemma RConstTermsEntries(lib: Libm, c: ForceContext, valQ: real, valZ: seq<real>, t: seq<real>)
    requires c.WellFormed() && c.Size() >= 3 && |valZ| == c.Size() && |t| == c.Size()
    requires forall k :: 0 <= k < c.Size() ==> t[k] == RConstTerm(lib, c, valQ, valZ, k)
    ensures t == RConstTerms(lib, c, valQ, valZ)
  {
  }

  /** Vectors holding the z system's entries, position by position, are that system. */
  lemma ZSystemEntries(lib: Libm, r: seq<real>, lower: seq<real>, main: seq<real>, upper: seq<real>, constTerms: seq<real>)
    requires |r| >= 3 && |lower| == |r| - 1 && |main| == |r| && |upper| == |r| - 1 && |constTerms| == |r|
    requires forall k :: 0 <= k < |r| - 1 ==> lower[k] == ZLowerAt(lib, r, k)
    requires forall k :: 0 <= k < |r| ==> main[k] == ZMainAt(lib, r, k)
    requires forall k :: 0 <= k < |r| - 1 ==> upper[k] == ZUpperAt(lib, r, k)
    ensures Tridiagonal(lower, main, upper, constTerms) == ZSystem(lib, r, constTerms)
  {
    var n := |r|;
    assert lower == seq(n - 1, k requires 0 <= k < n - 1 => ZLowerAt(lib, r, k));
    assert main == seq(n, k requires 0 <= k < n => ZMainAt(lib, r, k));
    assert upper == seq(n - 1, k requires 0 <= k < n - 1 => ZUpperAt(lib, r, k));
  }

  /** A vector holding the z constant terms position by position is ZConstTerms. */
  lemma ZConstTermsEntries(lib: Libm, c: ForceContext, valQ: real, valR: seq<real>, t: seq<real>)
    requires c.WellFormed() && c.Size() >= 3 && |valR| == c.Size() && |t| == c.Size()
    requires forall k :: 0 <= k < c.Size() ==> t[k] == ZConstTerm(lib, c, valQ, valR, k)
    ensures t == ZConstTerms(lib, c, valQ, valR)
  {
  }

  // ---------------------------------------------------------------------------
  // What one relaxation step establishes
  // ---------------------------------------------------------------------------

  /** `x` satisfies every row of the system. */
  ghost predicate Solves(s: Tridiagonal, x: seq<real>)
    requires s.WellFormed() && s.Size() >= 2
  {
    |x| == s.Size() && forall i :: 0 <= i < s.Size() ==> RowValue(s, x, i) == s.constTerms[i]
  }

  /** `next` is `x` relaxed towards `cur` by math_ext.h `relaxation`. */
  ghost predicate RelaxedFrom(cur: seq<real>, next: seq<real>, x: seq<real>, param: real)
  {
    |next| == |cur| && |x| == |cur| &&
    forall i :: 0 <= i < |cur| ==> next[i] == MathExt.Lerp(cur[i], x[i], param)
  }

  /** One pass of the do-while body of calcRelaxation, from the profile
      (c.approxR, c.approxZ) to (nextR, nextZ): nextR relaxes an exact solution
      of the r system, and nextZ relaxes the sweep's solution of the z system
      assembled from nextR, exact whenever those radii are positive. Both
      systems share the volume integral and the pressure constant of the
      starting profile. */
  ghost predicate RelaxationStepFrom(lib: Libm, c: ForceContext, nextR: seq<real>, nextZ: seq<real>, param: real)
    requires c.WellFormed() && c.Size() >= 3
  {
    var n := c.Size();
    var valQ := PressureQ(lib, c);
    c.integralCbrt == lib.cbrt(IntegralTrapeze(c.approxR, c.approxZ)) &&
    |nextR| == n && |nextZ| == n &&
    (exists x :: Solves(RSystem(n, RConstTerms(lib, c, valQ, c.approxZ)), x) && RelaxedFrom(c.approxR, nextR, x, param)) &&
    (exists y ::
       (PositiveRadii(nextR) ==> Solves(ZSystem(lib, nextR, ZConstTerms(lib, c, valQ, nextR)), y)) &&
       RelaxedFrom(c.approxZ, nextZ, y, param))
  }

  /** The force context of the profile (r, z) under the w, chi, step and
      field derivatives of `forces`, with the volume integral of (r, z). */
  function Reframed(lib: Libm, forces: ForceContext, r: seq<real>, z: seq<real>): (c: ForceContext)
    requires |r| >= 1 && |r| == |forces.derivatives| && |z| == |r|
    ensures c.WellFormed() && c.Size() == |r|
    ensures c.approxR == r && c.approxZ == z && c.derivatives == forces.derivatives
  {
    forces.(approxR := r, approxZ := z, integralCbrt := lib.cbrt(IntegralTrapeze(r, z)))
  }

  /** A run of calcRelaxation's do-while body: every profile (radii, heights)
      of `t` after the first is one relaxation step from the profile before
      it, under the forces of `forces` and at relaxation parameter `param`. */
  ghost predicate Trajectory(lib: Libm, forces: ForceContext, param: real, t: seq<(seq<real>, seq<real>)>)
    requires |forces.derivatives| >= 3
    decreases |t|, 2
  {
    var n := |forces.derivatives|;
    |t| >= 1 && |t[|t| - 1].0| == n && |t[|t| - 1].1| == n &&
    (|t| >= 2 ==> StepsTo(lib, forces, param, t))
  }

  /** The last two profiles of `t` have the forces' number of points, and the
      last one is a relaxation step away from a trajectory. */
  ghost predicate StepsTo(lib: Libm, forces: ForceContext, param: real, t: seq<(seq<real>, seq<real>)>)
    requires |forces.derivatives| >= 3 && |t| >= 2
    decreases |t|, 1
  {
    var n := |forces.derivatives|;
    |t[|t| - 2].0| == n && |t[|t| - 2].1| == n && |t[|t| - 1].0| == n && |t[|t| - 1].1| == n &&
    StepsFromPrefix(lib, forces, param, t)
  }

  /** `t` without its last profile is a trajectory, and the last profile is
      one relaxation step from the one before it. */
  ghost predicate StepsFromPrefix(lib: Libm, forces: ForceContext, param: real, t: seq<(seq<real>, seq<real>)>)
    requires |forces.derivatives| >= 3 && |t| >= 2
    requires |t[|t| - 2].0| == |forces.derivatives| && |t[|t| - 2].1| == |forces.derivatives|
    decreases |t|, 0
  {
    Trajectory(lib, forces, param, t[..|t| - 1]) &&
    RelaxationStepFrom(lib, Reframed(lib, forces, t[|t| - 2].0, t[|t| - 2].1), t[|t| - 1].0, t[|t| - 1].1, param)
  }

  /** A trajectory extends by one relaxation step from its last profile. */
  lemma TrajectoryExtend(lib: Libm, forces: ForceContext, param: real, t: seq<(seq<real>, seq<real>)>,
                         nextR: seq<real>, nextZ: seq<real>)
    requires |forces.derivatives| >= 3 && Trajectory(lib, forces, param, t)
    requires RelaxationStepFrom(lib, Reframed(lib, forces, t[|t| - 1].0, t[|t| - 1].1), nextR, nextZ, param)
    ensures Trajectory(lib, forces, param, t + [(nextR, nextZ)])
  {
    var t' := t + [(nextR, nextZ)];
    assert t'[..|t|] == t;
    assert StepsFromPrefix(lib, forces, param, t');
    assert StepsTo(lib, forces, param, t');
  }

  /** Every consecutive pair of a trajectory is one relaxation step, and every
      profile has the forces' number of points. */
  lemma {:induction false} TrajectorySteps(lib: Libm, forces: ForceContext, param: real,
                                           t: seq<(seq<real>, seq<real>)>, k: int)
    requires |forces.derivatives| >= 3 && Trajectory(lib, forces, param, t) && 0 <= k < |t|
    ensures |t[k].0| == |forces.derivatives| && |t[k].1| == |forces.derivatives|
    ensures k < |t| - 1 ==>
      RelaxationStepFrom(lib, Reframed(lib, forces, t[k].0, t[k].1), t[k + 1].0, t[k + 1].1, param)
    decreases |t|
  {
    if k < |t| - 1 {
      assert StepsTo(lib, forces, param, t);
      assert StepsFromPrefix(lib, forces, param, t);
      var prefix := t[..|t| - 1];
      TrajectorySteps(lib, forces, param, prefix, k);
      if k < |t| - 2 {
        assert prefix[k] == t[k] && prefix[k + 1] == t[k + 1];
      }
    }
  }

  /** calcRelaxation's stopping tolerance, epsilon scaled by the current
      relaxation parameter. */
  function StopTolerance(params: FluidParams, relaxationParam: real): real
  {
    params.epsilon * relaxationParam
  }

  /** The stopping test of calcRelaxation on the radii: no entry of `next`
      is further than `eps` from the same entry of `cur`. */
  predicate WithinTolerance(next: seq<real>, cur: seq<real>, eps: real)
  {
    |next| == |cur| && forall i :: 0 <= i < |cur| ==> Util.Gap(next[i], cur[i]) <= eps
  }

  /** isApproximationValid: every entry finite and not below the tolerance. */
  predicate ValidApproximation(lib: Libm, approx: seq<real>)
  {
    forall i :: 0 <= i < |approx| ==> lib.isFinite(approx[i]) && approx[i] >= -NegativeTolerance
  }

  /** The profile calcRelaxation copies into mLastValidResult. */
  function Zip(r: seq<real>, z: seq<real>): (p: seq<Vec2>)
    requires |z| == |r|
    ensures |p| == |r| && Rs(p) == r && Zs(p) == z
  {
    var p := seq(|r|, i requires 0 <= i < |r| => Vec2(r[i], z[i]));
    assert Rs(p) == r;
    assert Zs(p) == z;
    p
  }

  /** Point i of calcInitialApproximation: on the quarter circle of radius
      2/pi, at angle (pi/2) * i * step from the axis. */
  function InitialPoint(lib: Libm, i: int, step: real): Vec2
  {
    Vec2(TwoOverPi * lib.sin(HalfPi * i as real * step), TwoOverPi * lib.cos(HalfPi * i as real * step))
  }

  /** The whole initial profile. */
  function InitialProfile(lib: Libm, pointsNum: nat, step: real): (p: seq<Vec2>)
    ensures |p| == pointsNum && forall i :: 0 <= i < pointsNum ==> p[i] == InitialPoint(lib, i, step)
  {
    seq(pointsNum, i => InitialPoint(lib, i, step))
  }

  /** The result of calcRelaxation: a result code, or the termination a
      pedantic right sweep causes on a system that is not dominant. */
  datatype RelaxationOutcome = Finished(code: ResultCode) | SweepTerminated

  /** The mutable fields of MagneticFluid, for stating what a method changes. */
  datatype FluidState = FluidState(
    params: FluidParams, lastValidResult: seq<Vec2>, derivatives: seq<Vec2>,
    nextApproxR: array<real>, nextApproxZ: array<real>, curApproxR: array<real>, curApproxZ: array<real>,
    curRelaxationParam: real, iterationsCounter: int)

  class MagneticFluid {
    var params: FluidParams
    const pointsNum: int
    const rightSweep: RightSweep
    var lastValidResult: seq<Vec2>
    var derivatives: seq<Vec2>
    var nextApproxR: array<real>
    var nextApproxZ: array<real>
    var curApproxR: array<real>
    var curApproxZ: array<real>
    const step: real
    var curRelaxationParam: real
    var iterationsCounter: int

    /** The six buffers of the right sweep. */
    function SweepArrays(): set<array<real>>
    {
      {rightSweep.lowerDiagonal, rightSweep.mainDiagonal, rightSweep.upperDiagonal,
       rightSweep.constTerms, rightSweep.alpha, rightSweep.beta}
    }

    /** The four approximation buffers are distinct, apart from the sweep's, and
        every per-point buffer has pointsNum entries. */
    predicate Valid()
      reads this
    {
      pointsNum >= 2 && rightSweep.Valid() && rightSweep.size == pointsNum &&
      nextApproxR.Length == pointsNum && nextApproxZ.Length == pointsNum &&
      curApproxR.Length == pointsNum && curApproxZ.Length == pointsNum &&
      |lastValidResult| == pointsNum && |derivatives| == pointsNum &&
      nextApproxR != nextApproxZ && nextApproxR != curApproxR && nextApproxR != curApproxZ &&
      nextApproxZ != curApproxR && nextApproxZ != curApproxZ && curApproxR != curApproxZ &&
      nextApproxR !in SweepArrays() && nextApproxZ !in SweepArrays() &&
      curApproxR !in SweepArrays() && curApproxZ !in SweepArrays()
    }

    function State(): FluidState
      reads this
    {
      FluidState(params, lastValidResult, derivatives, nextApproxR, nextApproxZ, curApproxR, curApproxZ,
                 curRelaxationParam, iterationsCounter)
    }

    /** The arguments calcMagneticF and calcQ see for the profile buffers
        (approxR, approxZ). */
    function Context(lib: Libm, approxR: seq<real>, approxZ: seq<real>): (c: ForceContext)
      requires pointsNum >= 1 && |derivatives| == pointsNum && |approxR| == pointsNum && |approxZ| == pointsNum
      reads this`params, this`derivatives
      ensures c.WellFormed() && c.Size() == pointsNum
    {
      ForceContext(params.w, params.chi, step, derivatives, approxR, approxZ,
                   lib.cbrt(IntegralTrapeze(approxR, approxZ)))
    }

    /** The forces of the current parameters and derivatives, for any
        profile. */
    function Forces(): (f: ForceContext)
      reads this`params, this`derivatives
      ensures f.derivatives == derivatives
    {
      ForceContext(params.w, params.chi, step, derivatives, [], [], 0.0)
    }

    /** Context is Reframed applied to the current forces. */
    lemma ContextReframed(lib: Libm, approxR: seq<real>, approxZ: seq<real>)
      requires pointsNum >= 1 && |derivatives| == pointsNum && |approxR| == pointsNum && |approxZ| == pointsNum
      ensures Context(lib, approxR, approxZ) == Reframed(lib, Forces(), approxR, approxZ)
    {
    }

    /** MagneticFluid(params): pointsNum = splitsNum + 1 points at step
        1 / splitsNum, every buffer zero-filled. */
    constructor(params: FluidParams)
      requires params.splitsNum >= 1
      ensures Valid() && this.params == params && pointsNum == params.splitsNum + 1
      ensures step == 1.0 / params.splitsNum as real
      ensures curRelaxationParam == params.relaxParamInitial && iterationsCounter == 0
      ensures rightSweep.isPedantic == params.isRightSweepPedantic
      ensures lastValidResult == seq(pointsNum, _ => Vec2(0.0, 0.0)) && derivatives == lastValidResult
      ensures fresh(nextApproxR) && fresh(nextApproxZ) && fresh(curApproxR) && fresh(curApproxZ)
    {
      var n := params.splitsNum + 1;
      this.params := params;
      pointsNum := n;
      rightSweep := new RightSweep(n, params.isRightSweepPedantic);
      lastValidResult := seq(n, _ => Vec2(0.0, 0.0));
      derivatives := seq(n, _ => Vec2(0.0, 0.0));
      nextApproxR := new real[n](_ => 0.0);
      nextApproxZ := new real[n](_ => 0.0);
      curApproxR := new real[n](_ => 0.0);
      curApproxZ := new real[n](_ => 0.0);
      step := 1.0 / params.splitsNum as real;
      curRelaxationParam := params.relaxParamInitial;
      iterationsCounter := 0;
    }

    /** setRelaxationParam. */
    method SetRelaxationParam(param: real)
      modifies this
      ensures State() == old(State()).(curRelaxationParam := param)
    {
      curRelaxationParam := param;
    }

    /** setW. */
    method SetW(w: real)
      modifies this
      ensures State() == old(State()).(params := old(params).(w := w))
    {
      params := params.(w := w);
    }

    /** setChi. */
    method SetChi(chi: real)
      modifies this
      ensures State() == old(State()).(params := old(params).(chi := chi))
    {
      params := params.(chi := chi);
    }

    /** setLastValidResult. */
    method SetLastValidResult(values: seq<Vec2>)
      modifies this
      ensures State() == old(State()).(lastValidResult := values)
    {
      lastValidResult := values;
    }

    /** setDerivatives. */
    method SetDerivatives(values: seq<Vec2>)
      modifies this
      ensures State() == old(State()).(derivatives := values)
    {
      derivatives := values;
    }

    /** resetIterationsCounter. */
    method ResetIterationsCounter()
      modifies this
      ensures State() == old(State()).(iterationsCounter := 0)
    {
      iterationsCounter := 0;
    }

    /** heightCoef: the height of the droplet on the axis over its contact
        radius. */
    function HeightCoef(lib: Libm): (h: real)
      requires Valid()
      reads this
      ensures lastValidResult[pointsNum - 1].r != 0.0 ==>
        h * lastValidResult[pointsNum - 1].r == lastValidResult[0].z
    {
      Div(lib, lastValidResult[0].z, lastValidResult[pointsNum - 1].r)
    }

    /** calcInitialApproximation. */
    method CalcInitialApproximation(lib: Libm)
      requires Valid()
      modifies this
      ensures State() == old(State()).(lastValidResult := InitialProfile(lib, pointsNum, step))
      ensures Valid()
    {
      var i := 0;
      while i < pointsNum
        invariant 0 <= i <= pointsNum && |lastValidResult| == pointsNum
        invariant forall k :: 0 <= k < i ==> lastValidResult[k] == InitialPoint(lib, k, step)
        invariant State() == old(State()).(lastValidResult := lastValidResult)
      {
        lastValidResult := lastValidResult[i := Vec2(TwoOverPi * lib.sin(HalfPi * i as real * step),
                                                     TwoOverPi * lib.cos(HalfPi * i as real * step))];
        assert lastValidResult[i] == InitialPoint(lib, i, step);
        i := i + 1;
      }
      assert lastValidResult == InitialProfile(lib, pointsNum, step);
    }

    /** calcIntegralTrapeze(approxR, approxZ). */
    method CalcIntegralTrapeze(approxR: array<real>, approxZ: array<real>) returns (integral: real)
      requires Valid() && approxR.Length == pointsNum && approxZ.Length == pointsNum
      ensures integral == IntegralTrapeze(approxR[..], approxZ[..])
    {
      var result := 0.0;
      var limit := pointsNum - 1;
      var i := 1;
      while i < limit
        invariant 1 <= i <= limit
        invariant result == TrapezeSum(approxR[..], approxZ[..], i)
      {
        result := result + approxR[i] * approxZ[i] * (approxR[i + 1] - approxR[i - 1]);
        i := i + 1;
      }
      return 2.0 * Pi * result;
    }

    /** calcIntegralTrapeze(approx), for a profile of Vector2 points: the same
        number as the split-buffer overload on its components. */
    method CalcIntegralTrapezeVec(approx: seq<Vec2>) returns (integral: real)
      requires Valid() && |approx| == pointsNum
      ensures integral == IntegralTrapezeVec(approx)
      ensures integral == IntegralTrapeze(Rs(approx), Zs(approx))
    {
      var result := 0.0;
      var limit := pointsNum - 1;
      var i := 1;
      while i < limit
        invariant 1 <= i <= limit
        invariant result == TrapezeSumVec(approx, i)
      {
        result := result + approx[i].r * approx[i].z * (approx[i + 1].r - approx[i - 1].r);
        i := i + 1;
      }
      IntegralOverloadsAgree(approx);
      return 2.0 * Pi * result;
    }

    /** volumeNondimMul: one over the cube root of the volume integral of the
        last valid profile. */
    method VolumeNondimMul(lib: Libm) returns (v: real)
      requires Valid()
      ensures lib.cbrt(IntegralTrapeze(Rs(lastValidResult), Zs(lastValidResult))) != 0.0 ==>
        v * lib.cbrt(IntegralTrapeze(Rs(lastValidResult), Zs(lastValidResult))) == 1.0
    {
      var integral := CalcIntegralTrapezeVec(lastValidResult);
      v := Div(lib, 1.0, lib.cbrt(integral));
    }

    /** calcMagneticIntegralTrapeze. */
    method CalcMagneticIntegralTrapeze(lib: Libm, approxR: array<real>, approxZ: array<real>, integralCbrt: real)
      returns (integral: real)
      requires Valid() && approxR.Length == pointsNum && approxZ.Length == pointsNum
      ensures integral == MagneticIntegral(lib, Context(lib, approxR[..], approxZ[..]).(integralCbrt := integralCbrt))
    {
      var c := Context(lib, approxR[..], approxZ[..]).(integralCbrt := integralCbrt);
      var result := 0.0;
      var limit := pointsNum - 1;
      var i := 1;
      while i < limit
        invariant 1 <= i <= limit
        invariant result == MagneticSum(lib, c, i)
      {
        result := result + MagneticTerm(lib, c, i);
        i := i + 1;
      }
      return 0.5 * result;
    }

    /** calcQ. */
    method CalcQ(lib: Libm, approxR: array<real>, approxZ: array<real>, integralCbrt: real) returns (q: real)
      requires Valid() && approxR.Length == pointsNum && approxZ.Length == pointsNum
      ensures q == PressureQ(lib, Context(lib, approxR[..], approxZ[..]).(integralCbrt := integralCbrt))
    {
      var invRValue := Div(lib, 1.0, approxR[pointsNum - 1]);
      var magneticIntegral := CalcMagneticIntegralTrapeze(lib, approxR, approxZ, integralCbrt);
      q := -2.0 * invRValue * (1.0 - magneticIntegral * invRValue);
    }

    /** isApproximationValid. */
    method IsApproximationValid(lib: Libm, approx: array<real>) returns (valid: bool)
      requires Valid() && approx.Length == pointsNum
      ensures valid == ValidApproximation(lib, approx[..])
      ensures !valid <==> exists i :: 0 <= i < pointsNum && (!lib.isFinite(approx[i]) || approx[i] < -NegativeTolerance)
    {
      var i := 0;
      while i < pointsNum
        invariant 0 <= i <= pointsNum
        invariant forall k :: 0 <= k < i ==> lib.isFinite(approx[k]) && approx[k] >= -NegativeTolerance
      {
        if !lib.isFinite(approx[i]) || approx[i] < -NegativeTolerance {
          return false;
        }
        i := i + 1;
      }
      return true;
    }

    /** The writes calcNextApproximationR makes before its loop: rows 0 and 1
        and the last row, coefficients and constants. */
    method SetRBoundaryRows(lib: Libm, c: ForceContext, valQ: real, ghost z: seq<real>)
      requires Valid() && pointsNum >= 3 && c.WellFormed() && c.Size() == pointsNum && c.step == step
      requires |z| == pointsNum
      modifies rightSweep.lowerDiagonal, rightSweep.mainDiagonal, rightSweep.upperDiagonal, rightSweep.constTerms
      ensures var n := pointsNum;
        var lower, main, upper := rightSweep.lowerDiagonal, rightSweep.mainDiagonal, rightSweep.upperDiagonal;
        main[0] == RMainAt(n, 0) && main[1] == RMainAt(n, 1) && main[n - 1] == RMainAt(n, n - 1) &&
        upper[0] == RUpperAt(n, 0) && upper[1] == RUpperAt(n, 1) &&
        lower[0] == RLowerAt(n, 0) && lower[n - 2] == RLowerAt(n, n - 2)
      ensures forall k :: k in {0, 1, pointsNum - 1} ==>
        rightSweep.constTerms[k] == RConstTerm(lib, c, valQ, z, k)
    {
      var n := pointsNum;
      var lower, main, upper, constTerms :=
        rightSweep.lowerDiagonal, rightSweep.mainDiagonal, rightSweep.upperDiagonal, rightSweep.constTerms;
      main[0] := 1.0;
      upper[0] := 0.0;
      main[1] := 1.0;
      upper[1] := 0.0;
      lower[0] := 0.0;
      main[n - 1] := 1.0;
      lower[n - 2] := -1.0;
      constTerms[0] := 0.0;
      constTerms[1] := step;
      constTerms[n - 1] := 0.5 * step * step * (valQ - MagneticF(lib, c, n - 1) + Div(lib, 1.0, c.approxR[n - 1]));
    }

    /** One pass of calcNextApproximationR's loop: the second-difference row i. */
    method SetRInteriorRow(lib: Libm, c: ForceContext, valQ: real, valZ: array<real>, i: int)
      requires Valid() && pointsNum >= 3 && c.WellFormed() && c.Size() == pointsNum && c.step == step
      requires valZ.Length == pointsNum && valZ !in SweepArrays() && 2 <= i < pointsNum - 1
      modifies rightSweep.lowerDiagonal, rightSweep.mainDiagonal, rightSweep.upperDiagonal, rightSweep.constTerms
      ensures rightSweep.lowerDiagonal[..] == old(rightSweep.lowerDiagonal[..])[i - 1 := RLowerAt(pointsNum, i - 1)]
      ensures rightSweep.mainDiagonal[..] == old(rightSweep.mainDiagonal[..])[i := RMainAt(pointsNum, i)]
      ensures rightSweep.upperDiagonal[..] == old(rightSweep.upperDiagonal[..])[i := RUpperAt(pointsNum, i)]
      ensures rightSweep.constTerms[..] ==
        old(rightSweep.constTerms[..])[i := RConstTerm(lib, c, valQ, valZ[..], i)]
    {
      rightSweep.lowerDiagonal[i - 1] := 1.0;
      rightSweep.mainDiagonal[i] := -2.0;
      rightSweep.upperDiagonal[i] := 1.0;
      var tmp := 0.5 * (valZ[i + 1] - valZ[i - 1]);
      var constTerm := -step * tmp * (valQ - Div(lib, tmp, step * c.approxR[i]) - MagneticF(lib, c, i));
      assert constTerm == RConstTerm(lib, c, valQ, valZ[..], i);
      rightSweep.constTerms[i] := constTerm;
    }

    /** The coefficient writes of calcNextApproximationR, through the sweep's
        `operator()`: every entry of the four vectors is overwritten. */
    method AssembleR(lib: Libm, c: ForceContext, valQ: real, valZ: array<real>)
      requires Valid() && pointsNum >= 3 && c.WellFormed() && c.Size() == pointsNum && c.step == step
      requires valZ.Length == pointsNum && valZ !in SweepArrays()
      modifies rightSweep.lowerDiagonal, rightSweep.mainDiagonal, rightSweep.upperDiagonal, rightSweep.constTerms
      ensures rightSweep.System() == RSystem(pointsNum, RConstTerms(lib, c, valQ, valZ[..]))
    {
      var n := pointsNum;
      var lower, main, upper, constTerms :=
        rightSweep.lowerDiagonal, rightSweep.mainDiagonal, rightSweep.upperDiagonal, rightSweep.constTerms;
      ghost var z := valZ[..];
      SetRBoundaryRows(lib, c, valQ, z);
      var limit := n - 1;
      var i := 2;
      while i < limit
        invariant 2 <= i <= limit
        invariant forall k :: 0 <= k < n - 1 && (k < i - 1 || k == n - 2) ==> lower[k] == RLowerAt(n, k)
        invariant forall k :: 0 <= k < n && (k < i || k == n - 1) ==> main[k] == RMainAt(n, k)
        invariant forall k :: 0 <= k < i ==> upper[k] == RUpperAt(n, k)
        invariant forall k :: 0 <= k < n && (k < i || k == n - 1) ==> constTerms[k] == RConstTerm(lib, c, valQ, z, k)
      {
        SetRInteriorRow(lib, c, valQ, valZ, i);
        i := i + 1;
      }
      RSystemEntries(n, lower[..], main[..], upper[..], constTerms[..]);
      RConstTermsEntries(lib, c, valQ, z, constTerms[..]);
    }

    /** The writes calcNextApproximationZ makes before its loop: row 0, rows
        n-2 and n-1, coefficients and constants. */
    method SetZBoundaryRows(lib: Libm, c: ForceContext, valQ: real, ghost r: seq<real>)
      requires Valid() && pointsNum >= 3 && c.WellFormed() && c.Size() == pointsNum && c.step == step
      requires |r| == pointsNum
      modifies rightSweep.lowerDiagonal, rightSweep.mainDiagonal, rightSweep.upperDiagonal, rightSweep.constTerms
      ensures var n := pointsNum;
        var lower, main, upper := rightSweep.lowerDiagonal, rightSweep.mainDiagonal, rightSweep.upperDiagonal;
        main[0] == ZMainAt(lib, r, 0) && main[n - 2] == ZMainAt(lib, r, n - 2) && main[n - 1] == ZMainAt(lib, r, n - 1) &&
        upper[0] == ZUpperAt(lib, r, 0) && upper[n - 2] == ZUpperAt(lib, r, n - 2) &&
        lower[n - 3] == ZLowerAt(lib, r, n - 3) && lower[n - 2] == ZLowerAt(lib, r, n - 2)
      ensures forall k :: k in {0, pointsNum - 2, pointsNum - 1} ==>
        rightSweep.constTerms[k] == ZConstTerm(lib, c, valQ, r, k)
    {
      var n := pointsNum;
      var lower, main, upper, constTerms :=
        rightSweep.lowerDiagonal, rightSweep.mainDiagonal, rightSweep.upperDiagonal, rightSweep.constTerms;
      var tmp := 0.25 * step * step;
      main[0] := -1.0;
      upper[0] := 1.0;
      main[n - 2] := 1.0;
      upper[n - 2] := 0.0;
      lower[n - 3] := 0.0;
      main[n - 1] := 1.0;
      lower[n - 2] := 0.0;
      constTerms[0] := tmp * (valQ - MagneticF(lib, c, 0));
      constTerms[n - 2] := step * (1.0 - 0.5 * step *
                                   (valQ - MagneticF(lib, c, n - 1) + Div(lib, 1.0, c.approxR[n - 1])));
      constTerms[n - 1] := 0.0;
    }

    /** One pass of calcNextApproximationZ's loop: interior row i, built from
        the ratios of neighbouring radii. */
    method SetZInteriorRow(lib: Libm, c: ForceContext, valQ: real, valR: array<real>, i: int)
      requires Valid() && pointsNum >= 3 && c.WellFormed() && c.Size() == pointsNum && c.step == step
      requires valR.Length == pointsNum && valR !in SweepArrays() && 1 <= i < pointsNum - 2
      modifies rightSweep.lowerDiagonal, rightSweep.mainDiagonal, rightSweep.upperDiagonal, rightSweep.constTerms
      ensures rightSweep.lowerDiagonal[..] == old(rightSweep.lowerDiagonal[..])[i - 1 := ZLowerAt(lib, valR[..], i - 1)]
      ensures rightSweep.mainDiagonal[..] == old(rightSweep.mainDiagonal[..])[i := ZMainAt(lib, valR[..], i)]
      ensures rightSweep.upperDiagonal[..] == old(rightSweep.upperDiagonal[..])[i := ZUpperAt(lib, valR[..], i)]
      ensures rightSweep.constTerms[..] ==
        old(rightSweep.constTerms[..])[i := ZConstTerm(lib, c, valQ, valR[..], i)]
    {
      rightSweep.lowerDiagonal[i - 1] := 1.0 + Div(lib, valR[i - 1], valR[i]);
      rightSweep.mainDiagonal[i] := -(2.0 + Div(lib, valR[i + 1] + valR[i - 1], valR[i]));
      rightSweep.upperDiagonal[i] := 1.0 + Div(lib, valR[i + 1], valR[i]);
      var constTerm := step * (valR[i + 1] - valR[i - 1]) * (valQ - MagneticF(lib, c, i));
      assert constTerm == ZConstTerm(lib, c, valQ, valR[..], i);
      rightSweep.constTerms[i] := constTerm;
    }

    /** The coefficient writes of calcNextApproximationZ for the radii `valR`:
        every entry of the four vectors is overwritten. */
    method AssembleZ(lib: Libm, c: ForceContext, valQ: real, valR: array<real>)
      requires Valid() && pointsNum >= 3 && c.WellFormed() && c.Size() == pointsNum && c.step == step
      requires valR.Length == pointsNum && valR !in SweepArrays()
      modifies rightSweep.lowerDiagonal, rightSweep.mainDiagonal, rightSweep.upperDiagonal, rightSweep.constTerms
      ensures rightSweep.System() == ZSystem(lib, valR[..], ZConstTerms(lib, c, valQ, valR[..]))
    {
      var n := pointsNum;
      var lower, main, upper, constTerms :=
        rightSweep.lowerDiagonal, rightSweep.mainDiagonal, rightSweep.upperDiagonal, rightSweep.constTerms;
      ghost var r := valR[..];
      SetZBoundaryRows(lib, c, valQ, r);
      var limit := n - 2;
      var i := 1;
      while i < limit
        invariant 1 <= i <= limit
        invariant forall k :: 0 <= k < n - 1 && (k < i - 1 || k >= n - 3) ==> lower[k] == ZLowerAt(lib, r, k)
        invariant forall k :: 0 <= k < n && (k < i || k >= n - 2) ==> main[k] == ZMainAt(lib, r, k)
        invariant forall k :: 0 <= k < n - 1 && (k < i || k == n - 2) ==> upper[k] == ZUpperAt(lib, r, k)
        invariant forall k :: 0 <= k < n && (k < i || k >= n - 2) ==> constTerms[k] == ZConstTerm(lib, c, valQ, r, k)
      {
        SetZInteriorRow(lib, c, valQ, valR, i);
        i := i + 1;
      }
      ZSystemEntries(lib, r, lower[..], main[..], upper[..], constTerms[..]);
      ZConstTermsEntries(lib, c, valQ, r, constTerms[..]);
    }

    /** calcNextApproximationR(valZ, prevValZ): assemble the r system from the
        current radii, prevValZ (for the integrals) and valZ (for the
        constants), then solve it into mNextApproxR. That system is always
        diagonally dominant with nonzero pivots, so the sweep never stops and
        its result satisfies every row. */
    method CalcNextApproximationR(lib: Libm, valZ: array<real>, prevValZ: array<real>) returns (status: SolveStatus)
      requires Valid() && pointsNum >= 3
      requires valZ.Length == pointsNum && prevValZ.Length == pointsNum
      requires valZ !in SweepArrays() && prevValZ !in SweepArrays()
      requires valZ != nextApproxR && prevValZ != nextApproxR
      modifies SweepArrays(), nextApproxR
      ensures status == Solved
      ensures var c := Context(lib, curApproxR[..], prevValZ[..]);
        rightSweep.System() == RSystem(pointsNum, RConstTerms(lib, c, PressureQ(lib, c), valZ[..]))
      ensures Solves(rightSweep.System(), nextApproxR[..])
    {
      var integral := CalcIntegralTrapeze(curApproxR, prevValZ);
      var integralCbrt := lib.cbrt(integral);
      var valQ := CalcQ(lib, curApproxR, prevValZ, integralCbrt);
      var c := Context(lib, curApproxR[..], prevValZ[..]);
      AssembleR(lib, c, valQ, valZ);
      ghost var constTerms := RConstTerms(lib, c, valQ, valZ[..]);
      RSystemDominant(pointsNum, constTerms);
      status := rightSweep.Solve(lib, nextApproxR);
      RSystemPivots(lib, pointsNum, constTerms, rightSweep.alpha[..]);
    }

    /** calcNextApproximationZ(valR, prevValR): assemble the z system from
        prevValR and the current heights (for the integrals) and the radii valR
        (for the coefficients and constants), then solve it into
        mNextApproxZ. For positive radii the system is diagonally dominant with
        nonzero pivots, so the result satisfies every row; otherwise a pedantic
        sweep may stop the program. */
    method CalcNextApproximationZ(lib: Libm, valR: array<real>, prevValR: array<real>) returns (status: SolveStatus)
      requires Valid() && pointsNum >= 3
      requires valR.Length == pointsNum && prevValR.Length == pointsNum
      requires valR !in SweepArrays() && prevValR !in SweepArrays()
      requires valR != nextApproxZ && prevValR != nextApproxZ
      modifies SweepArrays(), nextApproxZ
      ensures var c := Context(lib, prevValR[..], curApproxZ[..]);
        rightSweep.System() == ZSystem(lib, valR[..], ZConstTerms(lib, c, PressureQ(lib, c), valR[..]))
      ensures status == Terminated <==> rightSweep.isPedantic && !DiagonallyDominant(rightSweep.System())
      ensures status != Terminated && PositiveRadii(valR[..]) ==> Solves(rightSweep.System(), nextApproxZ[..])
      ensures PositiveRadii(valR[..]) ==> status == Solved
    {
      var integral := CalcIntegralTrapeze(prevValR, curApproxZ);
      var integralCbrt := lib.cbrt(integral);
      var valQ := CalcQ(lib, prevValR, curApproxZ, integralCbrt);
      var c := Context(lib, prevValR[..], curApproxZ[..]);
      AssembleZ(lib, c, valQ, valR);
      ghost var r := valR[..];
      ghost var constTerms := ZConstTerms(lib, c, valQ, r);
      if PositiveRadii(r) {
        ZSystemDominant(lib, r, constTerms);
      }
      status := rightSweep.Solve(lib, nextApproxZ);
      if status != Terminated && PositiveRadii(r) {
        ZSystemPivots(lib, r, constTerms, rightSweep.alpha[..]);
      }
    }

    /** The r half of a relaxation step: solve the r system of the current
        profile into mNextApproxR, then relax it towards mCurApproxR. */
    method AdvanceR(lib: Libm)
      requires Valid() && pointsNum >= 3
      modifies SweepArrays(), nextApproxR
      ensures var c := Context(lib, curApproxR[..], curApproxZ[..]);
        exists x :: Solves(RSystem(pointsNum, RConstTerms(lib, c, PressureQ(lib, c), c.approxZ)), x) &&
                    RelaxedFrom(c.approxR, nextApproxR[..], x, curRelaxationParam)
    {
      ghost var c := Context(lib, curApproxR[..], curApproxZ[..]);
      var status := CalcNextApproximationR(lib, curApproxZ, curApproxZ);
      ghost var solved := nextApproxR[..];
      assert Solves(RSystem(pointsNum, RConstTerms(lib, c, PressureQ(lib, c), c.approxZ)), solved);
      MathExt.Relaxation(nextApproxR, curApproxR, curRelaxationParam);
      assert RelaxedFrom(c.approxR, nextApproxR[..], solved, curRelaxationParam);
      assert c == Context(lib, curApproxR[..], curApproxZ[..]);
    }

    /** The z half of a relaxation step: solve the z system built on the new
        radii mNextApproxR into mNextApproxZ, then relax it towards
        mCurApproxZ, unless a pedantic sweep stops first. */
    method AdvanceZ(lib: Libm) returns (status: SolveStatus)
      requires Valid() && pointsNum >= 3
      modifies SweepArrays(), nextApproxZ
      ensures status == Terminated ==> rightSweep.isPedantic
      ensures status != Terminated ==>
        var c := Context(lib, curApproxR[..], curApproxZ[..]);
        var r := nextApproxR[..];
        exists y :: (PositiveRadii(r) ==> Solves(ZSystem(lib, r, ZConstTerms(lib, c, PressureQ(lib, c), r)), y)) &&
                    RelaxedFrom(c.approxZ, nextApproxZ[..], y, curRelaxationParam)
    {
      ghost var c := Context(lib, curApproxR[..], curApproxZ[..]);
      status := CalcNextApproximationZ(lib, nextApproxR, curApproxR);
      if status == Terminated {
        return;
      }
      ghost var r := nextApproxR[..];
      ghost var solved := nextApproxZ[..];
      assert PositiveRadii(r) ==> Solves(ZSystem(lib, r, ZConstTerms(lib, c, PressureQ(lib, c), r)), solved);
      MathExt.Relaxation(nextApproxZ, curApproxZ, curRelaxationParam);
      assert RelaxedFrom(c.approxZ, nextApproxZ[..], solved, curRelaxationParam);
      assert c == Context(lib, curApproxR[..], curApproxZ[..]) && r == nextApproxR[..];
    }

    /** The body of calcRelaxation's do-while loop: swap each pair of buffers,
        compute and relax the next radii, then the next heights from them. */
    method RelaxationStep(lib: Libm) returns (status: SolveStatus)
      requires Valid() && pointsNum >= 3
      modifies this, nextApproxR, nextApproxZ, curApproxR, curApproxZ, SweepArrays()
      ensures Valid()
      ensures State() == old(State()).(nextApproxR := old(curApproxR), curApproxR := old(nextApproxR),
                                       nextApproxZ := old(curApproxZ), curApproxZ := old(nextApproxZ))
      ensures curApproxR[..] == old(nextApproxR[..]) && curApproxZ[..] == old(nextApproxZ[..])
      ensures status == Terminated ==> rightSweep.isPedantic
      ensures status != Terminated ==>
        RelaxationStepFrom(lib, Context(lib, curApproxR[..], curApproxZ[..]), nextApproxR[..], nextApproxZ[..],
                           curRelaxationParam)
    {
      nextApproxR, curApproxR := curApproxR, nextApproxR;
      nextApproxZ, curApproxZ := curApproxZ, nextApproxZ;
      status := Advance(lib);
    }

    /** The two halves of a relaxation step on the buffers as they are. */
    method Advance(lib: Libm) returns (status: SolveStatus)
      requires Valid() && pointsNum >= 3
      modifies nextApproxR, nextApproxZ, SweepArrays()
      ensures status == Terminated ==> rightSweep.isPedantic
      ensures status != Terminated ==> Stepped(lib)
    {
      AdvanceR(lib);
      status := AdvanceZ(lib);
    }

    /** The first loop of calcRelaxation: seed the next buffers with the last
        valid profile. */
    method SeedFromLastValid()
      requires Valid()
      modifies nextApproxR, nextApproxZ
      ensures nextApproxR[..] == Rs(lastValidResult) && nextApproxZ[..] == Zs(lastValidResult)
    {
      var i := 0;
      while i < pointsNum
        invariant 0 <= i <= pointsNum
        invariant forall k :: 0 <= k < i ==> nextApproxR[k] == lastValidResult[k].r && nextApproxZ[k] == lastValidResult[k].z
      {
        nextApproxR[i] := lastValidResult[i].r;
        nextApproxZ[i] := lastValidResult[i].z;
        i := i + 1;
      }
    }

    /** The last loop of calcRelaxation: store the accepted profile. */
    method StoreLastValid()
      requires Valid()
      modifies this`lastValidResult
      ensures Valid()
      ensures State() == old(State()).(lastValidResult := Zip(nextApproxR[..], nextApproxZ[..]))
    {
      var i := 0;
      while i < pointsNum
        invariant 0 <= i <= pointsNum && Valid()
        invariant State() == old(State()).(lastValidResult := lastValidResult)
        invariant |lastValidResult| == pointsNum
        invariant forall k :: 0 <= k < i ==> lastValidResult[k] == Vec2(nextApproxR[k], nextApproxZ[k])
      {
        lastValidResult := lastValidResult[i := Vec2(nextApproxR[i], nextApproxZ[i])];
        i := i + 1;
      }
      assert lastValidResult == Zip(nextApproxR[..], nextApproxZ[..]);
    }

    /** The four approximation buffers are the given ones, either in their
        places or with both pairs swapped. */
    predicate HoldsBuffers(nextR: array<real>, curR: array<real>, nextZ: array<real>, curZ: array<real>)
      reads this
    {
      (nextApproxR == nextR && curApproxR == curR && nextApproxZ == nextZ && curApproxZ == curZ) ||
      (nextApproxR == curR && curApproxR == nextR && nextApproxZ == curZ && curApproxZ == nextZ)
    }

    /** What the latest relaxation step established about the four buffers:
        the next profile relaxes solutions of the systems of the current one. */
    ghost predicate Stepped(lib: Libm)
      requires pointsNum >= 3 && |derivatives| == pointsNum
      requires nextApproxR.Length == pointsNum && nextApproxZ.Length == pointsNum
      requires curApproxR.Length == pointsNum && curApproxZ.Length == pointsNum
      reads this`params, this`derivatives, this`curRelaxationParam
      reads this`nextApproxR, this`nextApproxZ, this`curApproxR, this`curApproxZ
      reads nextApproxR, nextApproxZ, curApproxR, curApproxZ
    {
      RelaxationStepFrom(lib, Context(lib, curApproxR[..], curApproxZ[..]), nextApproxR[..], nextApproxZ[..],
                         curRelaxationParam)
    }

    /** The profile held in the next buffers and the one in the current
        buffers. */
    function NextProfile(): (seq<real>, seq<real>)
      reads this`nextApproxR, this`nextApproxZ, nextApproxR, nextApproxZ
    {
      (nextApproxR[..], nextApproxZ[..])
    }

    function CurProfile(): (seq<real>, seq<real>)
      reads this`curApproxR, this`curApproxZ, curApproxR, curApproxZ
    {
      (curApproxR[..], curApproxZ[..])
    }

    /** The last two profiles of `t` are the ones in the current and the next
        buffers. */
    ghost predicate EndsAtBuffers(t: seq<(seq<real>, seq<real>)>)
      reads this`nextApproxR, this`nextApproxZ, this`curApproxR, this`curApproxZ
      reads nextApproxR, nextApproxZ, curApproxR, curApproxZ
    {
      |t| >= 2 && t[|t| - 1] == NextProfile() && t[|t| - 2] == CurProfile()
    }

    /** The condition of calcRelaxation's do-while loop: the larger of the
        norms of the radius change and of the heights against themselves
        exceeds `curEpsilon`, and fewer than iterationsNumMax steps have run.
        Since the height norm is zero, only the radii decide. */
    method ShouldContinue(curEpsilon: real, counter: int) returns (running: bool)
      requires Valid()
      ensures running <==> !WithinTolerance(nextApproxR[..], curApproxR[..], curEpsilon) &&
                           counter < params.iterationsNumMax
    {
      var normR := Util.Norm(nextApproxR, curApproxR, pointsNum);
      var normZ := Util.Norm(nextApproxZ, nextApproxZ, pointsNum);
      assert normZ.value == 0.0;
      running := Max(normR.value, normZ.value) > curEpsilon && counter < params.iterationsNumMax;
    }

    /** One pass of calcRelaxation's do-while body, recorded as one more
        profile of the trajectory `t` that ends at the next buffers. */
    method StepTrajectory(lib: Libm, ghost forces: ForceContext, ghost param: real, ghost t: seq<(seq<real>, seq<real>)>)
      returns (status: SolveStatus, ghost t': seq<(seq<real>, seq<real>)>)
      requires Valid() && pointsNum >= 3 && forces == Forces() && param == curRelaxationParam
      requires Trajectory(lib, forces, param, t) && t[|t| - 1] == NextProfile()
      modifies this, nextApproxR, nextApproxZ, curApproxR, curApproxZ, SweepArrays()
      ensures Valid()
      ensures State() == old(State()).(nextApproxR := old(curApproxR), curApproxR := old(nextApproxR),
                                       nextApproxZ := old(curApproxZ), curApproxZ := old(nextApproxZ))
      ensures status == Terminated ==> rightSweep.isPedantic
      ensures status != Terminated ==>
        Trajectory(lib, forces, param, t') && EndsAtBuffers(t') && t' == t + [NextProfile()]
    {
      ghost var last := NextProfile();
      status := RelaxationStep(lib);
      t' := t;
      if status != Terminated {
        assert CurProfile() == last;
        ExtendAtBuffers(lib, t);
        AppendNextEndsAtBuffers(t);
        t' := t + [NextProfile()];
      }
    }

    /** A trajectory ending at the profile of the current buffers extends by
        the step the buffers record. */
    lemma ExtendAtBuffers(lib: Libm, t: seq<(seq<real>, seq<real>)>)
      requires Valid() && pointsNum >= 3 && Stepped(lib)
      requires Trajectory(lib, Forces(), curRelaxationParam, t) && t[|t| - 1] == CurProfile()
      ensures Trajectory(lib, Forces(), curRelaxationParam, t + [NextProfile()])
    {
      ContextReframed(lib, curApproxR[..], curApproxZ[..]);
      TrajectoryExtend(lib, Forces(), curRelaxationParam, t, nextApproxR[..], nextApproxZ[..]);
    }

    /** Appending the next profile to a sequence ending at the current one
        gives a sequence ending at both buffers. */
    lemma AppendNextEndsAtBuffers(t: seq<(seq<real>, seq<real>)>)
      requires |t| >= 1 && t[|t| - 1] == CurProfile()
      ensures EndsAtBuffers(t + [NextProfile()])
    {
      var t' := t + [NextProfile()];
      assert t'[|t'| - 2] == t[|t| - 1];
    }

    /** The last step of a trajectory ending at the current and next buffers
        is the step the buffers record. */
    lemma RanStepped(lib: Libm, t: seq<(seq<real>, seq<real>)>)
      requires Valid() && pointsNum >= 3 && Trajectory(lib, Forces(), curRelaxationParam, t) && EndsAtBuffers(t)
      ensures Stepped(lib)
    {
      TrajectorySteps(lib, Forces(), curRelaxationParam, t, |t| - 2);
      ContextReframed(lib, curApproxR[..], curApproxZ[..]);
    }

    /** The do-while loop of calcRelaxation after its first pass, entered with
        `counter` steps done and the loop condition true; `t0` is the
        trajectory so far. */
    method ContinueRelaxation(lib: Libm, curEpsilon: real, counter0: int, ghost t0: seq<(seq<real>, seq<real>)>)
      returns (counter: int, terminated: bool, ghost t: seq<(seq<real>, seq<real>)>)
      requires Valid() && pointsNum >= 3
      requires counter0 < params.iterationsNumMax
      requires Trajectory(lib, Forces(), curRelaxationParam, t0) && EndsAtBuffers(t0) && |t0| == counter0 + 1
      modifies this, nextApproxR, nextApproxZ, curApproxR, curApproxZ, SweepArrays()
      ensures Valid()
      ensures State() == old(State()).(nextApproxR := nextApproxR, nextApproxZ := nextApproxZ,
                                       curApproxR := curApproxR, curApproxZ := curApproxZ)
      ensures HoldsBuffers(old(nextApproxR), old(curApproxR), old(nextApproxZ), old(curApproxZ))
      ensures terminated ==> rightSweep.isPedantic
      ensures !terminated ==> counter > counter0 && |t| == counter + 1 && t[0] == t0[0]
      ensures !terminated ==> Trajectory(lib, Forces(), curRelaxationParam, t) && EndsAtBuffers(t)
      ensures !terminated && counter < params.iterationsNumMax ==>
        WithinTolerance(nextApproxR[..], curApproxR[..], curEpsilon)
    {
      counter, terminated, t := counter0, false, t0;
      ghost var forces, param := Forces(), curRelaxationParam;
      var running := true;
      while running
        invariant Valid() && counter0 <= counter
        invariant State() == old(State()).(nextApproxR := nextApproxR, nextApproxZ := nextApproxZ,
                                           curApproxR := curApproxR, curApproxZ := curApproxZ)
        invariant HoldsBuffers(old(nextApproxR), old(curApproxR), old(nextApproxZ), old(curApproxZ))
        invariant Trajectory(lib, forces, param, t) && EndsAtBuffers(t) && |t| == counter + 1 && t[0] == t0[0]
        invariant running ==> counter < params.iterationsNumMax
        invariant !running ==> counter > counter0
        invariant !running && counter < params.iterationsNumMax ==>
          WithinTolerance(nextApproxR[..], curApproxR[..], curEpsilon)
        decreases running, params.iterationsNumMax - counter
      {
        var status;
        status, t := StepTrajectory(lib, forces, param, t);
        if status == Terminated {
          return counter, true, t;
        }
        counter := counter + 1;
        running := ShouldContinue(curEpsilon, counter);
      }
    }

    /** The seeding loop and the do-while loop of calcRelaxation. The loop
        leaves after `counter` steps once the radii move by at most
        `curEpsilon` or the step limit is reached, or as soon as a pedantic
        sweep stops. */
    method IterateRelaxation(lib: Libm, curEpsilon: real)
      returns (counter: int, terminated: bool, ghost t: seq<(seq<real>, seq<real>)>)
      requires Valid() && pointsNum >= 3
      modifies this, nextApproxR, nextApproxZ, curApproxR, curApproxZ, SweepArrays()
      ensures Valid()
      ensures State() == old(State()).(nextApproxR := nextApproxR, nextApproxZ := nextApproxZ,
                                       curApproxR := curApproxR, curApproxZ := curApproxZ)
      ensures HoldsBuffers(old(nextApproxR), old(curApproxR), old(nextApproxZ), old(curApproxZ))
      ensures terminated ==> rightSweep.isPedantic
      ensures !terminated ==> counter >= 1 && Stepped(lib)
      ensures !terminated ==>
        Trajectory(lib, Forces(), curRelaxationParam, t) && EndsAtBuffers(t) &&
        |t| == counter + 1 && t[0] == (Rs(lastValidResult), Zs(lastValidResult))
      ensures !terminated && counter < params.iterationsNumMax ==>
        WithinTolerance(nextApproxR[..], curApproxR[..], curEpsilon)
    {
      SeedFromLastValid();
      t := [NextProfile()];
      var status;
      status, t := StepTrajectory(lib, Forces(), curRelaxationParam, t);
      if status == Terminated {
        return 0, true, t;
      }
      var running := ShouldContinue(curEpsilon, 1);
      if running {
        counter, terminated, t := ContinueRelaxation(lib, curEpsilon, 1, t);
      } else {
        counter, terminated := 1, false;
      }
      if !terminated {
        RanStepped(lib, t);
      }
    }


    /** The end of calcRelaxation once the iteration limit was not hit: the
        profile is kept as the last valid result when both buffers are valid,
        and nothing changes otherwise. */
    method AcceptIfValid(lib: Libm) returns (code: ResultCode)
      requires Valid()
      modifies this`lastValidResult
      ensures Valid()
      ensures var valid := ValidApproximation(lib, nextApproxR[..]) && ValidApproximation(lib, nextApproxZ[..]);
        (code == FluidSuccess <==> valid) && (code == FluidInvalidResult <==> !valid)
      ensures code == FluidSuccess ==>
        State() == old(State()).(lastValidResult := Zip(nextApproxR[..], nextApproxZ[..]))
      ensures code != FluidSuccess ==> State() == old(State())
    {
      var validR := IsApproximationValid(lib, nextApproxR);
      var validZ := validR;
      if validR {
        validZ := IsApproximationValid(lib, nextApproxZ);
      }
      if !validR || !validZ {
        return FluidInvalidResult;
      }
      StoreLastValid();
      code := FluidSuccess;
    }
    /** calcRelaxation: starting from the last valid profile, repeat relaxation
        steps until the radii move by at most epsilon * relaxationParam (the
        heights are compared with themselves, so they never hold the loop) or
        iterationsNumMax steps have run. Hitting the limit takes precedence over
        an invalid result; only a result that is valid everywhere replaces the
        last valid profile. */
    method CalcRelaxation(lib: Libm) returns (outcome: RelaxationOutcome, ghost t: seq<(seq<real>, seq<real>)>)
      requires Valid() && pointsNum >= 3
      modifies this, nextApproxR, nextApproxZ, curApproxR, curApproxZ, SweepArrays()
      ensures Valid()
      ensures params == old(params) && derivatives == old(derivatives) && curRelaxationParam == old(curRelaxationParam)
      ensures HoldsBuffers(old(nextApproxR), old(curApproxR), old(nextApproxZ), old(curApproxZ))
      ensures outcome == SweepTerminated ==> rightSweep.isPedantic
      ensures outcome.Finished? ==>
        var steps := iterationsCounter - old(iterationsCounter);
        var valid := ValidApproximation(lib, nextApproxR[..]) && ValidApproximation(lib, nextApproxZ[..]);
        steps >= 1 && Stepped(lib) &&
        Trajectory(lib, old(Forces()), old(curRelaxationParam), t) && EndsAtBuffers(t) && |t| == steps + 1 &&
        t[0] == (Rs(old(lastValidResult)), Zs(old(lastValidResult))) &&
        (outcome.code == FluidIterationsLimitExceeded <==> steps >= params.iterationsNumMax) &&
        (outcome.code == FluidInvalidResult <==> steps < params.iterationsNumMax && !valid) &&
        (outcome.code == FluidSuccess <==> steps < params.iterationsNumMax && valid)
      ensures outcome == Finished(FluidSuccess) ==>
        lastValidResult == Zip(nextApproxR[..], nextApproxZ[..]) &&
        WithinTolerance(nextApproxR[..], curApproxR[..], StopTolerance(params, curRelaxationParam))
      ensures outcome != Finished(FluidSuccess) ==> lastValidResult == old(lastValidResult)
    {
      var curEpsilon := StopTolerance(params, curRelaxationParam);
      var counter, terminated;
      counter, terminated, t := IterateRelaxation(lib, curEpsilon);
      if terminated {
        outcome := SweepTerminated;
      } else {
        iterationsCounter := iterationsCounter + counter;
        if counter >= params.iterationsNumMax {
          outcome := Finished(FluidIterationsLimitExceeded);
        } else {
          var code := AcceptIfValid(lib);
          outcome := Finished(code);
        }
      }
    }
  }
}
