/** RightSweep.cpp: the tridiagonal matrix algorithm (Thomas algorithm,
    "right sweep"). A system of `size` equations is stored as three diagonals
    and a vector of constant terms; `solve` checks diagonal dominance, computes
    the sweep coefficients alpha and beta forwards and substitutes backwards. */
module Sweep {
  import opened Numerics

  /** The four stored vectors of a system: row i reads
      lower[i-1] * x[i-1] + main[i] * x[i] + upper[i] * x[i+1] = constTerms[i],
      with the out-of-range terms absent in the first and the last row. */
  datatype Tridiagonal = Tridiagonal(lower: seq<real>, main: seq<real>, upper: seq<real>, constTerms: seq<real>)
  {
    /** The sizes the constructor gives the vectors. */
    predicate WellFormed()
    {
      |main| >= 1 && |lower| == |main| - 1 && |upper| == |main| - 1 && |constTerms| == |main|
    }

    function Size(): int { |main| }
  }

  /** The pivot of row i for the alphas `a`: the denominator shared by
      alpha(i) and beta(i). */
  function Pivot(s: Tridiagonal, a: seq<real>, i: int): real
    requires s.WellFormed() && |a| == s.Size() - 1 && 0 <= i < s.Size()
  {
    if i == 0 then s.main[0] else s.main[i] + s.lower[i - 1] * a[i - 1]
  }

  /** Entry i of `a` is the alpha RightSweep::calcAlpha computes from entry i - 1. */
  predicate AlphaStep(s: Tridiagonal, lib: Libm, a: seq<real>, i: int)
    requires s.WellFormed() && |a| == s.Size() - 1 && 0 <= i < s.Size() - 1
  {
    a[i] == Div(lib, -s.upper[i], Pivot(s, a, i))
  }

  /** The numerator of beta(i) for the betas `b`. */
  function BetaNumerator(s: Tridiagonal, b: seq<real>, i: int): real
    requires s.WellFormed() && |b| == s.Size() && 0 <= i < s.Size()
  {
    if i == 0 then s.constTerms[0] else s.constTerms[i] - s.lower[i - 1] * b[i - 1]
  }

  /** Entry i of `b` is the beta RightSweep::calcBeta computes from entry i - 1. */
  predicate BetaStep(s: Tridiagonal, lib: Libm, a: seq<real>, b: seq<real>, i: int)
    requires s.WellFormed() && |a| == s.Size() - 1 && |b| == s.Size() && 0 <= i < s.Size()
  {
    b[i] == Div(lib, BetaNumerator(s, b, i), Pivot(s, a, i))
  }

  /** Entry i of `x` is what RightSweep::reversal substitutes back:
      x(n-1) = beta(n-1) and x(i) = alpha(i) * x(i+1) + beta(i). */
  predicate BackStep(a: seq<real>, b: seq<real>, x: seq<real>, i: int)
    requires |b| == |a| + 1 && |x| == |b| && 0 <= i < |x|
  {
    x[i] == if i == |x| - 1 then b[i] else a[i] * x[i + 1] + b[i]
  }

  /** AlphaStep at i reads only entries i - 1 and i of the alphas. */
  lemma AlphaStepFrame(s: Tridiagonal, lib: Libm, a: seq<real>, a2: seq<real>, i: int)
    requires s.WellFormed() && |a| == s.Size() - 1 && |a2| == |a| && 0 <= i < s.Size() - 1
    requires a2[i] == a[i] && (i > 0 ==> a2[i - 1] == a[i - 1])
    requires AlphaStep(s, lib, a, i)
    ensures AlphaStep(s, lib, a2, i)
  {
    assert Pivot(s, a2, i) == Pivot(s, a, i);
  }

  /** BetaStep at i reads only entries i - 1 and i of the betas, for fixed alphas. */
  lemma BetaStepFrame(s: Tridiagonal, lib: Libm, a: seq<real>, b: seq<real>, b2: seq<real>, i: int)
    requires s.WellFormed() && |a| == s.Size() - 1 && |b| == s.Size() && |b2| == |b| && 0 <= i < s.Size()
    requires b2[i] == b[i] && (i > 0 ==> b2[i - 1] == b[i - 1])
    requires BetaStep(s, lib, a, b, i)
    ensures BetaStep(s, lib, a, b2, i)
  {
    assert BetaNumerator(s, b2, i) == BetaNumerator(s, b, i);
  }

  /** BackStep at i reads only entries i and i + 1 of the solution. */
  lemma BackStepFrame(a: seq<real>, b: seq<real>, x: seq<real>, x2: seq<real>, i: int)
    requires |b| == |a| + 1 && |x| == |b| && |x2| == |x| && 0 <= i < |x|
    requires x2[i] == x[i] && (i < |x| - 1 ==> x2[i + 1] == x[i + 1])
    requires BackStep(a, b, x, i)
    ensures BackStep(a, b, x2, i)
  {
  }

  /** `a`, `b` and `x` are the alphas, betas and solution the sweep computes
      for the system `s`. */
  predicate IsSweep(s: Tridiagonal, lib: Libm, a: seq<real>, b: seq<real>, x: seq<real>)
    requires s.WellFormed()
  {
    |a| == s.Size() - 1 && |b| == s.Size() && |x| == s.Size() &&
    (forall i :: 0 <= i < s.Size() - 1 ==> AlphaStep(s, lib, a, i)) &&
    (forall i :: 0 <= i < s.Size() ==> BetaStep(s, lib, a, b, i)) &&
    (forall i :: 0 <= i < s.Size() ==> BackStep(a, b, x, i))
  }

  /** The left-hand side of row i for a candidate solution x. */
  function RowValue(s: Tridiagonal, x: seq<real>, i: int): real
    requires s.WellFormed() && s.Size() >= 2 && |x| == s.Size() && 0 <= i < s.Size()
  {
    if i == 0 then s.main[0] * x[0] + s.upper[0] * x[1]
    else if i == s.Size() - 1 then s.lower[i - 1] * x[i - 1] + s.main[i] * x[i]
    else s.lower[i - 1] * x[i - 1] + s.main[i] * x[i] + s.upper[i] * x[i + 1]
  }

  /** What RightSweep::isValid accepts: no row whose main-diagonal magnitude is
      below the sum of the off-diagonal magnitudes (non-strict dominance). */
  predicate DiagonallyDominant(s: Tridiagonal)
    requires s.WellFormed() && s.Size() >= 2
  {
    var n := s.Size();
    !(Abs(s.main[0]) < Abs(s.upper[0])) &&
    !(Abs(s.main[n - 1]) < Abs(s.lower[n - 2])) &&
    forall i :: 1 <= i < n - 1 ==> !(Abs(s.main[i]) < Abs(s.lower[i - 1]) + Abs(s.upper[i]))
  }

  /** Row i's main-diagonal magnitude exceeds the sum of its off-diagonal ones. */
  predicate StrictRow(s: Tridiagonal, i: int)
    requires s.WellFormed() && 0 <= i < s.Size()
  {
    Abs(s.main[i]) >
      (if i == 0 then 0.0 else Abs(s.lower[i - 1])) + (if i == s.Size() - 1 then 0.0 else Abs(s.upper[i]))
  }

  /** Strict diagonal dominance, the textbook sufficient condition for the sweep. */
  predicate StrictlyDominant(s: Tridiagonal)
    requires s.WellFormed()
  {
    forall i :: 0 <= i < s.Size() ==> StrictRow(s, i)
  }

  /** The algebra of one row: with pivot p = m + l * alphaPrev, the sweep
      coefficients multiplied back by p and the back substitution make the row
      hold. */
  lemma RowIdentity(l: real, m: real, u: real, c: real, p: real, alphaPrev: real, betaPrev: real,
                    alpha: real, beta: real, xPrev: real, x: real, xNext: real)
    requires p == m + l * alphaPrev
    requires alpha * p == -u
    requires beta * p == c - l * betaPrev
    requires xPrev == alphaPrev * x + betaPrev
    requires x == alpha * xNext + beta
    ensures l * xPrev + m * x + u * xNext == c
  {
    calc {
      l * xPrev + m * x + u * xNext;
      l * (alphaPrev * x + betaPrev) + m * x + u * xNext;
      p * x + l * betaPrev + u * xNext;
      p * (alpha * xNext + beta) + l * betaPrev + u * xNext;
      (alpha * p) * xNext + beta * p + l * betaPrev + u * xNext;
      c;
    }
  }

  /** The algebra of the first row, which has no lower-diagonal term. */
  lemma FirstRowIdentity(m: real, u: real, c: real, alpha: real, beta: real, x: real, xNext: real)
    requires alpha * m == -u && beta * m == c
    requires x == alpha * xNext + beta
    ensures m * x + u * xNext == c
  {
    calc {
      m * x + u * xNext;
      m * (alpha * xNext + beta) + u * xNext;
      (alpha * m) * xNext + beta * m + u * xNext;
      c;
    }
  }

  /** The algebra of the last row, which has no upper-diagonal term. */
  lemma LastRowIdentity(l: real, m: real, c: real, p: real, alphaPrev: real, betaPrev: real, xPrev: real, x: real)
    requires p == m + l * alphaPrev
    requires x * p == c - l * betaPrev
    requires xPrev == alphaPrev * x + betaPrev
    ensures l * xPrev + m * x == c
  {
    calc {
      l * xPrev + m * x;
      l * (alphaPrev * x + betaPrev) + m * x;
      x * p + l * betaPrev;
      c;
    }
  }

  /** Dividing by a non-zero pivot is undone by multiplying by it. */
  lemma DivByPivot(lib: Libm, a: real, p: real)
    requires p != 0.0
    ensures Div(lib, a, p) * p == a
  {
  }

  /** A computed alpha, multiplied back by its non-zero pivot. */
  lemma AlphaTimesPivot(s: Tridiagonal, lib: Libm, a: seq<real>, i: int)
    requires s.WellFormed() && |a| == s.Size() - 1 && 0 <= i < s.Size() - 1
    requires AlphaStep(s, lib, a, i) && Pivot(s, a, i) != 0.0
    ensures a[i] * Pivot(s, a, i) == -s.upper[i]
  {
    DivByPivot(lib, -s.upper[i], Pivot(s, a, i));
  }

  /** A computed beta, multiplied back by its non-zero pivot. */
  lemma BetaTimesPivot(s: Tridiagonal, lib: Libm, a: seq<real>, b: seq<real>, i: int)
    requires s.WellFormed() && |a| == s.Size() - 1 && |b| == s.Size() && 0 <= i < s.Size()
    requires BetaStep(s, lib, a, b, i) && Pivot(s, a, i) != 0.0
    ensures i == 0 ==> b[0] * s.main[0] == s.constTerms[0]
    ensures i > 0 ==> b[i] * Pivot(s, a, i) == s.constTerms[i] - s.lower[i - 1] * b[i - 1]
  {
    DivByPivot(lib, BetaNumerator(s, b, i), Pivot(s, a, i));
  }

  /** The first row holds for the sweep's solution when its pivot is non-zero. */
  lemma FirstRowHolds(s: Tridiagonal, lib: Libm, a: seq<real>, b: seq<real>, x: seq<real>)
    requires s.WellFormed() && s.Size() >= 2 && IsSweep(s, lib, a, b, x)
    requires Pivot(s, a, 0) != 0.0
    ensures RowValue(s, x, 0) == s.constTerms[0]
  {
    assert AlphaStep(s, lib, a, 0) && BetaStep(s, lib, a, b, 0) && BackStep(a, b, x, 0);
    AlphaTimesPivot(s, lib, a, 0);
    BetaTimesPivot(s, lib, a, b, 0);
    FirstRowIdentity(s.main[0], s.upper[0], s.constTerms[0], a[0], b[0], x[0], x[1]);
  }

  /** The last row holds for the sweep's solution when its pivot is non-zero. */
  lemma LastRowHolds(s: Tridiagonal, lib: Libm, a: seq<real>, b: seq<real>, x: seq<real>)
    requires s.WellFormed() && s.Size() >= 2 && IsSweep(s, lib, a, b, x)
    requires Pivot(s, a, s.Size() - 1) != 0.0
    ensures RowValue(s, x, s.Size() - 1) == s.constTerms[s.Size() - 1]
  {
    var i := s.Size() - 1;
    assert BetaStep(s, lib, a, b, i) && BackStep(a, b, x, i) && BackStep(a, b, x, i - 1);
    BetaTimesPivot(s, lib, a, b, i);
    LastRowIdentity(s.lower[i - 1], s.main[i], s.constTerms[i], Pivot(s, a, i), a[i - 1], b[i - 1], x[i - 1], x[i]);
  }

  /** An interior row holds for the sweep's solution when its pivot is non-zero. */
  lemma InteriorRowHolds(s: Tridiagonal, lib: Libm, a: seq<real>, b: seq<real>, x: seq<real>, i: int)
    requires s.WellFormed() && IsSweep(s, lib, a, b, x) && 0 < i < s.Size() - 1
    requires Pivot(s, a, i) != 0.0
    ensures RowValue(s, x, i) == s.constTerms[i]
  {
    assert AlphaStep(s, lib, a, i) && BetaStep(s, lib, a, b, i);
    assert BackStep(a, b, x, i) && BackStep(a, b, x, i - 1);
    AlphaTimesPivot(s, lib, a, i);
    BetaTimesPivot(s, lib, a, b, i);
    RowIdentity(s.lower[i - 1], s.main[i], s.upper[i], s.constTerms[i], Pivot(s, a, i), a[i - 1], b[i - 1],
                a[i], b[i], x[i - 1], x[i], x[i + 1]);
  }

  /** The sweep solves the system whenever no pivot vanishes: every row of
      the system holds for the back-substituted unknowns. */
  lemma SweepSolvesSystem(s: Tridiagonal, lib: Libm, a: seq<real>, b: seq<real>, x: seq<real>)
    requires s.WellFormed() && s.Size() >= 2 && IsSweep(s, lib, a, b, x)
    requires forall i :: 0 <= i < s.Size() ==> Pivot(s, a, i) != 0.0
    ensures forall i :: 0 <= i < s.Size() ==> RowValue(s, x, i) == s.constTerms[i]
  {
    forall i | 0 <= i < s.Size()
      ensures RowValue(s, x, i) == s.constTerms[i]
    {
      if i == 0 {
        FirstRowHolds(s, lib, a, b, x);
      } else if i == s.Size() - 1 {
        LastRowHolds(s, lib, a, b, x);
      } else {
        InteriorRowHolds(s, lib, a, b, x, i);
      }
    }
  }

  /** |a * b| <= |a| when |b| <= 1. */
  lemma ProductBound(a: real, b: real)
    requires Abs(b) <= 1.0
    ensures Abs(a * b) <= Abs(a)
  {
    if a >= 0.0 && b >= 0.0 {
      assert a * b <= a * 1.0;
    } else if a >= 0.0 {
      assert a * (-b) <= a * 1.0;
    } else if b >= 0.0 {
      assert (-a) * b <= (-a) * 1.0;
    } else {
      assert (-a) * (-b) <= (-a) * 1.0;
    }
  }

  /** The magnitude of a product is the product of the magnitudes. */
  lemma AbsProduct(a: real, b: real)
    ensures Abs(a * b) == Abs(a) * Abs(b)
  {
    if a < 0.0 && b < 0.0 {
      assert a * b == (-a) * (-b);
    } else if a < 0.0 {
      assert -(a * b) == (-a) * b;
    } else if b < 0.0 {
      assert -(a * b) == a * (-b);
    }
  }

  /** A factor that scales a positive number to something smaller is below one. */
  lemma ScaleAtLeast(x: real, y: real, z: real)
    requires y > 0.0 && x * y == z && z < y
    ensures x < 1.0
  {
    assert (1.0 - x) * y > 0.0;
  }

  /** |a / p| < 1 when |a| < |p|. */
  lemma QuotientBound(lib: Libm, a: real, p: real)
    requires Abs(a) < Abs(p)
    ensures p != 0.0 && Abs(Div(lib, a, p)) < 1.0
  {
    var q := Div(lib, a, p);
    assert q * p == a;
    AbsProduct(q, p);
    ScaleAtLeast(Abs(q), Abs(p), Abs(a));
  }

  /** The reverse triangle inequality. */
  lemma ReverseTriangle(m: real, t: real)
    ensures Abs(m + t) >= Abs(m) - Abs(t)
  {
  }

  /** A pivot m + l * a with |a| <= 1 keeps at least |m| - |l| of magnitude. */
  lemma PivotMagnitude(m: real, l: real, a: real)
    requires Abs(a) <= 1.0
    ensures Abs(m + l * a) >= Abs(m) - Abs(l)
  {
    ProductBound(l, a);
    ReverseTriangle(m, l * a);
  }

  /** One row of the induction: a strictly dominant row after an alpha of
      magnitude below one has a non-zero pivot, and its own alpha stays below one. */
  lemma DominantRowStep(lib: Libm, m: real, l: real, u: real, alphaPrev: real, p: real)
    requires Abs(alphaPrev) <= 1.0 && Abs(m) > Abs(l) + Abs(u) && p == m + l * alphaPrev
    ensures p != 0.0 && Abs(Div(lib, -u, p)) < 1.0
  {
    PivotMagnitude(m, l, alphaPrev);
    QuotientBound(lib, -u, p);
  }

  /** Under strict dominance every pivot is non-zero and every alpha has
      magnitude below one, so the sweep never divides by zero. */
  lemma {:induction false} StrictDominancePivots(s: Tridiagonal, lib: Libm, a: seq<real>, i: int)
    requires s.WellFormed() && s.Size() >= 2 && StrictlyDominant(s) && |a| == s.Size() - 1
    requires forall k :: 0 <= k < s.Size() - 1 ==> AlphaStep(s, lib, a, k)
    requires 0 <= i < s.Size()
    ensures Pivot(s, a, i) != 0.0
    ensures i < s.Size() - 1 ==> Abs(a[i]) < 1.0
  {
    var n := s.Size();
    assert StrictRow(s, i);
    var u := if i < n - 1 then s.upper[i] else 0.0;
    if i == 0 {
      DominantRowStep(lib, s.main[0], 0.0, u, 0.0, Pivot(s, a, 0));
    } else {
      StrictDominancePivots(s, lib, a, i - 1);
      DominantRowStep(lib, s.main[i], s.lower[i - 1], u, a[i - 1], Pivot(s, a, i));
    }
    if i < n - 1 {
      assert AlphaStep(s, lib, a, i);
    }
  }

  /** isValid's non-strict test admits a system whose first pivot is zero. */
  lemma DominanceAdmitsZeroPivot()
    ensures var s := Tridiagonal([0.0], [0.0, 1.0], [0.0], [1.0, 1.0]);
      s.WellFormed() && s.Size() >= 2 && DiagonallyDominant(s) && Pivot(s, [0.0], 0) == 0.0
  {
  }

  /** Which stored vector an access through `operator()` addresses. */
  datatype RightSweepAccess = LowerDiagonal | MainDiagonal | UpperDiagonal | ConstTerms

  /** How `solve` ends: solved, solved after printing the invalid-matrix
      warning, or terminated by the pedantic assertion. */
  datatype SolveStatus = Solved | SolvedWithWarning | Terminated

  class RightSweep {
    const size: int
    const isPedantic: bool
    const lowerDiagonal: array<real>
    const mainDiagonal: array<real>
    const upperDiagonal: array<real>
    const constTerms: array<real>
    const alpha: array<real>
    const beta: array<real>

    /** The six buffers are distinct and sized as the constructor makes them. */
    predicate Valid()
    {
      size >= 1 &&
      lowerDiagonal.Length == size - 1 && mainDiagonal.Length == size && upperDiagonal.Length == size - 1 &&
      constTerms.Length == size && alpha.Length == size - 1 && beta.Length == size &&
      lowerDiagonal != mainDiagonal && lowerDiagonal != upperDiagonal && lowerDiagonal != constTerms &&
      mainDiagonal != upperDiagonal && mainDiagonal != constTerms && upperDiagonal != constTerms &&
      alpha !in {lowerDiagonal, mainDiagonal, upperDiagonal, constTerms, beta} &&
      beta !in {lowerDiagonal, mainDiagonal, upperDiagonal, constTerms}
    }

    /** The system currently stored. */
    function System(): (s: Tridiagonal)
      requires Valid()
      reads lowerDiagonal, mainDiagonal, upperDiagonal, constTerms
      ensures s.WellFormed() && s.Size() == size
    {
      Tridiagonal(lowerDiagonal[..], mainDiagonal[..], upperDiagonal[..], constTerms[..])
    }

    /** RightSweep(size, isPedantic): every vector is allocated zero-filled. */
    constructor(size: int, isPedantic: bool)
      requires size >= 1
      ensures Valid() && this.size == size && this.isPedantic == isPedantic
      ensures System() == Tridiagonal(seq(size - 1, _ => 0.0), seq(size, _ => 0.0), seq(size - 1, _ => 0.0), seq(size, _ => 0.0))
      ensures fresh(lowerDiagonal) && fresh(mainDiagonal) && fresh(upperDiagonal)
      ensures fresh(constTerms) && fresh(alpha) && fresh(beta)
    {
      this.size := size;
      this.isPedantic := isPedantic;
      lowerDiagonal := new real[size - 1](_ => 0.0);
      mainDiagonal := new real[size](_ => 0.0);
      upperDiagonal := new real[size - 1](_ => 0.0);
      constTerms := new real[size](_ => 0.0);
      alpha := new real[size - 1](_ => 0.0);
      beta := new real[size](_ => 0.0);
    }

    /** The buffer behind an access type. */
    function Target(accessType: RightSweepAccess): (a: array<real>)
      ensures a in {lowerDiagonal, mainDiagonal, upperDiagonal, constTerms}
    {
      match accessType
      case LowerDiagonal => lowerDiagonal
      case MainDiagonal => mainDiagonal
      case UpperDiagonal => upperDiagonal
      case ConstTerms => constTerms
    }

    /** Reading through `operator()`: the index must lie inside the addressed vector. */
    method Get(accessType: RightSweepAccess, index: int) returns (v: real)
      requires Valid() && 0 <= index < Target(accessType).Length
      ensures v == Target(accessType)[index]
    {
      v := Target(accessType)[index];
    }

    /** Writing through the reference `operator()` returns: one entry of one
        vector changes and nothing else. */
    method Set(accessType: RightSweepAccess, index: int, v: real)
      requires Valid() && 0 <= index < Target(accessType).Length
      modifies Target(accessType)
      ensures Target(accessType)[..] == old(Target(accessType)[..])[index := v]
    {
      Target(accessType)[index] := v;
    }

    /** RightSweep::isValid. */
    method IsValid() returns (valid: bool)
      requires Valid() && size >= 2
      ensures valid == DiagonallyDominant(System())
    {
      if Abs(mainDiagonal[0]) < Abs(upperDiagonal[0]) {
        return false;
      }
      if Abs(mainDiagonal[size - 1]) < Abs(lowerDiagonal[size - 2]) {
        return false;
      }
      var lowerDiagSize := size - 1;
      var i := 1;
      while i < lowerDiagSize
        invariant 1 <= i <= lowerDiagSize
        invariant forall k :: 1 <= k < i ==> !(Abs(mainDiagonal[k]) < Abs(lowerDiagonal[k - 1]) + Abs(upperDiagonal[k]))
      {
        if Abs(mainDiagonal[i]) < Abs(lowerDiagonal[i - 1]) + Abs(upperDiagonal[i]) {
          return false;
        }
        i := i + 1;
      }
      return true;
    }

    /** RightSweep::calcAlpha: alpha(0) = -upper(0) / main(0), then each alpha
        from the one before. */
    method CalcAlpha(lib: Libm)
      requires Valid() && size >= 2
      modifies alpha
      ensures forall i :: 0 <= i < size - 1 ==> AlphaStep(System(), lib, alpha[..], i)
    {
      ghost var s := System();
      var limit := size - 1;
      alpha[0] := Div(lib, -upperDiagonal[0], mainDiagonal[0]);
      var i := 1;
      while i < limit
        invariant 1 <= i <= limit
        invariant forall k :: 0 <= k < i ==> AlphaStep(s, lib, alpha[..], k)
      {
        ghost var prev := alpha[..];
        alpha[i] := Div(lib, -upperDiagonal[i], mainDiagonal[i] + lowerDiagonal[i - 1] * alpha[i - 1]);
        forall k | 0 <= k < i
          ensures AlphaStep(s, lib, alpha[..], k)
        {
          AlphaStepFrame(s, lib, prev, alpha[..], k);
        }
        assert AlphaStep(s, lib, alpha[..], i);
        i := i + 1;
      }
    }

    /** RightSweep::calcBeta: beta(0) = constTerms(0) / main(0), then each beta
        from the one before and the alphas. */
    method CalcBeta(lib: Libm)
      requires Valid() && size >= 2
      modifies beta
      ensures forall i :: 0 <= i < size ==> BetaStep(System(), lib, alpha[..], beta[..], i)
    {
      ghost var s := System();
      beta[0] := Div(lib, constTerms[0], mainDiagonal[0]);
      var i := 1;
      while i < size
        invariant 1 <= i <= size
        invariant forall k :: 0 <= k < i ==> BetaStep(s, lib, alpha[..], beta[..], k)
      {
        ghost var prev := beta[..];
        var numerator := constTerms[i] - lowerDiagonal[i - 1] * beta[i - 1];
        var pivot := mainDiagonal[i] + lowerDiagonal[i - 1] * alpha[i - 1];
        beta[i] := Div(lib, numerator, pivot);
        forall k | 0 <= k < i
          ensures BetaStep(s, lib, alpha[..], beta[..], k)
        {
          BetaStepFrame(s, lib, alpha[..], prev, beta[..], k);
        }
        assert BetaNumerator(s, beta[..], i) == numerator;
        assert Pivot(s, alpha[..], i) == pivot;
        assert BetaStep(s, lib, alpha[..], beta[..], i);
        i := i + 1;
      }
    }

    /** RightSweep::reversal: back substitution from the last unknown down. */
    method Reversal(solutionDest: array<real>)
      requires Valid() && size >= 2 && solutionDest.Length == size
      requires solutionDest !in {lowerDiagonal, mainDiagonal, upperDiagonal, constTerms, alpha, beta}
      modifies solutionDest
      ensures forall i :: 0 <= i < size ==> BackStep(alpha[..], beta[..], solutionDest[..], i)
    {
      solutionDest[size - 1] := beta[size - 1];
      var i := size - 2;
      while i >= 0
        invariant -1 <= i <= size - 2
        invariant forall k :: i < k < size ==> BackStep(alpha[..], beta[..], solutionDest[..], k)
      {
        ghost var prev := solutionDest[..];
        solutionDest[i] := alpha[i] * solutionDest[i + 1] + beta[i];
        forall k | i < k < size
          ensures BackStep(alpha[..], beta[..], solutionDest[..], k)
        {
          BackStepFrame(alpha[..], beta[..], prev, solutionDest[..], k);
        }
        assert BackStep(alpha[..], beta[..], solutionDest[..], i);
        i := i - 1;
      }
    }

    /** RightSweep::solve(solutionDest): a pedantic solver terminates on a
        matrix that is not diagonally dominant; otherwise the sweep runs (after a
        warning when the matrix is not dominant) and `solutionDest` receives the
        back-substituted unknowns, which satisfy every row whenever no pivot is
        zero, in particular under strict diagonal dominance. */
    method Solve(lib: Libm, solutionDest: array<real>) returns (status: SolveStatus)
      requires Valid() && size >= 2 && solutionDest.Length == size
      requires solutionDest !in {lowerDiagonal, mainDiagonal, upperDiagonal, constTerms, alpha, beta}
      modifies alpha, beta, solutionDest
      ensures status == Terminated <==> isPedantic && !DiagonallyDominant(System())
      ensures status == Solved <==> DiagonallyDominant(System())
      ensures status == Terminated ==> unchanged(solutionDest)
      ensures status != Terminated ==> IsSweep(System(), lib, alpha[..], beta[..], solutionDest[..])
      ensures status != Terminated && (forall i :: 0 <= i < size ==> Pivot(System(), alpha[..], i) != 0.0) ==>
        forall i :: 0 <= i < size ==> RowValue(System(), solutionDest[..], i) == constTerms[i]
      ensures status != Terminated && StrictlyDominant(System()) ==>
        forall i :: 0 <= i < size ==> RowValue(System(), solutionDest[..], i) == constTerms[i]
    {
      var valid := IsValid();
      if !valid {
        if isPedantic {
          return Terminated;
        }
        status := SolvedWithWarning;
      } else {
        status := Solved;
      }
      CalcAlpha(lib);
      CalcBeta(lib);
      Reversal(solutionDest);
      ghost var s := System();
      assert IsSweep(s, lib, alpha[..], beta[..], solutionDest[..]);
      if StrictlyDominant(s) {
        forall i | 0 <= i < size
          ensures Pivot(s, alpha[..], i) != 0.0
        {
          StrictDominancePivots(s, lib, alpha[..], i);
        }
      }
      if forall i :: 0 <= i < size ==> Pivot(s, alpha[..], i) != 0.0 {
        SweepSolvesSystem(s, lib, alpha[..], beta[..], solutionDest[..]);
      }
    }

    /** RightSweep::solve(): the same, into a fresh vector of `size` entries. */
    method SolveNew(lib: Libm) returns (solution: array<real>, status: SolveStatus)
      requires Valid() && size >= 2
      modifies alpha, beta
      ensures fresh(solution) && solution.Length == size
      ensures status == Terminated <==> isPedantic && !DiagonallyDominant(System())
      ensures status != Terminated ==> IsSweep(System(), lib, alpha[..], beta[..], solution[..])
      ensures status != Terminated && StrictlyDominant(System()) ==>
        forall i :: 0 <= i < size ==> RowValue(System(), solution[..], i) == constTerms[i]
    {
      solution := new real[size](_ => 0.0);
      status := Solve(lib, solution);
    }
  }
}
