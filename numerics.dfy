/** Shared numeric vocabulary: the two-component vector of Vector2.h / util.h,
    the library functions the solver calls but the model does not interpret,
    and the C conversions the source relies on. Doubles are modelled as `real`. */
module Numerics {

  /** A point or vector of the meridian plane (r, z); the source also names the
      components x and y. */
  datatype Vec2 = Vec2(r: real, z: real)

  function Add(a: Vec2, b: Vec2): Vec2 { Vec2(a.r + b.r, a.z + b.z) }

  function Sub(a: Vec2, b: Vec2): Vec2 { Vec2(a.r - b.r, a.z - b.z) }

  function Scale(k: real, a: Vec2): Vec2 { Vec2(k * a.r, k * a.z) }

  function Abs(x: real): real { if x < 0.0 then -x else x }

  function Max(a: real, b: real): real { if a < b then b else a }

  /** The C conversion `(int)x` of a double: truncation toward zero. */
  function Trunc(x: real): (n: int)
    ensures Abs(x - n as real) < 1.0
    ensures x >= 0.0 ==> 0 <= n && n as real <= x
    ensures x < 0.0 ==> n <= 0 && x <= n as real
  {
    if x >= 0.0 then x.Floor else -((-x).Floor)
  }

  /** A multiple of a positive number is at least that number, or at most its
      negation, unless the factor is zero. */
  lemma MultipleBounds(factor: int, unit: int)
    requires unit > 0
    ensures factor >= 1 ==> factor * unit >= unit
    ensures factor <= -1 ==> factor * unit <= -unit
  {
    if factor >= 1 {
      assert (factor - 1) * unit >= 0;
    }
    if factor <= -1 {
      assert (-factor - 1) * unit >= 0;
    }
  }

  /** The mathematical library as the solver sees it: each function is an
      arbitrary total function, so nothing is assumed about its values.
      `divByZero(a)` stands for the IEEE result of `a / 0.0`. */
  datatype Libm = Libm(
    sin: real -> real,
    cos: real -> real,
    cbrt: real -> real,
    pow: (real, real) -> real,
    isFinite: real -> bool,
    divByZero: real -> real)

  /** Floating-point division: the exact quotient when the divisor is nonzero. */
  function Div(lib: Libm, a: real, b: real): real
  {
    if b != 0.0 then a / b else lib.divByZero(a)
  }

  /** The value of `-std::numeric_limits<double>::infinity()` used as the seed of
      a running maximum, or an ordinary value. */
  datatype ExtReal = NegInfinity | Finite(value: real)

  /** `x > bound` on extended reals: negative infinity exceeds nothing. */
  predicate Exceeds(x: ExtReal, bound: real)
  {
    x.Finite? && x.value > bound
  }
}
