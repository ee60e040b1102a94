/** Shared numeric vocabulary of the placement code: points, the C++ `(int)` cast,
    squared distances and the math-library functions the code calls, which the model
    keeps abstract. */
module Geometry {

  /** A position in field coordinates (`struct Point` in the source). */
  datatype Point = Point(x: real, y: real)

  /** The C++ conversion `(int) v` of a double: truncation toward zero, which is not
      Dafny's floor for negative values. */
  function Trunc(v: real): int
  {
    if v >= 0.0 then v.Floor else -((-v).Floor)
  }

  /** `Trunc` drops the fractional part: the result lies at most one unit from `v`, on
      the side of zero, and the cast is odd. */
  lemma TruncTowardZero(v: real)
    ensures 0.0 <= v ==> Trunc(v) as real <= v < Trunc(v) as real + 1.0
    ensures v < 0.0 ==> Trunc(v) as real - 1.0 < v <= Trunc(v) as real
    ensures Trunc(-v) == -Trunc(v)
  {
  }

  /** `cos`, `sin`, `atan2` from `math.h` and the constant `M_PI`. Their IEEE-754 values
      are not modelled: every operation that calls them takes a `Trig` as a parameter. */
  datatype Trig = Trig(cos: real -> real, sin: real -> real, atan2: (real, real) -> real, pi: real)
  {
    /** cos² + sin² = 1: the one trigonometric fact that the geometric lemmas assume. */
    ghost predicate Pythagorean()
    {
      forall a :: cos(a) * cos(a) + sin(a) * sin(a) == 1.0
    }
  }

  /** The square of `distance(p.x, p.y, q.x, q.y)`; comparing squares replaces `sqrt`. */
  function SquaredDistance(p: Point, q: Point): real
  {
    (q.x - p.x) * (q.x - p.x) + (q.y - p.y) * (q.y - p.y)
  }

  /** `n` copies of the tag `v`. */
  function Repeat(v: int, n: nat): (s: seq<int>)
    ensures |s| == n && forall i :: 0 <= i < n ==> s[i] == v
  {
    seq(n, _ => v)
  }
}
