/** Two-dimensional vectors over exact reals, and the scalar helpers the
    arbiter uses (the engine's Vector2f and MathUtil, with float arithmetic
    replaced by real arithmetic). */
module Vectors {

  datatype Vec = Vec(x: real, y: real)

  const ZERO: Vec := Vec(0.0, 0.0)

  function Add(a: Vec, b: Vec): Vec { Vec(a.x + b.x, a.y + b.y) }

  function Sub(a: Vec, b: Vec): Vec { Vec(a.x - b.x, a.y - b.y) }

  function Neg(a: Vec): Vec { Vec(-a.x, -a.y) }

  function Scale(a: Vec, s: real): Vec { Vec(a.x * s, a.y * s) }

  function Dot(a: Vec, b: Vec): real { a.x * b.x + a.y * b.y }

  /** The scalar (z-component) cross product of two plane vectors. */
  function Cross(a: Vec, b: Vec): real { a.x * b.y - a.y * b.x }

  /** The cross product of a scalar (a z-axis vector) with a plane vector:
      `a` rotated a quarter turn counter-clockwise and scaled by `s`. */
  function CrossScalar(s: real, a: Vec): (r: Vec)
    ensures Dot(r, a) == 0.0
  {
    Vec(-s * a.y, s * a.x)
  }

  function Min(a: real, b: real): (r: real)
    ensures r <= a && r <= b
    ensures r == a || r == b
  {
    if a <= b then a else b
  }

  function Max(a: real, b: real): (r: real)
    ensures a <= r && b <= r
    ensures r == a || r == b
  {
    if a >= b then a else b
  }

  /** `a` limited to the interval [low, high], computed as max(low, min(a, high)). */
  function Clamp(a: real, low: real, high: real): (r: real)
    ensures low <= high ==> low <= r <= high
    ensures low <= a <= high ==> r == a
    ensures low <= high && a < low ==> r == low
    ensures low <= high && high < a ==> r == high
  {
    Max(low, Min(a, high))
  }

  lemma AddAssociative(a: Vec, b: Vec, c: Vec)
    ensures Add(Add(a, b), c) == Add(a, Add(b, c))
  {
  }

  lemma ScaleDistributes(p: Vec, q: Vec, k: real)
    ensures Add(Scale(p, k), Scale(q, k)) == Scale(Add(p, q), k)
  {
    assert p.x * k + q.x * k == (p.x + q.x) * k;
    assert p.y * k + q.y * k == (p.y + q.y) * k;
  }

  lemma CrossDistributes(r: Vec, p: Vec, q: Vec)
    ensures Cross(r, Add(p, q)) == Cross(r, p) + Cross(r, q)
  {
    assert r.x * (p.y + q.y) == r.x * p.y + r.x * q.y;
    assert r.y * (p.x + q.x) == r.y * p.x + r.y * q.x;
  }

  lemma MulDistributes(a: real, x: real, y: real)
    ensures a * x + a * y == a * (x + y)
  {
  }
}
