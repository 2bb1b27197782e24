/** Two-dimensional vectors as used by the engine (raylib's `Vector2` and the
    raymath helpers it calls), with exact real arithmetic in place of `float`. */
module Vectors {

  datatype Vector2 = Vector2(x: real, y: real)

  const Zero: Vector2 := Vector2(0.0, 0.0)

  /** raymath `Vector2Add`. */
  function Add(a: Vector2, b: Vector2): (sum: Vector2) {
    Vector2(a.x + b.x, a.y + b.y)
  }

  /** raymath `Vector2Subtract`. */
  function Sub(a: Vector2, b: Vector2): (diff: Vector2) {
    Vector2(a.x - b.x, a.y - b.y)
  }

  /** raymath `Vector2Scale`. */
  function Scale(v: Vector2, k: real): (scaled: Vector2) {
    Vector2(v.x * k, v.y * k)
  }

  function Neg(v: Vector2): (neg: Vector2) {
    Vector2(-v.x, -v.y)
  }

  /** What the model assumes of raymath's `Vector2Length` (a square root, which
      has no exact counterpart over the reals here): the length of a vector is
      never negative and does not depend on its direction's sign. */
  ghost predicate IsNorm(norm: Vector2 -> real): (isNorm: bool) {
    forall v: Vector2 :: 0.0 <= norm(v) && norm(Neg(v)) == norm(v)
  }

  lemma SubAntisymmetric(a: Vector2, b: Vector2)
    ensures Sub(a, b) == Neg(Sub(b, a))
  {
  }
}
