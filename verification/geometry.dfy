/** Flattened plane geometry. Every position and direction of the model lives in
    the horizontal (X, Z) plane of the game world; heights are not modelled.
    Distances are compared through their squares, so no square root is needed. */
module Geometry {

  datatype Vec = Vec(x: real, z: real)

  const Zero: Vec := Vec(0.0, 0.0)

  function Add(a: Vec, b: Vec): Vec { Vec(a.x + b.x, a.z + b.z) }

  function Sub(a: Vec, b: Vec): Vec { Vec(a.x - b.x, a.z - b.z) }

  function Neg(a: Vec): Vec { Vec(-a.x, -a.z) }

  function Scale(a: Vec, k: real): Vec { Vec(a.x * k, a.z * k) }

  function Dot(a: Vec, b: Vec): real { a.x * b.x + a.z * b.z }

  /** Signed area of the parallelogram spanned by `a` and `b` (the determinant
      with `a` and `b` as columns); used where only its zero test or a ratio of
      two of them matters. */
  function Cross(a: Vec, b: Vec): real { a.x * b.z - a.z * b.x }

  /** The game library's `CrossXZ`: the height component of the engine's 3D
      cross product `Vector3.Cross(a, b)`, which is the negated `Cross`.
      Its sign says on which side of `a` the vector `b` lies. */
  function CrossXZ(a: Vec, b: Vec): real { a.z * b.x - a.x * b.z }

  /** The game library's `DotXZ` is the plane dot product `Dot`. */

  /** Squared length. */
  function Norm2(a: Vec): real { a.x * a.x + a.z * a.z }

  /** Squared Euclidean distance. */
  function Dist2(a: Vec, b: Vec): real { (a.x - b.x) * (a.x - b.x) + (a.z - b.z) * (a.z - b.z) }

  function Mid(a: Vec, b: Vec): Vec { Vec((a.x + b.x) / 2.0, (a.z + b.z) / 2.0) }

  /** The game library's `Turn90`: a quarter turn in the plane, `(z, -x)` when
      `clockwise` and `(-z, x)` otherwise. Together with the sign of `CrossXZ`
      this decides which side of a guide an edge arc bends to; the pairing is
      pinned down by `TurnTowards`. */
  function Turn90(v: Vec, clockwise: bool): Vec {
    if clockwise then Vec(v.z, -v.x) else Vec(-v.z, v.x)
  }

  /** A quarter turn is perpendicular to the vector, keeps its length, and the
      `clockwise` flag decides the sign of the signed area it spans. */
  lemma QuarterTurn(v: Vec, clockwise: bool)
    ensures Dot(Turn90(v, clockwise), v) == 0.0
    ensures Norm2(Turn90(v, clockwise)) == Norm2(v)
    ensures Cross(v, Turn90(v, clockwise)) == if clockwise then -Norm2(v) else Norm2(v)
    ensures Turn90(v, !clockwise) == Neg(Turn90(v, clockwise))
  {
  }

  /** Turning `v` a quarter in the sense given by the sign of `CrossXZ(v, d)`
      gives a vector that points toward `d`'s side: its dot product with `d`
      is the size of the cross product. This is the pairing of the two
      conventions that the arrangement of a ring of nodes relies on when it
      turns the centre direction toward the next node. */
  lemma TurnTowards(v: Vec, d: Vec)
    ensures Dot(Turn90(v, CrossXZ(v, d) >= 0.0), d) == if CrossXZ(v, d) >= 0.0 then CrossXZ(v, d) else -CrossXZ(v, d)
    ensures Dot(Turn90(v, CrossXZ(v, d) >= 0.0), d) >= 0.0
    ensures CrossXZ(v, d) != 0.0 ==> Dot(Turn90(v, CrossXZ(v, d) >= 0.0), d) > 0.0
  {
  }

  /** Scaling one side of a dot product scales the product. */
  lemma DotScale(a: Vec, k: real, b: Vec)
    ensures Dot(Scale(a, k), b) == k * Dot(a, b)
  {
    assert a.x * k * b.x == k * (a.x * b.x);
    assert a.z * k * b.z == k * (a.z * b.z);
  }

  /** Going out along `a` and coming back along its opposite returns to where
      the other steps lead. */
  lemma OutAndBack(s: Vec, a: Vec, g: Vec, r: real, k: real)
    ensures Add(Add(Add(s, Scale(a, r)), Scale(g, k)), Scale(Neg(a), r)) == Add(s, Scale(g, k))
  {
    assert -a.x * r == -(a.x * r);
    assert -a.z * r == -(a.z * r);
  }

  /** The opposite vector has the opposite dot product and the same length. */
  lemma NegDot(v: Vec, w: Vec)
    ensures Dot(Neg(v), w) == -Dot(v, w)
    ensures Norm2(Neg(v)) == Norm2(v)
  {
  }
}
