/**
 * Three-dimensional vectors over the reals: the component-wise tuple
 * arithmetic of the orbit scripts and the operators of the lander's
 * vector3d type.
 */
module Vectors {

  import RealArith

  datatype Vec3 = Vec3(x: real, y: real, z: real)

  const Zero: Vec3 := Vec3(0.0, 0.0, 0.0)

  function Add(a: Vec3, b: Vec3): Vec3 {
    Vec3(a.x + b.x, a.y + b.y, a.z + b.z)
  }

  function Sub(a: Vec3, b: Vec3): Vec3 {
    Vec3(a.x - b.x, a.y - b.y, a.z - b.z)
  }

  function Neg(a: Vec3): Vec3 {
    Vec3(-a.x, -a.y, -a.z)
  }

  function Scale(c: real, a: Vec3): Vec3 {
    Vec3(c * a.x, c * a.y, c * a.z)
  }

  /** Division of every component by a scalar. */
  function Div(a: Vec3, d: real): Vec3
    requires d != 0.0
  {
    Vec3(a.x / d, a.y / d, a.z / d)
  }

  function Dot(a: Vec3, b: Vec3): real {
    a.x * b.x + a.y * b.y + a.z * b.z
  }

  function Cross(a: Vec3, b: Vec3): Vec3 {
    Vec3(a.y * b.z - a.z * b.y, a.z * b.x - a.x * b.z, a.x * b.y - a.y * b.x)
  }

  /**
   * `norm` is the Euclidean length: non-negative and squaring to the dot
   * product of a vector with itself. Reals have no square root here, so
   * every member that needs a length takes such a function as a parameter.
   */
  ghost predicate IsNorm(norm: Vec3 -> real) {
    forall p :: norm(p) >= 0.0 && norm(p) * norm(p) == Dot(p, p)
  }

  /** `unit` maps every vector of non-zero length to that vector over its length. */
  ghost predicate IsUnit(unit: Vec3 -> Vec3, norm: Vec3 -> real) {
    forall p :: norm(p) != 0.0 ==> unit(p) == Div(p, norm(p))
  }

  /** A non-zero vector has a positive square length. */
  lemma DotSelfPos(p: Vec3)
    requires p != Zero
    ensures Dot(p, p) > 0.0
  {
    RealArith.SquaresSumPos(p.x, p.y, p.z, Dot(p, p));
  }

  /** A vector has length zero exactly when it is the zero vector. */
  lemma NormZeroIff(norm: Vec3 -> real, p: Vec3)
    requires IsNorm(norm)
    ensures norm(p) == 0.0 <==> p == Zero
  {
    var r := norm(p);
    assert r >= 0.0 && r * r == Dot(p, p);
    if p == Zero {
      if r > 0.0 {
        RealArith.ProductPos(r, r, Dot(p, p));
        assert false;
      }
    } else {
      DotSelfPos(p);
    }
  }

  /** The dot product distributes over addition. */
  lemma DotAdd(a: Vec3, b: Vec3, c: Vec3)
    ensures Dot(Add(a, b), c) == Dot(a, c) + Dot(b, c)
  {
  }

  /** A non-zero multiple of a non-zero vector is non-zero. */
  lemma ScaleNonZero(c: real, a: Vec3)
    requires c != 0.0 && a != Zero
    ensures Scale(c, a) != Zero
  {
    RealArith.ScaledNonZero(c, a.x, a.y, a.z);
  }

  /** Any vector is parallel to itself scaled. */
  lemma CrossScaled(a: Vec3, c: real)
    ensures Cross(a, Scale(c, a)) == Zero
    ensures Cross(Scale(c, a), a) == Zero
  {
  }
}
