/**
  The vector, quaternion and matrix vocabulary of the engine.

  Vectors are exact reals. Quaternions and 4x4 matrices are kept as uninterpreted
  terms: a matrix is the expression that built it, so the model can say WHICH
  matrices are multiplied, in WHICH order, without evaluating any floating point.
 */
module Glm {
  import Assimp

  datatype Vec2 = Vec2(x: real, y: real)

  datatype Vec3 = Vec3(x: real, y: real, z: real)

  const Zero2 := Vec2(0.0, 0.0)
  const Zero3 := Vec3(0.0, 0.0, 0.0)

  function Add(a: Vec3, b: Vec3): Vec3 {
    Vec3(a.x + b.x, a.y + b.y, a.z + b.z)
  }

  function Sub(a: Vec3, b: Vec3): Vec3 {
    Vec3(a.x - b.x, a.y - b.y, a.z - b.z)
  }

  function Neg(a: Vec3): Vec3 {
    Vec3(-a.x, -a.y, -a.z)
  }

  /** `glm::mix(a, b, f)`: a * (1 - f) + b * f, component-wise. */
  function Mix(a: Vec3, b: Vec3, f: real): Vec3 {
    Vec3(a.x * (1.0 - f) + b.x * f, a.y * (1.0 - f) + b.y * f, a.z * (1.0 - f) + b.z * f)
  }

  /** `glmFromAssimpVec3`, taken to copy the three components. */
  function FromAiVec3(v: Assimp.AiVector3D): Vec3 {
    Vec3(v.x, v.y, v.z)
  }

  /** Quaternion terms: a converted key value, a spherical blend, a renormalisation. */
  datatype QuatExpr =
    | QuatFromAi(raw: Assimp.AiQuaternion)
    | Slerp(from: QuatExpr, to: QuatExpr, factor: real)
    | Normalize(q: QuatExpr)

  /** 4x4 matrix terms. `DefaultMat` is a value-initialised `glm::mat4`;
      `FromAi` is `glmFromAssimpMat4`, which also changes the storage convention. */
  datatype Mat =
    | Identity
    | DefaultMat
    | FromAi(raw: Assimp.AiMatrix4x4)
    | Translation(offset: Vec3)
    | Scaling(factors: Vec3)
    | Rotation(q: QuatExpr)
    | Mul(left: Mat, right: Mat)

  /** `v` lies between `a` and `b`, whichever of the two is smaller. */
  predicate InRange(a: real, b: real, v: real) {
    a <= v <= b || b <= v <= a
  }

  /** Every component of `v` lies between the matching components of `a` and `b`. */
  predicate Between(a: Vec3, b: Vec3, v: Vec3) {
    InRange(a.x, b.x, v.x) && InRange(a.y, b.y, v.y) && InRange(a.z, b.z, v.z)
  }

  lemma MulNonNegative(x: real, y: real)
    requires 0.0 <= x && 0.0 <= y
    ensures 0.0 <= x * y
  {
  }

  /** Multiplying by a positive number keeps the sign. */
  lemma SignOfProduct(x: real, y: real)
    requires 0.0 < y
    ensures 0.0 <= x * y <==> 0.0 <= x
  {
    if 0.0 <= x {
      MulNonNegative(x, y);
    } else {
      MulNonNegative(-x, y);
      assert -x * y == -(x * y);
    }
  }

  lemma MixScalarBetween(a: real, b: real, f: real)
    requires 0.0 <= f <= 1.0
    ensures InRange(a, b, a * (1.0 - f) + b * f)
  {
    assert a * (1.0 - f) + b * f == a + f * (b - a);
    if a <= b {
      MulNonNegative(f, b - a);
      MulNonNegative(1.0 - f, b - a);
    } else {
      MulNonNegative(f, a - b);
      MulNonNegative(1.0 - f, a - b);
    }
  }

  /** A blend with a factor in [0, 1] lies on the segment between its end points. */
  lemma MixBetween(a: Vec3, b: Vec3, f: real)
    requires 0.0 <= f <= 1.0
    ensures Between(a, b, Mix(a, b, f))
  {
    var m := Mix(a, b, f);
    MixScalarBetween(a.x, b.x, f);
    assert m.x == a.x * (1.0 - f) + b.x * f;
    MixScalarBetween(a.y, b.y, f);
    assert m.y == a.y * (1.0 - f) + b.y * f;
    MixScalarBetween(a.z, b.z, f);
    assert m.z == a.z * (1.0 - f) + b.z * f;
  }
}
