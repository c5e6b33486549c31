/**
 Real-valued stand-ins for the glm vector and matrix types the tensor field is
 built from. Floating point is replaced by exact reals throughout the model.
 */
module Geometry {

  /** A 3-vector (glm `vec3` / `dvec3`). */
  datatype Vec3 = Vec3(x: real, y: real, z: real) {

    /** Component `j`, as `v[j]` in glm. */
    function Get(j: nat): real
      requires j < 3
    {
      if j == 0 then x else if j == 1 then y else z
    }

    function Plus(o: Vec3): Vec3 {
      Vec3(x + o.x, y + o.y, z + o.z)
    }

    function Scale(s: real): Vec3 {
      Vec3(s * x, s * y, s * z)
    }

    /** `min(min(v.x, v.y), v.z)`: the smallest component. */
    function MinComponent(): (r: real)
      ensures r <= x && r <= y && r <= z
      ensures r == x || r == y || r == z
    {
      var m := if y < x then y else x;
      if z < m then z else m
    }

    /** `max(max(v.x, v.y), v.z)`: the largest component. */
    function MaxComponent(): (r: real)
      ensures x <= r && y <= r && z <= r
      ensures r == x || r == y || r == z
    {
      var m := if x < y then y else x;
      if m < z then z else m
    }
  }

  /** The product `a * b` as a named function. The bound lemmas about the clamped maps
      and squared distances state their facts about `Mul(a, b)`, one factor at a time. */
  function Mul(a: real, b: real): real {
    a * b
  }

  const Zero: Vec3 := Vec3(0.0, 0.0, 0.0)

  /** A 3x3 matrix stored by columns, as glm stores `mat3`: `m[i]` is column `i`. */
  datatype Mat3 = Mat3(c0: Vec3, c1: Vec3, c2: Vec3) {

    function Col(i: nat): Vec3
      requires i < 3
    {
      if i == 0 then c0 else if i == 1 then c1 else c2
    }

    /** Entry in column `i`, row `j` (glm's `m[i][j]`). */
    function At(i: nat, j: nat): real
      requires i < 3 && j < 3
    {
      Col(i).Get(j)
    }

    /** The matrix-vector product `M * p`: the columns weighted by the components of `p`. */
    function Apply(p: Vec3): Vec3 {
      c0.Scale(p.x).Plus(c1.Scale(p.y)).Plus(c2.Scale(p.z))
    }
  }

  /** `mat3(0.0f)`: every entry zero. */
  const ZeroMat: Mat3 := Mat3(Zero, Zero, Zero)
}
