/** Vectors, rays, ray-parameter bounds and boxes.  `glm::vec3` components
    are modelled as exact reals: rounding, infinities and NaN are not part of
    this model. */
module Geometry {

  datatype Vec3 = Vec3(x: real, y: real, z: real)

  function Add(a: Vec3, b: Vec3): Vec3 { Vec3(a.x + b.x, a.y + b.y, a.z + b.z) }

  function Sub(a: Vec3, b: Vec3): Vec3 { Vec3(a.x - b.x, a.y - b.y, a.z - b.z) }

  function Neg(a: Vec3): Vec3 { Vec3(-a.x, -a.y, -a.z) }

  function Scale(a: Vec3, k: real): Vec3 { Vec3(a.x * k, a.y * k, a.z * k) }

  function Dot(a: Vec3, b: Vec3): real { a.x * b.x + a.y * b.y + a.z * b.z }

  function Cross(a: Vec3, b: Vec3): Vec3 {
    Vec3(a.y * b.z - a.z * b.y, a.z * b.x - a.x * b.z, a.x * b.y - a.y * b.x)
  }

  /** Negating either side of a dot product negates it. */
  lemma DotNeg(a: Vec3, b: Vec3)
    ensures Dot(a, Neg(b)) == -Dot(a, b)
  {
  }

  /** Swapping the operands of a difference negates the cross product
      taken with it. */
  lemma CrossSubSwap(a: Vec3, b: Vec3, c: Vec3)
    ensures Cross(a, Sub(b, c)) == Neg(Cross(a, Sub(c, b)))
  {
  }

  /** The square root `glm::sqrt` stands for: any function that never
      returns a negative number.  Every property proved with it holds for
      every such function, the exact root included. */
  type SqrtFn = f: real -> real | forall x :: 0.0 <= f(x) witness (x: real) => 0.0

  /** `glm::normalize`: the vector divided by its length.  The source divides
      a zero vector by zero (NaN); the model returns it unchanged. */
  function Normalize(v: Vec3, sqrt: SqrtFn): Vec3 {
    var len := sqrt(Dot(v, v));
    if len == 0.0 then v else Scale(v, 1.0 / len)
  }

  /** `CRay`: origin and direction, with `At(t) = origin + t * dir`. */
  datatype Ray = Ray(origin: Vec3, dir: Vec3)

  function At(ray: Ray, t: real): Vec3 { Add(ray.origin, Scale(ray.dir, t)) }

  /** Upper bound of a ray-parameter interval: a number, or `_INFINITY`. */
  datatype Bound = Finite(value: real) | Infinity

  /** The source's rejection test `t > t_max`; nothing exceeds `_INFINITY`. */
  predicate Exceeds(t: real, tmax: Bound) {
    tmax.Finite? && t > tmax.value
  }

  /** `_EPSILON` (1e-8). */
  const Epsilon: real := 0.00000001

  /** `CAABB`: the corner with the smaller and the corner with the larger
      coordinates. */
  datatype AABB = AABB(pMin: Vec3, pMax: Vec3)

  function Min(a: real, b: real): real { if a <= b then a else b }

  function Max(a: real, b: real): real { if a >= b then a else b }

  function MinVec(a: Vec3, b: Vec3): Vec3 { Vec3(Min(a.x, b.x), Min(a.y, b.y), Min(a.z, b.z)) }

  function MaxVec(a: Vec3, b: Vec3): Vec3 { Vec3(Max(a.x, b.x), Max(a.y, b.y), Max(a.z, b.z)) }

  /** Component-wise `a <= b`. */
  predicate LessEq(a: Vec3, b: Vec3) { a.x <= b.x && a.y <= b.y && a.z <= b.z }

  /** Box `inner` lies within box `outer`. */
  predicate Encloses(outer: AABB, inner: AABB) {
    LessEq(outer.pMin, inner.pMin) && LessEq(inner.pMax, outer.pMax)
  }

  /** The field-by-field widening `pMin = min(pMin, b.pMin)`,
      `pMax = max(pMax, b.pMax)`: the smallest box around both. */
  function Union(a: AABB, b: AABB): (r: AABB)
    ensures Encloses(r, a) && Encloses(r, b)
    ensures forall c :: Encloses(c, a) && Encloses(c, b) ==> Encloses(c, r)
  {
    AABB(MinVec(a.pMin, b.pMin), MaxVec(a.pMax, b.pMax))
  }
}
