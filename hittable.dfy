/** The hittable abstraction of `hittable.h`: the four primitive kinds, the
    hit record `SHitRec` with its face-normal rule, and the comparator used
    to order hit records by ray parameter. */
module Hittable {
  import opened Geometry

  /** A material, by identity (`std::shared_ptr<IMaterial>`).  What a
      material does (`Albedo`, `Scatter`) is not part of this model. */
  type Material = nat

  /** The polymorphic `IHittable`, closed over its four implementations.
      A mesh carries whether it is loaded and the triangles of its internal
      `CHittableList`; every query of a loaded mesh goes through the
      accelerator that `Load` built over exactly those triangles. */
  datatype Primitive =
    | Sphere(center: Vec3, radius: real, material: Material)
    | Triangle(v0: Vec3, v1: Vec3, v2: Vec3, n: Vec3, material: Material)
    | Plane(origin: Vec3, vx: Vec3, vy: Vec3, vz: Vec3, sx: real, sy: real, material: Material)
    | Mesh(loaded: bool, triangles: seq<Primitive>, material: Material)

  /** `CHittableTriangle`'s constructor: the face normal is fixed once,
      from the winding, as normalize(cross(v1 - v0, v0 - v2)). */
  function MakeTriangle(v0: Vec3, v1: Vec3, v2: Vec3, material: Material, sqrt: SqrtFn): (r: Primitive)
    ensures r.Triangle? && r.v0 == v0 && r.v1 == v1 && r.v2 == v2 && r.material == material
  {
    Triangle(v0, v1, v2, Normalize(Cross(Sub(v1, v0), Sub(v0, v2)), sqrt), material)
  }

  /** The stored face normal is the normalised reverse of the winding
      cross(v1 - v0, v2 - v0) that the hit test solves with. */
  lemma MakeTriangleWinding(v0: Vec3, v1: Vec3, v2: Vec3, material: Material, sqrt: SqrtFn)
    ensures MakeTriangle(v0, v1, v2, material, sqrt).n == Normalize(Neg(Cross(Sub(v1, v0), Sub(v2, v0))), sqrt)
  {
    CrossSubSwap(Sub(v1, v0), v0, v2);
  }

  /** `CHittablePlane`'s constructor: the basis (vx, vy, vz) is
      normalize(cross(normal, up)), normalize(up), normalize(normal). */
  function MakePlane(origin: Vec3, normal: Vec3, up: Vec3, sx: real, sy: real, material: Material, sqrt: SqrtFn): (r: Primitive)
    ensures r.Plane? && r.origin == origin && r.sx == sx && r.sy == sy && r.material == material
  {
    Plane(origin, Normalize(Cross(normal, up), sqrt), Normalize(up, sqrt), Normalize(normal, sqrt), sx, sy, material)
  }

  /** A triangle's box, from the component-wise minima and maxima of its
      three vertices. */
  function TriangleBox(tri: Primitive): (r: AABB)
    requires tri.Triangle?
    ensures LessEq(r.pMin, tri.v0) && LessEq(r.pMin, tri.v1) && LessEq(r.pMin, tri.v2)
    ensures LessEq(tri.v0, r.pMax) && LessEq(tri.v1, r.pMax) && LessEq(tri.v2, r.pMax)
    ensures LessEq(r.pMin, r.pMax)
  {
    AABB(MinVec(MinVec(tri.v0, tri.v1), tri.v2), MaxVec(MaxVec(tri.v0, tri.v1), tri.v2))
  }

  /** `SHitRec`.  The source reads a `p_hittable` field that the struct
      does not declare; here it is the primitive that produced the record. */
  datatype HitRec = HitRec(p: Vec3, n: Vec3, t: real, material: Material, frontFace: bool, hittable: Primitive)

  /** `SHitRec::setFaceNormal`: the ray meets the front face exactly when it
      runs against the normal; the stored normal is turned to face the ray. */
  function SetFaceNormal(rec: HitRec, ray: Ray): (r: HitRec)
    ensures r.frontFace <==> Dot(ray.dir, rec.n) < 0.0
    ensures r.n == (if r.frontFace then rec.n else Neg(rec.n))
    ensures Dot(ray.dir, r.n) <= 0.0
    ensures r.p == rec.p && r.t == rec.t && r.material == rec.material && r.hittable == rec.hittable
  {
    var front := Dot(ray.dir, rec.n) < 0.0;
    DotNeg(ray.dir, rec.n);
    rec.(frontFace := front, n := if front then rec.n else Neg(rec.n))
  }

  /** Applying the rule a second time keeps the turned normal, and the ray
      then always meets a front face, unless the ray grazes the surface
      (the normal is then perpendicular to the ray and flips back). */
  lemma SetFaceNormalStable(rec: HitRec, ray: Ray)
    requires Dot(ray.dir, rec.n) != 0.0
    ensures SetFaceNormal(SetFaceNormal(rec, ray), ray).n == SetFaceNormal(rec, ray).n
    ensures SetFaceNormal(SetFaceNormal(rec, ray), ray).frontFace
  {
    var once := SetFaceNormal(rec, ray);
    DotNeg(ray.dir, rec.n);
    assert Dot(ray.dir, once.n) < 0.0;
  }

  /** `cmpHitRec`: strictly smaller ray parameter, nothing else. */
  predicate CmpHitRec(a: HitRec, b: HitRec) {
    a.t < b.t
  }

  /** `cmpHitRec` is a strict weak ordering, as `std::sort` demands:
      irreflexive, transitive, and two records it cannot tell apart are
      exactly those with the same ray parameter. */
  lemma CmpHitRecStrictWeakOrder(a: HitRec, b: HitRec, c: HitRec)
    ensures !CmpHitRec(a, a)
    ensures CmpHitRec(a, b) && CmpHitRec(b, c) ==> CmpHitRec(a, c)
    ensures !CmpHitRec(a, b) && !CmpHitRec(b, a) <==> a.t == b.t
  {
  }

  /** Records in non-decreasing ray parameter: no later record compares
      below an earlier one. */
  predicate SortedByT(s: seq<HitRec>) {
    forall i, j :: 0 <= i < j < |s| ==> !CmpHitRec(s[j], s[i])
  }

  /** The ray parameters of a sequence of records, in order. */
  function Ts(s: seq<HitRec>): (r: seq<real>)
    ensures |r| == |s| && forall i :: 0 <= i < |s| ==> r[i] == s[i].t
  {
    if s == [] then [] else [s[0].t] + Ts(s[1..])
  }

  /** Insert one record into a sorted sequence, after every record that
      does not compare above it. */
  function InsertByT(x: HitRec, s: seq<HitRec>): (r: seq<HitRec>)
    requires SortedByT(s)
    ensures SortedByT(r)
    ensures multiset(r) == multiset(s) + multiset{x}
  {
    if s == [] then [x]
    else if CmpHitRec(x, s[0]) then [x] + s
    else
      var rest := InsertByT(x, s[1..]);
      assert s == [s[0]] + s[1..];
      AboveByMultiset(rest, s[1..], x, s[0].t);
      [s[0]] + rest
  }

  /** Records holding the same records as `s` plus `x` lie at or above any
      bound that `x` and all of `s` lie at or above. */
  lemma AboveByMultiset(r: seq<HitRec>, s: seq<HitRec>, x: HitRec, lo: real)
    requires multiset(r) == multiset(s) + multiset{x}
    requires lo <= x.t && forall k :: 0 <= k < |s| ==> lo <= s[k].t
    ensures forall k :: 0 <= k < |r| ==> lo <= r[k].t
  {
    forall k | 0 <= k < |r| ensures lo <= r[k].t {
      assert r[k] in multiset(r);
    }
  }

  /** `std::sort(hits.begin(), hits.end(), cmpHitRec)`: a permutation of the
      records in non-decreasing ray parameter.  (`std::sort` may order
      records of equal `t` either way; the integrator reads only `t`.) */
  function SortByT(hits: seq<HitRec>): (r: seq<HitRec>)
    ensures SortedByT(r)
    ensures multiset(r) == multiset(hits)
    ensures |r| == |hits|
  {
    if hits == [] then []
    else
      assert hits == [hits[0]] + hits[1..];
      InsertByT(hits[0], SortByT(hits[1..]))
  }
}
