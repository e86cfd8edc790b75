/** Ray/primitive intersection of `hittable.cpp` and the nearest-hit scan
    of `hittable_list.cpp`, as functions on values.

    A primitive's `Hit` is a function returning the record it would write,
    or `None` where the source returns `false`.  Its `HitAll` appends to the
    caller's vector; `*HitAllRecords` is the sequence it appends, and the
    methods at the end of this module append it step by step as the source
    does.

    The BVH accelerator (`bvh.h`) is not part of this model.  It stands here
    as the sequence of primitives it was built over, answering `Hit` with
    the nearest hit within [t_min, t_max] (found by the same scan the list
    uses) and `HitAll` with every primitive's `HitAll` records. */
module Intersect {
  import opened Wrappers
  import opened Geometry
  import opened Hittable

  /** `t` lies in [t_min, t_max]: the source rejects `t < t_min || t > t_max`. */
  predicate InRange(t: real, tmin: real, tmax: Bound) {
    tmin <= t && !Exceeds(t, tmax)
  }

  // ---------------------------------------------------------------- sphere

  /** h = b*b - c for oc = origin - center, b = dot(oc, dir),
      c = dot(oc, oc) - radius*radius. */
  function SphereDiscriminant(s: Primitive, ray: Ray): real
    requires s.Sphere?
  {
    var oc := Sub(ray.origin, s.center);
    var b := Dot(oc, ray.dir);
    var c := Dot(oc, oc) - s.radius * s.radius;
    b * b - c
  }

  /** The roots -b - sqrt(h) and -b + sqrt(h), or `None` when h < 0. */
  function SphereRoots(s: Primitive, ray: Ray, sqrt: SqrtFn): (r: Option<(real, real)>)
    requires s.Sphere?
    ensures r.Some? <==> SphereDiscriminant(s, ray) >= 0.0
    ensures r.Some? ==> r.value.0 <= r.value.1
  {
    var h := SphereDiscriminant(s, ray);
    if h < 0.0 then None
    else
      var b := Dot(Sub(ray.origin, s.center), ray.dir);
      Some((-b - sqrt(h), -b + sqrt(h)))
  }

  /** The outward normal at `p`, (p - center) / radius: radius times it is
      the offset of `p` from the center.  The source divides by a zero
      radius; the model leaves the offset unscaled then. */
  function SphereOutward(s: Primitive, p: Vec3): (r: Vec3)
    requires s.Sphere?
    ensures s.radius != 0.0 ==> Scale(r, s.radius) == Sub(p, s.center)
  {
    if s.radius == 0.0 then Sub(p, s.center) else Scale(Sub(p, s.center), 1.0 / s.radius)
  }

  /** The record for a sphere hit at `t`: the outward normal, turned to face
      the ray. */
  function SphereRecord(s: Primitive, ray: Ray, t: real): (r: HitRec)
    requires s.Sphere?
    ensures r.t == t && r.p == At(ray, t) && r.hittable == s && r.material == s.material
    ensures r.frontFace <==> Dot(ray.dir, SphereOutward(s, r.p)) < 0.0
    ensures r.n == (if r.frontFace then SphereOutward(s, r.p) else Neg(SphereOutward(s, r.p)))
    ensures Dot(ray.dir, r.n) <= 0.0
  {
    var p := At(ray, t);
    SetFaceNormal(HitRec(p, SphereOutward(s, p), t, s.material, false, s), ray)
  }

  /** `CHittableSphere::Hit`: the smaller root, or the larger one when the
      smaller lies below t_min, accepted only inside [t_min, t_max].  So a
      hit is reported exactly when some root lies in the range, and it is
      the nearest such root. */
  function SphereHit(s: Primitive, ray: Ray, tmin: real, tmax: Bound, sqrt: SqrtFn): (r: Option<HitRec>)
    requires s.Sphere?
    ensures SphereDiscriminant(s, ray) < 0.0 ==> r.None?
    ensures r.Some? <==> (SphereRoots(s, ray, sqrt).Some? &&
      (InRange(SphereRoots(s, ray, sqrt).value.0, tmin, tmax) || InRange(SphereRoots(s, ray, sqrt).value.1, tmin, tmax)))
    ensures r.Some? ==> InRange(r.value.t, tmin, tmax) && r.value == SphereRecord(s, ray, r.value.t)
    ensures r.Some? ==> var (t0, t1) := SphereRoots(s, ray, sqrt).value;
      (r.value.t == t0 || r.value.t == t1) && (InRange(t0, tmin, tmax) ==> r.value.t == t0)
  {
    match SphereRoots(s, ray, sqrt)
    case None => None
    case Some((t0, t1)) =>
      var t := if t0 < tmin then t1 else t0;
      if t < tmin || Exceeds(t, tmax) then None else Some(SphereRecord(s, ray, t))
  }

  /** What `CHittableSphere::HitAll` appends: nothing on a miss; otherwise
      the record `Hit` would return, then, unless that record is already at
      the larger root, a second record at the larger root.  The second
      record is not checked against t_max. */
  function SphereHitAllRecords(s: Primitive, ray: Ray, tmin: real, tmax: Bound, sqrt: SqrtFn): (r: seq<HitRec>)
    requires s.Sphere?
    ensures |r| <= 2 && SortedByT(r)
    ensures r != [] <==> SphereHit(s, ray, tmin, tmax, sqrt).Some?
    ensures r != [] ==> r[0] == SphereHit(s, ray, tmin, tmax, sqrt).value
    ensures |r| == 2 ==> r[0].t < r[1].t && r[1] == SphereRecord(s, ray, SphereRoots(s, ray, sqrt).value.1)
    ensures forall k :: 0 <= k < |r| ==> tmin <= r[k].t
  {
    match SphereRoots(s, ray, sqrt)
    case None => []
    case Some((t0, t1)) =>
      var t := if t0 < tmin then t1 else t0;
      if t < tmin || Exceeds(t, tmax) then []
      else if t == t1 then [SphereRecord(s, ray, t)]
      else [SphereRecord(s, ray, t), SphereRecord(s, ray, t1)]
  }

  /** When the smaller root is in range, a ray that pierces a sphere
      appends two records and a tangent ray (both roots equal) one. */
  lemma SphereHitAllCount(s: Primitive, ray: Ray, tmin: real, tmax: Bound, sqrt: SqrtFn)
    requires s.Sphere? && SphereRoots(s, ray, sqrt).Some?
    requires InRange(SphereRoots(s, ray, sqrt).value.0, tmin, tmax)
    ensures var (t0, t1) := SphereRoots(s, ray, sqrt).value;
      |SphereHitAllRecords(s, ray, tmin, tmax, sqrt)| == (if t0 == t1 then 1 else 2)
  {
  }

  /** As written, `HitAll` can append a record beyond t_max: a unit sphere
      two units down the ray has roots 1 and 3, and with range [0, 2] the
      record at 3 is appended too. */
  lemma SphereHitAllPassesTMax(sqrt: SqrtFn)
    requires sqrt(1.0) == 1.0
    ensures var r := SphereHitAllRecords(Sphere(Vec3(0.0, 0.0, 2.0), 1.0, 0), Ray(Vec3(0.0, 0.0, 0.0), Vec3(0.0, 0.0, 1.0)), 0.0, Finite(2.0), sqrt);
      |r| == 2 && r[1].t == 3.0 && Exceeds(r[1].t, Finite(2.0))
  {
    var s := Sphere(Vec3(0.0, 0.0, 2.0), 1.0, 0);
    var ray := Ray(Vec3(0.0, 0.0, 0.0), Vec3(0.0, 0.0, 1.0));
    var oc := Sub(ray.origin, s.center);
    assert oc == Vec3(0.0, 0.0, -2.0);
    assert Dot(oc, ray.dir) == -2.0;
    assert Dot(oc, oc) == 4.0;
    assert SphereDiscriminant(s, ray) == 1.0;
    assert SphereRoots(s, ray, sqrt) == Some((1.0, 3.0));
    assert InRange(1.0, 0.0, Finite(2.0));
    SphereHitAllCount(s, ray, 0.0, Finite(2.0), sqrt);
  }

  // -------------------------------------------------------------- triangle

  /** The barycentric solve: u, v and t from the edge cross products, with
      d = 1 / dot(dir, n) for n = cross(v1 - v0, v2 - v0).  A ray parallel
      to the triangle's plane (dot(dir, n) == 0) has no solution here. */
  function TriangleSolve(tri: Primitive, ray: Ray): (r: Option<(real, real, real)>)
    requires tri.Triangle?
    ensures r.Some? <==> Dot(ray.dir, Cross(Sub(tri.v1, tri.v0), Sub(tri.v2, tri.v0))) != 0.0
  {
    var v1v0 := Sub(tri.v1, tri.v0);
    var v2v0 := Sub(tri.v2, tri.v0);
    var rov0 := Sub(ray.origin, tri.v0);
    var n := Cross(v1v0, v2v0);
    var q := Cross(rov0, ray.dir);
    var den := Dot(ray.dir, n);
    if den == 0.0 then None
    else
      var d := 1.0 / den;
      Some((d * Dot(Neg(q), v2v0), d * Dot(q, v1v0), d * Dot(Neg(n), rov0)))
  }

  /** The barycentric rejection `u < 0 || v < 0 || u + v > 1`, negated. */
  predicate InsideTriangle(u: real, v: real) {
    0.0 <= u && 0.0 <= v && u + v <= 1.0
  }

  /** `CHittableTriangle::Hit`: a hit exactly when the barycentric
      coordinates lie in the triangle and t in [t_min, t_max]; the normal
      before the face rule is the precomputed face normal, whatever the
      hit point. */
  function TriangleHit(tri: Primitive, ray: Ray, tmin: real, tmax: Bound): (r: Option<HitRec>)
    requires tri.Triangle?
    ensures r.Some? <==> (TriangleSolve(tri, ray).Some? &&
      InsideTriangle(TriangleSolve(tri, ray).value.0, TriangleSolve(tri, ray).value.1) &&
      InRange(TriangleSolve(tri, ray).value.2, tmin, tmax))
    ensures r.Some? ==> r.value.t == TriangleSolve(tri, ray).value.2 && r.value.p == At(ray, r.value.t)
    ensures r.Some? ==> (r.value.frontFace <==> Dot(ray.dir, tri.n) < 0.0)
    ensures r.Some? ==> r.value.n == (if r.value.frontFace then tri.n else Neg(tri.n))
    ensures r.Some? ==> Dot(ray.dir, r.value.n) <= 0.0
    ensures r.Some? ==> r.value.hittable == tri && r.value.material == tri.material
  {
    match TriangleSolve(tri, ray)
    case None => None
    case Some((u, v, t)) =>
      if u < 0.0 || v < 0.0 || u + v > 1.0 then None
      else if t < tmin || Exceeds(t, tmax) then None
      else Some(SetFaceNormal(HitRec(At(ray, t), tri.n, t, tri.material, false, tri), ray))
  }

  // ----------------------------------------------------------------- plane

  /** A finite plane's half-open acceptance window [-size/2, size/2). */
  predicate InWindow(x: real, size: real) {
    -0.5 * size <= x && x < size * 0.5
  }

  /** t = dot(origin - rayOrigin, vz) / dot(dir, vz), and the hit point's
      coordinates along vx and vy relative to the plane's origin.  A ray
      parallel to the plane (dot(dir, vz) == 0) has no solution here. */
  function PlaneSolve(pl: Primitive, ray: Ray): (r: Option<(real, real, real)>)
    requires pl.Plane?
    ensures r.Some? <==> Dot(ray.dir, pl.vz) != 0.0
    ensures r.Some? ==> Dot(Sub(At(ray, r.value.0), pl.origin), pl.vz) == 0.0
  {
    var dotNL := Dot(ray.dir, pl.vz);
    if dotNL == 0.0 then None
    else
      var t := Dot(Sub(pl.origin, ray.origin), pl.vz) / dotNL;
      var projected := Sub(Add(ray.origin, Scale(ray.dir, t)), pl.origin);
      Some((t, Dot(projected, pl.vx), Dot(projected, pl.vy)))
  }

  /** `CHittablePlane::Hit`: t in [t_min, t_max] and above `_EPSILON`, and
      the hit point inside the half-open window on both axes. */
  function PlaneHit(pl: Primitive, ray: Ray, tmin: real, tmax: Bound): (r: Option<HitRec>)
    requires pl.Plane?
    ensures r.Some? <==> (PlaneSolve(pl, ray).Some? &&
      var (t, px, py) := PlaneSolve(pl, ray).value;
      InRange(t, tmin, tmax) && t > Epsilon && InWindow(px, pl.sx) && InWindow(py, pl.sy))
    ensures r.Some? ==> r.value.t == PlaneSolve(pl, ray).value.0 && r.value.p == At(ray, r.value.t)
    ensures r.Some? ==> (r.value.frontFace <==> Dot(ray.dir, pl.vz) < 0.0)
    ensures r.Some? ==> r.value.n == (if r.value.frontFace then pl.vz else Neg(pl.vz))
    ensures r.Some? ==> Dot(ray.dir, r.value.n) <= 0.0
    ensures r.Some? ==> r.value.hittable == pl && r.value.material == pl.material
  {
    match PlaneSolve(pl, ray)
    case None => None
    case Some((t, px, py)) =>
      if t < tmin || Exceeds(t, tmax) then None
      else if t > Epsilon && px >= -0.5 * pl.sx && px < pl.sx * 0.5 && py >= -0.5 * pl.sy && py < pl.sy * 0.5 then
        Some(SetFaceNormal(HitRec(At(ray, t), pl.vz, t, pl.material, false, pl), ray))
      else None
  }

  /** The window is closed below and open above: with t and the other
      coordinate acceptable, a hit point exactly at -sx/2 along vx is
      accepted and one exactly at +sx/2 is rejected. */
  lemma PlaneWindowHalfOpen(pl: Primitive, ray: Ray, tmin: real, tmax: Bound)
    requires pl.Plane? && pl.sx > 0.0 && PlaneSolve(pl, ray).Some?
    requires var (t, _, py) := PlaneSolve(pl, ray).value;
      InRange(t, tmin, tmax) && t > Epsilon && InWindow(py, pl.sy)
    ensures PlaneSolve(pl, ray).value.1 == -0.5 * pl.sx ==> PlaneHit(pl, ray, tmin, tmax).Some?
    ensures PlaneSolve(pl, ray).value.1 == 0.5 * pl.sx ==> PlaneHit(pl, ray, tmin, tmax).None?
  {
  }

  // ------------------------------------------------- dispatch and the scan

  /** `IHittable::Hit` for any primitive.  A mesh answers nothing until it
      is loaded; after that its triangle list is queried through the
      accelerator built over its triangles when there are any, and by the
      brute-force scan (over no triangles) otherwise. */
  function PrimHit(p: Primitive, ray: Ray, tmin: real, tmax: Bound, sqrt: SqrtFn): (r: Option<HitRec>)
    ensures r.Some? ==> InRange(r.value.t, tmin, tmax)
    ensures r.Some? && p.Mesh? ==> p.loaded
    decreases p, 0
  {
    match p
    case Sphere(_, _, _) => SphereHit(p, ray, tmin, tmax, sqrt)
    case Triangle(_, _, _, _, _) => TriangleHit(p, ray, tmin, tmax)
    case Plane(_, _, _, _, _, _, _) => PlaneHit(p, ray, tmin, tmax)
    case Mesh(loaded, tris, _) =>
      if !loaded then None
      else if |tris| != 0 then Scan(tris, |tris|, ray, tmin, tmax, sqrt).0
      else Scan(tris, 0, ray, tmin, Infinity, sqrt).0
  }

  /** The brute-force loop of `CHittableList::Hit` over the first `n`
      primitives, starting from the bound `start`: each primitive is asked
      for a hit up to the closest t found so far, and a hit replaces the
      record and becomes the new bound.  Returns the record found (if any)
      and the bound reached. */
  function Scan(ps: seq<Primitive>, n: nat, ray: Ray, tmin: real, start: Bound, sqrt: SqrtFn): (r: (Option<HitRec>, Bound))
    requires n <= |ps|
    ensures r.0.Some? ==> r.1 == Finite(r.0.value.t) && InRange(r.0.value.t, tmin, start)
    ensures r.0.None? ==> r.1 == start
    decreases ps, n
  {
    if n == 0 then (None, start)
    else
      var (best, closest) := Scan(ps, n - 1, ray, tmin, start, sqrt);
      match PrimHit(ps[n - 1], ray, tmin, closest, sqrt)
      case Some(h) => (Some(h), Finite(h.t))
      case None => (best, closest)
  }

  /** A primitive's hit up to a bound, given its hit with no upper bound. */
  function Cut(o: Option<HitRec>, tmax: Bound): Option<HitRec> {
    if o.Some? && !Exceeds(o.value.t, tmax) then o else None
  }

  /** Every primitive picks its hit without looking at t_max and only then
      compares it with t_max: its hit up to any bound is its unbounded hit,
      if that lies within the bound. */
  lemma {:induction false} PrimHitCut(p: Primitive, ray: Ray, tmin: real, tmax: Bound, sqrt: SqrtFn)
    ensures PrimHit(p, ray, tmin, tmax, sqrt) == Cut(PrimHit(p, ray, tmin, Infinity, sqrt), tmax)
    decreases p, 0
  {
    match p
    case Sphere(_, _, _) =>
    case Triangle(_, _, _, _, _) =>
    case Plane(_, _, _, _, _, _, _) =>
    case Mesh(loaded, tris, _) =>
      if loaded && |tris| != 0 {
        ScanCut(tris, |tris|, ray, tmin, tmax, sqrt);
      }
  }

  /** Scanning up to a bound finds what the unbounded scan finds when that
      lies within the bound, and nothing otherwise. */
  lemma {:induction false} ScanCut(ps: seq<Primitive>, n: nat, ray: Ray, tmin: real, tmax: Bound, sqrt: SqrtFn)
    requires n <= |ps|
    ensures Scan(ps, n, ray, tmin, tmax, sqrt).0 == Cut(Scan(ps, n, ray, tmin, Infinity, sqrt).0, tmax)
    decreases ps, n
  {
    if n > 0 {
      ScanCut(ps, n - 1, ray, tmin, tmax, sqrt);
      var (_, cB) := Scan(ps, n - 1, ray, tmin, tmax, sqrt);
      var (_, cI) := Scan(ps, n - 1, ray, tmin, Infinity, sqrt);
      PrimHitCut(ps[n - 1], ray, tmin, cB, sqrt);
      PrimHitCut(ps[n - 1], ray, tmin, cI, sqrt);
    }
  }

  /** The bound of the scan never grows: `tClosest` only shrinks. */
  lemma {:induction false} ScanBoundShrinks(ps: seq<Primitive>, n: nat, ray: Ray, tmin: real, start: Bound, sqrt: SqrtFn)
    requires n < |ps|
    ensures var c := Scan(ps, n, ray, tmin, start, sqrt).1;
      var c' := Scan(ps, n + 1, ray, tmin, start, sqrt).1;
      c'.Finite? ==> (c.Finite? ==> c'.value <= c.value)
  {
    var c := Scan(ps, n, ray, tmin, start, sqrt).1;
    var h := PrimHit(ps[n], ray, tmin, c, sqrt);
    if h.Some? {
      assert InRange(h.value.t, tmin, c);
    }
  }

  /** The unbounded hit of primitive `i`: what it reports with t_max = infinity. */
  function Candidate(ps: seq<Primitive>, i: nat, ray: Ray, tmin: real, sqrt: SqrtFn): Option<HitRec>
    requires i < |ps|
  {
    PrimHit(ps[i], ray, tmin, Infinity, sqrt)
  }

  /** One step of the unbounded scan: primitive n-1 replaces the record
      exactly when its unbounded hit is no farther than the bound reached. */
  lemma ScanStep(ps: seq<Primitive>, n: nat, ray: Ray, tmin: real, sqrt: SqrtFn)
    requires 0 < n <= |ps|
    ensures var c := Candidate(ps, n - 1, ray, tmin, sqrt);
      var prev := Scan(ps, n - 1, ray, tmin, Infinity, sqrt);
      Scan(ps, n, ray, tmin, Infinity, sqrt).0 == if c.Some? && !Exceeds(c.value.t, prev.1) then c else prev.0
  {
    PrimHitCut(ps[n - 1], ray, tmin, Scan(ps, n - 1, ray, tmin, Infinity, sqrt).1, sqrt);
  }

  /** The unbounded hits of the first `n` primitives, in list order. */
  function Candidates(ps: seq<Primitive>, n: nat, ray: Ray, tmin: real, sqrt: SqrtFn): (r: seq<Option<HitRec>>)
    requires n <= |ps|
    ensures |r| == n
    ensures forall i :: 0 <= i < n ==> r[i] == Candidate(ps, i, ray, tmin, sqrt)
  {
    if n == 0 then [] else Candidates(ps, n - 1, ray, tmin, sqrt) + [Candidate(ps, n - 1, ray, tmin, sqrt)]
  }

  /** The bound a nearest-hit search has reached once it keeps `o`. */
  function BoundOf(o: Option<HitRec>): Bound {
    if o.Some? then Finite(o.value.t) else Infinity
  }

  /** A nearest-hit search over a list of candidate hits, independent of
      geometry: each candidate replaces the record kept so far when it is
      no farther than it (ties go to the later candidate). */
  function Nearest(cs: seq<Option<HitRec>>): Option<HitRec>
  {
    if cs == [] then None
    else
      var prev := Nearest(cs[..|cs| - 1]);
      var c := cs[|cs| - 1];
      if c.Some? && !Exceeds(c.value.t, BoundOf(prev)) then c else prev
  }

  /** The unbounded scan over the primitives is the nearest-hit search over
      their unbounded hits. */
  lemma {:induction false} ScanIsNearest(ps: seq<Primitive>, n: nat, ray: Ray, tmin: real, sqrt: SqrtFn)
    requires n <= |ps|
    ensures Scan(ps, n, ray, tmin, Infinity, sqrt).0 == Nearest(Candidates(ps, n, ray, tmin, sqrt))
    decreases n
  {
    if n > 0 {
      ScanIsNearest(ps, n - 1, ray, tmin, sqrt);
      ScanStep(ps, n, ray, tmin, sqrt);
      var cs := Candidates(ps, n, ray, tmin, sqrt);
      assert cs[..n - 1] == Candidates(ps, n - 1, ray, tmin, sqrt);
      var prev := Scan(ps, n - 1, ray, tmin, Infinity, sqrt);
      assert prev.1 == BoundOf(prev.0);
    }
  }

  /** One step of a nearest-hit search whose bound is the record kept so far:
      a record is kept once there is one, and it is no farther than either
      the old one or the candidate. */
  lemma KeepNearer(prev: Option<HitRec>, c: Option<HitRec>, r: Option<HitRec>)
    requires r == if c.Some? && !Exceeds(c.value.t, BoundOf(prev)) then c else prev
    ensures c.Some? || prev.Some? ==> r.Some?
    ensures r.Some? && c.Some? ==> r.value.t <= c.value.t
    ensures r.Some? && prev.Some? ==> r.value.t <= prev.value.t
  {
  }

  /** A hit candidate makes the search keep a record, and one no farther
      than that candidate. */
  lemma {:induction false} NearestBelow(cs: seq<Option<HitRec>>, i: nat)
    requires i < |cs| && cs[i].Some?
    ensures Nearest(cs).Some? && Nearest(cs).value.t <= cs[i].value.t
    decreases |cs|
  {
    var p := cs[..|cs| - 1];
    KeepNearer(Nearest(p), cs[|cs| - 1], Nearest(cs));
    if i < |cs| - 1 {
      assert p[i] == cs[i];
      NearestBelow(p, i);
    }
  }

  /** `r` is candidate k and every later candidate misses or is hit
      strictly farther. */
  predicate LastMinimal(cs: seq<Option<HitRec>>, k: int, r: Option<HitRec>) {
    0 <= k < |cs| && r.Some? && cs[k] == r &&
    forall j :: k < j < |cs| && cs[j].Some? ==> r.value.t < cs[j].value.t
  }

  /** The record kept is the last candidate attaining the minimum. */
  lemma {:induction false} NearestIsLastMinimal(cs: seq<Option<HitRec>>)
    ensures Nearest(cs).Some? ==> exists k :: 0 <= k < |cs| && LastMinimal(cs, k, Nearest(cs))
    decreases |cs|
  {
    if cs != [] {
      var p := cs[..|cs| - 1];
      var c := cs[|cs| - 1];
      var r := Nearest(cs);
      NearestIsLastMinimal(p);
      if c.Some? && !Exceeds(c.value.t, BoundOf(Nearest(p))) {
        assert LastMinimal(cs, |cs| - 1, r);
      } else if r.Some? {
        assert r == Nearest(p);
        var k :| LastMinimal(p, k, r);
        assert LastMinimal(p, k, r);
        forall j | k < j < |cs| && cs[j].Some?
          ensures r.value.t < cs[j].value.t
        {
          if j < |p| {
            assert cs[j] == p[j];
          }
        }
        assert LastMinimal(cs, k, r);
      }
    }
  }

  /** The search keeps a record exactly when some candidate is a hit. */
  lemma NearestFindsAny(cs: seq<Option<HitRec>>)
    ensures Nearest(cs).Some? <==> exists i :: 0 <= i < |cs| && cs[i].Some?
  {
    NearestIsLastMinimal(cs);
    if i :| 0 <= i < |cs| && cs[i].Some? {
      NearestBelow(cs, i);
    }
  }

  /** The scan finds a record exactly when some primitive is hit. */
  lemma ScanFindsAny(ps: seq<Primitive>, n: nat, ray: Ray, tmin: real, sqrt: SqrtFn)
    requires n <= |ps|
    ensures Scan(ps, n, ray, tmin, Infinity, sqrt).0.Some? <==> exists i :: 0 <= i < n && Candidate(ps, i, ray, tmin, sqrt).Some?
  {
    ScanIsNearest(ps, n, ray, tmin, sqrt);
    var cs := Candidates(ps, n, ray, tmin, sqrt);
    NearestFindsAny(cs);
    if i :| 0 <= i < n && Candidate(ps, i, ray, tmin, sqrt).Some? {
      assert cs[i].Some?;
    }
  }

  /** The record found is no farther than any primitive's hit. */
  lemma ScanIsMinimal(ps: seq<Primitive>, n: nat, ray: Ray, tmin: real, sqrt: SqrtFn)
    requires n <= |ps|
    ensures var r := Scan(ps, n, ray, tmin, Infinity, sqrt).0;
      r.Some? ==> forall i :: 0 <= i < n && Candidate(ps, i, ray, tmin, sqrt).Some? ==>
        r.value.t <= Candidate(ps, i, ray, tmin, sqrt).value.t
  {
    ScanIsNearest(ps, n, ray, tmin, sqrt);
    var cs := Candidates(ps, n, ray, tmin, sqrt);
    var r := Scan(ps, n, ray, tmin, Infinity, sqrt).0;
    assert r == Nearest(cs);
    forall i | 0 <= i < n && Candidate(ps, i, ray, tmin, sqrt).Some?
      ensures r.Some? && r.value.t <= Candidate(ps, i, ray, tmin, sqrt).value.t
    {
      assert cs[i] == Candidate(ps, i, ray, tmin, sqrt);
      NearestBelow(cs, i);
    }
  }

  /** Among the first `n` primitives, `r` is primitive k's unbounded hit and
      every later primitive is missed or hit strictly farther. */
  predicate LastMinimalAt(ps: seq<Primitive>, n: nat, k: int, r: Option<HitRec>, ray: Ray, tmin: real, sqrt: SqrtFn)
    requires n <= |ps|
  {
    LastMinimal(Candidates(ps, n, ray, tmin, sqrt), k, r)
  }

  /** The record found is the hit of the last primitive attaining the
      minimum: every later primitive is missed or hit strictly farther. */
  lemma ScanIsLastMinimal(ps: seq<Primitive>, n: nat, ray: Ray, tmin: real, sqrt: SqrtFn)
    requires n <= |ps|
    ensures var r := Scan(ps, n, ray, tmin, Infinity, sqrt).0;
      r.Some? ==> exists k :: 0 <= k < n && LastMinimalAt(ps, n, k, r, ray, tmin, sqrt)
  {
    ScanIsNearest(ps, n, ray, tmin, sqrt);
    var cs := Candidates(ps, n, ray, tmin, sqrt);
    var r := Scan(ps, n, ray, tmin, Infinity, sqrt).0;
    NearestIsLastMinimal(cs);
    if r.Some? {
      var k :| LastMinimal(cs, k, r);
      assert LastMinimalAt(ps, n, k, r, ray, tmin, sqrt);
    }
  }

  /** The brute-force scan is a nearest-hit search: it finds a record
      exactly when some primitive is hit, the record's t is no larger than
      any primitive's hit, and the record is the hit of the LAST primitive
      attaining that minimum (primitives accept t == t_max, so a later
      equal hit replaces an earlier one). */
  lemma ScanNearest(ps: seq<Primitive>, ray: Ray, tmin: real, sqrt: SqrtFn)
    ensures var r := Scan(ps, |ps|, ray, tmin, Infinity, sqrt).0;
      (r.Some? <==> exists i :: 0 <= i < |ps| && Candidate(ps, i, ray, tmin, sqrt).Some?) &&
      (r.Some? ==>
        (forall i :: 0 <= i < |ps| && Candidate(ps, i, ray, tmin, sqrt).Some? ==> r.value.t <= Candidate(ps, i, ray, tmin, sqrt).value.t) &&
        (exists k :: 0 <= k < |ps| && LastMinimalAt(ps, |ps|, k, r, ray, tmin, sqrt)))
  {
    ScanFindsAny(ps, |ps|, ray, tmin, sqrt);
    ScanIsMinimal(ps, |ps|, ray, tmin, sqrt);
    ScanIsLastMinimal(ps, |ps|, ray, tmin, sqrt);
  }

  // ----------------------------------------------------- the accelerator

  /** The BVH accelerator, by the primitives it was built over. */
  datatype Accel = Accel(prims: seq<Primitive>) {
    /** `CBVHAccel::IsEmpty`: built over no primitives. */
    predicate IsEmpty() { |prims| == 0 }
  }

  /** `CBVHAccel::Hit`: the nearest hit within [t_min, t_max]. */
  function AccelHit(a: Accel, ray: Ray, tmin: real, tmax: Bound, sqrt: SqrtFn): (r: Option<HitRec>)
    ensures r.Some? ==> InRange(r.value.t, tmin, tmax)
  {
    Scan(a.prims, |a.prims|, ray, tmin, tmax, sqrt).0
  }

  /** The accelerator and the brute-force scan over the same primitives
      agree: the accelerator's hit is the scan's, cut at t_max. */
  lemma AccelAgreesWithScan(a: Accel, ray: Ray, tmin: real, tmax: Bound, sqrt: SqrtFn)
    ensures AccelHit(a, ray, tmin, tmax, sqrt) == Cut(Scan(a.prims, |a.prims|, ray, tmin, Infinity, sqrt).0, tmax)
  {
    ScanCut(a.prims, |a.prims|, ray, tmin, tmax, sqrt);
  }

  // -------------------------------------------------------------- HitAll

  /** What a primitive's `HitAll` appends. */
  function PrimHitAll(p: Primitive, ray: Ray, tmin: real, tmax: Bound, sqrt: SqrtFn): seq<HitRec>
    decreases p, 0
  {
    match p
    case Sphere(_, _, _) => SphereHitAllRecords(p, ray, tmin, tmax, sqrt)
    case Triangle(_, _, _, _, _) => var h := TriangleHit(p, ray, tmin, tmax); if h.Some? then [h.value] else []
    case Plane(_, _, _, _, _, _, _) => var h := PlaneHit(p, ray, tmin, tmax); if h.Some? then [h.value] else []
    case Mesh(loaded, tris, _) =>
      if !loaded || |tris| == 0 then [] else ScanAll(tris, |tris|, ray, tmin, tmax, sqrt)
  }

  /** The `HitAll` records of the first `n` primitives, one after another. */
  function ScanAll(ps: seq<Primitive>, n: nat, ray: Ray, tmin: real, tmax: Bound, sqrt: SqrtFn): seq<HitRec>
    requires n <= |ps|
    decreases ps, n
  {
    if n == 0 then [] else ScanAll(ps, n - 1, ray, tmin, tmax, sqrt) + PrimHitAll(ps[n - 1], ray, tmin, tmax, sqrt)
  }

  /** No primitive appends a record below t_min; with t_max = infinity, all
      records lie in range. */
  lemma {:induction false} PrimHitAllAboveMin(p: Primitive, ray: Ray, tmin: real, tmax: Bound, sqrt: SqrtFn)
    ensures forall k :: 0 <= k < |PrimHitAll(p, ray, tmin, tmax, sqrt)| ==> tmin <= PrimHitAll(p, ray, tmin, tmax, sqrt)[k].t
    decreases p, 0
  {
    match p
    case Sphere(_, _, _) =>
    case Triangle(_, _, _, _, _) =>
    case Plane(_, _, _, _, _, _, _) =>
    case Mesh(loaded, tris, _) =>
      if loaded && |tris| != 0 {
        ScanAllAboveMin(tris, |tris|, ray, tmin, tmax, sqrt);
      }
  }

  lemma {:induction false} ScanAllAboveMin(ps: seq<Primitive>, n: nat, ray: Ray, tmin: real, tmax: Bound, sqrt: SqrtFn)
    requires n <= |ps|
    ensures forall k :: 0 <= k < |ScanAll(ps, n, ray, tmin, tmax, sqrt)| ==> tmin <= ScanAll(ps, n, ray, tmin, tmax, sqrt)[k].t
    decreases ps, n
  {
    if n > 0 {
      ScanAllAboveMin(ps, n - 1, ray, tmin, tmax, sqrt);
      PrimHitAllAboveMin(ps[n - 1], ray, tmin, tmax, sqrt);
    }
  }

  /** `CBVHAccel::HitAll`: every primitive's `HitAll` records (in primitive
      order here; the caller sorts them). */
  function AccelHitAll(a: Accel, ray: Ray, tmin: real, tmax: Bound, sqrt: SqrtFn): (r: seq<HitRec>)
    ensures forall k :: 0 <= k < |r| ==> tmin <= r[k].t
  {
    ScanAllAboveMin(a.prims, |a.prims|, ray, tmin, tmax, sqrt);
    ScanAll(a.prims, |a.prims|, ray, tmin, tmax, sqrt)
  }

  // ------------------------------------------------- the list's queries

  /** `CHittableList::Hit` (once the accelerator exists): the accelerator's
      answer when it is non-empty, otherwise the brute-force scan, which
      starts at `_INFINITY` and so never passes the caller's t_max on. */
  function ListHit(hittables: seq<Primitive>, accel: Accel, ray: Ray, tmin: real, tmax: Bound, sqrt: SqrtFn): (r: Option<HitRec>)
    ensures r.Some? ==> tmin <= r.value.t
    ensures !accel.IsEmpty() && r.Some? ==> !Exceeds(r.value.t, tmax)
  {
    if !accel.IsEmpty() then AccelHit(accel, ray, tmin, tmax, sqrt)
    else Scan(hittables, |hittables|, ray, tmin, Infinity, sqrt).0
  }

  /** `CHittableList::HitAll` (once the accelerator exists): only the
      accelerator answers; with an empty accelerator nothing is appended. */
  function ListHitAll(accel: Accel, ray: Ray, tmin: real, tmax: Bound, sqrt: SqrtFn): (r: seq<HitRec>)
    ensures accel.IsEmpty() ==> r == []
    ensures forall k :: 0 <= k < |r| ==> tmin <= r[k].t
  {
    if !accel.IsEmpty() then AccelHitAll(accel, ray, tmin, tmax, sqrt) else []
  }

  /** A loaded mesh answers as its triangle list does, through the
      accelerator built over the triangles. */
  lemma MeshIsItsList(m: Primitive, ray: Ray, tmin: real, tmax: Bound, sqrt: SqrtFn)
    requires m.Mesh? && m.loaded
    ensures PrimHit(m, ray, tmin, tmax, sqrt) == ListHit(m.triangles, Accel(m.triangles), ray, tmin, tmax, sqrt)
    ensures PrimHitAll(m, ray, tmin, tmax, sqrt) == ListHitAll(Accel(m.triangles), ray, tmin, tmax, sqrt)
  {
  }

  /** With an empty accelerator, the brute-force answer ignores t_max: the
      same record is found whatever bound the caller gives. */
  lemma BruteForceIgnoresTMax(hittables: seq<Primitive>, ray: Ray, tmin: real, tmax: Bound, tmax': Bound, sqrt: SqrtFn)
    ensures ListHit(hittables, Accel([]), ray, tmin, tmax, sqrt) == ListHit(hittables, Accel([]), ray, tmin, tmax', sqrt)
  {
  }

  // ------------------------------------------------ HitAll, step by step

  /** `CHittableSphere::HitAll`, appending to the caller's vector. */
  method SphereHitAll(s: Primitive, ray: Ray, tmin: real, tmax: Bound, sqrt: SqrtFn, hits: seq<HitRec>)
    returns (ok: bool, hits': seq<HitRec>)
    requires s.Sphere?
    ensures hits' == hits + SphereHitAllRecords(s, ray, tmin, tmax, sqrt)
    ensures ok <==> SphereHit(s, ray, tmin, tmax, sqrt).Some?
  {
    hits' := hits;
    var b := Dot(Sub(ray.origin, s.center), ray.dir);
    var h := SphereDiscriminant(s, ray);
    if h < 0.0 {
      return false, hits';
    }
    var t0, t1 := -b - sqrt(h), -b + sqrt(h);
    assert SphereRoots(s, ray, sqrt) == Some((t0, t1));
    var t := t0;
    if t < tmin {
      t := t1;
    }
    if t < tmin || Exceeds(t, tmax) {
      assert SphereHitAllRecords(s, ray, tmin, tmax, sqrt) == [];
      return false, hits';
    }
    assert SphereHit(s, ray, tmin, tmax, sqrt) == Some(SphereRecord(s, ray, t));
    hits' := hits' + [SphereRecord(s, ray, t)];
    if t == t1 {
      assert SphereHitAllRecords(s, ray, tmin, tmax, sqrt) == [SphereRecord(s, ray, t)];
      return true, hits';
    }
    assert SphereHitAllRecords(s, ray, tmin, tmax, sqrt) == [SphereRecord(s, ray, t), SphereRecord(s, ray, t1)];
    hits' := hits' + [SphereRecord(s, ray, t1)];
    ok := true;
  }

  /** `CHittableTriangle::HitAll`: the one record `Hit` finds, if any. */
  method TriangleHitAll(tri: Primitive, ray: Ray, tmin: real, tmax: Bound, hits: seq<HitRec>)
    returns (ok: bool, hits': seq<HitRec>)
    requires tri.Triangle?
    ensures ok <==> TriangleHit(tri, ray, tmin, tmax).Some?
    ensures hits' == hits + (if ok then [TriangleHit(tri, ray, tmin, tmax).value] else [])
  {
    var h := TriangleHit(tri, ray, tmin, tmax);
    hits' := hits;
    ok := false;
    if h.Some? {
      hits' := hits' + [h.value];
      ok := true;
    }
  }

  /** `CHittablePlane::HitAll`: the one record `Hit` finds, if any. */
  method PlaneHitAll(pl: Primitive, ray: Ray, tmin: real, tmax: Bound, hits: seq<HitRec>)
    returns (ok: bool, hits': seq<HitRec>)
    requires pl.Plane?
    ensures ok <==> PlaneHit(pl, ray, tmin, tmax).Some?
    ensures hits' == hits + (if ok then [PlaneHit(pl, ray, tmin, tmax).value] else [])
  {
    var h := PlaneHit(pl, ray, tmin, tmax);
    hits' := hits;
    ok := false;
    if h.Some? {
      hits' := hits' + [h.value];
      ok := true;
    }
  }

  /** `IHittable::HitAll`, dispatched on the primitive's kind.  A mesh
      appends nothing until loaded, then its triangle list's records. */
  method HitAllOf(p: Primitive, ray: Ray, tmin: real, tmax: Bound, hits: seq<HitRec>, sqrt: SqrtFn)
    returns (ok: bool, hits': seq<HitRec>)
    ensures hits' == hits + PrimHitAll(p, ray, tmin, tmax, sqrt)
    ensures p.Mesh? && !p.loaded ==> !ok
  {
    match p
    case Sphere(_, _, _) =>
      ok, hits' := SphereHitAll(p, ray, tmin, tmax, sqrt, hits);
    case Triangle(_, _, _, _, _) =>
      ok, hits' := TriangleHitAll(p, ray, tmin, tmax, hits);
    case Plane(_, _, _, _, _, _, _) =>
      ok, hits' := PlaneHitAll(p, ray, tmin, tmax, hits);
    case Mesh(loaded, tris, _) =>
      if !loaded {
        return false, hits;
      }
      var records := ListHitAll(Accel(tris), ray, tmin, tmax, sqrt);
      return records != [], hits + records;
  }
}
