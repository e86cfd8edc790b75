/** `CHittableList`: the scene's (or a mesh's) primitives, plus the BVH
    accelerator once `BuildBVHTree` has made it.  Until then the accelerator
    pointer is null, and `Hit` and `HitAll` dereference it unchecked, so
    both require it to exist. */
module Collection {
  import opened Wrappers
  import opened Geometry
  import opened Hittable
  import opened Intersect

  class HittableList {
    /** `m_hittables`. */
    var hittables: seq<Primitive>
    /** `m_bvhAccel`: `None` is the null shared pointer. */
    var accel: Option<Accel>

    /** The implicit constructor: no primitives, no accelerator. */
    constructor ()
      ensures hittables == [] && accel == None
    {
      hittables := [];
      accel := None;
    }

    /** `Add`: append at the end, keeping every earlier primitive in order
        (no deduplication); the accelerator is not rebuilt, so it does not
        see the new primitive. */
    method Add(p: Primitive)
      modifies this
      ensures hittables == old(hittables) + [p]
      ensures accel == old(accel)
    {
      hittables := hittables + [p];
    }

    /** `Clear`: empty the list and the accelerator (which must exist). */
    method Clear()
      requires accel.Some?
      modifies this
      ensures hittables == [] && accel == Some(Accel([]))
    {
      hittables := [];
      accel := Some(Accel([]));
    }

    /** `BuildBVHTree`: a new accelerator over exactly the current
        primitives; the list itself is kept; always reports success. */
    method BuildBVHTree() returns (ok: bool)
      modifies this
      ensures ok
      ensures hittables == old(hittables)
      ensures accel == Some(Accel(hittables))
    {
      accel := Some(Accel(hittables));
      ok := true;
    }

    /** `Hit`.  A non-empty accelerator answers alone.  Otherwise every
        primitive is asked in list order for a hit up to `tClosest`, which
        starts at infinity (the caller's t_max is not used) and shrinks to
        each hit found.  `rec` is the caller's record, returned untouched
        on a miss. */
    method Hit(ray: Ray, tmin: real, tmax: Bound, rec: HitRec, sqrt: SqrtFn) returns (isHit: bool, rec': HitRec)
      requires accel.Some?
      ensures isHit <==> ListHit(hittables, accel.value, ray, tmin, tmax, sqrt).Some?
      ensures isHit ==> rec' == ListHit(hittables, accel.value, ray, tmin, tmax, sqrt).value
      ensures !isHit ==> rec' == rec
    {
      if !accel.value.IsEmpty() {
        var h := AccelHit(accel.value, ray, tmin, tmax, sqrt);
        if h.Some? {
          return true, h.value;
        }
        return false, rec;
      }
      isHit := false;
      rec' := rec;
      var tClosest := Infinity;
      var i := 0;
      while i < |hittables|
        invariant 0 <= i <= |hittables|
        invariant Scan(hittables, i, ray, tmin, Infinity, sqrt) == (if isHit then Some(rec') else None, tClosest)
        invariant !isHit ==> rec' == rec
      {
        var hitTmp := PrimHit(hittables[i], ray, tmin, tClosest, sqrt);
        if hitTmp.Some? {
          rec' := hitTmp.value;
          tClosest := Finite(hitTmp.value.t);
          isHit := true;
        }
        i := i + 1;
      }
    }

    /** `HitAll`: a non-empty accelerator appends its records; an empty one
        appends nothing and the call reports false. */
    method HitAll(ray: Ray, tmin: real, tmax: Bound, hits: seq<HitRec>, sqrt: SqrtFn) returns (ok: bool, hits': seq<HitRec>)
      requires accel.Some?
      ensures hits' == hits + ListHitAll(accel.value, ray, tmin, tmax, sqrt)
      ensures ok <==> ListHitAll(accel.value, ray, tmin, tmax, sqrt) != []
      ensures accel.value.IsEmpty() ==> !ok && hits' == hits
    {
      if !accel.value.IsEmpty() {
        var records := AccelHitAll(accel.value, ray, tmin, tmax, sqrt);
        return records != [], hits + records;
      }
      return false, hits;
    }
  }

  /** After `BuildBVHTree` (accelerator over exactly the list), `Hit`
      returns the unbounded nearest hit among the primitives (see
      `ScanNearest`), cut at t_max: which of the two paths answers makes
      no difference. */
  lemma BuiltListIsNearest(hittables: seq<Primitive>, ray: Ray, tmin: real, tmax: Bound, sqrt: SqrtFn)
    ensures ListHit(hittables, Accel(hittables), ray, tmin, tmax, sqrt) == Cut(Scan(hittables, |hittables|, ray, tmin, Infinity, sqrt).0, tmax)
  {
    if |hittables| != 0 {
      AccelAgreesWithScan(Accel(hittables), ray, tmin, tmax, sqrt);
    }
  }
}
