/** `CHittableMesh`: vertices and indices read from an OBJ file, one
    triangle per three indices, and an internal `CHittableList` of those
    triangles with its accelerator.

    The OBJ reader (`tinyobj::LoadObj`) is not part of this model: `Load`
    receives what it produced, the vertex table and, per shape, the vertex
    index of every triangle corner. */
module Meshes {
  import opened Wrappers
  import opened Geometry
  import opened Hittable
  import opened Intersect
  import opened Collection

  // ------------------------------------------------- vertex deduplication

  /** No value occurs twice. */
  predicate Distinct(s: seq<Vec3>) {
    forall k, l :: 0 <= k < l < |s| ==> s[k] != s[l]
  }

  /** The distinct values of `s` in order of first occurrence: a value is
      kept when it has not been seen before. */
  function Unique(s: seq<Vec3>): (r: seq<Vec3>)
    ensures forall v :: v in r <==> v in s
    ensures Distinct(r)
  {
    if s == [] then []
    else
      var u := Unique(s[..|s| - 1]);
      assert s == s[..|s| - 1] + [s[|s| - 1]];
      if s[|s| - 1] in u then u else u + [s[|s| - 1]]
  }

  /** Extending the input by one value keeps it when it is new. */
  lemma UniqueSnoc(s: seq<Vec3>, v: Vec3)
    ensures Unique(s + [v]) == if v in Unique(s) then Unique(s) else Unique(s) + [v]
  {
    assert (s + [v])[..|s + [v]| - 1] == s;
  }

  /** Where `v` first occurs in `s`. */
  function FirstIndex(s: seq<Vec3>, v: Vec3): (r: nat)
    requires v in s
    ensures r < |s| && s[r] == v && v !in s[..r]
  {
    if s[0] == v then 0
    else
      var k := FirstIndex(s[1..], v);
      assert s[1..][..k] == s[1..k + 1];
      1 + k
  }

  /** A position holding `v` with no `v` before it is the first index. */
  lemma FirstIndexUnique(s: seq<Vec3>, v: Vec3, r: nat)
    requires r < |s| && s[r] == v && v !in s[..r]
    ensures FirstIndex(s, v) == r
  {
  }

  /** `Unique` keeps first-occurrence order: an earlier kept value first
      occurs earlier in `s`. */
  lemma {:induction false} UniqueInOrder(s: seq<Vec3>)
    ensures forall k, l :: 0 <= k < l < |Unique(s)| ==> FirstIndex(s, Unique(s)[k]) < FirstIndex(s, Unique(s)[l])
  {
    if s != [] {
      var p := s[..|s| - 1];
      var x := s[|s| - 1];
      UniqueInOrder(p);
      var u := Unique(p);
      assert s == p + [x];
      forall v | v in p
        ensures FirstIndex(s, v) == FirstIndex(p, v)
      {
        var f := FirstIndex(p, v);
        assert s[..f] == p[..f];
        FirstIndexUnique(s, v, f);
      }
      if x !in u {
        assert x !in s[..|p|];
        FirstIndexUnique(s, x, |p|);
      }
    }
  }

  /** `std::find`: the position of the first `v` in `u`, or `|u|` (the end
      iterator) when there is none. */
  method Find(u: seq<Vec3>, v: Vec3) returns (k: nat)
    ensures k <= |u|
    ensures k < |u| ==> u[k] == v
    ensures v !in u[..k]
  {
    k := 0;
    while k < |u| && u[k] != v
      invariant k <= |u|
      invariant v !in u[..k]
    {
      assert u[..k + 1] == u[..k] + [u[k]];
      k := k + 1;
    }
  }

  // -------------------------------------------------- triangles and box

  /** The loader's output: a failure, or the vertex table and the shapes,
      each a sequence of vertex-table indices (three per triangle). */
  datatype LoaderOutput = LoadFailed | Loaded(vertices: seq<Vec3>, shapes: seq<seq<nat>>)

  /** The loader only produces indices into its own vertex table. */
  predicate WellFormed(out: LoaderOutput) {
    out.Loaded? ==> forall s, i :: 0 <= s < |out.shapes| && 0 <= i < |out.shapes[s]| ==> out.shapes[s][i] < |out.vertices|
  }

  /** The corner positions of a shape, one per loader index. */
  function Corners(vertices: seq<Vec3>, idx: seq<nat>): (r: seq<Vec3>)
    requires forall i :: 0 <= i < |idx| ==> idx[i] < |vertices|
    ensures |r| == |idx| && forall i :: 0 <= i < |idx| ==> r[i] == vertices[idx[i]]
  {
    seq(|idx|, i requires 0 <= i < |idx| => vertices[idx[i]])
  }

  /** Every index names a vertex. */
  predicate IndicesInRange(vertices: seq<Vec3>, indices: seq<nat>) {
    forall i :: 0 <= i < |indices| ==> indices[i] < |vertices|
  }

  /** The first `n` triangles built from the index buffer, three indices
      each. */
  function TrianglesOf(vertices: seq<Vec3>, indices: seq<nat>, n: nat, material: Material, sqrt: SqrtFn): (r: seq<Primitive>)
    requires IndicesInRange(vertices, indices) && 3 * n <= |indices|
    ensures |r| == n
    ensures forall i :: 0 <= i < n ==> (r[i].Triangle? && r[i].material == material &&
                                        r[i].v0 == vertices[indices[3 * i]] && r[i].v1 == vertices[indices[3 * i + 1]] && r[i].v2 == vertices[indices[3 * i + 2]])
  {
    if n == 0 then []
    else
      var i := n - 1;
      TrianglesOf(vertices, indices, i, material, sqrt) +
        [MakeTriangle(vertices[indices[3 * i]], vertices[indices[3 * i + 1]], vertices[indices[3 * i + 2]], material, sqrt)]
  }

  /** Triangle i of the buffer is the one built from indices 3i, 3i+1
      and 3i+2. */
  lemma {:induction false} TrianglesOfAt(vertices: seq<Vec3>, indices: seq<nat>, n: nat, material: Material, sqrt: SqrtFn, i: nat)
    requires IndicesInRange(vertices, indices) && 3 * n <= |indices| && i < n
    ensures TrianglesOf(vertices, indices, n, material, sqrt)[i] ==
      MakeTriangle(vertices[indices[3 * i]], vertices[indices[3 * i + 1]], vertices[indices[3 * i + 2]], material, sqrt)
  {
    if i < n - 1 {
      TrianglesOfAt(vertices, indices, n - 1, material, sqrt, i);
    }
  }

  /** Corner indices 3i, 3i+1 and 3i+2 of a triangle below |indices| / 3
      exist. */
  lemma CornerIndicesInRange(i: nat, len: nat)
    requires i < len / 3
    ensures i * 3 == 3 * i && 3 * i + 2 < len
  {
  }

  /** The box widened, triangle after triangle, by each triangle's box. */
  function BoxOver(box: AABB, tris: seq<Primitive>): AABB
    requires forall k :: 0 <= k < |tris| ==> tris[k].Triangle?
  {
    if tris == [] then box else Union(BoxOver(box, tris[..|tris| - 1]), TriangleBox(tris[|tris| - 1]))
  }

  /** Widening by one more triangle. */
  lemma BoxOverSnoc(box: AABB, tris: seq<Primitive>, i: nat)
    requires forall k :: 0 <= k < |tris| ==> tris[k].Triangle?
    requires i < |tris|
    ensures BoxOver(box, tris[..i + 1]) == Union(BoxOver(box, tris[..i]), TriangleBox(tris[i]))
    ensures tris[..i + 1] == tris[..i] + [tris[i]]
  {
    assert tris[..i + 1][..i] == tris[..i];
  }

  /** The widened box is the smallest box around the starting box and all
      the triangle boxes. */
  lemma {:induction false} BoxOverIsLeast(box: AABB, tris: seq<Primitive>)
    requires forall k :: 0 <= k < |tris| ==> tris[k].Triangle?
    ensures Encloses(BoxOver(box, tris), box)
    ensures forall k :: 0 <= k < |tris| ==> Encloses(BoxOver(box, tris), TriangleBox(tris[k]))
    ensures forall c :: (Encloses(c, box) && (forall k :: 0 <= k < |tris| ==> Encloses(c, TriangleBox(tris[k])))) ==>
                        Encloses(c, BoxOver(box, tris))
  {
    if tris != [] {
      var p := tris[..|tris| - 1];
      BoxOverIsLeast(box, p);
      assert forall k :: 0 <= k < |p| ==> p[k] == tris[k];
    }
  }

  /** Every corner of every triangle lies in the widened box. */
  lemma BoxOverHoldsCorners(box: AABB, tris: seq<Primitive>, k: nat)
    requires forall j :: 0 <= j < |tris| ==> tris[j].Triangle?
    requires k < |tris|
    ensures var b := BoxOver(box, tris);
      LessEq(b.pMin, tris[k].v0) && LessEq(tris[k].v0, b.pMax) &&
      LessEq(b.pMin, tris[k].v1) && LessEq(tris[k].v1, b.pMax) &&
      LessEq(b.pMin, tris[k].v2) && LessEq(tris[k].v2, b.pMax)
  {
    BoxOverIsLeast(box, tris);
  }

  /** The state of `Load`'s copy loop after the first `j` corners, started
      from the vertex and index buffers `v0` and `i0`: the distinct corners
      so far, each with the index it was given, appended to the vertices,
      and one index per corner naming a vertex at the corner's position. */
  predicate CopyState(v0: seq<Vec3>, i0: seq<nat>, corners: seq<Vec3>, j: nat,
                      uniqueVertices: seq<Vec3>, uniqueIndices: seq<nat>, vertices: seq<Vec3>, indices: seq<nat>)
  {
    j <= |corners| && uniqueVertices == Unique(corners[..j]) &&
    |uniqueIndices| == |uniqueVertices| &&
    (forall k :: 0 <= k < |uniqueIndices| ==> uniqueIndices[k] == |v0| + k) &&
    vertices == v0 + uniqueVertices &&
    |indices| == |i0| + j && indices[..|i0|] == i0 &&
    IndicesInRange(vertices, indices) &&
    (forall i :: 0 <= i < j ==> vertices[indices[|i0| + i]] == corners[i])
  }

  /** A corner not met before becomes a new vertex with the next index. */
  lemma CopyNewCorner(v0: seq<Vec3>, i0: seq<nat>, corners: seq<Vec3>, j: nat,
                      uniqueVertices: seq<Vec3>, uniqueIndices: seq<nat>, vertices: seq<Vec3>, indices: seq<nat>)
    requires CopyState(v0, i0, corners, j, uniqueVertices, uniqueIndices, vertices, indices)
    requires j < |corners| && corners[j] !in uniqueVertices
    ensures CopyState(v0, i0, corners, j + 1, uniqueVertices + [corners[j]], uniqueIndices + [|vertices|],
                      vertices + [corners[j]], indices + [|vertices|])
  {
    assert corners[..j + 1] == corners[..j] + [corners[j]];
    UniqueSnoc(corners[..j], corners[j]);
    var vs, ix := vertices + [corners[j]], indices + [|vertices|];
    assert ix[..|i0|] == indices[..|i0|];
    forall i | 0 <= i < j + 1
      ensures vs[ix[|i0| + i]] == corners[i]
    {
      if i < j {
        assert ix[|i0| + i] == indices[|i0| + i];
      }
    }
  }

  /** A corner met before reuses the index its vertex was given. */
  lemma CopyOldCorner(v0: seq<Vec3>, i0: seq<nat>, corners: seq<Vec3>, j: nat,
                      uniqueVertices: seq<Vec3>, uniqueIndices: seq<nat>, vertices: seq<Vec3>, indices: seq<nat>, it: nat)
    requires CopyState(v0, i0, corners, j, uniqueVertices, uniqueIndices, vertices, indices)
    requires j < |corners| && it < |uniqueVertices| && uniqueVertices[it] == corners[j]
    ensures CopyState(v0, i0, corners, j + 1, uniqueVertices, uniqueIndices, vertices, indices + [uniqueIndices[it]])
  {
    assert corners[..j + 1] == corners[..j] + [corners[j]];
    UniqueSnoc(corners[..j], corners[j]);
    var ix := indices + [uniqueIndices[it]];
    assert ix[..|i0|] == indices[..|i0|];
    assert vertices[uniqueIndices[it]] == corners[j];
    forall i | 0 <= i < j + 1
      ensures vertices[ix[|i0| + i]] == corners[i]
    {
      if i < j {
        assert ix[|i0| + i] == indices[|i0| + i];
      }
    }
  }

  /** The body of `Load`'s copy loop, on the mesh's vertex and index
      buffers `v0` and `i0`. */
  method AppendCornersTo(v0: seq<Vec3>, i0: seq<nat>, corners: seq<Vec3>) returns (vertices: seq<Vec3>, indices: seq<nat>)
    requires IndicesInRange(v0, i0)
    ensures IndicesInRange(vertices, indices)
    ensures vertices == v0 + Unique(corners)
    ensures |indices| == |i0| + |corners| && indices[..|i0|] == i0
    ensures forall i :: 0 <= i < |corners| ==> vertices[indices[|i0| + i]] == corners[i]
  {
    vertices, indices := v0, i0;
    var uniqueVertices: seq<Vec3> := [];
    var uniqueIndices: seq<nat> := [];
    var j := 0;
    assert v0 + [] == v0 && i0[..|i0|] == i0;
    while j < |corners|
      invariant CopyState(v0, i0, corners, j, uniqueVertices, uniqueIndices, vertices, indices)
    {
      var v := corners[j];
      var it := Find(uniqueVertices, v);
      if it == |uniqueVertices| {
        assert uniqueVertices[..it] == uniqueVertices;
        CopyNewCorner(v0, i0, corners, j, uniqueVertices, uniqueIndices, vertices, indices);
        uniqueVertices := uniqueVertices + [v];
        uniqueIndices := uniqueIndices + [|vertices|];
        vertices := vertices + [v];
        indices := indices + [uniqueIndices[|uniqueVertices| - 1]];
      } else {
        CopyOldCorner(v0, i0, corners, j, uniqueVertices, uniqueIndices, vertices, indices, it);
        indices := indices + [uniqueIndices[it]];
      }
      j := j + 1;
    }
    assert corners[..|corners|] == corners;
  }

  // ------------------------------------------------------------ the mesh

  class HittableMesh {
    /** `m_origin`: stored, not used by any query. */
    var origin: Vec3
    /** `m_material`. */
    var material: Material
    /** `m_vertices`, `m_indices`. */
    var vertices: seq<Vec3>
    var indices: seq<nat>
    /** `m_triangles`: the mesh's own list object. */
    var triangles: HittableList
    /** `m_aabb`. */
    var aabb: AABB
    /** `m_isMeshLoaded`. */
    var isLoaded: bool

    /** Every index names a vertex, and once loaded the triangle list has
        its accelerator over exactly its triangles. */
    predicate Valid()
      reads this, triangles
    {
      IndicesInRange(vertices, indices) &&
      (isLoaded ==> triangles.accel == Some(Accel(triangles.hittables)))
    }

    /** The mesh as a primitive of the scene. */
    function AsPrimitive(): (r: Primitive)
      reads this, triangles
      ensures r.Mesh? && r.loaded == isLoaded && r.triangles == triangles.hittables && r.material == material
    {
      Mesh(isLoaded, triangles.hittables, material)
    }

    /** The constructor: not loaded, with an empty triangle list that has
        no accelerator yet.  `box` is the default-constructed `m_aabb`. */
    constructor (origin: Vec3, material: Material, box: AABB)
      ensures Valid() && fresh(triangles)
      ensures this.origin == origin && this.material == material && aabb == box
      ensures vertices == [] && indices == [] && !isLoaded
      ensures triangles.hittables == [] && triangles.accel == None
    {
      this.origin := origin;
      this.material := material;
      vertices := [];
      indices := [];
      triangles := new HittableList();
      aabb := box;
      isLoaded := false;
    }

    /** The copy loop of `Load`: each corner is looked up among the
        vertices met so far in this call (not among earlier loads'); a new
        one is appended to the vertices with its index, and the corner's
        index is appended to the index buffer.  The vertex and index
        buffers grow in locals and are stored after the loop, which reads
        nothing else of the mesh. */
    method AppendCorners(corners: seq<Vec3>)
      requires IndicesInRange(vertices, indices)
      modifies this
      ensures triangles == old(triangles) && aabb == old(aabb) && isLoaded == old(isLoaded)
      ensures origin == old(origin) && material == old(material)
      ensures IndicesInRange(vertices, indices)
      ensures vertices == old(vertices) + Unique(corners)
      ensures |indices| == |old(indices)| + |corners| && indices[..|old(indices)|] == old(indices)
      ensures forall i :: 0 <= i < |corners| ==> vertices[indices[|old(indices)| + i]] == corners[i]
    {
      var verts, idxs := AppendCornersTo(vertices, indices, corners);
      vertices, indices := verts, idxs;
    }

    /** The triangle loop of `Load`: a triangle for every three indices of
        the whole index buffer, added to the list, widening the box. */
    method AddTriangles(sqrt: SqrtFn)
      requires IndicesInRange(vertices, indices)
      modifies this, triangles
      ensures vertices == old(vertices) && indices == old(indices) && isLoaded == old(isLoaded)
      ensures origin == old(origin) && material == old(material)
      ensures triangles.accel == old(triangles.accel) && triangles == old(triangles)
      ensures triangles.hittables == old(triangles.hittables) + TrianglesOf(vertices, indices, |indices| / 3, material, sqrt)
      ensures aabb == BoxOver(old(aabb), TrianglesOf(vertices, indices, |indices| / 3, material, sqrt))
    {
      aabb := AddTrianglesTo(triangles, vertices, indices, material, sqrt, aabb);
    }

    /** The loop of `AddTriangles` on a given list and box. */
    static method AddTrianglesTo(list: HittableList, verts: seq<Vec3>, idxs: seq<nat>, mat: Material, sqrt: SqrtFn, box0: AABB)
      returns (box: AABB)
      requires IndicesInRange(verts, idxs)
      modifies list
      ensures list.accel == old(list.accel)
      ensures list.hittables == old(list.hittables) + TrianglesOf(verts, idxs, |idxs| / 3, mat, sqrt)
      ensures box == BoxOver(box0, TrianglesOf(verts, idxs, |idxs| / 3, mat, sqrt))
    {
      var n := |idxs| / 3;
      var tris := TrianglesOf(verts, idxs, n, mat, sqrt);
      var l0 := list.hittables;
      box := box0;
      for i := 0 to n
        invariant list.accel == old(list.accel)
        invariant list.hittables == l0 + tris[..i]
        invariant box == BoxOver(box0, tris[..i])
      {
        CornerIndicesInRange(i, |idxs|);
        var triangle := MakeTriangle(verts[idxs[3 * i]], verts[idxs[3 * i + 1]], verts[idxs[3 * i + 2]], mat, sqrt);
        TrianglesOfAt(verts, idxs, n, mat, sqrt, i);
        list.Add(triangle);
        BoxOverSnoc(box0, tris, i);
        box := Union(box, TriangleBox(triangle));
      }
      assert tris[..n] == tris;
    }

    /** `Load`, from the loader's output.  A loader failure returns false
        with nothing changed; a shape count other than one throws (the
        `Failure` here), also with nothing changed.  Otherwise the corners
        are copied (`AppendCorners`), the triangles built (`AddTriangles`),
        the accelerator rebuilt and the mesh marked loaded. */
    method Load(out: LoaderOutput, sqrt: SqrtFn) returns (r: Result<bool, string>)
      requires Valid() && WellFormed(out)
      modifies this, triangles
      ensures Valid()
      ensures origin == old(origin) && material == old(material) && triangles == old(triangles)
      ensures out.LoadFailed? ==> r == Success(false)
      ensures out.Loaded? && |out.shapes| != 1 ==> r.Failure?
      ensures r != Success(true) ==> unchanged(this) && unchanged(triangles)
      ensures out.Loaded? && |out.shapes| == 1 ==> r == Success(true) && isLoaded
      ensures out.Loaded? && |out.shapes| == 1 ==>
        var corners := Corners(out.vertices, out.shapes[0]);
        var n0 := |old(indices)|;
        vertices == old(vertices) + Unique(corners) &&
        |indices| == n0 + |corners| && indices[..n0] == old(indices) &&
        (forall i :: 0 <= i < |corners| ==> vertices[indices[n0 + i]] == corners[i]) &&
        triangles.hittables == old(triangles.hittables) + TrianglesOf(vertices, indices, |indices| / 3, material, sqrt) &&
        aabb == BoxOver(old(aabb), TrianglesOf(vertices, indices, |indices| / 3, material, sqrt))
    {
      if out.LoadFailed? {
        return Success(false);
      }
      if |out.shapes| != 1 {
        return Failure("More than one shape found in the mesh!");
      }
      AppendCorners(Corners(out.vertices, out.shapes[0]));
      AddTriangles(sqrt);
      var _ := triangles.BuildBVHTree();
      isLoaded := true;
      return Success(true);
    }

    /** `Hit`: false, with the record untouched, until loaded; then the
        triangle list's answer. */
    method Hit(ray: Ray, tmin: real, tmax: Bound, rec: HitRec, sqrt: SqrtFn) returns (isHit: bool, rec': HitRec)
      requires Valid()
      ensures isHit <==> PrimHit(AsPrimitive(), ray, tmin, tmax, sqrt).Some?
      ensures isHit ==> rec' == PrimHit(AsPrimitive(), ray, tmin, tmax, sqrt).value
      ensures !isHit ==> rec' == rec
      ensures !isLoaded ==> !isHit
    {
      if !isLoaded {
        return false, rec;
      }
      MeshIsItsList(AsPrimitive(), ray, tmin, tmax, sqrt);
      isHit, rec' := triangles.Hit(ray, tmin, tmax, rec, sqrt);
    }

    /** `HitAll`: nothing appended until loaded; then the triangle list's
        records. */
    method HitAll(ray: Ray, tmin: real, tmax: Bound, hits: seq<HitRec>, sqrt: SqrtFn) returns (ok: bool, hits': seq<HitRec>)
      requires Valid()
      ensures hits' == hits + PrimHitAll(AsPrimitive(), ray, tmin, tmax, sqrt)
      ensures !isLoaded ==> !ok && hits' == hits
    {
      if !isLoaded {
        return false, hits;
      }
      MeshIsItsList(AsPrimitive(), ray, tmin, tmax, sqrt);
      ok, hits' := triangles.HitAll(ray, tmin, tmax, hits, sqrt);
    }
  }

  /** Loading a fresh mesh: triangle i has at its corners the loaded
      corners 3i, 3i+1 and 3i+2, in that order. */
  lemma FirstLoadTriangles(vertices: seq<Vec3>, indices: seq<nat>, corners: seq<Vec3>, material: Material, sqrt: SqrtFn, i: nat)
    requires IndicesInRange(vertices, indices) && |indices| == |corners|
    requires forall k :: 0 <= k < |corners| ==> vertices[indices[k]] == corners[k]
    requires i < |indices| / 3
    ensures var t := TrianglesOf(vertices, indices, |indices| / 3, material, sqrt)[i];
      t.v0 == corners[3 * i] && t.v1 == corners[3 * i + 1] && t.v2 == corners[3 * i + 2]
  {
  }
}
