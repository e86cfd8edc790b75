# cdrt core: intersection, the hittable list, meshes and the convolution renderer

This project is a Dafny model of the core of `cdrt`, a small C++ ray tracer
that shades with a "convolution domain" integrator. The model covers:

- the hittable primitives (sphere, triangle, finite plane, triangle mesh), their
  `Hit` and `HitAll` queries, and the hit record `SHitRec` with its face-normal rule;
- `CHittableList`: adding primitives, building the accelerator, and the
  nearest-hit query with its brute-force fallback;
- `CHittableMesh`: loading an OBJ shape, with vertex deduplication, one triangle
  per three indices, the bounding box and the accelerator;
- `CRenderer`: the sub-sample grid, the W x H x 3 accumulation buffer of `Render`,
  clearing, `GetLastRender`, and the secondary and third raycasts that produce a
  sample's R0 and RN terms.

Modules, one per file:

| file | module | models |
|---|---|---|
| `wrappers.dfy` | `Wrappers` | `Option` and `Result`, for "returns false" and "throws" |
| `geometry.dfy` | `Geometry` | `glm::vec3` as exact reals, rays, `_INFINITY` bounds, `_EPSILON`, `CAABB` |
| `hittable.dfy` | `Hittable` | the primitives, `SHitRec`, `setFaceNormal`, `cmpHitRec` and the sort by t |
| `intersect.dfy` | `Intersect` | every primitive's `Hit`/`HitAll`, the brute-force scan, the accelerator |
| `collection.dfy` | `Collection` | the class `CHittableList` |
| `mesh.dfy` | `Meshes` | the class `CHittableMesh` and its `Load` |
| `convolution.dfy` | `Convolution` | the interval-pairing fold and the RN fold, on numbers |
| `renderer.dfy` | `Rendering` | the class `CRenderer` |

A primitive's `Hit` is a function. It returns the record the source would write
through its out-parameter, or `None` where the source returns `false`. The
list, the mesh and the renderer change state in place, so they are classes.
Their methods carry `modifies` clauses and state their whole new state. Two
loops run in place on a `real` array: `Render`'s accumulation into the pixel
buffer, and `_ClearOldRender`/`GetLastRender`. Each `Render` loop is proved
against `PixelSum`, the sum of a pixel's samples. The loops over sequences are
proved against reference functions:

- the brute-force hit loop against `Scan`;
- the pairing loop against `Pairing`;
- the RN loop against `RNFrom`.

Lemmas then say what those functions mean: the scan is a nearest-hit search,
pairing sums the occluded intervals, and RN has a closed form.

Where the written code and its documented intent differ, the model follows the code:

- `CHittableSphere::HitAll` appends the second root without checking it
  against t_max. `Intersect.SphereHitAllPassesTMax` gives a sphere and a range
  where this happens.
- When the accelerator is empty, the brute-force loop of `CHittableList::Hit`
  starts from `_INFINITY`, not from the caller's t_max
  (`Intersect.BruteForceIgnoresTMax`).
- `CHittableList::HitAll` asks only the accelerator. With an empty accelerator
  it appends nothing, even when the list holds primitives.
- A mesh's triangle list records the triangle that was hit, not the mesh. So
  the RN loop's `p_hittable == hitRec.p_hittable` test never skips a mesh.
- A second `Load` of the same mesh appends its corners to the vertex and
  index buffers. It then builds triangles from the whole index buffer again,
  so earlier triangles are added a second time.

Every caller in the source passes t_max = `_INFINITY`, so the first two
differences do not show in a render.

## Model

| member | source | states |
|---|---|---|
| Geometry.Union | Sources/hittable.cpp:310-315 | the widened box encloses both boxes and lies inside every box that encloses both (the least upper bound) |
| Hittable.MakeTriangle | Sources/hittable.cpp:91-106 | a triangle keeps its three vertices in winding order and its material |
| Hittable.MakeTriangleWinding | Sources/hittable.cpp:95 | the stored face normal is the normalised reverse of the winding cross(v1 - v0, v2 - v0) that `Hit` solves with (line 115) |
| Hittable.MakePlane | Sources/hittable.cpp:153-168 | a plane keeps its origin, its two sizes and its material |
| Hittable.TriangleBox | Sources/hittable.cpp:98-105 | the triangle's box holds all three vertices and is well formed (pMin <= pMax) |
| Hittable.SetFaceNormal | Sources/hittable.h:23-27 | front face exactly when the ray runs against the outward normal; the stored normal is the outward one or its negation accordingly and never faces along the ray; position, t, material and hit object are unchanged |
| Hittable.SetFaceNormalStable | Sources/hittable.h:23-27 | unless the ray grazes the surface, applying the rule twice keeps the turned normal and then always reports a front face |
| Hittable.CmpHitRecStrictWeakOrder | Sources/hittable.h:34 | the comparator is irreflexive and transitive, and two records are incomparable exactly when their t are equal (what `std::sort` requires) |
| Hittable.Ts | Sources/renderer.cpp:193-206 | one parameter per record, in the records' order |
| Hittable.InsertByT | Sources/renderer.cpp:179 | inserting into a sorted sequence keeps it sorted and adds exactly that record |
| Hittable.SortByT | Sources/renderer.cpp:179 | the sort yields a permutation of the hits in non-decreasing t |
| Intersect.SphereRoots | Sources/hittable.cpp:22-34 | roots exist exactly when the discriminant is non-negative, and the first is the smaller |
| Intersect.SphereOutward | Sources/hittable.cpp:37 | the outward normal (p - center) / radius: scaled back by the radius it gives p - center |
| Intersect.SphereRecord | Sources/hittable.cpp:36-40 | the record lies at t on the ray and names the sphere and its material; front face exactly when the ray runs against the outward normal; the stored normal is the outward normal or, when the ray leaves the sphere, its negation, and never faces along the ray |
| Intersect.SphereHit | Sources/hittable.cpp:20-43 | a negative discriminant misses; a hit is reported exactly when some root lies in [t_min, t_max]; it is the smaller root when that one is in range, otherwise the larger |
| Intersect.SphereHitAllRecords | Sources/hittable.cpp:47-87 | at most two records, sorted; records exactly when `Hit` hits, the first being `Hit`'s record; a second one lies at the larger root, strictly beyond the first; none lies below t_min |
| Intersect.SphereHitAllCount | Sources/hittable.cpp:60-85 | with the smaller root in range, a ray through the sphere appends two records and a tangent ray one |
| Intersect.SphereHitAllPassesTMax | Sources/hittable.cpp:79-85 | a unit sphere two units ahead, queried on [0, 2], gets a second record at t = 3, beyond t_max |
| Intersect.TriangleSolve | Sources/hittable.cpp:112-120 | (u, v, t) exist exactly when the ray is not parallel to the triangle: dot(dir, cross(v1 - v0, v2 - v0)) != 0 |
| Intersect.TriangleHit | Sources/hittable.cpp:110-136 | a hit exactly when the barycentric coordinates lie inside the triangle and t lies in [t_min, t_max]; the record lies at t on the ray, takes the precomputed face normal turned to face the ray (never along it), and names the triangle |
| Intersect.PlaneSolve | Sources/hittable.cpp:174-186 | t exists exactly when the ray is not parallel to the plane, and the point at t lies on the plane |
| Intersect.PlaneHit | Sources/hittable.cpp:172-203 | a hit exactly when t is in [t_min, t_max] and above `_EPSILON`, and the hit point is inside the half-open window on both axes; front face exactly when the ray runs against the plane's normal; the stored normal is that normal turned to face the ray, never along it |
| Intersect.PlaneWindowHalfOpen | Sources/hittable.cpp:189-191 | a hit point exactly on the lower edge is accepted and one exactly on the upper edge is rejected |
| Intersect.PrimHit | Sources/hittable.cpp:329-335 | any primitive's hit (an unloaded mesh never hits) lies in [t_min, t_max] |
| Intersect.Scan | Sources/hittable_list.cpp:24-37 | the loop's record lies in range below its starting bound, and the bound reached is that record's t (or the start when nothing was hit) |
| Intersect.PrimHitCut | Sources/hittable.cpp:20-216 | every primitive chooses its hit without looking at t_max: its hit up to any bound is its unbounded hit if that lies within the bound |
| Intersect.ScanCut | Sources/hittable_list.cpp:24-37 | the loop with a bound finds the unbounded loop's record if it lies within the bound, and nothing otherwise |
| Intersect.ScanBoundShrinks | Sources/hittable_list.cpp:29-33 | `tClosest` never grows |
| Intersect.ScanStep | Sources/hittable_list.cpp:28-34 | a primitive replaces the record exactly when its unbounded hit is no farther than the bound reached |
| Intersect.ScanFindsAny | Sources/hittable_list.cpp:24-37 | the loop reports a hit exactly when some primitive is hit |
| Intersect.ScanIsNearest | Sources/hittable_list.cpp:24-37 | the loop started at `_INFINITY` is the nearest-hit search over the primitives' unbounded hits, in list order |
| Intersect.KeepNearer | Sources/hittable_list.cpp:29-33 | one step of the loop keeps a record once there is one, no farther than the old record or the candidate |
| Intersect.NearestBelow | Sources/hittable_list.cpp:24-37 | a hit candidate makes the search keep a record, one no farther than that candidate |
| Intersect.NearestIsLastMinimal | Sources/hittable_list.cpp:24-37 | the record kept is the last candidate at the minimal t |
| Intersect.NearestFindsAny | Sources/hittable_list.cpp:24-37 | the search keeps a record exactly when some candidate is a hit |
| Intersect.ScanIsMinimal | Sources/hittable_list.cpp:24-37 | the record reported is no farther than any primitive's hit |
| Intersect.ScanIsLastMinimal | Sources/hittable_list.cpp:24-37 | the record reported is the hit of the last primitive at that minimal t; every later primitive misses or is hit strictly farther |
| Intersect.ScanNearest | Sources/hittable_list.cpp:24-37 | together: the loop is a nearest-hit search whose ties go to the later primitive |
| Intersect.AccelHit | Sources/hittable_list.cpp:18-21 | the accelerator's hit lies in [t_min, t_max] |
| Intersect.AccelAgreesWithScan | Sources/hittable_list.cpp:18-37 | the accelerator answers what the brute-force search over the same primitives finds, cut at t_max |
| Intersect.ListHit | Sources/hittable_list.cpp:15-38 | the list's answer lies at or beyond t_min, and within t_max when the accelerator answers |
| Intersect.ListHitAll | Sources/hittable_list.cpp:42-51 | an empty accelerator gives no records, and every record lies at or beyond t_min |
| Intersect.PrimHitAllAboveMin | Sources/hittable.cpp:47-216 | no primitive's `HitAll` appends a record below t_min |
| Intersect.AccelHitAll | Sources/hittable_list.cpp:42-51 | the accelerator's `HitAll` records all lie at or beyond t_min |
| Intersect.MeshIsItsList | Sources/hittable.cpp:329-345 | a loaded mesh answers `Hit` and `HitAll` as its triangle list does, through the accelerator over those triangles |
| Intersect.BruteForceIgnoresTMax | Sources/hittable_list.cpp:24-37 | with an empty accelerator the list's answer is the same whatever t_max the caller gives |
| Intersect.SphereHitAll | Sources/hittable.cpp:47-87 | appends exactly the sphere's records to the caller's hits, and returns true exactly when `Hit` hits |
| Intersect.TriangleHitAll | Sources/hittable.cpp:140-149 | appends `Hit`'s record when there is one, and returns true exactly then |
| Intersect.PlaneHitAll | Sources/hittable.cpp:207-216 | appends `Hit`'s record when there is one, and returns true exactly then |
| Intersect.HitAllOf | Sources/hittable.cpp:339-345 | appends exactly the primitive's records; an unloaded mesh appends nothing and returns false |
| Collection.HittableList.constructor | Sources/hittable_list.h:28-29 | a new list has no primitives and no accelerator |
| Collection.HittableList.Add | Sources/hittable_list.h:15 | appends the primitive at the end, keeping the others in order; the accelerator is not rebuilt |
| Collection.HittableList.Clear | Sources/hittable_list.cpp:7-11 | no primitives, and an accelerator over none |
| Collection.HittableList.BuildBVHTree | Sources/hittable_list.cpp:55-67 | reports success and builds the accelerator over exactly the current primitives, keeping the list |
| Collection.HittableList.Hit | Sources/hittable_list.cpp:15-38 | reports a hit exactly when the list's answer has one and returns that record; on a miss the caller's record is returned untouched |
| Collection.HittableList.HitAll | Sources/hittable_list.cpp:42-51 | appends the accelerator's records and returns true exactly when there are any; an empty accelerator appends nothing |
| Collection.BuiltListIsNearest | Sources/hittable_list.cpp:15-67 | after `BuildBVHTree`, `Hit` returns the nearest hit among the primitives, cut at t_max, whichever path answers |
| Meshes.Unique | Sources/hittable.cpp:265-298 | the deduplicated vertices are exactly the corners' values, each once |
| Meshes.UniqueSnoc | Sources/hittable.cpp:281-293 | one more corner is appended when it is new, and otherwise changes nothing |
| Meshes.FirstIndex | Sources/hittable.cpp:281 | the first position holding the value |
| Meshes.FirstIndexUnique | Sources/hittable.cpp:281 | a position holding the value with none before it is the first index |
| Meshes.UniqueInOrder | Sources/hittable.cpp:265-298 | deduplicated vertices keep the order in which they first occur |
| Meshes.Find | Sources/hittable.cpp:281 | the position of the first match, or the end when there is none |
| Meshes.Corners | Sources/hittable.cpp:272-279 | one corner position per loader index |
| Meshes.TrianglesOf | Sources/hittable.cpp:300-316 | triangle i has corners at indices 3i, 3i+1 and 3i+2 and the mesh's material |
| Meshes.TrianglesOfAt | Sources/hittable.cpp:303-306 | triangle i is the one built from indices 3i, 3i+1 and 3i+2 |
| Meshes.BoxOverSnoc | Sources/hittable.cpp:310-315 | widening by one more triangle is the union with its box |
| Meshes.BoxOverIsLeast | Sources/hittable.cpp:300-316 | the mesh box encloses the starting box and every triangle's box, and is the least such box |
| Meshes.BoxOverHoldsCorners | Sources/hittable.cpp:300-316 | every corner of every triangle lies in the mesh box |
| Meshes.CopyNewCorner | Sources/hittable.cpp:284-296 | a new corner becomes a new vertex with the next index, and the copy invariant is kept |
| Meshes.CopyOldCorner | Sources/hittable.cpp:292-296 | a corner met before reuses its vertex's index, and the copy invariant is kept |
| Meshes.AppendCornersTo | Sources/hittable.cpp:265-298 | appends the distinct corners to the vertices and one index per corner, and every new index names a vertex at that corner |
| Meshes.HittableMesh.AsPrimitive | Sources/hittable.cpp:329-345 | the mesh as a scene primitive, with its loaded flag, triangles and material |
| Meshes.HittableMesh.constructor | Sources/hittable.cpp:220-226 | a new mesh is not loaded and has no vertices, no indices and an empty triangle list without an accelerator |
| Meshes.HittableMesh.AppendCorners | Sources/hittable.cpp:265-298 | the copy loop: distinct corners appended as vertices, one valid index per corner naming it, earlier indices kept, nothing else changed |
| Meshes.HittableMesh.AddTriangles | Sources/hittable.cpp:300-316 | one triangle per three indices of the whole buffer is appended to the list, and the box is widened by each |
| Meshes.HittableMesh.AddTrianglesTo | Sources/hittable.cpp:300-316 | the same loop on a given list and box: the triangles appended and the box widened, the accelerator untouched |
| Meshes.HittableMesh.Load | Sources/hittable.cpp:230-325 | a loader failure returns false and a shape count other than one throws, both with nothing changed; otherwise the corners are copied, the triangles added, the accelerator rebuilt and the mesh marked loaded, keeping every index in range; the origin, the material and the triangle list object are kept |
| Meshes.HittableMesh.Hit | Sources/hittable.cpp:329-335 | unloaded: no hit and the record untouched; loaded: exactly the mesh primitive's hit |
| Meshes.HittableMesh.HitAll | Sources/hittable.cpp:339-345 | unloaded: nothing appended; loaded: exactly the mesh primitive's records |
| Meshes.FirstLoadTriangles | Sources/hittable.cpp:265-316 | after a first load, triangle i has the loaded corners 3i, 3i+1 and 3i+2 in order |
| Convolution.PairingOutside | Sources/renderer.cpp:193-206 | starting outside, R is the sum of (t1 - t0) + (t3 - t2) + ..., and an unpaired last hit adds nothing |
| Convolution.PairingInside | Sources/renderer.cpp:183-206 | starting inside with t_start = 0, R is t0 plus the pairwise intervals of the rest |
| Convolution.IntervalsNonNegative | Sources/renderer.cpp:193-206 | over sorted parameters every interval is non-negative |
| Convolution.PairingNonNegative | Sources/renderer.cpp:181-206 | over sorted non-negative parameters R is never negative, however the flag starts |
| Convolution.AccumulateCons | Sources/renderer.cpp:144-145 | the first step of the RN fold |
| Convolution.AccumulateClosedForm | Sources/renderer.cpp:112-146 | the RN fold equals RN times all intensities, plus each occlusion weighted by its own and every later intensity |
| Convolution.AccumulateDependsOnOrder | Sources/renderer.cpp:112-146 | the order of the scene list changes RN: two objects give 9 one way and 8 the other |
| Rendering.FloorSqrt | Sources/renderer.cpp:332-338 | the grid side is the integer square root: r * r <= nSamples < (r + 1) * (r + 1) |
| Rendering.FloorSqrtOfSquare | Sources/renderer.cpp:335-336 | a square sample count n * n gives an n x n grid |
| Rendering.FloorSqrtUnique | Sources/renderer.cpp:335-336 | the integer square root is unique |
| Rendering.SampleOffset | Sources/renderer.cpp:337 | the offset is half a grid cell: 2 * offset * n == 1 |
| Rendering.CellInsidePixel | Sources/renderer.cpp:277-278 | a sub-sample cell, shifted by half a cell, lies strictly inside its pixel |
| Rendering.SampleInPixel | Sources/renderer.cpp:275-278 | with the grid `SetRenderSetting` chooses, every sample's u lies strictly inside its column and, while it stays on the grid, its v strictly inside its row |
| Rendering.GridCellOfSample | Sources/renderer.cpp:275-276 | on an n x n grid, sample s lies in cell (s % n, s / n) inside the grid, and that cell gives back s |
| Rendering.SampleOfGridCell | Sources/renderer.cpp:275-276 | every cell of the grid is visited, by exactly one sample |
| Rendering.NonSquareSamplesLeaveGrid | Sources/renderer.cpp:275-278 | with a non-square sample count the last sample's row lies past the grid |
| Rendering.PixelIndexInRange | Sources/renderer.cpp:284-286 | every slot (h * W + w) * 3 + c with w, h, c in range lies in the W * H * 3 buffer |
| Rendering.PixelIndexDecodes | Sources/renderer.cpp:284-286 | a slot gives back its column, row and channel, so no two pixel channels share a slot |
| Rendering.PixelIndexEncodes | Sources/renderer.cpp:284-286 | every buffer slot is the slot of one pixel channel |
| Rendering.AccumulatedStart | Sources/renderer.cpp:270 | before the loops no sample has been added |
| Rendering.AccumulatedSample | Sources/renderer.cpp:284-286 | adding a sample's colour to its pixel's three slots adds it to that pixel's sum and leaves every other slot alone |
| Rendering.AccumulatedNextRow | Sources/renderer.cpp:271 | a pixel with all its samples counts as done when the row advances |
| Rendering.AccumulatedNextColumn | Sources/renderer.cpp:270 | a finished column counts as done when the column advances |
| Rendering.AccumulatedDone | Sources/renderer.cpp:270-290 | after the last column every slot holds the sum of all its pixel's samples |
| Rendering.AddColumnSamples | Sources/renderer.cpp:271-288 | the row loop for one column gives every pixel of the column all its samples, so the column counts as done; no slot past the image changes |
| Rendering.AddPixelSamples | Sources/renderer.cpp:273-287 | the sample loop adds every sample of the pixel to its slots; no slot past the image changes |
| Rendering.AddSample | Sources/renderer.cpp:275-286 | one sample, shaded at its grid cell, is added to the pixel's three slots; no slot past the image changes |
| Rendering.AddColor | Sources/renderer.cpp:284-286 | the three channels are added to their slots and no other slot changes |
| Rendering.SecondRay | Sources/renderer.cpp:171-173 | the secondary ray starts K_DIG below the hit point, against the normal |
| Rendering.SortedTs | Sources/renderer.cpp:179 | sorted records have non-decreasing parameters |
| Rendering.OcclusionNonNegative | Sources/renderer.cpp:178-206 | records at or beyond a non-negative t_min never give a negative occlusion |
| Rendering.SecondRaycastNonNegative | Sources/renderer.cpp:168-209 | the secondary raycast never reports a negative occlusion |
| Rendering.OcclusionClosedForm | Sources/renderer.cpp:179-206 | R0 (starting inside) is t0 + (t2 - t1) + ...; RN's occlusion (starting outside) is (t1 - t0) + (t3 - t2) + ... over the sorted hits |
| Rendering.OcclusionIgnoresOrder | Sources/renderer.cpp:178-206 | the occlusion depends only on which records were found, not on their order or on how `std::sort` orders equal t |
| Rendering.TsConcat | Sources/renderer.cpp:193-206 | the parameters of two sequences joined are the parameters of each, joined |
| Rendering.TsPermutation | Sources/renderer.cpp:179 | permuting records permutes their parameters |
| Rendering.SortedUnique | Sources/renderer.cpp:179 | a non-decreasing sequence is determined by its multiset |
| Rendering.SortedHeads | Sources/renderer.cpp:179 | two non-decreasing sequences with the same multiset start with the same least value |
| Rendering.PairIntervals | Sources/renderer.cpp:181-206 | the pairing loop computes the `Pairing` fold over the sorted hits' parameters |
| Rendering.RNFromStep | Sources/renderer.cpp:112-146 | one pass of the RN loop: the primary hit's own object keeps RN, any other object applies RN := (RN + second) * third |
| Rendering.RNTerms | Sources/renderer.cpp:112-146 | one (occlusion, intensity) pair for every object except the primary hit's own |
| Rendering.RNIsAccumulate | Sources/renderer.cpp:112-146 | the RN loop is the RN fold over those pairs, so its closed form and order dependence apply |
| Rendering.Renderer.constructor | Sources/renderer.cpp:14-18 | not finished, no samples, no buffer |
| Rendering.Renderer.SetRenderSetting | Sources/renderer.cpp:332-338 | the caller's settings, with the grid width and height the integer square root of the sample count and the offset half a cell; nothing else changes |
| Rendering.Renderer.ClearOldRender | Sources/renderer.cpp:342-350 | not finished, no samples, the first W * H * 3 slots zero and every later slot unchanged |
| Rendering.Renderer.Render | Sources/renderer.cpp:252-301 | the buffer is allocated on the first render and cleared after a finished one, otherwise kept; each slot then gains the sum of all its pixel's samples; the render is finished with nSamples samples; no slot past W * H * 3 of an earlier buffer changes |
| Rendering.Renderer.GetLastRender | Sources/renderer.cpp:305-328 | writes into the caller's buffer, or a new one of W * H * 3 slots, each slot the tone-corrected value of the same render slot; no slot of the caller's buffer past W * H * 3 changes |
| Rendering.ToneColumn | Sources/renderer.cpp:312-326 | one pass of the row loop tone-corrects every slot of column w, reading each before writing it, and changes no slot of a later column and none past W * H * 3 |
| Rendering.Renderer.ConvolutionSecondRaycast | Sources/renderer.cpp:168-209 | the occlusion of the target's sorted `HitAll` records along the secondary ray, starting inside exactly when the target is the hit object |
| Rendering.Renderer.ConvolutionThirdRaycast | Sources/renderer.cpp:213-223 | the light's intensity along the secondary ray |
| Rendering.Renderer.ConvolutionRN | Sources/renderer.cpp:112-146 | the loop computes RN, the RN fold over the scene list from 0 |
| Rendering.Renderer.ConvolutionRNStep | Sources/renderer.cpp:114-145 | one object's pass preserves the fold's final value |
| Rendering.Renderer.ConvolutionPrimaryRaycast | Sources/renderer.cpp:84-146 | a miss of the scene exactly when there is no hit in [`_EPSILON`, infinity); otherwise R0 from the hit object itself, RN over all other objects, and the hit's material |

## Left out

- Floating point: `float` and `glm::vec3` are exact reals. Rounding, infinities and NaN are not modelled.
- Division by zero is modelled as follows:
  - a ray parallel to a triangle or plane has no solution;
  - normalising a zero vector returns it unchanged;
  - a zero-radius sphere's normal is left unscaled;
  - a zero grid side gives offset 0.
- `glm::sqrt` is the parameter `sqrt`: any non-negative function. Properties hold for every such function.
- The BVH (`bvh.h`) is not part of this model. The accelerator is the sequence it was built over, answering `Hit` with the nearest hit and `HitAll` with every primitive's records in list order. Four parts of that answer are assumptions, not properties read from the BVH:
  - among equally near hits the accelerator returns the last primitive's, as the brute-force loop does. This choice decides `p_hittable`, and so which object R0 and RN treat as the hit object;
  - on a miss the caller's record comes back untouched. A sphere writes `hitRec.t` before it can return false (hittable.cpp:30-32), so a BVH that passes the caller's record straight to its primitives could return it changed;
  - the accelerator's `HitAll` reports true exactly when it appends at least one record (`Intersect.HitAllOf`, `Collection.HittableList.HitAll`);
  - `CBVHAccel::Clear` leaves an accelerator over no primitives (`Collection.HittableList.Clear`).
- The OBJ reader `tinyobj::LoadObj` and the file name are not modelled: `Load` receives the reader's output.
- Meshes.HittableMesh.Load: requires `WellFormed` of the reader's output, that every vertex index is non-negative and names a vertex. The source trusts the reader for this.
- Vertex normals and texture coordinates of the OBJ file are not modelled; the source reads only positions.
- Primitive identity (`shared_ptr` equality, `p_hittable`) is value equality of the primitive stored in the record. Two distinct objects with equal values would compare equal here.
- The scene list holds copies of the primitives taken when they are added, where the source holds `shared_ptr`s to them. A change to an object after it is added, such as a `HittableMesh.Load` after `Add`, is not seen by the model's scene. `InitScene` loads every mesh before adding it.
- `SHitRec` declares no `p_hittable` field, although every `Hit` writes it and the renderer reads it. The model's record holds the primitive that produced it.
- Materials (`Albedo`, `Scatter`) are identities only. `_Raycast`, `_RecursivePathTrace` and the camera enter `Render` as the parameter `shade`.
- Rendering.Renderer.ConvolutionPrimaryRaycast: stops before the final combination. That step scales R0 and RN by K_R0 and K_RN, applies `pow` and multiplies by the albedo (renderer.cpp:152-160). The method returns R0, RN and the material instead.
- Rendering.Renderer.GetLastRender: the gamma correction `sqrt(x / currentSample)` is the parameter `tone`.
- The light (`light.cpp`) is modelled only as its origin, plus the parameter `intensity` for `GetIntensityFromRay`. `InitScene` and the scene contents are not modelled.
- `printf`, the timer, `logEvery` and OpenMP parallelism are not modelled. The loops are sequential; the parallel sample loop adds to shared slots.
- The uninitialised `m_pixmap` is `null`. The contents of a newly allocated buffer are the parameter `garbage`.
- 32-bit and `size_t` arithmetic is unbounded, so pixel-index and sample-count overflow is not modelled. The `int` loop counter of `_ClearOldRender` is a `nat`.
- Rendering.Renderer.Render, Rendering.Renderer.ClearOldRender and Rendering.Renderer.GetLastRender: these require the buffers to hold W * H * 3 slots. The source assumes this: settings never change between renders.
- Collection.HittableList.Hit, Collection.HittableList.HitAll and Collection.HittableList.Clear: these require the accelerator to exist. The source dereferences it unchecked (hittable_list.cpp:10, 18, 45).
- Some loop bodies and loops are separate methods or lemmas, so that each proof stays small. They are PairIntervals, AddColumnSamples, AddPixelSamples, AddSample, ToneColumn, AddColor, ConvolutionRN, ConvolutionRNStep, AppendCornersTo and AddTrianglesTo. The RN update's two statements are the one function `RNUpdate`.
- Hittable.SortByT: an insertion sort that is stable, whereas `std::sort` is not. `Rendering.OcclusionIgnoresOrder` shows the order of equal-t records does not change the result.
- `_ConvolutionSecondRaycast` and `_ConvolutionThirdRaycast` take a primary ray and a target object that they do not use. The model drops those parameters.
- A shape count of zero or more than one throws in the source; the model returns `Failure`.
