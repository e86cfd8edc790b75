/** `CRenderer`: the sub-sample grid of `SetRenderSetting`, the row-major
    W x H x 3 accumulation buffer of `Render`, `_ClearOldRender` and
    `GetLastRender`, and the convolution raycasts that produce a sample's
    R0 and RN terms.

    The camera, the final combination of R0 and RN into a colour, gamma
    correction and the light's intensity are not part of this model: they
    enter as the parameters `shade`, `tone` and `intensity`. */
module Rendering {
  import opened Wrappers
  import opened Geometry
  import opened Hittable
  import opened Intersect
  import opened Collection
  import opened Convolution

  /** `SRenderSetting`. */
  datatype RenderSetting = RenderSetting(
    renderW: nat, renderH: nat, nSamples: nat, nMaxDepth: nat,
    kDig: real, aZi: real, kR0: real, kRN: real, kTotalDrS: real, expTotalDrS: real,
    nSamplesW: nat, nSamplesH: nat, nSamplesOffset: real)

  // ------------------------------------------------------ the sample grid

  /** Squares grow with their roots. */
  lemma SquareMonotone(a: nat, b: nat)
    requires a <= b
    ensures a * a <= b * b
  {
    assert a * a <= a * b <= b * b;
  }

  /** The integer square root, searched upwards from `k`. */
  function FloorSqrtFrom(n: nat, k: nat): (r: nat)
    requires k * k <= n
    ensures r * r <= n < (r + 1) * (r + 1)
    decreases n - k
  {
    if (k + 1) * (k + 1) > n then k
    else
      assert k + 1 <= (k + 1) * (k + 1);
      FloorSqrtFrom(n, k + 1)
  }

  /** `glm::sqrt(nSamples)` stored in an unsigned integer: the largest r
      with r * r <= nSamples. */
  function FloorSqrt(n: nat): (r: nat)
    ensures r * r <= n < (r + 1) * (r + 1)
  {
    FloorSqrtFrom(n, 0)
  }

  /** For a square sample count n * n the grid is n samples wide and high. */
  lemma FloorSqrtOfSquare(n: nat)
    ensures FloorSqrt(n * n) == n
  {
    var m := n * n;
    assert m < (n + 1) * (n + 1) by { SquareMonotone(n, n + 1); }
    FloorSqrtUnique(m, FloorSqrt(m), n);
  }

  /** At most one r has r * r <= m < (r + 1) * (r + 1). */
  lemma FloorSqrtUnique(m: nat, r: nat, q: nat)
    requires r * r <= m < (r + 1) * (r + 1)
    requires q * q <= m < (q + 1) * (q + 1)
    ensures r == q
  {
    if r < q {
      SquareMonotone(r + 1, q);
    } else if q < r {
      SquareMonotone(q + 1, r);
    }
  }

  /** The sub-sample offset 0.5 / nSamplesW (the source divides by zero
      when there are no samples; the model stores 0 then). */
  function SampleOffset(k: nat): (r: real)
    ensures k > 0 ==> r * 2.0 * (k as real) == 1.0
  {
    if k == 0 then 0.0 else 0.5 / (k as real)
  }

  /** Sample s of an n x n grid lies in cell (s % n, s / n) inside the grid,
      and is the sample the cell names back. */
  lemma GridCellOfSample(n: nat, s: nat)
    requires s < n * n
    ensures s % n < n && s / n < n
    ensures (s / n) * n + s % n == s
  {
  }

  /** Every cell (si, sj) of an n x n grid is visited, by sample sj * n + si,
      and by no other (the previous lemma recovers s from its cell). */
  lemma SampleOfGridCell(n: nat, si: nat, sj: nat)
    requires si < n && sj < n
    ensures sj * n + si < n * n
    ensures (sj * n + si) % n == si && (sj * n + si) / n == sj
  {
    MulMonotone(sj + 1, n, n);
    assert (sj + 1) * n == sj * n + n;
    DivModUnique(sj * n + si, n, sj, si);
  }

  /** Multiplication by a natural number keeps the order. */
  lemma MulMonotone(a: nat, b: nat, d: nat)
    requires a <= b
    ensures a * d <= b * d
  {
    var k := b - a;
    assert b * d == a * d + k * d;
  }

  /** Quotient and remainder are unique. */
  lemma DivModUnique(a: nat, d: nat, q: nat, r: nat)
    requires 0 <= r < d && a == q * d + r
    ensures a / d == q && a % d == r
  {
    var q', r' := a / d, a % d;
    assert a == q' * d + r';
    if q' < q {
      MulMonotone(q' + 1, q, d);
    } else if q < q' {
      MulMonotone(q + 1, q', d);
    }
  }

  /** With a sample count that is not a square the grid is too small: the
      last sample's row index s / nSamplesH reaches past the last row. */
  lemma NonSquareSamplesLeaveGrid(nSamples: nat)
    requires FloorSqrt(nSamples) * FloorSqrt(nSamples) < nSamples
    ensures var k := FloorSqrt(nSamples); k > 0 && (nSamples - 1) / k >= k
  {
    var k := FloorSqrt(nSamples);
    var a := nSamples - 1;
    assert a >= k * k;
    if k > 0 {
      var q, r := a / k, a % k;
      assert a == q * k + r && r < k;
      if q < k {
        MulMonotone(q + 1, k, k);
      }
    }
  }

  // ------------------------------------------------------- pixel indexing

  /** Row-major position of channel c of pixel (w, h): (h * W + w) * 3 + c. */
  function PixelIndex(w: nat, h: nat, c: nat, width: nat): nat {
    (h * width + w) * 3 + c
  }

  /** The column and row a buffer position belongs to. */
  function PixelW(i: nat, width: nat): nat {
    if width == 0 then 0 else (i / 3) % width
  }

  function PixelH(i: nat, width: nat): nat {
    if width == 0 then 0 else (i / 3) / width
  }

  /** Every index (h * W + w) * 3 + c with w < W, h < H, c < 3 lies in the
      W * H * 3 buffer. */
  lemma PixelIndexInRange(w: nat, h: nat, c: nat, width: nat, height: nat)
    requires w < width && h < height && c < 3
    ensures PixelIndex(w, h, c, width) < width * height * 3
  {
    assert h * width + w < h * width + width == (h + 1) * width <= height * width;
    assert (h * width + w) * 3 + c < (h * width + w + 1) * 3 <= height * width * 3;
  }

  /** An index names its own pixel and channel back: no two pixels share a
      slot. */
  lemma PixelIndexDecodes(w: nat, h: nat, c: nat, width: nat)
    requires w < width && c < 3
    ensures PixelW(PixelIndex(w, h, c, width), width) == w
    ensures PixelH(PixelIndex(w, h, c, width), width) == h
    ensures PixelIndex(w, h, c, width) % 3 == c
  {
    var q := h * width + w;
    DivModUnique(q * 3 + c, 3, q, c);
    DivModUnique(q, width, h, w);
  }

  /** Every slot of the buffer is the index of one pixel channel. */
  lemma PixelIndexEncodes(i: nat, width: nat, height: nat)
    requires i < width * height * 3
    ensures width > 0
    ensures PixelW(i, width) < width && PixelH(i, width) < height
    ensures PixelIndex(PixelW(i, width), PixelH(i, width), i % 3, width) == i
  {
    var q := i / 3;
    assert i == q * 3 + i % 3;
    DivBelow(q, width, height);
  }

  /** Below h * w, the quotient by w stays below h. */
  lemma DivBelow(q: nat, w: nat, h: nat)
    requires 0 < w && q < h * w
    ensures q / w < h
  {
    var d := q / w;
    assert d * w <= q;
    if h <= d {
      MulMonotone(h, d, w);
    }
  }

  // ------------------------------------------------- the accumulated image

  /** Channel c (r, g, b) of a colour. */
  function Channel(v: Vec3, c: nat): real {
    if c == 0 then v.x else if c == 1 then v.y else v.z
  }

  /** The image coordinate u of sample s of column w:
      (w + (s % nSamplesW) / nSamplesW + offset) / render_w. */
  function SampleU(st: RenderSetting, w: nat, s: nat): real {
    if st.renderW == 0 || st.nSamplesW == 0 then 0.0
    else ((w as real) + ((s % st.nSamplesW) as real) / (st.nSamplesW as real) + st.nSamplesOffset) / (st.renderW as real)
  }

  /** The image coordinate v of sample s of row h:
      (h + (s / nSamplesH) / nSamplesH + offset) / render_h. */
  function SampleV(st: RenderSetting, h: nat, s: nat): real {
    if st.renderH == 0 || st.nSamplesH == 0 then 0.0
    else ((h as real) + ((s / st.nSamplesH) as real) / (st.nSamplesH as real) + st.nSamplesOffset) / (st.renderH as real)
  }

  /** Cell i of an n-cell subdivision of pixel w, shifted by half a cell,
      lies strictly inside that pixel: w / W < (w + i / n + 0.5 / n) / W < (w + 1) / W. */
  lemma CellInsidePixel(w: nat, width: nat, i: nat, n: nat)
    requires width > 0 && i < n
    ensures var x := ((w as real) + (i as real) / (n as real) + SampleOffset(n)) / (width as real);
      (w as real) / (width as real) < x < ((w + 1) as real) / (width as real)
  {
    var N := n as real;
    var a := (i as real) / N;
    var f := a + SampleOffset(n);
    assert 0.0 <= a && a * N == i as real;
    assert f * N == (i as real) + 0.5 by {
      assert f * N == a * N + SampleOffset(n) * N;
    }
    assert 0.0 < f < 1.0;
    DivKeepsOrder(w as real, (w as real) + f, width as real);
    DivKeepsOrder((w as real) + f, (w + 1) as real, width as real);
  }

  /** Dividing by a positive number keeps a strict order. */
  lemma DivKeepsOrder(a: real, b: real, d: real)
    requires a < b && d > 0.0
    ensures a / d < b / d
  {
    assert b / d - a / d == (b - a) / d;
  }

  /** With the grid `SetRenderSetting` chooses (n x n cells, offset half a
      cell), every sample of column w has its u strictly inside that column,
      and every sample of row h that stays on the grid (s < n * n) has its v
      strictly inside that row. */
  lemma SampleInPixel(st: RenderSetting, w: nat, h: nat, s: nat)
    requires st.nSamplesW == st.nSamplesH > 0
    requires st.nSamplesOffset == SampleOffset(st.nSamplesW)
    ensures st.renderW > 0 ==>
      (w as real) / (st.renderW as real) < SampleU(st, w, s) < ((w + 1) as real) / (st.renderW as real)
    ensures st.renderH > 0 && s < st.nSamplesH * st.nSamplesH ==>
      (h as real) / (st.renderH as real) < SampleV(st, h, s) < ((h + 1) as real) / (st.renderH as real)
  {
    var n := st.nSamplesW;
    if st.renderW > 0 {
      CellInsidePixel(w, st.renderW, s % n, n);
    }
    if st.renderH > 0 && s < n * n {
      assert s / n < n by {
        if s / n >= n {
          MulMonotone(n, s / n, n);
        }
      }
      CellInsidePixel(h, st.renderH, s / n, n);
    }
  }

  /** Channel c of pixel (w, h) summed over its first n samples. */
  function PixelSum(st: RenderSetting, shade: (real, real) -> Vec3, w: nat, h: nat, c: nat, n: nat): real {
    if n == 0 then 0.0 else PixelSum(st, shade, w, h, c, n - 1) + Channel(shade(SampleU(st, w, n - 1), SampleV(st, h, n - 1)), c)
  }

  /** How many samples slot i holds when the render loops stand at column
      w, row h, sample s: all of them for pixels already passed (columns
      outside, rows inside), s for the current pixel, none for the rest. */
  function SamplesDone(i: nat, width: nat, nSamples: nat, w: nat, h: nat, s: nat): nat {
    var pw, ph := PixelW(i, width), PixelH(i, width);
    if pw < w || (pw == w && ph < h) then nSamples
    else if pw == w && ph == h then s
    else 0
  }

  /** Buffer `p` holds its starting contents plus, per slot, the sum of the
      samples done so far. */
  predicate Accumulated(p: seq<real>, start: seq<real>, st: RenderSetting, shade: (real, real) -> Vec3, w: nat, h: nat, s: nat) {
    |p| == |start| == st.renderW * st.renderH * 3 &&
    forall i :: 0 <= i < |p| ==>
      p[i] == start[i] + PixelSum(st, shade, PixelW(i, st.renderW), PixelH(i, st.renderW), i % 3, SamplesDone(i, st.renderW, st.nSamples, w, h, s))
  }

  /** Before the loops nothing has been added. */
  lemma AccumulatedStart(start: seq<real>, st: RenderSetting, shade: (real, real) -> Vec3)
    requires |start| == st.renderW * st.renderH * 3
    ensures Accumulated(start, start, st, shade, 0, 0, 0)
  {
  }

  /** Adding sample s of pixel (w, h) to its three slots. */
  lemma AccumulatedSample(p: seq<real>, start: seq<real>, st: RenderSetting, shade: (real, real) -> Vec3, w: nat, h: nat, s: nat,
                           color: Vec3, i0: nat)
    requires Accumulated(p, start, st, shade, w, h, s)
    requires w < st.renderW && h < st.renderH && s < st.nSamples
    requires color == shade(SampleU(st, w, s), SampleV(st, h, s))
    requires i0 == PixelIndex(w, h, 0, st.renderW)
    ensures i0 + 2 < |p|
    ensures Accumulated(p[i0 := p[i0] + color.x][i0 + 1 := p[i0 + 1] + color.y][i0 + 2 := p[i0 + 2] + color.z], start, st, shade, w, h, s + 1)
  {
    var width := st.renderW;
    PixelIndexInRange(w, h, 2, width, st.renderH);
    PixelIndexDecodes(w, h, 0, width);
    PixelIndexDecodes(w, h, 1, width);
    PixelIndexDecodes(w, h, 2, width);
    var p' := p[i0 := p[i0] + color.x][i0 + 1 := p[i0 + 1] + color.y][i0 + 2 := p[i0 + 2] + color.z];
    forall i | 0 <= i < |p'|
      ensures p'[i] == start[i] + PixelSum(st, shade, PixelW(i, width), PixelH(i, width), i % 3, SamplesDone(i, width, st.nSamples, w, h, s + 1))
    {
      if i != i0 && i != i0 + 1 && i != i0 + 2 {
        PixelIndexEncodes(i, width, st.renderH);
      }
    }
  }

  /** A pixel with all its samples counts as passed once the row moves on. */
  lemma AccumulatedNextRow(p: seq<real>, start: seq<real>, st: RenderSetting, shade: (real, real) -> Vec3, w: nat, h: nat)
    requires Accumulated(p, start, st, shade, w, h, st.nSamples)
    ensures Accumulated(p, start, st, shade, w, h + 1, 0)
  {
  }

  /** A finished column counts as passed once the column moves on. */
  lemma AccumulatedNextColumn(p: seq<real>, start: seq<real>, st: RenderSetting, shade: (real, real) -> Vec3, w: nat)
    requires Accumulated(p, start, st, shade, w, st.renderH, 0)
    ensures Accumulated(p, start, st, shade, w + 1, 0, 0)
  {
    forall i | 0 <= i < |p|
      ensures SamplesDone(i, st.renderW, st.nSamples, w, st.renderH, 0) == SamplesDone(i, st.renderW, st.nSamples, w + 1, 0, 0)
    {
      PixelIndexEncodes(i, st.renderW, st.renderH);
    }
  }

  /** After the last column every slot holds all its pixel's samples. */
  lemma AccumulatedDone(p: seq<real>, start: seq<real>, st: RenderSetting, shade: (real, real) -> Vec3)
    requires Accumulated(p, start, st, shade, st.renderW, 0, 0)
    ensures forall i :: 0 <= i < |p| ==>
      p[i] == start[i] + PixelSum(st, shade, PixelW(i, st.renderW), PixelH(i, st.renderW), i % 3, st.nSamples)
  {
    forall i | 0 <= i < |p|
      ensures SamplesDone(i, st.renderW, st.nSamples, st.renderW, 0, 0) == st.nSamples
    {
      PixelIndexEncodes(i, st.renderW, st.renderH);
    }
  }

  /** The row loop of `Render` for column w: every pixel of the column
      gains all its samples, so the column counts as done; the slots past
      the first n are untouched. */
  method AddColumnSamples(buf: array<real>, n: nat, ghost start: seq<real>, st: RenderSetting, shade: (real, real) -> Vec3, w: nat)
    requires n <= buf.Length && w < st.renderW
    requires Accumulated(buf[..n], start, st, shade, w, 0, 0)
    modifies buf
    ensures Accumulated(buf[..n], start, st, shade, w + 1, 0, 0)
    ensures buf[n..] == old(buf[n..])
  {
    var h := 0;
    while h < st.renderH
      invariant 0 <= h <= st.renderH
      invariant Accumulated(buf[..n], start, st, shade, w, h, 0)
      invariant buf[n..] == old(buf[n..])
    {
      AddPixelSamples(buf, n, start, st, shade, w, h);
      AccumulatedNextRow(buf[..n], start, st, shade, w, h);
      h := h + 1;
    }
    AccumulatedNextColumn(buf[..n], start, st, shade, w);
  }

  /** The sample loop of `Render` for pixel (w, h): every sample s is
      shaded at its grid cell and added to the pixel's three slots. */
  method AddPixelSamples(buf: array<real>, n: nat, ghost start: seq<real>, st: RenderSetting, shade: (real, real) -> Vec3, w: nat, h: nat)
    requires n <= buf.Length && w < st.renderW && h < st.renderH
    requires Accumulated(buf[..n], start, st, shade, w, h, 0)
    modifies buf
    ensures Accumulated(buf[..n], start, st, shade, w, h, st.nSamples)
    ensures buf[n..] == old(buf[n..])
  {
    for s := 0 to st.nSamples
      invariant Accumulated(buf[..n], start, st, shade, w, h, s)
      invariant buf[n..] == old(buf[n..])
    {
      AddSample(buf, n, start, st, shade, w, h, s);
    }
  }

  /** One pass of the sample loop: sample s of pixel (w, h) is shaded at
      its grid cell and its colour added to the pixel's three slots. */
  method AddSample(buf: array<real>, n: nat, ghost start: seq<real>, st: RenderSetting, shade: (real, real) -> Vec3, w: nat, h: nat, s: nat)
    requires n <= buf.Length && w < st.renderW && h < st.renderH && s < st.nSamples
    requires Accumulated(buf[..n], start, st, shade, w, h, s)
    modifies buf
    ensures Accumulated(buf[..n], start, st, shade, w, h, s + 1)
    ensures buf[n..] == old(buf[n..])
  {
    var u := SampleU(st, w, s);
    var v := SampleV(st, h, s);
    var color := shade(u, v);
    ghost var p := buf[..n];
    var i0 := (h * st.renderW + w) * 3;
    AccumulatedSample(p, start, st, shade, w, h, s, color, i0);
    AddColor(buf, n, i0, color);
  }

  /** Add a colour to the three channel slots from i0 on of the first n
      slots of a buffer. */
  method AddColor(buf: array<real>, n: nat, i0: nat, color: Vec3)
    requires i0 + 2 < n <= buf.Length
    modifies buf
    ensures buf[..n] == old(buf[..n])[i0 := old(buf[..n])[i0] + color.x][i0 + 1 := old(buf[..n])[i0 + 1] + color.y]
                                     [i0 + 2 := old(buf[..n])[i0 + 2] + color.z]
    ensures buf[n..] == old(buf[n..])
  {
    ghost var p := buf[..n];
    buf[i0 + 0] := buf[i0 + 0] + color.x;
    ghost var p1 := p[i0 := p[i0] + color.x];
    assert buf[..n] == p1;
    buf[i0 + 1] := buf[i0 + 1] + color.y;
    ghost var p2 := p1[i0 + 1 := p[i0 + 1] + color.y];
    assert buf[..n] == p2;
    buf[i0 + 2] := buf[i0 + 2] + color.z;
    assert buf[..n] == p2[i0 + 2 := p[i0 + 2] + color.z];
  }

  // ------------------------------------------------ the convolution raycasts

  /** The secondary ray: from just below the primary hit,
      p - n * K_DIG, towards the target point. */
  function SecondRay(rec: HitRec, targetP: Vec3, kDig: real, sqrt: SqrtFn): (r: Ray)
    ensures r.origin == Sub(rec.p, Scale(rec.n, kDig))
  {
    var origin := Sub(rec.p, Scale(rec.n, kDig));
    Ray(origin, Normalize(Sub(targetP, origin), sqrt))
  }

  /** The occlusion the secondary raycast reports for a target's `HitAll`
      records: the pairing fold over their parameters sorted by t, starting
      inside or outside. */
  function Occlusion(hits: seq<HitRec>, inside: bool): real {
    Pairing(Ts(SortByT(hits)), 0.0, 0.0, inside)
  }

  /** `_ConvolutionSecondRaycast`: the occlusion of the target's records
      along the secondary ray, starting inside exactly when the target is
      the primary hit's own object. */
  function SecondRaycast(rec: HitRec, targetP: Vec3, target: Primitive, kDig: real, sqrt: SqrtFn): real {
    Occlusion(PrimHitAll(target, SecondRay(rec, targetP, kDig, sqrt), Epsilon, Infinity, sqrt), target == rec.hittable)
  }

  /** Sorted records have non-decreasing parameters. */
  lemma SortedTs(s: seq<HitRec>)
    requires SortedByT(s)
    ensures NonDecreasing(Ts(s))
  {
  }

  /** Records at or beyond a non-negative t_min never give a negative
      occlusion, whichever way the flag starts. */
  lemma OcclusionNonNegative(hits: seq<HitRec>, tmin: real, inside: bool)
    requires 0.0 <= tmin
    requires forall k :: 0 <= k < |hits| ==> tmin <= hits[k].t
    ensures Occlusion(hits, inside) >= 0.0
  {
    var sorted := SortByT(hits);
    SortedTs(sorted);
    var ts := Ts(sorted);
    forall i | 0 <= i < |ts|
      ensures 0.0 <= ts[i]
    {
      assert sorted[i] in multiset(hits);
    }
    PairingNonNegative(ts, inside);
  }

  /** The secondary raycast never reports a negative occlusion: every hit
      it pairs lies at or beyond `_EPSILON`. */
  lemma SecondRaycastNonNegative(rec: HitRec, targetP: Vec3, target: Primitive, kDig: real, sqrt: SqrtFn)
    ensures SecondRaycast(rec, targetP, target, kDig, sqrt) >= 0.0
  {
    var ray := SecondRay(rec, targetP, kDig, sqrt);
    PrimHitAllAboveMin(target, ray, Epsilon, Infinity, sqrt);
    OcclusionNonNegative(PrimHitAll(target, ray, Epsilon, Infinity, sqrt), Epsilon, target == rec.hittable);
  }

  /** Starting inside (R0: the target is the primary hit's own object) the
      occlusion is (t0 - 0) + (t2 - t1) + ...; starting outside (an RN
      target) it is (t1 - t0) + (t3 - t2) + ..., a trailing unpaired hit
      adding nothing. */
  lemma OcclusionClosedForm(hits: seq<HitRec>, inside: bool)
    ensures var ts := Ts(SortByT(hits));
      Occlusion(hits, inside) ==
        if inside then (if ts == [] then 0.0 else ts[0] + Intervals(ts[1..]))
        else Intervals(ts)
  {
    var ts := Ts(SortByT(hits));
    PairingInside(ts, 0.0, 0.0);
    PairingOutside(ts, 0.0, 0.0);
  }

  /** The occlusion depends only on the records, not on the order `HitAll`
      produced them in nor on how the sort orders records of equal t. */
  lemma OcclusionIgnoresOrder(hits: seq<HitRec>, hits': seq<HitRec>, inside: bool)
    requires multiset(hits) == multiset(hits')
    ensures Ts(SortByT(hits)) == Ts(SortByT(hits'))
    ensures Occlusion(hits, inside) == Occlusion(hits', inside)
  {
    var sa, sb := SortByT(hits), SortByT(hits');
    TsPermutation(sa, sb);
    SortedTs(sa);
    SortedTs(sb);
    SortedUnique(Ts(sa), Ts(sb));
  }

  /** `Ts` distributes over concatenation. */
  lemma TsConcat(x: seq<HitRec>, y: seq<HitRec>)
    ensures Ts(x + y) == Ts(x) + Ts(y)
  {
    assert forall i :: 0 <= i < |x + y| ==> Ts(x + y)[i] == (Ts(x) + Ts(y))[i];
  }

  /** Permuting records permutes their parameters. */
  lemma {:induction false} TsPermutation(a: seq<HitRec>, b: seq<HitRec>)
    requires multiset(a) == multiset(b)
    ensures multiset(Ts(a)) == multiset(Ts(b))
    decreases |a|
  {
    if a == [] {
      assert |b| == |multiset(b)| == 0;
    } else {
      assert a[0] in multiset(b);
      var i :| 0 <= i < |b| && b[i] == a[0];
      var rest := b[..i] + b[i + 1..];
      assert b == b[..i] + [b[i]] + b[i + 1..];
      assert a == [a[0]] + a[1..];
      assert multiset(b) == multiset(b[..i]) + multiset{b[i]} + multiset(b[i + 1..]);
      assert multiset(a) == multiset{a[0]} + multiset(a[1..]);
      assert multiset(rest) == multiset(b[..i]) + multiset(b[i + 1..]);
      calc {
        multiset(a[1..]);
        multiset(a) - multiset{a[0]};
        multiset(b) - multiset{b[i]};
        multiset(rest);
      }
      TsPermutation(a[1..], rest);
      TsConcat([a[0]], a[1..]);
      TsConcat(b[..i] + [b[i]], b[i + 1..]);
      TsConcat(b[..i], [b[i]]);
      TsConcat(b[..i], b[i + 1..]);
    }
  }

  /** A non-decreasing sequence of numbers is fixed by its multiset. */
  lemma {:induction false} SortedUnique(x: seq<real>, y: seq<real>)
    requires NonDecreasing(x) && NonDecreasing(y) && multiset(x) == multiset(y)
    ensures x == y
    decreases |x|
  {
    assert |x| == |multiset(x)| == |multiset(y)| == |y|;
    if x != [] {
      SortedHeads(x, y);
      assert x == [x[0]] + x[1..];
      assert y == [y[0]] + y[1..];
      calc {
        multiset(x[1..]);
        multiset(x) - multiset{x[0]};
        multiset(y) - multiset{y[0]};
        multiset(y[1..]);
      }
      assert NonDecreasing(x[1..]) && NonDecreasing(y[1..]);
      SortedUnique(x[1..], y[1..]);
    }
  }

  /** Two non-decreasing sequences with the same multiset start with the
      same number, their least. */
  lemma SortedHeads(x: seq<real>, y: seq<real>)
    requires x != [] && y != []
    requires NonDecreasing(x) && NonDecreasing(y) && multiset(x) == multiset(y)
    ensures x[0] == y[0]
  {
    assert x[0] in multiset(y) && y[0] in multiset(x);
    var k :| 0 <= k < |y| && y[k] == x[0];
    var j :| 0 <= j < |x| && x[j] == y[0];
    assert y[0] <= y[k] && x[0] <= x[j];
  }

  /** The pairing loop of `_ConvolutionSecondRaycast` over records already
      sorted by t: inside, a hit closes the interval from `t_start` and adds
      it to R; outside, it becomes the next `t_start`. */
  method PairIntervals(hits: seq<HitRec>, inside: bool) returns (r: real)
    ensures r == Pairing(Ts(hits), 0.0, 0.0, inside)
  {
    ghost var ts := Ts(hits);
    r := 0.0;
    var tStart, tEnd := 0.0, 0.0;
    var isInside := inside;
    var i := 0;
    while i < |hits|
      invariant 0 <= i <= |hits|
      invariant Pairing(ts, 0.0, 0.0, inside) == Pairing(ts[i..], r, tStart, isInside)
    {
      assert ts[i..][1..] == ts[i + 1..];
      if isInside {
        tEnd := hits[i].t;
        var newR := tEnd - tStart;
        r := r + newR;
      } else {
        tStart := hits[i].t;
      }
      isInside := !isInside;
      i := i + 1;
    }
    assert ts[i..] == [];
  }

  /** The RN update with one object's pair: RN := (RN + second) * third. */
  function RNUpdate(rn: real, second: real, third: real): real
  {
    (rn + second) * third
  }

  /** The RN loop over the scene list from accumulator `rn`: objects equal
      to the primary hit's own (`self`) are skipped; every other object p
      adds the first of `term(p)` and multiplies by the second. */
  function RNFrom(ps: seq<Primitive>, self: Primitive, term: Primitive -> (real, real), rn: real): real
  {
    if ps == [] then rn
    else if ps[0] == self then RNFrom(ps[1..], self, term, rn)
    else RNFrom(ps[1..], self, term, RNUpdate(rn, term(ps[0]).0, term(ps[0]).1))
  }

  /** One step of the RN fold: the accumulator is kept over the primary
      hit's own object and becomes (rn + second) * third over any other
      object whose pair is (second, third). */
  lemma RNFromStep(ps: seq<Primitive>, self: Primitive, term: Primitive -> (real, real), rn: real, second: real, third: real)
    requires ps != [] && (ps[0] != self ==> term(ps[0]) == (second, third))
    ensures RNFrom(ps, self, term, rn) == RNFrom(ps[1..], self, term, if ps[0] == self then rn else RNUpdate(rn, second, third))
  {
  }

  /** One object's (occlusion, intensity) pair: its secondary raycast and
      the third raycast along the same ray. */
  function RNTerm(rec: HitRec, targetP: Vec3, kDig: real, intensity: Ray -> real, sqrt: SqrtFn): Primitive -> (real, real)
  {
    p => (SecondRaycast(rec, targetP, p, kDig, sqrt), intensity(SecondRay(rec, targetP, kDig, sqrt)))
  }

  /** The (occlusion, intensity) pairs the RN loop consumes, in list order:
      one for each object other than `self`. */
  function RNTerms(ps: seq<Primitive>, self: Primitive, term: Primitive -> (real, real)): (r: seq<(real, real)>)
    ensures |r| + multiset(ps)[self] == |ps|
  {
    if ps == [] then []
    else
      assert ps == [ps[0]] + ps[1..];
      if ps[0] == self then RNTerms(ps[1..], self, term)
      else [term(ps[0])] + RNTerms(ps[1..], self, term)
  }

  /** The RN loop is the `Accumulate` fold over those pairs, so its closed
      form and its order dependence carry over. */
  lemma {:induction false} RNIsAccumulate(ps: seq<Primitive>, self: Primitive, term: Primitive -> (real, real), rn: real)
    ensures RNFrom(ps, self, term, rn) == Accumulate(RNTerms(ps, self, term), rn)
    decreases ps
  {
    if ps != [] {
      var rest := RNTerms(ps[1..], self, term);
      if ps[0] == self {
        RNIsAccumulate(ps[1..], self, term, rn);
        assert RNTerms(ps, self, term) == rest;
      } else {
        var t := term(ps[0]);
        RNFromStep(ps, self, term, rn, t.0, t.1);
        RNIsAccumulate(ps[1..], self, term, RNUpdate(rn, t.0, t.1));
        assert RNTerms(ps, self, term) == [t] + rest;
        AccumulateCons(t, rest, rn);
      }
    }
  }

  /** What `_ConvolutionPrimaryRaycast` has gathered before combining: no
      hit (zero colour, no secondary ray cast), or the R0 and RN terms and
      the material hit. */
  datatype Shade = Background | Terms(r0: real, rn: real, material: Material)

  // -------------------------------------------------------------- renderer

  /** One column w of `GetLastRender`: every slot of a pixel in column w
      gets `tone` of the render buffer's slot, read before it is written
      (the two buffers may be one), so that columns left of w are done,
      column w is done after the call, and no slot of a later column and
      none past W * H * 3 changes. */
  method ToneColumn(out: array<real>, pix: array<real>, ghost p0: seq<real>, width: nat, height: nat, w: nat, tone: real -> real)
    requires w < width && |p0| == width * height * 3 <= out.Length && |p0| <= pix.Length
    requires forall i :: 0 <= i < |p0| ==>
      if PixelW(i, width) < w then out[i] == tone(p0[i]) else pix[i] == p0[i]
    modifies out
    ensures forall i :: 0 <= i < |p0| ==>
      if PixelW(i, width) <= w then out[i] == tone(p0[i]) else pix[i] == p0[i]
    ensures forall i :: |p0| <= i < out.Length ==> out[i] == old(out[i])
  {
    var n := |p0|;
    var h := 0;
    while h < height
      modifies out
      invariant 0 <= h <= height
      invariant forall i :: n <= i < out.Length ==> out[i] == old(out[i])
      invariant forall i :: 0 <= i < n ==>
        if PixelW(i, width) < w || (PixelW(i, width) == w && PixelH(i, width) < h) then out[i] == tone(p0[i]) else pix[i] == p0[i]
    {
      var i0 := (h * width + w) * 3;
      PixelIndexInRange(w, h, 2, width, height);
      PixelIndexDecodes(w, h, 0, width);
      PixelIndexDecodes(w, h, 1, width);
      PixelIndexDecodes(w, h, 2, width);
      var r, g, b := pix[i0 + 0], pix[i0 + 1], pix[i0 + 2];
      out[i0 + 0] := tone(r);
      out[i0 + 1] := tone(g);
      out[i0 + 2] := tone(b);
      forall i | 0 <= i < n && i != i0 && i != i0 + 1 && i != i0 + 2 && PixelW(i, width) == w
        ensures PixelH(i, width) != h
      {
        PixelIndexEncodes(i, width, height);
        assert i == PixelIndex(w, PixelH(i, width), i % 3, width);
      }
      h := h + 1;
    }
    forall i | 0 <= i < n && PixelW(i, width) == w
      ensures PixelH(i, width) < height
    {
      PixelIndexEncodes(i, width, height);
    }
  }

  /** The settings before `SetRenderSetting` (the source leaves them
      uninitialised). */
  const NoSetting := RenderSetting(0, 0, 0, 0, 0.0, 0.0, 0.0, 0.0, 0.0, 0.0, 0, 0, 0.0)

  class Renderer {
    /** `m_renderSetting`. */
    var setting: RenderSetting
    /** `m_isFinished`, `m_currentSample`. */
    var isFinished: bool
    var currentSample: nat
    /** `m_pixmap`: `null` until the first `Render`. */
    var pixmap: array?<real>
    /** `m_scene` and the origin of `m_light`. */
    var scene: HittableList
    var lightOrigin: Vec3

    /** The buffer length W * H * 3. */
    function Size(): nat
      reads this
    {
      setting.renderW * setting.renderH * 3
    }

    /** The constructor, with the scene and light that `InitScene` sets up:
        no render finished, no sample taken, no buffer yet. */
    constructor (scene: HittableList, lightOrigin: Vec3)
      ensures !isFinished && currentSample == 0 && pixmap == null
      ensures this.scene == scene && this.lightOrigin == lightOrigin && setting == NoSetting
    {
      this.scene := scene;
      this.lightOrigin := lightOrigin;
      setting := NoSetting;
      isFinished := false;
      currentSample := 0;
      pixmap := null;
    }

    /** `SetRenderSetting`: the caller's settings, with the grid width and
        height set to the integer square root of the sample count and the
        offset to half a grid cell. */
    method SetRenderSetting(st: RenderSetting)
      modifies this
      ensures setting == st.(nSamplesW := FloorSqrt(st.nSamples), nSamplesH := FloorSqrt(st.nSamples),
                             nSamplesOffset := SampleOffset(FloorSqrt(st.nSamples)))
      ensures isFinished == old(isFinished) && currentSample == old(currentSample) && pixmap == old(pixmap)
      ensures scene == old(scene) && lightOrigin == old(lightOrigin)
    {
      var k := FloorSqrt(st.nSamples);
      setting := st.(nSamplesW := k, nSamplesH := k, nSamplesOffset := SampleOffset(k));
    }

    /** `_ClearOldRender`: zero the W * H * 3 slots and reset the state. */
    method ClearOldRender()
      requires pixmap != null && Size() <= pixmap.Length
      modifies this, pixmap
      ensures !isFinished && currentSample == 0
      ensures pixmap == old(pixmap) && setting == old(setting) && scene == old(scene) && lightOrigin == old(lightOrigin)
      ensures forall i :: 0 <= i < pixmap.Length ==> pixmap[i] == if i < Size() then 0.0 else old(pixmap[i])
    {
      isFinished := false;
      currentSample := 0;
      var buf, n := pixmap, Size();
      var i := 0;
      while i < n
        modifies buf
        invariant 0 <= i <= n
        invariant forall j :: 0 <= j < buf.Length ==> buf[j] == if j < i then 0.0 else old(buf[j])
      {
        buf[i] := 0.0;
        i := i + 1;
      }
    }

    /** `Render`.  The first render allocates a buffer whose contents are
        whatever the memory held (`garbage`); a later one clears the buffer
        only if the previous render finished, and otherwise adds onto what
        is there.  Every sample s of every pixel (w, h), at grid cell
        (s % nSamplesW, s / nSamplesH), is shaded and added channel by
        channel at (h * W + w) * 3 + c.  Then the render is finished with
        `nSamples` samples. */
    method Render(shade: (real, real) -> Vec3, garbage: nat -> real)
      requires pixmap != null ==> Size() <= pixmap.Length
      modifies this, pixmap
      ensures pixmap != null && Size() <= pixmap.Length
      ensures old(pixmap) == null ==> fresh(pixmap)
      ensures old(pixmap) != null ==> pixmap == old(pixmap)
      ensures setting == old(setting) && scene == old(scene) && lightOrigin == old(lightOrigin)
      ensures isFinished && currentSample == setting.nSamples
      ensures forall i :: 0 <= i < Size() ==>
        pixmap[i] == (if old(pixmap) == null then garbage(i) else if old(isFinished) then 0.0 else old(pixmap[i])) +
                     PixelSum(setting, shade, PixelW(i, setting.renderW), PixelH(i, setting.renderW), i % 3, setting.nSamples)
    ensures old(pixmap) != null ==> forall i :: Size() <= i < pixmap.Length ==> pixmap[i] == old(pixmap[i])
    {
      var st := setting;
      var n := Size();
      if pixmap == null {
        pixmap := new real[n](i requires 0 <= i => garbage(i));
      } else if isFinished {
        ClearOldRender();
      }
      var buf: array<real> := pixmap;
      ghost var start := buf[..n];
      assert forall i :: 0 <= i < n ==>
        start[i] == (if old(pixmap) == null then garbage(i) else if old(isFinished) then 0.0 else old(pixmap[i]));
      AccumulatedStart(start, st, shade);
      ghost var beyond := buf[n..];
      assert old(pixmap) != null ==> forall i :: n <= i < buf.Length ==> beyond[i - n] == old(pixmap[i]);
      var width := st.renderW;
      var w := 0;
      while w < width
        modifies buf
        invariant 0 <= w <= width
        invariant Accumulated(buf[..n], start, st, shade, w, 0, 0)
        invariant buf[n..] == beyond
      {
        AddColumnSamples(buf, n, start, st, shade, w);
        w := w + 1;
      }
      AccumulatedDone(buf[..n], start, st, shade);
      assert forall i :: n <= i < buf.Length ==> buf[i] == buf[n..][i - n];
      isFinished := true;
      currentSample := st.nSamples;
    }

    /** `GetLastRender`: allocate the output when the caller passes none,
        then write every slot (h * W + w) * 3 + c from the same slot of the
        render buffer, corrected by `tone` (gamma and the 1 / samples
        scale). */
    method GetLastRender(outMap: array?<real>, tone: real -> real) returns (out: array<real>)
      requires pixmap != null && Size() <= pixmap.Length
      requires outMap != null ==> Size() <= outMap.Length
      modifies outMap
      ensures outMap != null ==> out == outMap
      ensures outMap == null ==> fresh(out) && out.Length == Size()
      ensures forall i :: 0 <= i < Size() ==> out[i] == tone(old(pixmap[i]))
      ensures outMap != null ==> forall i :: Size() <= i < outMap.Length ==> outMap[i] == old(outMap[i])
    {
      var n, width, height := Size(), setting.renderW, setting.renderH;
      if outMap == null {
        out := new real[n];
      } else {
        out := outMap;
      }
      var pix: array<real> := pixmap;
      ghost var p0 := pix[..n];
      ghost var beyond := out[n..];
      var w := 0;
      while w < width
        modifies out
        invariant 0 <= w <= width
        invariant forall i :: n <= i < out.Length ==> out[i] == beyond[i - n]
        invariant forall i :: 0 <= i < n ==>
          if PixelW(i, width) < w then out[i] == tone(p0[i]) else pix[i] == p0[i]
      {
        ToneColumn(out, pix, p0, width, height, w, tone);
        w := w + 1;
      }
      forall i | 0 <= i < n
        ensures PixelW(i, width) < width
      {
        PixelIndexEncodes(i, width, height);
      }
    }

    /** `_ConvolutionSecondRaycast`: the target's `HitAll` records along
        the secondary ray, sorted, then paired: inside, a hit closes the
        interval from `t_start`; outside, it opens one. */
    method ConvolutionSecondRaycast(rec: HitRec, targetP: Vec3, target: Primitive, sqrt: SqrtFn) returns (r: real)
      ensures r == SecondRaycast(rec, targetP, target, setting.kDig, sqrt)
    {
      var newOrigin := Sub(rec.p, Scale(rec.n, setting.kDig));
      var newDirection := Normalize(Sub(targetP, newOrigin), sqrt);
      var secondRay := Ray(newOrigin, newDirection);
      assert secondRay == SecondRay(rec, targetP, setting.kDig, sqrt);
      var _, hits := HitAllOf(target, secondRay, Epsilon, Infinity, [], sqrt);
      assert hits == PrimHitAll(target, secondRay, Epsilon, Infinity, sqrt);
      hits := SortByT(hits);
      r := PairIntervals(hits, target == rec.hittable);
    }

    /** `_ConvolutionThirdRaycast`: the light's intensity along the same
        secondary ray (the target object is not used). */
    method ConvolutionThirdRaycast(rec: HitRec, targetP: Vec3, intensity: Ray -> real, sqrt: SqrtFn) returns (e: real)
      ensures e == intensity(SecondRay(rec, targetP, setting.kDig, sqrt))
    {
      var newOrigin := Sub(rec.p, Scale(rec.n, setting.kDig));
      var newDirection := Normalize(Sub(targetP, newOrigin), sqrt);
      e := intensity(Ray(newOrigin, newDirection));
    }

    /** The RN loop of `_ConvolutionPrimaryRaycast`: for every object of
        the scene list other than the primary hit's own, in list order,
        RN := (RN + second) * third with that object's secondary raycast
        and the third raycast. */
    method ConvolutionRN(hitRec: HitRec, intensity: Ray -> real, sqrt: SqrtFn) returns (rn: real)
      ensures rn == RNFrom(scene.hittables, hitRec.hittable, RNTerm(hitRec, lightOrigin, setting.kDig, intensity, sqrt), 0.0)
    {
      rn := 0.0;
      var hs := scene.hittables;
      ghost var total := RNFrom(hs, hitRec.hittable, RNTerm(hitRec, lightOrigin, setting.kDig, intensity, sqrt), 0.0);
      assert hs[0..] == hs;
      for i := 0 to |hs|
        invariant total == RNFrom(hs[i..], hitRec.hittable, RNTerm(hitRec, lightOrigin, setting.kDig, intensity, sqrt), rn)
      {
        rn := ConvolutionRNStep(hitRec, intensity, sqrt, hs[i..], rn);
        assert hs[i..][1..] == hs[i + 1..];
      }
      assert hs[|hs|..] == [];
    }

    /** One pass of the RN loop, over the first object of `ps`: the primary
        hit's own object leaves RN as it is; any other object turns it into
        (RN + second) * third, with its secondary raycast and the third
        raycast. */
    method ConvolutionRNStep(hitRec: HitRec, intensity: Ray -> real, sqrt: SqrtFn, ps: seq<Primitive>, rn: real) returns (next: real)
      requires ps != []
      ensures RNFrom(ps, hitRec.hittable, RNTerm(hitRec, lightOrigin, setting.kDig, intensity, sqrt), rn)
           == RNFrom(ps[1..], hitRec.hittable, RNTerm(hitRec, lightOrigin, setting.kDig, intensity, sqrt), next)
    {
      var p := ps[0];
      var second, third := 0.0, 0.0;
      next := rn;
      if p != hitRec.hittable {
        second := ConvolutionSecondRaycast(hitRec, lightOrigin, p, sqrt);
        third := ConvolutionThirdRaycast(hitRec, lightOrigin, intensity, sqrt);
        next := RNUpdate(rn, second, third);
      }
      RNFromStep(ps, hitRec.hittable, RNTerm(hitRec, lightOrigin, setting.kDig, intensity, sqrt), rn, second, third);
    }

    /** `_ConvolutionPrimaryRaycast` up to the final combination: on a miss
        of the scene, the background and nothing more; otherwise R0 from
        the hit object itself (starting inside) and RN from every other
        object of the scene list, in list order. */
    method ConvolutionPrimaryRaycast(ray: Ray, intensity: Ray -> real, sqrt: SqrtFn) returns (r: Shade)
      requires scene.accel.Some?
      ensures r.Background? <==> ListHit(scene.hittables, scene.accel.value, ray, Epsilon, Infinity, sqrt).None?
      ensures r.Terms? ==>
        var rec := ListHit(scene.hittables, scene.accel.value, ray, Epsilon, Infinity, sqrt).value;
        r.r0 == SecondRaycast(rec, lightOrigin, rec.hittable, setting.kDig, sqrt) &&
        r.rn == RNFrom(scene.hittables, rec.hittable, RNTerm(rec, lightOrigin, setting.kDig, intensity, sqrt), 0.0) &&
        r.material == rec.material
    {
      var unset := HitRec(Vec3(0.0, 0.0, 0.0), Vec3(0.0, 0.0, 0.0), 0.0, 0, false, Sphere(Vec3(0.0, 0.0, 0.0), 0.0, 0));
      var isHit, hitRec := scene.Hit(ray, Epsilon, Infinity, unset, sqrt);
      if !isHit {
        return Background;
      }
      var r0 := ConvolutionSecondRaycast(hitRec, lightOrigin, hitRec.hittable, sqrt);
      var rn := ConvolutionRN(hitRec, intensity, sqrt);
      return Terms(r0, rn, hitRec.material);
    }
  }
}
