/** The picture a draw should give: triangles in index order, each over every pixel of the screen. */
module RasterReference {
  import opened ShaderAst
  import opened RasterGeometry

  /** One fragment as the fragment shader sees it. */
  datatype Frag = Frag(pidx: nat, x: real, y: real, z: real, iz: real, vary: seq<real>)

  datatype Color = Color(r: real, g: real, b: real)

  /** One lane of a packet: its live flag and its output. */
  datatype Lane = Lane(live: bool, color: Color)

  /** The shader behind the draw: one invocation at a time, or packets of `width` lanes. */
  datatype Shading =
    | Scalar(invoke: Frag -> Color)
    | Packets(width: nat, run: seq<Frag> -> seq<Lane>)

  datatype Rgb = Rgb(r: int, g: int, b: int)

  datatype Pixel = Pixel(z: real, rgb: Rgb)

  datatype Scene = Scene(scr: Screen, verts: seq<Vertex>, tris: seq<Tri>, varyings: nat)

  /** Every triangle refers to shaded vertices, and every vertex carries its varyings. */
  ghost predicate SceneOk(sc: Scene) {
    && (forall i | 0 <= i < |sc.tris| ::
          sc.tris[i].i0 < |sc.verts| && sc.tris[i].i1 < |sc.verts| && sc.tris[i].i2 < |sc.verts|)
    && (forall i | 0 <= i < |sc.verts| :: |sc.verts[i].attrs| >= sc.varyings)
  }

  /** What one lane gives for one fragment, whichever lane and whatever the others hold. */
  ghost predicate LaneWise(sh: Shading, lane: Frag -> Lane) {
    if sh.Scalar? then forall f :: lane(f) == Lane(true, sh.invoke(f))
    else
      sh.width > 0 && forall b: seq<Frag> {:trigger sh.run(b)} | |b| == sh.width :: Answers(lane, b, sh.run(b))
  }

  ghost predicate Answers(lane: Frag -> Lane, b: seq<Frag>, out: seq<Lane>) {
    |out| == |b| && forall l | 0 <= l < |b| :: SameLane(out[l], lane(b[l]))
  }

  /** The output of a dead lane is whatever the packet left there. */
  predicate SameLane(a: Lane, b: Lane) {
    a.live == b.live && (a.live ==> a.color == b.color)
  }

  function Clamp01(v: real): real {
    if v < 0.0 then 0.0 else if v > 1.0 then 1.0 else v
  }

  /** The byte written for a colour component. */
  function Byte(v: real): (b: int)
    ensures 0 <= b <= 255
  {
    (Clamp01(v) * 255.0 + 0.5).Floor
  }

  function Quantize(c: Color): Rgb {
    Rgb(Byte(c.r), Byte(c.g), Byte(c.b))
  }

  /** The byte is the nearest to the component, ends included, so bytes survive a round trip and the order is kept. */
  lemma ByteIsNearest(v: real, w: real, k: int)
    ensures ShowsAs(Byte(v), v)
    ensures 0 <= k <= 255 ==> Byte(k as real / 255.0) == k
    ensures v <= w ==> Byte(v) <= Byte(w)
  {
    if 0 <= k <= 255 {
      var u := k as real / 255.0;
      assert u * 255.0 == k as real;
    }
    if v <= w { assert Clamp01(v) * 255.0 <= Clamp01(w) * 255.0; }
  }

  /** The inverse depth at a covered pixel is positive: the division below is defined. */
  lemma MeanPositive(b0: real, b1: real, b2: real, p: real, q: real, r: real)
    requires b0 >= 0.0 && b1 >= 0.0 && b2 >= 0.0 && b0 + b1 + b2 == 1.0 && p > 0.0 && q > 0.0 && r > 0.0
    ensures b0 * p + b1 * q + b2 * r > 0.0
  {
    assert b0 * p >= 0.0 && b1 * q >= 0.0 && b2 * r >= 0.0;
    if b0 > 0.0 { assert b0 * p > 0.0; } else if b1 > 0.0 { assert b1 * q > 0.0; } else { assert b2 * r > 0.0; }
  }

  /** Barycentric weights are non-negative and add up to one. */
  lemma Weights(e0: real, e1: real, e2: real, area: real)
    requires e0 >= 0.0 && e1 >= 0.0 && e2 >= 0.0 && e0 + e1 + e2 == area && area > 0.0
    ensures
      var inv := 1.0 / area;
      e0 * inv >= 0.0 && e1 * inv >= 0.0 && 1.0 - e0 * inv - e1 * inv == e2 * inv && e2 * inv >= 0.0
  {
    var inv := 1.0 / area;
    assert area * inv == 1.0 && inv > 0.0;
    assert (e0 + e1 + e2) * inv == e0 * inv + e1 * inv + e2 * inv;
  }

  /** A reciprocal; HitHasDepth shows that the zero case never arises. */
  function Inverse(x: real): real {
    if x == 0.0 then 0.0 else 1.0 / x
  }

  function InverseDepth(b0: real, b1: real, b2: real, a: Corner, b: Corner, c: Corner): real {
    b0 * a.iw + b1 * b.iw + b2 * c.iw
  }

  /** The fragment of a triangle at a pixel, from its edge values there. */
  function FragmentOf(sc: Scene, t: Tri, a: Corner, b: Corner, c: Corner, invArea: real,
                      e0: real, e1: real, px: nat, py: nat): Frag
    requires SceneOk(sc) && t in sc.tris
  {
    var b0, b1 := e0 * invArea, e1 * invArea;
    var b2 := 1.0 - b0 - b1;
    var iz := InverseDepth(b0, b1, b2, a, b, c);
    var z := (b0 * a.nzw + b1 * b.nzw + b2 * c.nzw) * Inverse(iz);
    var u, v, w := sc.verts[t.i0].attrs, sc.verts[t.i1].attrs, sc.verts[t.i2].attrs;
    Frag(py * sc.scr.width + px, Center(px), sc.scr.height as real - Center(py), z * 0.5 + 0.5, iz,
         seq(sc.varyings, k requires 0 <= k < sc.varyings =>
           (b0 * (u[k] * a.iw) + b1 * (v[k] * b.iw) + b2 * (w[k] * c.iw)) * Inverse(iz)))
  }

  lemma DepthFromEdges(e0: real, e1: real, e2: real, area: real, inv: real, b0: real, b1: real, b2: real,
                       a: Corner, b: Corner, c: Corner)
    requires e0 >= 0.0 && e1 >= 0.0 && e2 >= 0.0 && e0 + e1 + e2 == area && area > 0.0 && inv == 1.0 / area
    requires b0 == e0 * inv && b1 == e1 * inv && b2 == 1.0 - b0 - b1
    requires a.iw > 0.0 && b.iw > 0.0 && c.iw > 0.0
    ensures InverseDepth(b0, b1, b2, a, b, c) > 0.0
  {
    Weights(e0, e1, e2, area);
    MeanPositive(b0, b1, b2, a.iw, b.iw, c.iw);
  }

  /** At every covered pixel of a triangle that is drawn the interpolated 1/w is positive. */
  lemma DepthDefined(a: Corner, b: Corner, c: Corner, px: int, py: int, inv: real, b0: real, b1: real)
    requires Covers(a, b, c, px, py) && Area(a, b, c) >= MIN_AREA && a.iw > 0.0 && b.iw > 0.0 && c.iw > 0.0
    requires inv == 1.0 / Area(a, b, c)
    requires b0 == Edge(b, c, Center(px), Center(py)) * inv && b1 == Edge(c, a, Center(px), Center(py)) * inv
    ensures InverseDepth(b0, b1, 1.0 - b0 - b1, a, b, c) > 0.0
  {
    var x, y := Center(px), Center(py);
    EdgesSumToArea(a, b, c, x, y);
    DepthFromEdges(Edge(b, c, x, y), Edge(c, a, x, y), Edge(a, b, x, y), Area(a, b, c), inv, b0, b1, 1.0 - b0 - b1, a, b, c);
  }

  /** The fragment of triangle `t` at a pixel, found by the edge tests alone: no box, no off-screen test. */
  function Hit(sc: Scene, t: Tri, px: nat, py: nat): Option<Frag>
    requires SceneOk(sc) && t in sc.tris
  {
    if !InFront(sc.verts, t) then None
    else
      var a, b, c := CornerOf(sc.verts[t.i0], sc.scr), CornerOf(sc.verts[t.i1], sc.scr), CornerOf(sc.verts[t.i2], sc.scr);
      if Area(a, b, c) < MIN_AREA || !Covers(a, b, c, px, py) then None
      else
        var x, y := Center(px), Center(py);
        Some(FragmentOf(sc, t, a, b, c, 1.0 / Area(a, b, c), Edge(b, c, x, y), Edge(c, a, x, y), px, py))
  }

  /** No fragment divides by zero. */
  lemma HitHasDepth(sc: Scene, t: Tri, px: nat, py: nat)
    requires SceneOk(sc) && t in sc.tris && Hit(sc, t, px, py).Some?
    ensures Hit(sc, t, px, py).value.iz > 0.0
  {
    var a, b, c := CornerOf(sc.verts[t.i0], sc.scr), CornerOf(sc.verts[t.i1], sc.scr), CornerOf(sc.verts[t.i2], sc.scr);
    ReciprocalPositive(sc.verts[t.i0].w);
    ReciprocalPositive(sc.verts[t.i1].w);
    ReciprocalPositive(sc.verts[t.i2].w);
    var inv := 1.0 / Area(a, b, c);
    var b0, b1 := Edge(b, c, Center(px), Center(py)) * inv, Edge(c, a, Center(px), Center(py)) * inv;
    DepthDefined(a, b, c, px, py, inv, b0, b1);
  }

  lemma ReciprocalPositive(w: real)
    requires w > 0.0
    ensures 1.0 / w > 0.0
  {
  }

  /** Depth test, depth write, and colour write of a live fragment. The depth is written before the shader runs. */
  function Shade(lane: Frag -> Lane, f: Option<Frag>, p: Pixel): Pixel {
    if f.None? || f.value.z >= p.z then p
    else Pixel(f.value.z, if lane(f.value).live then Quantize(lane(f.value).color) else p.rgb)
  }

  /** One pixel after the triangles `ts` in order. */
  function PixelAfter(sc: Scene, lane: Frag -> Lane, ts: seq<Tri>, px: nat, py: nat, p: Pixel): Pixel
    requires SceneOk(sc) && forall t | t in ts :: t in sc.tris
  {
    if ts == [] then p
    else
      var rest := ts[..|ts| - 1];
      Shade(lane, Hit(sc, ts[|ts| - 1], px, py), PixelAfter(sc, lane, rest, px, py, p))
  }

  /** What the loop over the triangles comes to: a pixel that no fragment is in front of stays as it is. */
  lemma {:induction false} HiddenLeaves(sc: Scene, lane: Frag -> Lane, ts: seq<Tri>, px: nat, py: nat, p: Pixel)
    requires SceneOk(sc) && forall t | t in ts :: t in sc.tris
    requires forall k | 0 <= k < |ts| :: !InFrontOf(sc, ts[k], px, py, p.z)
    ensures PixelAfter(sc, lane, ts, px, py, p) == p
  {
    if ts != [] {
      HiddenLeaves(sc, lane, ts[..|ts| - 1], px, py, p);
      assert !InFrontOf(sc, ts[|ts| - 1], px, py, p.z);
    }
  }

  predicate InFrontOf(sc: Scene, t: Tri, px: nat, py: nat, d: real)
    requires SceneOk(sc) && t in sc.tris
  {
    Hit(sc, t, px, py).Some? && Hit(sc, t, px, py).value.z < d
  }

  /** Otherwise the nearest fragment, the first of those equally near, gives the depth and, if it is not discarded, the
      colour; a discarded one hides what comes after it and shows what was there before. */
  lemma {:induction false} NearestWins(sc: Scene, lane: Frag -> Lane, ts: seq<Tri>, px: nat, py: nat, p: Pixel, i: nat)
    requires SceneOk(sc) && (forall t | t in ts :: t in sc.tris)
    requires i < |ts| && InFrontOf(sc, ts[i], px, py, p.z)
    requires forall k | 0 <= k < |ts| :: !InFrontOf(sc, ts[k], px, py, Hit(sc, ts[i], px, py).value.z)
    requires forall k | 0 <= k < i && Hit(sc, ts[k], px, py).Some? :: Hit(sc, ts[k], px, py).value.z != Hit(sc, ts[i], px, py).value.z
    ensures
      var f, q := Hit(sc, ts[i], px, py).value, PixelAfter(sc, lane, ts, px, py, p);
      && q.z == f.z
      && (if lane(f).live then Shows(q.rgb, lane(f).color) else q.rgb == PixelAfter(sc, lane, ts[..i], px, py, p).rgb)
    decreases |ts|
  {
    var last := |ts| - 1;
    var rest := ts[..last];
    var z := Hit(sc, ts[i], px, py).value.z;
    assert !InFrontOf(sc, ts[last], px, py, z);
    if i < last {
      assert rest[i] == ts[i] && rest[..i] == ts[..i];
      NearestWins(sc, lane, rest, px, py, p, i);
    } else {
      forall k | 0 <= k < |rest| && Hit(sc, rest[k], px, py).Some? ensures Hit(sc, rest[k], px, py).value.z > z {
        assert rest[k] == ts[k] && !InFrontOf(sc, ts[k], px, py, z);
      }
      StaysBehind(sc, lane, rest, px, py, p, z);
      QuantizeShows(lane(Hit(sc, ts[i], px, py).value).color);
    }
  }

  lemma {:induction false} StaysBehind(sc: Scene, lane: Frag -> Lane, ts: seq<Tri>, px: nat, py: nat, p: Pixel, z: real)
    requires SceneOk(sc) && (forall t | t in ts :: t in sc.tris)
    requires p.z > z && forall k | 0 <= k < |ts| && Hit(sc, ts[k], px, py).Some? :: Hit(sc, ts[k], px, py).value.z > z
    ensures PixelAfter(sc, lane, ts, px, py, p).z > z
  {
    if ts != [] { StaysBehind(sc, lane, ts[..|ts| - 1], px, py, p, z); }
  }

  /** A byte for a component: the nearest one, the ends included. */
  predicate ShowsAs(b: int, v: real) {
    && (0.0 <= v <= 1.0 ==> v * 255.0 - 0.5 < b as real <= v * 255.0 + 0.5)
    && (v <= 0.0 ==> b == 0) && (v >= 1.0 ==> b == 255)
  }

  predicate Shows(rgb: Rgb, c: Color) {
    ShowsAs(rgb.r, c.r) && ShowsAs(rgb.g, c.g) && ShowsAs(rgb.b, c.b)
  }

  lemma QuantizeShows(c: Color)
    ensures Shows(Quantize(c), c)
  {
    ByteIsNearest(c.r, c.r, 0);
    ByteIsNearest(c.g, c.g, 0);
    ByteIsNearest(c.b, c.b, 0);
  }

  type Picture = seq<Pixel>

  /** One triangle over the whole screen. */
  function DrawTriangle(sc: Scene, lane: Frag -> Lane, t: Tri, f: Picture): (g: Picture)
    requires SceneOk(sc) && t in sc.tris && |f| == sc.scr.width * sc.scr.height
    ensures |g| == |f|
  {
    seq(|f|, i requires 0 <= i < |f| => Shade(lane, Hit(sc, t, i % sc.scr.width, i / sc.scr.width), f[i]))
  }

  /** The reference: every triangle in order, over every pixel. */
  function BruteForce(sc: Scene, lane: Frag -> Lane, ts: seq<Tri>, f: Picture): (g: Picture)
    requires SceneOk(sc) && (forall t | t in ts :: t in sc.tris)
    requires |f| == sc.scr.width * sc.scr.height
    ensures |g| == |f|
  {
    if ts == [] then f
    else DrawTriangle(sc, lane, ts[|ts| - 1], BruteForce(sc, lane, ts[..|ts| - 1], f))
  }

  /** The reference picture, pixel by pixel. */
  lemma {:induction false} BruteForcePixel(sc: Scene, lane: Frag -> Lane, ts: seq<Tri>, f: Picture, i: nat)
    requires SceneOk(sc) && (forall t | t in ts :: t in sc.tris)
    requires |f| == sc.scr.width * sc.scr.height && i < |f|
    ensures BruteForce(sc, lane, ts, f)[i] == PixelAfter(sc, lane, ts, i % sc.scr.width, i / sc.scr.width, f[i])
  {
    if ts != [] { BruteForcePixel(sc, lane, ts[..|ts| - 1], f, i); }
  }

  /** Drawing one range of triangles and then another, without clearing, is drawing both. */
  lemma {:induction false} DrawsCompose(sc: Scene, lane: Frag -> Lane, ts: seq<Tri>, us: seq<Tri>, f: Picture)
    requires SceneOk(sc) && (forall t | t in ts + us :: t in sc.tris)
    requires |f| == sc.scr.width * sc.scr.height
    requires (forall t | t in ts :: t in sc.tris) && (forall t | t in us :: t in sc.tris)
    ensures BruteForce(sc, lane, ts + us, f) == BruteForce(sc, lane, us, BruteForce(sc, lane, ts, f))
    decreases us
  {
    if us == [] {
      assert ts + us == ts;
    } else {
      var rest := us[..|us| - 1];
      assert (ts + us)[..|ts + us| - 1] == ts + rest;
      DrawsCompose(sc, lane, ts, rest, f);
    }
  }

  /** The same draw state with another list of triangles. */
  function Range(sc: Scene, ts: seq<Tri>): Scene {
    sc.(tris := ts)
  }

  /** A draw depends on the scene only through its vertices and its screen. */
  lemma {:induction false} RangeDraws(sc: Scene, lane: Frag -> Lane, range: seq<Tri>, ts: seq<Tri>, f: Picture)
    requires SceneOk(sc) && SceneOk(Range(sc, range)) && |f| == sc.scr.width * sc.scr.height
    requires (forall t | t in ts :: t in sc.tris) && (forall t | t in ts :: t in range)
    ensures BruteForce(Range(sc, range), lane, ts, f) == BruteForce(sc, lane, ts, f)
    decreases ts
  {
    if ts != [] {
      var rest, t := ts[..|ts| - 1], ts[|ts| - 1];
      RangeDraws(sc, lane, range, rest, f);
      var g := BruteForce(sc, lane, rest, f);
      forall i | 0 <= i < |g|
        ensures DrawTriangle(Range(sc, range), lane, t, g)[i] == DrawTriangle(sc, lane, t, g)[i]
      {
        assert Hit(Range(sc, range), t, i % sc.scr.width, i / sc.scr.width) == Hit(sc, t, i % sc.scr.width, i / sc.scr.width);
      }
    }
  }

  /** Drawing the range `..m` of a scene and then the range `m..`, without clearing, draws the scene. */
  lemma RangesCompose(sc: Scene, lane: Frag -> Lane, m: nat, f: Picture)
    requires SceneOk(sc) && m <= |sc.tris| && |f| == sc.scr.width * sc.scr.height
    ensures SceneOk(Range(sc, sc.tris[..m])) && SceneOk(Range(sc, sc.tris[m..]))
    ensures
      var g := BruteForce(Range(sc, sc.tris[..m]), lane, sc.tris[..m], f);
      BruteForce(Range(sc, sc.tris[m..]), lane, sc.tris[m..], g) == BruteForce(sc, lane, sc.tris, f)
  {
    var a, b := sc.tris[..m], sc.tris[m..];
    assert a + b == sc.tris;
    RangeDraws(sc, lane, a, a, f);
    RangeDraws(sc, lane, b, b, BruteForce(sc, lane, a, f));
    DrawsCompose(sc, lane, a, b, f);
  }
}
