/** Triangle setup, edge functions and the screen box, in exact arithmetic. */
module RasterGeometry {
  import opened ShaderAst

  /** A vertex shader result: clip-space position and the varyings that are interpolated. */
  datatype Vertex = Vertex(x: real, y: real, z: real, w: real, attrs: seq<real>)

  datatype Tri = Tri(i0: nat, i1: nat, i2: nat)

  /** A corner after the perspective division and the viewport transform. */
  datatype Corner = Corner(sx: real, sy: real, iw: real, nzw: real)

  datatype Setup = Setup(c0: Corner, c1: Corner, c2: Corner, invArea: real,
                         minX: int, maxX: int, minY: int, maxY: int, tri: Tri)

  datatype Screen = Screen(width: nat, height: nat)

  function EdgeFunc(ax: real, ay: real, tx: real, ty: real, px: real, py: real): real {
    (px - ax) * (ty - ay) - (py - ay) * (tx - ax)
  }

  function Edge(a: Corner, b: Corner, px: real, py: real): real {
    EdgeFunc(a.sx, a.sy, b.sx, b.sy, px, py)
  }

  function Area(a: Corner, b: Corner, c: Corner): real {
    Edge(a, b, c.sx, c.sy)
  }

  function Center(p: int): real {
    p as real + 0.5
  }

  function CornerOf(v: Vertex, scr: Screen): Corner
    requires v.w > 0.0
  {
    var iw := 1.0 / v.w;
    Corner((v.x * iw + 1.0) * 0.5 * scr.width as real, (-(v.y * iw) + 1.0) * 0.5 * scr.height as real,
           iw, v.z * iw * iw)
  }

  function Min3(a: real, b: real, c: real): real {
    var m := if b < a then b else a;
    if c < m then c else m
  }

  function Max3(a: real, b: real, c: real): real {
    var m := if a < b then b else a;
    if m < c then c else m
  }

  function Ceil(x: real): int {
    -((-x).Floor)
  }

  function Least(a: int, b: int): int {
    if b < a then b else a
  }

  function Greatest(a: int, b: int): int {
    if a < b then b else a
  }

  /** The cast to a 16-bit field. */
  function Int16(x: int): int {
    (x + 0x8000) % 0x1_0000 - 0x8000
  }

  /** The first pixel of a range that starts at `x`, as the setup stores it. */
  function BoxLow(x: real): int {
    Int16(Greatest(0, x.Floor))
  }

  /** The last pixel, on a screen of `n`, of a range that ends at `x`. */
  function BoxHigh(x: real, n: nat): int {
    Int16(Least(n - 1, Ceil(x)))
  }

  const MIN_AREA: real := 0.000001

  predicate OffScreen(a: Corner, b: Corner, c: Corner, scr: Screen) {
    || Max3(a.sx, b.sx, c.sx) < 0.0 || Min3(a.sx, b.sx, c.sx) >= scr.width as real
    || Max3(a.sy, b.sy, c.sy) < 0.0 || Min3(a.sy, b.sy, c.sy) >= scr.height as real
  }

  predicate InFront(verts: seq<Vertex>, t: Tri)
    requires t.i0 < |verts| && t.i1 < |verts| && t.i2 < |verts|
  {
    verts[t.i0].w > 0.0 && verts[t.i1].w > 0.0 && verts[t.i2].w > 0.0
  }

  /** Culling and setup of one triangle. */
  function SetupOf(verts: seq<Vertex>, t: Tri, scr: Screen): Option<Setup>
    requires t.i0 < |verts| && t.i1 < |verts| && t.i2 < |verts|
  {
    if !InFront(verts, t) then None
    else
      var a, b, c := CornerOf(verts[t.i0], scr), CornerOf(verts[t.i1], scr), CornerOf(verts[t.i2], scr);
      if OffScreen(a, b, c, scr) || Area(a, b, c) < MIN_AREA then None
      else
        Some(Setup(a, b, c, 1.0 / Area(a, b, c),
                   BoxLow(Min3(a.sx, b.sx, c.sx)), BoxHigh(Max3(a.sx, b.sx, c.sx), scr.width),
                   BoxLow(Min3(a.sy, b.sy, c.sy)), BoxHigh(Max3(a.sy, b.sy, c.sy), scr.height),
                   t))
  }

  /** All three edge tests pass at the centre of the pixel. */
  predicate Covers(a: Corner, b: Corner, c: Corner, px: int, py: int) {
    && Edge(b, c, Center(px), Center(py)) >= 0.0
    && Edge(c, a, Center(px), Center(py)) >= 0.0
    && Edge(a, b, Center(px), Center(py)) >= 0.0
  }

  /** What is asked of the size for the 16-bit box fields. */
  predicate Fits(scr: Screen) {
    scr.width <= 0x8000 && scr.height <= 0x8000
  }

  // ---- the box fields ----

  /** Every coordinate of a screen survives the 16-bit fields exactly when the screen is small enough. */
  lemma CastsKeepCoordinates(scr: Screen)
    ensures
      && (forall x: int | 0 <= x < scr.width :: Int16(x) == x)
      && (forall y: int | 0 <= y < scr.height :: Int16(y) == y)
      <==> Fits(scr)
  {
    if scr.width > 0x8000 || scr.height > 0x8000 { assert Int16(0x8000) != 0x8000; }
  }

  lemma FloorCeil(x: real)
    ensures x.Floor as real <= x < x.Floor as real + 1.0 && x <= Ceil(x) as real < x + 1.0
  {
  }

  /** A range that meets a screen of `n` pixels has a stored box within it. */
  lemma BoxRange(lo: real, hi: real, n: nat)
    requires lo <= hi && hi >= 0.0 && lo < n as real && n <= 0x8000
    ensures 0 <= BoxLow(lo) && BoxHigh(hi, n) < n && (n > 0 ==> BoxLow(lo) <= BoxHigh(hi, n))
    ensures n > 0 ==> BoxLow(lo) == Greatest(0, lo.Floor) && BoxHigh(hi, n) == Least(n - 1, Ceil(hi))
  {
    FloorCeil(lo);
    FloorCeil(hi);
    assert lo.Floor < n && Ceil(hi) >= 0;
  }

  lemma Min3Max3(a: real, b: real, c: real)
    ensures Min3(a, b, c) <= a <= Max3(a, b, c) && Min3(a, b, c) <= b <= Max3(a, b, c)
    ensures Min3(a, b, c) <= c <= Max3(a, b, c)
  {
  }

  predicate InBox(s: Setup, px: int, py: int) {
    s.minX <= px <= s.maxX && s.minY <= py <= s.maxY
  }

  /** The box of a triangle that is set up lies on the screen. */
  lemma BoxOnScreen(verts: seq<Vertex>, t: Tri, scr: Screen)
    requires t.i0 < |verts| && t.i1 < |verts| && t.i2 < |verts| && Fits(scr) && SetupOf(verts, t, scr).Some?
    ensures
      var s := SetupOf(verts, t, scr).value;
      && 0 <= s.minX && s.maxX < scr.width && (scr.width > 0 ==> s.minX <= s.maxX)
      && 0 <= s.minY && s.maxY < scr.height && (scr.height > 0 ==> s.minY <= s.maxY)
  {
    var s := SetupOf(verts, t, scr).value;
    Min3Max3(s.c0.sx, s.c1.sx, s.c2.sx);
    Min3Max3(s.c0.sy, s.c1.sy, s.c2.sy);
    BoxRange(Min3(s.c0.sx, s.c1.sx, s.c2.sx), Max3(s.c0.sx, s.c1.sx, s.c2.sx), scr.width);
    BoxRange(Min3(s.c0.sy, s.c1.sy, s.c2.sy), Max3(s.c0.sy, s.c1.sy, s.c2.sy), scr.height);
  }

  // ---- edge functions ----

  /** One pixel to the right adds the edge's step. */
  lemma StepRight(a: Corner, b: Corner, px: int, py: real)
    ensures Edge(a, b, Center(px + 1), py) == Edge(a, b, Center(px), py) + (b.sy - a.sy)
  {
  }

  /** Going down `dy` rows adds the row step that often. */
  lemma StepDown(a: Corner, b: Corner, px: real, y0: int, y: int)
    ensures Edge(a, b, px, Center(y)) == Edge(a, b, px, Center(y0)) + (y - y0) as real * -(b.sx - a.sx)
  {
    var d, s := (y - y0) as real, b.sx - a.sx;
    assert Center(y) == Center(y0) + d;
    assert (Center(y0) + d - a.sy) * s == (Center(y0) - a.sy) * s + d * s;
    assert d * -s == -(d * s);
  }

  /** The three edge functions add up to the area at every point. */
  lemma EdgesSumToArea(a: Corner, b: Corner, c: Corner, x: real, y: real)
    ensures Edge(b, c, x, y) + Edge(c, a, x, y) + Edge(a, b, x, y) == Area(a, b, c)
  {
  }

  /** A point is the mean of the corners weighted by its edge functions, one coordinate at a time. */
  lemma WeightedX(a: Corner, b: Corner, c: Corner, x: real, y: real)
    ensures Edge(b, c, x, y) * a.sx + Edge(c, a, x, y) * b.sx + Edge(a, b, x, y) * c.sx == Area(a, b, c) * x
  {
  }

  lemma WeightedY(a: Corner, b: Corner, c: Corner, x: real, y: real)
    ensures Edge(b, c, x, y) * a.sy + Edge(c, a, x, y) * b.sy + Edge(a, b, x, y) * c.sy == Area(a, b, c) * y
  {
  }

  // ---- nothing covered is dropped ----

  /** A weighted mean is at least what bounds the averaged values below. */
  lemma MeanAbove(u: real, v: real, w: real, total: real, a: real, b: real, c: real, m: real, lo: real)
    requires u >= 0.0 && v >= 0.0 && w >= 0.0 && u + v + w == total && total > 0.0
    requires u * a + v * b + w * c == total * m
    requires lo <= a && lo <= b && lo <= c
    ensures lo <= m
  {
    Spread(u, v, w, total, a, b, c, m, lo);
    NonNegative(u, a - lo);
    NonNegative(v, b - lo);
    NonNegative(w, c - lo);
    PositiveFactor(total, m - lo);
  }

  lemma NonNegative(u: real, d: real)
    requires u >= 0.0 && d >= 0.0
    ensures u * d >= 0.0
  {
  }

  lemma MeanBounds(u: real, v: real, w: real, total: real, a: real, b: real, c: real, m: real, lo: real, hi: real)
    requires u >= 0.0 && v >= 0.0 && w >= 0.0 && u + v + w == total && total > 0.0
    requires u * a + v * b + w * c == total * m
    requires lo <= a <= hi && lo <= b <= hi && lo <= c <= hi
    ensures lo <= m <= hi
  {
    MeanAbove(u, v, w, total, a, b, c, m, lo);
    assert u * -a + v * -b + w * -c == total * -m;
    MeanAbove(u, v, w, total, -a, -b, -c, -m, -hi);
  }

  /** Distances from `z` average to the distance of the mean. */
  lemma Spread(u: real, v: real, w: real, total: real, a: real, b: real, c: real, m: real, z: real)
    requires u + v + w == total && u * a + v * b + w * c == total * m
    ensures u * (a - z) + v * (b - z) + w * (c - z) == total * (m - z)
  {
    assert total * z == u * z + v * z + w * z;
  }

  lemma PositiveFactor(t: real, d: real)
    requires t > 0.0 && t * d >= 0.0
    ensures d >= 0.0
  {
  }

  /** A covered pixel centre is no further out than the corners. */
  lemma CoveredInExtent(a: Corner, b: Corner, c: Corner, px: int, py: int)
    requires Covers(a, b, c, px, py) && Area(a, b, c) > 0.0
    ensures Min3(a.sx, b.sx, c.sx) <= Center(px) <= Max3(a.sx, b.sx, c.sx)
    ensures Min3(a.sy, b.sy, c.sy) <= Center(py) <= Max3(a.sy, b.sy, c.sy)
  {
    var x, y := Center(px), Center(py);
    EdgesSumToArea(a, b, c, x, y);
    WeightedX(a, b, c, x, y);
    WeightedY(a, b, c, x, y);
    Min3Max3(a.sx, b.sx, c.sx);
    Min3Max3(a.sy, b.sy, c.sy);
    MeanBounds(Edge(b, c, x, y), Edge(c, a, x, y), Edge(a, b, x, y), Area(a, b, c), a.sx, b.sx, c.sx, x,
               Min3(a.sx, b.sx, c.sx), Max3(a.sx, b.sx, c.sx));
    MeanBounds(Edge(b, c, x, y), Edge(c, a, x, y), Edge(a, b, x, y), Area(a, b, c), a.sy, b.sy, c.sy, y,
               Min3(a.sy, b.sy, c.sy), Max3(a.sy, b.sy, c.sy));
  }

  /** A pixel of the screen whose centre is in a range is in the stored box of that range. */
  lemma CenterInBox(lo: real, hi: real, n: nat, p: int)
    requires lo <= Center(p) <= hi && 0 <= p < n <= 0x8000
    ensures hi >= 0.0 && lo < n as real && BoxLow(lo) <= p <= BoxHigh(hi, n)
  {
    FloorCeil(lo);
    FloorCeil(hi);
    BoxRange(lo, hi, n);
  }

  /** Neither the off-screen test nor the box drops a covered pixel of the screen. */
  lemma CoveredIsKept(verts: seq<Vertex>, t: Tri, scr: Screen, px: int, py: int)
    requires t.i0 < |verts| && t.i1 < |verts| && t.i2 < |verts| && Fits(scr) && InFront(verts, t)
    requires 0 <= px < scr.width && 0 <= py < scr.height
    requires
      var a, b, c := CornerOf(verts[t.i0], scr), CornerOf(verts[t.i1], scr), CornerOf(verts[t.i2], scr);
      Area(a, b, c) >= MIN_AREA && Covers(a, b, c, px, py)
    ensures SetupOf(verts, t, scr).Some? && InBox(SetupOf(verts, t, scr).value, px, py)
  {
    var a, b, c := CornerOf(verts[t.i0], scr), CornerOf(verts[t.i1], scr), CornerOf(verts[t.i2], scr);
    CoveredInExtent(a, b, c, px, py);
    CenterInBox(Min3(a.sx, b.sx, c.sx), Max3(a.sx, b.sx, c.sx), scr.width, px);
    CenterInBox(Min3(a.sy, b.sy, c.sy), Max3(a.sy, b.sy, c.sy), scr.height, py);
  }
}
