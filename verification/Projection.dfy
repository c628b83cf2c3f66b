/** Where a triangle lands and what its fragments carry, in terms of the clip-space vertices alone. */
module Projection {
  import opened ShaderAst
  import opened RasterGeometry
  import opened RasterReference

  /** Normalised device coordinates: x to the right, y up, the screen from -1 to 1. */
  function Across(v: Vertex): real
    requires v.w > 0.0
  {
    v.x / v.w
  }

  function Up(v: Vertex): real
    requires v.w > 0.0
  {
    v.y / v.w
  }

  /** The centre of a pixel in those coordinates; row 0 is on top. */
  function PixelAcross(scr: Screen, px: nat): real
    requires scr.width > 0
  {
    2.0 * (px as real + 0.5) / scr.width as real - 1.0
  }

  function PixelUp(scr: Screen, py: nat): real
    requires scr.height > 0
  {
    1.0 - 2.0 * (py as real + 0.5) / scr.height as real
  }

  /** Twice the area of a triangle of the plane, positive when the corners run counter-clockwise. */
  function TurnOf(x0: real, y0: real, x1: real, y1: real, x2: real, y2: real): real {
    (x1 - x0) * (y2 - y0) - (y1 - y0) * (x2 - x0)
  }

  function Turn(u: Vertex, v: Vertex, w: Vertex): real
    requires u.w > 0.0 && v.w > 0.0 && w.w > 0.0
  {
    TurnOf(Across(u), Up(u), Across(v), Up(v), Across(w), Up(w))
  }

  /** Weights of the corners in a mean. */
  predicate Shares(l0: real, l1: real, l2: real) {
    l0 >= 0.0 && l1 >= 0.0 && l2 >= 0.0 && l0 + l1 + l2 == 1.0
  }

  function Mean(l0: real, l1: real, l2: real, a: real, b: real, c: real): real {
    l0 * a + l1 * b + l2 * c
  }

  // ---- the viewport ----

  lemma Quotient(x: real, w: real)
    requires w > 0.0
    ensures x * (1.0 / w) == x / w && w * (1.0 / w) == 1.0
  {
  }

  lemma Placed(v: Vertex, scr: Screen)
    requires v.w > 0.0
    ensures
      var k := CornerOf(v, scr);
      && k.sx == (Across(v) + 1.0) * (0.5 * scr.width as real) && k.sy == (1.0 - Up(v)) * (0.5 * scr.height as real)
      && k.iw == 1.0 / v.w
  {
    Quotient(v.x, v.w);
    Quotient(v.y, v.w);
  }

  /** A mean of placed coordinates is the placed mean. */
  lemma MeanScaled(l0: real, l1: real, l2: real, a: real, b: real, c: real, h: real)
    requires l0 + l1 + l2 == 1.0
    ensures Mean(l0, l1, l2, (a + 1.0) * h, (b + 1.0) * h, (c + 1.0) * h) == (Mean(l0, l1, l2, a, b, c) + 1.0) * h
    ensures Mean(l0, l1, l2, (1.0 - a) * h, (1.0 - b) * h, (1.0 - c) * h) == (1.0 - Mean(l0, l1, l2, a, b, c)) * h
  {
    var m := Mean(l0, l1, l2, a, b, c);
    assert m * h == l0 * (a * h) + l1 * (b * h) + l2 * (c * h);
    assert h == l0 * h + l1 * h + l2 * h;
  }

  lemma Scaled(m: real, p: real, n: real)
    requires n > 0.0
    ensures (m + 1.0) * (0.5 * n) == p <==> m == 2.0 * p / n - 1.0
    ensures (1.0 - m) * (0.5 * n) == p <==> m == 1.0 - 2.0 * p / n
  {
    var q := 2.0 * p / n;
    assert q * n == 2.0 * p;
    assert (m + 1.0) * n == 2.0 * ((m + 1.0) * (0.5 * n));
    assert (1.0 - m) * n == 2.0 * ((1.0 - m) * (0.5 * n));
    Cancel(m + 1.0, q, n);
    Cancel(1.0 - m, q, n);
  }

  lemma Cancel(a: real, b: real, n: real)
    requires n > 0.0
    ensures a * n == b * n <==> a == b
  {
    if a * n == b * n { assert (a - b) * n == 0.0; }
  }

  // ---- coverage ----

  /** Edge functions of a mean are its weights, up to the area. */
  lemma EdgesOfMean(a: Corner, b: Corner, c: Corner, l0: real, l1: real, l2: real, x: real, y: real)
    requires l0 + l1 + l2 == 1.0
    requires x == Mean(l0, l1, l2, a.sx, b.sx, c.sx) && y == Mean(l0, l1, l2, a.sy, b.sy, c.sy)
    ensures Edge(b, c, x, y) == l0 * Area(a, b, c) && Edge(c, a, x, y) == l1 * Area(a, b, c)
    ensures Edge(a, b, x, y) == l2 * Area(a, b, c)
  {
    EdgeOfMean(b, c, a, l1, l2, l0, x, y);
    EdgeOfMean(c, a, b, l2, l0, l1, x, y);
    EdgeOfMean(a, b, c, l0, l1, l2, x, y);
    assert Area(b, c, a) == Area(a, b, c) == Area(c, a, b);
  }

  lemma EdgeOfMean(a: Corner, b: Corner, c: Corner, l0: real, l1: real, l2: real, x: real, y: real)
    requires l0 + l1 + l2 == 1.0
    requires x == l0 * a.sx + l1 * b.sx + l2 * c.sx && y == l0 * a.sy + l1 * b.sy + l2 * c.sy
    ensures Edge(a, b, x, y) == l2 * Area(a, b, c)
  {
    var dx, dy := b.sx - a.sx, b.sy - a.sy;
    var ex, ey := c.sx - a.sx, c.sy - a.sy;
    assert l0 == 1.0 - l1 - l2;
    assert l0 * a.sx == a.sx - l1 * a.sx - l2 * a.sx && l0 * a.sy == a.sy - l1 * a.sy - l2 * a.sy;
    assert x - a.sx == l1 * dx + l2 * ex && y - a.sy == l1 * dy + l2 * ey;
    assert (l1 * dx + l2 * ex) * dy == l1 * dx * dy + l2 * ex * dy;
    assert (l1 * dy + l2 * ey) * dx == l1 * dx * dy + l2 * ey * dx;
    assert l2 * (ex * dy - ey * dx) == l2 * ex * dy - l2 * ey * dx;
  }

  lemma CoversByWeights(a: Corner, b: Corner, c: Corner, px: int, py: int) returns (l0: real, l1: real, l2: real)
    requires Covers(a, b, c, px, py) && Area(a, b, c) > 0.0
    ensures Shares(l0, l1, l2)
    ensures Mean(l0, l1, l2, a.sx, b.sx, c.sx) == Center(px) && Mean(l0, l1, l2, a.sy, b.sy, c.sy) == Center(py)
    ensures
      var inv := 1.0 / Area(a, b, c);
      l0 == Edge(b, c, Center(px), Center(py)) * inv && l1 == Edge(c, a, Center(px), Center(py)) * inv && l2 == 1.0 - l0 - l1
  {
    var x, y := Center(px), Center(py);
    var e0, e1, e2, area := Edge(b, c, x, y), Edge(c, a, x, y), Edge(a, b, x, y), Area(a, b, c);
    var inv := 1.0 / area;
    EdgesSumToArea(a, b, c, x, y);
    Weights(e0, e1, e2, area);
    l0, l1, l2 := e0 * inv, e1 * inv, e2 * inv;
    WeightedX(a, b, c, x, y);
    WeightedY(a, b, c, x, y);
    ScaledMean(e0, e1, e2, inv, area, a.sx, b.sx, c.sx, x);
    ScaledMean(e0, e1, e2, inv, area, a.sy, b.sy, c.sy, y);
  }

  lemma ScaledMean(e0: real, e1: real, e2: real, inv: real, area: real, a: real, b: real, c: real, x: real)
    requires e0 * a + e1 * b + e2 * c == area * x && area * inv == 1.0
    ensures Mean(e0 * inv, e1 * inv, e2 * inv, a, b, c) == x
  {
    assert (e0 * a + e1 * b + e2 * c) * inv == e0 * inv * a + e1 * inv * b + e2 * inv * c;
    assert area * x * inv == x * (area * inv);
  }

  lemma WeightsCover(a: Corner, b: Corner, c: Corner, px: int, py: int, l0: real, l1: real, l2: real)
    requires Shares(l0, l1, l2) && Area(a, b, c) > 0.0
    requires Mean(l0, l1, l2, a.sx, b.sx, c.sx) == Center(px) && Mean(l0, l1, l2, a.sy, b.sy, c.sy) == Center(py)
    ensures Covers(a, b, c, px, py)
  {
    EdgesOfMean(a, b, c, l0, l1, l2, Center(px), Center(py));
    NonNegative(l0, Area(a, b, c));
    NonNegative(l1, Area(a, b, c));
    NonNegative(l2, Area(a, b, c));
  }

  /** The signed area on the screen. */
  lemma AreaIsTurn(u: Vertex, v: Vertex, w: Vertex, scr: Screen)
    requires u.w > 0.0 && v.w > 0.0 && w.w > 0.0
    ensures Area(CornerOf(u, scr), CornerOf(v, scr), CornerOf(w, scr)) ==
            Turn(u, v, w) * (0.25 * (scr.width as real * scr.height as real))
  {
    Placed(u, scr);
    Placed(v, scr);
    Placed(w, scr);
    AreaOfPlaced(CornerOf(u, scr), CornerOf(v, scr), CornerOf(w, scr), Across(u), Up(u), Across(v), Up(v), Across(w), Up(w),
                 scr.width as real, scr.height as real);
  }

  lemma FacingIff(u: Vertex, v: Vertex, w: Vertex, scr: Screen)
    requires u.w > 0.0 && v.w > 0.0 && w.w > 0.0
    ensures Area(CornerOf(u, scr), CornerOf(v, scr), CornerOf(w, scr)) >= MIN_AREA <==> FacesViewer(scr, u, v, w)
  {
    AreaIsTurn(u, v, w, scr);
  }

  lemma AreaOfPlaced(a: Corner, b: Corner, c: Corner, x0: real, y0: real, x1: real, y1: real, x2: real, y2: real, m: real, n: real)
    requires a.sx == (x0 + 1.0) * (0.5 * m) && b.sx == (x1 + 1.0) * (0.5 * m) && c.sx == (x2 + 1.0) * (0.5 * m)
    requires a.sy == (1.0 - y0) * (0.5 * n) && b.sy == (1.0 - y1) * (0.5 * n) && c.sy == (1.0 - y2) * (0.5 * n)
    ensures Area(a, b, c) == TurnOf(x0, y0, x1, y1, x2, y2) * (0.25 * (m * n))
  {
    TurnScaled(x0, y0, x1, y1, x2, y2, 0.5 * m, 0.5 * n);
    assert (0.5 * m) * (0.5 * n) == 0.25 * (m * n);
  }

  lemma TurnScaled(x0: real, y0: real, x1: real, y1: real, x2: real, y2: real, h: real, k: real)
    ensures
      EdgeFunc((x0 + 1.0) * h, (1.0 - y0) * k, (x1 + 1.0) * h, (1.0 - y1) * k, (x2 + 1.0) * h, (1.0 - y2) * k) ==
      TurnOf(x0, y0, x1, y1, x2, y2) * (h * k)
  {
    var dx, dy, ex, ey := x1 - x0, y1 - y0, x2 - x0, y2 - y0;
    assert (x2 + 1.0) * h - (x0 + 1.0) * h == ex * h && (x1 + 1.0) * h - (x0 + 1.0) * h == dx * h;
    assert (1.0 - y2) * k - (1.0 - y0) * k == -(ey * k) && (1.0 - y1) * k - (1.0 - y0) * k == -(dy * k);
    assert (ex * h) * -(dy * k) == -(ex * dy * (h * k));
    assert (dx * h) * -(ey * k) == -(dx * ey * (h * k));
  }

  /** The centre of the pixel is that mean of the triangle's corners. */
  ghost predicate CentreIs(scr: Screen, px: nat, py: nat, u: Vertex, v: Vertex, w: Vertex, l0: real, l1: real, l2: real)
    requires u.w > 0.0 && v.w > 0.0 && w.w > 0.0 && scr.width > 0 && scr.height > 0
  {
    && Shares(l0, l1, l2)
    && Mean(l0, l1, l2, Across(u), Across(v), Across(w)) == PixelAcross(scr, px)
    && Mean(l0, l1, l2, Up(u), Up(v), Up(w)) == PixelUp(scr, py)
  }

  lemma ColumnIff(scr: Screen, px: nat, u: Vertex, v: Vertex, w: Vertex, l0: real, l1: real, l2: real)
    requires u.w > 0.0 && v.w > 0.0 && w.w > 0.0 && scr.width > 0 && l0 + l1 + l2 == 1.0
    ensures Mean(l0, l1, l2, CornerOf(u, scr).sx, CornerOf(v, scr).sx, CornerOf(w, scr).sx) == Center(px) <==>
            Mean(l0, l1, l2, Across(u), Across(v), Across(w)) == PixelAcross(scr, px)
  {
    Placed(u, scr);
    Placed(v, scr);
    Placed(w, scr);
    ColumnOfMean(l0, l1, l2, Across(u), Across(v), Across(w), CornerOf(u, scr).sx, CornerOf(v, scr).sx, CornerOf(w, scr).sx,
                 Center(px), scr.width as real);
  }

  lemma RowIff(scr: Screen, py: nat, u: Vertex, v: Vertex, w: Vertex, l0: real, l1: real, l2: real)
    requires u.w > 0.0 && v.w > 0.0 && w.w > 0.0 && scr.height > 0 && l0 + l1 + l2 == 1.0
    ensures Mean(l0, l1, l2, CornerOf(u, scr).sy, CornerOf(v, scr).sy, CornerOf(w, scr).sy) == Center(py) <==>
            Mean(l0, l1, l2, Up(u), Up(v), Up(w)) == PixelUp(scr, py)
  {
    Placed(u, scr);
    Placed(v, scr);
    Placed(w, scr);
    RowOfMean(l0, l1, l2, Up(u), Up(v), Up(w), CornerOf(u, scr).sy, CornerOf(v, scr).sy, CornerOf(w, scr).sy,
              Center(py), scr.height as real);
  }

  lemma ColumnOfMean(l0: real, l1: real, l2: real, x0: real, x1: real, x2: real, s0: real, s1: real, s2: real, p: real, n: real)
    requires l0 + l1 + l2 == 1.0 && n > 0.0
    requires s0 == (x0 + 1.0) * (0.5 * n) && s1 == (x1 + 1.0) * (0.5 * n) && s2 == (x2 + 1.0) * (0.5 * n)
    ensures Mean(l0, l1, l2, s0, s1, s2) == p <==> Mean(l0, l1, l2, x0, x1, x2) == 2.0 * p / n - 1.0
  {
    MeanScaled(l0, l1, l2, x0, x1, x2, 0.5 * n);
    Scaled(Mean(l0, l1, l2, x0, x1, x2), p, n);
  }

  lemma RowOfMean(l0: real, l1: real, l2: real, y0: real, y1: real, y2: real, s0: real, s1: real, s2: real, p: real, n: real)
    requires l0 + l1 + l2 == 1.0 && n > 0.0
    requires s0 == (1.0 - y0) * (0.5 * n) && s1 == (1.0 - y1) * (0.5 * n) && s2 == (1.0 - y2) * (0.5 * n)
    ensures Mean(l0, l1, l2, s0, s1, s2) == p <==> Mean(l0, l1, l2, y0, y1, y2) == 1.0 - 2.0 * p / n
  {
    MeanScaled(l0, l1, l2, y0, y1, y2, 0.5 * n);
    Scaled(Mean(l0, l1, l2, y0, y1, y2), p, n);
  }

  /** A triangle has a fragment at a pixel exactly when it is wholly in front, faces the viewer with an area that is not
      negligible, and holds the centre of the pixel, edges included. */
  lemma HitIff(sc: Scene, t: Tri, px: nat, py: nat)
    requires SceneOk(sc) && t in sc.tris && sc.scr.width > 0 && sc.scr.height > 0
    ensures
      var u, v, w := sc.verts[t.i0], sc.verts[t.i1], sc.verts[t.i2];
      Hit(sc, t, px, py).Some? <==>
        && u.w > 0.0 && v.w > 0.0 && w.w > 0.0
        && FacesViewer(sc.scr, u, v, w) && exists l0, l1, l2 :: CentreIs(sc.scr, px, py, u, v, w, l0, l1, l2)
  {
    var u, v, w := sc.verts[t.i0], sc.verts[t.i1], sc.verts[t.i2];
    if u.w > 0.0 && v.w > 0.0 && w.w > 0.0 {
      FacingIff(u, v, w, sc.scr);
      if FacesViewer(sc.scr, u, v, w) { CoversIff(sc.scr, u, v, w, px, py); }
      HitCases(sc, t, px, py);
    }
  }

  /** Counter-clockwise, and at least a millionth of twice a pixel. */
  predicate FacesViewer(scr: Screen, u: Vertex, v: Vertex, w: Vertex)
    requires u.w > 0.0 && v.w > 0.0 && w.w > 0.0
  {
    Turn(u, v, w) * (0.25 * (scr.width as real * scr.height as real)) >= 0.000001
  }

  lemma HitCases(sc: Scene, t: Tri, px: nat, py: nat)
    requires SceneOk(sc) && t in sc.tris && InFront(sc.verts, t)
    ensures
      var a, b, c := CornerOf(sc.verts[t.i0], sc.scr), CornerOf(sc.verts[t.i1], sc.scr), CornerOf(sc.verts[t.i2], sc.scr);
      Hit(sc, t, px, py).Some? <==> Area(a, b, c) >= MIN_AREA && Covers(a, b, c, px, py)
  {
  }

  lemma CoversIff(scr: Screen, u: Vertex, v: Vertex, w: Vertex, px: nat, py: nat)
    requires u.w > 0.0 && v.w > 0.0 && w.w > 0.0 && scr.width > 0 && scr.height > 0
    requires Area(CornerOf(u, scr), CornerOf(v, scr), CornerOf(w, scr)) > 0.0
    ensures Covers(CornerOf(u, scr), CornerOf(v, scr), CornerOf(w, scr), px, py) <==>
            exists l0, l1, l2 :: CentreIs(scr, px, py, u, v, w, l0, l1, l2)
  {
    var a, b, c := CornerOf(u, scr), CornerOf(v, scr), CornerOf(w, scr);
    if Covers(a, b, c, px, py) {
      var l0, l1, l2 := CoversByWeights(a, b, c, px, py);
      ColumnIff(scr, px, u, v, w, l0, l1, l2);
      RowIff(scr, py, u, v, w, l0, l1, l2);
      assert CentreIs(scr, px, py, u, v, w, l0, l1, l2);
    }
    if l0, l1, l2 :| CentreIs(scr, px, py, u, v, w, l0, l1, l2) {
      ColumnIff(scr, px, u, v, w, l0, l1, l2);
      RowIff(scr, py, u, v, w, l0, l1, l2);
      WeightsCover(a, b, c, px, py, l0, l1, l2);
    }
  }

  // ---- interpolation ----

  /** An attribute that is an affine function of the clip position (x, y, w) at one vertex. */
  predicate Affine(v: Vertex, k: nat, p: real, q: real, r: real, s: real)
    requires k < |v.attrs|
  {
    v.attrs[k] == p * v.x + q * v.y + r * v.w + s
  }

  lemma AttributePart(v: Vertex, scr: Screen, k: nat, p: real, q: real, r: real, s: real)
    requires v.w > 0.0 && k < |v.attrs| && Affine(v, k, p, q, r, s)
    ensures v.attrs[k] * CornerOf(v, scr).iw == p * Across(v) + q * Up(v) + r + s * CornerOf(v, scr).iw
  {
    var iw := 1.0 / v.w;
    Quotient(v.x, v.w);
    Quotient(v.y, v.w);
    assert (p * v.x + q * v.y + r * v.w + s) * iw == p * (v.x * iw) + q * (v.y * iw) + r * (v.w * iw) + s * iw;
  }

  lemma MeanOfSums(l0: real, l1: real, l2: real, p: real, q: real, r: real, s: real, m0: real, m1: real, m2: real,
                   x0: real, y0: real, i0: real, x1: real, y1: real, i1: real, x2: real, y2: real, i2: real)
    requires l0 + l1 + l2 == 1.0
    requires m0 == p * x0 + q * y0 + r + s * i0 && m1 == p * x1 + q * y1 + r + s * i1 && m2 == p * x2 + q * y2 + r + s * i2
    ensures Mean(l0, l1, l2, m0, m1, m2) ==
            p * Mean(l0, l1, l2, x0, x1, x2) + q * Mean(l0, l1, l2, y0, y1, y2) + r + s * Mean(l0, l1, l2, i0, i1, i2)
  {
    Weighted(l0, p, q, r, s, m0, x0, y0, i0);
    Weighted(l1, p, q, r, s, m1, x1, y1, i1);
    Weighted(l2, p, q, r, s, m2, x2, y2, i2);
    MeanTimes(l0, l1, l2, p, x0, x1, x2);
    MeanTimes(l0, l1, l2, q, y0, y1, y2);
    MeanTimes(l0, l1, l2, s, i0, i1, i2);
    assert r == l0 * r + l1 * r + l2 * r;
  }

  lemma Weighted(l: real, p: real, q: real, r: real, s: real, m: real, x: real, y: real, i: real)
    requires m == p * x + q * y + r + s * i
    ensures l * m == l * (p * x) + l * (q * y) + l * r + l * (s * i)
  {
  }

  lemma MeanTimes(l0: real, l1: real, l2: real, p: real, a: real, b: real, c: real)
    ensures Mean(l0, l1, l2, p * a, p * b, p * c) == p * Mean(l0, l1, l2, a, b, c)
  {
    assert p * (l0 * a + l1 * b + l2 * c) == l0 * (p * a) + l1 * (p * b) + l2 * (p * c);
  }

  /** What a fragment carries, times its inverse depth, is the mean of what its corners carry over their depths. */
  function Carried(sc: Scene, t: Tri, k: nat, l0: real, l1: real, l2: real): real
    requires SceneOk(sc) && t in sc.tris && InFront(sc.verts, t) && k < sc.varyings
  {
    var u, v, w := sc.verts[t.i0], sc.verts[t.i1], sc.verts[t.i2];
    Mean(l0, l1, l2, u.attrs[k] * CornerOf(u, sc.scr).iw, v.attrs[k] * CornerOf(v, sc.scr).iw, w.attrs[k] * CornerOf(w, sc.scr).iw)
  }

  function CarriedDepth(sc: Scene, t: Tri, l0: real, l1: real, l2: real): real
    requires SceneOk(sc) && t in sc.tris && InFront(sc.verts, t)
  {
    Mean(l0, l1, l2, CornerOf(sc.verts[t.i0], sc.scr).nzw, CornerOf(sc.verts[t.i1], sc.scr).nzw, CornerOf(sc.verts[t.i2], sc.scr).nzw)
  }

  function CarriedOne(sc: Scene, t: Tri, l0: real, l1: real, l2: real): real
    requires SceneOk(sc) && t in sc.tris && InFront(sc.verts, t)
  {
    Mean(l0, l1, l2, CornerOf(sc.verts[t.i0], sc.scr).iw, CornerOf(sc.verts[t.i1], sc.scr).iw, CornerOf(sc.verts[t.i2], sc.scr).iw)
  }

  ghost predicate VaryingIs(sc: Scene, t: Tri, f: Frag, k: nat, l0: real, l1: real, l2: real)
    requires SceneOk(sc) && t in sc.tris && InFront(sc.verts, t) && k < sc.varyings && |f.vary| == sc.varyings
  {
    f.vary[k] * f.iz == Carried(sc, t, k, l0, l1, l2)
  }

  ghost predicate Blends(sc: Scene, t: Tri, f: Frag, l0: real, l1: real, l2: real)
    requires SceneOk(sc) && t in sc.tris && InFront(sc.verts, t)
  {
    && f.iz == CarriedOne(sc, t, l0, l1, l2) && (2.0 * f.z - 1.0) * f.iz == CarriedDepth(sc, t, l0, l1, l2)
    && |f.vary| == sc.varyings && forall k | 0 <= k < sc.varyings :: VaryingIs(sc, t, f, k, l0, l1, l2)
  }

  lemma FragmentBlends(sc: Scene, t: Tri, inv: real, e0: real, e1: real, px: nat, py: nat, l0: real, l1: real, l2: real)
    requires SceneOk(sc) && t in sc.tris && InFront(sc.verts, t)
    requires l0 == e0 * inv && l1 == e1 * inv && l2 == 1.0 - l0 - l1 && CarriedOne(sc, t, l0, l1, l2) > 0.0
    ensures
      var a, b, c := CornerOf(sc.verts[t.i0], sc.scr), CornerOf(sc.verts[t.i1], sc.scr), CornerOf(sc.verts[t.i2], sc.scr);
      Blends(sc, t, FragmentOf(sc, t, a, b, c, inv, e0, e1, px, py), l0, l1, l2)
  {
    var a, b, c := CornerOf(sc.verts[t.i0], sc.scr), CornerOf(sc.verts[t.i1], sc.scr), CornerOf(sc.verts[t.i2], sc.scr);
    var f := FragmentOf(sc, t, a, b, c, inv, e0, e1, px, py);
    DepthBlends(sc, t, inv, e0, e1, px, py, l0, l1, l2);
    forall k | 0 <= k < sc.varyings ensures VaryingIs(sc, t, f, k, l0, l1, l2) {
      VaryingBlends(sc, t, inv, e0, e1, px, py, k, l0, l1, l2);
    }
  }

  lemma DepthBlends(sc: Scene, t: Tri, inv: real, e0: real, e1: real, px: nat, py: nat, l0: real, l1: real, l2: real)
    requires SceneOk(sc) && t in sc.tris && InFront(sc.verts, t)
    requires l0 == e0 * inv && l1 == e1 * inv && l2 == 1.0 - l0 - l1 && CarriedOne(sc, t, l0, l1, l2) > 0.0
    ensures
      var a, b, c := CornerOf(sc.verts[t.i0], sc.scr), CornerOf(sc.verts[t.i1], sc.scr), CornerOf(sc.verts[t.i2], sc.scr);
      var f := FragmentOf(sc, t, a, b, c, inv, e0, e1, px, py);
      f.iz == CarriedOne(sc, t, l0, l1, l2) && (2.0 * f.z - 1.0) * f.iz == CarriedDepth(sc, t, l0, l1, l2)
  {
    Undone(CarriedDepth(sc, t, l0, l1, l2), CarriedOne(sc, t, l0, l1, l2));
  }

  lemma VaryingBlends(sc: Scene, t: Tri, inv: real, e0: real, e1: real, px: nat, py: nat, k: nat, l0: real, l1: real, l2: real)
    requires SceneOk(sc) && t in sc.tris && InFront(sc.verts, t) && k < sc.varyings
    requires l0 == e0 * inv && l1 == e1 * inv && l2 == 1.0 - l0 - l1 && CarriedOne(sc, t, l0, l1, l2) > 0.0
    ensures
      var a, b, c := CornerOf(sc.verts[t.i0], sc.scr), CornerOf(sc.verts[t.i1], sc.scr), CornerOf(sc.verts[t.i2], sc.scr);
      var f := FragmentOf(sc, t, a, b, c, inv, e0, e1, px, py);
      VaryingIs(sc, t, f, k, l0, l1, l2)
  {
    Undone(Carried(sc, t, k, l0, l1, l2), CarriedOne(sc, t, l0, l1, l2));
  }

  lemma Undone(m: real, d: real)
    requires d > 0.0
    ensures m * Inverse(d) * d == m
  {
    assert Inverse(d) * d == 1.0;
  }

  lemma NoArea(u: Vertex, v: Vertex, w: Vertex, scr: Screen)
    requires u.w > 0.0 && v.w > 0.0 && w.w > 0.0 && FacesViewer(scr, u, v, w)
    ensures scr.width > 0 && scr.height > 0
  {
    assert scr.width == 0 || scr.height == 0 ==> scr.width as real * scr.height as real == 0.0;
  }

  /** What a fragment is made of: the weights of its pixel's centre. */
  lemma FragmentParts(sc: Scene, t: Tri, px: nat, py: nat) returns (l0: real, l1: real, l2: real)
    requires SceneOk(sc) && t in sc.tris && Hit(sc, t, px, py).Some?
    ensures InFront(sc.verts, t) && sc.scr.width > 0 && sc.scr.height > 0
    ensures CentreIs(sc.scr, px, py, sc.verts[t.i0], sc.verts[t.i1], sc.verts[t.i2], l0, l1, l2)
    ensures Blends(sc, t, Hit(sc, t, px, py).value, l0, l1, l2)
  {
    var u, v, w := sc.verts[t.i0], sc.verts[t.i1], sc.verts[t.i2];
    var a, b, c := CornerOf(u, sc.scr), CornerOf(v, sc.scr), CornerOf(w, sc.scr);
    l0, l1, l2 := CoversByWeights(a, b, c, px, py);
    FacingIff(u, v, w, sc.scr);
    NoArea(u, v, w, sc.scr);
    ColumnIff(sc.scr, px, u, v, w, l0, l1, l2);
    RowIff(sc.scr, py, u, v, w, l0, l1, l2);
    HitHasDepth(sc, t, px, py);
    FragmentBlends(sc, t, 1.0 / Area(a, b, c), Edge(b, c, Center(px), Center(py)), Edge(c, a, Center(px), Center(py)), px, py, l0, l1, l2);
  }

  /** The law of interpolation. An attribute that is an affine function of the clip position at the corners is, times the
      inverse depth, that function of the pixel's position on the screen; as every attribute of a triangle with an area is
      such a function, this says what every fragment carries. */
  lemma FragmentCarries(sc: Scene, t: Tri, px: nat, py: nat, k: nat, p: real, q: real, r: real, s: real)
    requires SceneOk(sc) && t in sc.tris && Hit(sc, t, px, py).Some? && k < sc.varyings
    requires Affine(sc.verts[t.i0], k, p, q, r, s) && Affine(sc.verts[t.i1], k, p, q, r, s) && Affine(sc.verts[t.i2], k, p, q, r, s)
    ensures
      var f := Hit(sc, t, px, py).value;
      && sc.scr.width > 0 && sc.scr.height > 0 && f.iz > 0.0 && |f.vary| == sc.varyings
      && f.vary[k] * f.iz == p * PixelAcross(sc.scr, px) + q * PixelUp(sc.scr, py) + r + s * f.iz
  {
    var l0, l1, l2 := FragmentParts(sc, t, px, py);
    HitHasDepth(sc, t, px, py);
    assert VaryingIs(sc, t, Hit(sc, t, px, py).value, k, l0, l1, l2);
    CarriedIs(sc, t, px, py, Hit(sc, t, px, py).value.iz, k, p, q, r, s, l0, l1, l2);
  }

  lemma CarriedIs(sc: Scene, t: Tri, px: nat, py: nat, iz: real, k: nat, p: real, q: real, r: real, s: real,
                  l0: real, l1: real, l2: real)
    requires SceneOk(sc) && t in sc.tris && InFront(sc.verts, t) && k < sc.varyings && sc.scr.width > 0 && sc.scr.height > 0
    requires Affine(sc.verts[t.i0], k, p, q, r, s) && Affine(sc.verts[t.i1], k, p, q, r, s) && Affine(sc.verts[t.i2], k, p, q, r, s)
    requires CentreIs(sc.scr, px, py, sc.verts[t.i0], sc.verts[t.i1], sc.verts[t.i2], l0, l1, l2)
    requires iz == CarriedOne(sc, t, l0, l1, l2)
    ensures Carried(sc, t, k, l0, l1, l2) == p * PixelAcross(sc.scr, px) + q * PixelUp(sc.scr, py) + r + s * iz
  {
    Sums(l0, l1, l2, p, q, r, s, sc.verts[t.i0], sc.verts[t.i1], sc.verts[t.i2], k, sc.scr);
  }

  lemma Sums(l0: real, l1: real, l2: real, p: real, q: real, r: real, s: real, u: Vertex, v: Vertex, w: Vertex, k: nat, scr: Screen)
    requires l0 + l1 + l2 == 1.0 && u.w > 0.0 && v.w > 0.0 && w.w > 0.0 && k < |u.attrs| && k < |v.attrs| && k < |w.attrs|
    requires Affine(u, k, p, q, r, s) && Affine(v, k, p, q, r, s) && Affine(w, k, p, q, r, s)
    ensures
      var a, b, c := CornerOf(u, scr), CornerOf(v, scr), CornerOf(w, scr);
      Mean(l0, l1, l2, u.attrs[k] * a.iw, v.attrs[k] * b.iw, w.attrs[k] * c.iw) ==
      p * Mean(l0, l1, l2, Across(u), Across(v), Across(w)) + q * Mean(l0, l1, l2, Up(u), Up(v), Up(w)) + r
      + s * Mean(l0, l1, l2, a.iw, b.iw, c.iw)
  {
    var a, b, c := CornerOf(u, scr), CornerOf(v, scr), CornerOf(w, scr);
    AttributePart(u, scr, k, p, q, r, s);
    AttributePart(v, scr, k, p, q, r, s);
    AttributePart(w, scr, k, p, q, r, s);
    MeanOfSums(l0, l1, l2, p, q, r, s, u.attrs[k] * a.iw, v.attrs[k] * b.iw, w.attrs[k] * c.iw, Across(u), Up(u), a.iw, Across(v), Up(v), b.iw, Across(w), Up(w), c.iw);
  }

  /** Where a fragment lies. */
  lemma FragmentLies(sc: Scene, t: Tri, px: nat, py: nat)
    requires SceneOk(sc) && t in sc.tris && Hit(sc, t, px, py).Some?
    ensures
      var f := Hit(sc, t, px, py).value;
      f.pidx == py * sc.scr.width + px && f.x == px as real + 0.5 && f.y == sc.scr.height as real - (py as real + 0.5)
  {
  }

  /** Its depth is interpolated like an attribute that is z / w at the corners, from -1 .. 1 to 0 .. 1. */
  lemma FragmentDepth(sc: Scene, t: Tri, px: nat, py: nat, k: nat)
    requires SceneOk(sc) && t in sc.tris && Hit(sc, t, px, py).Some? && k < sc.varyings
    requires CarriesDepth(sc.verts[t.i0], k) && CarriesDepth(sc.verts[t.i1], k) && CarriesDepth(sc.verts[t.i2], k)
    ensures var f := Hit(sc, t, px, py).value; |f.vary| == sc.varyings && f.vary[k] == 2.0 * f.z - 1.0
  {
    var l0, l1, l2 := FragmentParts(sc, t, px, py);
    var f := Hit(sc, t, px, py).value;
    HitHasDepth(sc, t, px, py);
    CarriedDepths(sc, t, k, l0, l1, l2);
    assert VaryingIs(sc, t, f, k, l0, l1, l2);
    Cancel(f.vary[k], 2.0 * f.z - 1.0, f.iz);
  }

  lemma CarriedDepths(sc: Scene, t: Tri, k: nat, l0: real, l1: real, l2: real)
    requires SceneOk(sc) && t in sc.tris && InFront(sc.verts, t) && k < sc.varyings
    requires CarriesDepth(sc.verts[t.i0], k) && CarriesDepth(sc.verts[t.i1], k) && CarriesDepth(sc.verts[t.i2], k)
    ensures Carried(sc, t, k, l0, l1, l2) == CarriedDepth(sc, t, l0, l1, l2)
  {
    DepthPart(sc.verts[t.i0], sc.scr, k);
    DepthPart(sc.verts[t.i1], sc.scr, k);
    DepthPart(sc.verts[t.i2], sc.scr, k);
  }

  predicate CarriesDepth(v: Vertex, k: nat)
    requires k < |v.attrs|
  {
    v.attrs[k] * v.w == v.z
  }

  lemma DepthPart(v: Vertex, scr: Screen, k: nat)
    requires v.w > 0.0 && k < |v.attrs| && CarriesDepth(v, k)
    ensures v.attrs[k] * CornerOf(v, scr).iw == CornerOf(v, scr).nzw
  {
    var iw := 1.0 / v.w;
    assert v.w * iw == 1.0;
    assert v.z * iw * iw == v.attrs[k] * (v.w * iw) * iw;
  }

  /** Whatever an attribute is at the corners of a triangle that has an area, it is such an affine function there. */
  lemma EveryAttributeIsAffine(u: Vertex, v: Vertex, w: Vertex, k: nat) returns (p: real, q: real, r: real)
    requires u.w > 0.0 && v.w > 0.0 && w.w > 0.0 && k < |u.attrs| && k < |v.attrs| && k < |w.attrs| && Turn(u, v, w) != 0.0
    ensures Affine(u, k, p, q, r, 0.0) && Affine(v, k, p, q, r, 0.0) && Affine(w, k, p, q, r, 0.0)
  {
    var b0, b1, b2 := u.attrs[k] / u.w, v.attrs[k] / v.w, w.attrs[k] / w.w;
    p, q, r := Through(Across(u), Up(u), b0, Across(v), Up(v), b1, Across(w), Up(w), b2);
    OnPlane(u, k, p, q, r, b0);
    OnPlane(v, k, p, q, r, b1);
    OnPlane(w, k, p, q, r, b2);
  }

  /** The plane through three points above a triangle. */
  lemma Through(x0: real, y0: real, b0: real, x1: real, y1: real, b1: real, x2: real, y2: real, b2: real)
    returns (p: real, q: real, r: real)
    requires (x1 - x0) * (y2 - y0) - (y1 - y0) * (x2 - x0) != 0.0
    ensures p * x0 + q * y0 + r == b0 && p * x1 + q * y1 + r == b1 && p * x2 + q * y2 + r == b2
  {
    p, q := Plane(x1 - x0, y1 - y0, b1 - b0, x2 - x0, y2 - y0, b2 - b0);
    r := b0 - p * x0 - q * y0;
    Moved(p, q, r, b0, b1, x0, y0, x1, y1);
    Moved(p, q, r, b0, b2, x0, y0, x2, y2);
  }

  lemma Plane(dx: real, dy: real, db: real, ex: real, ey: real, eb: real) returns (p: real, q: real)
    requires dx * ey - dy * ex != 0.0
    ensures p * dx + q * dy == db && p * ex + q * ey == eb
  {
    var turn := dx * ey - dy * ex;
    var inv := 1.0 / turn;
    assert turn * inv == 1.0;
    p, q := (db * ey - eb * dy) * inv, (dx * eb - ex * db) * inv;
    assert (db * ey - eb * dy) * dx + (dx * eb - ex * db) * dy == db * turn;
    assert (db * ey - eb * dy) * ex + (dx * eb - ex * db) * ey == eb * turn;
    assert p * dx + q * dy == ((db * ey - eb * dy) * dx + (dx * eb - ex * db) * dy) * inv;
    assert p * ex + q * ey == ((db * ey - eb * dy) * ex + (dx * eb - ex * db) * ey) * inv;
    assert db * turn * inv == db * (turn * inv) && eb * turn * inv == eb * (turn * inv);
  }

  lemma Moved(p: real, q: real, r: real, b0: real, b1: real, x0: real, y0: real, x1: real, y1: real)
    requires r == b0 - p * x0 - q * y0 && p * (x1 - x0) + q * (y1 - y0) == b1 - b0
    ensures p * x1 + q * y1 + r == b1
  {
    assert p * (x1 - x0) == p * x1 - p * x0 && q * (y1 - y0) == q * y1 - q * y0;
  }

  lemma OnPlane(v: Vertex, k: nat, p: real, q: real, r: real, b: real)
    requires v.w > 0.0 && k < |v.attrs| && b == v.attrs[k] / v.w && p * Across(v) + q * Up(v) + r == b
    ensures Affine(v, k, p, q, r, 0.0)
  {
    assert b * v.w == v.attrs[k] && Across(v) * v.w == v.x && Up(v) * v.w == v.y;
    assert (p * Across(v) + q * Up(v) + r) * v.w == p * (Across(v) * v.w) + q * (Up(v) * v.w) + r * v.w;
  }
}
