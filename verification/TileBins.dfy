/** Which triangles a tile looks at, and why that is enough. */
module TileBins {
  import opened ShaderAst
  import opened RasterGeometry
  import opened RasterReference

  const TILE: nat := 32

  function Tiles(n: nat): nat {
    (n + TILE - 1) / TILE
  }

  function TileCount(scr: Screen): nat {
    Tiles(scr.width) * Tiles(scr.height)
  }

  /** The tile of a pixel. */
  function TileOf(scr: Screen, px: nat, py: nat): nat {
    (py / TILE) * Tiles(scr.width) + px / TILE
  }

  lemma MulAtLeast(n: nat, d: int)
    ensures d >= 1 ==> n * d >= n
    ensures d <= -1 ==> n * d <= -(n as int)
  {
    if d >= 1 { assert n * (d - 1) >= 0; }
    if d <= -1 { assert n * (-1 - d) >= 0; }
  }

  lemma MulOrder(n: nat, a: nat, b: nat)
    ensures a >= b ==> n * a >= n * b
  {
    if a >= b { assert n * (a - b) >= 0; }
  }

  /** Row and column of a cell from its index in a grid of `n` columns. */
  lemma CellIndex(n: nat, row: nat, col: nat)
    requires col < n
    ensures (row * n + col) / n == row && (row * n + col) % n == col
  {
    var i := row * n + col;
    var q, r := i / n, i % n;
    assert i == n * q + r;
    assert n * (q - row) == n * q - n * row;
    MulAtLeast(n, q - row);
  }

  lemma CellOf(n: nat, m: nat, i: nat)
    requires i < n * m
    ensures n > 0 && i / n < m && i % n < n && i == (i / n) * n + i % n
  {
    var q := i / n;
    assert i == n * q + i % n;
    MulOrder(n, q, m);
  }

  lemma CellBelow(n: nat, m: nat, row: nat, col: nat)
    requires row < m && col < n
    ensures row * n + col < n * m
  {
    assert row * n <= (m - 1) * n;
  }

  /** The columns, or rows, of tiles that a stored range of pixels meets. */
  predicate Meets(lo: int, hi: int, n: nat, k: nat) {
    lo / TILE <= k <= Least(hi / TILE, Tiles(n) - 1)
  }

  predicate Touches(scr: Screen, s: Setup, t: nat)
    requires scr.width > 0
  {
    && Meets(s.minX, s.maxX, scr.width, t % Tiles(scr.width))
    && Meets(s.minY, s.maxY, scr.height, t / Tiles(scr.width))
  }

  /** What the triangles `lo..hi` put into the bin of tile `t`, in order. */
  function BinOf(sc: Scene, t: nat, lo: nat, hi: nat): (b: seq<Setup>)
    requires SceneOk(sc) && lo <= hi <= |sc.tris| && sc.scr.width > 0
    ensures forall i {:trigger SetupOk(sc, b[i])} | 0 <= i < |b| :: SetupOk(sc, b[i])
    decreases hi
  {
    if lo == hi then [] else BinOf(sc, t, lo, hi - 1) + Entry(sc, t, hi - 1)
  }

  /** What triangle `i` puts there. */
  function Entry(sc: Scene, t: nat, i: nat): (b: seq<Setup>)
    requires SceneOk(sc) && i < |sc.tris| && sc.scr.width > 0
    ensures forall i {:trigger SetupOk(sc, b[i])} | 0 <= i < |b| :: SetupOk(sc, b[i])
  {
    var s := SetupOf(sc.verts, sc.tris[i], sc.scr);
    if s.Some? && Touches(sc.scr, s.value, t) then [s.value] else []
  }

  /** A stored triangle is one of the scene, set up. */
  ghost predicate SetupOk(sc: Scene, s: Setup)
    requires SceneOk(sc)
  {
    s.tri in sc.tris && SetupOf(sc.verts, s.tri, sc.scr) == Some(s)
  }

  lemma EmptyBin(sc: Scene, t: nat, at: nat)
    requires SceneOk(sc) && at <= |sc.tris| && sc.scr.width > 0
    ensures BinOf(sc, t, at, at) == []
  {
  }

  lemma NextBin(sc: Scene, t: nat, lo: nat, hi: nat)
    requires SceneOk(sc) && lo < hi <= |sc.tris| && sc.scr.width > 0
    ensures BinOf(sc, t, lo, hi) == BinOf(sc, t, lo, hi - 1) + Entry(sc, t, hi - 1)
  {
  }

  ghost predicate Joined(sc: Scene, t: nat, lo: nat, mid: nat, hi: nat)
    requires SceneOk(sc) && lo <= mid <= hi <= |sc.tris| && sc.scr.width > 0
  {
    BinOf(sc, t, lo, mid) + BinOf(sc, t, mid, hi) == BinOf(sc, t, lo, hi)
  }

  lemma NoneJoined(sc: Scene, t: nat, lo: nat, hi: nat)
    requires SceneOk(sc) && lo <= hi <= |sc.tris| && sc.scr.width > 0
    ensures Joined(sc, t, lo, hi, hi)
  {
    assert BinOf(sc, t, hi, hi) == [];
  }

  lemma NextJoined(sc: Scene, t: nat, lo: nat, mid: nat, hi: nat)
    requires SceneOk(sc) && lo <= mid < hi <= |sc.tris| && sc.scr.width > 0 && Joined(sc, t, lo, mid, hi - 1)
    ensures Joined(sc, t, lo, mid, hi)
  {
    var a, b, last := BinOf(sc, t, lo, mid), BinOf(sc, t, mid, hi - 1), Entry(sc, t, hi - 1);
    assert a + (b + last) == (a + b) + last;
  }

  lemma {:induction false} AllJoined(sc: Scene, t: nat, lo: nat, mid: nat, hi: nat)
    requires SceneOk(sc) && lo <= mid <= hi <= |sc.tris| && sc.scr.width > 0
    ensures Joined(sc, t, lo, mid, hi)
    decreases hi
  {
    if mid < hi {
      AllJoined(sc, t, lo, mid, hi - 1);
      NextJoined(sc, t, lo, mid, hi);
    } else {
      NoneJoined(sc, t, lo, hi);
    }
  }

  /** The bins of consecutive chunks, one after the other, are the bin of all their triangles. */
  lemma BinsJoin(sc: Scene, t: nat, lo: nat, mid: nat, hi: nat)
    requires SceneOk(sc) && lo <= mid <= hi <= |sc.tris| && sc.scr.width > 0
    ensures BinOf(sc, t, lo, mid) + BinOf(sc, t, mid, hi) == BinOf(sc, t, lo, hi)
  {
    AllJoined(sc, t, lo, mid, hi);
  }

  /** The test a tile makes, from the stored setup. */
  function TestSetup(sc: Scene, s: Setup, px: nat, py: nat): Option<Frag>
    requires SceneOk(sc) && s.tri in sc.tris
  {
    var e0, e1 := Edge(s.c1, s.c2, Center(px), Center(py)), Edge(s.c2, s.c0, Center(px), Center(py));
    if e0 < 0.0 || e1 < 0.0 || Edge(s.c0, s.c1, Center(px), Center(py)) < 0.0 then None
    else
      Some(FragmentOf(sc, s.tri, s.c0, s.c1, s.c2, s.invArea, e0, e1, px, py))
  }

  /** Setup loses nothing: culled triangles hit no pixel, the others hit where the stored test says. */
  lemma SetupIsExact(sc: Scene, t: Tri, px: nat, py: nat)
    requires SceneOk(sc) && t in sc.tris && Fits(sc.scr) && px < sc.scr.width && py < sc.scr.height
    ensures
      match SetupOf(sc.verts, t, sc.scr)
      case None => Hit(sc, t, px, py) == None
      case Some(s) => TestSetup(sc, s, px, py) == Hit(sc, t, px, py) && (Hit(sc, t, px, py).Some? ==> InBox(s, px, py))
  {
    if InFront(sc.verts, t) {
      var a, b, c := CornerOf(sc.verts[t.i0], sc.scr), CornerOf(sc.verts[t.i1], sc.scr), CornerOf(sc.verts[t.i2], sc.scr);
      if Area(a, b, c) >= MIN_AREA && Covers(a, b, c, px, py) { CoveredIsKept(sc.verts, t, sc.scr, px, py); }
    }
  }

  /** A pixel in the box of a triangle is in a tile whose bin has it. */
  lemma BoxMeetsTile(sc: Scene, s: Setup, px: nat, py: nat)
    requires SceneOk(sc) && SetupOk(sc, s) && Fits(sc.scr) && px < sc.scr.width && py < sc.scr.height && InBox(s, px, py)
    ensures Touches(sc.scr, s, TileOf(sc.scr, px, py))
  {
    BoxOnScreen(sc.verts, s.tri, sc.scr);
    CellIndex(Tiles(sc.scr.width), py / TILE, px / TILE);
  }

  /** A pixel after the stored triangles `ss`, each tested only inside its box. */
  function BinAfter(sc: Scene, lane: Frag -> Lane, ss: seq<Setup>, px: nat, py: nat, p: Pixel): Pixel
    requires SceneOk(sc) && forall i | 0 <= i < |ss| :: SetupOk(sc, ss[i])
  {
    if ss == [] then p
    else
      var s := ss[|ss| - 1];
      assert SetupOk(sc, s);
      Shade(lane, if InBox(s, px, py) then TestSetup(sc, s, px, py) else None,
            BinAfter(sc, lane, ss[..|ss| - 1], px, py, p))
  }

  /** In its own tile, the bin of the first `n` triangles does to a pixel what those triangles do. */
  lemma {:induction false} BinIsEnough(sc: Scene, lane: Frag -> Lane, px: nat, py: nat, p: Pixel, n: nat)
    requires SceneOk(sc) && Fits(sc.scr) && px < sc.scr.width && py < sc.scr.height && n <= |sc.tris|
    ensures BinAfter(sc, lane, BinOf(sc, TileOf(sc.scr, px, py), 0, n), px, py, p)
         == PixelAfter(sc, lane, sc.tris[..n], px, py, p)
  {
    if n > 0 {
      BinIsEnough(sc, lane, px, py, p, n - 1);
      assert sc.tris[..n][..n - 1] == sc.tris[..n - 1];
      LastInBin(sc, lane, px, py, p, n);
    }
  }

  /** The bin's last step is the last triangle's. */
  lemma LastInBin(sc: Scene, lane: Frag -> Lane, px: nat, py: nat, p: Pixel, n: nat)
    requires SceneOk(sc) && Fits(sc.scr) && px < sc.scr.width && py < sc.scr.height && 0 < n <= |sc.tris|
    ensures
      var tile := TileOf(sc.scr, px, py);
      BinAfter(sc, lane, BinOf(sc, tile, 0, n), px, py, p)
      == Shade(lane, Hit(sc, sc.tris[n - 1], px, py), BinAfter(sc, lane, BinOf(sc, tile, 0, n - 1), px, py, p))
  {
    var t, tile := sc.tris[n - 1], TileOf(sc.scr, px, py);
    SetupIsExact(sc, t, px, py);
    var s, before := SetupOf(sc.verts, t, sc.scr), BinOf(sc, tile, 0, n - 1);
    if s.Some? && Touches(sc.scr, s.value, tile) {
      assert (before + [s.value])[..|before + [s.value]| - 1] == before;
    } else {
      assert before + [] == before;
      if s.Some? && InBox(s.value, px, py) { BoxMeetsTile(sc, s.value, px, py); }
    }
  }
}
