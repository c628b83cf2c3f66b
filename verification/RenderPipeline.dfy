/** The tiled renderer: per-thread setup and binning, tiles in any order, batched fragments, buffers in place. */
module RenderPipeline {
  import opened ShaderAst
  import opened RasterGeometry
  import opened RasterReference
  import opened TileBins
  import opened ThreadBinning

  /** One pixel's colour after the pending fragments of a batch are written. */
  function Settle(lane: Frag -> Lane, base: Rgb, batch: seq<Frag>, i: nat): Rgb {
    if batch == [] then base
    else
      var f := batch[|batch| - 1];
      if f.pidx == i && lane(f).live then Quantize(lane(f).color) else Settle(lane, base, batch[..|batch| - 1], i)
  }

  /** Writing the first pending fragment leaves the rest pending. */
  lemma {:induction false} SettleFirst(lane: Frag -> Lane, base: Rgb, f: Frag, rest: seq<Frag>, i: nat)
    ensures Settle(lane, base, [f] + rest, i)
         == Settle(lane, if f.pidx == i && lane(f).live then Quantize(lane(f).color) else base, rest, i)
    decreases rest
  {
    var batch := [f] + rest;
    if rest == [] {
      assert batch == [f] && batch[..0] == [];
    } else {
      assert batch[..|batch| - 1] == [f] + rest[..|rest| - 1];
      SettleFirst(lane, base, f, rest[..|rest| - 1], i);
    }
  }

  lemma PixelIndex(n: nat, i: nat, px: nat, py: nat)
    requires px < n
    ensures i == py * n + px <==> i % n == px && i / n == py
  {
    CellIndex(n, py, px);
    assert i == (i / n) * n + i % n;
  }

  function Column(scr: Screen, i: nat): nat {
    if scr.width == 0 then 0 else i % scr.width
  }

  function Row(scr: Screen, i: nat): nat {
    if scr.width == 0 then 0 else i / scr.width
  }

  predicate InTile(scr: Screen, t: nat, i: nat) {
    TileOf(scr, Column(scr, i), Row(scr, i)) == t
  }

  function TileLeft(scr: Screen, t: nat): nat {
    if scr.width == 0 then 0 else (t % Tiles(scr.width)) * TILE
  }

  function TileTop(scr: Screen, t: nat): nat {
    if scr.width == 0 then 0 else (t / Tiles(scr.width)) * TILE
  }

  /** The pixels of a tile are those of its square of the screen. */
  lemma TileSquare(scr: Screen, t: nat, x: nat, y: nat)
    requires x < scr.width
    ensures TileOf(scr, x, y) == t <==>
              TileLeft(scr, t) <= x < TileLeft(scr, t) + TILE && TileTop(scr, t) <= y < TileTop(scr, t) + TILE
  {
    var n := Tiles(scr.width);
    PixelIndex(n, t, x / TILE, y / TILE);
    Within(x, t % n);
    Within(y, t / n);
  }

  lemma Within(x: nat, c: nat)
    ensures x / TILE == c <==> c * TILE <= x < c * TILE + TILE
  {
  }

  lemma PixelOnScreen(scr: Screen, i: nat)
    requires i < scr.width * scr.height
    ensures Column(scr, i) < scr.width && Row(scr, i) < scr.height
  {
    CellOf(scr.width, scr.height, i);
  }

  /** Clipping a triangle to a tile draws it in the tile's pixels, and only inside its box. */
  lemma ClippedDraw(sc: Scene, s: Setup, lane: Frag -> Lane, ss: seq<Setup>, inTile: bool, x: nat, y: nat,
                    x0: nat, y0: nat, start: Pixel, q: Pixel)
    requires SceneOk(sc) && SetupOk(sc, s) && (forall j | 0 <= j < |ss| :: SetupOk(sc, ss[j]))
    requires x < sc.scr.width && y < sc.scr.height
    requires inTile <==> x0 <= x < x0 + TILE && y0 <= y < y0 + TILE
    requires q == if inTile then BinAfter(sc, lane, ss, x, y, start) else start
    ensures
      var x1, y1 := Least(x0 + TILE, sc.scr.width), Least(y0 + TILE, sc.scr.height);
      (if Greatest(s.minX, x0) <= x < Least(s.maxX, x1 - 1) + 1 && Greatest(s.minY, y0) <= y < Least(s.maxY, y1 - 1) + 1
       then Shade(lane, TestSetup(sc, s, x, y), q) else q)
      == if inTile then BinAfter(sc, lane, ss + [s], x, y, start) else start
  {
    assert (ss + [s])[..|ss + [s]| - 1] == ss;
  }

  /** Thread `j` has binned the triangles from `cuts[j]` to `cuts[j + 1]`: contiguous chunks in thread order. */
  ghost predicate Binned(sc: Scene, workers: seq<ThreadBins>, cuts: seq<nat>)
    requires SceneOk(sc) && sc.scr.width > 0
    reads workers
  {
    && |cuts| == |workers| + 1 && cuts[0] == 0 && cuts[|workers|] == |sc.tris|
    && (forall j | 0 <= j < |workers| :: cuts[j] <= cuts[j + 1])
    && (forall j | 0 <= j <= |workers| :: cuts[j] <= |sc.tris|)
    && (forall j | 0 <= j < |workers| :: workers[j].Valid() && workers[j].scr == sc.scr)
    && (forall j | 0 <= j < |workers| :: workers[j].Binned(sc, cuts[j], cuts[j + 1]))
  }

  /** The split of `n` triangles into contiguous chunks, one for each thread. */
  predicate Chunks(cuts: seq<nat>, n: nat) {
    && |cuts| > 0 && cuts[0] == 0 && cuts[|cuts| - 1] == n
    && (forall j | 0 <= j < |cuts| - 1 :: cuts[j] <= cuts[j + 1])
    && (forall j | 0 <= j < |cuts| :: cuts[j] <= n)
  }

  /** Any order in which each tile comes up once. */
  predicate Schedule(order: seq<nat>, tiles: nat) {
    && (forall t: nat | t < tiles :: t in order)
    && (forall k | 0 <= k < |order| :: order[k] < tiles)
    && (forall j, k | 0 <= j < k < |order| :: order[j] != order[k])
  }

  function Blank(scr: Screen): Picture {
    seq(scr.width * scr.height, _ => Pixel(1.0, Rgb(0, 0, 0)))
  }

  /** The shared buffers of a draw, and the batch of the worker that is running. */
  class Renderer {
    const scr: Screen
    const sh: Shading
    const zbuf: array<real>
    const rgb: array<int>
    const batch: array<Frag>
    var bn: nat

    constructor (scr: Screen, sh: Shading, blank: Frag)
      requires sh.Packets? ==> sh.width > 0
      ensures this.scr == scr && this.sh == sh && Valid() && bn == 0
      ensures forall i | 0 <= i < zbuf.Length :: zbuf[i] == 1.0
      ensures forall i | 0 <= i < rgb.Length :: rgb[i] == 0
      ensures fresh(zbuf) && fresh(rgb) && fresh(batch)
    {
      this.scr, this.sh := scr, sh;
      zbuf := new real[scr.width * scr.height](_ => 1.0);
      rgb := new int[scr.width * scr.height * 3](_ => 0);
      batch := new Frag[if sh.Packets? then sh.width else 0](_ => blank);
      bn := 0;
    }

    ghost predicate Shape()
      reads this, batch
    {
      && zbuf.Length == scr.width * scr.height && rgb.Length == 3 * zbuf.Length
      && batch.Length == (if sh.Packets? then sh.width else 0) && bn <= batch.Length
      && forall l | 0 <= l < bn :: batch[l].pidx < zbuf.Length
    }

    /** Between fragments the batch is never full. */
    ghost predicate Valid()
      reads this, batch
    {
      Shape() && (sh.Packets? ==> bn < sh.width)
    }

    function RgbAt(i: nat): Rgb
      requires Shape() && i < zbuf.Length
      reads this, rgb, batch
    {
      Rgb(rgb[3 * i], rgb[3 * i + 1], rgb[3 * i + 2])
    }

    /** A pixel once the batch is flushed. */
    ghost function At(lane: Frag -> Lane, i: nat): Pixel
      requires Shape() && i < zbuf.Length
      reads this, zbuf, rgb, batch
    {
      Pixel(zbuf[i], Settle(lane, RgbAt(i), batch[..bn], i))
    }

    method WritePixel(i: nat, c: Color)
      requires Shape() && i < zbuf.Length
      modifies rgb
      ensures RgbAt(i) == Quantize(c)
      ensures forall j: nat | j < zbuf.Length && j != i :: RgbAt(j) == old(RgbAt(j))
    {
      rgb[3 * i] := Byte(c.r);
      rgb[3 * i + 1] := Byte(c.g);
      rgb[3 * i + 2] := Byte(c.b);
    }

    /** Fills the unused lanes with copies of the first fragment. */
    method Pad()
      requires Shape() && sh.Packets? && bn > 0
      modifies batch
      ensures Shape() && batch[..bn] == old(batch[..bn])
    {
      for l := bn to sh.width
        invariant batch[..bn] == old(batch[..bn])
        invariant forall i | 0 <= i < bn :: batch[i] == batch[..bn][i]
      {
        batch[l] := batch[0];
      }
    }

    /** Writes the live lanes of a packet in order. */
    method WriteBack(out: seq<Lane>, ghost lane: Frag -> Lane)
      requires Shape() && bn <= |out| && forall l | 0 <= l < bn :: SameLane(out[l], lane(batch[l]))
      modifies rgb
      ensures forall i: nat | i < zbuf.Length :: RgbAt(i) == Settle(lane, old(RgbAt(i)), batch[..bn], i)
    {
      ghost var pending := batch[..bn];
      for l := 0 to bn
        invariant forall i: nat | i < zbuf.Length ::
                    Settle(lane, RgbAt(i), pending[l..], i) == Settle(lane, old(RgbAt(i)), pending, i)
      {
        var f := batch[l];
        assert pending[l..] == [f] + pending[l + 1..];
        forall i: nat | i < zbuf.Length { SettleFirst(lane, RgbAt(i), f, pending[l + 1..], i); }
        if out[l].live { WritePixel(f.pidx, out[l].color); }
      }
    }

    /** Runs the packet shader on the pending fragments and writes what it gives. */
    method Flush(ghost lane: Frag -> Lane)
      requires Shape() && sh.Packets? && LaneWise(sh, lane)
      modifies `bn, rgb, batch
      ensures Valid() && bn == 0
      ensures forall i: nat | i < zbuf.Length :: At(lane, i) == old(At(lane, i))
    {
      if bn == 0 { return; }
      ghost var pending := batch[..bn];
      Pad();
      assert forall i: nat | i < zbuf.Length :: RgbAt(i) == old(RgbAt(i));
      assert forall l | 0 <= l < bn :: batch[l] == batch[..bn][l];
      var out := sh.run(batch[..]);
      WriteBack(out, lane);
      bn := 0;
      forall i: nat | i < zbuf.Length ensures At(lane, i) == old(At(lane, i)) {
        assert Settle(lane, RgbAt(i), [], i) == RgbAt(i) == Settle(lane, old(RgbAt(i)), pending, i);
        assert batch[..bn] == [] && zbuf[i] == old(zbuf[i]);
      }
    }

    /** Depth test, depth write, then the shader: at once, or when the batch is full. */
    method Fragment(f: Frag, ghost lane: Frag -> Lane)
      requires Valid() && LaneWise(sh, lane) && f.pidx < zbuf.Length
      modifies this, zbuf, rgb, batch
      ensures Valid()
      ensures forall i: nat | i < zbuf.Length ::
                At(lane, i) == if i == f.pidx then Shade(lane, Some(f), old(At(lane, i))) else old(At(lane, i))
    {
      if f.z >= zbuf[f.pidx] { return; }
      zbuf[f.pidx] := f.z;
      if sh.Scalar? {
        WritePixel(f.pidx, sh.invoke(f));
        return;
      }
      ghost var pending := batch[..bn];
      batch[bn] := f;
      bn := bn + 1;
      assert batch[..bn] == pending + [f];
      assert (pending + [f])[..|pending + [f]| - 1] == pending;
      if bn == sh.width { Flush(lane); }
    }

    /** What a triangle owes a pixel that lies in rows `y0..y1` and columns `x0..x1`. */
    ghost predicate Drawn(sc: Scene, s: Setup, lane: Frag -> Lane, i: nat, x0: int, x1: int, y0: int, y1: int,
                          before: Pixel)
      requires Shape() && i < zbuf.Length && SceneOk(sc) && s.tri in sc.tris && scr.width > 0
      reads this, zbuf, rgb, batch
    {
      At(lane, i) ==
      if x0 <= Column(scr, i) < x1 && y0 <= Row(scr, i) < y1
      then Shade(lane, TestSetup(sc, s, Column(scr, i), Row(scr, i)), before)
      else before
    }

    /** One row of a triangle, the edge values stepping from pixel to pixel. */
    method RasterRow(sc: Scene, s: Setup, y: nat, x0: nat, x1: nat, b0: real, b1: real, b2: real, ghost lane: Frag -> Lane)
      requires Valid() && LaneWise(sh, lane) && SceneOk(sc) && sc.scr == scr && s.tri in sc.tris
      requires x0 <= x1 <= scr.width && y < scr.height && scr.width > 0
      requires b0 == Edge(s.c1, s.c2, Center(x0), Center(y)) && b1 == Edge(s.c2, s.c0, Center(x0), Center(y))
      requires b2 == Edge(s.c0, s.c1, Center(x0), Center(y))
      modifies this, zbuf, rgb, batch
      ensures Valid()
      ensures forall i: nat | i < zbuf.Length :: Drawn(sc, s, lane, i, x0, x1, y, y + 1, old(At(lane, i)))
    {
      var e0, e1, e2 := b0, b1, b2;
      for px := x0 to x1
        invariant Valid()
        invariant e0 == Edge(s.c1, s.c2, Center(px), Center(y)) && e1 == Edge(s.c2, s.c0, Center(px), Center(y))
        invariant e2 == Edge(s.c0, s.c1, Center(px), Center(y))
        invariant forall i: nat | i < zbuf.Length :: Drawn(sc, s, lane, i, x0, px, y, y + 1, old(At(lane, i)))
      {
        CellBelow(scr.width, scr.height, y, px);
        forall i: nat | i < zbuf.Length ensures i == y * scr.width + px <==> Column(scr, i) == px && Row(scr, i) == y {
          PixelIndex(scr.width, i, px, y);
        }
        if !(e0 < 0.0 || e1 < 0.0 || e2 < 0.0) {
          Fragment(FragmentOf(sc, s.tri, s.c0, s.c1, s.c2, s.invArea, e0, e1, px, y), lane);
        }
        StepRight(s.c1, s.c2, px, Center(y));
        StepRight(s.c2, s.c0, px, Center(y));
        StepRight(s.c0, s.c1, px, Center(y));
        e0, e1, e2 := e0 + (s.c2.sy - s.c1.sy), e1 + (s.c0.sy - s.c2.sy), e2 + (s.c1.sy - s.c0.sy);
      }
    }

    /** One triangle within the pixels `x0..x1` by `y0..y1` of a tile. */
    method RasterTriangle(sc: Scene, s: Setup, x0: nat, x1: nat, y0: nat, y1: nat, ghost lane: Frag -> Lane)
      requires Valid() && LaneWise(sh, lane) && SceneOk(sc) && sc.scr == scr && s.tri in sc.tris
      requires x1 <= scr.width && y1 <= scr.height && scr.width > 0
      modifies this, zbuf, rgb, batch
      ensures Valid()
      ensures forall i: nat | i < zbuf.Length ::
                Drawn(sc, s, lane, i, Greatest(s.minX, x0), Least(s.maxX, x1 - 1) + 1,
                      Greatest(s.minY, y0), Least(s.maxY, y1 - 1) + 1, old(At(lane, i)))
    {
      var minX, maxX := Greatest(s.minX, x0), Least(s.maxX, x1 - 1);
      var minY, maxY := Greatest(s.minY, y0), Least(s.maxY, y1 - 1);
      if minX > maxX || minY > maxY { return; }
      var base0 := Edge(s.c1, s.c2, Center(minX), Center(minY));
      var base1 := Edge(s.c2, s.c0, Center(minX), Center(minY));
      var base2 := Edge(s.c0, s.c1, Center(minX), Center(minY));
      for py := minY to maxY + 1
        invariant Valid()
        invariant forall i: nat | i < zbuf.Length :: Drawn(sc, s, lane, i, minX, maxX + 1, minY, py, old(At(lane, i)))
      {
        var dy := (py - minY) as real;
        StepDown(s.c1, s.c2, Center(minX), minY, py);
        StepDown(s.c2, s.c0, Center(minX), minY, py);
        StepDown(s.c0, s.c1, Center(minX), minY, py);
        RasterRow(sc, s, py, minX, maxX + 1, base0 + dy * -(s.c2.sx - s.c1.sx), base1 + dy * -(s.c0.sx - s.c2.sx),
                  base2 + dy * -(s.c1.sx - s.c0.sx), lane);
      }
    }

    // ---- tiles ----

    /** The picture is `start`, with the triangles `ss` drawn in tile `t`. */
    ghost predicate TileShows(sc: Scene, lane: Frag -> Lane, t: nat, ss: seq<Setup>, start: Picture)
      requires Shape() && SceneOk(sc) && |start| == zbuf.Length
      requires forall j | 0 <= j < |ss| :: SetupOk(sc, ss[j])
      reads this, zbuf, rgb, batch
    {
      forall i: nat | i < zbuf.Length ::
        At(lane, i) ==
        if InTile(scr, t, i) then BinAfter(sc, lane, ss, Column(scr, i), Row(scr, i), start[i]) else start[i]
    }

    /** One triangle of a tile's bin. */
    method RasterInTile(sc: Scene, s: Setup, t: nat, ghost lane: Frag -> Lane, ghost ss: seq<Setup>, ghost start: Picture)
      requires Valid() && LaneWise(sh, lane) && SceneOk(sc) && sc.scr == scr && SetupOk(sc, s)
      requires |start| == zbuf.Length && scr.width > 0
      requires (forall j | 0 <= j < |ss| :: SetupOk(sc, ss[j])) && TileShows(sc, lane, t, ss, start)
      modifies this, zbuf, rgb, batch
      ensures Valid() && TileShows(sc, lane, t, ss + [s], start)
    {
      var x0, y0 := TileLeft(scr, t), TileTop(scr, t);
      var x1, y1 := Least(x0 + TILE, scr.width), Least(y0 + TILE, scr.height);
      RasterTriangle(sc, s, x0, x1, y0, y1, lane);
      forall i: nat | i < zbuf.Length
        ensures At(lane, i) ==
                if InTile(scr, t, i) then BinAfter(sc, lane, ss + [s], Column(scr, i), Row(scr, i), start[i]) else start[i]
      {
        PixelOnScreen(scr, i);
        TileSquare(scr, t, Column(scr, i), Row(scr, i));
        assert Drawn(sc, s, lane, i, Greatest(s.minX, x0), Least(s.maxX, x1 - 1) + 1,
                     Greatest(s.minY, y0), Least(s.maxY, y1 - 1) + 1, old(At(lane, i)));
        ClippedDraw(sc, s, lane, ss, InTile(scr, t, i), Column(scr, i), Row(scr, i), x0, y0, start[i], old(At(lane, i)));
      }
    }

    /** One thread's bin of a tile. */
    method RasterBin(sc: Scene, w: ThreadBins, t: nat, ghost lane: Frag -> Lane, ghost ss: seq<Setup>, ghost start: Picture)
      requires Valid() && LaneWise(sh, lane) && SceneOk(sc) && sc.scr == scr && w.Valid() && w.scr == scr
      requires t < TileCount(scr) && |start| == zbuf.Length && scr.width > 0
      requires forall j | 0 <= j < |w.Bin(t)| :: SetupOk(sc, w.Bin(t)[j])
      requires (forall j | 0 <= j < |ss| :: SetupOk(sc, ss[j])) && TileShows(sc, lane, t, ss, start)
      modifies this, zbuf, rgb, batch
      ensures Valid() && TileShows(sc, lane, t, ss + w.Bin(t), start)
    {
      ghost var bin := w.Bin(t);
      assert ss + bin[..0] == ss;
      for j := 0 to |w.bins[t]|
        invariant Valid() && w.Valid() && w.Bin(t) == bin && |start| == zbuf.Length
        invariant TileShows(sc, lane, t, ss + bin[..j], start)
      {
        var s := w.setups[w.bins[t][j]];
        assert s == bin[j];
        RasterInTile(sc, s, t, lane, ss + bin[..j], start);
        assert ss + bin[..j] + [s] == ss + bin[..j + 1];
      }
      assert bin[..|bin|] == bin;
    }

    /** One tile: the bins of all threads in thread order, and a flush. */
    method RasterTile(sc: Scene, workers: seq<ThreadBins>, t: nat, ghost cuts: seq<nat>, ghost lane: Frag -> Lane,
                      ghost start: Picture)
      requires Valid() && bn == 0 && LaneWise(sh, lane) && SceneOk(sc) && sc.scr == scr && scr.width > 0
      requires t < TileCount(scr) && |start| == zbuf.Length && Binned(sc, workers, cuts)
      requires forall i: nat | i < zbuf.Length :: At(lane, i) == start[i]
      modifies this, zbuf, rgb, batch
      ensures Valid() && bn == 0 && TileShows(sc, lane, t, BinOf(sc, t, 0, |sc.tris|), start)
    {
      for tid := 0 to |workers|
        invariant Valid() && Binned(sc, workers, cuts)
        invariant TileShows(sc, lane, t, BinOf(sc, t, 0, cuts[tid]), start)
      {
        assert workers[tid].Binned(sc, cuts[tid], cuts[tid + 1]) && workers[tid].BinHolds(sc, t, cuts[tid], cuts[tid + 1]);
        RasterBin(sc, workers[tid], t, lane, BinOf(sc, t, 0, cuts[tid]), start);
        BinsJoin(sc, t, 0, cuts[tid], cuts[tid + 1]);
      }
      if sh.Packets? { Flush(lane); }
    }

    // ---- a draw ----

    /** What the buffers hold. */
    ghost function Shown(): (f: Picture)
      requires Shape()
      reads this, zbuf, rgb, batch
      ensures |f| == zbuf.Length
      ensures forall i | 0 <= i < |f| :: f[i] == Pixel(zbuf[i], RgbAt(i))
    {
      var n, z, c, b := zbuf.Length, zbuf, rgb, batch;
      seq(n, i requires 0 <= i < n && Shape() && n == zbuf.Length reads this, zbuf, rgb, batch => Pixel(zbuf[i], RgbAt(i)))
    }

    method Clear()
      requires Valid() && bn == 0
      modifies zbuf, rgb
      ensures Valid() && Shown() == Blank(scr)
    {
      for i := 0 to rgb.Length
        invariant forall j | 0 <= j < i :: rgb[j] == 0
      {
        rgb[i] := 0;
      }
      for i := 0 to zbuf.Length
        invariant forall j | 0 <= j < i :: zbuf[j] == 1.0
        invariant forall j | 0 <= j < rgb.Length :: rgb[j] == 0
      {
        zbuf[i] := 1.0;
      }
    }

    /** Setup and binning by the threads of a static schedule, chunk `j` to thread `j`. */
    method BinAll(sc: Scene, cuts: seq<nat>) returns (workers: seq<ThreadBins>)
      requires SceneOk(sc) && sc.scr == scr && Fits(scr) && scr.width > 0 && Chunks(cuts, |sc.tris|)
      ensures Binned(sc, workers, cuts)
    {
      workers := [];
      for j := 0 to |cuts| - 1
        invariant |workers| == j && fresh(set w | w in workers)
        invariant forall i | 0 <= i < j :: workers[i].Valid() && workers[i].scr == scr
        invariant forall i | 0 <= i < j :: workers[i].Binned(sc, cuts[i], cuts[i + 1])
      {
        var w := new ThreadBins(scr);
        w.BinChunk(sc, cuts[j], cuts[j + 1]);
        workers := workers + [w];
      }
    }

    /** The loop over the tiles. */
    method DrawTiles(sc: Scene, workers: seq<ThreadBins>, order: seq<nat>, ghost cuts: seq<nat>, ghost lane: Frag -> Lane)
      requires Valid() && bn == 0 && LaneWise(sh, lane) && SceneOk(sc) && sc.scr == scr && Fits(scr) && scr.width > 0
      requires Schedule(order, TileCount(scr)) && Binned(sc, workers, cuts)
      modifies this, zbuf, rgb, batch
      ensures Valid() && bn == 0 && Shown() == BruteForce(sc, lane, sc.tris, old(Shown()))
    {
      ghost var start := Shown();
      for k := 0 to |order|
        invariant Valid() && bn == 0 && Binned(sc, workers, cuts)
        invariant TilesDone(sc, lane, order[..k], start)
      {
        ghost var before := Shown();
        assert forall i: nat | i < zbuf.Length :: At(lane, i) == before[i];
        RasterTile(sc, workers, order[k], cuts, lane, before);
        TileIsDone(sc, lane, order, k, before, start);
      }
      AllTilesDone(sc, lane, order, start);
    }

    /** render_pipeline after vertex shading. Whatever the chunks, the schedule of the tiles and the packet width,
        the buffers end up as the reference draws them. */
    method Draw(sc: Scene, clear: bool, cuts: seq<nat>, order: seq<nat>, ghost lane: Frag -> Lane)
      requires Valid() && bn == 0 && LaneWise(sh, lane) && SceneOk(sc) && sc.scr == scr && Fits(scr)
      requires Chunks(cuts, |sc.tris|) && Schedule(order, TileCount(scr))
      modifies this, zbuf, rgb, batch
      ensures Valid() && bn == 0
      ensures Shown() == BruteForce(sc, lane, sc.tris, if clear then Blank(scr) else old(Shown()))
    {
      if clear { Clear(); }
      if scr.width == 0 { return; }
      var workers := BinAll(sc, cuts);
      DrawTiles(sc, workers, order, cuts, lane);
    }

    /** Two draws of consecutive ranges, the second without clearing, draw the whole scene. */
    method DrawRanges(sc: Scene, m: nat, clear: bool, cuts: seq<nat>, cuts': seq<nat>, order: seq<nat>,
                      order': seq<nat>, ghost lane: Frag -> Lane)
      requires Valid() && bn == 0 && LaneWise(sh, lane) && SceneOk(sc) && sc.scr == scr && Fits(scr) && m <= |sc.tris|
      requires Chunks(cuts, m) && Chunks(cuts', |sc.tris| - m)
      requires Schedule(order, TileCount(scr)) && Schedule(order', TileCount(scr))
      modifies this, zbuf, rgb, batch
      ensures Valid() && bn == 0
      ensures Shown() == BruteForce(sc, lane, sc.tris, if clear then Blank(scr) else old(Shown()))
    {
      RangesCompose(sc, lane, m, if clear then Blank(scr) else Shown());
      Draw(Range(sc, sc.tris[..m]), clear, cuts, order, lane);
      Draw(Range(sc, sc.tris[m..]), false, cuts', order', lane);
    }

    /** The tiles in `done` are finished, the others as at the start. */
    ghost predicate TilesDone(sc: Scene, lane: Frag -> Lane, done: seq<nat>, start: Picture)
      requires Shape() && SceneOk(sc) && |start| == zbuf.Length
      reads this, zbuf, rgb, batch
    {
      forall i: nat | i < zbuf.Length ::
        At(lane, i) ==
        if TileOf(scr, Column(scr, i), Row(scr, i)) in done
        then PixelAfter(sc, lane, sc.tris, Column(scr, i), Row(scr, i), start[i])
        else start[i]
    }

    lemma TileIsDone(sc: Scene, lane: Frag -> Lane, order: seq<nat>, k: nat, before: Picture, start: Picture)
      requires Shape() && SceneOk(sc) && sc.scr == scr && Fits(scr) && scr.width > 0
      requires |before| == |start| == zbuf.Length && k < |order| && Schedule(order, TileCount(scr))
      requires forall i: nat | i < zbuf.Length ::
                 before[i] == if TileOf(scr, Column(scr, i), Row(scr, i)) in order[..k]
                              then PixelAfter(sc, lane, sc.tris, Column(scr, i), Row(scr, i), start[i]) else start[i]
      requires TileShows(sc, lane, order[k], BinOf(sc, order[k], 0, |sc.tris|), before)
      ensures TilesDone(sc, lane, order[..k + 1], start)
    {
      forall i: nat | i < zbuf.Length
        ensures At(lane, i) ==
                if TileOf(scr, Column(scr, i), Row(scr, i)) in order[..k + 1]
                then PixelAfter(sc, lane, sc.tris, Column(scr, i), Row(scr, i), start[i]) else start[i]
      {
        PixelOnScreen(scr, i);
        assert order[..k + 1] == order[..k] + [order[k]];
        BinIsEnough(sc, lane, Column(scr, i), Row(scr, i), start[i], |sc.tris|);
        assert sc.tris[..|sc.tris|] == sc.tris;
      }
    }

    lemma AllTilesDone(sc: Scene, lane: Frag -> Lane, order: seq<nat>, start: Picture)
      requires Shape() && bn == 0 && SceneOk(sc) && sc.scr == scr && scr.width > 0
      requires |start| == zbuf.Length && Schedule(order, TileCount(scr))
      requires TilesDone(sc, lane, order[..|order|], start)
      ensures Shown() == BruteForce(sc, lane, sc.tris, start)
    {
      assert order[..|order|] == order;
      forall i | 0 <= i < zbuf.Length ensures Shown()[i] == BruteForce(sc, lane, sc.tris, start)[i] {
        PixelOnScreen(scr, i);
        BruteForcePixel(sc, lane, sc.tris, start, i);
        CellBelow(Tiles(scr.width), Tiles(scr.height), Row(scr, i) / TILE, Column(scr, i) / TILE);
        assert At(lane, i) == Pixel(zbuf[i], RgbAt(i));
      }
    }
  }
}
