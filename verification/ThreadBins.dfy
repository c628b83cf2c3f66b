/** One thread's share of setup and binning: vectors that grow as its triangles come by. */
module ThreadBinning {
  import opened ShaderAst
  import opened RasterGeometry
  import opened RasterReference
  import opened TileBins

  function Resolve(setups: seq<Setup>, index: seq<nat>): (b: seq<Setup>)
    requires forall j | 0 <= j < |index| :: index[j] < |setups|
    ensures |b| == |index|
  {
    seq(|index|, j requires 0 <= j < |index| => setups[index[j]])
  }

  class ThreadBins {
    const scr: Screen
    var setups: seq<Setup>
    var bins: seq<seq<nat>>

    constructor (scr: Screen)
      ensures this.scr == scr && Valid() && setups == []
      ensures forall t: nat | t < |bins| :: bins[t] == []
    {
      this.scr := scr;
      setups, bins := [], seq(TileCount(scr), _ => []);
    }

    ghost predicate Valid()
      reads this
    {
      |bins| == TileCount(scr) && forall t, j | 0 <= t < |bins| && 0 <= j < |bins[t]| :: bins[t][j] < |setups|
    }

    /** The triangles in the bin of tile `t`. */
    function Bin(t: nat): seq<Setup>
      requires Valid() && t < |bins|
      reads this
    {
      Resolve(setups, bins[t])
    }

    /** Adds an index to the bins of one row of tiles. */
    method PushRow(row: nat, lo: nat, hi: nat, sidx: nat)
      requires |bins| == TileCount(scr) && row < Tiles(scr.height) && hi <= Tiles(scr.width)
      modifies `bins
      ensures |bins| == TileCount(scr)
      ensures forall t: nat | t < |bins| ::
                bins[t] == old(bins[t]) +
                           if t / Tiles(scr.width) == row && lo <= t % Tiles(scr.width) < hi then [sidx] else []
    {
      var n := Tiles(scr.width);
      if lo >= hi { return; }
      for tx := lo to hi
        invariant |bins| == TileCount(scr)
        invariant forall t: nat | t < |bins| ::
                    bins[t] == old(bins[t]) + if t / n == row && lo <= t % n < tx then [sidx] else []
      {
        CellBelow(n, Tiles(scr.height), row, tx);
        forall t: nat | t < |bins| ensures t == row * n + tx <==> t / n == row && t % n == tx {
          CellIndex(n, row, tx);
          assert t == (t / n) * n + t % n;
        }
        bins := bins[row * n + tx := bins[row * n + tx] + [sidx]];
      }
    }

    /** Stores a triangle, and its index in the bin of every tile its box meets. */
    method Push(s: Setup)
      requires Valid() && scr.width > 0
      requires 0 <= s.minX && 0 <= s.minY
      modifies this
      ensures Valid()
      ensures forall t: nat | t < |bins| :: Bin(t) == old(Bin(t)) + if Touches(scr, s, t) then [s] else []
    {
      var n, sidx := Tiles(scr.width), |setups|;
      var maxX, maxY := Least(s.maxX / TILE, n - 1), Least(s.maxY / TILE, Tiles(scr.height) - 1);
      ghost var before := bins;
      for ty := s.minY / TILE to Greatest(s.minY / TILE, maxY + 1)
        invariant |bins| == |before| && setups == old(setups)
        invariant forall t: nat | t < |bins| ::
                    bins[t] == before[t] + if Meets(s.minX, s.maxX, scr.width, t % n) && s.minY / TILE <= t / n < ty
                                           then [sidx] else []
      {
        if maxX >= 0 { PushRow(ty, s.minX / TILE, maxX + 1, sidx); }
      }
      setups := setups + [s];
      forall t: nat | t < |bins| ensures bins[t] == before[t] + if Touches(scr, s, t) then [sidx] else [] {}
    }

    /** The bins hold what the triangles `lo..hi` put there. */
    ghost predicate Binned(sc: Scene, lo: nat, hi: nat)
      requires Valid() && SceneOk(sc) && scr.width > 0 && sc.scr == scr && lo <= hi <= |sc.tris|
      reads this
    {
      forall t: nat | t < |bins| :: BinHolds(sc, t, lo, hi)
    }

    ghost predicate BinHolds(sc: Scene, t: nat, lo: nat, hi: nat)
      requires Valid() && SceneOk(sc) && scr.width > 0 && sc.scr == scr && lo <= hi <= |sc.tris| && t < |bins|
      reads this
    {
      Bin(t) == BinOf(sc, t, lo, hi)
    }

    lemma NothingBinned(sc: Scene, lo: nat)
      requires Valid() && SceneOk(sc) && scr.width > 0 && sc.scr == scr && lo <= |sc.tris|
      requires forall t: nat | t < |bins| :: bins[t] == []
      ensures Binned(sc, lo, lo)
    {
      forall t: nat | t < |bins| ensures BinHolds(sc, t, lo, lo) { EmptyBin(sc, t, lo); }
    }

    /** One triangle: culled, or set up and stored. */
    method BinTriangle(sc: Scene, ghost lo: nat, i: nat)
      requires Valid() && SceneOk(sc) && sc.scr == scr && Fits(scr) && scr.width > 0 && lo <= i < |sc.tris|
      requires Binned(sc, lo, i)
      modifies this
      ensures Valid() && Binned(sc, lo, i + 1)
    {
      var s := SetupOf(sc.verts, sc.tris[i], scr);
      if s.Some? {
        BoxOnScreen(sc.verts, sc.tris[i], scr);
        Push(s.value);
      }
      ghost var next := i + 1;
      forall t: nat | t < |bins| ensures BinHolds(sc, t, lo, next) {
        assert old(BinHolds(sc, t, lo, i));
        assert Bin(t) == old(Bin(t)) + Entry(sc, t, i);
        NextBin(sc, t, lo, next);
      }
    }

    /** The thread's chunk of the triangle loop. */
    method BinChunk(sc: Scene, lo: nat, hi: nat)
      requires Valid() && setups == [] && forall t: nat | t < |bins| :: bins[t] == []
      requires SceneOk(sc) && sc.scr == scr && Fits(scr) && scr.width > 0 && lo <= hi <= |sc.tris|
      modifies this
      ensures Valid() && Binned(sc, lo, hi)
    {
      NothingBinned(sc, lo);
      for i := lo to hi
        invariant Valid() && Binned(sc, lo, i)
      {
        BinTriangle(sc, lo, i);
      }
    }
  }
}
