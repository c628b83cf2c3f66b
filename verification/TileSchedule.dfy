/** Tile workers as interleaved steps on shared buffers: every complete interleaving draws the same picture. */
module TileSchedule {
  import opened ShaderAst
  import opened RasterGeometry
  import opened RasterReference
  import opened TileBins
  import opened RenderPipeline

  /** A worker on one tile: the fragments its triangles still produce, in order, and its pending batch. */
  datatype Task = Task(todo: seq<Frag>, batch: seq<Frag>)

  /** The shared buffers and all tasks, task `t` on tile `t`. */
  datatype System = System(pic: Picture, tasks: seq<Task>)

  function Capacity(sh: Shading): nat {
    if sh.Packets? then sh.width else 1
  }

  predicate Finished(t: Task) {
    t.todo == [] && t.batch == []
  }

  /** One step of task `t`: write back a full or last batch, or else test the next fragment. */
  function Step(sh: Shading, lane: Frag -> Lane, s: System, t: nat): (s': System)
    requires Sound(sh, s) && t < |s.tasks|
    ensures |s'.pic| == |s.pic| && |s'.tasks| == |s.tasks|
  {
    var k := s.tasks[t];
    if Finished(k) then s
    else if k.todo == [] || |k.batch| == Capacity(sh) then
      var pic := seq(|s.pic|, i requires 0 <= i < |s.pic| => Pixel(s.pic[i].z, Settle(lane, s.pic[i].rgb, k.batch, i)));
      System(pic, s.tasks[t := Task(k.todo, [])])
    else
      var f := k.todo[0];
      if f.z >= s.pic[f.pidx].z then s.(tasks := s.tasks[t := Task(k.todo[1..], k.batch)])
      else System(s.pic[f.pidx := s.pic[f.pidx].(z := f.z)], s.tasks[t := Task(k.todo[1..], k.batch + [f])])
  }

  ghost predicate Sound(sh: Shading, s: System) {
    && Capacity(sh) > 0
    && forall t | 0 <= t < |s.tasks| ::
         |s.tasks[t].batch| <= Capacity(sh) && OnPicture(s.tasks[t].todo, |s.pic|) && OnPicture(s.tasks[t].batch, |s.pic|)
  }

  ghost predicate OnPicture(fs: seq<Frag>, n: nat) {
    forall j | 0 <= j < |fs| :: fs[j].pidx < n
  }

  /** No two tiles share a pixel. */
  ghost predicate Apart(owner: nat -> nat, s: System) {
    forall t | 0 <= t < |s.tasks| :: Owns(owner, t, s.tasks[t].todo) && Owns(owner, t, s.tasks[t].batch)
  }

  ghost predicate Owns(owner: nat -> nat, t: nat, fs: seq<Frag>) {
    forall j | 0 <= j < |fs| :: owner(fs[j].pidx) == t
  }

  /** A pixel after the fragments `fs` one by one. */
  function FragsAfter(lane: Frag -> Lane, fs: seq<Frag>, i: nat, p: Pixel): Pixel {
    if fs == [] then p
    else FragsAfter(lane, fs[1..], i, if fs[0].pidx == i then Shade(lane, Some(fs[0]), p) else p)
  }

  lemma {:induction false} FragsAfterJoin(lane: Frag -> Lane, a: seq<Frag>, b: seq<Frag>, i: nat, p: Pixel)
    ensures FragsAfter(lane, a + b, i, p) == FragsAfter(lane, b, i, FragsAfter(lane, a, i, p))
    decreases a
  {
    if a == [] {
      assert a + b == b;
    } else {
      assert (a + b)[1..] == a[1..] + b;
      FragsAfterJoin(lane, a[1..], b, i, if a[0].pidx == i then Shade(lane, Some(a[0]), p) else p);
    }
  }

  /** What pixel `i` will be: its depth, its colour with its tile's batch written, and then the rest of its tile. */
  function Destiny(lane: Frag -> Lane, owner: nat -> nat, s: System, i: nat): Pixel
    requires i < |s.pic| && owner(i) < |s.tasks|
  {
    var k := s.tasks[owner(i)];
    FragsAfter(lane, k.todo, i, Pixel(s.pic[i].z, Settle(lane, s.pic[i].rgb, k.batch, i)))
  }

  lemma {:induction false} ForeignBatch(lane: Frag -> Lane, base: Rgb, batch: seq<Frag>, i: nat)
    requires forall j | 0 <= j < |batch| :: batch[j].pidx != i
    ensures Settle(lane, base, batch, i) == base
  {
    if batch != [] { ForeignBatch(lane, base, batch[..|batch| - 1], i); }
  }

  lemma StepSound(sh: Shading, lane: Frag -> Lane, owner: nat -> nat, s: System, t: nat)
    requires Sound(sh, s) && t < |s.tasks|
    ensures Sound(sh, Step(sh, lane, s, t)) && (Apart(owner, s) ==> Apart(owner, Step(sh, lane, s, t)))
  {
  }

  /** Writing a batch back: its own tile's pixels lose what was pending, the others have nothing there. */
  lemma WriteKeepsDestiny(lane: Frag -> Lane, owner: nat -> nat, p: Pixel, batch: seq<Frag>, t: nat, k: Task, i: nat)
    requires Owns(owner, t, batch) && (owner(i) == t ==> k.batch == batch)
    ensures
      var q := Pixel(p.z, Settle(lane, p.rgb, batch, i));
      var kept := if owner(i) == t then [] else k.batch;
      Pixel(q.z, Settle(lane, q.rgb, kept, i)) == Pixel(p.z, Settle(lane, p.rgb, k.batch, i))
  {
    if owner(i) != t { ForeignBatch(lane, p.rgb, batch, i); }
  }

  /** Testing a fragment: its pixel takes one fragment from the future into the present. */
  lemma TestKeepsDestiny(lane: Frag -> Lane, f: Frag, rest: seq<Frag>, batch: seq<Frag>, p: Pixel, i: nat)
    ensures
      var pass := f.z < p.z;
      var now := Pixel(p.z, Settle(lane, p.rgb, batch, i));
      var z, b := if pass && f.pidx == i then f.z else p.z, if pass then batch + [f] else batch;
      (f.pidx == i || !pass ==>
        FragsAfter(lane, rest, i, Pixel(z, Settle(lane, p.rgb, b, i))) == FragsAfter(lane, [f] + rest, i, now))
  {
    assert ([f] + rest)[1..] == rest && (batch + [f])[..|batch + [f]| - 1] == batch;
  }

  /** No step of any worker changes the destiny of any pixel. */
  lemma StepKeepsDestiny(sh: Shading, lane: Frag -> Lane, owner: nat -> nat, s: System, t: nat, i: nat)
    requires Sound(sh, s) && Apart(owner, s) && t < |s.tasks| && i < |s.pic| && owner(i) < |s.tasks|
    ensures Destiny(lane, owner, Step(sh, lane, s, t), i) == Destiny(lane, owner, s, i)
  {
    var k, u := s.tasks[t], owner(i);
    if !Finished(k) {
      if k.todo == [] || |k.batch| == Capacity(sh) {
        WriteKeepsDestiny(lane, owner, s.pic[i], k.batch, t, s.tasks[u], i);
      } else {
        var f := k.todo[0];
        assert k.todo == [f] + k.todo[1..];
        assert owner(f.pidx) == t;
        TestKeepsDestiny(lane, f, k.todo[1..], k.batch, s.pic[i], i);
      }
    }
  }

  /** Runs the steps of a schedule, given as the task that moves at each point. */
  function Play(sh: Shading, lane: Frag -> Lane, s: System, schedule: seq<nat>): System
    requires Sound(sh, s) && forall j | 0 <= j < |schedule| :: schedule[j] < |s.tasks|
    decreases schedule
  {
    if schedule == [] then s
    else
      StepSound(sh, lane, _ => 0, s, schedule[0]);
      Play(sh, lane, Step(sh, lane, s, schedule[0]), schedule[1..])
  }

  lemma {:induction false} PlayKeepsDestiny(sh: Shading, lane: Frag -> Lane, owner: nat -> nat, s: System,
                                            schedule: seq<nat>, i: nat)
    requires Sound(sh, s) && Apart(owner, s) && forall j | 0 <= j < |schedule| :: schedule[j] < |s.tasks|
    requires i < |s.pic| && owner(i) < |s.tasks|
    ensures
      var z := Play(sh, lane, s, schedule);
      && |z.pic| == |s.pic| && |z.tasks| == |s.tasks| && Destiny(lane, owner, z, i) == Destiny(lane, owner, s, i)
    decreases schedule
  {
    if schedule != [] {
      StepKeepsDestiny(sh, lane, owner, s, schedule[0], i);
      StepSound(sh, lane, owner, s, schedule[0]);
      PlayKeepsDestiny(sh, lane, owner, Step(sh, lane, s, schedule[0]), schedule[1..], i);
    }
  }

  /** In packet mode no pixel changes its colour before a packet is full or its tile is through; and then nothing is left
      pending. */
  lemma ColoursWaitForThePacket(sh: Shading, lane: Frag -> Lane, s: System, t: nat)
    requires Sound(sh, s) && t < |s.tasks| && sh.Packets? && !Finished(s.tasks[t])
    ensures
      var k, s' := s.tasks[t], Step(sh, lane, s, t);
      if k.todo == [] || |k.batch| == sh.width then s'.tasks[t] == Task(k.todo, [])
      else forall i | 0 <= i < |s.pic| :: s'.pic[i].rgb == s.pic[i].rgb
  {
  }

  /** The steps a task has left to make, at most. */
  function Work(k: Task): nat {
    2 * |k.todo| + |k.batch|
  }

  /** A worker that is not finished gets closer to it with each of its steps, whatever the others do. */
  lemma StepMakesProgress(sh: Shading, lane: Frag -> Lane, s: System, t: nat, u: nat)
    requires Sound(sh, s) && t < |s.tasks| && u < |s.tasks| && !Finished(s.tasks[t])
    ensures
      var s' := Step(sh, lane, s, t);
      Work(s'.tasks[t]) < Work(s.tasks[t]) && (u != t ==> s'.tasks[u] == s.tasks[u])
  {
  }

  /** A worker that gets as many turns as it has work is finished at the end, whoever moves in between. */
  lemma {:induction false} TurnsFinish(sh: Shading, lane: Frag -> Lane, s: System, schedule: seq<nat>, t: nat)
    requires Sound(sh, s) && (forall j | 0 <= j < |schedule| :: schedule[j] < |s.tasks|) && t < |s.tasks|
    requires multiset(schedule)[t] >= Work(s.tasks[t])
    ensures var z := Play(sh, lane, s, schedule); |z.tasks| == |s.tasks| && Finished(z.tasks[t])
    decreases schedule
  {
    if schedule != [] {
      var u := schedule[0];
      assert schedule == [u] + schedule[1..];
      StepSound(sh, lane, _ => 0, s, u);
      if !Finished(s.tasks[u]) { StepMakesProgress(sh, lane, s, u, t); }
      TurnsFinish(sh, lane, Step(sh, lane, s, u), schedule[1..], t);
    }
  }

  lemma AllFinish(sh: Shading, lane: Frag -> Lane, s: System, schedule: seq<nat>)
    requires Sound(sh, s) && forall j | 0 <= j < |schedule| :: schedule[j] < |s.tasks|
    requires forall t: nat | t < |s.tasks| :: multiset(schedule)[t] >= Work(s.tasks[t])
    ensures var z := Play(sh, lane, s, schedule); forall t | 0 <= t < |z.tasks| :: Finished(z.tasks[t])
  {
    PlayKeepsSize(sh, lane, s, schedule);
    forall t: nat | t < |s.tasks| ensures Finished(Play(sh, lane, s, schedule).tasks[t]) {
      TurnsFinish(sh, lane, s, schedule, t);
    }
  }

  // ---- the fragments of a tile ----

  function RowFrags(sc: Scene, s: Setup, y: nat, x0: nat, x1: nat): seq<Frag>
    requires SceneOk(sc) && s.tri in sc.tris
  {
    if x1 <= x0 then []
    else
      var f := TestSetup(sc, s, x1 - 1, y);
      RowFrags(sc, s, y, x0, x1 - 1) + if f.Some? then [f.value] else []
  }

  function BoxFrags(sc: Scene, s: Setup, x0: nat, x1: nat, y0: nat, y1: nat): seq<Frag>
    requires SceneOk(sc) && s.tri in sc.tris
  {
    if y1 <= y0 then [] else BoxFrags(sc, s, x0, x1, y0, y1 - 1) + RowFrags(sc, s, y1 - 1, x0, x1)
  }

  /** The part of the box of `s` in tile `t`: columns from, columns to, rows from, rows to (exclusive). */
  function Clip(scr: Screen, s: Setup, t: nat): (nat, nat, nat, nat) {
    var x0, y0 := TileLeft(scr, t), TileTop(scr, t);
    (Greatest(s.minX, x0), Greatest(0, Least(s.maxX, Least(x0 + TILE, scr.width) - 1) + 1),
     Greatest(s.minY, y0), Greatest(0, Least(s.maxY, Least(y0 + TILE, scr.height) - 1) + 1))
  }

  function TriangleFrags(sc: Scene, t: nat, s: Setup): seq<Frag>
    requires SceneOk(sc) && s.tri in sc.tris
  {
    var c := Clip(sc.scr, s, t);
    BoxFrags(sc, s, c.0, c.1, c.2, c.3)
  }

  /** The fragments of the stored triangles `ss` in tile `t`, in the order the tile loop meets them. */
  function TileFrags(sc: Scene, t: nat, ss: seq<Setup>): seq<Frag>
    requires SceneOk(sc) && forall j | 0 <= j < |ss| :: SetupOk(sc, ss[j])
  {
    if ss == [] then []
    else
      assert SetupOk(sc, ss[|ss| - 1]);
      TileFrags(sc, t, ss[..|ss| - 1]) + TriangleFrags(sc, t, ss[|ss| - 1])
  }

  lemma {:induction false} RowAfter(sc: Scene, lane: Frag -> Lane, s: Setup, y: nat, x0: nat, x1: nat, i: nat, p: Pixel)
    requires SceneOk(sc) && s.tri in sc.tris && x1 <= sc.scr.width && sc.scr.width > 0
    ensures FragsAfter(lane, RowFrags(sc, s, y, x0, x1), i, p)
         == if Row(sc.scr, i) == y && x0 <= Column(sc.scr, i) < x1
            then Shade(lane, TestSetup(sc, s, Column(sc.scr, i), y), p) else p
    decreases x1
  {
    if x0 < x1 {
      var f := TestSetup(sc, s, x1 - 1, y);
      RowAfter(sc, lane, s, y, x0, x1 - 1, i, p);
      PixelIndex(sc.scr.width, i, x1 - 1, y);
      var last := if f.Some? then [f.value] else [];
      FragsAfterJoin(lane, RowFrags(sc, s, y, x0, x1 - 1), last, i, p);
      if f.Some? { assert [f.value][1..] == []; }
    }
  }

  lemma {:induction false} BoxAfter(sc: Scene, lane: Frag -> Lane, s: Setup, x0: nat, x1: nat, y0: nat, y1: nat, i: nat, p: Pixel)
    requires SceneOk(sc) && s.tri in sc.tris && x1 <= sc.scr.width && sc.scr.width > 0
    ensures FragsAfter(lane, BoxFrags(sc, s, x0, x1, y0, y1), i, p)
         == if y0 <= Row(sc.scr, i) < y1 && x0 <= Column(sc.scr, i) < x1
            then Shade(lane, TestSetup(sc, s, Column(sc.scr, i), Row(sc.scr, i)), p) else p
    decreases y1
  {
    if y0 < y1 {
      BoxAfter(sc, lane, s, x0, x1, y0, y1 - 1, i, p);
      var before := FragsAfter(lane, BoxFrags(sc, s, x0, x1, y0, y1 - 1), i, p);
      RowAfter(sc, lane, s, y1 - 1, x0, x1, i, before);
      FragsAfterJoin(lane, BoxFrags(sc, s, x0, x1, y0, y1 - 1), RowFrags(sc, s, y1 - 1, x0, x1), i, p);
    }
  }

  /** A tile's fragments do to a pixel of the tile what its bin does. */
  lemma {:induction false} TileAfter(sc: Scene, lane: Frag -> Lane, t: nat, ss: seq<Setup>, i: nat, p: Pixel)
    requires SceneOk(sc) && forall j | 0 <= j < |ss| :: SetupOk(sc, ss[j])
    requires i < sc.scr.width * sc.scr.height && InTile(sc.scr, t, i)
    ensures FragsAfter(lane, TileFrags(sc, t, ss), i, p) == BinAfter(sc, lane, ss, Column(sc.scr, i), Row(sc.scr, i), p)
  {
    if ss != [] {
      var rest, s := ss[..|ss| - 1], ss[|ss| - 1];
      assert SetupOk(sc, s);
      TileAfter(sc, lane, t, rest, i, p);
      var before := FragsAfter(lane, TileFrags(sc, t, rest), i, p);
      FragsAfterJoin(lane, TileFrags(sc, t, rest), TriangleFrags(sc, t, s), i, p);
      PixelOnScreen(sc.scr, i);
      TileSquare(sc.scr, t, Column(sc.scr, i), Row(sc.scr, i));
      var c := Clip(sc.scr, s, t);
      BoxAfter(sc, lane, s, c.0, c.1, c.2, c.3, i, before);
    }
  }

  /** Every fragment of the list lies in tile `t` of the screen. */
  ghost predicate InsideTile(sc: Scene, t: nat, fs: seq<Frag>) {
    forall j | 0 <= j < |fs| ::
      fs[j].pidx < sc.scr.width * sc.scr.height && InTile(sc.scr, t, fs[j].pidx)
  }

  lemma {:induction false} RowInside(sc: Scene, t: nat, s: Setup, y: nat, x0: nat, x1: nat)
    requires SceneOk(sc) && s.tri in sc.tris && y < sc.scr.height && x1 <= sc.scr.width
    requires TileLeft(sc.scr, t) <= x0 && x1 <= TileLeft(sc.scr, t) + TILE
    requires TileTop(sc.scr, t) <= y < TileTop(sc.scr, t) + TILE
    ensures InsideTile(sc, t, RowFrags(sc, s, y, x0, x1))
    decreases x1
  {
    if x0 < x1 {
      RowInside(sc, t, s, y, x0, x1 - 1);
      TileSquare(sc.scr, t, x1 - 1, y);
      CellIndex(sc.scr.width, y, x1 - 1);
      CellBelow(sc.scr.width, sc.scr.height, y, x1 - 1);
    }
  }

  lemma {:induction false} BoxInside(sc: Scene, t: nat, s: Setup, x0: nat, x1: nat, y0: nat, y1: nat)
    requires SceneOk(sc) && s.tri in sc.tris && y1 <= sc.scr.height && x1 <= sc.scr.width
    requires TileLeft(sc.scr, t) <= x0 && x1 <= TileLeft(sc.scr, t) + TILE
    requires TileTop(sc.scr, t) <= y0 && y1 <= TileTop(sc.scr, t) + TILE
    ensures InsideTile(sc, t, BoxFrags(sc, s, x0, x1, y0, y1))
    decreases y1
  {
    if y0 < y1 {
      BoxInside(sc, t, s, x0, x1, y0, y1 - 1);
      RowInside(sc, t, s, y1 - 1, x0, x1);
    }
  }

  lemma {:induction false} TileInside(sc: Scene, t: nat, ss: seq<Setup>)
    requires SceneOk(sc) && forall j | 0 <= j < |ss| :: SetupOk(sc, ss[j])
    ensures InsideTile(sc, t, TileFrags(sc, t, ss))
  {
    if ss != [] {
      var s := ss[|ss| - 1];
      assert SetupOk(sc, s);
      TileInside(sc, t, ss[..|ss| - 1]);
      var c := Clip(sc.scr, s, t);
      BoxInside(sc, t, s, c.0, c.1, c.2, c.3);
    }
  }

  /** All tiles at the start of a draw. */
  ghost function Opening(sc: Scene, start: Picture): (s: System)
    requires SceneOk(sc) && sc.scr.width > 0
    ensures |s.tasks| == TileCount(sc.scr) && s.pic == start
    ensures forall t | 0 <= t < |s.tasks| :: s.tasks[t] == Task(TileFrags(sc, t, BinOf(sc, t, 0, |sc.tris|)), [])
  {
    System(start, seq(TileCount(sc.scr), t requires 0 <= t < TileCount(sc.scr) =>
      Task(TileFrags(sc, t, BinOf(sc, t, 0, |sc.tris|)), [])))
  }

  function Owner(scr: Screen): nat -> nat {
    i => TileOf(scr, Column(scr, i), Row(scr, i))
  }

  lemma OpeningSound(sc: Scene, sh: Shading, start: Picture)
    requires SceneOk(sc) && sc.scr.width > 0 && Capacity(sh) > 0 && |start| == sc.scr.width * sc.scr.height
    ensures Sound(sh, Opening(sc, start)) && Apart(Owner(sc.scr), Opening(sc, start))
  {
    forall t | 0 <= t < TileCount(sc.scr) ensures InsideTile(sc, t, Opening(sc, start).tasks[t].todo) {
      TileInside(sc, t, BinOf(sc, t, 0, |sc.tris|));
    }
  }

  /** Whatever the interleaving of the tile workers, once all have finished the buffers hold the reference picture. */
  lemma AnyInterleavingDrawsTheReference(sc: Scene, sh: Shading, lane: Frag -> Lane, start: Picture, schedule: seq<nat>)
    requires SceneOk(sc) && Fits(sc.scr) && sc.scr.width > 0 && Capacity(sh) > 0
    requires |start| == sc.scr.width * sc.scr.height
    requires forall j | 0 <= j < |schedule| :: schedule[j] < TileCount(sc.scr)
    requires Sound(sh, Opening(sc, start))
    requires
      var z := Play(sh, lane, Opening(sc, start), schedule);
      forall t | 0 <= t < |z.tasks| :: Finished(z.tasks[t])
    ensures Play(sh, lane, Opening(sc, start), schedule).pic == BruteForce(sc, lane, sc.tris, start)
  {
    var s := Opening(sc, start);
    var z := Play(sh, lane, s, schedule);
    OpeningSound(sc, sh, start);
    PlayKeepsSize(sh, lane, s, schedule);
    forall i | 0 <= i < |start| ensures z.pic[i] == BruteForce(sc, lane, sc.tris, start)[i] {
      OpeningDestiny(sc, lane, start, i);
      PlayKeepsDestiny(sh, lane, Owner(sc.scr), s, schedule, i);
      FinishedDestiny(lane, Owner(sc.scr), z, i);
    }
  }

  /** And all finish: a schedule that gives every tile a turn for each step it has to make, in whatever order, draws the
      reference. */
  lemma EnoughTurnsDrawTheReference(sc: Scene, sh: Shading, lane: Frag -> Lane, start: Picture, schedule: seq<nat>)
    requires SceneOk(sc) && Fits(sc.scr) && sc.scr.width > 0 && Capacity(sh) > 0
    requires |start| == sc.scr.width * sc.scr.height
    requires forall j | 0 <= j < |schedule| :: schedule[j] < TileCount(sc.scr)
    requires forall t: nat | t < TileCount(sc.scr) :: multiset(schedule)[t] >= Work(Opening(sc, start).tasks[t])
    ensures Sound(sh, Opening(sc, start))
    ensures Play(sh, lane, Opening(sc, start), schedule).pic == BruteForce(sc, lane, sc.tris, start)
  {
    OpeningSound(sc, sh, start);
    AllFinish(sh, lane, Opening(sc, start), schedule);
    AnyInterleavingDrawsTheReference(sc, sh, lane, start, schedule);
  }

  /** When the owner of a pixel has finished, the pixel is what it was to be. */
  lemma FinishedDestiny(lane: Frag -> Lane, owner: nat -> nat, s: System, i: nat)
    requires i < |s.pic| && owner(i) < |s.tasks| && Finished(s.tasks[owner(i)])
    ensures Destiny(lane, owner, s, i) == s.pic[i]
  {
  }

  lemma OwnerHolds(scr: Screen, i: nat)
    requires scr.width > 0 && i < scr.width * scr.height
    ensures Owner(scr)(i) < TileCount(scr) && InTile(scr, Owner(scr)(i), i)
  {
    PixelOnScreen(scr, i);
    CellBelow(Tiles(scr.width), Tiles(scr.height), Row(scr, i) / TILE, Column(scr, i) / TILE);
  }

  /** The fragments of a pixel's tile make its reference pixel. */
  lemma TileMakesPixel(sc: Scene, lane: Frag -> Lane, start: Picture, i: nat, t: nat)
    requires SceneOk(sc) && Fits(sc.scr) && sc.scr.width > 0 && t == Owner(sc.scr)(i)
    requires |start| == sc.scr.width * sc.scr.height && i < |start|
    ensures FragsAfter(lane, TileFrags(sc, t, BinOf(sc, t, 0, |sc.tris|)), i, start[i]) == BruteForce(sc, lane, sc.tris, start)[i]
  {
    OwnerHolds(sc.scr, i);
    PixelOnScreen(sc.scr, i);
    TileAfter(sc, lane, t, BinOf(sc, t, 0, |sc.tris|), i, start[i]);
    BinIsEnough(sc, lane, Column(sc.scr, i), Row(sc.scr, i), start[i], |sc.tris|);
    assert sc.tris[..|sc.tris|] == sc.tris;
    BruteForcePixel(sc, lane, sc.tris, start, i);
  }

  /** At the start every pixel is to become its reference pixel. */
  lemma OpeningDestiny(sc: Scene, lane: Frag -> Lane, start: Picture, i: nat)
    requires SceneOk(sc) && Fits(sc.scr) && sc.scr.width > 0
    requires |start| == sc.scr.width * sc.scr.height && i < |start|
    ensures Owner(sc.scr)(i) < TileCount(sc.scr)
    ensures Destiny(lane, Owner(sc.scr), Opening(sc, start), i) == BruteForce(sc, lane, sc.tris, start)[i]
  {
    OwnerHolds(sc.scr, i);
    TileMakesPixel(sc, lane, start, i, Owner(sc.scr)(i));
  }

  lemma {:induction false} PlayKeepsSize(sh: Shading, lane: Frag -> Lane, s: System, schedule: seq<nat>)
    requires Sound(sh, s) && forall j | 0 <= j < |schedule| :: schedule[j] < |s.tasks|
    ensures |Play(sh, lane, s, schedule).pic| == |s.pic| && |Play(sh, lane, s, schedule).tasks| == |s.tasks|
    decreases schedule
  {
    if schedule != [] {
      StepSound(sh, lane, _ => 0, s, schedule[0]);
      PlayKeepsSize(sh, lane, Step(sh, lane, s, schedule[0]), schedule[1..]);
    }
  }
}
