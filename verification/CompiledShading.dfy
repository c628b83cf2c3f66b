/** The packetizer behind the rasterizer: a draw whose fragments are shaded by compiled packets shows what each
    fragment's own invocation gives. */
module CompiledShading {
  import opened ShaderAst
  import opened Uniformity
  import opened PacketSemantics
  import opened VectorCode
  import opened PacketCompiler
  import opened RasterReference
  import RasterGeometry
  import TileBins
  import RenderPipeline
  import S = ScalarSemantics

  /** A fragment stage: shader, packet width and plan, how a fragment becomes inputs, and its colour output. */
  datatype Stage = Stage(k: Packet, body: Stmt, globals: S.Store, bind: Frag -> S.Store, output: Name, paint: Val -> Color)

  /** The shader is accepted, and its invocation for every fragment terminates. */
  ghost predicate StageOk(g: Stage) {
    && g.k.width > 0 && g.output in g.k.io.outputs && Accepted(g.k.io, g.k.plan, g.body)
    && forall f: Frag :: S.Terminates(g.k.o, false, g.body, Own(g, f))
  }

  function Inputs(g: Stage, b: seq<Frag>): (a: Lanes)
    ensures |a.inputs| == |b|
  {
    Lanes(seq(|b|, l requires 0 <= l < |b| => g.bind(b[l])), g.globals)
  }

  /** The invocation of one fragment. */
  function Own(g: Stage, f: Frag): S.State {
    Invocation(g.k, Inputs(g, [f]), 0)
  }

  /** What the invocation of a fragment gives: nothing if it discards. */
  ghost predicate Gives(g: Stage, n: nat, f: Frag, y: Lane) {
    var r := S.Exec(g.k.o, true, n, g.body, Own(g, f));
    r.Done? && SameLane(y, Lane(!r.flow.Discarded?, g.paint(S.Read(g.k.o, r.st.vars, g.output))))
  }

  ghost function LaneOf(g: Stage, f: Frag): (y: Lane)
    requires StageOk(g)
    ensures exists n: nat :: Gives(g, n, f, y)
  {
    var n: nat :| S.Exec(g.k.o, false, n, g.body, Own(g, f)).Done?;
    S.RecordingPredictsStopping(g.k.o, n, g.body, Own(g, f));
    var r := S.Exec(g.k.o, true, n, g.body, Own(g, f));
    var y := Lane(!r.flow.Discarded?, g.paint(S.Read(g.k.o, r.st.vars, g.output)));
    assert Gives(g, n, f, y);
    y
  }

  /** What the packet leaves behind within a bound: live bits and colours. */
  function Packed(g: Stage, n: nat, b: seq<Frag>): (out: seq<Lane>)
    requires g.k.width == |b| > 0
  {
    var e := Compile(g.k.io, g.k.plan, g.body);
    var f := DoAll(g.k, n, e.code, EntryMachine(g.k, Inputs(g, b)));
    if f.Exhausted? then []
    else
      seq(|b|, l requires 0 <= l < |b| =>
        Lane(MaskOf(g.k, f.c, e.e.live)[l], g.paint(VecSlot(g.k, f.c.mem, g.output)[l])))
  }

  /** The packet's result, run to its end. */
  ghost function RunPacket(g: Stage, b: seq<Frag>): (out: seq<Lane>)
    requires StageOk(g) && |b| == g.k.width
    ensures exists n: nat :: Packed(g, n, b) == out && out != []
  {
    Ends(g, b);
    var n: nat :| Packed(g, n, b) != [];
    Packed(g, n, b)
  }

  lemma LanesAreInvocations(g: Stage, b: seq<Frag>, l: nat)
    requires l < |b|
    ensures Invocation(g.k, Inputs(g, b), l) == Own(g, b[l])
  {
  }

  lemma Ends(g: Stage, b: seq<Frag>)
    requires StageOk(g) && |b| == g.k.width
    ensures exists n: nat :: Packed(g, n, b) != []
  {
    var a := Inputs(g, b);
    forall l | 0 <= l < |b| ensures S.Terminates(g.k.o, false, g.body, Invocation(g.k, a, l)) { LanesAreInvocations(g, b, l); }
    PacketTerminatesIff(g.k, g.body, a);
    var n: nat :| DoAll(g.k, n, Compile(g.k.io, g.k.plan, g.body).code, EntryMachine(g.k, a)).Halted?;
    assert |Packed(g, n, b)| == |b|;
  }

  /** A lane of a packet that has ended gives what the invocation of its fragment gives. */
  lemma PackedGives(g: Stage, n: nat, b: seq<Frag>, l: nat)
    requires StageOk(g) && |b| == g.k.width && l < |b| && Packed(g, n, b) != []
    ensures |Packed(g, n, b)| == |b| && Gives(g, n, b[l], Packed(g, n, b)[l])
  {
    PacketIsScalarPerLane(g.k, n, g.body, Inputs(g, b));
    LanesAreInvocations(g, b, l);
  }

  lemma GivesOnce(g: Stage, n: nat, n': nat, f: Frag, y: Lane, y': Lane)
    requires Gives(g, n, f, y) && Gives(g, n', f, y')
    ensures SameLane(y, y')
  {
    if n <= n' { S.MoreFuel(g.k.o, true, n, n', g.body, Own(g, f)); } else { S.MoreFuel(g.k.o, true, n', n, g.body, Own(g, f)); }
  }

  /** Whatever its lane and its neighbours in the packet, a fragment gets what its own invocation gives. */
  lemma PacketGivesLanes(g: Stage, b: seq<Frag>)
    requires StageOk(g) && |b| == g.k.width
    ensures |RunPacket(g, b)| == |b| && forall l | 0 <= l < |b| :: SameLane(RunPacket(g, b)[l], LaneOf(g, b[l]))
  {
    var out := RunPacket(g, b);
    var n: nat :| Packed(g, n, b) == out && out != [];
    PackedGives(g, n, b, 0);
    forall l | 0 <= l < |b| ensures SameLane(out[l], LaneOf(g, b[l])) {
      PackedGives(g, n, b, l);
      var n': nat :| Gives(g, n', b[l], LaneOf(g, b[l]));
      GivesOnce(g, n, n', b[l], out[l], LaneOf(g, b[l]));
    }
  }

  /** The compiled shader as the rasterizer sees it. */
  ghost function Shaded(g: Stage): Shading
    requires StageOk(g)
  {
    Packets(g.k.width, b => if |b| == g.k.width then RunPacket(g, b) else [])
  }

  /** Its scalar form, one invocation at a time. */
  ghost function ShadedOneByOne(g: Stage): Shading
    requires StageOk(g)
  {
    Scalar(f => LaneOf(g, f).color)
  }

  ghost function LaneFunction(g: Stage): Frag -> Lane
    requires StageOk(g)
  {
    f => LaneOf(g, f)
  }

  /** What the rasterizer asks of a packet shader, and of a scalar one that never discards. */
  lemma CompiledIsLaneWise(g: Stage)
    requires StageOk(g)
    ensures LaneWise(Shaded(g), LaneFunction(g))
    ensures (forall f: Frag :: LaneOf(g, f).live) ==> LaneWise(ShadedOneByOne(g), LaneFunction(g))
  {
    var sh, lane := Shaded(g), LaneFunction(g);
    forall b: seq<Frag> | |b| == sh.width ensures Answers(lane, b, sh.run(b)) { PacketGivesLanes(g, b); }
  }

  /** A draw with the compiled shader: whatever the packet width, the chunks and the order of the tiles, the buffers show
      every fragment's own invocation. */
  method DrawCompiled(r: RenderPipeline.Renderer, ghost g: Stage, sc: Scene, clear: bool, cuts: seq<nat>, order: seq<nat>)
    requires StageOk(g) && r.sh == Shaded(g) && r.Valid() && r.bn == 0
    requires SceneOk(sc) && sc.scr == r.scr && RasterGeometry.Fits(r.scr)
    requires RenderPipeline.Chunks(cuts, |sc.tris|) && RenderPipeline.Schedule(order, TileBins.TileCount(r.scr))
    modifies r, r.zbuf, r.rgb, r.batch
    ensures r.Valid() && r.bn == 0
    ensures r.Shown() == BruteForce(sc, LaneFunction(g), sc.tris, if clear then RenderPipeline.Blank(r.scr) else old(r.Shown()))
  {
    CompiledIsLaneWise(g);
    r.Draw(sc, clear, cuts, order, LaneFunction(g));
  }
}
