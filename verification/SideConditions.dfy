/** The packetizer's side conditions are not for the proof's convenience: where one fails, so can the packet. The third,
    definite assignment, has a module of its own. */
module SideConditions {
  import opened ShaderAst
  import opened Uniformity
  import opened Scoping
  import opened PacketSemantics
  import opened Seeding
  import opened LaneRelation
  import opened LaneSimulation
  import opened VectorCode
  import opened PacketEmitter
  import opened EmitterCorrectness
  import opened PacketCompiler
  import opened SsaValidity
  import S = ScalarSemantics

  const YES := Val([1.0])
  const NO := Val([0.0])

  /** Operations for the examples: only YES is true, and zero is NO. */
  const OPS := Ops((op: string, vs: seq<Val>) => NO, (v: Val) => v == YES, (x: Name) => NO)

  lemma YesIsNotNo()
    ensures YES != NO && OPS.truth(YES) && !OPS.truth(NO)
  {
    assert YES.comps[0] != NO.comps[0];
  }

  // ---- (a) inner loops are seeded from mask_, not from the effective mask ----

  /** Every masked loop entered under structural mask `m` with iteration mask `em` does right by every lane. */
  ghost predicate LoopsFaithful(m: Mask, em: Mask) {
    forall k: Packet, n: nat, s: Stmt, c: Site, p: PState, ts: seq<S.State> |
      && k.width == |m| > 0 && IsLoop(s) && WellShaped(k, p) && p.em == em && |em| == |ts| == |m|
      && c.divergentCF && SiteOk(k.io, c) && StmtOk(k.io, k.plan, s, c) && LoopsBeforeEscapes(s, false)
      && (forall l | 0 <= l < k.width && m[l] && em[l] :: Rel(k, p, l, ts[l], c.scope)) ::
      Simulated(k, p, m, c.scope, ScopeAfter(s, c.scope), Run(k, n, s, c.seen, m, p), Results(k, n, s, ts))
  }

  /** `while (c) { x = YES; c = NO; }` */
  const ONCE := While(0, Var("c"), Block([Assign("x", Const(YES)), Assign("c", Const(NO))]))

  const ONCE_SITE := Site({"x", "c"}, {"x", "c"}, true, true)

  function OncePacket(w: nat): Packet {
    Packet(OPS, w, Interface({}, {"x"}, {}), Plan({"x", "c"}, {}))
  }

  function OnceState(w: nat, em: Mask): PState {
    PState(Memory(map["x" := seq(w, _ => NO), "c" := seq(w, _ => YES)], map[]), AllLanes(w), AllLanes(w), em)
  }

  lemma BlockOfTwo(io: Interface, plan: Plan, s: Stmt, t: Stmt, scope: set<Name>, divergentCF: bool, inLoop: bool)
    ensures Scoped(io, Block([s, t]), scope) <==> Scoped(io, s, scope) && Scoped(io, t, ScopeAfter(s, scope))
    ensures ScopeAfter(Block([s, t]), scope) == ScopeAfter(t, ScopeAfter(s, scope))
    ensures LoopsBeforeEscapes(Block([s, t]), false) <==>
              LoopsBeforeEscapes(s, false) && LoopsBeforeEscapes(t, HasBreakOrContinue(s))
    ensures Justified(io, Block([s, t]), divergentCF, plan) <==>
              Justified(io, s, divergentCF, plan) && Justified(io, t, divergentCF, plan)
    ensures WellFormed(Block([s, t]), inLoop) <==> WellFormed(s, inLoop) && WellFormed(t, inLoop)
    ensures HasBreakOrContinue(Block([s, t])) <==> HasBreakOrContinue(s) || HasBreakOrContinue(t)
  {
    var ss := [s, t];
    var d := ScopeAfter(s, scope);
    assert ss[0] == s && ss[1] == t && ss[1..] == [t] && [t][1..] == [];
    assert ScopedAll(io, [], ScopeAfter(t, d)) && ScopeAfterAll([], ScopeAfter(t, d)) == ScopeAfter(t, d);
    assert ScopedAll(io, [t], d) <==> Scoped(io, t, d);
    assert ScopeAfterAll([t], d) == ScopeAfter(t, d);
    var escaped := HasBreakOrContinue(s);
    assert LoopsBeforeEscapesAll([], escaped || HasBreakOrContinue(t));
    assert LoopsBeforeEscapesAll([t], escaped) <==> LoopsBeforeEscapes(t, escaped);
  }

  lemma OnceOk(k: Packet)
    requires k == OncePacket(k.width)
    ensures SiteOk(k.io, ONCE_SITE) && StmtOk(k.io, k.plan, ONCE, ONCE_SITE) && LoopsBeforeEscapes(ONCE, false)
  {
    BlockOfTwo(k.io, k.plan, Assign("x", Const(YES)), Assign("c", Const(NO)), {"x", "c"}, true, true);
  }

  lemma OnceTest(k: Packet, g: Memory)
    requires k == OncePacket(k.width) && MemShaped(k, g)
    requires forall i | 0 <= i < k.width :: LaneRead(k, g, "c", i) == YES
    ensures CondMask(k, ONCE.cond, g) == AllLanes(k.width)
  {
    YesIsNotNo();
    forall i | 0 <= i < k.width ensures CondMask(k, ONCE.cond, g)[i] {
      assert LaneEval(k, ONCE.cond, g, i) == YES;
      assert k.o.truth(YES);
    }
  }

  lemma OnceBody(k: Packet, m: Mask, h: PState, seen: set<Name>)
    requires k == OncePacket(k.width) && k.width > 0 && WellShaped(k, h) && |m| == k.width && h.em == m && h.la == m && "c" in seen
    ensures
      var r := Run(k, 2, ONCE.body, seen, m, h);
      && r.Ran? && r.p.la == m && r.p.em == m && r.p.live == h.live
      && forall l | 0 <= l < k.width && m[l] :: LaneRead(k, r.p.mem, "x", l) == YES && LaneRead(k, r.p.mem, "c", l) == NO
  {
    var x, c := Assign("x", Const(YES)), Assign("c", Const(NO));
    var seen' := seen + Assigned(x);
    var r1 := Run(k, 2, x, seen, m, h);
    var r2 := Run(k, 2, c, seen', m, r1.p);
    assert [x, c][1..] == [c] && [c][1..] == [];
    assert RunAll(k, 2, [], seen' + Assigned(c), m, r2.p) == r2;
    assert RunAll(k, 2, [c], seen', m, r1.p) == r2;
    assert RunAll(k, 2, [x, c], seen, m, h) == r2;
    assert Run(k, 2, ONCE.body, seen, m, h) == r2;
    forall l | 0 <= l < k.width && m[l]
      ensures LaneRead(k, r2.p.mem, "x", l) == YES && LaneRead(k, r2.p.mem, "c", l) == NO
    {
      assert Eff(k, m, h)[l];
      assert LaneRead(k, r1.p.mem, "x", l) == YES;
    }
  }

  /** The loop sets x in every lane of the structural mask, whatever the iteration mask. */
  lemma OnceRuns(k: Packet, m: Mask, p: PState, seen: set<Name>)
    requires k == OncePacket(k.width) && k.width > 0 && WellShaped(k, p) && |m| == k.width && Any(m) && "c" in seen
    requires forall i | 0 <= i < k.width :: LaneRead(k, p.mem, "c", i) == YES
    ensures
      var r := Run(k, 2, ONCE, seen, m, p);
      r.Ran? && r.p.la == p.la && r.p.em == p.em && r.p.live == p.live
      && forall l | 0 <= l < k.width && m[l] :: LaneRead(k, r.p.mem, "x", l) == YES
  {
    OnceTest(k, p.mem);
    assert And(m, AllLanes(k.width)) == m;
    var h := p.(la := m).(em := m);
    OnceBody(k, m, h, seen);
    var q := Run(k, 2, ONCE.body, seen, m, h).p.(em := AllLanes(k.width));
    OnceLeaves(k, m, q, seen);
    assert RunMasked(k, 2, ONCE, seen, p.(la := m)) == RunMasked(k, 1, ONCE, seen, q);
  }

  lemma OnceLeaves(k: Packet, m: Mask, q: PState, seen: set<Name>)
    requires k == OncePacket(k.width) && k.width > 0 && WellShaped(k, q) && |m| == k.width && q.la == m
    requires forall l | 0 <= l < k.width && m[l] :: LaneRead(k, q.mem, "c", l) == NO
    ensures
      var r := RunMasked(k, 1, ONCE, seen, q);
      r.Ran? && r.p.mem == q.mem && r.p.live == q.live
  {
    forall i | 0 <= i < k.width ensures !And(q.la, CondMask(k, ONCE.cond, q.mem))[i] {
      if m[i] { assert LaneEval(k, ONCE.cond, q.mem, i) == NO; }
    }
  }

  /** The seed is right for every loop exactly when no lane of the structural mask has left the iteration. */
  lemma SeedExact(m: Mask, em: Mask)
    requires |m| == |em| > 0
    ensures LoopsFaithful(m, em) <==> forall l | 0 <= l < |m| && m[l] :: em[l]
  {
    if forall l | 0 <= l < |m| && m[l] :: em[l] {
      forall k: Packet, n: nat, s: Stmt, c: Site, p: PState, ts: seq<S.State> |
        && k.width == |m| > 0 && IsLoop(s) && WellShaped(k, p) && p.em == em && |em| == |ts| == |m|
        && c.divergentCF && SiteOk(k.io, c) && StmtOk(k.io, k.plan, s, c) && LoopsBeforeEscapes(s, false)
        && (forall l | 0 <= l < k.width && m[l] && em[l] :: Rel(k, p, l, ts[l], c.scope))
        ensures Simulated(k, p, m, c.scope, ScopeAfter(s, c.scope), Run(k, n, s, c.seen, m, p), Results(k, n, s, ts))
      {
        if !c.inLoop { NoEscapeAnywhere(s); }
        RuleSeeds(k, n, s, c.divergentCF, false, c.seen, m, p);
        Simulate(k, n, s, c, m, p, ts);
      }
    }
    if LoopsFaithful(m, em) {
      forall l | 0 <= l < |m| && m[l] ensures em[l] {
        if !em[l] { Reentry(m, em, l); }
      }
    }
  }

  /** A lane that has left the iteration but not the structural mask is run again. */
  lemma Reentry(m: Mask, em: Mask, l: nat)
    requires |m| == |em| > 0 && l < |m| && m[l] && !em[l]
    ensures !LoopsFaithful(m, em)
  {
    var k, p := OncePacket(|m|), OnceState(|m|, em);
    var t := S.State(map["x" := NO, "c" := YES], true);
    var ts := seq(|m|, _ => t);
    OnceOk(k);
    forall i | 0 <= i < k.width ensures Rel(k, p, i, ts[i], ONCE_SITE.scope) {}
    OnceTouches(m, em, l, ts);
  }

  lemma OnceTouches(m: Mask, em: Mask, l: nat, ts: seq<S.State>)
    requires |m| == |em| == |ts| > 0 && l < |m| && m[l] && !em[l]
    ensures
      var k, p := OncePacket(|m|), OnceState(|m|, em);
      !Simulated(k, p, m, ONCE_SITE.scope, ScopeAfter(ONCE, ONCE_SITE.scope), Run(k, 2, ONCE, {"x", "c"}, m, p),
                 Results(k, 2, ONCE, ts))
  {
    var k, p := OncePacket(|m|), OnceState(|m|, em);
    forall i | 0 <= i < k.width ensures LaneRead(k, p.mem, "c", i) == YES {}
    OnceRuns(k, m, p, {"x", "c"});
    var r := Run(k, 2, ONCE, {"x", "c"}, m, p);
    assert LaneRead(k, p.mem, "x", l) == NO;
    assert !Untouched(k, p, r.p, l, ONCE_SITE.scope);
    assert !LanePost(k, p, r.p, m, l, ONCE_SITE.scope, ScopeAfter(ONCE, ONCE_SITE.scope), Results(k, 2, ONCE, ts)[l]);
  }

  // ---- whole shaders ----

  lemma AllOfTwo(k: Packet, n: nat, s: Stmt, t: Stmt, seen: set<Name>, m: Mask, p: PState)
    requires k.width > 0 && WellShaped(k, p) && |m| == k.width
    ensures
      var r := Run(k, n, s, seen, m, p);
      RunAll(k, n, [s, t], seen, m, p) == if r.Timeout? then r else Run(k, n, t, seen + Assigned(s), m, r.p)
  {
    assert [s, t][1..] == [t] && [t][1..] == [];
    var r := Run(k, n, s, seen, m, p);
    if r.Ran? {
      var q := Run(k, n, t, seen + Assigned(s), m, r.p);
      if q.Ran? { assert RunAll(k, n, [], seen + Assigned(s) + Assigned(t), m, q.p) == q; }
    }
  }

  /** `c = YES; while (true) { break; while (c) { x = YES; c = NO; } }`, with output x. */
  const ESCAPE := Block([Assign("c", Const(YES)), OUTER])

  const OUTER := While(1, Const(YES), Block([Break, ONCE]))

  lemma OuterTest(k: Packet, g: Memory)
    requires k == OncePacket(k.width) && MemShaped(k, g)
    ensures CondMask(k, OUTER.cond, g) == AllLanes(k.width)
  {
    YesIsNotNo();
    forall l | 0 <= l < k.width ensures CondMask(k, OUTER.cond, g)[l] {
      assert LaneEval(k, OUTER.cond, g, l) == YES && k.o.truth(YES);
    }
  }

  /** The body: every lane breaks, and is taken back by the inner loop. */
  lemma OuterBody(k: Packet, h: PState)
    requires k == OncePacket(k.width) && k.width > 0 && WellShaped(k, h) && h.em == h.la == AllLanes(k.width)
    requires forall l | 0 <= l < k.width :: LaneRead(k, h.mem, "c", l) == YES
    ensures
      var r := Run(k, 2, OUTER.body, {"c"}, AllLanes(k.width), h);
      r.Ran? && r.p.live == h.live
      && forall l | 0 <= l < k.width :: LaneRead(k, r.p.mem, "x", l) == YES && !r.p.la[l]
  {
    var all := AllLanes(k.width);
    var none := AndNot(all, all);
    assert And(all, all) == all && all[0];
    var b := h.(la := none, em := none);
    assert Run(k, 2, Break, {"c"}, all, h) == Ran(b);
    AllOfTwo(k, 2, Break, ONCE, {"c"}, all, h);
    OnceRuns(k, all, b, {"c"} + Assigned(Break));
    var r := Run(k, 2, ONCE, {"c"} + Assigned(Break), all, b);
    assert forall l | 0 <= l < k.width :: all[l] && !none[l];
    assert Run(k, 2, OUTER.body, {"c"}, all, h) == r;
  }

  /** Once the body has run no lane is left. */
  lemma OuterRuns(k: Packet, q: PState)
    requires k == OncePacket(k.width) && k.width > 0 && WellShaped(k, q) && q.em == AllLanes(k.width)
    requires forall l | 0 <= l < k.width :: LaneRead(k, q.mem, "c", l) == YES
    ensures
      var r := Run(k, 2, OUTER, {"c"}, AllLanes(k.width), q);
      r.Ran? && r.p.live == q.live && forall l | 0 <= l < k.width :: LaneRead(k, r.p.mem, "x", l) == YES
  {
    var all := AllLanes(k.width);
    OuterTest(k, q.mem);
    assert And(all, all) == all && all[0];
    var h := q.(la := all).(em := all);
    OuterBody(k, h);
    var z := Run(k, 2, OUTER.body, {"c"}, all, h).p.(em := all);
    var na := And(z.la, CondMask(k, OUTER.cond, z.mem));
    assert !Any(na);
    assert RunMasked(k, 1, OUTER, {"c"}, z) == Ran(z.(la := na));
    assert RunMasked(k, 2, OUTER, {"c"}, q.(la := all)) == RunMasked(k, 1, OUTER, {"c"}, z);
  }

  /** The packet comes back to the inner loop after the break, and sets x. */
  lemma EscapeRuns(k: Packet, p: PState)
    requires k == OncePacket(k.width) && k.width > 0 && WellShaped(k, p) && p.em == AllLanes(k.width)
    ensures
      var r := Run(k, 2, ESCAPE, {}, AllLanes(k.width), p);
      r.Ran? && r.p.live == p.live && forall l | 0 <= l < k.width :: LaneRead(k, r.p.mem, "x", l) == YES
  {
    var all, first := AllLanes(k.width), Assign("c", Const(YES));
    AllOfTwo(k, 2, first, OUTER, {}, all, p);
    assert And(all, all) == all;
    var q := Run(k, 2, first, {}, all, p).p;
    forall l | 0 <= l < k.width ensures LaneRead(k, q.mem, "c", l) == YES {}
    OuterRuns(k, q);
    assert {} + Assigned(first) == {"c"};
  }

  lemma ExecOfTwo(o: Ops, n: nat, s: Stmt, t: Stmt, st: S.State)
    ensures
      var r := S.Exec(o, true, n, s, st);
      S.ExecAll(o, true, n, [s, t], st) == if r.Done? && r.flow.Normal? then S.Exec(o, true, n, t, r.st) else r
  {
    assert [s, t][1..] == [t] && [t][1..] == [];
    var r := S.Exec(o, true, n, s, st);
    if r.Done? && r.flow.Normal? {
      var q := S.Exec(o, true, n, t, r.st);
      if q.Done? { assert S.ExecAll(o, true, n, [], q.st) == S.Done(S.Normal, q.st); }
    }
  }

  /** The invocation on its own leaves at the break. */
  lemma EscapeScalar(n: nat, t: S.State)
    requires n > 0
    ensures S.Exec(OPS, true, n, ESCAPE, t) == S.Done(S.Normal, t.(vars := t.vars["c" := YES]))
  {
    var u := t.(vars := t.vars["c" := YES]);
    YesIsNotNo();
    ExecOfTwo(OPS, n, Break, ONCE, u);
    assert S.Exec(OPS, true, n, OUTER.body, u) == S.Done(S.Broke, u);
    assert S.Eval(OPS, OUTER.cond, u.vars) == YES;
    assert S.ExecLoop(OPS, true, n, OUTER, u) == S.Done(S.Normal, u);
    ExecOfTwo(OPS, n, Assign("c", Const(YES)), OUTER, t);
  }

  lemma EscapeMeetsTheRest(k: Packet)
    requires k == OncePacket(k.width)
    ensures Scoped(k.io, ESCAPE, {"x"}) && Justified(k.io, ESCAPE, false, k.plan) && WellFormed(ESCAPE, false)
    ensures !LoopsBeforeEscapes(ESCAPE, false)
  {
    OnceOk(k);
    BlockOfTwo(k.io, k.plan, Break, ONCE, {"x", "c"}, true, true);
    BlockOfTwo(k.io, k.plan, Assign("c", Const(YES)), OUTER, {"x"}, false, false);
    assert {"x"} + {"c"} == {"x", "c"};
  }

  // ---- the code the packetizer emits for it ----

  /** Emitting goes through, and adds what the statement assigns to the locals. */
  ghost predicate Emits(io: Interface, plan: Plan, s: Stmt, e: Emitter) {
    var e' := Emit(io, plan, s, e).e;
    !e'.bailed && e'.locals == e.locals + (Assigned(s) - io.outputs)
  }

  lemma TwoEmitted(io: Interface, plan: Plan, s: Stmt, t: Stmt, e: Emitter)
    requires !e.bailed && Emits(io, plan, s, e) && Emits(io, plan, t, Emit(io, plan, s, e).e)
    ensures Emits(io, plan, Block([s, t]), e)
  {
    var e1 := Emit(io, plan, s, e).e;
    var e2 := Emit(io, plan, t, e1).e;
    assert [s, t][1..] == [t] && [t][1..] == [];
    assert EmitAll(io, plan, [], e2).e == e2 == EmitAll(io, plan, [t], e1).e == EmitAll(io, plan, [s, t], e).e;
    AssignedTwo(s, t);
  }

  lemma AssignedTwo(s: Stmt, t: Stmt)
    ensures Assigned(Block([s, t])) == Assigned(s) + Assigned(t)
  {
    forall x ensures x in Assigned(Block([s, t])) <==> x in Assigned(s) || x in Assigned(t) {
      assert [s, t][0] == s && [s, t][1] == t;
    }
  }

  lemma AssignEmitted(io: Interface, plan: Plan, x: Name, v: Expr, e: Emitter)
    requires !e.bailed && CanEmit(io, v, e.locals)
    ensures Emits(io, plan, Assign(x, v), e)
  {
    AssignCases(io, plan, x, v, e);
    assert Assigned(Assign(x, v)) == {x};
  }

  /** A conditional without an else, whose arm is not guarded. */
  lemma IfEmitted(io: Interface, plan: Plan, s: Stmt, e: Emitter)
    requires s.If? && s.els.None? && !e.bailed && CanEmit(io, s.cond, e.locals) && !Guarded(s.thn)
    requires Emits(io, plan, s.thn, ThenEmitter(e))
    ensures Emits(io, plan, s, e)
  {
    assert EmitArm(io, plan, s.thn, ThenEmitter(e)) == Emit(io, plan, s.thn, ThenEmitter(e));
    assert Assigned(s) == Assigned(s.thn);
  }

  lemma UniformEmitted(io: Interface, plan: Plan, s: Stmt, e: Emitter)
    requires s.While? && !e.bailed && CanEmit(io, s.cond, e.locals) && s.id in plan.loops && Emits(io, plan, s.body, e)
    ensures Emits(io, plan, s, e)
  {
    var b := Emit(io, plan, s.body, e);
    assert EmitStep(io, plan, s, b.e) == Emitted(b.e, []);
    assert Emit(io, plan, s, e) == EmitLoop(io, plan, s, e) == EmitUniform(io, plan, s, e);
    assert Assigned(s) == Assigned(s.body);
  }

  lemma WhileEmitted(io: Interface, plan: Plan, s: Stmt, e: Emitter)
    requires s.While? && !e.bailed && CanEmit(io, s.cond, e.locals) && s.id !in plan.loops && Emits(io, plan, s.body, BodyEmitter(e))
    ensures Emits(io, plan, s, e)
  {
    var b := Emit(io, plan, s.body, BodyEmitter(e));
    assert EmitStep(io, plan, s, StepEmitter(b.e)) == Emitted(StepEmitter(b.e), []);
    assert Emit(io, plan, s, e) == EmitLoop(io, plan, s, e) == EmitMasked(io, plan, s, e);
    assert Assigned(s) == Assigned(s.body);
  }

  lemma OnceEmitted(k: Packet, e: Emitter)
    requires k == OncePacket(k.width) && !e.bailed && "c" in e.locals
    ensures Emits(k.io, k.plan, ONCE, e)
  {
    var x, c, b := Assign("x", Const(YES)), Assign("c", Const(NO)), BodyEmitter(e);
    AssignEmitted(k.io, k.plan, "x", Const(YES), b);
    AssignEmitted(k.io, k.plan, "c", Const(NO), Emit(k.io, k.plan, x, b).e);
    TwoEmitted(k.io, k.plan, x, c, b);
    WhileEmitted(k.io, k.plan, ONCE, e);
  }

  lemma EscapeEmitted(k: Packet)
    requires k == OncePacket(k.width)
    ensures !Compile(k.io, k.plan, ESCAPE).e.bailed
  {
    var first := Assign("c", Const(YES));
    AssignEmitted(k.io, k.plan, "c", Const(YES), START);
    OuterEmitted(k, Emit(k.io, k.plan, first, START).e);
    TwoEmitted(k.io, k.plan, first, OUTER, START);
  }

  lemma BreakEmitted(io: Interface, plan: Plan, e: Emitter)
    requires !e.bailed && e.la.Some? && e.em.Some?
    ensures Emits(io, plan, Break, e)
  {
  }

  lemma OuterEmitted(k: Packet, e: Emitter)
    requires k == OncePacket(k.width) && !e.bailed && "c" in e.locals
    ensures Emits(k.io, k.plan, OUTER, e)
  {
    BreakEmitted(k.io, k.plan, BodyEmitter(e));
    OnceEmitted(k, Emit(k.io, k.plan, Break, BodyEmitter(e)).e);
    TwoEmitted(k.io, k.plan, Break, ONCE, BodyEmitter(e));
    WhileEmitted(k.io, k.plan, OUTER, e);
  }

  lemma EscapeIsPlain(io: Interface)
    requires io.inputs == io.globals == {}
    ensures WritesLocals(io, ESCAPE) && !DiscardInLoop(ESCAPE)
  {
    assert !ContainsDiscard(ONCE.body) && !ContainsDiscard(ONCE) && !ContainsDiscard(OUTER.body);
  }

  /** The emitted code of it halts, with every lane live and x set. */
  lemma EscapeCodeRuns(k: Packet, a: Lanes, l: nat)
    requires k == OncePacket(k.width) && l < k.width == |a.inputs|
    ensures
      var out := Compile(k.io, k.plan, ESCAPE);
      var f := DoAll(k, 2, out.code, EntryMachine(k, a));
      && !out.e.bailed && f.Halted? && MaskOf(k, f.c, out.e.live)[l] && "x" in k.io.outputs && VecSlot(k, f.c.mem, "x")[l] == YES
  {
    EscapeMeetsTheRest(k);
    EscapeEmitted(k);
    EscapeIsPlain(k.io);
    CompiledRuns(k, 2, ESCAPE, a);
    EscapeRuns(k, EntryState(k, a));
    var r := Run(k, 2, ESCAPE, {}, AllLanes(k.width), EntryState(k, a));
    assert LaneRead(k, r.p.mem, "x", l) == YES;
  }

  /** A loop after a break: whatever the packet width and the inputs, the code that is emitted without complaint
      halts, and every lane is live and holds a wrong output. */
  lemma LoopAfterBreakFails(k: Packet, a: Lanes, l: nat)
    requires k == OncePacket(k.width) && l < k.width == |a.inputs|
    ensures
      var out := Compile(k.io, k.plan, ESCAPE);
      var f := DoAll(k, 2, out.code, EntryMachine(k, a));
      var own := S.Exec(k.o, true, 2, ESCAPE, Invocation(k, a, l));
      && !out.e.bailed && f.Halted? && own.Done? && own.st.live && MaskOf(k, f.c, out.e.live)[l]
      && "x" in k.io.outputs && VecSlot(k, f.c.mem, "x")[l] != S.Read(k.o, own.st.vars, "x")
  {
    EscapeCodeRuns(k, a, l);
    EscapeScalar(2, Invocation(k, a, l));
    YesIsNotNo();
  }

  /** ... so the theorem of PacketCompiler does not hold without the rule. */
  lemma EscapeIsIncorrect(k: Packet, a: Lanes)
    requires k == OncePacket(k.width) && k.width == |a.inputs| > 0
    ensures var out := Compile(k.io, k.plan, ESCAPE); !Correct(k, 2, ESCAPE, a, out.code, out.e.live)
  {
    LoopAfterBreakFails(k, a, 0);
  }

  /** Its run is not seeded, and that is all that is wrong with it. */
  lemma EscapeIsNotSeeded(k: Packet, a: Lanes)
    requires k == OncePacket(k.width) && k.width == |a.inputs| > 0
    ensures CoreRules(k.io, ESCAPE) && Compilable(k.io, k.plan, ESCAPE)
    ensures !Seeded(k, 2, ESCAPE, {}, AllLanes(k.width), EntryState(k, a))
  {
    EscapeMeetsTheRest(k);
    EscapeEmitted(k);
    EscapeIsPlain(k.io);
    assert k.io.inputs + k.io.outputs + k.io.globals == {"x"};
    EscapeAssigns();
    EscapeIsIncorrect(k, a);
    if AcceptedRun(k, 2, ESCAPE, a) { SeededIsScalarPerLane(k, 2, ESCAPE, a); }
  }

  lemma EscapeAssigns()
    ensures Assigned(ESCAPE) == {"c", "x"}
  {
    AssignedTwo(Assign("x", Const(YES)), Assign("c", Const(NO)));
    AssignedTwo(Break, ONCE);
    AssignedTwo(Assign("c", Const(YES)), OUTER);
    assert Assigned(OUTER) == {"x", "c"};
  }

  // ---- (b) live_ is a plain value ----

  /** `while (c) { discard; }`, with input c. */
  const DISCARDS := While(0, Var("c"), Discard)

  lemma DiscardsEmitted(io: Interface, plan: Plan, e: Emitter)
    requires "c" in io.inputs && !e.bailed && plan.loops == {}
    ensures Emits(io, plan, DISCARDS, e)
  {
    DiscardEmitted(io, plan, BodyEmitter(e));
    WhileEmitted(io, plan, DISCARDS, e);
  }

  lemma DiscardEmitted(io: Interface, plan: Plan, e: Emitter)
    requires !e.bailed
    ensures Emits(io, plan, Discard, e)
  {
  }

  /** It is emitted without complaint, and what is emitted is not valid code. */
  lemma DiscardInLoopIsInvalid(io: Interface)
    requires "c" in io.inputs
    ensures
      var plan := Plan({}, {});
      var out := Compile(io, plan, DISCARDS);
      Justified(io, DISCARDS, false, plan) && WellFormed(DISCARDS, false) && !out.e.bailed && !Valid(out.code, out.e, {})
  {
    DiscardsEmitted(io, Plan({}, {}), START);
    ShaderValidIff(io, Plan({}, {}), DISCARDS);
  }
}
