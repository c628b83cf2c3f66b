/** Why reads must be definitely assigned: a local's slot is nulled where the name is first assigned in program text,
    and the nulling is not masked. */
module DefiniteAssignment {
  import opened ShaderAst
  import opened Uniformity
  import opened Scoping
  import opened PacketSemantics
  import opened LaneRelation
  import opened VectorCode
  import opened PacketEmitter
  import opened EmitterCorrectness
  import opened PacketCompiler
  import opened SideConditions
  import S = ScalarSemantics

  // ---- one assignment ----

  /** An assignment to `x`, masked, leaves it alone in the idle lane `l`. */
  ghost predicate KeptIn(k: Packet, x: Name, e: Expr, seen: set<Name>, m: Mask, p: PState, l: nat)
    requires k.width == |m| > 0 && WellShaped(k, p) && l < k.width
  {
    LaneRead(k, Run(k, 0, Assign(x, e), seen, m, p).p.mem, x, l) == LaneRead(k, p.mem, x, l)
  }

  /** Whatever the packet, its state and the value, an assignment to the vector local `x` leaves it alone in every idle
      lane. `seen` are the names assigned before in program text. */
  ghost predicate IdleLanesKept(x: Name, seen: set<Name>, m: Mask, em: Mask)
    requires |m| == |em| > 0
  {
    forall k: Packet, e: Expr, p: PState, l: nat |
      && k.width == |m| && WellShaped(k, p) && p.em == em && x !in k.io.outputs && x in k.plan.divergent
      && l < k.width && !(m[l] && em[l]) ::
      KeptIn(k, x, e, seen, m, p, l)
  }

  /** That is so exactly when the name has been assigned before or no lane is idle. */
  lemma NullingExact(x: Name, seen: set<Name>, m: Mask, em: Mask)
    requires |m| == |em| > 0
    ensures IdleLanesKept(x, seen, m, em) <==> x in seen || forall l | 0 <= l < |m| :: m[l] && em[l]
  {
    if x !in seen {
      if l: nat :| l < |m| && !(m[l] && em[l]) {
        var k := Packet(OPS, |m|, Interface({}, {}, {}), Plan({x}, {}));
        var p := PState(Memory(map[x := seq(|m|, _ => YES)], map[]), AllLanes(|m|), AllLanes(|m|), em);
        YesIsNotNo();
        assert LaneRead(k, p.mem, x, l) == YES;
        assert !KeptIn(k, x, Const(YES), seen, m, p, l);
      }
    }
  }

  // ---- a whole shader ----

  /** `if (d) { float x = 1.0; }` */
  const FIRST := If(Var("d"), Assign("x", Const(YES)), None)

  /** `o = x;` */
  const OUT := Assign("o", Var("x"))

  /** `c = d; d = 0.0;` */
  const STEP := Block([Assign("c", Var("d")), Assign("d", Const(NO))])

  /** `while (c) { if (d) { float x = 1.0; } o = x; c = d; d = 0.0; }`, which runs twice from c = d = 1.0. */
  const TWICE := While(0, Var("c"), Block([FIRST, Block([OUT, STEP])]))

  /** With output o. The second round reads the x of the first. */
  const HELD := Block([Assign("c", Const(YES)), Block([Assign("d", Const(YES)), TWICE])])

  /** Any number of lanes and any null value; c and d are lane-independent, and so is the loop. */
  ghost predicate IsHeldPacket(k: Packet) {
    k.o == OPS.(zero := k.o.zero) && k.io == Interface({}, {"o"}, {}) && k.plan == Plan({"x", "o"}, {0})
  }

  ghost predicate KeepsRules(io: Interface, plan: Plan, s: Stmt, inLoop: bool) {
    && WellFormed(s, inLoop) && LoopsBeforeEscapes(s, false) && !ContainsDiscard(s) && !HasBreakOrContinue(s)
    && Decided(io, s, false, plan)
  }

  lemma TwoKeepRules(io: Interface, plan: Plan, s: Stmt, t: Stmt, inLoop: bool)
    requires KeepsRules(io, plan, s, inLoop) && KeepsRules(io, plan, t, inLoop)
    ensures KeepsRules(io, plan, Block([s, t]), inLoop) && Assigned(Block([s, t])) == Assigned(s) + Assigned(t)
  {
    BlockOfTwo(io, plan, s, t, {}, false, inLoop);
    AssignedTwo(s, t);
  }

  lemma RoundKeepsRules(k: Packet)
    requires IsHeldPacket(k)
    ensures KeepsRules(k.io, k.plan, TWICE.body, true) && Assigned(TWICE.body) == {"c", "d", "x", "o"}
  {
    StepKeepsRules(k);
    ArmKeepsRules(k.io, k.plan, Var("d"), "x", Const(YES));
    TwoKeepRules(k.io, k.plan, OUT, STEP, true);
    TwoKeepRules(k.io, k.plan, FIRST, Block([OUT, STEP]), true);
  }

  lemma ArmKeepsRules(io: Interface, plan: Plan, c: Expr, x: Name, v: Expr)
    requires x in plan.divergent
    ensures var s := If(c, Assign(x, v), None); KeepsRules(io, plan, s, true) && Assigned(s) == {x}
  {
    var t := Assign(x, v);
    assert KeepsRules(io, plan, t, true) && Decided(io, t, true, plan) && Assigned(t) == {x};
  }

  lemma StepKeepsRules(k: Packet)
    requires IsHeldPacket(k)
    ensures KeepsRules(k.io, k.plan, STEP, true) && Assigned(STEP) == {"c", "d"}
  {
    TwoKeepRules(k.io, k.plan, Assign("c", Var("d")), Assign("d", Const(NO)), true);
  }

  lemma LoopKeepsRules(io: Interface, plan: Plan, s: Stmt)
    requires s.While? && KeepsRules(io, plan, s.body, true) && s.id in plan.loops && IsUniform(io, plan.divergent, s.cond)
    ensures KeepsRules(io, plan, s, false) && Assigned(s) == Assigned(s.body)
  {
  }

  lemma HeldKeepsRules(k: Packet)
    requires IsHeldPacket(k)
    ensures KeepsRules(k.io, k.plan, HELD, false) && Assigned(HELD) == {"c", "d", "x", "o"}
  {
    var c, d := Assign("c", Const(YES)), Assign("d", Const(YES));
    RoundKeepsRules(k);
    LoopKeepsRules(k.io, k.plan, TWICE);
    TwoKeepRules(k.io, k.plan, d, TWICE, false);
    TwoKeepRules(k.io, k.plan, c, Block([d, TWICE]), false);
  }

  /** A block of two is not scoped where its second statement is not. */
  lemma SecondNotScoped(io: Interface, s: Stmt, t: Stmt, scope: set<Name>)
    requires !Scoped(io, t, ScopeAfter(s, scope))
    ensures !Scoped(io, Block([s, t]), scope)
  {
    BlockOfTwo(io, Plan({}, {}), s, t, scope, false, false);
  }

  lemma FirstNotScoped(io: Interface, s: Stmt, t: Stmt, scope: set<Name>)
    requires !Scoped(io, s, scope)
    ensures !Scoped(io, Block([s, t]), scope)
  {
    BlockOfTwo(io, Plan({}, {}), s, t, scope, false, false);
  }

  lemma HeldIsNotScoped(io: Interface)
    ensures !Scoped(io, HELD, {"o"})
  {
    var c, d, scope := Assign("c", Const(YES)), Assign("d", Const(YES)), {"o"} + {"c"} + {"d"};
    FirstNotScoped(io, OUT, STEP, scope);
    SecondNotScoped(io, FIRST, Block([OUT, STEP]), scope);
    SecondNotScoped(io, d, TWICE, {"o"} + {"c"});
    SecondNotScoped(io, c, Block([d, TWICE]), {"o"});
  }

  /** The shader keeps all other rules, with a plan the analysis gives. */
  lemma HeldMeetsTheRest(k: Packet)
    requires IsHeldPacket(k)
    ensures NamesDistinct(k.io) && WellFormed(HELD, false) && LoopsBeforeEscapes(HELD, false) && !DiscardInLoop(HELD)
    ensures Justified(k.io, HELD, false, k.plan) && Decided(k.io, HELD, false, k.plan) && k.plan.divergent <= Assigned(HELD)
    ensures !Scoped(k.io, HELD, k.io.inputs + k.io.outputs + k.io.globals)
  {
    HeldKeepsRules(k);
    NoDiscardAnywhere(HELD);
    DecidedIsJustified(k.io, HELD, false, k.plan);
    HeldIsNotScoped(k.io);
    assert k.io.inputs + k.io.outputs + k.io.globals == {"o"};
  }

  lemma {:induction false} NoDiscardAnywhere(s: Stmt)
    requires !ContainsDiscard(s)
    ensures !DiscardInLoop(s)
  {
    match s
    case Block(ss) => forall i | 0 <= i < |ss| ensures !DiscardInLoop(ss[i]) { NoDiscardAnywhere(ss[i]); }
    case If(_, t, e) =>
      NoDiscardAnywhere(t);
      if e.Some? { NoDiscardAnywhere(e.value); }
    case _ =>
  }

  // ---- emission ----

  lemma HeldEmitted(k: Packet)
    requires IsHeldPacket(k)
    ensures !Compile(k.io, k.plan, HELD).e.bailed
  {
    var c, d := Assign("c", Const(YES)), Assign("d", Const(YES));
    AssignEmitted(k.io, k.plan, "c", Const(YES), START);
    var e1 := Emit(k.io, k.plan, c, START).e;
    AssignEmitted(k.io, k.plan, "d", Const(YES), e1);
    TwiceEmitted(k, Emit(k.io, k.plan, d, e1).e);
    TwoEmitted(k.io, k.plan, d, TWICE, e1);
    TwoEmitted(k.io, k.plan, c, Block([d, TWICE]), START);
  }

  lemma TwiceEmitted(k: Packet, e: Emitter)
    requires IsHeldPacket(k) && !e.bailed && {"c", "d"} <= e.locals
    ensures Emits(k.io, k.plan, TWICE, e)
  {
    AssignEmitted(k.io, k.plan, "x", Const(YES), ThenEmitter(e));
    IfEmitted(k.io, k.plan, FIRST, e);
    var e1 := Emit(k.io, k.plan, FIRST, e).e;
    AssignEmitted(k.io, k.plan, "o", Var("x"), e1);
    StepEmitted(k, Emit(k.io, k.plan, OUT, e1).e);
    TwoEmitted(k.io, k.plan, OUT, STEP, e1);
    TwoEmitted(k.io, k.plan, FIRST, Block([OUT, STEP]), e);
    UniformEmitted(k.io, k.plan, TWICE, e);
  }

  lemma StepEmitted(k: Packet, e: Emitter)
    requires IsHeldPacket(k) && !e.bailed && {"c", "d"} <= e.locals
    ensures Emits(k.io, k.plan, STEP, e)
  {
    AssignEmitted(k.io, k.plan, "c", Var("d"), e);
    AssignEmitted(k.io, k.plan, "d", Const(NO), Emit(k.io, k.plan, Assign("c", Var("d")), e).e);
    TwoEmitted(k.io, k.plan, Assign("c", Var("d")), Assign("d", Const(NO)), e);
  }

  // ---- what the packet does ----

  function Everywhere(w: nat, v: Val): seq<Val> {
    seq(w, _ => v)
  }

  /** Between the statements of the loop: all lanes on, c and d in scalar slots. */
  ghost predicate HeldState(k: Packet, p: PState, c: Val, d: Val) {
    && k.width > 0 && WellShaped(k, p) && p.em == AllLanes(k.width)
    && p.mem.uni == map["c" := c, "d" := d]
  }

  /** The slot of x is nulled, and written where d is set. */
  lemma FirstRuns(k: Packet, n: nat, p: PState, c: Val, d: Val)
    requires IsHeldPacket(k) && HeldState(k, p, c, d) && (d == YES || d == NO)
    ensures
      var r := Run(k, n, FIRST, {"c", "d"}, AllLanes(k.width), p);
      r == Ran(p.(mem := p.mem.(vec := p.mem.vec["x" := Everywhere(k.width, if d == YES then YES else k.o.zero("x"))])))
  {
    YesIsNotNo();
    var all, cm := AllLanes(k.width), CondMask(k, Var("d"), p.mem);
    assert forall l | 0 <= l < k.width :: LaneEval(k, Var("d"), p.mem, l) == d;
    assert forall l | 0 <= l < k.width :: Eff(k, And(all, cm), p)[l] == (d == YES);
    var v := Select(Eff(k, And(all, cm), p), VecEval(k, Const(YES), p.mem), NullVec(k, "x"));
    assert v == Everywhere(k.width, if d == YES then YES else k.o.zero("x"));
    assert !Guarded(FIRST.thn);
    assert Run(k, n, FIRST.thn, {"c", "d"}, And(all, cm), p) == Ran(p.(mem := p.mem.(vec := p.mem.vec["x" := v])));
  }

  lemma OutRuns(k: Packet, n: nat, p: PState, c: Val, d: Val, v: Val, seen: set<Name>)
    requires IsHeldPacket(k) && HeldState(k, p, c, d) && "x" in p.mem.vec && p.mem.vec["x"] == Everywhere(k.width, v)
    ensures Run(k, n, OUT, seen, AllLanes(k.width), p) == Ran(p.(mem := p.mem.(vec := p.mem.vec["o" := Everywhere(k.width, v)])))
  {
    var w := Select(Eff(k, AllLanes(k.width), p), VecEval(k, Var("x"), p.mem), VecSlot(k, p.mem, "o"));
    assert w == Everywhere(k.width, v);
  }

  lemma StepRuns(k: Packet, n: nat, p: PState, c: Val, d: Val, seen: set<Name>)
    requires IsHeldPacket(k) && HeldState(k, p, c, d)
    ensures Run(k, n, STEP, seen, AllLanes(k.width), p) == Ran(p.(mem := p.mem.(uni := map["c" := d, "d" := NO])))
  {
    var all, s, t := AllLanes(k.width), Assign("c", Var("d")), Assign("d", Const(NO));
    AllOfTwo(k, n, s, t, seen, all, p);
    assert VecEval(k, Var("d"), p.mem)[0] == d;
    var q := p.(mem := p.mem.(uni := p.mem.uni["c" := d]));
    assert Run(k, n, s, seen, all, p) == Ran(q);
    assert q.mem.uni["d" := NO] == map["c" := d, "d" := NO];
  }

  /** One round: x and o are set where d is, else null. */
  lemma RoundRuns(k: Packet, n: nat, p: PState, c: Val, d: Val)
    requires IsHeldPacket(k) && HeldState(k, p, c, d) && (d == YES || d == NO)
    ensures
      var r := Run(k, n, TWICE.body, {"c", "d"}, AllLanes(k.width), p);
      && r.Ran? && HeldState(k, r.p, d, NO) && r.p.live == p.live
      && "o" in r.p.mem.vec && r.p.mem.vec["o"] == Everywhere(k.width, if d == YES then YES else k.o.zero("x"))
  {
    var all, v := AllLanes(k.width), if d == YES then YES else k.o.zero("x");
    FirstRuns(k, n, p, c, d);
    var p1 := p.(mem := p.mem.(vec := p.mem.vec["x" := Everywhere(k.width, v)]));
    AllOfTwo(k, n, FIRST, Block([OUT, STEP]), {"c", "d"}, all, p);
    var seen := {"c", "d"} + Assigned(FIRST);
    OutRuns(k, n, p1, c, d, v, seen);
    var p2 := p1.(mem := p1.mem.(vec := p1.mem.vec["o" := Everywhere(k.width, v)]));
    AllOfTwo(k, n, OUT, STEP, seen, all, p1);
    StepRuns(k, n, p2, c, d, seen + Assigned(OUT));
  }

  /** Two rounds from c = d = YES: the second finds the slot of x null. */
  lemma TwiceRuns(k: Packet, p: PState)
    requires IsHeldPacket(k) && HeldState(k, p, YES, YES)
    ensures
      var r := Run(k, 2, TWICE, {"c", "d"}, AllLanes(k.width), p);
      r.Ran? && r.p.live == p.live && "o" in r.p.mem.vec && r.p.mem.vec["o"] == Everywhere(k.width, k.o.zero("x"))
  {
    var all, seen := AllLanes(k.width), {"c", "d"};
    RoundRuns(k, 2, p, YES, YES);
    var p1 := Run(k, 2, TWICE.body, seen, all, p).p;
    RoundRuns(k, 1, p1, YES, NO);
    var p2 := Run(k, 1, TWICE.body, seen, all, p1).p;
    UniformTest(k, p, YES, YES);
    UniformTest(k, p1, YES, NO);
    UniformTest(k, p2, NO, NO);
    YesIsNotNo();
    assert RunUniform(k, 0, TWICE, seen, all, p2) == Ran(p2);
    assert RunUniform(k, 1, TWICE, seen, all, p1) == RunUniform(k, 0, TWICE, seen, all, p2);
    assert RunUniform(k, 2, TWICE, seen, all, p) == RunUniform(k, 1, TWICE, seen, all, p1);
    assert Run(k, 2, TWICE, seen, all, p) == RunUniform(k, 2, TWICE, seen, all, p);
  }

  lemma UniformTest(k: Packet, p: PState, c: Val, d: Val)
    requires IsHeldPacket(k) && HeldState(k, p, c, d)
    ensures CondMask(k, TWICE.cond, p.mem)[0] == k.o.truth(c)
  {
    assert LaneEval(k, Var("c"), p.mem, 0) == c;
  }

  lemma HeldRuns(k: Packet, p: PState)
    requires IsHeldPacket(k) && k.width > 0 && WellShaped(k, p) && p.em == AllLanes(k.width) && p.mem.uni == map[]
    ensures
      var r := Run(k, 2, HELD, {}, AllLanes(k.width), p);
      r.Ran? && r.p.live == p.live && "o" in r.p.mem.vec && r.p.mem.vec["o"] == Everywhere(k.width, k.o.zero("x"))
  {
    var all, c, d := AllLanes(k.width), Assign("c", Const(YES)), Assign("d", Const(YES));
    var p1 := p.(mem := p.mem.(uni := map["c" := YES]));
    var p2 := p1.(mem := p1.mem.(uni := map["c" := YES, "d" := YES]));
    assert VecEval(k, Const(YES), p.mem)[0] == YES == VecEval(k, Const(YES), p1.mem)[0];
    assert p.mem.uni["c" := YES] == p1.mem.uni && p1.mem.uni["d" := YES] == p2.mem.uni;
    AllOfTwo(k, 2, c, Block([d, TWICE]), {}, all, p);
    assert Run(k, 2, c, {}, all, p) == Ran(p1);
    AllOfTwo(k, 2, d, TWICE, {} + Assigned(c), all, p1);
    assert Run(k, 2, d, {} + Assigned(c), all, p1) == Ran(p2);
    assert {} + Assigned(c) + Assigned(d) == {"c", "d"};
    TwiceRuns(k, p2);
  }

  // ---- what an invocation does ----

  ghost predicate IsHeldOps(o: Ops) {
    o == OPS.(zero := o.zero)
  }

  lemma RoundExec(o: Ops, n: nat, t: S.State)
    requires IsHeldOps(o) && "d" in t.vars && (t.vars["d"] == YES || (t.vars["d"] == NO && "x" in t.vars))
    ensures
      var x := if t.vars["d"] == YES then YES else t.vars["x"];
      S.Exec(o, true, n, TWICE.body, t)
      == S.Done(S.Normal, t.(vars := t.vars["x" := x]["o" := x]["c" := t.vars["d"]]["d" := NO]))
  {
    YesIsNotNo();
    var d, x := t.vars["d"], if t.vars["d"] == YES then YES else t.vars["x"];
    var t1 := t.(vars := t.vars["x" := x]);
    var t2 := t1.(vars := t1.vars["o" := x]);
    ExecOfTwo(o, n, FIRST, Block([OUT, STEP]), t);
    assert t.vars["x" := x] == if d == YES then t.vars["x" := YES] else t.vars;
    assert S.Exec(o, true, n, FIRST, t) == S.Done(S.Normal, t1);
    ExecOfTwo(o, n, OUT, STEP, t1);
    assert S.Exec(o, true, n, OUT, t1) == S.Done(S.Normal, t2);
    ExecOfTwo(o, n, Assign("c", Var("d")), Assign("d", Const(NO)), t2);
  }

  /** The invocation keeps x from the first round to the second. Its output is the same whatever a name that was never
      assigned would read as: none is read. */
  lemma HeldExec(o: Ops, t: S.State)
    requires IsHeldOps(o)
    ensures
      var r := S.Exec(o, true, 2, HELD, t);
      r.Done? && r.flow.Normal? && r.st.live == t.live && "o" in r.st.vars && r.st.vars["o"] == YES
  {
    YesIsNotNo();
    var c, d := Assign("c", Const(YES)), Assign("d", Const(YES));
    var t1 := t.(vars := t.vars["c" := YES]);
    var t2 := t1.(vars := t1.vars["d" := YES]);
    ExecOfTwo(o, 2, c, Block([d, TWICE]), t);
    ExecOfTwo(o, 2, d, TWICE, t1);
    RoundExec(o, 2, t2);
    var t3 := S.Exec(o, true, 2, TWICE.body, t2).st;
    RoundExec(o, 1, t3);
    var t4 := S.Exec(o, true, 1, TWICE.body, t3).st;
    assert S.ExecLoop(o, true, 0, TWICE, t4) == S.Done(S.Normal, t4);
    assert S.ExecLoop(o, true, 1, TWICE, t3) == S.ExecLoop(o, true, 0, TWICE, t4);
    assert S.ExecLoop(o, true, 2, TWICE, t2) == S.ExecLoop(o, true, 1, TWICE, t3);
  }

  // ---- the code ----

  lemma HeldWritesLocals(k: Packet)
    requires IsHeldPacket(k)
    ensures WritesLocals(k.io, HELD)
  {
    assert k.io.inputs + k.io.globals == {};
  }

  lemma HeldCodeRuns(k: Packet, a: Lanes, l: nat)
    requires IsHeldPacket(k) && l < k.width == |a.inputs|
    ensures
      var out := Compile(k.io, k.plan, HELD);
      var f := DoAll(k, 2, out.code, EntryMachine(k, a));
      && !out.e.bailed && f.Halted? && MaskOf(k, f.c, out.e.live)[l] && VecSlot(k, f.c.mem, "o")[l] == k.o.zero("x")
  {
    HeldMeetsTheRest(k);
    HeldWritesLocals(k);
    HeldEmitted(k);
    CompiledRuns(k, 2, HELD, a);
    HeldRuns(k, EntryState(k, a));
  }

  /** A name that is kept from one round of a loop to the next, and first assigned under a condition: at every width and
      on every input, the code that is emitted without complaint halts, and every lane is live and holds the null value
      where its invocation has 1.0. */
  lemma LateSlotFails(k: Packet, a: Lanes, l: nat)
    requires IsHeldPacket(k) && l < k.width == |a.inputs| && k.o.zero("x") != YES
    ensures
      var out := Compile(k.io, k.plan, HELD);
      var f := DoAll(k, 2, out.code, EntryMachine(k, a));
      var own := S.Exec(k.o, true, 2, HELD, Invocation(k, a, l));
      && !out.e.bailed && f.Halted? && own.Done? && own.st.live && MaskOf(k, f.c, out.e.live)[l]
      && "o" in k.io.outputs && VecSlot(k, f.c.mem, "o")[l] != S.Read(k.o, own.st.vars, "o")
  {
    HeldCodeRuns(k, a, l);
    HeldExec(k.o, Invocation(k, a, l));
  }

  /** ... so the theorem of PacketCompiler does not hold without the rule. */
  lemma LateSlotIsIncorrect(k: Packet, a: Lanes)
    requires IsHeldPacket(k) && k.width == |a.inputs| > 0 && k.o.zero("x") != YES
    ensures var out := Compile(k.io, k.plan, HELD); !Correct(k, 2, HELD, a, out.code, out.e.live)
  {
    LateSlotFails(k, a, 0);
  }
}
