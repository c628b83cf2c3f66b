/** Where the code that computes for all lanes at once stands: under no mask. */
module UniformPlacement {
  import opened ShaderAst
  import opened Uniformity
  import opened PacketSemantics
  import opened VectorCode
  import opened PacketEmitter

  /** Nothing in it is done once for all lanes: no store of lane 0, no loop that tests lane 0. */
  predicate Lanewise(i: Instr) {
    match i
    case StoreLaneZero(_, _) => false
    case UniLoop(_, _) => false
    case SkipUnlessAny(_, run) => LanewiseAll(run)
    case MaskLoop(head, _, body) => LanewiseAll(head) && LanewiseAll(body)
    case _ => true
  }

  predicate LanewiseAll(code: seq<Instr>) {
    forall j | 0 <= j < |code| :: Lanewise(code[j])
  }

  /** What is done once for all lanes is neither in a masked loop nor in a guarded arm. */
  predicate Placed(i: Instr) {
    match i
    case UniLoop(_, body) => PlacedAll(body)
    case SkipUnlessAny(_, _) => Lanewise(i)
    case MaskLoop(_, _, _) => Lanewise(i)
    case _ => true
  }

  predicate PlacedAll(code: seq<Instr>) {
    forall j | 0 <= j < |code| :: Placed(code[j])
  }

  lemma LanewiseIsPlaced(code: seq<Instr>)
    requires LanewiseAll(code)
    ensures PlacedAll(code)
  {
    forall j | 0 <= j < |code| ensures Placed(code[j]) { assert Lanewise(code[j]); }
  }

  lemma LanewiseJoin(a: seq<Instr>, b: seq<Instr>)
    requires LanewiseAll(a) && LanewiseAll(b)
    ensures LanewiseAll(a + b)
  {
  }

  lemma PlacedJoin(a: seq<Instr>, b: seq<Instr>)
    requires PlacedAll(a) && PlacedAll(b)
    ensures PlacedAll(a + b)
  {
  }

  // ---- under a condition ----

  lemma {:induction false} DivergentIsLanewise(io: Interface, plan: Plan, s: Stmt, e: Emitter)
    requires Justified(io, s, true, plan)
    ensures LanewiseAll(Emit(io, plan, s, e).code)
    decreases s, 1
  {
    if e.bailed { return; }
    match s
    case Block(ss) => AllLanewise(io, plan, ss, e);
    case If(_, _, _) => IfLanewise(io, plan, s, e, true);
    case For(_, pre, _, _, _) =>
      var p := Emit(io, plan, pre, e);
      DivergentIsLanewise(io, plan, pre, e);
      LoopLanewise(io, plan, s, p.e);
      LanewiseJoin(p.code, EmitLoop(io, plan, s, p.e).code);
    case While(_, _, _) => LoopLanewise(io, plan, s, e);
    case _ => SimpleLanewise(io, plan, s, e);
  }

  lemma SimpleLanewise(io: Interface, plan: Plan, s: Stmt, e: Emitter)
    requires Justified(io, s, true, plan) && !IsLoop(s) && !s.Block? && !s.If?
    ensures LanewiseAll(Emit(io, plan, s, e).code)
  {
    match s
    case Assign(x, v) =>
      if !e.bailed && CanEmit(io, v, e.locals) {
        AssignCases(io, plan, x, v, e);
        BlendedLanewise(x, v, e);
        FirstLanewise(x, v, e);
      }
    case _ => OtherLanewise(io, plan, s, e);
  }

  lemma EffLanewise(e: Emitter)
    ensures LanewiseAll(EffMask(e).code)
  {
  }

  lemma BlendedLanewise(x: Name, v: Expr, e: Emitter)
    ensures LanewiseAll(EmitBlended(x, v, e).code)
  {
    var f := EffMask(e.(next := e.next + 1));
    EffLanewise(e.(next := e.next + 1));
    LanewiseJoin(f.code, [Store(x, e.next, f.m)]);
    LanewiseJoin([Let(e.next, v)], f.code + [Store(x, e.next, f.m)]);
  }

  lemma FirstLanewise(x: Name, v: Expr, e: Emitter)
    ensures LanewiseAll(EmitFirst(x, v, e).code)
  {
    var f := EffMask(e.(next := e.next + 1, locals := e.locals + {x}));
    EffLanewise(e.(next := e.next + 1, locals := e.locals + {x}));
    LanewiseJoin(f.code, [Store(x, e.next, f.m)]);
    LanewiseJoin([Null(x, false)], f.code + [Store(x, e.next, f.m)]);
    LanewiseJoin([Let(e.next, v)], [Null(x, false)] + (f.code + [Store(x, e.next, f.m)]));
  }

  /** Everything but assignments, blocks, conditionals and loops. */
  lemma OtherLanewise(io: Interface, plan: Plan, s: Stmt, e: Emitter)
    requires !IsLoop(s) && !s.Block? && !s.If? && !s.Assign?
    ensures LanewiseAll(Emit(io, plan, s, e).code)
  {
    if e.bailed { return; }
    match s
    case MemberAssign(x, m, v) =>
      if x in io.outputs && CanEmit(io, v, e.locals) && IsSwizzle(m) {
        MemberShape(io, x, m, v, e);
        EffLanewise(e.(next := e.next + 1));
        InsertLanewise(x, m, v, e.next, EffMask(e.(next := e.next + 1)));
      }
    case Discard => DiscardLanewise(e);
    case Break => if e.la.Some? && e.em.Some? { BreakLanewise(e); }
    case Continue =>
      if e.em.Some? {
        EffLanewise(e);
        ClearLanewise(e.em.value, EffMask(e).m, EffMask(e).e.next);
        LanewiseJoin(EffMask(e).code, Clear(e.em.value, EffMask(e).m, EffMask(e).e.next));
      }
    case Other =>
  }

  lemma InsertLanewise(x: Name, member: string, v: Expr, r: nat, f: Effective)
    requires LanewiseAll(f.code)
    ensures LanewiseAll([Let(r, v)] + (f.code + [Insert(x, member, r, f.m)]))
  {
    LanewiseJoin(f.code, [Insert(x, member, r, f.m)]);
    LanewiseJoin([Let(r, v)], f.code + [Insert(x, member, r, f.m)]);
  }

  lemma DiscardLanewise(e: Emitter)
    ensures LanewiseAll(EmitDiscard(e).code)
  {
    var f := EffMask(e);
    EffLanewise(e);
    LanewiseJoin(f.code, [Def(f.e.next, Minus(e.live, f.m))]);
  }

  lemma ClearLanewise(slot: nat, m: Operand, r: nat)
    ensures LanewiseAll(Clear(slot, m, r))
  {
  }

  lemma BreakLanewise(e: Emitter)
    requires e.la.Some? && e.em.Some?
    ensures LanewiseAll(EmitBreak(e).code)
  {
    var f := EffMask(e);
    EffLanewise(e);
    ClearLanewise(e.em.value, f.m, f.e.next);
    ClearLanewise(e.la.value, f.m, f.e.next + 2);
    LanewiseJoin(Clear(e.em.value, f.m, f.e.next), Clear(e.la.value, f.m, f.e.next + 2));
    LanewiseJoin(f.code, Clear(e.em.value, f.m, f.e.next) + Clear(e.la.value, f.m, f.e.next + 2));
  }

  /** Both arms of an `if` count as divergent wherever it stands. */
  lemma {:induction false} IfLanewise(io: Interface, plan: Plan, s: Stmt, e: Emitter, divergentCF: bool)
    requires s.If? && Justified(io, s, divergentCF, plan)
    ensures LanewiseAll(Emit(io, plan, s, e).code)
    decreases s, 0
  {
    if e.bailed || !CanEmit(io, s.cond, e.locals) { return; }
    var a := EmitArm(io, plan, s.thn, ThenEmitter(e));
    ArmLanewise(io, plan, s.thn, ThenEmitter(e));
    if s.els.Some? {
      var b := EmitArm(io, plan, s.els.value, ElseEmitter(a.e));
      ArmLanewise(io, plan, s.els.value, ElseEmitter(a.e));
      LanewiseJoin(ElseMask(e, a.e), b.code);
      LanewiseJoin(a.code, ElseMask(e, a.e) + b.code);
      LanewiseJoin(ThenMask(s.cond, e), a.code + (ElseMask(e, a.e) + b.code));
    } else {
      LanewiseJoin(ThenMask(s.cond, e), a.code);
    }
  }

  lemma {:induction false} AllLanewise(io: Interface, plan: Plan, ss: seq<Stmt>, e: Emitter)
    requires forall j | 0 <= j < |ss| :: Justified(io, ss[j], true, plan)
    ensures LanewiseAll(EmitAll(io, plan, ss, e).code)
    decreases ss, 0
  {
    if ss != [] {
      var a := Emit(io, plan, ss[0], e);
      DivergentIsLanewise(io, plan, ss[0], e);
      AllLanewise(io, plan, ss[1..], a.e);
      LanewiseJoin(a.code, EmitAll(io, plan, ss[1..], a.e).code);
    }
  }

  lemma {:induction false} ArmLanewise(io: Interface, plan: Plan, s: Stmt, e: Emitter)
    requires Justified(io, s, true, plan)
    ensures LanewiseAll(EmitArm(io, plan, s, e).code)
    decreases s, 2
  {
    DivergentIsLanewise(io, plan, s, e);
    DivergentIsLanewise(io, plan, s, EffMask(e).e);
  }

  lemma {:induction false} LoopLanewise(io: Interface, plan: Plan, s: Stmt, e: Emitter)
    requires IsLoop(s) && Justified(io, s, true, plan)
    ensures LanewiseAll(EmitLoop(io, plan, s, e).code)
    decreases s, 0, 1
  {
    assert s.id !in plan.loops;
    MaskedLanewise(io, plan, s, e);
  }

  /** A masked loop, whatever it stands in. */
  lemma {:induction false} MaskedLanewise(io: Interface, plan: Plan, s: Stmt, e: Emitter)
    requires IsLoop(s) && Justified(io, s.body, true, plan) && (Step(s).Some? ==> Justified(io, Step(s).value, true, plan))
    ensures LanewiseAll(EmitMasked(io, plan, s, e).code)
    decreases s, 0, 0
  {
    var b := Emit(io, plan, s.body, BodyEmitter(e));
    DivergentIsLanewise(io, plan, s.body, BodyEmitter(e));
    if Step(s).Some? { DivergentIsLanewise(io, plan, Step(s).value, StepEmitter(b.e)); }
    var i := EmitStep(io, plan, s, StepEmitter(b.e));
    assert LanewiseAll(i.code);
    BodyLanewise(s, e.slots, b, i);
    LoopCodeLanewise(s.cond, e, b.code + (StepMask(s, e.slots, b.e.next) + i.code));
    MaskedShape(io, plan, s, e);
  }

  lemma BodyLanewise(s: Stmt, la: nat, b: Emitted, i: Emitted)
    requires IsLoop(s) && LanewiseAll(b.code) && LanewiseAll(i.code)
    ensures LanewiseAll(b.code + (StepMask(s, la, b.e.next) + i.code))
  {
    LanewiseJoin(StepMask(s, la, b.e.next), i.code);
    LanewiseJoin(b.code, StepMask(s, la, b.e.next) + i.code);
  }

  lemma MaskedShape(io: Interface, plan: Plan, s: Stmt, e: Emitter)
    requires IsLoop(s)
    ensures
      var b := Emit(io, plan, s.body, BodyEmitter(e));
      var i := EmitStep(io, plan, s, StepEmitter(b.e));
      var rest := b.code + (StepMask(s, e.slots, b.e.next) + i.code);
      EmitMasked(io, plan, s, e).code ==
      [StoreMask(e.slots, e.mask)] +
      [MaskLoop(LoopHead(s.cond, e.slots, e.next), Reg(e.next + 2), LoopTop(e.slots, e.slots + 1, e.next + 3) + rest)]
  {
  }

  lemma LoopCodeLanewise(cond: Expr, e: Emitter, rest: seq<Instr>)
    requires LanewiseAll(rest)
    ensures
      var head, top := LoopHead(cond, e.slots, e.next), LoopTop(e.slots, e.slots + 1, e.next + 3);
      LanewiseAll([StoreMask(e.slots, e.mask)] + [MaskLoop(head, Reg(e.next + 2), top + rest)])
  {
    var head, top := LoopHead(cond, e.slots, e.next), LoopTop(e.slots, e.slots + 1, e.next + 3);
    assert LanewiseAll(head) && LanewiseAll(top);
    LanewiseJoin(top, rest);
    assert Lanewise(MaskLoop(head, Reg(e.next + 2), top + rest)) && Lanewise(StoreMask(e.slots, e.mask));
  }

  /** Under the plan that masks everything nothing is done once for all lanes. */
  lemma FullyMaskedIsLanewise(io: Interface, s: Stmt, e: Emitter)
    ensures LanewiseAll(Emit(io, FullyMasked(s), s, e).code)
  {
    MaskedIsJustified(io, s, true, FullyMasked(s));
    DivergentIsLanewise(io, FullyMasked(s), s, e);
  }

  // ---- a whole shader ----

  /** Where a plan justifies its decisions, stores of lane 0 and loops that test lane 0 are emitted outside all
      masked loops and guarded arms, and none in an `if`: every lane executes them. */
  lemma {:induction false} UniformIsUnmasked(io: Interface, plan: Plan, s: Stmt, e: Emitter)
    requires Justified(io, s, false, plan)
    ensures PlacedAll(Emit(io, plan, s, e).code)
    ensures s.If? ==> LanewiseAll(Emit(io, plan, s, e).code)
    decreases s, 1
  {
    if e.bailed { return; }
    match s
    case Block(ss) => AllPlaced(io, plan, ss, e);
    case If(_, _, _) =>
      IfLanewise(io, plan, s, e, false);
      LanewiseIsPlaced(Emit(io, plan, s, e).code);
    case For(_, pre, _, _, _) =>
      var p := Emit(io, plan, pre, e);
      UniformIsUnmasked(io, plan, pre, e);
      LoopPlaced(io, plan, s, p.e);
      PlacedJoin(p.code, EmitLoop(io, plan, s, p.e).code);
    case While(_, _, _) => LoopPlaced(io, plan, s, e);
    case _ => SimplePlaced(io, plan, s, e);
  }

  lemma SimplePlaced(io: Interface, plan: Plan, s: Stmt, e: Emitter)
    requires !IsLoop(s) && !s.Block? && !s.If?
    ensures PlacedAll(Emit(io, plan, s, e).code)
  {
    match s
    case Assign(x, v) =>
      if !e.bailed && CanEmit(io, v, e.locals) {
        AssignCases(io, plan, x, v, e);
        BlendedLanewise(x, v, e);
        FirstLanewise(x, v, e);
        ScalarPlaced(x, v, e);
        LanewiseIsPlaced(EmitBlended(x, v, e).code);
        LanewiseIsPlaced(EmitFirst(x, v, e).code);
      }
    case _ =>
      OtherLanewise(io, plan, s, e);
      LanewiseIsPlaced(Emit(io, plan, s, e).code);
  }

  lemma ScalarPlaced(x: Name, v: Expr, e: Emitter)
    ensures PlacedAll(EmitScalar(x, v, e).code)
  {
  }

  lemma {:induction false} AllPlaced(io: Interface, plan: Plan, ss: seq<Stmt>, e: Emitter)
    requires forall j | 0 <= j < |ss| :: Justified(io, ss[j], false, plan)
    ensures PlacedAll(EmitAll(io, plan, ss, e).code)
    decreases ss, 0
  {
    if ss != [] {
      var a := Emit(io, plan, ss[0], e);
      UniformIsUnmasked(io, plan, ss[0], e);
      AllPlaced(io, plan, ss[1..], a.e);
      PlacedJoin(a.code, EmitAll(io, plan, ss[1..], a.e).code);
    }
  }

  lemma {:induction false} LoopPlaced(io: Interface, plan: Plan, s: Stmt, e: Emitter)
    requires IsLoop(s) && Justified(io, s, false, plan)
    ensures PlacedAll(EmitLoop(io, plan, s, e).code)
    decreases s, 0, 1
  {
    if s.id in plan.loops {
      var b := Emit(io, plan, s.body, e);
      UniformIsUnmasked(io, plan, s.body, e);
      if Step(s).Some? { UniformIsUnmasked(io, plan, Step(s).value, b.e); }
      assert PlacedAll(EmitStep(io, plan, s, b.e).code);
      PlacedJoin(b.code, EmitStep(io, plan, s, b.e).code);
    } else {
      MaskedLanewise(io, plan, s, e);
      LanewiseIsPlaced(EmitMasked(io, plan, s, e).code);
    }
  }
}
