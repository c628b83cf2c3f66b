/** The emitted vector code computes the packet meaning of the statement it was emitted for. */
module EmitterCorrectness {
  import opened ShaderAst
  import opened Uniformity
  import opened PacketSemantics
  import opened VectorCode
  import opened PacketEmitter

  /** A `discard` under a loop: its SSA definition of live_ could not dominate the end of the shader. */
  predicate DiscardInLoop(s: Stmt) {
    match s
    case Block(ss) => exists i | 0 <= i < |ss| :: DiscardInLoop(ss[i])
    case If(_, t, e) => DiscardInLoop(t) || (e.Some? && DiscardInLoop(e.value))
    case For(_, _, _, b, _) => ContainsDiscard(b)
    case While(_, _, b) => ContainsDiscard(b)
    case _ => false
  }

  /** Inputs and globals are never written. */
  predicate WritesLocals(io: Interface, s: Stmt) {
    Assigned(s) !! io.inputs + io.globals
  }

  ghost predicate Fresh(e: Emitter) {
    && (e.mask.Reg? ==> e.mask.id < e.next)
    && (e.live.Reg? ==> e.live.id < e.next)
    && (e.la.Some? ==> e.la.value < e.slots)
    && (e.em.Some? ==> e.em.value < e.slots)
    && (e.la.Some? && e.em.Some? ==> e.la != e.em)
  }

  /** What emitting a statement does to the emitter itself. */
  ghost predicate Grows(io: Interface, s: Stmt, e: Emitter, e': Emitter) {
    && Fresh(e') && !e'.bailed
    && e.next <= e'.next && e.slots <= e'.slots
    && e'.mask == e.mask && e'.la == e.la && e'.em == e.em
    && e'.locals == e.locals + (Assigned(s) - io.outputs)
    && (!ContainsDiscard(s) ==> e'.live == e.live)
  }

  lemma BailIsFinal(io: Interface, plan: Plan, s: Stmt, e: Emitter)
    requires e.bailed
    ensures Emit(io, plan, s, e).e == e && EmitArm(io, plan, s, e).e == e
  {
  }

  lemma {:induction false} EmitGrows(io: Interface, plan: Plan, s: Stmt, e: Emitter)
    requires Fresh(e) && !Emit(io, plan, s, e).e.bailed && WellFormed(s, true)
    ensures !e.bailed && Grows(io, s, e, Emit(io, plan, s, e).e)
    decreases s, 1
  {
    match s
    case Block(ss) => EmitAllGrows(io, plan, ss, e);
    case If(_, _, _) => EmitIfGrows(io, plan, s, e);
    case For(_, pre, _, _, _) =>
      EmitGrows(io, plan, pre, e);
      EmitLoopGrows(io, plan, s, Emit(io, plan, pre, e).e);
    case While(_, _, _) => EmitLoopGrows(io, plan, s, e);
    case _ => EmitSimpleGrows(io, plan, s, e);
  }

  lemma EmitSimpleGrows(io: Interface, plan: Plan, s: Stmt, e: Emitter)
    requires Fresh(e) && !Emit(io, plan, s, e).e.bailed && !IsLoop(s) && !s.Block? && !s.If?
    ensures !e.bailed && Grows(io, s, e, Emit(io, plan, s, e).e)
  {
    EffGrows(e.(next := e.next + 1));
    match s
    case Assign(x, v) => AssignGrows(io, plan, x, v, e);
    case _ => EffGrows(e);
  }

  lemma EffGrows(e: Emitter)
    ensures
      var f := EffMask(e).e;
      e.next <= f.next && f == e.(next := f.next) && (EffMask(e).m.Reg? ==> EffMask(e).m == e.mask || EffMask(e).m.id < f.next)
  {
  }

  lemma AssignGrows(io: Interface, plan: Plan, x: Name, v: Expr, e: Emitter)
    requires Fresh(e) && !e.bailed && !EmitAssign(io, plan, x, v, e).e.bailed
    ensures Grows(io, Assign(x, v), e, EmitAssign(io, plan, x, v, e).e)
  {
    AssignMoves(io, plan, x, v, e);
    if x in io.outputs { assert {x} - io.outputs == {}; } else { assert {x} - io.outputs == {x}; }
  }

  lemma AssignMoves(io: Interface, plan: Plan, x: Name, v: Expr, e: Emitter)
    requires !e.bailed && !EmitAssign(io, plan, x, v, e).e.bailed
    ensures
      var e' := EmitAssign(io, plan, x, v, e).e;
      e.next <= e'.next && e' == e.(next := e'.next, locals := if x in io.outputs then e.locals else e.locals + {x})
  {
    AssignCases(io, plan, x, v, e);
    EffGrows(e.(next := e.next + 1));
    EffGrows(e.(next := e.next + 1, locals := e.locals + {x}));
    if x in e.locals { assert e.locals + {x} == e.locals; }
  }

  lemma {:induction false} EmitIfGrows(io: Interface, plan: Plan, s: Stmt, e: Emitter)
    requires s.If? && Fresh(e) && !Emit(io, plan, s, e).e.bailed && WellFormed(s, true)
    ensures !e.bailed && Grows(io, s, e, Emit(io, plan, s, e).e)
    decreases s, 0
  {
    var a := EmitArm(io, plan, s.thn, ThenEmitter(e));
    if s.els.Some? {
      if a.e.bailed { BailIsFinal(io, plan, s.els.value, ElseEmitter(a.e)); }
      EmitArmGrows(io, plan, s.thn, ThenEmitter(e));
      EmitArmGrows(io, plan, s.els.value, ElseEmitter(a.e));
    } else {
      EmitArmGrows(io, plan, s.thn, ThenEmitter(e));
    }
  }

  lemma {:induction false} EmitAllGrows(io: Interface, plan: Plan, ss: seq<Stmt>, e: Emitter)
    requires Fresh(e) && !e.bailed && !EmitAll(io, plan, ss, e).e.bailed && WellFormed(Block(ss), true)
    ensures Grows(io, Block(ss), e, EmitAll(io, plan, ss, e).e)
    decreases ss, 0
  {
    if ss != [] {
      var a := Emit(io, plan, ss[0], e);
      assert forall i | 0 <= i < |ss[1..]| :: ss[1..][i] == ss[i + 1];
      if a.e.bailed { BailAllIsFinal(io, plan, ss[1..], a.e); }
      EmitGrows(io, plan, ss[0], e);
      EmitAllGrows(io, plan, ss[1..], a.e);
      assert Assigned(Block(ss)) == Assigned(ss[0]) + Assigned(Block(ss[1..])) by { AssignedSplit(ss); }
    }
  }

  lemma AssignedSplit(ss: seq<Stmt>)
    requires ss != []
    ensures Assigned(Block(ss)) == Assigned(ss[0]) + Assigned(Block(ss[1..]))
  {
    assert forall i | 0 < i < |ss| :: ss[i] == ss[1..][i - 1];
    assert forall i | 0 <= i < |ss[1..]| :: ss[1..][i] == ss[i + 1];
  }

  lemma {:induction false} BailAllIsFinal(io: Interface, plan: Plan, ss: seq<Stmt>, e: Emitter)
    requires e.bailed
    ensures EmitAll(io, plan, ss, e).e == e
    decreases ss
  {
    if ss != [] { BailAllIsFinal(io, plan, ss[1..], e); }
  }

  lemma {:induction false} EmitArmGrows(io: Interface, plan: Plan, s: Stmt, e: Emitter)
    requires Fresh(e) && !EmitArm(io, plan, s, e).e.bailed && WellFormed(s, true)
    ensures !e.bailed && Grows(io, s, e, EmitArm(io, plan, s, e).e)
    decreases s, 2
  {
    if e.bailed || !Guarded(s) { EmitGrows(io, plan, s, e); } else { EmitGrows(io, plan, s, EffMask(e).e); }
  }

  lemma {:induction false} EmitLoopGrows(io: Interface, plan: Plan, s: Stmt, e: Emitter)
    requires IsLoop(s) && Fresh(e) && !e.bailed && !EmitLoop(io, plan, s, e).e.bailed && WellFormed(s, true)
    ensures LoopGrows(io, s, e, EmitLoop(io, plan, s, e).e)
    decreases s, 0, 2
  {
    if s.id in plan.loops {
      EmitBodyGrows(io, plan, s, e);
    } else {
      EmitMaskedGrows(io, plan, s, e);
    }
  }

  ghost predicate LoopGrows(io: Interface, s: Stmt, e: Emitter, e': Emitter)
    requires IsLoop(s)
  {
    && Fresh(e') && !e'.bailed && e.next <= e'.next && e.slots <= e'.slots
    && e'.mask == e.mask && e'.la == e.la && e'.em == e.em
    && e'.locals == e.locals + ((Assigned(s.body) + StepAssigned(s)) - io.outputs)
    && (!ContainsDiscard(s.body) ==> e'.live == e.live)
  }

  lemma {:induction false} EmitBodyGrows(io: Interface, plan: Plan, s: Stmt, e: Emitter)
    requires IsLoop(s) && Fresh(e) && !e.bailed && WellFormed(s, true)
    requires !EmitStep(io, plan, s, Emit(io, plan, s.body, e).e).e.bailed
    ensures LoopGrows(io, s, e, EmitStep(io, plan, s, Emit(io, plan, s.body, e).e).e)
    decreases s, 0, 1
  {
    var b := Emit(io, plan, s.body, e);
    if b.e.bailed { BailStepIsFinal(io, plan, s, b.e); }
    EmitGrows(io, plan, s.body, e);
    EmitStepGrows(io, plan, s, b.e);
  }

  lemma {:induction false} EmitMaskedGrows(io: Interface, plan: Plan, s: Stmt, e: Emitter)
    requires IsLoop(s) && Fresh(e) && !e.bailed && !EmitMasked(io, plan, s, e).e.bailed && WellFormed(s, true)
    ensures LoopGrows(io, s, e, EmitMasked(io, plan, s, e).e)
    decreases s, 0, 1
  {
    var b := Emit(io, plan, s.body, BodyEmitter(e));
    var ei := StepEmitter(b.e);
    if b.e.bailed { BailStepIsFinal(io, plan, s, ei); }
    EmitGrows(io, plan, s.body, BodyEmitter(e));
    EmitStepGrows(io, plan, s, ei);
  }

  function StepAssigned(s: Stmt): set<Name>
    requires IsLoop(s)
  {
    if Step(s).Some? then Assigned(Step(s).value) else {}
  }

  lemma BailStepIsFinal(io: Interface, plan: Plan, s: Stmt, e: Emitter)
    requires IsLoop(s) && e.bailed
    ensures EmitStep(io, plan, s, e).e.bailed
  {
  }

  lemma {:induction false} EmitStepGrows(io: Interface, plan: Plan, s: Stmt, e: Emitter)
    requires IsLoop(s) && Fresh(e) && !e.bailed && !EmitStep(io, plan, s, e).e.bailed && WellFormed(s, true)
    ensures
      var e' := EmitStep(io, plan, s, e).e;
      && Fresh(e') && !e'.bailed && e.next <= e'.next && e.slots <= e'.slots
      && e'.mask == e.mask && e'.la == e.la && e'.em == e.em && e'.live == e.live
      && e'.locals == e.locals + (StepAssigned(s) - io.outputs)
    decreases s, 0, 0
  {
    if Step(s).Some? { EmitGrows(io, plan, Step(s).value, e); }
  }

  // ---- matching states ----

  /** The machine holds the packet state where the emitter's operands say. */
  ghost predicate Match(k: Packet, e: Emitter, c: Machine, p: PState, m: Mask) {
    && MachineOk(k, c) && WellShaped(k, p) && |m| == k.width && Fresh(e)
    && c.mem == p.mem
    && MaskOf(k, c, e.mask) == m && MaskOf(k, c, e.live) == p.live
    && (if e.em.Some? then SlotOf(k, c, e.em.value) == p.em else p.em == AllLanes(k.width))
    && (e.la.Some? ==> SlotOf(k, c, e.la.value) == p.la)
  }

  /** Registers and slots that existed before are as they were, the open loop's masks apart. */
  ghost predicate Kept(k: Packet, e: Emitter, c: Machine, c': Machine)
    requires MachineOk(k, c) && MachineOk(k, c')
  {
    && (forall r | 0 <= r < e.next :: MaskOf(k, c', Reg(r)) == MaskOf(k, c, Reg(r)))
    && (forall q | 0 <= q < e.slots && Some(q) != e.la && Some(q) != e.em :: SlotOf(k, c', q) == SlotOf(k, c, q))
  }

  /** Running `code` has the packet outcome `r`, and leaves it where the emitter `e'` says. */
  ghost predicate Compiles(k: Packet, n: nat, e: Emitter, c: Machine, code: seq<Instr>, e': Emitter, m: Mask, r: Outcome)
    requires k.width > 0 && MachineOk(k, c)
  {
    var f := DoAll(k, n, code, c);
    && (f.Exhausted? <==> r.Timeout?)
    && (r.Ran? ==> Match(k, e', f.c, r.p, m) && Kept(k, e, c, f.c))
  }

  lemma KeptTrans(k: Packet, e: Emitter, e': Emitter, c: Machine, c': Machine, c'': Machine)
    requires MachineOk(k, c) && MachineOk(k, c') && MachineOk(k, c'')
    requires Kept(k, e, c, c') && Kept(k, e', c', c'')
    requires e.next <= e'.next && e.slots <= e'.slots
    requires forall q | 0 <= q < e.slots :: (Some(q) == e'.la ==> Some(q) == e.la) && (Some(q) == e'.em ==> Some(q) == e.em)
    ensures Kept(k, e, c, c'')
  {
  }

  lemma Do1(k: Packet, n: nat, i: Instr, c: Machine)
    requires k.width > 0 && MachineOk(k, c)
    ensures DoAll(k, n, [i], c) == Do(k, n, i, c)
  {
    var f := Do(k, n, i, c);
    if f.Halted? { assert DoAll(k, n, [], f.c) == f; }
  }

  /** One instruction, then the rest. */
  lemma DoFirst(k: Packet, n: nat, i: Instr, rest: seq<Instr>, c: Machine)
    requires k.width > 0 && MachineOk(k, c)
    ensures
      var f := Do(k, n, i, c);
      DoAll(k, n, [i] + rest, c) == if f.Exhausted? then f else DoAll(k, n, rest, f.c)
  {
    Do1(k, n, i, c);
    DoAllAppend(k, n, [i], rest, c);
  }

  /** A mask definition, then the rest. */
  lemma DefThen(k: Packet, n: nat, r: nat, v: MaskExpr, rest: seq<Instr>, c: Machine) returns (c': Machine)
    requires k.width > 0 && MachineOk(k, c)
    ensures c' == c.(masks := c.masks[r := Compute(k, c, v)]) && MachineOk(k, c')
    ensures DoAll(k, n, [Def(r, v)] + rest, c) == DoAll(k, n, rest, c')
  {
    c' := c.(masks := c.masks[r := Compute(k, c, v)]);
    DoFirst(k, n, Def(r, v), rest, c);
  }

  /** A mask stored, then the rest. */
  lemma StoreMaskThen(k: Packet, n: nat, slot: nat, m: Operand, rest: seq<Instr>, c: Machine) returns (c': Machine)
    requires k.width > 0 && MachineOk(k, c)
    ensures c' == c.(slots := c.slots[slot := MaskOf(k, c, m)]) && MachineOk(k, c')
    ensures DoAll(k, n, [StoreMask(slot, m)] + rest, c) == DoAll(k, n, rest, c')
  {
    c' := c.(slots := c.slots[slot := MaskOf(k, c, m)]);
    DoFirst(k, n, StoreMask(slot, m), rest, c);
  }

  /** Straight-line code that takes the machine from one matched state to another. */
  ghost predicate Steps(k: Packet, n: nat, e: Emitter, c: Machine, p: PState, m: Mask, code: seq<Instr>,
                        e': Emitter, c': Machine, p': PState)
    requires k.width > 0 && MachineOk(k, c)
  {
    && DoAll(k, n, code, c) == Halted(c') && MachineOk(k, c')
    && Match(k, e', c', p', m) && Kept(k, e, c, c')
    && e.next <= e'.next && e.slots == e'.slots && e.la == e'.la && e.em == e'.em
  }

  lemma StepsThen(k: Packet, n: nat, e: Emitter, c: Machine, p: PState, m: Mask, code: seq<Instr>,
                  e': Emitter, c': Machine, p': PState, code': seq<Instr>, e'': Emitter, c'': Machine, p'': PState)
    requires k.width > 0 && MachineOk(k, c) && MachineOk(k, c')
    requires Steps(k, n, e, c, p, m, code, e', c', p') && Steps(k, n, e', c', p', m, code', e'', c'', p'')
    ensures Steps(k, n, e, c, p, m, code + code', e'', c'', p'')
  {
    DoAllAppend(k, n, code, code', c);
    KeptTrans(k, e, e', c, c', c'');
  }

  /** Defining new registers keeps the old ones. */
  lemma DefKept(k: Packet, e: Emitter, c: Machine, r: nat, u: Mask)
    requires MachineOk(k, c) && |u| == k.width && e.next <= r
    ensures MachineOk(k, c.(masks := c.masks[r := u])) && Kept(k, e, c, c.(masks := c.masks[r := u]))
  {
  }

  lemma DefSteps(k: Packet, n: nat, e: Emitter, c: Machine, p: PState, m: Mask, v: MaskExpr) returns (c': Machine)
    requires k.width > 0 && Match(k, e, c, p, m)
    ensures c' == c.(masks := c.masks[e.next := Compute(k, c, v)]) && MachineOk(k, c')
    ensures Steps(k, n, e, c, p, m, [Def(e.next, v)], e.(next := e.next + 1), c', p)
  {
    c' := c.(masks := c.masks[e.next := Compute(k, c, v)]);
    Do1(k, n, Def(e.next, v), c);
    DefKept(k, e, c, e.next, Compute(k, c, v));
  }

  /** The operand `a` exists and holds `u`. */
  ghost predicate Holds(k: Packet, e: Emitter, c: Machine, a: Operand, u: Mask)
    requires MachineOk(k, c)
  {
    MaskOf(k, c, a) == u && (a.Reg? ==> a.id < e.next)
  }

  lemma HoldsOn(k: Packet, n: nat, e: Emitter, c: Machine, p: PState, m: Mask, code: seq<Instr>,
                e': Emitter, c': Machine, p': PState, a: Operand, u: Mask)
    requires k.width > 0 && MachineOk(k, c) && Steps(k, n, e, c, p, m, code, e', c', p') && Holds(k, e, c, a, u)
    ensures Holds(k, e', c', a, u)
  {
  }

  /** The code for effMask() leaves the effective mask in its operand and changes nothing else that matters. */
  lemma EffSteps(k: Packet, n: nat, e: Emitter, c: Machine, p: PState, m: Mask) returns (c': Machine)
    requires k.width > 0 && Match(k, e, c, p, m)
    ensures MachineOk(k, c') && c'.vals == c.vals && c'.mem == c.mem
    ensures Steps(k, n, e, c, p, m, EffMask(e).code, EffMask(e).e, c', p)
    ensures Holds(k, EffMask(e).e, c', EffMask(e).m, Eff(k, m, p))
  {
    if e.em.None? {
      c' := c;
      assert And(m, AllLanes(k.width)) == m;
    } else {
      c' := BothSteps(k, n, e, c, p, m);
    }
  }

  /** Inside a loop: the structural mask and the iteration mask. */
  lemma BothSteps(k: Packet, n: nat, e: Emitter, c: Machine, p: PState, m: Mask) returns (c': Machine)
    requires k.width > 0 && Match(k, e, c, p, m) && e.em.Some?
    ensures MachineOk(k, c') && c'.vals == c.vals && c'.mem == c.mem && MaskOf(k, c', Reg(e.next + 1)) == And(m, p.em)
    ensures Steps(k, n, e, c, p, m, [Def(e.next, LoadMask(e.em.value))] + [Def(e.next + 1, Both(e.mask, Reg(e.next)))],
                  e.(next := e.next + 2), c', p)
  {
    var r, e1, e2 := e.next, e.(next := e.next + 1), e.(next := e.next + 2);
    var c1 := DefSteps(k, n, e, c, p, m, LoadMask(e.em.value));
    assert MaskOf(k, c1, e.mask) == m && MaskOf(k, c1, Reg(r)) == p.em;
    c' := DefSteps(k, n, e1, c1, p, m, Both(e.mask, Reg(r)));
    StepsThen(k, n, e, c, p, m, [Def(r, LoadMask(e.em.value))], e1, c1, p, [Def(r + 1, Both(e.mask, Reg(r)))], e2, c', p);
  }

  lemma ClearEffect(k: Packet, n: nat, slot: nat, m: Operand, r: nat, u: Mask, c: Machine) returns (c': Machine)
    requires k.width > 0 && MachineOk(k, c) && (m.Reg? ==> m.id < r) && MaskOf(k, c, m) == u
    ensures c' == c.(masks := c'.masks, slots := c.slots[slot := AndNot(SlotOf(k, c, slot), u)]) && MachineOk(k, c')
    ensures DoAll(k, n, Clear(slot, m, r), c) == Halted(c')
    ensures forall q: nat | q < r :: MaskOf(k, c', Reg(q)) == MaskOf(k, c, Reg(q))
  {
    var last := StoreMask(slot, Reg(r + 1));
    var c1 := DefThen(k, n, r, LoadMask(slot), [Def(r + 1, Minus(Reg(r), m))] + [last], c);
    var c2 := DefThen(k, n, r + 1, Minus(Reg(r), m), [last], c1);
    assert MaskOf(k, c1, m) == u && MaskOf(k, c1, Reg(r)) == SlotOf(k, c, slot);
    c' := c2.(slots := c2.slots[slot := MaskOf(k, c2, Reg(r + 1))]);
    Do1(k, n, last, c2);
  }

  lemma ClearEmSteps(k: Packet, n: nat, e: Emitter, c: Machine, p: PState, m: Mask, a: Operand, u: Mask)
    returns (c': Machine)
    requires k.width > 0 && Match(k, e, c, p, m) && e.em.Some? && Holds(k, e, c, a, u) && |u| == k.width
    ensures MachineOk(k, c')
    ensures Steps(k, n, e, c, p, m, Clear(e.em.value, a, e.next), e.(next := e.next + 2), c', p.(em := AndNot(p.em, u)))
  {
    c' := ClearEffect(k, n, e.em.value, a, e.next, u, c);
  }

  lemma ClearLaSteps(k: Packet, n: nat, e: Emitter, c: Machine, p: PState, m: Mask, a: Operand, u: Mask)
    returns (c': Machine)
    requires k.width > 0 && Match(k, e, c, p, m) && e.la.Some? && Holds(k, e, c, a, u) && |u| == k.width
    ensures MachineOk(k, c')
    ensures Steps(k, n, e, c, p, m, Clear(e.la.value, a, e.next), e.(next := e.next + 2), c', p.(la := AndNot(p.la, u)))
  {
    c' := ClearEffect(k, n, e.la.value, a, e.next, u, c);
  }

  /** The locals that already have a slot are the names seen so far. */
  ghost predicate SameNames(io: Interface, seen: set<Name>, e: Emitter) {
    forall x | x !in io.outputs :: x in seen <==> x in e.locals
  }

  // ---- simple statements ----

  lemma LetSteps(k: Packet, n: nat, e: Emitter, v: Expr, c: Machine, p: PState, m: Mask) returns (c': Machine)
    requires k.width > 0 && Match(k, e, c, p, m)
    ensures c' == c.(vals := c.vals[e.next := VecEval(k, v, p.mem)]) && MachineOk(k, c')
    ensures Steps(k, n, e, c, p, m, [Let(e.next, v)], e.(next := e.next + 1), c', p)
  {
    c' := c.(vals := c.vals[e.next := VecEval(k, v, p.mem)]);
    Do1(k, n, Let(e.next, v), c);
  }

  function WithVec(p: PState, x: Name, u: seq<Val>): PState {
    p.(mem := p.mem.(vec := p.mem.vec[x := u]))
  }

  lemma StoreStep(k: Packet, n: nat, e: Emitter, x: Name, r: nat, a: Operand, u: Mask, c: Machine, p: PState, m: Mask)
    returns (c': Machine)
    requires k.width > 0 && Match(k, e, c, p, m) && r in c.vals && Holds(k, e, c, a, u)
    ensures MachineOk(k, c')
    ensures Steps(k, n, e, c, p, m, [Store(x, r, a)], e, c', WithVec(p, x, Select(u, c.vals[r], VecSlot(k, p.mem, x))))
  {
    Do1(k, n, Store(x, r, a), c);
    BlendIsSelect(k, c, a, c.vals[r], VecSlot(k, p.mem, x));
    c' := SetVec(c, x, Select(u, c.vals[r], VecSlot(k, p.mem, x)));
  }

  lemma BlendIsSelect(k: Packet, c: Machine, m: Operand, written: seq<Val>, previous: seq<Val>)
    requires MachineOk(k, c) && |written| == |previous| == k.width
    ensures Blend(k, c, m, written, previous) == Select(MaskOf(k, c, m), written, previous)
  {
  }

  lemma NullStep(k: Packet, n: nat, e: Emitter, x: Name, c: Machine, p: PState, m: Mask) returns (c': Machine)
    requires k.width > 0 && Match(k, e, c, p, m)
    ensures MachineOk(k, c') && c'.vals == c.vals
    ensures Steps(k, n, e, c, p, m, [Null(x, false)], e, c', WithVec(p, x, NullVec(k, x)))
  {
    Do1(k, n, Null(x, false), c);
    c' := SetVec(c, x, NullVec(k, x));
  }

  /** Effective mask, then one blended store of the value in register `r`. */
  lemma BlendSteps(k: Packet, n: nat, e: Emitter, x: Name, r: nat, c: Machine, p: PState, m: Mask)
    returns (c': Machine)
    requires k.width > 0 && Match(k, e, c, p, m) && r in c.vals
    ensures MachineOk(k, c')
    ensures Steps(k, n, e, c, p, m, EffMask(e).code + [Store(x, r, EffMask(e).m)], EffMask(e).e, c',
                  WithVec(p, x, Select(Eff(k, m, p), c.vals[r], VecSlot(k, p.mem, x))))
  {
    var f := EffMask(e);
    var c1 := EffSteps(k, n, e, c, p, m);
    c' := StoreStep(k, n, f.e, x, r, f.m, Eff(k, m, p), c1, p, m);
    StepsThen(k, n, e, c, p, m, f.code, f.e, c1, p, [Store(x, r, f.m)], f.e, c',
              WithVec(p, x, Select(Eff(k, m, p), c.vals[r], VecSlot(k, p.mem, x))));
  }

  /** The state after a blended assignment, as Run computes it. */
  function BlendedState(k: Packet, x: Name, v: Expr, previous: seq<Val>, m: Mask, p: PState): PState
    requires WellShaped(k, p) && |m| == |previous| == k.width
  {
    WithVec(p, x, Select(Eff(k, m, p), VecEval(k, v, p.mem), previous))
  }

  /** An output, or a local that has a slot: value, then blend. */
  lemma OldAssignSteps(k: Packet, n: nat, e: Emitter, e2: Emitter, x: Name, v: Expr, c: Machine, p: PState, m: Mask)
    returns (c': Machine)
    requires k.width > 0 && Match(k, e, c, p, m) && e2 == e.(next := e.next + 1)
    ensures MachineOk(k, c')
    ensures
      var f := EffMask(e2);
      Steps(k, n, e, c, p, m, [Let(e.next, v)] + (f.code + [Store(x, e.next, f.m)]), f.e, c',
            BlendedState(k, x, v, VecSlot(k, p.mem, x), m, p))
  {
    var r, f := e.next, EffMask(e2);
    var c1 := LetSteps(k, n, e, v, c, p, m);
    c' := BlendSteps(k, n, e2, x, r, c1, p, m);
    StepsThen(k, n, e, c, p, m, [Let(r, v)], e2, c1, p, f.code + [Store(x, r, f.m)], f.e, c',
              BlendedState(k, x, v, VecSlot(k, p.mem, x), m, p));
  }

  /** The first assignment of a local: value, null the slot, then blend. */
  lemma NewAssignSteps(k: Packet, n: nat, e: Emitter, e2: Emitter, x: Name, v: Expr, c: Machine, p: PState, m: Mask)
    returns (c': Machine)
    requires k.width > 0 && Match(k, e, c, p, m) && e2 == e.(next := e.next + 1, locals := e2.locals)
    ensures MachineOk(k, c')
    ensures
      var f := EffMask(e2);
      Steps(k, n, e, c, p, m, [Let(e.next, v)] + ([Null(x, false)] + (f.code + [Store(x, e.next, f.m)])), f.e, c',
            BlendedState(k, x, v, NullVec(k, x), m, p))
  {
    var r, f, q, z := e.next, EffMask(e2), WithVec(p, x, NullVec(k, x)), BlendedState(k, x, v, NullVec(k, x), m, p);
    var c1 := LetSteps(k, n, e, v, c, p, m);
    assert Steps(k, n, e, c, p, m, [Let(r, v)], e2, c1, p);
    var c2 := NullStep(k, n, e2, x, c1, p, m);
    c' := BlendSteps(k, n, e2, x, r, c2, q, m);
    Overwrite(p, x, NullVec(k, x), Select(Eff(k, m, p), c1.vals[r], NullVec(k, x)));
    StepsThen(k, n, e2, c1, p, m, [Null(x, false)], e2, c2, q, f.code + [Store(x, r, f.m)], f.e, c', z);
    StepsThen(k, n, e, c, p, m, [Let(r, v)], e2, c1, p, [Null(x, false)] + (f.code + [Store(x, r, f.m)]), f.e, c', z);
  }

  lemma Overwrite(p: PState, x: Name, u: seq<Val>, w: seq<Val>)
    ensures WithVec(WithVec(p, x, u), x, w) == WithVec(p, x, w)
  {
  }

  lemma VectorAssignSteps(k: Packet, n: nat, e: Emitter, x: Name, v: Expr, c: Machine, p: PState, m: Mask)
    returns (c': Machine)
    requires k.width > 0 && Match(k, e, c, p, m) && CanEmit(k.io, v, e.locals)
    requires x in k.io.outputs || x in k.plan.divergent
    ensures MachineOk(k, c')
    ensures
      var a := EmitAssign(k.io, k.plan, x, v, e);
      var previous := if x in k.io.outputs || x in e.locals then VecSlot(k, p.mem, x) else NullVec(k, x);
      Steps(k, n, e, c, p, m, a.code, a.e, c', BlendedState(k, x, v, previous, m, p))
  {
    AssignCases(k.io, k.plan, x, v, e);
    if x in k.io.outputs || x in e.locals {
      BlendedShape(x, v, e);
      c' := OldAssignSteps(k, n, e, e.(next := e.next + 1), x, v, c, p, m);
    } else {
      FirstShape(x, v, e);
      c' := NewAssignSteps(k, n, e, e.(next := e.next + 1, locals := e.locals + {x}), x, v, c, p, m);
    }
  }

  function WithUni(p: PState, x: Name, u: Val): PState {
    p.(mem := p.mem.(uni := p.mem.uni[x := u]))
  }

  lemma LaneZeroStep(k: Packet, n: nat, e: Emitter, x: Name, r: nat, c: Machine, p: PState, m: Mask)
    returns (c': Machine)
    requires k.width > 0 && Match(k, e, c, p, m) && r in c.vals
    ensures MachineOk(k, c') && Steps(k, n, e, c, p, m, [StoreLaneZero(x, r)], e, c', WithUni(p, x, c.vals[r][0]))
  {
    Do1(k, n, StoreLaneZero(x, r), c);
    c' := c.(mem := WithUni(p, x, c.vals[r][0]).mem);
  }

  lemma NullUniStep(k: Packet, n: nat, e: Emitter, x: Name, c: Machine, p: PState, m: Mask) returns (c': Machine)
    requires k.width > 0 && Match(k, e, c, p, m)
    ensures MachineOk(k, c') && c'.vals == c.vals
    ensures Steps(k, n, e, c, p, m, [Null(x, true)], e, c', WithUni(p, x, k.o.zero(x)))
  {
    Do1(k, n, Null(x, true), c);
    c' := c.(mem := WithUni(p, x, k.o.zero(x)).mem);
  }

  lemma OverwriteUni(p: PState, x: Name, u: Val, w: Val)
    ensures WithUni(WithUni(p, x, u), x, w) == WithUni(p, x, w)
  {
  }

  lemma UniformAssignSteps(k: Packet, n: nat, e: Emitter, x: Name, v: Expr, c: Machine, p: PState, m: Mask)
    returns (c': Machine)
    requires k.width > 0 && Match(k, e, c, p, m) && CanEmit(k.io, v, e.locals)
    requires x !in k.io.outputs && x !in k.plan.divergent
    ensures MachineOk(k, c')
    ensures
      var a := EmitAssign(k.io, k.plan, x, v, e);
      Steps(k, n, e, c, p, m, a.code, a.e, c', WithUni(p, x, VecEval(k, v, p.mem)[0]))
  {
    AssignCases(k.io, k.plan, x, v, e);
    ScalarShape(x, v, e);
    var e2 := e.(next := e.next + 1, locals := e.locals + {x});
    if x in e.locals { c' := OldScalarSteps(k, n, e, e2, x, v, c, p, m); } else { c' := NewScalarSteps(k, n, e, e2, x, v, c, p, m); }
  }

  lemma OldScalarSteps(k: Packet, n: nat, e: Emitter, e2: Emitter, x: Name, v: Expr, c: Machine, p: PState, m: Mask)
    returns (c': Machine)
    requires k.width > 0 && Match(k, e, c, p, m) && e2 == e.(next := e.next + 1, locals := e2.locals)
    ensures MachineOk(k, c')
    ensures Steps(k, n, e, c, p, m, [Let(e.next, v)] + [StoreLaneZero(x, e.next)], e2, c', WithUni(p, x, VecEval(k, v, p.mem)[0]))
  {
    var r, z := e.next, WithUni(p, x, VecEval(k, v, p.mem)[0]);
    var c1 := LetSteps(k, n, e, v, c, p, m);
    assert Steps(k, n, e, c, p, m, [Let(r, v)], e2, c1, p);
    c' := LaneZeroStep(k, n, e2, x, r, c1, p, m);
    StepsThen(k, n, e, c, p, m, [Let(r, v)], e2, c1, p, [StoreLaneZero(x, r)], e2, c', z);
  }

  lemma NewScalarSteps(k: Packet, n: nat, e: Emitter, e2: Emitter, x: Name, v: Expr, c: Machine, p: PState, m: Mask)
    returns (c': Machine)
    requires k.width > 0 && Match(k, e, c, p, m) && e2 == e.(next := e.next + 1, locals := e2.locals)
    ensures MachineOk(k, c')
    ensures Steps(k, n, e, c, p, m, [Let(e.next, v)] + ([Null(x, true)] + [StoreLaneZero(x, e.next)]), e2, c',
                  WithUni(p, x, VecEval(k, v, p.mem)[0]))
  {
    var r, q, z := e.next, WithUni(p, x, k.o.zero(x)), WithUni(p, x, VecEval(k, v, p.mem)[0]);
    var store, init := StoreLaneZero(x, r), Null(x, true);
    var c1 := LetSteps(k, n, e, v, c, p, m);
    assert Steps(k, n, e, c, p, m, [Let(r, v)], e2, c1, p);
    var c2 := NullUniStep(k, n, e2, x, c1, p, m);
    OverwriteUni(p, x, k.o.zero(x), c1.vals[r][0]);
    c' := LaneZeroStep(k, n, e2, x, r, c2, q, m);
    StepsThen(k, n, e2, c1, p, m, [init], e2, c2, q, [store], e2, c', z);
    StepsThen(k, n, e, c, p, m, [Let(r, v)], e2, c1, p, [init] + [store], e2, c', z);
  }

  lemma InsertStep(k: Packet, n: nat, e: Emitter, x: Name, member: string, r: nat, a: Operand, u: Mask,
                   c: Machine, p: PState, m: Mask) returns (c': Machine)
    requires k.width > 0 && Match(k, e, c, p, m) && r in c.vals && Holds(k, e, c, a, u)
    ensures MachineOk(k, c')
    ensures
      var previous := VecSlot(k, p.mem, x);
      Steps(k, n, e, c, p, m, [Insert(x, member, r, a)], e, c',
            WithVec(p, x, Select(u, InsertAll(k.o, member, previous, c.vals[r]), previous)))
  {
    var previous := VecSlot(k, p.mem, x);
    Do1(k, n, Insert(x, member, r, a), c);
    BlendIsSelect(k, c, a, InsertAll(k.o, member, previous, c.vals[r]), previous);
    c' := SetVec(c, x, Select(u, InsertAll(k.o, member, previous, c.vals[r]), previous));
  }

  lemma MemberAssignSteps(k: Packet, n: nat, e: Emitter, x: Name, member: string, v: Expr, c: Machine, p: PState, m: Mask)
    returns (c': Machine)
    requires k.width > 0 && Match(k, e, c, p, m) && !EmitMemberAssign(k.io, x, member, v, e).e.bailed && !e.bailed
    ensures MachineOk(k, c')
    ensures
      var a, previous := EmitMemberAssign(k.io, x, member, v, e), VecSlot(k, p.mem, x);
      Steps(k, n, e, c, p, m, a.code, a.e, c',
            WithVec(p, x, Select(Eff(k, m, p), InsertAll(k.o, member, previous, VecEval(k, v, p.mem)), previous)))
  {
    var r := e.next;
    var e1 := e.(next := r + 1);
    var f, last, previous := EffMask(e1), Insert(x, member, r, EffMask(e1).m), VecSlot(k, p.mem, x);
    var z := WithVec(p, x, Select(Eff(k, m, p), InsertAll(k.o, member, previous, VecEval(k, v, p.mem)), previous));
    var c1 := LetSteps(k, n, e, v, c, p, m);
    var c2 := EffSteps(k, n, e1, c1, p, m);
    c' := InsertStep(k, n, f.e, x, member, r, f.m, Eff(k, m, p), c2, p, m);
    StepsThen(k, n, e1, c1, p, m, f.code, f.e, c2, p, [last], f.e, c', z);
    StepsThen(k, n, e, c, p, m, [Let(r, v)], e1, c1, p, f.code + [last], f.e, c', z);
  }

  lemma DiscardSteps(k: Packet, n: nat, e: Emitter, c: Machine, p: PState, m: Mask) returns (c': Machine)
    requires k.width > 0 && Match(k, e, c, p, m)
    ensures MachineOk(k, c')
    ensures Steps(k, n, e, c, p, m, EmitDiscard(e).code, EmitDiscard(e).e, c', p.(live := AndNot(p.live, Eff(k, m, p))))
  {
    var f := EffMask(e);
    var r := f.e.next;
    var c1 := EffSteps(k, n, e, c, p, m);
    HoldsOn(k, n, e, c, p, m, f.code, f.e, c1, p, e.live, p.live);
    c' := DefSteps(k, n, f.e, c1, p, m, Minus(e.live, f.m));
    var z, e' := p.(live := AndNot(p.live, Eff(k, m, p))), EmitDiscard(e).e;
    assert Match(k, e', c', z, m);
    StepsThen(k, n, e, c, p, m, f.code, f.e, c1, p, [Def(r, Minus(e.live, f.m))], e', c', z);
  }

  lemma BreakSteps(k: Packet, n: nat, e: Emitter, c: Machine, p: PState, m: Mask) returns (c': Machine)
    requires k.width > 0 && Match(k, e, c, p, m) && e.la.Some? && e.em.Some?
    ensures MachineOk(k, c')
    ensures Steps(k, n, e, c, p, m, EmitBreak(e).code, EmitBreak(e).e, c',
                  p.(em := AndNot(p.em, Eff(k, m, p)), la := AndNot(p.la, Eff(k, m, p))))
  {
    var f, u, q := EffMask(e), Eff(k, m, p), p.(em := AndNot(p.em, Eff(k, m, p)));
    var z := q.(la := AndNot(p.la, u));
    BreakShape(e);
    var c1 := EffSteps(k, n, e, c, p, m);
    c' := ClearBoth(k, n, f.e, c1, p, m, f.m, u);
    StepsThen(k, n, e, c, p, m, f.code, f.e, c1, p,
              Clear(e.em.value, f.m, f.e.next) + Clear(e.la.value, f.m, f.e.next + 2), f.e.(next := f.e.next + 4), c', z);
  }

  lemma BreakShape(e: Emitter)
    requires e.la.Some? && e.em.Some?
    ensures
      var f := EffMask(e);
      EmitBreak(e) == Emitted(f.e.(next := f.e.next + 4),
                              f.code + (Clear(e.em.value, f.m, f.e.next) + Clear(e.la.value, f.m, f.e.next + 2)))
  {
  }

  lemma ClearBoth(k: Packet, n: nat, e: Emitter, c: Machine, p: PState, m: Mask, a: Operand, u: Mask) returns (c': Machine)
    requires k.width > 0 && Match(k, e, c, p, m) && e.la.Some? && e.em.Some? && Holds(k, e, c, a, u) && |u| == k.width
    ensures MachineOk(k, c')
    ensures Steps(k, n, e, c, p, m, Clear(e.em.value, a, e.next) + Clear(e.la.value, a, e.next + 2), e.(next := e.next + 4), c',
                  p.(em := AndNot(p.em, u)).(la := AndNot(p.la, u)))
  {
    var e1, q := e.(next := e.next + 2), p.(em := AndNot(p.em, u));
    var c1 := ClearEmSteps(k, n, e, c, p, m, a, u);
    HoldsOn(k, n, e, c, p, m, Clear(e.em.value, a, e.next), e1, c1, q, a, u);
    c' := ClearLaSteps(k, n, e1, c1, q, m, a, u);
    StepsThen(k, n, e, c, p, m, Clear(e.em.value, a, e.next), e1, c1, q,
              Clear(e.la.value, a, e.next + 2), e.(next := e.next + 4), c', q.(la := AndNot(p.la, u)));
  }

  lemma ContinueSteps(k: Packet, n: nat, e: Emitter, c: Machine, p: PState, m: Mask) returns (c': Machine)
    requires k.width > 0 && Match(k, e, c, p, m) && e.em.Some?
    ensures MachineOk(k, c')
    ensures Steps(k, n, e, c, p, m, EmitContinue(e).code, EmitContinue(e).e, c',
                  p.(em := AndNot(p.em, Eff(k, m, p))))
  {
    var f, u := EffMask(e), Eff(k, m, p);
    var c1 := EffSteps(k, n, e, c, p, m);
    c' := ClearEmSteps(k, n, f.e, c1, p, m, f.m, u);
    StepsThen(k, n, e, c, p, m, f.code, f.e, c1, p, Clear(e.em.value, f.m, f.e.next), EmitContinue(e).e, c',
              p.(em := AndNot(p.em, u)));
  }

  // ---- compound statements ----

  /** What is assumed of a statement that is emitted at `e`. */
  ghost predicate EmitOk(k: Packet, s: Stmt, e: Emitter, seen: set<Name>) {
    WellFormed(s, true) && !DiscardInLoop(s) && WritesLocals(k.io, s) && SameNames(k.io, seen, e)
  }

  lemma StepsCompile(k: Packet, n: nat, e: Emitter, c: Machine, p: PState, m: Mask, code: seq<Instr>,
                     e': Emitter, c': Machine, p': PState)
    requires k.width > 0 && MachineOk(k, c) && Steps(k, n, e, c, p, m, code, e', c', p')
    ensures Compiles(k, n, e, c, code, e', m, Ran(p'))
  {
  }

  /** Code that finishes, then more code. */
  lemma CompilesThen(k: Packet, n: nat, e: Emitter, c: Machine, code: seq<Instr>, e1: Emitter, c1: Machine, m1: Mask,
                     q: PState, code': seq<Instr>, e2: Emitter, m2: Mask, r: Outcome)
    requires k.width > 0 && MachineOk(k, c) && MachineOk(k, c1)
    requires Compiles(k, n, e, c, code, e1, m1, Ran(q)) && DoAll(k, n, code, c) == Halted(c1)
    requires Compiles(k, n, e1, c1, code', e2, m2, r)
    requires e.next <= e1.next && e.slots <= e1.slots && e.la == e1.la && e.em == e1.em
    ensures Compiles(k, n, e, c, code + code', e2, m2, r)
  {
    DoAllAppend(k, n, code, code', c);
    if r.Ran? { KeptTrans(k, e, e1, c, c1, DoAll(k, n, code', c1).c); }
  }

  lemma CompilesTimesOut(k: Packet, n: nat, e: Emitter, c: Machine, code: seq<Instr>, e1: Emitter, m1: Mask,
                         code': seq<Instr>, e2: Emitter, m2: Mask)
    requires k.width > 0 && MachineOk(k, c) && Compiles(k, n, e, c, code, e1, m1, Outcome.Timeout)
    ensures Compiles(k, n, e, c, code + code', e2, m2, Outcome.Timeout)
  {
    DoAllAppend(k, n, code, code', c);
  }

  lemma {:induction false} EmitCorrect(k: Packet, n: nat, s: Stmt, e: Emitter, c: Machine, p: PState, m: Mask, seen: set<Name>)
    requires k.width > 0 && Match(k, e, c, p, m) && EmitOk(k, s, e, seen)
    requires !Emit(k.io, k.plan, s, e).e.bailed
    ensures
      var a := Emit(k.io, k.plan, s, e);
      Compiles(k, n, e, c, a.code, a.e, m, Run(k, n, s, seen, m, p))
    decreases n, s, 1, 0
  {
    EmitGrows(k.io, k.plan, s, e);
    match s
    case Block(ss) => AllCorrect(k, n, ss, e, c, p, m, seen);
    case If(_, _, _) => IfCorrect(k, n, s, e, c, p, m, seen);
    case For(_, _, _, _, _) => ForCorrect(k, n, s, e, c, p, m, seen);
    case While(_, _, _) => LoopCorrect(k, n, s, e, c, p, m, seen);
    case _ => SimpleCorrect(k, n, s, e, c, p, m, seen);
  }

  lemma EmitsAssign(io: Interface, plan: Plan, x: Name, v: Expr, e: Emitter)
    requires !EmitAssign(io, plan, x, v, e).e.bailed
    ensures CanEmit(io, v, e.locals)
  {
  }

  lemma AssignCorrect(k: Packet, n: nat, x: Name, v: Expr, e: Emitter, c: Machine, p: PState, m: Mask, seen: set<Name>)
    requires k.width > 0 && Match(k, e, c, p, m) && SameNames(k.io, seen, e) && x !in k.io.inputs && x !in k.io.globals
    requires CanEmit(k.io, v, e.locals)
    ensures
      var a := EmitAssign(k.io, k.plan, x, v, e);
      Compiles(k, n, e, c, a.code, a.e, m, Run(k, n, Assign(x, v), seen, m, p))
  {
    var c';
    if x in k.io.outputs || x in k.plan.divergent {
      c' := VectorAssignSteps(k, n, e, x, v, c, p, m);
    } else {
      c' := UniformAssignSteps(k, n, e, x, v, c, p, m);
    }
  }

  lemma SimpleCorrect(k: Packet, n: nat, s: Stmt, e: Emitter, c: Machine, p: PState, m: Mask, seen: set<Name>)
    requires k.width > 0 && Match(k, e, c, p, m) && EmitOk(k, s, e, seen)
    requires !Emit(k.io, k.plan, s, e).e.bailed && !e.bailed && !IsLoop(s) && !s.Block? && !s.If?
    ensures
      var a := Emit(k.io, k.plan, s, e);
      Compiles(k, n, e, c, a.code, a.e, m, Run(k, n, s, seen, m, p))
  {
    match s
    case Assign(x, v) =>
      EmitsAssign(k.io, k.plan, x, v, e);
      AssignCorrect(k, n, x, v, e, c, p, m, seen);
    case MemberAssign(x, member, v) => var c' := MemberAssignSteps(k, n, e, x, member, v, c, p, m);
    case Discard => var c' := DiscardSteps(k, n, e, c, p, m);
    case Break => var c' := BreakSteps(k, n, e, c, p, m);
    case Continue => var c' := ContinueSteps(k, n, e, c, p, m);
    case _ =>
  }

  lemma {:induction false} AllCorrect(k: Packet, n: nat, ss: seq<Stmt>, e: Emitter, c: Machine, p: PState, m: Mask, seen: set<Name>)
    requires k.width > 0 && Match(k, e, c, p, m) && EmitOk(k, Block(ss), e, seen) && !e.bailed
    requires !EmitAll(k.io, k.plan, ss, e).e.bailed
    ensures
      var a := EmitAll(k.io, k.plan, ss, e);
      Compiles(k, n, e, c, a.code, a.e, m, RunAll(k, n, ss, seen, m, p))
    decreases n, ss, 0
  {
    if ss != [] {
      var a, seen' := Emit(k.io, k.plan, ss[0], e), seen + Assigned(ss[0]);
      var b := EmitAll(k.io, k.plan, ss[1..], a.e);
      assert forall i | 0 <= i < |ss[1..]| :: ss[1..][i] == ss[i + 1];
      AssignedSplit(ss);
      if a.e.bailed { BailAllIsFinal(k.io, k.plan, ss[1..], a.e); }
      EmitGrows(k.io, k.plan, ss[0], e);
      EmitCorrect(k, n, ss[0], e, c, p, m, seen);
      var r := Run(k, n, ss[0], seen, m, p);
      if r.Timeout? {
        CompilesTimesOut(k, n, e, c, a.code, a.e, m, b.code, b.e, m);
      } else {
        var c1 := DoAll(k, n, a.code, c).c;
        AllCorrect(k, n, ss[1..], a.e, c1, r.p, m, seen');
        CompilesThen(k, n, e, c, a.code, a.e, c1, m, r.p, b.code, b.e, m, RunAll(k, n, ss[1..], seen', m, r.p));
      }
    }
  }

  lemma {:induction false} ArmCorrect(k: Packet, n: nat, s: Stmt, e: Emitter, c: Machine, p: PState, m: Mask, seen: set<Name>)
    requires k.width > 0 && Match(k, e, c, p, m) && EmitOk(k, s, e, seen)
    requires !EmitArm(k.io, k.plan, s, e).e.bailed
    ensures
      var a := EmitArm(k.io, k.plan, s, e);
      Compiles(k, n, e, c, a.code, a.e, m, RunArm(k, n, s, seen, m, p))
    decreases n, s, 2
  {
    EmitArmGrows(k.io, k.plan, s, e);
    if !Guarded(s) {
      EmitCorrect(k, n, s, e, c, p, m, seen);
    } else {
      GuardedCorrect(k, n, s, e, c, p, m, seen);
    }
  }

  /** A guarded arm: with no active lane the skip leaves what the arm would have left. */
  lemma {:induction false} GuardedCorrect(k: Packet, n: nat, s: Stmt, e: Emitter, c: Machine, p: PState, m: Mask, seen: set<Name>)
    requires k.width > 0 && Match(k, e, c, p, m) && EmitOk(k, s, e, seen) && Guarded(s)
    requires !Emit(k.io, k.plan, s, EffMask(e).e).e.bailed
    ensures
      var f := EffMask(e);
      var a := Emit(k.io, k.plan, s, f.e);
      Compiles(k, n, e, c, f.code + [SkipUnlessAny(f.m, a.code)], a.e, m, RunArm(k, n, s, seen, m, p))
    decreases n, s, 1, 1
  {
    var f := EffMask(e);
    var a := Emit(k.io, k.plan, s, f.e);
    var skip, r := SkipUnlessAny(f.m, a.code), RunArm(k, n, s, seen, m, p);
    var c1 := EffSteps(k, n, e, c, p, m);
    StepsCompile(k, n, e, c, p, m, f.code, f.e, c1, p);
    EmitGrows(k.io, k.plan, s, f.e);
    if Any(Eff(k, m, p)) {
      EmitCorrect(k, n, s, f.e, c1, p, m, seen);
      TakenArm(k, n, f.m, a.code, f.e, c1, a.e, m, Run(k, n, s, seen, m, p));
    } else {
      SkippedArm(k, n, f.m, a.code, f.e, c1, p, a.e, m);
    }
    CompilesThen(k, n, e, c, f.code, f.e, c1, m, p, [skip], a.e, m, r);
  }

  lemma TakenArm(k: Packet, n: nat, any: Operand, code: seq<Instr>, e: Emitter, c: Machine, a: Emitter, m: Mask, r: Outcome)
    requires k.width > 0 && MachineOk(k, c) && Any(MaskOf(k, c, any)) && Compiles(k, n, e, c, code, a, m, r)
    ensures Compiles(k, n, e, c, [SkipUnlessAny(any, code)], a, m, r)
  {
    Do1(k, n, SkipUnlessAny(any, code), c);
  }

  lemma SkippedArm(k: Packet, n: nat, any: Operand, code: seq<Instr>, e: Emitter, c: Machine, p: PState, a: Emitter, m: Mask)
    requires k.width > 0 && Match(k, e, c, p, m) && !Any(MaskOf(k, c, any)) && Fresh(a) && e.next <= a.next && e.slots <= a.slots
    requires a.mask == e.mask && a.live == e.live && a.la == e.la && a.em == e.em
    ensures Compiles(k, n, e, c, [SkipUnlessAny(any, code)], a, m, Ran(p))
  {
    Do1(k, n, SkipUnlessAny(any, code), c);
  }

  lemma ThenEntry(k: Packet, n: nat, cond: Expr, e: Emitter, c: Machine, p: PState, m: Mask) returns (c': Machine)
    requires k.width > 0 && Match(k, e, c, p, m)
    ensures
      var cm := CondMask(k, cond, p.mem);
      && MachineOk(k, c') && DoAll(k, n, ThenMask(cond, e), c) == Halted(c') && Kept(k, e, c, c')
      && Match(k, ThenEmitter(e), c', p, And(m, cm)) && MaskOf(k, c', Reg(e.next)) == cm
  {
    var r, cm := e.next, CondMask(k, cond, p.mem);
    var e1 := e.(next := r + 1);
    var c1 := DefSteps(k, n, e, c, p, m, Test(cond));
    assert MaskOf(k, c1, e.mask) == m && MaskOf(k, c1, Reg(r)) == cm;
    c' := DefSteps(k, n, e1, c1, p, m, Both(e.mask, Reg(r)));
    StepsThen(k, n, e, c, p, m, [Def(r, Test(cond))], e1, c1, p, [Def(r + 1, Both(e.mask, Reg(r)))], e1.(next := r + 2), c', p);
  }

  lemma ElseEntry(k: Packet, n: nat, e: Emitter, a: Emitter, c: Machine, p: PState, m: Mask, tm: Mask, cm: Mask)
    returns (c': Machine)
    requires k.width > 0 && Match(k, a, c, p, tm) && MaskOf(k, c, e.mask) == m && MaskOf(k, c, Reg(e.next)) == cm
    requires |m| == |cm| == k.width
    ensures
      && MachineOk(k, c') && DoAll(k, n, ElseMask(e, a), c) == Halted(c') && Kept(k, a, c, c')
      && Match(k, ElseEmitter(a), c', p, AndNot(m, cm))
  {
    c' := DefSteps(k, n, a, c, p, tm, Minus(e.mask, Reg(e.next)));
  }

  /** Back under the saved mask. */
  lemma Unmask(k: Packet, n: nat, e: Emitter, c: Machine, code: seq<Instr>, a: Emitter, m: Mask, tm: Mask, r: Outcome)
    requires k.width > 0 && MachineOk(k, c) && Compiles(k, n, e, c, code, a, tm, r)
    requires MaskOf(k, c, e.mask) == m && (e.mask.Reg? ==> e.mask.id < e.next) && e.next <= a.next
    ensures Compiles(k, n, e, c, code, a.(mask := e.mask), m, r)
  {
  }

  /** The first arm, with the registers the second one needs. */
  lemma {:induction false} ThenCorrect(k: Packet, n: nat, s: Stmt, cond: Expr, e: Emitter, c: Machine, p: PState, m: Mask,
                                       seen: set<Name>)
    requires k.width > 0 && Match(k, e, c, p, m) && EmitOk(k, s, e, seen)
    requires !EmitArm(k.io, k.plan, s, ThenEmitter(e)).e.bailed
    ensures
      var a, cm := EmitArm(k.io, k.plan, s, ThenEmitter(e)), CondMask(k, cond, p.mem);
      var code := ThenMask(cond, e) + a.code;
      var f, r := DoAll(k, n, code, c), RunArm(k, n, s, seen, And(m, cm), p);
      && Compiles(k, n, e, c, code, a.e, And(m, cm), r)
      && (r.Ran? ==> MaskOf(k, f.c, e.mask) == m && MaskOf(k, f.c, Reg(e.next)) == cm)
    decreases n, s, 3
  {
    var cm, te := CondMask(k, cond, p.mem), ThenEmitter(e);
    var tm, a, head := And(m, cm), EmitArm(k.io, k.plan, s, te), ThenMask(cond, e);
    var c1 := ThenEntry(k, n, cond, e, c, p, m);
    ArmCorrect(k, n, s, te, c1, p, tm, seen);
    ThenJoined(k, n, cond, e, c, c1, p, m, a, RunArm(k, n, s, seen, tm, p));
  }

  /** The mask of the first arm, and the arm; the saved mask and the condition are still there afterwards. */
  lemma ThenJoined(k: Packet, n: nat, cond: Expr, e: Emitter, c: Machine, c1: Machine, p: PState, m: Mask, a: Emitted, r: Outcome)
    requires k.width > 0 && Match(k, e, c, p, m) && MachineOk(k, c1) && DoAll(k, n, ThenMask(cond, e), c) == Halted(c1)
    requires Compiles(k, n, ThenEmitter(e), c1, a.code, a.e, And(m, CondMask(k, cond, p.mem)), r)
    ensures
      var cm := CondMask(k, cond, p.mem);
      var f := DoAll(k, n, ThenMask(cond, e) + a.code, c);
      && Compiles(k, n, e, c, ThenMask(cond, e) + a.code, a.e, And(m, cm), r)
      && (r.Ran? ==> MaskOf(k, f.c, e.mask) == m && MaskOf(k, f.c, Reg(e.next)) == cm)
  {
    var te, head, tm := ThenEmitter(e), ThenMask(cond, e), And(m, CondMask(k, cond, p.mem));
    var c1' := ThenEntry(k, n, cond, e, c, p, m);
    CompilesThen(k, n, e, c, head, te, c1, tm, p, a.code, a.e, tm, r);
    DoAllAppend(k, n, head, a.code, c);
    if r.Ran? {
      var c2 := DoAll(k, n, a.code, c1).c;
      OperandKept(k, te, c1, c2, e.mask);
      OperandKept(k, te, c1, c2, Reg(e.next));
    }
  }

  lemma OperandKept(k: Packet, e: Emitter, c: Machine, c': Machine, a: Operand)
    requires MachineOk(k, c) && MachineOk(k, c') && Kept(k, e, c, c') && (a.Reg? ==> a.id < e.next)
    ensures MaskOf(k, c', a) == MaskOf(k, c, a)
  {
  }

  lemma IfOk(k: Packet, s: Stmt, e: Emitter, seen: set<Name>)
    requires s.If? && EmitOk(k, s, e, seen) && Fresh(e) && !e.bailed && !Emit(k.io, k.plan, s, e).e.bailed
    ensures
      var a := EmitArm(k.io, k.plan, s.thn, ThenEmitter(e));
      && !a.e.bailed && Fresh(a.e) && e.next <= a.e.next && e.slots == ThenEmitter(e).slots <= a.e.slots
      && a.e.la == e.la && a.e.em == e.em
      && EmitOk(k, s.thn, e, seen)
      && (s.els.Some? ==>
            EmitOk(k, s.els.value, a.e, seen + Assigned(s.thn))
            && !EmitArm(k.io, k.plan, s.els.value, ElseEmitter(a.e)).e.bailed
            && a.e.next <= EmitArm(k.io, k.plan, s.els.value, ElseEmitter(a.e)).e.next)
  {
    var a := EmitArm(k.io, k.plan, s.thn, ThenEmitter(e));
    if a.e.bailed && s.els.Some? { BailIsFinal(k.io, k.plan, s.els.value, ElseEmitter(a.e)); }
    EmitArmGrows(k.io, k.plan, s.thn, ThenEmitter(e));
    if s.els.Some? { EmitArmGrows(k.io, k.plan, s.els.value, ElseEmitter(a.e)); }
  }

  lemma {:induction false} IfCorrect(k: Packet, n: nat, s: Stmt, e: Emitter, c: Machine, p: PState, m: Mask, seen: set<Name>)
    requires s.If? && k.width > 0 && Match(k, e, c, p, m) && EmitOk(k, s, e, seen)
    requires !Emit(k.io, k.plan, s, e).e.bailed && !e.bailed
    ensures
      var a := Emit(k.io, k.plan, s, e);
      Compiles(k, n, e, c, a.code, a.e, m, Run(k, n, s, seen, m, p))
    decreases n, s, 0
  {
    var cm := CondMask(k, s.cond, p.mem);
    var tm, a, head := And(m, cm), EmitArm(k.io, k.plan, s.thn, ThenEmitter(e)), ThenMask(s.cond, e);
    IfOk(k, s, e, seen);
    IfParts(k, n, s, e, seen, m, p);
    ThenCorrect(k, n, s.thn, s.cond, e, c, p, m, seen);
    var t := RunArm(k, n, s.thn, seen, tm, p);
    if s.els.None? {
      Unmask(k, n, e, c, head + a.code, a.e, m, tm, t);
    } else {
      ElseOrTimeout(k, n, s.els.value, e, a.e, head + a.code, c, t, m, tm, cm, seen + Assigned(s.thn));
    }
  }

  /** How an `if` is put together, on both sides. */
  lemma IfParts(k: Packet, n: nat, s: Stmt, e: Emitter, seen: set<Name>, m: Mask, p: PState)
    requires s.If? && !e.bailed && k.width > 0 && WellShaped(k, p) && |m| == k.width
    requires !Emit(k.io, k.plan, s, e).e.bailed
    ensures
      var a, cm := EmitArm(k.io, k.plan, s.thn, ThenEmitter(e)), CondMask(k, s.cond, p.mem);
      var head, t := ThenMask(s.cond, e) + a.code, RunArm(k, n, s.thn, seen, And(m, cm), p);
      && (s.els.None? ==>
            && Emit(k.io, k.plan, s, e) == Emitted(a.e.(mask := e.mask), head)
            && Run(k, n, s, seen, m, p) == t)
      && (s.els.Some? ==>
            var b := EmitArm(k.io, k.plan, s.els.value, ElseEmitter(a.e));
            && Emit(k.io, k.plan, s, e) == Emitted(b.e.(mask := e.mask), head + (ElseMask(e, a.e) + b.code))
            && Run(k, n, s, seen, m, p) ==
               if t.Timeout? then t else RunArm(k, n, s.els.value, seen + Assigned(s.thn), AndNot(m, cm), t.p))
  {
    var a := EmitArm(k.io, k.plan, s.thn, ThenEmitter(e));
    if s.els.Some? {
      var mid, b, head := ElseMask(e, a.e), EmitArm(k.io, k.plan, s.els.value, ElseEmitter(a.e)), ThenMask(s.cond, e);
      assert head + (a.code + (mid + b.code)) == (head + a.code) + (mid + b.code);
    }
  }

  lemma {:induction false} ElseOrTimeout(k: Packet, n: nat, s: Stmt, e: Emitter, a: Emitter, code: seq<Instr>, c: Machine,
                                         t: Outcome, m: Mask, tm: Mask, cm: Mask, seen: set<Name>)
    requires k.width > 0 && MachineOk(k, c) && |m| == |cm| == k.width && EmitOk(k, s, a, seen)
    requires t.Ran? ==> WellShaped(k, t.p)
    requires Compiles(k, n, e, c, code, a, tm, t) && MaskOf(k, c, e.mask) == m
    requires t.Ran? ==>
               var c3 := DoAll(k, n, code, c).c;
               MaskOf(k, c3, e.mask) == m && MaskOf(k, c3, Reg(e.next)) == cm
    requires (e.mask.Reg? ==> e.mask.id < e.next) && e.next <= a.next && e.slots <= a.slots && e.la == a.la && e.em == a.em
    requires
      var b := EmitArm(k.io, k.plan, s, ElseEmitter(a)).e;
      !b.bailed && a.next <= b.next
    ensures
      var b := EmitArm(k.io, k.plan, s, ElseEmitter(a));
      Compiles(k, n, e, c, code + (ElseMask(e, a) + b.code), b.e.(mask := e.mask), m,
               if t.Timeout? then t else RunArm(k, n, s, seen, AndNot(m, cm), t.p))
    decreases n, s, 5
  {
    var b := EmitArm(k.io, k.plan, s, ElseEmitter(a));
    if t.Timeout? {
      CompilesTimesOut(k, n, e, c, code, a, tm, ElseMask(e, a) + b.code, b.e.(mask := e.mask), m);
    } else {
      BothArms(k, n, s, e, a, code, c, t.p, m, tm, cm, seen);
    }
  }

  lemma {:induction false} BothArms(k: Packet, n: nat, s: Stmt, e: Emitter, a: Emitter, code: seq<Instr>, c: Machine,
                                    q: PState, m: Mask, tm: Mask, cm: Mask, seen: set<Name>)
    requires k.width > 0 && MachineOk(k, c) && |m| == |cm| == k.width && EmitOk(k, s, a, seen)
    requires Compiles(k, n, e, c, code, a, tm, Ran(q))
    requires
      var c3 := DoAll(k, n, code, c).c;
      MaskOf(k, c3, e.mask) == m && MaskOf(k, c3, Reg(e.next)) == cm && MaskOf(k, c, e.mask) == m
    requires (e.mask.Reg? ==> e.mask.id < e.next) && e.next <= a.next && e.slots <= a.slots && e.la == a.la && e.em == a.em
    requires
      var b := EmitArm(k.io, k.plan, s, ElseEmitter(a)).e;
      !b.bailed && a.next <= b.next
    ensures
      var b := EmitArm(k.io, k.plan, s, ElseEmitter(a));
      Compiles(k, n, e, c, code + (ElseMask(e, a) + b.code), b.e.(mask := e.mask), m,
               RunArm(k, n, s, seen, AndNot(m, cm), q))
    decreases n, s, 4
  {
    var c3, em, b := DoAll(k, n, code, c).c, AndNot(m, cm), EmitArm(k.io, k.plan, s, ElseEmitter(a));
    ElseCorrect(k, n, s, e, a, c3, q, m, tm, cm, seen);
    var r := RunArm(k, n, s, seen, em, q);
    CompilesThen(k, n, e, c, code, a, c3, tm, q, ElseMask(e, a) + b.code, b.e, em, r);
    Unmask(k, n, e, c, code + (ElseMask(e, a) + b.code), b.e, m, em, r);
  }

  lemma {:induction false} ElseCorrect(k: Packet, n: nat, s: Stmt, e: Emitter, a: Emitter, c: Machine, p: PState,
                                       m: Mask, tm: Mask, cm: Mask, seen: set<Name>)
    requires k.width > 0 && Match(k, a, c, p, tm) && EmitOk(k, s, a, seen)
    requires MaskOf(k, c, e.mask) == m && MaskOf(k, c, Reg(e.next)) == cm && |m| == |cm| == k.width
    requires !EmitArm(k.io, k.plan, s, ElseEmitter(a)).e.bailed
    ensures
      var b := EmitArm(k.io, k.plan, s, ElseEmitter(a));
      Compiles(k, n, a, c, ElseMask(e, a) + b.code, b.e, AndNot(m, cm), RunArm(k, n, s, seen, AndNot(m, cm), p))
    decreases n, s, 3
  {
    var em, b := AndNot(m, cm), EmitArm(k.io, k.plan, s, ElseEmitter(a));
    var c1 := ElseEntry(k, n, e, a, c, p, m, tm, cm);
    ArmCorrect(k, n, s, ElseEmitter(a), c1, p, em, seen);
    CompilesThen(k, n, a, c, ElseMask(e, a), ElseEmitter(a), c1, em, p, b.code, b.e, em, RunArm(k, n, s, seen, em, p));
  }

  // ---- loops ----

  lemma {:induction false} ForCorrect(k: Packet, n: nat, s: Stmt, e: Emitter, c: Machine, p: PState, m: Mask, seen: set<Name>)
    requires s.For? && k.width > 0 && Match(k, e, c, p, m) && EmitOk(k, s, e, seen)
    requires !Emit(k.io, k.plan, s, e).e.bailed && !e.bailed
    ensures
      var a := Emit(k.io, k.plan, s, e);
      Compiles(k, n, e, c, a.code, a.e, m, Run(k, n, s, seen, m, p))
    decreases n, s, 0, 6
  {
    var a := Emit(k.io, k.plan, s.pre, e);
    var l := EmitLoop(k.io, k.plan, s, a.e);
    EmitGrows(k.io, k.plan, s.pre, e);
    EmitCorrect(k, n, s.pre, e, c, p, m, seen);
    var r := Run(k, n, s.pre, seen, m, p);
    if r.Timeout? {
      CompilesTimesOut(k, n, e, c, a.code, a.e, m, l.code, l.e, m);
    } else {
      var c1 := DoAll(k, n, a.code, c).c;
      LoopCorrect(k, n, s, a.e, c1, r.p, m, seen + Assigned(s.pre));
      CompilesThen(k, n, e, c, a.code, a.e, c1, m, r.p, l.code, l.e, m,
                   RunLoop(k, n, s, seen + Assigned(s.pre), m, r.p));
    }
  }

  lemma {:induction false} LoopCorrect(k: Packet, n: nat, s: Stmt, e: Emitter, c: Machine, p: PState, m: Mask, seen: set<Name>)
    requires IsLoop(s) && k.width > 0 && Match(k, e, c, p, m) && EmitOk(k, s, e, seen)
    requires !EmitLoop(k.io, k.plan, s, e).e.bailed && !e.bailed
    ensures
      var a := EmitLoop(k.io, k.plan, s, e);
      Compiles(k, n, e, c, a.code, a.e, m, RunLoop(k, n, s, seen, m, p))
    decreases n, s, 0, 5
  {
    EmitLoopGrows(k.io, k.plan, s, e);
    if s.id in k.plan.loops {
      UniformCorrect(k, n, s, e, c, p, m, seen);
    } else {
      MaskedCorrect(k, n, s, e, c, p, m, seen);
    }
  }

  lemma NoDiscardInside(s: Stmt)
    requires !ContainsDiscard(s)
    ensures !DiscardInLoop(s)
  {
    match s
    case Block(ss) => forall i | 0 <= i < |ss| ensures !DiscardInLoop(ss[i]) { NoDiscardInside(ss[i]); }
    case If(_, t, e) =>
      NoDiscardInside(t);
      if e.Some? { NoDiscardInside(e.value); }
    case _ =>
  }

  /** Matching depends on the operands only, not on how many names have been used. */
  lemma Rematch(k: Packet, e: Emitter, e': Emitter, c: Machine, p: PState, m: Mask)
    requires Match(k, e, c, p, m) && Fresh(e')
    requires e'.mask == e.mask && e'.live == e.live && e'.la == e.la && e'.em == e.em
    ensures Match(k, e', c, p, m)
  {
  }

  /** Body, then increment, of a loop. */
  function BodyThenStep(k: Packet, n: nat, s: Stmt, seen: set<Name>, m: Mask, p: PState): (r: Outcome)
    requires IsLoop(s) && k.width > 0 && WellShaped(k, p) && |m| == k.width
    ensures r.Ran? ==> WellShaped(k, r.p)
  {
    var r := Run(k, n, s.body, seen, m, p);
    if r.Timeout? then r else RunStep(k, n, s, seen + Assigned(s.body), m, r.p)
  }

  /** The code of a uniform loop's body and increment. */
  function UniformBody(k: Packet, s: Stmt, e: Emitter): seq<Instr>
    requires IsLoop(s)
  {
    var b := Emit(k.io, k.plan, s.body, e);
    b.code + EmitStep(k.io, k.plan, s, b.e).code
  }

  lemma {:induction false} UniformBodyCorrect(k: Packet, n: nat, s: Stmt, e: Emitter, c: Machine, p: PState, m: Mask, seen: set<Name>)
    requires IsLoop(s) && k.width > 0 && Match(k, e, c, p, m) && EmitOk(k, s, e, seen)
    requires !EmitUniform(k.io, k.plan, s, e).e.bailed && !e.bailed
    ensures Compiles(k, n, e, c, UniformBody(k, s, e), e, m, BodyThenStep(k, n, s, seen, m, p))
    decreases n, s, 0, 1
  {
    var b := Emit(k.io, k.plan, s.body, e);
    var i := EmitStep(k.io, k.plan, s, b.e);
    if b.e.bailed { BailStepIsFinal(k.io, k.plan, s, b.e); }
    NoDiscardInside(s.body);
    EmitGrows(k.io, k.plan, s.body, e);
    EmitStepGrows(k.io, k.plan, s, b.e);
    EmitCorrect(k, n, s.body, e, c, p, m, seen);
    var r := Run(k, n, s.body, seen, m, p);
    if r.Timeout? {
      CompilesTimesOut(k, n, e, c, b.code, b.e, m, i.code, e, m);
    } else {
      var c1 := DoAll(k, n, b.code, c).c;
      UniformStepCorrect(k, n, s, b.e, c1, r.p, m, seen);
      UniformJoined(k, n, e, c, b, c1, r.p, i, m, RunStep(k, n, s, seen + Assigned(s.body), m, r.p));
    }
  }

  lemma {:induction false} UniformStepCorrect(k: Packet, n: nat, s: Stmt, b: Emitter, c: Machine, p: PState, m: Mask,
                                              seen: set<Name>)
    requires IsLoop(s) && k.width > 0 && Match(k, b, c, p, m) && EmitOk(k, s, b, seen + Assigned(s.body))
    requires !EmitStep(k.io, k.plan, s, b).e.bailed && !b.bailed
    ensures
      var i := EmitStep(k.io, k.plan, s, b);
      Compiles(k, n, b, c, i.code, i.e, m, RunStep(k, n, s, seen + Assigned(s.body), m, p))
    decreases n, s, 0, 0
  {
    if Step(s).Some? { EmitCorrect(k, n, Step(s).value, b, c, p, m, seen + Assigned(s.body)); }
  }

  /** Body and increment in sequence, back where the body began. */
  lemma UniformJoined(k: Packet, n: nat, e: Emitter, c: Machine, b: Emitted, c1: Machine, p: PState, i: Emitted, m: Mask, r: Outcome)
    requires k.width > 0 && MachineOk(k, c) && MachineOk(k, c1) && Fresh(e)
    requires Compiles(k, n, e, c, b.code, b.e, m, Ran(p)) && DoAll(k, n, b.code, c) == Halted(c1)
    requires Compiles(k, n, b.e, c1, i.code, i.e, m, r) && e.next <= b.e.next && e.slots <= b.e.slots
    requires b.e.la == e.la && b.e.em == e.em
    requires i.e.mask == e.mask && i.e.live == e.live && i.e.la == e.la && i.e.em == e.em
    ensures Compiles(k, n, e, c, b.code + i.code, e, m, r)
  {
    CompilesThen(k, n, e, c, b.code, b.e, c1, m, p, i.code, i.e, m, r);
    if r.Ran? { Rematch(k, i.e, e, DoAll(k, n, b.code + i.code, c).c, r.p, m); }
  }

  /** One run of a uniform loop's body agrees with one iteration, within every budget up to `n`. */
  ghost predicate UniBodyAgrees(k: Packet, n: nat, s: Stmt, e: Emitter, code: seq<Instr>, m: Mask, seen: set<Name>)
    requires IsLoop(s) && k.width > 0
  {
    forall j: nat, c: Machine, q: PState | j <= n && Match(k, e, c, q, m) ::
      UniAgree(k, e, c, DoAll(k, j, code, c), m, BodyThenStep(k, j, s, seen, m, q))
  }

  lemma {:induction false} UniLoopCorrect(k: Packet, n: nat, s: Stmt, e: Emitter, code: seq<Instr>, c: Machine, p: PState,
                                          m: Mask, seen: set<Name>)
    requires IsLoop(s) && k.width > 0 && Match(k, e, c, p, m) && UniBodyAgrees(k, n, s, e, code, m, seen)
    ensures UniAgree(k, e, c, DoUniLoop(k, n, UniLoop(s.cond, code), c), m, RunUniform(k, n, s, seen, m, p))
  {
    if CondMask(k, s.cond, p.mem)[0] && n > 0 {
      var loop, f, q := UniLoop(s.cond, code), DoAll(k, n, code, c), BodyThenStep(k, n, s, seen, m, p);
      UniUnfold(k, n, s, seen, loop, c, m, p);
      assert UniAgree(k, e, c, f, m, q);
      if q.Ran? {
        UniLoopCorrect(k, n - 1, s, e, code, f.c, q.p, m, seen);
        UniAgreeTrans(k, e, c, f.c, DoUniLoop(k, n - 1, loop, f.c), m, RunUniform(k, n - 1, s, seen, m, q.p));
      }
    }
  }

  lemma UniAgreeTrans(k: Packet, e: Emitter, c: Machine, c': Machine, f: Final, m: Mask, r: Outcome)
    requires MachineOk(k, c) && MachineOk(k, c') && (f.Halted? ==> MachineOk(k, f.c))
    requires Kept(k, e, c, c') && UniAgree(k, e, c', f, m, r)
    ensures UniAgree(k, e, c, f, m, r)
  {
  }

  lemma {:induction false} UniformCorrect(k: Packet, n: nat, s: Stmt, e: Emitter, c: Machine, p: PState, m: Mask, seen: set<Name>)
    requires IsLoop(s) && k.width > 0 && Match(k, e, c, p, m) && EmitOk(k, s, e, seen)
    requires !EmitUniform(k.io, k.plan, s, e).e.bailed && !e.bailed
    ensures
      var a := EmitUniform(k.io, k.plan, s, e);
      Compiles(k, n, e, c, a.code, a.e, m, RunUniform(k, n, s, seen, m, p))
    decreases n, s, 0, 3
  {
    var a, code := EmitUniform(k.io, k.plan, s, e), UniformBody(k, s, e);
    UniBodiesAgree(k, n, s, e, m, seen);
    UniLoopCorrect(k, n, s, e, code, c, p, m, seen);
    Do1(k, n, UniLoop(s.cond, code), c);
    EmitBodyGrows(k.io, k.plan, s, e);
    UniformDone(k, n, e, c, a.e, UniLoop(s.cond, code), m, RunUniform(k, n, s, seen, m, p));
  }

  lemma {:induction false} UniBodiesAgree(k: Packet, n: nat, s: Stmt, e: Emitter, m: Mask, seen: set<Name>)
    requires IsLoop(s) && k.width > 0 && EmitOk(k, s, e, seen) && !EmitUniform(k.io, k.plan, s, e).e.bailed && !e.bailed
    ensures UniBodyAgrees(k, n, s, e, UniformBody(k, s, e), m, seen)
    decreases n, s, 0, 2
  {
    forall j: nat, z: Machine, q: PState | j <= n && Match(k, e, z, q, m)
      ensures UniAgree(k, e, z, DoAll(k, j, UniformBody(k, s, e), z), m, BodyThenStep(k, j, s, seen, m, q))
    {
      UniformBodyCorrect(k, j, s, e, z, q, m, seen);
    }
  }

  lemma UniformDone(k: Packet, n: nat, e: Emitter, c: Machine, a: Emitter, loop: Instr, m: Mask, r: Outcome)
    requires k.width > 0 && MachineOk(k, c) && loop.UniLoop? && UniAgree(k, e, c, DoUniLoop(k, n, loop, c), m, r)
    requires Fresh(a) && a.mask == e.mask && a.live == e.live && a.la == e.la && a.em == e.em
    ensures Compiles(k, n, e, c, [loop], a, m, r)
  {
    Do1(k, n, loop, c);
    if r.Ran? { Rematch(k, e, a, DoUniLoop(k, n, loop, c).c, r.p, m); }
  }

  ghost predicate UniAgree(k: Packet, e: Emitter, c: Machine, f: Final, m: Mask, r: Outcome)
    requires MachineOk(k, c) && (f.Halted? ==> MachineOk(k, f.c))
  {
    match r
    case Timeout => f.Exhausted?
    case Ran(q) => f.Halted? && Match(k, e, f.c, q, m) && Kept(k, e, c, f.c)
  }

  lemma UniUnfold(k: Packet, n: nat, s: Stmt, seen: set<Name>, loop: Instr, c: Machine, m: Mask, p: PState)
    requires IsLoop(s) && k.width > 0 && MachineOk(k, c) && loop.UniLoop? && WellShaped(k, p) && |m| == k.width && n > 0
    requires CondMask(k, s.cond, p.mem)[0] && CondMask(k, loop.cond, c.mem)[0]
    ensures
      var b, q := DoAll(k, n, loop.body, c), BodyThenStep(k, n, s, seen, m, p);
      && DoUniLoop(k, n, loop, c) == (if b.Exhausted? then Exhausted else DoUniLoop(k, n - 1, loop, b.c))
      && RunUniform(k, n, s, seen, m, p) == (if q.Timeout? then Outcome.Timeout else RunUniform(k, n - 1, s, seen, m, q.p))
  {
  }

  /** The machine at the head of a masked loop emitted at `e`; `c0` is the machine that entered. */
  ghost predicate LoopMatch(k: Packet, e: Emitter, c0: Machine, c: Machine, p: PState)
    requires MachineOk(k, c0)
  {
    && MachineOk(k, c) && WellShaped(k, p) && Fresh(e)
    && c.mem == p.mem && SlotOf(k, c, e.slots) == p.la && MaskOf(k, c, e.live) == p.live
    && Kept(k, e.(la := None, em := None), c0, c)
  }

  ghost predicate LoopAgree(k: Packet, e: Emitter, c0: Machine, f: Final, r: Outcome)
    requires MachineOk(k, c0)
  {
    match r
    case Timeout => f.Exhausted?
    case Ran(q) => f.Halted? && LoopMatch(k, e, c0, f.c, q)
  }

  lemma HeadCorrect(k: Packet, n: nat, cond: Expr, la: nat, a: nat, c: Machine) returns (h: Machine)
    requires k.width > 0 && MachineOk(k, c)
    ensures MachineOk(k, h) && DoAll(k, n, LoopHead(cond, la, a), c) == Halted(h)
    ensures
      var na := And(SlotOf(k, c, la), CondMask(k, cond, c.mem));
      h.mem == c.mem && h.slots == c.slots[la := na] && MaskOf(k, h, Reg(a + 2)) == na
    ensures forall r: nat | r < a :: MaskOf(k, h, Reg(r)) == MaskOf(k, c, Reg(r))
  {
    var c1, c2;
    c1, c2, h := HeadRuns(k, n, cond, la, a, c);
    assert MaskOf(k, c2, Reg(a)) == SlotOf(k, c, la) && MaskOf(k, c2, Reg(a + 1)) == CondMask(k, cond, c.mem);
    ThreeAbove(k, a, c, c1, c2, h);
  }

  lemma HeadRuns(k: Packet, n: nat, cond: Expr, la: nat, a: nat, c: Machine) returns (c1: Machine, c2: Machine, h: Machine)
    requires k.width > 0 && MachineOk(k, c)
    ensures c1 == c.(masks := c.masks[a := SlotOf(k, c, la)]) && MachineOk(k, c1)
    ensures c2 == c1.(masks := c1.masks[a + 1 := CondMask(k, cond, c.mem)]) && MachineOk(k, c2)
    ensures
      var na := And(MaskOf(k, c2, Reg(a)), MaskOf(k, c2, Reg(a + 1)));
      h == c2.(masks := c2.masks[a + 2 := na], slots := c.slots[la := na])
    ensures MachineOk(k, h) && DoAll(k, n, LoopHead(cond, la, a), c) == Halted(h)
  {
    var test, both, store := Test(cond), Both(Reg(a), Reg(a + 1)), StoreMask(la, Reg(a + 2));
    c1 := DefThen(k, n, a, LoadMask(la), [Def(a + 1, test)] + ([Def(a + 2, both)] + [store]), c);
    c2 := DefThen(k, n, a + 1, test, [Def(a + 2, both)] + [store], c1);
    var c3 := DefThen(k, n, a + 2, both, [store], c2);
    h := c3.(slots := c3.slots[la := MaskOf(k, c3, Reg(a + 2))]);
    Do1(k, n, store, c3);
  }

  /** New definitions leave the masks below them alone. */
  lemma ThreeAbove(k: Packet, a: nat, c: Machine, c1: Machine, c2: Machine, c3: Machine)
    requires MachineOk(k, c) && MachineOk(k, c1) && MachineOk(k, c2) && MachineOk(k, c3)
    requires a in c1.masks && c1.masks == c.masks[a := c1.masks[a]]
    requires a + 1 in c2.masks && c2.masks == c1.masks[a + 1 := c2.masks[a + 1]]
    requires a + 2 in c3.masks && c3.masks == c2.masks[a + 2 := c3.masks[a + 2]]
    ensures forall q: nat | q < a :: MaskOf(k, c3, Reg(q)) == MaskOf(k, c, Reg(q))
  {
  }

  lemma TopCorrect(k: Packet, n: nat, la: nat, em: nat, a: nat, c: Machine) returns (t: Machine)
    requires k.width > 0 && MachineOk(k, c) && la != em
    ensures MachineOk(k, t) && DoAll(k, n, LoopTop(la, em, a), c) == Halted(t)
    ensures t.mem == c.mem && t.slots == c.slots[em := SlotOf(k, c, la)] && MaskOf(k, t, Reg(a + 1)) == SlotOf(k, c, la)
    ensures forall r: nat | r < a :: MaskOf(k, t, Reg(r)) == MaskOf(k, c, Reg(r))
  {
    var store, last := StoreMask(em, Reg(a)), Def(a + 1, LoadMask(la));
    var c1 := DefThen(k, n, a, LoadMask(la), [store] + [last], c);
    var c2 := StoreMaskThen(k, n, em, Reg(a), [last], c1);
    t := c2.(masks := c2.masks[a + 1 := SlotOf(k, c2, la)]);
    Do1(k, n, last, c2);
  }

  /** One iteration of a masked loop as Run defines it. */
  function MaskedIteration(k: Packet, n: nat, s: Stmt, seen: set<Name>, p: PState): (r: Outcome)
    requires IsLoop(s) && k.width > 0 && WellShaped(k, p)
    ensures r.Ran? ==> WellShaped(k, r.p)
  {
    var r := Run(k, n, s.body, seen, p.la, p.(em := p.la));
    if r.Timeout? then r
    else RunStep(k, n, s, seen + Assigned(s.body), r.p.la, r.p.(em := AllLanes(k.width)))
  }

  function BodyEmitted(k: Packet, s: Stmt, e: Emitter): Emitted
    requires IsLoop(s)
  {
    Emit(k.io, k.plan, s.body, BodyEmitter(e))
  }

  function StepEmitted(k: Packet, s: Stmt, e: Emitter): Emitted
    requires IsLoop(s)
  {
    EmitStep(k.io, k.plan, s, StepEmitter(BodyEmitted(k, s, e).e))
  }

  lemma {:induction false} MaskedParts(k: Packet, s: Stmt, e: Emitter)
    requires IsLoop(s) && Fresh(e) && !e.bailed && WellFormed(s, true) && !ContainsDiscard(s.body)
    requires !StepEmitted(k, s, e).e.bailed
    ensures
      var b, i := BodyEmitted(k, s, e), StepEmitted(k, s, e);
      && !b.e.bailed && Fresh(b.e) && Fresh(i.e)
      && BodyEmitter(e).next <= b.e.next <= i.e.next && BodyEmitter(e).slots <= b.e.slots <= i.e.slots
      && b.e.la == i.e.la == Some(e.slots) && b.e.em == Some(e.slots + 1) && b.e.live == i.e.live == e.live
      && b.e.locals == e.locals + (Assigned(s.body) - k.io.outputs)
  {
    var b := BodyEmitted(k, s, e);
    if b.e.bailed { BailStepIsFinal(k.io, k.plan, s, StepEmitter(b.e)); }
    EmitGrows(k.io, k.plan, s.body, BodyEmitter(e));
    EmitStepGrows(k.io, k.plan, s, StepEmitter(b.e));
    BodySlots(e, b.e);
  }

  lemma BodySlots(e: Emitter, b: Emitter)
    requires b.la == BodyEmitter(e).la && b.em == BodyEmitter(e).em
    ensures b.la == Some(e.slots) && b.em == Some(e.slots + 1)
  {
  }

  lemma BodyEntry(k: Packet, n: nat, e: Emitter, c0: Machine, h: Machine, p: PState, rest: seq<Instr>)
    returns (t: Machine)
    requires k.width > 0 && MachineOk(k, c0) && LoopMatch(k, e, c0, h, p)
    ensures MachineOk(k, t) && DoAll(k, n, LoopTop(e.slots, e.slots + 1, e.next + 3) + rest, h) == DoAll(k, n, rest, t)
    ensures Match(k, BodyEmitter(e), t, p.(em := p.la), p.la)
    ensures Kept(k, e.(la := None, em := None), c0, t)
  {
    t := TopCorrect(k, n, e.slots, e.slots + 1, e.next + 3, h);
    DoAllAppend(k, n, LoopTop(e.slots, e.slots + 1, e.next + 3), rest, h);
    TopMatches(k, e, c0, h, p, t);
  }

  /** Above the loop's own registers and slots nothing has changed. */
  lemma TopMatches(k: Packet, e: Emitter, c0: Machine, h: Machine, p: PState, t: Machine)
    requires MachineOk(k, c0) && LoopMatch(k, e, c0, h, p) && MachineOk(k, t) && t.mem == h.mem
    requires t.slots == h.slots[e.slots + 1 := p.la] && MaskOf(k, t, Reg(e.next + 4)) == p.la
    requires forall r: nat | r < e.next + 3 :: MaskOf(k, t, Reg(r)) == MaskOf(k, h, Reg(r))
    ensures Match(k, BodyEmitter(e), t, p.(em := p.la), p.la) && Kept(k, e.(la := None, em := None), c0, t)
  {
  }

  lemma StepEntry(k: Packet, n: nat, e: Emitter, b: Emitter, c0: Machine, c: Machine, p: PState, m: Mask)
    returns (c': Machine)
    requires k.width > 0 && MachineOk(k, c0) && Match(k, b, c, p, m) && b.la == Some(e.slots)
    requires e.next <= b.next && Kept(k, e.(la := None, em := None), c0, c)
    ensures MachineOk(k, c') && DoAll(k, n, [Def(b.next, LoadMask(e.slots))], c) == Halted(c')
    ensures Match(k, StepEmitter(b), c', p.(em := AllLanes(k.width)), p.la)
    ensures Kept(k, e.(la := None, em := None), c0, c')
  {
    c' := DefSteps(k, n, b, c, p, m, LoadMask(e.slots));
  }

  lemma KeptOutside(k: Packet, e: Emitter, b: Emitter, c0: Machine, c: Machine, c': Machine)
    requires MachineOk(k, c0) && MachineOk(k, c) && MachineOk(k, c')
    requires Kept(k, e.(la := None, em := None), c0, c) && Kept(k, b, c, c')
    requires e.next <= b.next && e.slots <= b.slots && b.la == Some(e.slots)
    requires b.em.Some? ==> b.em.value == e.slots + 1
    ensures Kept(k, e.(la := None, em := None), c0, c')
  {
  }

  lemma {:induction false} MaskedBodyAndStep(k: Packet, n: nat, s: Stmt, e: Emitter, c0: Machine, t: Machine, p: PState,
                                             seen: set<Name>)
    requires IsLoop(s) && k.width > 0 && MachineOk(k, c0) && EmitOk(k, s, e, seen) && !e.bailed && Fresh(e)
    requires !StepEmitted(k, s, e).e.bailed && BodyMatch(k, e, c0, t, p)
    ensures LoopAgree(k, e, c0, DoAll(k, n, LoopRest(k, s, e), t), MaskedIteration(k, n, s, seen, p))
    decreases n, s, 0, 1
  {
    NoDiscardInside(s.body);
    MaskedParts(k, s, e);
    var b := BodyEmitted(k, s, e);
    var tail := StepMask(s, e.slots, b.e.next) + StepEmitted(k, s, e).code;
    DoAllAppend(k, n, b.code, tail, t);
    MaskedBodyRun(k, n, s, e, c0, t, p, seen);
    var r := Run(k, n, s.body, seen, p.la, p.(em := p.la));
    if r.Ran? { MaskedStepCorrect(k, n, s, e, c0, DoAll(k, n, b.code, t).c, r.p, p.la, seen); }
  }

  lemma {:induction false} MaskedBodyRun(k: Packet, n: nat, s: Stmt, e: Emitter, c0: Machine, t: Machine, p: PState,
                                         seen: set<Name>)
    requires IsLoop(s) && k.width > 0 && MachineOk(k, c0) && EmitOk(k, s, e, seen) && DiscardInLoop(s.body) == false
    requires !BodyEmitted(k, s, e).e.bailed && WellShaped(k, p)
    requires Match(k, BodyEmitter(e), t, p.(em := p.la), p.la) && Kept(k, e.(la := None, em := None), c0, t)
    ensures
      var b, f := BodyEmitted(k, s, e), DoAll(k, n, BodyEmitted(k, s, e).code, t);
      var r := Run(k, n, s.body, seen, p.la, p.(em := p.la));
      && (f.Exhausted? <==> r.Timeout?)
      && (r.Ran? ==> Match(k, b.e, f.c, r.p, p.la) && Kept(k, e.(la := None, em := None), c0, f.c))
    decreases n, s, 0, 0
  {
    EmitCorrect(k, n, s.body, BodyEmitter(e), t, p.(em := p.la), p.la, seen);
    var f := DoAll(k, n, BodyEmitted(k, s, e).code, t);
    if f.Halted? { KeptOutside(k, e, BodyEmitter(e), c0, t, f.c); }
  }

  lemma {:induction false} MaskedStepCorrect(k: Packet, n: nat, s: Stmt, e: Emitter, c0: Machine, c1: Machine, q: PState,
                                             m: Mask, seen: set<Name>)
    requires IsLoop(s) && k.width > 0 && MachineOk(k, c0) && EmitOk(k, s, e, seen) && !e.bailed && Fresh(e)
    requires !StepEmitted(k, s, e).e.bailed
    requires Match(k, BodyEmitted(k, s, e).e, c1, q, m) && Kept(k, e.(la := None, em := None), c0, c1)
    ensures
      var b, i := BodyEmitted(k, s, e), StepEmitted(k, s, e);
      var f := DoAll(k, n, StepMask(s, e.slots, b.e.next) + i.code, c1);
      var r := RunStep(k, n, s, seen + Assigned(s.body), q.la, q.(em := AllLanes(k.width)));
      LoopAgree(k, e, c0, f, r)
    decreases n, s, 0, 0
  {
    MaskedParts(k, s, e);
    var b, i := BodyEmitted(k, s, e), StepEmitted(k, s, e);
    if Step(s).Some? {
      var c2 := StepEntry(k, n, e, b.e, c0, c1, q, m);
      var z := q.(em := AllLanes(k.width));
      DoAllAppend(k, n, StepMask(s, e.slots, b.e.next), i.code, c1);
      EmitCorrect(k, n, Step(s).value, StepEmitter(b.e), c2, z, q.la, seen + Assigned(s.body));
      StepDone(k, n, e, c0, b.e, i, c2, q.la, RunStep(k, n, s, seen + Assigned(s.body), q.la, z));
    } else {
      assert [] + i.code == [];
    }
  }

  /** After the increment the machine is back at the head of the loop. */
  lemma StepDone(k: Packet, n: nat, e: Emitter, c0: Machine, b: Emitter, i: Emitted, c2: Machine, m: Mask, r: Outcome)
    requires k.width > 0 && MachineOk(k, c0) && MachineOk(k, c2) && Fresh(e)
    requires Compiles(k, n, StepEmitter(b), c2, i.code, i.e, m, r) && Kept(k, e.(la := None, em := None), c0, c2)
    requires e.next <= b.next && e.slots <= b.slots && b.la == i.e.la == Some(e.slots) && i.e.live == e.live
    ensures LoopAgree(k, e, c0, DoAll(k, n, i.code, c2), r)
  {
    if r.Ran? { KeptOutside(k, e, StepEmitter(b), c0, c2, DoAll(k, n, i.code, c2).c); }
  }

  function LoopInstr(s: Stmt, e: Emitter, rest: seq<Instr>): Instr
    requires IsLoop(s)
  {
    MaskLoop(LoopHead(s.cond, e.slots, e.next), Reg(e.next + 2), LoopTop(e.slots, e.slots + 1, e.next + 3) + rest)
  }

  /** The code of a masked loop's body and increment. */
  function LoopRest(k: Packet, s: Stmt, e: Emitter): seq<Instr>
    requires IsLoop(s)
  {
    BodyEmitted(k, s, e).code + (StepMask(s, e.slots, BodyEmitted(k, s, e).e.next) + StepEmitted(k, s, e).code)
  }

  /** The machine at the top of a loop body. */
  ghost predicate BodyMatch(k: Packet, e: Emitter, c0: Machine, t: Machine, q: PState)
    requires MachineOk(k, c0)
  {
    && MachineOk(k, t) && WellShaped(k, q)
    && Match(k, BodyEmitter(e), t, q.(em := q.la), q.la) && Kept(k, e.(la := None, em := None), c0, t)
  }

  /** One run of the loop body agrees with one iteration, from every matched state and within every budget up to `n`. */
  ghost predicate BodyAgrees(k: Packet, n: nat, s: Stmt, e: Emitter, rest: seq<Instr>, c0: Machine, seen: set<Name>)
    requires IsLoop(s) && k.width > 0 && MachineOk(k, c0)
  {
    forall j: nat, t: Machine, q: PState | j <= n && BodyMatch(k, e, c0, t, q) ::
      LoopAgree(k, e, c0, DoAll(k, j, rest, t), MaskedIteration(k, j, s, seen, q))
  }

  lemma IterationAgrees(k: Packet, n: nat, s: Stmt, e: Emitter, rest: seq<Instr>, c0: Machine, h: Machine, q: PState,
                        seen: set<Name>)
    requires IsLoop(s) && k.width > 0 && MachineOk(k, c0) && LoopMatch(k, e, c0, h, q)
    requires BodyAgrees(k, n, s, e, rest, c0, seen)
    ensures LoopAgree(k, e, c0, DoAll(k, n, LoopInstr(s, e, rest).body, h), MaskedIteration(k, n, s, seen, q))
  {
    var t := BodyEntry(k, n, e, c0, h, q, rest);
    assert BodyMatch(k, e, c0, t, q);
  }

  /** The loop instruction emitted for a masked loop runs as RunMasked says. */
  lemma {:induction false} MaskLoopCorrect(k: Packet, n: nat, s: Stmt, e: Emitter, rest: seq<Instr>,
                                           c0: Machine, c: Machine, p: PState, seen: set<Name>)
    requires IsLoop(s) && k.width > 0 && MachineOk(k, c0) && LoopMatch(k, e, c0, c, p)
    requires BodyAgrees(k, n, s, e, rest, c0, seen)
    ensures LoopAgree(k, e, c0, DoMaskLoop(k, n, LoopInstr(s, e, rest), c), RunMasked(k, n, s, seen, p))
    decreases n, 1
  {
    var h := HeadEntry(k, n, s.cond, e, c0, c, p);
    var q := p.(la := And(p.la, CondMask(k, s.cond, p.mem)));
    if Any(q.la) && n > 0 {
      LoopGoesOn(k, n, s, e, rest, c0, c, p, h, q, seen);
    } else {
      LoopEnds(k, n, s, e, rest, c0, c, p, h, q, seen);
    }
  }

  /** The head leaves no lane, or the bound is used up. */
  lemma LoopEnds(k: Packet, n: nat, s: Stmt, e: Emitter, rest: seq<Instr>, c0: Machine, c: Machine, p: PState,
                 h: Machine, q: PState, seen: set<Name>)
    requires IsLoop(s) && k.width > 0 && MachineOk(k, c0) && MachineOk(k, c) && WellShaped(k, p) && LoopMatch(k, e, c0, h, q)
    requires q == p.(la := And(p.la, CondMask(k, s.cond, p.mem))) && MaskOf(k, h, Reg(e.next + 2)) == q.la
    requires DoAll(k, n, LoopInstr(s, e, rest).head, c) == Halted(h) && !(Any(q.la) && n > 0)
    ensures LoopAgree(k, e, c0, DoMaskLoop(k, n, LoopInstr(s, e, rest), c), RunMasked(k, n, s, seen, p))
  {
    MaskLoopUnfold(k, n, LoopInstr(s, e, rest), c, h);
    RunMaskedUnfold(k, n, s, seen, p);
  }

  /** One more iteration, then the rest of the loop. */
  lemma {:induction false} LoopGoesOn(k: Packet, n: nat, s: Stmt, e: Emitter, rest: seq<Instr>, c0: Machine, c: Machine,
                                      p: PState, h: Machine, q: PState, seen: set<Name>)
    requires IsLoop(s) && k.width > 0 && MachineOk(k, c0) && MachineOk(k, c) && WellShaped(k, p) && LoopMatch(k, e, c0, h, q)
    requires q == p.(la := And(p.la, CondMask(k, s.cond, p.mem))) && MaskOf(k, h, Reg(e.next + 2)) == q.la
    requires DoAll(k, n, LoopInstr(s, e, rest).head, c) == Halted(h) && Any(q.la) && n > 0
    requires BodyAgrees(k, n, s, e, rest, c0, seen)
    ensures LoopAgree(k, e, c0, DoMaskLoop(k, n, LoopInstr(s, e, rest), c), RunMasked(k, n, s, seen, p))
    decreases n, 0, 1
  {
    var f, r := DoAll(k, n, LoopInstr(s, e, rest).body, h), MaskedIteration(k, n, s, seen, q);
    IterationAgrees(k, n, s, e, rest, c0, h, q, seen);
    if r.Timeout? {
      CutUnfold(k, n, s, e, rest, c, p, h, q, seen);
    } else {
      RoundUnfold(k, n, s, e, rest, c, p, h, q, f.c, r.p, seen);
      NextRound(k, n, s, e, rest, c0, f.c, r.p, seen, DoMaskLoop(k, n, LoopInstr(s, e, rest), c), RunMasked(k, n, s, seen, p));
    }
  }

  /** The rest of the loop, which decides what the loop comes to. */
  lemma {:induction false} NextRound(k: Packet, n: nat, s: Stmt, e: Emitter, rest: seq<Instr>, c0: Machine, c: Machine,
                                     p: PState, seen: set<Name>, f: Final, r: Outcome)
    requires IsLoop(s) && k.width > 0 && MachineOk(k, c0) && LoopMatch(k, e, c0, c, p) && n > 0
    requires BodyAgrees(k, n, s, e, rest, c0, seen)
    requires f == DoMaskLoop(k, n - 1, LoopInstr(s, e, rest), c) && r == RunMasked(k, n - 1, s, seen, p)
    ensures LoopAgree(k, e, c0, f, r)
    decreases n, 0, 0
  {
    MaskLoopCorrect(k, n - 1, s, e, rest, c0, c, p, seen);
  }

  lemma CutUnfold(k: Packet, n: nat, s: Stmt, e: Emitter, rest: seq<Instr>, c: Machine, p: PState, h: Machine, q: PState,
                  seen: set<Name>)
    requires IsLoop(s) && k.width > 0 && MachineOk(k, c) && MachineOk(k, h) && WellShaped(k, p) && WellShaped(k, q) && n > 0
    requires q == p.(la := And(p.la, CondMask(k, s.cond, p.mem))) && MaskOf(k, h, Reg(e.next + 2)) == q.la && Any(q.la)
    requires DoAll(k, n, LoopInstr(s, e, rest).head, c) == Halted(h) && DoAll(k, n, LoopInstr(s, e, rest).body, h) == Exhausted
    requires MaskedIteration(k, n, s, seen, q).Timeout?
    ensures DoMaskLoop(k, n, LoopInstr(s, e, rest), c) == Exhausted && RunMasked(k, n, s, seen, p).Timeout?
  {
    MaskLoopUnfold(k, n, LoopInstr(s, e, rest), c, h);
    RunMaskedUnfold(k, n, s, seen, p);
  }

  lemma RoundUnfold(k: Packet, n: nat, s: Stmt, e: Emitter, rest: seq<Instr>, c: Machine, p: PState, h: Machine, q: PState,
                    c': Machine, p': PState, seen: set<Name>)
    requires IsLoop(s) && k.width > 0 && MachineOk(k, c) && MachineOk(k, h) && WellShaped(k, p) && WellShaped(k, q) && n > 0
    requires q == p.(la := And(p.la, CondMask(k, s.cond, p.mem))) && MaskOf(k, h, Reg(e.next + 2)) == q.la && Any(q.la)
    requires DoAll(k, n, LoopInstr(s, e, rest).head, c) == Halted(h) && DoAll(k, n, LoopInstr(s, e, rest).body, h) == Halted(c')
    requires MaskedIteration(k, n, s, seen, q) == Ran(p') && MachineOk(k, c') && WellShaped(k, p')
    ensures DoMaskLoop(k, n, LoopInstr(s, e, rest), c) == DoMaskLoop(k, n - 1, LoopInstr(s, e, rest), c')
    ensures RunMasked(k, n, s, seen, p) == RunMasked(k, n - 1, s, seen, p')
  {
    MaskLoopUnfold(k, n, LoopInstr(s, e, rest), c, h);
    RunMaskedUnfold(k, n, s, seen, p);
  }

  lemma HeadEntry(k: Packet, n: nat, cond: Expr, e: Emitter, c0: Machine, c: Machine, p: PState) returns (h: Machine)
    requires k.width > 0 && MachineOk(k, c0) && LoopMatch(k, e, c0, c, p)
    ensures
      var na := And(p.la, CondMask(k, cond, p.mem));
      && MachineOk(k, h) && DoAll(k, n, LoopHead(cond, e.slots, e.next), c) == Halted(h)
      && LoopMatch(k, e, c0, h, p.(la := na)) && MaskOf(k, h, Reg(e.next + 2)) == na
  {
    h := HeadCorrect(k, n, cond, e.slots, e.next, c);
  }

  lemma MaskLoopUnfold(k: Packet, n: nat, loop: Instr, c: Machine, h: Machine)
    requires k.width > 0 && MachineOk(k, c) && MachineOk(k, h) && loop.MaskLoop? && DoAll(k, n, loop.head, c) == Halted(h)
    ensures
      DoMaskLoop(k, n, loop, c) ==
      if !Any(MaskOf(k, h, loop.test)) then Halted(h)
      else if n == 0 then Exhausted
      else
        var b := DoAll(k, n, loop.body, h);
        if b.Exhausted? then Exhausted else DoMaskLoop(k, n - 1, loop, b.c)
  {
  }

  lemma RunMaskedUnfold(k: Packet, n: nat, s: Stmt, seen: set<Name>, p: PState)
    requires IsLoop(s) && k.width > 0 && WellShaped(k, p)
    ensures
      var q := p.(la := And(p.la, CondMask(k, s.cond, p.mem)));
      RunMasked(k, n, s, seen, p) ==
      if !Any(q.la) then Ran(q)
      else if n == 0 then Outcome.Timeout
      else
        var r := MaskedIteration(k, n, s, seen, q);
        if r.Timeout? then Outcome.Timeout else RunMasked(k, n - 1, s, seen, r.p)
  {
  }

  lemma {:induction false} MaskedCorrect(k: Packet, n: nat, s: Stmt, e: Emitter, c: Machine, p: PState, m: Mask, seen: set<Name>)
    requires IsLoop(s) && k.width > 0 && Match(k, e, c, p, m) && EmitOk(k, s, e, seen) && s.id !in k.plan.loops
    requires !EmitMasked(k.io, k.plan, s, e).e.bailed && !e.bailed
    ensures
      var a := EmitMasked(k.io, k.plan, s, e);
      Compiles(k, n, e, c, a.code, a.e, m, RunLoop(k, n, s, seen, m, p))
    decreases n, s, 0, 4
  {
    var a, rest := EmitMasked(k.io, k.plan, s, e), LoopRest(k, s, e);
    var loop, h := LoopInstr(s, e, rest), p.(la := m);
    MaskedShape(k, s, e);
    EmitMaskedGrows(k.io, k.plan, s, e);
    var c1 := SeedLoop(k, n, e, loop, c, p, m);
    AllBodiesAgree(k, n, s, e, c, seen);
    MaskLoopCorrect(k, n, s, e, rest, c, c1, h, seen);
    LoopExit(k, n, e, a.e, c, p, m, a.code, DoMaskLoop(k, n, loop, c1), RunMasked(k, n, s, seen, h));
  }

  /** A masked loop is a seeding store and the loop. */
  lemma MaskedShape(k: Packet, s: Stmt, e: Emitter)
    requires IsLoop(s)
    ensures EmitMasked(k.io, k.plan, s, e).code == [StoreMask(e.slots, e.mask)] + [LoopInstr(s, e, LoopRest(k, s, e))]
  {
  }

  /** The loop's own la is seeded from the structural mask. */
  lemma SeedLoop(k: Packet, n: nat, e: Emitter, loop: Instr, c: Machine, p: PState, m: Mask) returns (c1: Machine)
    requires k.width > 0 && Match(k, e, c, p, m) && loop.MaskLoop?
    ensures MachineOk(k, c1) && LoopMatch(k, e, c, c1, p.(la := m))
    ensures DoAll(k, n, [StoreMask(e.slots, e.mask)] + [loop], c) == DoMaskLoop(k, n, loop, c1)
  {
    c1 := c.(slots := c.slots[e.slots := m]);
    DoFirst(k, n, StoreMask(e.slots, e.mask), [loop], c);
    Do1(k, n, loop, c1);
  }

  lemma {:induction false} AllBodiesAgree(k: Packet, n: nat, s: Stmt, e: Emitter, c: Machine, seen: set<Name>)
    requires IsLoop(s) && k.width > 0 && MachineOk(k, c) && EmitOk(k, s, e, seen) && !e.bailed && Fresh(e)
    requires !StepEmitted(k, s, e).e.bailed
    ensures BodyAgrees(k, n, s, e, LoopRest(k, s, e), c, seen)
    decreases n, s, 0, 3
  {
    forall j: nat, t: Machine, q: PState | j <= n && BodyMatch(k, e, c, t, q)
      ensures LoopAgree(k, e, c, DoAll(k, j, LoopRest(k, s, e), t), MaskedIteration(k, j, s, seen, q))
    {
      MaskedBodyAndStep(k, j, s, e, c, t, q, seen);
    }
  }

  /** Leaving a masked loop: the enclosing masks are where they were. */
  lemma LoopExit(k: Packet, n: nat, e: Emitter, a: Emitter, c0: Machine, p: PState, m: Mask, code: seq<Instr>,
                 f: Final, r: Outcome)
    requires k.width > 0 && Match(k, e, c0, p, m) && LoopAgree(k, e, c0, f, r) && Fresh(a) && DoAll(k, n, code, c0) == f
    requires a.mask == e.mask && a.live == e.live && a.la == e.la && a.em == e.em
    ensures Compiles(k, n, e, c0, code, a, m, if r.Timeout? then r else Ran(r.p.(la := p.la, em := p.em)))
  {
  }
}
