/** The packetizer as an object: its methods emit at an insertion point and update mask_, live_, la_, em_ and the
    local slots in place, and together produce exactly the code PacketEmitter specifies. */
module PacketEmitterClass {
  import opened ShaderAst
  import opened Uniformity
  import opened UniformityAnalysis
  import opened PacketSemantics
  import opened VectorCode
  import opened PacketEmitter
  import opened EmitterCorrectness
  import opened PacketCompiler
  import opened ProgramText
  import opened Bailing

  lemma InTwo(a: seq<Instr>, b: seq<Instr>, c: seq<Instr>)
    ensures (a + b) + c == a + (b + c)
  {
  }

  lemma InThree(a: seq<Instr>, b: seq<Instr>, c: seq<Instr>, d: seq<Instr>)
    ensures ((a + b) + c) + d == a + (b + (c + d))
  {
  }

  lemma InFour(a: seq<Instr>, b: seq<Instr>, c: seq<Instr>, d: seq<Instr>, e: seq<Instr>)
    ensures (((a + b) + c) + d) + e == a + (b + (c + (d + e)))
    ensures a == [] ==> (((a + b) + c) + d) + e == b + (c + (d + e))
  {
  }

  /** The body of a masked loop, from the pieces appended one after the other. */
  lemma BlockIs(io: Interface, plan: Plan, s: Stmt, inner: Emitter, la: nat, em: nat, r: nat, b: Emitted, i: Emitted)
    requires IsLoop(s) && b == Emit(io, plan, s.body, inner) && i == EmitStep(io, plan, s, StepEmitter(b.e))
    ensures ((([] + LoopTop(la, em, r)) + b.code) + StepMask(s, la, b.e.next)) + i.code == MaskedBlock(io, plan, s, inner, la, em, r)
  {
    InFour([], LoopTop(la, em, r), b.code, StepMask(s, la, b.e.next), i.code);
  }

  /** A masked loop from the parts of its loop instruction. */
  lemma MaskedIs(io: Interface, plan: Plan, s: Stmt, e: Emitter, loop: Instr)
    requires IsLoop(s) && IsMaskedLoop(io, plan, s, e, loop)
    ensures EmitMasked(io, plan, s, e) ==
            Emitted(InnerEnd(io, plan, s, e).(la := e.la, em := e.em, mask := e.mask), [StoreMask(e.slots, e.mask)] + [loop])
  {
  }

  ghost predicate IsMaskedLoop(io: Interface, plan: Plan, s: Stmt, e: Emitter, loop: Instr)
    requires IsLoop(s)
  {
    && loop.MaskLoop? && loop.head == LoopHead(s.cond, e.slots, e.next) && loop.test == Reg(e.next + 2)
    && loop.body == MaskedBlock(io, plan, s, BodyEmitter(e), e.slots, e.slots + 1, e.next + 3)
  }

  /** The emitter behind a masked loop's increment. */
  function InnerEnd(io: Interface, plan: Plan, s: Stmt, e: Emitter): Emitter
    requires IsLoop(s)
  {
    EmitStep(io, plan, s, StepEmitter(Emit(io, plan, s.body, BodyEmitter(e)).e)).e
  }

  class Packetizer {
    const io: Interface
    var plan: Plan
    var next: nat
    var slots: nat
    var mask: Operand
    var live: Operand
    var la: Option<nat>
    var em: Option<nat>
    var locals: set<Name>
    var bailed: bool
    var code: seq<Instr>

    constructor (io: Interface)
      ensures State() == START && code == [] && this.io == io
    {
      this.io := io;
      plan := Plan({}, {});
      next, slots, mask, live, la, em, locals, bailed, code := 0, 0, AllOnes, AllOnes, None, None, {}, false, [];
    }

    function State(): Emitter
      reads this
    {
      Emitter(next, slots, mask, live, la, em, locals, bailed)
    }

    /** The object went from `e` with `before` emitted to where `a` says. After a bail nothing matters any more. */
    ghost predicate Reached(a: Emitted, before: seq<Instr>)
      reads this
    {
      bailed == a.e.bailed && (!bailed ==> State() == a.e && code == before + a.code)
    }

    method Append(i: Instr)
      modifies `code
      ensures code == old(code) + [i]
    {
      code := code + [i];
    }

    method Register() returns (r: nat)
      modifies `next
      ensures r == old(next) && next == r + 1
    {
      r := next;
      next := next + 1;
    }

    method EffectiveMask() returns (m: Operand)
      modifies `next, `code
      ensures
        var f := EffMask(old(State()));
        State() == f.e && code == old(code) + f.code && m == f.m
    {
      if em.None? { return mask; }
      var r := Register();
      Append(Def(r, LoadMask(em.value)));
      var q := Register();
      Append(Def(q, Both(mask, Reg(r))));
      m := Reg(q);
    }

    method ClearMask(slot: nat, m: Operand)
      modifies `next, `code
      ensures next == old(next) + 2 && code == old(code) + Clear(slot, m, old(next))
    {
      var r := Register();
      Append(Def(r, LoadMask(slot)));
      var q := Register();
      Append(Def(q, Minus(Reg(r), m)));
      Append(StoreMask(slot, Reg(q)));
    }

    /** A value to be blended, and the mask to blend it under. */
    method EmitValue(v: Expr) returns (r: nat, m: Operand)
      modifies `next, `code
      ensures
        var f := EffMask(old(State()).(next := old(next) + 1));
        r == old(next) && m == f.m && State() == f.e && code == (old(code) + [Let(r, v)]) + f.code
    {
      r := Register();
      Append(Let(r, v));
      m := EffectiveMask();
    }

    method EmitAssignment(x: Name, v: Expr)
      requires !bailed
      modifies this
      ensures plan == old(plan) && Reached(EmitAssign(io, plan, x, v, old(State())), old(code))
    {
      if !CanEmit(io, v, locals) { bailed := true; }
      else if x in io.outputs { EmitOutput(x, v); }
      else { EmitLocal(x, v); }
    }

    method EmitOutput(x: Name, v: Expr)
      requires !bailed
      modifies this
      ensures plan == old(plan) && Reached(EmitBlended(x, v, old(State())), old(code))
    {
      ghost var before, f := code, EffMask(State().(next := next + 1));
      var r, m := EmitValue(v);
      Append(Store(x, r, m));
      InThree(before, [Let(r, v)], f.code, [Store(x, r, m)]);
    }

    /** A local's slot is allocated, and nulled, by its first assignment in program text. */
    method Allocate(x: Name, uniform: bool)
      modifies `locals, `code
      ensures locals == old(locals) + {x}
      ensures code == if x in old(locals) then old(code) else old(code) + [Null(x, uniform)]
    {
      if x !in locals {
        locals := locals + {x};
        Append(Null(x, uniform));
      }
      assert locals == old(locals) + {x};
    }

    method Assignable(x: Name, v: Expr, uniform: bool) returns (r: nat)
      modifies `next, `locals, `code
      ensures r == old(next) && State() == old(State()).(next := old(next) + 1, locals := old(locals) + {x})
      ensures
        var let := old(code) + [Let(r, v)];
        code == if x in old(locals) then let else let + [Null(x, uniform)]
    {
      r := Register();
      Append(Let(r, v));
      Allocate(x, uniform);
    }

    method EmitLocal(x: Name, v: Expr)
      requires !bailed && CanEmit(io, v, locals) && x !in io.outputs
      modifies this
      ensures plan == old(plan) && Reached(EmitAssign(io, plan, x, v, old(State())), old(code))
    {
      if x !in plan.divergent { EmitUniformLocal(x, v); }
      else if x in locals { EmitMaskedLocal(x, v); }
      else { EmitNewLocal(x, v); }
    }

    method EmitUniformLocal(x: Name, v: Expr)
      requires !bailed
      modifies this
      ensures plan == old(plan) && Reached(EmitScalar(x, v, old(State())), old(code))
    {
      ghost var before, known := code, x in locals;
      var r := Assignable(x, v, true);
      Append(StoreLaneZero(x, r));
      if known { InTwo(before, [Let(r, v)], [StoreLaneZero(x, r)]); }
      else { InThree(before, [Let(r, v)], [Null(x, true)], [StoreLaneZero(x, r)]); }
    }

    method EmitMaskedLocal(x: Name, v: Expr)
      requires !bailed && x in locals
      modifies this
      ensures plan == old(plan) && Reached(EmitBlended(x, v, old(State())), old(code))
    {
      ghost var before := code;
      assert locals + {x} == locals;
      var r := Assignable(x, v, false);
      ghost var f := EffMask(State());
      StoreBlended(x, r);
      InTwo(before, [Let(r, v)], f.code + [Store(x, r, f.m)]);
    }

    method EmitNewLocal(x: Name, v: Expr)
      requires !bailed && x !in locals
      modifies this
      ensures plan == old(plan) && Reached(EmitFirst(x, v, old(State())), old(code))
    {
      ghost var before := code;
      var r := Assignable(x, v, false);
      ghost var f := EffMask(State());
      StoreBlended(x, r);
      InThree(before, [Let(r, v)], [Null(x, false)], f.code + [Store(x, r, f.m)]);
    }

    method StoreBlended(x: Name, r: nat)
      modifies `next, `code
      ensures
        var f := EffMask(old(State()));
        State() == f.e && code == old(code) + (f.code + [Store(x, r, f.m)])
    {
      ghost var before, f := code, EffMask(State());
      var m := EffectiveMask();
      Append(Store(x, r, m));
      InTwo(before, f.code, [Store(x, r, m)]);
    }

    method EmitSwizzleAssignment(x: Name, member: string, v: Expr)
      requires !bailed
      modifies this
      ensures plan == old(plan) && Reached(EmitMemberAssign(io, x, member, v, old(State())), old(code))
    {
      if x !in io.outputs || !CanEmit(io, v, locals) || !IsSwizzle(member) { bailed := true; return; }
      MemberShape(io, x, member, v, State());
      EmitInsert(x, member, v);
    }

    /** The value, and the blended insertion. */
    method EmitInsert(x: Name, member: string, v: Expr)
      requires !bailed
      modifies this
      ensures
        var e := old(State());
        var f := EffMask(e.(next := e.next + 1));
        && State() == f.e && plan == old(plan)
        && code == old(code) + ([Let(e.next, v)] + (f.code + [Insert(x, member, e.next, f.m)]))
    {
      ghost var before, f := code, EffMask(State().(next := next + 1));
      var r, m := EmitValue(v);
      Append(Insert(x, member, r, m));
      InThree(before, [Let(r, v)], f.code, [Insert(x, member, r, m)]);
    }

    method EmitDiscardStmt()
      requires !bailed
      modifies this
      ensures plan == old(plan) && Reached(EmitDiscard(old(State())), old(code))
    {
      var m := EffectiveMask();
      var r := Register();
      Append(Def(r, Minus(live, m)));
      live := Reg(r);
    }

    method EmitBreakStmt()
      requires !bailed
      modifies this
      ensures plan == old(plan) && Reached(EmitBreak(old(State())), old(code))
    {
      if la.None? || em.None? { bailed := true; return; }
      ghost var before, f := code, EffMask(State());
      var m := EffectiveMask();
      ghost var r := next;
      ClearMask(em.value, m);
      ClearMask(la.value, m);
      InThree(before, f.code, Clear(em.value, m, r), Clear(la.value, m, r + 2));
    }

    method EmitContinueStmt()
      requires !bailed
      modifies this
      ensures plan == old(plan) && Reached(EmitContinue(old(State())), old(code))
    {
      if em.None? { bailed := true; return; }
      ghost var before, f := code, EffMask(State());
      var m := EffectiveMask();
      ghost var r := next;
      ClearMask(em.value, m);
      InTwo(before, f.code, Clear(em.value, m, r));
    }

    /** Emits a statement in a block of its own. */
    method EmitAside(s: Stmt) returns (run: seq<Instr>)
      modifies this
      ensures
        var a := Emit(io, plan, s, old(State()));
        plan == old(plan) && bailed == a.e.bailed && (!bailed ==> State() == a.e && run == a.code && code == old(code))
      decreases s, 2
    {
      var outer := code;
      code := [];
      EmitStmt(s);
      run, code := code, outer;
    }

    method OpenThen(c: Expr)
      modifies this
      ensures plan == old(plan) && State() == ThenEmitter(old(State())) && code == old(code) + ThenMask(c, old(State()))
    {
      var r := Register();
      Append(Def(r, Test(c)));
      var t := Register();
      Append(Def(t, Both(mask, Reg(r))));
      mask := Reg(t);
    }

    method OpenElse(saved: Operand, c: nat)
      modifies this
      ensures plan == old(plan) && State() == ElseEmitter(old(State()))
      ensures code == old(code) + [Def(old(next), Minus(saved, Reg(c)))]
    {
      var r := Register();
      Append(Def(r, Minus(saved, Reg(c))));
      mask := Reg(r);
    }

    method EmitIf(s: Stmt)
      requires s.If? && !bailed
      modifies this
      ensures plan == old(plan) && Reached(Emit(io, plan, s, old(State())), old(code))
      decreases s, 0
    {
      if !CanEmit(io, s.cond, locals) { bailed := true; return; }
      ghost var e, before := State(), code;
      var saved, c := mask, next;
      OpenThen(s.cond);
      EmitMaskedArm(s.thn);
      ghost var a := EmitArm(io, plan, s.thn, ThenEmitter(e));
      if s.els.Some? {
        if bailed { BailIsFinal(io, plan, s.els.value, ElseEmitter(a.e)); }
        EmitElse(s.els.value, saved, c);
        ghost var b := EmitArm(io, plan, s.els.value, ElseEmitter(a.e));
        InFour(before, ThenMask(s.cond, e), a.code, ElseMask(e, a.e), b.code);
      } else {
        InTwo(before, ThenMask(s.cond, e), a.code);
      }
      mask := saved;
    }

    method EmitElse(s: Stmt, saved: Operand, c: nat)
      modifies this
      ensures
        var e := old(State());
        var b := EmitArm(io, plan, s, ElseEmitter(e));
        && plan == old(plan) && bailed == b.e.bailed
        && (!bailed ==> State() == b.e && code == (old(code) + [Def(e.next, Minus(saved, Reg(c)))]) + b.code)
      decreases s, 4
    {
      OpenElse(saved, c);
      EmitMaskedArm(s);
    }

    method EmitMaskedArm(s: Stmt)
      modifies this
      ensures plan == old(plan) && Reached(EmitArm(io, plan, s, old(State())), old(code))
      decreases s, 3
    {
      if bailed || !Guarded(s) { EmitStmt(s); return; }
      ghost var before, f := code, EffMask(State());
      var m := EffectiveMask();
      var run := EmitAside(s);
      Append(SkipUnlessAny(m, run));
      InTwo(before, f.code, [SkipUnlessAny(m, run)]);
    }

    method EmitStmt(s: Stmt)
      modifies this
      ensures plan == old(plan) && Reached(Emit(io, plan, s, old(State())), old(code))
      decreases s, 1
    {
      if bailed { return; }
      match s {
        case Block(ss) => EmitBlock(s);
        case Assign(x, v) => EmitAssignment(x, v);
        case MemberAssign(x, member, v) => EmitSwizzleAssignment(x, member, v);
        case If(_, _, _) => EmitIf(s);
        case Discard => EmitDiscardStmt();
        case For(_, _, _, _, _) => EmitFor(s);
        case While(_, _, _) => EmitLoopStmt(s);
        case Break => EmitBreakStmt();
        case Continue => EmitContinueStmt();
        case Other => bailed := true;
      }
    }

    method EmitFor(s: Stmt)
      requires s.For? && !bailed
      modifies this
      ensures plan == old(plan) && Reached(Emit(io, plan, s, old(State())), old(code))
      decreases s, 0, 3
    {
      ghost var e, before := State(), code;
      EmitStmt(s.pre);
      ghost var p := Emit(io, plan, s.pre, e);
      EmitLoopStmt(s);
      InTwo(before, p.code, EmitLoop(io, plan, s, p.e).code);
    }

    method EmitBlock(s: Stmt)
      requires s.Block? && !bailed
      modifies this
      ensures plan == old(plan) && Reached(Emit(io, plan, s, old(State())), old(code))
      decreases s, 0
    {
      var ss := s.stmts;
      for k := 0 to |ss|
        invariant plan == old(plan) && AllStill(EmitAll(io, plan, ss, old(State())), ss[k..], old(code))
      {
        assert ss[k..][0] == ss[k] && ss[k..][1..] == ss[k + 1..];
        ghost var a, before := Emit(io, plan, ss[k], State()), code;
        ghost var b := EmitAll(io, plan, ss[k + 1..], a.e);
        EmitStmt(ss[k]);
        if bailed {
          BailAllIsFinal(io, plan, ss[k + 1..], a.e);
          BailAllIsFinal(io, plan, ss[k + 1..], State());
        }
        InTwo(before, a.code, b.code);
      }
      assert ss[|ss|..] == [];
    }

    /** Emitting `rest` from here completes `whole`. */
    ghost predicate AllStill(whole: Emitted, rest: seq<Stmt>, before: seq<Instr>)
      reads this
    {
      var b := EmitAll(io, plan, rest, State());
      && whole.e.bailed == b.e.bailed
      && (!b.e.bailed ==> whole.e == b.e && before + whole.code == code + b.code)
    }

    method EmitLoopStmt(s: Stmt)
      requires IsLoop(s)
      modifies this
      ensures plan == old(plan) && Reached(EmitLoop(io, plan, s, old(State())), old(code))
      decreases s, 0, 2
    {
      if bailed { return; }
      if !CanEmit(io, s.cond, locals) { bailed := true; return; }
      if s.id in plan.loops { EmitUniformLoop(s); } else { EmitMaskedLoop(s); }
    }

    method EmitIncrement(s: Stmt)
      requires IsLoop(s)
      modifies this
      ensures plan == old(plan) && Reached(EmitStep(io, plan, s, old(State())), old(code))
      decreases s, 0, 0, 0
    {
      if Step(s).Some? { EmitStmt(Step(s).value); }
    }

    method EmitUniformLoop(s: Stmt)
      requires IsLoop(s) && !bailed
      modifies this
      ensures plan == old(plan) && Reached(EmitUniform(io, plan, s, old(State())), old(code))
      decreases s, 0, 1
    {
      var body := EmitUniformBody(s);
      Append(UniLoop(s.cond, body));
    }

    method EmitUniformBody(s: Stmt) returns (body: seq<Instr>)
      requires IsLoop(s) && !bailed
      modifies this
      ensures
        var b := Emit(io, plan, s.body, old(State()));
        var i := EmitStep(io, plan, s, b.e);
        && plan == old(plan) && bailed == i.e.bailed
        && (!bailed ==> State() == i.e && code == old(code) && body == b.code + i.code)
      decreases s, 0, 0, 1
    {
      ghost var b := Emit(io, plan, s.body, State());
      if b.e.bailed { BailStepIsFinal(io, plan, s, b.e); }
      body := EmitAside(s.body);
      if bailed { BailStepIsFinal(io, plan, s, State()); }
      var outer := code;
      code := body;
      EmitIncrement(s);
      body, code := code, outer;
    }

    method EmitMaskedLoop(s: Stmt)
      requires IsLoop(s) && !bailed
      modifies this
      ensures plan == old(plan) && Reached(EmitMasked(io, plan, s, old(State())), old(code))
      decreases s, 0, 1
    {
      ghost var e, before := State(), code;
      var enterMask, savedLa, savedEm := mask, la, em;
      var loop := EmitMaskedCode(s, e, plan);
      Append(loop);
      la, em, mask := savedLa, savedEm, enterMask;
      if !bailed {
        MaskedIs(io, plan, s, e, loop);
        InTwo(before, [StoreMask(e.slots, enterMask)], [loop]);
      }
    }

    /** The seeding store, and the loop to put after it; la_, em_ and mask_ are left as in the loop. */
    method EmitMaskedCode(s: Stmt, ghost e: Emitter, ghost p: Plan) returns (loop: Instr)
      requires IsLoop(s) && !bailed && State() == e && plan == p
      modifies this
      ensures plan == p && bailed == InnerEnd(io, p, s, e).bailed
      ensures !bailed ==> State() == InnerEnd(io, p, s, e) && code == old(code) + [StoreMask(e.slots, e.mask)]
      ensures !bailed ==> IsMaskedLoop(io, p, s, e, loop)
      decreases s, 0, 0, 3
    {
      var active, iter, head, test := EnterLoop(s.cond);
      var body := EmitLoopBody(s, active, iter, e, p);
      loop := MaskLoop(head, test, body);
    }

    /** Slots for the loop's own la and em, seeded from mask_; then the header. */
    method EnterLoop(cond: Expr) returns (active: nat, iter: nat, head: seq<Instr>, test: Operand)
      modifies this
      ensures plan == old(plan) && active == old(slots) && iter == active + 1 && em == Some(iter)
      ensures
        var e := old(State());
        && State() == e.(next := e.next + 3, slots := e.slots + 2, la := Some(active), em := Some(iter))
        && State().(next := next + 2, mask := Reg(next + 1)) == BodyEmitter(e)
      ensures code == old(code) + [StoreMask(active, old(mask))]
      ensures head == LoopHead(cond, old(State()).slots, old(State()).next) && test == Reg(old(next) + 2)
    {
      active, iter := slots, slots + 1;
      slots := slots + 2;
      Append(StoreMask(active, mask));
      head, test := EmitLoopHeader(cond, active);
      la, em := Some(active), Some(iter);
    }

    /** The header's own block. */
    method EmitLoopHeader(cond: Expr, active: nat) returns (head: seq<Instr>, test: Operand)
      modifies `next, `code
      ensures next == old(next) + 3 && code == old(code)
      ensures head == LoopHead(cond, active, old(next)) && test == Reg(old(next) + 2)
    {
      var outer := code;
      code := [];
      var a := Register();
      Append(Def(a, LoadMask(active)));
      var c := Register();
      Append(Def(c, Test(cond)));
      var n := Register();
      Append(Def(n, Both(Reg(a), Reg(c))));
      Append(StoreMask(active, Reg(n)));
      head, test, code := code, Reg(n), outer;
    }

    method OpenBody(active: nat, iter: nat)
      modifies this
      ensures code == old(code) + LoopTop(active, iter, old(next)) && plan == old(plan)
      ensures State() == old(State()).(next := old(next) + 2, mask := Reg(old(next) + 1))
    {
      var r := Register();
      Append(Def(r, LoadMask(active)));
      Append(StoreMask(iter, Reg(r)));
      var q := Register();
      Append(Def(q, LoadMask(active)));
      mask := Reg(q);
    }

    /** The increment runs with em_ closed, under the lanes still active. */
    method EmitMaskedIncrement(s: Stmt, active: nat)
      requires IsLoop(s)
      modifies this
      ensures
        var e := old(State());
        var i := EmitStep(io, plan, s, StepEmitter(e));
        && plan == old(plan) && bailed == i.e.bailed
        && (!bailed ==> State() == i.e && code == (old(code) + StepMask(s, active, e.next)) + i.code)
      decreases s, 0, 0, 1
    {
      OpenIncrement(s, active);
      EmitIncrement(s);
    }

    method OpenIncrement(s: Stmt, active: nat)
      requires IsLoop(s)
      modifies this
      ensures plan == old(plan) && State() == StepEmitter(old(State()))
      ensures code == old(code) + StepMask(s, active, old(next))
    {
      em := None;
      var i := Register();
      mask := Reg(i);
      if Step(s).Some? { Append(Def(i, LoadMask(active))); }
    }

    method EmitOpenedBody(s: Stmt, active: nat, iter: nat, ghost inner: Emitter)
      requires IsLoop(s) && !bailed
      requires inner == State().(next := next + 2, mask := Reg(next + 1))
      modifies this
      ensures
        var b := Emit(io, plan, s.body, inner);
        && plan == old(plan) && bailed == b.e.bailed
        && (!bailed ==> State() == b.e && code == (old(code) + LoopTop(active, iter, old(next))) + b.code)
      decreases s, 0, 0, 1
    {
      OpenBody(active, iter);
      EmitStmt(s.body);
    }

    /** The body's own block, in a masked loop that was entered at `e`. */
    method EmitLoopBody(s: Stmt, active: nat, iter: nat, ghost e: Emitter, ghost p: Plan) returns (body: seq<Instr>)
      requires IsLoop(s) && !bailed && la == Some(active) && em == Some(iter) && plan == p
      requires State().(next := next + 2, mask := Reg(next + 1)) == BodyEmitter(e)
      modifies this
      ensures plan == p && bailed == InnerEnd(io, p, s, e).bailed
      ensures !bailed ==> State() == InnerEnd(io, p, s, e) && code == old(code)
      ensures !bailed ==> body == MaskedBlock(io, p, s, BodyEmitter(e), e.slots, e.slots + 1, e.next + 3)
      decreases s, 0, 0, 2
    {
      var outer := code;
      code := [];
      EmitOpenedBody(s, active, iter, BodyEmitter(e));
      ghost var b := Emit(io, plan, s.body, BodyEmitter(e));
      ghost var i := EmitStep(io, plan, s, StepEmitter(b.e));
      if bailed {
        BailStepIsFinal(io, plan, s, StepEmitter(b.e));
        BailStepIsFinal(io, plan, s, StepEmitter(State()));
      }
      EmitMaskedIncrement(s, active);
      BlockIs(io, p, s, BodyEmitter(e), active, iter, old(next), b, i);
      body, code := code, outer;
    }

    /** run(): analyses the entry body, then emits it. What comes out is right for every packet width, inputs and
        operations, provided the shader keeps the rules. */
    method CompileEntry(body: Stmt) returns (ok: bool)
      requires State() == START && code == [] && DistinctLoops(body)
      modifies this
      ensures Justified(io, body, false, plan) && ok == !Compile(io, plan, body).e.bailed
      ensures WellFormed(body, true) ==> (ok <==> !Refuses(io, {}, false, Text(body)))
      ensures ok ==> State() == Compile(io, plan, body).e && code == Compile(io, plan, body).code
      ensures ok && Rules(io, body) ==> AlwaysCorrect(io, plan, body, code, live)
    {
      var analysis := new Analysis(io);
      analysis.AnalyzeUniformity(body);
      plan := analysis.Current();
      EmitStmt(body);
      ok := !bailed;
      if WellFormed(body, true) { BailsIff(io, plan, body); }
      if ok && Rules(io, body) { AcceptedIsCorrect(io, plan, body); }
    }
  }
}
