/** When the emitted code is valid SSA: live_ is a plain value, so a `discard` under a loop breaks dominance. */
module SsaValidity {
  import opened ShaderAst
  import opened Uniformity
  import opened PacketSemantics
  import opened VectorCode
  import opened PacketEmitter
  import opened EmitterCorrectness

  /** The registers in use at `e` are `defs`: all below the next fresh one, the structural mask among them. */
  ghost predicate Scope(e: Emitter, defs: set<nat>) {
    Fresh(e) && Avail(e.mask, defs) && forall r | r in defs :: r < e.next
  }

  /** `code` adds only registers that are fresh at `e` and used up at `e'`. */
  ghost predicate AddsFresh(e: Emitter, code: seq<Instr>, e': Emitter, defs: set<nat>) {
    var d := DefsAfterAll(code, defs);
    defs <= d && forall r | r in d :: r in defs || e.next <= r < e'.next
  }

  /** The code is dominated, and so is a use of live_ after it. */
  predicate Valid(code: seq<Instr>, e': Emitter, defs: set<nat>) {
    DominatedAll(code, defs) && Avail(e'.live, DefsAfterAll(code, defs))
  }

  lemma Single(i: Instr, defs: set<nat>)
    ensures DefsAfterAll([i], defs) == DefsAfter(i, defs)
    ensures DominatedAll([i], defs) <==> Dominated(i, defs)
  {
    assert [i][1..] == [];
  }

  lemma First(i: Instr, rest: seq<Instr>, defs: set<nat>)
    ensures DefsAfterAll([i] + rest, defs) == DefsAfterAll(rest, DefsAfter(i, defs))
    ensures DominatedAll([i] + rest, defs) <==> Dominated(i, defs) && DominatedAll(rest, DefsAfter(i, defs))
  {
    Single(i, defs);
    DominatedAppend([i], rest, defs);
  }

  /** Two pieces of code in sequence. */
  lemma InSequence(e: Emitter, a: seq<Instr>, e1: Emitter, b: seq<Instr>, e2: Emitter, defs: set<nat>)
    requires AddsFresh(e, a, e1, defs) && AddsFresh(e1, b, e2, DefsAfterAll(a, defs)) && e.next <= e1.next <= e2.next
    ensures AddsFresh(e, a + b, e2, defs) && DefsAfterAll(a + b, defs) == DefsAfterAll(b, DefsAfterAll(a, defs))
    ensures DominatedAll(a + b, defs) <==> DominatedAll(a, defs) && DominatedAll(b, DefsAfterAll(a, defs))
  {
    DominatedAppend(a, b, defs);
  }

  lemma EffValid(e: Emitter, defs: set<nat>) returns (d: set<nat>)
    requires Scope(e, defs)
    ensures d == DefsAfterAll(EffMask(e).code, defs) && DominatedAll(EffMask(e).code, defs)
    ensures AddsFresh(e, EffMask(e).code, EffMask(e).e, defs) && Scope(EffMask(e).e, d) && Avail(EffMask(e).m, d)
  {
    d := DefsAfterAll(EffMask(e).code, defs);
    if e.em.Some? {
      var r := e.next;
      var j := Def(r + 1, Both(e.mask, Reg(r)));
      First(Def(r, LoadMask(e.em.value)), [j], defs);
      Single(j, defs + {r});
    }
  }

  lemma ClearValid(slot: nat, m: Operand, r: nat, defs: set<nat>)
    requires Avail(m, defs)
    ensures DominatedAll(Clear(slot, m, r), defs) && DefsAfterAll(Clear(slot, m, r), defs) == defs + {r, r + 1}
  {
    var j, h := Def(r + 1, Minus(Reg(r), m)), StoreMask(slot, Reg(r + 1));
    First(Def(r, LoadMask(slot)), [j] + [h], defs);
    First(j, [h], defs + {r});
    Single(h, defs + {r} + {r + 1});
  }

  lemma AssignValid(io: Interface, plan: Plan, x: Name, v: Expr, e: Emitter, defs: set<nat>)
    requires Scope(e, defs) && CanEmit(io, v, e.locals)
    ensures
      var a := EmitAssign(io, plan, x, v, e);
      DominatedAll(a.code, defs) && AddsFresh(e, a.code, a.e, defs)
  {
    AssignCases(io, plan, x, v, e);
    if x !in io.outputs && x !in plan.divergent {
      ScalarValid(x, v, e, defs);
    } else if x in io.outputs || x in e.locals {
      BlendedValid(x, v, e, defs);
    } else {
      FirstValid(x, v, e, defs);
    }
  }

  lemma ScalarValid(x: Name, v: Expr, e: Emitter, defs: set<nat>)
    requires Scope(e, defs)
    ensures
      var a := EmitScalar(x, v, e);
      DominatedAll(a.code, defs) && AddsFresh(e, a.code, a.e, defs)
  {
    var r := e.next;
    var d, store := defs + {r}, StoreLaneZero(x, r);
    ScalarShape(x, v, e);
    Single(store, d);
    if x in e.locals {
      First(Let(r, v), [store], defs);
    } else {
      First(Let(r, v), [Null(x, true)] + [store], defs);
      First(Null(x, true), [store], d);
    }
  }

  /** The effective mask and a blended store, where `r` is defined. */
  lemma StoreValid(x: Name, r: nat, e: Emitter, d: set<nat>)
    requires Scope(e, d) && r in d
    ensures
      var f := EffMask(e);
      && DominatedAll(f.code + [Store(x, r, f.m)], d)
      && AddsFresh(e, f.code + [Store(x, r, f.m)], f.e, d)
  {
    var f := EffMask(e);
    var d2 := EffValid(e, d);
    DominatedAppend(f.code, [Store(x, r, f.m)], d);
    Single(Store(x, r, f.m), d2);
  }

  lemma BlendedValid(x: Name, v: Expr, e: Emitter, defs: set<nat>)
    requires Scope(e, defs)
    ensures
      var a := EmitBlended(x, v, e);
      DominatedAll(a.code, defs) && AddsFresh(e, a.code, a.e, defs)
  {
    var r, e2 := e.next, e.(next := e.next + 1);
    var f := EffMask(e2);
    BlendedShape(x, v, e);
    StoreValid(x, r, e2, defs + {r});
    First(Let(r, v), f.code + [Store(x, r, f.m)], defs);
  }

  lemma FirstValid(x: Name, v: Expr, e: Emitter, defs: set<nat>)
    requires Scope(e, defs)
    ensures
      var a := EmitFirst(x, v, e);
      DominatedAll(a.code, defs) && AddsFresh(e, a.code, a.e, defs)
  {
    var r, e2 := e.next, e.(next := e.next + 1, locals := e.locals + {x});
    var f := EffMask(e2);
    FirstShape(x, v, e);
    StoreValid(x, r, e2, defs + {r});
    First(Let(r, v), [Null(x, false)] + (f.code + [Store(x, r, f.m)]), defs);
    First(Null(x, false), f.code + [Store(x, r, f.m)], defs + {r});
  }

  lemma MemberAssignValid(io: Interface, x: Name, member: string, v: Expr, e: Emitter, defs: set<nat>)
    requires Scope(e, defs) && !e.bailed && !EmitMemberAssign(io, x, member, v, e).e.bailed
    ensures
      var a := EmitMemberAssign(io, x, member, v, e);
      DominatedAll(a.code, defs) && AddsFresh(e, a.code, a.e, defs)
  {
    var r := e.next;
    var f := EffMask(e.(next := r + 1));
    var last := Insert(x, member, r, f.m);
    First(Let(r, v), f.code + [last], defs);
    var d2 := EffValid(e.(next := r + 1), defs + {r});
    DominatedAppend(f.code, [last], defs + {r});
    Single(last, d2);
  }

  lemma DiscardValid(e: Emitter, defs: set<nat>)
    requires Scope(e, defs)
    ensures
      var a := EmitDiscard(e);
      && AddsFresh(e, a.code, a.e, defs) && (Valid(a.code, a.e, defs) <==> Avail(e.live, defs))
      && (a.e.live.Reg? && e.next <= a.e.live.id)
  {
    var f := EffMask(e);
    var last := Def(f.e.next, Minus(e.live, f.m));
    var d := EffValid(e, defs);
    DominatedAppend(f.code, [last], defs);
    Single(last, d);
  }

  lemma ContinueValid(e: Emitter, defs: set<nat>)
    requires Scope(e, defs) && e.em.Some?
    ensures
      var a := EmitContinue(e);
      DominatedAll(a.code, defs) && AddsFresh(e, a.code, a.e, defs)
  {
    var f := EffMask(e);
    var d := EffValid(e, defs);
    ClearValid(e.em.value, f.m, f.e.next, d);
    DominatedAppend(f.code, Clear(e.em.value, f.m, f.e.next), defs);
  }

  lemma BreakValid(e: Emitter, defs: set<nat>)
    requires Scope(e, defs) && e.la.Some? && e.em.Some?
    ensures
      var a := EmitBreak(e);
      DominatedAll(a.code, defs) && AddsFresh(e, a.code, a.e, defs)
  {
    var f := EffMask(e);
    var d := EffValid(e, defs);
    ClearTwice(e.em.value, e.la.value, f.m, f.e.next, d);
    DominatedAppend(f.code, Clear(e.em.value, f.m, f.e.next) + Clear(e.la.value, f.m, f.e.next + 2), defs);
  }

  lemma ClearTwice(em: nat, la: nat, m: Operand, r: nat, d: set<nat>)
    requires Avail(m, d)
    ensures
      var code := Clear(em, m, r) + Clear(la, m, r + 2);
      DominatedAll(code, d) && DefsAfterAll(code, d) == d + {r, r + 1} + {r + 2, r + 3}
  {
    ClearValid(em, m, r, d);
    ClearValid(la, m, r + 2, d + {r, r + 1});
    DominatedAppend(Clear(em, m, r), Clear(la, m, r + 2), d);
  }

  /** What holds of any statement: fresh registers only, no use of live_ without a discard, and a new live_ with one. */
  ghost predicate Sound(s: Stmt, e: Emitter, a: Emitted, defs: set<nat>) {
    && AddsFresh(e, a.code, a.e, defs)
    && (!ContainsDiscard(s) ==> DominatedAll(a.code, defs))
    && (ContainsDiscard(s) ==> a.e.live.Reg? && e.next <= a.e.live.id)
  }

  lemma {:induction false} EmitSound(io: Interface, plan: Plan, s: Stmt, e: Emitter, defs: set<nat>)
    requires Scope(e, defs) && !Emit(io, plan, s, e).e.bailed && WellFormed(s, true)
    ensures Sound(s, e, Emit(io, plan, s, e), defs)
    decreases s, 1, 0
  {
    EmitGrows(io, plan, s, e);
    match s
    case Block(ss) => AllSound(io, plan, ss, e, defs);
    case If(_, _, _) => IfSound(io, plan, s, e, defs);
    case For(_, _, _, _, _) => ForSound(io, plan, s, e, defs);
    case While(_, _, _) => LoopSound(io, plan, s, e, defs);
    case _ => SimpleSound(io, plan, s, e, defs);
  }

  lemma SimpleSound(io: Interface, plan: Plan, s: Stmt, e: Emitter, defs: set<nat>)
    requires Scope(e, defs) && !e.bailed && !Emit(io, plan, s, e).e.bailed && !IsLoop(s) && !s.Block? && !s.If?
    ensures Sound(s, e, Emit(io, plan, s, e), defs)
  {
    match s
    case Assign(x, v) => AssignValid(io, plan, x, v, e, defs);
    case MemberAssign(x, member, v) => MemberAssignValid(io, x, member, v, e, defs);
    case Discard => DiscardValid(e, defs);
    case Break => BreakValid(e, defs);
    case Continue => ContinueValid(e, defs);
    case _ =>
  }

  /** The pieces of an emitted `for`. */
  lemma ForShape(io: Interface, plan: Plan, s: Stmt, e: Emitter)
    requires s.For? && Fresh(e) && !e.bailed && !Emit(io, plan, s, e).e.bailed && WellFormed(s, true)
    ensures
      var p := Emit(io, plan, s.pre, e);
      var l := EmitLoop(io, plan, s, p.e);
      && Emit(io, plan, s, e) == Emitted(l.e, p.code + l.code)
      && !p.e.bailed && !l.e.bailed && Fresh(p.e) && e.next <= p.e.next <= l.e.next
      && p.e.mask == e.mask && p.e.live == e.live && (e.live.Reg? ==> e.live.id < e.next)
  {
    var p := Emit(io, plan, s.pre, e);
    EmitGrows(io, plan, s.pre, e);
    EmitLoopGrows(io, plan, s, p.e);
  }

  lemma {:induction false} ForSound(io: Interface, plan: Plan, s: Stmt, e: Emitter, defs: set<nat>)
    requires s.For? && Scope(e, defs) && !e.bailed && !Emit(io, plan, s, e).e.bailed && WellFormed(s, true)
    ensures Sound(s, e, Emit(io, plan, s, e), defs)
    decreases s, 0, 3
  {
    ForShape(io, plan, s, e);
    var p := Emit(io, plan, s.pre, e);
    var l := EmitLoop(io, plan, s, p.e);
    EmitSound(io, plan, s.pre, e, defs);
    LoopSound(io, plan, s, p.e, DefsAfterAll(p.code, defs));
    InSequence(e, p.code, p.e, l.code, l.e, defs);
  }

  lemma {:induction false} AllSound(io: Interface, plan: Plan, ss: seq<Stmt>, e: Emitter, defs: set<nat>)
    requires Scope(e, defs) && !e.bailed && !EmitAll(io, plan, ss, e).e.bailed && WellFormed(Block(ss), true)
    ensures Sound(Block(ss), e, EmitAll(io, plan, ss, e), defs)
    decreases ss, 0, 0
  {
    if ss != [] {
      var a := Emit(io, plan, ss[0], e);
      var b := EmitAll(io, plan, ss[1..], a.e);
      var d := DefsAfterAll(a.code, defs);
      assert forall i | 0 <= i < |ss[1..]| :: ss[1..][i] == ss[i + 1];
      if a.e.bailed { BailAllIsFinal(io, plan, ss[1..], a.e); }
      EmitGrows(io, plan, ss[0], e);
      EmitSound(io, plan, ss[0], e, defs);
      EmitAllGrows(io, plan, ss[1..], a.e);
      AllSound(io, plan, ss[1..], a.e, d);
      DominatedAppend(a.code, b.code, defs);
      assert ContainsDiscard(Block(ss)) <==> ContainsDiscard(ss[0]) || ContainsDiscard(Block(ss[1..])) by { DiscardSplit(ss); }
    }
  }

  lemma DiscardSplit(ss: seq<Stmt>)
    requires ss != []
    ensures ContainsDiscard(Block(ss)) <==> ContainsDiscard(ss[0]) || ContainsDiscard(Block(ss[1..]))
    ensures DiscardInLoop(Block(ss)) <==> DiscardInLoop(ss[0]) || DiscardInLoop(Block(ss[1..]))
  {
    assert forall i | 0 <= i < |ss[1..]| :: ss[1..][i] == ss[i + 1];
    assert forall i | 0 < i < |ss| :: ss[i] == ss[1..][i - 1];
  }

  lemma {:induction false} ArmSound(io: Interface, plan: Plan, s: Stmt, e: Emitter, defs: set<nat>)
    requires Scope(e, defs) && !EmitArm(io, plan, s, e).e.bailed && WellFormed(s, true)
    ensures Sound(s, e, EmitArm(io, plan, s, e), defs)
    decreases s, 1, 1
  {
    EmitArmGrows(io, plan, s, e);
    if !Guarded(s) {
      EmitSound(io, plan, s, e, defs);
    } else {
      var f := EffMask(e);
      var a := Emit(io, plan, s, f.e);
      var d := EffValid(e, defs);
      EmitGrows(io, plan, s, f.e);
      EmitSound(io, plan, s, f.e, d);
      DominatedAppend(f.code, [SkipUnlessAny(f.m, a.code)], defs);
      Single(SkipUnlessAny(f.m, a.code), d);
    }
  }

  lemma ThenScope(e: Emitter, defs: set<nat>)
    requires Scope(e, defs)
    ensures Scope(ThenEmitter(e), defs + {e.next, e.next + 1})
  {
  }

  lemma ThenMaskValid(cond: Expr, e: Emitter, defs: set<nat>)
    requires Scope(e, defs)
    ensures DominatedAll(ThenMask(cond, e), defs)
    ensures DefsAfterAll(ThenMask(cond, e), defs) == defs + {e.next, e.next + 1}
    ensures Scope(ThenEmitter(e), defs + {e.next, e.next + 1})
  {
    ThenScope(e, defs);
    var j := Def(e.next + 1, Both(e.mask, Reg(e.next)));
    First(Def(e.next, Test(cond)), [j], defs);
    Single(j, defs + {e.next});
  }

  /** The pieces of an emitted `if`. */
  lemma IfShape(io: Interface, plan: Plan, s: Stmt, e: Emitter)
    requires s.If? && Fresh(e) && !e.bailed && !Emit(io, plan, s, e).e.bailed && WellFormed(s, true)
    ensures
      var a, head := EmitArm(io, plan, s.thn, ThenEmitter(e)), ThenMask(s.cond, e);
      && !a.e.bailed && Fresh(a.e) && e.next + 2 <= a.e.next
      && (s.els.None? ==> Emit(io, plan, s, e) == Emitted(a.e.(mask := e.mask), head + a.code))
      && (s.els.Some? ==>
            var b := EmitArm(io, plan, s.els.value, ElseEmitter(a.e));
            && !b.e.bailed && a.e.next + 1 <= b.e.next
            && Emit(io, plan, s, e) == Emitted(b.e.(mask := e.mask), head + (a.code + (ElseMask(e, a.e) + b.code))))
  {
    var a := EmitArm(io, plan, s.thn, ThenEmitter(e));
    if a.e.bailed && s.els.Some? { BailIsFinal(io, plan, s.els.value, ElseEmitter(a.e)); }
    EmitArmGrows(io, plan, s.thn, ThenEmitter(e));
    if s.els.Some? { EmitArmGrows(io, plan, s.els.value, ElseEmitter(a.e)); }
  }

  lemma {:induction false} IfSound(io: Interface, plan: Plan, s: Stmt, e: Emitter, defs: set<nat>)
    requires s.If? && Scope(e, defs) && !e.bailed && !Emit(io, plan, s, e).e.bailed && WellFormed(s, true)
    ensures Sound(s, e, Emit(io, plan, s, e), defs)
    decreases s, 0, 2
  {
    if s.els.None? { LoneArmSound(io, plan, s, e, defs); } else { ArmsSound(io, plan, s, e, defs); }
  }

  lemma {:induction false} LoneArmSound(io: Interface, plan: Plan, s: Stmt, e: Emitter, defs: set<nat>)
    requires s.If? && s.els.None? && Scope(e, defs) && !e.bailed && !Emit(io, plan, s, e).e.bailed && WellFormed(s, true)
    ensures Sound(s, e, Emit(io, plan, s, e), defs)
    decreases s, 0, 1
  {
    IfShape(io, plan, s, e);
    ThenMaskValid(s.cond, e, defs);
    ArmSound(io, plan, s.thn, ThenEmitter(e), defs + {e.next, e.next + 1});
    NoElseSound(s, e, ThenMask(s.cond, e), EmitArm(io, plan, s.thn, ThenEmitter(e)), Emit(io, plan, s, e), defs);
  }

  lemma {:induction false} ArmsSound(io: Interface, plan: Plan, s: Stmt, e: Emitter, defs: set<nat>)
    requires s.If? && s.els.Some? && Scope(e, defs) && !e.bailed && !Emit(io, plan, s, e).e.bailed && WellFormed(s, true)
    ensures Sound(s, e, Emit(io, plan, s, e), defs)
    decreases s, 0, 1
  {
    IfShape(io, plan, s, e);
    var a := EmitArm(io, plan, s.thn, ThenEmitter(e));
    ThenMaskValid(s.cond, e, defs);
    ArmSound(io, plan, s.thn, ThenEmitter(e), defs + {e.next, e.next + 1});
    ElseSound(io, plan, s, e, a, defs);
    BothSound(s, e, a, EmitArm(io, plan, s.els.value, ElseEmitter(a.e)), Emit(io, plan, s, e), defs);
  }

  /** An `if` without an else, from its pieces. */
  lemma NoElseSound(s: Stmt, e: Emitter, head: seq<Instr>, a: Emitted, z: Emitted, defs: set<nat>)
    requires s.If? && s.els.None? && z == Emitted(a.e.(mask := e.mask), head + a.code) && e.next + 2 <= a.e.next
    requires DominatedAll(head, defs) && DefsAfterAll(head, defs) == defs + {e.next, e.next + 1}
    requires Sound(s.thn, ThenEmitter(e), a, defs + {e.next, e.next + 1})
    ensures Sound(s, e, z, defs)
  {
    DominatedAppend(head, a.code, defs);
  }

  /** An `if` with an else, from its pieces. */
  lemma BothSound(s: Stmt, e: Emitter, a: Emitted, b: Emitted, z: Emitted, defs: set<nat>)
    requires s.If? && s.els.Some?
    requires z == Emitted(b.e.(mask := e.mask), ThenMask(s.cond, e) + (a.code + (ElseMask(e, a.e) + b.code)))
    requires ContainsDiscard(s.thn) ==> a.e.live.Reg? && e.next <= a.e.live.id
    requires IfCode(s, e, a, b, z.code, defs)
    ensures Sound(s, e, z, defs)
  {
  }

  /** What the code of an `if` with an else owes. */
  ghost predicate IfCode(s: Stmt, e: Emitter, a: Emitted, b: Emitted, code: seq<Instr>, defs: set<nat>)
    requires s.If? && s.els.Some?
  {
    && AddsFresh(e, code, b.e, defs)
    && (!ContainsDiscard(s) ==> DominatedAll(code, defs))
    && (ContainsDiscard(s.els.value) ==> b.e.live.Reg? && e.next <= b.e.live.id)
    && (!ContainsDiscard(s.els.value) ==> b.e.live == a.e.live)
  }

  lemma {:induction false} ElseSound(io: Interface, plan: Plan, s: Stmt, e: Emitter, a: Emitted, defs: set<nat>)
    requires s.If? && s.els.Some? && Scope(e, defs) && WellFormed(s, true)
    requires a == EmitArm(io, plan, s.thn, ThenEmitter(e)) && Fresh(a.e) && e.next + 2 <= a.e.next
    requires !EmitArm(io, plan, s.els.value, ElseEmitter(a.e)).e.bailed
    requires DominatedAll(ThenMask(s.cond, e), defs)
    requires DefsAfterAll(ThenMask(s.cond, e), defs) == defs + {e.next, e.next + 1}
    requires Sound(s.thn, ThenEmitter(e), a, defs + {e.next, e.next + 1})
    ensures
      var b := EmitArm(io, plan, s.els.value, ElseEmitter(a.e));
      IfCode(s, e, a, b, ThenMask(s.cond, e) + (a.code + (ElseMask(e, a.e) + b.code)), defs)
    decreases s, 0, 0
  {
    var b := EmitArm(io, plan, s.els.value, ElseEmitter(a.e));
    var d2 := DefsAfterAll(a.code, defs + {e.next, e.next + 1});
    EmitArmGrows(io, plan, s.els.value, ElseEmitter(a.e));
    ArmSound(io, plan, s.els.value, ElseEmitter(a.e), d2 + {a.e.next});
    ElseJoined(s, e, ThenMask(s.cond, e), a, b, defs);
  }

  lemma ElseJoined(s: Stmt, e: Emitter, head: seq<Instr>, a: Emitted, b: Emitted, defs: set<nat>)
    requires s.If? && s.els.Some? && e.next + 2 <= a.e.next && a.e.next + 1 <= b.e.next
    requires DominatedAll(head, defs) && DefsAfterAll(head, defs) == defs + {e.next, e.next + 1}
    requires Sound(s.thn, ThenEmitter(e), a, defs + {e.next, e.next + 1}) && Avail(e.mask, defs)
    requires !ContainsDiscard(s.els.value) ==> b.e.live == a.e.live
    requires
      Sound(s.els.value, ElseEmitter(a.e), b, DefsAfterAll(a.code, defs + {e.next, e.next + 1}) + {a.e.next})
    ensures IfCode(s, e, a, b, head + (a.code + (ElseMask(e, a.e) + b.code)), defs)
  {
    var mid := ElseMask(e, a.e);
    var d := defs + {e.next, e.next + 1};
    DominatedAppend(head, a.code + (mid + b.code), defs);
    DominatedAppend(a.code, mid + b.code, d);
    First(Def(a.e.next, Minus(e.mask, Reg(e.next))), b.code, DefsAfterAll(a.code, d));
  }

  // ---- loops ----

  /** A loop loses what its body defines: a discard there leaves live_ undefined after the loop. */
  ghost predicate LoopLoses(s: Stmt, e: Emitter, a: Emitted, defs: set<nat>)
    requires IsLoop(s)
  {
    && AddsFresh(e, a.code, a.e, defs)
    && (!ContainsDiscard(s.body) ==> DominatedAll(a.code, defs) && a.e.live == e.live)
    && (ContainsDiscard(s.body) ==>
          a.e.live.Reg? && e.next <= a.e.live.id && a.e.live.id !in DefsAfterAll(a.code, defs))
  }

  lemma {:induction false} LoopSound(io: Interface, plan: Plan, s: Stmt, e: Emitter, defs: set<nat>)
    requires IsLoop(s) && Scope(e, defs) && !e.bailed && !EmitLoop(io, plan, s, e).e.bailed && WellFormed(s, true)
    ensures LoopLoses(s, e, EmitLoop(io, plan, s, e), defs)
    decreases s, 0, 2
  {
    if s.id in plan.loops { UniformSound(io, plan, s, e, defs); } else { MaskedSound(io, plan, s, e, defs); }
  }

  lemma {:induction false} UniformSound(io: Interface, plan: Plan, s: Stmt, e: Emitter, defs: set<nat>)
    requires IsLoop(s) && Scope(e, defs) && !e.bailed && !EmitUniform(io, plan, s, e).e.bailed && WellFormed(s, true)
    ensures LoopLoses(s, e, EmitUniform(io, plan, s, e), defs)
    decreases s, 0, 1
  {
    var b := Emit(io, plan, s.body, e);
    var i := EmitStep(io, plan, s, b.e);
    EmitBodyGrows(io, plan, s, e);
    if b.e.bailed { BailStepIsFinal(io, plan, s, b.e); }
    EmitGrows(io, plan, s.body, e);
    EmitSound(io, plan, s.body, e, defs);
    StepSound(io, plan, s, b.e, DefsAfterAll(b.code, defs));
    DominatedAppend(b.code, i.code, defs);
    Single(UniLoop(s.cond, b.code + i.code), defs);
  }

  lemma {:induction false} StepSound(io: Interface, plan: Plan, s: Stmt, e: Emitter, defs: set<nat>)
    requires IsLoop(s) && Scope(e, defs) && !e.bailed && !EmitStep(io, plan, s, e).e.bailed && WellFormed(s, true)
    ensures
      var i := EmitStep(io, plan, s, e);
      DominatedAll(i.code, defs) && AddsFresh(e, i.code, i.e, defs) && i.e.live == e.live && e.next <= i.e.next
    decreases s, 0, 0, 0
  {
    if Step(s).Some? {
      EmitGrows(io, plan, Step(s).value, e);
      EmitSound(io, plan, Step(s).value, e, defs);
    }
  }

  lemma HeadValid(cond: Expr, la: nat, a: nat, defs: set<nat>)
    ensures DominatedAll(LoopHead(cond, la, a), defs) && DefsAfterAll(LoopHead(cond, la, a), defs) == defs + {a, a + 1, a + 2}
  {
    var i2, i3, i4 := Def(a + 1, Test(cond)), Def(a + 2, Both(Reg(a), Reg(a + 1))), StoreMask(la, Reg(a + 2));
    First(Def(a, LoadMask(la)), [i2] + ([i3] + [i4]), defs);
    First(i2, [i3] + [i4], defs + {a});
    First(i3, [i4], defs + {a} + {a + 1});
    Single(i4, defs + {a} + {a + 1} + {a + 2});
  }

  lemma TopValid(la: nat, em: nat, a: nat, defs: set<nat>)
    ensures DominatedAll(LoopTop(la, em, a), defs) && DefsAfterAll(LoopTop(la, em, a), defs) == defs + {a, a + 1}
  {
    var i2, i3 := StoreMask(em, Reg(a)), Def(a + 1, LoadMask(la));
    First(Def(a, LoadMask(la)), [i2] + [i3], defs);
    First(i2, [i3], defs + {a});
    Single(i3, defs + {a});
  }

  /** The registers available in the body of a masked loop: those of its header and of LoopTop. */
  function BodyDefs(e: Emitter, defs: set<nat>): set<nat> {
    defs + {e.next, e.next + 1, e.next + 2} + {e.next + 3, e.next + 4}
  }

  /** A masked loop put together from its head, its top and the rest of its body. */
  function MaskedCode(cond: Expr, e: Emitter, rest: seq<Instr>): seq<Instr> {
    [StoreMask(e.slots, e.mask)] +
    [MaskLoop(LoopHead(cond, e.slots, e.next), Reg(e.next + 2), LoopTop(e.slots, e.slots + 1, e.next + 3) + rest)]
  }

  lemma MaskLoopValid(cond: Expr, e: Emitter, rest: seq<Instr>, defs: set<nat>)
    requires Avail(e.mask, defs)
    ensures DefsAfterAll(MaskedCode(cond, e, rest), defs) == defs + {e.next, e.next + 1, e.next + 2}
    ensures DominatedAll(rest, BodyDefs(e, defs)) ==> DominatedAll(MaskedCode(cond, e, rest), defs)
  {
    var n, head, top := e.next, LoopHead(cond, e.slots, e.next), LoopTop(e.slots, e.slots + 1, e.next + 3);
    HeadValid(cond, e.slots, n, defs);
    TopValid(e.slots, e.slots + 1, n + 3, defs + {n, n + 1, n + 2});
    OneLoopValid(e.slots, e.mask, head, Reg(n + 2), top, rest, defs, defs + {n, n + 1, n + 2}, BodyDefs(e, defs));
  }

  /** A seeding store and a loop, from what its parts define. */
  lemma OneLoopValid(slot: nat, mask: Operand, head: seq<Instr>, go: Operand, top: seq<Instr>, rest: seq<Instr>,
                     defs: set<nat>, d1: set<nat>, d2: set<nat>)
    requires Avail(mask, defs) && DominatedAll(head, defs) && DefsAfterAll(head, defs) == d1 && Avail(go, d1)
    requires DominatedAll(top, d1) && DefsAfterAll(top, d1) == d2
    ensures
      var code := [StoreMask(slot, mask)] + [MaskLoop(head, go, top + rest)];
      DefsAfterAll(code, defs) == d1 && (DominatedAll(rest, d2) ==> DominatedAll(code, defs))
  {
    var loop := MaskLoop(head, go, top + rest);
    DominatedAppend(top, rest, d1);
    First(StoreMask(slot, mask), [loop], defs);
    Single(loop, defs);
  }

  /** The pieces of an emitted masked loop. */
  lemma MaskedShape(io: Interface, plan: Plan, s: Stmt, e: Emitter)
    requires IsLoop(s) && Fresh(e) && !e.bailed && !EmitMasked(io, plan, s, e).e.bailed && WellFormed(s, true)
    ensures
      var b := Emit(io, plan, s.body, BodyEmitter(e));
      var i := EmitStep(io, plan, s, StepEmitter(b.e));
      var a := EmitMasked(io, plan, s, e);
      && !b.e.bailed && !i.e.bailed && Fresh(b.e) && e.next + 5 <= b.e.next < i.e.next
      && (!ContainsDiscard(s.body) ==> b.e.live == e.live)
      && a.code == MaskedCode(s.cond, e, b.code + (StepMask(s, e.slots, b.e.next) + i.code))
      && a.e.next == i.e.next && a.e.live == i.e.live == b.e.live
  {
    var b := Emit(io, plan, s.body, BodyEmitter(e));
    if b.e.bailed { BailStepIsFinal(io, plan, s, StepEmitter(b.e)); }
    EmitGrows(io, plan, s.body, BodyEmitter(e));
    EmitStepGrows(io, plan, s, StepEmitter(b.e));
  }

  /** The increment, preceded by the mask it runs under. */
  lemma StepMaskValid(s: Stmt, slot: nat, r: nat, code: seq<Instr>, defs: set<nat>)
    requires IsLoop(s) && DominatedAll(code, if Step(s).Some? then defs + {r} else defs)
    ensures DominatedAll(StepMask(s, slot, r) + code, defs)
  {
    if Step(s).Some? {
      First(Def(r, LoadMask(slot)), code, defs);
    } else {
      assert [] + code == code;
    }
  }

  lemma {:induction false} MaskedSound(io: Interface, plan: Plan, s: Stmt, e: Emitter, defs: set<nat>)
    requires IsLoop(s) && Scope(e, defs) && !e.bailed && !EmitMasked(io, plan, s, e).e.bailed && WellFormed(s, true)
    ensures LoopLoses(s, e, EmitMasked(io, plan, s, e), defs)
    decreases s, 0, 1
  {
    MaskedShape(io, plan, s, e);
    var b := Emit(io, plan, s.body, BodyEmitter(e));
    var i := EmitStep(io, plan, s, StepEmitter(b.e));
    var d := BodyDefs(e, defs);
    BodyScope(e, defs);
    EmitSound(io, plan, s.body, BodyEmitter(e), d);
    MaskedStepSound(io, plan, s, b.e, DefsAfterAll(b.code, d));
    MaskedJoined(s, e, b, i, EmitMasked(io, plan, s, e), defs);
  }

  lemma BodyScope(e: Emitter, defs: set<nat>)
    requires Scope(e, defs)
    ensures Scope(BodyEmitter(e), BodyDefs(e, defs))
  {
  }

  lemma {:induction false} MaskedStepSound(io: Interface, plan: Plan, s: Stmt, e: Emitter, defs: set<nat>)
    requires IsLoop(s) && Fresh(e) && (forall r | r in defs :: r < e.next)
    requires !e.bailed && !EmitStep(io, plan, s, StepEmitter(e)).e.bailed && WellFormed(s, true)
    ensures DominatedAll(EmitStep(io, plan, s, StepEmitter(e)).code, if Step(s).Some? then defs + {e.next} else defs)
    decreases s, 0, 0, 1
  {
    if Step(s).Some? { StepSound(io, plan, s, StepEmitter(e), defs + {e.next}); }
  }

  /** A masked loop, from its pieces. */
  lemma MaskedJoined(s: Stmt, e: Emitter, b: Emitted, i: Emitted, z: Emitted, defs: set<nat>)
    requires IsLoop(s) && Scope(e, defs) && e.next + 5 <= b.e.next < i.e.next
    requires z.code == MaskedCode(s.cond, e, b.code + (StepMask(s, e.slots, b.e.next) + i.code))
    requires z.e.next == i.e.next && z.e.live == i.e.live == b.e.live && (!ContainsDiscard(s.body) ==> b.e.live == e.live)
    requires Sound(s.body, BodyEmitter(e), b, BodyDefs(e, defs))
    requires
      var d2 := DefsAfterAll(b.code, BodyDefs(e, defs));
      DominatedAll(i.code, if Step(s).Some? then d2 + {b.e.next} else d2)
    ensures LoopLoses(s, e, z, defs)
  {
    var tail := StepMask(s, e.slots, b.e.next) + i.code;
    var d := BodyDefs(e, defs);
    StepMaskValid(s, e.slots, b.e.next, i.code, DefsAfterAll(b.code, d));
    DominatedAppend(b.code, tail, d);
    MaskLoopValid(s.cond, e, b.code + tail, defs);
  }

  // ---- the exact condition ----

  /** From a point where live_ is available, the emitted code and a later use of live_ are valid exactly when no
      `discard` lies under a loop; once live_ has been lost nothing that follows makes the code valid again. */
  lemma {:induction false} ValidIff(io: Interface, plan: Plan, s: Stmt, e: Emitter, defs: set<nat>)
    requires Scope(e, defs) && !Emit(io, plan, s, e).e.bailed && WellFormed(s, true)
    ensures
      var a := Emit(io, plan, s, e);
      Valid(a.code, a.e, defs) <==> Avail(e.live, defs) && !DiscardInLoop(s)
    decreases s, 1, 0
  {
    EmitGrows(io, plan, s, e);
    match s
    case Block(ss) => ValidAllIff(io, plan, ss, e, defs);
    case If(_, _, _) => ValidIfIff(io, plan, s, e, defs);
    case For(_, pre, _, _, _) =>
      var p := Emit(io, plan, pre, e);
      var l := EmitLoop(io, plan, s, p.e);
      EmitGrows(io, plan, pre, e);
      EmitSound(io, plan, pre, e, defs);
      LoopSound(io, plan, s, p.e, DefsAfterAll(p.code, defs));
      DominatedAppend(p.code, l.code, defs);
    case While(_, _, _) => LoopSound(io, plan, s, e, defs);
    case Discard => DiscardValid(e, defs);
    case _ => EmitSound(io, plan, s, e, defs);
  }

  lemma {:induction false} ValidAllIff(io: Interface, plan: Plan, ss: seq<Stmt>, e: Emitter, defs: set<nat>)
    requires Scope(e, defs) && !e.bailed && !EmitAll(io, plan, ss, e).e.bailed && WellFormed(Block(ss), true)
    ensures
      var a := EmitAll(io, plan, ss, e);
      Valid(a.code, a.e, defs) <==> Avail(e.live, defs) && !DiscardInLoop(Block(ss))
    decreases ss, 0, 0
  {
    if ss != [] {
      var a := Emit(io, plan, ss[0], e);
      var b := EmitAll(io, plan, ss[1..], a.e);
      assert forall i | 0 <= i < |ss[1..]| :: ss[1..][i] == ss[i + 1];
      if a.e.bailed { BailAllIsFinal(io, plan, ss[1..], a.e); }
      EmitGrows(io, plan, ss[0], e);
      EmitSound(io, plan, ss[0], e, defs);
      ValidIff(io, plan, ss[0], e, defs);
      ValidAllIff(io, plan, ss[1..], a.e, DefsAfterAll(a.code, defs));
      DominatedAppend(a.code, b.code, defs);
      DiscardSplit(ss);
    }
  }

  lemma {:induction false} ValidArmIff(io: Interface, plan: Plan, s: Stmt, e: Emitter, defs: set<nat>)
    requires Scope(e, defs) && !EmitArm(io, plan, s, e).e.bailed && WellFormed(s, true)
    ensures
      var a := EmitArm(io, plan, s, e);
      Valid(a.code, a.e, defs) <==> Avail(e.live, defs) && !DiscardInLoop(s)
    decreases s, 1, 1
  {
    if e.bailed || !Guarded(s) {
      ValidIff(io, plan, s, e, defs);
    } else {
      NoDiscardInside(s);
      EmitArmGrows(io, plan, s, e);
      ArmSound(io, plan, s, e, defs);
    }
  }

  lemma {:induction false} ValidIfIff(io: Interface, plan: Plan, s: Stmt, e: Emitter, defs: set<nat>)
    requires s.If? && Scope(e, defs) && !e.bailed && !Emit(io, plan, s, e).e.bailed && WellFormed(s, true)
    ensures
      var a := Emit(io, plan, s, e);
      Valid(a.code, a.e, defs) <==> Avail(e.live, defs) && !DiscardInLoop(s)
    decreases s, 0, 0
  {
    IfShape(io, plan, s, e);
    var te := ThenEmitter(e);
    var a, head, d := EmitArm(io, plan, s.thn, te), ThenMask(s.cond, e), defs + {e.next, e.next + 1};
    ThenMaskValid(s.cond, e, defs);
    ArmSound(io, plan, s.thn, te, d);
    ValidArmIff(io, plan, s.thn, te, d);
    LiveStays(e, d, defs);
    if s.els.None? {
      HeadKeepsValid(head, a, defs, d);
    } else {
      var ee, d2 := ElseEmitter(a.e), DefsAfterAll(a.code, d);
      var b := EmitArm(io, plan, s.els.value, ee);
      ValidArmIff(io, plan, s.els.value, ee, d2 + {a.e.next});
      LiveAfter(a.e, d2);
      BothKeepValid(e, head, a, b, defs, d);
    }
  }

  /** The masks of the arms do not define live_. */
  lemma LiveStays(e: Emitter, d: set<nat>, defs: set<nat>)
    requires Fresh(e) && d == defs + {e.next, e.next + 1}
    ensures Avail(e.live, d) <==> Avail(e.live, defs)
  {
  }

  lemma LiveAfter(e: Emitter, d: set<nat>)
    requires Fresh(e)
    ensures Avail(e.live, d + {e.next}) <==> Avail(e.live, d)
  {
  }

  lemma HeadKeepsValid(head: seq<Instr>, a: Emitted, defs: set<nat>, d: set<nat>)
    requires DominatedAll(head, defs) && DefsAfterAll(head, defs) == d
    ensures Valid(head + a.code, a.e, defs) <==> Valid(a.code, a.e, d)
  {
    DominatedAppend(head, a.code, defs);
  }

  /** Both arms and the mask between them are valid exactly when the second arm is, with the first one dominated. */
  lemma BothKeepValid(e: Emitter, head: seq<Instr>, a: Emitted, b: Emitted, defs: set<nat>, d: set<nat>)
    requires DominatedAll(head, defs) && DefsAfterAll(head, defs) == d && d == defs + {e.next, e.next + 1}
    requires Avail(e.mask, defs) && AddsFresh(ThenEmitter(e), a.code, a.e, d)
    ensures
      var d2 := DefsAfterAll(a.code, d);
      Valid(head + (a.code + (ElseMask(e, a.e) + b.code)), b.e, defs)
      <==> DominatedAll(a.code, d) && Valid(b.code, b.e, d2 + {a.e.next})
  {
    var mid := ElseMask(e, a.e);
    DominatedAppend(head, a.code + (mid + b.code), defs);
    DominatedAppend(a.code, mid + b.code, d);
    First(Def(a.e.next, Minus(e.mask, Reg(e.next))), b.code, DefsAfterAll(a.code, d));
  }
}
