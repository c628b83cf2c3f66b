/** The packetizer: vector code from structured statements. */
module PacketEmitter {
  import opened ShaderAst
  import opened Uniformity
  import opened PacketSemantics
  import opened VectorCode

  /** The emitter's fields between two statements: fresh names, mask_, live_, la_, em_, localVars_ and bailed_. */
  datatype Emitter = Emitter(next: nat, slots: nat, mask: Operand, live: Operand,
                             la: Option<nat>, em: Option<nat>, locals: set<Name>, bailed: bool)

  datatype Emitted = Emitted(e: Emitter, code: seq<Instr>)

  /** The effective mask as an operand, with the code that computes it. */
  datatype Effective = Effective(e: Emitter, code: seq<Instr>, m: Operand)

  const BINARIES: set<string> := {"+", "-", "*", "/", "<", "<=", ">", ">=", "==", "!="}
  const CONSTRUCTORS: set<string> := {"float", "vec2", "vec3", "vec4"}

  /** Component letters, in the three alphabets. */
  predicate IsSwizzle(member: string) {
    member != [] && forall i | 0 <= i < |member| :: member[i] in "xyzwrgbastpq"
  }

  /** emitUnary, emitBinary and emitMember; a member access is written with its dot. */
  predicate KnownOperator(op: string, n: nat) {
    if op == "neg" then n == 1
    else if op in BINARIES then n == 2
    else op != [] && op[0] == '.' && IsSwizzle(op[1..]) && n == 1
  }

  /** emitTexture, emitCtor, and the cascade of emitBuiltin. */
  predicate KnownCall(fn: string, n: nat) {
    if fn == "texture" then n >= 2
    else if fn in CONSTRUCTORS then n > 0
    else if n == 1 then fn in INTRINSICS || fn == "fract" || fn == "tan" || fn == "length" || fn == "normalize"
    else if n == 2 then fn == "min" || fn == "max" || fn == "pow" || fn == "mod" || fn == "dot" || fn == "step"
    else n == 3 && (fn == "clamp" || fn == "mix" || fn == "smoothstep")
  }

  /** The expressions emit() handles; on any other it bails. A local is known once it was assigned textually. */
  predicate CanEmit(io: Interface, e: Expr, locals: set<Name>) {
    match e
    case Const(_) => true
    case Var(x) => x in locals || x in io.inputs || x in io.outputs || x in io.globals
    case Apply(op, args) =>
      KnownOperator(op, |args|) && forall i | 0 <= i < |args| :: CanEmit(io, args[i], locals)
    case Call(fn, args) => KnownCall(fn, |args|) && forall i | 0 <= i < |args| :: CanEmit(io, args[i], locals)
    case Ternary(c, t, f) => CanEmit(io, c, locals) && CanEmit(io, t, locals) && CanEmit(io, f, locals)
    case Cast(_, a) => CanEmit(io, a, locals)
    case Unsupported => false
  }

  function Bail(e: Emitter): Emitted {
    Emitted(e.(bailed := true), [])
  }

  function EffMask(e: Emitter): Effective {
    if e.em.None? then Effective(e, [], e.mask)
    else
      var r := e.next;
      Effective(e.(next := r + 2), [Def(r, LoadMask(e.em.value))] + [Def(r + 1, Both(e.mask, Reg(r)))], Reg(r + 1))
  }

  /** Removes the lanes of `m` from a loop mask. */
  function Clear(slot: nat, m: Operand, r: nat): seq<Instr> {
    [Def(r, LoadMask(slot))] + ([Def(r + 1, Minus(Reg(r), m))] + [StoreMask(slot, Reg(r + 1))])
  }

  /** A value, then a blended store to a slot that exists. */
  function EmitBlended(x: Name, v: Expr, e: Emitter): Emitted {
    var f := EffMask(e.(next := e.next + 1));
    Emitted(f.e, [Let(e.next, v)] + (f.code + [Store(x, e.next, f.m)]))
  }

  /** The first assignment of a masked local: its slot is nulled before the blended store. */
  function EmitFirst(x: Name, v: Expr, e: Emitter): Emitted {
    var f := EffMask(e.(next := e.next + 1, locals := e.locals + {x}));
    Emitted(f.e, [Let(e.next, v)] + ([Null(x, false)] + (f.code + [Store(x, e.next, f.m)])))
  }

  /** An assignment of a uniform local keeps lane 0. */
  function EmitScalar(x: Name, v: Expr, e: Emitter): Emitted {
    var store := StoreLaneZero(x, e.next);
    Emitted(e.(next := e.next + 1, locals := e.locals + {x}),
            [Let(e.next, v)] + if x in e.locals then [store] else [Null(x, true)] + [store])
  }

  /** Outputs are blended; a local gets its slot, nulled, at its first assignment. */
  function EmitAssign(io: Interface, plan: Plan, x: Name, v: Expr, e: Emitter): Emitted {
    if !CanEmit(io, v, e.locals) then Bail(e)
    else if x in io.outputs then EmitBlended(x, v, e)
    else if x !in plan.divergent then EmitScalar(x, v, e)
    else if x in e.locals then EmitBlended(x, v, e)
    else EmitFirst(x, v, e)
  }

  lemma AssignCases(io: Interface, plan: Plan, x: Name, v: Expr, e: Emitter)
    requires CanEmit(io, v, e.locals)
    ensures
      EmitAssign(io, plan, x, v, e) ==
      if x !in io.outputs && x !in plan.divergent then EmitScalar(x, v, e)
      else if x in io.outputs || x in e.locals then EmitBlended(x, v, e)
      else EmitFirst(x, v, e)
  {
  }

  lemma BlendedShape(x: Name, v: Expr, e: Emitter)
    ensures
      var f := EffMask(e.(next := e.next + 1));
      EmitBlended(x, v, e) == Emitted(f.e, [Let(e.next, v)] + (f.code + [Store(x, e.next, f.m)]))
  {
  }

  lemma FirstShape(x: Name, v: Expr, e: Emitter)
    ensures
      var f := EffMask(e.(next := e.next + 1, locals := e.locals + {x}));
      EmitFirst(x, v, e) == Emitted(f.e, [Let(e.next, v)] + ([Null(x, false)] + (f.code + [Store(x, e.next, f.m)])))
  {
  }

  lemma ScalarShape(x: Name, v: Expr, e: Emitter)
    ensures
      var store := StoreLaneZero(x, e.next);
      EmitScalar(x, v, e) ==
      Emitted(e.(next := e.next + 1, locals := e.locals + {x}),
              [Let(e.next, v)] + if x in e.locals then [store] else [Null(x, true)] + [store])
  {
  }

  function EmitMemberAssign(io: Interface, x: Name, member: string, v: Expr, e: Emitter): Emitted {
    if x !in io.outputs || !CanEmit(io, v, e.locals) || !IsSwizzle(member) then Bail(e)
    else
      var f := EffMask(e.(next := e.next + 1));
      Emitted(f.e, [Let(e.next, v)] + (f.code + [Insert(x, member, e.next, f.m)]))
  }

  lemma MemberShape(io: Interface, x: Name, member: string, v: Expr, e: Emitter)
    requires x in io.outputs && CanEmit(io, v, e.locals) && IsSwizzle(member)
    ensures
      var f := EffMask(e.(next := e.next + 1));
      EmitMemberAssign(io, x, member, v, e) == Emitted(f.e, [Let(e.next, v)] + (f.code + [Insert(x, member, e.next, f.m)]))
  {
  }

  function EmitDiscard(e: Emitter): Emitted {
    var f := EffMask(e);
    var r := f.e.next;
    Emitted(f.e.(next := r + 1, live := Reg(r)), f.code + [Def(r, Minus(e.live, f.m))])
  }

  function EmitBreak(e: Emitter): Emitted {
    if e.la.None? || e.em.None? then Bail(e)
    else
      var f := EffMask(e);
      var r := f.e.next;
      Emitted(f.e.(next := r + 4), f.code + (Clear(e.em.value, f.m, r) + Clear(e.la.value, f.m, r + 2)))
  }

  function EmitContinue(e: Emitter): Emitted {
    if e.em.None? then Bail(e)
    else
      var f := EffMask(e);
      Emitted(f.e.(next := f.e.next + 2), f.code + Clear(e.em.value, f.m, f.e.next))
  }

  /** The condition, and the structural mask of the first arm. */
  function ThenMask(c: Expr, e: Emitter): seq<Instr> {
    [Def(e.next, Test(c))] + [Def(e.next + 1, Both(e.mask, Reg(e.next)))]
  }

  function ThenEmitter(e: Emitter): Emitter {
    e.(next := e.next + 2, mask := Reg(e.next + 1))
  }

  /** The structural mask of the second arm: the saved mask without the condition. */
  function ElseMask(e: Emitter, a: Emitter): seq<Instr> {
    [Def(a.next, Minus(e.mask, Reg(e.next)))]
  }

  function ElseEmitter(a: Emitter): Emitter {
    a.(next := a.next + 1, mask := Reg(a.next))
  }

  /** emitStmt. */
  function Emit(io: Interface, plan: Plan, s: Stmt, e: Emitter): Emitted
    decreases s, 1
  {
    if e.bailed then Emitted(e, [])
    else
      match s
      case Block(ss) => EmitAll(io, plan, ss, e)
      case Assign(x, v) => EmitAssign(io, plan, x, v, e)
      case MemberAssign(x, member, v) => EmitMemberAssign(io, x, member, v, e)
      case If(c, t, els) =>
        if !CanEmit(io, c, e.locals) then Bail(e)
        else
          var a := EmitArm(io, plan, t, ThenEmitter(e));
          if els.None? then Emitted(a.e.(mask := e.mask), ThenMask(c, e) + a.code)
          else
            var b := EmitArm(io, plan, els.value, ElseEmitter(a.e));
            Emitted(b.e.(mask := e.mask), ThenMask(c, e) + (a.code + (ElseMask(e, a.e) + b.code)))
      case Discard => EmitDiscard(e)
      case For(_, pre, _, _, _) =>
        var p := Emit(io, plan, pre, e);
        var l := EmitLoop(io, plan, s, p.e);
        Emitted(l.e, p.code + l.code)
      case While(_, _, _) => EmitLoop(io, plan, s, e)
      case Break => EmitBreak(e)
      case Continue => EmitContinue(e)
      case Other => Bail(e)
  }

  function EmitAll(io: Interface, plan: Plan, ss: seq<Stmt>, e: Emitter): Emitted
    decreases ss, 0
  {
    if ss == [] then Emitted(e, [])
    else
      var a := Emit(io, plan, ss[0], e);
      var b := EmitAll(io, plan, ss[1..], a.e);
      Emitted(b.e, a.code + b.code)
  }

  /** emitMaskedArm. */
  function EmitArm(io: Interface, plan: Plan, s: Stmt, e: Emitter): Emitted
    decreases s, 2
  {
    if e.bailed || !Guarded(s) then Emit(io, plan, s, e)
    else
      var f := EffMask(e);
      var a := Emit(io, plan, s, f.e);
      Emitted(a.e, f.code + [SkipUnlessAny(f.m, a.code)])
  }

  /** The loop header: active lanes, their test, and the lanes that stay. */
  function LoopHead(cond: Expr, la: nat, a: nat): seq<Instr> {
    [Def(a, LoadMask(la))] + ([Def(a + 1, Test(cond))] + ([Def(a + 2, Both(Reg(a), Reg(a + 1)))] + [StoreMask(la, Reg(a + 2))]))
  }

  /** The start of a masked loop body: a fresh iteration mask and the structural mask of the body. */
  function LoopTop(la: nat, em: nat, a: nat): seq<Instr> {
    [Def(a, LoadMask(la))] + ([StoreMask(em, Reg(a))] + [Def(a + 1, LoadMask(la))])
  }

  /** emitLoop. */
  function EmitLoop(io: Interface, plan: Plan, s: Stmt, e: Emitter): Emitted
    requires IsLoop(s)
    decreases s, 0, 3
  {
    if e.bailed then Emitted(e, [])
    else if !CanEmit(io, s.cond, e.locals) then Bail(e)
    else if s.id in plan.loops then EmitUniform(io, plan, s, e)
    else EmitMasked(io, plan, s, e)
  }

  /** emitUniformLoop. */
  function EmitUniform(io: Interface, plan: Plan, s: Stmt, e: Emitter): Emitted
    requires IsLoop(s)
    decreases s, 0, 1
  {
    var b := Emit(io, plan, s.body, e);
    var i := EmitStep(io, plan, s, b.e);
    Emitted(i.e, [UniLoop(s.cond, b.code + i.code)])
  }

  /** Inside a masked loop: fresh la and em slots, and the mask register LoopTop defines. */
  function BodyEmitter(e: Emitter): Emitter {
    e.(next := e.next + 5, slots := e.slots + 2, la := Some(e.slots), em := Some(e.slots + 1), mask := Reg(e.next + 4))
  }

  /** The increment runs under the lanes still in the loop. */
  function StepEmitter(b: Emitter): Emitter {
    b.(next := b.next + 1, em := None, mask := Reg(b.next))
  }

  function StepMask(s: Stmt, la: nat, r: nat): seq<Instr>
    requires IsLoop(s)
  {
    if Step(s).Some? then [Def(r, LoadMask(la))] else []
  }

  /** The body of a masked loop, emitted at `inner`: its top, the statements, and the increment. */
  function MaskedBlock(io: Interface, plan: Plan, s: Stmt, inner: Emitter, la: nat, em: nat, r: nat): seq<Instr>
    requires IsLoop(s)
    decreases s, 0, 1
  {
    var b := Emit(io, plan, s.body, inner);
    LoopTop(la, em, r) + (b.code + (StepMask(s, la, b.e.next) + EmitStep(io, plan, s, StepEmitter(b.e)).code))
  }

  function EmitMasked(io: Interface, plan: Plan, s: Stmt, e: Emitter): Emitted
    requires IsLoop(s)
    decreases s, 0, 2
  {
    var i := EmitStep(io, plan, s, StepEmitter(Emit(io, plan, s.body, BodyEmitter(e)).e));
    var block := MaskedBlock(io, plan, s, BodyEmitter(e), e.slots, e.slots + 1, e.next + 3);
    Emitted(i.e.(la := e.la, em := e.em, mask := e.mask),
            [StoreMask(e.slots, e.mask)] + [MaskLoop(LoopHead(s.cond, e.slots, e.next), Reg(e.next + 2), block)])
  }

  function EmitStep(io: Interface, plan: Plan, s: Stmt, e: Emitter): Emitted
    requires IsLoop(s)
    decreases s, 0, 0
  {
    if Step(s).Some? then Emit(io, plan, Step(s).value, e) else Emitted(e, [])
  }
}
