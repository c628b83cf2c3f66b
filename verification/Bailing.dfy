/** When the packetizer gives up, in terms of the flat text of the shader. */
module Bailing {
  import opened ShaderAst
  import opened Uniformity
  import opened PacketSemantics
  import opened VectorCode
  import opened PacketEmitter
  import opened ProgramText

  /** Operators, and builtin functions with a fixed number of arguments. */
  const OPERATORS: set<(string, nat)> := {
    ("neg", 1), ("+", 2), ("-", 2), ("*", 2), ("/", 2),
    ("<", 2), ("<=", 2), (">", 2), (">=", 2), ("==", 2), ("!=", 2)}

  const FUNCTIONS: set<(string, nat)> := {
    ("sin", 1), ("cos", 1), ("tan", 1), ("sqrt", 1), ("floor", 1), ("fract", 1), ("exp", 1), ("log", 1), ("abs", 1),
    ("length", 1), ("normalize", 1), ("min", 2), ("max", 2), ("pow", 2), ("mod", 2), ("dot", 2), ("step", 2),
    ("clamp", 3), ("mix", 3), ("smoothstep", 3)}

  const LETTERS: set<char> := {'x', 'y', 'z', 'w', 'r', 'g', 'b', 'a', 's', 't', 'p', 'q'}

  predicate Swizzle(member: string) {
    |member| >= 1 && forall c | c in member :: c in LETTERS
  }

  /** An expression the packetizer has code for, apart from what is in it. `known` are the locals assigned so far. */
  predicate FitPart(io: Interface, known: set<Name>, e: Expr) {
    match e
    case Var(x) => x in io.inputs || x in io.outputs || x in io.globals || x in known
    case Apply(op, args) => (op, |args|) in OPERATORS || (|args| == 1 && |op| >= 1 && op[0] == '.' && Swizzle(op[1..]))
    case Call(fn, args) =>
      || (fn, |args|) in FUNCTIONS || (fn == "texture" && |args| >= 2)
      || ((fn == "float" || fn == "vec2" || fn == "vec3" || fn == "vec4") && |args| >= 1)
    case Unsupported => false
    case _ => true
  }

  /** The names assigned in front of event `i`. */
  function SetBefore(t: seq<Event>, i: nat): set<Name>
    requires i <= |t|
  {
    set j | 0 <= j < i && t[j].word.Sets? :: t[j].word.x
  }

  /** Event `i` is none the packetizer has code for: an expression with a part that does not fit, a swizzle assignment to
      what is no output, a break or continue outside all loops, or a statement of another kind. */
  ghost predicate Refused(io: Interface, known: set<Name>, inLoop: bool, t: seq<Event>, i: nat)
    requires i < |t|
  {
    match t[i].word
    case Reads(e) => exists p | p in Parts(e) :: !FitPart(io, known + SetBefore(t, i), p)
    case Patches(x, m) => x !in io.outputs || !Swizzle(m)
    case Escapes => !inLoop && !Looped(t[i].trail)
    case Alien => true
    case _ => false
  }

  ghost predicate Refuses(io: Interface, known: set<Name>, inLoop: bool, t: seq<Event>) {
    exists i :: 0 <= i < |t| && Refused(io, known, inLoop, t, i)
  }

  // ---- expressions ----

  lemma OperatorIff(op: string, n: nat)
    ensures KnownOperator(op, n) <==> (op, n) in OPERATORS || (n == 1 && |op| >= 1 && op[0] == '.' && Swizzle(op[1..]))
  {
    SwizzleIff(op[if |op| >= 1 then 1 else 0..]);
  }

  lemma SwizzleIff(m: string)
    ensures IsSwizzle(m) <==> Swizzle(m)
  {
    assert forall c: char :: c in "xyzwrgbastpq" <==> c in LETTERS;
    if IsSwizzle(m) {
      forall c | c in m ensures c in LETTERS { var i :| 0 <= i < |m| && m[i] == c; }
    }
  }

  lemma CallIff(fn: string, n: nat)
    ensures KnownCall(fn, n) <==>
              || (fn, n) in FUNCTIONS || (fn == "texture" && n >= 2)
              || ((fn == "float" || fn == "vec2" || fn == "vec3" || fn == "vec4") && n >= 1)
  {
  }

  ghost predicate AllFit(io: Interface, known: set<Name>, ps: set<Expr>) {
    forall p | p in ps :: FitPart(io, known, p)
  }

  lemma BothFit(io: Interface, known: set<Name>, ps: set<Expr>, qs: set<Expr>)
    ensures AllFit(io, known, ps + qs) <==> AllFit(io, known, ps) && AllFit(io, known, qs)
  {
    forall p | p in qs ensures p in ps + qs {}
  }

  lemma OneFits(io: Interface, known: set<Name>, e: Expr)
    ensures AllFit(io, known, {e}) <==> FitPart(io, known, e)
  {
    assert e in {e};
  }

  /** An expression can be emitted exactly when every part of it fits. */
  lemma {:induction false} CanEmitIff(io: Interface, e: Expr, known: set<Name>)
    ensures CanEmit(io, e, known) <==> AllFit(io, known, Parts(e))
    decreases e, 1
  {
    OneFits(io, known, e);
    match e
    case Apply(op, args) =>
      OperatorIff(op, |args|);
      ArgumentsIff(io, e, args, known);
      BothFit(io, known, {e}, PartsAll(args));
    case Call(fn, args) =>
      CallIff(fn, |args|);
      ArgumentsIff(io, e, args, known);
      BothFit(io, known, {e}, PartsAll(args));
    case Ternary(c, t, f) =>
      CanEmitIff(io, c, known);
      CanEmitIff(io, t, known);
      CanEmitIff(io, f, known);
      BothFit(io, known, {e}, Parts(c));
      BothFit(io, known, {e} + Parts(c), Parts(t));
      BothFit(io, known, {e} + Parts(c) + Parts(t), Parts(f));
    case Cast(_, a) =>
      CanEmitIff(io, a, known);
      BothFit(io, known, {e}, Parts(a));
    case _ =>
  }

  lemma {:induction false} ArgumentsIff(io: Interface, e: Expr, args: seq<Expr>, known: set<Name>)
    requires (e.Apply? || e.Call?) && args == e.args
    ensures AllFit(io, known, PartsAll(args)) <==> forall i | 0 <= i < |args| :: CanEmit(io, args[i], known)
    decreases e, 0
  {
    forall i | 0 <= i < |args| ensures CanEmit(io, args[i], known) <==> AllFit(io, known, Parts(args[i])) { CanEmitIff(io, args[i], known); }
    if AllFit(io, known, PartsAll(args)) {
      forall i | 0 <= i < |args| ensures AllFit(io, known, Parts(args[i])) {
        forall p | p in Parts(args[i]) ensures p in PartsAll(args) {}
      }
    }
    if forall i | 0 <= i < |args| :: CanEmit(io, args[i], known) {
      forall p | p in PartsAll(args) ensures FitPart(io, known, p) { var i :| 0 <= i < |args| && p in Parts(args[i]); }
    }
  }

  // ---- texts ----

  function SetIn(t: seq<Event>): set<Name> {
    SetBefore(t, |t|)
  }

  lemma SetBeforeJoin(a: seq<Event>, b: seq<Event>, i: nat)
    requires i <= |b|
    ensures SetBefore(a + b, |a| + i) == SetIn(a) + SetBefore(b, i)
  {
    var u := a + b;
    forall x ensures x in SetBefore(u, |a| + i) <==> x in SetIn(a) || x in SetBefore(b, i) {
      if j :| 0 <= j < |a| && a[j].word.Sets? && a[j].word.x == x { assert u[j] == a[j]; }
      if j :| 0 <= j < i && b[j].word.Sets? && b[j].word.x == x { assert u[|a| + j] == b[j]; }
    }
  }

  lemma SetBeforeFirst(a: seq<Event>, b: seq<Event>, i: nat)
    requires i <= |a|
    ensures SetBefore(a + b, i) == SetBefore(a, i)
  {
    assert forall j | 0 <= j < i :: (a + b)[j] == a[j];
  }

  lemma SetBeforeInside(f: Frame, t: seq<Event>, i: nat)
    requires i <= |t|
    ensures SetBefore(Inside(f, t), i) == SetBefore(t, i)
  {
    var u := Inside(f, t);
    forall x ensures x in SetBefore(u, i) <==> x in SetBefore(t, i) {
      if j :| 0 <= j < i && t[j].word.Sets? && t[j].word.x == x { assert u[j].word == t[j].word; }
    }
  }

  /** The same locals, outputs aside. */
  predicate SameLocals(io: Interface, a: set<Name>, b: set<Name>) {
    a - io.outputs == b - io.outputs
  }

  lemma SameMore(io: Interface, a: set<Name>, b: set<Name>, c: set<Name>)
    requires SameLocals(io, a, b)
    ensures SameLocals(io, a + c, b + c)
  {
    forall x | x !in io.outputs ensures x in a <==> x in b { assert x in a - io.outputs <==> x in b - io.outputs; }
  }

  lemma FitSame(io: Interface, known: set<Name>, known': set<Name>, p: Expr)
    requires SameLocals(io, known, known')
    ensures FitPart(io, known, p) <==> FitPart(io, known', p)
  {
    if p.Var? { assert p.name !in io.outputs ==> (p.name in known <==> p.name in known - io.outputs); }
  }

  lemma RefusedSame(io: Interface, known: set<Name>, known': set<Name>, inLoop: bool, inLoop': bool, t: seq<Event>, i: nat,
                    t': seq<Event>, i': nat)
    requires i < |t| && i' < |t'| && t[i].word == t'[i'].word
    requires SameLocals(io, known + SetBefore(t, i), known' + SetBefore(t', i'))
    requires inLoop || Looped(t[i].trail) <==> inLoop' || Looped(t'[i'].trail)
    ensures Refused(io, known, inLoop, t, i) <==> Refused(io, known', inLoop', t', i')
  {
    forall p ensures FitPart(io, known + SetBefore(t, i), p) <==> FitPart(io, known' + SetBefore(t', i'), p) {
      FitSame(io, known + SetBefore(t, i), known' + SetBefore(t', i'), p);
    }
  }

  /** One text after the other. */
  lemma RefusesJoin(io: Interface, known: set<Name>, later: set<Name>, inLoop: bool, a: seq<Event>, b: seq<Event>)
    requires SameLocals(io, later, known + SetIn(a))
    ensures Refuses(io, known, inLoop, a + b) <==> Refuses(io, known, inLoop, a) || Refuses(io, later, inLoop, b)
  {
    var u := a + b;
    forall i | 0 <= i < |a| ensures Refused(io, known, inLoop, u, i) <==> Refused(io, known, inLoop, a, i) {
      SetBeforeFirst(a, b, i);
      RefusedSame(io, known, known, inLoop, inLoop, u, i, a, i);
    }
    forall i | 0 <= i < |b| ensures Refused(io, known, inLoop, u, |a| + i) <==> Refused(io, later, inLoop, b, i) {
      SetBeforeJoin(a, b, i);
      assert SameLocals(io, known + SetBefore(u, |a| + i), later + SetBefore(b, i)) by {
        SameMore(io, later, known + SetIn(a), SetBefore(b, i));
        assert known + SetBefore(u, |a| + i) == known + SetIn(a) + SetBefore(b, i);
      }
      RefusedSame(io, known, later, inLoop, inLoop, u, |a| + i, b, i);
    }
    JoinCases(io, known, later, inLoop, a, b);
  }

  lemma JoinCases(io: Interface, known: set<Name>, later: set<Name>, inLoop: bool, a: seq<Event>, b: seq<Event>)
    requires forall i | 0 <= i < |a| :: Refused(io, known, inLoop, a + b, i) <==> Refused(io, known, inLoop, a, i)
    requires forall i | 0 <= i < |b| :: Refused(io, known, inLoop, a + b, |a| + i) <==> Refused(io, later, inLoop, b, i)
    ensures Refuses(io, known, inLoop, a + b) <==> Refuses(io, known, inLoop, a) || Refuses(io, later, inLoop, b)
  {
    var u := a + b;
    if i :| 0 <= i < |b| && Refused(io, later, inLoop, b, i) { assert Refused(io, known, inLoop, u, |a| + i); }
    if i :| 0 <= i < |u| && Refused(io, known, inLoop, u, i) {
      if i >= |a| { assert Refused(io, later, inLoop, b, i - |a|); }
    }
  }

  lemma RefusesInside(io: Interface, known: set<Name>, inLoop: bool, f: Frame, t: seq<Event>)
    ensures Refuses(io, known, inLoop, Inside(f, t)) <==> Refuses(io, known, inLoop || f.Round?, t)
    ensures SetIn(Inside(f, t)) == SetIn(t)
  {
    var u, deeper := Inside(f, t), inLoop || f.Round?;
    SetBeforeInside(f, t, |t|);
    forall i | 0 <= i < |t| ensures Refused(io, known, inLoop, u, i) <==> Refused(io, known, deeper, t, i) {
      SetBeforeInside(f, t, i);
      LoopedInside(f, t[i].trail);
      RefusedSame(io, known, known, inLoop, deeper, u, i, t, i);
    }
    if i :| 0 <= i < |u| && Refused(io, known, inLoop, u, i) { assert Refused(io, known, deeper, t, i); }
    if i :| 0 <= i < |t| && Refused(io, known, deeper, t, i) { assert Refused(io, known, inLoop, u, i); }
  }

  // ---- emission ----

  /** From `e`, outside a bail, over the text `t`, to `z`: the emitter gives up exactly where the text is refused, and
      else knows what the text sets. */
  ghost predicate Follows(io: Interface, e: Emitter, inLoop: bool, t: seq<Event>, z: Emitter) {
    && (z.bailed <==> Refuses(io, e.locals, inLoop, t))
    && (!z.bailed ==> SameLocals(io, z.locals, e.locals + SetIn(t)) && z.la == e.la && z.em == e.em)
  }

  /** Break and continue find the masks of their loop. */
  predicate MasksFit(s: Stmt, e: Emitter, inLoop: bool) {
    && (e.em.Some? ==> e.la.Some?)
    && (HasBreakOrContinue(s) ==> (e.em.Some? <==> inLoop))
  }

  /** Two texts in a row. */
  lemma FollowsOn(io: Interface, e: Emitter, inLoop: bool, a: seq<Event>, y: Emitter, b: seq<Event>, z: Emitter)
    requires Follows(io, e, inLoop, a, y) && (if y.bailed then z.bailed else Follows(io, y, inLoop, b, z))
    ensures Follows(io, e, inLoop, a + b, z)
  {
    if y.bailed {
      RefusesJoin(io, e.locals, e.locals + SetIn(a), inLoop, a, b);
    } else {
      RefusesJoin(io, e.locals, y.locals, inLoop, a, b);
      SetBeforeJoin(a, b, |b|);
      SameMore(io, y.locals, e.locals + SetIn(a), SetIn(b));
      assert e.locals + SetIn(a) + SetIn(b) == e.locals + SetIn(a + b);
    }
  }

  /** A text one construct deeper, whatever happened to the masks and registers. */
  lemma FollowsInside(io: Interface, e: Emitter, inLoop: bool, f: Frame, t: seq<Event>, d: Emitter, y: Emitter, z: Emitter)
    requires Follows(io, d, inLoop || f.Round?, t, y) && d.locals == e.locals
    requires z.bailed == y.bailed && (!y.bailed ==> z.locals == y.locals && z.la == e.la && z.em == e.em)
    ensures Follows(io, e, inLoop, Inside(f, t), z)
  {
    RefusesInside(io, e.locals, inLoop, f, t);
  }

  /** An expression. */
  lemma FollowsRead(io: Interface, e: Emitter, inLoop: bool, v: Expr, y: Emitter)
    requires y.bailed <==> !CanEmit(io, v, e.locals)
    requires !y.bailed ==> y.locals == e.locals && y.la == e.la && y.em == e.em
    ensures Follows(io, e, inLoop, [Event(Reads(v), [])], y)
  {
    var t := [Event(Reads(v), [])];
    CanEmitIff(io, v, e.locals);
    assert SetBefore(t, 0) == {} && e.locals + {} == e.locals;
    assert Refuses(io, e.locals, inLoop, t) <==> Refused(io, e.locals, inLoop, t, 0);
    assert SetIn(t) == {};
  }

  /** An event that is not an expression. */
  lemma FollowsOne(io: Interface, e: Emitter, inLoop: bool, w: Word, z: Emitter)
    requires !w.Reads? && (z.bailed <==> Refused(io, e.locals, inLoop, [Event(w, [])], 0))
    requires !z.bailed ==> SameLocals(io, z.locals, if w.Sets? then e.locals + {w.x} else e.locals) && z.la == e.la && z.em == e.em
    ensures Follows(io, e, inLoop, [Event(w, [])], z)
  {
    var t := [Event(w, [])];
    assert Refuses(io, e.locals, inLoop, t) <==> Refused(io, e.locals, inLoop, t, 0);
    assert t[0].word == w;
    assert SetIn(t) == if w.Sets? then {w.x} else {};
    assert e.locals + {} == e.locals;
  }

  lemma AssignKnows(io: Interface, p: Plan, x: Name, v: Expr, e: Emitter)
    ensures
      var z := EmitAssign(io, p, x, v, e).e;
      && z.la == e.la && z.em == e.em && z.bailed == (e.bailed || !CanEmit(io, v, e.locals))
      && z.locals == if CanEmit(io, v, e.locals) && x !in io.outputs then e.locals + {x} else e.locals
  {
    if CanEmit(io, v, e.locals) { AssignCases(io, p, x, v, e); }
  }

  lemma AssignFollows(io: Interface, p: Plan, x: Name, v: Expr, e: Emitter, inLoop: bool)
    requires !e.bailed
    ensures Follows(io, e, inLoop, Text(Assign(x, v)), EmitAssign(io, p, x, v, e).e)
  {
    var z := EmitAssign(io, p, x, v, e).e;
    AssignKnows(io, p, x, v, e);
    var y := if z.bailed then z else e;
    FollowsRead(io, e, inLoop, v, y);
    if !y.bailed { FollowsOne(io, y, inLoop, Sets(x, v), z); }
    FollowsOn(io, e, inLoop, [Event(Reads(v), [])], y, [Event(Sets(x, v), [])], z);
    assert [Event(Reads(v), [])] + [Event(Sets(x, v), [])] == Text(Assign(x, v));
  }

  lemma PatchFollows(io: Interface, x: Name, m: string, v: Expr, e: Emitter, inLoop: bool)
    requires !e.bailed
    ensures Follows(io, e, inLoop, Text(MemberAssign(x, m, v)), EmitMemberAssign(io, x, m, v, e).e)
  {
    var z := EmitMemberAssign(io, x, m, v, e).e;
    var y := if CanEmit(io, v, e.locals) then e else e.(bailed := true);
    SwizzleIff(m);
    FollowsRead(io, e, inLoop, v, y);
    if !y.bailed { FollowsOne(io, y, inLoop, Patches(x, m), z); }
    FollowsOn(io, e, inLoop, [Event(Reads(v), [])], y, [Event(Patches(x, m), [])], z);
    assert [Event(Reads(v), [])] + [Event(Patches(x, m), [])] == Text(MemberAssign(x, m, v));
  }

  lemma {:induction false} EmitFollows(io: Interface, p: Plan, s: Stmt, cf: bool, e: Emitter, inLoop: bool)
    requires !e.bailed && Justified(io, s, cf, p) && WellFormed(s, true) && MasksFit(s, e, inLoop)
    ensures Follows(io, e, inLoop, Text(s), Emit(io, p, s, e).e)
    decreases s, 1
  {
    var z := Emit(io, p, s, e).e;
    match s
    case Block(ss) => AllFollow(io, p, ss, cf, e, inLoop);
    case Assign(x, v) => AssignFollows(io, p, x, v, e, inLoop);
    case MemberAssign(x, m, v) => PatchFollows(io, x, m, v, e, inLoop);
    case If(_, _, _) => IfFollows(io, p, s, cf, e, inLoop);
    case For(_, pre, _, _, _) =>
      var y := Emit(io, p, pre, e).e;
      EmitFollows(io, p, pre, cf, e, inLoop);
      if y.bailed { assert EmitLoop(io, p, s, y).e == y; } else { LoopFollows(io, p, s, cf, y, inLoop); }
      FollowsOn(io, e, inLoop, Text(pre), y, LoopText(s), z);
    case While(_, _, _) => LoopFollows(io, p, s, cf, e, inLoop);
    case Break => FollowsOne(io, e, inLoop, Escapes, z);
    case Continue => FollowsOne(io, e, inLoop, Escapes, z);
    case Discard => FollowsOne(io, e, inLoop, Discards, z);
    case Other => FollowsOne(io, e, inLoop, Alien, z);
  }

  lemma {:induction false} AllFollow(io: Interface, p: Plan, ss: seq<Stmt>, cf: bool, e: Emitter, inLoop: bool)
    requires !e.bailed && forall i | 0 <= i < |ss| :: Justified(io, ss[i], cf, p) && WellFormed(ss[i], true) && MasksFit(ss[i], e, inLoop)
    ensures Follows(io, e, inLoop, TextAll(ss), EmitAll(io, p, ss, e).e)
    decreases ss, 0
  {
    if ss != [] {
      var y, z := Emit(io, p, ss[0], e).e, EmitAll(io, p, ss, e).e;
      EmitFollows(io, p, ss[0], cf, e, inLoop);
      if y.bailed { StaysBailed(io, p, ss[1..], y); } else { AllFollow(io, p, ss[1..], cf, y, inLoop); }
      FollowsOn(io, e, inLoop, Text(ss[0]), y, TextAll(ss[1..]), z);
    } else {
      assert SetIn([]) == {} && e.locals + {} == e.locals;
    }
  }

  lemma {:induction false} StaysBailed(io: Interface, p: Plan, ss: seq<Stmt>, e: Emitter)
    requires e.bailed
    ensures EmitAll(io, p, ss, e).e.bailed
    decreases ss
  {
    if ss != [] { StaysBailed(io, p, ss[1..], Emit(io, p, ss[0], e).e); }
  }

  /** An arm, guarded or not. */
  lemma {:induction false} ArmFollows(io: Interface, p: Plan, s: Stmt, e: Emitter, d: Emitter, inLoop: bool)
    requires !e.bailed && Justified(io, s, true, p) && WellFormed(s, true) && MasksFit(s, e, inLoop)
    requires !d.bailed && d.locals == e.locals && d.la == e.la && d.em == e.em
    ensures Follows(io, e, inLoop, Inside(Arm, Text(s)), EmitArm(io, p, s, d).e)
    decreases s, 2
  {
    var z := EmitArm(io, p, s, d).e;
    var f := if Guarded(s) then EffMask(d).e else d;
    EmitFollows(io, p, s, true, f, inLoop);
    FollowsInside(io, e, inLoop, Arm, Text(s), f, Emit(io, p, s, f).e, z);
  }

  lemma {:induction false} IfFollows(io: Interface, p: Plan, s: Stmt, cf: bool, e: Emitter, inLoop: bool)
    requires s.If? && !e.bailed && Justified(io, s, cf, p) && WellFormed(s, true) && MasksFit(s, e, inLoop)
    ensures Follows(io, e, inLoop, Text(s), Emit(io, p, s, e).e)
    decreases s, 0
  {
    var z := Emit(io, p, s, e).e;
    var y := if CanEmit(io, s.cond, e.locals) then e else e.(bailed := true);
    var els := if s.els.Some? then Inside(Arm, Text(s.els.value)) else [];
    FollowsRead(io, e, inLoop, s.cond, y);
    if !y.bailed {
      var a := EmitArm(io, p, s.thn, ThenEmitter(e)).e;
      ArmFollows(io, p, s.thn, e, ThenEmitter(e), inLoop);
      if a.bailed {
        if s.els.Some? { assert EmitArm(io, p, s.els.value, ElseEmitter(a)).e.bailed; }
      } else if s.els.Some? {
        ArmFollows(io, p, s.els.value, a, ElseEmitter(a), inLoop);
      } else {
        NothingFollows(io, a, inLoop, z);
      }
      FollowsOn(io, e, inLoop, Inside(Arm, Text(s.thn)), a, els, z);
    }
    FollowsOn(io, e, inLoop, [Event(Reads(s.cond), [])], y, Inside(Arm, Text(s.thn)) + els, z);
  }

  lemma NothingFollows(io: Interface, e: Emitter, inLoop: bool, z: Emitter)
    requires !e.bailed && !z.bailed && z.locals == e.locals && z.la == e.la && z.em == e.em
    ensures Follows(io, e, inLoop, [], z)
  {
    assert SetIn([]) == {} && e.locals + {} == e.locals;
  }

  /** Where the body and the increment of a loop are emitted. */
  function LoopBodyEmitter(p: Plan, s: Stmt, e: Emitter): Emitter
    requires IsLoop(s)
  {
    if s.id in p.loops then e else BodyEmitter(e)
  }

  function LoopStepEmitter(p: Plan, s: Stmt, b: Emitter): Emitter
    requires IsLoop(s)
  {
    if s.id in p.loops then b else StepEmitter(b)
  }

  lemma LoopEnds(io: Interface, p: Plan, s: Stmt, e: Emitter)
    requires IsLoop(s) && !e.bailed && CanEmit(io, s.cond, e.locals)
    ensures
      var i := EmitStep(io, p, s, LoopStepEmitter(p, s, Emit(io, p, s.body, LoopBodyEmitter(p, s, e)).e)).e;
      EmitLoop(io, p, s, e).e == if s.id in p.loops then i else i.(la := e.la, em := e.em, mask := e.mask)
  {
  }

  lemma {:induction false} LoopFollows(io: Interface, p: Plan, s: Stmt, cf: bool, e: Emitter, inLoop: bool)
    requires IsLoop(s) && !e.bailed && Justified(io, s, cf, p) && WellFormed(s, true) && (e.em.Some? ==> e.la.Some?)
    ensures Follows(io, e, inLoop, LoopText(s), EmitLoop(io, p, s, e).e)
    decreases s, 0
  {
    var z := EmitLoop(io, p, s, e).e;
    var y := if CanEmit(io, s.cond, e.locals) then e else e.(bailed := true);
    var head, rest := [Event(Reads(s.cond), [])], [Event(Loops(s.id, s.cond, s.body, Heads(s)), [])];
    FollowsRead(io, e, inLoop, s.cond, y);
    if !y.bailed { FollowsOne(io, y, inLoop, Loops(s.id, s.cond, s.body, Heads(s)), y); }
    FollowsOn(io, e, inLoop, head, y, rest, y);
    if !y.bailed { RoundFollows(io, p, s, cf, e, inLoop); }
    FollowsOn(io, e, inLoop, head + rest, y, Inside(Round(s.id), Text(s.body)) + StepText(s), z);
    assert head + rest == [Event(Reads(s.cond), []), Event(Loops(s.id, s.cond, s.body, Heads(s)), [])];
  }

  /** The body and the increment. */
  lemma {:induction false} RoundFollows(io: Interface, p: Plan, s: Stmt, cf: bool, e: Emitter, inLoop: bool)
    requires IsLoop(s) && !e.bailed && Justified(io, s, cf, p) && WellFormed(s, true) && (e.em.Some? ==> e.la.Some?)
    requires CanEmit(io, s.cond, e.locals)
    ensures Follows(io, e, inLoop, Inside(Round(s.id), Text(s.body)) + StepText(s), EmitLoop(io, p, s, e).e)
    decreases s, 0, 0
  {
    var z, d := EmitLoop(io, p, s, e).e, LoopBodyEmitter(p, s, e);
    var b := Emit(io, p, s.body, d).e;
    LoopEnds(io, p, s, e);
    EmitFollows(io, p, s.body, s.id !in p.loops, d, true);
    var y := if b.bailed then b else b.(la := e.la, em := e.em);
    FollowsInside(io, e, inLoop, Round(s.id), Text(s.body), d, b, y);
    if !b.bailed {
      var t := LoopStepEmitter(p, s, b);
      if Step(s).Some? {
        EmitFollows(io, p, Step(s).value, s.id !in p.loops, t, inLoop);
        FollowsInside(io, y, inLoop, After(s.id), Text(Step(s).value), t, Emit(io, p, Step(s).value, t).e, z);
      } else {
        NothingFollows(io, y, inLoop, z);
      }
    }
    FollowsOn(io, e, inLoop, Inside(Round(s.id), Text(s.body)), y, StepText(s), z);
  }

  /** Whether emission goes through does not depend on the plan. */
  lemma BailsAlike(io: Interface, p: Plan, p': Plan, s: Stmt, e: Emitter)
    requires Justified(io, s, false, p) && Justified(io, s, false, p') && WellFormed(s, true) && !HasBreakOrContinue(s)
    requires !e.bailed && (e.em.Some? ==> e.la.Some?)
    ensures Emit(io, p, s, e).e.bailed == Emit(io, p', s, e).e.bailed
  {
    EmitFollows(io, p, s, false, e, false);
    EmitFollows(io, p', s, false, e, false);
  }
}
