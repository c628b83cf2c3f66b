/** Which shaders keep the packetizer's rules. */
module ShaderRules {
  import opened ShaderAst
  import opened Uniformity
  import opened Scoping
  import opened ProgramText

  // ---- definite assignment ----

  /** Every name of the expression is visible. */
  predicate Resolves(e: Expr, visible: set<Name>) {
    Names(e) <= visible
  }

  /** Every look-up in `s` succeeds; a block, an arm and a loop open a scope, an assignment binds its name in the
      innermost one. Inputs and globals are constant, and only outputs have members to assign. */
  predicate Bound(io: Interface, s: Stmt, visible: set<Name>)
    decreases s, 1
  {
    match s
    case Block(ss) => BoundAll(io, ss, visible)
    case Assign(x, e) => x !in io.inputs && x !in io.globals && Resolves(e, visible)
    case MemberAssign(x, _, e) => x in io.outputs && Resolves(e, visible)
    case If(c, t, e) => Resolves(c, visible) && Bound(io, t, visible) && (e.Some? ==> Bound(io, e.value, visible))
    case For(_, p, c, b, i) =>
      var inner := visible + Binds(p);
      Bound(io, p, visible) && Resolves(c, inner) && Bound(io, b, inner) && (i.Some? ==> Bound(io, i.value, inner))
    case While(_, c, b) => Resolves(c, visible) && Bound(io, b, visible)
    case _ => true
  }

  predicate BoundAll(io: Interface, ss: seq<Stmt>, visible: set<Name>)
    decreases ss, 0
  {
    ss != [] ==> Bound(io, ss[0], visible) && BoundAll(io, ss[1..], visible + Binds(ss[0]))
  }

  /** The name a statement binds in its own scope. */
  function Binds(s: Stmt): set<Name> {
    if s.Assign? then {s.target} else {}
  }

  /** An expression is in scope exactly when all names it reads are. */
  lemma {:induction false} ExprScopedIff(e: Expr, scope: set<Name>)
    ensures ExprScoped(e, scope) <==> Names(e) <= scope
    decreases e, 1
  {
    match e
    case Var(x) => assert Names(e) == {x};
    case Apply(_, args) => ArgumentsScoped(e, args, scope);
    case Call(_, args) => ArgumentsScoped(e, args, scope);
    case Ternary(c, t, f) =>
      ExprScopedIff(c, scope);
      ExprScopedIff(t, scope);
      ExprScopedIff(f, scope);
      assert Names(e) == Names(c) + Names(t) + Names(f);
    case Cast(_, a) =>
      ExprScopedIff(a, scope);
      assert Names(e) == Names(a);
    case _ => assert Names(e) == {};
  }

  lemma {:induction false} ArgumentsScoped(e: Expr, args: seq<Expr>, scope: set<Name>)
    requires (e.Apply? || e.Call?) && args == e.args
    ensures ExprScoped(e, scope) <==> Names(e) <= scope
    decreases e, 0
  {
    forall i | 0 <= i < |args| ensures ExprScoped(args[i], scope) <==> Names(args[i]) <= scope { ExprScopedIff(args[i], scope); }
    if Names(e) <= scope {
      forall i | 0 <= i < |args| ensures Names(args[i]) <= scope {
        forall x | x in Names(args[i]) ensures x in Names(e) {
          var p :| p in Parts(args[i]) && p.Var? && p.name == x;
          assert p in PartsAll(args);
        }
      }
    }
    if forall i | 0 <= i < |args| :: Names(args[i]) <= scope {
      forall x | x in Names(e) ensures x in scope {
        var p :| p in Parts(e) && p.Var? && p.name == x;
        var i :| 0 <= i < |args| && p in Parts(args[i]);
        assert x in Names(args[i]);
      }
    }
  }

  /** So the rule that reads be definitely assigned shuts out no shader whose names the semantic analysis resolves. */
  lemma {:induction false} BoundIsScoped(io: Interface, s: Stmt, visible: set<Name>, scope: set<Name>)
    requires Bound(io, s, visible) && visible <= scope
    ensures Scoped(io, s, scope)
    decreases s, 1
  {
    match s
    case Block(ss) => BoundAllIsScoped(io, ss, visible, scope);
    case Assign(_, e) => ExprScopedIff(e, scope);
    case MemberAssign(_, _, e) => ExprScopedIff(e, scope);
    case If(c, t, e) =>
      ExprScopedIff(c, scope);
      BoundIsScoped(io, t, visible, scope);
      if e.Some? { BoundIsScoped(io, e.value, visible, scope); }
    case For(_, p, c, b, i) =>
      var inner := visible + Binds(p);
      BoundIsScoped(io, p, visible, scope);
      ScopeGrows(p, scope);
      ExprScopedIff(c, ScopeAfter(p, scope));
      BoundIsScoped(io, b, inner, ScopeAfter(p, scope));
      if i.Some? { BoundIsScoped(io, i.value, inner, ScopeAfter(p, scope)); }
    case While(_, c, b) =>
      ExprScopedIff(c, scope);
      BoundIsScoped(io, b, visible, scope);
    case _ =>
  }

  lemma {:induction false} BoundAllIsScoped(io: Interface, ss: seq<Stmt>, visible: set<Name>, scope: set<Name>)
    requires BoundAll(io, ss, visible) && visible <= scope
    ensures ScopedAll(io, ss, scope)
    decreases ss, 0
  {
    if ss != [] {
      BoundIsScoped(io, ss[0], visible, scope);
      ScopeGrows(ss[0], scope);
      BoundAllIsScoped(io, ss[1..], visible + Binds(ss[0]), ScopeAfter(ss[0], scope));
    }
  }

  // ---- loops and escapes ----

  predicate LoopsAt(t: seq<Event>, i: nat) {
    i < |t| && t[i].word.Loops? && Bare(t[i].trail)
  }

  predicate OwnLoop(t: seq<Event>) {
    exists i | 0 <= i < |t| :: LoopsAt(t, i)
  }

  /** In this text, loops come before what breaks or continues the loop around it. */
  ghost predicate Ordered(t: seq<Event>) {
    forall i, j | 0 <= i < j < |t| && EscapesAt(t, i) :: !LoopsAt(t, j)
  }

  /** So they do in the body of every loop. */
  ghost predicate BodiesOrdered(t: seq<Event>) {
    forall i | 0 <= i < |t| && t[i].word.Loops? :: Ordered(Text(t[i].word.body))
  }

  lemma OrderedParts(a: seq<Event>, b: seq<Event>)
    requires Ordered(a + b)
    ensures Ordered(a) && Ordered(b) && (OwnEscape(a) ==> !OwnLoop(b))
  {
    var u := a + b;
    forall i, j | 0 <= i < j < |a| && EscapesAt(a, i) ensures !LoopsAt(a, j) {
      assert u[i] == a[i] && u[j] == a[j];
      assert EscapesAt(u, i) && !LoopsAt(u, j);
    }
    forall i, j | 0 <= i < j < |b| && EscapesAt(b, i) ensures !LoopsAt(b, j) {
      assert u[|a| + i] == b[i] && u[|a| + j] == b[j];
      assert EscapesAt(u, |a| + i) && !LoopsAt(u, |a| + j);
    }
    if i :| 0 <= i < |a| && EscapesAt(a, i) {
      assert EscapesAt(u, i);
      forall j | 0 <= j < |b| ensures !LoopsAt(b, j) { assert u[|a| + j] == b[j] && !LoopsAt(u, |a| + j); }
    }
  }

  lemma OwnLoopParts(a: seq<Event>, b: seq<Event>)
    requires !OwnLoop(a + b)
    ensures !OwnLoop(a) && !OwnLoop(b)
  {
    var u := a + b;
    forall i | 0 <= i < |a| ensures !LoopsAt(a, i) { assert u[i] == a[i] && !LoopsAt(u, i); }
    forall i | 0 <= i < |b| ensures !LoopsAt(b, i) { assert u[|a| + i] == b[i] && !LoopsAt(u, |a| + i); }
  }

  lemma BodiesParts(a: seq<Event>, b: seq<Event>)
    requires BodiesOrdered(a + b)
    ensures BodiesOrdered(a) && BodiesOrdered(b)
  {
    var u := a + b;
    assert forall i | 0 <= i < |a| :: u[i] == a[i];
    forall i | 0 <= i < |b| && b[i].word.Loops? ensures Ordered(Text(b[i].word.body)) { assert u[|a| + i] == b[i]; }
  }

  lemma BodiesInside(f: Frame, t: seq<Event>)
    requires BodiesOrdered(Inside(f, t))
    ensures BodiesOrdered(t)
  {
    var u := Inside(f, t);
    forall i | 0 <= i < |t| && t[i].word.Loops? ensures Ordered(Text(t[i].word.body)) { assert u[i].word == t[i].word; }
  }

  lemma BareInArm(t: seq<Event>, i: nat)
    requires i < |t|
    ensures EscapesAt(Inside(Arm, t), i) <==> EscapesAt(t, i)
    ensures LoopsAt(Inside(Arm, t), i) <==> LoopsAt(t, i)
  {
    var u := Inside(Arm, t)[i].trail;
    assert u[0] == Arm && u[1..] == t[i].trail;
    assert forall f | f in t[i].trail :: f in u;
  }

  lemma OrderedInArm(t: seq<Event>)
    ensures Ordered(Inside(Arm, t)) ==> Ordered(t)
    ensures OwnLoop(t) ==> OwnLoop(Inside(Arm, t))
  {
    var u := Inside(Arm, t);
    forall i | 0 <= i < |t| ensures (EscapesAt(u, i) <==> EscapesAt(t, i)) && (LoopsAt(u, i) <==> LoopsAt(t, i)) { BareInArm(t, i); }
  }

  ghost predicate KeepsOrder(t: seq<Event>, escaped: bool) {
    Ordered(t) && BodiesOrdered(t) && (escaped ==> !OwnLoop(t))
  }

  lemma KeepsOrderParts(a: seq<Event>, b: seq<Event>, escaped: bool)
    requires KeepsOrder(a + b, escaped)
    ensures KeepsOrder(a, escaped) && KeepsOrder(b, escaped || OwnEscape(a))
  {
    OrderedParts(a, b);
    BodiesParts(a, b);
    if escaped { OwnLoopParts(a, b); }
  }

  lemma KeepsOrderInArm(t: seq<Event>, escaped: bool)
    requires KeepsOrder(Inside(Arm, t), escaped)
    ensures KeepsOrder(t, escaped)
  {
    OrderedInArm(t);
    BodiesInside(Arm, t);
  }

  /** A shader keeps the rule that no loop follow a break or continue of the same body if, in its text and in that of
      every loop body, the loops come before what breaks and continues. */
  lemma {:induction false} OrderIsEnough(s: Stmt, escaped: bool)
    requires WellFormed(s, true) && KeepsOrder(Text(s), escaped)
    ensures LoopsBeforeEscapes(s, escaped)
    decreases s, 1
  {
    match s
    case Block(ss) => OrderIsEnoughAll(ss, escaped);
    case If(c, t, e) =>
      var u := if e.Some? then Inside(Arm, Text(e.value)) else [];
      KeepsOrderParts([Event(Reads(c), [])], Inside(Arm, Text(t)) + u, escaped);
      KeepsOrderParts(Inside(Arm, Text(t)), u, escaped);
      KeepsOrderInArm(Text(t), escaped);
      OrderIsEnough(t, escaped);
      if e.Some? {
        KeepsOrderInArm(Text(e.value), escaped);
        OrderIsEnough(e.value, escaped);
      }
    case For(_, pre, _, _, _) =>
      KeepsOrderParts(Text(pre), LoopText(s), escaped);
      LoopKeepsOrder(s, escaped);
    case While(_, _, _) => LoopKeepsOrder(s, escaped);
    case _ =>
  }

  lemma {:induction false} LoopKeepsOrder(s: Stmt, escaped: bool)
    requires IsLoop(s) && WellFormed(s, true) && KeepsOrder(LoopText(s), escaped)
    ensures !escaped && LoopsBeforeEscapes(s.body, false)
    decreases s, 0
  {
    var test := [Event(Reads(s.cond), []), Event(Loops(s.id, s.cond, s.body, Heads(s)), [])];
    assert LoopText(s)[1] == test[1] && LoopsAt(LoopText(s), 1);
    KeepsOrderParts(test, Inside(Round(s.id), Text(s.body)) + StepText(s), escaped);
    BodiesParts(Inside(Round(s.id), Text(s.body)), StepText(s));
    BodiesInside(Round(s.id), Text(s.body));
    OrderIsEnough(s.body, false);
  }

  lemma {:induction false} OrderIsEnoughAll(ss: seq<Stmt>, escaped: bool)
    requires (forall i | 0 <= i < |ss| :: WellFormed(ss[i], true)) && KeepsOrder(TextAll(ss), escaped)
    ensures LoopsBeforeEscapesAll(ss, escaped)
    decreases ss, 0
  {
    if ss != [] {
      KeepsOrderParts(Text(ss[0]), TextAll(ss[1..]), escaped);
      BreakOrContinueIff(ss[0]);
      OrderIsEnough(ss[0], escaped);
      OrderIsEnoughAll(ss[1..], escaped || HasBreakOrContinue(ss[0]));
    }
  }
}
