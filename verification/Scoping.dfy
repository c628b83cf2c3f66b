/** What the packetizer relies on about a shader: definite assignment, and loops before escapes. */
module Scoping {
  import opened ShaderAst
  import opened Uniformity

  predicate ExprScoped(e: Expr, scope: set<Name>) {
    match e
    case Var(x) => x in scope
    case Apply(_, args) => forall i | 0 <= i < |args| :: ExprScoped(args[i], scope)
    case Call(_, args) => forall i | 0 <= i < |args| :: ExprScoped(args[i], scope)
    case Ternary(c, t, f) => ExprScoped(c, scope) && ExprScoped(t, scope) && ExprScoped(f, scope)
    case Cast(_, a) => ExprScoped(a, scope)
    case _ => true
  }

  /** The names certainly assigned once `s` has run to its end. */
  function ScopeAfter(s: Stmt, scope: set<Name>): set<Name> {
    match s
    case Block(ss) => ScopeAfterAll(ss, scope)
    case Assign(x, _) => scope + {x}
    case For(_, p, _, _, _) => ScopeAfter(p, scope)
    case _ => scope
  }

  function ScopeAfterAll(ss: seq<Stmt>, scope: set<Name>): set<Name> {
    if ss == [] then scope else ScopeAfterAll(ss[1..], ScopeAfter(ss[0], scope))
  }

  /** Every name read was assigned on every path to the read, and only locals and outputs are written. */
  predicate Scoped(io: Interface, s: Stmt, scope: set<Name>) {
    match s
    case Block(ss) => ScopedAll(io, ss, scope)
    case Assign(x, e) => x !in io.inputs && x !in io.globals && ExprScoped(e, scope)
    case MemberAssign(x, _, e) => x in io.outputs && ExprScoped(e, scope)
    case If(c, t, e) => ExprScoped(c, scope) && Scoped(io, t, scope) && (e.Some? ==> Scoped(io, e.value, scope))
    case For(_, p, c, b, i) =>
      var inner := ScopeAfter(p, scope);
      && Scoped(io, p, scope) && ExprScoped(c, inner) && Scoped(io, b, inner)
      && (i.Some? ==> Scoped(io, i.value, inner))
    case While(_, c, b) => ExprScoped(c, scope) && Scoped(io, b, scope)
    case _ => true
  }

  predicate ScopedAll(io: Interface, ss: seq<Stmt>, scope: set<Name>) {
    ss != [] ==> Scoped(io, ss[0], scope) && ScopedAll(io, ss[1..], ScopeAfter(ss[0], scope))
  }

  /** No loop follows, in the same loop body, a break or continue of that body: emitLoop seeds an inner loop from
      the structural mask alone, so lanes that have left would come back. */
  predicate LoopsBeforeEscapes(s: Stmt, escaped: bool) {
    match s
    case Block(ss) => LoopsBeforeEscapesAll(ss, escaped)
    case If(_, t, e) => LoopsBeforeEscapes(t, escaped) && (e.Some? ==> LoopsBeforeEscapes(e.value, escaped))
    case For(_, p, _, b, i) =>
      && !escaped && LoopsBeforeEscapes(p, false) && LoopsBeforeEscapes(b, false)
      && (i.Some? ==> LoopsBeforeEscapes(i.value, false))
    case While(_, _, b) => !escaped && LoopsBeforeEscapes(b, false)
    case _ => true
  }

  predicate LoopsBeforeEscapesAll(ss: seq<Stmt>, escaped: bool) {
    ss != [] ==>
      LoopsBeforeEscapes(ss[0], escaped) && LoopsBeforeEscapesAll(ss[1..], escaped || HasBreakOrContinue(ss[0]))
  }

  /** The static facts about a statement at the point where it is emitted. */
  datatype Site = Site(scope: set<Name>, seen: set<Name>, divergentCF: bool, inLoop: bool)

  ghost predicate SiteOk(io: Interface, c: Site) {
    && io.inputs + io.outputs + io.globals <= c.scope <= c.seen + io.inputs + io.outputs + io.globals
    && (c.inLoop ==> c.divergentCF)
  }

  ghost predicate StmtOk(io: Interface, plan: Plan, s: Stmt, c: Site) {
    && Scoped(io, s, c.scope)
    && Justified(io, s, c.divergentCF, plan)
    && WellFormed(s, c.inLoop)
  }

  function SiteAfter(s: Stmt, c: Site): Site {
    c.(scope := ScopeAfter(s, c.scope), seen := c.seen + Assigned(s))
  }

  lemma {:induction false} ScopeGrows(s: Stmt, scope: set<Name>)
    ensures scope <= ScopeAfter(s, scope) <= scope + Assigned(s)
    decreases s, 1
  {
    match s
    case Block(ss) => ScopeGrowsAll(ss, scope);
    case For(_, p, _, _, _) => ScopeGrows(p, scope);
    case _ =>
  }

  lemma {:induction false} ScopeGrowsAll(ss: seq<Stmt>, scope: set<Name>)
    ensures scope <= ScopeAfterAll(ss, scope) <= scope + Assigned(Block(ss))
    decreases ss, 0
  {
    if ss != [] {
      ScopeGrows(ss[0], scope);
      ScopeGrowsAll(ss[1..], ScopeAfter(ss[0], scope));
      assert forall i | 0 <= i < |ss[1..]| :: ss[1..][i] == ss[i + 1];
      assert Assigned(ss[0]) <= Assigned(Block(ss)) && Assigned(Block(ss[1..])) <= Assigned(Block(ss));
    }
  }

  lemma {:induction false} EscapeFree(s: Stmt)
    requires WellFormed(s, false)
    ensures !HasBreakOrContinue(s)
  {
    match s
    case Block(ss) => forall i | 0 <= i < |ss| ensures !HasBreakOrContinue(ss[i]) { EscapeFree(ss[i]); }
    case If(_, t, e) =>
      EscapeFree(t);
      if e.Some? { EscapeFree(e.value); }
    case _ =>
  }

  lemma {:induction false} NoEscapeNoLoopNeeded(s: Stmt)
    requires WellFormed(s, true) && !HasBreakOrContinue(s)
    ensures WellFormed(s, false)
  {
    match s
    case Block(ss) =>
      forall i | 0 <= i < |ss| ensures WellFormed(ss[i], false) { NoEscapeNoLoopNeeded(ss[i]); }
    case If(_, t, e) =>
      NoEscapeNoLoopNeeded(t);
      if e.Some? { NoEscapeNoLoopNeeded(e.value); }
    case _ =>
  }

  lemma {:induction false} NoEscapeAnywhere(s: Stmt)
    requires WellFormed(s, false)
    ensures WellFormed(s, true)
  {
    match s
    case Block(ss) => forall i | 0 <= i < |ss| ensures WellFormed(ss[i], true) { NoEscapeAnywhere(ss[i]); }
    case If(_, t, e) =>
      NoEscapeAnywhere(t);
      if e.Some? { NoEscapeAnywhere(e.value); }
    case _ =>
  }
}
