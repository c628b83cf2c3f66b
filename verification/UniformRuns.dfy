/** What the uniformity analysis promises of the scalar shader alone: invocations agree on what it left unmarked. */
module UniformRuns {
  import opened ShaderAst
  import opened Uniformity
  import opened Scoping
  import opened LaneSimulation
  import S = ScalarSemantics

  /** Two invocations hold one value in every unmarked name. */
  ghost predicate Agree(o: Ops, io: Interface, d: set<Name>, t: S.State, u: S.State) {
    forall x | UniformName(io, d, x) :: S.Read(o, t.vars, x) == S.Read(o, u.vars, x)
  }

  lemma {:induction false} AgreeingValue(o: Ops, io: Interface, d: set<Name>, e: Expr, t: S.State, u: S.State)
    requires IsUniform(io, d, e) && Agree(o, io, d, t, u)
    ensures S.Eval(o, e, t.vars) == S.Eval(o, e, u.vars)
  {
    match e
    case Apply(_, args) => AgreeingValues(o, io, d, args, t, u);
    case Call(_, args) => AgreeingValues(o, io, d, args, t, u);
    case Ternary(c, f, g) => AgreeingValue(o, io, d, c, t, u); AgreeingValue(o, io, d, f, t, u); AgreeingValue(o, io, d, g, t, u);
    case _ =>
  }

  lemma {:induction false} AgreeingValues(o: Ops, io: Interface, d: set<Name>, es: seq<Expr>, t: S.State, u: S.State)
    requires Agree(o, io, d, t, u) && forall i | 0 <= i < |es| :: IsUniform(io, d, es[i])
    ensures S.EvalAll(o, es, t.vars) == S.EvalAll(o, es, u.vars)
  {
    forall i | 0 <= i < |es| ensures S.EvalAll(o, es, t.vars)[i] == S.EvalAll(o, es, u.vars)[i] {
      AgreeingValue(o, io, d, es[i], t, u);
    }
  }

  /** Only outputs are written by member, as a scoped shader does. */
  predicate MembersOfOutputs(io: Interface, s: Stmt) {
    match s
    case Block(ss) => forall i | 0 <= i < |ss| :: MembersOfOutputs(io, ss[i])
    case MemberAssign(x, _, _) => x in io.outputs
    case If(_, t, e) => MembersOfOutputs(io, t) && (e.Some? ==> MembersOfOutputs(io, e.value))
    case For(_, p, _, b, i) => MembersOfOutputs(io, p) && MembersOfOutputs(io, b) && (i.Some? ==> MembersOfOutputs(io, i.value))
    case While(_, _, b) => MembersOfOutputs(io, b)
    case _ => true
  }

  lemma {:induction false} ScopedMembers(io: Interface, s: Stmt, scope: set<Name>)
    requires Scoped(io, s, scope)
    ensures MembersOfOutputs(io, s)
    decreases s, 1
  {
    match s
    case Block(ss) => ScopedMembersAll(io, ss, scope);
    case If(_, t, e) =>
      ScopedMembers(io, t, scope);
      if e.Some? { ScopedMembers(io, e.value, scope); }
    case For(_, p, _, b, i) =>
      ScopedMembers(io, p, scope);
      ScopedMembers(io, b, ScopeAfter(p, scope));
      if i.Some? { ScopedMembers(io, i.value, ScopeAfter(p, scope)); }
    case While(_, _, b) => ScopedMembers(io, b, scope);
    case _ =>
  }

  lemma {:induction false} ScopedMembersAll(io: Interface, ss: seq<Stmt>, scope: set<Name>)
    requires ScopedAll(io, ss, scope)
    ensures forall i | 0 <= i < |ss| :: MembersOfOutputs(io, ss[i])
    decreases ss, 0
  {
    if ss != [] {
      ScopedMembers(io, ss[0], scope);
      ScopedMembersAll(io, ss[1..], ScopeAfter(ss[0], scope));
      forall i | 0 <= i < |ss| ensures MembersOfOutputs(io, ss[i]) {
        if i > 0 { assert ss[i] == ss[1..][i - 1]; }
      }
    }
  }

  // ---- under divergent control flow ----

  /** A finished run leaves the unmarked names alone. */
  ghost predicate Leaves(o: Ops, io: Interface, d: set<Name>, t: S.State, r: S.Result) {
    r.Done? ==> Agree(o, io, d, t, r.st)
  }

  lemma {:induction false} DivergentLeaves(o: Ops, n: nat, io: Interface, plan: Plan, s: Stmt, t: S.State)
    requires Justified(io, s, true, plan) && MembersOfOutputs(io, s)
    ensures Leaves(o, io, plan.divergent, t, S.Exec(o, false, n, s, t))
    decreases n, s, 1
  {
    match s
    case Block(ss) => DivergentLeavesAll(o, n, io, plan, ss, t);
    case If(_, f, e) =>
      DivergentLeaves(o, n, io, plan, f, t);
      if e.Some? { DivergentLeaves(o, n, io, plan, e.value, t); }
    case For(_, p, _, _, _) =>
      DivergentLeaves(o, n, io, plan, p, t);
      var r := S.Exec(o, false, n, p, t);
      if r.Done? { DivergentLeavesLoop(o, n, io, plan, s, r.st); }
    case While(_, _, _) => DivergentLeavesLoop(o, n, io, plan, s, t);
    case _ =>
  }

  lemma {:induction false} DivergentLeavesAll(o: Ops, n: nat, io: Interface, plan: Plan, ss: seq<Stmt>, t: S.State)
    requires forall i | 0 <= i < |ss| :: Justified(io, ss[i], true, plan) && MembersOfOutputs(io, ss[i])
    ensures Leaves(o, io, plan.divergent, t, S.ExecAll(o, false, n, ss, t))
    decreases n, ss, 0
  {
    if ss != [] {
      DivergentLeaves(o, n, io, plan, ss[0], t);
      var r := S.Exec(o, false, n, ss[0], t);
      if r.Done? { DivergentLeavesAll(o, n, io, plan, ss[1..], r.st); }
    }
  }

  lemma {:induction false} DivergentLeavesLoop(o: Ops, n: nat, io: Interface, plan: Plan, s: Stmt, t: S.State)
    requires IsLoop(s) && s.id !in plan.loops
    requires Justified(io, s.body, true, plan) && MembersOfOutputs(io, s.body)
    requires Step(s).Some? ==> Justified(io, Step(s).value, true, plan) && MembersOfOutputs(io, Step(s).value)
    ensures Leaves(o, io, plan.divergent, t, S.ExecLoop(o, false, n, s, t))
    decreases n, s, 0
  {
    if o.truth(S.Eval(o, s.cond, t.vars)) && n > 0 {
      DivergentLeaves(o, n, io, plan, s.body, t);
      var r := S.Exec(o, false, n, s.body, t);
      if r.Done? {
        if Step(s).Some? { DivergentLeaves(o, n, io, plan, Step(s).value, r.st); }
        var q := if Step(s).Some? then S.Exec(o, false, n, Step(s).value, r.st) else S.Done(S.Normal, r.st);
        if q.Done? { DivergentLeavesLoop(o, n - 1, io, plan, s, q.st); }
      }
    }
  }

  // ---- outside ----

  /** Two runs of a statement, if both finish, end in agreement. */
  ghost predicate EndAgreeing(o: Ops, io: Interface, d: set<Name>, r: S.Result, q: S.Result) {
    r.Done? && q.Done? ==> Agree(o, io, d, r.st, q.st)
  }

  /** Outside divergent control flow, invocations that agree on the unmarked names before a statement agree on them
      after it. */
  lemma {:induction false} UniformStaysEqual(o: Ops, n: nat, io: Interface, plan: Plan, s: Stmt, t: S.State, u: S.State)
    requires Justified(io, s, false, plan) && MembersOfOutputs(io, s) && WellFormed(s, false)
    requires Agree(o, io, plan.divergent, t, u)
    ensures EndAgreeing(o, io, plan.divergent, S.Exec(o, false, n, s, t), S.Exec(o, false, n, s, u))
    decreases n, s, 1
  {
    match s
    case Block(ss) => UniformStaysEqualAll(o, n, io, plan, ss, t, u);
    case Assign(_, e) => if IsUniform(io, plan.divergent, e) { AgreeingValue(o, io, plan.divergent, e, t, u); }
    case If(_, f, e) =>
      IfLeaves(o, n, io, plan, s, t);
      IfLeaves(o, n, io, plan, s, u);
    case For(_, p, _, _, _) =>
      UniformStaysEqual(o, n, io, plan, p, t, u);
      var r, q := S.Exec(o, false, n, p, t), S.Exec(o, false, n, p, u);
      UniformStaysEqualLoop(o, n, io, plan, s, r.st, q.st);
    case While(_, _, _) => UniformStaysEqualLoop(o, n, io, plan, s, t, u);
    case _ =>
  }

  /** The arms of a conditional are divergent control flow. */
  lemma IfLeaves(o: Ops, n: nat, io: Interface, plan: Plan, s: Stmt, t: S.State)
    requires s.If? && Justified(io, s, false, plan) && MembersOfOutputs(io, s)
    ensures Leaves(o, io, plan.divergent, t, S.Exec(o, false, n, s, t))
  {
    DivergentLeaves(o, n, io, plan, s.thn, t);
    if s.els.Some? { DivergentLeaves(o, n, io, plan, s.els.value, t); }
  }

  lemma {:induction false} UniformStaysEqualAll(o: Ops, n: nat, io: Interface, plan: Plan, ss: seq<Stmt>, t: S.State, u: S.State)
    requires forall i | 0 <= i < |ss| :: Justified(io, ss[i], false, plan) && MembersOfOutputs(io, ss[i]) && WellFormed(ss[i], false)
    requires Agree(o, io, plan.divergent, t, u)
    ensures EndAgreeing(o, io, plan.divergent, S.ExecAll(o, false, n, ss, t), S.ExecAll(o, false, n, ss, u))
    decreases n, ss, 0
  {
    if ss != [] {
      UniformStaysEqual(o, n, io, plan, ss[0], t, u);
      EndsNormally(o, n, ss[0], t);
      EndsNormally(o, n, ss[0], u);
      var r, q := S.Exec(o, false, n, ss[0], t), S.Exec(o, false, n, ss[0], u);
      if r.Done? && q.Done? { UniformStaysEqualAll(o, n, io, plan, ss[1..], r.st, q.st); }
    }
  }

  lemma EndsNormally(o: Ops, n: nat, s: Stmt, t: S.State)
    requires WellFormed(s, false)
    ensures var r := S.Exec(o, false, n, s, t); r.Done? ==> r.flow.Normal?
  {
    EscapeFree(s);
    NoEscapeAnywhere(s);
    RunsThrough(o, n, s, t);
  }

  lemma {:induction false} UniformStaysEqualLoop(o: Ops, n: nat, io: Interface, plan: Plan, s: Stmt, t: S.State, u: S.State)
    requires IsLoop(s) && Justified(io, s, false, plan) && MembersOfOutputs(io, s) && WellFormed(s, false)
    requires Agree(o, io, plan.divergent, t, u)
    ensures EndAgreeing(o, io, plan.divergent, S.ExecLoop(o, false, n, s, t), S.ExecLoop(o, false, n, s, u))
    decreases n, s, 0
  {
    if s.id !in plan.loops {
      DivergentLeavesLoop(o, n, io, plan, s, t);
      DivergentLeavesLoop(o, n, io, plan, s, u);
    } else {
      AgreeingValue(o, io, plan.divergent, s.cond, t, u);
      if o.truth(S.Eval(o, s.cond, t.vars)) && n > 0 {
        NoEscapeNoLoopNeeded(s.body);
        UniformStaysEqual(o, n, io, plan, s.body, t, u);
        EndsNormally(o, n, s.body, t);
        EndsNormally(o, n, s.body, u);
        var r, q := S.Exec(o, false, n, s.body, t), S.Exec(o, false, n, s.body, u);
        if r.Done? && q.Done? { UniformStaysEqualRest(o, n, io, plan, s, r.st, q.st); }
      }
    }
  }

  /** The increment and the remaining iterations. */
  lemma {:induction false} UniformStaysEqualRest(o: Ops, n: nat, io: Interface, plan: Plan, s: Stmt, t: S.State, u: S.State)
    requires IsLoop(s) && n > 0 && Justified(io, s, false, plan) && MembersOfOutputs(io, s) && WellFormed(s, false)
    requires s.id in plan.loops && Agree(o, io, plan.divergent, t, u)
    ensures
      var r := if Step(s).Some? then S.Exec(o, false, n, Step(s).value, t) else S.Done(S.Normal, t);
      var q := if Step(s).Some? then S.Exec(o, false, n, Step(s).value, u) else S.Done(S.Normal, u);
      r.Done? && q.Done? ==>
        EndAgreeing(o, io, plan.divergent, S.ExecLoop(o, false, n - 1, s, r.st), S.ExecLoop(o, false, n - 1, s, q.st))
    decreases n, s, 0, 0
  {
    if Step(s).Some? {
      UniformStaysEqual(o, n, io, plan, Step(s).value, t, u);
      var r, q := S.Exec(o, false, n, Step(s).value, t), S.Exec(o, false, n, Step(s).value, u);
      if r.Done? && q.Done? { UniformStaysEqualLoop(o, n - 1, io, plan, s, r.st, q.st); }
    } else {
      UniformStaysEqualLoop(o, n - 1, io, plan, s, t, u);
    }
  }
}
