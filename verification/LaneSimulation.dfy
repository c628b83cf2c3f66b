/** Every lane of a packet run computes what the scalar path computes for that lane alone. */
module LaneSimulation {
  import opened ShaderAst
  import opened Uniformity
  import opened Scoping
  import opened PacketSemantics
  import opened Seeding
  import opened LaneRelation
  import S = ScalarSemantics

  /** Without break or continue of its own, a statement that ends ends normally. */
  lemma {:induction false} RunsThrough(o: Ops, n: nat, s: Stmt, st: S.State)
    requires !HasBreakOrContinue(s) && WellFormed(s, true)
    ensures var r := S.Exec(o, false, n, s, st); r.Done? ==> r.flow.Normal?
    decreases n, s, 1
  {
    match s
    case Block(ss) => RunsThroughAll(o, n, ss, st);
    case If(_, t, e) =>
      RunsThrough(o, n, t, st);
      if e.Some? { RunsThrough(o, n, e.value, st); }
    case For(_, p, _, _, _) =>
      EscapeFree(p);
      NoEscapeAnywhere(p);
      RunsThrough(o, n, p, st);
      var r := S.Exec(o, false, n, p, st);
      if r.Done? { RunsThroughLoop(o, n, s, r.st); }
    case While(_, _, _) => RunsThroughLoop(o, n, s, st);
    case _ =>
  }

  lemma {:induction false} RunsThroughAll(o: Ops, n: nat, ss: seq<Stmt>, st: S.State)
    requires !HasBreakOrContinue(Block(ss)) && WellFormed(Block(ss), true)
    ensures var r := S.ExecAll(o, false, n, ss, st); r.Done? ==> r.flow.Normal?
    decreases n, ss, 0
  {
    if ss != [] {
      assert forall i | 0 <= i < |ss[1..]| :: ss[1..][i] == ss[i + 1];
      RunsThrough(o, n, ss[0], st);
      var r := S.Exec(o, false, n, ss[0], st);
      if r.Done? { RunsThroughAll(o, n, ss[1..], r.st); }
    }
  }

  /** A loop owns the break and continue in its body, so it always ends normally. */
  lemma {:induction false} RunsThroughLoop(o: Ops, n: nat, s: Stmt, st: S.State)
    requires IsLoop(s) && WellFormed(s, true)
    ensures var r := S.ExecLoop(o, false, n, s, st); r.Done? ==> r.flow.Normal?
    decreases n, s, 0
  {
    if o.truth(S.Eval(o, s.cond, st.vars)) && n > 0 {
      S.DeadStaysDead(o, n, s.body, st);
      var r := S.Exec(o, false, n, s.body, st);
      if r.Done? && !r.flow.Broke? {
        if Step(s).Some? {
          EscapeFree(Step(s).value);
          NoEscapeAnywhere(Step(s).value);
          RunsThrough(o, n, Step(s).value, r.st);
        }
        var q := if Step(s).Some? then S.Exec(o, false, n, Step(s).value, r.st) else S.Done(S.Normal, r.st);
        if q.Done? { RunsThroughLoop(o, n - 1, s, q.st); }
      }
    }
  }

  /** The lanes that run hold related states, and the masks fit the site. */
  ghost predicate Start(k: Packet, c: Site, m: Mask, p: PState, ts: seq<S.State>)
  {
    && k.width > 0 && WellShaped(k, p) && |m| == k.width == |ts|
    && (!c.divergentCF ==> forall l | 0 <= l < k.width :: m[l] && p.em[l])
    && (forall l | 0 <= l < k.width && m[l] && p.em[l] :: Rel(k, p, l, ts[l], c.scope))
  }

  function Results(k: Packet, n: nat, s: Stmt, ts: seq<S.State>): (rs: seq<S.Result>)
    ensures |rs| == |ts|
    ensures forall l | 0 <= l < |ts| :: rs[l] == S.Exec(k.o, false, n, s, ts[l])
  {
    seq(|ts|, l requires 0 <= l < |ts| => S.Exec(k.o, false, n, s, ts[l]))
  }

  function LoopResults(k: Packet, n: nat, s: Stmt, ts: seq<S.State>): (rs: seq<S.Result>)
    requires IsLoop(s)
    ensures |rs| == |ts|
    ensures forall l | 0 <= l < |ts| :: rs[l] == S.ExecLoop(k.o, false, n, s, ts[l])
  {
    seq(|ts|, l requires 0 <= l < |ts| => S.ExecLoop(k.o, false, n, s, ts[l]))
  }

  // ---- expressions ----

  /** A uniform expression has one value in all lanes. */
  lemma {:induction false} UniformValue(k: Packet, e: Expr, g: Memory, l: nat)
    requires MemShaped(k, g) && l < k.width && IsUniform(k.io, k.plan.divergent, e)
    ensures LaneEval(k, e, g, l) == LaneEval(k, e, g, 0)
  {
    match e
    case Apply(_, args) => UniformValues(k, args, g, l);
    case Call(_, args) => UniformValues(k, args, g, l);
    case Ternary(c, t, f) => UniformValue(k, c, g, l); UniformValue(k, t, g, l); UniformValue(k, f, g, l);
    case _ =>
  }

  lemma {:induction false} UniformValues(k: Packet, es: seq<Expr>, g: Memory, l: nat)
    requires MemShaped(k, g) && l < k.width
    requires forall i | 0 <= i < |es| :: IsUniform(k.io, k.plan.divergent, es[i])
    ensures LaneEvalAll(k, es, g, l) == LaneEvalAll(k, es, g, 0)
  {
    forall i | 0 <= i < |es| ensures LaneEvalAll(k, es, g, l)[i] == LaneEvalAll(k, es, g, 0)[i] {
      UniformValue(k, es[i], g, l);
    }
  }

  /** Each lane of an emitted expression is the scalar value of the expression in that lane. */
  lemma {:induction false} EvalAgrees(k: Packet, e: Expr, p: PState, l: nat, st: S.State, scope: set<Name>)
    requires WellShaped(k, p) && l < k.width && Rel(k, p, l, st, scope) && ExprScoped(e, scope)
    ensures LaneEval(k, e, p.mem, l) == S.Eval(k.o, e, st.vars)
  {
    match e
    case Apply(_, args) => EvalAllAgrees(k, args, p, l, st, scope);
    case Call(fn, args) =>
      EvalAllAgrees(k, args, p, l, st, scope);
      if OnLaneZero(k, fn, args) { UniformValues(k, args, p.mem, l); }
    case Ternary(c, t, f) =>
      EvalAgrees(k, c, p, l, st, scope); EvalAgrees(k, t, p, l, st, scope); EvalAgrees(k, f, p, l, st, scope);
    case Cast(_, a) => EvalAgrees(k, a, p, l, st, scope);
    case _ =>
  }

  lemma {:induction false} EvalAllAgrees(k: Packet, es: seq<Expr>, p: PState, l: nat, st: S.State, scope: set<Name>)
    requires WellShaped(k, p) && l < k.width && Rel(k, p, l, st, scope)
    requires forall i | 0 <= i < |es| :: ExprScoped(es[i], scope)
    ensures LaneEvalAll(k, es, p.mem, l) == S.EvalAll(k.o, es, st.vars)
  {
    forall i | 0 <= i < |es| ensures LaneEvalAll(k, es, p.mem, l)[i] == S.EvalAll(k.o, es, st.vars)[i] {
      EvalAgrees(k, es[i], p, l, st, scope);
    }
  }

  // ---- simple statements ----

  lemma AssignLane(k: Packet, s: Stmt, c: Site, m: Mask, p: PState, l: nat, t: S.State)
    requires s.Assign? && SiteOk(k.io, c) && Scoped(k.io, s, c.scope) && Justified(k.io, s, c.divergentCF, k.plan)
    requires k.width > 0 && WellShaped(k, p) && |m| == k.width && l < k.width
    requires !c.divergentCF ==> m[l] && p.em[l]
    requires m[l] && p.em[l] ==> Rel(k, p, l, t, c.scope)
    ensures LanePost(k, p, Run(k, 0, s, c.seen, m, p).p, m, l, c.scope, c.scope + {s.target}, S.Exec(k.o, false, 0, s, t))
  {
    var x, q := s.target, Run(k, 0, s, c.seen, m, p).p;
    if m[l] && p.em[l] {
      EvalAgrees(k, s.init, p, l, t, c.scope);
      if UniformName(k.io, k.plan.divergent, x) { UniformValue(k, s.init, p.mem, l); }
      forall y | y in c.scope + {x}
        ensures LaneRead(k, q.mem, y, l) == S.Read(k.o, t.vars[x := S.Eval(k.o, s.init, t.vars)], y)
      {
        if y != x { assert LaneRead(k, q.mem, y, l) == LaneRead(k, p.mem, y, l); }
      }
    } else {
      assert x in c.scope ==> x in k.io.outputs || x in c.seen;
      forall y | y in c.scope ensures LaneRead(k, q.mem, y, l) == LaneRead(k, p.mem, y, l) {}
    }
  }

  lemma AssignSimulated(k: Packet, n: nat, s: Stmt, c: Site, m: Mask, p: PState, ts: seq<S.State>)
    requires s.Assign? && SiteOk(k.io, c) && StmtOk(k.io, k.plan, s, c) && Start(k, c, m, p, ts)
    ensures Simulated(k, p, m, c.scope, c.scope + {s.target}, Run(k, n, s, c.seen, m, p), Results(k, n, s, ts))
  {
    var q, rs := Run(k, n, s, c.seen, m, p).p, Results(k, n, s, ts);
    forall l | 0 <= l < k.width ensures LanePost(k, p, q, m, l, c.scope, c.scope + {s.target}, rs[l]) {
      AssignLane(k, s, c, m, p, l, ts[l]);
    }
  }

  lemma MemberAssignLane(k: Packet, s: Stmt, c: Site, m: Mask, p: PState, l: nat, t: S.State)
    requires s.MemberAssign? && SiteOk(k.io, c) && Scoped(k.io, s, c.scope)
    requires k.width > 0 && WellShaped(k, p) && |m| == k.width && l < k.width
    requires m[l] && p.em[l] ==> Rel(k, p, l, t, c.scope)
    ensures LanePost(k, p, Run(k, 0, s, c.seen, m, p).p, m, l, c.scope, c.scope, S.Exec(k.o, false, 0, s, t))
  {
    var x, q := s.base, Run(k, 0, s, c.seen, m, p).p;
    forall y | y in c.scope && y != x ensures LaneRead(k, q.mem, y, l) == LaneRead(k, p.mem, y, l) {}
    if m[l] && p.em[l] {
      EvalAgrees(k, s.value, p, l, t, c.scope);
      assert x in c.scope && LaneRead(k, p.mem, x, l) == S.Read(k.o, t.vars, x);
    }
  }

  lemma MemberAssignSimulated(k: Packet, n: nat, s: Stmt, c: Site, m: Mask, p: PState, ts: seq<S.State>)
    requires s.MemberAssign? && SiteOk(k.io, c) && StmtOk(k.io, k.plan, s, c) && Start(k, c, m, p, ts)
    ensures Simulated(k, p, m, c.scope, c.scope, Run(k, n, s, c.seen, m, p), Results(k, n, s, ts))
  {
    var q, rs := Run(k, n, s, c.seen, m, p).p, Results(k, n, s, ts);
    forall l | 0 <= l < k.width ensures LanePost(k, p, q, m, l, c.scope, c.scope, rs[l]) {
      MemberAssignLane(k, s, c, m, p, l, ts[l]);
    }
  }

  lemma JumpSimulated(k: Packet, n: nat, s: Stmt, c: Site, m: Mask, p: PState, ts: seq<S.State>)
    requires s.Break? || s.Continue? || s.Discard? || s.Other?
    requires Start(k, c, m, p, ts)
    ensures Simulated(k, p, m, c.scope, c.scope, Run(k, n, s, c.seen, m, p), Results(k, n, s, ts))
  {
    var q, rs := Run(k, n, s, c.seen, m, p).p, Results(k, n, s, ts);
    forall l | 0 <= l < k.width ensures LanePost(k, p, q, m, l, c.scope, c.scope, rs[l]) {
      if m[l] && p.em[l] {
        assert Rel(k, p, l, ts[l], c.scope);
        assert Rel(k, q, l, rs[l].st, c.scope);
      } else {
        assert Untouched(k, p, q, l, c.scope);
      }
    }
  }

  /** What a finished statement leaves is a start for the next one. */
  lemma ResumeStart(k: Packet, n: nat, s: Stmt, c: Site, m: Mask, p: PState, q: PState, ts: seq<S.State>)
    requires SiteOk(k.io, c) && StmtOk(k.io, k.plan, s, c) && Start(k, c, m, p, ts)
    requires WellShaped(k, q)
    requires Simulated(k, p, m, c.scope, ScopeAfter(s, c.scope), Ran(q), Results(k, n, s, ts))
    ensures SiteOk(k.io, SiteAfter(s, c))
    ensures Start(k, SiteAfter(s, c), m, q, Resume(ts, Results(k, n, s, ts)))
  {
    var rs, us, d := Results(k, n, s, ts), Resume(ts, Results(k, n, s, ts)), SiteAfter(s, c);
    ScopeGrows(s, c.scope);
    if !c.inLoop { EscapeFree(s); }
    forall l | 0 <= l < k.width
      ensures m[l] && q.em[l] ==> Rel(k, q, l, us[l], d.scope)
      ensures m[l] && !c.divergentCF ==> q.em[l]
    {
      assert LanePost(k, p, q, m, l, c.scope, d.scope, rs[l]);
      if !HasBreakOrContinue(s) {
        if !c.inLoop { NoEscapeAnywhere(s); }
        RunsThrough(k.o, n, s, ts[l]);
      }
    }
  }

  // ---- the simulation ----

  lemma {:induction false} Simulate(k: Packet, n: nat, s: Stmt, c: Site, m: Mask, p: PState, ts: seq<S.State>)
    requires SiteOk(k.io, c) && StmtOk(k.io, k.plan, s, c) && Start(k, c, m, p, ts) && Seeded(k, n, s, c.seen, m, p)
    ensures Simulated(k, p, m, c.scope, ScopeAfter(s, c.scope), Run(k, n, s, c.seen, m, p), Results(k, n, s, ts))
    decreases n, s, 1
  {
    match s
    case Block(ss) =>
      SimulateAll(k, n, ss, c, m, p, ts);
      assert Results(k, n, s, ts) == AllResults(k, n, ss, ts);
    case Assign(_, _) => AssignSimulated(k, n, s, c, m, p, ts);
    case MemberAssign(_, _, _) => MemberAssignSimulated(k, n, s, c, m, p, ts);
    case If(_, _, _) => SimulateIf(k, n, s, c, m, p, ts);
    case For(_, _, _, _, _) => SimulateFor(k, n, s, c, m, p, ts);
    case While(_, _, _) =>
      SimulateLoop(k, n, s, c, m, p, ts);
      assert Results(k, n, s, ts) == LoopResults(k, n, s, ts);
    case _ => JumpSimulated(k, n, s, c, m, p, ts);
  }

  function AllResults(k: Packet, n: nat, ss: seq<Stmt>, ts: seq<S.State>): (rs: seq<S.Result>)
    ensures |rs| == |ts|
    ensures forall l | 0 <= l < |ts| :: rs[l] == S.ExecAll(k.o, false, n, ss, ts[l])
  {
    seq(|ts|, l requires 0 <= l < |ts| => S.ExecAll(k.o, false, n, ss, ts[l]))
  }

  lemma BlockChain(k: Packet, n: nat, ss: seq<Stmt>, ts: seq<S.State>)
    requires ss != []
    ensures
      var rs := Results(k, n, ss[0], ts);
      AllResults(k, n, ss, ts) == Chain(rs, AllResults(k, n, ss[1..], Resume(ts, rs)))
  {
  }

  lemma {:induction false} SimulateAll(k: Packet, n: nat, ss: seq<Stmt>, c: Site, m: Mask, p: PState, ts: seq<S.State>)
    requires SiteOk(k.io, c) && StmtOk(k.io, k.plan, Block(ss), c) && Start(k, c, m, p, ts) && SeededAll(k, n, ss, c.seen, m, p)
    ensures Simulated(k, p, m, c.scope, ScopeAfterAll(ss, c.scope), RunAll(k, n, ss, c.seen, m, p),
                      AllResults(k, n, ss, ts))
    decreases n, ss, 0
  {
    if ss == [] {
      IdleSimulated(k, p, m, c.scope, ts);
      assert AllResults(k, n, ss, ts) == Idle(ts);
    } else {
      var s, rest := ss[0], ss[1..];
      HeadAndTailOk(k.io, k.plan, ss, c);
      BlockChain(k, n, ss, ts);
      Simulate(k, n, s, c, m, p, ts);
      var r, rs := Run(k, n, s, c.seen, m, p), Results(k, n, s, ts);
      var d, us, end := SiteAfter(s, c), Resume(ts, rs), ScopeAfterAll(ss, c.scope);
      var zs := AllResults(k, n, rest, us);
      if r.Timeout? {
        ChainTimesOut(k, p, m, c.scope, d.scope, end, rs, zs);
      } else {
        ResumeStart(k, n, s, c, m, p, r.p, ts);
        SimulateAll(k, n, rest, d, m, r.p, us);
        ScopeGrows(s, c.scope);
        ScopeGrowsAll(rest, d.scope);
        ChainSimulated(k, p, r.p, m, c.scope, d.scope, end, RunAll(k, n, rest, d.seen, m, r.p), rs, zs);
      }
    }
  }

  lemma HeadAndTailOk(io: Interface, plan: Plan, ss: seq<Stmt>, c: Site)
    requires ss != [] && StmtOk(io, plan, Block(ss), c)
    ensures StmtOk(io, plan, ss[0], c) && StmtOk(io, plan, Block(ss[1..]), SiteAfter(ss[0], c))
  {
    assert forall i | 0 <= i < |ss[1..]| :: ss[1..][i] == ss[i + 1];
    assert ScopedAll(io, ss, c.scope);
  }

  /** An arm, guarded or not, simulates its statement; what it newly assigns is out of scope afterwards. */
  lemma {:induction false} SimulateArm(k: Packet, n: nat, s: Stmt, c: Site, m: Mask, p: PState, ts: seq<S.State>)
    requires SiteOk(k.io, c) && StmtOk(k.io, k.plan, s, c) && Start(k, c, m, p, ts) && SeededArm(k, n, s, c.seen, m, p)
    ensures Simulated(k, p, m, c.scope, c.scope, RunArm(k, n, s, c.seen, m, p), Results(k, n, s, ts))
    decreases n, s, 2
  {
    if Guarded(s) && !Any(Eff(k, m, p)) {
      SkipSimulated(k, p, m, c.scope, Results(k, n, s, ts));
    } else {
      Simulate(k, n, s, c, m, p, ts);
      ScopeGrows(s, c.scope);
      SimulatedWeaken(k, p, m, c.scope, ScopeAfter(s, c.scope), c.scope, Run(k, n, s, c.seen, m, p), Results(k, n, s, ts));
    }
  }

  lemma IfResults(k: Packet, n: nat, s: Stmt, c: Site, m: Mask, p: PState, ts: seq<S.State>)
    requires s.If? && ExprScoped(s.cond, c.scope) && Start(k, c, m, p, ts)
    ensures
      var cm, ers := CondMask(k, s.cond, p.mem), if s.els.Some? then Results(k, n, s.els.value, ts) else Idle(ts);
      forall l | 0 <= l < k.width && m[l] && p.em[l] ::
        Results(k, n, s, ts)[l] == if cm[l] then Results(k, n, s.thn, ts)[l] else ers[l]
  {
    forall l | 0 <= l < k.width && m[l] && p.em[l]
      ensures CondMask(k, s.cond, p.mem)[l] == k.o.truth(S.Eval(k.o, s.cond, ts[l].vars))
    {
      EvalAgrees(k, s.cond, p, l, ts[l], c.scope);
    }
  }

  lemma {:induction false} SimulateIf(k: Packet, n: nat, s: Stmt, c: Site, m: Mask, p: PState, ts: seq<S.State>)
    requires s.If?
    requires SiteOk(k.io, c) && StmtOk(k.io, k.plan, s, c) && Start(k, c, m, p, ts) && Seeded(k, n, s, c.seen, m, p)
    ensures Simulated(k, p, m, c.scope, c.scope, Run(k, n, s, c.seen, m, p), Results(k, n, s, ts))
    decreases n, s, 0
  {
    var cm, rs, trs := CondMask(k, s.cond, p.mem), Results(k, n, s, ts), Results(k, n, s.thn, ts);
    var tc, tm, em := c.(divergentCF := true), And(m, cm), AndNot(m, cm);
    IfResults(k, n, s, c, m, p, ts);
    SimulateArm(k, n, s.thn, tc, tm, p, ts);
    var t := RunArm(k, n, s.thn, c.seen, tm, p);
    if t.Timeout? {
      ArmTimesOut(k, p, m, cm, c.scope, trs, rs);
    } else {
      ElseEntry(k, p, t.p, m, cm, c.scope, trs, ts);
      if s.els.None? {
        IdleSimulated(k, t.p, em, c.scope, ts);
        ArmsSimulated(k, p, t.p, m, cm, c.scope, t, trs, Idle(ts), rs);
      } else {
        var ec := tc.(seen := c.seen + Assigned(s.thn));
        SimulateArm(k, n, s.els.value, ec, em, t.p, ts);
        ArmsSimulated(k, p, t.p, m, cm, c.scope, RunArm(k, n, s.els.value, ec.seen, em, t.p), trs,
                      Results(k, n, s.els.value, ts), rs);
      }
    }
  }

  // ---- loops ----

  lemma ForChain(k: Packet, n: nat, s: Stmt, ts: seq<S.State>)
    requires s.For?
    ensures
      var rs := Results(k, n, s.pre, ts);
      Results(k, n, s, ts) == Chain(rs, LoopResults(k, n, s, Resume(ts, rs)))
  {
  }

  lemma {:induction false} SimulateFor(k: Packet, n: nat, s: Stmt, c: Site, m: Mask, p: PState, ts: seq<S.State>)
    requires s.For?
    requires SiteOk(k.io, c) && StmtOk(k.io, k.plan, s, c) && Start(k, c, m, p, ts) && Seeded(k, n, s, c.seen, m, p)
    ensures Simulated(k, p, m, c.scope, ScopeAfter(s, c.scope), Run(k, n, s, c.seen, m, p), Results(k, n, s, ts))
    decreases n, s, 0
  {
    var pre, d := s.pre, SiteAfter(s.pre, c);
    var r, rs := Run(k, n, pre, c.seen, m, p), Results(k, n, pre, ts);
    var us := Resume(ts, rs);
    var zs := LoopResults(k, n, s, us);
    if c.inLoop { NoEscapeAnywhere(pre); }
    EscapeFree(pre);
    Simulate(k, n, pre, c, m, p, ts);
    ForChain(k, n, s, ts);
    ScopeGrows(pre, c.scope);
    if r.Timeout? {
      ChainTimesOut(k, p, m, c.scope, d.scope, d.scope, rs, zs);
    } else {
      ResumeStart(k, n, pre, c, m, p, r.p, ts);
      SimulateLoop(k, n, s, d, m, r.p, us);
      ChainSimulated(k, p, r.p, m, c.scope, d.scope, d.scope, RunLoop(k, n, s, d.seen, m, r.p), rs, zs);
    }
  }

  /** The static facts a loop hands to its body and increment. */
  function LoopSite(c: Site, uniform: bool): Site {
    Site(c.scope, c.seen, !uniform, !uniform)
  }

  ghost predicate LoopOk(k: Packet, s: Stmt, c: Site)
    requires IsLoop(s)
  {
    && SiteOk(k.io, c) && WellFormed(s, true)
    && ExprScoped(s.cond, c.scope)
    && StmtOk(k.io, k.plan, s.body, c)
    && (Step(s).Some? ==>
          && StmtOk(k.io, k.plan, Step(s).value, c.(seen := c.seen + Assigned(s.body)))
          && WellFormed(Step(s).value, false))
  }

  /** The conditions at the point where emitLoop is called. */
  ghost predicate LoopEntry(k: Packet, s: Stmt, c: Site) {
    && IsLoop(s) && SiteOk(k.io, c)
    && ExprScoped(s.cond, c.scope) && Scoped(k.io, s.body, c.scope)
    && (Step(s).Some? ==> Scoped(k.io, Step(s).value, c.scope))
    && WellFormed(s, c.inLoop)
    && Justified(k.io, s, c.divergentCF, k.plan)
  }

  lemma LoopBodyOk(k: Packet, s: Stmt, c: Site)
    requires LoopEntry(k, s, c)
    ensures LoopOk(k, s, LoopSite(c, s.id in k.plan.loops))
    ensures s.id in k.plan.loops ==> !c.divergentCF && IsUniform(k.io, k.plan.divergent, s.cond)
  {
    if s.id in k.plan.loops { NoEscapeNoLoopNeeded(s.body); }
    if Step(s).Some? { NoEscapeAnywhere(Step(s).value); }
  }

  lemma {:induction false} SimulateLoop(k: Packet, n: nat, s: Stmt, c: Site, m: Mask, p: PState, ts: seq<S.State>)
    requires LoopEntry(k, s, c) && Start(k, c, m, p, ts) && SeededLoop(k, n, s, c.seen, m, p)
    ensures Simulated(k, p, m, c.scope, c.scope, RunLoop(k, n, s, c.seen, m, p), LoopResults(k, n, s, ts))
    decreases n, s, 0, 3
  {
    LoopBodyOk(k, s, c);
    var d := LoopSite(c, s.id in k.plan.loops);
    if s.id in k.plan.loops {
      SimulateUniform(k, n, s, d, m, p, ts);
    } else {
      var h := p.(la := m);
      SeededEntry(k, c, m, p, ts);
      SimulateMasked(k, n, s, d, h, ts);
      LoopLeaves(k, p, m, c.scope, RunMasked(k, n, s, c.seen, h), LoopResults(k, n, s, ts));
    }
  }

  /** Where the structural mask is inside em, it is the set of running lanes. */
  lemma SeededEntry(k: Packet, c: Site, m: Mask, p: PState, ts: seq<S.State>)
    requires Start(k, c, m, p, ts) && Inside(m, p.em)
    ensures forall l | 0 <= l < k.width && m[l] :: p.em[l] && Rel(k, p.(la := m), l, ts[l], c.scope)
  {
    forall l | 0 <= l < k.width && m[l] ensures p.em[l] && Rel(k, p.(la := m), l, ts[l], c.scope) {
      assert Rel(k, p, l, ts[l], c.scope);
    }
  }

  /** A finished masked loop gives the enclosing masks back. */
  lemma LoopLeaves(k: Packet, p: PState, m: Mask, scope: set<Name>, r: Outcome, rs: seq<S.Result>)
    requires WellShaped(k, p) && |m| == |rs| == k.width && (r.Ran? ==> WellShaped(k, r.p))
    requires forall l | 0 <= l < k.width && m[l] :: p.em[l]
    requires LoopSimulated(k, p.(la := m), scope, r, rs)
    ensures Simulated(k, p, m, scope, scope, if r.Timeout? then r else Ran(r.p.(la := p.la, em := p.em)), rs)
  {
    if r.Ran? {
      var z := r.p.(la := p.la, em := p.em);
      forall l | 0 <= l < k.width ensures LanePost(k, p, z, m, l, scope, scope, rs[l]) {
        assert LoopPost(k, p.(la := m), r.p, l, scope, rs[l]);
      }
    }
  }

  function StepResults(k: Packet, n: nat, s: Stmt, ts: seq<S.State>): (rs: seq<S.Result>)
    requires IsLoop(s)
    ensures |rs| == |ts|
  {
    if Step(s).Some? then Results(k, n, Step(s).value, ts) else Idle(ts)
  }

  /** A loop iterates by test, body, increment and the remaining iterations, in every lane. */
  lemma LoopResultsIterate(k: Packet, n: nat, s: Stmt, ts: seq<S.State>, l: nat)
    requires IsLoop(s) && n > 0 && l < |ts|
    ensures
      var xs := Results(k, n, s.body, ts);
      var us := Resume(ts, xs);
      var ys := StepResults(k, n, s, us);
      var zs := LoopResults(k, n - 1, s, Resume(us, ys));
      LoopResults(k, n, s, ts)[l] ==
      Iteration(k.o.truth(S.Eval(k.o, s.cond, ts[l].vars)), ts[l], xs[l], ys[l], zs[l])
  {
  }

  /** The increment simulates in every lane still in the loop, and always ends normally. */
  lemma {:induction false} SimulateStep(k: Packet, n: nat, s: Stmt, c: Site, m: Mask, p: PState, ts: seq<S.State>)
    requires IsLoop(s) && SiteOk(k.io, c) && Start(k, c, m, p, ts) && SeededStep(k, n, s, c.seen, m, p)
    requires Step(s).Some? ==> StmtOk(k.io, k.plan, Step(s).value, c) && WellFormed(Step(s).value, false)
    ensures Simulated(k, p, m, c.scope, c.scope, RunStep(k, n, s, c.seen, m, p), StepResults(k, n, s, ts))
    ensures forall l | 0 <= l < k.width && StepResults(k, n, s, ts)[l].Done? :: StepResults(k, n, s, ts)[l].flow.Normal?
    decreases n, s, 0, 0
  {
    if Step(s).Some? {
      var i := Step(s).value;
      EscapeFree(i);
      NoEscapeAnywhere(i);
      forall l | 0 <= l < k.width
        ensures Results(k, n, i, ts)[l].Done? ==> Results(k, n, i, ts)[l].flow.Normal?
      {
        RunsThrough(k.o, n, i, ts[l]);
      }
      Simulate(k, n, i, c, m, p, ts);
      ScopeGrows(i, c.scope);
      SimulatedWeaken(k, p, m, c.scope, ScopeAfter(i, c.scope), c.scope, Run(k, n, i, c.seen, m, p), Results(k, n, i, ts));
    } else {
      IdleSimulated(k, p, m, c.scope, ts);
    }
  }

  /** A masked loop runs until every lane that entered has left; it iterates within `n` exactly when each does. */
  lemma {:induction false} SimulateMasked(k: Packet, n: nat, s: Stmt, d: Site, p: PState, ts: seq<S.State>)
    requires IsLoop(s) && LoopOk(k, s, d) && d.divergentCF && d.inLoop
    requires k.width > 0 && WellShaped(k, p) && |ts| == k.width && SeededMasked(k, n, s, d.seen, p)
    requires forall l | 0 <= l < k.width && p.la[l] :: Rel(k, p, l, ts[l], d.scope)
    ensures LoopSimulated(k, p, d.scope, RunMasked(k, n, s, d.seen, p), LoopResults(k, n, s, ts))
    decreases n, s, 0, 2
  {
    var rs, cm := LoopResults(k, n, s, ts), CondMask(k, s.cond, p.mem);
    var na := And(p.la, cm);
    TestMask(k, s, d.scope, p, ts);
    if !Any(na) {
      ExitSimulated(k, n, s, d.scope, p, ts);
    } else if n == 0 {
      var l :| 0 <= l < k.width && na[l];
      assert !rs[l].Done?;
    } else {
      var b := p.(la := na).(em := na);
      assert b == p.(la := na, em := na);
      BodyEntry(k, d, p, na, ts);
      Simulate(k, n, s.body, d, na, b, ts);
      ScopeGrows(s.body, d.scope);
      var x, xs := Run(k, n, s.body, d.seen, na, b), Results(k, n, s.body, ts);
      AllLanesIterate(k, n, s, ts);
      var ys := StepResults(k, n, s, Resume(ts, xs));
      var zs := LoopResults(k, n - 1, s, Resume(Resume(ts, xs), ys));
      if x.Timeout? {
        BodyTimesOut(k, p, cm, d.scope, ScopeAfter(s.body, d.scope), ts, xs, ys, zs, rs);
      } else {
        var q := x.p.(em := AllLanes(k.width));
        AfterBody(k, p, x.p, cm, d.scope, ScopeAfter(s.body, d.scope), xs);
        SimulateRest(k, n, s, d, p, q, cm, ts, xs);
      }
    }
  }

  /** The increment and the remaining iterations of a masked loop. */
  lemma {:induction false} SimulateRest(k: Packet, n: nat, s: Stmt, d: Site, p: PState, q: PState, cm: Mask,
                                        ts: seq<S.State>, xs: seq<S.Result>)
    requires IsLoop(s) && LoopOk(k, s, d) && d.divergentCF && d.inLoop && n > 0
    requires k.width > 0 && WellShaped(k, p) && WellShaped(k, q) && |ts| == |cm| == |xs| == k.width
    requires forall l | 0 <= l < k.width && p.la[l] ::
               Rel(k, p, l, ts[l], d.scope) && cm[l] == k.o.truth(S.Eval(k.o, s.cond, ts[l].vars))
    requires xs == Results(k, n, s.body, ts)
    requires BodyDone(k, p, q, cm, d.scope, xs) && q.em == AllLanes(k.width) && SeededRest(k, n, s, d.seen, q.la, q)
    ensures
      var y := RunStep(k, n, s, d.seen + Assigned(s.body), q.la, q);
      LoopSimulated(k, p, d.scope, if y.Timeout? then y else RunMasked(k, n - 1, s, d.seen, y.p), LoopResults(k, n, s, ts))
    decreases n, s, 0, 1
  {
    var e, us := d.(seen := d.seen + Assigned(s.body)), Resume(ts, xs);
    var ys := StepResults(k, n, s, us);
    StepEntry(k, e, p, q, cm, ts, xs);
    SimulateStep(k, n, s, e, q.la, q, us);
    var y := RunStep(k, n, s, e.seen, q.la, q);
    if y.Timeout? {
      AllLanesIterate(k, n, s, ts);
      StepTimesOut(k, p, q, cm, d.scope, ts, xs, ys, LoopResults(k, n - 1, s, Resume(us, ys)), LoopResults(k, n, s, ts));
    } else {
      AfterStep(k, p, q, y.p, cm, d.scope, xs, ys);
      SimulateNext(k, n, s, d, p, y.p, cm, ts, xs, ys, RunMasked(k, n - 1, s, d.seen, y.p));
    }
  }

  /** The remaining iterations, after body and increment. */
  lemma {:induction false} SimulateNext(k: Packet, n: nat, s: Stmt, d: Site, p: PState, y: PState, cm: Mask,
                                        ts: seq<S.State>, xs: seq<S.Result>, ys: seq<S.Result>, r: Outcome)
    requires IsLoop(s) && LoopOk(k, s, d) && d.divergentCF && d.inLoop && n > 0
    requires k.width > 0 && WellShaped(k, p) && WellShaped(k, y) && |ts| == |cm| == |xs| == |ys| == k.width
    requires forall l | 0 <= l < k.width && p.la[l] ::
               Rel(k, p, l, ts[l], d.scope) && cm[l] == k.o.truth(S.Eval(k.o, s.cond, ts[l].vars))
    requires xs == Results(k, n, s.body, ts) && ys == StepResults(k, n, s, Resume(ts, xs))
    requires StepDone(k, p, y, cm, d.scope, xs, ys) && r == RunMasked(k, n - 1, s, d.seen, y) && SeededMasked(k, n - 1, s, d.seen, y)
    requires r.Ran? ==> WellShaped(k, r.p)
    ensures LoopSimulated(k, p, d.scope, r, LoopResults(k, n, s, ts))
    decreases n, s, 0, 0
  {
    var vs := Resume(Resume(ts, xs), ys);
    EnteredIterate(k, n, s, p.la, cm, ts, xs, ys);
    NextEntry(k, d.scope, p, y, cm, Resume(ts, xs), xs, ys);
    SimulateMasked(k, n - 1, s, d, y, vs);
    AfterRest(k, p, y, r, cm, d.scope, ts, xs, ys, LoopResults(k, n - 1, s, vs), LoopResults(k, n, s, ts));
  }

  lemma EnteredIterate(k: Packet, n: nat, s: Stmt, la: Mask, cm: Mask, ts: seq<S.State>, xs: seq<S.Result>, ys: seq<S.Result>)
    requires IsLoop(s) && n > 0 && |la| == |cm| == |ts|
    requires forall l | 0 <= l < |ts| && la[l] :: cm[l] == k.o.truth(S.Eval(k.o, s.cond, ts[l].vars))
    requires xs == Results(k, n, s.body, ts) && ys == StepResults(k, n, s, Resume(ts, xs))
    ensures
      var zs := LoopResults(k, n - 1, s, Resume(Resume(ts, xs), ys));
      forall l | 0 <= l < |ts| && la[l] :: LoopResults(k, n, s, ts)[l] == Iteration(cm[l], ts[l], xs[l], ys[l], zs[l])
  {
    AllLanesIterate(k, n, s, ts);
  }

  lemma AllLanesIterate(k: Packet, n: nat, s: Stmt, ts: seq<S.State>)
    requires IsLoop(s) && n > 0
    ensures
      var xs := Results(k, n, s.body, ts);
      var ys := StepResults(k, n, s, Resume(ts, xs));
      var zs := LoopResults(k, n - 1, s, Resume(Resume(ts, xs), ys));
      forall l | 0 <= l < |ts| ::
        LoopResults(k, n, s, ts)[l] ==
        Iteration(k.o.truth(S.Eval(k.o, s.cond, ts[l].vars)), ts[l], xs[l], ys[l], zs[l])
  {
    var xs := Results(k, n, s.body, ts);
    var ys := StepResults(k, n, s, Resume(ts, xs));
    var zs := LoopResults(k, n - 1, s, Resume(Resume(ts, xs), ys));
    forall l | 0 <= l < |ts|
      ensures LoopResults(k, n, s, ts)[l] ==
              Iteration(k.o.truth(S.Eval(k.o, s.cond, ts[l].vars)), ts[l], xs[l], ys[l], zs[l])
    {
      LoopResultsIterate(k, n, s, ts, l);
    }
  }

  lemma TestMask(k: Packet, s: Stmt, scope: set<Name>, p: PState, ts: seq<S.State>)
    requires IsLoop(s) && ExprScoped(s.cond, scope) && WellShaped(k, p) && |ts| == k.width
    requires forall l | 0 <= l < k.width && p.la[l] :: Rel(k, p, l, ts[l], scope)
    ensures forall l | 0 <= l < k.width && p.la[l] ::
              CondMask(k, s.cond, p.mem)[l] == k.o.truth(S.Eval(k.o, s.cond, ts[l].vars))
  {
    forall l | 0 <= l < k.width && p.la[l]
      ensures CondMask(k, s.cond, p.mem)[l] == k.o.truth(S.Eval(k.o, s.cond, ts[l].vars))
    {
      EvalAgrees(k, s.cond, p, l, ts[l], scope);
    }
  }

  lemma ExitSimulated(k: Packet, n: nat, s: Stmt, scope: set<Name>, p: PState, ts: seq<S.State>)
    requires IsLoop(s) && WellShaped(k, p) && |ts| == k.width
    requires forall l | 0 <= l < k.width && p.la[l] ::
               Rel(k, p, l, ts[l], scope) && CondMask(k, s.cond, p.mem)[l] == k.o.truth(S.Eval(k.o, s.cond, ts[l].vars))
    requires !Any(And(p.la, CondMask(k, s.cond, p.mem)))
    ensures LoopSimulated(k, p, scope, Ran(p.(la := And(p.la, CondMask(k, s.cond, p.mem)))), LoopResults(k, n, s, ts))
  {
    var na := And(p.la, CondMask(k, s.cond, p.mem));
    var h, rs := p.(la := na), LoopResults(k, n, s, ts);
    forall l | 0 <= l < k.width
      ensures p.la[l] ==> rs[l].Done?
      ensures LoopPost(k, p, h, l, scope, rs[l])
    {
      assert !na[l];
    }
  }

  lemma BodyEntry(k: Packet, d: Site, p: PState, na: Mask, ts: seq<S.State>)
    requires k.width > 0 && WellShaped(k, p) && |ts| == |na| == k.width && d.divergentCF
    requires forall l | 0 <= l < k.width && na[l] :: Rel(k, p, l, ts[l], d.scope)
    ensures Start(k, d, na, p.(la := na, em := na), ts)
  {
    var b := p.(la := na, em := na);
    forall l | 0 <= l < k.width && na[l] ensures Rel(k, b, l, ts[l], d.scope) {
      assert Rel(k, p, l, ts[l], d.scope);
    }
  }

  lemma StepEntry(k: Packet, e: Site, p: PState, q: PState, cm: Mask, ts: seq<S.State>, xs: seq<S.Result>)
    requires k.width > 0 && WellShaped(k, p) && WellShaped(k, q) && |ts| == |cm| == |xs| == k.width && e.divergentCF
    requires BodyDone(k, p, q, cm, e.scope, xs) && q.em == AllLanes(k.width)
    ensures Start(k, e, q.la, q, Resume(ts, xs))
  {
  }

  lemma NextEntry(k: Packet, scope: set<Name>, p: PState, y: PState, cm: Mask, us: seq<S.State>,
                  xs: seq<S.Result>, ys: seq<S.Result>)
    requires WellShaped(k, p) && WellShaped(k, y) && |us| == |cm| == |xs| == |ys| == k.width
    requires StepDone(k, p, y, cm, scope, xs, ys)
    ensures forall l | 0 <= l < k.width && y.la[l] :: Rel(k, y, l, Resume(us, ys)[l], scope)
  {
  }

  /** A uniform loop tests lane 0 for everyone: all lanes iterate together. */
  lemma {:induction false} SimulateUniform(k: Packet, n: nat, s: Stmt, d: Site, m: Mask, p: PState, ts: seq<S.State>)
    requires IsLoop(s) && LoopOk(k, s, d) && !d.divergentCF && !d.inLoop && Start(k, d, m, p, ts)
    requires IsUniform(k.io, k.plan.divergent, s.cond) && SeededUniform(k, n, s, d.seen, m, p)
    ensures Simulated(k, p, m, d.scope, d.scope, RunUniform(k, n, s, d.seen, m, p), LoopResults(k, n, s, ts))
    decreases n, s, 0, 2
  {
    var rs, cm := LoopResults(k, n, s, ts), CondMask(k, s.cond, p.mem);
    UniformTest(k, s, d, m, p, ts);
    if !cm[0] {
      IdleSimulated(k, p, m, d.scope, ts);
      assert rs == Idle(ts);
    } else if n == 0 {
      assert m[0] && p.em[0] && !rs[0].Done?;
    } else {
      var x, xs := Run(k, n, s.body, d.seen, m, p), Results(k, n, s.body, ts);
      var e, us := d.(seen := d.seen + Assigned(s.body)), Resume(ts, xs);
      var ys := StepResults(k, n, s, us);
      var vs := Resume(us, ys);
      var zs := LoopResults(k, n - 1, s, vs);
      Simulate(k, n, s.body, d, m, p, ts);
      ScopeGrows(s.body, d.scope);
      SimulatedWeaken(k, p, m, d.scope, ScopeAfter(s.body, d.scope), d.scope, x, xs);
      UniformChain(k, n, s, ts);
      if x.Timeout? {
        ChainTimesOut(k, p, m, d.scope, d.scope, d.scope, xs, Chain(ys, zs));
      } else {
        EscapeFree(s.body);
        ResumeStart(k, n, s.body, d, m, p, x.p, ts);
        StartWeaken(k, SiteAfter(s.body, d), e, m, x.p, us);
        SimulateUniformRest(k, n, s, d, m, x.p, us);
        var y := RunStep(k, n, s, e.seen, m, x.p);
        ChainSimulated(k, p, x.p, m, d.scope, d.scope, d.scope,
                       if y.Timeout? then y else RunUniform(k, n - 1, s, d.seen, m, y.p), xs, Chain(ys, zs));
      }
    }
  }

  /** The increment and the remaining iterations of a uniform loop. */
  lemma {:induction false} SimulateUniformRest(k: Packet, n: nat, s: Stmt, d: Site, m: Mask, x: PState, us: seq<S.State>)
    requires IsLoop(s) && LoopOk(k, s, d) && !d.divergentCF && !d.inLoop && n > 0
    requires Start(k, d.(seen := d.seen + Assigned(s.body)), m, x, us)
    requires IsUniform(k.io, k.plan.divergent, s.cond) && SeededUniformRest(k, n, s, d.seen, m, x)
    ensures
      var y, ys := RunStep(k, n, s, d.seen + Assigned(s.body), m, x), StepResults(k, n, s, us);
      Simulated(k, x, m, d.scope, d.scope, if y.Timeout? then y else RunUniform(k, n - 1, s, d.seen, m, y.p),
                Chain(ys, LoopResults(k, n - 1, s, Resume(us, ys))))
    decreases n, s, 0, 1
  {
    var e, ys := d.(seen := d.seen + Assigned(s.body)), StepResults(k, n, s, us);
    var vs := Resume(us, ys);
    var zs := LoopResults(k, n - 1, s, vs);
    SimulateStep(k, n, s, e, m, x, us);
    var y := RunStep(k, n, s, e.seen, m, x);
    if y.Timeout? {
      ChainTimesOut(k, x, m, d.scope, d.scope, d.scope, ys, zs);
    } else {
      ThroughStart(k, e, d, m, x, y.p, us, ys);
      SimulateUniform(k, n - 1, s, d, m, y.p, vs);
      ChainSimulated(k, x, y.p, m, d.scope, d.scope, d.scope, RunUniform(k, n - 1, s, d.seen, m, y.p), ys, zs);
    }
  }

  lemma UniformTest(k: Packet, s: Stmt, d: Site, m: Mask, p: PState, ts: seq<S.State>)
    requires IsLoop(s) && ExprScoped(s.cond, d.scope) && !d.divergentCF && Start(k, d, m, p, ts)
    requires IsUniform(k.io, k.plan.divergent, s.cond)
    ensures forall l | 0 <= l < k.width ::
              CondMask(k, s.cond, p.mem)[0] == k.o.truth(S.Eval(k.o, s.cond, ts[l].vars))
  {
    forall l | 0 <= l < k.width
      ensures CondMask(k, s.cond, p.mem)[0] == k.o.truth(S.Eval(k.o, s.cond, ts[l].vars))
    {
      UniformValue(k, s.cond, p.mem, l);
      EvalAgrees(k, s.cond, p, l, ts[l], d.scope);
    }
  }

  /** Lanes that pass the test and cannot escape run body, increment and the rest in sequence. */
  lemma UniformChain(k: Packet, n: nat, s: Stmt, ts: seq<S.State>)
    requires IsLoop(s) && n > 0 && WellFormed(s.body, false)
    requires Step(s).Some? ==> WellFormed(Step(s).value, false)
    requires forall l | 0 <= l < |ts| :: k.o.truth(S.Eval(k.o, s.cond, ts[l].vars))
    ensures
      var xs := Results(k, n, s.body, ts);
      var us := Resume(ts, xs);
      var ys := StepResults(k, n, s, us);
      LoopResults(k, n, s, ts) == Chain(xs, Chain(ys, LoopResults(k, n - 1, s, Resume(us, ys))))
  {
    var xs := Results(k, n, s.body, ts);
    var us := Resume(ts, xs);
    var ys := StepResults(k, n, s, us);
    var zs := LoopResults(k, n - 1, s, Resume(us, ys));
    EscapeFree(s.body);
    NoEscapeAnywhere(s.body);
    forall l | 0 <= l < |ts| ensures LoopResults(k, n, s, ts)[l] == Chain(xs, Chain(ys, zs))[l] {
      RunsThrough(k.o, n, s.body, ts[l]);
      LoopResultsIterate(k, n, s, ts, l);
    }
  }

  lemma StartWeaken(k: Packet, c: Site, e: Site, m: Mask, p: PState, ts: seq<S.State>)
    requires Start(k, c, m, p, ts) && e.scope <= c.scope
    requires e.divergentCF == c.divergentCF
    ensures Start(k, e, m, p, ts)
  {
  }

  lemma ThroughStart(k: Packet, e: Site, d: Site, m: Mask, x: PState, y: PState, us: seq<S.State>, ys: seq<S.Result>)
    requires Start(k, e, m, x, us) && !e.divergentCF && e.scope == d.scope && !d.divergentCF
    requires WellShaped(k, y) && |ys| == k.width
    requires Simulated(k, x, m, e.scope, e.scope, Ran(y), ys)
    requires forall l | 0 <= l < k.width && ys[l].Done? :: ys[l].flow.Normal?
    ensures Start(k, d, m, y, Resume(us, ys))
  {
    forall l | 0 <= l < k.width ensures m[l] && y.em[l] && Rel(k, y, l, Resume(us, ys)[l], d.scope) {
      assert LanePost(k, x, y, m, l, e.scope, e.scope, ys[l]);
    }
  }
}
