/** What the uniformity analysis decides, site by site of the flat text. */
module UniformSites {
  import opened ShaderAst
  import opened Uniformity
  import opened ProgramText
  import opened UniformRuns
  import S = ScalarSemantics

  // ---- expressions ----

  /** No conversion, nothing unknown, and every name it reads is neither of the stage nor marked. */
  ghost predicate LaneFree(io: Interface, d: set<Name>, e: Expr) {
    && (forall p | p in Parts(e) :: !p.Cast? && !p.Unsupported?)
    && (forall x | x in Names(e) :: x !in io.inputs && x !in io.outputs && x !in d)
  }

  /** The same of one part. */
  predicate FreePart(io: Interface, d: set<Name>, p: Expr) {
    !p.Cast? && !p.Unsupported? && (p.Var? ==> p.name !in io.inputs && p.name !in io.outputs && p.name !in d)
  }

  ghost predicate AllFree(io: Interface, d: set<Name>, ps: set<Expr>) {
    forall p | p in ps :: FreePart(io, d, p)
  }

  lemma LaneFreeParts(io: Interface, d: set<Name>, e: Expr)
    ensures LaneFree(io, d, e) <==> AllFree(io, d, Parts(e))
  {
    if LaneFree(io, d, e) {
      forall p | p in Parts(e) ensures FreePart(io, d, p) {
        if p.Var? { assert p.name in Names(e); }
      }
    }
    if AllFree(io, d, Parts(e)) {
      forall x | x in Names(e) ensures x !in io.inputs && x !in io.outputs && x !in d {
        var p :| p in Parts(e) && p.Var? && p.name == x;
        assert FreePart(io, d, p);
      }
      forall p | p in Parts(e) ensures !p.Cast? && !p.Unsupported? { assert FreePart(io, d, p); }
    }
  }

  /** isUniformExpr says so exactly of those. */
  lemma UniformIff(io: Interface, d: set<Name>, e: Expr)
    ensures IsUniform(io, d, e) <==> LaneFree(io, d, e)
  {
    UniformParts(io, d, e);
    LaneFreeParts(io, d, e);
  }

  lemma {:induction false} UniformParts(io: Interface, d: set<Name>, e: Expr)
    ensures IsUniform(io, d, e) <==> AllFree(io, d, Parts(e))
  {
    match e
    case Apply(_, args) => ArgumentsFree(io, d, e, args);
    case Call(_, args) => ArgumentsFree(io, d, e, args);
    case Ternary(c, t, f) =>
      UniformParts(io, d, c);
      UniformParts(io, d, t);
      UniformParts(io, d, f);
      BothFree(io, d, {e}, Parts(c));
      BothFree(io, d, {e} + Parts(c), Parts(t));
      BothFree(io, d, {e} + Parts(c) + Parts(t), Parts(f));
    case Cast(_, _) => assert e in Parts(e) && !FreePart(io, d, e);
    case _ => assert Parts(e) == {e} && e in {e};
  }

  lemma BothFree(io: Interface, d: set<Name>, ps: set<Expr>, qs: set<Expr>)
    ensures AllFree(io, d, ps + qs) <==> AllFree(io, d, ps) && AllFree(io, d, qs)
  {
    forall p | p in qs ensures p in ps + qs {}
  }

  lemma {:induction false} ArgumentsFree(io: Interface, d: set<Name>, e: Expr, args: seq<Expr>)
    requires (e.Apply? || e.Call?) && args == e.args
    ensures AllFree(io, d, {e} + PartsAll(args)) <==> forall i | 0 <= i < |args| :: IsUniform(io, d, args[i])
  {
    forall i | 0 <= i < |args| ensures IsUniform(io, d, args[i]) <==> AllFree(io, d, Parts(args[i])) { UniformParts(io, d, args[i]); }
    if forall i | 0 <= i < |args| :: IsUniform(io, d, args[i]) {
      forall p | p in {e} + PartsAll(args) ensures FreePart(io, d, p) {
        if p != e { var i :| 0 <= i < |args| && p in Parts(args[i]); }
      }
    }
    if AllFree(io, d, {e} + PartsAll(args)) {
      forall i | 0 <= i < |args| ensures AllFree(io, d, Parts(args[i])) {
        forall p | p in Parts(args[i]) ensures p in {e} + PartsAll(args) {}
      }
    }
  }

  // ---- what it means ----

  /** Two invocations that agree on the unmarked names give the expression two values. */
  ghost predicate TellsApart(io: Interface, d: set<Name>, e: Expr, o: Ops, t: S.State, u: S.State) {
    Agree(o, io, d, t, u) && S.Eval(o, e, t.vars) != S.Eval(o, e, u.vars)
  }

  predicate Straight(e: Expr) {
    forall p | p in Parts(e) :: !p.Ternary?
  }

  /** An expression that reads a marked name, or one of the stage, can differ between invocations; it is so exactly for
      these, as long as it has no arms that may go unread. */
  lemma DependsIff(io: Interface, d: set<Name>, e: Expr)
    requires Straight(e)
    ensures (exists o, t, u :: TellsApart(io, d, e, o, t, u)) <==> exists x :: x in Names(e) && !UniformName(io, d, x)
  {
    if x :| x in Names(e) && !UniformName(io, d, x) {
      var t, u := S.State(map[], true), S.State(map[x := ONE], true);
      JoinedDiffers(e, x);
      assert TellsApart(io, d, e, JOIN, t, u);
    }
    if o, t, u :| TellsApart(io, d, e, o, t, u) {
      if forall x | x in Names(e) :: UniformName(io, d, x) { ReadsDecide(o, e, t.vars, u.vars); }
    }
  }

  /** The value of an expression depends on the names it reads only. */
  lemma {:induction false} ReadsDecide(o: Ops, e: Expr, t: S.Store, u: S.Store)
    requires forall x | x in Names(e) :: S.Read(o, t, x) == S.Read(o, u, x)
    ensures S.Eval(o, e, t) == S.Eval(o, e, u)
    decreases e, 1
  {
    match e
    case Var(x) => assert x in Names(e);
    case Apply(_, args) => ReadsDecideAll(o, e, args, t, u);
    case Call(_, args) => ReadsDecideAll(o, e, args, t, u);
    case Ternary(c, f, g) =>
      assert forall x :: x in Names(c) || x in Names(f) || x in Names(g) ==> x in Names(e);
      ReadsDecide(o, c, t, u);
      ReadsDecide(o, f, t, u);
      ReadsDecide(o, g, t, u);
    case Cast(_, a) =>
      assert forall x :: x in Names(a) ==> x in Names(e);
      ReadsDecide(o, a, t, u);
    case _ =>
  }

  lemma {:induction false} ReadsDecideAll(o: Ops, e: Expr, args: seq<Expr>, t: S.Store, u: S.Store)
    requires (e.Apply? || e.Call?) && args == e.args
    requires forall x | x in Names(e) :: S.Read(o, t, x) == S.Read(o, u, x)
    ensures S.EvalAll(o, args, t) == S.EvalAll(o, args, u)
    decreases e, 0
  {
    forall i | 0 <= i < |args| ensures S.EvalAll(o, args, t)[i] == S.EvalAll(o, args, u)[i] {
      forall x | x in Names(args[i]) ensures x in Names(e) { NameOfArgument(e, i, x); }
      ReadsDecide(o, args[i], t, u);
    }
  }

  lemma NameOfArgument(e: Expr, i: nat, x: Name)
    requires (e.Apply? || e.Call?) && i < |e.args| && x in Names(e.args[i])
    ensures x in Names(e)
  {
    var p :| p in Parts(e.args[i]) && p.Var? && p.name == x;
    assert p in PartsAll(e.args);
  }

  // ---- operations that keep everything they are given ----

  const ONE := Val([1.0])

  function Flat(vs: seq<Val>): seq<real> {
    if vs == [] then [] else vs[0].comps + Flat(vs[1..])
  }

  const JOIN := Ops((op: string, vs: seq<Val>) => Val(Flat(vs)), (v: Val) => true, (x: Name) => Val([0.0]))

  predicate SameSize(v: Val, w: Val) {
    |v.comps| == |w.comps|
  }

  lemma {:induction false} FlatDistinguishes(vs: seq<Val>, ws: seq<Val>)
    requires |vs| == |ws| && forall i | 0 <= i < |vs| :: SameSize(vs[i], ws[i])
    ensures |Flat(vs)| == |Flat(ws)| && (Flat(vs) == Flat(ws) ==> vs == ws)
  {
    if vs != [] {
      FlatDistinguishes(vs[1..], ws[1..]);
      if Flat(vs) == Flat(ws) {
        assert vs[0].comps == Flat(vs)[..|vs[0].comps|] && ws[0].comps == Flat(ws)[..|ws[0].comps|];
        assert Flat(vs[1..]) == Flat(vs)[|vs[0].comps|..] && Flat(ws[1..]) == Flat(ws)[|ws[0].comps|..];
        assert vs == [vs[0]] + vs[1..] && ws == [ws[0]] + ws[1..];
      }
    }
  }

  /** Values in the store without and with `x`. */
  ghost predicate Differs(e: Expr, x: Name) {
    var v, w := S.Eval(JOIN, e, map[]), S.Eval(JOIN, e, map[x := ONE]);
    SameSize(v, w) && (x in Names(e) ==> v != w)
  }

  lemma {:induction false} JoinedDiffers(e: Expr, x: Name)
    requires Straight(e)
    ensures Differs(e, x)
    decreases e, 1
  {
    match e
    case Var(y) =>
      assert JOIN.zero(y).comps[0] != ONE.comps[0];
      assert Names(e) == {y};
    case Apply(_, args) => ArgumentsDiffer(e, args, x);
    case Call(_, args) => ArgumentsDiffer(e, args, x);
    case Cast(_, a) =>
      assert forall p | p in Parts(a) :: p in Parts(e);
      JoinedDiffers(a, x);
      var v, w := S.Eval(JOIN, a, map[]), S.Eval(JOIN, a, map[x := ONE]);
      FlatDistinguishes([v], [w]);
      assert Names(e) == Names(a);
    case _ =>
  }

  lemma {:induction false} ArgumentsDiffer(e: Expr, args: seq<Expr>, x: Name)
    requires (e.Apply? || e.Call?) && args == e.args && Straight(e)
    ensures Differs(e, x)
    decreases e, 0
  {
    var vs, ws := S.EvalAll(JOIN, args, map[]), S.EvalAll(JOIN, args, map[x := ONE]);
    forall i | 0 <= i < |args| ensures SameSize(vs[i], ws[i]) && (x in Names(args[i]) ==> vs[i] != ws[i]) {
      forall p | p in Parts(args[i]) ensures p in Parts(e) { assert p in PartsAll(args); }
      JoinedDiffers(args[i], x);
    }
    FlatDistinguishes(vs, ws);
    if x in Names(e) {
      var p :| p in Parts(e) && p.Var? && p.name == x;
      var i :| 0 <= i < |args| && p in Parts(args[i]);
      assert x in Names(args[i]);
    }
  }

  // ---- statements ----

  /** Not all lanes come here: an arm of an `if`, or a loop that the plan does not keep uniform, is around. */
  predicate Divergent(p: Plan, trail: seq<Frame>) {
    exists f | f in trail :: f.Arm? || f.id !in p.loops
  }

  /** What the plan has to do about one event: mark what is assigned in divergent control flow or from lane-dependent
      values, and keep a loop uniform exactly when all lanes come to it, its test is lane-independent, and no break or
      continue belongs to it. `least` asks for the first half of the latter only. */
  ghost predicate Settled(io: Interface, p: Plan, cf: bool, ev: Event, least: bool) {
    var divergent := cf || Divergent(p, ev.trail);
    match ev.word
    case Sets(x, v) => divergent || !LaneFree(io, p.divergent, v) ==> x in p.divergent
    case Loops(id, test, body, _) =>
      var uniform := !divergent && LaneFree(io, p.divergent, test) && !OwnEscape(Text(body));
      (id in p.loops ==> uniform) && (least || (uniform ==> id in p.loops))
    case _ => true
  }

  ghost predicate AllSettled(io: Interface, p: Plan, cf: bool, t: seq<Event>, least: bool) {
    forall i | 0 <= i < |t| :: Settled(io, p, cf, t[i], least)
  }

  lemma SettledJoin(io: Interface, p: Plan, cf: bool, a: seq<Event>, b: seq<Event>, least: bool)
    ensures AllSettled(io, p, cf, a + b, least) <==> AllSettled(io, p, cf, a, least) && AllSettled(io, p, cf, b, least)
  {
    if AllSettled(io, p, cf, a + b, least) {
      forall i | 0 <= i < |a| ensures Settled(io, p, cf, a[i], least) { assert a[i] == (a + b)[i]; }
      forall i | 0 <= i < |b| ensures Settled(io, p, cf, b[i], least) { assert b[i] == (a + b)[|a| + i]; }
    }
  }

  lemma SettledInside(io: Interface, p: Plan, cf: bool, f: Frame, t: seq<Event>, least: bool)
    ensures AllSettled(io, p, cf, Inside(f, t), least) <==> AllSettled(io, p, cf || f.Arm? || f.id !in p.loops, t, least)
  {
    var u := Inside(f, t);
    forall i | 0 <= i < |t|
      ensures Settled(io, p, cf, u[i], least) <==> Settled(io, p, cf || f.Arm? || f.id !in p.loops, t[i], least)
    {
      DivergentInside(p, f, t[i].trail);
    }
  }

  lemma DivergentInside(p: Plan, f: Frame, trail: seq<Frame>)
    ensures Divergent(p, [f] + trail) <==> f.Arm? || f.id !in p.loops || Divergent(p, trail)
  {
    assert f in [f] + trail;
    forall g | g in trail ensures g in [f] + trail {}
  }

  /** Justified, or Decided. */
  ghost predicate Judged(io: Interface, s: Stmt, cf: bool, p: Plan, least: bool) {
    if least then Justified(io, s, cf, p) else Decided(io, s, cf, p)
  }

  /** Both judgements are decisions on each site. */
  lemma {:induction false} JudgedIff(io: Interface, s: Stmt, cf: bool, p: Plan, least: bool)
    requires WellFormed(s, true)
    ensures Judged(io, s, cf, p, least) <==> AllSettled(io, p, cf, Text(s), least)
    decreases s, 1
  {
    match s
    case Block(ss) =>
      JudgedAllIff(io, ss, cf, p, least);
    case Assign(x, v) => AssignJudged(io, x, v, cf, p, least);
    case If(_, _, _) => JudgedIfIff(io, s, cf, p, least);
    case For(_, pre, _, _, _) =>
      JudgedIff(io, pre, cf, p, least);
      JudgedLoopIff(io, s, cf, p, least);
      SettledJoin(io, p, cf, Text(pre), LoopText(s), least);
    case While(_, _, _) => JudgedLoopIff(io, s, cf, p, least);
    case _ =>
  }

  lemma AssignJudged(io: Interface, x: Name, v: Expr, cf: bool, p: Plan, least: bool)
    ensures Judged(io, Assign(x, v), cf, p, least) <==> AllSettled(io, p, cf, [Event(Reads(v), []), Event(Sets(x, v), [])], least)
  {
    var t := [Event(Reads(v), []), Event(Sets(x, v), [])];
    UniformIff(io, p.divergent, v);
    assert Settled(io, p, cf, t[0], least) && !Divergent(p, t[1].trail);
  }

  lemma {:induction false} JudgedAllIff(io: Interface, ss: seq<Stmt>, cf: bool, p: Plan, least: bool)
    requires forall i | 0 <= i < |ss| :: WellFormed(ss[i], true)
    ensures Judged(io, Block(ss), cf, p, least) <==> AllSettled(io, p, cf, TextAll(ss), least)
    decreases ss, 0
  {
    if ss != [] {
      JudgedIff(io, ss[0], cf, p, least);
      JudgedAllIff(io, ss[1..], cf, p, least);
      SettledJoin(io, p, cf, Text(ss[0]), TextAll(ss[1..]), least);
      BlockJudged(io, ss, cf, p, least);
    }
  }

  lemma BlockJudged(io: Interface, ss: seq<Stmt>, cf: bool, p: Plan, least: bool)
    requires ss != []
    ensures Judged(io, Block(ss), cf, p, least) <==> Judged(io, ss[0], cf, p, least) && Judged(io, Block(ss[1..]), cf, p, least)
  {
    assert forall i | 0 <= i < |ss[1..]| :: ss[1..][i] == ss[i + 1];
    assert forall i | 0 < i < |ss| :: ss[i] == ss[1..][i - 1];
  }

  lemma {:induction false} JudgedIfIff(io: Interface, s: Stmt, cf: bool, p: Plan, least: bool)
    requires s.If? && WellFormed(s, true)
    ensures Judged(io, s, cf, p, least) <==> AllSettled(io, p, cf, Text(s), least)
    decreases s, 0
  {
    JudgedIff(io, s.thn, true, p, least);
    SettledInside(io, p, cf, Arm, Text(s.thn), least);
    var u := if s.els.Some? then Inside(Arm, Text(s.els.value)) else [];
    if s.els.Some? {
      JudgedIff(io, s.els.value, true, p, least);
      SettledInside(io, p, cf, Arm, Text(s.els.value), least);
    }
    SettledJoin(io, p, cf, Inside(Arm, Text(s.thn)), u, least);
    SettledJoin(io, p, cf, [Event(Reads(s.cond), [])], Inside(Arm, Text(s.thn)) + u, least);
  }

  /** A loop's decision, its body and its increment. */
  lemma {:induction false} JudgedLoopIff(io: Interface, s: Stmt, cf: bool, p: Plan, least: bool)
    requires IsLoop(s) && WellFormed(s, true)
    ensures Judged(io, s, cf, p, least) <==>
              && (s.For? ==> Judged(io, s.pre, cf, p, least)) && AllSettled(io, p, cf, LoopText(s), least)
    decreases s, 0
  {
    var cf' := cf || s.id !in p.loops;
    var head := [Event(Reads(s.cond), []), Event(Loops(s.id, s.cond, s.body, Heads(s)), [])];
    LoopHeadIff(io, s, cf, p, least);
    JudgedIff(io, s.body, s.id !in p.loops, p, least);
    SettledInside(io, p, cf, Round(s.id), Text(s.body), least);
    if Step(s).Some? {
      JudgedIff(io, Step(s).value, s.id !in p.loops, p, least);
      SettledInside(io, p, cf, After(s.id), Text(Step(s).value), least);
    }
    SettledJoin(io, p, cf, Inside(Round(s.id), Text(s.body)), StepText(s), least);
    SettledJoin(io, p, cf, head, Inside(Round(s.id), Text(s.body)) + StepText(s), least);
  }

  lemma LoopHeadIff(io: Interface, s: Stmt, cf: bool, p: Plan, least: bool)
    requires IsLoop(s) && WellFormed(s, true)
    ensures
      var u := UniformLoop(io, p.divergent, cf, s);
      AllSettled(io, p, cf, [Event(Reads(s.cond), []), Event(Loops(s.id, s.cond, s.body, Heads(s)), [])], least) <==>
        (s.id in p.loops ==> u) && (least || (u ==> s.id in p.loops))
  {
    var t := [Event(Reads(s.cond), []), Event(Loops(s.id, s.cond, s.body, Heads(s)), [])];
    UniformIff(io, p.divergent, s.cond);
    BreakOrContinueIff(s.body);
    assert Settled(io, p, cf, t[0], least) && !Divergent(p, t[1].trail);
  }
}
