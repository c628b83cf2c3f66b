/** The two back ends agree: a lane of the vector code does what the graph of the scalar code does. */
module BackEnds {
  import opened ShaderAst
  import opened PacketSemantics
  import opened VectorCode
  import opened PacketEmitter
  import opened EmitterCorrectness
  import opened PacketCompiler
  import opened ControlFlowIteration
  import opened ControlFlowCorrectness
  import opened ControlFlowSimulation
  import S = ScalarSemantics
  import C = ControlFlow

  // ---- shaders of the packetizer, as the scalar generator sees them ----

  function ToE(e: Expr): C.E {
    match e
    case Const(v) => C.Lit(v)
    case Var(x) => C.Ref(x)
    case Apply(op, args) => C.Op(op, ToEs(args))
    case Call(fn, args) => C.Op(fn, ToEs(args))
    case Ternary(c, t, f) => C.Cond(ToE(c), ToE(t), ToE(f))
    case Cast(op, a) => C.Op(op, [ToE(a)])
    case Unsupported => C.Lit(Val([]))
  }

  function ToEs(es: seq<Expr>): seq<C.E> {
    if es == [] then [] else [ToE(es[0])] + ToEs(es[1..])
  }

  /** An assignment as an expression; a swizzle is inserted into the old value. Headers are assignments. */
  function ToSet(s: Stmt): C.E {
    match s
    case Assign(x, e) => C.Set(x, ToE(e))
    case MemberAssign(x, m, e) => C.Set(x, C.Op("insert." + m, [C.Ref(x), ToE(e)]))
    case _ => C.Lit(Val([]))
  }

  function ToS(s: Stmt): C.S {
    match s
    case Block(ss) => C.Group(ToAll(ss))
    case Assign(_, _) => C.Do(ToSet(s))
    case MemberAssign(_, _, _) => C.Do(ToSet(s))
    case If(c, t, e) => C.Choose(ToE(c), ToS(t), if e.Some? then Some(ToS(e.value)) else None)
    case For(_, p, c, b, i) => C.Loop(Some(ToSet(p)), Some(ToE(c)), ToS(b), if i.Some? then Some(ToSet(i.value)) else None)
    case While(_, c, b) => C.Loop(None, Some(ToE(c)), ToS(b), None)
    case Break => C.Leave
    case Continue => C.Next
    case Discard => C.Kill
    case Other => C.Group([])
  }

  function ToAll(ss: seq<Stmt>): (r: seq<C.S>)
    ensures |r| == |ss| && forall i | 0 <= i < |ss| :: r[i] == ToS(ss[i])
  {
    if ss == [] then [] else [ToS(ss[0])] + ToAll(ss[1..])
  }

  /** The same operations; `f` is how truth values are represented. */
  function SemOf(o: Ops, f: bool -> Val): C.Sem {
    C.Sem(o.apply, o.truth, f, o.zero)
  }

  function ToFlow(f: S.Flow): C.Flow {
    match f
    case Normal => C.Normal
    case Broke => C.Left
    case Continued => C.Nexted
    case Discarded => C.Killed
  }

  function ToOutcome(r: S.Result): C.Outcome {
    match r
    case Timeout => C.Timeout
    case Done(f, st) => C.Done(ToFlow(f), st.vars)
  }

  // ---- both semantics are one ----

  lemma {:induction false} SameValue(o: Ops, f: bool -> Val, e: Expr, st: S.Store)
    ensures C.Value(SemOf(o, f), ToE(e), st) == (S.Eval(o, e, st), st)
    decreases e
  {
    match e
    case Apply(_, args) => SameValues(o, f, args, st);
    case Call(_, args) => SameValues(o, f, args, st);
    case Ternary(c, t, g) =>
      SameValue(o, f, c, st);
      SameValue(o, f, t, st);
      SameValue(o, f, g, st);
    case Cast(_, a) =>
      SameValue(o, f, a, st);
      OneValue(SemOf(o, f), ToE(a), st);
    case _ =>
  }

  lemma OneValue(o: C.Sem, e: C.E, st: S.Store)
    ensures C.Values(o, [e], st) == ([C.Value(o, e, st).0], C.Value(o, e, st).1)
  {
    var a := C.Value(o, e, st);
    assert [e][1..] == [];
    assert C.Values(o, [e], st) == ([a.0] + C.Values(o, [], a.1).0, C.Values(o, [], a.1).1);
    assert C.Values(o, [e], st).0 == [a.0];
  }

  lemma {:induction false} SameValues(o: Ops, f: bool -> Val, es: seq<Expr>, st: S.Store)
    ensures C.Values(SemOf(o, f), ToEs(es), st) == (S.EvalAll(o, es, st), st)
    decreases es
  {
    if es != [] {
      SameValue(o, f, es[0], st);
      SameValues(o, f, es[1..], st);
      assert ToEs(es)[1..] == ToEs(es[1..]);
    }
  }

  lemma SameSet(o: Ops, f: bool -> Val, s: Stmt, stop: bool, n: nat, t: S.State)
    requires IsHeader(s)
    ensures
      var r := S.Exec(o, stop, n, s, t);
      r.Done? && r.flow.Normal? && r.st == t.(vars := r.st.vars) && C.Value(SemOf(o, f), ToSet(s), t.vars).1 == r.st.vars
  {
    match s
    case Assign(_, e) => SameValue(o, f, e, t.vars);
    case MemberAssign(x, m, e) =>
      SameValue(o, f, e, t.vars);
      TwoValues(SemOf(o, f), C.Ref(x), ToE(e), t.vars);
  }

  lemma TwoValues(o: C.Sem, d: C.E, e: C.E, st: S.Store)
    requires C.Value(o, d, st).1 == st
    ensures C.Values(o, [d, e], st) == ([C.Value(o, d, st).0, C.Value(o, e, st).0], C.Value(o, e, st).1)
  {
    var a := C.Value(o, d, st);
    assert [d, e][1..] == [e];
    assert C.Values(o, [d, e], st) == ([a.0] + C.Values(o, [e], a.1).0, C.Values(o, [e], a.1).1);
    OneValue(o, e, st);
    assert C.Values(o, [d, e], st).0 == [a.0, C.Value(o, e, st).0];
  }

  /** The run that stops at `discard`, in both semantics. */
  lemma {:induction false} SameRun(o: Ops, f: bool -> Val, n: nat, s: Stmt, inLoop: bool, t: S.State)
    requires WellFormed(s, inLoop)
    ensures C.Exec(SemOf(o, f), n, ToS(s), t.vars) == ToOutcome(S.Exec(o, true, n, s, t))
    decreases n, s, 1
  {
    match s
    case Block(ss) => SameRunAll(o, f, n, ss, inLoop, t);
    case Assign(_, _) => SameSet(o, f, s, true, n, t);
    case MemberAssign(_, _, _) => SameSet(o, f, s, true, n, t);
    case If(c, thn, els) =>
      SameValue(o, f, c, t.vars);
      SameRun(o, f, n, thn, inLoop, t);
      if els.Some? { SameRun(o, f, n, els.value, inLoop, t); }
    case For(_, p, _, _, _) =>
      SameSet(o, f, p, true, n, t);
      SameLoop(o, f, n, s, S.Exec(o, true, n, p, t).st);
    case While(_, _, _) => SameLoop(o, f, n, s, t);
    case _ =>
  }

  lemma {:induction false} SameRunAll(o: Ops, f: bool -> Val, n: nat, ss: seq<Stmt>, inLoop: bool, t: S.State)
    requires forall i | 0 <= i < |ss| :: WellFormed(ss[i], inLoop)
    ensures C.ExecAll(SemOf(o, f), n, ToAll(ss), t.vars) == ToOutcome(S.ExecAll(o, true, n, ss, t))
    decreases n, ss, 0
  {
    if ss != [] {
      SameRun(o, f, n, ss[0], inLoop, t);
      var r := S.Exec(o, true, n, ss[0], t);
      assert ToAll(ss)[1..] == ToAll(ss[1..]);
      if r.Done? && r.flow.Normal? { SameRunAll(o, f, n, ss[1..], inLoop, r.st); }
    }
  }

  lemma {:induction false} SameLoop(o: Ops, f: bool -> Val, n: nat, s: Stmt, t: S.State)
    requires IsLoop(s) && WellFormed(s, true)
    ensures C.ExecLoop(SemOf(o, f), n, ToS(s), t.vars) == ToOutcome(S.ExecLoop(o, true, n, s, t))
    decreases n, s, 0
  {
    SameValue(o, f, s.cond, t.vars);
    if o.truth(S.Eval(o, s.cond, t.vars)) && n > 0 {
      SameRun(o, f, n, s.body, true, t);
      var r := S.Exec(o, true, n, s.body, t);
      if r.Done? && !r.flow.Discarded? && !r.flow.Broke? {
        var next := r.st;
        if Step(s).Some? {
          SameSet(o, f, Step(s).value, true, n, r.st);
          next := S.Exec(o, true, n, Step(s).value, r.st).st;
        }
        SameLoop(o, f, n - 1, s, next);
      }
    }
  }

  // ---- the graph of a shader ----

  lemma {:induction false} Translated(s: Stmt, inLoop: bool)
    requires WellFormed(s, inLoop)
    ensures C.InLoopOnly(ToS(s), inLoop) && ReturnsFit(ToS(s), true)
  {
    match s
    case Block(ss) =>
      forall i | 0 <= i < |ss| ensures C.InLoopOnly(ToS(ss[i]), inLoop) && ReturnsFit(ToS(ss[i]), true) { Translated(ss[i], inLoop); }
    case If(_, t, e) =>
      Translated(t, inLoop);
      if e.Some? { Translated(e.value, inLoop); }
    case For(_, _, _, b, _) => Translated(b, true);
    case While(_, _, b) => Translated(b, true);
    case _ =>
  }

  /** What ast.cpp emits for the body of an entry point. */
  function ShaderGraph(body: Stmt): C.Graph {
    CompileBody(ToS(body), true).value
  }

  /** The graph of a shader stops as its run does. */
  lemma GraphRuns(o: Ops, f: bool -> Val, n: nat, body: Stmt, t: S.State) returns (k: nat)
    requires WellFormed(body, false) && Lawful(SemOf(o, f)) && S.Exec(o, true, n, body, t).Done?
    ensures
      var r := S.Exec(o, true, n, body, t);
      Stops(SemOf(o, f), ShaderGraph(body), k, Entry(t.vars), if r.flow.Discarded? then Gone else Back(None), r.st.vars)
  {
    Translated(body, false);
    SameRun(o, f, n, body, false, t);
    k := FunctionCorrect(SemOf(o, f), ToS(body), true, n, t.vars);
  }

  ghost predicate GraphStops(o: C.Sem, g: C.Graph, st: S.Store) {
    exists k: nat, a, st' :: Stops(o, g, k, Entry(st), a, st')
  }

  /** The graph stops exactly when the invocation terminates. */
  lemma GraphStopsIff(o: Ops, f: bool -> Val, body: Stmt, t: S.State)
    requires WellFormed(body, false) && Lawful(SemOf(o, f))
    ensures GraphStops(SemOf(o, f), ShaderGraph(body), t.vars) <==> S.Terminates(o, true, body, t)
  {
    if n: nat :| S.Exec(o, true, n, body, t).Done? {
      var k := GraphRuns(o, f, n, body, t);
    }
    if k: nat, a, st' :| Stops(SemOf(o, f), ShaderGraph(body), k, Entry(t.vars), a, st') {
      Translated(body, false);
      StoppedEnds(SemOf(o, f), ToS(body), true, t.vars, k, a, st');
      SameRun(o, f, k + 1, body, false, t);
    }
  }

  // ---- lanes and graphs ----

  /** What the scalar code did is what the packet has in lane `l`: the answer, and the outputs unless it discarded. */
  ghost predicate LaneAgrees(k: Packet, live: Operand, c: Machine, l: nat, a: Answer, st: S.Store)
    requires MachineOk(k, c) && l < k.width
  {
    && a == (if MaskOf(k, c, live)[l] then Back(None) else Gone)
    && (MaskOf(k, c, live)[l] ==> forall x | x in k.io.outputs :: VecSlot(k, c.mem, x)[l] == S.Read(k.o, st, x))
  }

  /** When the packet halts, the graph of the scalar code stops on the inputs of each lane, and however it stops the
      lane holds what it did. */
  lemma LanesAreGraphRuns(k: Packet, n: nat, body: Stmt, a: Lanes, f: bool -> Val, l: nat)
    requires k.width > 0 && |a.inputs| == k.width && Accepted(k.io, k.plan, body) && l < k.width && Lawful(SemOf(k.o, f))
    requires DoAll(k, n, Compile(k.io, k.plan, body).code, EntryMachine(k, a)).Halted?
    ensures
      var g, entry := ShaderGraph(body), Entry(Invocation(k, a, l).vars);
      var out := Compile(k.io, k.plan, body);
      var c := DoAll(k, n, out.code, EntryMachine(k, a)).c;
      && GraphStops(SemOf(k.o, f), g, Invocation(k, a, l).vars)
      && (forall j: nat, w, st | Stops(SemOf(k.o, f), g, j, entry, w, st) :: LaneAgrees(k, out.e.live, c, l, w, st))
  {
    PacketIsScalarPerLane(k, n, body, a);
    var t, g := Invocation(k, a, l), ShaderGraph(body);
    var j := GraphRuns(k.o, f, n, body, t);
    var r := S.Exec(k.o, true, n, body, t);
    forall j': nat, w, st | Stops(SemOf(k.o, f), g, j', Entry(t.vars), w, st)
      ensures w == (if r.flow.Discarded? then Gone else Back(None)) && st == r.st.vars
    {
      StopsOnce(SemOf(k.o, f), g, Entry(t.vars), j, if r.flow.Discarded? then Gone else Back(None), r.st.vars, j', w, st);
    }
  }
}
