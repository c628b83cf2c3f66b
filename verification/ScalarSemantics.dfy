/** What the scalar path computes: one invocation, one flat store keyed by name. */
module ScalarSemantics {
  import opened ShaderAst

  type Store = map<Name, Val>

  function Read(o: Ops, st: Store, x: Name): Val {
    if x in st then st[x] else o.zero(x)
  }

  function Eval(o: Ops, e: Expr, st: Store): Val {
    match e
    case Const(v) => v
    case Var(x) => Read(o, st, x)
    case Apply(op, args) => o.apply(op, EvalAll(o, args, st))
    case Call(fn, args) => o.apply(fn, EvalAll(o, args, st))
    case Ternary(c, t, f) => if o.truth(Eval(o, c, st)) then Eval(o, t, st) else Eval(o, f, st)
    case Cast(op, a) => o.apply(op, [Eval(o, a, st)])
    case Unsupported => Val([])
  }

  function EvalAll(o: Ops, es: seq<Expr>, st: Store): (vs: seq<Val>)
    ensures |vs| == |es|
    ensures forall i | 0 <= i < |es| :: vs[i] == Eval(o, es[i], st)
  {
    if es == [] then [] else [Eval(o, es[0], st)] + EvalAll(o, es[1..], st)
  }

  datatype Flow = Normal | Broke | Continued | Discarded

  /** `live` is cleared when the invocation reaches `discard`. */
  datatype State = State(vars: Store, live: bool)

  datatype Result = Timeout | Done(flow: Flow, st: State)

  /** The operation that writes a swizzle of a value. */
  function Insert(o: Ops, member: string, previous: Val, v: Val): Val {
    o.apply("insert." + member, [previous, v])
  }

  /** Runs `s`; every loop entered may iterate at most `n` times, else Timeout.
      With `stop`, `discard` ends the invocation as __frag_discard does; without it the
      invocation only records that it died and runs on, as a packet lane does. */
  function Exec(o: Ops, stop: bool, n: nat, s: Stmt, st: State): Result
    decreases n, s, 1
  {
    match s
    case Block(ss) => ExecAll(o, stop, n, ss, st)
    case Assign(x, e) => Done(Normal, st.(vars := st.vars[x := Eval(o, e, st.vars)]))
    case MemberAssign(x, m, e) =>
      Done(Normal, st.(vars := st.vars[x := Insert(o, m, Read(o, st.vars, x), Eval(o, e, st.vars))]))
    case If(c, t, e) =>
      if o.truth(Eval(o, c, st.vars)) then Exec(o, stop, n, t, st)
      else if e.Some? then Exec(o, stop, n, e.value, st)
      else Done(Normal, st)
    case For(_, p, _, _, _) =>
      var r := Exec(o, stop, n, p, st);
      if r.Done? && r.flow.Normal? then ExecLoop(o, stop, n, s, r.st) else r
    case While(_, _, _) => ExecLoop(o, stop, n, s, st)
    case Break => Done(Broke, st)
    case Continue => Done(Continued, st)
    case Discard => if stop then Done(Discarded, st.(live := false)) else Done(Normal, st.(live := false))
    case Other => Done(Normal, st)
  }

  function ExecAll(o: Ops, stop: bool, n: nat, ss: seq<Stmt>, st: State): Result
    decreases n, ss, 0
  {
    if ss == [] then Done(Normal, st)
    else
      var r := Exec(o, stop, n, ss[0], st);
      if r.Done? && r.flow.Normal? then ExecAll(o, stop, n, ss[1..], r.st) else r
  }

  function ExecLoop(o: Ops, stop: bool, n: nat, s: Stmt, st: State): Result
    requires IsLoop(s)
    decreases n, s, 0
  {
    if !o.truth(Eval(o, s.cond, st.vars)) then Done(Normal, st)
    else if n == 0 then Timeout
    else
      var r := Exec(o, stop, n, s.body, st);
      if r.Timeout? || r.flow.Discarded? then r
      else if r.flow.Broke? then Done(Normal, r.st)
      else
        var q := if Step(s).Some? then Exec(o, stop, n, Step(s).value, r.st) else Done(Normal, r.st);
        if q.Done? && q.flow.Normal? then ExecLoop(o, stop, n - 1, s, q.st) else q
  }

  /** A run that only records death never revives, and never ends early. */
  lemma {:induction false} DeadStaysDead(o: Ops, n: nat, s: Stmt, st: State)
    ensures
      var r := Exec(o, false, n, s, st);
      r.Done? ==> !r.flow.Discarded? && (!st.live ==> !r.st.live)
    decreases n, s, 1
  {
    match s
    case Block(ss) => DeadStaysDeadAll(o, n, ss, st);
    case If(_, t, e) =>
      DeadStaysDead(o, n, t, st);
      if e.Some? { DeadStaysDead(o, n, e.value, st); }
    case For(_, p, _, _, _) =>
      DeadStaysDead(o, n, p, st);
      var r := Exec(o, false, n, p, st);
      if r.Done? && r.flow.Normal? { DeadStaysDeadLoop(o, n, s, r.st); }
    case While(_, _, _) => DeadStaysDeadLoop(o, n, s, st);
    case _ =>
  }

  lemma {:induction false} DeadStaysDeadAll(o: Ops, n: nat, ss: seq<Stmt>, st: State)
    ensures
      var r := ExecAll(o, false, n, ss, st);
      r.Done? ==> !r.flow.Discarded? && (!st.live ==> !r.st.live)
    decreases n, ss, 0
  {
    if ss != [] {
      DeadStaysDead(o, n, ss[0], st);
      var r := Exec(o, false, n, ss[0], st);
      if r.Done? && r.flow.Normal? { DeadStaysDeadAll(o, n, ss[1..], r.st); }
    }
  }

  lemma {:induction false} DeadStaysDeadLoop(o: Ops, n: nat, s: Stmt, st: State)
    requires IsLoop(s)
    ensures
      var r := ExecLoop(o, false, n, s, st);
      r.Done? ==> !r.flow.Discarded? && (!st.live ==> !r.st.live)
    decreases n, s, 0
  {
    if o.truth(Eval(o, s.cond, st.vars)) && n > 0 {
      DeadStaysDead(o, n, s.body, st);
      var r := Exec(o, false, n, s.body, st);
      if r.Done? && !r.flow.Broke? {
        if Step(s).Some? { DeadStaysDead(o, n, Step(s).value, r.st); }
        var q := if Step(s).Some? then Exec(o, false, n, Step(s).value, r.st) else Done(Normal, r.st);
        if q.Done? && q.flow.Normal? { DeadStaysDeadLoop(o, n - 1, s, q.st); }
      }
    }
  }

  /** What the recording run says about the run that really stops at `discard`. */
  ghost predicate Predicts(recording: Result, stopping: Result) {
    recording.Done? ==>
      && (recording.st.live ==> stopping == recording)
      && (!recording.st.live ==> stopping.Done? && stopping.flow.Discarded?)
  }

  /** The recording run ends alive exactly when the real run never reaches `discard`, with the same state. */
  lemma {:induction false} RecordingPredictsStopping(o: Ops, n: nat, s: Stmt, st: State)
    requires st.live
    ensures Predicts(Exec(o, false, n, s, st), Exec(o, true, n, s, st))
    decreases n, s, 1
  {
    match s
    case Block(ss) => RecordingPredictsStoppingAll(o, n, ss, st);
    case If(_, t, e) =>
      RecordingPredictsStopping(o, n, t, st);
      if e.Some? { RecordingPredictsStopping(o, n, e.value, st); }
    case For(_, p, _, _, _) =>
      RecordingPredictsStopping(o, n, p, st);
      DeadStaysDead(o, n, p, st);
      var r := Exec(o, false, n, p, st);
      if r.Done? && r.flow.Normal? {
        DeadStaysDeadLoop(o, n, s, r.st);
        if r.st.live { RecordingPredictsStoppingLoop(o, n, s, r.st); }
      }
    case While(_, _, _) => RecordingPredictsStoppingLoop(o, n, s, st);
    case _ =>
  }

  lemma {:induction false} RecordingPredictsStoppingAll(o: Ops, n: nat, ss: seq<Stmt>, st: State)
    requires st.live
    ensures Predicts(ExecAll(o, false, n, ss, st), ExecAll(o, true, n, ss, st))
    decreases n, ss, 0
  {
    if ss != [] {
      RecordingPredictsStopping(o, n, ss[0], st);
      var r := Exec(o, false, n, ss[0], st);
      if r.Done? && r.flow.Normal? {
        DeadStaysDeadAll(o, n, ss[1..], r.st);
        if r.st.live { RecordingPredictsStoppingAll(o, n, ss[1..], r.st); }
      }
    }
  }

  lemma {:induction false} RecordingPredictsStoppingLoop(o: Ops, n: nat, s: Stmt, st: State)
    requires IsLoop(s) && st.live
    ensures Predicts(ExecLoop(o, false, n, s, st), ExecLoop(o, true, n, s, st))
    decreases n, s, 0
  {
    if o.truth(Eval(o, s.cond, st.vars)) && n > 0 {
      RecordingPredictsStopping(o, n, s.body, st);
      DeadStaysDead(o, n, s.body, st);
      var r := Exec(o, false, n, s.body, st);
      if r.Done? && !r.flow.Broke? {
        if Step(s).Some? {
          DeadStaysDead(o, n, Step(s).value, r.st);
          if r.st.live { RecordingPredictsStopping(o, n, Step(s).value, r.st); }
        }
        var q := if Step(s).Some? then Exec(o, false, n, Step(s).value, r.st) else Done(Normal, r.st);
        if q.Done? && q.flow.Normal? {
          DeadStaysDeadLoop(o, n - 1, s, q.st);
          if q.st.live { RecordingPredictsStoppingLoop(o, n - 1, s, q.st); }
        }
      }
    }
  }

  // ---- the iteration bound does not matter once it is large enough ----

  lemma {:induction false} MoreFuel(o: Ops, stop: bool, n: nat, n': nat, s: Stmt, st: State)
    requires n <= n' && Exec(o, stop, n, s, st).Done?
    ensures Exec(o, stop, n', s, st) == Exec(o, stop, n, s, st)
    decreases n, s, 1
  {
    match s
    case Block(ss) => MoreFuelAll(o, stop, n, n', ss, st);
    case If(c, t, e) =>
      if o.truth(Eval(o, c, st.vars)) { MoreFuel(o, stop, n, n', t, st); }
      else if e.Some? { MoreFuel(o, stop, n, n', e.value, st); }
    case For(_, p, _, _, _) =>
      MoreFuel(o, stop, n, n', p, st);
      var r := Exec(o, stop, n, p, st);
      if r.flow.Normal? { MoreFuelLoop(o, stop, n, n', s, r.st); }
    case While(_, _, _) => MoreFuelLoop(o, stop, n, n', s, st);
    case _ =>
  }

  lemma {:induction false} MoreFuelAll(o: Ops, stop: bool, n: nat, n': nat, ss: seq<Stmt>, st: State)
    requires n <= n' && ExecAll(o, stop, n, ss, st).Done?
    ensures ExecAll(o, stop, n', ss, st) == ExecAll(o, stop, n, ss, st)
    decreases n, ss, 0
  {
    if ss != [] {
      MoreFuel(o, stop, n, n', ss[0], st);
      var r := Exec(o, stop, n, ss[0], st);
      if r.flow.Normal? { MoreFuelAll(o, stop, n, n', ss[1..], r.st); }
    }
  }

  lemma {:induction false} MoreFuelLoop(o: Ops, stop: bool, n: nat, n': nat, s: Stmt, st: State)
    requires IsLoop(s) && n <= n' && ExecLoop(o, stop, n, s, st).Done?
    ensures ExecLoop(o, stop, n', s, st) == ExecLoop(o, stop, n, s, st)
    decreases n, s, 0
  {
    if o.truth(Eval(o, s.cond, st.vars)) {
      MoreFuel(o, stop, n, n', s.body, st);
      var r := Exec(o, stop, n, s.body, st);
      if !r.flow.Discarded? && !r.flow.Broke? {
        if Step(s).Some? { MoreFuel(o, stop, n, n', Step(s).value, r.st); }
        var q := if Step(s).Some? then Exec(o, stop, n, Step(s).value, r.st) else Done(Normal, r.st);
        if q.flow.Normal? { MoreFuelLoop(o, stop, n - 1, n' - 1, s, q.st); }
      }
    }
  }

  /** The invocation terminates: some bound on the iterations of its loops is enough. */
  ghost predicate Terminates(o: Ops, stop: bool, s: Stmt, st: State) {
    exists n: nat :: Exec(o, stop, n, s, st).Done?
  }
}
