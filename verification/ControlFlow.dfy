/** Structured statements, and the control-flow graphs they are lowered to. */
module ControlFlow {
  import opened ShaderAst

  type Store = map<Name, Val>

  /** Values and operations, as far as control flow needs them. */
  datatype Sem = Sem(apply: (string, seq<Val>) -> Val, truth: Val -> bool, ofBool: bool -> Val, zero: Name -> Val)

  // ---- source ----

  /** Expressions may assign; And, Or and Cond evaluate only what they need. */
  datatype E =
    | Lit(v: Val)
    | Ref(x: Name)
    | Op(op: string, args: seq<E>)
    | And(l: E, r: E)
    | Or(l: E, r: E)
    | Cond(c: E, t: E, f: E)
    | Set(x: Name, e: E)

  datatype S =
    | Do(e: E)
    | Group(ss: seq<S>)
    | Choose(cond: E, thn: S, els: Option<S>)
    | Loop(init: Option<E>, test: Option<E>, body: S, inc: Option<E>)
    | Leave
    | Next
    | Kill
    | Return(result: Option<E>)

  function Fetch(o: Sem, st: Store, x: Name): Val {
    if x in st then st[x] else o.zero(x)
  }

  function Value(o: Sem, e: E, st: Store): (Val, Store)
    decreases e, 0
  {
    match e
    case Lit(v) => (v, st)
    case Ref(x) => (Fetch(o, st, x), st)
    case Op(op, args) => var a := Values(o, args, st); (o.apply(op, a.0), a.1)
    case And(l, r) =>
      var a := Value(o, l, st);
      if o.truth(a.0) then var b := Value(o, r, a.1); (o.ofBool(o.truth(b.0)), b.1) else (o.ofBool(false), a.1)
    case Or(l, r) =>
      var a := Value(o, l, st);
      if o.truth(a.0) then (o.ofBool(true), a.1) else var b := Value(o, r, a.1); (o.ofBool(o.truth(b.0)), b.1)
    case Cond(c, t, f) =>
      var a := Value(o, c, st);
      if o.truth(a.0) then Value(o, t, a.1) else Value(o, f, a.1)
    case Set(x, e) => var a := Value(o, e, st); (a.0, a.1[x := a.0])
  }

  function Values(o: Sem, es: seq<E>, st: Store): (r: (seq<Val>, Store))
    ensures |r.0| == |es|
    decreases es, 0
  {
    if es == [] then ([], st)
    else
      var a := Value(o, es[0], st);
      var b := Values(o, es[1..], a.1);
      ([a.0] + b.0, b.1)
  }

  function MaybeDo(o: Sem, e: Option<E>, st: Store): Store {
    if e.Some? then Value(o, e.value, st).1 else st
  }

  /** The test of a loop; a missing condition is true. */
  function Test(o: Sem, c: Option<E>, st: Store): (bool, Store) {
    if c.None? then (true, st) else var a := Value(o, c.value, st); (o.truth(a.0), a.1)
  }

  datatype Flow = Normal | Left | Nexted | Killed | Returned(v: Option<Val>)

  /** The function is over. */
  predicate Final(f: Flow) {
    f.Killed? || f.Returned?
  }

  datatype Outcome = Timeout | Done(flow: Flow, st: Store)

  /** Runs a statement; every loop entered may iterate at most `n` times. */
  function Exec(o: Sem, n: nat, s: S, st: Store): Outcome
    decreases n, s, 1
  {
    match s
    case Do(e) => Done(Normal, Value(o, e, st).1)
    case Group(ss) => ExecAll(o, n, ss, st)
    case Choose(c, t, f) =>
      var a := Value(o, c, st);
      if o.truth(a.0) then Exec(o, n, t, a.1) else if f.Some? then Exec(o, n, f.value, a.1) else Done(Normal, a.1)
    case Loop(init, _, _, _) => ExecLoop(o, n, s, MaybeDo(o, init, st))
    case Leave => Done(Left, st)
    case Next => Done(Nexted, st)
    case Kill => Done(Killed, st)
    case Return(e) =>
      if e.None? then Done(Returned(None), st)
      else var a := Value(o, e.value, st); Done(Returned(Some(a.0)), a.1)
  }

  function ExecAll(o: Sem, n: nat, ss: seq<S>, st: Store): Outcome
    decreases n, ss, 0
  {
    if ss == [] then Done(Normal, st)
    else
      var r := Exec(o, n, ss[0], st);
      if r.Done? && r.flow.Normal? then ExecAll(o, n, ss[1..], r.st) else r
  }

  function ExecLoop(o: Sem, n: nat, s: S, st: Store): Outcome
    requires s.Loop?
    decreases n, s, 0
  {
    var a := Test(o, s.test, st);
    if !a.0 then Done(Normal, a.1)
    else if n == 0 then Timeout
    else
      var r := Exec(o, n, s.body, a.1);
      if r.Timeout? || Final(r.flow) then r
      else if r.flow.Left? then Done(Normal, r.st)
      else ExecLoop(o, n - 1, s, MaybeDo(o, s.inc, r.st))
  }

  /** Break and continue belong to a loop. */
  predicate InLoopOnly(s: S, inLoop: bool) {
    match s
    case Leave => inLoop
    case Next => inLoop
    case Group(ss) => forall i | 0 <= i < |ss| :: InLoopOnly(ss[i], inLoop)
    case Choose(_, t, f) => InLoopOnly(t, inLoop) && (f.Some? ==> InLoopOnly(f.value, inLoop))
    case Loop(_, _, b, _) => InLoopOnly(b, true)
    case _ => true
  }

  // ---- target ----

  /** A constant, a truth constant, or an SSA value. */
  datatype Operand = Imm(v: Val) | Flag(b: bool) | Reg(r: nat)

  datatype Ins =
    | Load(r: nat, x: Name)
    | Compute(r: nat, op: string, args: seq<Operand>)
    | ToBool(r: nat, a: Operand)
    | Write(x: Name, a: Operand)
    | Phi(r: nat, from1: nat, a1: Operand, from2: nat, a2: Operand)

  datatype Term = Br(to: nat) | CondBr(a: Operand, ifTrue: nat, ifFalse: nat) | Ret(result: Option<Operand>) | Unreachable

  datatype Blk = Blk(code: seq<Ins>, term: Option<Term>)

  type Graph = seq<Blk>

  /** A point of execution: the next instruction of a block, and the block control came from. */
  datatype Conf = Conf(at: nat, idx: nat, from: nat, regs: map<nat, Val>, st: Store)

  function Get(o: Sem, c: Conf, a: Operand): Val {
    match a
    case Imm(v) => v
    case Flag(b) => o.ofBool(b)
    case Reg(r) => if r in c.regs then c.regs[r] else o.zero("")
  }

  function GetAll(o: Sem, c: Conf, operands: seq<Operand>): (vs: seq<Val>)
    ensures |vs| == |operands| && forall i | 0 <= i < |operands| :: vs[i] == Get(o, c, operands[i])
  {
    seq(|operands|, i requires 0 <= i < |operands| => Get(o, c, operands[i]))
  }

  function Def(c: Conf, r: nat, v: Val): Conf {
    c.(idx := c.idx + 1, regs := c.regs[r := v])
  }

  function StepIns(o: Sem, i: Ins, c: Conf): Conf {
    match i
    case Load(r, x) => Def(c, r, Fetch(o, c.st, x))
    case Compute(r, op, operands) => Def(c, r, o.apply(op, GetAll(o, c, operands)))
    case ToBool(r, a) => Def(c, r, o.ofBool(o.truth(Get(o, c, a))))
    case Write(x, a) => c.(idx := c.idx + 1, st := c.st[x := Get(o, c, a)])
    case Phi(r, f1, a1, f2, a2) => Def(c, r, if c.from == f1 then Get(o, c, a1) else Get(o, c, a2))
  }

  function Jump(c: Conf, l: nat): Conf {
    c.(at := l, idx := 0, from := c.at)
  }

  /** One step; None where the graph has nothing to do: at a return, an unreachable, or outside the graph. */
  function Step(o: Sem, g: Graph, c: Conf): Option<Conf> {
    if c.at >= |g| then None
    else if c.idx < |g[c.at].code| then Some(StepIns(o, g[c.at].code[c.idx], c))
    else
      match g[c.at].term
      case Some(Br(l)) => Some(Jump(c, l))
      case Some(CondBr(a, t, f)) => Some(Jump(c, if o.truth(Get(o, c, a)) then t else f))
      case _ => None
  }

  function Steps(o: Sem, g: Graph, k: nat, c: Conf): Option<Conf>
    decreases k
  {
    if k == 0 then Some(c)
    else
      match Step(o, g, c)
      case None => None
      case Some(d) => Steps(o, g, k - 1, d)
  }

  lemma {:induction false} StepsAdd(o: Sem, g: Graph, j: nat, k: nat, c: Conf, d: Conf)
    requires Steps(o, g, j, c) == Some(d)
    ensures Steps(o, g, j + k, c) == Steps(o, g, k, d)
    decreases j
  {
    if j > 0 { StepsAdd(o, g, j - 1, k, Step(o, g, c).value, d); }
  }

  /** Fewer steps of a run that goes on can always be made. */
  lemma {:induction false} StepsPrefix(o: Sem, g: Graph, j: nat, k: nat, c: Conf)
    requires j <= k && Steps(o, g, k, c).Some?
    ensures Steps(o, g, j, c).Some?
    decreases j
  {
    if j > 0 { StepsPrefix(o, g, j - 1, k - 1, Step(o, g, c).value); }
  }
}
