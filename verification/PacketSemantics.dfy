/** What one packet of W lanes computes, statement by statement, with masks instead of branches. */
module PacketSemantics {
  import opened ShaderAst
  import opened Uniformity

  type Mask = seq<bool>

  /** Vector slots hold one value per lane, uniform slots one value. */
  datatype Memory = Memory(vec: map<Name, seq<Val>>, uni: map<Name, Val>)

  /** `la` and `em` are the loop masks of the innermost masked loop (`em` has all lanes where no loop is open). */
  datatype PState = PState(mem: Memory, live: Mask, la: Mask, em: Mask)

  /** A compiled shader: operations, lane count, interface and plan. */
  datatype Packet = Packet(o: Ops, width: nat, io: Interface, plan: Plan)

  ghost predicate MemShaped(k: Packet, g: Memory) {
    forall x | x in g.vec :: |g.vec[x]| == k.width
  }

  ghost predicate WellShaped(k: Packet, p: PState) {
    MemShaped(k, p.mem) && |p.live| == |p.la| == |p.em| == k.width
  }

  function AllLanes(w: nat): Mask {
    seq(w, _ => true)
  }

  function And(a: Mask, b: Mask): Mask
    requires |a| == |b|
  {
    seq(|a|, l requires 0 <= l < |a| => a[l] && b[l])
  }

  function AndNot(a: Mask, b: Mask): Mask
    requires |a| == |b|
  {
    seq(|a|, l requires 0 <= l < |a| => a[l] && !b[l])
  }

  predicate Any(m: Mask) {
    exists l | 0 <= l < |m| :: m[l]
  }

  /** The value lane `l` sees in the slot of `x`. */
  function LaneRead(k: Packet, g: Memory, x: Name, l: nat): Val
    requires MemShaped(k, g) && l < k.width
  {
    if UniformName(k.io, k.plan.divergent, x) then (if x in g.uni then g.uni[x] else k.o.zero(x))
    else if x in g.vec then g.vec[x][l]
    else k.o.zero(x)
  }

  /** Builtins that are computed once on lane 0 when their argument is uniform. */
  const INTRINSICS: set<string> := {"sin", "cos", "sqrt", "floor", "exp", "log", "abs"}

  predicate OnLaneZero(k: Packet, fn: string, args: seq<Expr>) {
    fn in INTRINSICS && |args| == 1 && IsUniform(k.io, k.plan.divergent, args[0])
  }

  /** Lane `l` of the vector emitted for `e`. A ternary evaluates both sides and selects. */
  function LaneEval(k: Packet, e: Expr, g: Memory, l: nat): Val
    requires MemShaped(k, g) && l < k.width
  {
    match e
    case Const(v) => v
    case Var(x) => LaneRead(k, g, x, l)
    case Apply(op, args) => k.o.apply(op, LaneEvalAll(k, args, g, l))
    case Call(fn, args) => k.o.apply(fn, LaneEvalAll(k, args, g, if OnLaneZero(k, fn, args) then 0 else l))
    case Ternary(c, t, f) =>
      var tv, fv := LaneEval(k, t, g, l), LaneEval(k, f, g, l);
      if k.o.truth(LaneEval(k, c, g, l)) then tv else fv
    case Cast(op, a) => k.o.apply(op, [LaneEval(k, a, g, l)])
    case Unsupported => Val([])
  }

  function LaneEvalAll(k: Packet, es: seq<Expr>, g: Memory, l: nat): (vs: seq<Val>)
    requires MemShaped(k, g) && l < k.width
    ensures |vs| == |es|
    ensures forall i | 0 <= i < |es| :: vs[i] == LaneEval(k, es[i], g, l)
  {
    if es == [] then [] else [LaneEval(k, es[0], g, l)] + LaneEvalAll(k, es[1..], g, l)
  }

  function VecEval(k: Packet, e: Expr, g: Memory): (v: seq<Val>)
    requires MemShaped(k, g)
    ensures |v| == k.width
  {
    seq(k.width, l requires 0 <= l < k.width => LaneEval(k, e, g, l))
  }

  /** The <W x i1> vector of a condition. */
  function CondMask(k: Packet, c: Expr, g: Memory): (m: Mask)
    requires MemShaped(k, g)
    ensures |m| == k.width
  {
    seq(k.width, l requires 0 <= l < k.width => k.o.truth(LaneEval(k, c, g, l)))
  }

  /** A vector slot, or the null vector when it holds nothing. */
  function VecSlot(k: Packet, g: Memory, x: Name): (v: seq<Val>)
    requires MemShaped(k, g)
    ensures |v| == k.width
  {
    if x in g.vec then g.vec[x] else NullVec(k, x)
  }

  function NullVec(k: Packet, x: Name): (v: seq<Val>)
    ensures |v| == k.width
  {
    seq(k.width, _ => k.o.zero(x))
  }

  /** select(m, a, b) lane by lane. */
  function Select(m: Mask, a: seq<Val>, b: seq<Val>): (v: seq<Val>)
    requires |m| == |a| == |b|
    ensures |v| == |m|
  {
    seq(|m|, l requires 0 <= l < |m| => if m[l] then a[l] else b[l])
  }

  function InsertAll(o: Ops, member: string, a: seq<Val>, b: seq<Val>): (v: seq<Val>)
    requires |a| == |b|
    ensures |v| == |a|
  {
    seq(|a|, l requires 0 <= l < |a| => o.apply("insert." + member, [a[l], b[l]]))
  }

  datatype Outcome = Timeout | Ran(p: PState)

  /** effMask: structural mask and control-flow mask. */
  function Eff(k: Packet, m: Mask, p: PState): (e: Mask)
    requires WellShaped(k, p) && |m| == k.width
    ensures |e| == k.width
  {
    And(m, p.em)
  }

  /** Whether a masked arm is emitted behind a branch on any active lane. */
  predicate Guarded(s: Stmt) {
    !ContainsDiscard(s) && ArmWorthBranching(s)
  }

  /** Runs `s` under structural mask `m`. `seen` are the locals whose slots exist already, that is the names
      assigned textually before `s`: a vector slot is nulled where its name is first assigned. */
  function Run(k: Packet, n: nat, s: Stmt, seen: set<Name>, m: Mask, p: PState): (r: Outcome)
    requires k.width > 0 && WellShaped(k, p) && |m| == k.width
    ensures r.Ran? ==> WellShaped(k, r.p)
    decreases n, s, 1
  {
    match s
    case Block(ss) => RunAll(k, n, ss, seen, m, p)
    case Assign(x, e) =>
      var v := VecEval(k, e, p.mem);
      if UniformName(k.io, k.plan.divergent, x) then Ran(p.(mem := p.mem.(uni := p.mem.uni[x := v[0]])))
      else
        var previous := if x in k.io.outputs || x in seen then VecSlot(k, p.mem, x) else NullVec(k, x);
        Ran(p.(mem := p.mem.(vec := p.mem.vec[x := Select(Eff(k, m, p), v, previous)])))
    case MemberAssign(x, f, e) =>
      var previous := VecSlot(k, p.mem, x);
      var written := Select(Eff(k, m, p), InsertAll(k.o, f, previous, VecEval(k, e, p.mem)), previous);
      Ran(p.(mem := p.mem.(vec := p.mem.vec[x := written])))
    case If(c, t, e) =>
      var cm := CondMask(k, c, p.mem);
      var r := RunArm(k, n, t, seen, And(m, cm), p);
      if r.Timeout? || e.None? then r else RunArm(k, n, e.value, seen + Assigned(t), AndNot(m, cm), r.p)
    case Discard => Ran(p.(live := AndNot(p.live, Eff(k, m, p))))
    case For(_, pre, _, _, _) =>
      var r := Run(k, n, pre, seen, m, p);
      if r.Timeout? then r else RunLoop(k, n, s, seen + Assigned(pre), m, r.p)
    case While(_, _, _) => RunLoop(k, n, s, seen, m, p)
    case Break =>
      var e := Eff(k, m, p);
      Ran(p.(em := AndNot(p.em, e), la := AndNot(p.la, e)))
    case Continue => Ran(p.(em := AndNot(p.em, Eff(k, m, p))))
    case Other => Ran(p)
  }

  function RunAll(k: Packet, n: nat, ss: seq<Stmt>, seen: set<Name>, m: Mask, p: PState): (r: Outcome)
    requires k.width > 0 && WellShaped(k, p) && |m| == k.width
    ensures r.Ran? ==> WellShaped(k, r.p)
    decreases n, ss, 0
  {
    if ss == [] then Ran(p)
    else
      var r := Run(k, n, ss[0], seen, m, p);
      if r.Timeout? then r else RunAll(k, n, ss[1..], seen + Assigned(ss[0]), m, r.p)
  }

  /** emitMaskedArm: an arm with real work is skipped when no lane wants it. */
  function RunArm(k: Packet, n: nat, s: Stmt, seen: set<Name>, m: Mask, p: PState): (r: Outcome)
    requires k.width > 0 && WellShaped(k, p) && |m| == k.width
    ensures r.Ran? ==> WellShaped(k, r.p)
    decreases n, s, 2
  {
    if Guarded(s) && !Any(Eff(k, m, p)) then Ran(p) else Run(k, n, s, seen, m, p)
  }

  /** emitLoop: uniform loops branch on lane 0; the others keep their own masks and give back the outer ones. */
  function RunLoop(k: Packet, n: nat, s: Stmt, seen: set<Name>, m: Mask, p: PState): (r: Outcome)
    requires k.width > 0 && WellShaped(k, p) && |m| == k.width && IsLoop(s)
    ensures r.Ran? ==> WellShaped(k, r.p)
    decreases n, s, 0, 2
  {
    if s.id in k.plan.loops then RunUniform(k, n, s, seen, m, p)
    else
      var r := RunMasked(k, n, s, seen, p.(la := m));
      if r.Timeout? then r else Ran(r.p.(la := p.la, em := p.em))
  }

  function RunUniform(k: Packet, n: nat, s: Stmt, seen: set<Name>, m: Mask, p: PState): (r: Outcome)
    requires k.width > 0 && WellShaped(k, p) && |m| == k.width && IsLoop(s)
    ensures r.Ran? ==> WellShaped(k, r.p)
    decreases n, s, 0, 1
  {
    if !CondMask(k, s.cond, p.mem)[0] then Ran(p)
    else if n == 0 then Timeout
    else
      var r := Run(k, n, s.body, seen, m, p);
      if r.Timeout? then r
      else
        var q := RunStep(k, n, s, seen + Assigned(s.body), m, r.p);
        if q.Timeout? then q else RunUniform(k, n - 1, s, seen, m, q.p)
  }

  function RunMasked(k: Packet, n: nat, s: Stmt, seen: set<Name>, p: PState): (r: Outcome)
    requires k.width > 0 && WellShaped(k, p) && IsLoop(s)
    ensures r.Ran? ==> WellShaped(k, r.p)
    decreases n, s, 0, 1
  {
    var na := And(p.la, CondMask(k, s.cond, p.mem));
    var h := p.(la := na);
    if !Any(na) then Ran(h)
    else if n == 0 then Timeout
    else
      var r := Run(k, n, s.body, seen, na, h.(em := na));
      if r.Timeout? then r
      else
        var q := RunStep(k, n, s, seen + Assigned(s.body), r.p.la, r.p.(em := AllLanes(k.width)));
        if q.Timeout? then q else RunMasked(k, n - 1, s, seen, q.p)
  }

  /** The increment of a `for`, run by every lane still in the loop. */
  function RunStep(k: Packet, n: nat, s: Stmt, seen: set<Name>, m: Mask, p: PState): (r: Outcome)
    requires k.width > 0 && WellShaped(k, p) && |m| == k.width && IsLoop(s)
    ensures r.Ran? ==> WellShaped(k, r.p)
    decreases n, s, 0, 0
  {
    if Step(s).Some? then Run(k, n, Step(s).value, seen, m, p) else Ran(p)
  }
}
