/** Running the generated graph is running the structured source. */
module ControlFlowCorrectness {
  import opened ShaderAst
  import opened ControlFlow
  import opened ControlFlowCodegen
  import opened ControlFlowGrowth

  /** A truth constant is as true as it says. */
  ghost predicate Lawful(o: Sem) {
    o.truth(o.ofBool(true)) && !o.truth(o.ofBool(false))
  }

  /** Execution stands where the next instruction will be emitted. */
  ghost predicate AtEnd(b: Builder, c: Conf) {
    Ok(b) && c.at == b.cur && c.idx == |b.blocks[b.cur].code|
  }

  /** Values named before `n` are untouched. */
  ghost predicate Keeps(o: Sem, n: nat, c: Conf, d: Conf) {
    forall r | 0 <= r < n :: Get(o, d, Reg(r)) == Get(o, c, Reg(r))
  }

  lemma KeepsOperand(o: Sem, n: nat, c: Conf, d: Conf, a: Operand)
    requires Keeps(o, n, c, d) && Below(a, n)
    ensures Get(o, d, a) == Get(o, c, a)
  {
  }

  lemma RunIns(o: Sem, g: Graph, b: Builder, i: Ins, c: Conf) returns (d: Conf)
    requires Open(b) && AtEnd(b, c) && Earlier(Append(b, i).blocks, g)
    ensures d == StepIns(o, i, c) && Steps(o, g, 1, c) == Some(d) && AtEnd(Append(b, i), d)
  {
    d := StepIns(o, i, c);
    var code := Append(b, i).blocks[b.cur].code;
    assert StillThere(Append(b, i).blocks, g, b.cur);
    assert code[c.idx] == i && code <= g[c.at].code;
    assert g[c.at].code[c.idx] == i;
    assert Steps(o, g, 0, d) == Some(d);
  }

  /** A definition leaves older values alone. */
  lemma RunDefine(o: Sem, g: Graph, b: Builder, i: Ins, v: Val, c: Conf) returns (d: Conf)
    requires Open(b) && AtEnd(b, c) && Earlier(Define(b, i).blocks, g) && StepIns(o, i, c) == Def(c, b.next, v)
    ensures Steps(o, g, 1, c) == Some(d) && AtEnd(Define(b, i), d) && d.st == c.st && d.from == c.from
    ensures Get(o, d, Reg(b.next)) == v && Keeps(o, b.next, c, d)
  {
    d := RunIns(o, g, b, i, c);
  }

  /** The end of a block. */
  lemma RunTerm(o: Sem, g: Graph, b: Builder, t: Term, c: Conf) returns (d: Conf)
    requires Ok(b) && AtEnd(b, c) && b.cur < |g| && g[b.cur] == b.blocks[b.cur].(term := Some(t))
    requires t.Br? || t.CondBr?
    ensures d == Jump(c, if t.Br? then t.to else if o.truth(Get(o, c, t.a)) then t.ifTrue else t.ifFalse)
    ensures Steps(o, g, 1, c) == Some(d)
  {
    d := Jump(c, if t.Br? then t.to else if o.truth(Get(o, c, t.a)) then t.ifTrue else t.ifFalse);
    assert Steps(o, g, 0, d) == Some(d);
  }

  /** A block that has ended is final. */
  lemma EndedIsFinal(a: Graph, g: Graph, l: nat)
    requires Earlier(a, g) && l < |a| && a[l].term.Some?
    ensures l < |g| && g[l] == a[l]
  {
    assert StillThere(a, g, l);
  }

  /** What is earlier with a definition is earlier without it. */
  lemma BeforeDefine(m: Builder, i: Ins, g: Graph)
    requires Open(m) && Earlier(Define(m, i).blocks, g)
    ensures Earlier(m.blocks, g)
  {
    DefineGrows(m, i);
    GrowsEarlier(m, Define(m, i));
    EarlierTrans(m.blocks, Define(m, i).blocks, g);
  }

  // ---- expressions ----

  ghost predicate EDone(o: Sem, g: Graph, e: E, b: Builder, c: Conf, k: nat, d: Conf) {
    var r, v := CodegenE(e, b), Value(o, e, c.st);
    && Steps(o, g, k, c) == Some(d) && AtEnd(r.b, d) && d.st == v.1 && Get(o, d, r.a) == v.0
    && Keeps(o, b.next, c, d)
  }

  /** From `c`, the code of `e` delivers `v`. */
  ghost predicate Arrives(o: Sem, g: Graph, e: E, b: Builder, c: Conf, k: nat, d: Conf, v: (Val, Store)) {
    var r := CodegenE(e, b);
    && Steps(o, g, k, c) == Some(d) && AtEnd(r.b, d) && d.st == v.1 && Get(o, d, r.a) == v.0 && Keeps(o, b.next, c, d)
  }

  lemma ArrivesAfter(o: Sem, g: Graph, e: E, b: Builder, c: Conf, i: nat, c1: Conf, j: nat, d: Conf, v: (Val, Store))
    requires Steps(o, g, i, c) == Some(c1) && Keeps(o, b.next, c, c1) && Arrives(o, g, e, b, c1, j, d, v)
    requires v == Value(o, e, c.st)
    ensures EDone(o, g, e, b, c, i + j, d)
  {
    StepsAdd(o, g, i, j, c, c1);
  }

  lemma {:induction false} ECorrect(o: Sem, g: Graph, e: E, b: Builder, c: Conf) returns (k: nat, d: Conf)
    requires Lawful(o) && Open(b) && AtEnd(b, c) && Earlier(CodegenE(e, b).b.blocks, g)
    ensures EDone(o, g, e, b, c, k, d)
    decreases e, 1
  {
    match e
    case Lit(_) => k, d := 0, c;
    case Ref(x) =>
      k := 1;
      d := RunDefine(o, g, b, Load(b.next, x), Fetch(o, c.st, x), c);
    case Op(_, _) => k, d := OpCorrect(o, g, e, b, c);
    case And(_, _) => k, d := LogicalCorrect(o, g, e, b, c);
    case Or(_, _) => k, d := LogicalCorrect(o, g, e, b, c);
    case Cond(_, _, _) => k, d := CondCorrect(o, g, e, b, c);
    case Set(x, e1) =>
      var r := CodegenE(e1, b);
      EGrows(e1, b);
      DefineGrows(r.b, Write(x, r.a));
      GrowsEarlier(r.b, Append(r.b, Write(x, r.a)));
      EarlierTrans(r.b.blocks, Append(r.b, Write(x, r.a)).blocks, g);
      var j, c1 := ECorrect(o, g, e1, b, c);
      d := RunIns(o, g, r.b, Write(x, r.a), c1);
      StepsAdd(o, g, j, 1, c, c1);
      k := j + 1;
  }

  lemma {:induction false} OpCorrect(o: Sem, g: Graph, e: E, b: Builder, c: Conf) returns (k: nat, d: Conf)
    requires e.Op? && Lawful(o) && Open(b) && AtEnd(b, c) && Earlier(CodegenE(e, b).b.blocks, g)
    ensures EDone(o, g, e, b, c, k, d)
    decreases e, 0
  {
    var r := CodegenArgs(e.args, b);
    var i := Compute(r.b.next, e.op, r.operands);
    ArgsGrow(e.args, b);
    DefineGrows(r.b, i);
    GrowsEarlier(r.b, Define(r.b, i));
    EarlierTrans(r.b.blocks, Define(r.b, i).blocks, g);
    var j, c1 := ArgsCorrect(o, g, e.args, b, c);
    assert GetAll(o, c1, r.operands) == Values(o, e.args, c.st).0;
    d := RunDefine(o, g, r.b, i, o.apply(e.op, GetAll(o, c1, r.operands)), c1);
    StepsAdd(o, g, j, 1, c, c1);
    k := j + 1;
  }

  lemma {:induction false} ArgsCorrect(o: Sem, g: Graph, es: seq<E>, b: Builder, c: Conf) returns (k: nat, d: Conf)
    requires Lawful(o) && Open(b) && AtEnd(b, c) && Earlier(CodegenArgs(es, b).b.blocks, g)
    ensures
      var r, v := CodegenArgs(es, b), Values(o, es, c.st);
      && Steps(o, g, k, c) == Some(d) && AtEnd(r.b, d) && d.st == v.1 && Keeps(o, b.next, c, d)
      && forall i | 0 <= i < |es| :: Get(o, d, r.operands[i]) == v.0[i]
    decreases es, 0
  {
    if es == [] {
      k, d := 0, c;
    } else {
      var h := CodegenE(es[0], b);
      var t := CodegenArgs(es[1..], h.b);
      EGrows(es[0], b);
      ArgsGrow(es[1..], h.b);
      GrowsEarlier(h.b, t.b);
      EarlierTrans(h.b.blocks, t.b.blocks, g);
      var i, c1 := ECorrect(o, g, es[0], b, c);
      var j;
      j, d := ArgsCorrect(o, g, es[1..], h.b, c1);
      StepsAdd(o, g, i, j, c, c1);
      k := i + j;
      KeepsOperand(o, h.b.next, c1, d, h.a);
    }
  }

  /** The left operand, tested. */
  lemma {:induction false} LeftCorrect(o: Sem, g: Graph, e: E, b: Builder, c: Conf) returns (k: nat, d: Conf)
    requires (e.And? || e.Or?) && Lawful(o) && Open(b) && AtEnd(b, c) && Earlier(LeftPart(e, b).blocks, g)
    ensures
      var v := Value(o, e.l, c.st);
      && Steps(o, g, k, c) == Some(d) && AtEnd(LeftPart(e, b), d) && d.st == v.1
      && Get(o, d, Reg(CodegenE(e.l, b).b.next)) == o.ofBool(o.truth(v.0)) && Keeps(o, b.next, c, d)
    decreases e, 0, 0
  {
    var rl := CodegenE(e.l, b);
    var i := ToBool(rl.b.next, rl.a);
    EGrows(e.l, b);
    DefineGrows(rl.b, i);
    GrowsEarlier(rl.b, LeftPart(e, b));
    EarlierTrans(rl.b.blocks, LeftPart(e, b).blocks, g);
    var j, c1 := ECorrect(o, g, e.l, b, c);
    d := RunDefine(o, g, rl.b, i, o.ofBool(o.truth(Get(o, c1, rl.a))), c1);
    StepsAdd(o, g, j, 1, c, c1);
    k := j + 1;
  }

  /** The right operand, entered from the branch, tested. */
  lemma {:induction false} RightCorrect(o: Sem, g: Graph, e: E, b: Builder, c: Conf) returns (k: nat, d: Conf)
    requires (e.And? || e.Or?) && Lawful(o) && Open(b) && Earlier(RightBool(e, b).blocks, g)
    requires AtEnd(Branch(LeftPart(e, b), 2, Fork(e, b)), c)
    ensures
      var rb, v := RightBool(e, b), Value(o, e.r, c.st);
      && Steps(o, g, k, c) == Some(d) && AtEnd(rb, d) && d.st == v.1
      && Get(o, d, Reg(RightPart(e, b).b.next)) == o.ofBool(o.truth(v.0)) && Keeps(o, LeftPart(e, b).next, c, d)
    decreases e, 0, 0
  {
    var br, rr := Branch(LeftPart(e, b), 2, Fork(e, b)), RightPart(e, b);
    var i := ToBool(rr.b.next, rr.a);
    LogicalOperands(e, b);
    GrowsEarlier(rr.b, RightBool(e, b));
    EarlierTrans(rr.b.blocks, RightBool(e, b).blocks, g);
    var j, c1 := ECorrect(o, g, e.r, br, c);
    d := RunDefine(o, g, rr.b, i, o.ofBool(o.truth(Get(o, c1, rr.a))), c1);
    StepsAdd(o, g, j, 1, c, c1);
    k := j + 1;
  }

  /** From the end of one path to behind the phi that joins it with another at the empty block of `m`. */
  lemma JumpPhi(o: Sem, g: Graph, p: Builder, m: Builder, phi: Ins, c: Conf) returns (d: Conf)
    requires Ok(p) && AtEnd(p, c) && p.cur < |g| && g[p.cur] == p.blocks[p.cur].(term := Some(Br(m.cur)))
    requires Open(m) && m.blocks[m.cur] == Blk([], None) && Earlier(Define(m, phi).blocks, g)
    requires phi.Phi? && phi.r == m.next
    ensures Steps(o, g, 2, c) == Some(d) && AtEnd(Define(m, phi), d) && d.st == c.st && Keeps(o, m.next, c, d)
    ensures Get(o, d, Reg(m.next)) == if c.at == phi.from1 then Get(o, c, phi.a1) else Get(o, c, phi.a2)
  {
    var c1 := RunTerm(o, g, p, Br(m.cur), c);
    d := RunDefine(o, g, m, phi, if c.at == phi.from1 then Get(o, c, phi.a1) else Get(o, c, phi.a2), c1);
    StepsAdd(o, g, 1, 1, c, c1);
  }

  function JoinPoint(e: E, b: Builder): Builder
    requires e.And? || e.Or?
  {
    Go(RightBool(e, b), |LeftPart(e, b).blocks| + 1)
  }

  function JoinPhi(e: E, b: Builder): Ins
    requires e.And? || e.Or?
  {
    Phi(JoinPoint(e, b).next, LeftPart(e, b).cur, Flag(e.Or?), RightBool(e, b).cur, Reg(RightPart(e, b).b.next))
  }

  /** The pieces of a logical operator, in the final graph. */
  ghost predicate LogicalLinked(g: Graph, e: E, b: Builder)
    requires e.And? || e.Or?
  {
    var lb, rb, m, phi := LeftPart(e, b), RightBool(e, b), JoinPoint(e, b), JoinPhi(e, b);
    && Ok(lb) && Ok(rb) && Open(m) && m.cur == |lb.blocks| + 1 && m.blocks[m.cur] == Blk([], None)
    && lb.cur < |lb.blocks| <= rb.cur && b.next <= lb.next <= RightPart(e, b).b.next < rb.next == m.next
    && Earlier(lb.blocks, g) && Earlier(rb.blocks, g) && Earlier(Define(m, phi).blocks, g)
    && lb.cur < |g| && g[lb.cur] == lb.blocks[lb.cur].(term := Some(Fork(e, b)))
    && rb.cur < |g| && g[rb.cur] == rb.blocks[rb.cur].(term := Some(Br(m.cur)))
    && CodegenE(e, b) == Emitted(Define(m, phi), Reg(m.next))
  }

  lemma LogicalLinks(g: Graph, e: E, b: Builder)
    requires (e.And? || e.Or?) && Open(b) && Earlier(CodegenE(e, b).b.blocks, g)
    ensures LogicalLinked(g, e, b)
  {
    var lb, rb, m := LeftPart(e, b), RightBool(e, b), JoinPoint(e, b);
    LogicalCode(e, b);
    LogicalOperands(e, b);
    LogicalParts(e, b);
    BeforeDefine(m, JoinPhi(e, b), g);
    JoinLinks(g, b, lb, Fork(e, b), rb);
  }

  /** The ends of both paths are final. */
  lemma JoinLinks(g: Graph, b: Builder, lb: Builder, t: Term, rb: Builder)
    requires Joined(b, lb, t, rb) && Earlier(Go(rb, |lb.blocks| + 1).blocks, g)
    ensures Earlier(lb.blocks, g) && Earlier(rb.blocks, g)
    ensures lb.cur < |g| && g[lb.cur] == lb.blocks[lb.cur].(term := Some(t))
    ensures rb.cur < |g| && g[rb.cur] == rb.blocks[rb.cur].(term := Some(Br(|lb.blocks| + 1)))
  {
    var m := Go(rb, |lb.blocks| + 1);
    EarlierTrans(lb.blocks, m.blocks, g);
    EarlierTrans(rb.blocks, m.blocks, g);
    EndedIsFinal(m.blocks, g, lb.cur);
    EndedIsFinal(m.blocks, g, rb.cur);
  }

  /** The branch behind the left operand goes where its truth says. */
  lemma ForkGoes(o: Sem, g: Graph, e: E, b: Builder, v: Val, c: Conf) returns (d: Conf)
    requires (e.And? || e.Or?) && Lawful(o) && LogicalLinked(g, e, b) && AtEnd(LeftPart(e, b), c)
    requires Get(o, c, Reg(CodegenE(e.l, b).b.next)) == o.ofBool(o.truth(v))
    ensures Steps(o, g, 1, c) == Some(d)
    ensures d == Jump(c, if o.truth(v) == e.And? then |LeftPart(e, b).blocks| else |LeftPart(e, b).blocks| + 1)
  {
    d := RunTerm(o, g, LeftPart(e, b), Fork(e, b), c);
  }

  /** What a logical operator comes to, once its left operand has. */
  function LogicalValue(o: Sem, e: E, l: (Val, Store)): (Val, Store)
    requires e.And? || e.Or?
  {
    if o.truth(l.0) == e.And? then var r := Value(o, e.r, l.1); (o.ofBool(o.truth(r.0)), r.1) else (o.ofBool(e.Or?), l.1)
  }

  lemma LogicalValueIs(o: Sem, e: E, st: Store)
    requires e.And? || e.Or?
    ensures Value(o, e, st) == LogicalValue(o, e, Value(o, e.l, st))
  {
  }

  lemma {:induction false} LogicalCorrect(o: Sem, g: Graph, e: E, b: Builder, c: Conf) returns (k: nat, d: Conf)
    requires (e.And? || e.Or?) && Lawful(o) && Open(b) && AtEnd(b, c) && Earlier(CodegenE(e, b).b.blocks, g)
    ensures EDone(o, g, e, b, c, k, d)
    decreases e, 0
  {
    LogicalLinks(g, e, b);
    var l := Value(o, e.l, c.st);
    var i, c1, c2 := ToFork(o, g, e, b, c);
    var j: nat;
    if o.truth(l.0) == e.And? { j, d := LongWay(o, g, e, b, c2, l); } else { j, d := ShortCut(o, g, e, b, c1, c2, l); }
    LogicalValueIs(o, e, c.st);
    ArrivesAfter(o, g, e, b, c, i, c2, j, d, LogicalValue(o, e, l));
    k := i + j;
  }

  /** The left operand, and the branch behind it. */
  lemma {:induction false} ToFork(o: Sem, g: Graph, e: E, b: Builder, c: Conf) returns (k: nat, c1: Conf, d: Conf)
    requires (e.And? || e.Or?) && Lawful(o) && Open(b) && AtEnd(b, c) && LogicalLinked(g, e, b)
    ensures
      var v, n := Value(o, e.l, c.st), |LeftPart(e, b).blocks|;
      && Steps(o, g, k, c) == Some(d) && d == Jump(c1, if o.truth(v.0) == e.And? then n else n + 1)
      && AtEnd(LeftPart(e, b), c1) && c1.st == v.1 && Keeps(o, b.next, c, c1)
    decreases e, 0, 1
  {
    var i;
    i, c1 := LeftCorrect(o, g, e, b, c);
    d := ForkGoes(o, g, e, b, Value(o, e.l, c.st).0, c1);
    StepsAdd(o, g, i, 1, c, c1);
    k := i + 1;
  }

  /** The right operand decides. */
  lemma {:induction false} LongWay(o: Sem, g: Graph, e: E, b: Builder, c: Conf, l: (Val, Store)) returns (k: nat, d: Conf)
    requires (e.And? || e.Or?) && Lawful(o) && Open(b) && LogicalLinked(g, e, b)
    requires c.at == |LeftPart(e, b).blocks| && c.idx == 0 && c.st == l.1 && o.truth(l.0) == e.And?
    ensures Arrives(o, g, e, b, c, k, d, LogicalValue(o, e, l))
    decreases e, 0, 1
  {
    LogicalEntry(e, b, c);
    var j, c1 := RightCorrect(o, g, e, b, c);
    d := JumpPhi(o, g, RightBool(e, b), JoinPoint(e, b), JoinPhi(e, b), c1);
    StepsAdd(o, g, j, 2, c, c1);
    k := j + 2;
  }

  lemma LogicalEntry(e: E, b: Builder, c: Conf)
    requires (e.And? || e.Or?) && Ok(LeftPart(e, b)) && c.at == |LeftPart(e, b).blocks| && c.idx == 0
    ensures AtEnd(Branch(LeftPart(e, b), 2, Fork(e, b)), c)
  {
  }

  /** The right operand is skipped. */
  lemma ShortCut(o: Sem, g: Graph, e: E, b: Builder, c: Conf, d: Conf, l: (Val, Store)) returns (k: nat, z: Conf)
    requires (e.And? || e.Or?) && LogicalLinked(g, e, b) && AtEnd(LeftPart(e, b), c)
    requires d == Jump(c, |LeftPart(e, b).blocks| + 1) && c.st == l.1 && o.truth(l.0) != e.And?
    ensures Arrives(o, g, e, b, d, k, z, LogicalValue(o, e, l))
  {
    k := 1;
    z := RunDefine(o, g, JoinPoint(e, b), JoinPhi(e, b), o.ofBool(e.Or?), d);
  }

  // ---- conditional expressions ----

  function CondFork(e: E, b: Builder): Term
    requires e.Cond?
  {
    var rc := CodegenE(e.c, b);
    CondBr(rc.a, |rc.b.blocks|, |rc.b.blocks| + 1)
  }

  function CondJoin(e: E, b: Builder): Builder
    requires e.Cond?
  {
    JoinBoth(ElsePart(e, b).b, ThenPart(e, b).b.cur, |CodegenE(e.c, b).b.blocks| + 2)
  }

  function CondPhi(e: E, b: Builder): Ins
    requires e.Cond?
  {
    Phi(CondJoin(e, b).next, ThenPart(e, b).b.cur, ThenPart(e, b).a, ElsePart(e, b).b.cur, ElsePart(e, b).a)
  }

  /** The arm that is taken, and where its code begins. */
  function Arm(e: E, b: Builder, yes: bool): Emitted
    requires e.Cond?
  {
    if yes then ThenPart(e, b) else ElsePart(e, b)
  }

  function ArmStart(e: E, b: Builder, yes: bool): Builder
    requires e.Cond?
  {
    var rc := CodegenE(e.c, b);
    if yes then Branch(rc.b, 3, CondFork(e, b)) else At(ThenPart(e, b).b, |rc.b.blocks| + 1)
  }

  ghost predicate CondLinked(g: Graph, e: E, b: Builder)
    requires e.Cond?
  {
    var rc, m, phi := CodegenE(e.c, b), CondJoin(e, b), CondPhi(e, b);
    && Ok(rc.b) && Open(m) && m.cur == |rc.b.blocks| + 2 && m.blocks[m.cur] == Blk([], None)
    && Earlier(rc.b.blocks, g) && Earlier(Define(m, phi).blocks, g) && ThenPart(e, b).b.cur != ElsePart(e, b).b.cur
    && rc.b.cur < |g| && g[rc.b.cur] == rc.b.blocks[rc.b.cur].(term := Some(CondFork(e, b)))
    && CodegenE(e, b) == Emitted(Define(m, phi), Reg(m.next)) && Earlier(m.blocks, g)
  }

  ghost predicate ArmLinked(g: Graph, e: E, b: Builder, yes: bool)
    requires e.Cond?
  {
    var rc, arm, start := CodegenE(e.c, b), Arm(e, b, yes), ArmStart(e, b, yes);
    && Open(start) && start.blocks[start.cur].code == [] && start.cur == |rc.b.blocks| + (if yes then 0 else 1)
    && Ok(arm.b) && Earlier(arm.b.blocks, g) && arm.b.cur < |g|
    && g[arm.b.cur] == arm.b.blocks[arm.b.cur].(term := Some(Br(|rc.b.blocks| + 2)))
    && Below(arm.a, CondJoin(e, b).next) && b.next <= rc.b.next <= start.next <= CondJoin(e, b).next
    && arm == CodegenE(if yes then e.t else e.f, start)
  }

  lemma CondCode(e: E, b: Builder)
    requires e.Cond?
    ensures CodegenE(e, b) == Emitted(Define(CondJoin(e, b), CondPhi(e, b)), Reg(CondJoin(e, b).next))
  {
    CondShape(e, b);
  }

  lemma LogicalCode(e: E, b: Builder)
    requires e.And? || e.Or?
    ensures CodegenE(e, b) == Emitted(Define(JoinPoint(e, b), JoinPhi(e, b)), Reg(JoinPoint(e, b).next))
  {
    LogicalShape(e, b);
  }

  lemma CondLinks(g: Graph, e: E, b: Builder)
    requires e.Cond? && Open(b) && Earlier(CodegenE(e, b).b.blocks, g)
    ensures CondLinked(g, e, b)
  {
    var m := CondJoin(e, b);
    CondCode(e, b);
    CondParts(e, b);
    BeforeDefine(m, CondPhi(e, b), g);
    EarlierTrans(CodegenE(e.c, b).b.blocks, m.blocks, g);
    EndedIsFinal(m.blocks, g, CodegenE(e.c, b).b.cur);
  }

  lemma ArmLinks(g: Graph, e: E, b: Builder, yes: bool)
    requires e.Cond? && Open(b) && Earlier(CondJoin(e, b).blocks, g)
    ensures ArmLinked(g, e, b, yes)
  {
    CondArms(e, b);
    CondParts(e, b);
    ArmEnds(g, CodegenE(e.c, b), CondJoin(e, b), Arm(e, b, yes));
    ArmStarts(e, b, yes);
  }

  /** The end of an arm is final. */
  lemma ArmEnds(g: Graph, rc: Emitted, m: Builder, arm: Emitted)
    requires Open(arm.b) && Earlier(arm.b.blocks, m.blocks) && Earlier(m.blocks, g)
    requires m.blocks[arm.b.cur] == arm.b.blocks[arm.b.cur].(term := Some(Br(|rc.b.blocks| + 2)))
    ensures Earlier(arm.b.blocks, g) && arm.b.cur < |g|
    ensures g[arm.b.cur] == arm.b.blocks[arm.b.cur].(term := Some(Br(|rc.b.blocks| + 2)))
  {
    EarlierTrans(arm.b.blocks, m.blocks, g);
    EndedIsFinal(m.blocks, g, arm.b.cur);
  }

  lemma ArmStarts(e: E, b: Builder, yes: bool)
    requires e.Cond? && CondBlocks(e, b)
    ensures
      var rc, arm, start := CodegenE(e.c, b), Arm(e, b, yes), ArmStart(e, b, yes);
      && Open(start) && start.blocks[start.cur].code == [] && start.cur == |rc.b.blocks| + (if yes then 0 else 1)
      && arm == CodegenE(if yes then e.t else e.f, start)
  {
    if yes { BranchOpen(CodegenE(e.c, b).b, 3, CondFork(e, b)); }
  }

  lemma {:induction false} CondCorrect(o: Sem, g: Graph, e: E, b: Builder, c: Conf) returns (k: nat, d: Conf)
    requires e.Cond? && Lawful(o) && Open(b) && AtEnd(b, c) && Earlier(CodegenE(e, b).b.blocks, g)
    ensures EDone(o, g, e, b, c, k, d)
    decreases e, 0
  {
    CondLinks(g, e, b);
    var a := Value(o, e.c, c.st);
    var yes := o.truth(a.0);
    var i, c1 := ToArm(o, g, e, b, c);
    ArmLinks(g, e, b, yes);
    var j;
    j, d := ArmWay(o, g, e, b, yes, c1);
    ArrivesAfter(o, g, e, b, c, i, c1, j, d, Value(o, if yes then e.t else e.f, a.1));
    k := i + j;
  }

  /** The condition, and the branch behind it. */
  lemma {:induction false} ToArm(o: Sem, g: Graph, e: E, b: Builder, c: Conf) returns (k: nat, d: Conf)
    requires e.Cond? && Lawful(o) && Open(b) && AtEnd(b, c) && CondLinked(g, e, b)
    ensures
      var a, n := Value(o, e.c, c.st), |CodegenE(e.c, b).b.blocks|;
      && Steps(o, g, k, c) == Some(d) && d.at == (if o.truth(a.0) then n else n + 1) && d.idx == 0
      && d.st == a.1 && Keeps(o, b.next, c, d)
    decreases e, 0, 1
  {
    var rc := CodegenE(e.c, b);
    var i, c1 := ECorrect(o, g, e.c, b, c);
    d := RunTerm(o, g, rc.b, CondFork(e, b), c1);
    StepsAdd(o, g, i, 1, c, c1);
    k := i + 1;
  }

  /** Through an arm and the join. */
  lemma {:induction false} ArmWay(o: Sem, g: Graph, e: E, b: Builder, yes: bool, c: Conf) returns (k: nat, d: Conf)
    requires e.Cond? && Lawful(o) && CondLinked(g, e, b) && ArmLinked(g, e, b, yes)
    requires c.at == ArmStart(e, b, yes).cur && c.idx == 0
    ensures Arrives(o, g, e, b, c, k, d, Value(o, if yes then e.t else e.f, c.st))
    decreases e, 0, 1
  {
    var j, c1 := ArmCorrect(o, g, e, b, yes, c);
    d := JumpPhi(o, g, Arm(e, b, yes).b, CondJoin(e, b), CondPhi(e, b), c1);
    StepsAdd(o, g, j, 2, c, c1);
    k := j + 2;
  }

  lemma {:induction false} ArmCorrect(o: Sem, g: Graph, e: E, b: Builder, yes: bool, c: Conf) returns (k: nat, d: Conf)
    requires e.Cond? && Lawful(o) && ArmLinked(g, e, b, yes) && c.at == ArmStart(e, b, yes).cur && c.idx == 0
    ensures
      var arm, v := Arm(e, b, yes), Value(o, if yes then e.t else e.f, c.st);
      && Steps(o, g, k, c) == Some(d) && AtEnd(arm.b, d) && d.st == v.1 && Get(o, d, arm.a) == v.0
      && Keeps(o, ArmStart(e, b, yes).next, c, d)
    decreases e, 0, 0
  {
    k, d := ECorrect(o, g, if yes then e.t else e.f, ArmStart(e, b, yes), c);
  }
}
