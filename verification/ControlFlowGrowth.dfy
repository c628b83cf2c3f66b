/** What code generation leaves alone: only the insertion block and new blocks change. */
module ControlFlowGrowth {
  import opened ShaderAst
  import opened ControlFlow
  import opened ControlFlowCodegen

  /** A later graph: open blocks may be longer or have ended, ended blocks are as they were. */
  ghost predicate Earlier(a: Graph, g: Graph) {
    |a| <= |g| && forall l | 0 <= l < |a| :: StillThere(a, g, l)
  }

  ghost predicate StillThere(a: Graph, g: Graph, l: nat)
    requires l < |a| <= |g|
  {
    a[l].code <= g[l].code && (a[l].term.Some? ==> g[l] == a[l])
  }

  lemma EarlierTrans(a: Graph, b: Graph, c: Graph)
    requires Earlier(a, b) && Earlier(b, c)
    ensures Earlier(a, c)
  {
    forall l | 0 <= l < |a| ensures StillThere(a, c, l) { assert StillThere(a, b, l) && StillThere(b, c, l); }
  }

  /** Only the insertion block and new blocks change, and the insertion block only grows. */
  ghost predicate Grows(b: Builder, c: Builder) {
    && Ok(b) && Ok(c)
    && |b.blocks| <= |c.blocks| && b.next <= c.next && c.breaks == b.breaks && c.conts == b.conts
    && (c.cur == b.cur || c.cur >= |b.blocks|)
    && (forall l | 0 <= l < |b.blocks| && l != b.cur :: c.blocks[l] == b.blocks[l])
    && b.blocks[b.cur].code <= c.blocks[b.cur].code
  }

  lemma GrowsTrans(b: Builder, c: Builder, d: Builder)
    requires Grows(b, c) && Grows(c, d)
    ensures Grows(b, d)
  {
  }

  lemma GrowsEarlier(b: Builder, c: Builder)
    requires Open(b) && Grows(b, c)
    ensures Earlier(b.blocks, c.blocks)
  {
  }

  lemma DefineGrows(b: Builder, i: Ins)
    requires Open(b)
    ensures Grows(b, Define(b, i)) && Open(Define(b, i)) && Grows(b, Append(b, i)) && Open(Append(b, i))
  {
  }

  predicate Below(a: Operand, n: nat) {
    a.Reg? ==> a.r < n
  }

  predicate AllBelow(operands: seq<Operand>, n: nat) {
    forall i | 0 <= i < |operands| :: Below(operands[i], n)
  }

  /** After a branch to fresh blocks and the code of the first of them, `c`, the others are still empty. */
  lemma BranchGrows(b: Builder, count: nat, t: Term, c: Builder)
    requires Open(b) && count > 0 && Grows(Branch(b, count, t), c)
    ensures Open(Branch(b, count, t)) && c.cur >= |b.blocks|
    ensures c.blocks[b.cur] == b.blocks[b.cur].(term := Some(t))
    ensures forall l | |b.blocks| < l < |b.blocks| + count :: l != c.cur && c.blocks[l] == Blk([], None)
    ensures forall l | 0 <= l < |b.blocks| && l != b.cur :: c.blocks[l] == b.blocks[l]
    ensures |b.blocks| + count <= |c.blocks| && b.next <= c.next
    ensures c.breaks == b.breaks && c.conts == b.conts
    ensures Earlier(b.blocks, c.blocks)
  {
    var d := Branch(b, count, t);
    assert d.blocks[b.cur] == b.blocks[b.cur].(term := Some(t));
    assert forall l | |b.blocks| <= l < |b.blocks| + count :: d.blocks[l] == Blk([], None);
    assert forall l | 0 <= l < |b.blocks| && l != b.cur :: d.blocks[l] == b.blocks[l];
  }

  lemma BranchOpen(b: Builder, count: nat, t: Term)
    requires Open(b) && count > 0
    ensures Open(Branch(b, count, t))
  {
  }

  // ---- expressions ----

  lemma {:induction false} EGrows(e: E, b: Builder)
    requires Open(b)
    ensures
      var r := CodegenE(e, b);
      Grows(b, r.b) && Open(r.b) && Below(r.a, r.b.next)
    decreases e, 1
  {
    match e
    case Lit(_) =>
    case Ref(x) => DefineGrows(b, Load(b.next, x));
    case Op(op, args) =>
      var r := CodegenArgs(args, b);
      ArgsGrow(args, b);
      DefineGrows(r.b, Compute(r.b.next, op, r.operands));
      GrowsTrans(b, r.b, Define(r.b, Compute(r.b.next, op, r.operands)));
    case And(_, _) => LogicalGrows(e, b);
    case Or(_, _) => LogicalGrows(e, b);
    case Cond(_, _, _) => CondGrows(e, b);
    case Set(x, e1) =>
      var r := CodegenE(e1, b);
      EGrows(e1, b);
      DefineGrows(r.b, Write(x, r.a));
      GrowsTrans(b, r.b, Append(r.b, Write(x, r.a)));
  }

  lemma {:induction false} ArgsGrow(es: seq<E>, b: Builder)
    requires Open(b)
    ensures
      var r := CodegenArgs(es, b);
      Grows(b, r.b) && Open(r.b) && AllBelow(r.operands, r.b.next)
    decreases es, 0
  {
    if es != [] {
      var h := CodegenE(es[0], b);
      EGrows(es[0], b);
      ArgsGrow(es[1..], h.b);
      GrowsTrans(b, h.b, CodegenArgs(es[1..], h.b).b);
    }
  }

  /** The left operand as a truth value. */
  function LeftPart(e: E, b: Builder): Builder
    requires e.And? || e.Or?
  {
    var rl := CodegenE(e.l, b);
    Define(rl.b, ToBool(rl.b.next, rl.a))
  }

  function Fork(e: E, b: Builder): Term
    requires e.And? || e.Or?
  {
    var n, flag := |LeftPart(e, b).blocks|, Reg(CodegenE(e.l, b).b.next);
    if e.And? then CondBr(flag, n, n + 1) else CondBr(flag, n + 1, n)
  }

  function RightPart(e: E, b: Builder): Emitted
    requires e.And? || e.Or?
  {
    CodegenE(e.r, Branch(LeftPart(e, b), 2, Fork(e, b)))
  }

  function RightBool(e: E, b: Builder): Builder
    requires e.And? || e.Or?
  {
    var rr := RightPart(e, b);
    Define(rr.b, ToBool(rr.b.next, rr.a))
  }

  lemma LogicalShape(e: E, b: Builder)
    requires e.And? || e.Or?
    ensures
      var lb, rr, rb := LeftPart(e, b), RightPart(e, b), RightBool(e, b);
      var m := Go(rb, |lb.blocks| + 1);
      CodegenE(e, b) == Emitted(Define(m, Phi(m.next, lb.cur, Flag(e.Or?), rb.cur, Reg(rr.b.next))), Reg(m.next))
  {
  }

  lemma {:induction false} LogicalGrows(e: E, b: Builder)
    requires Open(b) && (e.And? || e.Or?)
    ensures
      var r := CodegenE(e, b);
      Grows(b, r.b) && Open(r.b) && Below(r.a, r.b.next)
    decreases e, 0
  {
    LogicalParts(e, b);
    LogicalShape(e, b);
    var lb, rr, rb := LeftPart(e, b), RightPart(e, b), RightBool(e, b);
    var m := Go(rb, |lb.blocks| + 1);
    DefinedGrows(b, m, Phi(m.next, lb.cur, Flag(e.Or?), rb.cur, Reg(rr.b.next)));
  }

  lemma DefinedGrows(b: Builder, m: Builder, i: Ins)
    requires Grows(b, m) && Open(m)
    ensures Grows(b, Define(m, i)) && Open(Define(m, i)) && Below(Reg(m.next), Define(m, i).next)
  {
    DefineGrows(m, i);
    GrowsTrans(b, m, Define(m, i));
  }

  lemma {:induction false} LogicalOperands(e: E, b: Builder)
    requires Open(b) && (e.And? || e.Or?)
    ensures
      var rl, lb, rr, rb := CodegenE(e.l, b), LeftPart(e, b), RightPart(e, b), RightBool(e, b);
      && Open(rl.b) && Grows(b, rl.b) && Below(rl.a, rl.b.next) && Open(lb) && Grows(b, lb)
      && Open(Branch(lb, 2, Fork(e, b))) && Grows(Branch(lb, 2, Fork(e, b)), rr.b) && Open(rr.b) && Below(rr.a, rr.b.next)
      && Open(rb) && Grows(rr.b, rb)
    decreases e, 0, 0
  {
    var rl, rr := CodegenE(e.l, b), RightPart(e, b);
    EGrows(e.l, b);
    DefineGrows(rl.b, ToBool(rl.b.next, rl.a));
    GrowsTrans(b, rl.b, LeftPart(e, b));
    BranchOpen(LeftPart(e, b), 2, Fork(e, b));
    EGrows(e.r, Branch(LeftPart(e, b), 2, Fork(e, b)));
    DefineGrows(rr.b, ToBool(rr.b.next, rr.a));
  }

  /** The blocks of a logical operator before its phi. */
  lemma {:induction false} LogicalParts(e: E, b: Builder)
    requires Open(b) && (e.And? || e.Or?)
    ensures
      var lb, rb := LeftPart(e, b), RightBool(e, b);
      Joined(b, lb, Fork(e, b), rb) && Earlier(RightPart(e, b).b.blocks, Go(rb, |lb.blocks| + 1).blocks)
    decreases e, 0, 1
  {
    LogicalOperands(e, b);
    JoinAfter(b, LeftPart(e, b), Fork(e, b), RightPart(e, b).b, RightBool(e, b));
  }

  /** Behind a branch of `lb` to two blocks, code that began at the first of them, `rr`, is tested and joined. */
  lemma JoinAfter(b: Builder, lb: Builder, t: Term, rr: Builder, rb: Builder)
    requires Open(b) && Open(lb) && Grows(b, lb) && Grows(Branch(lb, 2, t), rr) && Open(rr) && Grows(rr, rb) && Open(rb)
    ensures Joined(b, lb, t, rb) && Earlier(rr.blocks, Go(rb, |lb.blocks| + 1).blocks)
  {
    var m := Go(rb, |lb.blocks| + 1);
    GrowsTrans(Branch(lb, 2, t), rr, rb);
    BranchGrows(lb, 2, t, rb);
    JoinOne(b, lb, rb, |lb.blocks| + 1);
    GrowsEarlier(rr, rb);
    EarlierTrans(rr.blocks, rb.blocks, m.blocks);
    EarlierTrans(lb.blocks, rb.blocks, m.blocks);
  }

  /** `rb`, which started at the first of two blocks after `lb`, ends with a jump to the second. */
  ghost predicate Joined(b: Builder, lb: Builder, t: Term, rb: Builder) {
    var n := |lb.blocks|;
    var m := Go(rb, n + 1);
    && Open(lb) && Grows(b, lb) && Open(rb) && n + 2 <= |rb.blocks| && rb.cur >= n && rb.cur != n + 1 && Ok(lb)
    && Grows(b, m) && Open(m) && m.blocks[n + 1] == Blk([], None)
    && m.blocks[lb.cur] == lb.blocks[lb.cur].(term := Some(t))
    && m.blocks[rb.cur] == rb.blocks[rb.cur].(term := Some(Br(n + 1)))
    && Earlier(lb.blocks, m.blocks) && Earlier(rb.blocks, m.blocks)
  }

  /** The end of the second path jumps to the empty block `j`. */
  lemma JoinOne(b: Builder, lb: Builder, rb: Builder, j: nat)
    requires Grows(b, lb) && Open(b) && Open(lb) && Open(rb) && rb.cur >= |lb.blocks| && rb.cur != j
    requires |lb.blocks| <= j < |rb.blocks| && rb.blocks[j] == Blk([], None) && lb.next <= rb.next
    requires rb.breaks == lb.breaks && rb.conts == lb.conts
    requires rb.blocks[lb.cur].code == lb.blocks[lb.cur].code
    requires forall l | 0 <= l < |lb.blocks| && l != lb.cur :: rb.blocks[l] == lb.blocks[l]
    ensures Grows(b, Go(rb, j)) && Open(Go(rb, j))
    ensures Earlier(rb.blocks, Go(rb, j).blocks)
    ensures forall l | 0 <= l < |rb.blocks| && l != rb.cur :: Go(rb, j).blocks[l] == rb.blocks[l]
  {
  }

  // ---- conditional expressions ----

  function ThenPart(e: E, b: Builder): Emitted
    requires e.Cond?
  {
    var rc := CodegenE(e.c, b);
    CodegenE(e.t, Branch(rc.b, 3, CondBr(rc.a, |rc.b.blocks|, |rc.b.blocks| + 1)))
  }

  function ElsePart(e: E, b: Builder): Emitted
    requires e.Cond?
  {
    CodegenE(e.f, At(ThenPart(e, b).b, |CodegenE(e.c, b).b.blocks| + 1))
  }

  /** Both ends joined at the empty block `j`. */
  function JoinBoth(f: Builder, l: nat, j: nat): Builder {
    Go(SetTerm(f, l, Br(j)), j)
  }

  lemma JoinTwo(b: Builder, cb: Builder, f: Builder, l: nat, j: nat)
    requires Grows(b, cb) && Open(b) && Open(cb) && Open(f) && f.cur >= |cb.blocks| && f.cur != j && f.cur != l
    requires |cb.blocks| <= l < |f.blocks| && l != j && f.blocks[l].term == None
    requires |cb.blocks| <= j < |f.blocks| && f.blocks[j] == Blk([], None) && cb.next <= f.next
    requires f.breaks == cb.breaks && f.conts == cb.conts
    requires f.blocks[cb.cur].code == cb.blocks[cb.cur].code
    requires forall l | 0 <= l < |cb.blocks| && l != cb.cur :: f.blocks[l] == cb.blocks[l]
    ensures
      var m := JoinBoth(f, l, j);
      && Grows(b, m) && Open(m) && Earlier(f.blocks, m.blocks)
      && m.blocks[l] == f.blocks[l].(term := Some(Br(j))) && m.blocks[f.cur] == f.blocks[f.cur].(term := Some(Br(j)))
      && m.blocks[cb.cur] == f.blocks[cb.cur] && m.blocks[j] == f.blocks[j]
  {
  }

  /** After the else arm, emitted at the fresh block `n + 1`, the then arm is as it was. */
  lemma ElseGrows(cb: Builder, t: Term, rt: Builder, f: Builder)
    requires Open(cb) && Grows(Branch(cb, 3, t), rt) && Open(rt) && Grows(At(rt, |cb.blocks| + 1), f) && Open(f)
    ensures
      var n := |cb.blocks|;
      && rt.cur >= n && rt.cur != n + 1 && rt.cur != n + 2 && f.cur != n + 2 && f.cur != rt.cur && f.cur >= n
      && n + 3 <= |rt.blocks| <= |f.blocks| && f.blocks[rt.cur] == rt.blocks[rt.cur]
      && f.blocks[n + 2] == Blk([], None) && rt.blocks[n + 1] == Blk([], None)
      && f.blocks[cb.cur] == cb.blocks[cb.cur].(term := Some(t))
      && (forall l | 0 <= l < n && l != cb.cur :: f.blocks[l] == cb.blocks[l])
      && cb.next <= rt.next <= f.next && f.breaks == cb.breaks && f.conts == cb.conts
      && Earlier(cb.blocks, f.blocks) && Earlier(rt.blocks, f.blocks) && Open(At(rt, n + 1))
  {
    BranchGrows(cb, 3, t, rt);
  }

  lemma CondShape(e: E, b: Builder)
    requires e.Cond?
    ensures
      var rc, rt, rf := CodegenE(e.c, b), ThenPart(e, b), ElsePart(e, b);
      var m := JoinBoth(rf.b, rt.b.cur, |rc.b.blocks| + 2);
      CodegenE(e, b) == Emitted(Define(m, Phi(m.next, rt.b.cur, rt.a, rf.b.cur, rf.a)), Reg(m.next))
  {
  }

  lemma {:induction false} CondArms(e: E, b: Builder)
    requires Open(b) && e.Cond?
    ensures
      var rc, rt, rf := CodegenE(e.c, b), ThenPart(e, b), ElsePart(e, b);
      var n := |rc.b.blocks|;
      var t := CondBr(rc.a, n, n + 1);
      && Open(rc.b) && Grows(b, rc.b) && Below(rc.a, rc.b.next) && Open(Branch(rc.b, 3, t))
      && Open(rt.b) && Grows(Branch(rc.b, 3, t), rt.b) && Below(rt.a, rt.b.next)
      && Open(rf.b) && Grows(At(rt.b, n + 1), rf.b) && Below(rf.a, rf.b.next)
    decreases e, 0, 0
  {
    var rc, rt := CodegenE(e.c, b), ThenPart(e, b);
    var n := |rc.b.blocks|;
    var t := CondBr(rc.a, n, n + 1);
    EGrows(e.c, b);
    BranchOpen(rc.b, 3, t);
    EGrows(e.t, Branch(rc.b, 3, t));
    BranchGrows(rc.b, 3, t, rt.b);
    EGrows(e.f, At(rt.b, n + 1));
  }

  /** The blocks of a conditional expression before its phi. */
  ghost predicate CondBlocks(e: E, b: Builder)
    requires e.Cond?
  {
    CondJoined(b, CodegenE(e.c, b), ThenPart(e, b), ElsePart(e, b))
  }

  ghost predicate CondJoined(b: Builder, rc: Emitted, rt: Emitted, rf: Emitted) {
    var n := |rc.b.blocks|;
    var t, m := CondBr(rc.a, n, n + 1), JoinBoth(rf.b, rt.b.cur, n + 2);
    && Grows(b, m) && Open(m) && n + 2 < |m.blocks| && m.blocks[n + 2] == Blk([], None) && rt.b.cur != rf.b.cur
    && Earlier(rc.b.blocks, m.blocks) && Earlier(rt.b.blocks, m.blocks) && Earlier(rf.b.blocks, m.blocks)
    && Open(rc.b) && Open(rt.b) && Open(rf.b) && Ok(rc.b)
    && rc.b.cur < |m.blocks| && m.blocks[rc.b.cur] == rc.b.blocks[rc.b.cur].(term := Some(t))
    && rt.b.cur < |m.blocks| && m.blocks[rt.b.cur] == rt.b.blocks[rt.b.cur].(term := Some(Br(n + 2)))
    && rf.b.cur < |m.blocks| && m.blocks[rf.b.cur] == rf.b.blocks[rf.b.cur].(term := Some(Br(n + 2)))
    && Open(At(rt.b, n + 1)) && rt.b.blocks[n + 1] == Blk([], None)
    && b.next <= rc.b.next <= rt.b.next <= rf.b.next == m.next
  }

  lemma {:induction false} CondParts(e: E, b: Builder)
    requires Open(b) && e.Cond?
    ensures CondBlocks(e, b)
    decreases e, 0, 1
  {
    CondArms(e, b);
    JoinArms(b, CodegenE(e.c, b), ThenPart(e, b), ElsePart(e, b));
  }

  lemma BothEarlier(a: Graph, a': Graph, b: Graph, c: Graph)
    requires Earlier(a, b) && Earlier(a', b) && Earlier(b, c)
    ensures Earlier(a, c) && Earlier(a', c)
  {
    EarlierTrans(a, b, c);
    EarlierTrans(a', b, c);
  }

  /** Behind a branch of `rc` to three blocks, code that began at the first and at the second is joined at the third. */
  lemma JoinArms(b: Builder, rc: Emitted, rt: Emitted, rf: Emitted)
    requires Open(b) && Open(rc.b) && Grows(b, rc.b) && Open(rt.b) && Open(rf.b)
    requires Grows(Branch(rc.b, 3, CondBr(rc.a, |rc.b.blocks|, |rc.b.blocks| + 1)), rt.b)
    requires Grows(At(rt.b, |rc.b.blocks| + 1), rf.b)
    ensures CondJoined(b, rc, rt, rf)
  {
    var n := |rc.b.blocks|;
    var m := JoinBoth(rf.b, rt.b.cur, n + 2);
    ElseGrows(rc.b, CondBr(rc.a, n, n + 1), rt.b, rf.b);
    JoinTwo(b, rc.b, rf.b, rt.b.cur, n + 2);
    BothEarlier(rc.b.blocks, rt.b.blocks, rf.b.blocks, m.blocks);
  }

  lemma {:induction false} CondJoinGrows(e: E, b: Builder)
    requires Open(b) && e.Cond?
    ensures
      var m := JoinBoth(ElsePart(e, b).b, ThenPart(e, b).b.cur, |CodegenE(e.c, b).b.blocks| + 2);
      Grows(b, m) && Open(m)
    decreases e, 0, 2
  {
    CondParts(e, b);
  }

  lemma {:induction false} CondGrows(e: E, b: Builder)
    requires Open(b) && e.Cond?
    ensures
      var r := CodegenE(e, b);
      Grows(b, r.b) && Open(r.b) && Below(r.a, r.b.next)
    decreases e, 0
  {
    CondJoinGrows(e, b);
    CondShape(e, b);
    var rc, rt, rf := CodegenE(e.c, b), ThenPart(e, b), ElsePart(e, b);
    var m := JoinBoth(rf.b, rt.b.cur, |rc.b.blocks| + 2);
    DefinedGrows(b, m, Phi(m.next, rt.b.cur, rt.a, rf.b.cur, rf.a));
  }

  // ---- statements ----

  /** Beyond `cb`, whose block may have ended, only new blocks have changed. */
  ghost predicate Based(cb: Builder, f: Builder) {
    && Ok(cb) && |cb.blocks| <= |f.blocks| && cb.next <= f.next
    && f.blocks[cb.cur].code == cb.blocks[cb.cur].code
    && forall l | 0 <= l < |cb.blocks| && l != cb.cur :: f.blocks[l] == cb.blocks[l]
  }

  lemma BasedGrows(b: Builder, cb: Builder, f: Builder, j: nat)
    requires Open(b) && Grows(b, cb) && Based(cb, f) && |cb.blocks| <= j < |f.blocks|
    requires f.breaks == b.breaks && f.conts == b.conts
    ensures Grows(b, At(f, j))
  {
  }

  lemma EndAtBased(cb: Builder, f: Builder, l: nat, to: nat)
    requires Based(cb, f) && l >= |cb.blocks|
    ensures Based(cb, EndAt(f, l, to)) && Earlier(f.blocks, EndAt(f, l, to).blocks)
    ensures |EndAt(f, l, to).blocks| == |f.blocks|
    ensures forall i | 0 <= i < |f.blocks| && i != l :: EndAt(f, l, to).blocks[i] == f.blocks[i]
    ensures l < |f.blocks| && f.blocks[l].term == None ==> EndAt(f, l, to).blocks[l] == f.blocks[l].(term := Some(Br(to)))
  {
  }

  lemma BasedThen(cb: Builder, f: Builder, h: Builder)
    requires Based(cb, f) && Grows(f, h) && f.cur >= |cb.blocks|
    ensures Based(cb, h) && h.cur >= |cb.blocks|
  {
  }

  lemma BranchBased(cb: Builder, count: nat, t: Term, f: Builder)
    requires Open(cb) && count > 0 && Grows(Branch(cb, count, t), f)
    ensures Based(cb, f)
  {
    BranchGrows(cb, count, t, f);
  }

  lemma {:induction false} SGrows(s: S, b: Builder)
    requires Open(b)
    ensures Grows(b, CodegenS(s, b))
    decreases s, 1
  {
    match s
    case Do(e) => EGrows(e, b);
    case Group(ss) => AllGrow(ss, b);
    case Choose(_, _, _) => ChooseGrows(s, b);
    case Loop(_, _, _, _) => LoopGrows(s, b);
    case Return(Some(e)) => EGrows(e, b);
    case _ =>
  }

  lemma {:induction false} AllGrow(ss: seq<S>, b: Builder)
    requires Ok(b)
    ensures Grows(b, CodegenAll(ss, b))
    decreases ss, 0
  {
    if ss != [] && !Terminated(b) {
      SGrows(ss[0], b);
      AllGrow(ss[1..], CodegenS(ss[0], b));
      GrowsTrans(b, CodegenS(ss[0], b), CodegenAll(ss[1..], CodegenS(ss[0], b)));
    }
  }

  function ChooseFork(s: S, b: Builder): Term
    requires s.Choose?
  {
    var rc := CodegenE(s.cond, b);
    CondBr(rc.a, |rc.b.blocks|, |rc.b.blocks| + 1)
  }

  function ChooseCount(s: S): nat
    requires s.Choose?
  {
    if s.els.None? then 2 else 3
  }

  function ThenBlock(s: S, b: Builder): Builder
    requires s.Choose?
  {
    CodegenS(s.thn, Branch(CodegenE(s.cond, b).b, ChooseCount(s), ChooseFork(s, b)))
  }

  function ElseBlock(s: S, b: Builder): Builder
    requires s.Choose? && s.els.Some?
  {
    CodegenS(s.els.value, At(ThenBlock(s, b), |CodegenE(s.cond, b).b.blocks| + 1))
  }

  /** Both arms closed. */
  function ChooseClosed(s: S, b: Builder): Builder
    requires s.Choose?
  {
    var n, bt := |CodegenE(s.cond, b).b.blocks|, ThenBlock(s, b);
    if s.els.None? then EndAt(bt, bt.cur, n + 1)
    else EndAt(EndAt(ElseBlock(s, b), bt.cur, n + 2), ElseBlock(s, b).cur, n + 2)
  }

  lemma ChooseShape(s: S, b: Builder)
    requires s.Choose?
    ensures CodegenS(s, b) == At(ChooseClosed(s, b), |CodegenE(s.cond, b).b.blocks| + ChooseCount(s) - 1)
  {
  }

  /** The arms of an `if` as they grow. */
  ghost predicate ArmsGrown(s: S, b: Builder)
    requires s.Choose?
  {
    var rc, bt, n := CodegenE(s.cond, b), ThenBlock(s, b), |CodegenE(s.cond, b).b.blocks|;
    && Open(rc.b) && Grows(b, rc.b) && Open(Branch(rc.b, ChooseCount(s), ChooseFork(s, b)))
    && Grows(Branch(rc.b, ChooseCount(s), ChooseFork(s, b)), bt)
    && (s.els.Some? ==> Open(At(bt, n + 1)) && Grows(At(bt, n + 1), ElseBlock(s, b)))
  }

  lemma {:induction false} ArmsGrow(s: S, b: Builder)
    requires s.Choose? && Open(b)
    ensures ArmsGrown(s, b)
    decreases s, 0, 0
  {
    var rc := CodegenE(s.cond, b);
    EGrows(s.cond, b);
    BranchOpen(rc.b, ChooseCount(s), ChooseFork(s, b));
    SGrows(s.thn, Branch(rc.b, ChooseCount(s), ChooseFork(s, b)));
    BranchGrows(rc.b, ChooseCount(s), ChooseFork(s, b), ThenBlock(s, b));
    if s.els.Some? { SGrows(s.els.value, At(ThenBlock(s, b), |rc.b.blocks| + 1)); }
  }

  /** A branch at the end of `cb`, one arm `bt`, and the closed blocks `z` with the empty merge block `j`. */
  ghost predicate ArmClosed(b: Builder, cb: Builder, count: nat, t: Term, bt: Builder, z: Builder, j: nat) {
    && Open(cb) && Based(cb, z) && j < |z.blocks| && z.blocks[j] == Blk([], None)
    && z.breaks == b.breaks && z.conts == b.conts
    && z.blocks[cb.cur] == cb.blocks[cb.cur].(term := Some(t))
    && Earlier(cb.blocks, z.blocks) && Earlier(bt.blocks, z.blocks) && Ok(bt) && bt.cur < |z.blocks|
    && (Open(bt) ==> z.blocks[bt.cur] == bt.blocks[bt.cur].(term := Some(Br(j))))
  }

  /** The other arm `bf`, which began at the empty block behind the first one of `cb`'s branch. */
  ghost predicate ElseClosed(b: Builder, cb: Builder, bt: Builder, bf: Builder, z: Builder, j: nat) {
    && Ok(bt) && |cb.blocks| + 1 < |bt.blocks| && bt.blocks[|cb.blocks| + 1] == Blk([], None)
    && bt.breaks == b.breaks && bt.conts == b.conts
    && Earlier(bf.blocks, z.blocks) && Ok(bf) && bf.cur < |z.blocks|
    && (Open(bf) ==> z.blocks[bf.cur] == bf.blocks[bf.cur].(term := Some(Br(j))))
  }

  /** Where the blocks of an `if` end up. */
  ghost predicate ChooseBlocks(s: S, b: Builder)
    requires s.Choose?
  {
    var cb, j := CodegenE(s.cond, b).b, |CodegenE(s.cond, b).b.blocks| + ChooseCount(s) - 1;
    && ArmClosed(b, cb, ChooseCount(s), ChooseFork(s, b), ThenBlock(s, b), ChooseClosed(s, b), j)
    && Open(Branch(cb, ChooseCount(s), ChooseFork(s, b)))
    && (s.els.Some? ==> ElseClosed(b, cb, ThenBlock(s, b), ElseBlock(s, b), ChooseClosed(s, b), j))
  }

  lemma {:induction false} ChooseParts(s: S, b: Builder)
    requires s.Choose? && Open(b)
    ensures ChooseBlocks(s, b)
    decreases s, 0, 1
  {
    ArmsGrow(s, b);
    if s.els.None? { OneArm(s, b); } else { TwoArms(s, b); }
  }

  lemma OneArm(s: S, b: Builder)
    requires s.Choose? && s.els.None? && Open(b) && ArmsGrown(s, b)
    ensures ChooseBlocks(s, b)
  {
    OneArmClosed(b, CodegenE(s.cond, b).b, ChooseFork(s, b), ThenBlock(s, b), ChooseClosed(s, b));
  }

  lemma OneArmClosed(b: Builder, cb: Builder, t: Term, bt: Builder, z: Builder)
    requires Open(cb) && Grows(b, cb) && Grows(Branch(cb, 2, t), bt) && z == EndAt(bt, bt.cur, |cb.blocks| + 1)
    ensures ArmClosed(b, cb, 2, t, bt, z, |cb.blocks| + 1)
  {
    BranchGrows(cb, 2, t, bt);
    BranchBased(cb, 2, t, bt);
    EndAtBased(cb, bt, bt.cur, |cb.blocks| + 1);
    EarlierTrans(cb.blocks, bt.blocks, z.blocks);
  }

  lemma TwoArms(s: S, b: Builder)
    requires s.Choose? && s.els.Some? && Open(b) && ArmsGrown(s, b)
    ensures ChooseBlocks(s, b)
  {
    TwoArmsClosed(b, CodegenE(s.cond, b).b, ChooseFork(s, b), ThenBlock(s, b), ElseBlock(s, b), ChooseClosed(s, b));
  }

  lemma TwoArmsClosed(b: Builder, cb: Builder, t: Term, bt: Builder, bf: Builder, z: Builder)
    requires Open(cb) && Grows(b, cb) && Grows(Branch(cb, 3, t), bt)
    requires Open(At(bt, |cb.blocks| + 1)) && Grows(At(bt, |cb.blocks| + 1), bf)
    requires z == EndAt(EndAt(bf, bt.cur, |cb.blocks| + 2), bf.cur, |cb.blocks| + 2)
    ensures ArmClosed(b, cb, 3, t, bt, z, |cb.blocks| + 2) && ElseClosed(b, cb, bt, bf, z, |cb.blocks| + 2)
  {
    BranchGrows(cb, 3, t, bt);
    ElseStmtGrows(cb, t, bt, bf);
    CloseTwo(cb, bt, bf, |cb.blocks| + 2);
  }

  /** Closing both arms. */
  lemma CloseTwo(cb: Builder, rt: Builder, f: Builder, j: nat)
    requires Open(cb) && Based(cb, f) && Ok(rt) && rt.cur >= |cb.blocks| && f.cur >= |cb.blocks| && f.cur != rt.cur
    requires Earlier(rt.blocks, f.blocks) && f.blocks[rt.cur] == rt.blocks[rt.cur] && Ok(f)
    requires j != rt.cur && j != f.cur && j < |f.blocks| && Earlier(cb.blocks, rt.blocks) && f.blocks[cb.cur].term.Some?
    ensures
      var z := EndAt(EndAt(f, rt.cur, j), f.cur, j);
      && Based(cb, z) && |z.blocks| == |f.blocks| && z.blocks[j] == f.blocks[j] && z.blocks[cb.cur] == f.blocks[cb.cur]
      && Earlier(cb.blocks, z.blocks) && Earlier(rt.blocks, z.blocks) && Earlier(f.blocks, z.blocks)
      && (Open(rt) ==> z.blocks[rt.cur] == rt.blocks[rt.cur].(term := Some(Br(j))))
      && (Open(f) ==> z.blocks[f.cur] == f.blocks[f.cur].(term := Some(Br(j))))
      && z.breaks == f.breaks && z.conts == f.conts
  {
    var h := EndAt(f, rt.cur, j);
    EndAtBased(cb, f, rt.cur, j);
    EndAtBased(cb, h, f.cur, j);
    var z := EndAt(h, f.cur, j);
    EarlierTrans(f.blocks, h.blocks, z.blocks);
    EarlierTrans(rt.blocks, f.blocks, z.blocks);
    EarlierTrans(cb.blocks, rt.blocks, z.blocks);
  }

  /** As ElseGrows, where the arms may have ended. */
  lemma ElseStmtGrows(cb: Builder, t: Term, rt: Builder, f: Builder)
    requires Open(cb) && Grows(Branch(cb, 3, t), rt) && Grows(At(rt, |cb.blocks| + 1), f) && Open(At(rt, |cb.blocks| + 1))
    ensures
      var n := |cb.blocks|;
      && rt.cur >= n && rt.cur != n + 1 && rt.cur != n + 2 && f.cur != n + 2 && f.cur != rt.cur && f.cur >= n
      && n + 3 <= |f.blocks| && |rt.blocks| <= |f.blocks| && f.blocks[rt.cur] == rt.blocks[rt.cur]
      && f.blocks[n + 2] == Blk([], None) && rt.blocks[n + 1] == Blk([], None)
      && Based(cb, f) && f.blocks[cb.cur] == cb.blocks[cb.cur].(term := Some(t)) && Earlier(rt.blocks, f.blocks)
      && rt.breaks == cb.breaks && rt.conts == cb.conts
  {
    BranchGrows(cb, 3, t, rt);
    GrowsEarlier(At(rt, |cb.blocks| + 1), f);
  }

  lemma {:induction false} ChooseGrows(s: S, b: Builder)
    requires s.Choose? && Open(b)
    ensures Grows(b, CodegenS(s, b))
    decreases s, 0, 2
  {
    var rc := CodegenE(s.cond, b);
    ChooseParts(s, b);
    ChooseShape(s, b);
    EGrows(s.cond, b);
    BasedGrows(b, rc.b, ChooseClosed(s, b), |rc.b.blocks| + ChooseCount(s) - 1);
  }

  // ---- loops ----

  lemma MaybeGrows(e: Option<E>, b: Builder)
    requires Open(b)
    ensures Grows(b, CodegenMaybe(e, b)) && Open(CodegenMaybe(e, b)) && Earlier(b.blocks, CodegenMaybe(e, b).blocks)
  {
    if e.Some? { EGrows(e.value, b); }
    GrowsEarlier(b, CodegenMaybe(e, b));
  }

  function LoopInit(s: S, b: Builder): Builder
    requires s.Loop?
  {
    CodegenMaybe(s.init, b)
  }

  function LoopTest(s: S, b: Builder): Emitted
    requires s.Loop?
  {
    var b0 := LoopInit(s, b);
    var b1 := Branch(b0, 4, Br(|b0.blocks|));
    if s.test.Some? then CodegenE(s.test.value, b1) else Emitted(b1, Flag(true))
  }

  function LoopFork(s: S, b: Builder): Term
    requires s.Loop?
  {
    CondBr(LoopTest(s, b).a, |LoopInit(s, b).blocks| + 1, |LoopInit(s, b).blocks| + 3)
  }

  /** At the body block, with the loop's own targets on the stacks. */
  function LoopEntry(s: S, b: Builder): Builder
    requires s.Loop?
  {
    var n, rc := |LoopInit(s, b).blocks|, LoopTest(s, b);
    var b2 := At(SetTerm(rc.b, rc.b.cur, LoopFork(s, b)), n + 1);
    b2.(breaks := b2.breaks + [n + 3], conts := b2.conts + [n + 2])
  }

  function LoopBody(s: S, b: Builder): Builder
    requires s.Loop?
  {
    CodegenS(s.body, LoopEntry(s, b))
  }

  /** At the latch block, the stacks as they were. */
  function LoopLatch(s: S, b: Builder): Builder
    requires s.Loop?
  {
    var n, b3 := |LoopInit(s, b).blocks|, LoopBody(s, b);
    At(EndAt(b3, b3.cur, n + 2).(breaks := b.breaks, conts := b.conts), n + 2)
  }

  function LoopInc(s: S, b: Builder): Builder
    requires s.Loop?
  {
    CodegenMaybe(s.inc, LoopLatch(s, b))
  }

  function LoopClosed(s: S, b: Builder): Builder
    requires s.Loop?
  {
    SetTerm(LoopInc(s, b), LoopInc(s, b).cur, Br(|LoopInit(s, b).blocks|))
  }

  lemma LoopShape(s: S, b: Builder)
    requires s.Loop?
    ensures CodegenS(s, b) == At(LoopClosed(s, b), |LoopInit(s, b).blocks| + 3)
  {
  }

  /** The test of a loop, up to its branch. */
  ghost predicate LoopTop(s: S, b: Builder)
    requires s.Loop?
  {
    var b0, rc, bb := LoopInit(s, b), LoopTest(s, b), LoopEntry(s, b);
    var n := |b0.blocks|;
    && Open(b0) && Grows(b, b0) && Open(Branch(b0, 4, Br(n))) && Open(rc.b) && Open(bb) && bb.blocks[n + 1] == Blk([], None)
    && Below(rc.a, rc.b.next) && Based(b0, bb) && n + 4 <= |bb.blocks| && bb.cur == n + 1
    && bb.blocks[n + 2] == Blk([], None) && bb.blocks[n + 3] == Blk([], None)
    && Earlier(b0.blocks, bb.blocks) && Earlier(rc.b.blocks, bb.blocks)
    && bb.blocks[b0.cur] == b0.blocks[b0.cur].(term := Some(Br(n)))
    && rc.b.cur < |bb.blocks| && bb.blocks[rc.b.cur] == rc.b.blocks[rc.b.cur].(term := Some(LoopFork(s, b)))
    && bb.breaks == b.breaks + [n + 3] && bb.conts == b.conts + [n + 2]
  }

  lemma LoopTopGrows(s: S, b: Builder)
    requires s.Loop? && Open(b)
    ensures LoopTop(s, b)
  {
    var b0, rc := LoopInit(s, b), LoopTest(s, b);
    var n := |b0.blocks|;
    var b1 := Branch(b0, 4, Br(n));
    MaybeGrows(s.init, b);
    BranchOpen(b0, 4, Br(n));
    if s.test.Some? { EGrows(s.test.value, b1); }
    BranchGrows(b0, 4, Br(n), rc.b);
    BranchBased(b0, 4, Br(n), rc.b);
    EarlierTrans(b0.blocks, rc.b.blocks, LoopEntry(s, b).blocks);
  }

  /** The rest of a loop. */
  ghost predicate LoopBottom(s: S, b: Builder)
    requires s.Loop?
  {
    var b0, bb, b3, b4, b5, z := LoopInit(s, b), LoopEntry(s, b), LoopBody(s, b), LoopLatch(s, b), LoopInc(s, b), LoopClosed(s, b);
    var n := |b0.blocks|;
    && Grows(bb, b3) && Open(b4) && b4.blocks[n + 2] == Blk([], None) && Open(b5) && Ok(b3)
    && Based(b0, z) && n + 4 <= |z.blocks| && z.blocks[n + 3] == Blk([], None)
    && Earlier(bb.blocks, z.blocks) && Earlier(b3.blocks, z.blocks) && Earlier(b5.blocks, z.blocks)
    && b3.cur < |z.blocks| && (Open(b3) ==> z.blocks[b3.cur] == b3.blocks[b3.cur].(term := Some(Br(n + 2))))
    && b5.cur < |z.blocks| && z.blocks[b5.cur] == b5.blocks[b5.cur].(term := Some(Br(n)))
    && z.breaks == b.breaks && z.conts == b.conts
  }

  lemma {:induction false} LoopParts(s: S, b: Builder)
    requires s.Loop? && Open(b)
    ensures LoopTop(s, b) && LoopBottom(s, b)
    decreases s, 0, 0
  {
    LoopTopGrows(s, b);
    SGrows(s.body, LoopEntry(s, b));
    LoopLatchGrows(s, b);
    LoopEndGrows(s, b);
  }

  /** From the end of the body, `b3`, to the latch, `b4`. */
  ghost predicate LatchOk(b: Builder, b0: Builder, bb: Builder, b3: Builder, b4: Builder) {
    var n := |b0.blocks|;
    && Ok(b3) && Ok(b0) && Open(b4) && b4.cur == n + 2 && b4.blocks[n + 2] == Blk([], None)
    && n + 4 <= |b4.blocks| && b4.blocks[n + 3] == Blk([], None) && Based(b0, b4)
    && Earlier(bb.blocks, b4.blocks) && Earlier(b3.blocks, b4.blocks)
    && b3.cur < |b4.blocks| && (Open(b3) ==> b4.blocks[b3.cur] == b3.blocks[b3.cur].(term := Some(Br(n + 2))))
    && b4.breaks == b.breaks && b4.conts == b.conts
  }

  ghost predicate LatchReady(s: S, b: Builder)
    requires s.Loop?
  {
    LatchOk(b, LoopInit(s, b), LoopEntry(s, b), LoopBody(s, b), LoopLatch(s, b))
  }

  lemma LoopLatchGrows(s: S, b: Builder)
    requires s.Loop? && LoopTop(s, b) && Grows(LoopEntry(s, b), LoopBody(s, b))
    ensures LatchReady(s, b)
  {
    LatchFacts(b, LoopInit(s, b), LoopEntry(s, b), LoopBody(s, b));
  }

  lemma LatchFacts(b: Builder, b0: Builder, bb: Builder, b3: Builder)
    requires Ok(b0) && Based(b0, bb) && Open(bb) && Grows(bb, b3) && bb.cur == |b0.blocks| + 1
    requires |b0.blocks| + 4 <= |bb.blocks|
    requires bb.blocks[|b0.blocks| + 2] == Blk([], None) && bb.blocks[|b0.blocks| + 3] == Blk([], None)
    ensures
      var n := |b0.blocks|;
      LatchOk(b, b0, bb, b3, At(EndAt(b3, b3.cur, n + 2).(breaks := b.breaks, conts := b.conts), n + 2))
  {
    BasedThen(b0, bb, b3);
    EndAtBased(b0, b3, b3.cur, |b0.blocks| + 2);
    GrowsEarlier(bb, b3);
    EarlierTrans(bb.blocks, b3.blocks, EndAt(b3, b3.cur, |b0.blocks| + 2).blocks);
  }

  lemma LoopEndGrows(s: S, b: Builder)
    requires s.Loop? && LoopTop(s, b) && Grows(LoopEntry(s, b), LoopBody(s, b)) && LatchReady(s, b)
    ensures LoopBottom(s, b)
  {
    var b0, b4, b5, z := LoopInit(s, b), LoopLatch(s, b), LoopInc(s, b), LoopClosed(s, b);
    MaybeGrows(s.inc, b4);
    BasedThen(b0, b4, b5);
    assert Earlier(b5.blocks, z.blocks);
    EarlierTrans(b4.blocks, b5.blocks, z.blocks);
    EarlierTrans(LoopEntry(s, b).blocks, b4.blocks, z.blocks);
    EarlierTrans(LoopBody(s, b).blocks, b4.blocks, z.blocks);
    if Open(LoopBody(s, b)) { EndedIsKept(b4.blocks, z.blocks, LoopBody(s, b).cur); }
  }

  lemma EndedIsKept(a: Graph, g: Graph, l: nat)
    requires Earlier(a, g) && l < |a| && a[l].term.Some?
    ensures g[l] == a[l]
  {
    assert StillThere(a, g, l);
  }

  lemma {:induction false} LoopGrows(s: S, b: Builder)
    requires s.Loop? && Open(b)
    ensures Grows(b, CodegenS(s, b))
    decreases s, 0, 2
  {
    LoopParts(s, b);
    LoopShape(s, b);
    BasedGrows(b, LoopInit(s, b), LoopClosed(s, b), |LoopInit(s, b).blocks| + 3);
  }
}
