/** The scalar code generator: an insertion point, and stacks of break and continue targets. */
module ControlFlowCodegen {
  import opened ShaderAst
  import opened ControlFlow

  /** Builder's blocks and insertion point, the next value name, BreakStack and ContinueStack. */
  datatype Builder = Builder(blocks: Graph, cur: nat, next: nat, breaks: seq<nat>, conts: seq<nat>)

  predicate Ok(b: Builder) {
    b.cur < |b.blocks|
  }

  predicate Open(b: Builder) {
    Ok(b) && b.blocks[b.cur].term == None
  }

  function Append(b: Builder, i: Ins): Builder {
    if Ok(b) then
      var k := b.blocks[b.cur];
      b.(blocks := b.blocks[b.cur := k.(code := k.code + [i])])
    else b
  }

  function SetTerm(b: Builder, l: nat, t: Term): Builder {
    if l < |b.blocks| then b.(blocks := b.blocks[l := b.blocks[l].(term := Some(t))]) else b
  }

  /** `count` fresh, empty blocks; their labels start at the old number of blocks. */
  function NewBlocks(b: Builder, count: nat): Builder {
    b.(blocks := b.blocks + seq(count, _ => Blk([], None)))
  }

  function At(b: Builder, l: nat): Builder {
    b.(cur := l)
  }

  /** Code that defines a new value. */
  function Define(b: Builder, i: Ins): Builder {
    Append(b, i).(next := b.next + 1)
  }

  datatype Emitted = Emitted(b: Builder, a: Operand)

  datatype EmittedAll = EmittedAll(b: Builder, operands: seq<Operand>)

  /** An expression: the code is appended at the insertion point, which may move to new blocks. */
  function CodegenE(e: E, b: Builder): Emitted
    decreases e, 1
  {
    match e
    case Lit(v) => Emitted(b, Imm(v))
    case Ref(x) => Emitted(Define(b, Load(b.next, x)), Reg(b.next))
    case Op(op, args) =>
      var r := CodegenArgs(args, b);
      Emitted(Define(r.b, Compute(r.b.next, op, r.operands)), Reg(r.b.next))
    case And(_, _) => CodegenLogical(e, b)
    case Or(_, _) => CodegenLogical(e, b)
    case Cond(_, _, _) => CodegenCond(e, b)
    case Set(x, e1) =>
      var r := CodegenE(e1, b);
      Emitted(Append(r.b, Write(x, r.a)), r.a)
  }

  function CodegenArgs(es: seq<E>, b: Builder): (r: EmittedAll)
    ensures |r.operands| == |es|
    decreases es, 0
  {
    if es == [] then EmittedAll(b, [])
    else
      var h := CodegenE(es[0], b);
      var t := CodegenArgs(es[1..], h.b);
      EmittedAll(t.b, [h.a] + t.operands)
  }

  /** A branch on `a` at the insertion point to two of `count` fresh blocks, the insertion point moving to the first. */
  function Branch(b: Builder, count: nat, t: Term): Builder {
    At(SetTerm(NewBlocks(b, count), b.cur, t), |b.blocks|)
  }

  /** Ends the insertion block with a jump, and goes on at another block. */
  function Go(b: Builder, to: nat): Builder {
    At(SetTerm(b, b.cur, Br(to)), to)
  }

  /** `&&` and `||`: the right operand has its own block, and a phi joins it with the short-cut constant. */
  function CodegenLogical(e: E, b: Builder): Emitted
    requires e.And? || e.Or?
    decreases e, 0
  {
    var rl := CodegenE(e.l, b);
    var lb := Define(rl.b, ToBool(rl.b.next, rl.a));
    var n := |lb.blocks|;
    var flag := Reg(rl.b.next);
    var rr := CodegenE(e.r, Branch(lb, 2, if e.And? then CondBr(flag, n, n + 1) else CondBr(flag, n + 1, n)));
    var rb := Define(rr.b, ToBool(rr.b.next, rr.a));
    var m := Go(rb, n + 1);
    Emitted(Define(m, Phi(m.next, lb.cur, Flag(e.Or?), rb.cur, Reg(rr.b.next))), Reg(m.next))
  }

  /** `?:`: both arms have their own blocks. */
  function CodegenCond(e: E, b: Builder): Emitted
    requires e.Cond?
    decreases e, 0
  {
    var rc := CodegenE(e.c, b);
    var n := |rc.b.blocks|;
    var rt := CodegenE(e.t, Branch(rc.b, 3, CondBr(rc.a, n, n + 1)));
    var rf := CodegenE(e.f, At(rt.b, n + 1));
    var m := Go(SetTerm(rf.b, rt.b.cur, Br(n + 2)), n + 2);
    Emitted(Define(m, Phi(m.next, rt.b.cur, rt.a, rf.b.cur, rf.a)), Reg(m.next))
  }

  function CodegenMaybe(e: Option<E>, b: Builder): Builder {
    if e.Some? then CodegenE(e.value, b).b else b
  }

  predicate Terminated(b: Builder) {
    Ok(b) && b.blocks[b.cur].term.Some?
  }

  /** Ends block `l` with a jump unless it has ended already. */
  function EndAt(b: Builder, l: nat, to: nat): Builder {
    if l < |b.blocks| && b.blocks[l].term == None then SetTerm(b, l, Br(to)) else b
  }

  /** A statement. */
  function CodegenS(s: S, b: Builder): Builder
    decreases s, 1
  {
    match s
    case Do(e) => CodegenE(e, b).b
    case Group(ss) => CodegenAll(ss, b)
    case Choose(_, _, _) => CodegenChoose(s, b)
    case Loop(_, _, _, _) => CodegenLoop(s, b)
    case Leave => if b.breaks == [] then b else SetTerm(b, b.cur, Br(b.breaks[|b.breaks| - 1]))
    case Next => if b.conts == [] then b else SetTerm(b, b.cur, Br(b.conts[|b.conts| - 1]))
    case Kill => SetTerm(b, b.cur, Unreachable)
    case Return(None) => SetTerm(b, b.cur, Ret(None))
    case Return(Some(e)) =>
      var r := CodegenE(e, b);
      SetTerm(r.b, r.b.cur, Ret(Some(r.a)))
  }

  /** What follows a terminator in its block is dropped. */
  function CodegenAll(ss: seq<S>, b: Builder): Builder
    decreases ss, 0
  {
    if ss == [] || Terminated(b) then b else CodegenAll(ss[1..], CodegenS(ss[0], b))
  }

  /** `if`: then, else and merge blocks; without an else the false edge goes to the merge block. */
  function CodegenChoose(s: S, b: Builder): Builder
    requires s.Choose?
    decreases s, 0
  {
    var rc := CodegenE(s.cond, b);
    var n := |rc.b.blocks|;
    if s.els.None? then
      var bt := CodegenS(s.thn, Branch(rc.b, 2, CondBr(rc.a, n, n + 1)));
      At(EndAt(bt, bt.cur, n + 1), n + 1)
    else
      var bt := CodegenS(s.thn, Branch(rc.b, 3, CondBr(rc.a, n, n + 1)));
      var bf := CodegenS(s.els.value, At(bt, n + 1));
      At(EndAt(EndAt(bf, bt.cur, n + 2), bf.cur, n + 2), n + 2)
  }

  /** Loops: condition, body, latch or increment, and end blocks; break goes to the end, continue to the latch. */
  function CodegenLoop(s: S, b: Builder): Builder
    requires s.Loop?
    decreases s, 0
  {
    var b0 := CodegenMaybe(s.init, b);
    var n := |b0.blocks|;
    var b1 := Branch(b0, 4, Br(n));
    var rc := if s.test.Some? then CodegenE(s.test.value, b1) else Emitted(b1, Flag(true));
    var b2 := At(SetTerm(rc.b, rc.b.cur, CondBr(rc.a, n + 1, n + 3)), n + 1);
    var b3 := CodegenS(s.body, b2.(breaks := b2.breaks + [n + 3], conts := b2.conts + [n + 2]));
    var b4 := At(EndAt(b3, b3.cur, n + 2).(breaks := b.breaks, conts := b.conts), n + 2);
    var b5 := CodegenMaybe(s.inc, b4);
    At(SetTerm(b5, b5.cur, Br(n)), n + 3)
  }
}
