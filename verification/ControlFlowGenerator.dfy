/** The scalar code generator as it runs: blocks grow in place, and the insertion point moves. */
module ControlFlowGenerator {
  import opened ShaderAst
  import opened ControlFlow
  import opened ControlFlowCodegen
  import opened ControlFlowGrowth
  import opened ControlFlowCorrectness
  import opened ControlFlowSimulation
  import opened ControlFlowReturns

  /** Whatever the source does, for every meaning of its operations, the graph does. */
  ghost predicate Means(g: Graph, s: S, isVoid: bool) {
    forall o: Sem, n: nat, st: Store | Lawful(o) :: MeansOn(g, s, isVoid, o, n, st)
  }

  ghost predicate MeansOn(g: Graph, s: S, isVoid: bool, o: Sem, n: nat, st: Store) {
    exists k: nat :: Matches(o, g, isVoid, n, st, Exec(o, n, s, st), k)
  }

  lemma FunctionMeans(s: S, isVoid: bool)
    requires InLoopOnly(s, false) && ReturnsFit(s, isVoid) && CompileBody(s, isVoid).Some?
    ensures Means(CompileBody(s, isVoid).value, s, isVoid)
  {
    var g := CompileBody(s, isVoid).value;
    forall o: Sem, n: nat, st: Store | Lawful(o) ensures MeansOn(g, s, isVoid, o, n, st) {
      var k := FunctionCorrect(o, s, isVoid, n, st);
    }
  }

  /** The then arm's end is not touched by the else arm. */
  lemma ThenEndKept(s: S, b: Builder)
    requires s.Choose? && s.els.Some? && Open(b)
    ensures Ok(ThenBlock(s, b)) && ThenBlock(s, b).cur < |ElseBlock(s, b).blocks|
    ensures ElseBlock(s, b).blocks[ThenBlock(s, b).cur] == ThenBlock(s, b).blocks[ThenBlock(s, b).cur]
    ensures ThenBlock(s, b).cur != ElseBlock(s, b).cur && Ok(ElseBlock(s, b))
  {
    ArmsGrow(s, b);
    BranchGrows(CodegenE(s.cond, b).b, 3, ChooseFork(s, b), ThenBlock(s, b));
    ElseStmtGrows(CodegenE(s.cond, b).b, ChooseFork(s, b), ThenBlock(s, b), ElseBlock(s, b));
  }

  /** The operands of `&&` and `||`, and the parts of `?:`, are emitted at open blocks. */
  lemma LogicalOpens(e: E, b: Builder)
    requires Open(b) && (e.And? || e.Or?)
    ensures Open(LeftPart(e, b)) && Open(Branch(LeftPart(e, b), 2, Fork(e, b))) && Open(RightBool(e, b))
    ensures |LeftPart(e, b).blocks| + 1 < |RightBool(e, b).blocks|
  {
    LogicalOperands(e, b);
  }

  lemma CondOpens(e: E, b: Builder)
    requires Open(b) && e.Cond?
    ensures
      var rc, n := CodegenE(e.c, b), |CodegenE(e.c, b).b.blocks|;
      Open(rc.b) && Open(Branch(rc.b, 3, CondBr(rc.a, n, n + 1))) && Open(ThenPart(e, b).b) && Open(At(ThenPart(e, b).b, n + 1))
  {
    CondArms(e, b);
    BranchGrows(CodegenE(e.c, b).b, 3, CondFork(e, b), ThenPart(e, b).b);
  }

  lemma CondEnds(e: E, b: Builder)
    requires e.Cond? && Open(b)
    ensures
      var t, f := ThenPart(e, b).b, ElsePart(e, b).b;
      t.cur < |f.blocks| && Ok(f) && Open(CondJoin(e, b)) && f.next == CondJoin(e, b).next
  {
    CondParts(e, b);
    CondArms(e, b);
  }

  /** What the arms of an `if` leave for closing them. */
  lemma ChooseEnds(s: S, b: Builder)
    requires s.Choose? && Open(b)
    ensures
      var t, n := ThenBlock(s, b), |CodegenE(s.cond, b).b.blocks|;
      && Ok(t) && t.breaks == b.breaks && t.conts == b.conts
      && (s.els.Some? ==>
           var f := ElseBlock(s, b);
           Open(At(t, n + 1)) && Ok(f) && t.cur < |f.blocks| && f.blocks[t.cur] == t.blocks[t.cur] && t.cur != f.cur)
  {
    ArmsGrow(s, b);
    if s.els.Some? { ThenEndKept(s, b); }
  }

  /** A loop's body and increment are emitted at open blocks. */
  lemma LoopOpens(s: S, b: Builder)
    requires s.Loop? && Open(b)
    ensures
      var rc, n := LoopTest(s, b), |LoopInit(s, b).blocks|;
      && Open(At(SetTerm(rc.b, rc.b.cur, LoopFork(s, b)), n + 1)) && rc.b.breaks == b.breaks && rc.b.conts == b.conts
      && Open(LoopLatch(s, b))
  {
    LoopParts(s, b);
    TestStacks(s, b);
  }

  lemma TestStacks(s: S, b: Builder)
    requires s.Loop? && Open(b)
    ensures LoopTest(s, b).b.breaks == b.breaks && LoopTest(s, b).b.conts == b.conts
  {
    var b0 := LoopInit(s, b);
    var b1 := Branch(b0, 4, Br(|b0.blocks|));
    MaybeGrows(s.init, b);
    BranchOpen(b0, 4, Br(|b0.blocks|));
    if s.test.Some? { EGrows(s.test.value, b1); }
  }

  class Generator {
    var blocks: Graph
    var cur: nat
    var next: nat
    var breaks: seq<nat>
    var conts: seq<nat>

    constructor ()
      ensures State() == EMPTY
    {
      blocks, cur, next, breaks, conts := [Blk([], None)], 0, 0, [], [];
    }

    function State(): Builder
      reads this
    {
      Builder(blocks, cur, next, breaks, conts)
    }

    /** Appends to the insertion block. */
    method Emit(i: Ins)
      requires Ok(State())
      modifies this
      ensures State() == Append(old(State()), i)
    {
      blocks := blocks[cur := blocks[cur].(code := blocks[cur].code + [i])];
    }

    method DefineValue(i: Ins) returns (a: Operand)
      requires Ok(State())
      modifies this
      ensures State() == Define(old(State()), i) && a == Reg(old(next))
    {
      Emit(i);
      a := Reg(next);
      next := next + 1;
    }

    method Terminate(t: Term)
      requires Ok(State())
      modifies this
      ensures State() == SetTerm(old(State()), old(cur), t)
    {
      blocks := blocks[cur := blocks[cur].(term := Some(t))];
    }

    method CreateBlock() returns (l: nat)
      modifies this
      ensures l == |old(blocks)| && State() == old(State()).(blocks := old(blocks) + [Blk([], None)])
    {
      l := |blocks|;
      blocks := blocks + [Blk([], None)];
    }

    method TwoBlocks() returns (l: nat)
      modifies this
      ensures l == |old(blocks)| && State() == NewBlocks(old(State()), 2)
    {
      ghost var before := blocks;
      l := CreateBlock();
      var m := CreateBlock();
      assert blocks == before + seq(2, _ => Blk([], None));
    }

    method ThreeBlocks() returns (l: nat)
      modifies this
      ensures l == |old(blocks)| && State() == NewBlocks(old(State()), 3)
    {
      ghost var before := blocks;
      l := TwoBlocks();
      var m := CreateBlock();
      assert blocks == before + seq(3, _ => Blk([], None));
    }

    method FourBlocks() returns (l: nat)
      modifies this
      ensures l == |old(blocks)| && State() == NewBlocks(old(State()), 4)
    {
      ghost var before := blocks;
      l := ThreeBlocks();
      var m := CreateBlock();
      assert blocks == before + seq(4, _ => Blk([], None));
    }

    method SetInsertPoint(l: nat)
      modifies this
      ensures State() == At(old(State()), l)
    {
      cur := l;
    }

    // ---- expressions ----

    method Expression(e: E) returns (a: Operand)
      requires Open(State())
      modifies this
      ensures Emitted(State(), a) == CodegenE(e, old(State()))
      decreases e, 1
    {
      EGrows(e, State());
      match e
      case Lit(v) => a := Imm(v);
      case Ref(x) => a := DefineValue(Load(next, x));
      case Op(op, args) =>
        ArgsGrow(args, State());
        var vs := Arguments(args);
        a := DefineValue(Compute(next, op, vs));
      case And(_, _) => a := Logical(e);
      case Or(_, _) => a := Logical(e);
      case Cond(_, _, _) => a := Conditional(e);
      case Set(x, e1) =>
        EGrows(e1, State());
        a := Expression(e1);
        Emit(Write(x, a));
    }

    method Arguments(es: seq<E>) returns (vs: seq<Operand>)
      requires Open(State())
      modifies this
      ensures EmittedAll(State(), vs) == CodegenArgs(es, old(State()))
      decreases es, 0
    {
      if es == [] { return []; }
      EGrows(es[0], State());
      var h := Expression(es[0]);
      var t := Arguments(es[1..]);
      vs := [h] + t;
    }

    /** A jump from the insertion block to `l`, where code goes on. */
    method Jump(l: nat)
      requires Ok(State())
      modifies this
      ensures State() == Go(old(State()), l)
    {
      Terminate(Br(l));
      SetInsertPoint(l);
    }

    /** An operand as a truth value. */
    method Truth(e: E) returns (a: Operand)
      requires Open(State())
      modifies this
      ensures
        var r := CodegenE(e, old(State()));
        State() == Define(r.b, ToBool(r.b.next, r.a)) && a == Reg(r.b.next)
      decreases e, 2
    {
      EGrows(e, State());
      var v := Expression(e);
      a := DefineValue(ToBool(next, v));
    }

    method LogicalBranch(isAnd: bool, flag: Operand) returns (rhs: nat)
      requires Ok(State())
      modifies this
      ensures rhs == |old(blocks)|
      ensures State() == Branch(old(State()), 2, if isAnd then CondBr(flag, rhs, rhs + 1) else CondBr(flag, rhs + 1, rhs))
    {
      rhs := TwoBlocks();
      Terminate(if isAnd then CondBr(flag, rhs, rhs + 1) else CondBr(flag, rhs + 1, rhs));
      SetInsertPoint(rhs);
    }

    /** Both operands of `&&` or `||`, the right one in its block. */
    method BothTruths(e: E) returns (lhsEnd: nat, rhs: nat, right: Operand)
      requires Open(State()) && (e.And? || e.Or?)
      modifies this
      ensures State() == RightBool(e, old(State())) && lhsEnd == LeftPart(e, old(State())).cur
      ensures rhs == |LeftPart(e, old(State())).blocks| && right == Reg(RightPart(e, old(State())).b.next)
      decreases e, 0, 0, 0
    {
      LogicalOpens(e, State());
      var flag := Truth(e.l);
      lhsEnd := cur;
      rhs := LogicalBranch(e.And?, flag);
      right := Truth(e.r);
    }

    /** ... up to the jump to the merge block. */
    method Operands(e: E) returns (lhsEnd: nat, rhsEnd: nat, right: Operand)
      requires Open(State()) && (e.And? || e.Or?)
      modifies this
      ensures State() == JoinPoint(e, old(State())) && lhsEnd == LeftPart(e, old(State())).cur
      ensures rhsEnd == RightBool(e, old(State())).cur && right == Reg(RightPart(e, old(State())).b.next)
      ensures Ok(State())
      decreases e, 0, 0
    {
      LogicalOpens(e, State());
      var rhs;
      lhsEnd, rhs, right := BothTruths(e);
      rhsEnd := cur;
      Jump(rhs + 1);
    }

    method Logical(e: E) returns (a: Operand)
      requires Open(State()) && (e.And? || e.Or?)
      modifies this
      ensures Emitted(State(), a) == CodegenE(e, old(State()))
      decreases e, 0, 1
    {
      LogicalShape(e, State());
      var lhsEnd, rhsEnd, right := Operands(e);
      a := DefineValue(Phi(next, lhsEnd, Flag(e.Or?), rhsEnd, right));
    }

    method CondBranch(c: Operand) returns (thn: nat)
      requires Ok(State())
      modifies this
      ensures thn == |old(blocks)| && State() == Branch(old(State()), 3, CondBr(c, thn, thn + 1))
    {
      thn := ThreeBlocks();
      Terminate(CondBr(c, thn, thn + 1));
      SetInsertPoint(thn);
    }

    method CloseBoth(thenEnd: nat, elseEnd: nat, merge: nat)
      requires thenEnd < |blocks| && elseEnd < |blocks| && elseEnd == cur
      modifies this
      ensures State() == JoinBoth(old(State()), thenEnd, merge)
    {
      SetInsertPoint(thenEnd);
      Terminate(Br(merge));
      SetInsertPoint(elseEnd);
      Jump(merge);
    }

    /** The condition, the branch on it, and the first arm. */
    method CondThen(e: E) returns (thn: nat, t: Operand)
      requires Open(State()) && e.Cond?
      modifies this
      ensures State() == ThenPart(e, old(State())).b && t == ThenPart(e, old(State())).a
      ensures thn == |CodegenE(e.c, old(State())).b.blocks|
      decreases e, 0, 0, 0
    {
      CondOpens(e, State());
      var c := Expression(e.c);
      thn := CondBranch(c);
      t := Expression(e.t);
    }

    /** ... and the second. */
    method CondOperands(e: E) returns (thn: nat, thenEnd: nat, t: Operand, f: Operand)
      requires Open(State()) && e.Cond?
      modifies this
      ensures State() == ElsePart(e, old(State())).b && f == ElsePart(e, old(State())).a
      ensures thenEnd == ThenPart(e, old(State())).b.cur && t == ThenPart(e, old(State())).a
      ensures thn == |CodegenE(e.c, old(State())).b.blocks|
      decreases e, 0, 0
    {
      CondOpens(e, State());
      thn, t := CondThen(e);
      thenEnd := cur;
      SetInsertPoint(thn + 1);
      f := Expression(e.f);
    }

    method Conditional(e: E) returns (a: Operand)
      requires Open(State()) && e.Cond?
      modifies this
      ensures Emitted(State(), a) == CodegenE(e, old(State()))
      decreases e, 0, 1
    {
      CondEnds(e, State());
      CondShape(e, State());
      var thn, thenEnd, t, f := CondOperands(e);
      var elseEnd := cur;
      CloseBoth(thenEnd, elseEnd, thn + 2);
      a := DefineValue(Phi(next, thenEnd, t, elseEnd, f));
    }

    // ---- statements ----

    method Statement(s: S)
      requires Open(State()) && InLoopOnly(s, breaks != []) && Targets(State())
      modifies this
      ensures State() == CodegenS(s, old(State()))
      decreases s, 1
    {
      match s
      case Do(e) => var a := Expression(e);
      case Group(ss) => Sequence(ss);
      case Choose(_, _, _) => If(s);
      case Loop(_, _, _, _) => LoopStatement(s);
      case Leave => Terminate(Br(breaks[|breaks| - 1]));
      case Next => Terminate(Br(conts[|conts| - 1]));
      case Kill => Terminate(Unreachable);
      case Return(_) => ReturnStatement(s);
    }

    method ReturnStatement(s: S)
      requires s.Return? && Open(State())
      modifies this
      ensures State() == CodegenS(s, old(State()))
      decreases s, 0
    {
      if s.result.None? {
        Terminate(Ret(None));
      } else {
        EGrows(s.result.value, State());
        var a := Expression(s.result.value);
        Terminate(Ret(Some(a)));
      }
    }

    /** A block; what follows a terminator is dropped. */
    method Sequence(ss: seq<S>)
      requires Open(State()) && InLoopOnly(Group(ss), breaks != []) && Targets(State())
      modifies this
      ensures State() == CodegenAll(ss, old(State()))
      decreases ss, 0
    {
      ghost var b := State();
      var i := 0;
      while i < |ss|
        invariant 0 <= i <= |ss| && Ok(State())
        invariant CodegenAll(ss[i..], State()) == CodegenAll(ss, b)
        invariant breaks == old(breaks) && conts == old(conts)
      {
        if blocks[cur].term.Some? { break; }
        SGrows(ss[i], State());
        assert ss[i..][0] == ss[i] && ss[i..][1..] == ss[i + 1..];
        Statement(ss[i]);
        i := i + 1;
      }
    }

    method IfBranch(c: Operand, hasElse: bool) returns (thn: nat)
      requires Ok(State())
      modifies this
      ensures thn == |old(blocks)|
      ensures State() == Branch(old(State()), if hasElse then 3 else 2, CondBr(c, thn, thn + 1))
    {
      if hasElse { thn := ThreeBlocks(); } else { thn := TwoBlocks(); }
      Terminate(CondBr(c, thn, thn + 1));
      SetInsertPoint(thn);
    }

    /** The condition and the then arm of an `if`. */
    method IfThen(s: S) returns (thn: nat)
      requires s.Choose? && Open(State()) && InLoopOnly(s, breaks != []) && Targets(State())
      modifies this
      ensures State() == ThenBlock(s, old(State())) && thn == |CodegenE(s.cond, old(State())).b.blocks|
      decreases s, 0, 0
    {
      ArmsGrow(s, State());
      EGrows(s.cond, State());
      var c := Expression(s.cond);
      thn := IfBranch(c, s.els.Some?);
      Statement(s.thn);
    }

    /** The end of an arm, `l`, jumps to the merge block unless the arm has ended. */
    method CloseArm(l: nat, terminated: bool, merge: nat)
      requires l < |blocks| && terminated == blocks[l].term.Some?
      modifies this
      ensures State() == At(EndAt(old(State()), l, merge), cur)
    {
      if !terminated {
        SetInsertPoint(l);
        Terminate(Br(merge));
      }
    }

    method CloseArms(thenEnd: nat, thenTerminated: bool, elseEnd: nat, elseTerminated: bool, merge: nat)
      requires thenEnd < |blocks| && elseEnd < |blocks| && thenEnd != elseEnd
      requires thenTerminated == blocks[thenEnd].term.Some? && elseTerminated == blocks[elseEnd].term.Some?
      modifies this
      ensures State() == At(EndAt(EndAt(old(State()), thenEnd, merge), elseEnd, merge), merge)
    {
      CloseArm(thenEnd, thenTerminated, merge);
      CloseArm(elseEnd, elseTerminated, merge);
      SetInsertPoint(merge);
    }

    method If(s: S)
      requires s.Choose? && Open(State()) && InLoopOnly(s, breaks != []) && Targets(State())
      modifies this
      ensures State() == CodegenS(s, old(State()))
      decreases s, 0, 1
    {
      ChooseEnds(s, State());
      ChooseShape(s, State());
      var thn := IfThen(s);
      var thenEnd := cur;
      var thenTerminated := blocks[cur].term.Some?;
      if s.els.Some? {
        SetInsertPoint(thn + 1);
        Statement(s.els.value);
        var elseEnd := cur;
        var elseTerminated := blocks[cur].term.Some?;
        CloseArms(thenEnd, thenTerminated, elseEnd, elseTerminated, thn + 2);
      } else {
        CloseArm(thenEnd, thenTerminated, thn + 1);
        SetInsertPoint(thn + 1);
      }
    }

    /** The condition block of a loop, up to its branch. */
    method LoopHead(s: S) returns (cond: nat)
      requires s.Loop? && Open(State())
      modifies this
      ensures cond == |LoopInit(s, old(State())).blocks|
      ensures State() == At(SetTerm(LoopTest(s, old(State())).b, LoopTest(s, old(State())).b.cur, LoopFork(s, old(State()))), cond + 1)
    {
      LoopTopGrows(s, State());
      if s.init.Some? { var i := Expression(s.init.value); }
      cond := LoopBranch();
      var c := Flag(true);
      if s.test.Some? { c := Expression(s.test.value); }
      Terminate(CondBr(c, cond + 1, cond + 3));
      SetInsertPoint(cond + 1);
    }

    method LoopBranch() returns (cond: nat)
      requires Ok(State())
      modifies this
      ensures cond == |old(blocks)| && State() == Branch(old(State()), 4, Br(cond))
    {
      cond := FourBlocks();
      Terminate(Br(cond));
      SetInsertPoint(cond);
    }

    /** The body, with the loop's targets pushed and popped again. */
    method Body(s: S, end: nat, latch: nat)
      requires Open(State()) && InLoopOnly(s, true) && Targets(State())
      modifies this
      ensures
        var b := old(State());
        var b3 := CodegenS(s, b.(breaks := b.breaks + [end], conts := b.conts + [latch]));
        State() == EndAt(b3, b3.cur, latch).(breaks := b.breaks, conts := b.conts)
      decreases s, 2
    {
      breaks, conts := breaks + [end], conts + [latch];
      SGrows(s, State());
      Statement(s);
      if blocks[cur].term.None? { Terminate(Br(latch)); }
      breaks, conts := breaks[..|breaks| - 1], conts[..|conts| - 1];
    }

    method LoopTail(inc: Option<E>, cond: nat)
      requires Open(State())
      modifies this
      ensures
        var b5 := CodegenMaybe(inc, old(State()));
        State() == SetTerm(b5, b5.cur, Br(cond))
    {
      MaybeGrows(inc, State());
      if inc.Some? { var i := Expression(inc.value); }
      if blocks[cur].term.None? { Terminate(Br(cond)); }
    }

    /** From the start of the body to the start of the latch. */
    method LoopMiddle(s: S, cond: nat, ghost b: Builder)
      requires s.Loop? && Open(State()) && InLoopOnly(s.body, true) && Targets(State())
      requires cond == |LoopInit(s, b).blocks| && breaks == b.breaks && conts == b.conts
      requires State().(breaks := breaks + [cond + 3], conts := conts + [cond + 2]) == LoopEntry(s, b)
      modifies this
      ensures State() == LoopLatch(s, b)
      decreases s, 0, 0
    {
      Body(s.body, cond + 3, cond + 2);
      SetInsertPoint(cond + 2);
    }

    method LoopStatement(s: S)
      requires s.Loop? && Open(State()) && InLoopOnly(s, breaks != []) && Targets(State())
      modifies this
      ensures State() == CodegenS(s, old(State()))
      decreases s, 0, 1
    {
      ghost var b := State();
      LoopOpens(s, b);
      LoopShape(s, b);
      var cond := LoopHead(s);
      LoopMiddle(s, cond, b);
      LoopTail(s.inc, cond);
      SetInsertPoint(cond + 3);
    }

    /** The graph of a whole function does what its source does. There is one unless the function has a type, nothing cuts
        its body, and the body may end with something else than a return. */
    method CompileFunction(s: S, isVoid: bool) returns (g: Option<Graph>)
      requires State() == EMPTY && InLoopOnly(s, false) && ReturnsFit(s, isVoid)
      modifies this
      ensures g == CompileBody(s, isVoid) && (g.Some? ==> Means(g.value, s, isVoid))
      ensures g.Some? <==> isVoid || Cut(s) || OnlyReturns(LastOnes(s))
    {
      SGrows(s, EMPTY);
      AcceptedIff(s, isVoid);
      Statement(s);
      if blocks[cur].term.None? {
        if isVoid {
          Terminate(Ret(None));
        } else if AllPathsReturn(s) {
          Terminate(Unreachable);
        } else {
          return None;
        }
      }
      FunctionMeans(s, isVoid);
      g := Some(blocks);
    }
  }
}
