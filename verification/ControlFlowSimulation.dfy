/** Statements: the graph does what the source does, and goes on exactly as long. */
module ControlFlowSimulation {
  import opened ShaderAst
  import opened ControlFlow
  import opened ControlFlowIteration
  import opened ControlFlowCodegen
  import opened ControlFlowGrowth
  import opened ControlFlowCorrectness

  /** Where a statement emitted at `b`, leaving the builder at `z`, takes execution for each outcome: to the end of
      what was emitted, to the innermost break or continue target, or nowhere. A run the iteration bound `n` cuts
      short goes on for at least `n` steps. */
  ghost predicate Ends(o: Sem, g: Graph, b: Builder, z: Builder, n: nat, c: Conf, k: nat, d: Conf, r: Outcome) {
    match r
    case Timeout => k >= n && Steps(o, g, k, c).Some?
    case Done(f, st) =>
      && Steps(o, g, k, c) == Some(d) && d.st == st
      && match f
         case Normal => Open(z) && AtEnd(z, d)
         case Left => b.breaks != [] && d.at == b.breaks[|b.breaks| - 1] && d.idx == 0
         case Nexted => b.conts != [] && d.at == b.conts[|b.conts| - 1] && d.idx == 0
         case _ => Stopped(o, g, d, AnswerOf(f))
  }

  lemma EndsAfter(o: Sem, g: Graph, b: Builder, z: Builder, n: nat, c: Conf, i: nat, c1: Conf, j: nat, d: Conf, r: Outcome)
    requires Steps(o, g, i, c) == Some(c1) && Ends(o, g, b, z, n, c1, j, d, r)
    ensures Ends(o, g, b, z, n, c, i + j, d, r)
  {
    StepsAdd(o, g, i, j, c, c1);
  }

  predicate Targets(b: Builder) {
    b.breaks == [] <==> b.conts == []
  }

  ghost predicate SReady(o: Sem, g: Graph, s: S, b: Builder, c: Conf) {
    && Lawful(o) && Open(b) && AtEnd(b, c) && Earlier(CodegenS(s, b).blocks, g)
    && Targets(b) && InLoopOnly(s, b.breaks != [])
  }

  lemma {:induction false} SCorrect(o: Sem, g: Graph, s: S, b: Builder, n: nat, c: Conf) returns (k: nat, d: Conf)
    requires SReady(o, g, s, b, c)
    ensures Ends(o, g, b, CodegenS(s, b), n, c, k, d, Exec(o, n, s, c.st))
    decreases n, s, 1
  {
    match s
    case Do(e) =>
      EGrows(e, b);
      k, d := ECorrect(o, g, e, b, c);
    case Group(ss) => k, d := AllCorrect(o, g, ss, b, n, c);
    case Choose(_, _, _) => k, d := ChooseCorrect(o, g, s, b, n, c);
    case Loop(_, _, _, _) => k, d := LoopCorrect(o, g, s, b, n, c);
    case Return(_) => k, d := ReturnCorrect(o, g, s, b, n, c);
    case _ => k, d := JumpCorrect(o, g, s, b, n, c);
  }

  lemma JumpCorrect(o: Sem, g: Graph, s: S, b: Builder, n: nat, c: Conf) returns (k: nat, d: Conf)
    requires SReady(o, g, s, b, c) && (s.Leave? || s.Next? || s.Kill?)
    ensures Ends(o, g, b, CodegenS(s, b), n, c, k, d, Exec(o, n, s, c.st))
  {
    EndedIsFinal(CodegenS(s, b).blocks, g, b.cur);
    if s.Kill? {
      k, d := 0, c;
    } else {
      k := 1;
      d := RunTerm(o, g, b, Br(if s.Leave? then b.breaks[|b.breaks| - 1] else b.conts[|b.conts| - 1]), c);
    }
  }

  /** A return: the value, and the terminator. */
  lemma ReturnCorrect(o: Sem, g: Graph, s: S, b: Builder, n: nat, c: Conf) returns (k: nat, d: Conf)
    requires SReady(o, g, s, b, c) && s.Return?
    ensures Ends(o, g, b, CodegenS(s, b), n, c, k, d, Exec(o, n, s, c.st))
  {
    var z := CodegenS(s, b);
    if s.result.None? {
      EndedIsFinal(z.blocks, g, b.cur);
      k, d := 0, c;
    } else {
      var rc := CodegenE(s.result.value, b);
      EGrows(s.result.value, b);
      EarlierTrans(rc.b.blocks, z.blocks, g);
      k, d := ECorrect(o, g, s.result.value, b, c);
      EndedIsFinal(z.blocks, g, rc.b.cur);
    }
  }

  lemma AllEarlier(ss: seq<S>, b: Builder)
    requires Ok(b)
    ensures Earlier(b.blocks, CodegenAll(ss, b).blocks)
  {
    if ss != [] && !Terminated(b) {
      AllGrow(ss, b);
      GrowsEarlier(b, CodegenAll(ss, b));
    }
  }

  lemma {:induction false} AllCorrect(o: Sem, g: Graph, ss: seq<S>, b: Builder, n: nat, c: Conf) returns (k: nat, d: Conf)
    requires SReady(o, g, Group(ss), b, c)
    ensures Ends(o, g, b, CodegenAll(ss, b), n, c, k, d, ExecAll(o, n, ss, c.st))
    decreases n, ss, 0
  {
    if ss == [] {
      k, d := 0, c;
    } else {
      var z := CodegenS(ss[0], b);
      SGrows(ss[0], b);
      AllEarlier(ss[1..], z);
      assert CodegenS(Group(ss), b) == CodegenAll(ss, b) == CodegenAll(ss[1..], z);
      EarlierTrans(z.blocks, CodegenAll(ss[1..], z).blocks, g);
      var i, c1 := SCorrect(o, g, ss[0], b, n, c);
      var r := Exec(o, n, ss[0], c.st);
      if r.Done? && r.flow.Normal? {
        assert forall x | 0 <= x < |ss[1..]| :: ss[1..][x] == ss[x + 1];
        var j;
        j, d := AllCorrect(o, g, ss[1..], z, n, c1);
        EndsAfter(o, g, z, CodegenAll(ss[1..], z), n, c, i, c1, j, d, ExecAll(o, n, ss[1..], c1.st));
        k := i + j;
      } else {
        k, d := i, c1;
      }
    }
  }

  // ---- if ----

  /** An arm that ends normally jumps to the merge block. */
  lemma ArmDone(o: Sem, g: Graph, b: Builder, start: Builder, arm: Builder, z: Builder, j: nat, n: nat, c: Conf, k: nat,
                d: Conf, r: Outcome) returns (k': nat, d': Conf)
    requires Ends(o, g, start, arm, n, c, k, d, r) && start.breaks == b.breaks && start.conts == b.conts
    requires Ok(arm) && Earlier(z.blocks, g) && arm.cur < |z.blocks| && j < |z.blocks| && z.blocks[j] == Blk([], None)
    requires Open(arm) ==> z.blocks[arm.cur] == arm.blocks[arm.cur].(term := Some(Br(j)))
    ensures Ends(o, g, b, At(z, j), n, c, k', d', r)
  {
    if r.Done? && r.flow.Normal? {
      EndedIsFinal(z.blocks, g, arm.cur);
      d' := RunTerm(o, g, arm, Br(j), d);
      StepsAdd(o, g, k, 1, c, d);
      k' := k + 1;
    } else {
      k', d' := k, d;
    }
  }

  /** The condition of an `if`, and its branch. */
  lemma ToBranch(o: Sem, g: Graph, s: S, b: Builder, c: Conf) returns (k: nat, d: Conf)
    requires s.Choose? && Lawful(o) && Open(b) && AtEnd(b, c) && ChooseBlocks(s, b) && Earlier(ChooseClosed(s, b).blocks, g)
    ensures
      var a, m := Value(o, s.cond, c.st), |CodegenE(s.cond, b).b.blocks|;
      && Steps(o, g, k, c) == Some(d) && d.at == (if o.truth(a.0) then m else m + 1) && d.idx == 0 && d.st == a.1
  {
    var rc, z := CodegenE(s.cond, b), ChooseClosed(s, b);
    EarlierTrans(rc.b.blocks, z.blocks, g);
    var i, c1 := ECorrect(o, g, s.cond, b, c);
    EndedIsFinal(z.blocks, g, rc.b.cur);
    d := RunTerm(o, g, rc.b, ChooseFork(s, b), c1);
    StepsAdd(o, g, i, 1, c, c1);
    k := i + 1;
  }

  /** Without an else, a false condition leads straight to the merge block. */
  lemma NoElse(o: Sem, g: Graph, s: S, b: Builder, n: nat, c: Conf, k: nat, d: Conf)
    requires s.Choose? && s.els.None? && ChooseBlocks(s, b) && Steps(o, g, k, c) == Some(d)
    requires d.at == |CodegenE(s.cond, b).b.blocks| + 1 && d.idx == 0
    ensures Ends(o, g, b, CodegenS(s, b), n, c, k, d, Done(Normal, d.st))
  {
    ChooseShape(s, b);
    AtEmpty(o, g, b, ChooseClosed(s, b), |CodegenE(s.cond, b).b.blocks| + 1, n, c, k, d);
  }

  lemma AtEmpty(o: Sem, g: Graph, b: Builder, z: Builder, j: nat, n: nat, c: Conf, k: nat, d: Conf)
    requires j < |z.blocks| && z.blocks[j] == Blk([], None) && Steps(o, g, k, c) == Some(d) && d.at == j && d.idx == 0
    ensures Ends(o, g, b, At(z, j), n, c, k, d, Done(Normal, d.st))
  {
  }

  lemma ChooseOutcome(o: Sem, n: nat, s: S, st: Store)
    requires s.Choose?
    ensures
      var a, z := Value(o, s.cond, st), Exec(o, n, s, st);
      z == if o.truth(a.0) then Exec(o, n, s.thn, a.1) else if s.els.Some? then Exec(o, n, s.els.value, a.1) else Done(Normal, a.1)
  {
  }

  function ThenStart(s: S, b: Builder): Builder
    requires s.Choose?
  {
    Branch(CodegenE(s.cond, b).b, ChooseCount(s), ChooseFork(s, b))
  }

  function ElseStart(s: S, b: Builder): Builder
    requires s.Choose? && s.els.Some?
  {
    At(ThenBlock(s, b), |CodegenE(s.cond, b).b.blocks| + 1)
  }

  /** An arm from the empty block of `start` to `f`, which jumps to the empty merge block `j` in `z` unless it has ended. */
  ghost predicate ArmBlocks(b: Builder, arm: S, start: Builder, f: Builder, z: Builder, j: nat) {
    && Open(start) && start.blocks[start.cur].code == [] && start.breaks == b.breaks && start.conts == b.conts
    && f == CodegenS(arm, start) && Ok(f) && Earlier(f.blocks, z.blocks) && f.cur < |z.blocks|
    && j < |z.blocks| && z.blocks[j] == Blk([], None)
    && (Open(f) ==> z.blocks[f.cur] == f.blocks[f.cur].(term := Some(Br(j))))
  }

  lemma ThenBlocks(s: S, b: Builder)
    requires s.Choose? && Open(b) && ChooseBlocks(s, b)
    ensures ArmBlocks(b, s.thn, ThenStart(s, b), ThenBlock(s, b), ChooseClosed(s, b), |CodegenE(s.cond, b).b.blocks| + ChooseCount(s) - 1)
  {
    EGrows(s.cond, b);
  }

  lemma ElseBlocks(s: S, b: Builder)
    requires s.Choose? && s.els.Some? && ChooseBlocks(s, b)
    ensures ArmBlocks(b, s.els.value, ElseStart(s, b), ElseBlock(s, b), ChooseClosed(s, b), |CodegenE(s.cond, b).b.blocks| + 2)
  {
  }

  lemma {:induction false} ChooseCorrect(o: Sem, g: Graph, s: S, b: Builder, n: nat, c: Conf) returns (k: nat, d: Conf)
    requires s.Choose? && SReady(o, g, s, b, c)
    ensures Ends(o, g, b, CodegenS(s, b), n, c, k, d, Exec(o, n, s, c.st))
    decreases n, s, 0
  {
    ChooseParts(s, b);
    ChooseShape(s, b);
    ChooseOutcome(o, n, s, c.st);
    var i, c1 := ToBranch(o, g, s, b, c);
    k, d := i, c1;
    if o.truth(Value(o, s.cond, c.st).0) {
      ThenBlocks(s, b);
      var j := |CodegenE(s.cond, b).b.blocks| + ChooseCount(s) - 1;
      k, d := ArmCorrect(o, g, s.thn, b, ThenStart(s, b), ThenBlock(s, b), ChooseClosed(s, b), j, n, c, i, c1);
    } else if s.els.Some? {
      ElseBlocks(s, b);
      var j := |CodegenE(s.cond, b).b.blocks| + 2;
      k, d := ArmCorrect(o, g, s.els.value, b, ElseStart(s, b), ElseBlock(s, b), ChooseClosed(s, b), j, n, c, i, c1);
    } else {
      NoElse(o, g, s, b, n, c, i, c1);
    }
  }

  /** An arm, entered at `c1`, up to the merge block. */
  lemma {:induction false} ArmCorrect(o: Sem, g: Graph, arm: S, b: Builder, start: Builder, f: Builder, z: Builder, j: nat, n: nat,
                                      c: Conf, i: nat, c1: Conf) returns (k: nat, d: Conf)
    requires Lawful(o) && Targets(b) && InLoopOnly(arm, b.breaks != []) && ArmBlocks(b, arm, start, f, z, j) && Earlier(z.blocks, g)
    requires Steps(o, g, i, c) == Some(c1) && c1.at == start.cur && c1.idx == 0
    ensures Ends(o, g, b, At(z, j), n, c, k, d, Exec(o, n, arm, c1.st))
    decreases n, arm, 2
  {
    EarlierTrans(f.blocks, z.blocks, g);
    var r := Exec(o, n, arm, c1.st);
    k, d := SCorrect(o, g, arm, start, n, c1);
    k, d := ArmDone(o, g, b, start, f, z, j, n, c1, k, d, r);
    EndsAfter(o, g, b, At(z, j), n, c, i, c1, k, d, r);
    k := i + k;
  }

  // ---- loops ----

  /** A loop in the final graph. */
  ghost predicate LoopLinked(g: Graph, s: S, b: Builder)
    requires s.Loop?
  {
    && Open(b) && LoopTop(s, b) && LoopBottom(s, b) && Earlier(LoopClosed(s, b).blocks, g)
    && Targets(b) && InLoopOnly(s.body, true)
  }

  /** The test, in the final graph: it starts at the empty block of `b1`. */
  ghost predicate TestLinked(g: Graph, b1: Builder, rc: Emitted, t: Term) {
    && Open(b1) && b1.blocks[b1.cur].code == [] && Ok(rc.b) && Earlier(rc.b.blocks, g)
    && rc.b.cur < |g| && g[rc.b.cur] == rc.b.blocks[rc.b.cur].(term := Some(t))
  }

  function TestStart(s: S, b: Builder): Builder
    requires s.Loop?
  {
    Branch(LoopInit(s, b), 4, Br(|LoopInit(s, b).blocks|))
  }

  lemma TestLinks(g: Graph, s: S, b: Builder)
    requires s.Loop? && LoopLinked(g, s, b)
    ensures TestLinked(g, TestStart(s, b), LoopTest(s, b), LoopFork(s, b))
  {
    var rc, bb, z := LoopTest(s, b), LoopEntry(s, b), LoopClosed(s, b);
    EarlierTrans(bb.blocks, z.blocks, g);
    EarlierTrans(rc.b.blocks, bb.blocks, g);
    EndedIsFinal(bb.blocks, g, rc.b.cur);
  }

  /** The test, from the condition block to its branch. */
  lemma TestCorrect(o: Sem, g: Graph, s: S, b: Builder, c: Conf) returns (k: nat, d: Conf)
    requires s.Loop? && Lawful(o) && c.at == |LoopInit(s, b).blocks| && c.idx == 0
    requires TestLinked(g, TestStart(s, b), LoopTest(s, b), LoopFork(s, b))
    ensures TestEnds(o, g, |LoopInit(s, b).blocks|, c, k, d, Test(o, s.test, c.st))
  {
    var i, c1 := 0, c;
    if s.test.Some? { i, c1 := ECorrect(o, g, s.test.value, TestStart(s, b), c); }
    d := RunTerm(o, g, LoopTest(s, b).b, LoopFork(s, b), c1);
    StepsAdd(o, g, i, 1, c, c1);
    k := i + 1;
  }

  /** The latch: the increment, and the jump back to the condition. */
  lemma LatchCorrect(o: Sem, g: Graph, s: S, b: Builder, c: Conf) returns (k: nat, d: Conf)
    requires s.Loop? && Lawful(o) && LoopLinked(g, s, b) && c.at == |LoopInit(s, b).blocks| + 2 && c.idx == 0
    ensures LatchEnds(o, g, |LoopInit(s, b).blocks|, c, k, d, MaybeDo(o, s.inc, c.st))
  {
    var b4, b5, z := LoopLatch(s, b), LoopInc(s, b), LoopClosed(s, b);
    EarlierTrans(b5.blocks, z.blocks, g);
    EndedIsFinal(z.blocks, g, b5.cur);
    var i, c1 := 0, c;
    if s.inc.Some? { i, c1 := ECorrect(o, g, s.inc.value, b4, c); }
    d := RunTerm(o, g, b5, Br(|LoopInit(s, b).blocks|), c1);
    StepsAdd(o, g, i, 1, c, c1);
    k := i + 1;
  }

  /** The body, in the final graph: it starts at the empty block `m + 1`, and its end jumps to the latch. */
  ghost predicate BodyLinked(g: Graph, bb: Builder, b3: Builder, m: nat) {
    && Open(bb) && bb.cur == m + 1 && bb.blocks[m + 1].code == [] && Earlier(b3.blocks, g)
    && bb.breaks != [] && bb.breaks[|bb.breaks| - 1] == m + 3 && bb.conts != [] && bb.conts[|bb.conts| - 1] == m + 2
    && (Open(b3) ==> b3.cur < |g| && g[b3.cur] == b3.blocks[b3.cur].(term := Some(Br(m + 2))))
  }

  lemma BodyLinks(g: Graph, s: S, b: Builder)
    requires s.Loop? && LoopLinked(g, s, b)
    ensures BodyLinked(g, LoopEntry(s, b), LoopBody(s, b), |LoopInit(s, b).blocks|)
  {
    var b3, z := LoopBody(s, b), LoopClosed(s, b);
    EarlierTrans(b3.blocks, z.blocks, g);
    if Open(b3) { EndedIsFinal(z.blocks, g, b3.cur); }
  }

  lemma BodyDone(o: Sem, g: Graph, bb: Builder, b3: Builder, m: nat, n: nat, c: Conf, k: nat, d: Conf, r: Outcome)
    returns (k': nat, d': Conf)
    requires BodyLinked(g, bb, b3, m) && Ends(o, g, bb, b3, n, c, k, d, r)
    ensures BodyEnds(o, g, m, n, c, k', d', r)
  {
    if r.Done? && r.flow.Normal? {
      d' := RunTerm(o, g, b3, Br(m + 2), d);
      StepsAdd(o, g, k, 1, c, d);
      k' := k + 1;
    } else {
      k', d' := k, d;
    }
  }

  lemma {:induction false} BodyCorrect(o: Sem, g: Graph, s: S, b: Builder, n: nat, c: Conf) returns (k: nat, d: Conf)
    requires s.Loop? && Lawful(o) && InLoopOnly(s.body, true) && c.at == |LoopInit(s, b).blocks| + 1 && c.idx == 0
    requires BodyLinked(g, LoopEntry(s, b), LoopBody(s, b), |LoopInit(s, b).blocks|)
    ensures BodyEnds(o, g, |LoopInit(s, b).blocks|, n, c, k, d, Exec(o, n, s.body, c.st))
    decreases n, s, 0, 0
  {
    k, d := SCorrect(o, g, s.body, LoopEntry(s, b), n, c);
    k, d := BodyDone(o, g, LoopEntry(s, b), LoopBody(s, b), |LoopInit(s, b).blocks|, n, c, k, d, Exec(o, n, s.body, c.st));
  }

  function PiecesOf(o: Sem, s: S): Pieces
    requires s.Loop?
  {
    Pieces((st: Store) => Test(o, s.test, st), (n: nat, st: Store) => Exec(o, n, s.body, st), (st: Store) => MaybeDo(o, s.inc, st))
  }

  lemma {:induction false} LoopIsIterate(o: Sem, s: S, n: nat, st: Store)
    requires s.Loop?
    ensures ExecLoop(o, n, s, st) == Iterate(PiecesOf(o, s), n, st)
    decreases n
  {
    var a := Test(o, s.test, st);
    if a.0 && n > 0 {
      var r := Exec(o, n, s.body, a.1);
      if r.Done? { LoopIsIterate(o, s, n - 1, MaybeDo(o, s.inc, r.st)); }
    }
  }

  lemma LoopReady(o: Sem, g: Graph, s: S, b: Builder, c: Conf)
    requires s.Loop? && SReady(o, g, s, b, c)
    ensures LoopLinked(g, s, b)
  {
    LoopParts(s, b);
    LoopShape(s, b);
  }

  lemma LoopExec(o: Sem, s: S, n: nat, st: Store)
    requires s.Loop?
    ensures Exec(o, n, s, st) == Iterate(PiecesOf(o, s), n, MaybeDo(o, s.init, st))
  {
    LoopIsIterate(o, s, n, MaybeDo(o, s.init, st));
  }

  lemma {:induction false} LoopCorrect(o: Sem, g: Graph, s: S, b: Builder, n: nat, c: Conf) returns (k: nat, d: Conf)
    requires s.Loop? && SReady(o, g, s, b, c)
    ensures Ends(o, g, b, CodegenS(s, b), n, c, k, d, Exec(o, n, s, c.st))
    decreases n, s, 0, 4
  {
    LoopReady(o, g, s, b, c);
    k, d := LoopRuns(o, g, s, b, n, c);
    LoopExec(o, s, n, c.st);
    LoopEnds(o, g, s, b, n, c, k, d, Exec(o, n, s, c.st));
  }

  lemma LoopEnds(o: Sem, g: Graph, s: S, b: Builder, n: nat, c: Conf, k: nat, d: Conf, r: Outcome)
    requires s.Loop? && LoopLinked(g, s, b) && Reaches(o, g, |LoopInit(s, b).blocks| + 3, n, c, k, d, r)
    ensures Ends(o, g, b, CodegenS(s, b), n, c, k, d, r)
  {
    LoopShape(s, b);
    ReachesEnd(o, g, b, LoopClosed(s, b), |LoopInit(s, b).blocks| + 3, n, c, k, d, r);
  }

  lemma {:induction false} LoopRuns(o: Sem, g: Graph, s: S, b: Builder, n: nat, c: Conf) returns (k: nat, d: Conf)
    requires s.Loop? && Lawful(o) && LoopLinked(g, s, b) && AtEnd(b, c)
    ensures Reaches(o, g, |LoopInit(s, b).blocks| + 3, n, c, k, d, Iterate(PiecesOf(o, s), n, MaybeDo(o, s.init, c.st)))
    decreases n, s, 0, 3
  {
    var i, c1 := ToLoop(o, g, s, b, c);
    PiecesRun(o, g, s, b, n);
    k, d := FromTop(o, g, PiecesOf(o, s), |LoopInit(s, b).blocks|, n, c, i, c1);
  }

  lemma FromTop(o: Sem, g: Graph, p: Pieces, m: nat, n: nat, c: Conf, i: nat, c1: Conf) returns (k: nat, d: Conf)
    requires PiecesLinked(o, g, p, m, n) && Steps(o, g, i, c) == Some(c1) && c1.at == m && c1.idx == 0
    ensures Reaches(o, g, m + 3, n, c, k, d, Iterate(p, n, c1.st))
  {
    var j;
    j, d := IterationsCorrect(o, g, p, m, n, c1);
    ReachesAfter(o, g, m + 3, n, c, i, c1, j, d, Iterate(p, n, c1.st), n);
    k := i + j;
  }

  /** The end block of a loop is empty. */
  lemma ReachesEnd(o: Sem, g: Graph, b: Builder, z: Builder, l: nat, n: nat, c: Conf, k: nat, d: Conf, r: Outcome)
    requires Reaches(o, g, l, n, c, k, d, r) && l < |z.blocks| && z.blocks[l] == Blk([], None)
    ensures Ends(o, g, b, At(z, l), n, c, k, d, r)
  {
  }

  lemma TestPiece(o: Sem, g: Graph, s: S, b: Builder, c: Conf)
    requires s.Loop? && Lawful(o) && LoopLinked(g, s, b) && c.at == |LoopInit(s, b).blocks| && c.idx == 0
    ensures TestRuns(o, g, PiecesOf(o, s), |LoopInit(s, b).blocks|, c)
  {
    TestLinks(g, s, b);
    var k, d := TestCorrect(o, g, s, b, c);
    assert TestEnds(o, g, |LoopInit(s, b).blocks|, c, k, d, PiecesOf(o, s).test(c.st));
  }

  lemma LatchPiece(o: Sem, g: Graph, s: S, b: Builder, c: Conf)
    requires s.Loop? && Lawful(o) && LoopLinked(g, s, b) && c.at == |LoopInit(s, b).blocks| + 2 && c.idx == 0
    ensures LatchRuns(o, g, PiecesOf(o, s), |LoopInit(s, b).blocks|, c)
  {
    var k, d := LatchCorrect(o, g, s, b, c);
    assert LatchEnds(o, g, |LoopInit(s, b).blocks|, c, k, d, PiecesOf(o, s).inc(c.st));
  }

  lemma {:induction false} BodyPiece(o: Sem, g: Graph, s: S, b: Builder, n: nat, c: Conf)
    requires s.Loop? && Lawful(o) && InLoopOnly(s.body, true) && c.at == |LoopInit(s, b).blocks| + 1 && c.idx == 0
    requires BodyLinked(g, LoopEntry(s, b), LoopBody(s, b), |LoopInit(s, b).blocks|)
    ensures BodyRuns(o, g, PiecesOf(o, s), |LoopInit(s, b).blocks|, n, c)
    decreases n, s, 0, 1
  {
    var k, d := BodyCorrect(o, g, s, b, n, c);
    assert BodyEnds(o, g, |LoopInit(s, b).blocks|, n, c, k, d, PiecesOf(o, s).body(n, c.st));
  }

  lemma {:induction false} PiecesRun(o: Sem, g: Graph, s: S, b: Builder, n: nat)
    requires s.Loop? && Lawful(o) && LoopLinked(g, s, b)
    ensures PiecesLinked(o, g, PiecesOf(o, s), |LoopInit(s, b).blocks|, n)
    decreases n, s, 0, 2
  {
    var p, m := PiecesOf(o, s), |LoopInit(s, b).blocks|;
    BodyLinks(g, s, b);
    forall c: Conf | c.at == m && c.idx == 0 ensures TestRuns(o, g, p, m, c) { TestPiece(o, g, s, b, c); }
    forall i: nat, c: Conf | i <= n && c.at == m + 1 && c.idx == 0 ensures BodyRuns(o, g, p, m, i, c) {
      BodyPiece(o, g, s, b, i, c);
    }
    forall c: Conf | c.at == m + 2 && c.idx == 0 ensures LatchRuns(o, g, p, m, c) { LatchPiece(o, g, s, b, c); }
  }

  /** The initialiser, in the final graph. */
  ghost predicate InitLinked(g: Graph, b: Builder, b0: Builder) {
    Open(b) && Open(b0) && Earlier(b0.blocks, g) && b0.cur < |g| && g[b0.cur] == b0.blocks[b0.cur].(term := Some(Br(|b0.blocks|)))
  }

  lemma InitLinks(g: Graph, s: S, b: Builder)
    requires s.Loop? && LoopLinked(g, s, b)
    ensures InitLinked(g, b, LoopInit(s, b))
  {
    var b0, bb, z := LoopInit(s, b), LoopEntry(s, b), LoopClosed(s, b);
    EarlierTrans(bb.blocks, z.blocks, g);
    EarlierTrans(b0.blocks, bb.blocks, g);
    EndedIsFinal(bb.blocks, g, b0.cur);
  }

  /** The initialiser, and the jump to the condition block. */
  lemma ToLoop(o: Sem, g: Graph, s: S, b: Builder, c: Conf) returns (k: nat, d: Conf)
    requires s.Loop? && Lawful(o) && LoopLinked(g, s, b) && AtEnd(b, c)
    ensures Steps(o, g, k, c) == Some(d) && d.at == |LoopInit(s, b).blocks| && d.idx == 0 && d.st == MaybeDo(o, s.init, c.st)
  {
    InitLinks(g, s, b);
    k, d := InitCorrect(o, g, s.init, b, c);
  }

  lemma InitCorrect(o: Sem, g: Graph, e: Option<E>, b: Builder, c: Conf) returns (k: nat, d: Conf)
    requires Lawful(o) && InitLinked(g, b, CodegenMaybe(e, b)) && AtEnd(b, c)
    ensures Steps(o, g, k, c) == Some(d) && d.at == |CodegenMaybe(e, b).blocks| && d.idx == 0 && d.st == MaybeDo(o, e, c.st)
  {
    var b0 := CodegenMaybe(e, b);
    var i, c1 := 0, c;
    if e.Some? { i, c1 := ECorrect(o, g, e.value, b, c); }
    d := RunTerm(o, g, b0, Br(|b0.blocks|), c1);
    StepsAdd(o, g, i, 1, c, c1);
    k := i + 1;
  }

  // ---- whole functions ----

  const EMPTY := Builder([Blk([], None)], 0, 0, [], [])

  /** allPathsReturn: of a block only the last statement counts, and of an `if` both arms. */
  predicate AllPathsReturn(s: S) {
    match s
    case Group(ss) => ss != [] && AllPathsReturn(ss[|ss| - 1])
    case Choose(_, t, f) => f.Some? && AllPathsReturn(t) && AllPathsReturn(f.value)
    case Return(_) => true
    case _ => false
  }

  /** Where allPathsReturn says so, no run falls off the end. */
  lemma {:induction false} NoneFallsThrough(o: Sem, n: nat, s: S, st: Store)
    requires AllPathsReturn(s)
    ensures var r := Exec(o, n, s, st); r.Done? ==> !r.flow.Normal?
    decreases s, 1
  {
    match s
    case Group(ss) => LastReturns(o, n, ss, st);
    case Choose(c, t, f) =>
      NoneFallsThrough(o, n, t, Value(o, c, st).1);
      NoneFallsThrough(o, n, f.value, Value(o, c, st).1);
    case Return(_) =>
  }

  lemma {:induction false} LastReturns(o: Sem, n: nat, ss: seq<S>, st: Store)
    requires ss != [] && AllPathsReturn(ss[|ss| - 1])
    ensures var r := ExecAll(o, n, ss, st); r.Done? ==> !r.flow.Normal?
    decreases ss, 0
  {
    var r := Exec(o, n, ss[0], st);
    if |ss| == 1 {
      NoneFallsThrough(o, n, ss[0], st);
    } else if r.Done? && r.flow.Normal? {
      LastReturns(o, n, ss[1..], r.st);
    }
  }

  /** Returns have a value exactly where the function has a type. */
  predicate ReturnsFit(s: S, isVoid: bool) {
    match s
    case Group(ss) => forall i | 0 <= i < |ss| :: ReturnsFit(ss[i], isVoid)
    case Choose(_, t, f) => ReturnsFit(t, isVoid) && (f.Some? ==> ReturnsFit(f.value, isVoid))
    case Loop(_, _, b, _) => ReturnsFit(b, isVoid)
    case Return(e) => e.None? == isVoid
    case _ => true
  }

  predicate Fitting(r: Outcome, isVoid: bool) {
    r.Done? && r.flow.Returned? ==> r.flow.v.None? == isVoid
  }

  lemma {:induction false} ReturnedFits(o: Sem, n: nat, s: S, st: Store, isVoid: bool)
    requires ReturnsFit(s, isVoid)
    ensures Fitting(Exec(o, n, s, st), isVoid)
    decreases n, s, 1
  {
    match s
    case Group(ss) => ReturnedFitsAll(o, n, ss, st, isVoid);
    case Choose(c, t, f) =>
      ReturnedFits(o, n, t, Value(o, c, st).1, isVoid);
      if f.Some? { ReturnedFits(o, n, f.value, Value(o, c, st).1, isVoid); }
    case Loop(init, _, _, _) => ReturnedFitsLoop(o, n, s, MaybeDo(o, init, st), isVoid);
    case _ =>
  }

  lemma {:induction false} ReturnedFitsAll(o: Sem, n: nat, ss: seq<S>, st: Store, isVoid: bool)
    requires forall i | 0 <= i < |ss| :: ReturnsFit(ss[i], isVoid)
    ensures Fitting(ExecAll(o, n, ss, st), isVoid)
    decreases n, ss, 0
  {
    if ss != [] {
      ReturnedFits(o, n, ss[0], st, isVoid);
      var r := Exec(o, n, ss[0], st);
      if r.Done? && r.flow.Normal? { ReturnedFitsAll(o, n, ss[1..], r.st, isVoid); }
    }
  }

  lemma {:induction false} ReturnedFitsLoop(o: Sem, n: nat, s: S, st: Store, isVoid: bool)
    requires s.Loop? && ReturnsFit(s.body, isVoid)
    ensures Fitting(ExecLoop(o, n, s, st), isVoid)
    decreases n, s, 0
  {
    var a := Test(o, s.test, st);
    if a.0 && n > 0 {
      ReturnedFits(o, n, s.body, a.1, isVoid);
      var r := Exec(o, n, s.body, a.1);
      if r.Done? && !Final(r.flow) && !r.flow.Left? { ReturnedFitsLoop(o, n - 1, s, MaybeDo(o, s.inc, r.st), isVoid); }
    }
  }

  /** A function: its body emitted at the entry block. An open end is a return in a void function, else an
      `unreachable` where all paths return, else an error. */
  function CompileBody(s: S, isVoid: bool): Option<Graph> {
    var z := CodegenS(s, EMPTY);
    if !Open(z) then Some(z.blocks)
    else if isVoid then Some(SetTerm(z, z.cur, Ret(None)).blocks)
    else if AllPathsReturn(s) then Some(SetTerm(z, z.cur, Unreachable).blocks)
    else None
  }

  function Entry(st: Store): Conf {
    Conf(0, 0, 0, map[], st)
  }

  /** The run from `c` stops after `k` steps, with that answer and store. */
  ghost predicate Stops(o: Sem, g: Graph, k: nat, c: Conf, a: Answer, st: Store) {
    var d := Steps(o, g, k, c);
    d.Some? && d.value.st == st && Stopped(o, g, d.value, a)
  }

  /** A run of a graph stops once. */
  lemma StopsOnce(o: Sem, g: Graph, c: Conf, k: nat, a: Answer, st: Store, k': nat, a': Answer, st': Store)
    requires Stops(o, g, k, c, a, st) && Stops(o, g, k', c, a', st')
    ensures k == k' && a == a' && st == st'
  {
    if k < k' { NoneAfter(o, g, c, k, k', a, st); }
    if k' < k { NoneAfter(o, g, c, k', k, a', st'); }
  }

  lemma NoneAfter(o: Sem, g: Graph, c: Conf, k: nat, k': nat, a: Answer, st: Store)
    requires Stops(o, g, k, c, a, st) && k < k'
    ensures Steps(o, g, k', c).None?
  {
    StepsAdd(o, g, k, 1, c, Steps(o, g, k, c).value);
    if Steps(o, g, k', c).Some? { StepsPrefix(o, g, k + 1, k', c); }
  }

  /** Whenever the source ends, the graph stops with the same store and the same answer, and an accepted function
      that has a type never falls off its end. A run cut short after `n` rounds goes on for `n` steps. */
  ghost predicate Matches(o: Sem, g: Graph, isVoid: bool, n: nat, st: Store, r: Outcome, k: nat) {
    match r
    case Timeout => k >= n && Steps(o, g, k, Entry(st)).Some?
    case Done(f, st') =>
      && (f.Killed? || if isVoid then f.Normal? || f == Returned(None) else f.Returned? && f.v.Some?)
      && Stops(o, g, k, Entry(st), AnswerOf(f), st')
  }

  lemma FunctionCorrect(o: Sem, s: S, isVoid: bool, n: nat, st: Store) returns (k: nat)
    requires Lawful(o) && InLoopOnly(s, false) && ReturnsFit(s, isVoid) && CompileBody(s, isVoid).Some?
    ensures Matches(o, CompileBody(s, isVoid).value, isVoid, n, st, Exec(o, n, s, st), k)
  {
    var z, g := CodegenS(s, EMPTY), CompileBody(s, isVoid).value;
    SGrows(s, EMPTY);
    assert Earlier(z.blocks, g);
    var d;
    k, d := SCorrect(o, g, s, EMPTY, n, Entry(st));
    ReturnedFits(o, n, s, st, isVoid);
    if AllPathsReturn(s) { NoneFallsThrough(o, n, s, st); }
    EndMatches(o, g, isVoid, z, n, st, k, d, Exec(o, n, s, st));
  }

  /** The end of a function: reached normally only in a void function, and then it is a return. */
  lemma EndMatches(o: Sem, g: Graph, isVoid: bool, z: Builder, n: nat, st: Store, k: nat, d: Conf, r: Outcome)
    requires Ends(o, g, EMPTY, z, n, Entry(st), k, d, r) && Fitting(r, isVoid)
    requires Open(z) ==> isVoid || (r.Done? ==> !r.flow.Normal?)
    requires Open(z) && isVoid ==> g == SetTerm(z, z.cur, Ret(None)).blocks
    ensures Matches(o, g, isVoid, n, st, r, k)
  {
  }

  /** The graph's run stops exactly when the source's does. */
  lemma StopsIff(o: Sem, s: S, isVoid: bool, st: Store)
    requires Lawful(o) && InLoopOnly(s, false) && ReturnsFit(s, isVoid) && CompileBody(s, isVoid).Some?
    ensures (exists n: nat :: Exec(o, n, s, st).Done?)
       <==> (exists k: nat, a, st' :: Stops(o, CompileBody(s, isVoid).value, k, Entry(st), a, st'))
  {
    var g := CompileBody(s, isVoid).value;
    if n: nat :| Exec(o, n, s, st).Done? {
      var k := FunctionCorrect(o, s, isVoid, n, st);
      assert Stops(o, g, k, Entry(st), AnswerOf(Exec(o, n, s, st).flow), Exec(o, n, s, st).st);
    }
    if k: nat, a, st' :| Stops(o, g, k, Entry(st), a, st') {
      StoppedEnds(o, s, isVoid, st, k, a, st');
    }
  }

  /** The source of a graph that stops after `k` steps ends within `k + 1` rounds. */
  lemma StoppedEnds(o: Sem, s: S, isVoid: bool, st: Store, k: nat, a: Answer, st': Store)
    requires Lawful(o) && InLoopOnly(s, false) && ReturnsFit(s, isVoid) && CompileBody(s, isVoid).Some?
    requires Stops(o, CompileBody(s, isVoid).value, k, Entry(st), a, st')
    ensures Exec(o, k + 1, s, st).Done?
  {
    var g := CompileBody(s, isVoid).value;
    var j := FunctionCorrect(o, s, isVoid, k + 1, st);
    if j > k { NoneAfter(o, g, Entry(st), k, j, a, st'); }
  }
}
