/** Which functions are accepted: where control stands when a body ends. */
module ControlFlowReturns {
  import opened ShaderAst
  import opened ControlFlow
  import opened ControlFlowCodegen
  import opened ControlFlowGrowth
  import opened ControlFlowSimulation

  /** The statements that a statement may end with: of a block those of its last statement, of an `if` with both arms
      those of the arms. */
  function LastOnes(s: S): (es: seq<S>)
    ensures es != []
  {
    match s
    case Group(ss) => if ss == [] then [s] else LastOnes(ss[|ss| - 1])
    case Choose(_, t, f) => if f.Some? then LastOnes(t) + LastOnes(f.value) else [s]
    case _ => [s]
  }

  /** Outside any `if` and loop of `s` control is sent elsewhere, and what follows in the block is dropped. */
  predicate Cut(s: S) {
    match s
    case Group(ss) => exists i | 0 <= i < |ss| :: Cut(ss[i])
    case Leave | Next | Kill | Return(_) => true
    case _ => false
  }

  predicate OnlyReturns(es: seq<S>) {
    forall e | e in es :: e.Return?
  }

  lemma {:induction false} AllPathsReturnIff(s: S)
    ensures AllPathsReturn(s) <==> OnlyReturns(LastOnes(s))
  {
    match s
    case Group(ss) => if ss == [] { OneLast(s); } else { AllPathsReturnIff(ss[|ss| - 1]); }
    case Choose(_, t, Some(f)) =>
      AllPathsReturnIff(t);
      AllPathsReturnIff(f);
      BothReturn(LastOnes(t), LastOnes(f));
    case _ => OneLast(s);
  }

  lemma OneLast(s: S)
    ensures OnlyReturns([s]) <==> s.Return?
  {
    assert s in [s];
  }

  lemma BothReturn(a: seq<S>, b: seq<S>)
    ensures OnlyReturns(a + b) <==> OnlyReturns(a) && OnlyReturns(b)
  {
    assert forall e :: e in a + b <==> e in a || e in b;
  }

  /** The insertion point is still open behind a statement exactly when nothing cut it. */
  lemma {:induction false} OpenIff(s: S, b: Builder)
    requires Open(b) && InLoopOnly(s, b.breaks != []) && (b.breaks != [] ==> b.conts != [])
    ensures Open(CodegenS(s, b)) <==> !Cut(s)
    decreases s, 1
  {
    match s
    case Do(e) => EGrows(e, b);
    case Group(ss) => OpenIffAll(ss, b);
    case Choose(_, _, _) =>
      ChooseParts(s, b);
      ChooseShape(s, b);
    case Loop(_, _, _, _) =>
      LoopParts(s, b);
      LoopShape(s, b);
    case Return(Some(e)) => EGrows(e, b);
    case _ =>
  }

  lemma {:induction false} OpenIffAll(ss: seq<S>, b: Builder)
    requires Open(b) && (b.breaks != [] ==> b.conts != []) && forall i | 0 <= i < |ss| :: InLoopOnly(ss[i], b.breaks != [])
    ensures Open(CodegenAll(ss, b)) <==> !Cut(Group(ss))
    decreases ss, 0
  {
    if ss != [] {
      var c := CodegenS(ss[0], b);
      SGrows(ss[0], b);
      OpenIff(ss[0], b);
      if Open(c) {
        OpenIffAll(ss[1..], c);
        assert forall i | 0 <= i < |ss[1..]| :: ss[1..][i] == ss[i + 1];
      } else {
        assert CodegenAll(ss[1..], c) == c;
      }
    }
  }

  /** A function is accepted exactly when it is void, its body is cut, or the body ends with returns only. */
  lemma AcceptedIff(s: S, isVoid: bool)
    requires InLoopOnly(s, false)
    ensures CompileBody(s, isVoid).Some? <==> isVoid || Cut(s) || OnlyReturns(LastOnes(s))
  {
    OpenIff(s, EMPTY);
    AllPathsReturnIff(s);
  }

  /** So an `if` in last place is enough, whatever comes before it, when both arms end with returns. */
  lemma LastIfIsEnough(pre: seq<S>, c: E, t: S, f: S)
    requires InLoopOnly(Group(pre + [Choose(c, t, Some(f))]), false)
    requires OnlyReturns(LastOnes(t) + LastOnes(f))
    ensures CompileBody(Group(pre + [Choose(c, t, Some(f))]), false).Some?
  {
    AcceptedIff(Group(pre + [Choose(c, t, Some(f))]), false);
  }

  // ---- what is asked of a function ----

  /** A break, continue or return, and whether a loop is around it. */
  datatype Jumping = Jumping(s: S, inLoop: bool)

  function Jumps(s: S, inLoop: bool): seq<Jumping>
    decreases s, 1
  {
    match s
    case Group(ss) => JumpsAll(ss, inLoop)
    case Choose(_, t, f) => Jumps(t, inLoop) + if f.Some? then Jumps(f.value, inLoop) else []
    case Loop(_, _, b, _) => Jumps(b, true)
    case Leave | Next | Return(_) => [Jumping(s, inLoop)]
    case _ => []
  }

  function JumpsAll(ss: seq<S>, inLoop: bool): seq<Jumping>
    decreases ss, 0
  {
    if ss == [] then [] else Jumps(ss[0], inLoop) + JumpsAll(ss[1..], inLoop)
  }

  /** A return has a value exactly where the function has a type; break and continue have a loop. */
  predicate Fits(j: Jumping, isVoid: bool) {
    match j.s
    case Return(e) => e.None? == isVoid
    case _ => true
  }

  predicate Lands(j: Jumping) {
    j.s.Return? || j.inLoop
  }

  ghost predicate AllFit(js: seq<Jumping>, isVoid: bool) {
    forall i | 0 <= i < |js| :: Fits(js[i], isVoid)
  }

  ghost predicate AllLand(js: seq<Jumping>) {
    forall i | 0 <= i < |js| :: Lands(js[i])
  }

  lemma JumpsJoin(a: seq<Jumping>, b: seq<Jumping>, isVoid: bool)
    ensures AllFit(a + b, isVoid) <==> AllFit(a, isVoid) && AllFit(b, isVoid)
    ensures AllLand(a + b) <==> AllLand(a) && AllLand(b)
  {
    var u := a + b;
    assert forall i | 0 <= i < |a| :: u[i] == a[i];
    assert forall i | 0 <= i < |b| :: u[|a| + i] == b[i];
    if AllFit(u, isVoid) {
      forall i | 0 <= i < |a| ensures Fits(a[i], isVoid) { assert Fits(u[i], isVoid); }
      forall i | 0 <= i < |b| ensures Fits(b[i], isVoid) { assert Fits(u[|a| + i], isVoid); }
    }
    if AllLand(u) {
      forall i | 0 <= i < |a| ensures Lands(a[i]) { assert Lands(u[i]); }
      forall i | 0 <= i < |b| ensures Lands(b[i]) { assert Lands(u[|a| + i]); }
    }
  }

  /** What is asked of a function is asked of its jumps, one by one. */
  lemma {:induction false} JumpsIff(s: S, inLoop: bool, isVoid: bool)
    ensures ReturnsFit(s, isVoid) <==> AllFit(Jumps(s, inLoop), isVoid)
    ensures InLoopOnly(s, inLoop) <==> AllLand(Jumps(s, inLoop))
    decreases s, 1
  {
    match s
    case Group(ss) => JumpsAllIff(ss, inLoop, isVoid);
    case Choose(_, t, f) =>
      JumpsIff(t, inLoop, isVoid);
      if f.Some? { JumpsIff(f.value, inLoop, isVoid); }
      JumpsJoin(Jumps(t, inLoop), if f.Some? then Jumps(f.value, inLoop) else [], isVoid);
    case Loop(_, _, b, _) => JumpsIff(b, true, isVoid);
    case Leave | Next | Return(_) => assert Jumps(s, inLoop)[0] == Jumping(s, inLoop);
    case _ =>
  }

  lemma {:induction false} JumpsAllIff(ss: seq<S>, inLoop: bool, isVoid: bool)
    ensures ReturnsFit(Group(ss), isVoid) <==> AllFit(JumpsAll(ss, inLoop), isVoid)
    ensures InLoopOnly(Group(ss), inLoop) <==> AllLand(JumpsAll(ss, inLoop))
    decreases ss, 0
  {
    if ss != [] {
      JumpsIff(ss[0], inLoop, isVoid);
      JumpsAllIff(ss[1..], inLoop, isVoid);
      JumpsJoin(Jumps(ss[0], inLoop), JumpsAll(ss[1..], inLoop), isVoid);
      assert forall i | 0 <= i < |ss[1..]| :: ss[1..][i] == ss[i + 1];
      assert forall i | 0 < i < |ss| :: ss[i] == ss[1..][i - 1];
    }
  }
}
