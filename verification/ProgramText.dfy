/** A shader as flat text: its expressions and statements one after the other, each with the constructs around it. */
module ProgramText {
  import opened ShaderAst

  /** An expression and everything in it. */
  function Parts(e: Expr): (ps: set<Expr>)
    ensures e in ps
  {
    match e
    case Apply(_, args) => {e} + PartsAll(args)
    case Call(_, args) => {e} + PartsAll(args)
    case Ternary(c, t, f) => {e} + Parts(c) + Parts(t) + Parts(f)
    case Cast(_, a) => {e} + Parts(a)
    case _ => {e}
  }

  function PartsAll(es: seq<Expr>): (ps: set<Expr>)
    ensures forall p :: p in ps <==> exists i :: 0 <= i < |es| && p in Parts(es[i])
  {
    if es == [] then {}
    else
      assert forall i | 0 < i < |es| :: es[i] == es[1..][i - 1];
      Parts(es[0]) + PartsAll(es[1..])
  }

  /** The names an expression reads. */
  function Names(e: Expr): set<Name> {
    set p | p in Parts(e) && p.Var? :: p.name
  }

  /** What an event stands in: an arm of an `if`, or the body or the increment of a loop. */
  datatype Frame = Arm | Round(id: nat) | After(id: nat)

  datatype Word =
    | Reads(e: Expr)                               // an expression is computed
    | Sets(x: Name, v: Expr)
    | Patches(x: Name, member: string)             // a swizzle assignment
    | Loops(id: nat, test: Expr, body: Stmt, heads: seq<Stmt>)
    | Escapes                                      // break or continue
    | Discards
    | Alien                                        // a statement of no known kind

  datatype Event = Event(word: Word, trail: seq<Frame>)

  /** The same text inside one more construct. */
  function Inside(f: Frame, t: seq<Event>): (u: seq<Event>)
    ensures |u| == |t| && forall i | 0 <= i < |t| :: u[i] == Event(t[i].word, [f] + t[i].trail)
  {
    seq(|t|, i requires 0 <= i < |t| => Event(t[i].word, [f] + t[i].trail))
  }

  function Text(s: Stmt): seq<Event>
    decreases s, 1
  {
    match s
    case Block(ss) => TextAll(ss)
    case Assign(x, v) => [Event(Reads(v), []), Event(Sets(x, v), [])]
    case MemberAssign(x, m, v) => [Event(Reads(v), []), Event(Patches(x, m), [])]
    case If(c, t, e) => [Event(Reads(c), [])] + (Inside(Arm, Text(t)) + if e.Some? then Inside(Arm, Text(e.value)) else [])
    case For(_, pre, _, _, _) => Text(pre) + LoopText(s)
    case While(_, _, _) => LoopText(s)
    case Break | Continue => [Event(Escapes, [])]
    case Discard => [Event(Discards, [])]
    case Other => [Event(Alien, [])]
  }

  /** The initialiser and the increment of a `for`. */
  function Heads(s: Stmt): seq<Stmt>
    requires IsLoop(s)
  {
    if s.For? then [s.pre] + (if s.incr.Some? then [s.incr.value] else []) else []
  }

  /** A loop from its test on. */
  function LoopText(s: Stmt): seq<Event>
    requires IsLoop(s)
    decreases s, 0
  {
    [Event(Reads(s.cond), []), Event(Loops(s.id, s.cond, s.body, Heads(s)), [])] + (Inside(Round(s.id), Text(s.body)) + StepText(s))
  }

  function StepText(s: Stmt): seq<Event>
    requires IsLoop(s)
    decreases s, 0, 0
  {
    if Step(s).Some? then Inside(After(s.id), Text(Step(s).value)) else []
  }

  function TextAll(ss: seq<Stmt>): seq<Event>
    decreases ss, 0
  {
    if ss == [] then [] else Text(ss[0]) + TextAll(ss[1..])
  }

  // ---- break and continue ----

  /** Nothing but conditionals around it. */
  predicate Bare(trail: seq<Frame>) {
    forall f | f in trail :: f.Arm?
  }

  predicate EscapesAt(t: seq<Event>, i: nat) {
    i < |t| && t[i].word.Escapes? && Bare(t[i].trail)
  }

  predicate OwnEscape(t: seq<Event>) {
    exists i | 0 <= i < |t| :: EscapesAt(t, i)
  }

  lemma OwnEscapeJoin(a: seq<Event>, b: seq<Event>)
    ensures OwnEscape(a + b) <==> OwnEscape(a) || OwnEscape(b)
  {
    if i :| 0 <= i < |a| && EscapesAt(a, i) { assert EscapesAt(a + b, i); }
    if i :| 0 <= i < |b| && EscapesAt(b, i) { assert EscapesAt(a + b, |a| + i); }
    if i :| 0 <= i < |a + b| && EscapesAt(a + b, i) {
      if i < |a| { assert EscapesAt(a, i); } else { assert EscapesAt(b, i - |a|); }
    }
  }

  lemma OwnEscapeInside(f: Frame, t: seq<Event>)
    ensures OwnEscape(Inside(f, t)) <==> f.Arm? && OwnEscape(t)
  {
    var u := Inside(f, t);
    if i :| 0 <= i < |u| && EscapesAt(u, i) {
      assert u[i].trail[0] == f && forall g | g in t[i].trail :: g in u[i].trail;
      assert EscapesAt(t, i);
    }
    if f.Arm? {
      if i :| 0 <= i < |t| && EscapesAt(t, i) { assert EscapesAt(u, i); }
    }
  }

  /** A statement breaks or continues the loop around it exactly when its text has a break or continue in no loop. */
  lemma {:induction false} BreakOrContinueIff(s: Stmt)
    requires WellFormed(s, true)
    ensures HasBreakOrContinue(s) <==> OwnEscape(Text(s))
    decreases s, 1
  {
    match s
    case Block(ss) => BreakOrContinueIffAll(ss);
    case If(c, t, e) =>
      BreakOrContinueIff(t);
      OwnEscapeInside(Arm, Text(t));
      var u := if e.Some? then Inside(Arm, Text(e.value)) else [];
      if e.Some? {
        BreakOrContinueIff(e.value);
        OwnEscapeInside(Arm, Text(e.value));
      }
      OwnEscapeJoin(Inside(Arm, Text(t)), u);
      OwnEscapeJoin([Event(Reads(c), [])], Inside(Arm, Text(t)) + u);
    case For(_, pre, _, _, _) =>
      LoopOwnsEscapes(s);
      BreakOrContinueIff(pre);
      OwnEscapeJoin(Text(pre), LoopText(s));
    case While(_, _, _) => LoopOwnsEscapes(s);
    case Break => assert EscapesAt(Text(s), 0);
    case Continue => assert EscapesAt(Text(s), 0);
    case _ =>
  }

  lemma LoopOwnsEscapes(s: Stmt)
    requires IsLoop(s)
    ensures !OwnEscape(LoopText(s))
  {
    OwnEscapeInside(Round(s.id), Text(s.body));
    if Step(s).Some? { OwnEscapeInside(After(s.id), Text(Step(s).value)); }
    OwnEscapeJoin(Inside(Round(s.id), Text(s.body)), StepText(s));
    OwnEscapeJoin([Event(Reads(s.cond), []), Event(Loops(s.id, s.cond, s.body, Heads(s)), [])], Inside(Round(s.id), Text(s.body)) + StepText(s));
  }

  lemma {:induction false} BreakOrContinueIffAll(ss: seq<Stmt>)
    requires forall i | 0 <= i < |ss| :: WellFormed(ss[i], true)
    ensures HasBreakOrContinue(Block(ss)) <==> OwnEscape(TextAll(ss))
    decreases ss, 0
  {
    if ss != [] {
      BreakOrContinueIff(ss[0]);
      BreakOrContinueIffAll(ss[1..]);
      OwnEscapeJoin(Text(ss[0]), TextAll(ss[1..]));
      BlockEscapes(ss);
    }
  }

  lemma BlockEscapes(ss: seq<Stmt>)
    requires ss != []
    ensures HasBreakOrContinue(Block(ss)) <==> HasBreakOrContinue(ss[0]) || HasBreakOrContinue(Block(ss[1..]))
  {
    assert forall i | 0 <= i < |ss[1..]| :: ss[1..][i] == ss[i + 1];
    if i :| 0 <= i < |ss| && HasBreakOrContinue(ss[i]) {
      if i > 0 { assert HasBreakOrContinue(ss[1..][i - 1]); }
    }
  }

  // ---- loops around and in a statement ----

  predicate Looped(trail: seq<Frame>) {
    exists f | f in trail :: f.Round?
  }

  lemma LoopedInside(f: Frame, trail: seq<Frame>)
    ensures Looped([f] + trail) <==> f.Round? || Looped(trail)
  {
    assert f in [f] + trail;
    forall g | g in trail ensures g in [f] + trail {}
  }

  /** Loop headers are assignments, and break and continue stand in loops. */
  predicate InPlace(ev: Event, inLoop: bool) {
    match ev.word
    case Loops(_, _, _, heads) => forall h | h in heads :: h.Assign? || h.MemberAssign?
    case Escapes => inLoop || Looped(ev.trail)
    case _ => true
  }

  predicate AllInPlace(t: seq<Event>, inLoop: bool) {
    forall i | 0 <= i < |t| :: InPlace(t[i], inLoop)
  }

  lemma InPlaceJoin(a: seq<Event>, b: seq<Event>, inLoop: bool)
    ensures AllInPlace(a + b, inLoop) <==> AllInPlace(a, inLoop) && AllInPlace(b, inLoop)
  {
    if AllInPlace(a + b, inLoop) {
      forall i | 0 <= i < |a| ensures InPlace(a[i], inLoop) { assert a[i] == (a + b)[i]; }
      forall i | 0 <= i < |b| ensures InPlace(b[i], inLoop) { assert b[i] == (a + b)[|a| + i]; }
    }
  }

  lemma InPlaceInside(f: Frame, t: seq<Event>, inLoop: bool)
    ensures AllInPlace(Inside(f, t), inLoop) <==> AllInPlace(t, inLoop || f.Round?)
  {
    var u := Inside(f, t);
    forall i | 0 <= i < |t| ensures InPlace(u[i], inLoop) <==> InPlace(t[i], inLoop || f.Round?) { LoopedInside(f, t[i].trail); }
  }

  lemma {:induction false} WellFormedIff(s: Stmt, inLoop: bool)
    ensures WellFormed(s, inLoop) <==> AllInPlace(Text(s), inLoop)
    decreases s, 1
  {
    match s
    case Block(ss) => WellFormedAllIff(ss, inLoop);
    case If(c, t, e) =>
      WellFormedIff(t, inLoop);
      InPlaceInside(Arm, Text(t), inLoop);
      var u := if e.Some? then Inside(Arm, Text(e.value)) else [];
      if e.Some? {
        WellFormedIff(e.value, inLoop);
        InPlaceInside(Arm, Text(e.value), inLoop);
      }
      InPlaceJoin(Inside(Arm, Text(t)), u, inLoop);
      InPlaceJoin([Event(Reads(c), [])], Inside(Arm, Text(t)) + u, inLoop);
    case For(_, pre, _, _, _) =>
      LoopInPlace(s, inLoop);
      InPlaceJoin(Text(pre), LoopText(s), inLoop);
    case While(_, _, _) => LoopInPlace(s, inLoop);
    case Break => assert InPlace(Text(s)[0], inLoop) <==> inLoop;
    case Continue => assert InPlace(Text(s)[0], inLoop) <==> inLoop;
    case _ =>
  }

  lemma {:induction false} LoopInPlace(s: Stmt, inLoop: bool)
    requires IsLoop(s)
    ensures WellFormed(s, inLoop) <==> AllInPlace(LoopText(s), inLoop)
    decreases s, 0
  {
    var head := [Event(Reads(s.cond), []), Event(Loops(s.id, s.cond, s.body, Heads(s)), [])];
    WellFormedIff(s.body, true);
    InPlaceInside(Round(s.id), Text(s.body), inLoop);
    if Step(s).Some? { InPlaceInside(After(s.id), Text(Step(s).value), inLoop); }
    InPlaceJoin(Inside(Round(s.id), Text(s.body)), StepText(s), inLoop);
    InPlaceJoin(head, Inside(Round(s.id), Text(s.body)) + StepText(s), inLoop);
    HeadsInPlace(s, inLoop);
  }

  lemma HeadsInPlace(s: Stmt, inLoop: bool)
    requires IsLoop(s)
    ensures
      AllInPlace([Event(Reads(s.cond), []), Event(Loops(s.id, s.cond, s.body, Heads(s)), [])], inLoop) <==>
        (s.For? ==> IsHeader(s.pre)) && (Step(s).Some? ==> IsHeader(Step(s).value))
    ensures s.For? && IsHeader(s.pre) ==> AllInPlace(Text(s.pre), inLoop)
    ensures Step(s).Some? && IsHeader(Step(s).value) ==> AllInPlace(Text(Step(s).value), inLoop)
  {
    var t := [Event(Reads(s.cond), []), Event(Loops(s.id, s.cond, s.body, Heads(s)), [])];
    assert AllInPlace(t, inLoop) <==> InPlace(t[1], inLoop);
    if s.For? {
      assert s.pre in Heads(s);
      if Step(s).Some? { assert Heads(s)[1] == Step(s).value; }
    }
  }

  lemma {:induction false} WellFormedAllIff(ss: seq<Stmt>, inLoop: bool)
    ensures WellFormed(Block(ss), inLoop) <==> AllInPlace(TextAll(ss), inLoop)
    decreases ss, 0
  {
    if ss != [] {
      WellFormedIff(ss[0], inLoop);
      WellFormedAllIff(ss[1..], inLoop);
      InPlaceJoin(Text(ss[0]), TextAll(ss[1..]), inLoop);
      assert forall i | 0 <= i < |ss[1..]| :: ss[1..][i] == ss[i + 1];
      assert forall i | 0 < i < |ss| :: ss[i] == ss[1..][i - 1];
    }
  }

  // ---- arms worth a branch ----

  /** The parts of an expression that no conversion hides. */
  function Exposed(e: Expr): (ps: set<Expr>)
    ensures e in ps
  {
    match e
    case Apply(_, args) => {e} + ExposedAll(args)
    case Call(_, args) => {e} + ExposedAll(args)
    case Ternary(c, t, f) => {e} + Exposed(c) + Exposed(t) + Exposed(f)
    case _ => {e}
  }

  function ExposedAll(es: seq<Expr>): (ps: set<Expr>)
    ensures forall p :: p in ps <==> exists i :: 0 <= i < |es| && p in Exposed(es[i])
  {
    if es == [] then {}
    else
      assert forall i | 0 < i < |es| :: es[i] == es[1..][i - 1];
      Exposed(es[0]) + ExposedAll(es[1..])
  }

  ghost predicate Calls(ps: set<Expr>) {
    exists p :: p in ps && p.Call?
  }

  lemma {:induction false} CallIff(e: Expr)
    ensures ExprWorthBranching(e) <==> Calls(Exposed(e))
  {
    match e
    case Apply(_, args) =>
      forall i | 0 <= i < |args| ensures ExprWorthBranching(args[i]) <==> Calls(Exposed(args[i])) { CallIff(args[i]); }
      if i :| 0 <= i < |args| && ExprWorthBranching(args[i]) {
        var p :| p in Exposed(args[i]) && p.Call?;
        assert p in ExposedAll(args);
      }
      if Calls(Exposed(e)) {
        var p :| p in Exposed(e) && p.Call?;
        var i :| 0 <= i < |args| && p in Exposed(args[i]);
        assert Calls(Exposed(args[i]));
      }
    case Call(_, _) => assert e in Exposed(e);
    case Ternary(c, t, f) =>
      CallIff(c);
      CallIff(t);
      CallIff(f);
      assert Exposed(e) == {e} + Exposed(c) + Exposed(t) + Exposed(f);
    case _ => assert Exposed(e) == {e};
  }

  /** A loop, or an expression with a call. */
  ghost predicate Costs(ev: Event) {
    ev.word.Loops? || (ev.word.Reads? && Calls(Exposed(ev.word.e)))
  }

  predicate Dies(ev: Event) {
    ev.word.Discards?
  }

  ghost predicate Costly(t: seq<Event>) {
    exists i :: 0 <= i < |t| && Costs(t[i])
  }

  ghost predicate Deadly(t: seq<Event>) {
    exists i :: 0 <= i < |t| && Dies(t[i])
  }

  lemma CostsJoin(a: seq<Event>, b: seq<Event>)
    ensures Costly(a + b) <==> Costly(a) || Costly(b)
    ensures Deadly(a + b) <==> Deadly(a) || Deadly(b)
  {
    var u := a + b;
    if i :| 0 <= i < |a| && Costs(a[i]) { assert Costs(u[i]); }
    if i :| 0 <= i < |b| && Costs(b[i]) { assert Costs(u[|a| + i]); }
    if i :| 0 <= i < |u| && Costs(u[i]) { if i >= |a| { assert Costs(b[i - |a|]); } else { assert Costs(a[i]); } }
    if i :| 0 <= i < |a| && Dies(a[i]) { assert Dies(u[i]); }
    if i :| 0 <= i < |b| && Dies(b[i]) { assert Dies(u[|a| + i]); }
    if i :| 0 <= i < |u| && Dies(u[i]) { if i >= |a| { assert Dies(b[i - |a|]); } else { assert Dies(a[i]); } }
  }

  lemma CostsInside(f: Frame, t: seq<Event>)
    ensures (Costly(Inside(f, t)) <==> Costly(t)) && (Deadly(Inside(f, t)) <==> Deadly(t))
  {
    var u := Inside(f, t);
    if i :| 0 <= i < |t| && Costs(t[i]) { assert Costs(u[i]); }
    if i :| 0 <= i < |u| && Costs(u[i]) { assert Costs(t[i]); }
    if i :| 0 <= i < |t| && Dies(t[i]) { assert Dies(u[i]); }
    if i :| 0 <= i < |u| && Dies(u[i]) { assert Dies(t[i]); }
  }

  /** An arm is worth a branch exactly when its text has a loop or a call; and it holds a discard exactly when its text
      does. */
  ghost predicate TellsArm(s: Stmt, t: seq<Event>) {
    (ArmWorthBranching(s) <==> Costly(t)) && (ContainsDiscard(s) <==> Deadly(t))
  }

  lemma {:induction false} ArmIff(s: Stmt)
    requires WellFormed(s, true)
    ensures TellsArm(s, Text(s))
    decreases s, 1
  {
    match s
    case Block(ss) => ArmIffAll(ss);
    case Assign(x, v) => SimpleArm(s, v, Sets(x, v));
    case MemberAssign(x, m, v) => SimpleArm(s, v, Patches(x, m));
    case If(c, t, e) =>
      ReadCosts(c);
      ArmIff(t);
      CostsInside(Arm, Text(t));
      var u := if e.Some? then Inside(Arm, Text(e.value)) else [];
      if e.Some? {
        ArmIff(e.value);
        CostsInside(Arm, Text(e.value));
      }
      CostsJoin(Inside(Arm, Text(t)), u);
      CostsJoin([Event(Reads(c), [])], Inside(Arm, Text(t)) + u);
    case For(_, pre, _, _, _) =>
      LoopArm(s);
      ArmIff(pre);
      CostsJoin(Text(pre), LoopText(s));
    case While(_, _, _) => LoopArm(s);
    case Discard => assert Dies(Text(s)[0]);
    case _ =>
  }

  lemma ReadCosts(e: Expr)
    ensures Costly([Event(Reads(e), [])]) <==> ExprWorthBranching(e)
    ensures !Deadly([Event(Reads(e), [])])
  {
    CallIff(e);
    var t := [Event(Reads(e), [])];
    assert Costs(t[0]) <==> Calls(Exposed(e));
  }

  lemma SimpleArm(s: Stmt, v: Expr, w: Word)
    requires IsHeader(s) && (if s.Assign? then v == s.init else v == s.value) && !w.Reads? && !w.Loops? && !w.Discards?
    ensures TellsArm(s, [Event(Reads(v), []), Event(w, [])])
  {
    ReadCosts(v);
    CostsJoin([Event(Reads(v), [])], [Event(w, [])]);
    assert [Event(Reads(v), [])] + [Event(w, [])] == [Event(Reads(v), []), Event(w, [])];
  }

  lemma {:induction false} LoopArm(s: Stmt)
    requires IsLoop(s) && WellFormed(s, true)
    ensures TellsArm(s, LoopText(s))
    decreases s, 0
  {
    var head := [Event(Reads(s.cond), []), Event(Loops(s.id, s.cond, s.body, Heads(s)), [])];
    assert Costs(head[1]);
    ArmIff(s.body);
    CostsInside(Round(s.id), Text(s.body));
    if Step(s).Some? {
      ArmIff(Step(s).value);
      CostsInside(After(s.id), Text(Step(s).value));
    }
    CostsJoin(Inside(Round(s.id), Text(s.body)), StepText(s));
    CostsJoin(head, Inside(Round(s.id), Text(s.body)) + StepText(s));
  }

  lemma {:induction false} ArmIffAll(ss: seq<Stmt>)
    requires forall i | 0 <= i < |ss| :: WellFormed(ss[i], true)
    ensures TellsArm(Block(ss), TextAll(ss))
    decreases ss, 0
  {
    if ss != [] {
      ArmIff(ss[0]);
      ArmIffAll(ss[1..]);
      CostsJoin(Text(ss[0]), TextAll(ss[1..]));
      BlockArm(ss);
    }
  }

  lemma BlockArm(ss: seq<Stmt>)
    requires ss != []
    ensures ArmWorthBranching(Block(ss)) <==> ArmWorthBranching(ss[0]) || ArmWorthBranching(Block(ss[1..]))
    ensures ContainsDiscard(Block(ss)) <==> ContainsDiscard(ss[0]) || ContainsDiscard(Block(ss[1..]))
  {
    assert forall i | 0 <= i < |ss[1..]| :: ss[1..][i] == ss[i + 1];
    if i :| 0 <= i < |ss| && ArmWorthBranching(ss[i]) {
      if i > 0 { assert ArmWorthBranching(ss[1..][i - 1]); }
    }
    if i :| 0 <= i < |ss| && ContainsDiscard(ss[i]) {
      if i > 0 { assert ContainsDiscard(ss[1..][i - 1]); }
    }
  }
}
