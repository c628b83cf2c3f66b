/** Which locals and loops the packetizer may keep lane-independent. */
module Uniformity {
  import opened ShaderAst

  /** The names a shader sees besides its locals. The fragment position and vertex index count as inputs,
      the instance index as a global. */
  datatype Interface = Interface(inputs: set<Name>, outputs: set<Name>, globals: set<Name>)

  /** divergentVars_ and uniformLoops_. */
  datatype Plan = Plan(divergent: set<Name>, loops: set<nat>)

  predicate UniformName(io: Interface, d: set<Name>, x: Name) {
    x !in io.inputs && x !in io.outputs && x !in d
  }

  predicate IsUniform(io: Interface, d: set<Name>, e: Expr) {
    match e
    case Const(_) => true
    case Var(x) => UniformName(io, d, x)
    case Apply(_, args) => forall i | 0 <= i < |args| :: IsUniform(io, d, args[i])
    case Call(_, args) => forall i | 0 <= i < |args| :: IsUniform(io, d, args[i])
    case Ternary(c, t, f) => IsUniform(io, d, c) && IsUniform(io, d, t) && IsUniform(io, d, f)
    case Cast(_, _) => false
    case Unsupported => false
  }

  /** The test scanUniformity makes at a loop. */
  predicate UniformLoop(io: Interface, d: set<Name>, divergentCF: bool, s: Stmt)
    requires IsLoop(s)
  {
    !divergentCF && IsUniform(io, d, s.cond) && !HasBreakOrContinue(s.body)
  }

  /** One pass of scanUniformity. */
  function Scan(io: Interface, s: Stmt, divergentCF: bool, p: Plan): Plan
    decreases s, 1
  {
    match s
    case Block(ss) => ScanAll(io, ss, divergentCF, p)
    case Assign(x, e) =>
      if divergentCF || !IsUniform(io, p.divergent, e) then p.(divergent := p.divergent + {x}) else p
    case If(_, t, e) =>
      var q := Scan(io, t, true, p);
      if e.Some? then Scan(io, e.value, true, q) else q
    case For(id, pre, _, b, i) =>
      var q := Scan(io, pre, divergentCF, p);
      var uni := UniformLoop(io, q.divergent, divergentCF, s);
      var r := Scan(io, b, !uni, q.(loops := if uni then q.loops + {id} else q.loops - {id}));
      if i.Some? then Scan(io, i.value, !uni, r) else r
    case While(id, _, b) =>
      var uni := UniformLoop(io, p.divergent, divergentCF, s);
      Scan(io, b, !uni, p.(loops := if uni then p.loops + {id} else p.loops - {id}))
    case _ => p
  }

  function ScanAll(io: Interface, ss: seq<Stmt>, divergentCF: bool, p: Plan): Plan
    decreases ss, 0
  {
    if ss == [] then p else ScanAll(io, ss[1..], divergentCF, Scan(io, ss[0], divergentCF, p))
  }

  /** Plan `p` justifies every decision: an assignment leaves a name lane-independent only when all lanes
      execute it with the same value, and a loop is uniform only when its test is. */
  ghost predicate Justified(io: Interface, s: Stmt, divergentCF: bool, p: Plan) {
    match s
    case Block(ss) => forall i | 0 <= i < |ss| :: Justified(io, ss[i], divergentCF, p)
    case Assign(x, e) => divergentCF || !IsUniform(io, p.divergent, e) ==> x in p.divergent
    case If(_, t, e) => Justified(io, t, true, p) && (e.Some? ==> Justified(io, e.value, true, p))
    case For(id, pre, _, b, i) =>
      && Justified(io, pre, divergentCF, p)
      && (id in p.loops ==> UniformLoop(io, p.divergent, divergentCF, s))
      && Justified(io, b, id !in p.loops, p)
      && (i.Some? ==> Justified(io, i.value, id !in p.loops, p))
    case While(id, _, b) =>
      && (id in p.loops ==> UniformLoop(io, p.divergent, divergentCF, s))
      && Justified(io, b, id !in p.loops, p)
    case _ => true
  }

  /** ... and a loop is uniform whenever its test is. */
  ghost predicate Decided(io: Interface, s: Stmt, divergentCF: bool, p: Plan) {
    match s
    case Block(ss) => forall i | 0 <= i < |ss| :: Decided(io, ss[i], divergentCF, p)
    case Assign(x, e) => divergentCF || !IsUniform(io, p.divergent, e) ==> x in p.divergent
    case If(_, t, e) => Decided(io, t, true, p) && (e.Some? ==> Decided(io, e.value, true, p))
    case For(id, pre, _, b, i) =>
      && Decided(io, pre, divergentCF, p)
      && (id in p.loops <==> UniformLoop(io, p.divergent, divergentCF, s))
      && Decided(io, b, id !in p.loops, p)
      && (i.Some? ==> Decided(io, i.value, id !in p.loops, p))
    case While(id, _, b) =>
      && (id in p.loops <==> UniformLoop(io, p.divergent, divergentCF, s))
      && Decided(io, b, id !in p.loops, p)
    case _ => true
  }

  lemma {:induction false} DecidedIsJustified(io: Interface, s: Stmt, divergentCF: bool, p: Plan)
    requires Decided(io, s, divergentCF, p)
    ensures Justified(io, s, divergentCF, p)
  {
    match s
    case Block(ss) => forall i | 0 <= i < |ss| ensures Justified(io, ss[i], divergentCF, p) { DecidedIsJustified(io, ss[i], divergentCF, p); }
    case If(_, t, e) =>
      DecidedIsJustified(io, t, true, p);
      if e.Some? { DecidedIsJustified(io, e.value, true, p); }
    case For(id, pre, _, b, i) =>
      DecidedIsJustified(io, pre, divergentCF, p);
      DecidedIsJustified(io, b, id !in p.loops, p);
      if i.Some? { DecidedIsJustified(io, i.value, id !in p.loops, p); }
    case While(id, _, b) => DecidedIsJustified(io, b, id !in p.loops, p);
    case _ =>
  }

  /** The plan that emits everything under masks. */
  function FullyMasked(s: Stmt): Plan {
    Plan(Assigned(s), {})
  }

  lemma {:induction false} MaskedIsJustified(io: Interface, s: Stmt, divergentCF: bool, p: Plan)
    requires Assigned(s) <= p.divergent && p.loops == {}
    ensures Justified(io, s, divergentCF, p)
  {
    match s
    case Block(ss) =>
      forall i | 0 <= i < |ss| ensures Justified(io, ss[i], divergentCF, p) {
        assert Assigned(ss[i]) <= Assigned(s);
        MaskedIsJustified(io, ss[i], divergentCF, p);
      }
    case If(_, t, e) =>
      MaskedIsJustified(io, t, true, p);
      if e.Some? { MaskedIsJustified(io, e.value, true, p); }
    case For(_, pre, _, b, i) =>
      MaskedIsJustified(io, pre, divergentCF, p);
      MaskedIsJustified(io, b, true, p);
      if i.Some? { MaskedIsJustified(io, i.value, true, p); }
    case While(_, _, b) => MaskedIsJustified(io, b, true, p);
    case _ =>
  }

  function LoopIds(s: Stmt): set<nat> {
    match s
    case Block(ss) => set i, id | 0 <= i < |ss| && id in LoopIds(ss[i]) :: id
    case If(_, t, e) => LoopIds(t) + (if e.Some? then LoopIds(e.value) else {})
    case For(id, p, _, b, i) => {id} + LoopIds(p) + LoopIds(b) + (if i.Some? then LoopIds(i.value) else {})
    case While(id, _, b) => {id} + LoopIds(b)
    case _ => {}
  }

  /** Loop nodes are distinct objects: no two loops of a tree share an identity. */
  ghost predicate DistinctLoops(s: Stmt) {
    match s
    case Block(ss) =>
      && (forall i | 0 <= i < |ss| :: DistinctLoops(ss[i]))
      && (forall i, j | 0 <= i < j < |ss| :: LoopIds(ss[i]) !! LoopIds(ss[j]))
    case If(_, t, e) =>
      DistinctLoops(t) && (e.Some? ==> DistinctLoops(e.value) && LoopIds(t) !! LoopIds(e.value))
    case For(id, p, _, b, i) =>
      && DistinctLoops(p) && DistinctLoops(b)
      && id !in LoopIds(p) && id !in LoopIds(b) && LoopIds(p) !! LoopIds(b)
      && (i.Some? ==> DistinctLoops(i.value) && id !in LoopIds(i.value)
                      && LoopIds(p) !! LoopIds(i.value) && LoopIds(b) !! LoopIds(i.value))
    case While(id, _, b) => DistinctLoops(b) && id !in LoopIds(b)
    case _ => true
  }

  /** Every name `s` assigns: the only names the analysis can mark. */
  function Assigned(s: Stmt): set<Name> {
    match s
    case Block(ss) => set i, x | 0 <= i < |ss| && x in Assigned(ss[i]) :: x
    case Assign(x, _) => {x}
    case If(_, t, e) => Assigned(t) + (if e.Some? then Assigned(e.value) else {})
    case For(_, p, _, b, i) => Assigned(p) + Assigned(b) + (if i.Some? then Assigned(i.value) else {})
    case While(_, _, b) => Assigned(b)
    case _ => {}
  }

  lemma {:induction false} ScanGrows(io: Interface, s: Stmt, divergentCF: bool, p: Plan)
    ensures
      var q := Scan(io, s, divergentCF, p);
      && p.divergent <= q.divergent <= p.divergent + Assigned(s)
      && (forall id | id !in LoopIds(s) :: id in q.loops <==> id in p.loops)
    decreases s, 1
  {
    match s
    case Block(ss) =>
      ScanAllGrows(io, ss, divergentCF, p);
    case If(_, t, e) =>
      ScanGrows(io, t, true, p);
      if e.Some? { ScanGrows(io, e.value, true, Scan(io, t, true, p)); }
    case For(id, pre, _, b, i) =>
      ScanGrows(io, pre, divergentCF, p);
      var q := Scan(io, pre, divergentCF, p);
      var uni := UniformLoop(io, q.divergent, divergentCF, s);
      var q' := q.(loops := if uni then q.loops + {id} else q.loops - {id});
      ScanGrows(io, b, !uni, q');
      if i.Some? { ScanGrows(io, i.value, !uni, Scan(io, b, !uni, q')); }
    case While(id, _, b) =>
      var uni := UniformLoop(io, p.divergent, divergentCF, s);
      ScanGrows(io, b, !uni, p.(loops := if uni then p.loops + {id} else p.loops - {id}));
    case _ =>
  }

  lemma {:induction false} ScanAllGrows(io: Interface, ss: seq<Stmt>, divergentCF: bool, p: Plan)
    ensures
      var q := ScanAll(io, ss, divergentCF, p);
      && p.divergent <= q.divergent <= p.divergent + Assigned(Block(ss))
      && (forall id | id !in LoopIds(Block(ss)) :: id in q.loops <==> id in p.loops)
    decreases ss, 0
  {
    if ss != [] {
      ScanGrows(io, ss[0], divergentCF, p);
      ScanAllGrows(io, ss[1..], divergentCF, Scan(io, ss[0], divergentCF, p));
      assert forall i | 0 <= i < |ss[1..]| :: ss[1..][i] == ss[i + 1];
      assert Assigned(ss[0]) <= Assigned(Block(ss));
      assert Assigned(Block(ss[1..])) <= Assigned(Block(ss));
      assert LoopIds(ss[0]) <= LoopIds(Block(ss));
      assert LoopIds(Block(ss[1..])) <= LoopIds(Block(ss));
    }
  }

  /** A decision only looks at the loops of its own tree. */
  lemma {:induction false} DecidedFrame(io: Interface, s: Stmt, divergentCF: bool, p: Plan, q: Plan)
    requires Decided(io, s, divergentCF, p) && p.divergent == q.divergent
    requires forall id | id in LoopIds(s) :: id in p.loops <==> id in q.loops
    ensures Decided(io, s, divergentCF, q)
  {
    match s
    case Block(ss) =>
      forall i | 0 <= i < |ss| ensures Decided(io, ss[i], divergentCF, q) {
        assert LoopIds(ss[i]) <= LoopIds(s);
        DecidedFrame(io, ss[i], divergentCF, p, q);
      }
    case If(_, t, e) =>
      DecidedFrame(io, t, true, p, q);
      if e.Some? { DecidedFrame(io, e.value, true, p, q); }
    case For(id, pre, _, b, i) =>
      DecidedFrame(io, pre, divergentCF, p, q);
      DecidedFrame(io, b, id !in p.loops, p, q);
      if i.Some? { DecidedFrame(io, i.value, id !in p.loops, p, q); }
    case While(id, _, b) => DecidedFrame(io, b, id !in p.loops, p, q);
    case _ =>
  }

  /** A pass that marks nothing new leaves a plan that justifies itself, and keeps every loop uniform whose test is. */
  lemma {:induction false} StablePassJustified(io: Interface, s: Stmt, divergentCF: bool, p: Plan)
    requires DistinctLoops(s)
    requires Scan(io, s, divergentCF, p).divergent == p.divergent
    ensures Decided(io, s, divergentCF, Scan(io, s, divergentCF, p))
    decreases s, 1
  {
    match s
    case Block(ss) => StablePassJustifiedAll(io, ss, divergentCF, p);
    case If(_, t, e) =>
      var q := Scan(io, t, true, p);
      ScanGrows(io, t, true, p);
      if e.Some? { ScanGrows(io, e.value, true, q); }
      StablePassJustified(io, t, true, p);
      if e.Some? {
        StablePassJustified(io, e.value, true, q);
        DecidedFrame(io, t, true, q, Scan(io, e.value, true, q));
      }
    case For(id, pre, _, b, i) =>
      var q := Scan(io, pre, divergentCF, p);
      var uni := UniformLoop(io, q.divergent, divergentCF, s);
      var q' := q.(loops := if uni then q.loops + {id} else q.loops - {id});
      var r := Scan(io, b, !uni, q');
      var z := Scan(io, s, divergentCF, p);
      ScanGrows(io, pre, divergentCF, p);
      ScanGrows(io, b, !uni, q');
      if i.Some? { ScanGrows(io, i.value, !uni, r); }
      StablePassJustified(io, pre, divergentCF, p);
      StablePassJustified(io, b, !uni, q');
      if i.Some? { StablePassJustified(io, i.value, !uni, r); }
      DecidedFrame(io, pre, divergentCF, q, z);
      DecidedFrame(io, b, !uni, r, z);
    case While(id, _, b) =>
      var uni := UniformLoop(io, p.divergent, divergentCF, s);
      var q := p.(loops := if uni then p.loops + {id} else p.loops - {id});
      ScanGrows(io, b, !uni, q);
      StablePassJustified(io, b, !uni, q);
    case _ =>
  }

  lemma {:induction false} StablePassJustifiedAll(io: Interface, ss: seq<Stmt>, divergentCF: bool, p: Plan)
    requires DistinctLoops(Block(ss))
    requires ScanAll(io, ss, divergentCF, p).divergent == p.divergent
    ensures Decided(io, Block(ss), divergentCF, ScanAll(io, ss, divergentCF, p))
    decreases ss, 0
  {
    if ss != [] {
      var q := Scan(io, ss[0], divergentCF, p);
      var z := ScanAll(io, ss, divergentCF, p);
      ScanGrows(io, ss[0], divergentCF, p);
      ScanAllGrows(io, ss[1..], divergentCF, q);
      assert forall i | 0 <= i < |ss[1..]| :: ss[1..][i] == ss[i + 1];
      assert DistinctLoops(Block(ss[1..]));
      StablePassJustified(io, ss[0], divergentCF, p);
      StablePassJustifiedAll(io, ss[1..], divergentCF, q);
      assert LoopIds(ss[0]) !! LoopIds(Block(ss[1..]));
      DecidedFrame(io, ss[0], divergentCF, q, z);
      forall i | 0 <= i < |ss| ensures Decided(io, ss[i], divergentCF, z) {
        if i > 0 { assert ss[i] == ss[1..][i - 1]; }
      }
    }
  }

  /** The set `d` marks every name that lane-dependence forces. */
  ghost predicate Closed(io: Interface, s: Stmt, divergentCF: bool, d: set<Name>) {
    match s
    case Block(ss) => forall i | 0 <= i < |ss| :: Closed(io, ss[i], divergentCF, d)
    case Assign(x, e) => divergentCF || !IsUniform(io, d, e) ==> x in d
    case If(_, t, e) => Closed(io, t, true, d) && (e.Some? ==> Closed(io, e.value, true, d))
    case For(_, pre, _, b, i) =>
      var diverges := !UniformLoop(io, d, divergentCF, s);
      Closed(io, pre, divergentCF, d) && Closed(io, b, diverges, d) && (i.Some? ==> Closed(io, i.value, diverges, d))
    case While(_, _, b) => Closed(io, b, !UniformLoop(io, d, divergentCF, s), d)
    case _ => true
  }

  lemma {:induction false} UniformShrinks(io: Interface, d: set<Name>, d': set<Name>, e: Expr)
    requires d <= d' && IsUniform(io, d', e)
    ensures IsUniform(io, d, e)
  {
    match e
    case Apply(_, args) => forall i | 0 <= i < |args| { UniformShrinks(io, d, d', args[i]); }
    case Call(_, args) => forall i | 0 <= i < |args| { UniformShrinks(io, d, d', args[i]); }
    case Ternary(c, t, f) =>
      UniformShrinks(io, d, d', c); UniformShrinks(io, d, d', t); UniformShrinks(io, d, d', f);
    case _ =>
  }

  lemma {:induction false} ClosedUnderLess(io: Interface, s: Stmt, d: set<Name>)
    requires Closed(io, s, true, d)
    ensures Closed(io, s, false, d)
  {
    match s
    case Block(ss) =>
      forall i | 0 <= i < |ss| ensures Closed(io, ss[i], false, d) { ClosedUnderLess(io, ss[i], d); }
    case For(_, pre, _, b, i) =>
      ClosedUnderLess(io, pre, d);
      ClosedUnderLess(io, b, d);
      if i.Some? { ClosedUnderLess(io, i.value, d); }
    case While(_, _, b) => ClosedUnderLess(io, b, d);
    case _ =>
  }

  /** A plan that justifies itself marks at least what lane-dependence forces. */
  lemma {:induction false} JustifiedIsClosed(io: Interface, s: Stmt, divergentCF: bool, p: Plan)
    requires Justified(io, s, divergentCF, p)
    ensures Closed(io, s, divergentCF, p.divergent)
  {
    match s
    case Block(ss) =>
      forall i | 0 <= i < |ss| ensures Closed(io, ss[i], divergentCF, p.divergent) {
        JustifiedIsClosed(io, ss[i], divergentCF, p);
      }
    case If(_, t, e) =>
      JustifiedIsClosed(io, t, true, p);
      if e.Some? { JustifiedIsClosed(io, e.value, true, p); }
    case For(id, pre, _, b, i) =>
      JustifiedIsClosed(io, pre, divergentCF, p);
      JustifiedIsClosed(io, b, id !in p.loops, p);
      if id !in p.loops { ClosedUnderLess(io, b, p.divergent); }
      if i.Some? {
        JustifiedIsClosed(io, i.value, id !in p.loops, p);
        if id !in p.loops { ClosedUnderLess(io, i.value, p.divergent); }
      }
    case While(id, _, b) =>
      JustifiedIsClosed(io, b, id !in p.loops, p);
      if id !in p.loops { ClosedUnderLess(io, b, p.divergent); }
    case _ =>
  }

  /** With the fewest marks go the most uniform loops. */
  lemma {:induction false} DecidedHasMostLoops(io: Interface, s: Stmt, less: bool, more: bool, q: Plan, p: Plan)
    requires Decided(io, s, less, q) && Justified(io, s, more, p) && q.divergent <= p.divergent && (less ==> more)
    ensures LoopIds(s) * p.loops <= q.loops
  {
    match s
    case Block(ss) => forall i | 0 <= i < |ss| ensures LoopIds(ss[i]) * p.loops <= q.loops { DecidedHasMostLoops(io, ss[i], less, more, q, p); }
    case If(_, t, e) =>
      DecidedHasMostLoops(io, t, true, true, q, p);
      if e.Some? { DecidedHasMostLoops(io, e.value, true, true, q, p); }
    case For(id, pre, c, b, i) =>
      DecidedHasMostLoops(io, pre, less, more, q, p);
      if id in p.loops { UniformShrinks(io, q.divergent, p.divergent, c); }
      DecidedHasMostLoops(io, b, id !in q.loops, id !in p.loops, q, p);
      if i.Some? { DecidedHasMostLoops(io, i.value, id !in q.loops, id !in p.loops, q, p); }
    case While(id, c, b) =>
      if id in p.loops { UniformShrinks(io, q.divergent, p.divergent, c); }
      DecidedHasMostLoops(io, b, id !in q.loops, id !in p.loops, q, p);
    case _ =>
  }

  /** A pass from below a closed set stays below it. */
  lemma {:induction false} ScanStaysBelow(io: Interface, s: Stmt, divergentCF: bool, p: Plan, d: set<Name>)
    requires p.divergent <= d && Closed(io, s, divergentCF, d)
    ensures Scan(io, s, divergentCF, p).divergent <= d
    decreases s, 1
  {
    match s
    case Block(ss) => ScanAllStaysBelow(io, ss, divergentCF, p, d);
    case Assign(x, e) =>
      if IsUniform(io, d, e) { UniformShrinks(io, p.divergent, d, e); }
    case If(_, t, e) =>
      ScanStaysBelow(io, t, true, p, d);
      if e.Some? { ScanStaysBelow(io, e.value, true, Scan(io, t, true, p), d); }
    case For(id, pre, _, b, i) =>
      ScanStaysBelow(io, pre, divergentCF, p, d);
      var p1 := Scan(io, pre, divergentCF, p);
      var uni := UniformLoop(io, p1.divergent, divergentCF, s);
      var p2 := p1.(loops := if uni then p1.loops + {id} else p1.loops - {id});
      LoopBodyClosed(io, s, divergentCF, p1.divergent, d);
      ScanStaysBelow(io, b, !uni, p2, d);
      if i.Some? { ScanStaysBelow(io, i.value, !uni, Scan(io, b, !uni, p2), d); }
    case While(id, _, b) =>
      var uni := UniformLoop(io, p.divergent, divergentCF, s);
      LoopBodyClosed(io, s, divergentCF, p.divergent, d);
      ScanStaysBelow(io, b, !uni, p.(loops := if uni then p.loops + {id} else p.loops - {id}), d);
    case _ =>
  }

  lemma LoopBodyClosed(io: Interface, s: Stmt, divergentCF: bool, below: set<Name>, d: set<Name>)
    requires IsLoop(s) && below <= d && Closed(io, s, divergentCF, d)
    ensures Closed(io, s.body, !UniformLoop(io, below, divergentCF, s), d)
    ensures Step(s).Some? ==> Closed(io, Step(s).value, !UniformLoop(io, below, divergentCF, s), d)
  {
    if IsUniform(io, d, s.cond) { UniformShrinks(io, below, d, s.cond); }
    if UniformLoop(io, below, divergentCF, s) && !UniformLoop(io, d, divergentCF, s) {
      ClosedUnderLess(io, s.body, d);
      if Step(s).Some? { ClosedUnderLess(io, Step(s).value, d); }
    }
  }

  lemma {:induction false} ScanAllStaysBelow(io: Interface, ss: seq<Stmt>, divergentCF: bool, p: Plan, d: set<Name>)
    requires p.divergent <= d && Closed(io, Block(ss), divergentCF, d)
    ensures ScanAll(io, ss, divergentCF, p).divergent <= d
    decreases ss, 0
  {
    if ss != [] {
      ScanStaysBelow(io, ss[0], divergentCF, p, d);
      assert forall i | 0 <= i < |ss[1..]| :: ss[1..][i] == ss[i + 1];
      ScanAllStaysBelow(io, ss[1..], divergentCF, Scan(io, ss[0], divergentCF, p), d);
    }
  }
}
