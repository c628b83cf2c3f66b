/** Runs whose masked loops are entered with the structural mask inside em: the seed of la is then the set of running
    lanes. */
module Seeding {
  import opened ShaderAst
  import opened Uniformity
  import opened Scoping
  import opened PacketSemantics

  ghost predicate Inside(m: Mask, em: Mask)
    requires |m| == |em|
  {
    forall l | 0 <= l < |m| && m[l] :: em[l]
  }

  /** Every masked loop that the run of `s` enters is entered with its mask inside em. */
  ghost predicate Seeded(k: Packet, n: nat, s: Stmt, seen: set<Name>, m: Mask, p: PState)
    requires k.width > 0 && WellShaped(k, p) && |m| == k.width
    decreases n, s, 1
  {
    match s
    case Block(ss) => SeededAll(k, n, ss, seen, m, p)
    case If(c, t, e) =>
      var cm := CondMask(k, c, p.mem);
      var r := RunArm(k, n, t, seen, And(m, cm), p);
      && SeededArm(k, n, t, seen, And(m, cm), p)
      && (r.Ran? && e.Some? ==> SeededArm(k, n, e.value, seen + Assigned(t), AndNot(m, cm), r.p))
    case For(_, pre, _, _, _) =>
      var r := Run(k, n, pre, seen, m, p);
      Seeded(k, n, pre, seen, m, p) && (r.Ran? ==> SeededLoop(k, n, s, seen + Assigned(pre), m, r.p))
    case While(_, _, _) => SeededLoop(k, n, s, seen, m, p)
    case _ => true
  }

  ghost predicate SeededAll(k: Packet, n: nat, ss: seq<Stmt>, seen: set<Name>, m: Mask, p: PState)
    requires k.width > 0 && WellShaped(k, p) && |m| == k.width
    decreases n, ss, 0
  {
    ss != [] ==>
      var r := Run(k, n, ss[0], seen, m, p);
      Seeded(k, n, ss[0], seen, m, p) && (r.Ran? ==> SeededAll(k, n, ss[1..], seen + Assigned(ss[0]), m, r.p))
  }

  ghost predicate SeededArm(k: Packet, n: nat, s: Stmt, seen: set<Name>, m: Mask, p: PState)
    requires k.width > 0 && WellShaped(k, p) && |m| == k.width
    decreases n, s, 2
  {
    (Guarded(s) && !Any(Eff(k, m, p))) || Seeded(k, n, s, seen, m, p)
  }

  ghost predicate SeededLoop(k: Packet, n: nat, s: Stmt, seen: set<Name>, m: Mask, p: PState)
    requires k.width > 0 && WellShaped(k, p) && |m| == k.width && IsLoop(s)
    decreases n, s, 0, 2
  {
    if s.id in k.plan.loops then SeededUniform(k, n, s, seen, m, p)
    else Inside(m, p.em) && SeededMasked(k, n, s, seen, p.(la := m))
  }

  ghost predicate SeededUniform(k: Packet, n: nat, s: Stmt, seen: set<Name>, m: Mask, p: PState)
    requires k.width > 0 && WellShaped(k, p) && |m| == k.width && IsLoop(s)
    decreases n, s, 0, 1
  {
    CondMask(k, s.cond, p.mem)[0] && n > 0 ==>
      var r := Run(k, n, s.body, seen, m, p);
      Seeded(k, n, s.body, seen, m, p) && (r.Ran? ==> SeededUniformRest(k, n, s, seen, m, r.p))
  }

  /** The increment and the remaining iterations of a uniform loop. */
  ghost predicate SeededUniformRest(k: Packet, n: nat, s: Stmt, seen: set<Name>, m: Mask, p: PState)
    requires k.width > 0 && WellShaped(k, p) && |m| == k.width && IsLoop(s) && n > 0
    decreases n, s, 0, 0, 1
  {
    var q := RunStep(k, n, s, seen + Assigned(s.body), m, p);
    SeededStep(k, n, s, seen + Assigned(s.body), m, p) && (q.Ran? ==> SeededUniform(k, n - 1, s, seen, m, q.p))
  }

  ghost predicate SeededMasked(k: Packet, n: nat, s: Stmt, seen: set<Name>, p: PState)
    requires k.width > 0 && WellShaped(k, p) && IsLoop(s)
    decreases n, s, 0, 1
  {
    var na := And(p.la, CondMask(k, s.cond, p.mem));
    Any(na) && n > 0 ==>
      var b := p.(la := na).(em := na);
      var r := Run(k, n, s.body, seen, na, b);
      Seeded(k, n, s.body, seen, na, b) && (r.Ran? ==> SeededRest(k, n, s, seen, r.p.la, r.p.(em := AllLanes(k.width))))
  }

  /** The increment and the remaining iterations of a masked loop. */
  ghost predicate SeededRest(k: Packet, n: nat, s: Stmt, seen: set<Name>, m: Mask, p: PState)
    requires k.width > 0 && WellShaped(k, p) && |m| == k.width && IsLoop(s) && n > 0
    decreases n, s, 0, 0, 1
  {
    var q := RunStep(k, n, s, seen + Assigned(s.body), m, p);
    SeededStep(k, n, s, seen + Assigned(s.body), m, p) && (q.Ran? ==> SeededMasked(k, n - 1, s, seen, q.p))
  }

  ghost predicate SeededStep(k: Packet, n: nat, s: Stmt, seen: set<Name>, m: Mask, p: PState)
    requires k.width > 0 && WellShaped(k, p) && |m| == k.width && IsLoop(s)
    decreases n, s, 0, 0, 0
  {
    Step(s).Some? ==> Seeded(k, n, Step(s).value, seen, m, p)
  }

  // ---- what a statement does to em ----

  /** Outside its mask a statement leaves em alone; and a statement without break and continue does so everywhere. */
  ghost predicate EmAfter(plain: bool, m: Mask, p: PState, r: Outcome)
    requires r.Ran? ==> |r.p.em| == |p.em| == |m|
  {
    r.Ran? ==> forall l | 0 <= l < |m| && (plain || !m[l]) :: r.p.em[l] == p.em[l]
  }

  predicate Plain(s: Stmt) {
    !HasBreakOrContinue(s)
  }

  lemma {:induction false} RunEm(k: Packet, n: nat, s: Stmt, cf: bool, seen: set<Name>, m: Mask, p: PState)
    requires k.width > 0 && WellShaped(k, p) && |m| == k.width && Justified(k.io, s, cf, k.plan) && WellFormed(s, true)
    ensures EmAfter(Plain(s), m, p, Run(k, n, s, seen, m, p))
    decreases n, s, 1
  {
    match s
    case Block(ss) => RunAllEm(k, n, ss, cf, seen, m, p);
    case If(c, t, e) =>
      var cm := CondMask(k, c, p.mem);
      var r := RunArm(k, n, t, seen, And(m, cm), p);
      RunEm(k, n, t, true, seen, And(m, cm), p);
      if r.Ran? && e.Some? { RunEm(k, n, e.value, true, seen + Assigned(t), AndNot(m, cm), r.p); }
    case For(_, pre, _, _, _) =>
      var r := Run(k, n, pre, seen, m, p);
      HeaderEm(k, n, pre, seen, m, p);
      RunLoopEm(k, n, s, cf, seen + Assigned(pre), m, r.p);
    case While(_, _, _) => RunLoopEm(k, n, s, cf, seen, m, p);
    case _ =>
  }

  lemma HeaderEm(k: Packet, n: nat, s: Stmt, seen: set<Name>, m: Mask, p: PState)
    requires k.width > 0 && WellShaped(k, p) && |m| == k.width && IsHeader(s)
    ensures
      var r := Run(k, n, s, seen, m, p);
      r.Ran? && r.p.em == p.em && Seeded(k, n, s, seen, m, p)
  {
  }

  lemma {:induction false} RunAllEm(k: Packet, n: nat, ss: seq<Stmt>, cf: bool, seen: set<Name>, m: Mask, p: PState)
    requires k.width > 0 && WellShaped(k, p) && |m| == k.width
    requires forall i | 0 <= i < |ss| :: Justified(k.io, ss[i], cf, k.plan) && WellFormed(ss[i], true)
    ensures EmAfter(Plain(Block(ss)), m, p, RunAll(k, n, ss, seen, m, p))
    decreases n, ss, 0
  {
    if ss != [] {
      var r := Run(k, n, ss[0], seen, m, p);
      RunEm(k, n, ss[0], cf, seen, m, p);
      if r.Ran? {
        RunAllEm(k, n, ss[1..], cf, seen + Assigned(ss[0]), m, r.p);
        assert Plain(Block(ss)) ==> Plain(ss[0]) && Plain(Block(ss[1..])) by {
          assert forall i | 0 <= i < |ss[1..]| :: ss[1..][i] == ss[i + 1];
        }
      }
    }
  }

  lemma {:induction false} RunLoopEm(k: Packet, n: nat, s: Stmt, cf: bool, seen: set<Name>, m: Mask, p: PState)
    requires k.width > 0 && WellShaped(k, p) && |m| == k.width && IsLoop(s) && Justified(k.io, s, cf, k.plan) && WellFormed(s, true)
    ensures EmAfter(true, m, p, RunLoop(k, n, s, seen, m, p))
    decreases n, s, 0, 2
  {
    if s.id in k.plan.loops { RunUniformEm(k, n, s, seen, m, p); }
  }

  lemma {:induction false} RunUniformEm(k: Packet, n: nat, s: Stmt, seen: set<Name>, m: Mask, p: PState)
    requires k.width > 0 && WellShaped(k, p) && |m| == k.width && IsLoop(s) && WellFormed(s, true)
    requires Justified(k.io, s.body, false, k.plan) && Plain(s.body)
    ensures EmAfter(true, m, p, RunUniform(k, n, s, seen, m, p))
    decreases n, s, 0, 1
  {
    if CondMask(k, s.cond, p.mem)[0] && n > 0 {
      var r := Run(k, n, s.body, seen, m, p);
      RunEm(k, n, s.body, false, seen, m, p);
      if r.Ran? {
        if Step(s).Some? { HeaderEm(k, n, Step(s).value, seen + Assigned(s.body), m, r.p); }
        var q := RunStep(k, n, s, seen + Assigned(s.body), m, r.p);
        RunUniformEm(k, n - 1, s, seen, m, q.p);
      }
    }
  }

  // ---- the syntactic rule is enough ----

  /** Where no loop follows a break or continue of the same body, every masked loop is entered with its mask inside em. */
  lemma {:induction false} RuleSeeds(k: Packet, n: nat, s: Stmt, cf: bool, escaped: bool, seen: set<Name>, m: Mask, p: PState)
    requires k.width > 0 && WellShaped(k, p) && |m| == k.width && Justified(k.io, s, cf, k.plan) && WellFormed(s, true)
    requires LoopsBeforeEscapes(s, escaped) && (!escaped ==> Inside(m, p.em))
    ensures Seeded(k, n, s, seen, m, p)
    decreases n, s, 1
  {
    match s
    case Block(ss) => RuleSeedsAll(k, n, ss, cf, escaped, seen, m, p);
    case If(c, t, e) =>
      var cm := CondMask(k, c, p.mem);
      var r := RunArm(k, n, t, seen, And(m, cm), p);
      RuleSeeds(k, n, t, true, escaped, seen, And(m, cm), p);
      RunEm(k, n, t, true, seen, And(m, cm), p);
      if r.Ran? && e.Some? { RuleSeeds(k, n, e.value, true, escaped, seen + Assigned(t), AndNot(m, cm), r.p); }
    case For(_, pre, _, _, _) =>
      var r := Run(k, n, pre, seen, m, p);
      HeaderEm(k, n, pre, seen, m, p);
      RuleSeedsLoop(k, n, s, cf, seen + Assigned(pre), m, r.p);
    case While(_, _, _) => RuleSeedsLoop(k, n, s, cf, seen, m, p);
    case _ =>
  }

  lemma {:induction false} RuleSeedsAll(k: Packet, n: nat, ss: seq<Stmt>, cf: bool, escaped: bool, seen: set<Name>, m: Mask, p: PState)
    requires k.width > 0 && WellShaped(k, p) && |m| == k.width
    requires forall i | 0 <= i < |ss| :: Justified(k.io, ss[i], cf, k.plan) && WellFormed(ss[i], true)
    requires LoopsBeforeEscapesAll(ss, escaped) && (!escaped ==> Inside(m, p.em))
    ensures SeededAll(k, n, ss, seen, m, p)
    decreases n, ss, 0
  {
    if ss != [] {
      var r := Run(k, n, ss[0], seen, m, p);
      RuleSeeds(k, n, ss[0], cf, escaped, seen, m, p);
      RunEm(k, n, ss[0], cf, seen, m, p);
      if r.Ran? { RuleSeedsAll(k, n, ss[1..], cf, escaped || HasBreakOrContinue(ss[0]), seen + Assigned(ss[0]), m, r.p); }
    }
  }

  lemma {:induction false} RuleSeedsLoop(k: Packet, n: nat, s: Stmt, cf: bool, seen: set<Name>, m: Mask, p: PState)
    requires k.width > 0 && WellShaped(k, p) && |m| == k.width && IsLoop(s) && Justified(k.io, s, cf, k.plan) && WellFormed(s, true)
    requires LoopsBeforeEscapes(s.body, false) && Inside(m, p.em)
    ensures SeededLoop(k, n, s, seen, m, p)
    decreases n, s, 0, 2
  {
    if s.id in k.plan.loops { RuleSeedsUniform(k, n, s, seen, m, p); } else { RuleSeedsMasked(k, n, s, seen, p.(la := m)); }
  }

  lemma {:induction false} RuleSeedsUniform(k: Packet, n: nat, s: Stmt, seen: set<Name>, m: Mask, p: PState)
    requires k.width > 0 && WellShaped(k, p) && |m| == k.width && IsLoop(s) && WellFormed(s, true)
    requires Justified(k.io, s.body, false, k.plan) && Plain(s.body) && LoopsBeforeEscapes(s.body, false) && Inside(m, p.em)
    ensures SeededUniform(k, n, s, seen, m, p)
    decreases n, s, 0, 1
  {
    if CondMask(k, s.cond, p.mem)[0] && n > 0 {
      var r := Run(k, n, s.body, seen, m, p);
      RuleSeeds(k, n, s.body, false, false, seen, m, p);
      RunEm(k, n, s.body, false, seen, m, p);
      if r.Ran? {
        if Step(s).Some? { HeaderEm(k, n, Step(s).value, seen + Assigned(s.body), m, r.p); }
        var q := RunStep(k, n, s, seen + Assigned(s.body), m, r.p);
        RuleSeedsUniform(k, n - 1, s, seen, m, q.p);
      }
    }
  }

  lemma {:induction false} RuleSeedsMasked(k: Packet, n: nat, s: Stmt, seen: set<Name>, p: PState)
    requires k.width > 0 && WellShaped(k, p) && IsLoop(s) && WellFormed(s, true)
    requires Justified(k.io, s.body, true, k.plan) && LoopsBeforeEscapes(s.body, false)
    ensures SeededMasked(k, n, s, seen, p)
    decreases n, s, 0, 1
  {
    var na := And(p.la, CondMask(k, s.cond, p.mem));
    if Any(na) && n > 0 {
      var b := p.(la := na).(em := na);
      var r := Run(k, n, s.body, seen, na, b);
      RuleSeeds(k, n, s.body, true, false, seen, na, b);
      if r.Ran? {
        var z := r.p.(em := AllLanes(k.width));
        if Step(s).Some? { HeaderEm(k, n, Step(s).value, seen + Assigned(s.body), r.p.la, z); }
        var q := RunStep(k, n, s, seen + Assigned(s.body), r.p.la, z);
        RuleSeedsMasked(k, n - 1, s, seen, q.p);
      }
    }
  }
}
