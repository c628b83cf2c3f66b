/** Which lanes a masked loop runs in each of its iterations. */
module TripCounts {
  import opened ShaderAst
  import opened Uniformity
  import opened Scoping
  import opened PacketSemantics
  import opened Seeding
  import opened LaneRelation
  import opened LaneSimulation
  import S = ScalarSemantics

  /** How often the scalar loop enters its body. */
  function LaneTrips(o: Ops, n: nat, s: Stmt, t: S.State): nat
    requires IsLoop(s)
    decreases n
  {
    if n == 0 || !o.truth(S.Eval(o, s.cond, t.vars)) then 0
    else
      var x := S.Exec(o, false, n, s.body, t);
      if !GoesOn(x) then 1
      else
        var y := if Step(s).Some? then S.Exec(o, false, n, Step(s).value, x.st) else S.Done(S.Normal, x.st);
        if y.Done? && y.flow.Normal? then 1 + LaneTrips(o, n - 1, s, y.st) else 1
  }

  /** The value of `la` at the start of the body, iteration by iteration. */
  function Activity(k: Packet, n: nat, s: Stmt, seen: set<Name>, p: PState): (a: seq<Mask>)
    requires k.width > 0 && WellShaped(k, p) && IsLoop(s)
    ensures forall i | 0 <= i < |a| :: |a[i]| == k.width
    decreases n
  {
    var na := And(p.la, CondMask(k, s.cond, p.mem));
    if n == 0 || !Any(na) then []
    else
      var x := Run(k, n, s.body, seen, na, p.(la := na, em := na));
      if x.Timeout? then [na]
      else
        var y := RunStep(k, n, s, seen + Assigned(s.body), x.p.la, x.p.(em := AllLanes(k.width)));
        if y.Timeout? then [na] else [na] + Activity(k, n - 1, s, seen, y.p)
  }

  /** Lane `l` is active in iteration `i` exactly when its own loop gets that far. */
  ghost predicate FollowsTrips(k: Packet, n: nat, s: Stmt, p: PState, ts: seq<S.State>, a: seq<Mask>)
    requires IsLoop(s) && WellShaped(k, p) && |ts| == k.width
  {
    && (forall i | 0 <= i < |a| :: |a[i]| == k.width && Any(a[i]))
    && (forall i, l | 0 <= i < |a| && 0 <= l < k.width :: a[i][l] <==> p.la[l] && i < LaneTrips(k.o, n, s, ts[l]))
    && (forall l | 0 <= l < k.width && p.la[l] :: LaneTrips(k.o, n, s, ts[l]) <= |a|)
  }

  /** The lanes of a terminating masked loop leave it one by one and never come back: lane `l` runs exactly the
      iterations its scalar loop has. (Seeding.RuleSeedsMasked: the loops inside are seeded wherever none of them follows
      a break or continue.) */
  lemma {:induction false} ActivityFollowsTrips(k: Packet, n: nat, s: Stmt, d: Site, p: PState, ts: seq<S.State>)
    requires IsLoop(s) && LoopOk(k, s, d) && d.divergentCF && d.inLoop
    requires k.width > 0 && WellShaped(k, p) && |ts| == k.width
    requires forall l | 0 <= l < k.width && p.la[l] :: Rel(k, p, l, ts[l], d.scope)
    requires SeededMasked(k, n, s, d.seen, p) && RunMasked(k, n, s, d.seen, p).Ran?
    ensures FollowsTrips(k, n, s, p, ts, Activity(k, n, s, d.seen, p))
    decreases n, 1
  {
    var cm := CondMask(k, s.cond, p.mem);
    var na := And(p.la, cm);
    TestMask(k, s, d.scope, p, ts);
    if !Any(na) {
      forall l | 0 <= l < k.width && p.la[l] ensures LaneTrips(k.o, n, s, ts[l]) == 0 { assert !na[l]; }
    } else {
      var b := p.(la := na).(em := na);
      assert b == p.(la := na, em := na);
      BodyEntry(k, d, p, na, ts);
      Simulate(k, n, s.body, d, na, b, ts);
      ScopeGrows(s.body, d.scope);
      var x, xs := Run(k, n, s.body, d.seen, na, b), Results(k, n, s.body, ts);
      var q := x.p.(em := AllLanes(k.width));
      AfterBody(k, p, x.p, cm, d.scope, ScopeAfter(s.body, d.scope), xs);
      var e, us := d.(seen := d.seen + Assigned(s.body)), Resume(ts, xs);
      StepEntry(k, e, p, q, cm, ts, xs);
      SimulateStep(k, n, s, e, q.la, q, us);
      var y, ys := RunStep(k, n, s, e.seen, q.la, q), StepResults(k, n, s, us);
      AfterStep(k, p, q, y.p, cm, d.scope, xs, ys);
      NextTrips(k, n, s, d, p, y.p, cm, ts, xs, ys);
      MoreActivity(k, n, s, d.seen, p, x.p, y.p);
    }
  }

  /** The iterations after the first. */
  lemma {:induction false} NextTrips(k: Packet, n: nat, s: Stmt, d: Site, p: PState, y: PState, cm: Mask, ts: seq<S.State>,
                                     xs: seq<S.Result>, ys: seq<S.Result>)
    requires IsLoop(s) && LoopOk(k, s, d) && d.divergentCF && d.inLoop && n > 0
    requires k.width > 0 && WellShaped(k, p) && WellShaped(k, y) && |ts| == |cm| == |xs| == |ys| == k.width
    requires forall l | 0 <= l < k.width && p.la[l] :: cm[l] == k.o.truth(S.Eval(k.o, s.cond, ts[l].vars))
    requires Any(And(p.la, cm)) && xs == Results(k, n, s.body, ts) && ys == StepResults(k, n, s, Resume(ts, xs))
    requires StepDone(k, p, y, cm, d.scope, xs, ys) && SeededMasked(k, n - 1, s, d.seen, y) && RunMasked(k, n - 1, s, d.seen, y).Ran?
    ensures FollowsTrips(k, n, s, p, ts, [And(p.la, cm)] + Activity(k, n - 1, s, d.seen, y))
    decreases n, 0
  {
    NextEntry(k, d.scope, p, y, cm, Resume(ts, xs), xs, ys);
    ActivityFollowsTrips(k, n - 1, s, d, y, Resume(Resume(ts, xs), ys));
    OneMore(k, n, s, d.scope, p, y, cm, ts, Activity(k, n - 1, s, d.seen, y));
  }

  lemma MoreActivity(k: Packet, n: nat, s: Stmt, seen: set<Name>, p: PState, x: PState, y: PState)
    requires k.width > 0 && WellShaped(k, p) && WellShaped(k, x) && WellShaped(k, y) && IsLoop(s) && n > 0
    requires
      var na := And(p.la, CondMask(k, s.cond, p.mem));
      && Any(na) && Run(k, n, s.body, seen, na, p.(la := na, em := na)) == Ran(x)
      && RunStep(k, n, s, seen + Assigned(s.body), x.la, x.(em := AllLanes(k.width))) == Ran(y)
    ensures Activity(k, n, s, seen, p) == [And(p.la, CondMask(k, s.cond, p.mem))] + Activity(k, n - 1, s, seen, y)
  {
  }

  /** The first iteration before those of the rest. */
  lemma OneMore(k: Packet, n: nat, s: Stmt, scope: set<Name>, p: PState, y: PState, cm: Mask, ts: seq<S.State>,
                a: seq<Mask>)
    requires IsLoop(s) && n > 0 && WellShaped(k, p) && WellShaped(k, y) && |ts| == |cm| == k.width
    requires forall l | 0 <= l < k.width && p.la[l] :: cm[l] == k.o.truth(S.Eval(k.o, s.cond, ts[l].vars))
    requires Any(And(p.la, cm))
    requires
      var xs := Results(k, n, s.body, ts);
      var us := Resume(ts, xs);
      var ys := StepResults(k, n, s, us);
      StepDone(k, p, y, cm, scope, xs, ys) && FollowsTrips(k, n - 1, s, y, Resume(us, ys), a)
    ensures FollowsTrips(k, n, s, p, ts, [And(p.la, cm)] + a)
  {
    var xs := Results(k, n, s.body, ts);
    var us := Resume(ts, xs);
    var ys := StepResults(k, n, s, us);
    forall l | 0 <= l < k.width
      ensures y.la[l] ==>
                p.la[l] && LaneTrips(k.o, n, s, ts[l]) == 1 + LaneTrips(k.o, n - 1, s, Resume(us, ys)[l])
      ensures p.la[l] && !y.la[l] ==> LaneTrips(k.o, n, s, ts[l]) == if cm[l] then 1 else 0
    {
    }
    var b := [And(p.la, cm)] + a;
    forall i, l | 0 <= i < |b| && 0 <= l < k.width
      ensures b[i][l] <==> p.la[l] && i < LaneTrips(k.o, n, s, ts[l])
    {
      if i > 0 { assert a[i - 1][l] <==> y.la[l] && i - 1 < LaneTrips(k.o, n - 1, s, Resume(us, ys)[l]); }
    }
  }

  /** So the packet iterates as often as its slowest lane, and the active lanes only get fewer. */
  lemma SlowestLaneDecides(k: Packet, n: nat, s: Stmt, p: PState, ts: seq<S.State>, a: seq<Mask>)
    requires IsLoop(s) && WellShaped(k, p) && |ts| == k.width && FollowsTrips(k, n, s, p, ts, a)
    ensures forall l | 0 <= l < k.width && p.la[l] :: LaneTrips(k.o, n, s, ts[l]) <= |a|
    ensures a != [] ==> exists l :: 0 <= l < k.width && p.la[l] && LaneTrips(k.o, n, s, ts[l]) == |a|
    ensures forall i, j, l | 0 <= i <= j < |a| && 0 <= l < k.width && a[j][l] :: a[i][l]
  {
    if a != [] {
      var l :| 0 <= l < k.width && a[|a| - 1][l];
      assert LaneTrips(k.o, n, s, ts[l]) == |a|;
    }
    forall i, j, l | 0 <= i <= j < |a| && 0 <= l < k.width && a[j][l] ensures a[i][l] {
      assert a[i][l] <==> p.la[l] && i < LaneTrips(k.o, n, s, ts[l]);
      assert a[j][l] <==> p.la[l] && j < LaneTrips(k.o, n, s, ts[l]);
    }
  }
}
