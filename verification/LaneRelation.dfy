/** When a packet outcome is the lane-by-lane image of scalar results, and how such outcomes combine. */
module LaneRelation {
  import opened ShaderAst
  import opened Uniformity
  import opened PacketSemantics
  import S = ScalarSemantics

  /** Lane `l` of the packet state stands for the scalar state `st` on the names in scope. */
  ghost predicate Rel(k: Packet, p: PState, l: nat, st: S.State, scope: set<Name>)
    requires WellShaped(k, p) && l < k.width
  {
    && p.live[l] == st.live
    && forall x | x in scope :: LaneRead(k, p.mem, x, l) == S.Read(k.o, st.vars, x)
  }

  /** Lane `l` was not touched. */
  ghost predicate Untouched(k: Packet, p: PState, q: PState, l: nat, scope: set<Name>)
    requires WellShaped(k, p) && WellShaped(k, q) && l < k.width
  {
    && q.live[l] == p.live[l]
    && forall x | x in scope :: LaneRead(k, q.mem, x, l) == LaneRead(k, p.mem, x, l)
  }

  /** What a statement owes lane `l`, given the scalar result `r` of that lane. */
  ghost predicate LanePost(k: Packet, p: PState, q: PState, m: Mask, l: nat,
                           before: set<Name>, after: set<Name>, r: S.Result)
    requires WellShaped(k, p) && WellShaped(k, q) && |m| == k.width && l < k.width
  {
    if m[l] && p.em[l] then
      r.Done? &&
      match r.flow
      case Normal => q.em[l] && q.la[l] == p.la[l] && Rel(k, q, l, r.st, after)
      case Broke => !q.em[l] && !q.la[l] && Rel(k, q, l, r.st, before)
      case Continued => !q.em[l] && q.la[l] == p.la[l] && Rel(k, q, l, r.st, before)
      case Discarded => false
    else
      q.em[l] == p.em[l] && q.la[l] == p.la[l] && Untouched(k, p, q, l, before)
  }

  /** The packet outcome `r` is the lane-wise image of the scalar results `rs`: it terminates exactly when every
      active lane does, and then every lane has its due. */
  ghost predicate Simulated(k: Packet, p: PState, m: Mask, before: set<Name>, after: set<Name>,
                            r: Outcome, rs: seq<S.Result>)
    requires WellShaped(k, p) && |m| == k.width == |rs|
    requires r.Ran? ==> WellShaped(k, r.p)
  {
    && (r.Ran? <==> forall l | 0 <= l < k.width && m[l] && p.em[l] :: rs[l].Done?)
    && (r.Ran? ==> forall l | 0 <= l < k.width :: LanePost(k, p, r.p, m, l, before, after, rs[l]))
  }

  /** A lane that does nothing. */
  function Idle(ts: seq<S.State>): (rs: seq<S.Result>)
    ensures |rs| == |ts|
    ensures forall l | 0 <= l < |ts| :: rs[l] == S.Done(S.Normal, ts[l])
  {
    seq(|ts|, l requires 0 <= l < |ts| => S.Done(S.Normal, ts[l]))
  }

  lemma IdleSimulated(k: Packet, p: PState, m: Mask, scope: set<Name>, ts: seq<S.State>)
    requires WellShaped(k, p) && |m| == k.width == |ts|
    requires forall l | 0 <= l < k.width && m[l] && p.em[l] :: Rel(k, p, l, ts[l], scope)
    ensures Simulated(k, p, m, scope, scope, Ran(p), Idle(ts))
  {
    forall l | 0 <= l < k.width ensures LanePost(k, p, p, m, l, scope, scope, Idle(ts)[l]) {}
  }

  /** With no lane active, leaving everything alone is right, whatever the statement would have done. */
  lemma SkipSimulated(k: Packet, p: PState, m: Mask, scope: set<Name>, rs: seq<S.Result>)
    requires WellShaped(k, p) && |m| == k.width == |rs| && !Any(Eff(k, m, p))
    ensures Simulated(k, p, m, scope, scope, Ran(p), rs)
  {
    forall l | 0 <= l < k.width
      ensures !(m[l] && p.em[l]) && LanePost(k, p, p, m, l, scope, scope, rs[l])
    {
      assert !Eff(k, m, p)[l];
    }
  }

  /** Names that go out of scope need no longer agree. */
  lemma SimulatedWeaken(k: Packet, p: PState, m: Mask, a: set<Name>, b: set<Name>, b': set<Name>,
                        r: Outcome, rs: seq<S.Result>)
    requires WellShaped(k, p) && |m| == k.width == |rs| && (r.Ran? ==> WellShaped(k, r.p))
    requires b' <= b && Simulated(k, p, m, a, b, r, rs)
    ensures Simulated(k, p, m, a, b', r, rs)
  {
    if r.Ran? {
      forall l | 0 <= l < k.width ensures LanePost(k, p, r.p, m, l, a, b', rs[l]) {
        assert LanePost(k, p, r.p, m, l, a, b, rs[l]);
      }
    }
  }

  // ---- sequencing ----

  /** The states in which the lanes that are still running enter the second of two statements. */
  function Resume(ts: seq<S.State>, rs: seq<S.Result>): (us: seq<S.State>)
    requires |ts| == |rs|
    ensures |us| == |ts|
    ensures forall l | 0 <= l < |ts| :: us[l] == (if rs[l].Done? then rs[l].st else ts[l])
  {
    seq(|ts|, l requires 0 <= l < |ts| => if rs[l].Done? then rs[l].st else ts[l])
  }

  function Chain(rs: seq<S.Result>, zs: seq<S.Result>): (ys: seq<S.Result>)
    requires |rs| == |zs|
    ensures |ys| == |rs|
    ensures forall l | 0 <= l < |rs| :: ys[l] == (if rs[l].Done? && rs[l].flow.Normal? then zs[l] else rs[l])
  {
    seq(|rs|, l requires 0 <= l < |rs| => if rs[l].Done? && rs[l].flow.Normal? then zs[l] else rs[l])
  }

  lemma ChainSimulated(k: Packet, p: PState, q: PState, m: Mask, a: set<Name>, b: set<Name>, d: set<Name>,
                       r: Outcome, rs: seq<S.Result>, zs: seq<S.Result>)
    requires WellShaped(k, p) && WellShaped(k, q) && |m| == k.width == |rs| == |zs|
    requires r.Ran? ==> WellShaped(k, r.p)
    requires a <= b <= d
    requires Simulated(k, p, m, a, b, Ran(q), rs) && Simulated(k, q, m, b, d, r, zs)
    ensures Simulated(k, p, m, a, d, r, Chain(rs, zs))
  {
    var ys := Chain(rs, zs);
    forall l | 0 <= l < k.width && m[l] && p.em[l] ensures ys[l].Done? <==> (q.em[l] ==> zs[l].Done?) {
      assert LanePost(k, p, q, m, l, a, b, rs[l]);
    }
    assert forall l | 0 <= l < k.width && m[l] && q.em[l] :: p.em[l] by {
      forall l | 0 <= l < k.width && m[l] && q.em[l] ensures p.em[l] {
        assert LanePost(k, p, q, m, l, a, b, rs[l]);
      }
    }
    if r.Ran? {
      forall l | 0 <= l < k.width ensures LanePost(k, p, r.p, m, l, a, d, ys[l]) {
        assert LanePost(k, p, q, m, l, a, b, rs[l]);
        assert LanePost(k, q, r.p, m, l, b, d, zs[l]);
      }
    }
  }

  lemma ChainTimesOut(k: Packet, p: PState, m: Mask, a: set<Name>, b: set<Name>, d: set<Name>,
                      rs: seq<S.Result>, zs: seq<S.Result>)
    requires WellShaped(k, p) && |m| == k.width == |rs| == |zs|
    requires Simulated(k, p, m, a, b, Timeout, rs)
    ensures Simulated(k, p, m, a, d, Timeout, Chain(rs, zs))
  {
    var l :| 0 <= l < k.width && m[l] && p.em[l] && !rs[l].Done?;
    assert !Chain(rs, zs)[l].Done?;
  }

  // ---- the arms of an `if` ----

  /** One lane across both arms: the arm it does not take leaves it alone. */
  lemma ArmsLane(k: Packet, p: PState, q: PState, z: PState, m: Mask, cm: Mask, l: nat, scope: set<Name>,
                 tr: S.Result, er: S.Result)
    requires WellShaped(k, p) && WellShaped(k, q) && WellShaped(k, z) && |m| == |cm| == k.width && l < k.width
    requires LanePost(k, p, q, And(m, cm), l, scope, scope, tr)
    requires LanePost(k, q, z, AndNot(m, cm), l, scope, scope, er)
    ensures LanePost(k, p, z, m, l, scope, scope, if cm[l] then tr else er)
  {
  }

  lemma ArmsSimulated(k: Packet, p: PState, q: PState, m: Mask, cm: Mask, scope: set<Name>, r: Outcome,
                      trs: seq<S.Result>, ers: seq<S.Result>, rs: seq<S.Result>)
    requires WellShaped(k, p) && WellShaped(k, q) && (r.Ran? ==> WellShaped(k, r.p))
    requires |m| == |cm| == |trs| == |ers| == |rs| == k.width
    requires Simulated(k, p, And(m, cm), scope, scope, Ran(q), trs)
    requires Simulated(k, q, AndNot(m, cm), scope, scope, r, ers)
    requires forall l | 0 <= l < k.width && m[l] && p.em[l] :: rs[l] == if cm[l] then trs[l] else ers[l]
    ensures Simulated(k, p, m, scope, scope, r, rs)
  {
    forall l | 0 <= l < k.width && m[l] && !cm[l] ensures q.em[l] == p.em[l] {
      assert LanePost(k, p, q, And(m, cm), l, scope, scope, trs[l]);
    }
    if r.Ran? {
      forall l | 0 <= l < k.width ensures LanePost(k, p, r.p, m, l, scope, scope, rs[l]) {
        ArmsLane(k, p, q, r.p, m, cm, l, scope, trs[l], ers[l]);
      }
    } else {
      var l :| 0 <= l < k.width && AndNot(m, cm)[l] && q.em[l] && !ers[l].Done?;
      assert !rs[l].Done?;
    }
  }

  lemma ArmTimesOut(k: Packet, p: PState, m: Mask, cm: Mask, scope: set<Name>, trs: seq<S.Result>, rs: seq<S.Result>)
    requires WellShaped(k, p) && |m| == |cm| == |trs| == |rs| == k.width
    requires Simulated(k, p, And(m, cm), scope, scope, Timeout, trs)
    requires forall l | 0 <= l < k.width && m[l] && p.em[l] && cm[l] :: rs[l] == trs[l]
    ensures Simulated(k, p, m, scope, scope, Timeout, rs)
  {
    var l :| 0 <= l < k.width && And(m, cm)[l] && p.em[l] && !trs[l].Done?;
    assert !rs[l].Done?;
  }

  /** The lanes of the second arm enter it as they entered the `if`. */
  lemma ElseEntry(k: Packet, p: PState, q: PState, m: Mask, cm: Mask, scope: set<Name>, trs: seq<S.Result>,
                  ts: seq<S.State>)
    requires WellShaped(k, p) && WellShaped(k, q) && |m| == |cm| == |trs| == |ts| == k.width
    requires Simulated(k, p, And(m, cm), scope, scope, Ran(q), trs)
    requires forall l | 0 <= l < k.width && m[l] && p.em[l] :: Rel(k, p, l, ts[l], scope)
    ensures forall l | 0 <= l < k.width && m[l] && !cm[l] ::
              q.em[l] == p.em[l] && (q.em[l] ==> Rel(k, q, l, ts[l], scope))
  {
    forall l | 0 <= l < k.width && m[l] && !cm[l]
      ensures q.em[l] == p.em[l] && (q.em[l] ==> Rel(k, q, l, ts[l], scope))
    {
      assert LanePost(k, p, q, And(m, cm), l, scope, scope, trs[l]);
    }
  }

  // ---- one iteration of a masked loop ----

  /** What a masked loop owes lane `l`: active lanes finish normally, the others are untouched. */
  ghost predicate LoopPost(k: Packet, p: PState, q: PState, l: nat, scope: set<Name>, r: S.Result)
    requires WellShaped(k, p) && WellShaped(k, q) && l < k.width
  {
    if p.la[l] then r.Done? && r.flow.Normal? && Rel(k, q, l, r.st, scope)
    else Untouched(k, p, q, l, scope)
  }

  /** The loop terminates exactly when every lane that entered does, and pays every lane its due. */
  ghost predicate LoopSimulated(k: Packet, p: PState, scope: set<Name>, r: Outcome, rs: seq<S.Result>)
    requires WellShaped(k, p) && |rs| == k.width && (r.Ran? ==> WellShaped(k, r.p))
  {
    && (r.Ran? <==> forall l | 0 <= l < k.width && p.la[l] :: rs[l].Done?)
    && (r.Ran? ==> forall l | 0 <= l < k.width :: LoopPost(k, p, r.p, l, scope, rs[l]))
  }

  /** The result of a loop from those of its test, body, increment and remaining iterations. */
  function Iteration(c: bool, t: S.State, x: S.Result, y: S.Result, z: S.Result): S.Result {
    if !c then S.Done(S.Normal, t)
    else if x.Timeout? || x.flow.Discarded? then x
    else if x.flow.Broke? then S.Done(S.Normal, x.st)
    else if y.Done? && y.flow.Normal? then z
    else y
  }

  predicate GoesOn(x: S.Result) {
    x.Done? && (x.flow.Normal? || x.flow.Continued?)
  }

  /** After the body: lane `l` is still in the loop, has left by break, or was not touched. */
  ghost predicate BodyDone(k: Packet, p: PState, q: PState, cm: Mask, scope: set<Name>, xs: seq<S.Result>)
    requires WellShaped(k, p) && WellShaped(k, q) && |cm| == |xs| == k.width
  {
    forall l | 0 <= l < k.width ::
      if q.la[l] then p.la[l] && cm[l] && GoesOn(xs[l]) && Rel(k, q, l, xs[l].st, scope)
      else if p.la[l] && cm[l] then xs[l].Done? && xs[l].flow.Broke? && Rel(k, q, l, xs[l].st, scope)
      else Untouched(k, p, q, l, scope)
  }

  /** After the increment. */
  ghost predicate StepDone(k: Packet, p: PState, y: PState, cm: Mask, scope: set<Name>,
                           xs: seq<S.Result>, ys: seq<S.Result>)
    requires WellShaped(k, p) && WellShaped(k, y) && |cm| == |xs| == |ys| == k.width
  {
    forall l | 0 <= l < k.width ::
      if y.la[l] then
        p.la[l] && cm[l] && GoesOn(xs[l]) && ys[l].Done? && ys[l].flow.Normal? && Rel(k, y, l, ys[l].st, scope)
      else if p.la[l] && cm[l] then xs[l].Done? && xs[l].flow.Broke? && Rel(k, y, l, xs[l].st, scope)
      else Untouched(k, p, y, l, scope)
  }

  lemma AfterBody(k: Packet, p: PState, x: PState, cm: Mask, scope: set<Name>, after: set<Name>, xs: seq<S.Result>)
    requires WellShaped(k, p) && WellShaped(k, x) && |cm| == |xs| == k.width && scope <= after
    requires Simulated(k, p.(la := And(p.la, cm), em := And(p.la, cm)), And(p.la, cm), scope, after, Ran(x), xs)
    ensures BodyDone(k, p, x.(em := AllLanes(k.width)), cm, scope, xs)
  {
    var na, q := And(p.la, cm), x.(em := AllLanes(k.width));
    var b := p.(la := na, em := na);
    forall l | 0 <= l < k.width
      ensures if q.la[l] then p.la[l] && cm[l] && GoesOn(xs[l]) && Rel(k, q, l, xs[l].st, scope)
              else if p.la[l] && cm[l] then xs[l].Done? && xs[l].flow.Broke? && Rel(k, q, l, xs[l].st, scope)
              else Untouched(k, p, q, l, scope)
    {
      assert LanePost(k, b, x, na, l, scope, after, xs[l]);
    }
  }

  lemma AfterStep(k: Packet, p: PState, q: PState, y: PState, cm: Mask, scope: set<Name>,
                  xs: seq<S.Result>, ys: seq<S.Result>)
    requires WellShaped(k, p) && WellShaped(k, q) && WellShaped(k, y) && |cm| == |xs| == |ys| == k.width
    requires BodyDone(k, p, q, cm, scope, xs) && q.em == AllLanes(k.width)
    requires Simulated(k, q, q.la, scope, scope, Ran(y), ys)
    requires forall l | 0 <= l < k.width && ys[l].Done? :: ys[l].flow.Normal?
    ensures StepDone(k, p, y, cm, scope, xs, ys)
  {
    forall l | 0 <= l < k.width
      ensures if y.la[l] then p.la[l] && cm[l] && GoesOn(xs[l]) && ys[l].Done? && ys[l].flow.Normal?
                              && Rel(k, y, l, ys[l].st, scope)
              else if p.la[l] && cm[l] then xs[l].Done? && xs[l].flow.Broke? && Rel(k, y, l, xs[l].st, scope)
              else Untouched(k, p, y, l, scope)
    {
      assert LanePost(k, q, y, q.la, l, scope, scope, ys[l]);
    }
  }

  lemma AfterRest(k: Packet, p: PState, y: PState, r: Outcome, cm: Mask, scope: set<Name>, ts: seq<S.State>,
                  xs: seq<S.Result>, ys: seq<S.Result>, zs: seq<S.Result>, rs: seq<S.Result>)
    requires WellShaped(k, p) && WellShaped(k, y) && (r.Ran? ==> WellShaped(k, r.p))
    requires |cm| == |ts| == |xs| == |ys| == |zs| == |rs| == k.width
    requires StepDone(k, p, y, cm, scope, xs, ys) && LoopSimulated(k, y, scope, r, zs)
    requires forall l | 0 <= l < k.width && p.la[l] ::
               Rel(k, p, l, ts[l], scope) && rs[l] == Iteration(cm[l], ts[l], xs[l], ys[l], zs[l])
    ensures LoopSimulated(k, p, scope, r, rs)
  {
    forall l | 0 <= l < k.width
      ensures y.la[l] ==> p.la[l] && rs[l] == zs[l]
      ensures p.la[l] && !y.la[l] ==> rs[l].Done?
      ensures r.Ran? ==> LoopPost(k, p, r.p, l, scope, rs[l])
    {
      if r.Ran? { assert LoopPost(k, y, r.p, l, scope, zs[l]); }
    }
  }

  lemma BodyTimesOut(k: Packet, p: PState, cm: Mask, scope: set<Name>, after: set<Name>, ts: seq<S.State>,
                     xs: seq<S.Result>, ys: seq<S.Result>, zs: seq<S.Result>, rs: seq<S.Result>)
    requires WellShaped(k, p) && |cm| == |ts| == |xs| == |ys| == |zs| == |rs| == k.width
    requires Simulated(k, p.(la := And(p.la, cm), em := And(p.la, cm)), And(p.la, cm), scope, after, Timeout, xs)
    requires forall l | 0 <= l < k.width && p.la[l] :: rs[l] == Iteration(cm[l], ts[l], xs[l], ys[l], zs[l])
    ensures LoopSimulated(k, p, scope, Timeout, rs)
  {
    var l :| 0 <= l < k.width && And(p.la, cm)[l] && !xs[l].Done?;
    assert !rs[l].Done?;
  }

  lemma StepTimesOut(k: Packet, p: PState, q: PState, cm: Mask, scope: set<Name>, ts: seq<S.State>,
                     xs: seq<S.Result>, ys: seq<S.Result>, zs: seq<S.Result>, rs: seq<S.Result>)
    requires WellShaped(k, p) && WellShaped(k, q) && |cm| == |ts| == |xs| == |ys| == |zs| == |rs| == k.width
    requires BodyDone(k, p, q, cm, scope, xs) && q.em == AllLanes(k.width)
    requires Simulated(k, q, q.la, scope, scope, Timeout, ys)
    requires forall l | 0 <= l < k.width && p.la[l] :: rs[l] == Iteration(cm[l], ts[l], xs[l], ys[l], zs[l])
    ensures LoopSimulated(k, p, scope, Timeout, rs)
  {
    var l :| 0 <= l < k.width && q.la[l] && q.em[l] && !ys[l].Done?;
    assert !rs[l].Done?;
  }
}
