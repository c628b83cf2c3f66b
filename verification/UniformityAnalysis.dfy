/** analyzeUniformity, in place. */
module UniformityAnalysis {
  import opened ShaderAst
  import opened Uniformity
  import opened ProgramText
  import opened UniformSites

  /** The plan settles every site of the text, and any other that justifies itself on every site marks no name less and
      has no loop more. */
  ghost predicate FewestMarks(io: Interface, body: Stmt, q: Plan) {
    && AllSettled(io, q, false, Text(body), false)
    && forall p | AllSettled(io, p, false, Text(body), true) :: q.divergent <= p.divergent && LoopIds(body) * p.loops <= q.loops
  }

  lemma FewestMarksIff(io: Interface, body: Stmt, q: Plan)
    requires WellFormed(body, true)
    ensures FewestMarks(io, body, q) <==>
              && Decided(io, body, false, q)
              && forall p | Justified(io, body, false, p) :: q.divergent <= p.divergent && LoopIds(body) * p.loops <= q.loops
  {
    JudgedIff(io, body, false, q, false);
    forall p ensures Justified(io, body, false, p) <==> AllSettled(io, p, false, Text(body), true) { JudgedIff(io, body, false, p, true); }
  }

  /** The analysis state of the packetizer. */
  class Analysis {
    const io: Interface
    var divergentVars: set<Name>
    var uniformLoops: set<nat>

    constructor (io: Interface)
      ensures this.io == io && divergentVars == {} && uniformLoops == {}
    {
      this.io := io;
      divergentVars, uniformLoops := {}, {};
    }

    function Current(): Plan
      reads this
    {
      Plan(divergentVars, uniformLoops)
    }

    /** The lambda markDivergent: reports whether the name is new. */
    method MarkDivergent(x: Name) returns (changed: bool)
      modifies this`divergentVars
      ensures divergentVars == old(divergentVars) + {x}
      ensures changed <==> x !in old(divergentVars)
    {
      changed := x !in divergentVars;
      divergentVars := divergentVars + {x};
    }

    method ScanUniformity(s: Stmt, divergentCF: bool) returns (changed: bool)
      modifies this
      ensures Current() == Scan(io, s, divergentCF, old(Current()))
      ensures changed <==> divergentVars != old(divergentVars)
      decreases s
    {
      changed := false;
      match s {
        case Block(ss) =>
          ghost var entry := Current();
          for k := 0 to |ss|
            invariant ScanAll(io, ss[k..], divergentCF, Current()) == Scan(io, s, divergentCF, entry)
            invariant entry.divergent <= divergentVars
            invariant changed <==> divergentVars != entry.divergent
          {
            assert ss[k..][0] == ss[k] && ss[k..][1..] == ss[k + 1..];
            ScanGrows(io, ss[k], divergentCF, Current());
            var more := ScanUniformity(ss[k], divergentCF);
            changed := changed || more;
          }
        case Assign(x, e) =>
          if divergentCF || !IsUniform(io, divergentVars, e) {
            changed := MarkDivergent(x);
          }
        case If(_, t, e) =>
          ScanGrows(io, t, true, Current());
          changed := ScanUniformity(t, true);
          if e.Some? {
            ScanGrows(io, e.value, true, Current());
            var more := ScanUniformity(e.value, true);
            changed := changed || more;
          }
        case For(id, pre, _, b, i) =>
          ScanGrows(io, pre, divergentCF, Current());
          changed := ScanUniformity(pre, divergentCF);
          var uni := UniformLoop(io, divergentVars, divergentCF, s);
          uniformLoops := if uni then uniformLoops + {id} else uniformLoops - {id};
          ScanGrows(io, b, !uni, Current());
          var more := ScanUniformity(b, !uni);
          changed := changed || more;
          if i.Some? {
            ScanGrows(io, i.value, !uni, Current());
            more := ScanUniformity(i.value, !uni);
            changed := changed || more;
          }
        case While(id, _, b) =>
          var uni := UniformLoop(io, divergentVars, divergentCF, s);
          uniformLoops := if uni then uniformLoops + {id} else uniformLoops - {id};
          changed := ScanUniformity(b, !uni);
        case _ =>
      }
    }

    /** Repeats passes until nothing is marked. Of all plans that justify themselves the result marks the fewest names
        and keeps the most loops uniform; it marks no name that lane-dependence does not force. */
    method AnalyzeUniformity(body: Stmt)
      requires DistinctLoops(body)
      modifies this
      ensures Justified(io, body, false, Current()) && Decided(io, body, false, Current())
      ensures divergentVars <= Assigned(body)
      ensures forall d | Closed(io, body, false, d) :: divergentVars <= d
      ensures forall p | Justified(io, body, false, p) :: divergentVars <= p.divergent && LoopIds(body) * p.loops <= uniformLoops
      ensures WellFormed(body, true) ==> FewestMarks(io, body, Current())
    {
      divergentVars, uniformLoops := {}, {};
      var changed := true;
      while changed
        invariant divergentVars <= Assigned(body)
        invariant !changed ==> Decided(io, body, false, Current())
        invariant forall d | Closed(io, body, false, d) :: divergentVars <= d
        decreases changed, Assigned(body) - divergentVars
      {
        ghost var entry := Current();
        ScanGrows(io, body, false, entry);
        if Scan(io, body, false, entry).divergent == entry.divergent {
          StablePassJustified(io, body, false, entry);
        }
        forall d | Closed(io, body, false, d) ensures Scan(io, body, false, entry).divergent <= d {
          ScanStaysBelow(io, body, false, entry, d);
        }
        changed := ScanUniformity(body, false);
      }
      DecidedIsJustified(io, body, false, Current());
      forall p | Justified(io, body, false, p)
        ensures divergentVars <= p.divergent && LoopIds(body) * p.loops <= uniformLoops
      {
        JustifiedIsClosed(io, body, false, p);
        DecidedHasMostLoops(io, body, false, false, Current(), p);
      }
      if WellFormed(body, true) { FewestMarksIff(io, body, Current()); }
    }
  }
}
