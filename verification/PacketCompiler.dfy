/** The packetizer from end to end: vector code for a whole shader computes, lane by lane, the scalar shader. */
module PacketCompiler {
  import opened ShaderAst
  import opened Uniformity
  import opened Scoping
  import opened PacketSemantics
  import opened Seeding
  import opened LaneRelation
  import opened LaneSimulation
  import opened VectorCode
  import opened PacketEmitter
  import opened EmitterCorrectness
  import opened SsaValidity
  import opened ProgramText
  import opened Bailing
  import opened UniformRuns
  import S = ScalarSemantics

  /** Stage variables and globals have different names. */
  predicate NamesDistinct(io: Interface) {
    io.inputs !! io.outputs && io.inputs !! io.globals && io.outputs !! io.globals
  }

  /** The emitter at the start of an entry point: every mask is entryMask_, no loop is open, no local has a slot. */
  const START := Emitter(0, 0, AllOnes, AllOnes, None, None, {}, false)

  function Compile(io: Interface, plan: Plan, body: Stmt): Emitted {
    Emit(io, plan, body, START)
  }

  /** What the packetizer relies on about a shader, but for where its escapes are: reads are definitely assigned, and
      no loop holds a discard. */
  ghost predicate CoreRules(io: Interface, body: Stmt) {
    && NamesDistinct(io)
    && WellFormed(body, false) && Scoped(io, body, io.inputs + io.outputs + io.globals)
    && !DiscardInLoop(body)
  }

  /** ... and the escapes of its loops are where the masks can follow them. */
  ghost predicate Rules(io: Interface, body: Stmt) {
    CoreRules(io, body) && LoopsBeforeEscapes(body, false)
  }

  /** A plan the analysis could give, and no construct that makes the emitter bail. */
  ghost predicate Compilable(io: Interface, plan: Plan, body: Stmt) {
    && Justified(io, body, false, plan) && plan.divergent <= Assigned(body)
    && !Compile(io, plan, body).e.bailed
  }

  /** A shader that keeps the rules, with such a plan. */
  ghost predicate Accepted(io: Interface, plan: Plan, body: Stmt) {
    Rules(io, body) && Compilable(io, plan, body)
  }

  /** Whatever the syntax: in this run, every masked loop is entered with its mask inside em. */
  ghost predicate AcceptedRun(k: Packet, n: nat, body: Stmt, a: Lanes)
    requires k.width > 0 && |a.inputs| == k.width
  {
    && CoreRules(k.io, body) && Compilable(k.io, k.plan, body)
    && Seeded(k, n, body, {}, AllLanes(k.width), EntryState(k, a))
  }

  lemma AcceptedRuns(k: Packet, n: nat, body: Stmt, a: Lanes)
    requires k.width > 0 && |a.inputs| == k.width && Accepted(k.io, k.plan, body)
    ensures AcceptedRun(k, n, body, a)
  {
    NoEscapeAnywhere(body);
    RuleSeeds(k, n, body, false, false, {}, AllLanes(k.width), EntryState(k, a));
  }

  /** One shader input set per lane. */
  datatype Lanes = Lanes(inputs: seq<S.Store>, globals: S.Store)

  /** The invocation of lane `l` alone: its inputs, the globals, and outputs that start out as zero. */
  function Invocation(k: Packet, a: Lanes, l: nat): S.State
    requires l < |a.inputs|
  {
    S.State((map x | x in k.io.globals :: S.Read(k.o, a.globals, x)) +
            (map x | x in k.io.inputs :: S.Read(k.o, a.inputs[l], x)), true)
  }

  /** The packet's memory on entry: inputs in structure-of-arrays form, nulled outputs, scalar globals. */
  function EntryMemory(k: Packet, a: Lanes): (g: Memory)
    requires |a.inputs| == k.width
    ensures MemShaped(k, g)
  {
    Memory((map x | x in k.io.outputs :: NullVec(k, x)) +
           (map x | x in k.io.inputs :: seq(k.width, l requires 0 <= l < k.width => S.Read(k.o, a.inputs[l], x))),
           map x | x in k.io.globals :: S.Read(k.o, a.globals, x))
  }

  function EntryMachine(k: Packet, a: Lanes): (c: Machine)
    requires |a.inputs| == k.width
    ensures MachineOk(k, c)
  {
    Machine(EntryMemory(k, a), map[], map[], map[])
  }

  function EntryState(k: Packet, a: Lanes): (p: PState)
    requires |a.inputs| == k.width
    ensures WellShaped(k, p)
  {
    PState(EntryMemory(k, a), AllLanes(k.width), AllLanes(k.width), AllLanes(k.width))
  }

  /** Lane `l` on entry is the invocation of lane `l`. */
  lemma EntryRel(k: Packet, a: Lanes, l: nat)
    requires |a.inputs| == k.width && l < k.width
    requires NamesDistinct(k.io) && k.plan.divergent !! k.io.globals
    ensures Rel(k, EntryState(k, a), l, Invocation(k, a, l), k.io.inputs + k.io.outputs + k.io.globals)
  {
  }

  /** Inputs and globals are only read. */
  lemma {:induction false} ScopedWritesLocals(io: Interface, s: Stmt, scope: set<Name>)
    requires Scoped(io, s, scope)
    ensures WritesLocals(io, s)
    decreases s, 1
  {
    match s
    case Block(ss) => ScopedAllWritesLocals(io, ss, scope);
    case If(_, t, e) =>
      ScopedWritesLocals(io, t, scope);
      if e.Some? { ScopedWritesLocals(io, e.value, scope); }
    case For(_, p, _, b, i) =>
      ScopedWritesLocals(io, p, scope);
      ScopedWritesLocals(io, b, ScopeAfter(p, scope));
      if i.Some? { ScopedWritesLocals(io, i.value, ScopeAfter(p, scope)); }
    case While(_, _, b) => ScopedWritesLocals(io, b, scope);
    case _ =>
  }

  lemma {:induction false} ScopedAllWritesLocals(io: Interface, ss: seq<Stmt>, scope: set<Name>)
    requires ScopedAll(io, ss, scope)
    ensures WritesLocals(io, Block(ss))
    decreases ss, 0
  {
    if ss != [] {
      ScopedWritesLocals(io, ss[0], scope);
      ScopedAllWritesLocals(io, ss[1..], ScopeAfter(ss[0], scope));
      AssignedSplit(ss);
    }
  }

  /** The site of an entry point. */
  function EntrySite(io: Interface): Site {
    Site(io.inputs + io.outputs + io.globals, {}, false, false)
  }

  /** The scalar result of each lane, where `discard` is only recorded. */
  function Recording(k: Packet, n: nat, body: Stmt, a: Lanes): (rs: seq<S.Result>)
    ensures |rs| == |a.inputs|
    ensures forall l | 0 <= l < |rs| :: rs[l] == S.Exec(k.o, false, n, body, Invocation(k, a, l))
  {
    seq(|a.inputs|, l requires 0 <= l < |a.inputs| => S.Exec(k.o, false, n, body, Invocation(k, a, l)))
  }

  /** Running the emitted code is running the packet semantics. */
  lemma CompiledRuns(k: Packet, n: nat, body: Stmt, a: Lanes)
    requires k.width > 0 && |a.inputs| == k.width
    requires WellFormed(body, false) && WritesLocals(k.io, body) && !DiscardInLoop(body)
    requires !Compile(k.io, k.plan, body).e.bailed
    ensures
      var out, p, m := Compile(k.io, k.plan, body), EntryState(k, a), AllLanes(k.width);
      Compiles(k, n, START, EntryMachine(k, a), out.code, out.e, m, Run(k, n, body, {}, m, p))
  {
    NoEscapeAnywhere(body);
    EmitCorrect(k, n, body, START, EntryMachine(k, a), EntryState(k, a), AllLanes(k.width), {});
  }

  /** The packet semantics of the whole shader simulates every lane. */
  lemma ShaderSimulates(k: Packet, n: nat, body: Stmt, a: Lanes)
    requires k.width > 0 && |a.inputs| == k.width && AcceptedRun(k, n, body, a)
    ensures
      var p, m := EntryState(k, a), AllLanes(k.width);
      Simulated(k, p, m, EntrySite(k.io).scope, ScopeAfter(body, EntrySite(k.io).scope), Run(k, n, body, {}, m, p),
                Recording(k, n, body, a))
  {
    var p, m, c := EntryState(k, a), AllLanes(k.width), EntrySite(k.io);
    ScopedWritesLocals(k.io, body, c.scope);
    var ts := seq(k.width, l requires 0 <= l < k.width => Invocation(k, a, l));
    forall l | 0 <= l < k.width ensures Rel(k, p, l, ts[l], c.scope) { EntryRel(k, a, l); }
    Simulate(k, n, body, c, m, p, ts);
    assert Results(k, n, body, ts) == Recording(k, n, body, a);
  }

  /** What the packet hands back for lane `l`: the real run of that lane, which stops at `discard`. */
  ghost predicate LaneDelivered(k: Packet, live: Operand, c: Machine, l: nat, r: S.Result)
    requires MachineOk(k, c) && l < k.width
  {
    && r.Done?
    && (MaskOf(k, c, live)[l] <==> !r.flow.Discarded?)
    && (!r.flow.Discarded? ==> forall x | x in k.io.outputs :: VecSlot(k, c.mem, x)[l] == S.Read(k.o, r.st.vars, x))
  }

  /** Within any iteration bound the vector code halts exactly when every lane's own run does, `discard`
      continuing; and then every lane has its live bit and, if live, its outputs. */
  ghost predicate Correct(k: Packet, n: nat, body: Stmt, a: Lanes, code: seq<Instr>, live: Operand)
    requires k.width > 0 && |a.inputs| == k.width
  {
    var f := DoAll(k, n, code, EntryMachine(k, a));
    && (f.Halted? <==> forall l | 0 <= l < k.width :: S.Exec(k.o, false, n, body, Invocation(k, a, l)).Done?)
    && (f.Halted? ==> forall l | 0 <= l < k.width ::
          LaneDelivered(k, live, f.c, l, S.Exec(k.o, true, n, body, Invocation(k, a, l))))
  }

  /** Compiler correctness. */
  lemma PacketIsScalarPerLane(k: Packet, n: nat, body: Stmt, a: Lanes)
    requires k.width > 0 && |a.inputs| == k.width && Accepted(k.io, k.plan, body)
    ensures
      var out := Compile(k.io, k.plan, body);
      Correct(k, n, body, a, out.code, out.e.live)
  {
    AcceptedRuns(k, n, body, a);
    SeededIsScalarPerLane(k, n, body, a);
  }

  /** Compiler correctness, run by run: a shader with a loop behind a break is right in every run that does not enter
      the loop with a lane that has left. */
  lemma SeededIsScalarPerLane(k: Packet, n: nat, body: Stmt, a: Lanes)
    requires k.width > 0 && |a.inputs| == k.width && AcceptedRun(k, n, body, a)
    ensures
      var out := Compile(k.io, k.plan, body);
      Correct(k, n, body, a, out.code, out.e.live)
  {
    ScopedWritesLocals(k.io, body, EntrySite(k.io).scope);
    CompiledRuns(k, n, body, a);
    ShaderSimulates(k, n, body, a);
    var out, p, m := Compile(k.io, k.plan, body), EntryState(k, a), AllLanes(k.width);
    var r, f := Run(k, n, body, {}, m, p), DoAll(k, n, out.code, EntryMachine(k, a));
    if r.Ran? {
      AllDelivered(k, n, body, a, out.e, f.c, r.p);
    }
  }

  /** Every lane of a finished packet gets what its own run gives. */
  lemma AllDelivered(k: Packet, n: nat, body: Stmt, a: Lanes, e: Emitter, c: Machine, q: PState)
    requires k.width > 0 && |a.inputs| == k.width && WellFormed(body, false) && WellShaped(k, q)
    requires Match(k, e, c, q, AllLanes(k.width))
    requires Simulated(k, EntryState(k, a), AllLanes(k.width), EntrySite(k.io).scope, ScopeAfter(body, EntrySite(k.io).scope),
                       Ran(q), Recording(k, n, body, a))
    ensures forall l | 0 <= l < k.width :: LaneDelivered(k, e.live, c, l, S.Exec(k.o, true, n, body, Invocation(k, a, l)))
  {
    var p, scope, rs := EntryState(k, a), EntrySite(k.io).scope, Recording(k, n, body, a);
    ScopeGrows(body, scope);
    forall l | 0 <= l < k.width
      ensures LaneDelivered(k, e.live, c, l, S.Exec(k.o, true, n, body, Invocation(k, a, l)))
    {
      assert LanePost(k, p, q, AllLanes(k.width), l, scope, ScopeAfter(body, scope), rs[l]);
      Delivered(k, n, body, a, l, e.live, c, q, scope);
    }
  }

  /** Correct for every packet width, iteration bound, operations and inputs. */
  ghost predicate AlwaysCorrect(io: Interface, plan: Plan, body: Stmt, code: seq<Instr>, live: Operand) {
    forall k: Packet, n: nat, a: Lanes | k.io == io && k.plan == plan && |a.inputs| == k.width > 0 ::
      Correct(k, n, body, a, code, live)
  }

  lemma AcceptedIsCorrect(io: Interface, plan: Plan, body: Stmt)
    requires Accepted(io, plan, body)
    ensures AlwaysCorrect(io, plan, body, Compile(io, plan, body).code, Compile(io, plan, body).e.live)
  {
    forall k: Packet, n: nat, a: Lanes | k.io == io && k.plan == plan && |a.inputs| == k.width > 0
      ensures Correct(k, n, body, a, Compile(io, plan, body).code, Compile(io, plan, body).e.live)
    {
      PacketIsScalarPerLane(k, n, body, a);
    }
  }

  lemma Delivered(k: Packet, n: nat, body: Stmt, a: Lanes, l: nat, live: Operand, c: Machine, q: PState, scope: set<Name>)
    requires l < k.width == |a.inputs| && MachineOk(k, c) && WellShaped(k, q) && WellFormed(body, false)
    requires c.mem == q.mem && MaskOf(k, c, live) == q.live && k.io.outputs <= scope
    requires
      var r := S.Exec(k.o, false, n, body, Invocation(k, a, l));
      r.Done? && Rel(k, q, l, r.st, scope)
    ensures LaneDelivered(k, live, c, l, S.Exec(k.o, true, n, body, Invocation(k, a, l)))
  {
    var t := Invocation(k, a, l);
    S.RecordingPredictsStopping(k.o, n, body, t);
    S.DeadStaysDead(k.o, n, body, t);
    var r := S.Exec(k.o, false, n, body, t);
    forall x | x in k.io.outputs ensures VecSlot(k, c.mem, x)[l] == S.Read(k.o, r.st.vars, x) {
      assert LaneRead(k, q.mem, x, l) == S.Read(k.o, r.st.vars, x);
    }
  }

  /** Soundness of the uniformity analysis, as a fact about the scalar shader alone: invocations that share their
      globals end with the same value in every name the analysis left unmarked. */
  lemma UniformLocalsAgree(k: Packet, n: nat, body: Stmt, a: Lanes, l: nat, l': nat, x: Name)
    requires CoreRules(k.io, body) && Justified(k.io, body, false, k.plan)
    requires l < |a.inputs| && l' < |a.inputs| && UniformName(k.io, k.plan.divergent, x)
    requires S.Exec(k.o, false, n, body, Invocation(k, a, l)).Done? && S.Exec(k.o, false, n, body, Invocation(k, a, l')).Done?
    ensures
      var r, r' := S.Exec(k.o, false, n, body, Invocation(k, a, l)), S.Exec(k.o, false, n, body, Invocation(k, a, l'));
      S.Read(k.o, r.st.vars, x) == S.Read(k.o, r'.st.vars, x)
  {
    ScopedMembers(k.io, body, EntrySite(k.io).scope);
    UniformStaysEqual(k.o, n, k.io, k.plan, body, Invocation(k, a, l), Invocation(k, a, l'));
  }

  /** Scalar slots and plain loops are only an optimisation: under any two plans that justify themselves the packets
      halt in the same cases, with the same live lanes and, in those, the same outputs. */
  lemma PlansAgree(k: Packet, plan: Plan, n: nat, body: Stmt, a: Lanes)
    requires k.width > 0 && |a.inputs| == k.width && Accepted(k.io, k.plan, body) && Accepted(k.io, plan, body)
    ensures
      var h := k.(plan := plan);
      var out, out' := Compile(k.io, k.plan, body), Compile(k.io, plan, body);
      var f, f' := DoAll(k, n, out.code, EntryMachine(k, a)), DoAll(h, n, out'.code, EntryMachine(h, a));
      && (f.Halted? <==> f'.Halted?)
      && (f.Halted? ==> SameDelivery(k, h, f.c, f'.c, out.e.live, out'.e.live))
  {
    var h := k.(plan := plan);
    PacketIsScalarPerLane(k, n, body, a);
    PacketIsScalarPerLane(h, n, body, a);
    SameInvocations(k, h, a);
    var out, out' := Compile(k.io, k.plan, body), Compile(k.io, plan, body);
    var f, f' := DoAll(k, n, out.code, EntryMachine(k, a)), DoAll(h, n, out'.code, EntryMachine(h, a));
    assert f.Halted? <==> f'.Halted?;
    if f.Halted? {
      var rs := seq(k.width, l requires 0 <= l < k.width => S.Exec(k.o, true, n, body, Invocation(k, a, l)));
      BothDeliver(k, h, f.c, f'.c, out.e.live, out'.e.live, rs);
    }
  }

  /** The packetizer gives up exactly on a text with something in it that it has no code for. */
  lemma BailsIff(io: Interface, plan: Plan, body: Stmt)
    requires Justified(io, body, false, plan) && WellFormed(body, true)
    ensures Compile(io, plan, body).e.bailed <==> Refuses(io, {}, false, Text(body))
  {
    EmitFollows(io, plan, body, false, START, false);
  }

  /** An arm is skipped where no lane wants it exactly when its text has a loop or a call, and no discard. */
  lemma GuardedIff(s: Stmt)
    requires WellFormed(s, true)
    ensures Guarded(s) <==> Costly(Text(s)) && !Deadly(Text(s))
  {
    ArmIff(s);
  }

  /** The plan that masks everything is accepted for every shader for which any is. */
  lemma MaskedIsAccepted(io: Interface, plan: Plan, body: Stmt)
    requires Accepted(io, plan, body)
    ensures Accepted(io, FullyMasked(body), body)
  {
    MaskedIsJustified(io, body, false, FullyMasked(body));
    EscapeFree(body);
    NoEscapeAnywhere(body);
    BailsAlike(io, plan, FullyMasked(body), body, START);
  }

  /** So the packets of any such plan do what fully masked emission does. */
  lemma AgreesWithMasked(k: Packet, n: nat, body: Stmt, a: Lanes)
    requires k.width > 0 && |a.inputs| == k.width && Accepted(k.io, k.plan, body)
    ensures
      var h := k.(plan := FullyMasked(body));
      var out, out' := Compile(k.io, k.plan, body), Compile(k.io, h.plan, body);
      var f, f' := DoAll(k, n, out.code, EntryMachine(k, a)), DoAll(h, n, out'.code, EntryMachine(h, a));
      && !out'.e.bailed && (f.Halted? <==> f'.Halted?)
      && (f.Halted? ==> SameDelivery(k, h, f.c, f'.c, out.e.live, out'.e.live))
  {
    MaskedIsAccepted(k.io, k.plan, body);
    PlansAgree(k, FullyMasked(body), n, body, a);
  }

  lemma SameInvocations(k: Packet, h: Packet, a: Lanes)
    requires k.o == h.o && k.io == h.io
    ensures forall l | 0 <= l < |a.inputs| :: Invocation(k, a, l) == Invocation(h, a, l)
  {
  }

  /** Two packets hand back the same live lanes and, in those, the same outputs. */
  ghost predicate SameDelivery(k: Packet, h: Packet, c: Machine, c': Machine, live: Operand, live': Operand)
    requires MachineOk(k, c) && MachineOk(h, c') && k.width == h.width && k.io == h.io
  {
    && MaskOf(k, c, live) == MaskOf(h, c', live')
    && forall l, x | 0 <= l < k.width && MaskOf(k, c, live)[l] && x in k.io.outputs ::
         VecSlot(k, c.mem, x)[l] == VecSlot(h, c'.mem, x)[l]
  }

  lemma BothDeliver(k: Packet, h: Packet, c: Machine, c': Machine, live: Operand, live': Operand, rs: seq<S.Result>)
    requires MachineOk(k, c) && MachineOk(h, c') && k.width == h.width == |rs| && k.io == h.io && k.o == h.o
    requires forall l | 0 <= l < k.width :: LaneDelivered(k, live, c, l, rs[l]) && LaneDelivered(h, live', c', l, rs[l])
    ensures SameDelivery(k, h, c, c', live, live')
  {
    forall l | 0 <= l < k.width ensures MaskOf(k, c, live)[l] == MaskOf(h, c', live')[l] {
      assert LaneDelivered(k, live, c, l, rs[l]) && LaneDelivered(h, live', c', l, rs[l]);
    }
    forall l, x | 0 <= l < k.width && MaskOf(k, c, live)[l] && x in k.io.outputs
      ensures VecSlot(k, c.mem, x)[l] == VecSlot(h, c'.mem, x)[l]
    {
      assert LaneDelivered(k, live, c, l, rs[l]) && LaneDelivered(h, live', c', l, rs[l]);
    }
  }

  // ---- without a bound ----

  ghost predicate PacketTerminates(k: Packet, body: Stmt, a: Lanes)
    requires k.width > 0 && |a.inputs| == k.width
  {
    exists n: nat :: DoAll(k, n, Compile(k.io, k.plan, body).code, EntryMachine(k, a)).Halted?
  }

  /** One bound is enough for the first `w` lanes together. */
  lemma {:induction false} CommonBound(k: Packet, body: Stmt, a: Lanes, w: nat) returns (n: nat)
    requires w <= |a.inputs|
    requires forall l | 0 <= l < w :: S.Terminates(k.o, false, body, Invocation(k, a, l))
    ensures forall l | 0 <= l < w :: S.Exec(k.o, false, n, body, Invocation(k, a, l)).Done?
  {
    if w == 0 { return 0; }
    var before := CommonBound(k, body, a, w - 1);
    var t := Invocation(k, a, w - 1);
    var own: nat :| S.Exec(k.o, false, own, body, t).Done?;
    n := if before < own then own else before;
    S.MoreFuel(k.o, false, own, n, body, t);
    forall l | 0 <= l < w - 1 ensures S.Exec(k.o, false, n, body, Invocation(k, a, l)).Done? {
      S.MoreFuel(k.o, false, before, n, body, Invocation(k, a, l));
    }
  }

  /** The packet terminates exactly when each of its lanes does on its own. */
  lemma PacketTerminatesIff(k: Packet, body: Stmt, a: Lanes)
    requires k.width > 0 && |a.inputs| == k.width && Accepted(k.io, k.plan, body)
    ensures PacketTerminates(k, body, a) <==>
              forall l | 0 <= l < k.width :: S.Terminates(k.o, false, body, Invocation(k, a, l))
  {
    if PacketTerminates(k, body, a) {
      var n: nat :| DoAll(k, n, Compile(k.io, k.plan, body).code, EntryMachine(k, a)).Halted?;
      PacketIsScalarPerLane(k, n, body, a);
    }
    if forall l | 0 <= l < k.width :: S.Terminates(k.o, false, body, Invocation(k, a, l)) {
      var n := CommonBound(k, body, a, k.width);
      PacketIsScalarPerLane(k, n, body, a);
    }
  }

  // ---- the liveness value ----

  /** A completed shader is valid SSA, the store of live_ at its end included, exactly when no `discard` lies
      under a loop. */
  lemma ShaderValidIff(io: Interface, plan: Plan, body: Stmt)
    requires WellFormed(body, false) && !Compile(io, plan, body).e.bailed
    ensures var out := Compile(io, plan, body); Valid(out.code, out.e, {}) <==> !DiscardInLoop(body)
  {
    NoEscapeAnywhere(body);
    ValidIff(io, plan, body, START, {});
  }

  // ---- an arm that no lane wants ----

  /** With no lane active a statement ends, whatever its loops would do in an active lane, and leaves every lane's
      masks, liveness and visible names alone: skipping it is exact. Its loops are seeded wherever none of them follows a
      break or continue (Seeding.RuleSeeds). */
  lemma IdleStatementIsSkip(k: Packet, n: nat, s: Stmt, c: Site, m: Mask, p: PState)
    requires SiteOk(k.io, c) && StmtOk(k.io, k.plan, s, c) && c.divergentCF
    requires k.width > 0 && WellShaped(k, p) && |m| == k.width && !Any(Eff(k, m, p))
    requires Seeded(k, n, s, c.seen, m, p)
    ensures
      var r := Run(k, n, s, c.seen, m, p);
      && r.Ran? && r.p.live == p.live && r.p.la == p.la && r.p.em == p.em
      && forall l | 0 <= l < k.width :: Untouched(k, p, r.p, l, c.scope)
  {
    var ts := seq(k.width, _ => S.State(map[], true));
    forall l | 0 <= l < k.width ensures !(m[l] && p.em[l]) { assert !Eff(k, m, p)[l]; }
    Simulate(k, n, s, c, m, p, ts);
    var r := Run(k, n, s, c.seen, m, p);
    assert r.Ran?;
    var q := r.p;
    forall l | 0 <= l < k.width
      ensures q.live[l] == p.live[l] && q.la[l] == p.la[l] && q.em[l] == p.em[l] && Untouched(k, p, q, l, c.scope)
    {
      assert LanePost(k, p, q, m, l, c.scope, ScopeAfter(s, c.scope), Results(k, n, s, ts)[l]);
    }
    assert q.live == p.live && q.la == p.la && q.em == p.em;
  }
}
