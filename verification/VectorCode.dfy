/** The vector code the packetizer emits: straight-line mask and store operations, a skip over an arm no lane
    wants, and two loop shapes. */
module VectorCode {
  import opened ShaderAst
  import opened Uniformity
  import opened PacketSemantics

  /** A <W x i1> value: the all-ones constant entryMask_, or an SSA register. */
  datatype Operand = AllOnes | Reg(id: nat)

  /** How a mask register is computed. */
  datatype MaskExpr =
    | Both(a: Operand, b: Operand)                 // and
    | Minus(a: Operand, b: Operand)                // and-not
    | LoadMask(slot: nat)                          // a loop's la or em slot
    | Test(e: Expr)                                // an emitted condition

  datatype Instr =
    | Def(r: nat, value: MaskExpr)
    | Let(r: nat, e: Expr)                                         // an emitted value
    | StoreMask(slot: nat, m: Operand)
    | Null(x: Name, uniform: bool)                                 // zero-initialising store
    | StoreLaneZero(x: Name, v: nat)
    | Store(x: Name, v: nat, m: Operand)                           // blend: plain store under AllOnes
    | Insert(x: Name, member: string, v: nat, m: Operand)          // blended swizzle store
    | SkipUnlessAny(m: Operand, run: seq<Instr>)
    | MaskLoop(head: seq<Instr>, test: Operand, body: seq<Instr>)  // iterates while any lane of `test` is set
    | UniLoop(cond: Expr, body: seq<Instr>)                        // iterates while lane 0 of `cond` is set

  datatype Machine = Machine(mem: Memory, masks: map<nat, Mask>, vals: map<nat, seq<Val>>, slots: map<nat, Mask>)

  datatype Final = Exhausted | Halted(c: Machine)

  ghost predicate MachineOk(k: Packet, c: Machine) {
    && MemShaped(k, c.mem)
    && (forall r | r in c.masks :: |c.masks[r]| == k.width)
    && (forall r | r in c.vals :: |c.vals[r]| == k.width)
    && (forall r | r in c.slots :: |c.slots[r]| == k.width)
  }

  function MaskOf(k: Packet, c: Machine, a: Operand): (m: Mask)
    requires MachineOk(k, c)
    ensures |m| == k.width
  {
    if a.Reg? && a.id in c.masks then c.masks[a.id] else AllLanes(k.width)
  }

  function SlotOf(k: Packet, c: Machine, slot: nat): (m: Mask)
    requires MachineOk(k, c)
    ensures |m| == k.width
  {
    if slot in c.slots then c.slots[slot] else AllLanes(k.width)
  }

  function Compute(k: Packet, c: Machine, e: MaskExpr): (m: Mask)
    requires MachineOk(k, c)
    ensures |m| == k.width
  {
    match e
    case Both(a, b) => And(MaskOf(k, c, a), MaskOf(k, c, b))
    case Minus(a, b) => AndNot(MaskOf(k, c, a), MaskOf(k, c, b))
    case LoadMask(slot) => SlotOf(k, c, slot)
    case Test(e) => CondMask(k, e, c.mem)
  }

  function ValOf(k: Packet, c: Machine, v: nat, x: Name): (u: seq<Val>)
    requires MachineOk(k, c)
    ensures |u| == k.width
  {
    if v in c.vals then c.vals[v] else NullVec(k, x)
  }

  /** store(select(m, new, old)); under the all-ones constant the select is not emitted. */
  function Blend(k: Packet, c: Machine, m: Operand, written: seq<Val>, previous: seq<Val>): (u: seq<Val>)
    requires MachineOk(k, c) && |written| == |previous| == k.width
    ensures |u| == k.width
  {
    if m.AllOnes? then written else Select(MaskOf(k, c, m), written, previous)
  }

  function SetVec(c: Machine, x: Name, u: seq<Val>): Machine {
    c.(mem := c.mem.(vec := c.mem.vec[x := u]))
  }

  /** Runs one instruction; every loop entered may iterate at most `n` times. */
  function Do(k: Packet, n: nat, i: Instr, c: Machine): (f: Final)
    requires k.width > 0 && MachineOk(k, c)
    ensures f.Halted? ==> MachineOk(k, f.c)
    decreases n, i, 1
  {
    match i
    case Def(r, m) => Halted(c.(masks := c.masks[r := Compute(k, c, m)]))
    case Let(r, e) => Halted(c.(vals := c.vals[r := VecEval(k, e, c.mem)]))
    case StoreMask(slot, m) => Halted(c.(slots := c.slots[slot := MaskOf(k, c, m)]))
    case Null(x, uniform) =>
      if uniform then Halted(c.(mem := c.mem.(uni := c.mem.uni[x := k.o.zero(x)])))
      else Halted(SetVec(c, x, NullVec(k, x)))
    case StoreLaneZero(x, v) => Halted(c.(mem := c.mem.(uni := c.mem.uni[x := ValOf(k, c, v, x)[0]])))
    case Store(x, v, m) => Halted(SetVec(c, x, Blend(k, c, m, ValOf(k, c, v, x), VecSlot(k, c.mem, x))))
    case Insert(x, f, v, m) =>
      var previous := VecSlot(k, c.mem, x);
      Halted(SetVec(c, x, Blend(k, c, m, InsertAll(k.o, f, previous, ValOf(k, c, v, x)), previous)))
    case SkipUnlessAny(m, run) => if Any(MaskOf(k, c, m)) then DoAll(k, n, run, c) else Halted(c)
    case MaskLoop(_, _, _) => DoMaskLoop(k, n, i, c)
    case UniLoop(_, _) => DoUniLoop(k, n, i, c)
  }

  function DoAll(k: Packet, n: nat, code: seq<Instr>, c: Machine): (f: Final)
    requires k.width > 0 && MachineOk(k, c)
    ensures f.Halted? ==> MachineOk(k, f.c)
    decreases n, code, 0
  {
    if code == [] then Halted(c)
    else
      var f := Do(k, n, code[0], c);
      if f.Exhausted? then f else DoAll(k, n, code[1..], f.c)
  }

  function DoMaskLoop(k: Packet, n: nat, i: Instr, c: Machine): (f: Final)
    requires k.width > 0 && MachineOk(k, c) && i.MaskLoop?
    ensures f.Halted? ==> MachineOk(k, f.c)
    decreases n, i, 0
  {
    var h := DoAll(k, n, i.head, c);
    if h.Exhausted? || !Any(MaskOf(k, h.c, i.test)) then h
    else if n == 0 then Exhausted
    else
      var b := DoAll(k, n, i.body, h.c);
      if b.Exhausted? then b else DoMaskLoop(k, n - 1, i, b.c)
  }

  function DoUniLoop(k: Packet, n: nat, i: Instr, c: Machine): (f: Final)
    requires k.width > 0 && MachineOk(k, c) && i.UniLoop?
    ensures f.Halted? ==> MachineOk(k, f.c)
    decreases n, i, 0
  {
    if !CondMask(k, i.cond, c.mem)[0] then Halted(c)
    else if n == 0 then Exhausted
    else
      var b := DoAll(k, n, i.body, c);
      if b.Exhausted? then b else DoUniLoop(k, n - 1, i, b.c)
  }

  lemma {:induction false} DoAllAppend(k: Packet, n: nat, a: seq<Instr>, b: seq<Instr>, c: Machine)
    requires k.width > 0 && MachineOk(k, c)
    ensures
      var f := DoAll(k, n, a, c);
      DoAll(k, n, a + b, c) == if f.Exhausted? then f else DoAll(k, n, b, f.c)
    decreases a
  {
    if a == [] {
      assert a + b == b;
    } else {
      assert (a + b)[0] == a[0] && (a + b)[1..] == a[1..] + b;
      var f := Do(k, n, a[0], c);
      if f.Halted? { DoAllAppend(k, n, a[1..], b, f.c); }
    }
  }

  // ---- SSA validity: every use is dominated by its definition ----

  predicate Avail(a: Operand, defs: set<nat>) {
    a.Reg? ==> a.id in defs
  }

  predicate MaskExprOk(m: MaskExpr, defs: set<nat>) {
    match m
    case Both(a, b) => Avail(a, defs) && Avail(b, defs)
    case Minus(a, b) => Avail(a, defs) && Avail(b, defs)
    case _ => true
  }

  /** The registers whose definitions dominate what follows the instruction. A skipped arm and a loop body may
      not run, so what they define is lost; a loop header always runs. */
  function DefsAfter(i: Instr, defs: set<nat>): set<nat>
    decreases i, 1
  {
    match i
    case Def(r, _) => defs + {r}
    case Let(r, _) => defs + {r}
    case MaskLoop(head, _, _) => DefsAfterAll(head, defs)
    case _ => defs
  }

  function DefsAfterAll(code: seq<Instr>, defs: set<nat>): set<nat>
    decreases code, 0
  {
    if code == [] then defs else DefsAfterAll(code[1..], DefsAfter(code[0], defs))
  }

  predicate Dominated(i: Instr, defs: set<nat>)
    decreases i, 1
  {
    match i
    case Def(_, m) => MaskExprOk(m, defs)
    case Let(_, _) => true
    case StoreMask(_, m) => Avail(m, defs)
    case Null(_, _) => true
    case StoreLaneZero(_, v) => v in defs
    case Store(_, v, m) => v in defs && Avail(m, defs)
    case Insert(_, _, v, m) => v in defs && Avail(m, defs)
    case SkipUnlessAny(m, run) => Avail(m, defs) && DominatedAll(run, defs)
    case MaskLoop(head, test, body) =>
      var h := DefsAfterAll(head, defs);
      DominatedAll(head, defs) && Avail(test, h) && DominatedAll(body, h)
    case UniLoop(_, body) => DominatedAll(body, defs)
  }

  predicate DominatedAll(code: seq<Instr>, defs: set<nat>)
    decreases code, 0
  {
    code != [] ==> Dominated(code[0], defs) && DominatedAll(code[1..], DefsAfter(code[0], defs))
  }

  lemma {:induction false} DominatedAppend(a: seq<Instr>, b: seq<Instr>, defs: set<nat>)
    ensures DefsAfterAll(a + b, defs) == DefsAfterAll(b, DefsAfterAll(a, defs))
    ensures DominatedAll(a + b, defs) <==> DominatedAll(a, defs) && DominatedAll(b, DefsAfterAll(a, defs))
    decreases a
  {
    if a == [] {
      assert a + b == b;
    } else {
      assert (a + b)[0] == a[0] && (a + b)[1..] == a[1..] + b;
      DominatedAppend(a[1..], b, DefsAfter(a[0], defs));
    }
  }
}
