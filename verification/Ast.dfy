/** The structured shader language that the scalar code generator and the packetizer both consume. */
module ShaderAst {

  datatype Option<+T> = None | Some(value: T)

  type Name = string

  /** The component tuple of one value: one entry for a scalar, up to four for a vector. */
  datatype Val = Val(comps: seq<real>)

  /** The component arithmetic both back ends share: every operation is total and otherwise arbitrary. */
  datatype Ops = Ops(apply: (string, seq<Val>) -> Val, truth: Val -> bool, zero: Name -> Val)

  datatype Expr =
    | Const(v: Val)
    | Var(name: Name)
    | Apply(op: string, args: seq<Expr>)           // unary, binary, swizzle
    | Call(fn: string, args: seq<Expr>)            // constructor or builtin function
    | Ternary(cond: Expr, thn: Expr, els: Expr)
    | Cast(op: string, operand: Expr)              // implicit conversion
    | Unsupported                                  // any node kind the packetizer does not handle

  datatype Stmt =
    | Block(stmts: seq<Stmt>)
    | Assign(target: Name, init: Expr)
    | MemberAssign(base: Name, member: string, value: Expr)
    | If(cond: Expr, thn: Stmt, els: Option<Stmt>)
    | For(id: nat, pre: Stmt, cond: Expr, body: Stmt, incr: Option<Stmt>)
    | While(id: nat, cond: Expr, body: Stmt)
    | Break
    | Continue
    | Discard
    | Other                                        // return, increments, arrays: the packetizer gives up

  predicate IsLoop(s: Stmt) {
    s.For? || s.While?
  }

  function Step(s: Stmt): Option<Stmt>
    requires IsLoop(s)
  {
    if s.For? then s.incr else None
  }

  /** Break or continue belonging to an enclosing loop; nested loops own theirs. */
  predicate HasBreakOrContinue(s: Stmt) {
    match s
    case Break => true
    case Continue => true
    case Block(ss) => exists i | 0 <= i < |ss| :: HasBreakOrContinue(ss[i])
    case If(_, t, e) => HasBreakOrContinue(t) || (e.Some? && HasBreakOrContinue(e.value))
    case _ => false
  }

  predicate ContainsDiscard(s: Stmt) {
    match s
    case Discard => true
    case Block(ss) => exists i | 0 <= i < |ss| :: ContainsDiscard(ss[i])
    case If(_, t, e) => ContainsDiscard(t) || (e.Some? && ContainsDiscard(e.value))
    case For(_, _, _, b, _) => ContainsDiscard(b)
    case While(_, _, b) => ContainsDiscard(b)
    case _ => false
  }

  predicate ExprWorthBranching(e: Expr) {
    match e
    case Apply(_, args) => exists i | 0 <= i < |args| :: ExprWorthBranching(args[i])
    case Call(_, _) => true
    case Ternary(c, t, f) => ExprWorthBranching(c) || ExprWorthBranching(t) || ExprWorthBranching(f)
    case _ => false
  }

  predicate ArmWorthBranching(s: Stmt) {
    match s
    case For(_, _, _, _, _) => true
    case While(_, _, _) => true
    case Block(ss) => exists i | 0 <= i < |ss| :: ArmWorthBranching(ss[i])
    case Assign(_, e) => ExprWorthBranching(e)
    case MemberAssign(_, _, e) => ExprWorthBranching(e)
    case If(c, t, e) => ExprWorthBranching(c) || ArmWorthBranching(t) || (e.Some? && ArmWorthBranching(e.value))
    case _ => false
  }

  /** The initialiser and increment of a `for` are assignments. */
  predicate IsHeader(s: Stmt) {
    s.Assign? || s.MemberAssign?
  }

  /** Break and continue occur only inside a loop, and loop headers are assignments. */
  predicate WellFormed(s: Stmt, inLoop: bool) {
    match s
    case Break => inLoop
    case Continue => inLoop
    case Block(ss) => forall i | 0 <= i < |ss| :: WellFormed(ss[i], inLoop)
    case If(_, t, e) => WellFormed(t, inLoop) && (e.Some? ==> WellFormed(e.value, inLoop))
    case For(_, p, _, b, i) => IsHeader(p) && WellFormed(b, true) && (i.Some? ==> IsHeader(i.value))
    case While(_, _, b) => WellFormed(b, true)
    case _ => true
  }
}
