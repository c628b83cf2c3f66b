/** A loop in a graph, put together from the runs of its test, its body and its latch. */
module ControlFlowIteration {
  import opened ShaderAst
  import opened ControlFlow

  /** How a run of a graph stops: at an `unreachable`, behind the call that discards the invocation, or at a return. */
  datatype Answer = Gone | Back(v: Option<Val>)

  function AnswerOf(f: Flow): Answer {
    match f
    case Killed => Gone
    case Returned(v) => Back(v)
    case _ => Back(None)
  }

  function Result(o: Sem, d: Conf, t: Term): Option<Answer> {
    match t
    case Unreachable => Some(Gone)
    case Ret(None) => Some(Back(None))
    case Ret(Some(a)) => Some(Back(Some(Get(o, d, a))))
    case _ => None
  }

  ghost predicate Stopped(o: Sem, g: Graph, d: Conf, a: Answer) {
    && d.at < |g| && d.idx == |g[d.at].code| && g[d.at].term.Some?
    && Result(o, d, g[d.at].term.value) == Some(a)
  }

  /** What a loop does in one round, as functions of the store; `body` also of the iteration bound. */
  datatype Pieces = Pieces(test: Store -> (bool, Store), body: (nat, Store) -> Outcome, inc: Store -> Store)

  function Iterate(p: Pieces, n: nat, st: Store): Outcome
    decreases n, 1
  {
    var a := p.test(st);
    if !a.0 then Done(Normal, a.1) else if n == 0 then Timeout else AfterBody(p, n, p.body(n, a.1))
  }

  function AfterBody(p: Pieces, n: nat, r: Outcome): Outcome
    requires n > 0
    decreases n, 0
  {
    if r.Timeout? || Final(r.flow) then r
    else if r.flow.Left? then Done(Normal, r.st)
    else Iterate(p, n - 1, p.inc(r.st))
  }

  // The blocks of a loop are numbered from `m`: condition, body, latch, end.

  ghost predicate TestEnds(o: Sem, g: Graph, m: nat, c: Conf, k: nat, d: Conf, t: (bool, Store)) {
    k > 0 && Steps(o, g, k, c) == Some(d) && d.at == (if t.0 then m + 1 else m + 3) && d.idx == 0 && d.st == t.1
  }

  /** After the body: at the latch, or at the end block, or as the body's outcome says. */
  ghost predicate BodyEnds(o: Sem, g: Graph, m: nat, n: nat, c: Conf, k: nat, d: Conf, r: Outcome) {
    match r
    case Timeout => k >= n && Steps(o, g, k, c).Some?
    case Done(f, st) =>
      && Steps(o, g, k, c) == Some(d) && d.st == st
      && (Final(f) ==> Stopped(o, g, d, AnswerOf(f)))
      && (f.Left? ==> d.at == m + 3 && d.idx == 0)
      && (f.Normal? || f.Nexted? ==> d.at == m + 2 && d.idx == 0)
  }

  ghost predicate LatchEnds(o: Sem, g: Graph, m: nat, c: Conf, k: nat, d: Conf, st: Store) {
    Steps(o, g, k, c) == Some(d) && d.at == m && d.idx == 0 && d.st == st
  }

  ghost predicate TestRuns(o: Sem, g: Graph, p: Pieces, m: nat, c: Conf) {
    exists k, d :: TestEnds(o, g, m, c, k, d, p.test(c.st))
  }

  ghost predicate BodyRuns(o: Sem, g: Graph, p: Pieces, m: nat, n: nat, c: Conf) {
    exists k, d :: BodyEnds(o, g, m, n, c, k, d, p.body(n, c.st))
  }

  ghost predicate LatchRuns(o: Sem, g: Graph, p: Pieces, m: nat, c: Conf) {
    exists k, d :: LatchEnds(o, g, m, c, k, d, p.inc(c.st))
  }

  /** Every piece does its part, for bounds up to `n`. */
  ghost predicate PiecesLinked(o: Sem, g: Graph, p: Pieces, m: nat, n: nat) {
    && (forall c: Conf | c.at == m && c.idx == 0 :: TestRuns(o, g, p, m, c))
    && (forall i: nat, c: Conf | i <= n && c.at == m + 1 && c.idx == 0 :: BodyRuns(o, g, p, m, i, c))
    && (forall c: Conf | c.at == m + 2 && c.idx == 0 :: LatchRuns(o, g, p, m, c))
  }

  /** A run to the start of block `l`, unless the function is over, or it is cut short after `n` steps at least. */
  ghost predicate Reaches(o: Sem, g: Graph, l: nat, n: nat, c: Conf, k: nat, d: Conf, r: Outcome) {
    match r
    case Timeout => k >= n && Steps(o, g, k, c).Some?
    case Done(f, st) =>
      && Steps(o, g, k, c) == Some(d) && d.st == st
      && if Final(f) then Stopped(o, g, d, AnswerOf(f)) else f.Normal? && d.at == l && d.idx == 0
  }

  lemma ReachesAfter(o: Sem, g: Graph, l: nat, n: nat, c: Conf, i: nat, c1: Conf, j: nat, d: Conf, r: Outcome, n': nat)
    requires Steps(o, g, i, c) == Some(c1) && Reaches(o, g, l, n, c1, j, d, r) && n' <= n + i
    ensures Reaches(o, g, l, n', c, i + j, d, r)
  {
    StepsAdd(o, g, i, j, c, c1);
  }

  /** From the condition block to the end block. A round takes a step at least, so `n` rounds take `n`. */
  lemma {:induction false} IterationsCorrect(o: Sem, g: Graph, p: Pieces, m: nat, n: nat, c: Conf) returns (k: nat, d: Conf)
    requires PiecesLinked(o, g, p, m, n) && c.at == m && c.idx == 0
    ensures Reaches(o, g, m + 3, n, c, k, d, Iterate(p, n, c.st))
    decreases n, 1
  {
    assert TestRuns(o, g, p, m, c);
    var i, c1 :| TestEnds(o, g, m, c, i, c1, p.test(c.st));
    if !p.test(c.st).0 || n == 0 {
      k, d := i, c1;
    } else {
      var j;
      j, d := RoundCorrect(o, g, p, m, n, c1);
      ReachesAfter(o, g, m + 3, n - 1, c, i, c1, j, d, AfterBody(p, n, p.body(n, c1.st)), n);
      k := i + j;
    }
  }

  /** The body, and what follows it. */
  lemma {:induction false} RoundCorrect(o: Sem, g: Graph, p: Pieces, m: nat, n: nat, c: Conf) returns (k: nat, d: Conf)
    requires PiecesLinked(o, g, p, m, n) && c.at == m + 1 && c.idx == 0 && n > 0
    ensures Reaches(o, g, m + 3, n - 1, c, k, d, AfterBody(p, n, p.body(n, c.st)))
    decreases n, 0, 1
  {
    assert BodyRuns(o, g, p, m, n, c);
    var j, c1 :| BodyEnds(o, g, m, n, c, j, c1, p.body(n, c.st));
    k, d := BodyOn(o, g, p, m, n, c, j, c1, p.body(n, c.st));
  }

  lemma {:induction false} BodyOn(o: Sem, g: Graph, p: Pieces, m: nat, n: nat, c: Conf, j: nat, c1: Conf, r: Outcome)
    returns (k: nat, d: Conf)
    requires PiecesLinked(o, g, p, m, n) && BodyEnds(o, g, m, n, c, j, c1, r) && n > 0
    ensures Reaches(o, g, m + 3, n - 1, c, k, d, AfterBody(p, n, r))
    decreases n, 0, 0, 1
  {
    if r.Timeout? || Final(r.flow) || r.flow.Left? {
      BodyLeaves(o, g, m, n, c, j, c1, r);
      k, d := j, c1;
    } else {
      var i;
      i, d := LatchOn(o, g, p, m, n, c1);
      GoesOn(p, n, r);
      ReachesAfter(o, g, m + 3, n - 1, c, j, c1, i, d, Iterate(p, n - 1, p.inc(c1.st)), n - 1);
      k := j + i;
    }
  }

  lemma GoesOn(p: Pieces, n: nat, r: Outcome)
    requires n > 0 && r.Done? && !Final(r.flow) && !r.flow.Left?
    ensures AfterBody(p, n, r) == Iterate(p, n - 1, p.inc(r.st))
  {
  }

  lemma BodyLeaves(o: Sem, g: Graph, m: nat, n: nat, c: Conf, k: nat, d: Conf, r: Outcome)
    requires BodyEnds(o, g, m, n, c, k, d, r) && n > 0 && (r.Timeout? || Final(r.flow) || r.flow.Left?)
    ensures Reaches(o, g, m + 3, n - 1, c, k, d, if r.Timeout? || Final(r.flow) then r else Done(Normal, r.st))
  {
  }

  /** The latch, and the rounds that are left. */
  lemma {:induction false} LatchOn(o: Sem, g: Graph, p: Pieces, m: nat, n: nat, c: Conf) returns (k: nat, d: Conf)
    requires PiecesLinked(o, g, p, m, n) && c.at == m + 2 && c.idx == 0 && n > 0
    ensures Reaches(o, g, m + 3, n - 1, c, k, d, Iterate(p, n - 1, p.inc(c.st)))
    decreases n, 0, 0, 0
  {
    assert LatchRuns(o, g, p, m, c);
    var i, c1 :| LatchEnds(o, g, m, c, i, c1, p.inc(c.st));
    var j;
    j, d := IterationsCorrect(o, g, p, m, n - 1, c1);
    ReachesAfter(o, g, m + 3, n - 1, c, i, c1, j, d, Iterate(p, n - 1, c1.st), n - 1);
    k := i + j;
  }
}
