/** What the recursive-descent parser computes, as functions of the tokens ahead. */
module ExpressionParsing {
  import opened ExpressionGrammar

  datatype Parsed = Fail | Ok(e: Expr, rest: Tokens)
  datatype ParsedAll = FailAll | OkAll(es: seq<Expr>, rest: Tokens)

  function ParseExpr(ts: Tokens): (r: Parsed)
    ensures r.Ok? ==> |r.rest| < |ts|
    decreases |ts|, 5
  {
    var c := ParseLevel(0, ts);
    if c.Fail? || Head(c.rest) != Question then c
    else
      var t := ParseExpr(c.rest[1..]);
      if t.Fail? || Head(t.rest) != Colon then Fail
      else
        var f := ParseExpr(t.rest[1..]);
        if f.Fail? then Fail else Ok(Ternary(c.e, t.e, f.e), f.rest)
  }

  /** An operand, and the operators of precedence `p` or more that follow. */
  function ParseLevel(p: nat, ts: Tokens): (r: Parsed)
    ensures r.Ok? ==> |r.rest| < |ts|
    decreases |ts|, 4
  {
    var u := ParseUnary(ts);
    if u.Fail? then Fail else ParseBinary(p, u.e, u.rest)
  }

  function ParseBinary(p: nat, lhs: Expr, ts: Tokens): (r: Parsed)
    ensures r.Ok? ==> |r.rest| <= |ts|
    decreases |ts|, 0
  {
    var q := Precedence(Head(ts));
    if q < p then Ok(lhs, ts)
    else
      var u := ParseUnary(ts[1..]);
      if u.Fail? then Fail
      else
        var rhs := if q < Precedence(Head(u.rest)) then ParseBinary(q + 1, u.e, u.rest) else u;
        if rhs.Fail? then Fail else ParseBinary(p, Binary(ts[0].sign, lhs, rhs.e), rhs.rest)
  }

  function ParseUnary(ts: Tokens): (r: Parsed)
    ensures r.Ok? ==> |r.rest| < |ts|
    decreases |ts|, 3
  {
    match Head(ts)
    case Increment => ParseStep(ts, false)
    case Decrement => ParseStep(ts, true)
    case Sym(op) =>
      if !IsPrefixSign(op) then ParsePrimary(ts)
      else
        var u := ParseUnary(ts[1..]);
        if u.Fail? then Fail else Ok(Unary(op, u.e), u.rest)
    case _ => ParsePrimary(ts)
  }

  function ParseStep(ts: Tokens, dec: bool): (r: Parsed)
    requires ts != []
    ensures r.Ok? ==> |r.rest| < |ts|
    decreases |ts|, 2
  {
    var u := ParseUnary(ts[1..]);
    if u.Fail? || !Assignable(u.e) then Fail else Ok(Step(u.e, dec, true), u.rest)
  }

  function ParsePrimary(ts: Tokens): (r: Parsed)
    ensures r.Ok? ==> |r.rest| < |ts|
    decreases |ts|, 2
  {
    var a := ParseAtom(ts);
    if a.Fail? then Fail else ParsePostfix(a.e, a.rest)
  }

  function ParseAtom(ts: Tokens): (r: Parsed)
    ensures r.Ok? ==> |r.rest| < |ts|
    decreases |ts|, 1
  {
    match Head(ts)
    case Ident(x) => if Head(ts[1..]) == LParen then ParseCall(User(x), ts[2..]) else Ok(Var(x), ts[1..])
    case TypeName(x) => if Head(ts[1..]) == LParen then ParseCall(BuiltIn(x), ts[2..]) else Fail
    case Num(n) => Ok(Lit(n), ts[1..])
    case True => Ok(Bool(true), ts[1..])
    case False => Ok(Bool(false), ts[1..])
    case LParen =>
      var e := ParseExpr(ts[1..]);
      if e.Fail? || Head(e.rest) != RParen then Fail else Ok(e.e, e.rest[1..])
    case _ => Fail
  }

  /** A call, from behind its opening parenthesis. */
  function ParseCall(f: Callee, ts: Tokens): (r: Parsed)
    ensures r.Ok? ==> |r.rest| < |ts|
    decreases |ts|, 7
  {
    if Head(ts) == RParen then Ok(Call(f, []), ts[1..])
    else
      var a := ParseArgs(ts);
      if a.FailAll? then Fail else Ok(Call(f, a.es), a.rest)
  }

  /** Arguments up to and with the closing parenthesis; there is at least one. */
  function ParseArgs(ts: Tokens): (r: ParsedAll)
    ensures r.OkAll? ==> |r.rest| < |ts|
    decreases |ts|, 6
  {
    var a := ParseExpr(ts);
    if a.Fail? then FailAll
    else if Head(a.rest) == RParen then OkAll([a.e], a.rest[1..])
    else if Head(a.rest) != Comma then FailAll
    else
      var more := ParseArgs(a.rest[1..]);
      if more.FailAll? then FailAll else OkAll([a.e] + more.es, more.rest)
  }

  /** An index, from behind its opening bracket. */
  function ParseIndex(ts: Tokens): (r: Parsed)
    ensures r.Ok? ==> |r.rest| < |ts|
    decreases |ts|, 6
  {
    var i := ParseExpr(ts);
    if i.Fail? || Head(i.rest) != RBracket then Fail else Ok(i.e, i.rest[1..])
  }

  function ParsePostfix(base: Expr, ts: Tokens): (r: Parsed)
    ensures r.Ok? ==> |r.rest| <= |ts|
    decreases |ts|, 0
  {
    match Head(ts)
    case Dot => if Head(ts[1..]).Ident? then ParsePostfix(Member(base, ts[1].name), ts[2..]) else Fail
    case LBracket =>
      var i := ParseIndex(ts[1..]);
      if i.Fail? then Fail
      else if Head(i.rest) != LBracket then ParsePostfix(Index(base, i.e), i.rest)
      else
        var j := ParseIndex(i.rest[1..]);
        if j.Fail? then Fail else ParsePostfix(Index2(base, i.e, j.e), j.rest)
    case Increment => if Assignable(base) then ParsePostfix(Step(base, false, false), ts[1..]) else Fail
    case Decrement => if Assignable(base) then ParsePostfix(Step(base, true, false), ts[1..]) else Fail
    case _ => Ok(base, ts)
  }
}
