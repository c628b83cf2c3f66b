/** Every written expression is parsed back to its tree, and exactly its tokens are consumed. */
module ParserCompleteness {
  import opened ExpressionGrammar
  import opened ExpressionParsing

  /** The parser on the spelling of `c`, followed by `rest`, delivers the tree of `c` and `rest`. */
  lemma {:induction false} ExprParsed(c: Expr, rest: Tokens)
    requires Written(c) && Stops(c, rest)
    ensures ParseExpr(Spell(c, rest)) == Ok(Strip(c), rest)
    decreases c, 6
  {
    if c.Ternary? {
      var afterThen := Cons(Colon, Spell(c.els, rest));
      var afterCond := Cons(Question, Spell(c.t, afterThen));
      LevelParsed(c.c, 0, afterCond);
      ExprParsed(c.t, afterThen);
      ExprParsed(c.els, rest);
    } else {
      LevelParsed(c, 0, rest);
    }
  }

  /** Operators that bind at least as tightly as `p`: the parser has read `c` when it goes on with `rest`. */
  lemma {:induction false} LevelParsed(c: Expr, p: nat, rest: Tokens)
    requires Written(c) && Level(c) >= p && OperandStops(c, rest) && Precedence(Head(rest)) <= Level(c)
    ensures ParseLevel(p, Spell(c, rest)) == ParseBinary(p, Strip(c), rest)
    decreases c, 5
  {
    if c.Binary? {
      var after := Cons(Sym(c.sign), Spell(c.r, rest));
      LevelParsed(c.l, p, after);
      RightParsed(c.r, Precedence(Sym(c.sign)), rest);
      BinaryStep(p, Strip(c.l), after);
    } else {
      UnaryParsed(c, rest);
    }
  }

  /** The right operand takes only what binds more tightly. */
  lemma {:induction false} RightParsed(c: Expr, q: nat, rest: Tokens)
    requires Written(c) && Level(c) > q && OperandStops(c, rest) && Precedence(Head(rest)) <= q
    ensures ParseLevel(q + 1, Spell(c, rest)) == Ok(Strip(c), rest)
    decreases c, 6
  {
    LevelParsed(c, q + 1, rest);
  }

  /** The look at the operator after next is only a short cut. */
  lemma BinaryStep(p: nat, lhs: Expr, ts: Tokens)
    requires Precedence(Head(ts)) >= p
    ensures
      var rhs := ParseLevel(Precedence(Head(ts)) + 1, ts[1..]);
      ParseBinary(p, lhs, ts) == if rhs.Fail? then Fail else ParseBinary(p, Binary(ts[0].sign, lhs, rhs.e), rhs.rest)
  {
  }

  lemma {:induction false} UnaryParsed(c: Expr, rest: Tokens)
    requires Written(c) && Level(c) == TIGHTEST && OperandStops(c, rest)
    ensures ParseUnary(Spell(c, rest)) == Ok(Strip(c), rest)
    decreases c, 4
  {
    if c.Unary? {
      UnaryParsed(c.e, rest);
      PrefixRead(c.op, c.e, rest);
    } else if c.Step? && c.prefix {
      UnaryParsed(c.e, rest);
      StepRead(c.dec, c.e, rest);
    } else if !c.Binary? {
      PrimaryParsed(c, rest);
    }
  }

  /** A prefix operator before an operand that is parsed. */
  lemma PrefixRead(op: Sign, e: Expr, rest: Tokens)
    requires IsPrefixSign(op) && ParseUnary(Spell(e, rest)) == Ok(Strip(e), rest)
    ensures ParseUnary(Cons(Sym(op), Spell(e, rest))) == Ok(Unary(op, Strip(e)), rest)
  {
  }

  lemma StepRead(dec: bool, e: Expr, rest: Tokens)
    requires Assignable(Strip(e)) && ParseUnary(Spell(e, rest)) == Ok(Strip(e), rest)
    ensures ParseUnary(Cons(StepToken(dec), Spell(e, rest))) == Ok(Step(Strip(e), dec, true), rest)
  {
  }

  lemma {:induction false} PrimaryParsed(c: Expr, rest: Tokens)
    requires Written(c) && IsPostfix(c) && OperandStops(c, rest)
    ensures ParseUnary(Spell(c, rest)) == Ok(Strip(c), rest)
    decreases c, 3, 1
  {
    PostfixHead(c, rest);
    PostfixParsed(c, rest);
  }

  /** A primary does not begin like a prefix operator. */
  lemma {:induction false} PostfixHead(c: Expr, rest: Tokens)
    requires IsPostfix(c) && Written(c)
    ensures
      var t := Head(Spell(c, rest));
      t.Ident? || t.TypeName? || t.Num? || t.True? || t.False? || t.LParen?
    decreases c
  {
    match c
    case Member(b, m) => PostfixHead(b, Cons(Dot, Cons(Ident(m), rest)));
    case Index(b, i) => PostfixHead(b, Cons(LBracket, Spell(i, Cons(RBracket, rest))));
    case Index2(b, i, j) =>
      PostfixHead(b, Cons(LBracket, Spell(i, Cons(RBracket, Cons(LBracket, Spell(j, Cons(RBracket, rest)))))));
    case Step(e, d, _) => PostfixHead(e, Cons(StepToken(d), rest));
    case _ =>
  }

  /** What may follow a primary for its last postfix operator to be complete. */
  predicate PostfixStops(c: Expr, rest: Tokens) {
    (c.Index? ==> Head(rest) != LBracket) && (c.Var? ==> Head(rest) != LParen)
  }

  lemma {:induction false} PostfixParsed(c: Expr, rest: Tokens)
    requires Written(c) && IsPostfix(c) && PostfixStops(c, rest)
    ensures ParsePrimary(Spell(c, rest)) == ParsePostfix(Strip(c), rest)
    decreases c, 3, 0
  {
    if c.Member? {
      PostfixParsed(c.base, Cons(Dot, Cons(Ident(c.field), rest)));
      DotRead(Strip(c.base), c.field, rest);
    } else if c.Index? {
      OneIndexParsed(c, rest);
    } else if c.Index2? {
      TwoIndicesParsed(c, rest);
    } else if c.Step? {
      PostfixParsed(c.e, Cons(StepToken(c.dec), rest));
      SuffixRead(Strip(c.e), c.dec, rest);
    } else {
      AtomParsed(c, rest);
    }
  }

  lemma DotRead(base: Expr, m: string, rest: Tokens)
    ensures ParsePostfix(base, Cons(Dot, Cons(Ident(m), rest))) == ParsePostfix(Member(base, m), rest)
  {
    var after := Cons(Ident(m), rest);
    var ts := Cons(Dot, after);
    assert ts[1] == after[0] && ts[2..] == after[1..];
  }

  lemma SuffixRead(base: Expr, dec: bool, rest: Tokens)
    requires Assignable(base)
    ensures ParsePostfix(base, Cons(StepToken(dec), rest)) == ParsePostfix(Step(base, dec, false), rest)
  {
  }

  lemma {:induction false} OneIndexParsed(c: Expr, rest: Tokens)
    requires c.Index? && Written(c) && PostfixStops(c, rest)
    ensures ParsePrimary(Spell(c, rest)) == ParsePostfix(Strip(c), rest)
    decreases c, 2
  {
    PostfixParsed(c.base, Cons(LBracket, Spell(c.i, Cons(RBracket, rest))));
    IndexParsed(c.i, rest);
  }

  lemma {:induction false} TwoIndicesParsed(c: Expr, rest: Tokens)
    requires c.Index2? && Written(c)
    ensures ParsePrimary(Spell(c, rest)) == ParsePostfix(Strip(c), rest)
    decreases c, 2
  {
    var second := Cons(LBracket, Spell(c.j, Cons(RBracket, rest)));
    PostfixParsed(c.base, Cons(LBracket, Spell(c.i, Cons(RBracket, second))));
    IndexParsed(c.i, second);
    IndexParsed(c.j, rest);
  }

  lemma {:induction false} IndexParsed(i: Expr, rest: Tokens)
    requires Written(i)
    ensures ParseIndex(Spell(i, Cons(RBracket, rest))) == Ok(Strip(i), rest)
    decreases i, 7
  {
    ExprParsed(i, Cons(RBracket, rest));
  }

  lemma {:induction false} AtomParsed(c: Expr, rest: Tokens)
    requires Written(c) && IsPostfix(c) && (c.Var? ==> Head(rest) != LParen)
    requires !(c.Member? || c.Index? || c.Index2? || c.Step?)
    ensures ParseAtom(Spell(c, rest)) == Ok(Strip(c), rest)
    decreases c, 2
  {
    match c
    case Group(e) => ExprParsed(e, Cons(RParen, rest));
    case Call(f, args) => CallParsed(f, args, rest);
    case _ =>
  }

  lemma {:induction false} CallParsed(f: Callee, args: seq<Expr>, rest: Tokens)
    requires WrittenAll(args)
    ensures ParseCall(f, SpellAll(args, Cons(RParen, rest))) == Ok(Call(f, StripAll(args)), rest)
    decreases args, 1
  {
    if args != [] {
      ArgsHead(args, Cons(RParen, rest));
      ArgsParsed(args, rest);
    }
  }

  lemma {:induction false} ArgsParsed(args: seq<Expr>, rest: Tokens)
    requires args != [] && WrittenAll(args)
    ensures ParseArgs(SpellAll(args, Cons(RParen, rest))) == OkAll(StripAll(args), rest)
    decreases args, 0
  {
    if |args| == 1 {
      ExprParsed(args[0], Cons(RParen, rest));
    } else {
      ExprParsed(args[0], Cons(Comma, SpellAll(args[1..], Cons(RParen, rest))));
      ArgsParsed(args[1..], rest);
    }
  }

  /** No expression begins with a closing parenthesis. */
  lemma {:induction false} SpellHead(c: Expr, rest: Tokens)
    requires Written(c)
    ensures Head(Spell(c, rest)) != RParen
    decreases c
  {
    match c
    case Binary(op, l, r) => SpellHead(l, Cons(Sym(op), Spell(r, rest)));
    case Ternary(a, t, f) => SpellHead(a, Cons(Question, Spell(t, Cons(Colon, Spell(f, rest)))));
    case Unary(_, _) =>
    case Step(e, d, prefix) => if !prefix { PostfixHead(c, rest); }
    case _ => PostfixHead(c, rest);
  }

  lemma ArgsHead(args: seq<Expr>, rest: Tokens)
    requires args != [] && WrittenAll(args)
    ensures Head(SpellAll(args, rest)) != RParen
  {
    if |args| == 1 { SpellHead(args[0], rest); } else { SpellHead(args[0], Cons(Comma, SpellAll(args[1..], rest))); }
  }
}
