/** Which signs are operators and in which order they bind, read off the trees the parser builds. */
module OperatorOrder {
  import opened ExpressionGrammar
  import opened ExpressionParsing
  import opened ParserCompleteness
  import opened ParserTheorems

  /** The binary operators, those that bind least first. */
  const CLASSES: seq<set<Sign>> := [
    {OrOr}, {AndAnd}, {BitOr}, {BitXor}, {BitAnd},
    {Less, LessEqual, Greater, GreaterEqual, Equal, NotEqual},
    {ShiftLeft, ShiftRight}, {Plus, Minus}, {Multiply, Divide, Percent}]

  predicate InClass(s: Sign, i: nat) {
    i < |CLASSES| && s in CLASSES[i]
  }

  predicate IsOperator(s: Sign) {
    exists i | 0 <= i < |CLASSES| :: InClass(s, i)
  }

  /** What has no operator of its own outside parentheses. */
  predicate Tight(a: Expr) {
    Written(a) && !a.Binary? && !a.Ternary?
  }

  /** The expression before `rest` is over: nothing follows, a closing token, or a token of no expression. */
  predicate Over(rest: Tokens) {
    var t := Head(rest);
    t.Eof? || t.RParen? || t.RBracket? || t.Comma? || t.Colon? || t.Other?
  }

  lemma OverStops(c: Expr, rest: Tokens)
    requires Over(rest)
    ensures Stops(c, rest)
  {
  }

  lemma ClassStrength(s: Sign, i: nat)
    requires InClass(s, i)
    ensures Precedence(Sym(s)) == if i < 6 then 5 + i else if i == 6 then 15 else if i == 7 then 20 else 40
  {
  }

  lemma OperatorIff(s: Sign)
    ensures IsOperator(s) <==> Precedence(Sym(s)) >= 0
  {
    if i: nat :| InClass(s, i) { ClassStrength(s, i); }
    match s
    case OrOr => assert InClass(s, 0);
    case AndAnd => assert InClass(s, 1);
    case BitOr => assert InClass(s, 2);
    case BitXor => assert InClass(s, 3);
    case BitAnd => assert InClass(s, 4);
    case Less | LessEqual | Greater | GreaterEqual | Equal | NotEqual => assert InClass(s, 5);
    case ShiftLeft | ShiftRight => assert InClass(s, 6);
    case Plus | Minus => assert InClass(s, 7);
    case Multiply | Divide | Percent => assert InClass(s, 8);
    case Bang | Tilde =>
  }

  /** The second of two operators goes first exactly when its class is later in the list. */
  lemma LaterBindsTighter(a: Expr, p: Sign, b: Expr, q: Sign, c: Expr, rest: Tokens, i: nat, j: nat)
    requires Tight(a) && Tight(b) && Tight(c) && InClass(p, i) && InClass(q, j) && Over(rest)
    ensures
      var pFirst := Binary(q, Binary(p, Strip(a), Strip(b)), Strip(c));
      var qFirst := Binary(p, Strip(a), Binary(q, Strip(b), Strip(c)));
      ParseExpr(Spell(a, Cons(Sym(p), Spell(b, Cons(Sym(q), Spell(c, rest)))))) == Ok(if i < j then qFirst else pFirst, rest)
  {
    ClassStrength(p, i);
    ClassStrength(q, j);
    OverStops(c, rest);
    TwoOperators(a, p, b, q, c, rest);
  }

  /** A sign between two operands is read as an operator exactly when it is in one of the classes; else the
      expression ends in front of it. */
  lemma OperatorsAreTheClasses(a: Expr, s: Sign, b: Expr, rest: Tokens)
    requires Tight(a) && Tight(b) && Over(rest)
    ensures
      var after := Cons(Sym(s), Spell(b, rest));
      ParseExpr(Spell(a, after)) == if IsOperator(s) then Ok(Binary(s, Strip(a), Strip(b)), rest) else Ok(Strip(a), after)
  {
    OperatorIff(s);
    OverStops(b, rest);
    if IsOperator(s) { ExprParsed(Binary(s, a, b), rest); } else { ExprParsed(a, Cons(Sym(s), Spell(b, rest))); }
  }

  /** In front of an operand a sign is an operator exactly when it is one of these four; with any other the tokens are
      no expression. */
  lemma PrefixesAreFour(s: Sign, a: Expr, rest: Tokens)
    requires Tight(a) && Over(rest)
    ensures
      ParseExpr(Cons(Sym(s), Spell(a, rest))) ==
      if s in {Sign.Minus, Sign.Plus, Sign.Bang, Sign.Tilde} then Ok(Unary(s, Strip(a)), rest) else Fail
  {
    OverStops(a, rest);
    if s in {Sign.Minus, Sign.Plus, Sign.Bang, Sign.Tilde} {
      ExprParsed(Unary(s, a), rest);
    } else {
      NoPrefix(s, Spell(a, rest));
    }
  }

  lemma NoOperand(ts: Tokens)
    requires ParseUnary(ts).Fail?
    ensures ParseExpr(ts) == Fail
  {
    assert ParseLevel(0, ts) == Fail;
  }

  lemma NoPrefix(s: Sign, ts: Tokens)
    requires s !in {Sign.Minus, Sign.Plus, Sign.Bang, Sign.Tilde}
    ensures ParseExpr(Cons(Sym(s), ts)) == Fail
  {
    assert ParsePrimary(Cons(Sym(s), ts)) == Fail;
    NoOperand(Cons(Sym(s), ts));
  }

  predicate IsPlace(e: Expr) {
    e.Var? || e.Member? || e.Index? || e.Index2?
  }

  /** `++` and `--` in front of an operand want a variable, a member or an element. */
  lemma StepsWantPlaces(dec: bool, a: Expr, rest: Tokens)
    requires Tight(a) && Over(rest)
    ensures
      ParseExpr(Cons(StepToken(dec), Spell(a, rest))) ==
      if IsPlace(Strip(a)) then Ok(Step(Strip(a), dec, true), rest) else Fail
  {
    OverStops(a, rest);
    if IsPlace(Strip(a)) {
      ExprParsed(Step(a, dec, true), rest);
    } else {
      UnaryParsed(a, rest);
      NoPlace(dec, Spell(a, rest));
    }
  }

  lemma NoPlace(dec: bool, ts: Tokens)
    requires ParseUnary(ts).Ok? && !IsPlace(ParseUnary(ts).e)
    ensures ParseExpr(Cons(StepToken(dec), ts)) == Fail
  {
    assert ParseStep(Cons(StepToken(dec), ts), dec) == Fail;
    NoOperand(Cons(StepToken(dec), ts));
  }
}
