/** The parser is the inverse of printing, and accepts exactly the grammar. */
module ParserTheorems {
  import opened ExpressionGrammar
  import opened ExpressionParsing
  import opened ParserCompleteness
  import opened ParserSoundness

  /** Acceptance: the tree and the tokens left over are those of a written expression that `rest` does not extend. */
  lemma AcceptsExactly(ts: Tokens, e: Expr, rest: Tokens)
    ensures ParseExpr(ts) == Ok(e, rest) <==> exists c :: Written(c) && Strip(c) == e && Spell(c, rest) == ts && Stops(c, rest)
  {
    if ParseExpr(ts) == Ok(e, rest) { var c := ExprRead(ts); }
    if c :| Written(c) && Strip(c) == e && Spell(c, rest) == ts && Stops(c, rest) { ExprParsed(c, rest); }
  }

  /** Rejection: no front part of the tokens is a written expression that what follows leaves alone. */
  lemma RejectsExactly(ts: Tokens)
    ensures ParseExpr(ts).Fail? <==> forall c, rest | Written(c) && Spell(c, rest) == ts :: !Stops(c, rest)
  {
    forall c, rest | Written(c) && Spell(c, rest) == ts && Stops(c, rest) ensures ParseExpr(ts).Ok? { ExprParsed(c, rest); }
    if ParseExpr(ts).Ok? { var c := ExprRead(ts); }
  }

  /** The printed form is written, has the tree it was made from, and holds together as that does. */
  ghost predicate TidyFits(e: Expr) {
    var c := Tidy(e);
    Written(c) && Strip(c) == e && Level(c) == Level(e) && IsPostfix(c) == IsPostfix(e) && c.Index? == e.Index?
  }

  lemma {:induction false} TidyWritten(e: Expr)
    requires Tree(e)
    ensures TidyFits(e)
    decreases e, 1
  {
    match e
    case Call(_, args) => TidyAllWritten(args);
    case Member(b, _) => TidyWritten(b);
    case Index(_, _) => TidyIndex(e);
    case Index2(_, _, _) => TidyIndex2(e);
    case Step(x, _, _) => TidyStep(e);
    case Unary(_, x) => TidyWritten(x);
    case Binary(_, _, _) => TidyBinary(e);
    case Ternary(_, _, _) => TidyTernary(e);
    case _ =>
  }

  lemma {:induction false} TidyIndex(e: Expr)
    requires Tree(e) && e.Index?
    ensures TidyFits(e)
    decreases e, 0
  {
    TidyWritten(e.base);
    TidyWritten(e.i);
  }

  lemma {:induction false} TidyIndex2(e: Expr)
    requires Tree(e) && e.Index2?
    ensures TidyFits(e)
    decreases e, 0
  {
    TidyWritten(e.base);
    TidyWritten(e.i);
    TidyWritten(e.j);
  }

  lemma {:induction false} TidyStep(e: Expr)
    requires Tree(e) && e.Step?
    ensures TidyFits(e)
    decreases e, 0
  {
    TidyWritten(e.e);
  }

  lemma {:induction false} TidyBinary(e: Expr)
    requires Tree(e) && e.Binary?
    ensures TidyFits(e)
    decreases e, 0
  {
    TidyWritten(e.l);
    TidyWritten(e.r);
  }

  lemma {:induction false} TidyTernary(e: Expr)
    requires Tree(e) && e.Ternary?
    ensures TidyFits(e)
    decreases e, 0
  {
    TidyWritten(e.c);
    TidyWritten(e.t);
    TidyWritten(e.els);
  }

  lemma {:induction false} TidyAllWritten(es: seq<Expr>)
    requires TreeAll(es)
    ensures WrittenAll(TidyAll(es)) && StripAll(TidyAll(es)) == es
    decreases es, 0
  {
    if es != [] {
      TidyWritten(es[0]);
      TidyAllWritten(es[1..]);
      assert TidyAll(es)[0] == Tidy(es[0]) && TidyAll(es)[1..] == TidyAll(es[1..]);
    }
  }

  /** Print, then parse: the same tree, and exactly the printed tokens are consumed. */
  lemma PrintThenParse(e: Expr, rest: Tokens)
    requires Tree(e) && Stops(Tidy(e), rest)
    ensures ParseExpr(Spell(Tidy(e), rest)) == Ok(e, rest)
  {
    TidyWritten(e);
    ExprParsed(Tidy(e), rest);
  }

  /** Parse, then print, then parse: the printed form stands for the tokens that were read. */
  lemma ParseThenPrint(ts: Tokens)
    requires ParseExpr(ts).Ok?
    ensures
      var r := ParseExpr(ts);
      Tree(r.e) && (Stops(Tidy(r.e), r.rest) ==> ParseExpr(Spell(Tidy(r.e), r.rest)) == r)
  {
    var r := ParseExpr(ts);
    var c := ExprRead(ts);
    StripTree(c);
    if Stops(Tidy(r.e), r.rest) { PrintThenParse(r.e, r.rest); }
  }

  lemma {:induction false} StripTree(c: Expr)
    requires Written(c)
    ensures Tree(Strip(c))
    decreases c, 1
  {
    match c
    case Call(_, args) => StripAllTree(args);
    case Group(e) => StripTree(e);
    case Member(b, _) => StripTree(b);
    case Index(b, i) =>
      StripTree(b);
      StripTree(i);
    case Index2(b, i, j) =>
      StripTree(b);
      StripTree(i);
      StripTree(j);
    case Step(x, _, _) => StripTree(x);
    case Unary(_, x) => StripTree(x);
    case Binary(_, l, r) =>
      StripTree(l);
      StripTree(r);
    case Ternary(a, t, f) =>
      StripTree(a);
      StripTree(t);
      StripTree(f);
    case _ =>
  }

  lemma {:induction false} StripAllTree(es: seq<Expr>)
    requires WrittenAll(es)
    ensures TreeAll(StripAll(es))
    decreases es, 0
  {
    if es != [] {
      StripTree(es[0]);
      StripAllTree(es[1..]);
      assert StripAll(es)[0] == Strip(es[0]) && StripAll(es)[1..] == StripAll(es[1..]);
    }
  }

  // ---- needed parentheses only ----

  /** The number of tokens of an expression. */
  function Words(c: Expr): nat {
    |Spell(c, [])|
  }

  function WordsAll(es: seq<Expr>): nat {
    |SpellAll(es, [])|
  }

  /** What follows does not change how an expression is spelled. */
  lemma {:induction false} SpellLength(c: Expr, rest: Tokens)
    ensures |Spell(c, rest)| == Words(c) + |rest|
    decreases c, 1
  {
    match c
    case Call(_, args) =>
      SpellAllLength(args, Cons(RParen, rest));
      SpellAllLength(args, Cons(RParen, []));
    case Group(e) => TwoLengths(e, Cons(RParen, rest), Cons(RParen, []));
    case Member(b, m) => TwoLengths(b, Cons(Dot, Cons(Ident(m), rest)), Cons(Dot, Cons(Ident(m), [])));
    case Index(b, i) =>
      TwoLengths(i, Cons(RBracket, rest), Cons(RBracket, []));
      TwoLengths(b, Cons(LBracket, Spell(i, Cons(RBracket, rest))), Cons(LBracket, Spell(i, Cons(RBracket, []))));
    case Index2(_, _, _) => Index2Length(c, rest);
    case Step(e, d, prefix) =>
      if prefix { TwoLengths(e, rest, []); } else { TwoLengths(e, Cons(StepToken(d), rest), Cons(StepToken(d), [])); }
    case Unary(_, e) => TwoLengths(e, rest, []);
    case Binary(op, l, r) =>
      TwoLengths(r, rest, []);
      TwoLengths(l, Cons(Sym(op), Spell(r, rest)), Cons(Sym(op), Spell(r, [])));
    case Ternary(_, _, _) => TernaryLength(c, rest);
    case _ =>
  }

  lemma {:induction false} Index2Length(c: Expr, rest: Tokens)
    requires c.Index2?
    ensures |Spell(c, rest)| == Words(c) + |rest|
    decreases c, 0
  {
    var jr, je := Cons(LBracket, Spell(c.j, Cons(RBracket, rest))), Cons(LBracket, Spell(c.j, Cons(RBracket, [])));
    TwoLengths(c.j, Cons(RBracket, rest), Cons(RBracket, []));
    TwoLengths(c.i, Cons(RBracket, jr), Cons(RBracket, je));
    TwoLengths(c.base, Cons(LBracket, Spell(c.i, Cons(RBracket, jr))), Cons(LBracket, Spell(c.i, Cons(RBracket, je))));
  }

  lemma {:induction false} TernaryLength(c: Expr, rest: Tokens)
    requires c.Ternary?
    ensures |Spell(c, rest)| == Words(c) + |rest|
    decreases c, 0
  {
    var mr, me := Cons(Colon, Spell(c.els, rest)), Cons(Colon, Spell(c.els, []));
    TwoLengths(c.els, rest, []);
    TwoLengths(c.t, mr, me);
    TwoLengths(c.c, Cons(Question, Spell(c.t, mr)), Cons(Question, Spell(c.t, me)));
  }

  lemma {:induction false} TwoLengths(c: Expr, r1: Tokens, r2: Tokens)
    ensures |Spell(c, r1)| - |r1| == |Spell(c, r2)| - |r2| == Words(c)
    decreases c, 2
  {
    SpellLength(c, r1);
    SpellLength(c, r2);
  }

  lemma {:induction false} SpellAllLength(es: seq<Expr>, rest: Tokens)
    ensures |SpellAll(es, rest)| == WordsAll(es) + |rest|
    decreases es, 0
  {
    if |es| == 1 {
      SpellLength(es[0], rest);
    } else if |es| > 1 {
      SpellAllLength(es[1..], rest);
      TwoLengths(es[0], Cons(Comma, SpellAll(es[1..], rest)), Cons(Comma, SpellAll(es[1..], [])));
    }
  }

  /** Words of a composite, from those of its parts. */
  lemma WordsOf(c: Expr)
    ensures c.Call? ==> Words(c) == WordsAll(c.args) + 3
    ensures c.Group? ==> Words(c) == Words(c.e) + 2
    ensures c.Member? ==> Words(c) == Words(c.base) + 2
    ensures c.Index? ==> Words(c) == Words(c.base) + Words(c.i) + 2
    ensures c.Index2? ==> Words(c) == Words(c.base) + Words(c.i) + Words(c.j) + 4
    ensures c.Step? || c.Unary? ==> Words(c) == Words(c.e) + 1
    ensures c.Binary? ==> Words(c) == Words(c.l) + Words(c.r) + 1
    ensures c.Ternary? ==> Words(c) == Words(c.c) + Words(c.t) + Words(c.els) + 2
  {
    match c
    case Call(_, args) => SpellAllLength(args, Cons(RParen, []));
    case Group(e) => SpellLength(e, Cons(RParen, []));
    case Member(b, m) => SpellLength(b, Cons(Dot, Cons(Ident(m), [])));
    case Index(b, i) =>
      SpellLength(i, Cons(RBracket, []));
      SpellLength(b, Cons(LBracket, Spell(i, Cons(RBracket, []))));
    case Index2(b, i, j) =>
      var je := Cons(LBracket, Spell(j, Cons(RBracket, [])));
      SpellLength(j, Cons(RBracket, []));
      SpellLength(i, Cons(RBracket, je));
      SpellLength(b, Cons(LBracket, Spell(i, Cons(RBracket, je))));
    case Step(e, d, prefix) => if !prefix { SpellLength(e, Cons(StepToken(d), [])); }
    case Binary(op, l, r) => SpellLength(l, Cons(Sym(op), Spell(r, [])));
    case Ternary(a, t, f) =>
      SpellLength(t, Cons(Colon, Spell(f, [])));
      SpellLength(a, Cons(Question, Spell(t, Cons(Colon, Spell(f, [])))));
    case _ =>
  }

  /** No way to write a tree is shorter than the printed one. */
  lemma {:induction false} TidyIsShortest(c: Expr)
    requires Written(c)
    ensures Words(Tidy(Strip(c))) <= Words(c)
    decreases c, 1
  {
    match c
    case Call(_, args) =>
      TidyAllShortest(args);
      WordsOf(c);
      WordsOf(Tidy(Strip(c)));
    case Group(e) =>
      TidyIsShortest(e);
      WordsOf(c);
    case Index(_, _) => IndexShortest(c);
    case Index2(_, _, _) => IndexShortest(c);
    case Binary(_, _, _) => BinaryShortest(c);
    case Ternary(_, _, _) => TernaryShortest(c);
    case _ => OneOperandShortest(c);
  }

  lemma {:induction false} OneOperandShortest(c: Expr)
    requires Written(c) && (c.Lit? || c.Bool? || c.Var? || c.Member? || c.Step? || c.Unary?)
    ensures Words(Tidy(Strip(c))) <= Words(c)
    decreases c, 0
  {
    WordsOf(c);
    WordsOf(Tidy(Strip(c)));
    if c.Member? {
      StripFits(c.base);
      OperandShortest(c.base, IsPostfix(Tidy(Strip(c.base))));
    } else if c.Step? {
      TidyIsShortest(c.e);
    } else if c.Unary? {
      StripFits(c.e);
      OperandShortest(c.e, Level(Tidy(Strip(c.e))) == TIGHTEST);
    }
  }

  lemma {:induction false} IndexShortest(c: Expr)
    requires Written(c) && (c.Index? || c.Index2?)
    ensures Words(Tidy(Strip(c))) <= Words(c)
    decreases c, 0
  {
    var b := c.base;
    StripFits(b);
    OperandShortest(b, IsPostfix(Tidy(Strip(b))) && !Tidy(Strip(b)).Index?);
    TidyIsShortest(c.i);
    if c.Index2? { TidyIsShortest(c.j); }
    WordsOf(c);
    WordsOf(Tidy(Strip(c)));
  }

  lemma {:induction false} BinaryShortest(c: Expr)
    requires Written(c) && c.Binary?
    ensures Words(Tidy(Strip(c))) <= Words(c)
    decreases c, 0
  {
    var p := Precedence(Sym(c.sign));
    StripFits(c.l);
    StripFits(c.r);
    OperandShortest(c.l, p <= Level(Tidy(Strip(c.l))));
    OperandShortest(c.r, p < Level(Tidy(Strip(c.r))));
    WordsOf(c);
    WordsOf(Tidy(Strip(c)));
  }

  lemma {:induction false} TernaryShortest(c: Expr)
    requires Written(c) && c.Ternary?
    ensures Words(Tidy(Strip(c))) <= Words(c)
    decreases c, 0
  {
    StripFits(c.c);
    OperandShortest(c.c, Level(Tidy(Strip(c.c))) >= 0);
    TidyIsShortest(c.t);
    TidyIsShortest(c.els);
    WordsOf(c);
    WordsOf(Tidy(Strip(c)));
  }

  lemma StripFits(c: Expr)
    requires Written(c)
    ensures TidyFits(Strip(c))
  {
    StripTree(c);
    TidyWritten(Strip(c));
  }

  /** Unless an operand has its parentheses already, its place takes it bare. */
  lemma {:induction false} OperandShortest(c: Expr, bare: bool)
    requires Written(c)
    requires !c.Group? && Level(Strip(c)) == Level(c) && IsPostfix(Strip(c)) == IsPostfix(c) && Strip(c).Index? == c.Index? ==> bare
    ensures Words(Parenthesised(Tidy(Strip(c)), bare)) <= Words(c)
    decreases c, 2
  {
    WordsOf(c);
    WordsOf(Group(Tidy(Strip(c))));
    if c.Group? && !bare { TidyIsShortest(c.e); } else { TidyIsShortest(c); }
  }

  lemma {:induction false} TidyAllShortest(es: seq<Expr>)
    requires WrittenAll(es)
    ensures WordsAll(TidyAll(StripAll(es))) <= WordsAll(es)
    decreases es, 0
  {
    if es != [] {
      TidyIsShortest(es[0]);
      TidyAllShortest(es[1..]);
      WordsAllOf(es);
      WordsAllOf(TidyAll(StripAll(es)));
      assert StripAll(es)[1..] == StripAll(es[1..]);
      assert TidyAll(StripAll(es))[1..] == TidyAll(StripAll(es[1..]));
    }
  }

  lemma WordsAllOf(es: seq<Expr>)
    requires es != []
    ensures WordsAll(es) == Words(es[0]) + if |es| == 1 then 0 else 1 + WordsAll(es[1..])
  {
    if |es| > 1 { SpellLength(es[0], Cons(Comma, SpellAll(es[1..], []))); }
  }

  // ---- consequences ----

  /** Tokens have one reading. */
  lemma OneReading(c: Expr, c': Expr, rest: Tokens, rest': Tokens)
    requires Written(c) && Written(c') && Spell(c, rest) == Spell(c', rest') && Stops(c, rest) && Stops(c', rest')
    ensures Strip(c) == Strip(c') && rest == rest'
  {
    ExprParsed(c, rest);
    ExprParsed(c', rest');
  }

  /** Two operators in a row: the first goes first unless the second binds more tightly. */
  lemma TwoOperators(a: Expr, p: Sign, b: Expr, q: Sign, c: Expr, rest: Tokens)
    requires Written(a) && Written(b) && Written(c) && Level(a) == Level(b) == Level(c) == TIGHTEST
    requires Precedence(Sym(p)) >= 0 && Precedence(Sym(q)) >= 0 && Stops(c, rest)
    ensures
      var tree :=
        if Precedence(Sym(p)) >= Precedence(Sym(q)) then Binary(q, Binary(p, Strip(a), Strip(b)), Strip(c))
        else Binary(p, Strip(a), Binary(q, Strip(b), Strip(c)));
      ParseExpr(Spell(a, Cons(Sym(p), Spell(b, Cons(Sym(q), Spell(c, rest)))))) == Ok(tree, rest)
  {
    if Precedence(Sym(p)) >= Precedence(Sym(q)) { LeftFirst(a, p, b, q, c, rest); } else { RightFirst(a, p, b, q, c, rest); }
  }

  lemma LeftFirst(a: Expr, p: Sign, b: Expr, q: Sign, c: Expr, rest: Tokens)
    requires Written(a) && Written(b) && Written(c) && Level(a) == Level(b) == Level(c) == TIGHTEST
    requires Precedence(Sym(p)) >= Precedence(Sym(q)) >= 0 && Stops(c, rest)
    ensures ParseExpr(Spell(a, Cons(Sym(p), Spell(b, Cons(Sym(q), Spell(c, rest))))))
         == Ok(Binary(q, Binary(p, Strip(a), Strip(b)), Strip(c)), rest)
  {
    ExprParsed(Binary(q, Binary(p, a, b), c), rest);
  }

  lemma RightFirst(a: Expr, p: Sign, b: Expr, q: Sign, c: Expr, rest: Tokens)
    requires Written(a) && Written(b) && Written(c) && Level(a) == Level(b) == Level(c) == TIGHTEST
    requires 0 <= Precedence(Sym(p)) < Precedence(Sym(q)) && Stops(c, rest)
    ensures ParseExpr(Spell(a, Cons(Sym(p), Spell(b, Cons(Sym(q), Spell(c, rest))))))
         == Ok(Binary(p, Strip(a), Binary(q, Strip(b), Strip(c))), rest)
  {
    var right := Binary(q, b, c);
    assert Written(right) && EndsInVar(right) == EndsInVar(c);
    assert Strip(right) == Binary(q, Strip(b), Strip(c));
    assert Spell(right, rest) == Spell(b, Cons(Sym(q), Spell(c, rest)));
    ExprParsed(Binary(p, a, right), rest);
  }
}
