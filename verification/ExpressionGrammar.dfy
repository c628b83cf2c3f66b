/** Expressions, their tokens, and the grammar that precedence and associativity stand for. */
module ExpressionGrammar {
  datatype Sign =
    | OrOr | AndAnd | BitOr | BitXor | BitAnd
    | Less | LessEqual | Greater | GreaterEqual | Equal | NotEqual
    | ShiftLeft | ShiftRight | Plus | Minus | Multiply | Divide | Percent
    | Bang | Tilde

  /** Tokens an expression may hold; Other stands for the rest. Type keywords are not identifiers. */
  datatype Token =
    | Ident(name: string) | TypeName(name: string) | Num(text: string) | True | False
    | LParen | RParen | LBracket | RBracket | Dot | Comma | Question | Colon
    | Increment | Decrement | Sym(sign: Sign) | Other(kind: nat) | Eof

  /** Binding strength of a binary operator; -1 for what is none. */
  function Precedence(t: Token): int {
    match t
    case Sym(s) => (
      match s
      case OrOr => 5
      case AndAnd => 6
      case BitOr => 7
      case BitXor => 8
      case BitAnd => 9
      case Less | LessEqual | Greater | GreaterEqual | Equal | NotEqual => 10
      case ShiftLeft | ShiftRight => 15
      case Plus | Minus => 20
      case Multiply | Divide | Percent => 40
      case _ => -1)
    case _ => -1
  }

  predicate IsPrefixSign(s: Sign) {
    s.Minus? || s.Plus? || s.Bang? || s.Tilde?
  }

  datatype Callee = User(name: string) | BuiltIn(name: string)

  /** Expression trees. Group is a pair of parentheses: the parser drops it. */
  datatype Expr =
    | Lit(text: string)
    | Bool(b: bool)
    | Var(name: string)
    | Call(f: Callee, args: seq<Expr>)
    | Group(e: Expr)
    | Member(base: Expr, field: string)
    | Index(base: Expr, i: Expr)
    | Index2(base: Expr, i: Expr, j: Expr)
    | Step(e: Expr, dec: bool, prefix: bool)
    | Unary(op: Sign, e: Expr)
    | Binary(sign: Sign, l: Expr, r: Expr)
    | Ternary(c: Expr, t: Expr, els: Expr)

  type Tokens = seq<Token>

  function Cons(t: Token, ts: Tokens): (r: Tokens)
    ensures r != [] && r[0] == t && r[1..] == ts
  {
    [t] + ts
  }

  function Head(ts: Tokens): Token {
    if ts == [] then Eof else ts[0]
  }

  // ---- the grammar ----

  const TIGHTEST := 41

  /** How tightly an expression holds together: 41 for anything a prefix operator may stand before. */
  function Level(c: Expr): int {
    match c
    case Ternary(_, _, _) => -1
    case Binary(op, _, _) => Precedence(Sym(op))
    case _ => TIGHTEST
  }

  /** Primaries with their postfix operators. */
  predicate IsPostfix(c: Expr) {
    match c
    case Lit(_) | Bool(_) | Var(_) | Call(_, _) | Group(_) | Member(_, _) | Index(_, _) | Index2(_, _, _) => true
    case Step(_, _, prefix) => !prefix
    case _ => false
  }

  predicate Assignable(e: Expr) {
    e.Var? || e.Member? || e.Index? || e.Index2?
  }

  /** A written expression: every operand is one its place allows without further parentheses. The operators are
      left-associative, a conditional's arms are open to the right, and `++` wants something assignable. */
  predicate Written(c: Expr)
    decreases c, 1
  {
    match c
    case Lit(_) | Bool(_) | Var(_) => true
    case Call(_, args) => WrittenAll(args)
    case Group(e) => Written(e)
    case Member(b, _) => Written(b) && IsPostfix(b)
    case Index(b, i) => Written(b) && IsPostfix(b) && !b.Index? && Written(i)
    case Index2(b, i, j) => Written(b) && IsPostfix(b) && !b.Index? && Written(i) && Written(j)
    case Step(e, _, prefix) => Written(e) && Assignable(Strip(e)) && if prefix then Level(e) == TIGHTEST else IsPostfix(e)
    case Unary(op, e) => IsPrefixSign(op) && Written(e) && Level(e) == TIGHTEST
    case Binary(op, l, r) =>
      0 <= Precedence(Sym(op)) <= Level(l) && Written(l) && Written(r) && Precedence(Sym(op)) < Level(r)
    case Ternary(c, t, f) => Written(c) && Level(c) >= 0 && Written(t) && Written(f)
  }

  predicate WrittenAll(es: seq<Expr>)
    decreases es, 0
  {
    es == [] || (Written(es[0]) && WrittenAll(es[1..]))
  }

  /** The tree of a written expression: without parentheses. */
  function Strip(c: Expr): Expr
    decreases c, 1
  {
    match c
    case Call(f, args) => Call(f, StripAll(args))
    case Group(e) => Strip(e)
    case Member(b, m) => Member(Strip(b), m)
    case Index(b, i) => Index(Strip(b), Strip(i))
    case Index2(b, i, j) => Index2(Strip(b), Strip(i), Strip(j))
    case Step(e, d, p) => Step(Strip(e), d, p)
    case Unary(op, e) => Unary(op, Strip(e))
    case Binary(op, l, r) => Binary(op, Strip(l), Strip(r))
    case Ternary(c, t, f) => Ternary(Strip(c), Strip(t), Strip(f))
    case _ => c
  }

  function StripAll(es: seq<Expr>): (r: seq<Expr>)
    ensures |r| == |es|
    decreases es, 0
  {
    if es == [] then [] else [Strip(es[0])] + StripAll(es[1..])
  }

  function StepToken(dec: bool): Token {
    if dec then Decrement else Increment
  }

  /** The tokens of an expression, before those of `rest`. */
  function Spell(c: Expr, rest: Tokens): Tokens
    decreases c, 1
  {
    match c
    case Lit(n) => Cons(Num(n), rest)
    case Bool(b) => Cons(if b then True else False, rest)
    case Var(x) => Cons(Ident(x), rest)
    case Call(f, args) =>
      Cons(if f.User? then Ident(f.name) else TypeName(f.name), Cons(LParen, SpellAll(args, Cons(RParen, rest))))
    case Group(e) => Cons(LParen, Spell(e, Cons(RParen, rest)))
    case Member(b, m) => Spell(b, Cons(Dot, Cons(Ident(m), rest)))
    case Index(b, i) => Spell(b, Cons(LBracket, Spell(i, Cons(RBracket, rest))))
    case Index2(b, i, j) =>
      Spell(b, Cons(LBracket, Spell(i, Cons(RBracket, Cons(LBracket, Spell(j, Cons(RBracket, rest)))))))
    case Step(e, d, prefix) => if prefix then Cons(StepToken(d), Spell(e, rest)) else Spell(e, Cons(StepToken(d), rest))
    case Unary(op, e) => Cons(Sym(op), Spell(e, rest))
    case Binary(op, l, r) => Spell(l, Cons(Sym(op), Spell(r, rest)))
    case Ternary(c, t, f) => Spell(c, Cons(Question, Spell(t, Cons(Colon, Spell(f, rest)))))
  }

  /** Arguments, separated by commas. */
  function SpellAll(es: seq<Expr>, rest: Tokens): Tokens
    decreases es, 0
  {
    if es == [] then rest
    else if |es| == 1 then Spell(es[0], rest)
    else Spell(es[0], Cons(Comma, SpellAll(es[1..], rest)))
  }

  /** The expression's last word is a plain variable, which a parenthesis would turn into a call. */
  predicate EndsInVar(c: Expr) {
    match c
    case Var(_) => true
    case Step(e, _, prefix) => prefix && EndsInVar(e)
    case Unary(_, e) => EndsInVar(e)
    case Binary(_, _, r) => EndsInVar(r)
    case Ternary(_, _, f) => EndsInVar(f)
    case _ => false
  }

  /** `rest` does not extend the last operand of `c`. */
  predicate OperandStops(c: Expr, rest: Tokens) {
    var t := Head(rest);
    t != Dot && t != LBracket && t != Increment && t != Decrement && (EndsInVar(c) ==> t != LParen)
  }

  /** `rest` does not extend `c`. */
  predicate Stops(c: Expr, rest: Tokens) {
    OperandStops(c, rest) && Precedence(Head(rest)) < 0 && Head(rest) != Question
  }

  // ---- printing ----

  function Parenthesised(c: Expr, bare: bool): Expr {
    if bare then c else Group(c)
  }

  /** The written form with only the parentheses that precedence and associativity need. */
  function Tidy(e: Expr): Expr
    decreases e, 1
  {
    match e
    case Call(f, args) => Call(f, TidyAll(args))
    case Group(x) => Tidy(x)
    case Member(b, m) => Member(Parenthesised(Tidy(b), IsPostfix(Tidy(b))), m)
    case Index(b, i) => Index(Parenthesised(Tidy(b), IsPostfix(Tidy(b)) && !Tidy(b).Index?), Tidy(i))
    case Index2(b, i, j) => Index2(Parenthesised(Tidy(b), IsPostfix(Tidy(b)) && !Tidy(b).Index?), Tidy(i), Tidy(j))
    case Step(x, d, prefix) => Step(Tidy(x), d, prefix)
    case Unary(op, x) => Unary(op, Parenthesised(Tidy(x), Level(Tidy(x)) == TIGHTEST))
    case Binary(op, l, r) =>
      var p := Precedence(Sym(op));
      Binary(op, Parenthesised(Tidy(l), p <= Level(Tidy(l))), Parenthesised(Tidy(r), p < Level(Tidy(r))))
    case Ternary(c, t, f) => Ternary(Parenthesised(Tidy(c), Level(Tidy(c)) >= 0), Tidy(t), Tidy(f))
    case _ => e
  }

  function TidyAll(es: seq<Expr>): (r: seq<Expr>)
    ensures |r| == |es|
    decreases es, 0
  {
    if es == [] then [] else [Tidy(es[0])] + TidyAll(es[1..])
  }

  /** What the parser can build: no parentheses, real operators, and something assignable under `++`. */
  predicate Tree(e: Expr)
    decreases e, 1
  {
    match e
    case Lit(_) | Bool(_) | Var(_) => true
    case Call(_, args) => TreeAll(args)
    case Group(_) => false
    case Member(b, _) => Tree(b)
    case Index(b, i) => Tree(b) && Tree(i)
    case Index2(b, i, j) => Tree(b) && Tree(i) && Tree(j)
    case Step(x, _, _) => Tree(x) && Assignable(x)
    case Unary(op, x) => IsPrefixSign(op) && Tree(x)
    case Binary(op, l, r) => Precedence(Sym(op)) >= 0 && Tree(l) && Tree(r)
    case Ternary(c, t, f) => Tree(c) && Tree(t) && Tree(f)
  }

  predicate TreeAll(es: seq<Expr>)
    decreases es, 0
  {
    es == [] || (Tree(es[0]) && TreeAll(es[1..]))
  }
}
