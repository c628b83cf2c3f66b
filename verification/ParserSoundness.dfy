/** Whatever the parser accepts is a written expression of the grammar, read from exactly the tokens consumed. */
module ParserSoundness {
  import opened ExpressionGrammar
  import opened ExpressionParsing
  import opened ParserCompleteness

  /** `c` is written at the front of `ts`, its tree is `e`, and `rest` follows. */
  ghost predicate Reads(ts: Tokens, c: Expr, r: Parsed) {
    r.Ok? && Written(c) && Strip(c) == r.e && Spell(c, r.rest) == ts
  }

  lemma {:induction false} ExprRead(ts: Tokens) returns (c: Expr)
    requires ParseExpr(ts).Ok?
    ensures Reads(ts, c, ParseExpr(ts)) && Stops(c, ParseExpr(ts).rest)
    decreases |ts|, 5
  {
    var a := ParseLevel(0, ts);
    c := LevelRead(0, ts);
    if Head(a.rest) == Question { c := TernaryRead(ts, c); }
  }

  lemma {:induction false} TernaryRead(ts: Tokens, cond: Expr) returns (c: Expr)
    requires ParseExpr(ts).Ok? && Reads(ts, cond, ParseLevel(0, ts)) && Level(cond) >= 0
    requires Head(ParseLevel(0, ts).rest) == Question
    ensures Reads(ts, c, ParseExpr(ts)) && Stops(c, ParseExpr(ts).rest)
    decreases |ts|, 4
  {
    var a := ParseLevel(0, ts);
    TernaryShape(ts);
    var t := ParseExpr(a.rest[1..]);
    var f := ParseExpr(t.rest[1..]);
    var ct := ExprRead(a.rest[1..]);
    var cf := ExprRead(t.rest[1..]);
    c := Ternary(cond, ct, cf);
    HeadTail(a.rest, Question);
    HeadTail(t.rest, Colon);
    TernaryReads(cond, ct, cf, f.rest);
  }

  /** What has been parsed when a conditional has. */
  lemma TernaryShape(ts: Tokens)
    requires ParseExpr(ts).Ok? && ParseLevel(0, ts).Ok? && Head(ParseLevel(0, ts).rest) == Question
    ensures
      var a := ParseLevel(0, ts);
      var t := ParseExpr(a.rest[1..]);
      && t.Ok? && Head(t.rest) == Colon && ParseExpr(t.rest[1..]).Ok?
      && ParseExpr(ts) == Ok(Ternary(a.e, t.e, ParseExpr(t.rest[1..]).e), ParseExpr(t.rest[1..]).rest)
  {
  }

  lemma TernaryReads(cond: Expr, ct: Expr, cf: Expr, rest: Tokens)
    requires Written(cond) && Level(cond) >= 0 && Written(ct) && Written(cf) && Stops(cf, rest)
    ensures Written(Ternary(cond, ct, cf)) && Strip(Ternary(cond, ct, cf)) == Ternary(Strip(cond), Strip(ct), Strip(cf))
    ensures Spell(Ternary(cond, ct, cf), rest) == Spell(cond, Cons(Question, Spell(ct, Cons(Colon, Spell(cf, rest)))))
    ensures Stops(Ternary(cond, ct, cf), rest)
  {
  }

  lemma HeadTail(ts: Tokens, t: Token)
    requires Head(ts) == t && t != Eof
    ensures ts == Cons(t, ts[1..])
  {
  }

  lemma {:induction false} LevelRead(p: nat, ts: Tokens) returns (c: Expr)
    requires ParseLevel(p, ts).Ok? && p <= TIGHTEST
    ensures Reads(ts, c, ParseLevel(p, ts)) && Level(c) >= p
    ensures OperandStops(c, ParseLevel(p, ts).rest) && Precedence(Head(ParseLevel(p, ts).rest)) < p
    decreases |ts|, 4
  {
    var u := UnaryRead(ts);
    c := BinaryRead(p, u, ParseUnary(ts).rest);
  }

  /** `cl` has been read, and `ts` goes on. */
  lemma {:induction false} BinaryRead(p: nat, cl: Expr, ts: Tokens) returns (c: Expr)
    requires Written(cl) && Level(cl) >= p && OperandStops(cl, ts) && Precedence(Head(ts)) <= Level(cl)
    requires ParseBinary(p, Strip(cl), ts).Ok?
    ensures Reads(Spell(cl, ts), c, ParseBinary(p, Strip(cl), ts)) && Level(c) >= p
    ensures
      var rest := ParseBinary(p, Strip(cl), ts).rest;
      OperandStops(c, rest) && Precedence(Head(rest)) < p
    decreases |ts|, 0
  {
    var q := Precedence(Head(ts));
    if q < p {
      c := cl;
    } else {
      BinaryStep(p, Strip(cl), ts);
      var rhs := ParseLevel(q + 1, ts[1..]);
      var cr := LevelRead(q + 1, ts[1..]);
      HeadTail(ts, ts[0]);
      c := BinaryRead(p, Binary(ts[0].sign, cl, cr), rhs.rest);
    }
  }

  lemma {:induction false} UnaryRead(ts: Tokens) returns (c: Expr)
    requires ParseUnary(ts).Ok?
    ensures Reads(ts, c, ParseUnary(ts)) && Level(c) == TIGHTEST && OperandStops(c, ParseUnary(ts).rest)
    decreases |ts|, 3, 1
  {
    var t := Head(ts);
    if t == Increment || t == Decrement {
      c := StepPrefixRead(ts);
    } else if t.Sym? && IsPrefixSign(t.sign) {
      c := SignRead(ts);
    } else {
      c := PrimaryRead(ts);
    }
  }

  lemma {:induction false} SignRead(ts: Tokens) returns (c: Expr)
    requires ParseUnary(ts).Ok? && Head(ts).Sym? && IsPrefixSign(Head(ts).sign)
    ensures Reads(ts, c, ParseUnary(ts)) && Level(c) == TIGHTEST && OperandStops(c, ParseUnary(ts).rest)
    decreases |ts|, 3, 0
  {
    var u := UnaryRead(ts[1..]);
    HeadTail(ts, Head(ts));
    c := Unary(Head(ts).sign, u);
  }

  lemma {:induction false} StepPrefixRead(ts: Tokens) returns (c: Expr)
    requires ParseUnary(ts).Ok? && (Head(ts) == Increment || Head(ts) == Decrement)
    ensures Reads(ts, c, ParseUnary(ts)) && Level(c) == TIGHTEST && OperandStops(c, ParseUnary(ts).rest)
    decreases |ts|, 3, 0
  {
    var t := Head(ts);
    var u := UnaryRead(ts[1..]);
    HeadTail(ts, t);
    c := Step(u, t == Decrement, true);
  }

  lemma {:induction false} PrimaryRead(ts: Tokens) returns (c: Expr)
    requires ParsePrimary(ts).Ok?
    ensures Reads(ts, c, ParsePrimary(ts)) && Level(c) == TIGHTEST && OperandStops(c, ParsePrimary(ts).rest)
    decreases |ts|, 3, 0
  {
    var a := AtomRead(ts);
    c := PostfixRead(a, ParseAtom(ts).rest);
  }

  lemma {:induction false} PostfixRead(b: Expr, ts: Tokens) returns (c: Expr)
    requires Written(b) && IsPostfix(b) && PostfixStops(b, ts) && ParsePostfix(Strip(b), ts).Ok?
    ensures Reads(Spell(b, ts), c, ParsePostfix(Strip(b), ts))
    ensures IsPostfix(c) && OperandStops(c, ParsePostfix(Strip(b), ts).rest)
    decreases |ts|, 2
  {
    var t := Head(ts);
    if t == Dot {
      c := DotRead(b, ts);
    } else if t == LBracket {
      c := BracketRead(b, ts);
    } else if t == Increment || t == Decrement {
      HeadTail(ts, t);
      c := PostfixRead(Step(b, t == Decrement, false), ts[1..]);
    } else {
      c := b;
    }
  }

  lemma {:induction false} DotRead(b: Expr, ts: Tokens) returns (c: Expr)
    requires Written(b) && IsPostfix(b) && PostfixStops(b, ts) && ParsePostfix(Strip(b), ts).Ok? && Head(ts) == Dot
    ensures Reads(Spell(b, ts), c, ParsePostfix(Strip(b), ts))
    ensures IsPostfix(c) && OperandStops(c, ParsePostfix(Strip(b), ts).rest)
    decreases |ts|, 1
  {
    HeadTail(ts, Dot);
    HeadTail(ts[1..], ts[1]);
    c := PostfixRead(Member(b, ts[1].name), ts[2..]);
  }

  lemma {:induction false} BracketRead(b: Expr, ts: Tokens) returns (c: Expr)
    requires Written(b) && IsPostfix(b) && PostfixStops(b, ts) && ParsePostfix(Strip(b), ts).Ok? && Head(ts) == LBracket
    ensures Reads(Spell(b, ts), c, ParsePostfix(Strip(b), ts))
    ensures IsPostfix(c) && OperandStops(c, ParsePostfix(Strip(b), ts).rest)
    decreases |ts|, 1
  {
    HeadTail(ts, LBracket);
    var i := ParseIndex(ts[1..]);
    var ci := IndexRead(ts[1..]);
    if Head(i.rest) != LBracket {
      c := PostfixRead(Index(b, ci), i.rest);
    } else {
      c := SecondRead(b, ts, ci);
    }
  }

  /** A second index, joined with the first. */
  lemma {:induction false} SecondRead(b: Expr, ts: Tokens, ci: Expr) returns (c: Expr)
    requires Written(b) && IsPostfix(b) && PostfixStops(b, ts) && ParsePostfix(Strip(b), ts).Ok? && Head(ts) == LBracket
    requires ParseIndex(ts[1..]).Ok? && Head(ParseIndex(ts[1..]).rest) == LBracket && ts == Cons(LBracket, ts[1..])
    requires Written(ci) && Strip(ci) == ParseIndex(ts[1..]).e
    requires Spell(ci, Cons(RBracket, ParseIndex(ts[1..]).rest)) == ts[1..]
    ensures Reads(Spell(b, ts), c, ParsePostfix(Strip(b), ts))
    ensures IsPostfix(c) && OperandStops(c, ParsePostfix(Strip(b), ts).rest)
    decreases |ts|, 0
  {
    var rest := ParseIndex(ts[1..]).rest;
    IndicesShape(Strip(b), ts);
    HeadTail(rest, LBracket);
    var cj := IndexRead(rest[1..]);
    IndicesReads(b, ci, cj, ParseIndex(rest[1..]).rest);
    c := PostfixRead(Index2(b, ci, cj), ParseIndex(rest[1..]).rest);
  }

  /** What has been parsed when a second index follows the first. */
  lemma IndicesShape(base: Expr, ts: Tokens)
    requires ParsePostfix(base, ts).Ok? && Head(ts) == LBracket
    requires ParseIndex(ts[1..]).Ok? && Head(ParseIndex(ts[1..]).rest) == LBracket
    ensures
      var i := ParseIndex(ts[1..]);
      var j := ParseIndex(i.rest[1..]);
      j.Ok? && ParsePostfix(base, ts) == ParsePostfix(Index2(base, i.e, j.e), j.rest)
  {
  }

  lemma IndicesReads(b: Expr, ci: Expr, cj: Expr, rest: Tokens)
    requires Written(b) && IsPostfix(b) && !b.Index? && Written(ci) && Written(cj)
    ensures Written(Index2(b, ci, cj)) && Strip(Index2(b, ci, cj)) == Index2(Strip(b), Strip(ci), Strip(cj))
    ensures
      Spell(Index2(b, ci, cj), rest)
      == Spell(b, Cons(LBracket, Spell(ci, Cons(RBracket, Cons(LBracket, Spell(cj, Cons(RBracket, rest)))))))
  {
  }

  lemma {:induction false} IndexRead(ts: Tokens) returns (c: Expr)
    requires ParseIndex(ts).Ok?
    ensures Written(c) && Strip(c) == ParseIndex(ts).e && Spell(c, Cons(RBracket, ParseIndex(ts).rest)) == ts
    decreases |ts|, 6
  {
    c := ExprRead(ts);
    HeadTail(ParseExpr(ts).rest, RBracket);
  }

  lemma {:induction false} AtomRead(ts: Tokens) returns (c: Expr)
    requires ParseAtom(ts).Ok?
    ensures Reads(ts, c, ParseAtom(ts)) && IsPostfix(c) && PostfixStops(c, ParseAtom(ts).rest)
    decreases |ts|, 1
  {
    var t := Head(ts);
    HeadTail(ts, t);
    if t == LParen {
      c := ExprRead(ts[1..]);
      HeadTail(ParseExpr(ts[1..]).rest, RParen);
      c := Group(c);
    } else if (t.Ident? || t.TypeName?) && Head(ts[1..]) == LParen {
      HeadTail(ts[1..], LParen);
      c := CallRead(if t.Ident? then User(t.name) else BuiltIn(t.name), ts[2..]);
    } else {
      c := ParseAtom(ts).e;
    }
  }

  lemma {:induction false} CallRead(f: Callee, ts: Tokens) returns (c: Expr)
    requires ParseCall(f, ts).Ok?
    ensures c.Call? && c.f == f && Written(c) && Strip(c) == ParseCall(f, ts).e
    ensures SpellAll(c.args, Cons(RParen, ParseCall(f, ts).rest)) == ts
    decreases |ts|, 7
  {
    if Head(ts) == RParen {
      HeadTail(ts, RParen);
      c := Call(f, []);
    } else {
      var args := ArgsRead(ts);
      c := Call(f, args);
    }
  }

  lemma {:induction false} ArgsRead(ts: Tokens) returns (args: seq<Expr>)
    requires ParseArgs(ts).OkAll?
    ensures args != [] && WrittenAll(args) && StripAll(args) == ParseArgs(ts).es
    ensures SpellAll(args, Cons(RParen, ParseArgs(ts).rest)) == ts
    decreases |ts|, 6
  {
    var a := ParseExpr(ts);
    var c := ExprRead(ts);
    HeadTail(a.rest, Head(a.rest));
    if Head(a.rest) == RParen {
      args := [c];
    } else {
      var more := ArgsRead(a.rest[1..]);
      args := [c] + more;
    }
  }
}
