/** The parser as it runs: a window of two tokens that slides over the input, and a count of errors. */
module ExpressionParser {
  import opened ExpressionGrammar
  import opened ExpressionParsing
  import opened ParserTheorems

  const MAX_ERRORS := 20

  /** The result of a parse method: Null after an error. */
  datatype Result = Null | Node(e: Expr)

  /** A method did what `r` says: it delivered the tree and left `r.rest` ahead, or reported one error. */
  ghost predicate Delivers(r: Parsed, node: Result, ahead: Tokens, errorsBefore: nat, errors: nat) {
    match r
    case Ok(e, rest) => node == Node(e) && ahead == rest && errors == errorsBefore
    case Fail => node == Null && errors == CountError(errorsBefore)
  }

  /** Beyond the ceiling errors are no longer counted. */
  function CountError(n: nat): nat {
    if n <= MAX_ERRORS then n + 1 else n
  }

  /** Further arguments, behind those already read. */
  function After(args: seq<Expr>, r: ParsedAll): ParsedAll {
    if r.FailAll? then FailAll else OkAll(args + r.es, r.rest)
  }

  class Parser {
    var cur: Token
    var following: Token
    var unread: Tokens
    var errors: nat

    /** The end of the input repeats for ever. */
    ghost predicate Valid()
      reads this
    {
      (cur == Eof ==> following == Eof) && (following == Eof ==> unread == []) && Eof !in unread
    }

    /** The tokens ahead. */
    ghost function Ahead(): Tokens
      reads this
    {
      if cur == Eof then [] else if following == Eof then [cur] else [cur, following] + unread
    }

    constructor (source: Tokens)
      requires Eof !in source
      ensures Valid() && Ahead() == source && errors == 0
    {
      cur := Head(source);
      following := if |source| > 1 then source[1] else Eof;
      unread := if |source| > 2 then source[2..] else [];
      errors := 0;
    }

    method Next()
      requires Valid()
      modifies this
      ensures Valid() && Ahead() == (if old(Ahead()) == [] then [] else old(Ahead())[1..]) && errors == old(errors)
    {
      cur := following;
      following := Head(unread);
      unread := if unread == [] then [] else unread[1..];
    }

    method Error() returns (node: Result)
      requires Valid()
      modifies this
      ensures Valid() && Ahead() == old(Ahead()) && node == Null && errors == CountError(old(errors))
    {
      if errors <= MAX_ERRORS { errors := errors + 1; }
      node := Null;
    }

    method Expression() returns (node: Result)
      requires Valid()
      modifies this
      ensures Valid() && Delivers(ParseExpr(old(Ahead())), node, Ahead(), old(errors), errors)
      decreases |Ahead()|, 8
    {
      node := Operators();
      if node.Null? { return; }
      if cur == Question { node := TernaryTail(node.e); }
    }

    /** A unary expression, and the binary operators behind it. */
    method Operators() returns (node: Result)
      requires Valid()
      modifies this
      ensures Valid() && Delivers(ParseLevel(0, old(Ahead())), node, Ahead(), old(errors), errors)
      decreases |Ahead()|, 7
    {
      node := UnaryExpression();
      if node.Null? { return; }
      node := BinaryTail(0, node.e);
    }

    ghost function TernaryOf(c: Expr, ts: Tokens): Parsed {
      var t := ParseExpr(ts);
      if t.Fail? || Head(t.rest) != Colon then Fail
      else
        var f := ParseExpr(t.rest[1..]);
        if f.Fail? then Fail else Ok(Ternary(c, t.e, f.e), f.rest)
    }

    method TernaryTail(c: Expr) returns (node: Result)
      requires Valid() && cur == Question
      modifies this
      ensures Valid() && Delivers(TernaryOf(c, old(Ahead())[1..]), node, Ahead(), old(errors), errors)
      decreases |Ahead()|, 0
    {
      Next();
      var t := Expression();
      if t.Null? { return Null; }
      if cur != Colon { node := Error(); return; }
      Next();
      var f := Expression();
      if f.Null? { return Null; }
      node := Node(Ternary(c, t.e, f.e));
    }

    /** Operators of precedence `p` or more; `left` grows with each of them. */
    method BinaryTail(p: nat, left: Expr) returns (node: Result)
      requires Valid()
      modifies this
      ensures Valid() && Delivers(ParseBinary(p, left, old(Ahead())), node, Ahead(), old(errors), errors)
      decreases |Ahead()|, 1
    {
      var lhs := left;
      while Precedence(cur) >= p
        invariant Valid() && errors == old(errors) && |Ahead()| <= |old(Ahead())|
        invariant ParseBinary(p, lhs, Ahead()) == ParseBinary(p, left, old(Ahead()))
        decreases |Ahead()|
      {
        var op := cur.sign;
        var q := Precedence(cur);
        Next();
        var rhs := UnaryExpression();
        if rhs.Null? { return Null; }
        if q < Precedence(cur) {
          rhs := BinaryTail(q + 1, rhs.e);
          if rhs.Null? { return Null; }
        }
        lhs := Binary(op, lhs, rhs.e);
      }
      node := Node(lhs);
    }

    method UnaryExpression() returns (node: Result)
      requires Valid()
      modifies this
      ensures Valid() && Delivers(ParseUnary(old(Ahead())), node, Ahead(), old(errors), errors)
      decreases |Ahead()|, 6
    {
      if cur == Increment || cur == Decrement {
        node := PrefixStep();
      } else if cur.Sym? && IsPrefixSign(cur.sign) {
        var op := cur.sign;
        Next();
        node := UnaryExpression();
        if node.Null? { return; }
        node := Node(Unary(op, node.e));
      } else {
        node := Primary();
      }
    }

    method PrefixStep() returns (node: Result)
      requires Valid() && (cur == Increment || cur == Decrement)
      modifies this
      ensures Valid() && Delivers(ParseStep(old(Ahead()), old(cur) == Decrement), node, Ahead(), old(errors), errors)
      decreases |Ahead()|, 5
    {
      var dec := cur == Decrement;
      Next();
      node := UnaryExpression();
      if node.Null? { return; }
      if !Assignable(node.e) { node := Error(); return; }
      node := Node(Step(node.e, dec, true));
    }

    method Primary() returns (node: Result)
      requires Valid()
      modifies this
      ensures Valid() && Delivers(ParsePrimary(old(Ahead())), node, Ahead(), old(errors), errors)
      decreases |Ahead()|, 4
    {
      node := Atom();
      if node.Null? { return; }
      node := PostfixTail(node.e);
    }

    method Atom() returns (node: Result)
      requires Valid()
      modifies this
      ensures Valid() && Delivers(ParseAtom(old(Ahead())), node, Ahead(), old(errors), errors)
      decreases |Ahead()|, 3
    {
      match cur
      case Ident(_) => node := IdentifierOrCall();
      case TypeName(_) => node := IdentifierOrCall();
      case Num(n) =>
        Next();
        node := Node(Lit(n));
      case LParen => node := Parentheses();
      case True =>
        Next();
        node := Node(Bool(true));
      case False =>
        Next();
        node := Node(Bool(false));
      case _ => node := Error();
    }

    method Parentheses() returns (node: Result)
      requires Valid() && cur == LParen
      modifies this
      ensures Valid() && Delivers(ParseAtom(old(Ahead())), node, Ahead(), old(errors), errors)
      decreases |Ahead()|, 2
    {
      Next();
      node := Expression();
      if node.Null? { return; }
      if cur != RParen { node := Error(); return; }
      Next();
    }

    method IdentifierOrCall() returns (node: Result)
      requires Valid() && (cur.Ident? || cur.TypeName?)
      modifies this
      ensures Valid() && Delivers(ParseAtom(old(Ahead())), node, Ahead(), old(errors), errors)
      decreases |Ahead()|, 2
    {
      var name := cur;
      Next();
      if cur != LParen {
        if name.TypeName? { node := Error(); } else { node := Node(Var(name.name)); }
        return;
      }
      Next();
      node := Arguments(if name.Ident? then User(name.name) else BuiltIn(name.name));
    }

    method Arguments(f: Callee) returns (node: Result)
      requires Valid()
      modifies this
      ensures Valid() && Delivers(ParseCall(f, old(Ahead())), node, Ahead(), old(errors), errors)
      decreases |Ahead()|, 10
    {
      var args := [];
      if cur != RParen {
        while true
          invariant Valid() && errors == old(errors) && |Ahead()| <= |old(Ahead())|
          invariant After(args, ParseArgs(Ahead())) == ParseArgs(old(Ahead()))
          decreases |Ahead()|
        {
          ghost var ts, read := Ahead(), args;
          var arg := Expression();
          if arg.Null? { return Null; }
          args := args + [arg.e];
          if cur == RParen { break; }
          if cur != Comma { node := Error(); return; }
          Next();
          ArgumentRead(ts, read);
        }
      }
      Next();
      node := Node(Call(f, args));
    }

    lemma ArgumentRead(ts: Tokens, args: seq<Expr>)
      requires ParseExpr(ts).Ok? && Head(ParseExpr(ts).rest) == Comma
      ensures After(args, ParseArgs(ts)) == After(args + [ParseExpr(ts).e], ParseArgs(ParseExpr(ts).rest[1..]))
    {
      var more := ParseArgs(ParseExpr(ts).rest[1..]);
      if more.OkAll? { assert args + ([ParseExpr(ts).e] + more.es) == args + [ParseExpr(ts).e] + more.es; }
    }

    method BracketIndex() returns (node: Result)
      requires Valid() && cur == LBracket
      modifies this
      ensures Valid() && Delivers(ParseIndex(old(Ahead())[1..]), node, Ahead(), old(errors), errors)
      decreases |Ahead()|, 0
    {
      Next();
      node := Expression();
      if node.Null? { return; }
      if cur != RBracket { node := Error(); return; }
      Next();
    }

    /** Member accesses, indices and steps; `base` grows with each of them. */
    method PostfixTail(first: Expr) returns (node: Result)
      requires Valid()
      modifies this
      ensures Valid() && Delivers(ParsePostfix(first, old(Ahead())), node, Ahead(), old(errors), errors)
      decreases |Ahead()|, 2
    {
      var base := first;
      while true
        invariant Valid() && errors == old(errors) && |Ahead()| <= |old(Ahead())|
        invariant ParsePostfix(base, Ahead()) == ParsePostfix(first, old(Ahead()))
        decreases |Ahead()|
      {
        if cur == Dot {
          Next();
          if !cur.Ident? { node := Error(); return; }
          base := Member(base, cur.name);
          Next();
        } else if cur == LBracket {
          var indexed := Indices(base);
          if indexed.Null? { return Null; }
          base := indexed.e;
        } else if cur == Increment || cur == Decrement {
          var dec := cur == Decrement;
          Next();
          if !Assignable(base) { node := Error(); return; }
          base := Step(base, dec, false);
        } else {
          break;
        }
      }
      node := Node(base);
    }

    ghost function IndicesOf(base: Expr, ts: Tokens): (r: Parsed)
      requires Head(ts) == LBracket
      ensures r.Ok? ==> |r.rest| < |ts|
    {
      var i := ParseIndex(ts[1..]);
      if i.Fail? then Fail
      else if Head(i.rest) != LBracket then Ok(Index(base, i.e), i.rest)
      else
        var j := ParseIndex(i.rest[1..]);
        if j.Fail? then Fail else Ok(Index2(base, i.e, j.e), j.rest)
    }

    method Indices(base: Expr) returns (node: Result)
      requires Valid() && cur == LBracket
      modifies this
      ensures Valid() && Delivers(IndicesOf(base, old(Ahead())), node, Ahead(), old(errors), errors)
      decreases |Ahead()|, 1
    {
      var i := BracketIndex();
      if i.Null? { return Null; }
      if cur == LBracket {
        var j := BracketIndex();
        if j.Null? { return Null; }
        node := Node(Index2(base, i.e, j.e));
      } else {
        node := Node(Index(base, i.e));
      }
    }
  }

  /** A printed expression is read back, whatever it is followed by, and no error is reported. */
  method ReadBack(e: Expr, rest: Tokens) returns (node: Result, reported: nat)
    requires Tree(e) && Stops(Tidy(e), rest) && Eof !in Spell(Tidy(e), rest)
    ensures node == Node(e) && reported == 0
  {
    PrintThenParse(e, rest);
    var parser := new Parser(Spell(Tidy(e), rest));
    node := parser.Expression();
    reported := parser.errors;
  }
}
