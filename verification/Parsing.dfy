/**
 The recursive-descent parser of internal/dsl/expression.go.

 `Parse...` are functions on the tokens that are left; `ExpressionParser` is the object that
 moves `pos`, proved against them.  `ExpressionGrammar` (Grammar.dfy) says, independently of
 either, which texts are expressions and what they mean.
*/
module Parsing {
  import opened Wrappers
  import opened Texts
  import opened Values
  import opened Expressions

  datatype Kind = EndOfInput | Word | StringLiteral | NumberLiteral | BoolLiteral | Operator | LeftParen | RightParen | Comma

  datatype Token = Token(kind: Kind, text: string, value: Value)

  const EOF := Token(EndOfInput, "", Nil)

  function Peek(ts: seq<Token>): Token { if ts == [] then EOF else ts[0] }

  predicate IsWord(t: Token, word: string) { t.kind.Word? && EqualFold(t.text, word) }

  predicate IsLiteral(t: Token) { t.kind.StringLiteral? || t.kind.NumberLiteral? || t.kind.BoolLiteral? }

  predicate IsField(t: Token) { t.kind.Word? && FieldAllowed(t.text) }

  predicate NamesOperator(t: Token) { t.kind.Operator? || t.kind.Word? }

  const VALUE_OPERATORS: seq<string> := ["==", "!=", ">", ">=", "<", "<=", "contains", "starts_with", "ends_with"]

  predicate TakesValue(op: string) { IsAmong(op, VALUE_OPERATORS) }

  /** An expression and the tokens after it; `None` where the code reports an error. */
  type Parsed = Option<(Expr, seq<Token>)>

  function ParseOr(ts: seq<Token>): (r: Parsed)
    ensures r.Some? ==> |r.value.1| < |ts|
    decreases |ts|, 4
  {
    match ParseAnd(ts)
    case None => None
    case Some((left, rest)) => OrRest(left, rest)
  }

  /** The loop of `parseOr`, `left` being parsed. */
  function OrRest(left: Expr, ts: seq<Token>): (r: Parsed)
    ensures r.Some? ==> |r.value.1| <= |ts|
    decreases |ts|, 3
  {
    if IsWord(Peek(ts), "or") then
      match ParseAnd(ts[1..])
      case None => None
      case Some((right, rest)) => OrRest(Logical(Or, left, right), rest)
    else Some((left, ts))
  }

  function ParseAnd(ts: seq<Token>): (r: Parsed)
    ensures r.Some? ==> |r.value.1| < |ts|
    decreases |ts|, 2
  {
    match ParseUnary(ts)
    case None => None
    case Some((left, rest)) => AndRest(left, rest)
  }

  function AndRest(left: Expr, ts: seq<Token>): (r: Parsed)
    ensures r.Some? ==> |r.value.1| <= |ts|
    decreases |ts|, 1
  {
    if IsWord(Peek(ts), "and") then
      match ParseUnary(ts[1..])
      case None => None
      case Some((right, rest)) => AndRest(Logical(And, left, right), rest)
    else Some((left, ts))
  }

  function ParseUnary(ts: seq<Token>): (r: Parsed)
    ensures r.Some? ==> |r.value.1| < |ts|
    decreases |ts|, 0
  {
    if IsWord(Peek(ts), "not") then
      match ParseUnary(ts[1..])
      case None => None
      case Some((inner, rest)) => Some((Not(inner), rest))
    else if Peek(ts).kind.LeftParen? then
      match ParseOr(ts[1..])
      case None => None
      case Some((inner, rest)) => if Peek(rest).kind.RightParen? then Some((inner, rest[1..])) else None
    else ParsePredicate(ts)
  }

  function ParsePredicate(ts: seq<Token>): (r: Parsed)
    ensures r.Some? ==> |r.value.1| < |ts|
  {
    if |ts| < 2 || !IsField(ts[0]) || !NamesOperator(ts[1]) then None
    else ParseOperand(ts[0].text, ToLower(ts[1].text), ts[2..])
  }

  /** What follows a field and its operator. */
  function ParseOperand(field: string, op: string, ts: seq<Token>): (r: Parsed)
    ensures r.Some? ==> |r.value.1| <= |ts|
  {
    if op == "exists" then Some((Predicate(field, op, Nil), ts))
    else if op == "in" then
      if !Peek(ts).kind.LeftParen? || Peek(ts[1..]).kind.RightParen? then None else
      match ParseValues([], ts[1..])
      case None => None
      case Some((values, rest)) => Some((Predicate(field, op, List(values)), rest))
    else if TakesValue(op) && IsLiteral(Peek(ts)) then Some((Predicate(field, op, ts[0].value), ts[1..]))
    else None
  }

  /** The loop over an `in` list, `values` being parsed. */
  function ParseValues(values: seq<Value>, ts: seq<Token>): (r: Option<(seq<Value>, seq<Token>)>)
    ensures r.Some? ==> |r.value.1| < |ts|
    decreases |ts|
  {
    if Peek(ts).kind.RightParen? then Some((values, ts[1..]))
    else if !IsLiteral(Peek(ts)) then None
    else
      var values, rest := values + [ts[0].value], ts[1..];
      if Peek(rest).kind.Comma? then
        if Peek(rest[1..]).kind.RightParen? then None else ParseValues(values, rest[1..])
      else if Peek(rest).kind.RightParen? then ParseValues(values, rest)
      else None
  }

  /** `parseExpression` after the lexer. */
  function ParseExpression(ts: seq<Token>): Option<Expr> {
    match ParseOr(ts)
    case Some((e, rest)) => if Peek(rest).kind.EndOfInput? then Some(e) else None
    case None => None
  }

  /******* The object *******/

  class ExpressionParser {
    const tokens: seq<Token>
    var pos: nat

    constructor (tokens: seq<Token>)
      ensures this.tokens == tokens && pos == 0
    {
      this.tokens := tokens;
      pos := 0;
    }

    /** The tokens from `pos` on. */
    ghost function Left(): seq<Token>
      reads this
    {
      if pos <= |tokens| then tokens[pos..] else []
    }

    /** `r` and the position agree with what a parsing function says about position `start`. */
    ghost predicate Agrees(start: nat, spec: Parsed, r: Option<Expr>)
      reads this
    {
      && r.Some? == spec.Some?
      && (r.Some? ==> start < pos <= |tokens| && spec == Some((r.value, Left())))
    }

    function PeekToken(): (t: Token)
      reads this
      ensures t == Peek(Left())
    {
      if pos >= |tokens| then EOF else tokens[pos]
    }

    method MatchWord(word: string) returns (matched: bool)
      modifies this
      ensures matched == IsWord(Peek(old(Left())), word)
      ensures pos == old(pos) + if matched then 1 else 0
      ensures matched ==> pos <= |tokens| && Left() == old(Left())[1..]
    {
      matched := IsWord(PeekToken(), word);
      if matched {
        pos := pos + 1;
      }
    }

    method ParseOrAt() returns (r: Option<Expr>)
      requires pos <= |tokens|
      modifies this
      ensures Agrees(old(pos), ParseOr(old(Left())), r)
      decreases |tokens| - pos, 2
    {
      var left := ParseAndAt();
      if left.None? {
        return None;
      }
      while IsWord(PeekToken(), "or")
        invariant left.Some? && old(pos) < pos <= |tokens|
        invariant ParseOr(old(Left())) == OrRest(left.value, Left())
        decreases |tokens| - pos
      {
        ghost var before := Left();
        pos := pos + 1;
        assert Left() == before[1..];
        var right := ParseAndAt();
        if right.None? {
          return None;
        }
        left := Some(Logical(Or, left.value, right.value));
      }
      return left;
    }

    /** The same loop, one level down. */
    method ParseAndAt() returns (r: Option<Expr>)
      requires pos <= |tokens|
      modifies this
      ensures Agrees(old(pos), ParseAnd(old(Left())), r)
      decreases |tokens| - pos, 1
    {
      var left := ParseUnaryAt();
      if left.None? {
        return None;
      }
      while IsWord(PeekToken(), "and")
        invariant left.Some? && old(pos) < pos <= |tokens|
        invariant ParseAnd(old(Left())) == AndRest(left.value, Left())
        decreases |tokens| - pos
      {
        ghost var before := Left();
        pos := pos + 1;
        assert Left() == before[1..];
        var right := ParseUnaryAt();
        if right.None? {
          return None;
        }
        left := Some(Logical(And, left.value, right.value));
      }
      return left;
    }

    method ParseUnaryAt() returns (r: Option<Expr>)
      requires pos <= |tokens|
      modifies this
      ensures Agrees(old(pos), ParseUnary(old(Left())), r)
      decreases |tokens| - pos, 0
    {
      var negated := MatchWord("not");
      if negated {
        var inner := ParseUnaryAt();
        if inner.None? {
          return None;
        }
        return Some(Not(inner.value));
      }
      if PeekToken().kind.LeftParen? {
        pos := pos + 1;
        assert Left() == old(Left())[1..];
        var inner := ParseOrAt();
        if inner.None? || !PeekToken().kind.RightParen? {
          return None;
        }
        ghost var rest := Left();
        pos := pos + 1;
        assert Left() == rest[1..];
        return inner;
      }
      r := ParsePredicateAt();
    }

    method ParsePredicateAt() returns (r: Option<Expr>)
      requires pos <= |tokens|
      modifies this
      ensures Agrees(old(pos), ParsePredicate(old(Left())), r)
    {
      var field := PeekToken();
      if !IsField(field) {
        return None;
      }
      pos := pos + 1;
      assert Left() == old(Left())[1..];
      var op := ToLower(PeekToken().text);
      if !NamesOperator(PeekToken()) {
        return None;
      }
      pos := pos + 1;
      assert Left() == old(Left())[2..];
      if op == "exists" {
        return Some(Predicate(field.text, op, Nil));
      }
      if op == "in" {
        if !PeekToken().kind.LeftParen? {
          return None;
        }
        pos := pos + 1;
        assert Left() == old(Left())[2..][1..];
        if PeekToken().kind.RightParen? {
          return None;
        }
        var values := ParseValuesAt();
        if values.None? {
          return None;
        }
        return Some(Predicate(field.text, op, List(values.value)));
      }
      if !TakesValue(op) || !IsLiteral(PeekToken()) {
        return None;
      }
      var value := PeekToken().value;
      pos := pos + 1;
      assert Left() == old(Left())[2..][1..];
      return Some(Predicate(field.text, op, value));
    }

    method ParseValuesAt() returns (r: Option<seq<Value>>)
      requires pos <= |tokens|
      modifies this
      ensures var spec := ParseValues([], old(Left()));
        r.Some? == spec.Some? && (r.Some? ==> old(pos) < pos <= |tokens| && spec == Some((r.value, Left())))
    {
      var values: seq<Value> := [];
      while !PeekToken().kind.RightParen?
        invariant old(pos) <= pos <= |tokens|
        invariant ParseValues([], old(Left())) == ParseValues(values, Left())
        decreases |tokens| - pos
      {
        if !IsLiteral(PeekToken()) {
          return None;
        }
        values := values + [PeekToken().value];
        ghost var left := Left();
        pos := pos + 1;
        assert Left() == left[1..];
        if PeekToken().kind.Comma? {
          pos := pos + 1;
          assert Left() == left[1..][1..];
          if PeekToken().kind.RightParen? {
            return None;
          }
        } else if !PeekToken().kind.RightParen? {
          return None;
        }
      }
      ghost var left := Left();
      pos := pos + 1;
      assert Left() == left[1..];
      return Some(values);
    }
  }

  /** `parseExpression` on the lexer's tokens. */
  method ParseTokens(tokens: seq<Token>) returns (r: Option<Expr>)
    ensures r == ParseExpression(tokens)
  {
    var p := new ExpressionParser(tokens);
    assert p.Left() == tokens;
    var e := p.ParseOrAt();
    if e.None? || !p.PeekToken().kind.EndOfInput? {
      return None;
    }
    return e;
  }
}
