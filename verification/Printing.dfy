/**
 Printing expressions and reading them back.  `Full` is the shape of `LogicalExpr.String` and
 `NotExpr.String` (every operand in parentheses); `Minimal` writes no parenthesis that the
 precedences make unnecessary.  Both invert: lexing and parsing what was printed gives back
 exactly the expression.
*/
module Printing {
  import opened Wrappers
  import opened Texts
  import opened Values
  import opened Expressions
  import opened Parsing
  import opened Grammar
  import opened Lexing

  /** How literals are written. */
  type Spelling = Value -> string

  predicate IsScalarLiteral(v: Value) { v.Text? || v.Number? || v.Bool? }

  function LiteralToken(spell: Spelling, v: Value): Token
    requires IsScalarLiteral(v)
  {
    Token(if v.Text? then StringLiteral else if v.Number? then NumberLiteral else BoolLiteral, spell(v), v)
  }

  const OPEN := Token(LeftParen, "(", Nil)
  const CLOSE := Token(RightParen, ")", Nil)
  const COMMA := Token(Comma, ",", Nil)

  function WordOf(text: string): Token { Token(Word, text, Nil) }

  /** The expressions the language can write. */
  predicate Expressible(e: Expr) {
    match e
    case Logical(_, left, right) => Expressible(left) && Expressible(right)
    case Not(inner) => Expressible(inner)
    case Predicate(field, op, value) =>
      && FieldAllowed(field)
      && if op == "exists" then value == Nil
         else if op == "in" then value.List? && value.items != [] && forall v :: v in value.items ==> IsScalarLiteral(v)
         else TakesValue(op) && IsScalarLiteral(value)
  }

  function ListText(spell: Spelling, values: seq<Value>): seq<Token>
    requires values != [] && forall v :: v in values ==> IsScalarLiteral(v)
  {
    if |values| == 1 then [LiteralToken(spell, values[0])]
    else [LiteralToken(spell, values[0]), COMMA] + ListText(spell, values[1..])
  }

  function OperandText(spell: Spelling, e: Expr): seq<Token>
    requires Expressible(e) && e.Predicate?
  {
    if e.op == "exists" then []
    else if e.op == "in" then [OPEN] + ListText(spell, e.value.items) + [CLOSE]
    else [LiteralToken(spell, e.value)]
  }

  function PredicateSyntax(spell: Spelling, e: Expr): Syntax
    requires Expressible(e) && e.Predicate?
  {
    Leaf([WordOf(e.field), Token(Operator, e.op, Nil)] + OperandText(spell, e), e)
  }

  /** The shape of `String`: `(left op right)`, `not (inner)`. */
  function Full(spell: Spelling, e: Expr): Syntax
    requires Expressible(e)
  {
    match e
    case Logical(operator, left, right) =>
      Group(OPEN, Binary(operator, Full(spell, left), WordOf(ConnectiveText(operator)), Full(spell, right)), CLOSE)
    case Not(inner) => Negation(WordOf("not"), Group(OPEN, Full(spell, inner), CLOSE))
    case Predicate(_, _, _) => PredicateSyntax(spell, e)
  }

  function Parenthesized(s: Syntax, level: nat): Syntax {
    if Level(s) >= level then s else Group(OPEN, s, CLOSE)
  }

  function Minimal(spell: Spelling, e: Expr): Syntax
    requires Expressible(e)
  {
    match e
    case Logical(operator, left, right) =>
      var level := if operator == And then 1 else 0;
      Binary(operator, Parenthesized(Minimal(spell, left), level), WordOf(ConnectiveText(operator)),
             Parenthesized(Minimal(spell, right), level + 1))
    case Not(inner) => Negation(WordOf("not"), Parenthesized(Minimal(spell, inner), 2))
    case Predicate(_, _, _) => PredicateSyntax(spell, e)
  }

  /******* The printed texts are derivations of the expression *******/

  lemma LowerConnectives()
    ensures IsWord(WordOf("and"), "and") && IsWord(WordOf("or"), "or") && IsWord(WordOf("not"), "not")
  {
  }

  lemma {:induction false} OperatorsAreLower(op: string, names: seq<string>)
    requires IsAmong(op, names) && forall name :: name in names ==> ToLower(name) == name
    ensures ToLower(op) == op
  {
    IsAmongMeansIn(op, names);
  }

  lemma ValueOperatorsAreLower(op: string)
    requires TakesValue(op)
    ensures ToLower(op) == op
  {
    forall name | name in VALUE_OPERATORS
      ensures ToLower(name) == name
    {
      var i :| 0 <= i < |VALUE_OPERATORS| && name == VALUE_OPERATORS[i];
      assert forall k :: 0 <= k < |name| ==> LowerChar(name[k]) == name[k];
    }
    OperatorsAreLower(op, VALUE_OPERATORS);
  }

  lemma {:induction false} ListTextIsLiteralList(spell: Spelling, values: seq<Value>)
    requires values != [] && forall v :: v in values ==> IsScalarLiteral(v)
    ensures IsLiteralList(ListText(spell, values)) && ListValues(ListText(spell, values)) == values
  {
    var first := LiteralToken(spell, values[0]);
    if |values| == 1 {
      assert ListValues([first]) == values;
    } else {
      ListTextIsLiteralList(spell, values[1..]);
      var list := ExtendList(first, COMMA, ListText(spell, values[1..]));
      assert values == [values[0]] + values[1..];
    }
  }

  lemma PredicateIsDerived(spell: Spelling, e: Expr)
    requires Expressible(e) && e.Predicate?
    ensures WellFormed(PredicateSyntax(spell, e))
  {
    var operand := OperandText(spell, e);
    var text := [WordOf(e.field), Token(Operator, e.op, Nil)] + operand;
    assert text[2..] == operand;
    if e.op == "in" {
      ListTextIsLiteralList(spell, e.value.items);
      assert operand[1..|operand| - 1] == ListText(spell, e.value.items);
      assert ToLower("in") == "in";
    } else if e.op == "exists" {
      assert ToLower("exists") == "exists";
    } else {
      ValueOperatorsAreLower(e.op);
      SameComparisons(e.op);
    }
  }

  lemma {:induction false} FullIsDerived(spell: Spelling, e: Expr)
    requires Expressible(e)
    ensures WellFormed(Full(spell, e)) && Level(Full(spell, e)) == 2 && Meaning(Full(spell, e)) == e
  {
    LowerConnectives();
    match e
    case Logical(_, left, right) =>
      FullIsDerived(spell, left);
      FullIsDerived(spell, right);
    case Not(inner) => FullIsDerived(spell, inner);
    case Predicate(_, _, _) => PredicateIsDerived(spell, e);
  }

  lemma {:induction false} MinimalIsDerived(spell: Spelling, e: Expr)
    requires Expressible(e)
    ensures WellFormed(Minimal(spell, e)) && Meaning(Minimal(spell, e)) == e
  {
    LowerConnectives();
    match e
    case Logical(_, left, right) =>
      MinimalIsDerived(spell, left);
      MinimalIsDerived(spell, right);
    case Not(inner) => MinimalIsDerived(spell, inner);
    case Predicate(_, _, _) => PredicateIsDerived(spell, e);
  }

  /******* Round trips on tokens *******/

  lemma ParseInvertsFull(spell: Spelling, e: Expr)
    requires Expressible(e)
    ensures ParseExpression(Tokens(Full(spell, e)) + [EOF]) == Some(e)
  {
    FullIsDerived(spell, e);
    DerivedIsParsed(Full(spell, e), [EOF]);
  }

  lemma ParseInvertsMinimal(spell: Spelling, e: Expr)
    requires Expressible(e)
    ensures ParseExpression(Tokens(Minimal(spell, e)) + [EOF]) == Some(e)
  {
    MinimalIsDerived(spell, e);
    DerivedIsParsed(Minimal(spell, e), [EOF]);
  }

  /******* Round trips on characters *******/

  /** `parseExpression`. */
  function ParseText(lit: Literals, input: string): Option<Expr> {
    match Lex(lit, input)
    case None => None
    case Some(tokens) => ParseExpression(tokens)
  }

  method ParseInput(lit: Literals, input: string) returns (r: Option<Expr>)
    ensures r == ParseText(lit, input)
  {
    var tokens := LexExpression(lit, input);
    if tokens.None? {
      return None;
    }
    r := ParseTokens(tokens.value);
  }

  /** The expression's fields and literals are texts that lex to themselves. */
  predicate Spelled(lit: Literals, spell: Spelling, e: Expr)
    requires Expressible(e)
  {
    match e
    case Logical(_, left, right) => Spelled(lit, spell, left) && Spelled(lit, spell, right)
    case Not(inner) => Spelled(lit, spell, inner)
    case Predicate(field, op, value) =>
      && Printable(lit, WordOf(field))
      && if op == "exists" then true
         else if op == "in" then forall v :: v in value.items ==> Printable(lit, LiteralToken(spell, v))
         else Printable(lit, LiteralToken(spell, value))
  }

  lemma {:induction false} WholeWord(s: string, i: nat)
    requires i <= |s| && forall k :: i <= k < |s| ==> InWord(s[k])
    ensures WordEnd(s, i) == |s|
    decreases |s| - i
  {
    if i < |s| {
      WholeWord(s, i + 1);
    }
  }

  /** Names of letters, digits, underscores and dots print as they are, unless they are keywords. */
  lemma PlainWordsPrint(lit: Literals, text: string)
    requires text != "" && StartsWord(text[0]) && !IsSpace(text[0]) && forall k :: 0 <= k < |text| ==> InWord(text[k])
    ensures FirstToken(lit, text) == Some((WordToken(text), |text|))
  {
    WholeWord(text, 1);
    assert text[..|text|] == text;
  }

  lemma ConnectivePrints(lit: Literals, word: string)
    requires word != "" && word !in KEYWORD_OPERATORS && word != "true" && word != "false"
    requires forall k :: 0 <= k < |word| ==> 'a' <= word[k] <= 'z'
    ensures Printable(lit, WordOf(word))
  {
    PlainWordsPrint(lit, word);
    LowerWord(word);
    IsAmongMeansIn(word, KEYWORD_OPERATORS);
  }

  lemma ConnectivesPrint(lit: Literals)
    ensures Printable(lit, WordOf("and")) && Printable(lit, WordOf("or")) && Printable(lit, WordOf("not"))
  {
    ConnectivePrints(lit, "and");
    ConnectivePrints(lit, "or");
    ConnectivePrints(lit, "not");
  }

  lemma PunctuationPrints(lit: Literals)
    ensures Printable(lit, OPEN) && Printable(lit, CLOSE) && Printable(lit, COMMA)
  {
  }

  lemma KeywordPrints(lit: Literals, op: string)
    requires op in ["exists", "in", "contains", "starts_with", "ends_with"]
    ensures Printable(lit, Token(Operator, op, Nil))
  {
    assert op in KEYWORD_OPERATORS;
    var i :| 0 <= i < |KEYWORD_OPERATORS| && op == KEYWORD_OPERATORS[i];
    assert forall k :: 0 <= k < |op| ==> InWord(op[k]) && LowerChar(op[k]) == op[k];
    PlainWordsPrint(lit, op);
    assert ToLower(op) == op;
    IsAmongMeansIn(op, KEYWORD_OPERATORS);
  }

  lemma SymbolPrints(lit: Literals, op: string)
    requires op in ["==", "!=", ">", ">=", "<", "<="]
    ensures Printable(lit, Token(Operator, op, Nil))
  {
    assert op[..|op|] == op && op[0] in "=!><" && |op| <= 2 && (|op| == 2 ==> op[1] == '=');
    assert op != "=" && op != "!";
  }

  lemma OperatorPrints(lit: Literals, op: string)
    requires op == "exists" || op == "in" || TakesValue(op)
    ensures Printable(lit, Token(Operator, op, Nil))
  {
    IsAmongMeansIn(op, VALUE_OPERATORS);
    if op in ["==", "!=", ">", ">=", "<", "<="] {
      SymbolPrints(lit, op);
    } else {
      assert op in ["exists", "in", "contains", "starts_with", "ends_with"];
      KeywordPrints(lit, op);
    }
  }

  ghost predicate AllPrintable(lit: Literals, ts: seq<Token>) { forall t :: t in ts ==> Printable(lit, t) }

  lemma {:induction false} ListPrints(lit: Literals, spell: Spelling, values: seq<Value>)
    requires values != [] && forall v :: v in values ==> IsScalarLiteral(v) && Printable(lit, LiteralToken(spell, v))
    ensures AllPrintable(lit, ListText(spell, values))
  {
    PunctuationPrints(lit);
    if |values| > 1 {
      ListPrints(lit, spell, values[1..]);
    }
  }

  lemma PredicatePrints(lit: Literals, spell: Spelling, e: Expr)
    requires Expressible(e) && e.Predicate? && Spelled(lit, spell, e)
    ensures AllPrintable(lit, Tokens(PredicateSyntax(spell, e)))
  {
    OperatorPrints(lit, e.op);
    PunctuationPrints(lit);
    if e.op == "in" {
      ListPrints(lit, spell, e.value.items);
    }
  }

  lemma JoinPrints(lit: Literals, a: seq<Token>, b: seq<Token>)
    requires AllPrintable(lit, a) && AllPrintable(lit, b)
    ensures AllPrintable(lit, a + b)
  {
  }

  lemma GroupPrints(lit: Literals, inner: Syntax)
    requires AllPrintable(lit, Tokens(inner)) && Printable(lit, OPEN) && Printable(lit, CLOSE)
    ensures AllPrintable(lit, Tokens(Group(OPEN, inner, CLOSE)))
  {
    JoinPrints(lit, [OPEN], Tokens(inner));
    JoinPrints(lit, [OPEN] + Tokens(inner), [CLOSE]);
  }

  lemma BinaryPrints(lit: Literals, operator: Connective, left: Syntax, word: Token, right: Syntax)
    requires AllPrintable(lit, Tokens(left)) && Printable(lit, word) && AllPrintable(lit, Tokens(right))
    ensures AllPrintable(lit, Tokens(Binary(operator, left, word, right)))
  {
    JoinPrints(lit, Tokens(left), [word]);
    JoinPrints(lit, Tokens(left) + [word], Tokens(right));
  }

  lemma NegationPrints(lit: Literals, word: Token, inner: Syntax)
    requires Printable(lit, word) && AllPrintable(lit, Tokens(inner))
    ensures AllPrintable(lit, Tokens(Negation(word, inner)))
  {
    JoinPrints(lit, [word], Tokens(inner));
  }

  lemma ParenthesizedPrints(lit: Literals, s: Syntax, level: nat)
    requires AllPrintable(lit, Tokens(s)) && Printable(lit, OPEN) && Printable(lit, CLOSE)
    ensures AllPrintable(lit, Tokens(Parenthesized(s, level)))
  {
    GroupPrints(lit, s);
  }

  lemma {:induction false} FullPrints(lit: Literals, spell: Spelling, e: Expr)
    requires Expressible(e) && Spelled(lit, spell, e)
    ensures AllPrintable(lit, Tokens(Full(spell, e)))
  {
    ConnectivesPrint(lit);
    PunctuationPrints(lit);
    match e
    case Logical(operator, left, right) =>
      FullPrints(lit, spell, left);
      FullPrints(lit, spell, right);
      var l, r, word := Full(spell, left), Full(spell, right), WordOf(ConnectiveText(operator));
      BinaryPrints(lit, operator, l, word, r);
      GroupPrints(lit, Binary(operator, l, word, r));
    case Not(inner) =>
      FullPrints(lit, spell, inner);
      GroupPrints(lit, Full(spell, inner));
      NegationPrints(lit, WordOf("not"), Group(OPEN, Full(spell, inner), CLOSE));
    case Predicate(_, _, _) => PredicatePrints(lit, spell, e);
  }

  lemma {:induction false} MinimalPrints(lit: Literals, spell: Spelling, e: Expr)
    requires Expressible(e) && Spelled(lit, spell, e)
    ensures AllPrintable(lit, Tokens(Minimal(spell, e)))
  {
    ConnectivesPrint(lit);
    PunctuationPrints(lit);
    match e
    case Logical(operator, left, right) =>
      MinimalPrints(lit, spell, left);
      MinimalPrints(lit, spell, right);
      var level := if operator == And then 1 else 0;
      ParenthesizedPrints(lit, Minimal(spell, left), level);
      ParenthesizedPrints(lit, Minimal(spell, right), level + 1);
      BinaryPrints(lit, operator, Parenthesized(Minimal(spell, left), level), WordOf(ConnectiveText(operator)),
                   Parenthesized(Minimal(spell, right), level + 1));
    case Not(inner) =>
      MinimalPrints(lit, spell, inner);
      ParenthesizedPrints(lit, Minimal(spell, inner), 2);
      NegationPrints(lit, WordOf("not"), Parenthesized(Minimal(spell, inner), 2));
    case Predicate(_, _, _) => PredicatePrints(lit, spell, e);
  }

  /** Lexing and parsing a printed expression gives the expression back. */
  lemma ReadInvertsPrint(lit: Literals, spell: Spelling, e: Expr)
    requires Expressible(e) && Spelled(lit, spell, e)
    ensures ParseText(lit, Print(Tokens(Full(spell, e)))) == Some(e)
    ensures ParseText(lit, Print(Tokens(Minimal(spell, e)))) == Some(e)
  {
    FullPrints(lit, spell, e);
    LexInvertsPrint(lit, Tokens(Full(spell, e)));
    ParseInvertsFull(spell, e);
    MinimalPrints(lit, spell, e);
    LexInvertsPrint(lit, Tokens(Minimal(spell, e)));
    ParseInvertsMinimal(spell, e);
  }
}
