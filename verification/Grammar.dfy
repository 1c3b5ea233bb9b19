/**
 What the expression parser accepts: a grammar with its precedences (not, then and, then or,
 the binary ones associating to the left), stated without reference to the parser, and the
 proof that the parser accepts exactly its texts and returns their meaning.
*/
module Grammar {
  import opened Wrappers
  import opened Texts
  import opened Values
  import opened Expressions
  import opened Parsing

  /** A derivation. */
  datatype Syntax =
    | Leaf(text: seq<Token>, meaning: Expr)
    | Group(open: Token, inner: Syntax, close: Token)
    | Negation(word: Token, inner: Syntax)
    | Binary(operator: Connective, left: Syntax, word: Token, right: Syntax)

  /** Texts, numbers and booleans. */
  predicate IsConstant(t: Token) { t.kind.StringLiteral? || t.kind.NumberLiteral? || t.kind.BoolLiteral? }

  /** The word, in any case. */
  predicate IsKeyword(t: Token, word: string) { t.kind == Word && EqualFold(t.text, word) }

  const COMPARISONS: set<string> := {"==", "!=", ">", ">=", "<", "<=", "contains", "starts_with", "ends_with"}

  lemma SameComparisons(op: string)
    ensures TakesValue(op) <==> op in COMPARISONS
  {
    IsAmongMeansIn(op, VALUE_OPERATORS);
  }

  /** Literals with single commas between them. */
  predicate IsLiteralList(ts: seq<Token>) {
    && |ts| % 2 == 1
    && forall i :: 0 <= i < |ts| ==> if i % 2 == 0 then IsConstant(ts[i]) else ts[i].kind.Comma?
  }

  function ListValues(ts: seq<Token>): seq<Value> {
    seq((|ts| + 1) / 2, i requires 0 <= 2 * i < |ts| => ts[2 * i].value)
  }

  /** What may follow a field and the operator `op`, and the value it stands for. */
  predicate IsOperand(op: string, ts: seq<Token>, value: Value) {
    if op == "exists" then ts == [] && value == Nil
    else if op == "in" then
      && 3 <= |ts| && ts[0].kind.LeftParen? && ts[|ts| - 1].kind.RightParen?
      && IsLiteralList(ts[1..|ts| - 1]) && value == List(ListValues(ts[1..|ts| - 1]))
    else op in COMPARISONS && |ts| == 1 && IsConstant(ts[0]) && value == ts[0].value
  }

  /** The predicates: `field exists`, `field in (v, ..., v)`, `field op v`. */
  predicate IsPredicate(ts: seq<Token>, e: Expr) {
    && 2 <= |ts| && ts[0].kind == Word && FieldAllowed(ts[0].text) && e.Predicate? && e.field == ts[0].text
    && (ts[1].kind == Operator || ts[1].kind == Word) && e.op == ToLower(ts[1].text) && IsOperand(e.op, ts[2..], e.value)
  }

  /** How tightly a derivation binds: 0 for or, 1 for and, 2 for the rest. */
  function Level(s: Syntax): nat {
    if !s.Binary? then 2 else if s.operator == And then 1 else 0
  }

  function ConnectiveText(operator: Connective): string { if operator == And then "and" else "or" }

  predicate WellFormed(s: Syntax) {
    match s
    case Leaf(text, meaning) => IsPredicate(text, meaning)
    case Group(open, inner, close) => open.kind.LeftParen? && close.kind.RightParen? && WellFormed(inner)
    case Negation(word, inner) => IsKeyword(word, "not") && WellFormed(inner) && Level(inner) == 2
    case Binary(operator, left, word, right) =>
      && IsKeyword(word, ConnectiveText(operator)) && WellFormed(left) && WellFormed(right)
      && Level(left) >= Level(s) && Level(right) > Level(s)
  }

  function Tokens(s: Syntax): seq<Token> {
    match s
    case Leaf(text, _) => text
    case Group(open, inner, close) => [open] + Tokens(inner) + [close]
    case Negation(word, inner) => [word] + Tokens(inner)
    case Binary(_, left, word, right) => Tokens(left) + [word] + Tokens(right)
  }

  function Meaning(s: Syntax): Expr {
    match s
    case Leaf(_, meaning) => meaning
    case Group(_, inner, _) => Meaning(inner)
    case Negation(_, inner) => Not(Meaning(inner))
    case Binary(operator, left, _, right) => Logical(operator, Meaning(left), Meaning(right))
  }

  /******* Words are not fields *******/

  lemma {:induction false} PrefixedFieldsAreLong(field: string, prefixes: seq<string>)
    requires HasAggregatePrefix(field, prefixes) && forall prefix :: prefix in prefixes ==> |prefix| >= 4
    ensures |field| > 4
  {
    if !(HasPrefix(field, prefixes[0]) && |field| > |prefixes[0]|) {
      PrefixedFieldsAreLong(field, prefixes[1..]);
    }
  }

  lemma RootLengths()
    ensures forall name :: name in ROOTS && |name| <= 3 ==> name == "id"
  {
  }

  lemma PrefixLengths()
    ensures forall prefix :: prefix in AGGREGATE_PREFIXES ==> |prefix| >= 4
  {
  }

  lemma ShortFields(field: string)
    requires |field| <= 3 && FieldAllowed(field) && forall c :: c in field ==> c !in ".["
    ensures field == "id"
  {
    WholeRoot(field);
    PrefixLengths();
    if HasAggregatePrefix(field, AGGREGATE_PREFIXES) {
      PrefixedFieldsAreLong(field, AGGREGATE_PREFIXES);
    }
    RootLengths();
    IsAmongMeansIn(field, ROOTS);
  }

  lemma FieldsAreNotWords(t: Token)
    requires IsField(t)
    ensures !IsWord(t, "not") && !IsWord(t, "and") && !IsWord(t, "or") && !t.kind.LeftParen?
  {
    IsNotConnective(t.text, "not");
    IsNotConnective(t.text, "and");
    IsNotConnective(t.text, "or");
  }

  lemma LowerWord(word: string)
    requires forall i :: 0 <= i < |word| ==> 'a' <= word[i] <= 'z'
    ensures ToLower(word) == word
  {
  }

  lemma UnfoldWord(field: string, word: string)
    requires ToLower(field) == word && forall i :: 0 <= i < |word| ==> 'a' <= word[i] <= 'z'
    ensures |field| == |word| && forall c :: c in field ==> c !in ".["
    ensures field == "id" ==> word[0] == 'i'
  {
    assert forall i :: 0 <= i < |field| ==> ToLower(field)[i] == LowerChar(field[i]);
  }

  lemma IsNotConnective(field: string, word: string)
    requires FieldAllowed(field)
    requires 0 < |word| <= 3 && word[0] != 'i' && forall i :: 0 <= i < |word| ==> 'a' <= word[i] <= 'z'
    ensures !EqualFold(field, word)
  {
    LowerWord(word);
    if ToLower(field) == word {
      UnfoldWord(field, word);
      ShortFields(field);
      assert false;
    }
  }

  lemma {:induction false} WholeRoot(field: string)
    requires forall c :: c in field ==> c !in ".["
    ensures Root(field) == field
  {
    if field != "" {
      WholeRoot(field[1..]);
    }
  }

  /******* Everything the grammar derives is parsed *******/

  lemma {:induction false} ListIsParsed(values: seq<Value>, ts: seq<Token>, close: Token, rest: seq<Token>)
    requires IsLiteralList(ts) && close.kind.RightParen?
    ensures ParseValues(values, ts + [close] + rest) == Some((values + ListValues(ts), rest))
    decreases |ts|
  {
    var all := ts + [close] + rest;
    var values' := values + [ts[0].value];
    if |ts| == 1 {
      assert all[1..] == [close] + rest && all[1..][1..] == rest;
      assert ParseValues(values, all) == ParseValues(values', all[1..]);
      assert values' == values + ListValues(ts);
    } else {
      var more := ts[2..];
      assert all[1..][1..] == more + [close] + rest;
      assert IsLiteralList(more) by {
        assert forall i :: 0 <= i < |more| ==> more[i] == ts[i + 2];
      }
      ListIsParsed(values', more, close, rest);
      assert ListValues(ts) == [ts[0].value] + ListValues(more);
      assert values' + ListValues(more) == values + ListValues(ts);
    }
  }

  lemma OperandIsParsed(field: string, op: string, ts: seq<Token>, value: Value, rest: seq<Token>)
    requires IsOperand(op, ts, value)
    ensures ParseOperand(field, op, ts + rest) == Some((Predicate(field, op, value), rest))
  {
    var all := ts + rest;
    if op == "in" {
      var list, close := ts[1..|ts| - 1], ts[|ts| - 1];
      assert all[1..] == list + [close] + rest;
      ListIsParsed([], list, close, rest);
      assert [] + ListValues(list) == ListValues(list);
    } else if op == "exists" {
      assert all == rest;
    } else {
      assert all[1..] == rest;
    }
  }

  lemma HeadAndTail(ts: seq<Token>, rest: seq<Token>)
    requires 2 <= |ts|
    ensures var all := ts + rest; all[0] == ts[0] && all[1] == ts[1] && all[2..] == ts[2..] + rest
  {
  }

  lemma LeafIsParsed(ts: seq<Token>, e: Expr, rest: seq<Token>)
    requires IsPredicate(ts, e)
    ensures ParsePredicate(ts + rest) == Some((e, rest))
  {
    HeadAndTail(ts, rest);
    OperandIsParsed(e.field, e.op, ts[2..], e.value, rest);
  }

  lemma AndGoesOn(left: Expr, ts: seq<Token>, right: Expr, rest: seq<Token>)
    requires IsWord(Peek(ts), "and") && ParseUnary(ts[1..]) == Some((right, rest))
    ensures AndRest(left, ts) == AndRest(Logical(And, left, right), rest)
  {
  }

  lemma OrGoesOn(left: Expr, ts: seq<Token>, right: Expr, rest: seq<Token>)
    requires IsWord(Peek(ts), "or") && ParseAnd(ts[1..]) == Some((right, rest))
    ensures OrRest(left, ts) == OrRest(Logical(Or, left, right), rest)
  {
  }

  lemma OrIsNotAnd(t: Token)
    ensures !(IsWord(t, "and") && IsWord(t, "or"))
  {
    assert |ToLower("and")| != |ToLower("or")|;
  }

  /** A derivation at each level is consumed by the function of that level, and the loop of that
      level goes on from its meaning. */
  lemma {:induction false} UnaryIsParsed(s: Syntax, rest: seq<Token>)
    requires WellFormed(s) && Level(s) == 2
    ensures ParseUnary(Tokens(s) + rest) == Some((Meaning(s), rest))
    decreases s, 0
  {
    var all := Tokens(s) + rest;
    match s
    case Leaf(text, meaning) =>
      FieldsAreNotWords(text[0]);
      LeafIsParsed(text, meaning, rest);
    case Group(open, inner, close) =>
      assert all[1..] == Tokens(inner) + ([close] + rest);
      OrIsParsed(inner, [close] + rest);
    case Negation(word, inner) =>
      assert all[1..] == Tokens(inner) + rest;
      UnaryIsParsed(inner, rest);
  }

  lemma {:induction false} AndIsParsed(s: Syntax, rest: seq<Token>)
    requires WellFormed(s) && Level(s) >= 1
    ensures ParseAnd(Tokens(s) + rest) == AndRest(Meaning(s), rest)
    decreases s, 1
  {
    if Level(s) == 2 {
      UnaryIsParsed(s, rest);
    } else {
      var more := BinaryText(s, rest);
      UnaryIsParsed(s.right, rest);
      AndGoesOn(Meaning(s.left), more, Meaning(s.right), rest);
      AndIsParsed(s.left, more);
    }
  }

  lemma {:induction false} OrIsParsed(s: Syntax, rest: seq<Token>)
    requires WellFormed(s) && !IsWord(Peek(rest), "and")
    ensures ParseOr(Tokens(s) + rest) == OrRest(Meaning(s), rest)
    decreases s, 2
  {
    if Level(s) >= 1 {
      AndIsParsed(s, rest);
    } else {
      var more := BinaryText(s, rest);
      AndIsParsed(s.right, rest);
      OrGoesOn(Meaning(s.left), more, Meaning(s.right), rest);
      OrIsNotAnd(s.word);
      OrIsParsed(s.left, more);
    }
  }

  /** The text after the left operand. */
  lemma BinaryText(s: Syntax, rest: seq<Token>) returns (more: seq<Token>)
    requires s.Binary?
    ensures more == [s.word] + Tokens(s.right) + rest && Tokens(s) + rest == Tokens(s.left) + more
    ensures more[0] == s.word && more[1..] == Tokens(s.right) + rest
  {
    more := [s.word] + Tokens(s.right) + rest;
  }

  /******* Everything that is parsed is derived *******/

  lemma {:induction false} ParsedListIsDerived(values: seq<Value>, ts: seq<Token>)
    returns (list: seq<Token>, close: Token)
    requires ParseValues(values, ts).Some? && !Peek(ts).kind.RightParen?
    ensures var (all, rest) := ParseValues(values, ts).value;
      IsLiteralList(list) && close.kind.RightParen? && ts == list + [close] + rest && all == values + ListValues(list)
    decreases |ts|
  {
    var values' := values + [ts[0].value];
    var (all, rest) := ParseValues(values, ts).value;
    if Peek(ts[1..]).kind.Comma? {
      var more;
      more, close := ParsedListIsDerived(values', ts[1..][1..]);
      list := ExtendList(ts[0], ts[1], more);
      assert ts == [ts[0], ts[1]] + ts[1..][1..];
      assert values' + ListValues(more) == values + ListValues(list);
    } else {
      list, close := [ts[0]], ts[1];
      assert ParseValues(values', ts[1..]) == Some((values', ts[1..][1..]));
      assert ListValues(list) == [ts[0].value];
    }
  }

  lemma ExtendList(first: Token, comma: Token, more: seq<Token>) returns (list: seq<Token>)
    requires IsLiteral(first) && comma.kind.Comma? && IsLiteralList(more)
    ensures list == [first, comma] + more && IsLiteralList(list)
    ensures ListValues(list) == [first.value] + ListValues(more)
  {
    list := [first, comma] + more;
    assert forall i :: 2 <= i < |list| ==> list[i] == more[i - 2];
  }

  lemma ParsedPredicateIsDerived(ts: seq<Token>) returns (s: Syntax)
    requires ParsePredicate(ts).Some?
    ensures var (e, rest) := ParsePredicate(ts).value;
      WellFormed(s) && Level(s) == 2 && Meaning(s) == e && ts == Tokens(s) + rest
  {
    var (e, rest) := ParsePredicate(ts).value;
    var operand := ParsedOperandIsDerived(ts[0].text, ToLower(ts[1].text), ts[2..]);
    s := LeafOf(ts, operand, e, rest);
  }

  lemma LeafOf(ts: seq<Token>, operand: seq<Token>, e: Expr, rest: seq<Token>) returns (s: Syntax)
    requires 2 <= |ts| && IsField(ts[0]) && NamesOperator(ts[1]) && ts[2..] == operand + rest
    requires e.Predicate? && e.field == ts[0].text && e.op == ToLower(ts[1].text) && IsOperand(e.op, operand, e.value)
    ensures WellFormed(s) && Level(s) == 2 && Meaning(s) == e && ts == Tokens(s) + rest
  {
    var text := [ts[0], ts[1]] + operand;
    assert text[2..] == operand;
    assert ts == [ts[0], ts[1]] + ts[2..];
    s := Leaf(text, e);
  }

  lemma ParsedOperandIsDerived(field: string, op: string, ts: seq<Token>) returns (operand: seq<Token>)
    requires ParseOperand(field, op, ts).Some?
    ensures var (e, rest) := ParseOperand(field, op, ts).value;
      e.Predicate? && e.field == field && e.op == op && IsOperand(op, operand, e.value) && ts == operand + rest
  {
    var (e, rest) := ParseOperand(field, op, ts).value;
    SameComparisons(op);
    if op == "in" {
      var list, close := ParsedListIsDerived([], ts[1..]);
      operand := [ts[0]] + list + [close];
      assert operand[1..|operand| - 1] == list;
      assert [] + ListValues(list) == ListValues(list);
    } else if op == "exists" {
      operand := [];
    } else {
      operand := [ts[0]];
    }
  }

  lemma {:induction false} ParsedUnaryIsDerived(ts: seq<Token>) returns (s: Syntax)
    requires ParseUnary(ts).Some?
    ensures var (e, rest) := ParseUnary(ts).value;
      WellFormed(s) && Level(s) == 2 && Meaning(s) == e && ts == Tokens(s) + rest
    decreases |ts|, 0
  {
    if IsWord(Peek(ts), "not") {
      assert ts == [ts[0]] + ts[1..];
      var inner := ParsedUnaryIsDerived(ts[1..]);
      s := Negation(ts[0], inner);
    } else if Peek(ts).kind.LeftParen? {
      s := ParsedGroupIsDerived(ts);
    } else {
      s := ParsedPredicateIsDerived(ts);
    }
  }

  lemma {:induction false} ParsedGroupIsDerived(ts: seq<Token>) returns (s: Syntax)
    requires Peek(ts).kind.LeftParen? && ParseOr(ts[1..]).Some?
    requires var (e, rest) := ParseOr(ts[1..]).value; Peek(rest).kind.RightParen?
    ensures var (e, rest) := ParseOr(ts[1..]).value;
      WellFormed(s) && Level(s) == 2 && Meaning(s) == e && ts == Tokens(s) + rest[1..]
    decreases |ts| - 1, 5
  {
    var inner := ParsedOrIsDerived(ts[1..]);
    s := GroupOf(ts, inner, ParseOr(ts[1..]).value.1);
  }

  lemma GroupOf(ts: seq<Token>, inner: Syntax, rest: seq<Token>) returns (s: Syntax)
    requires ts != [] && rest != [] && ts[1..] == Tokens(inner) + rest
    ensures s == Group(ts[0], inner, rest[0]) && ts == Tokens(s) + rest[1..]
  {
    s := Group(ts[0], inner, rest[0]);
    assert ts == [ts[0]] + ts[1..] && rest == [rest[0]] + rest[1..];
  }

  lemma JoinedBy(operator: Connective, left: Syntax, ts: seq<Token>, right: Syntax, rest: seq<Token>) returns (s: Syntax)
    requires ts != [] && ts[1..] == Tokens(right) + rest
    ensures s == Binary(operator, left, ts[0], right) && Tokens(left) + ts == Tokens(s) + rest
  {
    s := Binary(operator, left, ts[0], right);
    assert ts == [ts[0]] + ts[1..];
  }

  lemma {:induction false} ParsedAndIsDerived(ts: seq<Token>) returns (s: Syntax)
    requires ParseAnd(ts).Some?
    ensures var (e, rest) := ParseAnd(ts).value;
      WellFormed(s) && Level(s) >= 1 && Meaning(s) == e && ts == Tokens(s) + rest
    decreases |ts|, 2
  {
    var left := ParsedUnaryIsDerived(ts);
    s := AndRestIsDerived(left, ParseUnary(ts).value.1);
  }

  lemma {:induction false} AndRestIsDerived(left: Syntax, ts: seq<Token>) returns (s: Syntax)
    requires WellFormed(left) && Level(left) >= 1 && AndRest(Meaning(left), ts).Some?
    ensures var (e, rest) := AndRest(Meaning(left), ts).value;
      WellFormed(s) && Level(s) >= 1 && Meaning(s) == e && Tokens(left) + ts == Tokens(s) + rest
    decreases |ts|, 1
  {
    if IsWord(Peek(ts), "and") {
      var right := ParsedUnaryIsDerived(ts[1..]);
      var rest := ParseUnary(ts[1..]).value.1;
      var both := JoinedBy(And, left, ts, right, rest);
      AndGoesOn(Meaning(left), ts, Meaning(right), rest);
      s := AndRestIsDerived(both, rest);
    } else {
      s := left;
    }
  }

  lemma {:induction false} ParsedOrIsDerived(ts: seq<Token>) returns (s: Syntax)
    requires ParseOr(ts).Some?
    ensures var (e, rest) := ParseOr(ts).value;
      WellFormed(s) && Meaning(s) == e && ts == Tokens(s) + rest
    decreases |ts|, 4
  {
    var left := ParsedAndIsDerived(ts);
    s := OrRestIsDerived(left, ParseAnd(ts).value.1);
  }

  lemma {:induction false} OrRestIsDerived(left: Syntax, ts: seq<Token>) returns (s: Syntax)
    requires WellFormed(left) && OrRest(Meaning(left), ts).Some?
    ensures var (e, rest) := OrRest(Meaning(left), ts).value;
      WellFormed(s) && Meaning(s) == e && Tokens(left) + ts == Tokens(s) + rest
    decreases |ts|, 3
  {
    if IsWord(Peek(ts), "or") {
      var right := ParsedAndIsDerived(ts[1..]);
      var rest := ParseAnd(ts[1..]).value.1;
      var both := JoinedBy(Or, left, ts, right, rest);
      OrGoesOn(Meaning(left), ts, Meaning(right), rest);
      s := OrRestIsDerived(both, rest);
    } else {
      s := left;
    }
  }

  /******* The parser is the grammar *******/

  ghost predicate Derives(s: Syntax, ts: seq<Token>, e: Expr) {
    WellFormed(s) && Meaning(s) == e && Tokens(s) <= ts && Peek(ts[|Tokens(s)|..]).kind.EndOfInput?
  }

  /** The parser returns `e` exactly for the texts the grammar derives with meaning `e`. */
  lemma ParserIsGrammar(ts: seq<Token>, e: Expr)
    ensures ParseExpression(ts) == Some(e) <==> exists s :: Derives(s, ts, e)
  {
    if ParseExpression(ts) == Some(e) {
      var s := ParsedOrIsDerived(ts);
      assert ts[|Tokens(s)|..] == ParseOr(ts).value.1;
      assert Derives(s, ts, e);
    }
    if s :| Derives(s, ts, e) {
      DerivedIsParsed(s, ts[|Tokens(s)|..]);
      assert ts == Tokens(s) + ts[|Tokens(s)|..];
    }
  }

  lemma DerivedIsParsed(s: Syntax, rest: seq<Token>)
    requires WellFormed(s) && Peek(rest).kind.EndOfInput?
    ensures ParseExpression(Tokens(s) + rest) == Some(Meaning(s))
  {
    OrIsParsed(s, rest);
  }

  /** The grammar is unambiguous. */
  lemma OneMeaning(a: Syntax, b: Syntax)
    requires WellFormed(a) && WellFormed(b) && Tokens(a) == Tokens(b)
    ensures Meaning(a) == Meaning(b)
  {
    DerivedIsParsed(a, []);
    DerivedIsParsed(b, []);
  }
}
