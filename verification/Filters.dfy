/**
 What a filter says about a row, stated without the evaluator: `IsTrue` and `IsFalse` follow the truth
 of the parts, `Compares` the meaning of each operator in terms of numbers, texts and their parts.  The
 evaluator answers true, false or an error exactly as they say.
*/
module Filters {
  import opened Wrappers
  import opened Texts
  import opened TextLaws
  import opened Values
  import opened Expressions
  import Parsing

  /******* One comparison *******/

  /** The text of a text, a boolean or a number; other values have none. */
  ghost predicate HasText(num: Numerals, v: Value, s: string) {
    || v == Text(s)
    || (v == Bool(true) && s == "true") || (v == Bool(false) && s == "false")
    || (v.Number? && s == num.format(v.n))
  }

  ghost predicate IsScalar(v: Value) { v.Text? || v.Bool? || v.Number? }

  /** Numbers that are the same number; values that are the same; or scalars with the same text. */
  ghost predicate AreEqual(num: Numerals, a: Value, b: Value) {
    if a.Number? && b.Number? then a.n == b.n
    else a == b || exists s: string :: HasText(num, a, s) && HasText(num, b, s)
  }

  ghost predicate BothNumbers(num: Numerals, a: string, b: string) { num.parse(a).Some? && num.parse(b).Some? }

  /** The smaller number, or if one of the texts is none, the text that comes first. */
  ghost predicate IsBelow(num: Numerals, a: string, b: string) {
    if BothNumbers(num, a, b) then num.parse(a).value < num.parse(b).value else exists k: nat :: DiffersAt(a, b, k)
  }

  ghost predicate IsLevel(num: Numerals, a: string, b: string) {
    if BothNumbers(num, a, b) then num.parse(a).value == num.parse(b).value else a == b
  }

  /** What an operator says of two texts. */
  ghost predicate TextsCompare(num: Numerals, a: string, op: string, e: string) {
    match op
    case ">" => IsBelow(num, e, a)
    case ">=" => IsBelow(num, e, a) || IsLevel(num, e, a)
    case "<" => IsBelow(num, a, e)
    case "<=" => IsBelow(num, a, e) || IsLevel(num, a, e)
    case "contains" => exists u: string, v: string :: a == u + e + v
    case "starts_with" => exists v: string :: a == e + v
    case "ends_with" => exists u: string :: a == u + e
    case _ => false
  }

  /** The comparison is true. */
  ghost predicate Compares(num: Numerals, actual: Value, op: string, expected: Value) {
    match op
    case "==" => AreEqual(num, actual, expected)
    case "!=" => !AreEqual(num, actual, expected)
    case "in" => expected.List? && exists i :: 0 <= i < |expected.items| && AreEqual(num, actual, expected.items[i])
    case _ => exists a: string, e: string :: HasText(num, actual, a) && HasText(num, expected, e) && TextsCompare(num, a, op, e)
  }

  /** The comparison is true or false, and no error. */
  ghost predicate IsDefined(actual: Value, op: string, expected: Value) {
    match op
    case "==" => true
    case "!=" => true
    case "in" => expected.List?
    case _ => IsScalar(actual) && IsScalar(expected) && op in {">", ">=", "<", "<=", "contains", "starts_with", "ends_with"}
  }

  lemma ScalarTextExactlyWhen(num: Numerals, v: Value)
    ensures ScalarText(num, v).Some? <==> IsScalar(v)
    ensures forall s: string :: HasText(num, v, s) <==> ScalarText(num, v) == Some(s)
  {
  }

  lemma EqualExactlyWhen(num: Numerals, a: Value, b: Value)
    ensures ValuesEqual(num, a, b) <==> AreEqual(num, a, b)
  {
    ScalarTextExactlyWhen(num, a);
    ScalarTextExactlyWhen(num, b);
    if ScalarText(num, a).Some? && ScalarText(num, a) == ScalarText(num, b) {
      assert HasText(num, a, ScalarText(num, a).value) && HasText(num, b, ScalarText(num, a).value);
    }
  }

  lemma OrderExactlyWhen(num: Numerals, actual: Value, op: string, expected: Value, a: string, e: string)
    requires ScalarText(num, actual) == Some(a) && ScalarText(num, expected) == Some(e) && op in {">", ">=", "<", "<="}
    ensures Holds(num, actual, op, expected).Ok? && (Holds(num, actual, op, expected).value <==> TextsCompare(num, a, op, e))
  {
    LessExactlyWhen(a, e);
    LessExactlyWhen(e, a);
    CompareIsAntisymmetric(a, e);
  }

  lemma SearchExactlyWhen(num: Numerals, actual: Value, op: string, expected: Value, a: string, e: string)
    requires ScalarText(num, actual) == Some(a) && ScalarText(num, expected) == Some(e) && op in {"contains", "starts_with", "ends_with"}
    ensures Holds(num, actual, op, expected).Ok? && (Holds(num, actual, op, expected).value <==> TextsCompare(num, a, op, e))
  {
    ContainsExactlyWhen(a, e);
    PrefixExactlyWhen(a, e);
    SuffixExactlyWhen(a, e);
  }

  /** Two scalars, compared as their texts. */
  lemma TextsCompareExactlyWhen(num: Numerals, actual: Value, op: string, expected: Value, a: string, e: string)
    requires HasText(num, actual, a) && HasText(num, expected, e) && op != "in" && op != "==" && op != "!="
    ensures Holds(num, actual, op, expected).Ok? <==> IsDefined(actual, op, expected)
    ensures Holds(num, actual, op, expected) == Ok(true) <==> TextsCompare(num, a, op, e)
  {
    ScalarTextExactlyWhen(num, actual);
    ScalarTextExactlyWhen(num, expected);
    if op in {">", ">=", "<", "<="} {
      OrderExactlyWhen(num, actual, op, expected, a, e);
    } else if op in {"contains", "starts_with", "ends_with"} {
      SearchExactlyWhen(num, actual, op, expected, a, e);
    }
  }

  /** Every operator, on any values: when a comparison is true, and when it is an error. */
  lemma HoldsExactlyWhen(num: Numerals, actual: Value, op: string, expected: Value)
    ensures Holds(num, actual, op, expected).Ok? <==> IsDefined(actual, op, expected)
    ensures Holds(num, actual, op, expected) == Ok(true) <==> Compares(num, actual, op, expected)
  {
    EqualExactlyWhen(num, actual, expected);
    ScalarTextExactlyWhen(num, actual);
    ScalarTextExactlyWhen(num, expected);
    if op == "in" {
      if expected.List? {
        InExactlyWhen(num, actual, expected.items);
      }
    } else if op != "==" && op != "!=" && IsScalar(actual) && IsScalar(expected) {
      TextsCompareExactlyWhen(num, actual, op, expected, ScalarText(num, actual).value, ScalarText(num, expected).value);
    }
  }

  lemma InExactlyWhen(num: Numerals, actual: Value, items: seq<Value>)
    ensures (exists item :: item in items && ValuesEqual(num, actual, item)) <==>
      exists i :: 0 <= i < |items| && AreEqual(num, actual, items[i])
  {
    forall i | 0 <= i < |items|
      ensures ValuesEqual(num, actual, items[i]) <==> AreEqual(num, actual, items[i])
    {
      EqualExactlyWhen(num, actual, items[i]);
    }
  }

  /** On numbers the order operators are those of the numbers. */
  lemma NumbersCompare(num: Numerals, actual: Value, expected: Value, a: string, e: string, x: real, y: real)
    requires HasText(num, actual, a) && HasText(num, expected, e) && num.parse(a) == Some(x) && num.parse(e) == Some(y)
    ensures Holds(num, actual, ">", expected) == Ok(x > y) && Holds(num, actual, "<", expected) == Ok(x < y)
    ensures Holds(num, actual, ">=", expected) == Ok(x >= y) && Holds(num, actual, "<=", expected) == Ok(x <= y)
  {
    TextsCompareExactlyWhen(num, actual, ">", expected, a, e);
    TextsCompareExactlyWhen(num, actual, "<", expected, a, e);
    TextsCompareExactlyWhen(num, actual, ">=", expected, a, e);
    TextsCompareExactlyWhen(num, actual, "<=", expected, a, e);
  }

  /** The parser takes exactly the operators that the evaluator knows: what was parsed is never an
      unsupported operator. */
  lemma ParsedOperatorsAreKnown(op: string)
    ensures Parsing.TakesValue(op) <==> op != "in" && forall a: Value, e: Value :: IsScalar(a) && IsScalar(e) ==> IsDefined(a, op, e)
  {
    IsAmongMeansIn(op, Parsing.VALUE_OPERATORS);
    if op != "in" && forall a: Value, e: Value :: IsScalar(a) && IsScalar(e) ==> IsDefined(a, op, e) {
      assert IsScalar(Text("")) && IsDefined(Text(""), op, Text(""));
    }
  }

  /******* Expressions *******/

  ghost predicate IsTrue(num: Numerals, e: Expr, row: Row) {
    match e
    case Logical(And, left, right) => IsTrue(num, left, row) && IsTrue(num, right, row)
    case Logical(Or, left, right) => IsTrue(num, left, row) || (IsFalse(num, left, row) && IsTrue(num, right, row))
    case Not(inner) => IsFalse(num, inner, row)
    case Predicate(field, op, value) =>
      exists v: Value :: ValueAt(row, field) == Some(v) && if op == "exists" then v != Nil else Compares(num, v, op, value)
  }

  /** Fields that are missing compare to nothing, with whatever operator. */
  ghost predicate IsFalse(num: Numerals, e: Expr, row: Row) {
    match e
    case Logical(And, left, right) => IsFalse(num, left, row) || (IsTrue(num, left, row) && IsFalse(num, right, row))
    case Logical(Or, left, right) => IsFalse(num, left, row) && IsFalse(num, right, row)
    case Not(inner) => IsTrue(num, inner, row)
    case Predicate(field, op, value) =>
      forall v: Value :: ValueAt(row, field) == Some(v) ==>
        if op == "exists" then v == Nil else IsDefined(v, op, value) && !Compares(num, v, op, value)
  }

  /** The evaluator answers true exactly if the expression is, and false exactly if it is false; an
      error exactly if it is neither. */
  lemma {:induction false} EvalExactlyWhen(num: Numerals, e: Expr, row: Row)
    ensures Eval(num, e, row) == Ok(true) <==> IsTrue(num, e, row)
    ensures Eval(num, e, row) == Ok(false) <==> IsFalse(num, e, row)
  {
    match e
    case Logical(operator, left, right) =>
      EvalExactlyWhen(num, left, row);
      EvalExactlyWhen(num, right, row);
    case Not(inner) =>
      EvalExactlyWhen(num, inner, row);
    case Predicate(field, op, value) =>
      if ValueAt(row, field).Some? {
        HoldsExactlyWhen(num, ValueAt(row, field).value, op, value);
      }
  }
}
