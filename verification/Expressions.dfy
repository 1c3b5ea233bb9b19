/** Filter expressions: internal/dsl/ast.go and internal/dsl/eval.go. */
module Expressions {
  import opened Wrappers
  import opened Texts
  import opened Values

  datatype Connective = And | Or

  datatype Expr =
    | Logical(operator: Connective, left: Expr, right: Expr)
    | Not(inner: Expr)
    | Predicate(field: string, op: string, value: Value)

  /******* Field names *******/

  const ROOTS: seq<string> := [
    "provider", "profile", "domain", "service", "kind", "id", "name", "scope", "region", "zone", "state", "tags",
    "created_at", "updated_at", "observed_at", "attributes", "native", "metric", "timestamp", "value", "unit",
    "dimensions", "date", "amount", "currency", "principal", "principal_type", "resource_id", "roles", "actions",
    "effect", "condition"]

  const AGGREGATE_PREFIXES: seq<string> := ["count_", "sum_", "avg_", "min_", "max_"]

  predicate IsAlphanumeric(c: char) { 'a' <= c <= 'z' || 'A' <= c <= 'Z' || '0' <= c <= '9' }

  predicate AggregateOutputField(field: string) {
    || field == "count"
    || (HasAggregatePrefix(field, AGGREGATE_PREFIXES) && forall c :: c in field ==> c == '_' || IsAlphanumeric(c))
  }

  predicate HasAggregatePrefix(field: string, prefixes: seq<string>) {
    prefixes != [] && ((HasPrefix(field, prefixes[0]) && |field| > |prefixes[0]|) || HasAggregatePrefix(field, prefixes[1..]))
  }

  /** The part of a field before the first dot or bracket. */
  function Root(field: string): (root: string)
    ensures root <= field && '.' !in root && '[' !in root
  {
    if field == "" || field[0] in ".[" then "" else [field[0]] + Root(field[1..])
  }

  predicate IsAmong(name: string, names: seq<string>) {
    names != [] && (name == names[0] || IsAmong(name, names[1..]))
  }

  lemma {:induction false} IsAmongMeansIn(name: string, names: seq<string>)
    ensures IsAmong(name, names) <==> name in names
  {
    if names != [] {
      assert names == [names[0]] + names[1..];
      IsAmongMeansIn(name, names[1..]);
    }
  }

  predicate FieldAllowed(field: string) {
    field != "" && (IsAmong(Root(field), ROOTS) || AggregateOutputField(Root(field)))
  }

  /******* Evaluation *******/

  const ORDER_OPERATORS: set<string> := {">", ">=", "<", "<="}

  function ScalarText(num: Numerals, v: Value): Option<string> {
    match v
    case Text(s) => Some(s)
    case Bool(b) => Some(BoolText(b))
    case Number(n) => Some(num.format(n))
    case _ => None
  }

  predicate ValuesEqual(num: Numerals, a: Value, b: Value) {
    if a.Number? && b.Number? then a.n == b.n
    else a == b || (ScalarText(num, a).Some? && ScalarText(num, a) == ScalarText(num, b))
  }

  predicate Ordered(op: string, comparison: int) {
    match op
    case ">" => comparison > 0
    case ">=" => comparison >= 0
    case "<" => comparison < 0
    case _ => comparison <= 0
  }

  /** One comparison; `Err` where the code returns an error. */
  function Holds(num: Numerals, actual: Value, op: string, expected: Value): Result<bool, string> {
    if op == "in" then
      if expected.List? then Ok(exists item :: item in expected.items && ValuesEqual(num, actual, item))
      else Err("in requires a value list")
    else if op == "==" then Ok(ValuesEqual(num, actual, expected))
    else if op == "!=" then Ok(!ValuesEqual(num, actual, expected))
    else
      match (ScalarText(num, actual), ScalarText(num, expected))
      case (Some(a), Some(e)) =>
        if op == "contains" then Ok(Contains(a, e))
        else if op == "starts_with" then Ok(HasPrefix(a, e))
        else if op == "ends_with" then Ok(HasSuffix(a, e))
        else if op !in ORDER_OPERATORS then Err("unsupported operator")
        else (match (num.parse(a), num.parse(e))
              case (Some(x), Some(y)) => Ok(Ordered(op, CompareReals(x, y)))
              case _ => Ok(Ordered(op, Compare(a, e))))
      case _ => Err("operator requires scalar values")
  }

  function Eval(num: Numerals, e: Expr, row: Row): Result<bool, string> {
    match e
    case Logical(operator, left, right) =>
      (match Eval(num, left, row)
       case Err(error) => Err(error)
       case Ok(value) =>
         if operator == And && !value then Ok(false)
         else if operator == Or && value then Ok(true)
         else Eval(num, right, row))
    case Not(inner) =>
      (match Eval(num, inner, row)
       case Err(error) => Err(error)
       case Ok(value) => Ok(!value))
    case Predicate(field, op, value) =>
      var actual := ValueAt(row, field);
      if op == "exists" then Ok(actual.Some? && actual != Some(Nil))
      else if actual.None? then Ok(false)
      else Holds(num, actual.value, op, value)
  }
}
