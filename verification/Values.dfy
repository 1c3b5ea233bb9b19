/** Rows as the engine sees them: JSON-like values, looked up by path. */
module Values {
  import opened Wrappers
  import opened Texts

  /** Go's `any`, as far as rows and literals use it; numbers are reals. */
  datatype Value =
    | Nil
    | Bool(b: bool)
    | Number(n: real)
    | Text(s: string)
    | List(items: seq<Value>)
    | Object(fields: Row)

  type Row = map<string, Value>

  /** `strconv.ParseFloat`, `strconv.FormatFloat(_, 'f', -1, 64)`, and `fmt.Sprint` on what is
      neither nil, a boolean nor a string: total functions about which nothing is assumed. */
  datatype Numerals = Numerals(parse: string -> Option<real>, format: real -> string, print_: Value -> string)

  function CompareReals(a: real, b: real): int {
    if a < b then -1 else if a > b then 1 else 0
  }

  function BoolText(b: bool): string { if b then "true" else "false" }

  /** `fmt.Sprint`. */
  function Sprint(num: Numerals, v: Value): string {
    match v
    case Nil => "<nil>"
    case Bool(b) => BoolText(b)
    case Text(s) => s
    case _ => num.print_(v)
  }

  function SplitPath(path: string): seq<string> {
    var path := ReplaceAll(path, "[\"", ".");
    var path := ReplaceAll(path, "['", ".");
    var path := ReplaceAll(path, "\"]", "");
    var path := ReplaceAll(path, "']", "");
    Fields(path, '.')
  }

  function Walk(v: Value, parts: seq<string>): Option<Value> {
    if parts == [] then Some(v)
    else if v.Object? && parts[0] in v.fields then Walk(v.fields[parts[0]], parts[1..])
    else None
  }

  /** What a path names in a row: an own key first, then a walk through nested objects. */
  function ValueAt(row: Row, path: string): Option<Value> {
    if path in row then Some(row[path]) else Walk(Object(row), SplitPath(path))
  }

  /** The loop of `ValueAt`. */
  method LookUp(row: Row, path: string) returns (found: Option<Value>)
    ensures found == ValueAt(row, path)
  {
    if path in row {
      return Some(row[path]);
    }
    var parts := SplitPath(path);
    var current := Object(row);
    for i := 0 to |parts|
      invariant Walk(Object(row), parts) == Walk(current, parts[i..])
    {
      if !current.Object? || parts[i] !in current.fields {
        return None;
      }
      current := current.fields[parts[i]];
      assert parts[i..][1..] == parts[i + 1..];
    }
    return Some(current);
  }

  /** A path without brackets, quotes or dots has one part. */
  lemma PlainSplit(path: string)
    requires path != "" && forall c :: c in "[\"'." ==> c !in path
    ensures SplitPath(path) == [path]
  {
    ReplaceNothing(path, "[\"", ".");
    ReplaceNothing(path, "['", ".");
    ReplaceNothing(path, "\"]", "");
    ReplaceNothing(path, "']", "");
    assert forall c :: c in path ==> c != '.';
    var n := WordLength(path, '.');
    assert n == |path| && path[..n] == path && path[n..] == "";
    assert Fields(path, '.') == [path[..n]] + Fields(path[n..], '.');
  }
}
