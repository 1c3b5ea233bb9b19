/** Which metrics an expression selects, stated by its shape. */
module SelectorLaws {
  import opened Wrappers
  import opened Texts
  import opened Values
  import opened Expressions
  import opened Selectors

  /** A text with a character that is no space. */
  predicate IsMetricName(v: Value) { v.Text? && exists i :: 0 <= i < |v.s| && !IsSpace(v.s[i]) }

  /** Whatever passes has one of some metrics: every branch of an `or`, or some side of an `and`, compares
      the metric for equality with names and nothing else. */
  predicate Constrains(e: Expr) {
    match e
    case Predicate(field, op, value) =>
      && field == "metric"
      && ((op == "==" && IsMetricName(value))
          || (op == "in" && value.List? && value.items != [] && forall i :: 0 <= i < |value.items| ==> IsMetricName(value.items[i])))
    case Not(_) => false
    case Logical(And, left, right) => Constrains(left) || Constrains(right)
    case Logical(Or, left, right) => Constrains(left) && Constrains(right)
  }

  /** The name is one of those that the metric is compared with. */
  predicate Names(e: Expr, s: string) {
    match e
    case Predicate(_, op, value) => if value.List? then Text(s) in value.items else value == Text(s)
    case Not(_) => false
    case Logical(_, left, right) => (Constrains(left) && Names(left, s)) || (Constrains(right) && Names(right, s))
  }

  lemma NameExactlyWhen(v: Value)
    ensures IsSelector(v) <==> IsMetricName(v)
  {
  }

  lemma {:induction false} ListExactlyWhen(values: seq<string>, items: seq<Value>)
    ensures ListSelectors(values, items).Some? <==> forall i :: 0 <= i < |items| ==> IsMetricName(items[i])
    decreases |items|
  {
    if items != [] {
      NameExactlyWhen(items[0]);
      if IsSelector(items[0]) {
        ListExactlyWhen(AppendUnique(values, items[0].s), items[1..]);
        assert forall i :: 1 <= i < |items| ==> items[i] == items[1..][i - 1];
      }
    }
  }

  lemma {:induction false} ConstrainsExactlyWhen(e: Expr)
    ensures MetricSelectors(e).Some? <==> Constrains(e)
  {
    match e
    case Predicate(_, op, value) =>
      NameExactlyWhen(value);
      if op == "in" && value.List? {
        ListExactlyWhen([], value.items);
        if ListSelectors([], value.items).Some? && value.items != [] {
          ListSelectorsHave([], value.items, value.items[0].s);
        }
      }
    case Not(_) =>
    case Logical(_, left, right) =>
      ConstrainsExactlyWhen(left);
      ConstrainsExactlyWhen(right);
  }

  /** Metrics are selected exactly by an expression that constrains them, and exactly those it names. */
  lemma {:induction false} SelectedExactlyWhen(e: Expr, s: string)
    requires MetricSelectors(e).Some?
    ensures Constrains(e) && (s in MetricSelectors(e).value <==> Names(e, s))
  {
    ConstrainsExactlyWhen(e);
    match e
    case Predicate(_, op, value) =>
      if op == "in" {
        ListSelectorsHave([], value.items, s);
      }
    case Logical(_, left, right) =>
      var l, r := MetricSelectors(left), MetricSelectors(right);
      ConstrainsExactlyWhen(left);
      ConstrainsExactlyWhen(right);
      if l.Some? { SelectedExactlyWhen(left, s); }
      if r.Some? {
        SelectedExactlyWhen(right, s);
        AppendAllKeeps(if l.Some? then l.value else [], r.value);
      }
  }
}
