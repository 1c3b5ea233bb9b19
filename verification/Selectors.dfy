/**
 Metric pushdown: `MetricSelectors` of internal/dsl/validate.go picks the metrics a query has
 to fetch; the filter is then evaluated on what was fetched.  No row that passes is lost, and
 fetching selector by selector delivers every passing row exactly once.
*/
module Selectors {
  import opened Wrappers
  import opened Texts
  import opened Values
  import opened Expressions

  /******* The selectors of an expression *******/

  function AppendUnique(values: seq<string>, value: string): seq<string> {
    if value in values then values else values + [value]
  }

  /** The loop of `appendUnique`. */
  method AppendIfMissing(values: seq<string>, value: string) returns (r: seq<string>)
    ensures r == AppendUnique(values, value)
  {
    for i := 0 to |values|
      invariant value !in values[..i]
    {
      if values[i] == value {
        return values;
      }
    }
    return values + [value];
  }

  function AppendAll(values: seq<string>, more: seq<string>): seq<string>
    decreases |more|
  {
    if more == [] then values else AppendAll(AppendUnique(values, more[0]), more[1..])
  }

  /** A text that is not blank. */
  predicate IsSelector(v: Value) { v.Text? && !IsBlank(v.s) }

  method Accepts(v: Value) returns (accepted: bool)
    ensures accepted == IsSelector(v)
  {
    if !v.Text? {
      return false;
    }
    BlankTrimsToNothing(v.s);
    accepted := TrimSpace(v.s) != "";
  }

  /** The distinct texts of a list of literals, `None` if one of them is not a selector. */
  function ListSelectors(values: seq<string>, items: seq<Value>): Option<seq<string>>
    decreases |items|
  {
    if items == [] then Some(values)
    else if !IsSelector(items[0]) then None
    else ListSelectors(AppendUnique(values, items[0].s), items[1..])
  }

  /** The selectors, if the expression constrains the metric. */
  function MetricSelectors(e: Expr): Option<seq<string>> {
    match e
    case Predicate(field, op, value) =>
      if field != "metric" then None
      else if op == "==" then if IsSelector(value) then Some([value.s]) else None
      else if op == "in" && value.List? then
        (match ListSelectors([], value.items)
         case Some(selectors) => if selectors == [] then None else Some(selectors)
         case None => None)
      else None
    case Not(_) => None
    case Logical(operator, left, right) =>
      (match (MetricSelectors(left), MetricSelectors(right))
       case (Some(l), Some(r)) => Some(AppendAll(l, r))
       case (Some(l), None) => if operator == Or then None else Some(l)
       case (None, Some(r)) => if operator == Or then None else Some(AppendAll([], r))
       case (None, None) => None)
  }

  /** The loops of `MetricSelectors`, recursing as it does. */
  method CollectSelectors(e: Expr) returns (selectors: seq<string>, ok: bool)
    ensures ok == MetricSelectors(e).Some? && (ok ==> selectors == MetricSelectors(e).value)
    ensures !ok ==> selectors == []
  {
    match e
    case Not(_) => return [], false;
    case Predicate(field, op, value) =>
      if field != "metric" {
        return [], false;
      }
      if op == "==" {
        var accepted := Accepts(value);
        if !accepted {
          return [], false;
        }
        return [value.s], true;
      }
      if op != "in" || !value.List? {
        return [], false;
      }
      selectors := [];
      for i := 0 to |value.items|
        invariant ListSelectors([], value.items) == ListSelectors(selectors, value.items[i..])
      {
        var accepted := Accepts(value.items[i]);
        if !accepted {
          return [], false;
        }
        selectors := AppendIfMissing(selectors, value.items[i].s);
        assert value.items[i..][1..] == value.items[i + 1..];
      }
      return selectors, |selectors| > 0;
    case Logical(operator, left, right) =>
      var l, leftOK := CollectSelectors(left);
      var r, rightOK := CollectSelectors(right);
      if operator == Or && (!leftOK || !rightOK) {
        return [], false;
      }
      if !leftOK && !rightOK {
        return [], false;
      }
      selectors := l;
      for i := 0 to |r|
        invariant AppendAll(l, r) == AppendAll(selectors, r[i..])
      {
        assert r[i..][1..] == r[i + 1..];
        selectors := AppendIfMissing(selectors, r[i]);
      }
      assert AppendAll(selectors, []) == selectors && AppendAll(l, []) == l;
      return selectors, true;
  }

  /******* Selectors are distinct *******/

  ghost predicate Distinct(values: seq<string>) {
    forall i, j :: 0 <= i < j < |values| ==> values[i] != values[j]
  }

  lemma {:induction false} AppendAllKeeps(values: seq<string>, more: seq<string>)
    ensures Distinct(values) ==> Distinct(AppendAll(values, more))
    ensures forall s :: s in AppendAll(values, more) <==> s in values || s in more
    decreases |more|
  {
    if more != [] {
      AppendAllKeeps(AppendUnique(values, more[0]), more[1..]);
      assert more == [more[0]] + more[1..];
    }
  }

  lemma {:induction false} ListSelectorsHave(values: seq<string>, items: seq<Value>, s: string)
    requires ListSelectors(values, items).Some?
    ensures s in ListSelectors(values, items).value <==> s in values || Text(s) in items
    decreases |items|
  {
    if items != [] {
      ListSelectorsHave(AppendUnique(values, items[0].s), items[1..], s);
      assert items == [items[0]] + items[1..];
    }
  }

  lemma {:induction false} ListSelectorsAreTexts(values: seq<string>, items: seq<Value>)
    requires ListSelectors(values, items).Some?
    ensures forall item :: item in items ==> item.Text?
    decreases |items|
  {
    if items != [] {
      ListSelectorsAreTexts(AppendUnique(values, items[0].s), items[1..]);
      assert items == [items[0]] + items[1..];
    }
  }

  lemma ListSelectorsKeep(values: seq<string>, items: seq<Value>)
    requires ListSelectors(values, items).Some?
    ensures forall s :: s in ListSelectors(values, items).value <==> s in values || Text(s) in items
    ensures forall item :: item in items ==> item.Text?
  {
    forall s { ListSelectorsHave(values, items, s); }
    ListSelectorsAreTexts(values, items);
  }

  lemma {:induction false} ListSelectorsStayDistinct(values: seq<string>, items: seq<Value>)
    requires ListSelectors(values, items).Some? && Distinct(values)
    ensures Distinct(ListSelectors(values, items).value)
    decreases |items|
  {
    if items != [] {
      ListSelectorsStayDistinct(AppendUnique(values, items[0].s), items[1..]);
    }
  }

  lemma {:induction false} SelectorsAreDistinct(e: Expr)
    requires MetricSelectors(e).Some?
    ensures Distinct(MetricSelectors(e).value) && MetricSelectors(e).value != []
  {
    match e
    case Predicate(_, op, value) =>
      if op == "in" {
        ListSelectorsKeep([], value.items);
        ListSelectorsStayDistinct([], value.items);
      }
    case Logical(_, left, right) =>
      var l, r := MetricSelectors(left), MetricSelectors(right);
      if l.Some? { SelectorsAreDistinct(left); }
      if r.Some? {
        SelectorsAreDistinct(right);
        var before := if l.Some? then l.value else [];
        AppendAllKeeps(before, r.value);
        assert r.value[0] in AppendAll(before, r.value);
      }
  }

  /******* Pushdown loses nothing *******/

  /** The text of a row's metric. */
  function MetricText(num: Numerals, row: Row): Option<string> {
    match ValueAt(row, "metric")
    case None => None
    case Some(v) => ScalarText(num, v)
  }

  predicate Passes(num: Numerals, e: Expr, row: Row) { Eval(num, e, row) == Ok(true) }

  lemma EqualToText(num: Numerals, actual: Value, expected: Value)
    requires expected.Text? && ValuesEqual(num, actual, expected)
    ensures ScalarText(num, actual) == Some(expected.s)
  {
  }

  lemma InListIsSelected(num: Numerals, actual: Value, items: seq<Value>)
    requires ListSelectors([], items).Some? && exists item :: item in items && ValuesEqual(num, actual, item)
    ensures ScalarText(num, actual).Some? && ScalarText(num, actual).value in ListSelectors([], items).value
  {
    var item :| item in items && ValuesEqual(num, actual, item);
    ListSelectorsKeep([], items);
    EqualToText(num, actual, item);
    assert item == Text(item.s);
  }

  lemma HoldingValueIsSelected(num: Numerals, e: Expr, actual: Value)
    requires e.Predicate? && MetricSelectors(e).Some? && Holds(num, actual, e.op, e.value) == Ok(true)
    ensures ScalarText(num, actual).Some? && ScalarText(num, actual).value in MetricSelectors(e).value
  {
    if e.op == "in" {
      InListIsSelected(num, actual, e.value.items);
    } else {
      EqualToText(num, actual, e.value);
    }
  }

  lemma PassingPredicateIsSelected(num: Numerals, e: Expr, row: Row)
    requires e.Predicate? && MetricSelectors(e).Some? && Passes(num, e, row)
    ensures MetricText(num, row).Some? && MetricText(num, row).value in MetricSelectors(e).value
  {
    HoldingValueIsSelected(num, e, ValueAt(row, e.field).value);
  }

  lemma BranchSelectorsKept(e: Expr)
    requires e.Logical? && MetricSelectors(e).Some?
    ensures var l, r, all := MetricSelectors(e.left), MetricSelectors(e.right), MetricSelectors(e).value;
      && (l.Some? ==> forall s :: s in l.value ==> s in all)
      && (r.Some? ==> forall s :: s in r.value ==> s in all)
      && (e.operator == Or ==> l.Some? && r.Some?)
  {
    var l, r := MetricSelectors(e.left), MetricSelectors(e.right);
    if r.Some? {
      AppendAllKeeps(if l.Some? then l.value else [], r.value);
    }
  }

  /** A row on which the filter is true, without error, has a metric among the selectors. */
  lemma {:induction false} PassingRowsAreSelected(num: Numerals, e: Expr, row: Row)
    requires MetricSelectors(e).Some? && Passes(num, e, row)
    ensures MetricText(num, row).Some? && MetricText(num, row).value in MetricSelectors(e).value
  {
    match e
    case Predicate(_, _, _) => PassingPredicateIsSelected(num, e, row);
    case Logical(operator, left, right) =>
      BranchSelectorsKept(e);
      if MetricSelectors(left).Some? && Passes(num, left, row) {
        PassingRowsAreSelected(num, left, row);
      } else {
        PassingRowsAreSelected(num, right, row);
      }
  }

  function Filter(num: Numerals, e: Expr, rows: seq<Row>): seq<Row> {
    if rows == [] then []
    else (if Passes(num, e, rows[0]) then [rows[0]] else []) + Filter(num, e, rows[1..])
  }

  /** What a provider holds for one selector. */
  function RowsOf(num: Numerals, selector: string, rows: seq<Row>): seq<Row> {
    if rows == [] then []
    else (if MetricText(num, rows[0]) == Some(selector) then [rows[0]] else []) + RowsOf(num, selector, rows[1..])
  }

  /** What is fetched when every selector is asked for in turn. */
  function Fetched(num: Numerals, selectors: seq<string>, rows: seq<Row>): seq<Row> {
    if selectors == [] then [] else RowsOf(num, selectors[0], rows) + Fetched(num, selectors[1..], rows)
  }

  lemma CountOneMore(first: Row, kept: bool, rest: seq<Row>, row: Row)
    ensures multiset((if kept then [first] else []) + rest)[row] == multiset(rest)[row] + (if kept && first == row then 1 else 0)
  {
  }

  lemma {:induction false} FilterCounts(num: Numerals, e: Expr, rows: seq<Row>, row: Row)
    ensures multiset(Filter(num, e, rows))[row] == if Passes(num, e, row) then multiset(rows)[row] else 0
  {
    if rows != [] {
      FilterCounts(num, e, rows[1..], row);
      CountOneMore(rows[0], Passes(num, e, rows[0]), Filter(num, e, rows[1..]), row);
      CountOneMore(rows[0], true, rows[1..], row);
      assert rows == [rows[0]] + rows[1..];
    }
  }

  lemma {:induction false} RowsOfCounts(num: Numerals, selector: string, rows: seq<Row>, row: Row)
    ensures multiset(RowsOf(num, selector, rows))[row] == if MetricText(num, row) == Some(selector) then multiset(rows)[row] else 0
  {
    if rows != [] {
      RowsOfCounts(num, selector, rows[1..], row);
      CountOneMore(rows[0], MetricText(num, rows[0]) == Some(selector), RowsOf(num, selector, rows[1..]), row);
      CountOneMore(rows[0], true, rows[1..], row);
      assert rows == [rows[0]] + rows[1..];
    }
  }

  lemma CountJoined(a: seq<Row>, b: seq<Row>, row: Row)
    ensures multiset(a + b)[row] == multiset(a)[row] + multiset(b)[row]
  {
  }

  /** A row is fetched once for its metric, if that is selected, and not otherwise. */
  lemma {:induction false} FetchedCounts(num: Numerals, selectors: seq<string>, rows: seq<Row>, row: Row)
    requires Distinct(selectors)
    ensures multiset(Fetched(num, selectors, rows))[row] ==
      match MetricText(num, row) case None => 0 case Some(text) => if text in selectors then multiset(rows)[row] else 0
  {
    if selectors != [] {
      FetchedCounts(num, selectors[1..], rows, row);
      RowsOfCounts(num, selectors[0], rows, row);
      CountJoined(RowsOf(num, selectors[0], rows), Fetched(num, selectors[1..], rows), row);
      assert selectors == [selectors[0]] + selectors[1..];
    }
  }

  /** Fetching only the selectors, one after the other, and filtering keeps exactly the rows that
      filtering everything keeps, each as often. */
  lemma PushdownIsSound(num: Numerals, e: Expr, rows: seq<Row>)
    requires MetricSelectors(e).Some?
    ensures multiset(Filter(num, e, Fetched(num, MetricSelectors(e).value, rows))) == multiset(Filter(num, e, rows))
  {
    var fetched := Fetched(num, MetricSelectors(e).value, rows);
    forall row: Row
      ensures multiset(Filter(num, e, fetched))[row] == multiset(Filter(num, e, rows))[row]
    {
      FilterCounts(num, e, fetched, row);
      FilterCounts(num, e, rows, row);
      if Passes(num, e, row) {
        SelectorsAreDistinct(e);
        PassingRowsAreSelected(num, e, row);
        FetchedCounts(num, MetricSelectors(e).value, rows, row);
      }
    }
  }
}
