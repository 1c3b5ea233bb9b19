/**
 Aggregation: `aggregateRows` of internal/engine/engine.go folds the rows into accumulators as
 they come; each group's row is the grouping of the rows and the fold of its usable values.
*/
module Aggregation {
  import opened Wrappers
  import opened Values

  datatype Function = Counting | Summing | Averaging | Least | Greatest

  datatype Aggregate = Aggregate(fn: Function, field: string, alias: string)

  /******* Grouping *******/

  function GroupValue(row: Row, field: string): Value {
    match ValueAt(row, field)
    case Some(v) => v
    case None => Nil
  }

  /** Texts joined by a NUL character. */
  function Join(parts: seq<string>): string {
    if parts == [] then "" else if |parts| == 1 then parts[0] else parts[0] + "\0" + Join(parts[1..])
  }

  function KeyParts(num: Numerals, groupBy: seq<string>, row: Row): seq<string> {
    seq(|groupBy|, i requires 0 <= i < |groupBy| => Sprint(num, GroupValue(row, groupBy[i])))
  }

  function Key(num: Numerals, groupBy: seq<string>, row: Row): string { Join(KeyParts(num, groupBy, row)) }

  /** The rows of one group, in order. */
  function Group(num: Numerals, groupBy: seq<string>, key: string, rows: seq<Row>): seq<Row> {
    if rows == [] then []
    else
      var before := Group(num, groupBy, key, rows[..|rows| - 1]);
      if Key(num, groupBy, rows[|rows| - 1]) == key then before + [rows[|rows| - 1]] else before
  }

  /******* One aggregate over one group *******/

  /** What a row contributes: a number, or nothing. */
  function Usable(num: Numerals, a: Aggregate, row: Row): Option<real> {
    if a.fn.Counting? then
      if a.field == "*" then Some(1.0)
      else match ValueAt(row, a.field)
           case None => None
           case Some(v) => if v == Nil then None else Some(1.0)
    else
      match ValueAt(row, a.field)
      case None => None
      case Some(v) => num.parse(Sprint(num, v))
  }

  function UsableValues(num: Numerals, a: Aggregate, rows: seq<Row>): seq<real> {
    if rows == [] then []
    else
      var before := UsableValues(num, a, rows[..|rows| - 1]);
      match Usable(num, a, rows[|rows| - 1])
      case None => before
      case Some(x) => before + [x]
  }

  function SumOf(xs: seq<real>): real {
    if xs == [] then 0.0 else SumOf(xs[..|xs| - 1]) + xs[|xs| - 1]
  }

  function MinOf(xs: seq<real>): (m: real)
    requires xs != []
    ensures m in xs && forall x :: x in xs ==> m <= x
  {
    if |xs| == 1 then xs[0] else
    var m, x := MinOf(xs[..|xs| - 1]), xs[|xs| - 1];
    assert xs == xs[..|xs| - 1] + [x];
    if x < m then x else m
  }

  function MaxOf(xs: seq<real>): (m: real)
    requires xs != []
    ensures m in xs && forall x :: x in xs ==> x <= m
  {
    if |xs| == 1 then xs[0] else
    var m, x := MaxOf(xs[..|xs| - 1]), xs[|xs| - 1];
    assert xs == xs[..|xs| - 1] + [x];
    if x > m then x else m
  }

  /** The value an aggregate has over the usable values of a group. */
  function Fold(fn: Function, xs: seq<real>): real
    requires xs != []
  {
    match fn
    case Counting => |xs| as real
    case Summing => SumOf(xs)
    case Averaging => SumOf(xs) / |xs| as real
    case Least => MinOf(xs)
    case Greatest => MaxOf(xs)
  }

  /******* Group rows *******/

  ghost predicate NamesApart(aggregates: seq<Aggregate>, groupBy: seq<string>) {
    && (forall i, j :: 0 <= i < j < |aggregates| ==> aggregates[i].alias != aggregates[j].alias)
    && (forall i :: 0 <= i < |aggregates| ==> aggregates[i].alias !in groupBy)
  }

  /** What the accumulator's row shows while averages are not yet divided, and afterwards. */
  function Shown(divided: bool, fn: Function, xs: seq<real>): real
    requires xs != []
  {
    if fn.Averaging? && !divided then SumOf(xs) else Fold(fn, xs)
  }

  ghost predicate CellIs(divided: bool, a: Aggregate, xs: seq<real>, row: Row) {
    if xs == [] then a.alias !in row else a.alias in row && row[a.alias] == Number(Shown(divided, a.fn, xs))
  }

  /** `row` has the first row's values under the group keys, under each alias the aggregate of the
      group's usable values, when there are any, and nothing else. */
  ghost predicate HoldsCells(num: Numerals, aggregates: seq<Aggregate>, groupBy: seq<string>, divided: bool, group: seq<Row>, row: Row) {
    && group != []
    && (forall field :: field in groupBy ==> field in row && row[field] == GroupValue(group[0], field))
    && (forall i :: 0 <= i < |aggregates| ==> CellIs(divided, aggregates[i], UsableValues(num, aggregates[i], group), row))
    && (forall name :: name in row ==> name in groupBy || exists i :: 0 <= i < |aggregates| && aggregates[i].alias == name)
  }

  ghost predicate IsGroupRow(num: Numerals, aggregates: seq<Aggregate>, groupBy: seq<string>, group: seq<Row>, row: Row) {
    HoldsCells(num, aggregates, groupBy, true, group, row)
  }

  /** A group determines its row. */
  lemma GroupRowIsUnique(num: Numerals, aggregates: seq<Aggregate>, groupBy: seq<string>, group: seq<Row>, a: Row, b: Row)
    requires IsGroupRow(num, aggregates, groupBy, group, a) && IsGroupRow(num, aggregates, groupBy, group, b)
    ensures a == b
  {
    forall name | name in a || name in b
      ensures name in a && name in b && a[name] == b[name]
    {
      if name !in groupBy {
        var i :| 0 <= i < |aggregates| && aggregates[i].alias == name;
        assert CellIs(true, aggregates[i], UsableValues(num, aggregates[i], group), a);
        assert CellIs(true, aggregates[i], UsableValues(num, aggregates[i], group), b);
      }
    }
    assert a.Keys == b.Keys;
  }

  /******* Streaming *******/

  /** The accumulator of one group. */
  datatype Accumulator = Accumulator(row: Row, count: map<string, nat>, initialized: set<string>)

  function CountOf(acc: Accumulator, alias: string): nat { if alias in acc.count then acc.count[alias] else 0 }

  /** The accumulator stands for usable values `xs` of aggregate `a`. */
  ghost predicate Stands(acc: Accumulator, a: Aggregate, xs: seq<real>) {
    && CellIs(false, a, xs, acc.row)
    && (a.fn.Counting? || a.fn.Summing? || a.fn.Averaging? ==> CountOf(acc, a.alias) == |xs|)
    && (a.fn.Least? || a.fn.Greatest? ==> (a.alias in acc.initialized <==> xs != []))
  }

  lemma LastOf(xs: seq<real>, x: real)
    ensures SumOf(xs + [x]) == SumOf(xs) + x
    ensures xs != [] ==> MinOf(xs + [x]) == (if x < MinOf(xs) then x else MinOf(xs))
    ensures xs != [] ==> MaxOf(xs + [x]) == (if x > MaxOf(xs) then x else MaxOf(xs))
  {
    assert (xs + [x])[..|xs|] == xs;
  }

  /** One usable value reaches the accumulator; the body of the loop over aggregates. */
  method Absorb(acc: Accumulator, a: Aggregate, n: real, ghost xs: seq<real>) returns (r: Accumulator)
    requires Stands(acc, a, xs) && (a.fn.Counting? ==> n == 1.0)
    ensures Stands(r, a, xs + [n])
    ensures r.row.Keys == acc.row.Keys + {a.alias} && forall name :: name in acc.row && name != a.alias ==> r.row[name] == acc.row[name]
    ensures forall alias :: alias != a.alias ==> CountOf(r, alias) == CountOf(acc, alias)
    ensures forall alias :: alias != a.alias ==> (alias in r.initialized <==> alias in acc.initialized)
  {
    LastOf(xs, n);
    var current := if a.alias in acc.row && acc.row[a.alias].Number? then acc.row[a.alias].n else 0.0;
    match a.fn
    case Counting =>
      var count := CountOf(acc, a.alias) + 1;
      return acc.(count := acc.count[a.alias := count], row := acc.row[a.alias := Number(count as real)]);
    case Summing =>
      return acc.(row := acc.row[a.alias := Number(current + n)], count := acc.count[a.alias := CountOf(acc, a.alias) + 1]);
    case Averaging =>
      return acc.(row := acc.row[a.alias := Number(current + n)], count := acc.count[a.alias := CountOf(acc, a.alias) + 1]);
    case Least =>
      r := acc;
      if a.alias !in acc.initialized || n < current {
        r := r.(row := r.row[a.alias := Number(n)]);
      }
      r := r.(initialized := r.initialized + {a.alias});
    case Greatest =>
      r := acc;
      if a.alias !in acc.initialized || n > current {
        r := r.(row := r.row[a.alias := Number(n)]);
      }
      r := r.(initialized := r.initialized + {a.alias});
  }

  lemma UntouchedStands(acc: Accumulator, r: Accumulator, a: Aggregate, xs: seq<real>)
    requires Stands(acc, a, xs)
    requires a.alias in r.row <==> a.alias in acc.row
    requires a.alias in acc.row ==> r.row[a.alias] == acc.row[a.alias]
    requires CountOf(r, a.alias) == CountOf(acc, a.alias) && (a.alias in r.initialized <==> a.alias in acc.initialized)
    ensures Stands(r, a, xs)
  {
  }

  lemma UsableOfMore(num: Numerals, a: Aggregate, group: seq<Row>, row: Row)
    ensures UsableValues(num, a, group + [row]) ==
      match Usable(num, a, row) case None => UsableValues(num, a, group) case Some(x) => UsableValues(num, a, group) + [x]
  {
    assert (group + [row])[..|group|] == group;
  }

  ghost predicate AllStand(num: Numerals, aggregates: seq<Aggregate>, acc: Accumulator, group: seq<Row>) {
    forall i :: 0 <= i < |aggregates| ==> Stands(acc, aggregates[i], UsableValues(num, aggregates[i], group))
  }

  /** Only cells of aggregates may change. */
  ghost predicate KeepsOthers(aggregates: seq<Aggregate>, before: Row, after: Row) {
    && before.Keys <= after.Keys
    && (forall name :: name in after ==> name in before || exists i :: 0 <= i < |aggregates| && aggregates[i].alias == name)
    && (forall name :: name in before && (forall i :: 0 <= i < |aggregates| ==> aggregates[i].alias != name) ==> after[name] == before[name])
  }

  /** The first `i` aggregates have absorbed the row, the others not yet. */
  ghost predicate Absorbed(num: Numerals, aggregates: seq<Aggregate>, acc: Accumulator, group: seq<Row>, row: Row, i: nat) {
    forall j :: 0 <= j < |aggregates| ==>
      Stands(acc, aggregates[j], UsableValues(num, aggregates[j], if j < i then group + [row] else group))
  }

  lemma AbsorbedNext(num: Numerals, aggregates: seq<Aggregate>, acc: Accumulator, r: Accumulator, group: seq<Row>, row: Row, i: nat)
    requires i < |aggregates| && forall j :: 0 <= j < |aggregates| && j != i ==> aggregates[j].alias != aggregates[i].alias
    requires Absorbed(num, aggregates, acc, group, row, i)
    requires Stands(r, aggregates[i], UsableValues(num, aggregates[i], group + [row]))
    requires forall name :: name != aggregates[i].alias ==>
      && (name in r.row <==> name in acc.row) && (name in acc.row ==> r.row[name] == acc.row[name])
      && CountOf(r, name) == CountOf(acc, name) && (name in r.initialized <==> name in acc.initialized)
    ensures Absorbed(num, aggregates, r, group, row, i + 1)
  {
    forall j | 0 <= j < |aggregates| && j != i
      ensures Stands(r, aggregates[j], UsableValues(num, aggregates[j], if j < i + 1 then group + [row] else group))
    {
      UntouchedStands(acc, r, aggregates[j], UsableValues(num, aggregates[j], if j < i then group + [row] else group));
    }
  }

  /** The loop over the aggregates for one row. */
  method AbsorbRow(num: Numerals, aggregates: seq<Aggregate>, groupBy: seq<string>, acc: Accumulator, row: Row, ghost group: seq<Row>)
    returns (r: Accumulator)
    requires NamesApart(aggregates, groupBy) && AllStand(num, aggregates, acc, group)
    ensures AllStand(num, aggregates, r, group + [row])
    ensures KeepsOthers(aggregates, acc.row, r.row)
  {
    r := acc;
    for i := 0 to |aggregates|
      invariant KeepsOthers(aggregates, acc.row, r.row)
      invariant Absorbed(num, aggregates, r, group, row, i)
    {
      ghost var before := r;
      r := AbsorbOne(num, aggregates[i], r, row, group);
      AbsorbedNext(num, aggregates, before, r, group, row, i);
    }
  }

  method AbsorbOne(num: Numerals, a: Aggregate, acc: Accumulator, row: Row, ghost group: seq<Row>) returns (r: Accumulator)
    requires Stands(acc, a, UsableValues(num, a, group))
    ensures Stands(r, a, UsableValues(num, a, group + [row]))
    ensures acc.row.Keys <= r.row.Keys
    ensures forall name :: name != a.alias ==>
      && (name in r.row <==> name in acc.row) && (name in acc.row ==> r.row[name] == acc.row[name])
      && CountOf(r, name) == CountOf(acc, name) && (name in r.initialized <==> name in acc.initialized)
  {
    UsableOfMore(num, a, group, row);
    r := acc;
    var n := Contribution(num, a, row);
    if n.Some? {
      r := Absorb(acc, a, n.value, UsableValues(num, a, group));
    }
  }

  /** The guards at the head of the loop body. */
  method Contribution(num: Numerals, a: Aggregate, row: Row) returns (n: Option<real>)
    ensures n == Usable(num, a, row)
    ensures a.fn.Counting? && n.Some? ==> n.value == 1.0
  {
    if a.fn.Counting? {
      if a.field != "*" {
        var value := LookUp(row, a.field);
        if value.None? || value.value == Nil {
          return None;
        }
      }
      return Some(1.0);
    }
    var value := LookUp(row, a.field);
    if value.None? {
      return None;
    }
    return num.parse(Sprint(num, value.value));
  }

  /** The values of some group keys in a row. */
  ghost predicate AreValuesOf(values: Row, fields: seq<string>, row: Row) {
    && (forall name :: name in values <==> name in fields)
    && (forall name :: name in values ==> values[name] == GroupValue(row, name))
  }

  lemma OneMoreValue(values: Row, fields: seq<string>, row: Row, field: string)
    requires AreValuesOf(values, fields, row)
    ensures AreValuesOf(values[field := GroupValue(row, field)], fields + [field], row)
  {
  }

  lemma OneMorePart(num: Numerals, groupBy: seq<string>, row: Row, i: nat)
    requires i < |groupBy|
    ensures KeyParts(num, groupBy[..i + 1], row) == KeyParts(num, groupBy[..i], row) + [Sprint(num, GroupValue(row, groupBy[i]))]
    ensures groupBy[..i + 1] == groupBy[..i] + [groupBy[i]]
  {
  }

  /** The loop over the group keys. */
  method KeyAndValues(num: Numerals, groupBy: seq<string>, row: Row) returns (key: string, values: Row)
    ensures key == Key(num, groupBy, row)
    ensures AreValuesOf(values, groupBy, row)
  {
    var parts: seq<string> := [];
    values := map[];
    for i := 0 to |groupBy|
      invariant parts == KeyParts(num, groupBy[..i], row) && AreValuesOf(values, groupBy[..i], row)
    {
      OneMoreValue(values, groupBy[..i], row, groupBy[i]);
      OneMorePart(num, groupBy, row, i);
      var value := LookUp(row, groupBy[i]);
      var v := if value.Some? then value.value else Nil;
      parts := parts + [Sprint(num, v)];
      values := values[groupBy[i] := v];
    }
    assert groupBy[..|groupBy|] == groupBy;
    key := Join(parts);
  }

  /** An accumulator that has absorbed exactly the rows of a group. */
  ghost predicate GroupStands(num: Numerals, aggregates: seq<Aggregate>, groupBy: seq<string>, acc: Accumulator, group: seq<Row>) {
    HoldsCells(num, aggregates, groupBy, false, group, acc.row) && AllStand(num, aggregates, acc, group)
  }

  lemma GroupOfMore(num: Numerals, groupBy: seq<string>, key: string, rows: seq<Row>, row: Row)
    ensures Group(num, groupBy, key, rows + [row]) ==
      if Key(num, groupBy, row) == key then Group(num, groupBy, key, rows) + [row] else Group(num, groupBy, key, rows)
  {
    assert (rows + [row])[..|rows|] == rows;
  }

  lemma NewAccumulatorStands(num: Numerals, aggregates: seq<Aggregate>, groupBy: seq<string>, values: Row)
    requires NamesApart(aggregates, groupBy) && forall name :: name in values <==> name in groupBy
    ensures AllStand(num, aggregates, Accumulator(values, map[], {}), [])
  {
  }

  lemma AbsorbedGroupStands(num: Numerals, aggregates: seq<Aggregate>, groupBy: seq<string>, values: Row, acc: Accumulator, group: seq<Row>)
    requires NamesApart(aggregates, groupBy) && group != [] && AllStand(num, aggregates, acc, group)
    requires KeepsOthers(aggregates, values, acc.row)
    requires forall field :: field in groupBy ==> field in values && values[field] == GroupValue(group[0], field)
    requires forall name :: name in values ==> name in groupBy || exists i :: 0 <= i < |aggregates| && aggregates[i].alias == name
    ensures GroupStands(num, aggregates, groupBy, acc, group)
  {
    forall field | field in groupBy
      ensures field in acc.row && acc.row[field] == GroupValue(group[0], field)
    {
      assert forall i :: 0 <= i < |aggregates| ==> aggregates[i].alias != field;
    }
    forall i | 0 <= i < |aggregates|
      ensures CellIs(false, aggregates[i], UsableValues(num, aggregates[i], group), acc.row)
    {
      assert Stands(acc, aggregates[i], UsableValues(num, aggregates[i], group));
    }
  }

  /** One row: its group's accumulator is made or found, and absorbs it. */
  method AbsorbIntoGroup(num: Numerals, aggregates: seq<Aggregate>, groupBy: seq<string>, groups: map<string, Accumulator>,
                         row: Row, ghost group: seq<Row>)
    returns (key: string, acc: Accumulator)
    requires NamesApart(aggregates, groupBy)
    requires var k := Key(num, groupBy, row);
      (k in groups <==> group != []) && (k in groups ==> GroupStands(num, aggregates, groupBy, groups[k], group))
    ensures key == Key(num, groupBy, row) && GroupStands(num, aggregates, groupBy, acc, group + [row])
  {
    var values;
    key, values := KeyAndValues(num, groupBy, row);
    if key !in groups {
      NewAccumulatorStands(num, aggregates, groupBy, values);
      acc := Accumulator(values, map[], {});
    } else {
      acc := groups[key];
    }
    ghost var before := acc.row;
    acc := AbsorbRow(num, aggregates, groupBy, acc, row, group);
    AbsorbedGroupStands(num, aggregates, groupBy, before, acc, group + [row]);
  }

  /** The first `i` averages are divided, the others not yet. */
  ghost predicate Divided(num: Numerals, aggregates: seq<Aggregate>, group: seq<Row>, row: Row, i: nat) {
    forall j :: 0 <= j < |aggregates| ==> CellIs(j < i, aggregates[j], UsableValues(num, aggregates[j], group), row)
  }

  lemma DividedNext(num: Numerals, aggregates: seq<Aggregate>, group: seq<Row>, row: Row, after: Row, i: nat)
    requires i < |aggregates| && forall j :: 0 <= j < |aggregates| && j != i ==> aggregates[j].alias != aggregates[i].alias
    requires Divided(num, aggregates, group, row, i) && row.Keys == after.Keys
    requires forall name :: name in row && name != aggregates[i].alias ==> after[name] == row[name]
    requires CellIs(true, aggregates[i], UsableValues(num, aggregates[i], group), after)
    ensures Divided(num, aggregates, group, after, i + 1)
  {
    forall j | 0 <= j < |aggregates| && j != i
      ensures CellIs(j < i + 1, aggregates[j], UsableValues(num, aggregates[j], group), after)
    {
      assert CellIs(j < i, aggregates[j], UsableValues(num, aggregates[j], group), row);
    }
  }

  /** The division of averages, after the last row. */
  method Divide(num: Numerals, aggregates: seq<Aggregate>, groupBy: seq<string>, acc: Accumulator, ghost group: seq<Row>) returns (row: Row)
    requires NamesApart(aggregates, groupBy) && GroupStands(num, aggregates, groupBy, acc, group)
    ensures IsGroupRow(num, aggregates, groupBy, group, row)
  {
    row := acc.row;
    for i := 0 to |aggregates|
      invariant row.Keys == acc.row.Keys
      invariant forall field :: field in groupBy ==> row[field] == acc.row[field]
      invariant Divided(num, aggregates, group, row, i)
    {
      ghost var before := row;
      row := DivideOne(num, aggregates[i], acc, row, group);
      DividedNext(num, aggregates, group, before, row, i);
    }
    forall i | 0 <= i < |aggregates|
      ensures CellIs(true, aggregates[i], UsableValues(num, aggregates[i], group), row)
    {
    }
  }

  method DivideOne(num: Numerals, a: Aggregate, acc: Accumulator, row: Row, ghost group: seq<Row>) returns (r: Row)
    requires Stands(acc, a, UsableValues(num, a, group)) && CellIs(false, a, UsableValues(num, a, group), row)
    ensures CellIs(true, a, UsableValues(num, a, group), r) && r.Keys == row.Keys
    ensures forall name :: name in row && name != a.alias ==> r[name] == row[name]
  {
    r := row;
    if a.fn.Averaging? && CountOf(acc, a.alias) > 0 {
      r := row[a.alias := Number(row[a.alias].n / CountOf(acc, a.alias) as real)];
    }
  }

  /******* The whole *******/

  function CountsOfNothing(aggregates: seq<Aggregate>): Row {
    if aggregates == [] then map[]
    else
      var row := CountsOfNothing(aggregates[..|aggregates| - 1]);
      if aggregates[|aggregates| - 1].fn.Counting? then row[aggregates[|aggregates| - 1].alias := Number(0.0)] else row
  }

  /** `keys` lists the groups of the rows, each once. */
  ghost predicate ListsGroups(num: Numerals, groupBy: seq<string>, rows: seq<Row>, keys: seq<string>) {
    && (forall i, j :: 0 <= i < j < |keys| ==> keys[i] != keys[j])
    && (forall key :: key in keys <==> Group(num, groupBy, key, rows) != [])
  }

  /** What aggregation returns: a row for each group, in some order; or, for no rows and no group
      keys, one row of zero counts. */
  ghost predicate IsAggregation(num: Numerals, aggregates: seq<Aggregate>, groupBy: seq<string>, rows: seq<Row>, keys: seq<string>, result: seq<Row>) {
    if rows == [] && groupBy == [] && CountsOfNothing(aggregates) != map[] then result == [CountsOfNothing(aggregates)] && keys == []
    else AreGroupRows(num, aggregates, groupBy, rows, keys, result)
  }

  ghost predicate AreGroupRows(num: Numerals, aggregates: seq<Aggregate>, groupBy: seq<string>, rows: seq<Row>, keys: seq<string>, result: seq<Row>) {
    && ListsGroups(num, groupBy, rows, keys) && |result| == |keys|
    && forall i :: 0 <= i < |keys| ==> IsGroupRow(num, aggregates, groupBy, Group(num, groupBy, keys[i], rows), result[i])
  }

  /** There is an accumulator for each group of the rows, and it has absorbed that group. */
  ghost predicate GroupsStand(num: Numerals, aggregates: seq<Aggregate>, groupBy: seq<string>, groups: map<string, Accumulator>, rows: seq<Row>) {
    && (forall key :: key in groups <==> Group(num, groupBy, key, rows) != [])
    && (forall key :: key in groups ==> GroupStands(num, aggregates, groupBy, groups[key], Group(num, groupBy, key, rows)))
  }

  lemma GroupsStandNext(num: Numerals, aggregates: seq<Aggregate>, groupBy: seq<string>, groups: map<string, Accumulator>,
                        rows: seq<Row>, row: Row, acc: Accumulator)
    requires GroupsStand(num, aggregates, groupBy, groups, rows)
    requires GroupStands(num, aggregates, groupBy, acc, Group(num, groupBy, Key(num, groupBy, row), rows) + [row])
    ensures GroupsStand(num, aggregates, groupBy, groups[Key(num, groupBy, row) := acc], rows + [row])
  {
    forall key
      ensures var more := groups[Key(num, groupBy, row) := acc];
        && (key in more <==> Group(num, groupBy, key, rows + [row]) != [])
        && (key in more ==> GroupStands(num, aggregates, groupBy, more[key], Group(num, groupBy, key, rows + [row])))
    {
      GroupOfMore(num, groupBy, key, rows, row);
    }
  }

  lemma Extend<T>(items: seq<T>, i: nat)
    requires i < |items|
    ensures items[..i] + [items[i]] == items[..i + 1]
  {
  }

  method AggregateRows(num: Numerals, rows: seq<Row>, aggregates: seq<Aggregate>, groupBy: seq<string>)
    returns (result: seq<Row>)
    requires NamesApart(aggregates, groupBy)
    ensures exists keys: seq<string> :: IsAggregation(num, aggregates, groupBy, rows, keys, result)
  {
    var groups := AbsorbRows(num, rows, aggregates, groupBy);
    if |rows| == 0 && |groupBy| == 0 {
      var row := ZeroCounts(aggregates);
      if |row| > 0 {
        result := [row];
        assert IsAggregation(num, aggregates, groupBy, rows, [], result);
        return;
      }
    }
    result := FinishGroups(num, rows, aggregates, groupBy, groups);
    ghost var keys: seq<string> :| AreGroupRows(num, aggregates, groupBy, rows, keys, result);
    assert IsAggregation(num, aggregates, groupBy, rows, keys, result);
  }

  /** The loop over the rows. */
  method AbsorbRows(num: Numerals, rows: seq<Row>, aggregates: seq<Aggregate>, groupBy: seq<string>)
    returns (groups: map<string, Accumulator>)
    requires NamesApart(aggregates, groupBy)
    ensures GroupsStand(num, aggregates, groupBy, groups, rows)
  {
    groups := map[];
    for i := 0 to |rows|
      invariant GroupsStand(num, aggregates, groupBy, groups, rows[..i])
    {
      ghost var group := Group(num, groupBy, Key(num, groupBy, rows[i]), rows[..i]);
      var key, acc := AbsorbIntoGroup(num, aggregates, groupBy, groups, rows[i], group);
      GroupsStandNext(num, aggregates, groupBy, groups, rows[..i], rows[i], acc);
      Extend(rows, i);
      groups := groups[key := acc];
    }
    assert rows[..|rows|] == rows;
  }

  /** The loop over the finished groups, in any order. */
  method FinishGroups(num: Numerals, rows: seq<Row>, aggregates: seq<Aggregate>, groupBy: seq<string>, groups: map<string, Accumulator>)
    returns (result: seq<Row>)
    requires NamesApart(aggregates, groupBy) && GroupsStand(num, aggregates, groupBy, groups, rows)
    ensures exists keys: seq<string> :: AreGroupRows(num, aggregates, groupBy, rows, keys, result)
  {
    result := [];
    ghost var keys: seq<string> := [];
    var left := groups.Keys;
    while left != {}
      invariant left <= groups.Keys && |result| == |keys|
      invariant forall i, j :: 0 <= i < j < |keys| ==> keys[i] != keys[j]
      invariant forall key :: key in keys <==> key in groups && key !in left
      invariant forall i :: 0 <= i < |keys| ==> IsGroupRow(num, aggregates, groupBy, Group(num, groupBy, keys[i], rows), result[i])
      decreases |left|
    {
      var key :| key in left;
      var row := Divide(num, aggregates, groupBy, groups[key], Group(num, groupBy, key, rows));
      result := result + [row];
      keys := keys + [key];
      left := left - {key};
    }
    assert AreGroupRows(num, aggregates, groupBy, rows, keys, result);
  }

  method ZeroCounts(aggregates: seq<Aggregate>) returns (row: Row)
    ensures row == CountsOfNothing(aggregates)
  {
    row := map[];
    for i := 0 to |aggregates|
      invariant row == CountsOfNothing(aggregates[..i])
    {
      assert aggregates[..i + 1][..i] == aggregates[..i];
      if aggregates[i].fn.Counting? {
        row := row[aggregates[i].alias := Number(0.0)];
      }
    }
    assert aggregates[..|aggregates|] == aggregates;
  }
}
