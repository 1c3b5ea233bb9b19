/** Laws of aggregation: nothing is lost or counted twice, and the order of the rows is irrelevant. */
module AggregationLaws {
  import opened Values
  import opened Sequences
  import opened Aggregation

  /******* Each row lands in exactly one group *******/

  function Groups(num: Numerals, groupBy: seq<string>, keys: seq<string>, rows: seq<Row>): seq<seq<Row>> {
    seq(|keys|, i requires 0 <= i < |keys| => Group(num, groupBy, keys[i], rows))
  }

  lemma {:induction false} GroupCounts(num: Numerals, groupBy: seq<string>, key: string, rows: seq<Row>, row: Row)
    ensures multiset(Group(num, groupBy, key, rows))[row] == if Key(num, groupBy, row) == key then multiset(rows)[row] else 0
  {
    if rows != [] {
      GroupCounts(num, groupBy, key, rows[..|rows| - 1], row);
      assert rows == rows[..|rows| - 1] + [rows[|rows| - 1]];
    }
  }

  lemma {:induction false} GroupsCount(num: Numerals, groupBy: seq<string>, keys: seq<string>, rows: seq<Row>, row: Row)
    requires forall i, j :: 0 <= i < j < |keys| ==> keys[i] != keys[j]
    ensures multiset(Flatten(Groups(num, groupBy, keys, rows)))[row] == if Key(num, groupBy, row) in keys then multiset(rows)[row] else 0
    decreases |keys|
  {
    if keys != [] {
      GroupsCount(num, groupBy, keys[1..], rows, row);
      GroupCounts(num, groupBy, keys[0], rows, row);
      assert Groups(num, groupBy, keys, rows)[1..] == Groups(num, groupBy, keys[1..], rows);
      assert keys == [keys[0]] + keys[1..];
    }
  }

  /** The groups together are the rows, and their sizes add up to the number of rows. */
  lemma GroupsPartitionRows(num: Numerals, groupBy: seq<string>, rows: seq<Row>, keys: seq<string>)
    requires ListsGroups(num, groupBy, rows, keys)
    ensures multiset(Flatten(Groups(num, groupBy, keys, rows))) == multiset(rows)
    ensures |Flatten(Groups(num, groupBy, keys, rows))| == |rows|
  {
    var all := Flatten(Groups(num, groupBy, keys, rows));
    forall row: Row
      ensures multiset(all)[row] == multiset(rows)[row]
    {
      GroupsCount(num, groupBy, keys, rows, row);
      if multiset(rows)[row] > 0 {
        var key := Key(num, groupBy, row);
        GroupCounts(num, groupBy, key, rows, row);
        assert Group(num, groupBy, key, rows) != [];
      }
    }
    assert |multiset(all)| == |all| && |multiset(rows)| == |rows|;
  }

  /** `count(*)` counts every row of its group. */
  lemma {:induction false} CountStarCountsRows(num: Numerals, a: Aggregate, group: seq<Row>)
    requires a.fn.Counting? && a.field == "*"
    ensures |UsableValues(num, a, group)| == |group|
  {
    if group != [] {
      CountStarCountsRows(num, a, group[..|group| - 1]);
    }
  }

  function TotalOf(xs: seq<nat>): nat {
    if xs == [] then 0 else xs[0] + TotalOf(xs[1..])
  }

  function Counts(num: Numerals, a: Aggregate, groups: seq<seq<Row>>): seq<nat> {
    seq(|groups|, i requires 0 <= i < |groups| => |UsableValues(num, a, groups[i])|)
  }

  lemma {:induction false} CountsAddUp(num: Numerals, a: Aggregate, groups: seq<seq<Row>>)
    requires a.fn.Counting? && a.field == "*"
    ensures TotalOf(Counts(num, a, groups)) == |Flatten(groups)|
  {
    if groups != [] {
      CountsAddUp(num, a, groups[1..]);
      CountStarCountsRows(num, a, groups[0]);
      assert Counts(num, a, groups)[1..] == Counts(num, a, groups[1..]);
    }
  }

  /** The number a row shows under an alias. */
  function CellOf(alias: string, row: Row): real {
    if alias in row && row[alias].Number? then row[alias].n else 0.0
  }

  function CellsOf(alias: string, result: seq<Row>): real {
    if result == [] then 0.0 else CellOf(alias, result[0]) + CellsOf(alias, result[1..])
  }

  /** The rows show the counts of the groups. */
  ghost predicate ShowCounts(num: Numerals, a: Aggregate, groups: seq<seq<Row>>, result: seq<Row>) {
    |groups| == |result| && forall k :: 0 <= k < |groups| ==> a.alias in result[k] && result[k][a.alias] == Number(|UsableValues(num, a, groups[k])| as real)
  }

  lemma {:induction false} ShownCountsAddUp(num: Numerals, a: Aggregate, groups: seq<seq<Row>>, result: seq<Row>)
    requires ShowCounts(num, a, groups, result)
    ensures CellsOf(a.alias, result) == TotalOf(Counts(num, a, groups)) as real
  {
    if groups != [] {
      ShownCountsAddUp(num, a, groups[1..], result[1..]);
      assert Counts(num, a, groups)[1..] == Counts(num, a, groups[1..]);
    }
  }

  lemma GroupRowsShowCounts(num: Numerals, aggregates: seq<Aggregate>, groupBy: seq<string>, rows: seq<Row>, keys: seq<string>, result: seq<Row>, i: nat)
    requires AreGroupRows(num, aggregates, groupBy, rows, keys, result)
    requires i < |aggregates| && aggregates[i].fn.Counting? && aggregates[i].field == "*"
    ensures ShowCounts(num, aggregates[i], Groups(num, groupBy, keys, rows), result)
  {
    forall k | 0 <= k < |keys|
      ensures var a := aggregates[i];
        a.alias in result[k] && result[k][a.alias] == Number(|UsableValues(num, a, Group(num, groupBy, keys[k], rows))| as real)
    {
      var group := Group(num, groupBy, keys[k], rows);
      assert IsGroupRow(num, aggregates, groupBy, group, result[k]);
      CountStarCountsRows(num, aggregates[i], group);
      assert CellIs(true, aggregates[i], UsableValues(num, aggregates[i], group), result[k]);
    }
  }

  lemma {:induction false} ZeroIsShown(aggregates: seq<Aggregate>, i: nat)
    requires i < |aggregates| && aggregates[i].fn.Counting?
    ensures var row := CountsOfNothing(aggregates); aggregates[i].alias in row && row[aggregates[i].alias] == Number(0.0)
  {
    var n := |aggregates| - 1;
    if i < n {
      ZeroIsShown(aggregates[..n], i);
    }
  }

  /** Every row of the result has its `count(*)` cell, and these cells add up to the number of rows. */
  lemma CountStarConservesRows(num: Numerals, aggregates: seq<Aggregate>, groupBy: seq<string>, rows: seq<Row>, keys: seq<string>,
                               result: seq<Row>, i: nat)
    requires IsAggregation(num, aggregates, groupBy, rows, keys, result)
    requires i < |aggregates| && aggregates[i].fn.Counting? && aggregates[i].field == "*"
    ensures forall k :: 0 <= k < |result| ==> aggregates[i].alias in result[k]
    ensures CellsOf(aggregates[i].alias, result) == |rows| as real
  {
    var a := aggregates[i];
    ZeroIsShown(aggregates, i);
    if rows == [] && groupBy == [] {
      assert result[1..] == [];
    } else {
      GroupRowsShowCounts(num, aggregates, groupBy, rows, keys, result, i);
      ShownCountsAddUp(num, a, Groups(num, groupBy, keys, rows), result);
      CountsAddUp(num, a, Groups(num, groupBy, keys, rows));
      GroupsPartitionRows(num, groupBy, rows, keys);
    }
  }

  /******* The order of the rows is irrelevant *******/

  function Without<T>(items: seq<T>, i: nat): seq<T>
    requires i < |items|
  {
    items[..i] + items[i + 1..]
  }

  lemma WithoutCounts<T>(items: seq<T>, i: nat)
    requires i < |items|
    ensures multiset(items) == multiset(Without(items, i)) + multiset{items[i]}
  {
    assert items == items[..i] + [items[i]] + items[i + 1..];
  }

  lemma {:induction false} SumWithout(xs: seq<real>, i: nat)
    requires i < |xs|
    ensures SumOf(xs) == SumOf(Without(xs, i)) + xs[i]
  {
    var n := |xs| - 1;
    if i == n {
      assert Without(xs, i) == xs[..n];
    } else {
      SumWithout(xs[..n], i);
      assert Without(xs, i)[..n - 1] == Without(xs[..n], i);
    }
  }

  lemma {:induction false} SumIgnoresOrder(xs: seq<real>, ys: seq<real>)
    requires multiset(xs) == multiset(ys)
    ensures SumOf(xs) == SumOf(ys)
  {
    SameSize(xs, ys);
    if xs != [] {
      var n := |xs| - 1;
      var i := FindIn(xs[n], xs, ys);
      WithoutCounts(ys, i);
      WithoutCounts(xs, n);
      assert Without(xs, n) == xs[..n];
      Cancel(multiset(xs[..n]), multiset(Without(ys, i)), xs[n]);
      SumIgnoresOrder(xs[..n], Without(ys, i));
      SumWithout(ys, i);
    }
  }

  lemma Cancel<T>(a: multiset<T>, b: multiset<T>, x: T)
    requires a + multiset{x} == b + multiset{x}
    ensures a == b
  {
    assert a == a + multiset{x} - multiset{x};
    assert b == b + multiset{x} - multiset{x};
  }

  lemma SameSize<T>(xs: seq<T>, ys: seq<T>)
    requires multiset(xs) == multiset(ys)
    ensures |xs| == |ys|
  {
    assert |multiset(xs)| == |xs| && |multiset(ys)| == |ys|;
  }

  lemma FindIn<T>(x: T, xs: seq<T>, ys: seq<T>) returns (i: nat)
    requires multiset(xs) == multiset(ys) && x in xs
    ensures i < |ys| && ys[i] == x
  {
    assert x in multiset(xs);
    i :| 0 <= i < |ys| && ys[i] == x;
  }

  lemma ExtremesIgnoreOrder(xs: seq<real>, ys: seq<real>)
    requires multiset(xs) == multiset(ys) && xs != [] && ys != []
    ensures MinOf(xs) == MinOf(ys) && MaxOf(xs) == MaxOf(ys)
  {
    assert forall x :: x in xs <==> x in multiset(xs);
    assert forall y :: y in ys <==> y in multiset(ys);
    assert MinOf(xs) in ys && MinOf(ys) in xs && MaxOf(xs) in ys && MaxOf(ys) in xs;
  }

  /** No aggregate depends on the order of the usable values. */
  lemma FoldIgnoresOrder(fn: Function, xs: seq<real>, ys: seq<real>)
    requires multiset(xs) == multiset(ys) && xs != []
    ensures ys != [] && Fold(fn, xs) == Fold(fn, ys)
  {
    SameSize(xs, ys);
    SumIgnoresOrder(xs, ys);
    ExtremesIgnoreOrder(xs, ys);
  }

  lemma UsableOfOne(num: Numerals, a: Aggregate, row: Row)
    ensures UsableValues(num, a, [row]) == match Usable(num, a, row) case None => [] case Some(x) => [x]
  {
    assert [row][..0] == [];
  }

  lemma UsableSplitsLast(num: Numerals, a: Aggregate, group: seq<Row>)
    requires group != []
    ensures UsableValues(num, a, group) == UsableValues(num, a, group[..|group| - 1]) + UsableValues(num, a, [group[|group| - 1]])
  {
    UsableOfOne(num, a, group[|group| - 1]);
  }

  lemma WithoutInit<T>(items: seq<T>, i: nat)
    requires i < |items| - 1
    ensures var n, less := |items| - 1, Without(items, i);
      |less| == n && less[..n - 1] == Without(items[..n], i) && less[n - 1] == items[n]
  {
  }

  lemma Regroup(all: seq<real>, init: seq<real>, last: seq<real>, less: seq<real>, lessInit: seq<real>, one: seq<real>)
    requires all == init + last && less == lessInit + last
    requires multiset(init) == multiset(lessInit) + multiset(one)
    ensures multiset(all) == multiset(less) + multiset(one)
  {
  }

  lemma {:induction false} UsableWithout(num: Numerals, a: Aggregate, group: seq<Row>, i: nat)
    requires i < |group|
    ensures multiset(UsableValues(num, a, group)) ==
      multiset(UsableValues(num, a, Without(group, i))) + multiset(UsableValues(num, a, [group[i]]))
  {
    var n := |group| - 1;
    UsableSplitsLast(num, a, group);
    if i == n {
      assert Without(group, i) == group[..n];
    } else {
      var less := Without(group, i);
      WithoutInit(group, i);
      UsableSplitsLast(num, a, less);
      UsableWithout(num, a, group[..n], i);
      Regroup(UsableValues(num, a, group), UsableValues(num, a, group[..n]), UsableValues(num, a, [group[n]]),
              UsableValues(num, a, less), UsableValues(num, a, less[..n - 1]), UsableValues(num, a, [group[i]]));
    }
  }

  lemma {:induction false} UsableIgnoresOrder(num: Numerals, a: Aggregate, g: seq<Row>, h: seq<Row>)
    requires multiset(g) == multiset(h)
    ensures multiset(UsableValues(num, a, g)) == multiset(UsableValues(num, a, h))
  {
    SameSize(g, h);
    if g != [] {
      var n := |g| - 1;
      var i := FindIn(g[n], g, h);
      WithoutCounts(h, i);
      WithoutCounts(g, n);
      assert Without(g, n) == g[..n];
      Cancel(multiset(g[..n]), multiset(Without(h, i)), g[n]);
      UsableIgnoresOrder(num, a, g[..n], Without(h, i));
      UsableWithout(num, a, h, i);
      UsableSplitsLast(num, a, g);
    }
  }

  lemma GroupIgnoresOrder(num: Numerals, groupBy: seq<string>, key: string, rows: seq<Row>, others: seq<Row>)
    requires multiset(rows) == multiset(others)
    ensures multiset(Group(num, groupBy, key, rows)) == multiset(Group(num, groupBy, key, others))
  {
    forall row: Row
      ensures multiset(Group(num, groupBy, key, rows))[row] == multiset(Group(num, groupBy, key, others))[row]
    {
      GroupCounts(num, groupBy, key, rows, row);
      GroupCounts(num, groupBy, key, others, row);
    }
  }

  /** The same rows in another order have the same groups, and every aggregate cell of a group's
      row is the same; only the row that lends the group key its value may differ. */
  lemma AggregatesIgnoreRowOrder(num: Numerals, aggregates: seq<Aggregate>, groupBy: seq<string>, rows: seq<Row>, others: seq<Row>,
                                 key: string, r: Row, s: Row, i: nat)
    requires multiset(rows) == multiset(others) && i < |aggregates|
    requires Group(num, groupBy, key, rows) != []
    requires IsGroupRow(num, aggregates, groupBy, Group(num, groupBy, key, rows), r)
    ensures Group(num, groupBy, key, others) != []
    ensures IsGroupRow(num, aggregates, groupBy, Group(num, groupBy, key, others), s) ==>
      && (aggregates[i].alias in r <==> aggregates[i].alias in s)
      && (aggregates[i].alias in r ==> r[aggregates[i].alias] == s[aggregates[i].alias])
  {
    var a := aggregates[i];
    var g, h := Group(num, groupBy, key, rows), Group(num, groupBy, key, others);
    GroupIgnoresOrder(num, groupBy, key, rows, others);
    SameSize(g, h);
    UsableIgnoresOrder(num, a, g, h);
    var xs, ys := UsableValues(num, a, g), UsableValues(num, a, h);
    SameSize(xs, ys);
    if xs != [] {
      FoldIgnoresOrder(a.fn, xs, ys);
    }
    assert CellIs(true, a, xs, r);
    assert IsGroupRow(num, aggregates, groupBy, h, s) ==> CellIs(true, a, ys, s);
  }
}
