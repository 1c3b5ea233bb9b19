/** Aggregating the same rows in another order: the same table, its rows perhaps in another order too. */
module AggregationOrders {
  import opened Values
  import opened Aggregation
  import opened AggregationLaws

  /** Two rows show the same under every alias. */
  ghost predicate SameCells(aggregates: seq<Aggregate>, r: Row, s: Row) {
    forall i :: 0 <= i < |aggregates| ==>
      var alias := aggregates[i].alias; (alias in r <==> alias in s) && (alias in r ==> r[alias] == s[alias])
  }

  ghost predicate AreDistinct(keys: seq<string>) { forall i, j :: 0 <= i < j < |keys| ==> keys[i] != keys[j] }

  /** Rows of the same group have the same cells. */
  ghost predicate SameByKey(aggregates: seq<Aggregate>, keys: seq<string>, result: seq<Row>, keys': seq<string>, result': seq<Row>) {
    && |keys| == |result| && |keys'| == |result'|
    && forall k, l :: 0 <= k < |keys| && 0 <= l < |keys'| && keys[k] == keys'[l] ==> SameCells(aggregates, result[k], result'[l])
  }

  /** The same groups, each once, and for each of them the same cells; without groups the same rows. */
  ghost predicate SameTable(aggregates: seq<Aggregate>, keys: seq<string>, result: seq<Row>, keys': seq<string>, result': seq<Row>) {
    && AreDistinct(keys) && AreDistinct(keys') && multiset(keys) == multiset(keys')
    && if keys == [] then result == result' else SameByKey(aggregates, keys, result, keys', result')
  }

  lemma {:induction false} DistinctCounts(keys: seq<string>, key: string)
    requires AreDistinct(keys)
    ensures multiset(keys)[key] == if key in keys then 1 else 0
  {
    if keys != [] {
      var n := |keys| - 1;
      assert keys == keys[..n] + [keys[n]];
      DistinctCounts(keys[..n], key);
      assert keys[n] !in keys[..n];
    }
  }

  lemma SameKeys(keys: seq<string>, keys': seq<string>)
    requires AreDistinct(keys) && AreDistinct(keys') && forall key :: key in keys <==> key in keys'
    ensures multiset(keys) == multiset(keys')
  {
    forall key
      ensures multiset(keys)[key] == multiset(keys')[key]
    {
      DistinctCounts(keys, key);
      DistinctCounts(keys', key);
    }
  }

  lemma SameGroups(num: Numerals, groupBy: seq<string>, rows: seq<Row>, others: seq<Row>, keys: seq<string>, keys': seq<string>)
    requires multiset(rows) == multiset(others) && ListsGroups(num, groupBy, rows, keys) && ListsGroups(num, groupBy, others, keys')
    ensures multiset(keys) == multiset(keys') && |keys| == |keys'|
  {
    forall key
      ensures key in keys <==> key in keys'
    {
      GroupIgnoresOrder(num, groupBy, key, rows, others);
      SameSize(Group(num, groupBy, key, rows), Group(num, groupBy, key, others));
    }
    SameKeys(keys, keys');
    SameSize(keys, keys');
  }

  lemma SameGroupSameCells(num: Numerals, aggregates: seq<Aggregate>, groupBy: seq<string>, rows: seq<Row>, others: seq<Row>,
                           key: string, r: Row, s: Row)
    requires multiset(rows) == multiset(others) && Group(num, groupBy, key, rows) != []
    requires IsGroupRow(num, aggregates, groupBy, Group(num, groupBy, key, rows), r)
    requires IsGroupRow(num, aggregates, groupBy, Group(num, groupBy, key, others), s)
    ensures SameCells(aggregates, r, s)
  {
    forall i | 0 <= i < |aggregates|
      ensures var alias := aggregates[i].alias; (alias in r <==> alias in s) && (alias in r ==> r[alias] == s[alias])
    {
      AggregatesIgnoreRowOrder(num, aggregates, groupBy, rows, others, key, r, s, i);
    }
  }

  /** The same rows in another order have the same table. */
  lemma AggregationsAgree(num: Numerals, aggregates: seq<Aggregate>, groupBy: seq<string>, rows: seq<Row>, others: seq<Row>,
                          keys: seq<string>, result: seq<Row>, keys': seq<string>, result': seq<Row>)
    requires multiset(rows) == multiset(others)
    requires IsAggregation(num, aggregates, groupBy, rows, keys, result) && IsAggregation(num, aggregates, groupBy, others, keys', result')
    ensures SameTable(aggregates, keys, result, keys', result')
  {
    SameSize(rows, others);
    if !(rows == [] && groupBy == [] && CountsOfNothing(aggregates) != map[]) {
      SameGroups(num, groupBy, rows, others, keys, keys');
      forall k, l | 0 <= k < |keys| && 0 <= l < |keys'| && keys[k] == keys'[l]
        ensures SameCells(aggregates, result[k], result'[l])
      {
        SameGroupSameCells(num, aggregates, groupBy, rows, others, keys[k], result[k], result'[l]);
      }
    }
  }

  /******* Sorting a table *******/

  /** The rows in another order, each with its key. */
  ghost predicate AreRelabelled(rows: seq<Row>, keys: seq<string>, rows': seq<Row>, keys': seq<string>) {
    && |rows| == |keys| && |rows'| == |keys'|
    && forall k :: 0 <= k < |rows'| ==> IsPair(rows, keys, rows'[k], keys'[k])
  }

  ghost predicate IsPair(rows: seq<Row>, keys: seq<string>, row: Row, key: string)
    requires |rows| == |keys|
  {
    exists j :: 0 <= j < |rows| && rows[j] == row && keys[j] == key
  }

  lemma {:induction false} Relabel(rows: seq<Row>, keys: seq<string>, rows': seq<Row>) returns (keys': seq<string>)
    requires |rows| == |keys| && multiset(rows') == multiset(rows)
    ensures AreRelabelled(rows, keys, rows', keys') && multiset(keys') == multiset(keys)
    decreases |rows'|
  {
    SameSize(rows, rows');
    keys' := [];
    if rows' != [] {
      var j := FindIn(rows'[0], rows', rows);
      RestIsMoved(rows, rows', j);
      var rest := Relabel(Without(rows, j), Without(keys, j), rows'[1..]);
      keys' := [keys[j]] + rest;
      WithoutCounts(keys, j);
      forall k | 0 <= k < |rows'|
        ensures IsPair(rows, keys, rows'[k], keys'[k])
      {
        if k > 0 {
          assert IsPair(Without(rows, j), Without(keys, j), rows'[1..][k - 1], rest[k - 1]);
          PairsWere(rows, keys, j, rows'[k], keys'[k]);
        }
      }
    }
  }

  lemma RestIsMoved<T>(items: seq<T>, moved: seq<T>, j: nat)
    requires multiset(moved) == multiset(items) && j < |items| && moved != [] && items[j] == moved[0]
    ensures multiset(moved[1..]) == multiset(Without(items, j))
  {
    WithoutCounts(items, j);
    WithoutCounts(moved, 0);
    assert Without(moved, 0) == moved[1..];
    Cancel(multiset(moved[1..]), multiset(Without(items, j)), moved[0]);
  }

  lemma PairsWere(rows: seq<Row>, keys: seq<string>, j: nat, row: Row, key: string)
    requires |rows| == |keys| && j < |rows| && IsPair(Without(rows, j), Without(keys, j), row, key)
    ensures IsPair(rows, keys, row, key)
  {
    var i :| 0 <= i < |rows| - 1 && Without(rows, j)[i] == row && Without(keys, j)[i] == key;
    var was := if i < j then i else i + 1;
    assert rows[was] == row && keys[was] == key;
  }

  lemma {:induction false} StayDistinct(keys: seq<string>, keys': seq<string>)
    requires AreDistinct(keys) && multiset(keys) == multiset(keys')
    ensures AreDistinct(keys')
  {
    forall i, j | 0 <= i < j < |keys'|
      ensures keys'[i] != keys'[j]
    {
      DistinctCounts(keys, keys'[j]);
      assert keys' == keys'[..j] + [keys'[j]] + keys'[j + 1..];
      assert keys'[i] in keys'[..j];
    }
  }

  /** A table whose rows are moved is a table still: every row takes its key along. */
  lemma MovedAggregation(num: Numerals, aggregates: seq<Aggregate>, groupBy: seq<string>, rows: seq<Row>, keys: seq<string>,
                         result: seq<Row>, moved: seq<Row>) returns (keys': seq<string>)
    requires IsAggregation(num, aggregates, groupBy, rows, keys, result) && multiset(moved) == multiset(result)
    ensures IsAggregation(num, aggregates, groupBy, rows, keys', moved)
  {
    if rows == [] && groupBy == [] && CountsOfNothing(aggregates) != map[] {
      keys' := [];
      SameSize(moved, result);
      assert moved == [moved[0]] && moved[0] in multiset(result);
    } else {
      keys' := Relabel(result, keys, moved);
      StayDistinct(keys, keys');
      SameMembers(keys, keys');
      forall k | 0 <= k < |keys'|
        ensures IsGroupRow(num, aggregates, groupBy, Group(num, groupBy, keys'[k], rows), moved[k])
      {
        assert IsPair(result, keys, moved[k], keys'[k]);
      }
    }
  }

  lemma SameMembers(keys: seq<string>, keys': seq<string>)
    requires multiset(keys) == multiset(keys')
    ensures forall key :: key in keys <==> key in keys'
  {
    assert forall key :: key in keys <==> key in multiset(keys);
    assert forall key :: key in keys' <==> key in multiset(keys');
  }
}
