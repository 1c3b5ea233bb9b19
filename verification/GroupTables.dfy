/** The table that aggregation returns: one row for each combination of texts, and what its cells say. */
module GroupTables {
  import opened Wrappers
  import opened Values
  import opened Aggregation
  import opened Groups

  /******* One row for each combination *******/

  /** The rows with some texts of their group values, in order. */
  function RowsWith(num: Numerals, groupBy: seq<string>, texts: seq<string>, rows: seq<Row>): seq<Row> {
    if rows == [] then [] else
    var n := |rows| - 1;
    RowsWith(num, groupBy, texts, rows[..n]) + (if TextsOf(num, groupBy, rows[n]) == texts then [rows[n]] else [])
  }

  ghost predicate AllNulFree(num: Numerals, groupBy: seq<string>, rows: seq<Row>) {
    forall i :: 0 <= i < |rows| ==> NulFree(TextsOf(num, groupBy, rows[i]))
  }

  lemma {:induction false} GroupIsRowsWith(num: Numerals, groupBy: seq<string>, texts: seq<string>, rows: seq<Row>)
    requires AllNulFree(num, groupBy, rows) && NulFree(texts) && |texts| == |groupBy|
    ensures Group(num, groupBy, Join(texts), rows) == RowsWith(num, groupBy, texts, rows)
  {
    if rows != [] {
      var n := |rows| - 1;
      GroupIsRowsWith(num, groupBy, texts, rows[..n]);
      var s := TextsOf(num, groupBy, rows[n]);
      assert KeyParts(num, groupBy, rows[n]) == s;
      JoinsAgreeExactlyWhen(s, texts);
      PiecesOfNulFree(s);
      PiecesOfNulFree(texts);
    }
  }

  /** `labels` are the combinations of texts that occur in the rows, each once. */
  ghost predicate AreCombinations(num: Numerals, groupBy: seq<string>, rows: seq<Row>, labels: seq<seq<string>>) {
    && (forall j, k :: 0 <= j < k < |labels| ==> labels[j] != labels[k])
    && (forall i :: 0 <= i < |rows| ==> TextsOf(num, groupBy, rows[i]) in labels)
    && (forall k :: 0 <= k < |labels| ==> RowsWith(num, groupBy, labels[k], rows) != [])
  }

  lemma {:induction false} WithIsAmong(num: Numerals, groupBy: seq<string>, texts: seq<string>, rows: seq<Row>)
    ensures forall row :: row in RowsWith(num, groupBy, texts, rows) <==> row in rows && TextsOf(num, groupBy, row) == texts
  {
    if rows != [] {
      var n := |rows| - 1;
      WithIsAmong(num, groupBy, texts, rows[..n]);
      assert rows == rows[..n] + [rows[n]];
    }
  }

  /** The texts that the rows of a group have in common. */
  lemma LabelOf(num: Numerals, groupBy: seq<string>, rows: seq<Row>, key: string) returns (texts: seq<string>)
    requires AllNulFree(num, groupBy, rows) && Group(num, groupBy, key, rows) != []
    ensures Join(texts) == key && |texts| == |groupBy| && NulFree(texts)
    ensures Group(num, groupBy, key, rows) == RowsWith(num, groupBy, texts, rows)
  {
    var row := Group(num, groupBy, key, rows)[0];
    InGroupExactlyWhen(num, groupBy, key, rows, row);
    var i :| 0 <= i < |rows| && rows[i] == row;
    texts := TextsOf(num, groupBy, row);
    GroupIsRowsWith(num, groupBy, texts, rows);
  }

  lemma {:induction false} LabelsOf(num: Numerals, groupBy: seq<string>, rows: seq<Row>, keys: seq<string>) returns (labels: seq<seq<string>>)
    requires AllNulFree(num, groupBy, rows) && forall k :: 0 <= k < |keys| ==> Group(num, groupBy, keys[k], rows) != []
    ensures |labels| == |keys| && forall k :: 0 <= k < |keys| ==> IsLabel(num, groupBy, rows, keys[k], labels[k])
  {
    labels := [];
    if keys != [] {
      var n := |keys| - 1;
      labels := LabelsOf(num, groupBy, rows, keys[..n]);
      var texts := LabelOf(num, groupBy, rows, keys[n]);
      labels := labels + [texts];
    }
  }

  ghost predicate IsLabel(num: Numerals, groupBy: seq<string>, rows: seq<Row>, key: string, texts: seq<string>) {
    Join(texts) == key && Group(num, groupBy, key, rows) == RowsWith(num, groupBy, texts, rows)
  }

  /** If no text holds a NUL, the groups are the combinations of texts that occur: the result has a row for
      each of them, made of exactly the rows with these texts. */
  lemma GroupsAreCombinations(num: Numerals, aggregates: seq<Aggregate>, groupBy: seq<string>, rows: seq<Row>, keys: seq<string>, result: seq<Row>)
    returns (labels: seq<seq<string>>)
    requires AreGroupRows(num, aggregates, groupBy, rows, keys, result) && AllNulFree(num, groupBy, rows)
    ensures AreCombinations(num, groupBy, rows, labels) && |result| == |labels|
    ensures forall k :: 0 <= k < |result| ==> IsGroupRow(num, aggregates, groupBy, RowsWith(num, groupBy, labels[k], rows), result[k])
  {
    forall k | 0 <= k < |keys|
      ensures Group(num, groupBy, keys[k], rows) != []
    {
      assert keys[k] in keys;
    }
    labels := LabelsOf(num, groupBy, rows, keys);
    forall k | 0 <= k < |result|
      ensures IsGroupRow(num, aggregates, groupBy, RowsWith(num, groupBy, labels[k], rows), result[k])
      ensures RowsWith(num, groupBy, labels[k], rows) != []
    {
      assert IsLabel(num, groupBy, rows, keys[k], labels[k]);
    }
    forall i | 0 <= i < |rows|
      ensures TextsOf(num, groupBy, rows[i]) in labels
    {
      EveryRowIsLabelled(num, groupBy, rows, keys, labels, i);
    }
    forall j, k | 0 <= j < k < |labels|
      ensures labels[j] != labels[k]
    {
      assert IsLabel(num, groupBy, rows, keys[j], labels[j]) && IsLabel(num, groupBy, rows, keys[k], labels[k]);
    }
  }

  lemma EveryRowIsLabelled(num: Numerals, groupBy: seq<string>, rows: seq<Row>, keys: seq<string>, labels: seq<seq<string>>, i: nat)
    requires ListsGroups(num, groupBy, rows, keys) && |labels| == |keys| && i < |rows|
    requires forall k :: 0 <= k < |keys| ==> IsLabel(num, groupBy, rows, keys[k], labels[k])
    ensures TextsOf(num, groupBy, rows[i]) in labels
  {
    var key := Join(TextsOf(num, groupBy, rows[i]));
    InGroupExactlyWhen(num, groupBy, key, rows, rows[i]);
    assert key in keys;
    var k :| 0 <= k < |keys| && keys[k] == key;
    assert IsLabel(num, groupBy, rows, keys[k], labels[k]);
    WithIsAmong(num, groupBy, labels[k], rows);
  }

  /** A group's row has under every group key what its first row has there, nil standing for nothing. */
  lemma GroupRowNames(num: Numerals, aggregates: seq<Aggregate>, groupBy: seq<string>, group: seq<Row>, row: Row, i: nat)
    requires IsGroupRow(num, aggregates, groupBy, group, row) && i < |groupBy|
    ensures group != [] && groupBy[i] in row
    ensures row[groupBy[i]] == match ValueAt(group[0], groupBy[i]) case Some(v) => v case None => Nil
  {
    assert groupBy[i] in groupBy;
  }

  /******* Cells *******/

  /** The numbers a field has in the rows, in order; rows whose value is missing or no number have none. */
  function NumbersIn(num: Numerals, field: string, rows: seq<Row>): seq<real> {
    if rows == [] then []
    else
      var first := match ValueAt(rows[0], field) case None => None case Some(v) => num.parse(Sprint(num, v));
      (if first.Some? then [first.value] else []) + NumbersIn(num, field, rows[1..])
  }

  /** How many rows have a value in a field that is not nil. */
  function ValuesIn(field: string, rows: seq<Row>): nat {
    if rows == [] then 0
    else (if ValueAt(rows[0], field).Some? && ValueAt(rows[0], field) != Some(Nil) then 1 else 0) + ValuesIn(field, rows[1..])
  }

  function Total(xs: seq<real>): real { if xs == [] then 0.0 else xs[0] + Total(xs[1..]) }

  /** The number is what a function makes of some numbers. */
  ghost predicate IsFold(fn: Function, xs: seq<real>, cell: real) {
    match fn
    case Counting => false
    case Summing => cell == Total(xs)
    case Averaging => cell * |xs| as real == Total(xs)
    case Least => cell in xs && forall x :: x in xs ==> cell <= x
    case Greatest => cell in xs && forall x :: x in xs ==> x <= cell
  }

  /** The cell of one aggregate over the rows of a group. */
  ghost predicate Shows(num: Numerals, a: Aggregate, group: seq<Row>, row: Row) {
    if a.fn.Counting? then
      var n := if a.field == "*" then |group| else ValuesIn(a.field, group);
      if n == 0 then a.alias !in row else a.alias in row && row[a.alias] == Number(n as real)
    else
      var xs := NumbersIn(num, a.field, group);
      if xs == [] then a.alias !in row
      else a.alias in row && row[a.alias].Number? && IsFold(a.fn, xs, row[a.alias].n)
  }

  lemma {:induction false} UsableOfFirst(num: Numerals, a: Aggregate, first: Row, rest: seq<Row>)
    ensures UsableValues(num, a, [first] + rest) == UsableValues(num, a, [first]) + UsableValues(num, a, rest)
  {
    if rest == [] {
      assert [first] + rest == [first];
    } else {
      var n := |rest| - 1;
      UsableOfFirst(num, a, first, rest[..n]);
      assert ([first] + rest)[..n + 1] == [first] + rest[..n];
    }
  }

  lemma UsableOfOne(num: Numerals, a: Aggregate, row: Row)
    ensures UsableValues(num, a, [row]) == match Usable(num, a, row) case None => [] case Some(x) => [x]
  {
    assert [row][..0] == [];
  }

  lemma {:induction false} UsableNumbers(num: Numerals, a: Aggregate, rows: seq<Row>)
    ensures !a.fn.Counting? ==> UsableValues(num, a, rows) == NumbersIn(num, a.field, rows)
    ensures a.fn.Counting? ==> |UsableValues(num, a, rows)| == if a.field == "*" then |rows| else ValuesIn(a.field, rows)
  {
    if rows != [] {
      UsableNumbers(num, a, rows[1..]);
      UsableOfFirst(num, a, rows[0], rows[1..]);
      UsableOfOne(num, a, rows[0]);
      assert rows == [rows[0]] + rows[1..];
    }
  }

  lemma {:induction false} SumIsTotal(xs: seq<real>)
    ensures SumOf(xs) == Total(xs)
  {
    if xs != [] {
      SumIsTotal(xs[1..]);
      SumOfFirst(xs[0], xs[1..]);
      assert xs == [xs[0]] + xs[1..];
    }
  }

  lemma {:induction false} SumOfFirst(x: real, xs: seq<real>)
    ensures SumOf([x] + xs) == x + SumOf(xs)
  {
    if xs == [] {
      assert [x] + xs == [x] && [x][..0] == [];
    } else {
      var n := |xs| - 1;
      SumOfFirst(x, xs[..n]);
      assert ([x] + xs)[..n + 1] == [x] + xs[..n];
    }
  }

  lemma FoldIsFold(fn: Function, xs: seq<real>)
    requires xs != [] && !fn.Counting?
    ensures IsFold(fn, xs, Fold(fn, xs))
  {
    SumIsTotal(xs);
    var n := |xs| as real;
    assert n != 0.0 && SumOf(xs) / n * n == SumOf(xs);
  }

  lemma CellShows(num: Numerals, a: Aggregate, group: seq<Row>, xs: seq<real>, row: Row)
    requires xs == UsableValues(num, a, group) && CellIs(true, a, xs, row)
    ensures Shows(num, a, group, row)
  {
    UsableNumbers(num, a, group);
    if xs != [] && !a.fn.Counting? {
      FoldIsFold(a.fn, xs);
    }
  }

  /** A group's row shows under every alias the count, sum, average, least or greatest of the numbers in
      its rows, and nothing where there is none. */
  lemma GroupRowShows(num: Numerals, aggregates: seq<Aggregate>, groupBy: seq<string>, group: seq<Row>, row: Row, i: nat)
    requires IsGroupRow(num, aggregates, groupBy, group, row) && i < |aggregates|
    ensures Shows(num, aggregates[i], group, row)
  {
    CellShows(num, aggregates[i], group, UsableValues(num, aggregates[i], group), row);
  }

  /** The row that stands for no rows at all has a zero for every count, and nothing else. */
  lemma {:induction false} NothingShowsZeroCounts(aggregates: seq<Aggregate>)
    ensures forall name :: name in CountsOfNothing(aggregates) <==>
      exists i :: 0 <= i < |aggregates| && aggregates[i].fn.Counting? && aggregates[i].alias == name
    ensures forall name :: name in CountsOfNothing(aggregates) ==> CountsOfNothing(aggregates)[name] == Number(0.0)
  {
    if aggregates != [] {
      var n := |aggregates| - 1;
      NothingShowsZeroCounts(aggregates[..n]);
      forall name
        ensures name in CountsOfNothing(aggregates) <==>
          exists i :: 0 <= i < |aggregates| && aggregates[i].fn.Counting? && aggregates[i].alias == name
      {
        if i :| 0 <= i < n && aggregates[..n][i].fn.Counting? && aggregates[..n][i].alias == name {
          assert aggregates[i].alias == name;
        }
        if i :| 0 <= i < |aggregates| && aggregates[i].fn.Counting? && aggregates[i].alias == name {
          assert i < n ==> aggregates[..n][i].alias == name;
        }
      }
    }
  }
}
