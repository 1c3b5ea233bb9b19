/**
 What sorted rows look like, cell by cell: which of two rows comes first, stated with the smaller number
 or the text that comes first instead of three-way comparisons.
*/
module SortOrders {
  import opened Wrappers
  import opened Texts
  import opened TextLaws
  import opened Values
  import opened Paths
  import opened StableSorting
  import opened Sorting
  import Filters

  /******* Two cells *******/

  ghost predicate IsBelow(num: Numerals, field: string, a: Row, b: Row) {
    Filters.IsBelow(num, TextAt(num, a, field), TextAt(num, b, field))
  }

  ghost predicate IsLevel(num: Numerals, field: string, a: Row, b: Row) {
    Filters.IsLevel(num, TextAt(num, a, field), TextAt(num, b, field))
  }

  lemma CellsCompareExactlyWhen(num: Numerals, field: string, a: Row, b: Row)
    ensures CompareSortValues(num, Cell(a, field), Cell(b, field)) < 0 <==> IsBelow(num, field, a, b)
    ensures CompareSortValues(num, Cell(a, field), Cell(b, field)) == 0 <==> IsLevel(num, field, a, b)
    ensures CompareSortValues(num, Cell(a, field), Cell(b, field)) > 0 <==> IsBelow(num, field, b, a)
  {
    var s, t := TextAt(num, a, field), TextAt(num, b, field);
    LessExactlyWhen(s, t);
    LessExactlyWhen(t, s);
    CompareIsAntisymmetric(s, t);
  }

  /******* Two rows *******/

  /** The cell of the one row is below that of the other, or above it if the field is descending. */
  ghost predicate IsBefore(num: Numerals, f: SortField, a: Row, b: Row) {
    if f.descending then IsBelow(num, f.field, b, a) else IsBelow(num, f.field, a, b)
  }

  ghost predicate TieUpTo(num: Numerals, fields: seq<SortField>, a: Row, b: Row, k: nat)
    requires k <= |fields|
  {
    forall j :: 0 <= j < k ==> IsLevel(num, fields[j].field, a, b)
  }

  ghost predicate AllTie(num: Numerals, fields: seq<SortField>, a: Row, b: Row) { TieUpTo(num, fields, a, b, |fields|) }

  /** The rows tie in the first `k` fields, and the next one decides. */
  ghost predicate DecidesAt(num: Numerals, fields: seq<SortField>, a: Row, b: Row, k: nat) {
    k < |fields| && TieUpTo(num, fields, a, b, k) && IsBefore(num, fields[k], a, b)
  }

  ghost predicate ComesFirst(num: Numerals, fields: seq<SortField>, a: Row, b: Row) {
    exists k: nat :: DecidesAt(num, fields, a, b, k)
  }

  lemma TieOfMore(num: Numerals, fields: seq<SortField>, a: Row, b: Row, k: nat)
    requires k < |fields|
    ensures TieUpTo(num, fields, a, b, k + 1)
      <==> IsLevel(num, fields[0].field, a, b) && TieUpTo(num, fields[1..], a, b, k)
  {
    if IsLevel(num, fields[0].field, a, b) && TieUpTo(num, fields[1..], a, b, k) {
      forall j | 0 <= j < k + 1
        ensures IsLevel(num, fields[j].field, a, b)
      {
        if j > 0 {
          assert fields[1..][j - 1] == fields[j];
        }
      }
    }
  }

  lemma DecidesLater(num: Numerals, fields: seq<SortField>, a: Row, b: Row)
    requires fields != [] && IsLevel(num, fields[0].field, a, b)
    ensures !IsBefore(num, fields[0], a, b) ==> (ComesFirst(num, fields, a, b) <==> ComesFirst(num, fields[1..], a, b))
  {
    if k: nat :| DecidesAt(num, fields[1..], a, b, k) {
      TieOfMore(num, fields, a, b, k);
      assert DecidesAt(num, fields, a, b, k + 1);
    }
    if k: nat :| DecidesAt(num, fields, a, b, k) {
      if k > 0 {
        TieOfMore(num, fields, a, b, k - 1);
        assert DecidesAt(num, fields[1..], a, b, k - 1);
      }
    }
  }

  /** The comparator says of two rows which comes first, and whether they tie in all fields. */
  lemma {:induction false} RowsCompareExactlyWhen(num: Numerals, fields: seq<SortField>, a: Row, b: Row)
    ensures CompareRows(num, fields, a, b) < 0 <==> ComesFirst(num, fields, a, b)
    ensures CompareRows(num, fields, a, b) == 0 <==> AllTie(num, fields, a, b)
  {
    if fields != [] {
      var f := fields[0].field;
      CellsCompareExactlyWhen(num, f, a, b);
      RowsCompareExactlyWhen(num, fields[1..], a, b);
      if IsLevel(num, f, a, b) {
        DecidesLater(num, fields, a, b);
        TieOfMore(num, fields, a, b, |fields| - 1);
      } else {
        FirstDecides(num, fields, a, b);
      }
    }
  }

  lemma FirstDecides(num: Numerals, fields: seq<SortField>, a: Row, b: Row)
    requires fields != [] && !IsLevel(num, fields[0].field, a, b)
    ensures ComesFirst(num, fields, a, b) <==> IsBefore(num, fields[0], a, b)
    ensures !AllTie(num, fields, a, b)
  {
    assert IsBefore(num, fields[0], a, b) ==> DecidesAt(num, fields, a, b, 0);
  }

  /** The comparison function handed to the library's stable sort. */
  method RowLess(num: Numerals, fields: seq<SortField>, a: Row, b: Row) returns (less: bool)
    ensures less <==> ComesFirst(num, fields, a, b)
  {
    RowsCompareExactlyWhen(num, fields, a, b);
    for i := 0 to |fields|
      invariant CompareRows(num, fields, a, b) == CompareRows(num, fields[i..], a, b)
    {
      var x := LookUp(a, fields[i].field);
      var y := LookUp(b, fields[i].field);
      var comparison := CompareSortValues(num, if x.Some? then x.value else Nil, if y.Some? then y.value else Nil);
      assert fields[i..][1..] == fields[i + 1..];
      if comparison != 0 {
        return if fields[i].descending then comparison > 0 else comparison < 0;
      }
    }
    return false;
  }

  /******* Sorted rows *******/

  /** Of rows sorted on ordered columns every earlier one comes before a later one or ties with it. */
  lemma SortedRowsAreInOrder(num: Numerals, fields: seq<SortField>, sorted: seq<Row>, rows: seq<Row>, i: nat, j: nat)
    requires IsSortOf(num, fields, sorted, rows) && ColumnsAreOrdered(num, fields, rows) && i < j < |sorted|
    ensures ComesFirst(num, fields, sorted[i], sorted[j]) || AllTie(num, fields, sorted[i], sorted[j])
  {
    RowsCompareExactlyWhen(num, fields, sorted[i], sorted[j]);
    assert RowOrder(num, fields)(sorted[i], sorted[j]);
  }

  /** Where the first `k` fields tie, the next one does not decide the other way. */
  lemma SortedFieldByField(num: Numerals, fields: seq<SortField>, sorted: seq<Row>, rows: seq<Row>, i: nat, j: nat, k: nat)
    requires IsSortOf(num, fields, sorted, rows) && ColumnsAreOrdered(num, fields, rows) && i < j < |sorted|
    requires k < |fields| && TieUpTo(num, fields, sorted[i], sorted[j], k)
    ensures IsBefore(num, fields[k], sorted[i], sorted[j])
      || IsLevel(num, fields[k].field, sorted[i], sorted[j])
  {
    SortedRowsAreInOrder(num, fields, sorted, rows, i, j);
    if ComesFirst(num, fields, sorted[i], sorted[j]) {
      var l: nat :| DecidesAt(num, fields, sorted[i], sorted[j], l);
      if l < k {
        LevelIsNotBefore(num, fields[l], sorted[i], sorted[j]);
      }
    }
  }

  lemma LevelIsNotBefore(num: Numerals, f: SortField, a: Row, b: Row)
    requires IsLevel(num, f.field, a, b)
    ensures !IsBefore(num, f, a, b)
  {
    CellsCompareExactlyWhen(num, f.field, a, b);
  }

  /** A column of numbers, sorted by first: ascending cells do not decrease, descending ones do not
      increase. */
  lemma NumbersAreSorted(num: Numerals, fields: seq<SortField>, sorted: seq<Row>, rows: seq<Row>, i: nat, j: nat, x: real, y: real)
    requires IsSortOf(num, fields, sorted, rows) && ColumnsAreOrdered(num, fields, rows) && i < j < |sorted| && fields != []
    requires num.parse(TextAt(num, sorted[i], fields[0].field)) == Some(x)
    requires num.parse(TextAt(num, sorted[j], fields[0].field)) == Some(y)
    ensures if fields[0].descending then x >= y else x <= y
  {
    SortedFieldByField(num, fields, sorted, rows, i, j, 0);
  }

  /******* Ties *******/

  /** The rows that tie with `p` in all fields, in order. */
  ghost function TiedWith(num: Numerals, fields: seq<SortField>, p: Row, rows: seq<Row>): seq<Row> {
    if rows == [] then [] else (if AllTie(num, fields, p, rows[0]) then [rows[0]] else []) + TiedWith(num, fields, p, rows[1..])
  }

  lemma {:induction false} ClassIsTied(num: Numerals, fields: seq<SortField>, p: Row, rows: seq<Row>)
    ensures Class(RowOrder(num, fields), p, rows) == TiedWith(num, fields, p, rows)
  {
    if rows != [] {
      ClassIsTied(num, fields, p, rows[1..]);
      RowsCompareExactlyWhen(num, fields, p, rows[0]);
      RowComparisonIsAntisymmetric(num, fields, p, rows[0]);
    }
  }

  /** Rows that tie in all fields stay in the order in which they came. */
  lemma TiesKeepTheirOrder(num: Numerals, fields: seq<SortField>, sorted: seq<Row>, rows: seq<Row>, p: Row)
    requires IsSortOf(num, fields, sorted, rows) && ColumnsAreOrdered(num, fields, rows) && p in rows
    ensures TiedWith(num, fields, p, sorted) == TiedWith(num, fields, p, rows)
  {
    ClassIsTied(num, fields, p, sorted);
    ClassIsTied(num, fields, p, rows);
  }
}
