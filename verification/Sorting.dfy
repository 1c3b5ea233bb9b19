/**
 Sorting rows: `sortRows` and `compareSortValues` of internal/engine/engine.go.

 `compareSortValues` compares numbers as numbers and everything else as text.  That is an order
 exactly when no text falls between numbers that are the other way round as texts; under that
 condition on every sort column the stable sort has one possible result.
*/
module Sorting {
  import opened Wrappers
  import opened Texts
  import opened Values
  import opened StableSorting

  datatype SortField = SortField(field: string, descending: bool)

  /******* One column *******/

  function AsNumber(num: Numerals, v: Value): Option<real> { num.parse(Sprint(num, v)) }

  function CompareSortValues(num: Numerals, a: Value, b: Value): int {
    match (AsNumber(num, a), AsNumber(num, b))
    case (Some(x), Some(y)) => CompareReals(x, y)
    case _ => Compare(Sprint(num, a), Sprint(num, b))
  }

  /** At most: the order behind the three-way comparison. */
  predicate AtMost(num: Numerals, a: Value, b: Value) { CompareSortValues(num, a, b) <= 0 }

  lemma ComparisonIsAntisymmetric(num: Numerals, a: Value, b: Value)
    ensures CompareSortValues(num, a, b) == -CompareSortValues(num, b, a)
  {
    CompareIsAntisymmetric(Sprint(num, a), Sprint(num, b));
  }

  ghost predicate ColumnIsOrdered(num: Numerals, column: set<Value>) {
    forall a, b, c :: a in column && b in column && c in column && AtMost(num, a, b) && AtMost(num, b, c) ==> AtMost(num, a, c)
  }

  /** Every text that is not a number splits the numbers of the column into smaller ones, which
      come before it as texts, and larger ones, which come after it. */
  ghost predicate TextsCutNumbers(num: Numerals, column: set<Value>) {
    forall a, b, t :: a in column && b in column && t in column
      && AsNumber(num, a).Some? && AsNumber(num, b).Some? && AsNumber(num, t).None?
      && AsNumber(num, a).value <= AsNumber(num, b).value && Less(Sprint(num, b), Sprint(num, t))
      ==> Less(Sprint(num, a), Sprint(num, t))
  }

  /** Three values, by which of them are numbers. */
  lemma OrderedThrice(num: Numerals, column: set<Value>, a: Value, b: Value, c: Value)
    requires TextsCutNumbers(num, column) && a in column && b in column && c in column
    requires AtMost(num, a, b) && AtMost(num, b, c)
    ensures AtMost(num, a, c)
  {
    var s, t, u := Sprint(num, a), Sprint(num, b), Sprint(num, c);
    CompareIsAntisymmetric(s, t);
    CompareIsAntisymmetric(t, u);
    CompareIsAntisymmetric(s, u);
    var x, y, z := AsNumber(num, a), AsNumber(num, b), AsNumber(num, c);
    if x.Some? && y.Some? && z.None? {
      assert Less(t, u);
    } else if (x.None? && y.None?) || (y.None? && z.None?) || (x.None? && z.None?) {
      LessIsTransitive(s, t, u);
    }
  }

  /** The comparison orders a column exactly when its texts cut its numbers. */
  lemma OrderedExactlyWhenCut(num: Numerals, column: set<Value>)
    ensures ColumnIsOrdered(num, column) <==> TextsCutNumbers(num, column)
  {
    if TextsCutNumbers(num, column) {
      forall a, b, c | a in column && b in column && c in column && AtMost(num, a, b) && AtMost(num, b, c)
        ensures AtMost(num, a, c)
      {
        OrderedThrice(num, column, a, b, c);
      }
    }
    if ColumnIsOrdered(num, column) {
      forall a, b, t | a in column && b in column && t in column
          && AsNumber(num, a).Some? && AsNumber(num, b).Some? && AsNumber(num, t).None?
          && AsNumber(num, a).value <= AsNumber(num, b).value && Less(Sprint(num, b), Sprint(num, t))
        ensures Less(Sprint(num, a), Sprint(num, t))
      {
        assert AtMost(num, a, b) && AtMost(num, b, t);
        CompareIsAntisymmetric(Sprint(num, a), Sprint(num, t));
      }
    }
  }

  /** Columns of one kind: numbers written with digits, signs and points, and missing values; or
      only text.  Missing values come after all numbers. */
  ghost predicate NumbersAndMissing(num: Numerals, column: set<Value>) {
    forall v :: v in column ==>
      if v == Nil then AsNumber(num, v).None?
      else AsNumber(num, v).Some? && Sprint(num, v) != "" && Sprint(num, v)[0] < '<'
  }

  ghost predicate OnlyTexts(num: Numerals, column: set<Value>) {
    forall v :: v in column ==> AsNumber(num, v).None?
  }

  lemma UniformColumnsAreOrdered(num: Numerals, column: set<Value>)
    requires NumbersAndMissing(num, column) || OnlyTexts(num, column)
    ensures ColumnIsOrdered(num, column)
    ensures NumbersAndMissing(num, column) ==> forall v :: v in column && v != Nil && Nil in column ==> CompareSortValues(num, v, Nil) < 0
  {
    OrderedExactlyWhenCut(num, column);
  }

  /** Mixed columns need not be ordered: 9 is below 10, "10" is below "1a", "1a" is below "9". */
  lemma MixedColumnIsNotOrdered(num: Numerals)
    requires num.parse("9") == Some(9.0) && num.parse("10") == Some(10.0) && num.parse("1a") == None
    ensures !ColumnIsOrdered(num, {Text("9"), Text("10"), Text("1a")})
  {
    var column := {Text("9"), Text("10"), Text("1a")};
    assert Compare("0", "a") < 0 && Compare("10", "1a") < 0;
    assert AtMost(num, Text("10"), Text("1a")) && AtMost(num, Text("1a"), Text("9"));
    assert !AtMost(num, Text("10"), Text("9"));
  }

  /******* Rows *******/

  function Cell(row: Row, field: string): Value {
    match ValueAt(row, field)
    case Some(v) => v
    case None => Nil
  }

  function CompareRows(num: Numerals, fields: seq<SortField>, a: Row, b: Row): int {
    if fields == [] then 0 else
    var comparison := CompareSortValues(num, Cell(a, fields[0].field), Cell(b, fields[0].field));
    if comparison == 0 then CompareRows(num, fields[1..], a, b)
    else if fields[0].descending then -comparison
    else comparison
  }

  function Column(rows: seq<Row>, field: string): set<Value> { set row | row in rows :: Cell(row, field) }

  ghost predicate ColumnsAreOrdered(num: Numerals, fields: seq<SortField>, rows: seq<Row>) {
    forall f :: f in fields ==> ColumnIsOrdered(num, Column(rows, f.field))
  }

  ghost predicate RowsAreOrdered(num: Numerals, fields: seq<SortField>, rows: seq<Row>) {
    && (forall a, b :: a in rows && b in rows ==> CompareRows(num, fields, a, b) == -CompareRows(num, fields, b, a))
    && (forall a, b, c :: a in rows && b in rows && c in rows
                          && CompareRows(num, fields, a, b) <= 0 && CompareRows(num, fields, b, c) <= 0
                          ==> CompareRows(num, fields, a, c) <= 0)
  }

  lemma {:induction false} RowComparisonIsAntisymmetric(num: Numerals, fields: seq<SortField>, a: Row, b: Row)
    ensures CompareRows(num, fields, a, b) == -CompareRows(num, fields, b, a)
  {
    if fields != [] {
      ComparisonIsAntisymmetric(num, Cell(a, fields[0].field), Cell(b, fields[0].field));
      RowComparisonIsAntisymmetric(num, fields[1..], a, b);
    }
  }

  /** On an ordered column the three-way comparison is transitive in both its senses. */
  lemma ColumnStep(num: Numerals, column: set<Value>, x: Value, y: Value, z: Value)
    requires ColumnIsOrdered(num, column) && x in column && y in column && z in column
    ensures var xy, yz, xz := CompareSortValues(num, x, y), CompareSortValues(num, y, z), CompareSortValues(num, x, z);
      && (xy <= 0 && yz <= 0 ==> xz <= 0 && (xz == 0 ==> xy == 0 && yz == 0))
      && (xy >= 0 && yz >= 0 ==> xz >= 0 && (xz == 0 ==> xy == 0 && yz == 0))
  {
    ComparisonIsAntisymmetric(num, x, y);
    ComparisonIsAntisymmetric(num, y, z);
    ComparisonIsAntisymmetric(num, x, z);
    assert AtMost(num, x, y) && AtMost(num, y, z) ==> AtMost(num, x, z);
    assert AtMost(num, z, y) && AtMost(num, y, x) ==> AtMost(num, z, x);
    assert AtMost(num, y, z) && AtMost(num, z, x) ==> AtMost(num, y, x);
    assert AtMost(num, z, x) && AtMost(num, x, y) ==> AtMost(num, z, y);
    assert AtMost(num, x, z) && AtMost(num, z, y) ==> AtMost(num, x, y);
    assert AtMost(num, y, x) && AtMost(num, x, z) ==> AtMost(num, y, z);
  }

  lemma {:induction false} RowComparisonIsTransitive(num: Numerals, fields: seq<SortField>, rows: seq<Row>, a: Row, b: Row, c: Row)
    requires ColumnsAreOrdered(num, fields, rows) && a in rows && b in rows && c in rows
    requires CompareRows(num, fields, a, b) <= 0 && CompareRows(num, fields, b, c) <= 0
    ensures CompareRows(num, fields, a, c) <= 0
  {
    if fields != [] {
      var f := fields[0].field;
      ColumnStep(num, Column(rows, f), Cell(a, f), Cell(b, f), Cell(c, f));
      if CompareSortValues(num, Cell(a, f), Cell(c, f)) == 0 {
        RowComparisonIsTransitive(num, fields[1..], rows, a, b, c);
      }
    }
  }

  /** Several keys, ascending or descending, order the rows if every column is ordered. */
  lemma OrderedColumnsOrderRows(num: Numerals, fields: seq<SortField>, rows: seq<Row>)
    requires ColumnsAreOrdered(num, fields, rows)
    ensures RowsAreOrdered(num, fields, rows)
  {
    forall a, b | a in rows && b in rows
      ensures CompareRows(num, fields, a, b) == -CompareRows(num, fields, b, a)
    {
      RowComparisonIsAntisymmetric(num, fields, a, b);
    }
    forall a, b, c | a in rows && b in rows && c in rows
        && CompareRows(num, fields, a, b) <= 0 && CompareRows(num, fields, b, c) <= 0
      ensures CompareRows(num, fields, a, c) <= 0
    {
      RowComparisonIsTransitive(num, fields, rows, a, b, c);
    }
  }

  function RowOrder(num: Numerals, fields: seq<SortField>): Order<Row> {
    (a, b) => CompareRows(num, fields, a, b) <= 0
  }

  /** The stable sort of the rows, by insertion. */
  function SortRows(num: Numerals, fields: seq<SortField>, rows: seq<Row>): seq<Row> {
    if fields == [] then rows else Sort(RowOrder(num, fields), rows)
  }

  /** What `sortRows` returns, as far as `sort.SliceStable` promises it: always the same rows; and the
      stable sort of them, if every column is ordered.  On other columns the comparator is no order,
      and nothing is said about where the rows go. */
  ghost predicate IsSortOf(num: Numerals, fields: seq<SortField>, sorted: seq<Row>, rows: seq<Row>) {
    && multiset(sorted) == multiset(rows) && (fields == [] ==> sorted == rows)
    && (ColumnsAreOrdered(num, fields, rows) ==> IsStableSortOf(RowOrder(num, fields), sorted, rows))
  }

  lemma OrderedColumnsAreAnOrder(num: Numerals, fields: seq<SortField>, rows: seq<Row>)
    requires ColumnsAreOrdered(num, fields, rows)
    ensures IsOrder(RowOrder(num, fields), rows)
  {
    OrderedColumnsOrderRows(num, fields, rows);
  }

  lemma {:induction false} NoFieldsKeepRows(num: Numerals, rows: seq<Row>)
    ensures Sort(RowOrder(num, []), rows) == rows
  {
    if rows != [] {
      NoFieldsKeepRows(num, rows[1..]);
    }
  }

  /** Insertion sort keeps the promise, on any columns. */
  lemma SortRowsIsASort(num: Numerals, fields: seq<SortField>, rows: seq<Row>)
    ensures IsSortOf(num, fields, SortRows(num, fields, rows), rows)
  {
    SortKeepsItems(RowOrder(num, fields), rows);
    if fields == [] {
      NoFieldsKeepRows(num, rows);
    }
    if ColumnsAreOrdered(num, fields, rows) {
      OrderedColumnsAreAnOrder(num, fields, rows);
      SortIsStable(RowOrder(num, fields), rows);
    }
  }

  /** On ordered columns the promise leaves one result, the stable sort of the rows. */
  lemma SortRowsIsTheStableSort(num: Numerals, fields: seq<SortField>, rows: seq<Row>, sorted: seq<Row>)
    requires ColumnsAreOrdered(num, fields, rows)
    ensures IsSortOf(num, fields, sorted, rows) <==> sorted == SortRows(num, fields, rows)
    ensures fields != [] ==> (IsStableSortOf(RowOrder(num, fields), sorted, rows) <==> sorted == SortRows(num, fields, rows))
  {
    SortRowsIsASort(num, fields, rows);
    OrderedColumnsAreAnOrder(num, fields, rows);
    if fields != [] && IsStableSortOf(RowOrder(num, fields), sorted, rows) {
      StableSortIsUnique(RowOrder(num, fields), sorted, rows);
    }
  }

  /** `sortRows`.  The body is one of the results its contract leaves open. */
  method SortStable(num: Numerals, fields: seq<SortField>, rows: seq<Row>) returns (sorted: seq<Row>)
    ensures IsSortOf(num, fields, sorted, rows)
  {
    sorted := SortRows(num, fields, rows);
    SortRowsIsASort(num, fields, rows);
  }
}
