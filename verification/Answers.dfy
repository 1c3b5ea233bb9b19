/**
 What a caller sees of an answer: the rows that are wanted, the first of them in order, a flag that says
 whether anything may be missing, and what each target was asked for.
*/
module Answers {
  import opened Values
  import opened Sorting
  import opened SortOrders
  import opened Fetching
  import opened Queries
  import opened QueryLaws
  import Filters

  /******* Which rows are kept *******/

  /** The row is of a region that is asked for: any, its own, or none if it has none. */
  ghost predicate InRegions(row: Row, regions: seq<string>) {
    || regions == [] || "*" in regions
    || (exists region: string :: IsOfRegion(row, region) && region in regions)
    || ("" in regions && !exists region: string :: IsOfRegion(row, region))
  }

  ghost predicate IsOfRegion(row: Row, region: string) { "region" in row && row["region"] == Text(region) }

  /** The row is of a region that is asked for, and the filter, if any, is true of it. */
  ghost predicate IsWanted(num: Numerals, q: Query, row: Row) {
    InRegions(row, q.regions) && (q.filter.Some? ==> Filters.IsTrue(num, q.filter.value, row))
  }

  /** The row is of such a region, but the filter is neither true nor false of it. */
  ghost predicate IsUndecided(num: Numerals, q: Query, row: Row) {
    InRegions(row, q.regions) && q.filter.Some? && !Filters.IsTrue(num, q.filter.value, row) && !Filters.IsFalse(num, q.filter.value, row)
  }

  /** What is shown of a row: all of it, or all but its native part. */
  ghost predicate IsShown(q: Query, row: Row, shown: Row) {
    && (forall name :: name in shown <==> name in row && (q.includeNative || name != "native"))
    && (forall name :: name in shown ==> shown[name] == row[name])
  }

  lemma RegionExactlyWhen(row: Row, regions: seq<string>)
    ensures RegionMatches(row, regions) <==> InRegions(row, regions)
  {
    if "region" in row && row["region"].Text? {
      assert IsOfRegion(row, row["region"].s);
    }
  }

  lemma JudgedExactlyWhen(num: Numerals, q: Query, row: Row)
    ensures Judge(num, q, row).Keep? <==> IsWanted(num, q, row)
    ensures Judge(num, q, row).Keep? ==> IsShown(q, row, Judge(num, q, row).row)
    ensures Judge(num, q, row).FilterError? <==> IsUndecided(num, q, row)
  {
    RegionExactlyWhen(row, q.regions);
    if q.filter.Some? {
      Filters.EvalExactlyWhen(num, q.filter.value, row);
    }
  }

  /** The wanted rows, in order. */
  ghost function WantedRows(num: Numerals, q: Query, rows: seq<Row>): seq<Row> {
    if rows == [] then [] else (if IsWanted(num, q, rows[0]) then [rows[0]] else []) + WantedRows(num, q, rows[1..])
  }

  ghost function UndecidedRows(num: Numerals, q: Query, rows: seq<Row>): nat {
    if rows == [] then 0 else (if IsUndecided(num, q, rows[0]) then 1 else 0) + UndecidedRows(num, q, rows[1..])
  }

  ghost predicate AreShown(q: Query, rows: seq<Row>, shown: seq<Row>) {
    |shown| == |rows| && forall i :: 0 <= i < |rows| ==> IsShown(q, rows[i], shown[i])
  }

  /** Exactly the wanted rows are kept, in order and as they are shown; the undecided ones are errors. */
  lemma {:induction false} KeptExactlyWhenWanted(num: Numerals, q: Query, rows: seq<Row>)
    ensures AreShown(q, WantedRows(num, q, rows), KeptRows(num, q, rows))
    ensures ErrorsIn(num, q, rows) == UndecidedRows(num, q, rows)
  {
    if rows != [] {
      JudgedExactlyWhen(num, q, rows[0]);
      KeptExactlyWhenWanted(num, q, rows[1..]);
    }
  }

  /******* The first rows *******/

  /** An answer shows the first rows of a sorted summary, all of them or as many as the limit allows. */
  lemma AnswersAreFirstRows(num: Numerals, q: Query, limits: Limits, targets: nat, skipped: nat, t: Tally, answer: Answer)
    returns (sorted: seq<Row>)
    requires IsAnswerTo(num, q, limits, targets, skipped, t, answer)
    ensures IsSortedSummary(num, q, t.rows, sorted) && answer.rows <= sorted
    ensures |answer.rows| == if |sorted| <= q.limit then |sorted| else q.limit
    ensures answer.requests == t.requests && answer.scanned == t.scanned
    ensures answer.truncated <==> t.truncated || |answer.rows| < |sorted| || t.scanned >= limits.maxScannedItems || t.requests >= limits.maxProviderRequests
  {
    sorted :| IsSortedSummary(num, q, t.rows, sorted) && answer == Finish(q, limits, targets, skipped, t, sorted);
  }

  lemma SameColumns(num: Numerals, fields: seq<SortField>, rows: seq<Row>, others: seq<Row>)
    requires multiset(rows) == multiset(others) && ColumnsAreOrdered(num, fields, rows)
    ensures ColumnsAreOrdered(num, fields, others)
  {
    assert forall row :: row in rows <==> row in multiset(rows);
    assert forall row :: row in others <==> row in multiset(others);
    forall f | f in fields
      ensures Column(rows, f.field) == Column(others, f.field)
    {
    }
  }

  /** If the sort columns of the summary are ordered, no row that the limit cuts off comes before one that
      is shown. */
  lemma CutRowsComeLater(num: Numerals, q: Query, limits: Limits, targets: nat, skipped: nat, t: Tally, answer: Answer)
    returns (sorted: seq<Row>)
    requires IsAnswerTo(num, q, limits, targets, skipped, t, answer)
    ensures IsSortedSummary(num, q, t.rows, sorted) && answer.rows <= sorted
    ensures ColumnsAreOrdered(num, q.sort, sorted) ==> forall i, j :: 0 <= i < |answer.rows| <= j < |sorted| ==>
      ComesFirst(num, q.sort, answer.rows[i], sorted[j]) || AllTie(num, q.sort, answer.rows[i], sorted[j])
  {
    sorted := AnswersAreFirstRows(num, q, limits, targets, skipped, t, answer);
    var pre :| IsSummary(num, q, t.rows, pre) && IsSortOf(num, q.sort, sorted, pre);
    if ColumnsAreOrdered(num, q.sort, sorted) {
      SameColumns(num, q.sort, sorted, pre);
      forall i, j | 0 <= i < |answer.rows| <= j < |sorted|
        ensures ComesFirst(num, q.sort, answer.rows[i], sorted[j]) || AllTie(num, q.sort, answer.rows[i], sorted[j])
      {
        assert answer.rows[i] == sorted[i];
        SortedRowsAreInOrder(num, q.sort, sorted, pre, i, j);
      }
    }
  }

  /******* The flag *******/

  function RequestsOf(arrived: seq<Outcome>): int {
    if arrived == [] then 0 else arrived[0].page.requests + RequestsOf(arrived[1..])
  }

  lemma {:induction false} RowsMakeNoRequests(num: Numerals, q: Query, max: nat, t: Tally, rows: seq<Row>)
    ensures VisitRows(num, q, max, t, rows).requests == t.requests
    decreases |rows|
  {
    if rows != [] && t.visited < max {
      RowsMakeNoRequests(num, q, max, VisitRow(num, q, t, rows[0]), rows[1..]);
    }
  }

  lemma {:induction false} RequestsAreCounted(num: Numerals, q: Query, max: nat, t: Tally, arrived: seq<Outcome>)
    ensures VisitOutcomes(num, q, max, t, arrived).requests == t.requests + RequestsOf(arrived)
    decreases |arrived|
  {
    if arrived != [] {
      var outcome := arrived[0];
      var next := VisitOutcome(num, q, max, t, outcome);
      RowsMakeNoRequests(num, q, max,
        t.(requests := t.requests + outcome.page.requests, scanned := t.scanned + outcome.page.scanned,
           failed := if outcome.err.Some? then t.failed + 1 else t.failed,
           succeeded := if outcome.err.Some? then t.succeeded else t.succeeded + 1,
           truncated := t.truncated || outcome.page.nextToken != ""),
        outcome.page.rows);
      RequestsAreCounted(num, q, max, next, arrived[1..]);
    }
  }

  lemma {:induction false} AnyTokenMeansSome(arrived: seq<Outcome>)
    ensures AnyToken(arrived) <==> exists i :: 0 <= i < |arrived| && arrived[i].page.nextToken != ""
  {
    if arrived != [] {
      AnyTokenMeansSome(arrived[1..]);
      assert forall i :: 1 <= i < |arrived| ==> arrived[i] == arrived[1..][i - 1];
      if i :| 0 <= i < |arrived[1..]| && arrived[1..][i].page.nextToken != "" {
        assert arrived[i + 1].page.nextToken != "";
      }
    }
  }

  /** An answer is flagged as truncated exactly if a target had more to give, the limit cuts rows off, or
      a budget is used up; so a query that stays below all of these gets an answer that is complete. */
  lemma TruncatedExactlyWhen(num: Numerals, q: Query, limits: Limits, providers: seq<Provider>, gaveUp: set<nat>, arrived: seq<Outcome>,
                             skipped: nat, answer: Answer) returns (sorted: seq<Row>)
    requires IsAnswer(num, q, limits, providers, gaveUp, arrived, skipped, answer)
    ensures IsSortedSummary(num, q, KeptRows(num, q, RowsOfAll(arrived)), sorted) && answer.rows <= sorted
    ensures answer.requests == RequestsOf(arrived) && answer.scanned == TotalScanned(arrived)
    ensures answer.truncated <==>
      || (exists i :: 0 <= i < |arrived| && arrived[i].page.nextToken != "")
      || q.limit < |sorted| || limits.maxScannedItems <= TotalScanned(arrived) || limits.maxProviderRequests <= RequestsOf(arrived)
  {
    var t := VisitOutcomes(num, q, limits.maxScannedItems, NOTHING, arrived);
    sorted := AnswersAreFirstRows(num, q, limits, |providers|, skipped, t, answer);
    AnswerAccountsForTargets(num, q, limits, providers, gaveUp, arrived, skipped, answer);
    QueryStaysInBudget(limits, q, providers, gaveUp);
    ArrivalOrderIsIrrelevant(arrived, ResultsOf(limits, q, providers, gaveUp));
    VisitOutcomesKeeps(num, q, limits.maxScannedItems, NOTHING, arrived);
    RequestsAreCounted(num, q, limits.maxScannedItems, NOTHING, arrived);
    AnyTokenMeansSome(arrived);
  }

  /******* The shares *******/

  /** Requests and items are shared out evenly, nothing but a remainder smaller than the number of targets
      being left over; a target may keep as many rows as it scans if they are filtered, aggregated or
      sorted afterwards, and otherwise no more than the limit. */
  lemma SharesAreEven(limits: Limits, q: Query, targets: nat)
    requires Affordable(limits, q, targets)
    ensures var b := ShareOf(limits, q, targets);
      && b.requests * targets <= limits.maxProviderRequests < (b.requests + 1) * targets
      && b.scan * targets <= limits.maxScannedItems < (b.scan + 1) * targets
      && (q.filter.Some? || q.aggregates != [] || q.sort != [] ==> b.rows == b.scan)
      && (q.filter.None? && q.aggregates == [] && q.sort == [] ==> b.rows <= q.limit && b.rows <= b.scan && (b.rows == q.limit || b.rows == b.scan))
      && b.pageSize == limits.maxPageSize
  {
    EvenShare(limits.maxProviderRequests, targets);
    EvenShare(limits.maxScannedItems, targets);
  }

  lemma EvenShare(budget: nat, targets: nat)
    requires 0 < targets <= budget
    ensures var share := budget / targets; 1 <= share && share * targets <= budget < (share + 1) * targets
  {
    var share := budget / targets;
    assert budget == targets * share + budget % targets;
    assert targets * share == share * targets && (share + 1) * targets == share * targets + targets;
    assert share == 0 ==> targets * share == 0;
  }
}
