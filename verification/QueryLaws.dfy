/** What the answer of a query is worth. */
module QueryLaws {
  import opened Wrappers
  import opened Values
  import opened Sequences
  import opened Aggregation
  import opened AggregationLaws
  import opened AggregationOrders
  import opened Sorting
  import opened Fetching
  import opened FetchingLaws
  import opened Queries

  /******* Budgets *******/

  function TotalCalls(outcomes: seq<Outcome>): nat {
    if outcomes == [] then 0 else |outcomes[0].page.calls| + TotalCalls(outcomes[1..])
  }

  function TotalScanned(outcomes: seq<Outcome>): int {
    if outcomes == [] then 0 else outcomes[0].page.scanned + TotalScanned(outcomes[1..])
  }

  function TotalRows(outcomes: seq<Outcome>): nat {
    if outcomes == [] then 0 else |outcomes[0].page.rows| + TotalRows(outcomes[1..])
  }

  lemma SharesFit(budget: nat, targets: nat)
    requires 0 < targets <= budget
    ensures Max(1, budget / targets) == budget / targets && targets * (budget / targets) <= budget
  {
    var share, rest := budget / targets, budget % targets;
    assert budget == targets * share + rest && rest < targets;
    assert share == 0 ==> targets * share == 0;
  }

  ghost predicate AllInBudget(b: Budget, outcomes: seq<Outcome>) {
    forall i :: 0 <= i < |outcomes| ==> InBudget(b, outcomes[i].page)
  }

  lemma {:induction false} TotalsOf(b: Budget, outcomes: seq<Outcome>)
    requires AllInBudget(b, outcomes) && 0 <= b.requests && 0 <= b.scan
    ensures TotalCalls(outcomes) <= |outcomes| * b.requests
    ensures TotalRows(outcomes) <= TotalScanned(outcomes) <= |outcomes| * b.scan
  {
    if outcomes != [] {
      TotalsOf(b, outcomes[1..]);
      assert InBudget(b, outcomes[0].page);
      TimesStep(|outcomes|, b.requests);
      TimesStep(|outcomes|, b.scan);
    }
  }

  lemma TimesStep(n: int, x: int)
    ensures n * x == x + (n - 1) * x
  {
  }

  /** The results of a query's targets. */
  function ResultsOf(limits: Limits, q: Query, providers: seq<Provider>, gaveUp: set<nat>): seq<Outcome>
    requires 0 < |providers|
  {
    Outcomes(providers, gaveUp, ShareOf(limits, q, |providers|), q)
  }

  lemma OutcomesInBudget(limits: Limits, q: Query, providers: seq<Provider>, gaveUp: set<nat>)
    requires Affordable(limits, q, |providers|)
    ensures IsBudget(ShareOf(limits, q, |providers|))
    ensures AllInBudget(ShareOf(limits, q, |providers|), ResultsOf(limits, q, providers, gaveUp))
  {
    var b := ShareOf(limits, q, |providers|);
    SharesFit(limits.maxScannedItems, |providers|);
    forall i | 0 <= i < |providers|
      ensures InBudget(b, ResultsOf(limits, q, providers, gaveUp)[i].page)
    {
      TargetIsFetched(providers[i], b, q.metrics);
    }
  }

  /** One query, whatever the providers answer and whichever targets give up: at most
      `maxProviderRequests` calls, retries included, at most `maxScannedItems` items scanned, no more
      rows than that, and every call asks for 1 to `maxPageSize` rows. */
  lemma QueryStaysInBudget(limits: Limits, q: Query, providers: seq<Provider>, gaveUp: set<nat>)
    requires Affordable(limits, q, |providers|)
    ensures var outcomes := ResultsOf(limits, q, providers, gaveUp);
      && TotalCalls(outcomes) <= limits.maxProviderRequests
      && TotalRows(outcomes) <= TotalScanned(outcomes) <= limits.maxScannedItems
      && (forall i, r :: 0 <= i < |outcomes| && r in outcomes[i].page.calls ==> 1 <= r.limit <= limits.maxPageSize)
  {
    var b := ShareOf(limits, q, |providers|);
    OutcomesInBudget(limits, q, providers, gaveUp);
    TotalsOf(b, ResultsOf(limits, q, providers, gaveUp));
    SharesFit(limits.maxScannedItems, |providers|);
    SharesFit(limits.maxProviderRequests, |providers|);
  }

  /******* Rows *******/

  function KeptOf(num: Numerals, q: Query, row: Row): seq<Row> {
    match Judge(num, q, row) case Keep(kept) => [kept] case _ => []
  }

  /** The rows that pass, stripped as the query asks. */
  function KeptRows(num: Numerals, q: Query, rows: seq<Row>): seq<Row> {
    if rows == [] then []
    else KeptOf(num, q, rows[0]) + KeptRows(num, q, rows[1..])
  }

  function ErrorsIn(num: Numerals, q: Query, rows: seq<Row>): nat {
    if rows == [] then 0 else (if Judge(num, q, rows[0]).FilterError? then 1 else 0) + ErrorsIn(num, q, rows[1..])
  }

  /** What results that arrive add to a tally: their kept rows and filter errors; and their counts. */
  ghost predicate AddsRows(num: Numerals, q: Query, t: Tally, t': Tally, rows: seq<Row>) {
    && t'.rows == t.rows + KeptRows(num, q, rows) && t'.visited == t.visited + |rows|
    && t'.filterErrors + t'.omitted == t.filterErrors + t.omitted + ErrorsIn(num, q, rows)
  }

  ghost predicate AddsCounts(t: Tally, t': Tally, results: nat, failed: nat, scanned: int, truncated: bool) {
    && t'.truncated == (t.truncated || truncated) && t'.scanned == t.scanned + scanned
    && t'.failed == t.failed + failed && t'.succeeded + t'.failed == t.succeeded + t.failed + results
  }

  lemma {:induction false} KeptRowsJoin(num: Numerals, q: Query, a: seq<Row>, b: seq<Row>)
    ensures KeptRows(num, q, a + b) == KeptRows(num, q, a) + KeptRows(num, q, b)
    ensures ErrorsIn(num, q, a + b) == ErrorsIn(num, q, a) + ErrorsIn(num, q, b)
  {
    if a == [] {
      assert a + b == b;
    } else {
      assert (a + b)[1..] == a[1..] + b;
      KeptRowsJoin(num, q, a[1..], b);
    }
  }

  lemma AddRows(num: Numerals, q: Query, t: Tally, t': Tally, t'': Tally, a: seq<Row>, b: seq<Row>)
    requires AddsRows(num, q, t, t', a) && AddsRows(num, q, t', t'', b)
    ensures AddsRows(num, q, t, t'', a + b)
  {
    KeptRowsJoin(num, q, a, b);
  }

  lemma VisitRowAdds(num: Numerals, q: Query, t: Tally, row: Row)
    ensures AddsRows(num, q, t, VisitRow(num, q, t, row), [row])
    ensures AddsCounts(t, VisitRow(num, q, t, row), 0, 0, 0, false)
  {
    assert [row][1..] == [];
  }

  /** The guard on the number of visited rows does not fire while they fit. */
  lemma {:induction false} VisitRowsKeeps(num: Numerals, q: Query, max: nat, t: Tally, rows: seq<Row>)
    requires t.visited + |rows| <= max
    ensures AddsRows(num, q, t, VisitRows(num, q, max, t, rows), rows)
    ensures AddsCounts(t, VisitRows(num, q, max, t, rows), 0, 0, 0, false)
    decreases |rows|
  {
    if rows == [] {
      assert t.rows + [] == t.rows;
    } else {
      var next := VisitRow(num, q, t, rows[0]);
      VisitRowAdds(num, q, t, rows[0]);
      VisitRowsKeeps(num, q, max, next, rows[1..]);
      AddRows(num, q, t, next, VisitRows(num, q, max, t, rows), [rows[0]], rows[1..]);
      assert rows == [rows[0]] + rows[1..];
    }
  }

  /** The rows of all results, in the order of arrival. */
  function RowsOfAll(arrived: seq<Outcome>): seq<Row> {
    if arrived == [] then [] else arrived[0].page.rows + RowsOfAll(arrived[1..])
  }

  function FailuresIn(arrived: seq<Outcome>): nat {
    if arrived == [] then 0 else (if arrived[0].err.Some? then 1 else 0) + FailuresIn(arrived[1..])
  }

  predicate AnyToken(arrived: seq<Outcome>) {
    arrived != [] && (arrived[0].page.nextToken != "" || AnyToken(arrived[1..]))
  }

  lemma VisitOutcomeKeeps(num: Numerals, q: Query, max: nat, t: Tally, outcome: Outcome)
    requires t.visited + |outcome.page.rows| <= max
    ensures var t' := VisitOutcome(num, q, max, t, outcome);
      && AddsRows(num, q, t, t', outcome.page.rows)
      && AddsCounts(t, t', 1, if outcome.err.Some? then 1 else 0, outcome.page.scanned, outcome.page.nextToken != "")
  {
    var t0 := t.(requests := t.requests + outcome.page.requests, scanned := t.scanned + outcome.page.scanned,
                 failed := if outcome.err.Some? then t.failed + 1 else t.failed,
                 succeeded := if outcome.err.Some? then t.succeeded else t.succeeded + 1,
                 truncated := t.truncated || outcome.page.nextToken != "");
    VisitRowsKeeps(num, q, max, t0, outcome.page.rows);
  }

  lemma {:induction false} VisitOutcomesKeeps(num: Numerals, q: Query, max: nat, t: Tally, arrived: seq<Outcome>)
    requires t.visited + TotalRows(arrived) <= max
    ensures var t' := VisitOutcomes(num, q, max, t, arrived);
      && AddsRows(num, q, t, t', RowsOfAll(arrived))
      && AddsCounts(t, t', |arrived|, FailuresIn(arrived), TotalScanned(arrived), AnyToken(arrived))
    decreases |arrived|
  {
    if arrived != [] {
      VisitOutcomeKeeps(num, q, max, t, arrived[0]);
      var next := VisitOutcome(num, q, max, t, arrived[0]);
      VisitOutcomesKeeps(num, q, max, next, arrived[1..]);
      AddRows(num, q, t, next, VisitOutcomes(num, q, max, t, arrived), arrived[0].page.rows, RowsOfAll(arrived[1..]));
    } else {
      assert t.rows + [] == t.rows;
    }
  }

  /******* Orders of arrival *******/

  lemma WithoutLater<T>(items: seq<T>, i: nat)
    requires 0 < i < |items|
    ensures Without(items, i) == [items[0]] + Without(items[1..], i - 1)
  {
  }

  /** Moving the middle part to the front. */
  lemma Swapped(a: multiset<Row>, b: multiset<Row>, c: multiset<Row>)
    ensures a + (b + c) == b + (a + c)
  {
  }

  lemma {:induction false} RowsOfAllWithout(arrived: seq<Outcome>, i: nat)
    requires i < |arrived|
    ensures multiset(RowsOfAll(arrived)) == multiset(arrived[i].page.rows) + multiset(RowsOfAll(Without(arrived, i)))
  {
    if i == 0 {
      assert Without(arrived, 0) == arrived[1..];
    } else {
      WithoutLater(arrived, i);
      RowsOfAllWithout(arrived[1..], i - 1);
      RowsOfAllOfOneMore(arrived[0], Without(arrived[1..], i - 1));
      Swapped(multiset(arrived[0].page.rows), multiset(arrived[i].page.rows), multiset(RowsOfAll(Without(arrived[1..], i - 1))));
    }
  }

  lemma RowsOfAllOfOneMore(first: Outcome, rest: seq<Outcome>)
    ensures RowsOfAll([first] + rest) == first.page.rows + RowsOfAll(rest)
    ensures TotalRows([first] + rest) == |first.page.rows| + TotalRows(rest)
    ensures FailuresIn([first] + rest) == (if first.err.Some? then 1 else 0) + FailuresIn(rest)
    ensures AnyToken([first] + rest) == (first.page.nextToken != "" || AnyToken(rest))
  {
    assert ([first] + rest)[1..] == rest;
  }

  lemma {:induction false} CountsOfAllWithout(arrived: seq<Outcome>, i: nat)
    requires i < |arrived|
    ensures TotalRows(arrived) == |arrived[i].page.rows| + TotalRows(Without(arrived, i))
    ensures FailuresIn(arrived) == (if arrived[i].err.Some? then 1 else 0) + FailuresIn(Without(arrived, i))
    ensures AnyToken(arrived) == (arrived[i].page.nextToken != "" || AnyToken(Without(arrived, i)))
  {
    if i == 0 {
      assert Without(arrived, 0) == arrived[1..];
    } else {
      WithoutLater(arrived, i);
      CountsOfAllWithout(arrived[1..], i - 1);
      RowsOfAllOfOneMore(arrived[0], Without(arrived[1..], i - 1));
    }
  }

  /** Whatever the order of arrival, the same rows arrive. */
  lemma {:induction false} ArrivalOrderIsIrrelevant(arrived: seq<Outcome>, outcomes: seq<Outcome>)
    requires multiset(arrived) == multiset(outcomes)
    ensures multiset(RowsOfAll(arrived)) == multiset(RowsOfAll(outcomes)) && TotalRows(arrived) == TotalRows(outcomes)
    ensures FailuresIn(arrived) == FailuresIn(outcomes) && AnyToken(arrived) == AnyToken(outcomes) && |arrived| == |outcomes|
  {
    SameSize(arrived, outcomes);
    if arrived != [] {
      var i := FindIn(arrived[0], arrived, outcomes);
      WithoutCounts(outcomes, i);
      WithoutCounts(arrived, 0);
      assert Without(arrived, 0) == arrived[1..];
      Cancel(multiset(arrived[1..]), multiset(Without(outcomes, i)), arrived[0]);
      ArrivalOrderIsIrrelevant(arrived[1..], Without(outcomes, i));
      RowsOfAllWithout(outcomes, i);
      CountsOfAllWithout(outcomes, i);
    }
  }

  lemma KeptRowsOfOneMore(num: Numerals, q: Query, first: Row, rest: seq<Row>)
    ensures KeptRows(num, q, [first] + rest) == KeptOf(num, q, first) + KeptRows(num, q, rest)
    ensures ErrorsIn(num, q, [first] + rest) == (if Judge(num, q, first).FilterError? then 1 else 0) + ErrorsIn(num, q, rest)
  {
    assert ([first] + rest)[1..] == rest;
  }

  lemma {:induction false} KeptRowsWithout(num: Numerals, q: Query, rows: seq<Row>, i: nat)
    requires i < |rows|
    ensures multiset(KeptRows(num, q, rows)) == multiset(KeptOf(num, q, rows[i])) + multiset(KeptRows(num, q, Without(rows, i)))
    ensures ErrorsIn(num, q, rows) == (if Judge(num, q, rows[i]).FilterError? then 1 else 0) + ErrorsIn(num, q, Without(rows, i))
  {
    if i == 0 {
      assert Without(rows, 0) == rows[1..];
    } else {
      WithoutLater(rows, i);
      KeptRowsWithout(num, q, rows[1..], i - 1);
      KeptRowsOfOneMore(num, q, rows[0], Without(rows[1..], i - 1));
      Swapped(multiset(KeptOf(num, q, rows[0])), multiset(KeptOf(num, q, rows[i])), multiset(KeptRows(num, q, Without(rows[1..], i - 1))));
    }
  }

  lemma {:induction false} KeepingIgnoresOrder(num: Numerals, q: Query, a: seq<Row>, b: seq<Row>)
    requires multiset(a) == multiset(b)
    ensures multiset(KeptRows(num, q, a)) == multiset(KeptRows(num, q, b)) && ErrorsIn(num, q, a) == ErrorsIn(num, q, b)
  {
    SameSize(a, b);
    if a != [] {
      var i := FindIn(a[0], a, b);
      WithoutCounts(b, i);
      WithoutCounts(a, 0);
      assert Without(a, 0) == a[1..];
      Cancel(multiset(a[1..]), multiset(Without(b, i)), a[0]);
      KeepingIgnoresOrder(num, q, a[1..], Without(b, i));
      KeptRowsWithout(num, q, b, i);
    }
  }

  /******* The meaning of an answer *******/

  /** What the engine may answer: some targets may give up before they hold a slot, and the results
      may arrive in any order. */
  ghost predicate IsAnswer(num: Numerals, q: Query, limits: Limits, providers: seq<Provider>, gaveUp: set<nat>, arrived: seq<Outcome>,
                           skipped: nat, answer: Answer)
  {
    && Affordable(limits, q, |providers|) && multiset(arrived) == multiset(ResultsOf(limits, q, providers, gaveUp))
    && IsAnswerTo(num, q, limits, |providers|, skipped, VisitOutcomes(num, q, limits.maxScannedItems, NOTHING, arrived), answer)
  }

  /** Every planned target is accounted for, in cancelled runs too, and the accumulated rows are the
      kept rows of all results: the guard on visited rows never fires. */
  lemma AnswerAccountsForTargets(num: Numerals, q: Query, limits: Limits, providers: seq<Provider>, gaveUp: set<nat>, arrived: seq<Outcome>,
                                 skipped: nat, answer: Answer)
    requires IsAnswer(num, q, limits, providers, gaveUp, arrived, skipped, answer)
    ensures answer.coverage.planned == |providers| + skipped == answer.coverage.succeeded + answer.coverage.failed
    ensures var t := VisitOutcomes(num, q, limits.maxScannedItems, NOTHING, arrived);
      && t.rows == KeptRows(num, q, RowsOfAll(arrived)) && answer.filterErrors == ErrorsIn(num, q, RowsOfAll(arrived))
      && answer.coverage.failed == FailuresIn(arrived) + skipped
      && t.truncated == AnyToken(arrived)
  {
    QueryStaysInBudget(limits, q, providers, gaveUp);
    ArrivalOrderIsIrrelevant(arrived, ResultsOf(limits, q, providers, gaveUp));
    VisitOutcomesKeeps(num, q, limits.maxScannedItems, NOTHING, arrived);
    assert [] + KeptRows(num, q, RowsOfAll(arrived)) == KeptRows(num, q, RowsOfAll(arrived));
  }

  /** Everything the providers hold for this query, as far as their chains were followed. */
  function Everything(outcomes: seq<Outcome>): seq<Row> {
    if outcomes == [] then [] else AllRows(outcomes[0].page.trail) + Everything(outcomes[1..])
  }

  ghost predicate NoRepeats(outcomes: seq<Outcome>) {
    forall i, j :: 0 <= i < |outcomes| && 0 <= j < |outcomes[i].page.trail| ==> !Repeats(outcomes[i].page.trail[j])
  }

  /** Every chain of every selector was followed from the empty token to its end, and its pages are
      what the provider answered. */
  ghost predicate IsComplete(p: Provider, metrics: seq<string>, outcome: Outcome) {
    && Genuine(p, outcome.page) && |outcome.page.trail| == |SelectorsOf(metrics)|
    && forall j :: 0 <= j < |outcome.page.trail| ==>
         Complete(outcome.page.trail[j]) && Linked(SelectorsOf(metrics)[j], outcome.page.trail[j])
  }

  /** So it was for every target. */
  ghost predicate AllComplete(providers: seq<Provider>, metrics: seq<string>, outcomes: seq<Outcome>) {
    |outcomes| == |providers| && forall i :: 0 <= i < |outcomes| ==> IsComplete(providers[i], metrics, outcomes[i])
  }

  lemma {:induction false} NoFailureNoToken(outcomes: seq<Outcome>)
    requires FailuresIn(outcomes) == 0 && !AnyToken(outcomes)
    ensures forall i :: 0 <= i < |outcomes| ==> outcomes[i].err.None? && outcomes[i].page.nextToken == ""
  {
    if outcomes != [] {
      NoFailureNoToken(outcomes[1..]);
      assert forall i :: 1 <= i < |outcomes| ==> outcomes[i] == outcomes[1..][i - 1];
    }
  }

  lemma {:induction false} KeptEverything(outcomes: seq<Outcome>)
    requires forall i :: 0 <= i < |outcomes| ==> outcomes[i].page.rows == AllRows(outcomes[i].page.trail)
    ensures RowsOfAll(outcomes) == Everything(outcomes)
  {
    if outcomes != [] {
      KeptEverything(outcomes[1..]);
    }
  }

  /** A target that did not fail and whose token is empty was fetched in full. */
  lemma QuietOutcomeIsComplete(p: Provider, b: Budget, q: Query)
    requires IsBudget(b)
    requires var outcome := OutcomeOf(p, b, q);
      outcome.err.None? && outcome.page.nextToken == "" && forall j :: 0 <= j < |outcome.page.trail| ==> !Repeats(outcome.page.trail[j])
    ensures var outcome := OutcomeOf(p, b, q);
      IsComplete(p, q.metrics, outcome) && outcome.page.rows == AllRows(outcome.page.trail)
  {
    TargetIsFetched(p, b, q.metrics);
    EmptyTokenMeansEverything(p, b, q.metrics);
  }

  lemma QuietOutcomesAreComplete(limits: Limits, q: Query, providers: seq<Provider>, gaveUp: set<nat>)
    requires Affordable(limits, q, |providers|)
    requires var outcomes := ResultsOf(limits, q, providers, gaveUp);
      NoRepeats(outcomes) && forall i :: 0 <= i < |outcomes| ==> outcomes[i].err.None? && outcomes[i].page.nextToken == ""
    ensures var outcomes := ResultsOf(limits, q, providers, gaveUp);
      AllComplete(providers, q.metrics, outcomes) && RowsOfAll(outcomes) == Everything(outcomes)
  {
    var b := ShareOf(limits, q, |providers|);
    var outcomes := ResultsOf(limits, q, providers, gaveUp);
    OutcomesInBudget(limits, q, providers, gaveUp);
    forall i | 0 <= i < |outcomes|
      ensures IsComplete(providers[i], q.metrics, outcomes[i]) && outcomes[i].page.rows == AllRows(outcomes[i].page.trail)
    {
      assert outcomes[i].err.None? && outcomes[i] == OutcomeOf(providers[i], b, q);
      QuietOutcomeIsComplete(providers[i], b, q);
    }
    KeptEverything(outcomes);
  }

  /** An answer without failed targets, filter errors or truncation, from providers that repeat no
      token, is the meaning of the query over everything the providers hold: whatever the order of
      arrival, the rows before projection are a sorted summary of exactly the rows that pass. */
  lemma CompleteAnswersMeanTheQuery(num: Numerals, q: Query, limits: Limits, providers: seq<Provider>, gaveUp: set<nat>, arrived: seq<Outcome>,
                                    skipped: nat, answer: Answer)
    returns (kept: seq<Row>)
    requires IsAnswer(num, q, limits, providers, gaveUp, arrived, skipped, answer)
    requires answer.coverage.failed == 0 && answer.filterErrors == 0 && !answer.truncated
    requires NoRepeats(ResultsOf(limits, q, providers, gaveUp))
    ensures var outcomes := ResultsOf(limits, q, providers, gaveUp);
      && AllComplete(providers, q.metrics, outcomes)
      && multiset(kept) == multiset(KeptRows(num, q, Everything(outcomes))) && ErrorsIn(num, q, Everything(outcomes)) == 0
    ensures IsSortedSummary(num, q, kept, answer.rows)
  {
    var outcomes := ResultsOf(limits, q, providers, gaveUp);
    AnswerAccountsForTargets(num, q, limits, providers, gaveUp, arrived, skipped, answer);
    ArrivalOrderIsIrrelevant(arrived, outcomes);
    NoFailureNoToken(outcomes);
    QuietOutcomesAreComplete(limits, q, providers, gaveUp);
    KeepingIgnoresOrder(num, q, RowsOfAll(arrived), Everything(outcomes));
    kept := KeptRows(num, q, RowsOfAll(arrived));
    UncutAnswerIsSorted(num, q, limits, |providers|, skipped, VisitOutcomes(num, q, limits.maxScannedItems, NOTHING, arrived), answer);
  }

  /** An answer that is not truncated has lost nothing to the limit. */
  lemma UncutAnswerIsSorted(num: Numerals, q: Query, limits: Limits, targets: nat, skipped: nat, t: Tally, answer: Answer)
    requires IsAnswerTo(num, q, limits, targets, skipped, t, answer) && !answer.truncated
    ensures IsSortedSummary(num, q, t.rows, answer.rows)
  {
    var sorted :| IsSortedSummary(num, q, t.rows, sorted) && answer == Finish(q, limits, targets, skipped, t, sorted);
    assert sorted[..|sorted|] == sorted;
  }

  /** The answers to two tallies of rows: the same rows, or tables with the same groups and, for each
      group, the same cells. */
  ghost predicate AgreeOn(num: Numerals, q: Query, kept: seq<Row>, rows: seq<Row>, kept': seq<Row>, rows': seq<Row>) {
    if q.aggregates == [] then multiset(rows) == multiset(rows')
    else exists keys: seq<string>, keys': seq<string> ::
      && IsAggregation(num, q.aggregates, q.groupBy, kept, keys, rows) && IsAggregation(num, q.aggregates, q.groupBy, kept', keys', rows')
      && SameTable(q.aggregates, keys, rows, keys', rows')
  }

  lemma SortedSummariesAgree(num: Numerals, q: Query, kept: seq<Row>, sorted: seq<Row>, kept': seq<Row>, sorted': seq<Row>)
    requires multiset(kept) == multiset(kept') && IsSortedSummary(num, q, kept, sorted) && IsSortedSummary(num, q, kept', sorted')
    ensures AgreeOn(num, q, kept, sorted, kept', sorted')
  {
    var pre :| IsSummary(num, q, kept, pre) && IsSortOf(num, q.sort, sorted, pre);
    var pre' :| IsSummary(num, q, kept', pre') && IsSortOf(num, q.sort, sorted', pre');
    if q.aggregates != [] {
      var keys: seq<string> :| IsAggregation(num, q.aggregates, q.groupBy, kept, keys, pre);
      var keys': seq<string> :| IsAggregation(num, q.aggregates, q.groupBy, kept', keys', pre');
      keys := MovedAggregation(num, q.aggregates, q.groupBy, kept, keys, pre, sorted);
      keys' := MovedAggregation(num, q.aggregates, q.groupBy, kept', keys', pre', sorted');
      AggregationsAgree(num, q.aggregates, q.groupBy, kept, kept', keys, sorted, keys', sorted');
    }
  }

  /** The same results in two orders of arrival have answers that agree, group by group and cell by
      cell if there are aggregates, unless the limit cuts one of them. */
  lemma AnswersAgree(num: Numerals, q: Query, limits: Limits, providers: seq<Provider>, gaveUp: set<nat>, skipped: nat,
                     arrived: seq<Outcome>, answer: Answer, arrived': seq<Outcome>, answer': Answer)
    requires IsAnswer(num, q, limits, providers, gaveUp, arrived, skipped, answer) && !answer.truncated
    requires IsAnswer(num, q, limits, providers, gaveUp, arrived', skipped, answer') && !answer'.truncated
    ensures var t, t' := VisitOutcomes(num, q, limits.maxScannedItems, NOTHING, arrived), VisitOutcomes(num, q, limits.maxScannedItems, NOTHING, arrived');
      AgreeOn(num, q, t.rows, answer.rows, t'.rows, answer'.rows)
  {
    var t := VisitOutcomes(num, q, limits.maxScannedItems, NOTHING, arrived);
    var t' := VisitOutcomes(num, q, limits.maxScannedItems, NOTHING, arrived');
    AnswerAccountsForTargets(num, q, limits, providers, gaveUp, arrived, skipped, answer);
    AnswerAccountsForTargets(num, q, limits, providers, gaveUp, arrived', skipped, answer');
    ArrivalOrderIsIrrelevant(arrived, arrived');
    KeepingIgnoresOrder(num, q, RowsOfAll(arrived), RowsOfAll(arrived'));
    UncutAnswerIsSorted(num, q, limits, |providers|, skipped, t, answer);
    UncutAnswerIsSorted(num, q, limits, |providers|, skipped, t', answer');
    SortedSummariesAgree(num, q, t.rows, answer.rows, t'.rows, answer'.rows);
  }
}
