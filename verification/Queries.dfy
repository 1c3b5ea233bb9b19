/**
 A whole query: `Engine.Query` of internal/engine/engine.go, from the targets to the rows that are
 paged.  The targets' results arrive in any order; rows are filtered, aggregated, sorted, limited.
*/
module Queries {
  import opened Wrappers
  import opened Values
  import opened Sequences
  import opened Results
  import opened Expressions
  import opened Aggregation
  import opened Sorting
  import opened Fetching

  datatype Query = Query(metrics: seq<string>, filter: Option<Expr>, regions: seq<string>, includeNative: bool,
                         aggregates: seq<Aggregate>, groupBy: seq<string>, sort: seq<SortField>, limit: nat)

  datatype Limits = Limits(maxProviderRequests: nat, maxScannedItems: nat, maxPageSize: nat)

  /** One target's result: what was combined, and an error if the target failed. */
  datatype Outcome = Outcome(page: Progress, err: Option<Error>)

  const MAX_FILTER_ERRORS := 100

  /******* Budgets *******/

  /** `validateTargetBudgets`, and what configuration and the limit stage guarantee. */
  predicate Affordable(limits: Limits, q: Query, targets: nat) {
    && 0 < targets <= limits.maxProviderRequests && targets <= limits.maxScannedItems
    && 0 < limits.maxPageSize && 0 < q.limit
  }

  /** The share of one target. */
  function ShareOf(limits: Limits, q: Query, targets: nat): Budget
    requires 0 < targets
  {
    var scan := Max(1, limits.maxScannedItems / targets);
    var goal := if q.filter.Some? || q.aggregates != [] || q.sort != [] then scan else q.limit;
    Budget(Max(1, limits.maxProviderRequests / targets), scan, Min(goal, scan), limits.maxPageSize)
  }

  /** The result of a target whose context was done before it held a slot. */
  const GAVE_UP := Outcome(START, Some(ContextError))

  function OutcomeOf(p: Provider, b: Budget, q: Query): Outcome {
    var (s, err) := FetchTarget(p, b, q.metrics); Outcome(s, err)
  }

  /** The results of the targets, those in `gaveUp` without a slot. */
  function Outcomes(providers: seq<Provider>, gaveUp: set<nat>, b: Budget, q: Query): seq<Outcome> {
    seq(|providers|, i requires 0 <= i < |providers| => if i in gaveUp then GAVE_UP else OutcomeOf(providers[i], b, q))
  }

  /******* Accumulation *******/

  predicate RegionMatches(row: Row, regions: seq<string>) {
    regions == [] || "*" in regions ||
    (if "region" in row && row["region"].Text? then row["region"].s in regions else "" in regions)
  }

  datatype Verdict = Keep(row: Row) | Drop | FilterError

  /** What becomes of one row. */
  function Judge(num: Numerals, q: Query, row: Row): Verdict {
    if !RegionMatches(row, q.regions) then Drop else
    var kept := if q.includeNative then row else row - {"native"};
    match q.filter
    case None => Keep(kept)
    case Some(e) =>
      match Eval(num, e, row)
      case Err(_) => FilterError
      case Ok(passes) => if passes then Keep(kept) else Drop
  }

  /** The counters of the accumulation. */
  datatype Tally = Tally(rows: seq<Row>, requests: int, scanned: int, visited: nat, succeeded: nat, failed: nat,
                         filterErrors: nat, omitted: nat, truncated: bool)

  const NOTHING := Tally([], 0, 0, 0, 0, 0, 0, 0, false)

  function VisitRow(num: Numerals, q: Query, t: Tally, row: Row): Tally {
    var t := t.(visited := t.visited + 1);
    match Judge(num, q, row)
    case Drop => t
    case Keep(row) => t.(rows := t.rows + [row])
    case FilterError =>
      if t.filterErrors < MAX_FILTER_ERRORS then t.(filterErrors := t.filterErrors + 1) else t.(omitted := t.omitted + 1)
  }

  function VisitRows(num: Numerals, q: Query, max: nat, t: Tally, rows: seq<Row>): Tally
    decreases |rows|
  {
    if rows == [] then t
    else if t.visited >= max then t.(truncated := true)
    else VisitRows(num, q, max, VisitRow(num, q, t, rows[0]), rows[1..])
  }

  function VisitOutcome(num: Numerals, q: Query, max: nat, t: Tally, outcome: Outcome): Tally {
    var t := t.(requests := t.requests + outcome.page.requests, scanned := t.scanned + outcome.page.scanned,
                failed := if outcome.err.Some? then t.failed + 1 else t.failed,
                succeeded := if outcome.err.Some? then t.succeeded else t.succeeded + 1,
                truncated := t.truncated || outcome.page.nextToken != "");
    VisitRows(num, q, max, t, outcome.page.rows)
  }

  function VisitOutcomes(num: Numerals, q: Query, max: nat, t: Tally, arrived: seq<Outcome>): Tally
    decreases |arrived|
  {
    if arrived == [] then t else VisitOutcomes(num, q, max, VisitOutcome(num, q, max, t, arrived[0]), arrived[1..])
  }

  method VisitRowsOf(num: Numerals, q: Query, max: nat, start: Tally, rows: seq<Row>) returns (t: Tally)
    ensures t == VisitRows(num, q, max, start, rows)
  {
    t := start;
    for i := 0 to |rows|
      invariant VisitRows(num, q, max, start, rows) == VisitRows(num, q, max, t, rows[i..])
    {
      if t.visited >= max {
        return t.(truncated := true);
      }
      assert rows[i..][1..] == rows[i + 1..];
      var verdict := Judge(num, q, rows[i]);
      t := t.(visited := t.visited + 1);
      match verdict
      case Drop =>
      case Keep(row) => t := t.(rows := t.rows + [row]);
      case FilterError =>
        if t.filterErrors < MAX_FILTER_ERRORS {
          t := t.(filterErrors := t.filterErrors + 1);
        } else {
          t := t.(omitted := t.omitted + 1);
        }
    }
  }

  method AccumulateOne(num: Numerals, q: Query, max: nat, start: Tally, result: Outcome) returns (t: Tally)
    ensures t == VisitOutcome(num, q, max, start, result)
  {
    t := start;
    t := t.(requests := t.requests + result.page.requests, scanned := t.scanned + result.page.scanned);
    if result.err.Some? {
      t := t.(failed := t.failed + 1);
    } else {
      t := t.(succeeded := t.succeeded + 1);
    }
    if result.page.nextToken != "" {
      t := t.(truncated := true);
    }
    t := VisitRowsOf(num, q, max, t, result.page.rows);
  }

  method Accumulate(num: Numerals, q: Query, max: nat, arrived: seq<Outcome>) returns (t: Tally)
    ensures t == VisitOutcomes(num, q, max, NOTHING, arrived)
  {
    t := NOTHING;
    for i := 0 to |arrived|
      invariant VisitOutcomes(num, q, max, NOTHING, arrived) == VisitOutcomes(num, q, max, t, arrived[i..])
    {
      assert arrived[i..][1..] == arrived[i + 1..];
      t := AccumulateOne(num, q, max, t, arrived[i]);
    }
  }

  /******* The answer *******/

  /** The result before projection and paging. */
  datatype Answer = Answer(rows: seq<Row>, coverage: Coverage, requests: int, scanned: int, filterErrors: nat, truncated: bool)

  /** `pre` are the rows to sort: the kept rows, or their aggregation. */
  ghost predicate IsSummary(num: Numerals, q: Query, kept: seq<Row>, pre: seq<Row>) {
    if q.aggregates == [] then pre == kept
    else exists keys: seq<string> :: IsAggregation(num, q.aggregates, q.groupBy, kept, keys, pre)
  }

  function Limited(q: Query, rows: seq<Row>): seq<Row> { rows[..Min(q.limit, |rows|)] }

  function Finish(q: Query, limits: Limits, targets: nat, skipped: nat, t: Tally, sorted: seq<Row>): Answer {
    Answer(Limited(q, sorted),
           Coverage(targets + skipped, t.succeeded, t.failed + skipped),
           t.requests, t.scanned, t.filterErrors + t.omitted,
           t.truncated || |sorted| > q.limit
           || t.scanned >= limits.maxScannedItems || t.requests >= limits.maxProviderRequests)
  }

  method Summarize(num: Numerals, q: Query, rows: seq<Row>) returns (pre: seq<Row>)
    requires NamesApart(q.aggregates, q.groupBy)
    ensures IsSummary(num, q, rows, pre)
  {
    pre := rows;
    if |q.aggregates| > 0 {
      pre := AggregateRows(num, rows, q.aggregates, q.groupBy);
    }
  }

  method Conclude(q: Query, limits: Limits, targets: nat, skipped: nat, t: Tally, sorted: seq<Row>) returns (answer: Answer)
    ensures answer == Finish(q, limits, targets, skipped, t, sorted)
  {
    var rows := sorted;
    var truncated := t.truncated;
    if |rows| > q.limit {
      rows := rows[..q.limit];
      truncated := true;
    }
    if t.scanned >= limits.maxScannedItems || t.requests >= limits.maxProviderRequests {
      truncated := true;
    }
    var coverage := Coverage(targets + skipped, t.succeeded, t.failed + skipped);
    answer := Answer(rows, coverage, t.requests, t.scanned, t.filterErrors + t.omitted, truncated);
  }

  /** A summary of the kept rows, sorted. */
  ghost predicate IsSortedSummary(num: Numerals, q: Query, kept: seq<Row>, sorted: seq<Row>) {
    exists pre: seq<Row> :: IsSummary(num, q, kept, pre) && IsSortOf(num, q.sort, sorted, pre)
  }

  /** The answer to a tally: its kept rows, summarized, are what is sorted and limited. */
  ghost predicate IsAnswerTo(num: Numerals, q: Query, limits: Limits, targets: nat, skipped: nat, t: Tally, answer: Answer) {
    exists sorted: seq<Row> :: IsSortedSummary(num, q, t.rows, sorted) && answer == Finish(q, limits, targets, skipped, t, sorted)
  }

  /** The query, given the order in which the results arrive; `targets` were planned, and `skipped`
      more could not be. */
  method RunQuery(num: Numerals, q: Query, limits: Limits, targets: nat, skipped: nat, arrived: seq<Outcome>)
    returns (answer: Answer)
    requires NamesApart(q.aggregates, q.groupBy)
    ensures IsAnswerTo(num, q, limits, targets, skipped, VisitOutcomes(num, q, limits.maxScannedItems, NOTHING, arrived), answer)
  {
    var t := Accumulate(num, q, limits.maxScannedItems, arrived);
    answer := AnswerTally(num, q, limits, targets, skipped, t);
  }

  method AnswerTally(num: Numerals, q: Query, limits: Limits, targets: nat, skipped: nat, t: Tally) returns (answer: Answer)
    requires NamesApart(q.aggregates, q.groupBy)
    ensures IsAnswerTo(num, q, limits, targets, skipped, t, answer)
  {
    var pre := Summarize(num, q, t.rows);
    var sorted := SortStable(num, q.sort, pre);
    assert IsSortedSummary(num, q, t.rows, sorted);
    answer := Conclude(q, limits, targets, skipped, t, sorted);
  }

  /** The goroutines of all targets; those in `gaveUp` find the context done before they hold a slot.
      Which finishes when is left to `RunQuery`. */
  method FetchAll(providers: seq<Provider>, gaveUp: set<nat>, limits: Limits, q: Query) returns (outcomes: seq<Outcome>)
    requires Affordable(limits, q, |providers|)
    ensures outcomes == Outcomes(providers, gaveUp, ShareOf(limits, q, |providers|), q)
  {
    var b := ShareOf(limits, q, |providers|);
    outcomes := [];
    for i := 0 to |providers|
      invariant outcomes == Outcomes(providers, gaveUp, b, q)[..i]
    {
      if i in gaveUp {
        outcomes := outcomes + [GAVE_UP];
        continue;
      }
      var combined, err := QueryTarget(providers[i], b, q.metrics);
      outcomes := outcomes + [Outcome(combined, err)];
    }
  }
}
