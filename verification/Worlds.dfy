/** The meaning of an answer over the worlds of rows that the providers hold, of which a query by metric
    selectors fetches only a part. */
module Worlds {
  import opened Wrappers
  import opened Values
  import opened Sequences
  import opened Fetching
  import opened FetchingLaws
  import opened Queries
  import opened QueryLaws
  import Selectors

  /** Rows that fail the filter are not kept, whatever the region. */
  lemma {:induction false} OnlyPassingRowsAreKept(num: Numerals, q: Query, rows: seq<Row>)
    requires q.filter.Some?
    ensures KeptRows(num, q, rows) == KeptRows(num, q, Selectors.Filter(num, q.filter.value, rows))
  {
    if rows != [] {
      OnlyPassingRowsAreKept(num, q, rows[1..]);
      var rest := Selectors.Filter(num, q.filter.value, rows[1..]);
      KeptRowsJoin(num, q, if Selectors.Passes(num, q.filter.value, rows[0]) then [rows[0]] else [], rest);
    }
  }

  /** If the chains deliver what a world of rows holds for the selected metrics, the kept rows are
      those that the whole world would yield. */
  lemma PushdownKeepsTheMeaning(num: Numerals, q: Query, fetched: seq<Row>, world: seq<Row>)
    requires q.filter.Some? && Selectors.MetricSelectors(q.filter.value) == Some(q.metrics)
    requires multiset(fetched) == multiset(Selectors.Fetched(num, q.metrics, world))
    ensures multiset(KeptRows(num, q, fetched)) == multiset(KeptRows(num, q, world))
  {
    var e := q.filter.value;
    var all := Selectors.Fetched(num, q.metrics, world);
    KeepingIgnoresOrder(num, q, fetched, all);
    OnlyPassingRowsAreKept(num, q, all);
    OnlyPassingRowsAreKept(num, q, world);
    Selectors.PushdownIsSound(num, e, world);
    KeepingIgnoresOrder(num, q, Selectors.Filter(num, e, all), Selectors.Filter(num, e, world));
  }

  /******* Providers that hold worlds *******/

  /** What a world holds for one request. */
  function RowsFor(num: Numerals, selector: Option<string>, world: seq<Row>): seq<Row> {
    match selector
    case None => world
    case Some(metric) => Selectors.RowsOf(num, metric, world)
  }

  /** Whoever follows the provider's tokens from the empty one to the end gets what the world holds for
      that request, in any order and in any pages. */
  ghost predicate Holds(num: Numerals, p: Provider, world: seq<Row>) {
    forall selector: Option<string>, chain: seq<Visit> :: Linked(selector, chain) && Complete(chain) && IsAnswered(p, chain) ==>
      multiset(RowsOf(chain)) == multiset(RowsFor(num, selector, world))
  }

  ghost predicate IsAnswered(p: Provider, chain: seq<Visit>) {
    forall j :: 0 <= j < |chain| ==> p.reply(chain[j].call, chain[j].request) == Reply(chain[j].page, None)
  }

  /** What the world holds for the requests of a query. */
  function HeldFor(num: Numerals, metrics: seq<string>, world: seq<Row>): seq<Row> {
    if metrics == [] then world else Selectors.Fetched(num, metrics, world)
  }

  function ChainRows(trail: seq<seq<Visit>>): seq<seq<Row>> { seq(|trail|, j requires 0 <= j < |trail| => RowsOf(trail[j])) }

  function HeldRows(num: Numerals, metrics: seq<string>, world: seq<Row>): seq<seq<Row>> {
    seq(|metrics|, j requires 0 <= j < |metrics| => Selectors.RowsOf(num, metrics[j], world))
  }

  lemma {:induction false} AllRowsFlatten(trail: seq<seq<Visit>>)
    ensures AllRows(trail) == Flatten(ChainRows(trail))
  {
    if trail != [] {
      var n := |trail| - 1;
      AllRowsFlatten(trail[..n]);
      assert ChainRows(trail) == ChainRows(trail[..n]) + [RowsOf(trail[n])];
      FlattenAppend(ChainRows(trail[..n]), [RowsOf(trail[n])]);
      FlattenOne(RowsOf(trail[n]));
    }
  }

  lemma {:induction false} FetchedFlattens(num: Numerals, metrics: seq<string>, world: seq<Row>)
    ensures Selectors.Fetched(num, metrics, world) == Flatten(HeldRows(num, metrics, world))
  {
    if metrics != [] {
      FetchedFlattens(num, metrics[1..], world);
      assert HeldRows(num, metrics, world)[1..] == HeldRows(num, metrics[1..], world);
    }
  }

  ghost predicate SamePieces(a: seq<seq<Row>>, b: seq<seq<Row>>) {
    |a| == |b| && forall j :: 0 <= j < |a| ==> multiset(a[j]) == multiset(b[j])
  }

  lemma {:induction false} FlattenIgnoresOrder(a: seq<seq<Row>>, b: seq<seq<Row>>)
    requires SamePieces(a, b)
    ensures multiset(Flatten(a)) == multiset(Flatten(b))
  {
    if a != [] {
      FlattenIgnoresOrder(a[1..], b[1..]);
    }
  }

  /** A target that was fetched in full has what its world holds for the query. */
  lemma CompleteTargetIsHeld(num: Numerals, p: Provider, world: seq<Row>, metrics: seq<string>, outcome: Outcome)
    requires Holds(num, p, world) && IsComplete(p, metrics, outcome)
    ensures multiset(AllRows(outcome.page.trail)) == multiset(HeldFor(num, metrics, world))
  {
    var trail := outcome.page.trail;
    if metrics == [] {
      CompleteChainIsHeld(num, p, world, metrics, outcome, 0);
      assert trail == [trail[0]] && trail[..0] == [];
      assert AllRows(trail) == RowsOf(trail[0]);
    } else {
      forall j | 0 <= j < |trail|
        ensures multiset(ChainRows(trail)[j]) == multiset(HeldRows(num, metrics, world)[j])
      {
        CompleteChainIsHeld(num, p, world, metrics, outcome, j);
      }
      AllRowsFlatten(trail);
      FetchedFlattens(num, metrics, world);
      FlattenIgnoresOrder(ChainRows(trail), HeldRows(num, metrics, world));
    }
  }

  lemma CompleteChainIsHeld(num: Numerals, p: Provider, world: seq<Row>, metrics: seq<string>, outcome: Outcome, j: nat)
    requires Holds(num, p, world) && IsComplete(p, metrics, outcome) && j < |outcome.page.trail|
    ensures multiset(RowsOf(outcome.page.trail[j])) == multiset(RowsFor(num, SelectorsOf(metrics)[j], world))
  {
    var chain := outcome.page.trail[j];
    assert forall l :: 0 <= l < |chain| ==> Answered(p, outcome.page, chain[l]);
    assert IsAnswered(p, chain) && Linked(SelectorsOf(metrics)[j], chain) && Complete(chain);
  }

  /******* The meaning of an answer *******/

  /** The targets' rows are kept as those of their worlds. */
  ghost predicate KeptAsWorlds(num: Numerals, q: Query, outcomes: seq<Outcome>, worlds: seq<seq<Row>>) {
    |outcomes| == |worlds| && forall i :: 0 <= i < |outcomes| ==>
      multiset(KeptRows(num, q, AllRows(outcomes[i].page.trail))) == multiset(KeptRows(num, q, worlds[i]))
  }

  lemma {:induction false} WorldsJoin(num: Numerals, q: Query, outcomes: seq<Outcome>, worlds: seq<seq<Row>>)
    requires KeptAsWorlds(num, q, outcomes, worlds)
    ensures multiset(KeptRows(num, q, Everything(outcomes))) == multiset(KeptRows(num, q, Flatten(worlds)))
  {
    if outcomes != [] {
      WorldsJoin(num, q, outcomes[1..], worlds[1..]);
      KeptRowsJoin(num, q, AllRows(outcomes[0].page.trail), Everything(outcomes[1..]));
      KeptRowsJoin(num, q, worlds[0], Flatten(worlds[1..]));
    }
  }

  /** The metrics are asked for one by one as the filter selects them, or not at all. */
  ghost predicate IsPushedDown(q: Query) {
    q.metrics == [] || (q.filter.Some? && Selectors.MetricSelectors(q.filter.value) == Some(q.metrics))
  }

  lemma HeldKeepsTheMeaning(num: Numerals, q: Query, fetched: seq<Row>, world: seq<Row>)
    requires IsPushedDown(q) && multiset(fetched) == multiset(HeldFor(num, q.metrics, world))
    ensures multiset(KeptRows(num, q, fetched)) == multiset(KeptRows(num, q, world))
  {
    if q.metrics == [] {
      KeepingIgnoresOrder(num, q, fetched, world);
    } else {
      PushdownKeepsTheMeaning(num, q, fetched, world);
    }
  }

  /** An answer without failed targets, filter errors or truncation, from providers that repeat no token
      and hold worlds of rows, is the meaning of the query over these worlds, whole as they are: a sorted
      summary of exactly the rows in them that pass, although only the selected metrics were fetched. */
  lemma CompleteAnswersMeanTheWorlds(num: Numerals, q: Query, limits: Limits, providers: seq<Provider>, worlds: seq<seq<Row>>, gaveUp: set<nat>,
                                     arrived: seq<Outcome>, skipped: nat, answer: Answer) returns (kept: seq<Row>)
    requires IsAnswer(num, q, limits, providers, gaveUp, arrived, skipped, answer) && IsPushedDown(q)
    requires answer.coverage.failed == 0 && answer.filterErrors == 0 && !answer.truncated
    requires NoRepeats(ResultsOf(limits, q, providers, gaveUp))
    requires |worlds| == |providers| && forall i :: 0 <= i < |providers| ==> Holds(num, providers[i], worlds[i])
    ensures multiset(kept) == multiset(KeptRows(num, q, Flatten(worlds))) && IsSortedSummary(num, q, kept, answer.rows)
  {
    var outcomes := ResultsOf(limits, q, providers, gaveUp);
    kept := CompleteAnswersMeanTheQuery(num, q, limits, providers, gaveUp, arrived, skipped, answer);
    forall i | 0 <= i < |outcomes|
      ensures multiset(KeptRows(num, q, AllRows(outcomes[i].page.trail))) == multiset(KeptRows(num, q, worlds[i]))
    {
      assert IsComplete(providers[i], q.metrics, outcomes[i]);
      CompleteTargetIsHeld(num, providers[i], worlds[i], q.metrics, outcomes[i]);
      HeldKeepsTheMeaning(num, q, AllRows(outcomes[i].page.trail), worlds[i]);
    }
    WorldsJoin(num, q, outcomes, worlds);
  }
}
