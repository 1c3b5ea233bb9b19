/**
 The cursor store under any number of clients: queries are answered and their tails stored
 (internal/engine/engine.go, the end of `Query`), tokens are fetched in any order, valid or
 not, and time passes.  History variables record what each query's chain has delivered.
*/
module CursorRuns {
  import opened Values
  import opened Results
  import opened Sequences
  import opened Cursors

  /** The rows of a finished query, before they are cut into pages. */
  datatype Asked = Asked(rows: seq<Row>, pageSize: nat)

  datatype Event =
    /** A query is answered; `kept` is what eviction left when its tail was stored. */
    | Ask(asked: Asked, base: QueryResult, token: Token, later: Time, kept: Table)
    | Fetch(token: Token, rest: Token, later: Time)
    | Tick(delta: nat)

  /** `owner` tells whose rows a token names, `log` the pages each query's clients received,
      `spent` the tokens that succeeded, `lost` the queries that lost a token to time or eviction. */
  datatype State = State(
    table: Table, clock: Time, ttl: Time, max: nat,
    queries: seq<Asked>, owner: map<Token, nat>, log: seq<seq<seq<Row>>>, spent: set<Token>, lost: set<nat>)

  function Start(clock: Time, ttl: Time, max: nat): State {
    State(map[], clock, ttl, max, [], map[], [], {}, {})
  }

  function Owners(owner: map<Token, nat>, tokens: set<Token>): set<nat> {
    set token | token in tokens && token in owner :: owner[token]
  }

  /** The environment: random tokens are new, the clock does not go back, and the engine never
      asks for more rows than the limit stage allows (internal/dsl/validate.go:12). */
  ghost predicate Enabled(s: State, event: Event) {
    match event
    case Tick(_) => true
    case Ask(asked, _, token, later, kept) =>
      && 0 < asked.pageSize && |asked.rows| <= MAX_ROWS && token !in s.owner && s.clock <= later
      && (asked.pageSize < |asked.rows| ==>
            Evicts(Pruned(s.table, s.clock), kept, |asked.rows[asked.pageSize..]|, s.max, MAX_ROWS))
    case Fetch(_, rest, later) => rest !in s.owner && s.clock <= later
  }

  /** The state after the tokens that expired or were evicted are gone. */
  function Dropped(s: State, table: Table, later: Time): State {
    s.(table := table, clock := later, lost := s.lost + Owners(s.owner, s.table.Keys - table.Keys))
  }

  /** The first page of a new query is delivered and the rest stored. */
  function Asking(s: State, event: Event): State
    requires event.Ask?
  {
    var asked := event.asked;
    var count := Min(asked.pageSize, |asked.rows|);
    var s := s.(queries := s.queries + [asked], log := s.log + [[asked.rows[..count]]]);
    if count < |asked.rows| then
      var entry := Entry(event.later + s.ttl, asked.rows[count..], event.base.columns, event.base, asked.pageSize);
      s.(table := s.table[event.token := entry], owner := s.owner[event.token := |s.log| - 1])
    else s
  }

  /** The next page of a token's owner is delivered. */
  function Fetching(s: State, event: Event): State
    requires event.Fetch? && event.token in s.table && event.token in s.owner && s.owner[event.token] < |s.log|
  {
    var q, e := s.owner[event.token], s.table[event.token];
    s.(table := Fetched(s.table, event.token, event.rest, event.later + s.ttl),
       owner := if PageLength(e) < |e.rows| then s.owner[event.rest := q] else s.owner,
       log := s.log[q := s.log[q] + [PageOf(e, event.rest).rows]], spent := s.spent + {event.token})
  }

  function Apply(s: State, event: Event): State {
    match event
    case Tick(delta) => s.(clock := s.clock + delta)
    case Ask(asked, _, _, later, kept) =>
      Asking(Dropped(s, if asked.pageSize < |asked.rows| then kept else s.table, later), event)
    case Fetch(token, _, later) =>
      var s := Dropped(s, Pruned(s.table, s.clock), later);
      if token in s.table && token in s.owner && s.owner[token] < |s.log| then Fetching(s, event) else s
  }

  ghost predicate IsRun(s: State, events: seq<Event>)
    decreases |events|
  {
    events == [] || (Enabled(s, events[0]) && IsRun(Apply(s, events[0]), events[1..]))
  }

  function After(s: State, events: seq<Event>): State
    decreases |events|
  {
    if events == [] then s else After(Apply(s, events[0]), events[1..])
  }

  ghost predicate Reachable(s: State) {
    exists clock, ttl, max: nat, events :: 0 < max && IsRun(Start(clock, ttl, max), events) && s == After(Start(clock, ttl, max), events)
  }

  /******* The invariant *******/

  function AllPages(asked: Asked): seq<seq<Row>> {
    if asked.pageSize == 0 then [] else Pages(asked.rows, asked.pageSize)
  }

  /** A live token names what its owner's log still lacks. */
  ghost predicate Live(s: State, token: Token) {
    && token in s.table && token in s.owner
    && var q := s.owner[token];
    && q < |s.queries| && q < |s.log|
    && 0 < s.queries[q].pageSize == s.table[token].pageSize
    && s.table[token].rows != []
    && s.log[q] + Pages(s.table[token].rows, s.queries[q].pageSize) == AllPages(s.queries[q])
  }

  /** Tokens are issued once, and no two live ones have the same owner. */
  ghost predicate Apart(s: State) {
    && |s.log| == |s.queries|
    && (forall token :: token in s.owner ==> s.owner[token] < |s.queries|)
    && (forall token :: token in s.spent ==> token in s.owner)
    && (forall token :: token in s.table ==> token in s.owner && token !in s.spent)
    && (forall a, b :: a in s.table && b in s.table && s.owner[a] == s.owner[b] ==> a == b)
  }

  ghost predicate Chains(s: State) {
    Apart(s) && forall token :: token in s.table ==> Live(s, token)
  }

  /** Every query is on its way, delivered in full, or lost its token. */
  ghost predicate Settled(s: State, q: nat)
    requires |s.log| == |s.queries| && q < |s.queries|
  {
    && 0 < s.queries[q].pageSize && s.log[q] != []
    && s.log[q] <= AllPages(s.queries[q])
    && (s.log[q] == AllPages(s.queries[q]) || q in s.lost || exists token :: token in s.table && token in s.owner && s.owner[token] == q)
  }

  ghost predicate Bounded(table: Table, max: nat) {
    |table| <= max && StoredRows(table) <= MAX_ROWS
  }

  ghost predicate Inv(s: State) {
    Chains(s) && (forall q: nat :: q < |s.queries| ==> Settled(s, q)) && Bounded(s.table, s.max) && 0 < s.max
  }

  /******* Capacity *******/

  lemma {:induction false} PartStoresLess(part: Table, whole: Table)
    requires part.Keys <= whole.Keys && forall token :: token in part ==> part[token] == whole[token]
    ensures |part| <= |whole| && StoredRows(part) <= StoredRows(whole)
    decreases |whole|
  {
    if whole == map[] {
      assert part == map[];
    } else {
      var token :| token in whole;
      StoredRowsWithout(whole, token);
      if token in part {
        StoredRowsWithout(part, token);
      } else {
        assert part - {token} == part;
      }
      PartStoresLess(part - {token}, whole - {token});
    }
  }

  lemma StoreOne(table: Table, token: Token, e: Entry)
    requires token !in table
    ensures |table[token := e]| == |table| + 1
    ensures StoredRows(table[token := e]) == StoredRows(table) + |e.rows|
  {
    StoredRowsWithout(table[token := e], token);
    assert table[token := e] - {token} == table;
    assert table[token := e].Keys == table.Keys + {token};
  }

  lemma PutStaysBounded(before: Table, kept: Table, token: Token, e: Entry, max: nat)
    requires Evicts(before, kept, |e.rows|, max, MAX_ROWS)
    requires 0 < max && |e.rows| <= MAX_ROWS && token !in kept
    ensures Bounded(kept[token := e], max)
  {
    StoreOne(kept, token, e);
  }

  lemma FetchShrinks(table: Table, token: Token, rest: Token, expires: Time)
    requires token in table && rest !in table
    ensures |Fetched(table, token, rest, expires)| <= |table|
    ensures StoredRows(Fetched(table, token, rest, expires)) <= StoredRows(table)
  {
    StoredRowsWithout(table, token);
    var after := Fetched(table, token, rest, expires);
    if rest in after {
      StoreOne(table - {token}, rest, after[rest]);
    }
  }

  lemma PruneStaysBounded(table: Table, now: Time, max: nat)
    requires Bounded(table, max)
    ensures Bounded(Pruned(table, now), max)
  {
    PartStoresLess(Pruned(table, now), table);
  }

  lemma FetchStaysBounded(s: State, event: Event)
    requires event.Fetch? && event.token in s.table && event.token in s.owner && s.owner[event.token] < |s.log|
    requires Bounded(s.table, s.max) && event.rest !in s.table
    ensures Bounded(Fetching(s, event).table, s.max)
  {
    FetchShrinks(s.table, event.token, event.rest, event.later + s.ttl);
  }

  /******* Chains *******/

  /** A fetched page is the next page of the chain, and the remaining rows are the other pages. */
  lemma FetchTakesThePage(e: Entry, rest: Token)
    requires 0 < e.pageSize && e.rows != []
    ensures var count := PageLength(e);
      Pages(e.rows, e.pageSize) == [PageOf(e, rest).rows] + if count < |e.rows| then Pages(e.rows[count..], e.pageSize) else []
  {
    if |e.rows| <= e.pageSize {
      assert e.rows[..|e.rows|] == e.rows;
    }
  }

  /** Some tokens are dropped; nothing else happens to those that stay. */
  ghost predicate Drops(s: State, s': State) {
    && s'.table.Keys <= s.table.Keys && (forall token :: token in s'.table ==> s'.table[token] == s.table[token])
    && s'.queries == s.queries && s'.owner == s.owner && s'.log == s.log && s'.spent == s.spent
    && s'.lost == s.lost + Owners(s.owner, s.table.Keys - s'.table.Keys)
    && s'.max == s.max && s'.ttl == s.ttl
  }

  ghost predicate ChainInv(s: State) {
    Chains(s) && forall q: nat :: q < |s.queries| ==> Settled(s, q)
  }

  lemma DropKeepsChains(s: State, s': State)
    requires ChainInv(s) && Drops(s, s')
    ensures ChainInv(s')
  {
    forall token | token in s'.table
      ensures Live(s', token)
    {
      assert Live(s, token);
    }
    forall q: nat | q < |s'.queries|
      ensures Settled(s', q)
    {
      assert Settled(s, q);
      if token :| token in s.table && token in s.owner && s.owner[token] == q {
        if token !in s'.table {
          assert token in s.table.Keys - s'.table.Keys;
        }
      }
    }
  }

  ghost predicate CanAsk(s: State, event: Event) {
    event.Ask? && 0 < event.asked.pageSize && event.token !in s.owner
  }

  lemma AskingStartsLive(s: State, event: Event)
    requires Apart(s) && CanAsk(s, event) && event.asked.pageSize < |event.asked.rows|
    ensures Live(Asking(s, event), event.token)
  {
    assert Asking(s, event).queries[|s.queries|] == event.asked;
  }

  lemma AskingKeepsLive(s: State, event: Event, token: Token)
    requires Apart(s) && CanAsk(s, event) && token in s.table && Live(s, token)
    ensures token != event.token && Live(Asking(s, event), token)
  {
  }

  lemma AskingSettles(s: State, event: Event, q: nat)
    requires Apart(s) && CanAsk(s, event) && q <= |s.queries|
    requires q < |s.queries| ==> Settled(s, q)
    ensures Settled(Asking(s, event), q)
  {
    var s' := Asking(s, event);
    if q < |s.queries| {
      if token :| token in s.table && token in s.owner && s.owner[token] == q {
        assert token in s'.table && token in s'.owner && s'.owner[token] == q;
      }
    } else if |event.asked.rows| <= event.asked.pageSize {
      assert event.asked.rows[..|event.asked.rows|] == event.asked.rows;
    } else {
      assert event.token in s'.table && s'.owner[event.token] == q;
    }
  }

  lemma AskingKeepsTokensApart(s: State, event: Event)
    requires Apart(s) && CanAsk(s, event)
    ensures Apart(Asking(s, event))
  {
    assert event.token !in s.table;
  }

  lemma AskingKeepsChains(s: State, event: Event)
    requires ChainInv(s) && CanAsk(s, event)
    ensures ChainInv(Asking(s, event))
  {
    AskingKeepsTokensApart(s, event);
    forall token | token in Asking(s, event).table
      ensures Live(Asking(s, event), token)
    {
      if token == event.token { AskingStartsLive(s, event); } else { AskingKeepsLive(s, event, token); }
    }
    forall q: nat | q <= |s.queries|
      ensures Settled(Asking(s, event), q)
    {
      assert q < |s.queries| ==> Settled(s, q);
      AskingSettles(s, event, q);
    }
  }

  ghost predicate CanFetch(s: State, event: Event) {
    event.Fetch? && event.token in s.table && event.rest !in s.owner && Live(s, event.token)
  }

  lemma FetchingStoresTheRest(s: State, event: Event)
    requires Apart(s) && CanFetch(s, event) && event.rest in Fetching(s, event).table
    ensures Live(Fetching(s, event), event.rest)
  {
    var s' := Fetching(s, event);
    var e, q := s.table[event.token], s.owner[event.token];
    FetchTakesThePage(e, event.rest);
    var left := s'.table[event.rest].rows;
    assert s.log[q] + ([PageOf(e, event.rest).rows] + Pages(left, e.pageSize)) == s'.log[q] + Pages(left, e.pageSize);
  }

  lemma FetchingKeepsLive(s: State, event: Event, token: Token)
    requires Apart(s) && CanFetch(s, event) && token in s.table && token != event.token && Live(s, token)
    ensures token != event.rest && Live(Fetching(s, event), token)
  {
    assert s.owner[token] != s.owner[event.token];
  }

  lemma FetchingSettlesOwner(s: State, event: Event)
    requires Apart(s) && CanFetch(s, event) && Settled(s, s.owner[event.token])
    ensures Settled(Fetching(s, event), s.owner[event.token])
  {
    var s' := Fetching(s, event);
    var e, q := s.table[event.token], s.owner[event.token];
    FetchTakesThePage(e, event.rest);
    if event.rest in s'.table {
      FetchingStoresTheRest(s, event);
      assert s'.log[q] <= AllPages(s.queries[q]);
    } else {
      assert s'.log[q] == AllPages(s.queries[q]);
    }
  }

  lemma FetchingSettlesOthers(s: State, event: Event, p: nat)
    requires Apart(s) && CanFetch(s, event) && p < |s.queries| && Settled(s, p)
    requires p != s.owner[event.token]
    ensures Settled(Fetching(s, event), p)
  {
    var s' := Fetching(s, event);
    if token :| token in s.table && token in s.owner && s.owner[token] == p {
      assert token in s'.table && s'.owner[token] == p;
    }
  }

  lemma FetchingKeepsTokensApart(s: State, event: Event)
    requires Apart(s) && CanFetch(s, event)
    ensures Apart(Fetching(s, event))
  {
    assert event.rest !in s.table;
  }

  lemma FetchingKeepsChains(s: State, event: Event)
    requires ChainInv(s) && CanFetch(s, event)
    ensures ChainInv(Fetching(s, event))
  {
    FetchingKeepsTokensApart(s, event);
    forall token | token in Fetching(s, event).table
      ensures Live(Fetching(s, event), token)
    {
      if token == event.rest { FetchingStoresTheRest(s, event); } else { FetchingKeepsLive(s, event, token); }
    }
    forall q: nat | q < |s.queries|
      ensures Settled(Fetching(s, event), q)
    {
      assert Settled(s, q);
      if q == s.owner[event.token] { FetchingSettlesOwner(s, event); } else { FetchingSettlesOthers(s, event, q); }
    }
  }

  lemma AskKeepsInv(s: State, event: Event)
    requires Inv(s) && event.Ask? && Enabled(s, event)
    ensures Inv(Apply(s, event))
  {
    var asked, kept := event.asked, event.kept;
    var dropped := Dropped(s, if asked.pageSize < |asked.rows| then kept else s.table, event.later);
    DropKeepsChains(s, dropped);
    AskingKeepsChains(dropped, event);
    if asked.pageSize < |asked.rows| {
      PutStaysBounded(Pruned(s.table, s.clock), kept, event.token, Apply(s, event).table[event.token], s.max);
    }
  }

  lemma FetchKeepsInv(s: State, event: Event)
    requires Inv(s) && event.Fetch? && Enabled(s, event)
    ensures Inv(Apply(s, event))
  {
    var dropped := Dropped(s, Pruned(s.table, s.clock), event.later);
    DropKeepsChains(s, dropped);
    PruneStaysBounded(s.table, s.clock, s.max);
    if event.token in dropped.table {
      assert Live(dropped, event.token);
      FetchingKeepsChains(dropped, event);
      FetchStaysBounded(dropped, event);
    }
  }

  lemma StepKeepsInv(s: State, event: Event)
    requires Inv(s) && Enabled(s, event)
    ensures Inv(Apply(s, event))
  {
    match event
    case Tick(_) => DropKeepsChains(s, Apply(s, event));
    case Ask(_, _, _, _, _) => AskKeepsInv(s, event);
    case Fetch(_, _, _) => FetchKeepsInv(s, event);
  }

  lemma {:induction false} RunKeepsInv(s: State, events: seq<Event>)
    requires Inv(s) && IsRun(s, events)
    ensures Inv(After(s, events))
    decreases |events|
  {
    if events != [] {
      StepKeepsInv(s, events[0]);
      RunKeepsInv(Apply(s, events[0]), events[1..]);
    }
  }

  lemma ReachableInv(s: State)
    requires Reachable(s)
    ensures Inv(s)
  {
    var clock, ttl, max: nat, events :| 0 < max && IsRun(Start(clock, ttl, max), events) && s == After(Start(clock, ttl, max), events);
    RunKeepsInv(Start(clock, ttl, max), events);
  }

  /******* What clients can rely on *******/

  /** At most `max` entries and 50,000 rows are ever stored, although `Next` reinserts unchecked. */
  lemma StoreStaysBounded(s: State)
    requires Reachable(s)
    ensures |s.table| <= s.max && StoredRows(s.table) <= 50_000
  {
    ReachableInv(s);
  }

  /** What a chain has delivered is a prefix of its query's rows, in order, cut at page size. */
  lemma ChainsDeliverPrefixes(s: State, q: nat)
    requires Reachable(s) && q < |s.queries|
    ensures q < |s.log| && Flatten(s.log[q]) <= s.queries[q].rows
    ensures forall i :: 0 <= i < |s.log[q]| ==> |s.log[q][i]| <= s.queries[q].pageSize
  {
    assert |s.log| == |s.queries| && Settled(s, q) by { ReachableInv(s); }
    FirstPages(s.queries[q].rows, s.queries[q].pageSize, s.log[q]);
  }

  ghost predicate HasNoToken(s: State, q: nat) {
    forall token :: token in s.table && token in s.owner ==> s.owner[token] != q
  }

  /** A chain that neither expired nor was evicted, and has no token left, delivered every row,
      in as many pages as the page size asks for, counting the first. */
  lemma FinishedChainsDeliverAll(s: State, q: nat)
    requires Reachable(s) && q < |s.queries| && q !in s.lost && HasNoToken(s, q)
    ensures q < |s.log| && Flatten(s.log[q]) == s.queries[q].rows
    ensures s.queries[q].rows == [] ==> |s.log[q]| == 1
    ensures var rows, size := s.queries[q].rows, s.queries[q].pageSize;
      rows != [] ==> (|s.log[q]| - 1) * size < |rows| <= |s.log[q]| * size
  {
    assert 0 < s.queries[q].pageSize && q < |s.log| && s.log[q] == AllPages(s.queries[q]) by {
      ReachableInv(s);
      assert Settled(s, q);
    }
    PagesPartition(s.queries[q].rows, s.queries[q].pageSize);
    PagesCount(s.queries[q].rows, s.queries[q].pageSize);
  }

  /** A token succeeds at most once: after it did, no later fetch of it changes any log. */
  lemma {:induction false} SpentTokensStaySpent(s: State, events: seq<Event>, token: Token, fetch: Event)
    requires Reachable(s) && IsRun(s, events) && token in s.spent
    requires fetch.Fetch? && fetch.token == token && Enabled(After(s, events), fetch)
    ensures token !in After(s, events).table
    ensures Apply(After(s, events), fetch).log == After(s, events).log
  {
    ReachableInv(s);
    RunKeepsInv(s, events);
    SpentGrows(s, events);
  }

  lemma {:induction false} SpentGrows(s: State, events: seq<Event>)
    ensures s.spent <= After(s, events).spent
    decreases |events|
  {
    if events != [] {
      SpentGrows(Apply(s, events[0]), events[1..]);
    }
  }

  /** A fetch succeeds exactly for a token that is stored and has not expired; it then delivers
      the next page of its owner's chain and nothing to anyone else. */
  lemma FetchDeliversNextPage(s: State, fetch: Event)
    requires Reachable(s) && fetch.Fetch? && Enabled(s, fetch)
    ensures var s' := Apply(s, fetch);
      if fetch.token in s.table && s.clock < s.table[fetch.token].expires then
        && fetch.token in s.owner && s.owner[fetch.token] < |s.log| && fetch.token in s'.spent
        && var q := s.owner[fetch.token];
        && q < |s.queries| && |s.log[q]| < |AllPages(s.queries[q])|
        && s'.log == s.log[q := s.log[q] + [AllPages(s.queries[q])[|s.log[q]|]]]
      else s'.log == s.log && s'.spent == s.spent
  {
    ReachableInv(s);
    var s' := Apply(s, fetch);
    if fetch.token in s.table && s.clock < s.table[fetch.token].expires {
      assert Live(s, fetch.token);
      var page := NextPage(s, fetch);
      assert s'.log == s.log[s.owner[fetch.token] := s.log[s.owner[fetch.token]] + [page]];
    }
  }

  lemma NextPage(s: State, fetch: Event) returns (page: seq<Row>)
    requires fetch.Fetch? && Live(s, fetch.token)
    ensures var q := s.owner[fetch.token];
      |s.log[q]| < |AllPages(s.queries[q])| && page == AllPages(s.queries[q])[|s.log[q]|]
    ensures page == PageOf(s.table[fetch.token], fetch.rest).rows
  {
    FetchTakesThePage(s.table[fetch.token], fetch.rest);
    var q := s.owner[fetch.token];
    var more := Pages(s.table[fetch.token].rows, s.queries[q].pageSize);
    page := more[0];
    assert (s.log[q] + more)[|s.log[q]|] == page;
  }
}
