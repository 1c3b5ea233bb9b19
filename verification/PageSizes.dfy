/**
 How many rows a target asks for in each call, and how many of those it receives it keeps: as many as
 the page size and its shares still allow, counted over all pages received before.
*/
module PageSizes {
  import opened Wrappers
  import opened Values
  import opened Sequences
  import opened Fetching
  import opened FetchingLaws

  predicate IsLeast(n: int, a: int, b: int, c: int) { n <= a && n <= b && n <= c && (n == a || n == b || n == c) }

  /** All pages received, over all selectors, in the order of the calls. */
  function Visits(s: Progress): seq<Visit> { Flatten(s.trail) }

  /** The call asked for the least of a full page, the items left to be scanned, and the rows left to be
      kept when it was made. */
  ghost predicate AsksForAllowed(b: Budget, visits: seq<Visit>, m: nat)
    requires m < |visits|
  {
    IsLeast(visits[m].request.limit, b.pageSize, b.scan - ScannedOf(visits[..m]), b.rows - |RowsOf(visits[..m])|)
  }

  ghost predicate AllAskForAllowed(b: Budget, visits: seq<Visit>) {
    forall m :: 0 <= m < |visits| ==> AsksForAllowed(b, visits, m)
  }

  /** Of the last page the first rows are kept, as many as the items left to be scanned and the rows left
      to be kept allow; of the pages before it all rows. */
  ghost predicate KeepsAllowed(b: Budget, visits: seq<Visit>, rows: seq<Row>) {
    if visits == [] then rows == []
    else
      var before := visits[..|visits| - 1];
      KeepsFirst(b, before, visits[|visits| - 1].page, rows, |rows| - |RowsOf(before)|)
  }

  ghost predicate KeepsFirst(b: Budget, before: seq<Visit>, page: Page, rows: seq<Row>, n: int) {
    && 0 <= n <= |page.rows| && rows == RowsOf(before) + page.rows[..n]
    && IsLeast(n, |page.rows|, b.scan - ScannedOf(before), b.rows - |RowsOf(before)|)
  }

  ghost predicate Measured(b: Budget, s: Progress) {
    AllAskForAllowed(b, Visits(s)) && KeepsAllowed(b, Visits(s), s.rows)
  }

  /******* Pages in one list *******/

  lemma RowsOfLast(some: seq<Visit>, last: Visit)
    ensures RowsOf(some + [last]) == RowsOf(some) + last.page.rows && ScannedOf(some + [last]) == ScannedOf(some) + ScannedBy(last.page)
  {
    assert (some + [last])[..|some|] == some;
  }

  lemma {:induction false} RowsOfJoin(a: seq<Visit>, b: seq<Visit>)
    ensures RowsOf(a + b) == RowsOf(a) + RowsOf(b) && ScannedOf(a + b) == ScannedOf(a) + ScannedOf(b)
  {
    if b == [] {
      assert a + b == a && RowsOf(a) + [] == RowsOf(a);
    } else {
      var n := |b| - 1;
      var some, last := b[..n], b[n];
      RowsOfJoin(a, some);
      assert a + b == (a + some) + [last] && b == some + [last];
      RowsOfLast(a + some, last);
      RowsOfLast(some, last);
      assert RowsOf(a) + (RowsOf(some) + last.page.rows) == RowsOf(a) + RowsOf(some) + last.page.rows;
    }
  }

  lemma {:induction false} TrailInOneList(trail: seq<seq<Visit>>)
    ensures AllRows(trail) == RowsOf(Flatten(trail)) && AllScanned(trail) == ScannedOf(Flatten(trail))
  {
    if trail != [] {
      var n := |trail| - 1;
      TrailInOneList(trail[..n]);
      assert trail == trail[..n] + [trail[n]];
      FlattenAppend(trail[..n], [trail[n]]);
      FlattenOne(trail[n]);
      RowsOfJoin(Flatten(trail[..n]), trail[n]);
    }
  }

  lemma NewChainAddsNothing(s: Progress)
    ensures Visits(s.(trail := s.trail + [[]])) == Visits(s)
  {
    FlattenAppend(s.trail, [[]]);
    FlattenOne<Visit>([]);
    assert Visits(s) + [] == Visits(s);
  }

  lemma VisitIsAdded(s: Progress, s': Progress, visit: Visit)
    requires s.trail != [] && |s'.trail| == |s.trail| && s'.trail[..|s.trail| - 1] == s.trail[..|s.trail| - 1]
    requires LastChain(s') == LastChain(s) + [visit]
    ensures Visits(s') == Visits(s) + [visit]
  {
    var n := |s.trail| - 1;
    var before := s.trail[..n];
    assert s.trail == before + [LastChain(s)] && s'.trail == before + [LastChain(s')];
    FlattenAppend(before, [LastChain(s)]);
    FlattenAppend(before, [LastChain(s')]);
    FlattenOne(LastChain(s));
    FlattenOne(LastChain(s'));
    assert Flatten(before) + (LastChain(s) + [visit]) == Flatten(before) + LastChain(s) + [visit];
  }

  /******* One page more *******/

  lemma OneMoreIsMeasured(b: Budget, visits: seq<Visit>, rows: seq<Row>, visit: Visit, rows': seq<Row>, n: nat)
    requires AllAskForAllowed(b, visits) && rows == RowsOf(visits)
    requires IsLeast(visit.request.limit, b.pageSize, b.scan - ScannedOf(visits), b.rows - |rows|)
    requires n <= |visit.page.rows| && IsLeast(n, |visit.page.rows|, b.scan - ScannedOf(visits), b.rows - |rows|)
    requires rows' == rows + visit.page.rows[..n]
    ensures AllAskForAllowed(b, visits + [visit]) && KeepsAllowed(b, visits + [visit], rows')
  {
    var more := visits + [visit];
    assert more[..|visits|] == visits;
    forall m | 0 <= m < |more|
      ensures AsksForAllowed(b, more, m)
    {
      if m < |visits| {
        assert more[..m] == visits[..m] && AsksForAllowed(b, visits, m);
      }
    }
    assert KeepsFirst(b, visits, visit.page, rows', n);
  }

  lemma ReceivedRows(b: Budget, s: Progress, a: Attempt, request: Request) returns (n: nat)
    requires !Exhausted(b, s) && 0 < a.calls
    ensures n <= |a.page.rows| && IsLeast(n, |a.page.rows|, b.scan - s.scanned, b.rows - |s.rows|)
    ensures Received(b, s, a, request).rows == s.rows + a.page.rows[..n]
  {
    n := Min(|a.page.rows|, Min(b.scan - s.scanned, b.rows - |s.rows|));
  }

  lemma ReceivedVisits(b: Budget, s: Progress, a: Attempt, request: Request)
    requires !Exhausted(b, s) && 0 < a.calls && s.trail != []
    ensures Visits(Received(b, s, a, request)) == Visits(s) + [Visit(|s.calls| + a.calls - 1, request, a.page)]
  {
    ReceivedTrail(b, s, a, request);
    VisitIsAdded(s, Received(b, s, a, request), Visit(|s.calls| + a.calls - 1, request, a.page));
  }

  lemma NextRequestIsLeast(b: Budget, s: Progress, selector: Option<string>, token: string)
    ensures IsLeast(NextRequest(b, s, selector, token).limit, b.pageSize, b.scan - s.scanned, b.rows - |s.rows|)
  {
  }

  lemma ReceivedIsMeasured(b: Budget, s: Progress, a: Attempt, request: Request)
    requires Accounts(b, s) && Measured(b, s) && !Exhausted(b, s) && s.trail != [] && 0 < a.calls
    requires request == NextRequest(b, s, request.selector, request.pageToken)
    ensures Measured(b, Received(b, s, a, request))
  {
    NothingCutYet(b, s);
    TrailInOneList(s.trail);
    NextRequestIsLeast(b, s, request.selector, request.pageToken);
    var visit := Visit(|s.calls| + a.calls - 1, request, a.page);
    var s' := Received(b, s, a, request);
    ReceivedVisits(b, s, a, request);
    var n := ReceivedRows(b, s, a, request);
    OneMoreIsMeasured(b, Visits(s), s.rows, visit, s'.rows, n);
  }

  /******* All pages *******/

  lemma NextIsMeasured(p: Provider, b: Budget, s: Progress, request: Request) returns (s1: Progress)
    requires IsBudget(b) && Sane(p, b, s) && Measured(b, s) && !Exhausted(b, s) && s.trail != []
    requires request == NextRequest(b, s, request.selector, request.pageToken) && AttemptNext(p, b, s, request).err.None?
    ensures s1 == Received(b, s, AttemptNext(p, b, s, request), request)
    ensures Sane(p, b, s1) && Measured(b, s1) && s1.trail != [] && s.requests < s1.requests
  {
    var a := AttemptNext(p, b, s, request);
    s1 := Received(b, s, a, request);
    ReceiveKeepsSane(p, b, s, request);
    ReceivedIsMeasured(b, s, a, request);
    ReceivedTrail(b, s, a, request);
  }

  lemma FailedIsMeasured(p: Provider, b: Budget, s: Progress, request: Request)
    requires IsBudget(b) && Sane(p, b, s) && Measured(b, s) && !Exhausted(b, s)
    requires request == NextRequest(b, s, request.selector, request.pageToken)
    ensures var s1 := Counted(s, AttemptNext(p, b, s, request), request); Sane(p, b, s1) && Measured(b, s1)
  {
    AttemptKeepsBudget(p, b, s, request);
    CountedIsSame(s, AttemptNext(p, b, s, request), request);
  }

  lemma {:induction false} PagesAreMeasured(p: Provider, b: Budget, selector: Option<string>, s: Progress, seen: set<string>, token: string)
    requires IsBudget(b) && Sane(p, b, s) && Measured(b, s) && s.trail != []
    ensures var (s', err) := FetchPages(p, b, selector, s, seen, token); Sane(p, b, s') && Measured(b, s')
    decreases Max(0, b.requests - s.requests)
  {
    var request := NextRequest(b, s, selector, token);
    var a := AttemptNext(p, b, s, request);
    if Exhausted(b, s) {
    } else if a.err.Some? {
      FetchPagesGoesOn(p, b, selector, s, seen, token);
      FailedIsMeasured(p, b, s, request);
    } else {
      FetchPagesGoesOn(p, b, selector, s, seen, token);
      var s1 := NextIsMeasured(p, b, s, request);
      if a.page.nextToken != "" && a.page.nextToken !in seen {
        PagesAreMeasured(p, b, selector, s1, seen + {a.page.nextToken}, a.page.nextToken);
      }
    }
  }

  lemma {:induction false} SelectorsAreMeasured(p: Provider, b: Budget, selectors: seq<Option<string>>, s: Progress)
    requires IsBudget(b) && Sane(p, b, s) && Measured(b, s)
    ensures var (s', err) := FetchSelectors(p, b, selectors, s); Measured(b, s')
    decreases |selectors|
  {
    if selectors != [] {
      var begun := s.(trail := s.trail + [[]]);
      NewChainKeepsSane(p, b, s);
      NewChainAddsNothing(s);
      PagesAreMeasured(p, b, selectors[0], begun, {}, "");
      var (s1, err) := FetchPages(p, b, selectors[0], begun, {}, "");
      if err.None? && !Exhausted(b, s1) {
        SelectorsAreMeasured(p, b, selectors[1..], s1);
      }
    }
  }

  /** Whatever a provider answers, every page a target receives was asked for with the largest limit
      allowed, and it keeps as many rows as it may: all of every page before the last, and of the last
      as many as fit. */
  lemma TargetIsMeasured(p: Provider, b: Budget, metrics: seq<string>)
    requires IsBudget(b)
    ensures var (s, err) := FetchTarget(p, b, metrics); AllAskForAllowed(b, Visits(s)) && KeepsAllowed(b, Visits(s), s.rows)
  {
    SelectorsAreMeasured(p, b, SelectorsOf(metrics), START);
  }
}
