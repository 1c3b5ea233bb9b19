/**
 Fetching one target: the retry loop `readPageWithRetry` and the page loop of `Query` in
 internal/engine/engine.go.  A provider is any function of the number of calls already made
 and the request, so it may answer, fail, repeat tokens or ignore limits as it likes.
*/
module Fetching {
  import opened Wrappers
  import opened Values
  import opened Sequences

  datatype Page = Page(rows: seq<Row>, nextToken: string, scanned: int, requests: int)

  const EMPTY_PAGE := Page([], "", 0, 0)

  datatype Error = ProviderError(retryable: bool) | ContextError

  datatype Request = Request(selector: Option<string>, pageToken: string, limit: int)

  /** A page, and an error if the call failed. */
  datatype Reply = Reply(page: Page, err: Option<Error>)

  /** `reply(n, request)` answers the call after `n` calls; `cancelled(n)` tells whether the context
      is done while the loop waits after the `n`-th call. */
  datatype Provider = Provider(reply: (nat, Request) -> Reply, cancelled: nat -> bool)

  const LOCAL_LIMIT := "local_execution_limit_reached"
  const MORE_SELECTORS := "additional_metric_selectors_truncated"

  /******* Retries *******/

  datatype Attempt = Attempt(page: Page, requests: int, calls: nat, err: Option<Error>)

  predicate IsRetryable(e: Error) { e.ProviderError? && e.retryable }

  /** The retry loop from `calls` calls and `requests` counted requests on. */
  function Retry(p: Provider, request: Request, made: nat, max: int, requests: int, calls: nat): (a: Attempt)
    ensures requests < a.requests && calls < a.calls
    decreases Max(0, max - requests)
  {
    var reply := p.reply(made + calls, request);
    var counted := requests + Max(1, reply.page.requests);
    if reply.err.None? then Attempt(reply.page, counted, calls + 1, None)
    else if !IsRetryable(reply.err.value) || counted >= max then Attempt(reply.page, counted, calls + 1, reply.err)
    else if p.cancelled(made + calls + 1) then Attempt(EMPTY_PAGE, counted, calls + 1, Some(ContextError))
    else Retry(p, request, made, max, counted, calls + 1)
  }

  method ReadPageWithRetry(p: Provider, request: Request, made: nat, maxRequests: int)
    returns (page: Page, requests: int, calls: nat, err: Option<Error>)
    ensures Attempt(page, requests, calls, err) == Retry(p, request, made, Max(1, maxRequests), 0, 0)
  {
    var max := if maxRequests < 1 then 1 else maxRequests;
    requests, calls := 0, 0;
    while true
      invariant Retry(p, request, made, max, 0, 0) == Retry(p, request, made, max, requests, calls)
      decreases Max(0, max - requests)
    {
      var reply := p.reply(made + calls, request);
      calls := calls + 1;
      requests := requests + Max(1, reply.page.requests);
      if reply.err.None? {
        return reply.page, requests, calls, None;
      }
      if !IsRetryable(reply.err.value) || requests >= max {
        return reply.page, requests, calls, reply.err;
      }
      if p.cancelled(made + calls) {
        return EMPTY_PAGE, requests, calls, Some(ContextError);
      }
    }
  }

  /** Every call is counted, retries stay within the budget, and a page without an error is what
      the provider answered to the last call. */
  lemma {:induction false} RetryStaysInBudget(p: Provider, request: Request, made: nat, max: int, requests: int, calls: nat)
    requires 0 <= calls <= requests && requests < max
    ensures var a := Retry(p, request, made, max, requests, calls);
      && calls < a.calls <= max && a.calls <= a.requests
      && (a.err.None? ==> p.reply(made + a.calls - 1, request) == Reply(a.page, None))
    decreases max - requests
  {
    var reply := p.reply(made + calls, request);
    var counted := requests + Max(1, reply.page.requests);
    if reply.err.Some? && counted < max {
      RetryStaysInBudget(p, request, made, max, counted, calls + 1);
    }
  }

  /******* Pages *******/

  /** The shares of one target, and the largest page to ask for. */
  datatype Budget = Budget(requests: int, scan: int, rows: int, pageSize: int)

  predicate IsBudget(b: Budget) { 1 <= b.requests && 1 <= b.scan && 1 <= b.rows && 1 <= b.pageSize }

  /** A page that was received: by which call, for which token. */
  datatype Visit = Visit(call: nat, request: Request, page: Page)

  /** The page that is being combined, the calls made so far, and the pages received, selector by
      selector. */
  datatype Progress = Progress(rows: seq<Row>, scanned: int, requests: int, nextToken: string,
                               calls: seq<Request>, trail: seq<seq<Visit>>)

  const START := Progress([], 0, 0, "", [], [])

  predicate Exhausted(b: Budget, s: Progress) {
    s.requests >= b.requests || s.scanned >= b.scan || |s.rows| >= b.rows
  }

  function ScannedBy(page: Page): nat { Max(page.scanned, |page.rows|) }

  function NextRequest(b: Budget, s: Progress, selector: Option<string>, token: string): Request {
    Request(selector, token, Min(Min(b.pageSize, b.scan - s.scanned), b.rows - |s.rows|))
  }

  /** What one received page adds. */
  function Combine(b: Budget, s: Progress, page: Page): Progress
    requires s.scanned < b.scan && |s.rows| < b.rows
  {
    var scanRemaining, rowRemaining := b.scan - s.scanned, b.rows - |s.rows|;
    var appendCount := Min(|page.rows|, Min(scanRemaining, rowRemaining));
    s.(rows := s.rows + page.rows[..appendCount],
       scanned := s.scanned + Min(ScannedBy(page), scanRemaining),
       nextToken := if ScannedBy(page) > scanRemaining || |page.rows| > appendCount then LOCAL_LIMIT else page.nextToken)
  }

  function Visited(s: Progress, visit: Visit): Progress {
    if s.trail == [] then s else
    var last := |s.trail| - 1;
    s.(trail := s.trail[last := s.trail[last] + [visit]])
  }

  /** One request, repeated. */
  function Times(request: Request, n: nat): (requests: seq<Request>)
    ensures |requests| == n && forall i :: 0 <= i < n ==> requests[i] == request
  {
    if n == 0 then [] else Times(request, n - 1) + [request]
  }

  /** The calls of one attempt are counted, whatever comes of them. */
  function Counted(s: Progress, a: Attempt, request: Request): Progress {
    s.(requests := s.requests + a.requests, calls := s.calls + Times(request, a.calls))
  }

  function AttemptNext(p: Provider, b: Budget, s: Progress, request: Request): Attempt {
    Retry(p, request, |s.calls|, Max(1, Min(3, b.requests - s.requests)), 0, 0)
  }

  /** The state after a page without error. */
  function Received(b: Budget, s: Progress, a: Attempt, request: Request): Progress
    requires !Exhausted(b, s) && 0 < a.calls
  {
    Visited(Combine(b, Counted(s, a, request), a.page), Visit(|s.calls| + a.calls - 1, request, a.page))
  }

  /** The loop over the pages of one selector, from `token` on. */
  function FetchPages(p: Provider, b: Budget, selector: Option<string>, s: Progress, seen: set<string>, token: string): (Progress, Option<Error>)
    decreases Max(0, b.requests - s.requests)
  {
    if Exhausted(b, s) then (s, None) else
    var request := NextRequest(b, s, selector, token);
    var a := AttemptNext(p, b, s, request);
    if a.err.Some? then (Counted(s, a, request), a.err) else
    var s := Received(b, s, a, request);
    if a.page.nextToken == "" || a.page.nextToken in seen then (s, None)
    else FetchPages(p, b, selector, s, seen + {a.page.nextToken}, a.page.nextToken)
  }

  /** The loop over the selectors. */
  function FetchSelectors(p: Provider, b: Budget, selectors: seq<Option<string>>, s: Progress): (Progress, Option<Error>)
    decreases |selectors|
  {
    if selectors == [] then (s, None) else
    var (s, err) := FetchPages(p, b, selectors[0], s.(trail := s.trail + [[]]), {}, "");
    if err.Some? then (s, err)
    else if Exhausted(b, s) then (if |selectors| > 1 then s.(nextToken := MORE_SELECTORS) else s, None)
    else FetchSelectors(p, b, selectors[1..], s)
  }

  /** The requests of a query: one, or one for each metric. */
  function SelectorsOf(metrics: seq<string>): seq<Option<string>> {
    if metrics == [] then [None] else seq(|metrics|, i requires 0 <= i < |metrics| => Some(metrics[i]))
  }

  function FetchTarget(p: Provider, b: Budget, metrics: seq<string>): (Progress, Option<Error>) {
    FetchSelectors(p, b, SelectorsOf(metrics), START)
  }

  /** The goroutine of one target, once it holds a slot. */
  method QueryTarget(p: Provider, b: Budget, metrics: seq<string>) returns (combined: Progress, err: Option<Error>)
    requires IsBudget(b)
    ensures (combined, err) == FetchTarget(p, b, metrics)
  {
    var requests := SelectorsOf(metrics);
    combined := START;
    for i := 0 to |requests|
      invariant FetchTarget(p, b, metrics) == FetchSelectors(p, b, requests[i..], combined)
    {
      combined, err := QueryPages(p, b, requests[i], combined.(trail := combined.trail + [[]]));
      assert requests[i..][1..] == requests[i + 1..];
      if err.Some? {
        return combined, err;
      }
      if Exhausted(b, combined) {
        if i + 1 < |requests| {
          combined := combined.(nextToken := MORE_SELECTORS);
        }
        return combined, None;
      }
    }
    return combined, None;
  }

  /** The inner loop. */
  method QueryPages(p: Provider, b: Budget, selector: Option<string>, start: Progress) returns (combined: Progress, err: Option<Error>)
    ensures (combined, err) == FetchPages(p, b, selector, start, {}, "")
  {
    combined := start;
    var seen: set<string> := {};
    var token := "";
    while combined.requests < b.requests && combined.scanned < b.scan && |combined.rows| < b.rows
      invariant FetchPages(p, b, selector, start, {}, "") == FetchPages(p, b, selector, combined, seen, token)
      decreases b.requests - combined.requests
    {
      var limit := Min(b.pageSize, b.scan - combined.scanned);
      limit := Min(limit, b.rows - |combined.rows|);
      var request := Request(selector, token, limit);
      var page;
      combined, page, err := ReadNext(p, b, combined, request, seen);
      if err.Some? || page.nextToken == "" || page.nextToken in seen {
        return combined, err;
      }
      seen := seen + {page.nextToken};
      token := page.nextToken;
    }
    return combined, None;
  }

  /** The body of the inner loop: read a page, with retries, and combine it. */
  method ReadNext(p: Provider, b: Budget, start: Progress, request: Request, ghost seen: set<string>)
    returns (combined: Progress, page: Page, err: Option<Error>)
    requires !Exhausted(b, start) && request == NextRequest(b, start, request.selector, request.pageToken)
    ensures start.requests < combined.requests
    ensures FetchPages(p, b, request.selector, start, seen, request.pageToken) ==
      if err.Some? || page.nextToken == "" || page.nextToken in seen then (combined, err)
      else FetchPages(p, b, request.selector, combined, seen + {page.nextToken}, page.nextToken)
  {
    ghost var a := AttemptNext(p, b, start, request);
    var attempts, calls;
    page, attempts, calls, err := ReadPageWithRetry(p, request, |start.calls|, Min(3, b.requests - start.requests));
    combined := start.(requests := start.requests + attempts, calls := start.calls + Times(request, calls));
    if err.Some? {
      assert combined == Counted(start, a, request);
      return;
    }
    var pageScanned := Max(page.scanned, |page.rows|);
    var scanRemaining := b.scan - combined.scanned;
    var rowRemaining := b.rows - |combined.rows|;
    var appendCount := Min(|page.rows|, Min(scanRemaining, rowRemaining));
    combined := combined.(rows := combined.rows + page.rows[..appendCount]);
    combined := combined.(scanned := combined.scanned + Min(pageScanned, scanRemaining));
    combined := combined.(nextToken := page.nextToken);
    if pageScanned > scanRemaining || |page.rows| > appendCount {
      combined := combined.(nextToken := LOCAL_LIMIT);
    }
    combined := Visited(combined, Visit(|combined.calls| - 1, request, page));
    assert combined == Received(b, start, a, request);
  }
}
