/** What fetching one target guarantees: budgets, and what the combined token is worth. */
module FetchingLaws {
  import opened Wrappers
  import opened Values
  import opened Sequences
  import opened Fetching

  /******* What was received *******/

  function RowsOf(chain: seq<Visit>): seq<Row> {
    if chain == [] then [] else RowsOf(chain[..|chain| - 1]) + chain[|chain| - 1].page.rows
  }

  function ScannedOf(chain: seq<Visit>): nat {
    if chain == [] then 0 else ScannedOf(chain[..|chain| - 1]) + ScannedBy(chain[|chain| - 1].page)
  }

  /** All rows of all pages of all selectors, in the order of the requests. */
  function AllRows(trail: seq<seq<Visit>>): seq<Row> {
    if trail == [] then [] else AllRows(trail[..|trail| - 1]) + RowsOf(trail[|trail| - 1])
  }

  function AllScanned(trail: seq<seq<Visit>>): nat {
    if trail == [] then 0 else AllScanned(trail[..|trail| - 1]) + ScannedOf(trail[|trail| - 1])
  }

  /** Following the tokens from the empty one: each page was asked for with its predecessor's token. */
  ghost predicate Linked(selector: Option<string>, chain: seq<Visit>) {
    && (forall i :: 0 <= i < |chain| ==> LinkAt(selector, chain, i))
    && (forall i :: 0 <= i < |chain| - 1 ==> chain[i].page.nextToken != "")
  }

  predicate LinkAt(selector: Option<string>, chain: seq<Visit>, i: nat)
    requires i < |chain|
  {
    && chain[i].request.selector == selector
    && chain[i].request.pageToken == if i == 0 then "" else chain[i - 1].page.nextToken
  }

  ghost predicate Complete(chain: seq<Visit>) { chain != [] && chain[|chain| - 1].page.nextToken == "" }

  /** The last page repeats a token of an earlier one. */
  ghost predicate Repeats(chain: seq<Visit>) {
    chain != [] && exists i :: 0 <= i < |chain| - 1 && chain[i].page.nextToken == chain[|chain| - 1].page.nextToken
  }

  /** The budgets cut nothing off. */
  predicate Uncut(b: Budget, s: Progress) { AllScanned(s.trail) <= b.scan && |AllRows(s.trail)| <= b.rows }

  /******* The invariant *******/

  ghost predicate InBudget(b: Budget, s: Progress) {
    && |s.calls| <= s.requests && |s.calls| <= b.requests
    && (forall request :: request in s.calls ==> 1 <= request.limit <= b.pageSize)
    && |s.rows| <= s.scanned <= b.scan && |s.rows| <= b.rows
  }

  ghost predicate Accounts(b: Budget, s: Progress) {
    && s.scanned == Min(AllScanned(s.trail), b.scan)
    && s.rows <= AllRows(s.trail)
    && (Uncut(b, s) ==> s.rows == AllRows(s.trail))
    && (!Uncut(b, s) ==> Exhausted(b, s))
  }

  /** Every page in the trail is what the provider answered to that very call. */
  ghost predicate Genuine(p: Provider, s: Progress) {
    forall i, j :: 0 <= i < |s.trail| && 0 <= j < |s.trail[i]| ==> Answered(p, s, s.trail[i][j])
  }

  ghost predicate Answered(p: Provider, s: Progress, visit: Visit) {
    && visit.call < |s.calls| && s.calls[visit.call] == visit.request
    && p.reply(visit.call, visit.request) == Reply(visit.page, None)
  }

  ghost predicate Sane(p: Provider, b: Budget, s: Progress) { InBudget(b, s) && Accounts(b, s) && Genuine(p, s) }

  lemma AttemptKeepsBudget(p: Provider, b: Budget, s: Progress, request: Request)
    requires IsBudget(b) && Sane(p, b, s) && !Exhausted(b, s) && request == NextRequest(b, s, request.selector, request.pageToken)
    ensures var a := AttemptNext(p, b, s, request); Sane(p, b, Counted(s, a, request))
  {
    var max := Max(1, Min(3, b.requests - s.requests));
    RetryStaysInBudget(p, request, |s.calls|, max, 0, 0);
    var a := AttemptNext(p, b, s, request);
    var s' := Counted(s, a, request);
    forall i, j | 0 <= i < |s.trail| && 0 <= j < |s.trail[i]|
      ensures Answered(p, s', s.trail[i][j])
    {
      assert Answered(p, s, s.trail[i][j]);
    }
  }

  lemma TrailOfMore(s: Progress, visit: Visit)
    requires s.trail != []
    ensures AllRows(Visited(s, visit).trail) == AllRows(s.trail) + visit.page.rows
    ensures AllScanned(Visited(s, visit).trail) == AllScanned(s.trail) + ScannedBy(visit.page)
  {
    var last := |s.trail| - 1;
    var chain := s.trail[last];
    var trail := Visited(s, visit).trail;
    assert trail[..last] == s.trail[..last] && trail[last] == chain + [visit];
    assert (chain + [visit])[..|chain|] == chain;
    assert AllRows(s.trail[..last]) + (RowsOf(chain) + visit.page.rows) == AllRows(s.trail) + visit.page.rows;
  }

  /** What is kept of a page of `k` rows and `scanned` items when `t` of `scan` items and `n` of
      `cap` rows are used up. */
  lemma CutArithmetic(t: int, scan: int, n: int, cap: int, scanned: int, k: int)
    requires n <= t < scan && 0 <= n < cap && 0 <= k <= scanned
    ensures var count := Min(k, Min(scan - t, cap - n)); var after := t + Min(scanned, scan - t);
      && 0 <= count <= k && n + count <= after <= scan && n + count <= cap
      && after == Min(t + scanned, scan)
      && (scanned > scan - t || k > count <==> t + scanned > scan || n + k > cap)
      && (t + scanned <= scan && n + k <= cap ==> count == k)
      && (t + scanned > scan || n + k > cap ==> after >= scan || n + count >= cap)
  {
  }

  lemma CombineAccounts(b: Budget, s: Progress, visit: Visit, s': Progress)
    requires InBudget(b, s) && s.trail != []
    requires s.scanned < b.scan && |s.rows| < b.rows && s.rows == AllRows(s.trail) && s.scanned == AllScanned(s.trail)
    requires s' == Visited(Combine(b, s, visit.page), visit)
    ensures InBudget(b, s') && Accounts(b, s') && (s'.nextToken == "" <==> visit.page.nextToken == "" && Uncut(b, s'))
  {
    var rows := visit.page.rows;
    CutArithmetic(s.scanned, b.scan, |s.rows|, b.rows, ScannedBy(visit.page), |rows|);
    TrailOfMore(s, visit);
    var count := Min(|rows|, Min(b.scan - s.scanned, b.rows - |s.rows|));
    assert s'.trail == Visited(s, visit).trail && s'.calls == s.calls && s'.rows == s.rows + rows[..count];
    PrefixOfRows(s.rows, rows, count);
  }

  lemma PrefixOfRows(a: seq<Row>, rows: seq<Row>, count: nat)
    requires count <= |rows|
    ensures a + rows[..count] <= a + rows && (count == |rows| ==> rows[..count] == rows)
  {
  }

  lemma NothingCutYet(b: Budget, s: Progress)
    requires Accounts(b, s) && !Exhausted(b, s)
    ensures s.rows == AllRows(s.trail) && s.scanned == AllScanned(s.trail)
  {
  }

  /** Counting calls touches nothing else. */
  lemma CountedIsSame(s: Progress, a: Attempt, request: Request)
    ensures var counted := Counted(s, a, request);
      counted.rows == s.rows && counted.scanned == s.scanned && counted.trail == s.trail
  {
  }

  /** The page answers the last of the counted calls. */
  lemma ReceivedIsGenuine(p: Provider, b: Budget, s: Progress, a: Attempt, request: Request)
    requires !Exhausted(b, s) && 0 < a.calls && Genuine(p, Counted(s, a, request))
    requires p.reply(|s.calls| + a.calls - 1, request) == Reply(a.page, None)
    ensures Genuine(p, Received(b, s, a, request))
  {
    var counted := Counted(s, a, request);
    SameTrailIsGenuine(p, counted, Combine(b, counted, a.page));
    VisitIsGenuine(p, Combine(b, counted, a.page), Visit(|s.calls| + a.calls - 1, request, a.page));
  }

  lemma SameTrailIsGenuine(p: Provider, s: Progress, s': Progress)
    requires Genuine(p, s) && s'.calls == s.calls && s'.trail == s.trail
    ensures Genuine(p, s')
  {
    forall i, j | 0 <= i < |s'.trail| && 0 <= j < |s'.trail[i]|
      ensures Answered(p, s', s'.trail[i][j])
    {
      assert Answered(p, s, s.trail[i][j]);
    }
  }

  lemma ReceiveKeepsSane(p: Provider, b: Budget, s: Progress, request: Request)
    requires IsBudget(b) && Sane(p, b, s) && !Exhausted(b, s) && s.trail != []
    requires request == NextRequest(b, s, request.selector, request.pageToken)
    requires AttemptNext(p, b, s, request).err.None?
    ensures var a := AttemptNext(p, b, s, request); var s' := Received(b, s, a, request);
      Sane(p, b, s') && (s'.nextToken == "" <==> a.page.nextToken == "" && Uncut(b, s'))
  {
    AttemptKeepsBudget(p, b, s, request);
    RetryStaysInBudget(p, request, |s.calls|, Max(1, Min(3, b.requests - s.requests)), 0, 0);
    NothingCutYet(b, s);
    var a := AttemptNext(p, b, s, request);
    CountedIsSame(s, a, request);
    CombineAccounts(b, Counted(s, a, request), Visit(|s.calls| + a.calls - 1, request, a.page), Received(b, s, a, request));
    ReceivedIsGenuine(p, b, s, a, request);
  }

  lemma VisitIsGenuine(p: Provider, s: Progress, visit: Visit)
    requires Genuine(p, s) && Answered(p, s, visit)
    ensures Genuine(p, Visited(s, visit))
  {
    var s' := Visited(s, visit);
    forall i, j | 0 <= i < |s'.trail| && 0 <= j < |s'.trail[i]|
      ensures Answered(p, s', s'.trail[i][j])
    {
      if i < |s.trail| - 1 || j < |s.trail[i]| {
        assert s'.trail[i][j] == s.trail[i][j] && Answered(p, s, s.trail[i][j]);
      }
    }
  }

  /******* One selector *******/

  /** The chain that is being followed stands at `token`, having seen the tokens in `seen`. */
  ghost predicate Follows(selector: Option<string>, chain: seq<Visit>, seen: set<string>, token: string) {
    && Linked(selector, chain)
    && token == (if chain == [] then "" else chain[|chain| - 1].page.nextToken)
    && (chain != [] ==> token != "")
    && (forall t :: t in seen ==> exists i :: 0 <= i < |chain| && chain[i].page.nextToken == t)
  }

  function LastChain(s: Progress): seq<Visit>
    requires s.trail != []
  {
    s.trail[|s.trail| - 1]
  }

  /** The state `s'` to which following one selector from state `s` leads. */
  ghost predicate Followed(p: Provider, b: Budget, selector: Option<string>, s: Progress, s': Progress, err: Option<Error>) {
    && Sane(p, b, s')
    && s.trail != [] && |s'.trail| == |s.trail| && s'.trail[..|s.trail| - 1] == s.trail[..|s.trail| - 1]
    && Linked(selector, LastChain(s'))
    && (err.None? ==> Complete(LastChain(s')) || Repeats(LastChain(s')) || Exhausted(b, s'))
    && (err.None? && LastChain(s') != [] ==> (s'.nextToken == "" <==> Complete(LastChain(s')) && Uncut(b, s')))
    && (err.None? && !Exhausted(b, s) ==> LastChain(s') != [])
  }

  lemma OneMoreVisit(selector: Option<string>, chain: seq<Visit>, seen: set<string>, token: string, visit: Visit)
    requires Follows(selector, chain, seen, token) && visit.request.selector == selector && visit.request.pageToken == token
    ensures Linked(selector, chain + [visit])
    ensures visit.page.nextToken in seen ==> Repeats(chain + [visit])
    ensures visit.page.nextToken != "" ==> Follows(selector, chain + [visit], seen + {visit.page.nextToken}, visit.page.nextToken)
  {
    var more := chain + [visit];
    forall i | 0 <= i < |more|
      ensures LinkAt(selector, more, i)
    {
      if i < |chain| {
        assert LinkAt(selector, chain, i) && more[i] == chain[i] && (i > 0 ==> more[i - 1] == chain[i - 1]);
      } else if i > 0 {
        assert more[i - 1] == chain[|chain| - 1];
      }
    }
    if visit.page.nextToken in seen {
      var i :| 0 <= i < |chain| && chain[i].page.nextToken == visit.page.nextToken;
      assert more[i].page.nextToken == visit.page.nextToken;
    }
    forall t | t in seen + {visit.page.nextToken}
      ensures exists i :: 0 <= i < |more| && more[i].page.nextToken == t
    {
      if t in seen {
        var i :| 0 <= i < |chain| && chain[i].page.nextToken == t;
        assert more[i].page.nextToken == t;
      } else {
        assert more[|chain|].page.nextToken == t;
      }
    }
  }

  lemma ReceivedTrail(b: Budget, s: Progress, a: Attempt, request: Request)
    requires !Exhausted(b, s) && 0 < a.calls && s.trail != []
    ensures var s' := Received(b, s, a, request);
      && s'.requests == s.requests + a.requests
      && |s'.trail| == |s.trail| && s'.trail[..|s.trail| - 1] == s.trail[..|s.trail| - 1]
      && LastChain(s') == LastChain(s) + [Visit(|s.calls| + a.calls - 1, request, a.page)]
  {
  }

  lemma FetchPagesGoesOn(p: Provider, b: Budget, selector: Option<string>, s: Progress, seen: set<string>, token: string)
    requires !Exhausted(b, s)
    ensures var request := NextRequest(b, s, selector, token); var a := AttemptNext(p, b, s, request);
      FetchPages(p, b, selector, s, seen, token) ==
      if a.err.Some? then (Counted(s, a, request), a.err)
      else if a.page.nextToken == "" || a.page.nextToken in seen then (Received(b, s, a, request), None)
      else FetchPages(p, b, selector, Received(b, s, a, request), seen + {a.page.nextToken}, a.page.nextToken)
  {
  }

  /** A page is received, and the loop stops or goes on. */
  lemma NextPage(p: Provider, b: Budget, selector: Option<string>, s: Progress, seen: set<string>, token: string)
    returns (s1: Progress, visit: Visit)
    requires IsBudget(b) && Sane(p, b, s) && !Exhausted(b, s) && s.trail != [] && Follows(selector, LastChain(s), seen, token)
    requires AttemptNext(p, b, s, NextRequest(b, s, selector, token)).err.None?
    ensures Sane(p, b, s1) && s.requests < s1.requests
    ensures |s1.trail| == |s.trail| && s1.trail[..|s.trail| - 1] == s.trail[..|s.trail| - 1]
    ensures LastChain(s1) == LastChain(s) + [visit] && visit.request.selector == selector && visit.request.pageToken == token
    ensures s1.nextToken == "" <==> visit.page.nextToken == "" && Uncut(b, s1)
    ensures FetchPages(p, b, selector, s, seen, token) ==
      if visit.page.nextToken == "" || visit.page.nextToken in seen then (s1, None)
      else FetchPages(p, b, selector, s1, seen + {visit.page.nextToken}, visit.page.nextToken)
  {
    var request := NextRequest(b, s, selector, token);
    var a := AttemptNext(p, b, s, request);
    ReceiveKeepsSane(p, b, s, request);
    ReceivedTrail(b, s, a, request);
    FetchPagesGoesOn(p, b, selector, s, seen, token);
    s1 := Received(b, s, a, request);
    visit := Visit(|s.calls| + a.calls - 1, request, a.page);
  }

  lemma FailedPage(p: Provider, b: Budget, selector: Option<string>, s: Progress, seen: set<string>, token: string)
    requires IsBudget(b) && Sane(p, b, s) && !Exhausted(b, s)
    requires AttemptNext(p, b, s, NextRequest(b, s, selector, token)).err.Some?
    ensures var (s', err) := FetchPages(p, b, selector, s, seen, token);
      err.Some? && Sane(p, b, s') && s'.trail == s.trail
  {
    AttemptKeepsBudget(p, b, s, NextRequest(b, s, selector, token));
  }

  lemma {:induction false} PagesAreFollowed(p: Provider, b: Budget, selector: Option<string>, s: Progress, seen: set<string>, token: string)
    requires IsBudget(b) && Sane(p, b, s) && s.trail != [] && Follows(selector, LastChain(s), seen, token)
    requires LastChain(s) != [] ==> (s.nextToken == "" <==> Complete(LastChain(s)) && Uncut(b, s))
    ensures var (s', err) := FetchPages(p, b, selector, s, seen, token); Followed(p, b, selector, s, s', err)
    decreases Max(0, b.requests - s.requests)
  {
    if Exhausted(b, s) {
    } else if AttemptNext(p, b, s, NextRequest(b, s, selector, token)).err.Some? {
      FailedPage(p, b, selector, s, seen, token);
    } else {
      var s1, visit := NextPage(p, b, selector, s, seen, token);
      OneMoreVisit(selector, LastChain(s), seen, token, visit);
      if visit.page.nextToken != "" && visit.page.nextToken !in seen {
        PagesAreFollowed(p, b, selector, s1, seen + {visit.page.nextToken}, visit.page.nextToken);
      }
    }
  }

  /******* All selectors *******/

  /** The chains of the selectors already done have ended, by themselves or by repeating a token. */
  ghost predicate ChainsEnded(selectors: seq<Option<string>>, trail: seq<seq<Visit>>) {
    && |trail| <= |selectors|
    && forall i :: 0 <= i < |trail| ==> Linked(selectors[i], trail[i]) && (Complete(trail[i]) || Repeats(trail[i]))
  }

  /** What a target's result says, `all` being its selectors. */
  ghost predicate TargetOutcome(p: Provider, b: Budget, all: seq<Option<string>>, s: Progress, err: Option<Error>) {
    && Sane(p, b, s)
    && 0 < |s.trail| <= |all|
    && (forall i :: 0 <= i < |s.trail| ==> Linked(all[i], s.trail[i]))
    && (forall i :: 0 <= i < |s.trail| - 1 ==> Complete(s.trail[i]) || Repeats(s.trail[i]))
    && (err.None? ==>
          (s.nextToken == "" <==> |s.trail| == |all| && Complete(LastChain(s)) && Uncut(b, s)))
  }

  lemma NewChainKeepsSane(p: Provider, b: Budget, s: Progress)
    requires Sane(p, b, s)
    ensures Sane(p, b, s.(trail := s.trail + [[]]))
  {
    var s' := s.(trail := s.trail + [[]]);
    assert s'.trail[..|s.trail|] == s.trail;
    assert AllRows(s'.trail) == AllRows(s.trail) + [];
    forall i, j | 0 <= i < |s'.trail| && 0 <= j < |s'.trail[i]|
      ensures Answered(p, s', s'.trail[i][j])
    {
      assert s'.trail[i][j] == s.trail[i][j] && Answered(p, s, s.trail[i][j]);
    }
  }

  /** The chains before the last keep what they were; the last is as `Followed` says. */
  lemma ChainsOfFollowed(p: Provider, b: Budget, all: seq<Option<string>>, s: Progress, s': Progress, err: Option<Error>)
    requires |s.trail| < |all| && ChainsEnded(all, s.trail)
    requires Followed(p, b, all[|s.trail|], s.(trail := s.trail + [[]]), s', err)
    ensures |s'.trail| == |s.trail| + 1
    ensures forall i :: 0 <= i < |s'.trail| ==> Linked(all[i], s'.trail[i])
    ensures forall i :: 0 <= i < |s'.trail| - 1 ==> Complete(s'.trail[i]) || Repeats(s'.trail[i])
  {
    var done := |s.trail|;
    assert s'.trail[..done] == (s.trail + [[]])[..done] == s.trail;
    assert forall i :: 0 <= i < done ==> s'.trail[i] == s'.trail[..done][i] == s.trail[i];
  }

  lemma FetchSelectorsGoesOn(p: Provider, b: Budget, all: seq<Option<string>>, s: Progress)
    requires |s.trail| < |all|
    ensures var (s1, err) := FetchPages(p, b, all[|s.trail|], s.(trail := s.trail + [[]]), {}, "");
      FetchSelectors(p, b, all[|s.trail|..], s) ==
      if err.Some? then (s1, err)
      else if Exhausted(b, s1) then (if |s.trail| + 1 < |all| then s1.(nextToken := MORE_SELECTORS) else s1, None)
      else FetchSelectors(p, b, all[|s.trail| + 1..], s1)
  {
    assert all[|s.trail|..][1..] == all[|s.trail| + 1..];
  }

  lemma {:induction false} SelectorsAreFetched(p: Provider, b: Budget, all: seq<Option<string>>, s: Progress)
    requires IsBudget(b) && Sane(p, b, s) && !Exhausted(b, s)
    requires |s.trail| < |all| && ChainsEnded(all, s.trail)
    ensures var (s', err) := FetchSelectors(p, b, all[|s.trail|..], s); TargetOutcome(p, b, all, s', err)
    decreases |all| - |s.trail|
  {
    var done := |s.trail|;
    var begun := s.(trail := s.trail + [[]]);
    NewChainKeepsSane(p, b, s);
    PagesAreFollowed(p, b, all[done], begun, {}, "");
    var (s1, err) := FetchPages(p, b, all[done], begun, {}, "");
    ChainsOfFollowed(p, b, all, s, s1, err);
    FetchSelectorsGoesOn(p, b, all, s);
    if err.None? && !Exhausted(b, s1) && done + 1 < |all| {
      SelectorsAreFetched(p, b, all, s1);
    }
  }

  /** For every provider and every budget: at most `requests` calls are made, retries included, each
      for between one row and a full page; at most `scan` items are scanned and at most that many
      rows kept; the kept rows are a prefix of what was received; and the combined token is empty
      exactly when the last selector was reached, its chain ended, and nothing was cut off. */
  lemma TargetIsFetched(p: Provider, b: Budget, metrics: seq<string>)
    requires IsBudget(b)
    ensures var (s, err) := FetchTarget(p, b, metrics); TargetOutcome(p, b, SelectorsOf(metrics), s, err)
  {
    assert SelectorsOf(metrics)[0..] == SelectorsOf(metrics);
    SelectorsAreFetched(p, b, SelectorsOf(metrics), START);
  }

  lemma CompleteChainsDoNotRepeat(selector: Option<string>, chain: seq<Visit>)
    requires Linked(selector, chain) && Complete(chain)
    ensures !Repeats(chain)
  {
  }

  /** Without repeated tokens an empty combined token means that every chain of every selector was
      followed to its end and every row received is kept, and nothing else does. */
  lemma EmptyTokenMeansEverything(p: Provider, b: Budget, metrics: seq<string>)
    requires IsBudget(b)
    ensures var (s, err) := FetchTarget(p, b, metrics);
      err.None? ==>
        ((s.nextToken == "" && forall i :: 0 <= i < |s.trail| ==> !Repeats(s.trail[i])) <==>
         (|s.trail| == |SelectorsOf(metrics)| && Uncut(b, s) && forall i :: 0 <= i < |s.trail| ==> Complete(s.trail[i])))
    ensures var (s, err) := FetchTarget(p, b, metrics);
      err.None? && s.nextToken == "" ==> s.rows == AllRows(s.trail)
  {
    TargetIsFetched(p, b, metrics);
    var (s, err) := FetchTarget(p, b, metrics);
    var all := SelectorsOf(metrics);
    if err.None? {
      forall i | 0 <= i < |s.trail| && Complete(s.trail[i])
        ensures !Repeats(s.trail[i])
      {
        CompleteChainsDoNotRepeat(all[i], s.trail[i]);
      }
    }
  }

  /******* A repeated token can go unnoticed *******/

  function Looping(): Provider {
    Provider((n: nat, request: Request) =>
               if request.selector == Some("a") then Reply(Page([], "t", 0, 1), None) else Reply(Page([], "", 0, 1), None),
             n => false)
  }

  const WIDE := Budget(10, 10, 10, 10)

  lemma LoopingAnswers(s: Progress, selector: string, token: string)
    requires s.rows == [] && s.scanned == 0 && 0 <= s.requests < 5 && s.trail != []
    ensures var request := NextRequest(WIDE, s, Some(selector), token); var a := AttemptNext(Looping(), WIDE, s, request);
      && a == Attempt(Page([], if selector == "a" then "t" else "", 0, 1), 1, 1, None)
      && var s' := Received(WIDE, s, a, request);
      && s'.rows == [] && s'.scanned == 0 && s'.requests == s.requests + 1 && s'.nextToken == a.page.nextToken
      && |s'.trail| == |s.trail| && s'.trail[..|s.trail| - 1] == s.trail[..|s.trail| - 1]
      && LastChain(s') != [] && LastChain(s')[|LastChain(s')| - 1].page == a.page
  {
  }

  lemma LoopingFirst(s: Progress) returns (s': Progress)
    requires s.rows == [] && s.scanned == 0 && s.requests == 0 && s.trail == [[]]
    ensures FetchPages(Looping(), WIDE, Some("a"), s, {}, "") == (s', None)
    ensures s'.rows == [] && s'.scanned == 0 && s'.requests == 2 && |s'.trail| == 1 && !Complete(s'.trail[0])
  {
    LoopingAnswers(s, "a", "");
    var r := NextRequest(WIDE, s, Some("a"), "");
    var s1 := Received(WIDE, s, AttemptNext(Looping(), WIDE, s, r), r);
    LoopingAnswers(s1, "a", "t");
    var r1 := NextRequest(WIDE, s1, Some("a"), "t");
    s' := Received(WIDE, s1, AttemptNext(Looping(), WIDE, s1, r1), r1);
    assert FetchPages(Looping(), WIDE, Some("a"), s1, {"t"}, "t") == (s', None);
    assert {} + {"t"} == {"t"};
  }

  lemma LoopingSecond(s: Progress) returns (s': Progress)
    requires s.rows == [] && s.scanned == 0 && s.requests == 2 && |s.trail| == 2
    ensures FetchPages(Looping(), WIDE, Some("b"), s, {}, "") == (s', None)
    ensures s'.nextToken == "" && |s'.trail| == 2 && s'.trail[0] == s.trail[0]
    ensures !Exhausted(WIDE, s')
  {
    LoopingAnswers(s, "b", "");
    var r := NextRequest(WIDE, s, Some("b"), "");
    s' := Received(WIDE, s, AttemptNext(Looping(), WIDE, s, r), r);
    assert s'.trail[0] == s'.trail[..1][0];
  }

  /** The first metric's provider answers with the same token for ever; the second metric's token
      then overwrites it, and the result looks complete. */
  lemma RepeatedTokenGoesUnnoticed()
    ensures var (s, err) := FetchTarget(Looping(), WIDE, ["a", "b"]);
      err.None? && s.nextToken == "" && |s.trail| == 2 && !Complete(s.trail[0])
  {
    var all := SelectorsOf(["a", "b"]);
    assert all == [Some("a"), Some("b")] && all[1..] == [Some("b")] && all[1..][1..] == [];
    var s1 := LoopingFirst(START.(trail := [] + [[]]));
    var s2 := LoopingSecond(s1.(trail := s1.trail + [[]]));
    assert FetchSelectors(Looping(), WIDE, all[1..], s1) == (s2, None);
  }
}
