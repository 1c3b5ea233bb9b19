/**
 The readiness coordinator of internal/probe/readiness.go: one cached probe report,
 shared by concurrent requests, refreshed by at most one of them at a time.

 `Current` has two critical sections.  `Enter` and `Publish` give their effect on the
 guarded fields, `Coordinator` is the object that performs them, and the rest of the
 module interleaves them, one step at a time, with any number of concurrent callers.
*/
module Readiness {
  import opened Wrappers

  type Time = int
  type Channel = nat

  /** What one `Run` of the probe returned: a report and possibly an error. */
  datatype Outcome = Outcome(report: string, err: Option<string>)

  /** The fields guarded by the mutex. */
  datatype Cache = Cache(hasCached: bool, cached: Outcome, expires: Time, refreshing: bool, wait: Channel)

  const EMPTY_CACHE := Cache(false, Outcome("", None), 0, false, 0)

  /** How the first critical section ends. */
  datatype Decision = Serve(outcome: Outcome, expires: Time) | Await(ch: Channel) | Refresh(ch: Channel)

  /** The first critical section, entered at time `now`; `newest` is the channel it may make. */
  function Enter(c: Cache, now: Time, newest: Channel): (Cache, Decision) {
    if c.hasCached && now < c.expires then (c, Serve(c.cached, c.expires))
    else if c.refreshing then (c, Await(c.wait))
    else (c.(refreshing := true, wait := newest), Refresh(newest))
  }

  /** The second critical section: a finished `Run` is stored. */
  function Publish(c: Cache, now: Time, ttl: Time, outcome: Outcome): Cache {
    c.(cached := outcome, hasCached := true, expires := now + ttl, refreshing := false)
  }

  /** The object itself, field by field. */
  class Coordinator {
    const ttl: Time
    var hasCached: bool
    var cached: string
    var cachedErr: Option<string>
    var expires: Time
    var refreshing: bool
    var wait: Channel

    ghost function Fields(): Cache
      reads this
    {
      Cache(hasCached, Outcome(cached, cachedErr), expires, refreshing, wait)
    }

    /** A minute is the default for a time to live that is not positive. */
    constructor (ttl: Time, minute: Time)
      requires 0 < minute
      ensures Fields() == EMPTY_CACHE
      ensures this.ttl == (if ttl <= 0 then minute else ttl) && 0 < this.ttl
    {
      this.ttl := if ttl <= 0 then minute else ttl;
      hasCached, cached, cachedErr, expires, refreshing, wait := false, "", None, 0, false, 0;
    }

    method EnterLocked(now: Time, newest: Channel) returns (decision: Decision)
      modifies this
      ensures (Fields(), decision) == Enter(old(Fields()), now, newest)
    {
      if hasCached && now < expires {
        return Serve(Outcome(cached, cachedErr), expires);
      }
      if refreshing {
        return Await(wait);
      }
      refreshing := true;
      wait := newest;
      return Refresh(wait);
    }

    method PublishLocked(now: Time, outcome: Outcome)
      modifies this
      ensures Fields() == Publish(old(Fields()), now, ttl, outcome)
    {
      cached := outcome.report;
      cachedErr := outcome.err;
      hasCached := true;
      expires := now + ttl;
      refreshing := false;
    }
  }

  /******* Interleavings *******/

  /** What a call of `Current` returns. */
  datatype Reply = Served(outcome: Outcome, expires: Time, fromCache: bool) | ContextError

  /** Where a caller stands in `Current`. */
  datatype Pc =
    | Idle
    | Entering                                  // about to take the lock
    | Waiting(ch: Channel)                      // in the select on a refresher's channel
    | Running(ch: Channel)                      // its own `Run` is in flight
    | Finished(ch: Channel, outcome: Outcome)   // `Run` returned; about to take the lock again
    | Answered(reply: Reply)
  {
    predicate Refreshes() { Running? || Finished? }
  }

  datatype Completion = Completion(outcome: Outcome, at: Time)

  /** The shared state, all callers, and the history of starts and completions of `Run`. */
  datatype State = State(
    cache: Cache, clock: Time, callers: seq<Pc>, made: nat, closed: set<Channel>,
    starts: seq<Time>, completions: seq<Completion>)

  datatype Step =
    | Call(who: nat)
    | TakeLock(who: nat)
    | Cancel(who: nat)
    | Wake(who: nat)
    | RunReturns(who: nat, outcome: Outcome)
    | TakeLockAgain(who: nat)
    | Tick(delta: nat)

  predicate Enabled(s: State, step: Step) {
    if step.Tick? then true else
    && step.who < |s.callers|
    && var pc := s.callers[step.who];
    match step
    case Call(_) => pc.Idle? || pc.Answered?
    case TakeLock(_) => pc.Entering?
    case Cancel(_) => pc.Waiting?
    case Wake(_) => pc.Waiting? && pc.ch in s.closed
    case RunReturns(_, _) => pc.Running?
    case TakeLockAgain(_) => pc.Finished?
  }

  function Apply(s: State, step: Step, ttl: Time): State
    requires Enabled(s, step)
  {
    match step
    case Tick(delta) => s.(clock := s.clock + delta)
    case Call(i) => s.(callers := s.callers[i := Entering])
    case Cancel(i) => s.(callers := s.callers[i := Answered(ContextError)])
    case Wake(i) => s.(callers := s.callers[i := Entering])
    case RunReturns(i, outcome) => s.(callers := s.callers[i := Finished(s.callers[i].ch, outcome)])
    case TakeLock(i) =>
      var (cache, decision) := Enter(s.cache, s.clock, s.made);
      var s := s.(cache := cache);
      (match decision
       case Serve(outcome, expires) => s.(callers := s.callers[i := Answered(Served(outcome, expires, true))])
       case Await(ch) => s.(callers := s.callers[i := Waiting(ch)])
       case Refresh(ch) =>
         s.(callers := s.callers[i := Running(ch)], made := s.made + 1, starts := s.starts + [s.clock]))
    case TakeLockAgain(i) =>
      var pc := s.callers[i];
      s.(cache := Publish(s.cache, s.clock, ttl, pc.outcome),
         closed := s.closed + {pc.ch},
         callers := s.callers[i := Answered(Served(pc.outcome, s.clock + ttl, false))],
         completions := s.completions + [Completion(pc.outcome, s.clock)])
  }

  /** A run: a list of steps, each enabled where it is taken. */
  predicate IsRun(s: State, steps: seq<Step>, ttl: Time)
    decreases |steps|
  {
    steps == [] || (Enabled(s, steps[0]) && IsRun(Apply(s, steps[0], ttl), steps[1..], ttl))
  }

  function After(s: State, steps: seq<Step>, ttl: Time): State
    requires IsRun(s, steps, ttl)
    decreases |steps|
  {
    if steps == [] then s else After(Apply(s, steps[0], ttl), steps[1..], ttl)
  }

  function Start(callers: nat, clock: Time): State {
    State(EMPTY_CACHE, clock, seq(callers, _ => Idle), 0, {}, [], [])
  }

  ghost predicate Reachable(s: State, ttl: Time) {
    exists callers: nat, clock, steps :: IsRun(Start(callers, clock), steps, ttl) && s == After(Start(callers, clock), steps, ttl)
  }

  /******* The invariant *******/

  ghost predicate OneRefresher(s: State) {
    && (forall i, j :: 0 <= i < |s.callers| && 0 <= j < |s.callers| && s.callers[i].Refreshes() && s.callers[j].Refreshes() ==> i == j)
    && (forall i :: 0 <= i < |s.callers| && s.callers[i].Refreshes() ==> s.cache.refreshing && s.callers[i].ch == s.cache.wait)
    && (s.cache.refreshing ==> exists i :: 0 <= i < |s.callers| && s.callers[i].Refreshes())
  }

  ghost predicate ChannelsInOrder(s: State) {
    && (s.cache.refreshing ==> s.cache.wait < s.made && s.cache.wait !in s.closed)
    && (forall ch :: ch in s.closed ==> ch < s.made)
    && (forall i :: 0 <= i < |s.callers| && s.callers[i].Waiting? ==>
          s.callers[i].ch in s.closed || (s.cache.refreshing && s.callers[i].ch == s.cache.wait))
  }

  ghost predicate CacheIsLatest(s: State, ttl: Time) {
    && s.cache.hasCached == (s.completions != [])
    && (s.completions != [] ==>
          var last := s.completions[|s.completions| - 1];
          s.cache.cached == last.outcome && s.cache.expires == last.at + ttl && last.at <= s.clock)
  }

  ghost predicate History(s: State, ttl: Time) {
    && |s.starts| == |s.completions| + (if s.cache.refreshing then 1 else 0)
    && (forall i :: 0 <= i < |s.starts| ==> s.starts[i] <= s.clock)
    && (forall i :: 0 <= i < |s.completions| ==> s.starts[i] <= s.completions[i].at)
    && (forall i :: 0 < i < |s.starts| ==> s.completions[i - 1].at + ttl <= s.starts[i])
  }

  ghost predicate Inv(s: State, ttl: Time) {
    OneRefresher(s) && ChannelsInOrder(s) && CacheIsLatest(s, ttl) && History(s, ttl)
  }

  lemma StepKeepsOneRefresher(s: State, step: Step, ttl: Time)
    requires OneRefresher(s) && Enabled(s, step)
    ensures OneRefresher(Apply(s, step, ttl))
  {
    var s' := Apply(s, step, ttl);
    if s'.cache.refreshing && !step.Tick? {
      var i := step.who;
      if s'.callers[i].Refreshes() {
      } else {
        var r :| 0 <= r < |s.callers| && s.callers[r].Refreshes();
        assert s'.callers[r].Refreshes();
      }
    }
  }

  lemma StepKeepsChannels(s: State, step: Step, ttl: Time)
    requires OneRefresher(s) && ChannelsInOrder(s) && Enabled(s, step)
    ensures ChannelsInOrder(Apply(s, step, ttl))
  {
  }

  lemma StepKeepsCache(s: State, step: Step, ttl: Time)
    requires CacheIsLatest(s, ttl) && Enabled(s, step)
    ensures CacheIsLatest(Apply(s, step, ttl), ttl)
  {
  }

  lemma SameHistory(s: State, s': State, ttl: Time)
    requires History(s, ttl) && s'.starts == s.starts && s'.completions == s.completions
    requires s.clock <= s'.clock && s'.cache.refreshing == s.cache.refreshing
    ensures History(s', ttl)
  {
  }

  lemma StartKeepsHistory(s: State, s': State, ttl: Time)
    requires History(s, ttl) && !s.cache.refreshing && s'.cache.refreshing && s'.clock == s.clock
    requires s'.starts == s.starts + [s.clock] && s'.completions == s.completions
    requires s.completions != [] ==> s.completions[|s.completions| - 1].at + ttl <= s.clock
    ensures History(s', ttl)
  {
  }

  lemma CompletionKeepsHistory(s: State, s': State, ttl: Time, outcome: Outcome)
    requires History(s, ttl) && s.cache.refreshing && !s'.cache.refreshing && s'.clock == s.clock
    requires s'.starts == s.starts && s'.completions == s.completions + [Completion(outcome, s.clock)]
    ensures History(s', ttl)
  {
  }

  lemma StepKeepsHistory(s: State, step: Step, ttl: Time)
    requires OneRefresher(s) && CacheIsLatest(s, ttl) && History(s, ttl) && Enabled(s, step)
    ensures History(Apply(s, step, ttl), ttl)
  {
    var s' := Apply(s, step, ttl);
    match step
    case TakeLock(i) =>
      if s'.starts == s.starts { SameHistory(s, s', ttl); } else { StartKeepsHistory(s, s', ttl); }
    case TakeLockAgain(i) =>
      assert s.callers[i].Refreshes();
      CompletionKeepsHistory(s, s', ttl, s.callers[i].outcome);
    case _ => SameHistory(s, s', ttl);
  }

  lemma StepKeepsInv(s: State, step: Step, ttl: Time)
    requires Inv(s, ttl) && Enabled(s, step)
    ensures Inv(Apply(s, step, ttl), ttl)
  {
    StepKeepsOneRefresher(s, step, ttl);
    StepKeepsChannels(s, step, ttl);
    StepKeepsCache(s, step, ttl);
    StepKeepsHistory(s, step, ttl);
  }

  lemma {:induction false} RunKeepsInv(s: State, steps: seq<Step>, ttl: Time)
    requires Inv(s, ttl) && IsRun(s, steps, ttl)
    ensures Inv(After(s, steps, ttl), ttl)
    decreases |steps|
  {
    if steps != [] {
      StepKeepsInv(s, steps[0], ttl);
      RunKeepsInv(Apply(s, steps[0], ttl), steps[1..], ttl);
    }
  }

  lemma ReachableInv(s: State, ttl: Time)
    requires Reachable(s, ttl)
    ensures Inv(s, ttl)
  {
    var callers: nat, clock, steps :| IsRun(Start(callers, clock), steps, ttl) && s == After(Start(callers, clock), steps, ttl);
    RunKeepsInv(Start(callers, clock), steps, ttl);
  }

  /******* What the protocol guarantees *******/

  /** At most one `Run` is in flight, and a new one starts only when none is. */
  lemma SingleFlight(s: State, ttl: Time)
    requires Reachable(s, ttl)
    ensures forall i, j :: 0 <= i < |s.callers| && 0 <= j < |s.callers| && s.callers[i].Running? && s.callers[j].Running? ==> i == j
    ensures |s.starts| - 1 <= |s.completions| <= |s.starts|
  {
    ReachableInv(s, ttl);
  }

  /** No `Run` starts before its predecessor completed, failed or not, plus the time to live. */
  lemma StartsWaitForCompletions(s: State, ttl: Time, j: nat)
    requires Reachable(s, ttl) && 0 < j < |s.starts|
    ensures j <= |s.completions| && s.starts[j - 1] <= s.completions[j - 1].at && s.completions[j - 1].at + ttl <= s.starts[j]
  {
    assert History(s, ttl) by { ReachableInv(s, ttl); }
  }

  /** The first and the last of `k + 1` starts are at least `k` times the time to live apart. */
  lemma {:induction false} StartsAreSpaced(s: State, ttl: Time, i: nat, k: nat)
    requires Reachable(s, ttl) && i + k < |s.starts|
    ensures s.starts[i] + k * ttl <= s.starts[i + k]
  {
    if k > 0 {
      StartsAreSpaced(s, ttl, i, k - 1);
      Distribute(k, ttl);
      StartsWaitForCompletions(s, ttl, i + k);
    }
  }

  lemma Distribute(k: int, ttl: Time)
    ensures k * ttl == (k - 1) * ttl + ttl
  {
  }

  /** Every answer that is not a context error is the outcome of the latest completed `Run` at
      the moment the lock is held; a cached one is given only before it expires, and a fresh one
      is the completion that this very step records. */
  lemma AnswersAreLatest(s: State, step: Step, ttl: Time, i: nat)
    requires Reachable(s, ttl) && Enabled(s, step) && i < |s.callers|
    requires var pc := Apply(s, step, ttl).callers[i];
      s.callers[i] != pc && pc.Answered? && pc.reply != ContextError
    ensures var s' := Apply(s, step, ttl); var reply := s'.callers[i].reply;
      && s'.completions != []
      && var last := s'.completions[|s'.completions| - 1];
      && reply.outcome == last.outcome && reply.expires == last.at + ttl
      && if reply.fromCache then s'.completions == s.completions && s.clock < last.at + ttl
         else |s'.completions| == |s.completions| + 1 && last.at == s.clock
  {
    ReachableInv(s, ttl);
  }

  /** A waiter's channel is closed already, or belongs to a refresher that is still at work. */
  lemma NoWaiterIsStranded(s: State, ttl: Time, i: nat)
    requires Reachable(s, ttl) && i < |s.callers| && s.callers[i].Waiting?
    ensures s.callers[i].ch in s.closed ||
      exists r :: 0 <= r < |s.callers| && s.callers[r].Refreshes() && s.callers[r].ch == s.callers[i].ch
  {
    ReachableInv(s, ttl);
  }

  /** The steps that bring a refresher, and everyone who waits for it, to the end. */
  function FinishRefresh(s: State, r: nat, outcome: Outcome): seq<Step>
    requires r < |s.callers| && s.callers[r].Refreshes()
  {
    if s.callers[r].Running? then [RunReturns(r, outcome), TakeLockAgain(r)] else [TakeLockAgain(r)]
  }

  lemma RefreshCanFinish(s: State, r: nat, outcome: Outcome, ttl: Time)
    requires Inv(s, ttl) && r < |s.callers| && s.callers[r].Refreshes()
    ensures IsRun(s, FinishRefresh(s, r, outcome), ttl)
    ensures var s' := After(s, FinishRefresh(s, r, outcome), ttl);
      && Inv(s', ttl) && s'.clock == s.clock && |s'.callers| == |s.callers|
      && s'.callers == s.callers[r := s'.callers[r]]
      && s'.callers[r].Answered? && s'.callers[r].reply.Served?
      && (forall ch :: ch in s.closed ==> ch in s'.closed)
      && s'.cache.hasCached && s'.cache.expires == s.clock + ttl
      && s.cache.wait in s'.closed
  {
    var steps := FinishRefresh(s, r, outcome);
    if s.callers[r].Running? {
      var s1 := Apply(s, steps[0], ttl);
      assert steps[1..] == [TakeLockAgain(r)];
      assert steps[1..][1..] == [];
      assert After(s, steps, ttl) == After(s1, steps[1..], ttl) == Apply(s1, TakeLockAgain(r), ttl);
      assert s1.callers[r := Answered(Served(outcome, s.clock + ttl, false))] == s.callers[r := Answered(Served(outcome, s.clock + ttl, false))];
    } else {
      assert steps[1..] == [];
    }
    RunKeepsInv(s, steps, ttl);
  }

  lemma {:induction false} RunsCompose(s: State, first: seq<Step>, second: seq<Step>, ttl: Time)
    requires IsRun(s, first, ttl) && IsRun(After(s, first, ttl), second, ttl)
    ensures IsRun(s, first + second, ttl)
    ensures After(s, first + second, ttl) == After(After(s, first, ttl), second, ttl)
    decreases |first|
  {
    if first == [] {
      assert first + second == second;
    } else {
      RunsCompose(Apply(s, first[0], ttl), first[1..], second, ttl);
      assert (first + second)[1..] == first[1..] + second;
    }
  }

  /** A woken waiter finds an answer in the cache, waits again, or becomes the refresher. */
  lemma WakeAndTakeLock(s: State, ttl: Time, i: nat) returns (s': State)
    requires Inv(s, ttl) && i < |s.callers| && s.callers[i].Waiting? && s.callers[i].ch in s.closed
    ensures IsRun(s, [Wake(i), TakeLock(i)], ttl) && s' == After(s, [Wake(i), TakeLock(i)], ttl)
    ensures Inv(s', ttl) && |s'.callers| == |s.callers|
    ensures
      var pc := s'.callers[i];
      if s.cache.hasCached && s.clock < s.cache.expires then pc.Answered? && pc.reply.Served?
      else if s.cache.refreshing then pc.Waiting? else pc.Running?
  {
    var steps := [Wake(i), TakeLock(i)];
    var s1 := Apply(s, Wake(i), ttl);
    assert steps[1..] == [TakeLock(i)] && steps[1..][1..] == [];
    assert IsRun(s1, steps[1..], ttl);
    s' := Apply(s1, TakeLock(i), ttl);
    assert After(s1, steps[1..], ttl) == s';
    StepKeepsInv(s, Wake(i), ttl);
    StepKeepsInv(s1, TakeLock(i), ttl);
  }

  /** From every reachable state every waiter can be led to a served answer in at most four
      steps in which only it and the current refresher move: whoever waits is never blocked
      for good, and nobody has to be cancelled. */
  lemma EveryWaiterCanBeServed(s: State, ttl: Time, i: nat, outcome: Outcome) returns (steps: seq<Step>)
    requires Reachable(s, ttl) && 0 < ttl
    requires i < |s.callers| && s.callers[i].Waiting?
    ensures |steps| <= 4 && (forall k :: 0 <= k < |steps| ==> !steps[k].Cancel? && !steps[k].Tick?)
    ensures IsRun(s, steps, ttl) && |After(s, steps, ttl).callers| == |s.callers|
    ensures var pc := After(s, steps, ttl).callers[i]; pc.Answered? && pc.reply.Served?
  {
    ReachableInv(s, ttl);
    var again := [Wake(i), TakeLock(i)];
    if s.cache.refreshing {
      var r :| 0 <= r < |s.callers| && s.callers[r].Refreshes();
      var finish := FinishRefresh(s, r, outcome);
      RefreshCanFinish(s, r, outcome, ttl);
      var s1 := After(s, finish, ttl);
      assert s1.callers[i] == s.callers[i] && s1.callers[i].ch in s1.closed;
      var _ := WakeAndTakeLock(s1, ttl, i);
      RunsCompose(s, finish, again, ttl);
      steps := finish + again;
    } else {
      var s1 := WakeAndTakeLock(s, ttl, i);
      steps := again;
      if s1.callers[i].Running? {
        RefreshCanFinish(s1, i, outcome, ttl);
        RunsCompose(s, again, FinishRefresh(s1, i, outcome), ttl);
        steps := again + FinishRefresh(s1, i, outcome);
      }
    }
  }
}
