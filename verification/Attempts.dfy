/**
 When an attempt to read a page goes on and how it ends, stated over the provider's replies one by one
 instead of by the loop that asks for them.
*/
module Attempts {
  import opened Wrappers
  import opened Fetching

  /** The reply to the call after `i` others of the same attempt. */
  function ReplyAt(p: Provider, request: Request, made: nat, i: nat): Reply { p.reply(made + i, request) }

  /** The requests that the first `n` calls count for: what their pages report, at least one each. */
  function CountedFor(p: Provider, request: Request, made: nat, n: nat): nat {
    if n == 0 then 0
    else
      var reported := ReplyAt(p, request, made, n - 1).page.requests;
      CountedFor(p, request, made, n - 1) + (if reported < 1 then 1 else reported)
  }

  ghost predicate FailsForNow(p: Provider, request: Request, made: nat, i: nat) {
    ReplyAt(p, request, made, i).err == Some(ProviderError(true))
  }

  /** The call fails with an error that may be retried, leaves requests to be made, and the wait after it
      is not cancelled. */
  ghost predicate IsRetried(p: Provider, request: Request, made: nat, max: nat, i: nat) {
    FailsForNow(p, request, made, i) && CountedFor(p, request, made, i + 1) < max && !p.cancelled(made + i + 1)
  }

  ghost predicate AllRetried(p: Provider, request: Request, made: nat, max: nat, n: nat) {
    forall i :: 0 <= i < n ==> IsRetried(p, request, made, max, i)
  }

  /** All calls but the last are retried.  The attempt ends with the last reply, page and error, unless
      only the cancelled wait kept it from going on. */
  ghost predicate IsAttempt(p: Provider, request: Request, made: nat, max: nat, a: Attempt) {
    && 1 <= a.calls && AllRetried(p, request, made, max, a.calls - 1) && !IsRetried(p, request, made, max, a.calls - 1)
    && a.requests == CountedFor(p, request, made, a.calls)
    && var last := ReplyAt(p, request, made, a.calls - 1);
       if FailsForNow(p, request, made, a.calls - 1) && a.requests < max
       then p.cancelled(made + a.calls) && a.page == EMPTY_PAGE && a.err == Some(ContextError)
       else a.page == last.page && a.err == last.err
  }

  lemma {:induction false} RetryFrom(p: Provider, request: Request, made: nat, max: nat, requests: nat, calls: nat)
    requires requests == CountedFor(p, request, made, calls) && AllRetried(p, request, made, max, calls)
    ensures IsAttempt(p, request, made, max, Retry(p, request, made, max, requests, calls))
    decreases if requests < max then max - requests else 0
  {
    var counted := CountedFor(p, request, made, calls + 1);
    if IsRetried(p, request, made, max, calls) {
      RetryFrom(p, request, made, max, counted, calls + 1);
    }
  }

  /** There is one first call that is not retried. */
  lemma OneEnd(p: Provider, request: Request, made: nat, max: nat, m: nat, n: nat)
    requires AllRetried(p, request, made, max, m) && !IsRetried(p, request, made, max, m)
    requires AllRetried(p, request, made, max, n) && !IsRetried(p, request, made, max, n)
    ensures m == n
  {
  }

  /** The retry loop makes exactly this attempt. */
  lemma AttemptExactlyWhen(p: Provider, request: Request, made: nat, max: nat, a: Attempt)
    ensures a == Retry(p, request, made, max, 0, 0) <==> IsAttempt(p, request, made, max, a)
  {
    var b := Retry(p, request, made, max, 0, 0);
    RetryFrom(p, request, made, max, 0, 0);
    if IsAttempt(p, request, made, max, a) {
      OneEnd(p, request, made, max, a.calls - 1, b.calls - 1);
    }
  }

  /** It succeeds exactly if some reply is without an error and every reply before it is retried. */
  lemma SucceedsExactlyWhen(p: Provider, request: Request, made: nat, max: nat)
    ensures Retry(p, request, made, max, 0, 0).err.None? <==>
      exists n: nat :: AllRetried(p, request, made, max, n) && ReplyAt(p, request, made, n).err.None?
  {
    var a := Retry(p, request, made, max, 0, 0);
    RetryFrom(p, request, made, max, 0, 0);
    if a.err.None? {
      assert AllRetried(p, request, made, max, a.calls - 1) && ReplyAt(p, request, made, a.calls - 1).err.None?;
    }
    if n: nat :| AllRetried(p, request, made, max, n) && ReplyAt(p, request, made, n).err.None? {
      OneEnd(p, request, made, max, a.calls - 1, n);
    }
  }

  /** An error that ends an attempt is a permanent one, or the budget is used up, or a wait was cancelled. */
  lemma ErrorsAreFinal(p: Provider, request: Request, made: nat, max: nat)
    ensures var a := Retry(p, request, made, max, 0, 0);
      a.err.Some? ==>
        || (a.err == ReplyAt(p, request, made, a.calls - 1).err && (a.err != Some(ProviderError(true)) || max <= a.requests))
        || (a.err == Some(ContextError) && p.cancelled(made + a.calls) && FailsForNow(p, request, made, a.calls - 1))
  {
    RetryFrom(p, request, made, max, 0, 0);
  }

  lemma {:induction false} CallsAreCounted(p: Provider, request: Request, made: nat, n: nat)
    ensures n <= CountedFor(p, request, made, n)
  {
    if n > 0 {
      CallsAreCounted(p, request, made, n - 1);
    }
  }

  /** A page of a target is read in at most three calls, and no more than the requests left to it. */
  lemma PagesTakeThreeCalls(p: Provider, b: Budget, s: Progress, request: Request)
    requires s.requests < b.requests
    ensures var a, left := AttemptNext(p, b, s, request), b.requests - s.requests;
      && IsAttempt(p, request, |s.calls|, if left < 3 then left else 3, a)
      && 1 <= a.calls <= 3 && a.calls <= left
  {
    var left := b.requests - s.requests;
    var max := if left < 3 then left else 3;
    var a := AttemptNext(p, b, s, request);
    RetryFrom(p, request, |s.calls|, max, 0, 0);
    CallsAreCounted(p, request, |s.calls|, a.calls - 1);
    if a.calls > 1 {
      assert IsRetried(p, request, |s.calls|, max, a.calls - 2);
    }
  }
}
