/** How long a chain of metric windows can get, and that it can be brought to its end. */
module WindowEnds {
  import opened Wrappers
  import opened Codecs
  import opened Windows
  import opened WindowChains

  /** The seconds of the epoch from the one in which an instant lies to the last of the range. */
  function SecondsLeft(q: Query, from: int): int { (q.end - 1) / SECOND - from / SECOND + 1 }

  /** The window does not stop in the second in which it starts. */
  predicate LeavesItsSecond(q: Query, call: Call) { call.from / SECOND < WindowEnd(q, call.from, call.limit) / SECOND }

  /** Every window that has a successor leaves its second. */
  ghost predicate Advance(q: Query, calls: seq<Call>) { forall i :: 0 <= i < |calls| - 1 ==> LeavesItsSecond(q, calls[i]) }

  /** The cursor of a window is accepted and leads on exactly if the window leaves its second and stops
      after the first second of the epoch. */
  lemma LeadsOnExactlyWhen(codec: Codec<int>, q: Query, call: Call)
    requires IsCodec(codec) && IsRange(q) && q.start <= call.from && WindowEnd(q, call.from, call.limit) < q.end
    ensures var to := WindowEnd(q, call.from, call.limit);
      var next := WindowStart(codec, q, NextToken(codec, q, to));
      next.Some? && call.from < next.value <==> LeavesItsSecond(q, call) && 0 < to / SECOND
  {
    var to := WindowEnd(q, call.from, call.limit);
    AcceptedExactlyWhen(codec, q, to);
    WholeSecond(call.from);
    if LeavesItsSecond(q, call) {
      SecondIsLater(call.from, to);
    }
  }

  lemma WholeSecond(t: int)
    ensures t == t / SECOND * SECOND + t % SECOND
  {
  }

  lemma SecondIsLater(from: int, to: int)
    requires from / SECOND < to / SECOND
    ensures from < to / SECOND * SECOND
  {
  }

  /** A chain, over any range, whose windows leave their seconds has no more calls than the range has
      seconds, counting those that are only begun. */
  lemma {:induction false} ChainsEnd(codec: Codec<int>, q: Query, defaultStatistic: bool, token: string, calls: seq<Call>)
    requires IsCodec(codec) && IsRange(q) && Linked(codec, q, defaultStatistic, token, calls) && Advance(q, calls) && calls != []
    ensures |calls| <= SecondsLeft(q, calls[0].from)
    decreases |calls|
  {
    WindowIsInRange(codec, q, defaultStatistic, token, calls, 0);
    if 1 < |calls| {
      NextStart(codec, q, defaultStatistic, token, calls, 0);
      assert forall i :: 0 <= i < |calls[1..]| ==> calls[1..][i] == calls[i + 1];
      ChainsEnd(codec, q, defaultStatistic, calls[0].page.nextToken, calls[1..]);
    }
  }

  /******* Chains without end *******/

  ghost predicate HasChain(codec: Codec<int>, q: Query, defaultStatistic: bool, n: nat) {
    exists calls: seq<Call> :: Linked(codec, q, defaultStatistic, "", calls) && |calls| == n
  }

  /** There are chains of every length. */
  ghost predicate IsEndless(codec: Codec<int>, q: Query, defaultStatistic: bool) {
    forall n: nat :: HasChain(codec, q, defaultStatistic, n)
  }

  /** The token a chain has come to. */
  function LastToken(token: string, calls: seq<Call>): string { if calls == [] then token else calls[|calls| - 1].page.nextToken }

  predicate IsAnswered(codec: Codec<int>, q: Query, defaultStatistic: bool, token: string, call: Call) {
    && WindowStart(codec, q, token) == Some(call.from)
    && call.page == PageOf(codec, q, defaultStatistic, call.from, call.limit, call.reply)
  }

  lemma {:induction false} LinkedExtends(codec: Codec<int>, q: Query, defaultStatistic: bool, token: string, calls: seq<Call>, call: Call)
    requires Linked(codec, q, defaultStatistic, token, calls) && !Finished(calls)
    requires IsAnswered(codec, q, defaultStatistic, LastToken(token, calls), call)
    ensures Linked(codec, q, defaultStatistic, token, calls + [call])
    decreases |calls|
  {
    if calls == [] {
      assert (calls + [call])[1..] == [];
    } else {
      var next, rest := calls[0].page.nextToken, calls[1..];
      assert !Finished(rest) && LastToken(next, rest) == LastToken(token, calls) && next != "";
      LinkedExtends(codec, q, defaultStatistic, next, rest, call);
      assert (calls + [call])[1..] == rest + [call];
    }
  }

  lemma {:induction false} PrefixIsLinked(codec: Codec<int>, q: Query, defaultStatistic: bool, token: string, calls: seq<Call>, n: nat)
    requires Linked(codec, q, defaultStatistic, token, calls) && n < |calls|
    ensures Linked(codec, q, defaultStatistic, token, calls[..n]) && !Finished(calls[..n])
    ensures Linked(codec, q, defaultStatistic, LastToken(token, calls[..n]), calls[n..])
    decreases |calls|
  {
    if n > 0 {
      var next, rest := calls[0].page.nextToken, calls[1..];
      PrefixIsLinked(codec, q, defaultStatistic, next, rest, n - 1);
      assert next != "" && calls[..n][1..] == rest[..n - 1] && rest[n - 1..] == calls[n..];
      assert LastToken(token, calls[..n]) == LastToken(next, rest[..n - 1]);
    }
  }

  /** A call whose cursor leads to its own window, over and over. */
  lemma {:induction false} Stutter(codec: Codec<int>, q: Query, defaultStatistic: bool, calls: seq<Call>, call: Call, n: nat) returns (long: seq<Call>)
    requires Linked(codec, q, defaultStatistic, "", calls) && !Finished(calls) && call.page.nextToken != ""
    requires IsAnswered(codec, q, defaultStatistic, LastToken("", calls), call) && IsAnswered(codec, q, defaultStatistic, call.page.nextToken, call)
    ensures Linked(codec, q, defaultStatistic, "", long) && |long| == |calls| + n
    decreases n
  {
    long := calls;
    if n > 0 {
      LinkedExtends(codec, q, defaultStatistic, "", calls, call);
      long := Stutter(codec, q, defaultStatistic, calls + [call], call, n - 1);
    }
  }

  /** One call of a chain, and the next. */
  lemma CallsAreAnswered(codec: Codec<int>, q: Query, defaultStatistic: bool, calls: seq<Call>, i: nat)
    requires Linked(codec, q, defaultStatistic, "", calls) && i + 1 < |calls|
    ensures IsAnswered(codec, q, defaultStatistic, LastToken("", calls[..i]), calls[i]) && calls[i].page.nextToken != ""
    ensures IsAnswered(codec, q, defaultStatistic, calls[i].page.nextToken, calls[i + 1])
    ensures Linked(codec, q, defaultStatistic, "", calls[..i]) && !Finished(calls[..i])
  {
    PrefixIsLinked(codec, q, defaultStatistic, "", calls, i);
    assert calls[i..][0] == calls[i] && calls[i..][1..][0] == calls[i + 1];
  }

  lemma StuckStart(codec: Codec<int>, q: Query, defaultStatistic: bool, calls: seq<Call>, i: nat)
    requires IsCodec(codec) && IsRange(q) && Linked(codec, q, defaultStatistic, "", calls) && i + 1 < |calls| && !LeavesItsSecond(q, calls[i])
    ensures calls[i + 1].from == calls[i].from
  {
    NextStart(codec, q, defaultStatistic, "", calls, i);
    WindowIsInRange(codec, q, defaultStatistic, "", calls, i);
    StartsAreWhole(codec, q, defaultStatistic, calls, i);
    WholeSecond(calls[i].from);
  }

  /** A window that does not leave its second although it has a successor has itself as successor. */
  lemma StuckIsEndless(codec: Codec<int>, q: Query, defaultStatistic: bool, calls: seq<Call>, i: nat)
    requires IsCodec(codec) && IsRange(q) && Linked(codec, q, defaultStatistic, "", calls) && i + 1 < |calls| && !LeavesItsSecond(q, calls[i])
    ensures IsEndless(codec, q, defaultStatistic)
  {
    StuckStart(codec, q, defaultStatistic, calls, i);
    CallsAreAnswered(codec, q, defaultStatistic, calls, i);
    forall n: nat
      ensures HasChain(codec, q, defaultStatistic, n)
    {
      var long := Stutter(codec, q, defaultStatistic, calls[..i], calls[i], n + 1);
      PrefixIsLinked(codec, q, defaultStatistic, "", long, n);
      assert |long[..n]| == n;
    }
  }

  /** A window starts at a whole second, or where the range starts. */
  lemma StartsAreWhole(codec: Codec<int>, q: Query, defaultStatistic: bool, calls: seq<Call>, i: nat)
    requires IsCodec(codec) && IsRange(q) && Linked(codec, q, defaultStatistic, "", calls) && i < |calls|
    ensures calls[i].from == q.start || calls[i].from % SECOND == 0
  {
    if i > 0 {
      NextStart(codec, q, defaultStatistic, "", calls, i - 1);
      WholeIsWhole(WindowEnd(q, calls[i - 1].from, calls[i - 1].limit) / SECOND);
    }
  }

  lemma WholeIsWhole(n: int)
    ensures n * SECOND % SECOND == 0
  {
  }

  /** There is no bound on the length of chains exactly if some window, of any limit, is followed by
      another although it stops in the second in which it starts. */
  lemma EndlessExactlyWhenStuck(codec: Codec<int>, q: Query, defaultStatistic: bool)
    requires IsCodec(codec) && IsRange(q)
    ensures IsEndless(codec, q, defaultStatistic) <==> exists calls: seq<Call> :: Linked(codec, q, defaultStatistic, "", calls) && !Advance(q, calls)
  {
    if calls: seq<Call> :| Linked(codec, q, defaultStatistic, "", calls) && !Advance(q, calls) {
      var i :| 0 <= i < |calls| - 1 && !LeavesItsSecond(q, calls[i]);
      StuckIsEndless(codec, q, defaultStatistic, calls, i);
    } else if IsEndless(codec, q, defaultStatistic) {
      SecondsAreLeft(q);
      assert HasChain(codec, q, defaultStatistic, SecondsLeft(q, q.start) + 1);
      var calls: seq<Call> :| Linked(codec, q, defaultStatistic, "", calls) && |calls| == SecondsLeft(q, q.start) + 1;
      ChainsEnd(codec, q, defaultStatistic, "", calls);
    }
  }

  /** A window of one step at the whole second of `t` leads to itself: the second is after the epoch and
      not before the range, and the step neither leaves it nor reaches the end. */
  predicate StallsAt(q: Query, t: int) {
    var second := t / SECOND * SECOND;
    q.step < SECOND && t < q.end && 0 < second && q.start <= second && second + q.step < q.end
  }

  /** The first window, of some limit, stops where windows stall, or already the range starts there. */
  ghost predicate CanStall(q: Query) { exists n: nat :: n <= 7200 && StallsAt(q, q.start + n * q.step) }

  lemma {:induction false} StartsGrow(codec: Codec<int>, q: Query, defaultStatistic: bool, calls: seq<Call>, i: nat)
    requires IsCodec(codec) && IsRange(q) && Linked(codec, q, defaultStatistic, "", calls) && 1 <= i < |calls|
    ensures calls[1].from <= calls[i].from
  {
    if 1 < i {
      StartsGrow(codec, q, defaultStatistic, calls, i - 1);
      NextStart(codec, q, defaultStatistic, "", calls, i - 2);
      NextStart(codec, q, defaultStatistic, "", calls, i - 1);
      WindowIsInRange(codec, q, defaultStatistic, "", calls, i - 1);
      SecondsGrow(WindowEnd(q, calls[i - 2].from, calls[i - 2].limit) / SECOND, WindowEnd(q, calls[i - 1].from, calls[i - 1].limit));
    }
  }

  lemma SecondsGrow(n: int, to: int)
    requires n * SECOND < to
    ensures n * SECOND <= to / SECOND * SECOND
  {
  }

  /** The second of a cursor that was accepted. */
  lemma NextIsAfterEpoch(codec: Codec<int>, q: Query, defaultStatistic: bool, calls: seq<Call>, i: nat)
    requires IsCodec(codec) && IsRange(q) && Linked(codec, q, defaultStatistic, "", calls) && i + 1 < |calls|
    ensures 0 < calls[i + 1].from
  {
    CallsAreAnswered(codec, q, defaultStatistic, calls, i);
    NextStart(codec, q, defaultStatistic, "", calls, i);
    AcceptedExactlyWhen(codec, q, WindowEnd(q, calls[i].from, calls[i].limit));
  }

  /** What it takes not to leave a second. */
  lemma StuckStep(q: Query, call: Call)
    requires IsRange(q) && !LeavesItsSecond(q, call) && call.from == call.from / SECOND * SECOND && WindowEnd(q, call.from, call.limit) < q.end
    ensures q.step < SECOND && call.from + q.step < q.end
  {
    WindowIsLong(q, call.from, call.limit);
    WholeSecond(WindowEnd(q, call.from, call.limit));
  }

  lemma FirstWindow(codec: Codec<int>, q: Query, defaultStatistic: bool, calls: seq<Call>) returns (n: nat)
    requires IsCodec(codec) && IsRange(q) && Linked(codec, q, defaultStatistic, "", calls) && 1 < |calls|
    ensures n <= 7200 && var t := q.start + n * q.step;
      t < q.end && calls[1].from == t / SECOND * SECOND && q.start <= calls[1].from && 0 < calls[1].from
  {
    n := LimitOf(calls[0].limit);
    NextStart(codec, q, defaultStatistic, "", calls, 0);
    NextIsAfterEpoch(codec, q, defaultStatistic, calls, 0);
  }

  lemma StuckCanStall(codec: Codec<int>, q: Query, defaultStatistic: bool, calls: seq<Call>, i: nat)
    requires IsCodec(codec) && IsRange(q) && Linked(codec, q, defaultStatistic, "", calls) && i + 1 < |calls| && !LeavesItsSecond(q, calls[i])
    ensures CanStall(q)
  {
    StuckStart(codec, q, defaultStatistic, calls, i);
    NextStart(codec, q, defaultStatistic, "", calls, i);
    WholeIsWhole(WindowEnd(q, calls[i].from, calls[i].limit) / SECOND);
    WholeSecond(calls[i].from);
    StuckStep(q, calls[i]);
    if i == 0 {
      NextIsAfterEpoch(codec, q, defaultStatistic, calls, 0);
      assert StallsAt(q, q.start + 0 * q.step);
    } else {
      var n := FirstWindow(codec, q, defaultStatistic, calls);
      StartsGrow(codec, q, defaultStatistic, calls, i);
      assert StallsAt(q, q.start + n * q.step);
    }
  }

  /** The call for one step at a whole second where windows stall. */
  lemma StalledCall(codec: Codec<int>, q: Query, defaultStatistic: bool, t: int) returns (call: Call)
    requires IsCodec(codec) && IsRange(q) && StallsAt(q, t)
    ensures call.from == t / SECOND * SECOND && IsAnswered(codec, q, defaultStatistic, call.page.nextToken, call) && call.page.nextToken != ""
    ensures call.page == PageOf(codec, q, defaultStatistic, call.from, call.limit, call.reply)
  {
    var second := t / SECOND * SECOND;
    call := Call(second, 1, [], PageOf(codec, q, defaultStatistic, second, 1, []));
    SecondOfSum(t / SECOND, q.step);
    AcceptedExactlyWhen(codec, q, second + q.step);
    assert codec.encode(t / SECOND) != "";
  }

  lemma SecondOfSum(n: int, rest: int)
    requires 0 <= rest < SECOND
    ensures (n * SECOND + rest) / SECOND == n
  {
  }

  lemma StallIsEndless(codec: Codec<int>, q: Query, defaultStatistic: bool, n: nat)
    requires IsCodec(codec) && IsRange(q) && n <= 7200 && StallsAt(q, q.start + n * q.step)
    ensures IsEndless(codec, q, defaultStatistic)
  {
    var t := q.start + n * q.step;
    var again := StalledCall(codec, q, defaultStatistic, t);
    var calls: seq<Call> := [];
    if n > 0 {
      calls := [Call(q.start, n, [], PageOf(codec, q, defaultStatistic, q.start, n, []))];
      AcceptedExactlyWhen(codec, q, t);
      assert codec.encode(t / SECOND) != "";
      assert calls[1..] == [];
    } else {
      WholeSecond(t);
    }
    forall k: nat
      ensures HasChain(codec, q, defaultStatistic, k)
    {
      var long := Stutter(codec, q, defaultStatistic, calls, again, k + 1);
      PrefixIsLinked(codec, q, defaultStatistic, "", long, k);
      assert |long[..k]| == k;
    }
  }

  /** There is no bound on the length of chains exactly if the step is below a second and windows can
      stall: something to be seen from the range and the step alone. */
  lemma EndlessExactlyWhen(codec: Codec<int>, q: Query, defaultStatistic: bool)
    requires IsCodec(codec) && IsRange(q)
    ensures IsEndless(codec, q, defaultStatistic) <==> CanStall(q)
  {
    EndlessExactlyWhenStuck(codec, q, defaultStatistic);
    if IsEndless(codec, q, defaultStatistic) {
      var calls: seq<Call> :| Linked(codec, q, defaultStatistic, "", calls) && !Advance(q, calls);
      var i :| 0 <= i < |calls| - 1 && !LeavesItsSecond(q, calls[i]);
      StuckCanStall(codec, q, defaultStatistic, calls, i);
    }
    if n: nat :| n <= 7200 && StallsAt(q, q.start + n * q.step) {
      StallIsEndless(codec, q, defaultStatistic, n);
    }
  }

  /** With steps of a second or more there is a bound. */
  lemma LongStepsEnd(codec: Codec<int>, q: Query, defaultStatistic: bool, calls: seq<Call>)
    requires IsCodec(codec) && IsRange(q) && SECOND <= q.step && Linked(codec, q, defaultStatistic, "", calls)
    ensures |calls| <= SecondsLeft(q, q.start) && Advance(q, calls)
  {
    forall i | 0 <= i < |calls| - 1
      ensures LeavesItsSecond(q, calls[i])
    {
      WindowIsLong(q, calls[i].from, calls[i].limit);
      NextStart(codec, q, defaultStatistic, "", calls, i);
    }
    SecondsAreLeft(q);
    if calls != [] {
      ChainsEnd(codec, q, defaultStatistic, "", calls);
    }
  }

  lemma SecondsAreLeft(q: Query)
    requires IsRange(q)
    ensures 0 < SecondsLeft(q, q.start)
  {
  }

  /** Steps of a quarter of a second, one at a time: the window at second 5 comes again and again. */
  lemma ShortStepsNeverEnd(codec: Codec<int>, defaultStatistic: bool)
    requires IsCodec(codec)
    ensures IsEndless(codec, Query(5 * SECOND, 10 * SECOND, SECOND / 4), defaultStatistic)
  {
    var q := Query(5 * SECOND, 10 * SECOND, SECOND / 4);
    assert StallsAt(q, q.start + 0 * q.step);
    StallIsEndless(codec, q, defaultStatistic, 0);
  }

  /******* Chains brought to their end *******/

  lemma LongWindowsAdvance(codec: Codec<int>, q: Query, from: int, limit: int)
    requires IsCodec(codec) && IsRange(q) && 0 <= q.start <= from && SECOND <= LimitOf(limit) * q.step
    ensures var to := WindowEnd(q, from, limit);
      var next := NextToken(codec, q, to);
      && (next == "" <==> q.end <= to)
      && (to < q.end ==> WindowStart(codec, q, next) == Some(to / SECOND * SECOND) && from < to / SECOND * SECOND)
  {
    var to := WindowEnd(q, from, limit);
    assert codec.encode(to / SECOND) != "";
    if to < q.end {
      AcceptedExactlyWhen(codec, q, to);
      WholeSecond(to);
    }
  }

  lemma OneMore(codec: Codec<int>, q: Query, defaultStatistic: bool, calls: seq<Call>, from: int, limit: int, ask: (int, int) -> seq<Series>)
    returns (more: seq<Call>)
    requires Linked(codec, q, defaultStatistic, "", calls) && !Finished(calls) && WindowStart(codec, q, LastToken("", calls)) == Some(from)
    ensures Linked(codec, q, defaultStatistic, "", more) && calls < more
    ensures LastToken("", more) == NextToken(codec, q, WindowEnd(q, from, limit)) && (Finished(more) <==> LastToken("", more) == "")
  {
    var to := WindowEnd(q, from, limit);
    var call := Call(from, limit, ask(from, to), PageOf(codec, q, defaultStatistic, from, limit, ask(from, to)));
    LinkedExtends(codec, q, defaultStatistic, "", calls, call);
    more := calls + [call];
  }

  lemma {:induction false} FinishFrom(codec: Codec<int>, q: Query, defaultStatistic: bool, calls: seq<Call>, from: int, limit: int, ask: (int, int) -> seq<Series>)
    returns (all: seq<Call>)
    requires IsCodec(codec) && IsRange(q) && 0 <= q.start <= from && SECOND <= LimitOf(limit) * q.step
    requires Linked(codec, q, defaultStatistic, "", calls) && !Finished(calls) && WindowStart(codec, q, LastToken("", calls)) == Some(from)
    ensures calls <= all && Linked(codec, q, defaultStatistic, "", all) && Finished(all)
    decreases q.end - from
  {
    all := OneMore(codec, q, defaultStatistic, calls, from, limit, ask);
    LongWindowsAdvance(codec, q, from, limit);
    if LastToken("", all) != "" {
      all := FinishFrom(codec, q, defaultStatistic, all, WindowEnd(q, from, limit) / SECOND * SECOND, limit, ask);
    }
  }

  /** From the epoch on, an unfinished chain whose cursor is accepted can be brought to its end with any
      limit that makes windows of at least a second, whatever the provider answers. */
  lemma ChainsFinish(codec: Codec<int>, q: Query, defaultStatistic: bool, calls: seq<Call>, limit: int, ask: (int, int) -> seq<Series>)
    returns (all: seq<Call>)
    requires IsCodec(codec) && IsRange(q) && 0 <= q.start && SECOND <= LimitOf(limit) * q.step
    requires Linked(codec, q, defaultStatistic, "", calls) && !Finished(calls) && WindowStart(codec, q, LastToken("", calls)).Some?
    ensures calls <= all && Linked(codec, q, defaultStatistic, "", all) && Finished(all)
  {
    var from := WindowStart(codec, q, LastToken("", calls)).value;
    all := FinishFrom(codec, q, defaultStatistic, calls, from, limit, ask);
  }

  /** With steps of a second or more those are every unfinished chain and every limit. */
  lemma LongStepsFinish(codec: Codec<int>, q: Query, defaultStatistic: bool, calls: seq<Call>, limit: int, ask: (int, int) -> seq<Series>)
    returns (all: seq<Call>)
    requires IsCodec(codec) && IsRange(q) && 0 <= q.start && SECOND <= q.step
    requires Linked(codec, q, defaultStatistic, "", calls) && !Finished(calls)
    ensures calls <= all && Linked(codec, q, defaultStatistic, "", all) && Finished(all)
  {
    if calls != [] {
      var last := |calls| - 1;
      WindowIsInRange(codec, q, defaultStatistic, "", calls, last);
      PrefixIsLinked(codec, q, defaultStatistic, "", calls, last);
      assert calls[last..][0] == calls[last];
      CursorsAdvance(codec, q, calls[last].from, calls[last].limit);
    }
    WindowIsLong(q, 0, limit);
    all := ChainsFinish(codec, q, defaultStatistic, calls, limit, ask);
  }
}
