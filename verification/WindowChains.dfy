/** Following the metric cursors from window to window. */
module WindowChains {
  import opened Wrappers
  import opened Codecs
  import opened Windows

  /** A call with the reply it happened to get. */
  datatype Call = Call(from: int, limit: int, reply: seq<Series>, page: Page)

  /** The calls of a caller who follows the cursors from `token`. */
  ghost predicate Linked(codec: Codec<int>, q: Query, defaultStatistic: bool, token: string, calls: seq<Call>)
    decreases |calls|
  {
    calls == [] ||
    (&& WindowStart(codec, q, token) == Some(calls[0].from)
     && calls[0].page == PageOf(codec, q, defaultStatistic, calls[0].from, calls[0].limit, calls[0].reply)
     && (calls[0].page.nextToken == "" ==> |calls| == 1)
     && Linked(codec, q, defaultStatistic, calls[0].page.nextToken, calls[1..]))
  }

  ghost predicate Finished(calls: seq<Call>) { calls != [] && calls[|calls| - 1].page.nextToken == "" }

  predicate IsCovered(q: Query, t: int, call: Call) { call.from <= t < WindowEnd(q, call.from, call.limit) }

  /** The windows of a finished chain leave no gap: every instant of the range lies in one of them. */
  lemma {:induction false} WindowsCover(codec: Codec<int>, q: Query, defaultStatistic: bool, token: string, calls: seq<Call>, t: int)
    requires IsCodec(codec) && IsRange(q) && Linked(codec, q, defaultStatistic, token, calls) && Finished(calls)
    requires calls[0].from <= t < q.end
    ensures exists i :: 0 <= i < |calls| && IsCovered(q, t, calls[i])
    decreases |calls|
  {
    var to, rest := WindowEnd(q, calls[0].from, calls[0].limit), calls[1..];
    if IsCovered(q, t, calls[0]) {
    } else {
      assert to < q.end;
      AcceptedExactlyWhen(codec, q, to);
      assert codec.encode(to / SECOND) != "";
      assert rest[0].from <= to;
      WindowsCover(codec, q, defaultStatistic, calls[0].page.nextToken, rest, t);
      var i :| 0 <= i < |rest| && IsCovered(q, t, rest[i]);
      assert rest[i] == calls[i + 1];
    }
  }

  /******* Windows that overlap *******/

  /** The next window starts at the whole second where this one stops. */
  lemma {:induction false} NextStart(codec: Codec<int>, q: Query, defaultStatistic: bool, token: string, calls: seq<Call>, i: nat)
    requires IsCodec(codec) && IsRange(q) && Linked(codec, q, defaultStatistic, token, calls) && i + 1 < |calls|
    ensures var to := WindowEnd(q, calls[i].from, calls[i].limit);
      to < q.end && q.start <= calls[i + 1].from == to / SECOND * SECOND
    decreases |calls|
  {
    if i == 0 {
      AcceptedExactlyWhen(codec, q, WindowEnd(q, calls[0].from, calls[0].limit));
    } else {
      NextStart(codec, q, defaultStatistic, calls[0].page.nextToken, calls[1..], i - 1);
    }
  }

  /** Windows start within the range and do not stop where they start. */
  lemma {:induction false} WindowIsInRange(codec: Codec<int>, q: Query, defaultStatistic: bool, token: string, calls: seq<Call>, i: nat)
    requires IsRange(q) && Linked(codec, q, defaultStatistic, token, calls) && i < |calls|
    ensures q.start <= calls[i].from < WindowEnd(q, calls[i].from, calls[i].limit) <= q.end
    decreases |calls|
  {
    if i == 0 {
      WindowIsLong(q, calls[0].from, calls[0].limit);
    } else {
      WindowIsInRange(codec, q, defaultStatistic, calls[0].page.nextToken, calls[1..], i - 1);
    }
  }

  /** Every window that has a successor stops at a whole second. */
  ghost predicate EndsWhole(q: Query, calls: seq<Call>) {
    forall i :: 0 <= i < |calls| - 1 ==> WindowEnd(q, calls[i].from, calls[i].limit) % SECOND == 0
  }

  ghost predicate BothCover(q: Query, t: int, a: Call, b: Call) { IsCovered(q, t, a) && IsCovered(q, t, b) }

  /** No whole second lies in two windows, adjacent or not. */
  ghost predicate NoSecondTwice(q: Query, calls: seq<Call>) {
    forall seconds: int, i, j :: 0 <= i < j < |calls| ==> !BothCover(q, seconds * SECOND, calls[i], calls[j])
  }

  lemma {:induction false} LaterWindows(codec: Codec<int>, q: Query, defaultStatistic: bool, calls: seq<Call>, i: nat, j: nat)
    requires IsCodec(codec) && IsRange(q) && Linked(codec, q, defaultStatistic, "", calls) && EndsWhole(q, calls) && i < j < |calls|
    ensures WindowEnd(q, calls[i].from, calls[i].limit) <= calls[j].from
    decreases j
  {
    var to := WindowEnd(q, calls[j - 1].from, calls[j - 1].limit);
    NextStart(codec, q, defaultStatistic, "", calls, j - 1);
    assert to == to / SECOND * SECOND + to % SECOND;
    if i < j - 1 {
      LaterWindows(codec, q, defaultStatistic, calls, i, j - 1);
      WindowIsInRange(codec, q, defaultStatistic, "", calls, j - 1);
    }
  }

  /** If inner windows stop at whole seconds, no instant at all lies in two windows. */
  lemma WindowsAreDisjoint(codec: Codec<int>, q: Query, defaultStatistic: bool, calls: seq<Call>, t: int, i: nat, j: nat)
    requires IsCodec(codec) && IsRange(q) && Linked(codec, q, defaultStatistic, "", calls) && EndsWhole(q, calls) && i < j < |calls|
    ensures !BothCover(q, t, calls[i], calls[j])
  {
    LaterWindows(codec, q, defaultStatistic, calls, i, j);
  }

  /** A window that stops between seconds shares the second before with the next. */
  lemma OverlapIsCovered(codec: Codec<int>, q: Query, defaultStatistic: bool, calls: seq<Call>, i: nat)
    requires IsCodec(codec) && IsRange(q) && Linked(codec, q, defaultStatistic, "", calls) && i + 1 < |calls|
    requires WindowEnd(q, calls[i].from, calls[i].limit) % SECOND != 0
    ensures var to := WindowEnd(q, calls[i].from, calls[i].limit);
      BothCover(q, to / SECOND * SECOND, calls[i], calls[i + 1])
  {
    var from, to := calls[i].from, WindowEnd(q, calls[i].from, calls[i].limit);
    NextStart(codec, q, defaultStatistic, "", calls, i);
    WindowIsInRange(codec, q, defaultStatistic, "", calls, i);
    WindowIsInRange(codec, q, defaultStatistic, "", calls, i + 1);
    assert to == to / SECOND * SECOND + to % SECOND;
    if i > 0 {
      NextStart(codec, q, defaultStatistic, "", calls, i - 1);
      WholeIsBelow(WindowEnd(q, calls[i - 1].from, calls[i - 1].limit) / SECOND, to);
    }
  }

  lemma WholeIsBelow(n: int, to: int)
    requires n * SECOND < to
    ensures n * SECOND <= to / SECOND * SECOND
  {
  }

  /** Along a chain, over any range, no whole second lies in two windows exactly if every window that
      has a successor stops at a whole second. */
  lemma SecondsComeOnceExactlyWhen(codec: Codec<int>, q: Query, defaultStatistic: bool, calls: seq<Call>)
    requires IsCodec(codec) && IsRange(q) && Linked(codec, q, defaultStatistic, "", calls)
    ensures NoSecondTwice(q, calls) <==> EndsWhole(q, calls)
  {
    if EndsWhole(q, calls) {
      forall seconds: int, i, j | 0 <= i < j < |calls|
        ensures !BothCover(q, seconds * SECOND, calls[i], calls[j])
      {
        WindowsAreDisjoint(codec, q, defaultStatistic, calls, seconds * SECOND, i, j);
      }
    }
    if NoSecondTwice(q, calls) {
      forall i | 0 <= i < |calls| - 1
        ensures WindowEnd(q, calls[i].from, calls[i].limit) % SECOND == 0
      {
        if WindowEnd(q, calls[i].from, calls[i].limit) % SECOND != 0 {
          OverlapIsCovered(codec, q, defaultStatistic, calls, i);
        }
      }
    }
  }

  /** The range starts at a whole second of the epoch, and steps are whole seconds. */
  predicate IsWhole(q: Query) { 0 <= q.start && q.start % SECOND == 0 && q.step % SECOND == 0 }

  lemma WholeWindowsEndWhole(q: Query, from: int, limit: int)
    requires IsRange(q) && IsWhole(q) && from % SECOND == 0
    ensures (from + LimitOf(limit) * q.step) % SECOND == 0
  {
    var n, k := LimitOf(limit), q.step / SECOND;
    assert q.step == k * SECOND;
    assert n * q.step == n * k * SECOND;
    assert from == from / SECOND * SECOND;
    assert from + n * q.step == (from / SECOND + n * k) * SECOND;
    MultipleIsWhole(from / SECOND + n * k);
  }

  lemma MultipleIsWhole(n: int)
    ensures n * SECOND % SECOND == 0
  {
  }

  /** Over whole seconds every window that has a successor stops at a whole second. */
  lemma WholeQueriesEndWhole(codec: Codec<int>, q: Query, defaultStatistic: bool, calls: seq<Call>)
    requires IsCodec(codec) && IsRange(q) && IsWhole(q) && Linked(codec, q, defaultStatistic, "", calls)
    ensures EndsWhole(q, calls)
  {
    forall i | 0 <= i < |calls| - 1
      ensures WindowEnd(q, calls[i].from, calls[i].limit) % SECOND == 0
    {
      WindowEndsWhole(codec, q, defaultStatistic, calls, i);
    }
  }

  lemma {:induction false} WindowEndsWhole(codec: Codec<int>, q: Query, defaultStatistic: bool, calls: seq<Call>, i: nat)
    requires IsCodec(codec) && IsRange(q) && IsWhole(q) && Linked(codec, q, defaultStatistic, "", calls) && i + 1 < |calls|
    ensures calls[i].from % SECOND == 0 && WindowEnd(q, calls[i].from, calls[i].limit) % SECOND == 0
  {
    if i > 0 {
      WindowEndsWhole(codec, q, defaultStatistic, calls, i - 1);
      NextStart(codec, q, defaultStatistic, "", calls, i - 1);
      MultipleIsWhole(WindowEnd(q, calls[i - 1].from, calls[i - 1].limit) / SECOND);
    }
    NextStart(codec, q, defaultStatistic, "", calls, i);
    WholeWindowsEndWhole(q, calls[i].from, calls[i].limit);
  }

  /******* Samples *******/

  function Rows(calls: seq<Call>): seq<Sample> { if calls == [] then [] else calls[0].page.rows + Rows(calls[1..]) }

  /** Two lists that split each in two, joined. */
  lemma JoinSplits(a: seq<Sample>, a1: seq<Sample>, a2: seq<Sample>, b: seq<Sample>, b1: seq<Sample>, b2: seq<Sample>)
    requires multiset(a) == multiset(a1) + multiset(a2) && multiset(b) == multiset(b1) + multiset(b2)
    ensures multiset(a + b) == multiset(a1 + b1) + multiset(a2 + b2)
  {
  }

  lemma {:induction false} GatherSplits(pick: nat -> seq<Sample>, pick1: nat -> seq<Sample>, pick2: nat -> seq<Sample>, n: nat)
    requires forall i: nat :: i < n ==> multiset(pick(i)) == multiset(pick1(i)) + multiset(pick2(i))
    ensures multiset(Gather(pick, n)) == multiset(Gather(pick1, n)) + multiset(Gather(pick2, n))
  {
    if n > 0 {
      GatherSplits(pick, pick1, pick2, n - 1);
      JoinSplits(Gather(pick, n - 1), Gather(pick1, n - 1), Gather(pick2, n - 1), pick(n - 1), pick1(n - 1), pick2(n - 1));
    }
  }

  lemma SeriesSplits(s: Series, values: seq<real>, from: int, mid: int, to: int)
    requires from <= mid <= to
    ensures multiset(SamplesOf(s, values, from, to)) == multiset(SamplesOf(s, values, from, mid)) + multiset(SamplesOf(s, values, mid, to))
  {
    GatherSplits(Picking(s, values, from, to), Picking(s, values, from, mid), Picking(s, values, mid, to), |s.timestamps|);
  }

  lemma {:induction false} SamplesSplit(all: seq<Series>, defaultStatistic: bool, from: int, mid: int, to: int)
    requires from <= mid <= to
    ensures multiset(SamplesIn(all, defaultStatistic, from, to))
      == multiset(SamplesIn(all, defaultStatistic, from, mid)) + multiset(SamplesIn(all, defaultStatistic, mid, to))
  {
    if all != [] {
      var n := |all| - 1;
      SamplesSplit(all[..n], defaultStatistic, from, mid, to);
      var s, values := all[n], ValuesOf(all[n], defaultStatistic);
      SeriesSplits(s, values, from, mid, to);
      JoinSplits(SamplesIn(all[..n], defaultStatistic, from, to), SamplesIn(all[..n], defaultStatistic, from, mid),
                 SamplesIn(all[..n], defaultStatistic, mid, to),
                 SamplesOf(s, values, from, to), SamplesOf(s, values, from, mid), SamplesOf(s, values, mid, to));
    }
  }

  /** The reply holds, inside its window, the samples of a world that does not change. */
  ghost predicate IsServed(q: Query, defaultStatistic: bool, world: seq<Series>, call: Call) {
    var to := WindowEnd(q, call.from, call.limit);
    multiset(SamplesIn(call.reply, defaultStatistic, call.from, to)) == multiset(SamplesIn(world, defaultStatistic, call.from, to))
  }

  ghost predicate ServedFrom(q: Query, defaultStatistic: bool, world: seq<Series>, calls: seq<Call>) {
    forall i :: 0 <= i < |calls| ==> IsServed(q, defaultStatistic, world, calls[i])
  }

  /** The samples between the second where a window's cursor leads and the window's end, for every
      window that has a successor. */
  function Repeated(q: Query, defaultStatistic: bool, world: seq<Series>, calls: seq<Call>): multiset<Sample> {
    if |calls| <= 1 then multiset{}
    else
      var to := WindowEnd(q, calls[0].from, calls[0].limit);
      multiset(SamplesIn(world, defaultStatistic, to / SECOND * SECOND, to)) + Repeated(q, defaultStatistic, world, calls[1..])
  }

  /** A window takes what is held before its end; the next starts earlier, by the overlap. */
  lemma TakeWindow(rows: multiset<Sample>, rest: multiset<Sample>, all: multiset<Sample>, held: multiset<Sample>, later: multiset<Sample>,
                   overlap: multiset<Sample>, again: multiset<Sample>)
    requires all == held + later && rows == held && rest == (overlap + later) + again
    ensures rows + rest == all + (overlap + again)
  {
  }

  lemma RestOfChain(codec: Codec<int>, q: Query, defaultStatistic: bool, token: string, calls: seq<Call>)
    requires IsCodec(codec) && IsRange(q) && Linked(codec, q, defaultStatistic, token, calls) && Finished(calls)
    ensures var to := WindowEnd(q, calls[0].from, calls[0].limit);
      if |calls| == 1 then to == q.end else to < q.end && Finished(calls[1..]) && calls[1].from == to / SECOND * SECOND <= to
  {
    var to := WindowEnd(q, calls[0].from, calls[0].limit);
    assert codec.encode(to / SECOND) != "";
    if |calls| > 1 {
      NextStart(codec, q, defaultStatistic, token, calls, 0);
    }
  }

  lemma {:induction false} RowsFrom(codec: Codec<int>, q: Query, defaultStatistic: bool, world: seq<Series>, token: string, calls: seq<Call>)
    requires IsCodec(codec) && IsRange(q) && Linked(codec, q, defaultStatistic, token, calls) && Finished(calls)
    requires ServedFrom(q, defaultStatistic, world, calls)
    ensures multiset(Rows(calls))
      == multiset(SamplesIn(world, defaultStatistic, calls[0].from, q.end)) + Repeated(q, defaultStatistic, world, calls)
    decreases |calls|
  {
    var from, to, rest := calls[0].from, WindowEnd(q, calls[0].from, calls[0].limit), calls[1..];
    RestOfChain(codec, q, defaultStatistic, token, calls);
    WindowIsInRange(codec, q, defaultStatistic, token, calls, 0);
    assert IsServed(q, defaultStatistic, world, calls[0]);
    if |calls| == 1 {
      assert Rows(calls) == calls[0].page.rows + [];
    } else {
      var start := to / SECOND * SECOND;
      assert forall i :: 0 <= i < |rest| ==> rest[i] == calls[i + 1];
      RowsFrom(codec, q, defaultStatistic, world, calls[0].page.nextToken, rest);
      SamplesSplit(world, defaultStatistic, from, to, q.end);
      SamplesSplit(world, defaultStatistic, start, to, q.end);
      TakeWindow(multiset(calls[0].page.rows), multiset(Rows(rest)), multiset(SamplesIn(world, defaultStatistic, from, q.end)),
                 multiset(SamplesIn(world, defaultStatistic, from, to)), multiset(SamplesIn(world, defaultStatistic, to, q.end)),
                 multiset(SamplesIn(world, defaultStatistic, start, to)), Repeated(q, defaultStatistic, world, rest));
    }
  }

  /** Over any range a finished chain delivers every sample of the range, and once more exactly those
      in the overlaps of its windows: nothing is ever lost. */
  lemma ChainsDeliverSamplesAndOverlaps(codec: Codec<int>, q: Query, defaultStatistic: bool, world: seq<Series>, calls: seq<Call>)
    requires IsCodec(codec) && IsRange(q) && Linked(codec, q, defaultStatistic, "", calls) && Finished(calls)
    requires ServedFrom(q, defaultStatistic, world, calls)
    ensures multiset(Rows(calls)) == multiset(SamplesIn(world, defaultStatistic, q.start, q.end)) + Repeated(q, defaultStatistic, world, calls)
    ensures multiset(SamplesIn(world, defaultStatistic, q.start, q.end)) <= multiset(Rows(calls))
  {
    RowsFrom(codec, q, defaultStatistic, world, "", calls);
  }

  lemma RestEndsWhole(q: Query, calls: seq<Call>)
    requires EndsWhole(q, calls) && 1 < |calls|
    ensures WindowEnd(q, calls[0].from, calls[0].limit) % SECOND == 0 && EndsWhole(q, calls[1..])
  {
    assert forall i :: 0 <= i < |calls[1..]| ==> calls[1..][i] == calls[i + 1];
  }

  lemma WholeOverlapsAreEmpty(world: seq<Series>, defaultStatistic: bool, to: int)
    requires to % SECOND == 0
    ensures SamplesIn(world, defaultStatistic, to / SECOND * SECOND, to) == []
  {
    NothingIsLeft(world, defaultStatistic, to);
    assert to / SECOND * SECOND == to;
  }

  lemma {:induction false} NothingIsRepeated(q: Query, defaultStatistic: bool, world: seq<Series>, calls: seq<Call>)
    requires EndsWhole(q, calls)
    ensures Repeated(q, defaultStatistic, world, calls) == multiset{}
  {
    if 1 < |calls| {
      RestEndsWhole(q, calls);
      WholeOverlapsAreEmpty(world, defaultStatistic, WindowEnd(q, calls[0].from, calls[0].limit));
      NothingIsRepeated(q, defaultStatistic, world, calls[1..]);
    }
  }

  /** If inner windows stop at whole seconds, so for every query over whole seconds, a finished chain
      delivers every sample of the range exactly once. */
  lemma ChainsDeliverEverySample(codec: Codec<int>, q: Query, defaultStatistic: bool, world: seq<Series>, calls: seq<Call>)
    requires IsCodec(codec) && IsRange(q) && Linked(codec, q, defaultStatistic, "", calls) && Finished(calls)
    requires ServedFrom(q, defaultStatistic, world, calls) && (IsWhole(q) || EndsWhole(q, calls))
    ensures multiset(Rows(calls)) == multiset(SamplesIn(world, defaultStatistic, q.start, q.end))
  {
    if IsWhole(q) {
      WholeQueriesEndWhole(codec, q, defaultStatistic, calls);
    }
    ChainsDeliverSamplesAndOverlaps(codec, q, defaultStatistic, world, calls);
    NothingIsRepeated(q, defaultStatistic, world, calls);
  }

  lemma {:induction false} NothingIsGathered(s: Series, values: seq<real>, n: nat, t: int)
    ensures Gather(Picking(s, values, t, t), n) == []
  {
    if n > 0 {
      NothingIsGathered(s, values, n - 1, t);
    }
  }

  lemma {:induction false} NothingIsLeft(all: seq<Series>, defaultStatistic: bool, t: int)
    ensures SamplesIn(all, defaultStatistic, t, t) == []
  {
    if all != [] {
      var s := all[|all| - 1];
      NothingIsLeft(all[..|all| - 1], defaultStatistic, t);
      NothingIsGathered(s, ValuesOf(s, defaultStatistic), |s.timestamps|, t);
    }
  }
}
