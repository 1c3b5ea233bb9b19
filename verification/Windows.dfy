/** Metric samples read one time window after the other: internal/providers/tencent_sources.go. */
module Windows {
  import opened Wrappers
  import opened Sequences
  import opened Codecs

  /** Instants are nanoseconds of the epoch. */
  const SECOND := 1_000_000_000

  const DEFAULT_STEP := 300 * SECOND

  /** A query whose range is not empty. */
  datatype Query = Query(start: int, end: int, step: int)

  ghost predicate IsRange(q: Query) { q.start < q.end && 0 < q.step }

  function StepOf(step: int): (n: int)
    ensures 0 < n
  {
    if step <= 0 then DEFAULT_STEP else step
  }

  function LimitOf(limit: int): (n: nat)
    ensures 1 <= n <= 7200
  {
    if limit <= 0 || limit > 7200 then 500 else limit
  }

  /** A cursor holds the whole seconds of the instant where the next window starts. */
  function WindowStart(codec: Codec<int>, q: Query, token: string): Option<int> {
    if token == "" then Some(q.start)
    else match codec.decode(token)
      case None => None
      case Some(seconds) =>
        if seconds <= 0 || seconds * SECOND < q.start || q.end <= seconds * SECOND then None else Some(seconds * SECOND)
  }

  function WindowEnd(q: Query, from: int, limit: int): int { Min(from + LimitOf(limit) * q.step, q.end) }

  function NextToken(codec: Codec<int>, q: Query, to: int): string {
    if to < q.end then codec.encode(to / SECOND) else ""
  }

  /******* Samples *******/

  datatype Series = Series(dimensions: map<string, string>, timestamps: seq<int>, values: seq<real>, avgValues: seq<real>)

  datatype Sample = Sample(dimensions: map<string, string>, seconds: int, value: real)

  /** The values that are read: averages, unless there are none or the namespace has only its default statistic. */
  function ValuesOf(s: Series, defaultStatistic: bool): seq<real> {
    if defaultStatistic || s.avgValues == [] then s.values else s.avgValues
  }

  predicate InWindow(seconds: int, from: int, to: int) { from <= seconds * SECOND < to }

  function SampleAt(s: Series, values: seq<real>, i: nat, from: int, to: int): seq<Sample> {
    if i < |s.timestamps| && i < |values| && InWindow(s.timestamps[i], from, to) then [Sample(s.dimensions, s.timestamps[i], values[i])] else []
  }

  function Picking(s: Series, values: seq<real>, from: int, to: int): nat -> seq<Sample> {
    (i: nat) => SampleAt(s, values, i, from, to)
  }

  function Gather(pick: nat -> seq<Sample>, n: nat): seq<Sample> {
    if n == 0 then [] else Gather(pick, n - 1) + pick(n - 1)
  }

  /** The samples of a series that lie in the window and have a value. */
  function SamplesOf(s: Series, values: seq<real>, from: int, to: int): seq<Sample> {
    Gather(Picking(s, values, from, to), |s.timestamps|)
  }

  function SamplesIn(all: seq<Series>, defaultStatistic: bool, from: int, to: int): seq<Sample> {
    if all == [] then []
    else
      var s := all[|all| - 1];
      SamplesIn(all[..|all| - 1], defaultStatistic, from, to) + SamplesOf(s, ValuesOf(s, defaultStatistic), from, to)
  }

  lemma {:induction false} NoMoreValues(s: Series, values: seq<real>, n: nat, from: int, to: int)
    requires |values| <= n
    ensures Gather(Picking(s, values, from, to), n) == Gather(Picking(s, values, from, to), |values|)
  {
    if n > |values| {
      NoMoreValues(s, values, n - 1, from, to);
    }
  }

  method ReadSeries(s: Series, values: seq<real>, from: int, to: int) returns (rows: seq<Sample>)
    ensures rows == SamplesOf(s, values, from, to)
  {
    rows := [];
    var i := 0;
    while i < |s.timestamps|
      invariant 0 <= i <= |s.timestamps|
      invariant rows == Gather(Picking(s, values, from, to), i)
    {
      var instant := s.timestamps[i] * SECOND;
      if instant < from || to <= instant {
        i := i + 1;
        continue;
      }
      if i >= |values| {
        NoMoreValues(s, values, i, from, to);
        NoMoreValues(s, values, |s.timestamps|, from, to);
        return;
      }
      rows := rows + [Sample(s.dimensions, s.timestamps[i], values[i])];
      i := i + 1;
    }
  }

  method ReadSamples(all: seq<Series>, defaultStatistic: bool, from: int, to: int) returns (rows: seq<Sample>)
    ensures rows == SamplesIn(all, defaultStatistic, from, to)
  {
    rows := [];
    for i := 0 to |all|
      invariant rows == SamplesIn(all[..i], defaultStatistic, from, to)
    {
      var s := all[i];
      var values := s.avgValues;
      if defaultStatistic || |values| == 0 { values := s.values; }
      var more := ReadSeries(s, values, from, to);
      assert all[..i + 1][..i] == all[..i];
      rows := rows + more;
    }
    assert all[..|all|] == all;
  }

  datatype Page = Page(rows: seq<Sample>, nextToken: string, scanned: nat)

  datatype Failure = InvalidCursor

  function PageOf(codec: Codec<int>, q: Query, defaultStatistic: bool, from: int, limit: int, reply: seq<Series>): Page {
    var to := WindowEnd(q, from, limit);
    var rows := SamplesIn(reply, defaultStatistic, from, to);
    Page(rows, NextToken(codec, q, to), |rows|)
  }

  /** `queryMetrics`: `ask` is the provider's answer for a window. */
  method QueryMetrics(codec: Codec<int>, start: int, end: int, step: int, token: string, limit: int, defaultStatistic: bool,
                      ask: (int, int) -> seq<Series>) returns (result: Result<Page, Failure>)
    requires start < end
    ensures var q := Query(start, end, StepOf(step));
      result == match WindowStart(codec, q, token)
        case None => Err(InvalidCursor)
        case Some(from) => Ok(PageOf(codec, q, defaultStatistic, from, limit, ask(from, WindowEnd(q, from, limit))))
  {
    var stride := step;
    if stride <= 0 { stride := DEFAULT_STEP; }
    var pageStart := start;
    if token != "" {
      var cursor := codec.decode(token);
      if cursor.None? || cursor.value <= 0 { return Err(InvalidCursor); }
      pageStart := cursor.value * SECOND;
      if pageStart < start || !(pageStart < end) { return Err(InvalidCursor); }
    }
    var n := limit;
    if n <= 0 || n > 7200 { n := 500; }
    var pageEnd := pageStart + n * stride;
    if end < pageEnd { pageEnd := end; }
    var rows := ReadSamples(ask(pageStart, pageEnd), defaultStatistic, pageStart, pageEnd);
    var next := "";
    if pageEnd < end { next := codec.encode(pageEnd / SECOND); }
    result := Ok(Page(rows, next, |rows|));
  }

  /******* One cursor *******/

  /** The cursor of a window that stops at `to` starts the next at the whole second of `to`, if that
      is after the epoch and not before the range; otherwise it is rejected. */
  lemma AcceptedExactlyWhen(codec: Codec<int>, q: Query, to: int)
    requires IsCodec(codec) && to < q.end
    ensures WindowStart(codec, q, NextToken(codec, q, to))
      == if 0 < to / SECOND && q.start <= to / SECOND * SECOND then Some(to / SECOND * SECOND) else None
  {
    assert codec.encode(to / SECOND) != "" && codec.decode(codec.encode(to / SECOND)) == Some(to / SECOND);
    assert to == to / SECOND * SECOND + to % SECOND;
  }

  /** A window that stops in the first second of the epoch, and one that stops in the second in which a
      range starts: the cursors that they hand out are rejected. */
  lemma CursorsAreRejected(codec: Codec<int>)
    requires IsCodec(codec)
    ensures var q := Query(-SECOND, 10 * SECOND, SECOND);
      var next := NextToken(codec, q, WindowEnd(q, q.start, 1));
      next != "" && WindowStart(codec, q, next) == None
    ensures var q := Query(3 * SECOND / 2, 10 * SECOND, SECOND / 4);
      var next := NextToken(codec, q, WindowEnd(q, q.start, 1));
      next != "" && WindowStart(codec, q, next) == None
  {
    assert codec.encode(0) != "" && codec.encode(1) != "";
    AcceptedExactlyWhen(codec, Query(-SECOND, 10 * SECOND, SECOND), 0);
    AcceptedExactlyWhen(codec, Query(3 * SECOND / 2, 10 * SECOND, SECOND / 4), 7 * SECOND / 4);
  }

  lemma WindowIsLong(q: Query, from: int, limit: int)
    requires 0 < q.step
    ensures from + q.step <= from + LimitOf(limit) * q.step
  {
    var n := LimitOf(limit);
    assert n * q.step == q.step + (n - 1) * q.step && 0 <= (n - 1) * q.step;
  }

  /** With steps of a second or more, in a range that starts at the epoch or later, every cursor is
      accepted and every window starts after the one before. */
  lemma CursorsAdvance(codec: Codec<int>, q: Query, from: int, limit: int)
    requires IsCodec(codec) && SECOND <= q.step && 0 <= q.start <= from < q.end && WindowEnd(q, from, limit) < q.end
    ensures var to := WindowEnd(q, from, limit);
      WindowStart(codec, q, NextToken(codec, q, to)) == Some(to / SECOND * SECOND) && from < to / SECOND * SECOND <= to
  {
    var to := WindowEnd(q, from, limit);
    WindowIsLong(q, from, limit);
    AcceptedExactlyWhen(codec, q, to);
    assert to == to / SECOND * SECOND + to % SECOND;
  }

  /** Two windows, the second starting where the cursor of the first leads, share a whole second
      exactly if the first stops between seconds. */
  lemma WindowsOverlapExactlyWhen(from: int, to: int, to': int)
    requires from <= to / SECOND * SECOND < to'
    ensures (exists seconds: int :: InWindow(seconds, from, to) && InWindow(seconds, to / SECOND * SECOND, to')) <==> to % SECOND != 0
  {
    assert to == to / SECOND * SECOND + to % SECOND;
    if to % SECOND != 0 {
      assert InWindow(to / SECOND, from, to) && InWindow(to / SECOND, to / SECOND * SECOND, to');
    }
  }

  /** A range that starts between seconds: the sample at second 2 lies in the first window and again
      in the second. */
  lemma SampleIsDeliveredTwice(codec: Codec<int>)
    requires IsCodec(codec)
    ensures var q := Query(3 * SECOND / 2, 10 * SECOND, SECOND);
      var to := WindowEnd(q, q.start, 1);
      var second := WindowStart(codec, q, NextToken(codec, q, to));
      && second == Some(2 * SECOND)
      && InWindow(2, q.start, to) && InWindow(2, second.value, WindowEnd(q, second.value, 1))
  {
    var q := Query(3 * SECOND / 2, 10 * SECOND, SECOND);
    AcceptedExactlyWhen(codec, q, WindowEnd(q, q.start, 1));
  }
}
