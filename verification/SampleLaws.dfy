/** Which samples a metric window holds, one by one, and how long a window is. */
module SampleLaws {
  import opened Windows

  /** The list of values that is read: averages, unless there are none or the namespace has no others. */
  predicate IsReadFrom(s: Series, defaultStatistic: bool, values: seq<real>) {
    if !defaultStatistic && |s.avgValues| > 0 then values == s.avgValues else values == s.values
  }

  /** The sample at index `i` of a series, its second lying in the window. */
  ghost predicate IsSampleAt(s: Series, values: seq<real>, i: nat, from: int, to: int, x: Sample) {
    && i < |s.timestamps| && i < |values|
    && from <= s.timestamps[i] * 1_000_000_000 < to
    && x.dimensions == s.dimensions && x.seconds == s.timestamps[i] && x.value == values[i]
  }

  lemma {:induction false} GatheredExactlyWhen(s: Series, values: seq<real>, from: int, to: int, n: nat, x: Sample)
    ensures x in Gather(Picking(s, values, from, to), n) <==> exists i: nat :: i < n && IsSampleAt(s, values, i, from, to, x)
  {
    if n > 0 {
      GatheredExactlyWhen(s, values, from, to, n - 1, x);
      assert x in SampleAt(s, values, n - 1, from, to) <==> IsSampleAt(s, values, n - 1, from, to, x);
    }
  }

  ghost predicate IsSampleOf(s: Series, defaultStatistic: bool, from: int, to: int, x: Sample) {
    exists values: seq<real>, i: nat :: IsReadFrom(s, defaultStatistic, values) && IsSampleAt(s, values, i, from, to, x)
  }

  lemma OfSeriesExactlyWhen(s: Series, defaultStatistic: bool, from: int, to: int, x: Sample)
    ensures x in SamplesOf(s, ValuesOf(s, defaultStatistic), from, to) <==> IsSampleOf(s, defaultStatistic, from, to, x)
  {
    GatheredExactlyWhen(s, ValuesOf(s, defaultStatistic), from, to, |s.timestamps|, x);
    assert IsReadFrom(s, defaultStatistic, ValuesOf(s, defaultStatistic));
  }

  /** A window holds a sample exactly if some series has it, at a second in the window. */
  lemma {:induction false} SampledExactlyWhen(all: seq<Series>, defaultStatistic: bool, from: int, to: int, x: Sample)
    ensures x in SamplesIn(all, defaultStatistic, from, to) <==> exists k :: 0 <= k < |all| && IsSampleOf(all[k], defaultStatistic, from, to, x)
  {
    if all != [] {
      var n := |all| - 1;
      SampledExactlyWhen(all[..n], defaultStatistic, from, to, x);
      OfSeriesExactlyWhen(all[n], defaultStatistic, from, to, x);
      if k :| 0 <= k < |all[..n]| && IsSampleOf(all[..n][k], defaultStatistic, from, to, x) {
        assert all[k] == all[..n][k];
      }
      if k :| 0 <= k < |all| && IsSampleOf(all[k], defaultStatistic, from, to, x) {
        assert k < n ==> all[..n][k] == all[k];
      }
    }
  }

  /** A window is as many steps long as samples were asked for, 500 if that is no number from 1 to 7200, and
      ends with the range at the latest; a step that is not positive is five minutes. */
  lemma WindowLength(start: int, end: int, step: int, from: int, limit: int)
    ensures var q := Query(start, end, StepOf(step));
      var n := if 1 <= limit <= 7200 then limit else 500;
      var stride := if step > 0 then step else 300_000_000_000;
      var to := WindowEnd(q, from, limit);
      to <= end && to <= from + n * stride && (to == end || to == from + n * stride)
  {
  }
}
