/** What a run of the fan-out means for the answer: its sends are an order of arrival of the targets'
    results, and its counters are the coverage of the answer. */
module FanOutResults {
  import opened Values
  import opened Results
  import opened AggregationLaws
  import opened Fetching
  import opened Queries
  import opened QueryLaws
  import FanOut

  /** Some results, picked by index. */
  function Picked(results: seq<Outcome>, picks: seq<nat>): seq<Outcome>
    requires forall k :: 0 <= k < |picks| ==> picks[k] < |results|
  {
    seq(|picks|, k requires 0 <= k < |picks| => results[picks[k]])
  }

  /** The numbers below `n`, each once. */
  ghost predicate AreOnceBelow(picks: seq<nat>, n: nat) {
    && |picks| == n && (forall j :: 0 <= j < |picks| ==> picks[j] < n)
    && (forall i, j :: 0 <= i < j < |picks| ==> picks[i] != picks[j])
    && (forall i :: 0 <= i < n ==> i in picks)
  }

  lemma OnceBelowWithoutLast(picks: seq<nat>, n: nat, k: nat)
    requires AreOnceBelow(picks, n) && k < |picks| && picks[k] == n - 1
    ensures AreOnceBelow(Without(picks, k), n - 1)
  {
    var rest := Without(picks, k);
    assert forall j :: 0 <= j < |rest| ==> rest[j] == picks[if j < k then j else j + 1];
    forall i | 0 <= i < n - 1
      ensures i in rest
    {
      assert i in picks;
      var j :| 0 <= j < |picks| && picks[j] == i;
      assert rest[if j < k then j else j - 1] == i;
    }
  }

  lemma PickWithoutLast(results: seq<Outcome>, picks: seq<nat>, k: nat)
    requires AreOnceBelow(picks, |results|) && k < |picks| && picks[k] == |results| - 1 && AreOnceBelow(Without(picks, k), |results| - 1)
    ensures Without(Picked(results, picks), k) == Picked(results[..|results| - 1], Without(picks, k))
  {
  }

  /** Every result once, in any order, is the results. */
  lemma {:induction false} PickedOnce(results: seq<Outcome>, picks: seq<nat>)
    requires AreOnceBelow(picks, |results|)
    ensures multiset(Picked(results, picks)) == multiset(results)
    decreases |results|
  {
    if results != [] {
      var n := |results| - 1;
      assert n in picks;
      var k :| 0 <= k < |picks| && picks[k] == n;
      OnceBelowWithoutLast(picks, |results|, k);
      PickWithoutLast(results, picks, k);
      PickedOnce(results[..n], Without(picks, k));
      WithoutCounts(Picked(results, picks), k);
      assert results == results[..n] + [results[n]];
    }
  }

  function TargetsOf(sent: seq<FanOut.Outcome>): seq<nat> { seq(|sent|, k requires 0 <= k < |sent| => sent[k].target) }

  /** A run of the fan-out that has returned received every target's result once: in the order in
      which they were sent, they are an order of arrival of the results. */
  lemma SentIsAnOrder(cfg: FanOut.Config, states: seq<FanOut.State>, steps: seq<FanOut.Step>, k: nat, results: seq<Outcome>)
    requires FanOut.IsRun(cfg, states, steps) && k < |states| && states[k].main.Returned? && |results| == cfg.targets
    ensures forall j :: 0 <= j < |TargetsOf(states[k].sent)| ==> TargetsOf(states[k].sent)[j] < |results|
    ensures multiset(Picked(results, TargetsOf(states[k].sent))) == multiset(results)
  {
    var sent := states[k].sent;
    FanOut.EveryTargetIsAccounted(cfg, states, steps, k);
    forall i | 0 <= i < |results|
      ensures i in TargetsOf(sent)
    {
      assert FanOut.IsFrom(sent, i);
      var j :| 0 <= j < |sent| && sent[j].target == i;
      assert TargetsOf(sent)[j] == i;
    }
    PickedOnce(results, TargetsOf(sent));
  }

  /******* Who gives up *******/

  /** The target gives up, or comes to the end of its fetching. */
  predicate Decides(step: FanOut.Step, i: nat) { step == FanOut.GiveUp(i) || (step.Finish? && step.who == i) }

  predicate IsDecided(pc: FanOut.Pc) { pc.Sending? || pc.HasSent() }

  lemma StepKeepsDecided(cfg: FanOut.Config, s: FanOut.State, step: FanOut.Step, i: nat)
    requires i < |s.pcs| && FanOut.SpawnsAfresh(s, step) && FanOut.Enabled(cfg, s, step)
    ensures i < |FanOut.Apply(cfg, s, step).pcs|
    ensures IsDecided(s.pcs[i]) ==> IsDecided(FanOut.Apply(cfg, s, step).pcs[i]) && !Decides(step, i)
    ensures Decides(step, i) ==> IsDecided(FanOut.Apply(cfg, s, step).pcs[i])
  {
  }

  lemma {:induction false} StaysDecided(cfg: FanOut.Config, states: seq<FanOut.State>, steps: seq<FanOut.Step>, j: nat, k: nat, i: nat)
    requires FanOut.IsRun(cfg, states, steps) && j <= k < |states| && i < |states[j].pcs| && IsDecided(states[j].pcs[i])
    ensures i < |states[k].pcs| && IsDecided(states[k].pcs[i])
    decreases k
  {
    if j < k {
      StaysDecided(cfg, states, steps, j, k - 1, i);
      FanOut.RunKeepsInv(cfg, states, steps, k - 1);
      assert FanOut.IsStep(cfg, states[k - 1], steps[k - 1], states[k]);
      StepKeepsDecided(cfg, states[k - 1], steps[k - 1], i);
    }
  }

  /** A target gives up or finishes once, and never both. */
  lemma DecidesOnce(cfg: FanOut.Config, states: seq<FanOut.State>, steps: seq<FanOut.Step>, j: nat, k: nat, i: nat)
    requires FanOut.IsRun(cfg, states, steps) && j < |steps| && k < |steps| && Decides(steps[j], i) && Decides(steps[k], i)
    ensures j == k
  {
    var first, later := if j < k then j else k, if j < k then k else j;
    FanOut.RunKeepsInv(cfg, states, steps, first);
    FanOut.RunKeepsInv(cfg, states, steps, later);
    assert FanOut.IsStep(cfg, states[first], steps[first], states[first + 1]);
    assert FanOut.IsStep(cfg, states[later], steps[later], states[later + 1]);
    StepKeepsDecided(cfg, states[first], steps[first], i);
    if first < later {
      StaysDecided(cfg, states, steps, first + 1, later, i);
      StepKeepsDecided(cfg, states[later], steps[later], i);
    }
  }

  /******* What is reported *******/

  /** A target fails if it gives up, and otherwise as its result says. */
  predicate IsReport(step: FanOut.Step, results: seq<Outcome>) {
    match step
    case GiveUp(i) => i < |results| ==> results[i].err.Some?
    case Finish(i, failed) => i < |results| ==> failed == results[i].err.Some?
    case _ => true
  }

  ghost predicate Reports(steps: seq<FanOut.Step>, results: seq<Outcome>) { forall j :: 0 <= j < |steps| ==> IsReport(steps[j], results) }

  predicate PcAgrees(pc: FanOut.Pc, result: Outcome) { pc.Sending? ==> pc.failed == result.err.Some? }

  ghost predicate PcsAgree(s: FanOut.State, results: seq<Outcome>) {
    |s.pcs| == |results| && forall i :: 0 <= i < |s.pcs| ==> PcAgrees(s.pcs[i], results[i])
  }

  ghost predicate SentAgrees(sent: seq<FanOut.Outcome>, results: seq<Outcome>) {
    forall j :: 0 <= j < |sent| ==> sent[j].target < |results| && sent[j].failed == results[sent[j].target].err.Some?
  }

  lemma StepAgrees(cfg: FanOut.Config, s: FanOut.State, step: FanOut.Step, results: seq<Outcome>)
    requires PcsAgree(s, results) && SentAgrees(s.sent, results) && FanOut.Enabled(cfg, s, step) && IsReport(step, results)
    ensures PcsAgree(FanOut.Apply(cfg, s, step), results) && SentAgrees(FanOut.Apply(cfg, s, step).sent, results)
  {
    assert step.Send? ==> PcAgrees(s.pcs[step.who], results[step.who]);
  }

  lemma {:induction false} RunAgrees(cfg: FanOut.Config, states: seq<FanOut.State>, steps: seq<FanOut.Step>, k: nat, results: seq<Outcome>)
    requires FanOut.IsRun(cfg, states, steps) && k < |states| && |results| == cfg.targets && Reports(steps, results)
    ensures PcsAgree(states[k], results) && SentAgrees(states[k].sent, results)
  {
    if k > 0 {
      RunAgrees(cfg, states, steps, k - 1, results);
      assert FanOut.IsStep(cfg, states[k - 1], steps[k - 1], states[k]) && IsReport(steps[k - 1], results);
      StepAgrees(cfg, states[k - 1], steps[k - 1], results);
    }
  }

  lemma {:induction false} FailuresAgree(sent: seq<FanOut.Outcome>, results: seq<Outcome>)
    requires SentAgrees(sent, results)
    ensures FanOut.Failures(sent) == FailuresIn(Picked(results, TargetsOf(sent)))
  {
    if sent != [] {
      var n := |sent| - 1;
      FailuresAgree(sent[..n], results);
      var arrived := Picked(results, TargetsOf(sent));
      assert arrived[..n] == Picked(results, TargetsOf(sent[..n]));
      FailuresOfOneMore(arrived[..n], arrived[n]);
      assert arrived == arrived[..n] + [arrived[n]];
    }
  }

  lemma {:induction false} FailuresOfOneMore(some: seq<Outcome>, last: Outcome)
    ensures FailuresIn(some + [last]) == FailuresIn(some) + (if last.err.Some? then 1 else 0)
  {
    if some == [] {
      assert some + [last] == [last] && [last][1..] == [];
    } else {
      assert (some + [last])[1..] == some[1..] + [last];
      FailuresOfOneMore(some[1..], last);
    }
  }

  /******* The run of a query *******/

  /** The targets that give up in a run. */
  function GaveUpIn(targets: nat, steps: seq<FanOut.Step>): set<nat> { set i: nat | i < targets && FanOut.GiveUp(i) in steps }

  /** A run of the fan-out for these providers: a target that finishes reports as its fetching did. */
  ghost predicate IsRunOf(limits: Limits, q: Query, providers: seq<Provider>, cfg: FanOut.Config, states: seq<FanOut.State>, steps: seq<FanOut.Step>) {
    && Affordable(limits, q, |providers|) && FanOut.IsRun(cfg, states, steps)
    && cfg.targets == |providers| && cfg.share == ShareOf(limits, q, |providers|).requests
    && forall j :: 0 <= j < |steps| && steps[j].Finish? && steps[j].who < |providers| ==>
         steps[j].failed == OutcomeOf(providers[steps[j].who], ShareOf(limits, q, |providers|), q).err.Some?
  }

  lemma RunReportsResults(limits: Limits, q: Query, providers: seq<Provider>, cfg: FanOut.Config, states: seq<FanOut.State>, steps: seq<FanOut.Step>)
    requires IsRunOf(limits, q, providers, cfg, states, steps)
    ensures Reports(steps, ResultsOf(limits, q, providers, GaveUpIn(cfg.targets, steps)))
  {
    var gaveUp := GaveUpIn(cfg.targets, steps);
    var results := ResultsOf(limits, q, providers, gaveUp);
    forall j | 0 <= j < |steps|
      ensures IsReport(steps[j], results)
    {
      if steps[j].Finish? && steps[j].who < |providers| && steps[j].who in gaveUp {
        var l :| 0 <= l < |steps| && steps[l] == FanOut.GiveUp(steps[j].who);
        DecidesOnce(cfg, states, steps, j, l, steps[j].who);
      }
    }
  }

  /** The results, in the order in which they were sent. */
  ghost predicate AreSent(sent: seq<FanOut.Outcome>, results: seq<Outcome>, arrived: seq<Outcome>) {
    |arrived| == |sent| && forall j :: 0 <= j < |sent| ==> sent[j].target < |results| && arrived[j] == results[sent[j].target]
  }

  /** When a run of the fan-out returns, its sends are an order in which the targets' results arrive,
      those that gave up in the run being the cancelled ones, and every failure was reported. */
  lemma FanOutDeliversResults(limits: Limits, q: Query, providers: seq<Provider>, cfg: FanOut.Config, states: seq<FanOut.State>, steps: seq<FanOut.Step>,
                              k: nat) returns (arrived: seq<Outcome>)
    requires IsRunOf(limits, q, providers, cfg, states, steps) && k < |states| && states[k].main.Returned?
    ensures var sent, results := states[k].sent, ResultsOf(limits, q, providers, GaveUpIn(cfg.targets, steps));
      && AreSent(sent, results, arrived) && multiset(arrived) == multiset(results)
      && (forall j :: 0 <= j < |sent| ==> sent[j].failed == arrived[j].err.Some?)
      && states[k].failed == cfg.skipped + FailuresIn(arrived)
  {
    var results := ResultsOf(limits, q, providers, GaveUpIn(cfg.targets, steps));
    RunReportsResults(limits, q, providers, cfg, states, steps);
    RunAgrees(cfg, states, steps, k, results);
    SentIsAnOrder(cfg, states, steps, k, results);
    FanOut.EveryTargetIsAccounted(cfg, states, steps, k);
    FailuresAgree(states[k].sent, results);
    arrived := Picked(results, TargetsOf(states[k].sent));
  }

  /** So every answer to what a run has sent is an answer to the query, and its coverage is what the run
      has counted. */
  lemma RunsAnswerTheQuery(num: Numerals, limits: Limits, q: Query, providers: seq<Provider>, cfg: FanOut.Config,
                           states: seq<FanOut.State>, steps: seq<FanOut.Step>, k: nat, arrived: seq<Outcome>, answer: Answer)
    requires IsRunOf(limits, q, providers, cfg, states, steps) && k < |states| && states[k].main.Returned?
    requires var results := ResultsOf(limits, q, providers, GaveUpIn(cfg.targets, steps));
      AreSent(states[k].sent, results, arrived)
    requires IsAnswerTo(num, q, limits, |providers|, cfg.skipped, VisitOutcomes(num, q, limits.maxScannedItems, NOTHING, arrived), answer)
    ensures IsAnswer(num, q, limits, providers, GaveUpIn(cfg.targets, steps), arrived, cfg.skipped, answer)
    ensures answer.coverage == Coverage(|providers| + cfg.skipped, states[k].succeeded, states[k].failed)
  {
    var gaveUp := GaveUpIn(cfg.targets, steps);
    var all := FanOutDeliversResults(limits, q, providers, cfg, states, steps, k);
    assert all == arrived;
    FanOut.EveryTargetIsAccounted(cfg, states, steps, k);
    AnswerAccountsForTargets(num, q, limits, providers, gaveUp, arrived, cfg.skipped, answer);
  }
}
