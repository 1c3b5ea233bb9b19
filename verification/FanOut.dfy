/**
 The fan-out of internal/engine/engine.go: one goroutine for each target, all of them competing with
 other queries for the engine's slots, and a main goroutine that waits for them and collects their
 results.  Every step of a goroutine that others can observe is a step here; any interleaving of
 steps, with the context cancelled at any point, is a run.
*/
module FanOut {

  /** The targets of the query, those skipped beforehand, the engine's slots, and the number of
      adapter calls each target may make. */
  datatype Config = Config(targets: nat, skipped: nat, capacity: nat, share: nat)

  datatype Outcome = Outcome(target: nat, failed: bool)

  /** Where the goroutine of a target stands. */
  datatype Pc =
    | NotSpawned
    | Selecting                               // in the select on a slot and the context
    | Working(left: nat, inFlight: bool)      // holds a slot; may still call its adapter
    | Sending(failed: bool, holding: bool)    // about to send its result
    | Sent(holding: bool)                     // about to run its deferred calls
    | Left                                    // its slot, if any, is returned; about to call wg.Done
    | Done
  {
    predicate Holds() { Working? || (Sending? && holding) || (Sent? && holding) }
    predicate HasSent() { Sent? || Left? || Done? }
    predicate IsCalling() { Working? && inFlight }
  }

  /** Where the main goroutine stands. */
  datatype Main = Spawning(next: nat) | Awaiting | Collecting | Returned

  /** `slots` is what the semaphore holds, `others` what other queries have put there; `sent` is all
      that was ever sent to the results channel, `received` how much of it was taken out again. */
  datatype State = State(
    main: Main, pcs: seq<Pc>, slots: nat, others: nat, cancelled: bool,
    sent: seq<Outcome>, closed: bool, received: nat, succeeded: nat, failed: nat)

  datatype Step =
    | Spawn
    | TakeSlot(who: nat)
    | GiveUp(who: nat)
    | BeginCall(who: nat)
    | EndCall(who: nat)
    | Finish(who: nat, failed: bool)
    | Send(who: nat)
    | Leave(who: nat)
    | WgDone(who: nat)
    | CloseResults
    | Receive
    | Return
    | Cancel
    | OtherTakes
    | OtherReturns

  predicate IsOurs(step: Step) { !step.Cancel? && !step.OtherTakes? && !step.OtherReturns? }

  predicate IsInitial(cfg: Config, s: State) {
    && s == State(Spawning(0), s.pcs, s.others, s.others, s.cancelled, [], false, 0, 0, cfg.skipped)
    && s.others <= cfg.capacity && |s.pcs| == cfg.targets && forall i :: 0 <= i < |s.pcs| ==> s.pcs[i].NotSpawned?
  }

  predicate AllDone(pcs: seq<Pc>) { forall i :: 0 <= i < |pcs| ==> pcs[i].Done? }

  /** Whether a step can be taken: a full or empty channel blocks, and so does a wait. */
  predicate Enabled(cfg: Config, s: State, step: Step) {
    match step
    case Spawn => s.main.Spawning? && s.main.next <= |s.pcs|
    case TakeSlot(i) => i < |s.pcs| && s.pcs[i].Selecting? && s.slots < cfg.capacity
    case GiveUp(i) => i < |s.pcs| && s.pcs[i].Selecting? && s.cancelled
    case BeginCall(i) => i < |s.pcs| && s.pcs[i].Working? && !s.pcs[i].inFlight && 0 < s.pcs[i].left
    case EndCall(i) => i < |s.pcs| && s.pcs[i].IsCalling() && 0 < s.pcs[i].left
    case Finish(i, _) => i < |s.pcs| && s.pcs[i].Working? && !s.pcs[i].inFlight
    case Send(i) => i < |s.pcs| && s.pcs[i].Sending? && |s.sent| - s.received < cfg.targets && !s.closed
    case Leave(i) => i < |s.pcs| && s.pcs[i].Sent? && (s.pcs[i].holding ==> 0 < s.slots)
    case WgDone(i) => i < |s.pcs| && s.pcs[i].Left?
    case CloseResults => s.main.Awaiting? && AllDone(s.pcs)
    case Receive => s.main.Collecting? && s.received < |s.sent|
    case Return => s.main.Collecting? && s.received == |s.sent| && s.closed
    case Cancel => true
    case OtherTakes => s.slots < cfg.capacity
    case OtherReturns => 0 < s.others && 0 < s.slots
  }

  function Apply(cfg: Config, s: State, step: Step): State
    requires Enabled(cfg, s, step)
  {
    match step
    case Spawn =>
      if s.main.next == |s.pcs| then s.(main := Awaiting)
      else s.(main := Spawning(s.main.next + 1), pcs := s.pcs[s.main.next := Selecting])
    case TakeSlot(i) => s.(pcs := s.pcs[i := Working(cfg.share, false)], slots := s.slots + 1)
    case GiveUp(i) => s.(pcs := s.pcs[i := Sending(true, false)])
    case BeginCall(i) => s.(pcs := s.pcs[i := Working(s.pcs[i].left, true)])
    case EndCall(i) => s.(pcs := s.pcs[i := Working(s.pcs[i].left - 1, false)])
    case Finish(i, failed) => s.(pcs := s.pcs[i := Sending(failed, true)])
    case Send(i) => s.(pcs := s.pcs[i := Sent(s.pcs[i].holding)], sent := s.sent + [Outcome(i, s.pcs[i].failed)])
    case Leave(i) => s.(pcs := s.pcs[i := Left], slots := if s.pcs[i].holding then s.slots - 1 else s.slots)
    case WgDone(i) => s.(pcs := s.pcs[i := Done])
    case CloseResults => s.(main := Collecting, closed := true)
    case Receive =>
      var failed := s.sent[s.received].failed;
      s.(received := s.received + 1, failed := if failed then s.failed + 1 else s.failed, succeeded := if failed then s.succeeded else s.succeeded + 1)
    case Return => s.(main := Returned)
    case Cancel => s.(cancelled := true)
    case OtherTakes => s.(slots := s.slots + 1, others := s.others + 1)
    case OtherReturns => s.(slots := s.slots - 1, others := s.others - 1)
  }

  /******* Counting *******/

  function CountHolding(pcs: seq<Pc>): nat {
    if pcs == [] then 0 else (if pcs[0].Holds() then 1 else 0) + CountHolding(pcs[1..])
  }

  function CountSent(pcs: seq<Pc>): (n: nat)
    ensures n <= |pcs|
  {
    if pcs == [] then 0 else (if pcs[0].HasSent() then 1 else 0) + CountSent(pcs[1..])
  }

  function CountCalling(pcs: seq<Pc>): nat {
    if pcs == [] then 0 else (if pcs[0].IsCalling() then 1 else 0) + CountCalling(pcs[1..])
  }

  lemma {:induction false} CountHoldingMoves(pcs: seq<Pc>, i: nat, pc: Pc)
    requires i < |pcs|
    ensures CountHolding(pcs[i := pc]) + (if pcs[i].Holds() then 1 else 0) == CountHolding(pcs) + (if pc.Holds() then 1 else 0)
  {
    if i > 0 {
      CountHoldingMoves(pcs[1..], i - 1, pc);
      assert pcs[i := pc][1..] == pcs[1..][i - 1 := pc];
    } else {
      assert pcs[i := pc][1..] == pcs[1..];
    }
  }

  lemma {:induction false} CountSentMoves(pcs: seq<Pc>, i: nat, pc: Pc)
    requires i < |pcs|
    ensures CountSent(pcs[i := pc]) + (if pcs[i].HasSent() then 1 else 0) == CountSent(pcs) + (if pc.HasSent() then 1 else 0)
  {
    if i > 0 {
      CountSentMoves(pcs[1..], i - 1, pc);
      assert pcs[i := pc][1..] == pcs[1..][i - 1 := pc];
    } else {
      assert pcs[i := pc][1..] == pcs[1..];
    }
  }

  lemma {:induction false} NotAllSent(pcs: seq<Pc>, i: nat)
    requires i < |pcs| && !pcs[i].HasSent()
    ensures CountSent(pcs) < |pcs|
  {
    if i > 0 {
      NotAllSent(pcs[1..], i - 1);
    }
  }

  lemma {:induction false} SomeoneHolds(pcs: seq<Pc>, i: nat)
    requires i < |pcs| && pcs[i].Holds()
    ensures 0 < CountHolding(pcs)
  {
    if i > 0 {
      SomeoneHolds(pcs[1..], i - 1);
    }
  }

  lemma {:induction false} CallersHold(pcs: seq<Pc>)
    ensures CountCalling(pcs) <= CountHolding(pcs)
  {
    if pcs != [] {
      CallersHold(pcs[1..]);
    }
  }

  lemma {:induction false} DoneIsSentAndFree(pcs: seq<Pc>)
    requires AllDone(pcs)
    ensures CountSent(pcs) == |pcs| && CountHolding(pcs) == 0
  {
    if pcs != [] {
      DoneIsSentAndFree(pcs[1..]);
    }
  }

  lemma {:induction false} NothingYet(pcs: seq<Pc>)
    requires forall i :: 0 <= i < |pcs| ==> pcs[i].NotSpawned?
    ensures CountSent(pcs) == 0 && CountHolding(pcs) == 0
  {
    if pcs != [] {
      NothingYet(pcs[1..]);
    }
  }

  function Failures(sent: seq<Outcome>): nat {
    if sent == [] then 0 else Failures(sent[..|sent| - 1]) + (if sent[|sent| - 1].failed then 1 else 0)
  }

  /******* Invariant *******/

  /** The semaphore holds one entry for each holder, here or elsewhere, and no more than it can. */
  ghost predicate SlotsInv(cfg: Config, s: State) {
    s.slots == s.others + CountHolding(s.pcs) <= cfg.capacity
  }

  ghost predicate IsFrom(sent: seq<Outcome>, i: nat) { exists k :: 0 <= k < |sent| && sent[k].target == i }

  /** Exactly the goroutines past their send have sent, each once. */
  ghost predicate SentInv(cfg: Config, s: State) {
    && |s.pcs| == cfg.targets && |s.sent| == CountSent(s.pcs)
    && (forall k :: 0 <= k < |s.sent| ==> s.sent[k].target < |s.pcs|)
    && (forall j, k :: 0 <= j < k < |s.sent| ==> s.sent[j].target != s.sent[k].target)
    && (forall i :: 0 <= i < |s.pcs| ==> (s.pcs[i].HasSent() <==> IsFrom(s.sent, i)))
  }

  /** What is received is counted. */
  ghost predicate CountsInv(cfg: Config, s: State) {
    && s.received <= |s.sent| && s.failed == cfg.skipped + Failures(s.sent[..s.received])
    && s.succeeded + s.failed == cfg.skipped + s.received
  }

  /** Results are closed, and received, when all goroutines are done. */
  ghost predicate PhaseInv(s: State) {
    && (s.closed <==> s.main.Collecting? || s.main.Returned?)
    && (s.closed ==> AllDone(s.pcs))
    && (s.main.Returned? ==> s.received == |s.sent|)
    && (s.main.Spawning? ==> s.main.next <= |s.pcs|)
    && forall i :: 0 <= i < |s.pcs| ==> (s.pcs[i].NotSpawned? <==> s.main.Spawning? && s.main.next <= i)
  }

  predicate IsWithin(pc: Pc, share: nat) { pc.Working? ==> pc.left <= share && (pc.inFlight ==> 0 < pc.left) }

  ghost predicate CallsInv(cfg: Config, s: State) {
    forall i :: 0 <= i < |s.pcs| ==> IsWithin(s.pcs[i], cfg.share)
  }

  ghost predicate Inv(cfg: Config, s: State) {
    SlotsInv(cfg, s) && SentInv(cfg, s) && CountsInv(cfg, s) && PhaseInv(s) && CallsInv(cfg, s)
  }

  /** The goroutine a step moves, and where to. */
  function Mover(step: Step): int {
    match step
    case TakeSlot(i) => i case GiveUp(i) => i case BeginCall(i) => i case EndCall(i) => i case Finish(i, _) => i
    case Send(i) => i case Leave(i) => i case WgDone(i) => i
    case _ => -1
  }

  /** A goroutine is spawned once. */
  ghost predicate SpawnsAfresh(s: State, step: Step) {
    step.Spawn? && s.main.Spawning? && s.main.next < |s.pcs| ==> s.pcs[s.main.next].NotSpawned?
  }

  lemma StepKeepsSlots(cfg: Config, s: State, step: Step)
    requires SlotsInv(cfg, s) && SpawnsAfresh(s, step) && Enabled(cfg, s, step)
    ensures SlotsInv(cfg, Apply(cfg, s, step))
  {
    var s' := Apply(cfg, s, step);
    if 0 <= Mover(step) {
      CountHoldingMoves(s.pcs, Mover(step), s'.pcs[Mover(step)]);
    } else if step.Spawn? && s.main.next < |s.pcs| {
      CountHoldingMoves(s.pcs, s.main.next, Selecting);
    }
  }

  /** A step that sends nothing leaves who has sent. */
  lemma MoveKeepsSent(cfg: Config, s: State, s': State, i: nat)
    requires SentInv(cfg, s) && i < |s.pcs| == |s'.pcs| && s'.sent == s.sent
    requires s'.pcs == s.pcs[i := s'.pcs[i]] && (s'.pcs[i].HasSent() <==> s.pcs[i].HasSent())
    ensures SentInv(cfg, s')
  {
    CountSentMoves(s.pcs, i, s'.pcs[i]);
  }

  lemma SendKeepsSent(cfg: Config, s: State, i: nat)
    requires SentInv(cfg, s) && Enabled(cfg, s, Send(i))
    ensures SentInv(cfg, Apply(cfg, s, Send(i)))
  {
    var s' := Apply(cfg, s, Send(i));
    CountSentMoves(s.pcs, i, s'.pcs[i]);
    assert !IsFrom(s.sent, i);
    forall j | 0 <= j < |s'.pcs|
      ensures s'.pcs[j].HasSent() <==> IsFrom(s'.sent, j)
    {
      if IsFrom(s.sent, j) {
        var k :| 0 <= k < |s.sent| && s.sent[k].target == j;
        assert s'.sent[k].target == j;
      }
      assert s'.sent[|s.sent|].target == i;
    }
  }

  lemma StepKeepsSent(cfg: Config, s: State, step: Step)
    requires SentInv(cfg, s) && SpawnsAfresh(s, step) && Enabled(cfg, s, step)
    ensures SentInv(cfg, Apply(cfg, s, step))
  {
    var s' := Apply(cfg, s, step);
    if step.Send? {
      SendKeepsSent(cfg, s, step.who);
    } else if 0 <= Mover(step) {
      MoveKeepsSent(cfg, s, s', Mover(step));
    } else if step.Spawn? && s.main.next < |s.pcs| {
      MoveKeepsSent(cfg, s, s', s.main.next);
    }
  }

  lemma StepKeepsCounts(cfg: Config, s: State, step: Step)
    requires CountsInv(cfg, s) && Enabled(cfg, s, step)
    ensures CountsInv(cfg, Apply(cfg, s, step))
  {
    var s' := Apply(cfg, s, step);
    if step.Send? {
      assert s'.sent[..s.received] == s.sent[..s.received];
    } else if step.Receive? {
      assert s.sent[..s.received + 1][..s.received] == s.sent[..s.received];
    }
  }

  lemma StepKeepsPhase(cfg: Config, s: State, step: Step)
    requires PhaseInv(s) && Enabled(cfg, s, step)
    ensures PhaseInv(Apply(cfg, s, step))
  {
    assert 0 <= Mover(step) ==> !s.closed;
  }

  lemma StepKeepsCalls(cfg: Config, s: State, step: Step)
    requires CallsInv(cfg, s) && Enabled(cfg, s, step)
    ensures CallsInv(cfg, Apply(cfg, s, step))
  {
    var s' := Apply(cfg, s, step);
    forall i | 0 <= i < |s'.pcs|
      ensures IsWithin(s'.pcs[i], cfg.share)
    {
      assert i < |s.pcs| && IsWithin(s.pcs[i], cfg.share);
    }
  }

  lemma StepKeepsInv(cfg: Config, s: State, step: Step, s': State)
    requires Inv(cfg, s) && IsStep(cfg, s, step, s')
    ensures Inv(cfg, s')
  {
    StepKeepsSlots(cfg, s, step);
    StepKeepsSent(cfg, s, step);
    StepKeepsCounts(cfg, s, step);
    StepKeepsPhase(cfg, s, step);
    StepKeepsCalls(cfg, s, step);
  }

  lemma InitialInv(cfg: Config, s: State)
    requires IsInitial(cfg, s)
    ensures Inv(cfg, s)
  {
    NothingYet(s.pcs);
  }

  /******* Runs *******/

  ghost predicate IsRun(cfg: Config, states: seq<State>, steps: seq<Step>) {
    && |states| == |steps| + 1 && IsInitial(cfg, states[0])
    && forall k :: 0 <= k < |steps| ==> IsStep(cfg, states[k], steps[k], states[k + 1])
  }

  ghost predicate IsStep(cfg: Config, s: State, step: Step, s': State) { Enabled(cfg, s, step) && s' == Apply(cfg, s, step) }

  lemma {:induction false} RunKeepsInv(cfg: Config, states: seq<State>, steps: seq<Step>, k: nat)
    requires IsRun(cfg, states, steps) && k < |states|
    ensures Inv(cfg, states[k])
  {
    if k == 0 {
      InitialInv(cfg, states[0]);
    } else {
      RunKeepsInv(cfg, states, steps, k - 1);
      assert IsStep(cfg, states[k - 1], steps[k - 1], states[k]);
      StepKeepsInv(cfg, states[k - 1], steps[k - 1], states[k]);
    }
  }

  /** At every moment of every run no more adapter calls are in flight than there are slots, whoever
      holds the rest of them. */
  lemma CallsAreBounded(cfg: Config, states: seq<State>, steps: seq<Step>, k: nat)
    requires IsRun(cfg, states, steps) && k < |states|
    ensures states[k].others + CountCalling(states[k].pcs) <= cfg.capacity
  {
    RunKeepsInv(cfg, states, steps, k);
    CallersHold(states[k].pcs);
  }

  /** How often a target has called its adapter. */
  function CallsOf(steps: seq<Step>, i: nat): nat {
    if steps == [] then 0 else CallsOf(steps[..|steps| - 1], i) + (if steps[|steps| - 1] == BeginCall(i) then 1 else 0)
  }

  /** How often it may still call it. */
  function CallsLeft(cfg: Config, pc: Pc): nat {
    match pc
    case NotSpawned => cfg.share
    case Selecting => cfg.share
    case Working(left, inFlight) => if inFlight && 0 < left then left - 1 else left
    case _ => 0
  }

  lemma CallsAreSpent(cfg: Config, s: State, step: Step, i: nat)
    requires i < |s.pcs| && SpawnsAfresh(s, step) && Enabled(cfg, s, step)
    ensures i < |Apply(cfg, s, step).pcs|
    ensures CallsLeft(cfg, Apply(cfg, s, step).pcs[i]) + (if step == BeginCall(i) then 1 else 0) <= CallsLeft(cfg, s.pcs[i])
  {
  }

  /** In every run, however it is interleaved and cancelled, no target calls its adapter more often
      than its share. */
  lemma {:induction false} TargetsStayInShare(cfg: Config, states: seq<State>, steps: seq<Step>, k: nat, i: nat)
    requires IsRun(cfg, states, steps) && k <= |steps| && i < cfg.targets
    ensures |states[k].pcs| == cfg.targets && CallsOf(steps[..k], i) + CallsLeft(cfg, states[k].pcs[i]) <= cfg.share
  {
    if k > 0 {
      TargetsStayInShare(cfg, states, steps, k - 1, i);
      RunKeepsInv(cfg, states, steps, k - 1);
      assert IsStep(cfg, states[k - 1], steps[k - 1], states[k]);
      CallsAreSpent(cfg, states[k - 1], steps[k - 1], i);
      assert steps[..k][..k - 1] == steps[..k - 1];
    }
  }

  /** A send never blocks and never meets a closed channel, and a slot is always there to be returned. */
  lemma NeverBlocks(cfg: Config, states: seq<State>, steps: seq<Step>, k: nat, i: nat)
    requires IsRun(cfg, states, steps) && k < |states| && i < |states[k].pcs|
    ensures states[k].pcs[i].Sending? ==> Enabled(cfg, states[k], Send(i))
    ensures states[k].pcs[i].Sent? ==> Enabled(cfg, states[k], Leave(i))
  {
    var s := states[k];
    RunKeepsInv(cfg, states, steps, k);
    if s.pcs[i].Sending? {
      NotAllSent(s.pcs, i);
    }
    if s.pcs[i].Holds() {
      SomeoneHolds(s.pcs, i);
    }
  }

  /** When the query goes on with its rows: every target has sent exactly one result, all of them are
      received, every slot is returned, and every planned target has succeeded or failed. */
  lemma EveryTargetIsAccounted(cfg: Config, states: seq<State>, steps: seq<Step>, k: nat)
    requires IsRun(cfg, states, steps) && k < |states| && states[k].main.Returned?
    ensures var s := states[k];
      && |s.sent| == s.received == cfg.targets && (forall i :: 0 <= i < cfg.targets ==> IsFrom(s.sent, i))
      && (forall j :: 0 <= j < |s.sent| ==> s.sent[j].target < cfg.targets)
      && (forall j, l :: 0 <= j < l < |s.sent| ==> s.sent[j].target != s.sent[l].target)
      && s.slots == s.others
      && s.failed == cfg.skipped + Failures(s.sent) && s.succeeded + s.failed == cfg.targets + cfg.skipped
  {
    var s := states[k];
    RunKeepsInv(cfg, states, steps, k);
    DoneIsSentAndFree(s.pcs);
    assert s.sent[..s.received] == s.sent;
  }

  /******* Progress *******/

  /** Steps a goroutine may still take. */
  function Rank(cfg: Config, pc: Pc): nat {
    match pc
    case NotSpawned => 2 * cfg.share + 7
    case Selecting => 2 * cfg.share + 6
    case Working(left, inFlight) => if inFlight && 0 < left then 2 * left + 4 else 2 * left + 5
    case Sending(_, _) => 4
    case Sent(_) => 3
    case Left => 2
    case Done => 1
  }

  function Ranks(cfg: Config, pcs: seq<Pc>): nat { if pcs == [] then 0 else Rank(cfg, pcs[0]) + Ranks(cfg, pcs[1..]) }

  function MainRank(s: State): nat {
    match s.main
    case Spawning(next) => |s.pcs| + 3
    case Awaiting => |s.pcs| + 2
    case Collecting => 1 + (if s.received <= |s.pcs| then |s.pcs| - s.received else 0)
    case Returned => 0
  }

  /** An upper bound on the steps of this query still to come. */
  function StepsLeft(cfg: Config, s: State): nat { Ranks(cfg, s.pcs) + MainRank(s) }

  lemma {:induction false} RanksMove(cfg: Config, pcs: seq<Pc>, i: nat, pc: Pc)
    requires i < |pcs|
    ensures Ranks(cfg, pcs[i := pc]) + Rank(cfg, pcs[i]) == Ranks(cfg, pcs) + Rank(cfg, pc)
  {
    if i > 0 {
      RanksMove(cfg, pcs[1..], i - 1, pc);
      assert pcs[i := pc][1..] == pcs[1..][i - 1 := pc];
    } else {
      assert pcs[i := pc][1..] == pcs[1..];
    }
  }

  lemma MoveLowersRank(cfg: Config, s: State, step: Step)
    requires CallsInv(cfg, s) && Enabled(cfg, s, step) && 0 <= Mover(step)
    ensures var i := Mover(step);
      i < |s.pcs| && |Apply(cfg, s, step).pcs| == |s.pcs| && Rank(cfg, Apply(cfg, s, step).pcs[i]) < Rank(cfg, s.pcs[i])
      && Apply(cfg, s, step).pcs == s.pcs[i := Apply(cfg, s, step).pcs[i]] && MainRank(Apply(cfg, s, step)) == MainRank(s)
  {
    assert IsWithin(s.pcs[Mover(step)], cfg.share);
  }

  /** Every step of this query brings it nearer to its end; those of others do not take it back. */
  lemma StepsRunOut(cfg: Config, s: State, step: Step)
    requires CallsInv(cfg, s) && SpawnsAfresh(s, step) && |s.sent| <= |s.pcs| && Enabled(cfg, s, step)
    ensures StepsLeft(cfg, Apply(cfg, s, step)) + (if IsOurs(step) then 1 else 0) <= StepsLeft(cfg, s)
  {
    var s' := Apply(cfg, s, step);
    if 0 <= Mover(step) {
      MoveLowersRank(cfg, s, step);
      RanksMove(cfg, s.pcs, Mover(step), s'.pcs[Mover(step)]);
    } else if step.Spawn? && s.main.next < |s.pcs| {
      RanksMove(cfg, s.pcs, s.main.next, Selecting);
    }
  }

  /** The next step of a goroutine that is neither done nor waiting for a slot. */
  function NextOf(pc: Pc, i: nat): Step {
    match pc
    case Working(_, inFlight) => if inFlight then EndCall(i) else Finish(i, false)
    case Sending(_, _) => Send(i)
    case Sent(_) => Leave(i)
    case _ => WgDone(i)
  }

  /** A query that has not returned can always take a step, unless each goroutine still at work waits
      for a slot and other queries hold all of them; once the context is cancelled not even then. */
  lemma NeverStuck(cfg: Config, states: seq<State>, steps: seq<Step>, k: nat) returns (step: Step)
    requires IsRun(cfg, states, steps) && k < |states| && !states[k].main.Returned?
    requires states[k].others < cfg.capacity || states[k].cancelled
    ensures IsOurs(step) && Enabled(cfg, states[k], step)
  {
    var s := states[k];
    RunKeepsInv(cfg, states, steps, k);
    match s.main
    case Spawning(_) => step := Spawn;
    case Collecting => step := if s.received < |s.sent| then Receive else Return;
    case Awaiting =>
      if AllDone(s.pcs) {
        step := CloseResults;
      } else if i :| 0 <= i < |s.pcs| && !s.pcs[i].Done? && !s.pcs[i].Selecting? {
        NeverBlocks(cfg, states, steps, k, i);
        assert IsWithin(s.pcs[i], cfg.share);
        step := NextOf(s.pcs[i], i);
      } else {
        var i :| 0 <= i < |s.pcs| && !s.pcs[i].Done?;
        NobodyHolds(s.pcs);
        step := if s.cancelled then GiveUp(i) else TakeSlot(i);
      }
  }

  lemma {:induction false} NobodyHolds(pcs: seq<Pc>)
    requires forall i :: 0 <= i < |pcs| ==> pcs[i].Done? || pcs[i].Selecting?
    ensures CountHolding(pcs) == 0
  {
    if pcs != [] {
      NobodyHolds(pcs[1..]);
    }
  }

  function OurSteps(steps: seq<Step>): nat {
    if steps == [] then 0 else OurSteps(steps[..|steps| - 1]) + (if IsOurs(steps[|steps| - 1]) then 1 else 0)
  }

  /** Every run is finite, but for what others do: a query takes no more steps than its targets and
      their shares of adapter calls allow. */
  lemma {:induction false} RunsEnd(cfg: Config, states: seq<State>, steps: seq<Step>, k: nat)
    requires IsRun(cfg, states, steps) && k <= |steps|
    ensures OurSteps(steps[..k]) + StepsLeft(cfg, states[k]) <= StepsLeft(cfg, states[0])
  {
    if k > 0 {
      RunsEnd(cfg, states, steps, k - 1);
      RunKeepsInv(cfg, states, steps, k - 1);
      assert IsStep(cfg, states[k - 1], steps[k - 1], states[k]);
      StepsRunOut(cfg, states[k - 1], steps[k - 1]);
      assert steps[..k][..k - 1] == steps[..k - 1];
    }
  }
}
