// One live high-priority process and a group of best-effort processes on one
// GPU: what an HP launch can find in its way.
module LiltSystem {
  import opened HpProtocol
  import opened ActivityTracker
  import B = BeController
  import P = Profiles
  import opened BeAdmission
  import opened Common

  // Where a BE process is in its launch wrapper. It holds its own lock from
  // Waiting until it is Outside again.
  datatype BePhase =
    | Outside
    | Waiting(load: Flight)   // in lilt_event_be_wait_until_idle
    | Cleared(load: Flight)   // has read IDLE, is making room
    | Admitted(load: Flight)  // about to launch
    | Running(load: Flight)   // launched, completion event not yet recorded

  // atActive: in flight when ACTIVE was last published; since: started after that.
  datatype Be = Be(config: B.Config, window: nat, phase: BePhase, queue: seq<Flight>, atActive: seq<Flight>,
                   since: seq<Flight>)

  datatype State = State(hp: Hp, bes: seq<Be>)

  // Tracked work that may still be on the device.
  ghost function InFlight(b: Be): seq<Flight> {
    if b.phase.Running? then b.queue + [b.phase.load] else b.queue
  }

  ghost predicate Fits(b: Be, queue: seq<Flight>) {
    |queue| <= b.window && B.InBudget(b.config, queue)
  }

  // ----- steps -----

  // A step of one BE process while the shared word says `active`.
  ghost predicate BeNext(active: bool, b: Be, b': Be) {
    || (exists f :: b.phase.Outside? && b' == b.(phase := Waiting(f)))
    || (b.phase.Waiting? && !active && b' == b.(phase := Cleared(b.phase.load)))
    // the survival policy looks again on every turn
    || (b.phase.Cleared? && b' == b.(phase := Waiting(b.phase.load)))
    || ((b.phase.Outside? || b.phase.Cleared?) && b.queue != [] && b' == b.(queue := b.queue[1..]))
    || (b.phase.Cleared? && Fits(b, b.queue + [b.phase.load]) && b' == b.(phase := Admitted(b.phase.load)))
    || (b.phase.Admitted? && b' == b.(phase := Running(b.phase.load), since := b.since + [b.phase.load]))
    // the launch fails
    || (b.phase.Admitted? && b' == b.(phase := Outside))
    // its event is recorded, or its stream is synchronised instead
    || (b.phase.Running? && b' == b.(phase := Outside, queue := b.queue + [b.phase.load]))
    || (b.phase.Running? && b' == b.(phase := Outside))
  }

  // ACTIVE has just been published: what is in flight now is what HP work meets.
  function Republish(b: Be): Be {
    b.(atActive := if b.phase.Running? then b.queue + [b.phase.load] else b.queue, since := [])
  }

  ghost predicate SystemNext(s: State, s': State)
    requires Shaped(s.hp)
  {
    || (&& Next(s.hp, s'.hp) && |s'.bes| == |s.bes|
        && forall i :: 0 <= i < |s.bes| ==>
             s'.bes[i] == if !s.hp.published && s'.hp.published then Republish(s.bes[i]) else s.bes[i])
    || (exists i :: 0 <= i < |s.bes| && BeStep(s, i, s'))
  }

  ghost predicate BeStep(s: State, i: nat, s': State)
    requires i < |s.bes|
  {
    s'.hp == s.hp && |s'.bes| == |s.bes| && BeNext(s.hp.published, s.bes[i], s'.bes[i])
    && forall j :: 0 <= j < |s.bes| && j != i ==> s'.bes[j] == s.bes[j]
  }

  ghost predicate SystemInit(s: State) {
    && Init(s.hp)
    && forall i :: 0 <= i < |s.bes| ==> BeInit(s.bes[i])
  }

  ghost predicate BeInit(b: Be) {
    B.InRange(b.config) && b.window >= 1 && b.phase.Outside? && b.queue == [] && b.atActive == [] && b.since == []
  }

  // ----- the controller takes these steps -----

  ghost predicate IsBePath(active: bool, path: seq<Be>) {
    |path| > 0 && forall i, j :: 0 <= i && j == i + 1 < |path| ==> BeNext(active, path[i], path[j])
  }

  ghost predicate StepsTo(active: bool, b: Be, b': Be) {
    exists path :: IsBePath(active, path) && path[0] == b && path[|path| - 1] == b'
  }

  // Retiring some of the oldest launches and then admitting one that fits.
  lemma {:induction false} AdmissionIsSteps(active: bool, b: Be, kept: seq<Flight>)
    requires b.phase.Cleared? && B.Suffix(kept, b.queue) && Fits(b, kept + [b.phase.load])
    ensures StepsTo(active, b, b.(queue := kept, phase := Admitted(b.phase.load)))
    decreases |b.queue|
  {
    var end := b.(queue := kept, phase := Admitted(b.phase.load));
    if |kept| == |b.queue| {
      assert kept == b.queue;
      assert IsBePath(active, [b, end]);
    } else {
      var next := b.(queue := b.queue[1..]);
      AdmissionIsSteps(active, next, kept);
      StepFirst(active, b, next, end);
    }
  }

  lemma StepFirst(active: bool, b: Be, next: Be, end: Be)
    requires BeNext(active, b, next) && StepsTo(active, next, end)
    ensures StepsTo(active, b, end)
  {
    var path :| IsBePath(active, path) && path[0] == next && path[|path| - 1] == end;
    assert IsBePath(active, [b] + path);
  }

  // Admission under the time policies, with whatever budget is in effect.
  lemma TimeAdmissionIsSteps(active: bool, b: Be, budget: nat)
    requires b.phase.Cleared? && Fits(b, b.queue) && b.window >= 1
    requires B.UsesTime(b.config.policy) && budget <= B.TimeCap(b.config)
    ensures var f := b.phase.load;
            var kept := TimeAdmit(b.queue, f.unknown, f.predictedNs, b.window, budget);
            StepsTo(active, b, b.(queue := kept, phase := Admitted(f)))
  {
    var f := b.phase.load;
    var kept := TimeAdmit(b.queue, f.unknown, f.predictedNs, b.window, budget);
    TimeAdmitRetiresFewest(b.queue, f.unknown, f.predictedNs, b.window, budget);
    SuffixStaysInBudget(b.config, b.queue, kept);
    B.TimeFits(b.config, kept, f.unknown, f.blocks, f.predictedNs, b.window, budget);
    B.BudgetIgnoresSampling(b.config, kept, f);
    AdmissionIsSteps(active, b, kept);
  }

  // Admission under the fixed, blocks and gap policies, which predict nothing.
  lemma GridAdmissionIsSteps(active: bool, b: Be, budget: nat)
    requires b.phase.Cleared? && Fits(b, b.queue) && b.window >= 1
    requires !B.UsesTime(b.config.policy) && budget <= b.config.blockBudget
    requires b.phase.load.predictedNs == 0 && !b.phase.load.unknown
    ensures var f := b.phase.load;
            var kept := GridAdmit(b.queue, f.blocks, b.window, b.config.policy != B.Fixed, budget);
            StepsTo(active, b, b.(queue := kept, phase := Admitted(f)))
  {
    var f := b.phase.load;
    var kept := GridAdmit(b.queue, f.blocks, b.window, b.config.policy != B.Fixed, budget);
    GridAdmitRetiresFewest(b.queue, f.blocks, b.window, b.config.policy != B.Fixed, budget);
    SuffixStaysInBudget(b.config, b.queue, kept);
    B.GridFits(b.config, kept, f.blocks, b.window, budget);
    B.BudgetIgnoresSampling(b.config, kept, f);
    AdmissionIsSteps(active, b, kept);
  }

  // A turn of the survival loop: it admits with room, retires one and waits again,
  // or sleeps and waits again.
  lemma SurvivalTurnIsSteps(active: bool, b: Be, turn: B.Turn, kept: seq<Flight>)
    requires b.phase.Cleared?
    requires turn == B.Admitted ==> kept == b.queue && Fits(b, kept + [b.phase.load])
    requires turn == B.RetiredOne ==> b.queue != [] && kept == b.queue[1..]
    requires turn == B.Sleep ==> kept == b.queue
    ensures StepsTo(active, b, b.(queue := kept, phase := AfterTurn(turn, b.phase.load)))
  {
    var end := b.(queue := kept, phase := AfterTurn(turn, b.phase.load));
    if turn == B.RetiredOne {
      assert IsBePath(active, [b, b.(queue := kept), end]);
    } else {
      assert IsBePath(active, [b, end]);
    }
  }

  function AfterTurn(turn: B.Turn, load: Flight): BePhase {
    if turn == B.Admitted then Admitted(load) else Waiting(load)
  }

  // What a controller contributes to the state of its process.
  ghost function BeOf(c: B.Controller, phase: BePhase, rest: Be): Be
    reads c, c.ring
  {
    rest.(config := c.config, window := c.ring.window, phase := phase, queue := c.ring.queue)
  }

  // The controller's own survival turn is such a path of steps.
  method SurvivalTurnAsSteps(c: B.Controller, o: B.Observation, ghost active: bool, ghost load: Flight, ghost rest: Be)
    returns (turn: B.Turn)
    requires c.Valid() && c.Undecided() && c.config.policy == B.Survival && B.Truthful(o)
    requires c.currentPredictedNs < UINT64 && c.currentBlocks < BLOCK_LIMIT
    requires SameLoad(load, c.CurrentFlight())
    modifies c`episodeLastIdleNs, c`episodeLaunches, c.ring, c.ring.slots, c.table.entries
    ensures c.Valid() && c.Undecided()
    ensures StepsTo(active, old(BeOf(c, Cleared(load), rest)), BeOf(c, AfterTurn(turn, load), rest))
  {
    ghost var b := BeOf(c, Cleared(load), rest);
    var outcome, _, _, _ := c.SurvivalTurn(o);
    turn := outcome;
    if turn == B.Admitted {
      B.BudgetIgnoresSampling(c.config, c.ring.queue, load);
    }
    SurvivalTurnIsSteps(active, b, turn, c.ring.queue);
  }

  // The same to every budget, whether measured or not.
  predicate SameLoad(a: Flight, b: Flight) {
    a.blocks == b.blocks && a.predictedNs == b.predictedNs && a.unknown == b.unknown
  }

  // Admission under the other policies is such a path too.
  method BeforeAsSteps(c: B.Controller, key: P.Key, calls: Calls, timing: Timing, now: nat, ghost active: bool,
                       ghost rest: Be)
    requires c.Valid() && c.Undecided() && key.blocks < BLOCK_LIMIT && c.config.policy != B.Survival
    modifies c, c.ring, c.ring.slots, c.table, c.table.entries
    ensures c.Valid() && c.currentUsesWindow
    ensures StepsTo(active, old(BeOf(c, Outside, rest)).(phase := Cleared(c.CurrentFlight())),
                    BeOf(c, Admitted(c.CurrentFlight()), rest))
  {
    ghost var b := BeOf(c, Outside, rest);
    c.Before(key, calls, true, timing, now);
    b := b.(phase := Cleared(c.CurrentFlight()));
    if B.UsesTime(c.config.policy) {
      TimeAdmissionIsSteps(active, b, B.EffectiveTimeBudget(c.config, timing, now));
    } else {
      GridAdmissionIsSteps(active, b, B.EffectiveBlockBudget(c.config, timing, now));
    }
  }

  // Where the process is when the driver has answered.
  function Returned(launchOk: bool, load: Flight): BePhase {
    if launchOk then Running(load) else Admitted(load)
  }

  // And the end of a launch is one step, whether it was launched and whether its
  // event was recorded or not.
  method AfterAsStep(c: B.Controller, stream: nat, perThread: bool, launchOk: bool, calls: Calls, ghost active: bool,
                     ghost rest: Be)
    returns (recorded: bool)
    requires c.Valid() && c.currentUsesWindow
    modifies c, c.ring, c.ring.slots, c.table.entries
    ensures c.Valid() && c.Undecided()
    ensures BeNext(active, old(BeOf(c, Returned(launchOk, c.CurrentFlight()), rest)), BeOf(c, Outside, rest))
  {
    recorded := c.After(stream, perThread, launchOk, calls);
  }

  lemma {:induction false} SuffixStaysInBudget(c: B.Config, queue: seq<Flight>, kept: seq<Flight>)
    requires B.InBudget(c, queue) && B.Suffix(kept, queue)
    ensures B.InBudget(c, kept)
    decreases |queue|
  {
    if |kept| < |queue| {
      B.PopStaysInBudget(c, queue);
      SuffixStaysInBudget(c, queue[1..], kept);
    }
  }

  // ----- the invariant -----

  // A launch that has passed the wait may still start, so it counts as started.
  predicate Pending(b: Be) {
    b.phase.Cleared? || b.phase.Admitted?
  }

  ghost predicate BeOk(active: bool, b: Be) {
    Within(active, b) && Conserved(b)
  }

  ghost predicate Within(active: bool, b: Be) {
    && Fits(b, b.queue) && Fits(b, b.atActive) && Fits(b, InFlight(b))
    && (b.phase.Admitted? ==> Fits(b, b.queue + [b.phase.load]))
    && (active ==> |b.since| + (if Pending(b) then 1 else 0) <= 1)
  }

  // Whatever is in flight was in flight when ACTIVE was published, or has been
  // started since.
  ghost predicate Conserved(b: Be) {
    multiset(InFlight(b)) <= multiset(b.atActive) + multiset(b.since)
  }

  ghost predicate SystemInv(s: State) {
    Inv(s.hp) && forall i :: 0 <= i < |s.bes| ==> BeOk(s.hp.published, s.bes[i])
  }

  lemma EmptyFits(b: Be)
    ensures Fits(b, [])
  {
  }

  lemma BeNextKeeps(active: bool, b: Be, b': Be)
    requires BeOk(active, b) && BeNext(active, b, b')
    ensures BeOk(active, b') && b'.config == b.config && b'.window == b.window
  {
    BeNextStaysWithin(active, b, b');
    BeNextConserves(active, b, b');
  }

  lemma BeNextStaysWithin(active: bool, b: Be, b': Be)
    requires Within(active, b) && BeNext(active, b, b')
    ensures Within(active, b') && b'.config == b.config && b'.window == b.window
  {
    if b.queue != [] { B.PopStaysInBudget(b.config, b.queue); }
  }

  lemma BeNextConserves(active: bool, b: Be, b': Be)
    requires Conserved(b) && BeNext(active, b, b')
    ensures Conserved(b')
  {
    if b.queue != [] { assert b.queue == [b.queue[0]] + b.queue[1..]; }
  }

  // When ACTIVE is published, what is in flight is put down and the count of
  // launches begins anew.
  lemma PublicationBeginsAnew(s: State, s': State, k: nat)
    requires Shaped(s.hp) && SystemNext(s, s') && !s.hp.published && s'.hp.published && k < |s.bes|
    ensures |s'.bes| == |s.bes| && s'.bes[k].since == [] && s'.bes[k].queue == s.bes[k].queue
    ensures s'.bes[k].atActive == s.bes[k].queue + if s.bes[k].phase.Running? then [s.bes[k].phase.load] else []
  {
  }

  lemma RepublishKeeps(b: Be)
    requires BeOk(false, b)
    ensures BeOk(true, Republish(b))
  {
  }

  lemma SystemKeeps(s: State, s': State)
    requires SystemInv(s) && SystemNext(s, s')
    ensures SystemInv(s')
  {
    if i :| 0 <= i < |s.bes| && BeStep(s, i, s') {
      BeNextKeeps(s.hp.published, s.bes[i], s'.bes[i]);
    } else {
      NextKeeps(s.hp, s'.hp);
      forall i | 0 <= i < |s.bes|
        ensures BeOk(s'.hp.published, s'.bes[i])
      {
        assert BeOk(s.hp.published, s.bes[i]);
        if !s.hp.published { RepublishKeeps(s.bes[i]); }
      }
    }
  }

  ghost predicate IsSystemRun(run: seq<State>) {
    && |run| > 0 && SystemInit(run[0])
    && (forall i :: 0 <= i < |run| ==> Shaped(run[i].hp))
    && (forall i, j :: 0 <= i && j == i + 1 < |run| ==> SystemNext(run[i], run[j]))
  }

  lemma {:induction false} SystemRunsKeepInv(run: seq<State>, i: nat)
    requires IsSystemRun(run) && i < |run|
    ensures SystemInv(run[i])
  {
    if i == 0 {
      InitHolds(run[0].hp);
      forall k | 0 <= k < |run[0].bes|
        ensures BeOk(false, run[0].bes[k])
      {
        EmptyFits(run[0].bes[k]);
      }
    } else {
      SystemRunsKeepInv(run, i - 1);
      SystemKeeps(run[i - 1], run[i]);
    }
  }

  // What a process may have in flight together, by its policy; a single kernel
  // always may.
  ghost predicate SumWithin(b: Be, flights: seq<Flight>) {
    |flights| <= 1 ||
    match b.config.policy
    case Fixed => true
    case Blocks => SumBlocks(flights) <= b.config.blockBudget
    case Gap => SumBlocks(flights) <= b.config.blockBudget
    case Time => SumPredicted(flights) <= b.config.timeBudgetNs
    case TimeSum => SumPredicted(flights) <= b.config.timeBudgetNs
    case Survival =>
      SumPredicted(flights) <= b.config.internalBudgetNs || SumPredicted(flights) <= b.config.promotedBudgetNs
  }

  // Bounded interference, over every interleaving: while any HP launch is
  // unfinished, ACTIVE is published; each BE process has started at most one
  // tracked launch since, so that all it has in flight but one was there when
  // ACTIVE was published; and that is within its window and its budget or is a
  // single kernel.
  lemma InterferenceIsBounded(run: seq<State>, i: nat, k: nat)
    requires IsSystemRun(run) && i < |run| && k < |run[i].bes|
    ensures var s, b := run[i], run[i].bes[k];
            && (!AllDone(s.hp.work) ==> s.hp.published)
            && (s.hp.published ==> |b.since| <= 1)
            && multiset(InFlight(b)) <= multiset(b.atActive) + multiset(b.since)
            && |InFlight(b)| <= b.window && |b.atActive| <= b.window
            && SumWithin(b, InFlight(b)) && SumWithin(b, b.atActive)
            && (B.UsesTime(b.config.policy) ==> forall j :: 0 < j < |InFlight(b)| ==> !InFlight(b)[j].unknown)
  {
    SystemRunsKeepInv(run, i);
    var s := run[i];
    if !s.hp.published { IdleMeansDone(s.hp); }
    assert BeOk(s.hp.published, s.bes[k]);
  }

  // ----- group-wide limits -----

  ghost function TotalLaunches(bes: seq<Be>): nat {
    if bes == [] then 0 else |InFlight(bes[0])| + TotalLaunches(bes[1..])
  }

  ghost function TotalPredicted(bes: seq<Be>): nat {
    if bes == [] then 0 else SumPredicted(InFlight(bes[0])) + TotalPredicted(bes[1..])
  }

  // How far a process with one oversized kernel is over its share.
  ghost function Excess(b: Be, share: nat): nat {
    if |InFlight(b)| == 1 && SumPredicted(InFlight(b)) > share then SumPredicted(InFlight(b)) - share else 0
  }

  ghost function TotalExcess(bes: seq<Be>, share: nat): nat {
    if bes == [] then 0 else Excess(bes[0], share) + TotalExcess(bes[1..], share)
  }

  // Every process got the same share of the group's window and time budget.
  ghost predicate Shared(b: Be, window: nat, budget: nat) {
    b.window == window && B.UsesTime(b.config.policy) && B.TimeCap(b.config) == budget
  }

  lemma {:induction false} TotalsWithinShares(active: bool, bes: seq<Be>, window: nat, budget: nat)
    requires forall i :: 0 <= i < |bes| ==> BeOk(active, bes[i]) && Shared(bes[i], window, budget)
    ensures TotalLaunches(bes) <= |bes| * window
    ensures TotalPredicted(bes) <= |bes| * budget + TotalExcess(bes, budget)
  {
    if bes != [] {
      TotalsWithinShares(active, bes[1..], window, budget);
      assert BeOk(active, bes[0]) && Shared(bes[0], window, budget);
      OneMore(|bes[1..]|, window);
      OneMore(|bes[1..]|, budget);
      OneWithinShare(bes[0], budget);
    }
  }

  lemma OneMore(n: nat, share: nat)
    ensures (n + 1) * share == share + n * share
  {
  }

  lemma OneWithinShare(b: Be, budget: nat)
    requires TimeBounded(InFlight(b), budget)
    ensures SumPredicted(InFlight(b)) <= budget + Excess(b, budget)
  {
  }

  // A group configured for `count` processes, with a unit for each and no more
  // processes than that, stays within its window as a whole, and within its time
  // budget but for processes with one oversized kernel.
  lemma GroupIsBounded(run: seq<State>, i: nat, count: nat, window: nat, budget: nat)
    requires IsSystemRun(run) && i < |run| && 0 < count && |run[i].bes| <= count
    requires count <= window && count <= budget
    requires var bes := run[i].bes;
             forall k :: 0 <= k < |bes| ==> Shared(bes[k], Share(window, count), Share(budget, count))
    ensures TotalLaunches(run[i].bes) <= window
    ensures TotalPredicted(run[i].bes) <= budget + TotalExcess(run[i].bes, Share(budget, count))
  {
    SystemRunsKeepInv(run, i);
    TotalsWithinShares(run[i].hp.published, run[i].bes, Share(window, count), Share(budget, count));
    SharesFitIff(window, count);
    SharesFitIff(budget, count);
    MulLe(|run[i].bes|, count, Share(window, count), Share(window, count));
    MulLe(|run[i].bes|, count, Share(budget, count), Share(budget, count));
  }
}
