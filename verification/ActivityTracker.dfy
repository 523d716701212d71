// The state the high-priority (HP) and best-effort (BE) processes share: the
// ACTIVE/IDLE word, who owns it, and what is known about past periods.
module ActivityTracker {
  import opened Common

  const BUCKETS: nat := 20

  const THRESHOLDS_NS: seq<nat> := [
    20_000, 50_000, 75_000, 100_000, 125_000, 141_000, 161_000, 180_000, 200_000, 250_000,
    300_000, 400_000, 500_000, 750_000, 1_000_000, 1_500_000, 2_500_000, 5_000_000, 10_000_000, 20_000_000
  ]

  // ----- moving averages -----

  function EwmaStep(previous: nat, sample: nat): nat {
    if previous == 0 then sample
    else if sample >= previous then previous + (sample - previous) / 8
    else previous - (previous - sample) / 8
  }

  ghost function Ewma(samples: seq<nat>): nat {
    if samples == [] then 0 else EwmaStep(Ewma(samples[..|samples| - 1]), samples[|samples| - 1])
  }

  // The average never leaves the range of what was sampled.
  lemma {:induction false} EwmaStaysInRange(samples: seq<nat>, lo: nat, hi: nat)
    requires samples != [] && lo > 0
    requires forall i :: 0 <= i < |samples| ==> lo <= samples[i] <= hi
    ensures lo <= Ewma(samples) <= hi
  {
    var rest := samples[..|samples| - 1];
    if rest != [] { EwmaStaysInRange(rest, lo, hi); }
  }

  ghost function EwmaRepeat(start: nat, sample: nat, n: nat): nat {
    if n == 0 then start else EwmaStep(EwmaRepeat(start, sample, n - 1), sample)
  }

  // From e an eighth of the way to x, rounded down; all the way if e is unset.
  ghost predicate AnEighthCloser(e: nat, x: nat, r: nat) {
    if e == 0 then r == x
    else Between(e, r, x) && 8 * Distance(r, e) <= Distance(x, e) < 8 * Distance(r, e) + 8
  }

  lemma EwmaGoesAnEighth(e: nat, x: nat)
    ensures AnEighthCloser(e, x, EwmaStep(e, x))
  {
  }

  // It stands still exactly when it is within 7 of the sample.
  lemma EwmaStallsWithinSeven(e: nat, x: nat)
    requires e > 0
    ensures EwmaStep(e, x) == e <==> Distance(e, x) <= 7
  {
  }

  // Under a constant sample all of the distance but 7 shrinks by an eighth a step.
  lemma {:induction false} EwmaConverges(start: nat, x: nat, n: nat)
    requires start > 0 && x > 0
    ensures EwmaRepeat(start, x, n) > 0
    ensures Distance(start, x) <= 7 ==> EwmaRepeat(start, x, n) == start
    ensures Distance(start, x) >= 7 ==>
      && Distance(EwmaRepeat(start, x, n), x) >= 7
      && Pow(8, n) * (Distance(EwmaRepeat(start, x, n), x) - 7) <= Pow(7, n) * (Distance(start, x) - 7)
  {
    if n > 0 {
      EwmaConverges(start, x, n - 1);
      var e := EwmaRepeat(start, x, n - 1);
      if Distance(start, x) >= 7 {
        EwmaShrinks(e, x);
        Scale(Pow(8, n - 1), Distance(e, x) - 7, Distance(EwmaStep(e, x), x) - 7, Pow(7, n - 1),
              Distance(start, x) - 7);
      }
    }
  }

  lemma EwmaShrinks(e: nat, x: nat)
    requires e > 0 && Distance(e, x) >= 7
    ensures Distance(EwmaStep(e, x), x) >= 7
    ensures 8 * (Distance(EwmaStep(e, x), x) - 7) <= 7 * (Distance(e, x) - 7)
  {
  }

  lemma Scale(p8: nat, d: nat, d': nat, p7: nat, d0: nat)
    requires p8 * d <= p7 * d0 && 8 * d' <= 7 * d
    ensures 8 * p8 * d' <= 7 * p7 * d0
  {
    calc {
      8 * p8 * d';
      p8 * (8 * d');
      <= { MulLe(8 * d', 7 * d, p8, p8); }
      p8 * (7 * d);
      7 * (p8 * d);
      <=
      7 * (p7 * d0);
      7 * p7 * d0;
    }
  }

  // ----- the idle histogram -----

  // How many of the recorded periods were longer than t.
  ghost function LongerThan(periods: seq<nat>, t: nat): nat {
    if periods == [] then 0
    else LongerThan(periods[..|periods| - 1], t) + (if periods[|periods| - 1] > t then 1 else 0)
  }

  lemma {:induction false} LongerThanFalls(periods: seq<nat>, a: nat, b: nat)
    requires a <= b
    ensures LongerThan(periods, b) <= LongerThan(periods, a) <= |periods|
  {
    if periods != [] { LongerThanFalls(periods[..|periods| - 1], a, b); }
  }

  // Buckets never increase along the table.
  lemma BucketsFall(periods: seq<nat>, i: nat, j: nat)
    requires i <= j < BUCKETS
    ensures LongerThan(periods, THRESHOLDS_NS[j]) <= LongerThan(periods, THRESHOLDS_NS[i])
  {
    LongerThanFalls(periods, THRESHOLDS_NS[i], THRESHOLDS_NS[j]);
  }

  ghost function Total(periods: seq<nat>): nat {
    if periods == [] then 0 else Total(periods[..|periods| - 1]) + periods[|periods| - 1]
  }

  ghost predicate Positive(periods: seq<nat>) {
    forall i :: 0 <= i < |periods| ==> periods[i] > 0
  }

  // What a BE process reads: lilt_event_hp_timing_t.
  datatype Timing = Timing(active: bool, idleSamples: nat, activeSamples: nat, generation: nat, lastActiveNs: nat,
                           lastIdleNs: nat, idleEwmaNs: nat, activeEwmaNs: nat, counts: seq<nat>)

  // Counts of exactly the recorded idle periods.
  ghost predicate Describes(timing: Timing, periods: seq<nat>) {
    && |timing.counts| == BUCKETS
    && (forall i :: 0 <= i < BUCKETS ==> timing.counts[i] == LongerThan(periods, THRESHOLDS_NS[i]))
    && timing.idleSamples == |periods| % UINT32
  }

  datatype Poll = IsIdle | ReapedOwner | KeepWaiting

  // lilt_event_shared_state_t
  class SharedState {
    var active: bool
    var ownerPid: nat
    var registrations: nat
    var idleSamples: nat
    var activeSamples: nat
    var generation: nat
    var lastActiveNs: nat
    var lastIdleNs: nat
    var idleEwmaNs: nat
    var activeEwmaNs: nat
    const counts: array<nat>

    ghost var idlePeriods: seq<nat>     // every recorded idle period, oldest first
    ghost var activePeriods: seq<nat>
    ghost var registeredNs: nat

    ghost predicate Valid()
      reads this, counts
    {
      && counts.Length == BUCKETS
      && (forall i :: 0 <= i < BUCKETS ==> counts[i] == LongerThan(idlePeriods, THRESHOLDS_NS[i]))
      && idleSamples == |idlePeriods| % UINT32 && activeSamples == |activePeriods| % UINT32
      && idleEwmaNs == Ewma(idlePeriods) && activeEwmaNs == Ewma(activePeriods)
      && Positive(idlePeriods) && Positive(activePeriods)
    }

    // The last time the word changed.
    function LastTransition(): nat
      reads this
    {
      if active then lastActiveNs else lastIdleNs
    }

    // Recorded time adds up: idle and active periods fill the time since registration.
    ghost predicate Telescopes()
      reads this
    {
      && registeredNs > 0 && LastTransition() > 0
      && registeredNs + Total(idlePeriods) + Total(activePeriods) == LastTransition()
    }

    constructor ()
      ensures Valid() && !active && ownerPid == 0 && registrations == 0 && fresh(counts)
      ensures idlePeriods == [] && activePeriods == [] && lastIdleNs == 0 && lastActiveNs == 0 && generation == 0
    {
      active, ownerPid, registrations, idleSamples, activeSamples, generation := false, 0, 0, 0, 0, 0;
      lastActiveNs, lastIdleNs, idleEwmaNs, activeEwmaNs := 0, 0, 0, 0;
      counts := new nat[BUCKETS](_ => 0);
      idlePeriods, activePeriods, registeredNs := [], [], 0;
    }

    // lilt_event_hp_register
    method Register(self: nat, now: nat)
      requires Valid() && self > 0
      modifies this, counts
      ensures Valid() && ownerPid == self
      ensures old(ownerPid) == self ==>
        && registrations == (old(registrations) + 1) % UINT32 && active == old(active) && generation == old(generation)
        && idlePeriods == old(idlePeriods) && activePeriods == old(activePeriods)
        && lastIdleNs == old(lastIdleNs) && lastActiveNs == old(lastActiveNs)
      ensures old(ownerPid) != self ==>
        && registrations == 1 && !active && generation == old(generation) + 1
        && idlePeriods == [] && activePeriods == [] && lastIdleNs == now && lastActiveNs == 0
        && (now > 0 ==> Telescopes())
    {
      if ownerPid == self {
        registrations := (registrations + 1) % UINT32;
        return;
      }
      registrations, ownerPid := 1, self;
      StartAfresh(now);
    }

    // A new owner starts with no history and an IDLE word.
    method StartAfresh(now: nat)
      requires counts.Length == BUCKETS
      modifies this, counts
      ensures Valid() && ownerPid == old(ownerPid) && registrations == old(registrations)
      ensures !active && generation == old(generation) + 1
      ensures idlePeriods == [] && activePeriods == [] && lastIdleNs == now && lastActiveNs == 0
      ensures now > 0 ==> Telescopes()
    {
      generation := generation + 1;
      idleSamples, activeSamples, lastActiveNs, lastIdleNs := 0, 0, 0, now;
      idleEwmaNs, activeEwmaNs := 0, 0;
      idlePeriods, activePeriods, registeredNs := [], [], now;
      ClearCounts();
      active := false;
    }

    method ClearCounts()
      requires counts.Length == BUCKETS
      modifies counts
      ensures forall k :: 0 <= k < BUCKETS ==> counts[k] == 0
    {
      for i := 0 to BUCKETS
        invariant forall k :: 0 <= k < i ==> counts[k] == 0
      {
        counts[i] := 0;
      }
    }

    // lilt_event_hp_unregister
    method Unregister(self: nat)
      requires Valid()
      modifies this
      ensures Valid() && idlePeriods == old(idlePeriods) && activePeriods == old(activePeriods)
      ensures old(ownerPid) != self ==>
        ownerPid == old(ownerPid) && active == old(active) && registrations == old(registrations)
      ensures old(ownerPid) == self && old(registrations) > 1 ==>
        ownerPid == self && active == old(active) && registrations == old(registrations) - 1
      ensures old(ownerPid) == self && old(registrations) <= 1 ==>
        ownerPid == 0 && !active && registrations == 0
    {
      if ownerPid != self {
        return;
      }
      if registrations > 1 {
        registrations := registrations - 1;
        return;
      }
      registrations, active, ownerPid := 0, false, 0;
    }

    method CountIn(period: nat)
      requires counts.Length == BUCKETS
      modifies counts
      ensures forall k :: 0 <= k < BUCKETS ==>
        counts[k] == old(counts[k]) + if period > THRESHOLDS_NS[k] then 1 else 0
    {
      for i := 0 to BUCKETS
        invariant forall k :: 0 <= k < BUCKETS ==>
          counts[k] == old(counts[k]) + if k < i && period > THRESHOLDS_NS[k] then 1 else 0
      {
        if period > THRESHOLDS_NS[i] {
          counts[i] := counts[i] + 1;
        }
      }
    }

    // Count one idle period in every bucket it is longer than.
    method CountPeriod(period: nat)
      requires Valid() && period > 0
      modifies counts, this`idlePeriods, this`idleEwmaNs, this`idleSamples
      ensures Valid() && idlePeriods == old(idlePeriods) + [period]
      ensures AnEighthCloser(old(idleEwmaNs), period, idleEwmaNs)
      ensures forall k :: 0 <= k < BUCKETS ==>
        counts[k] == old(counts[k]) + if period > THRESHOLDS_NS[k] then 1 else 0
      ensures idleSamples == (old(idleSamples) + 1) % UINT32
    {
      var before := idlePeriods;
      EwmaGoesAnEighth(idleEwmaNs, period);
      idleEwmaNs := EwmaStep(idleEwmaNs, period);
      CountIn(period);
      idleSamples := (idleSamples + 1) % UINT32;
      idlePeriods := idlePeriods + [period];
      assert idlePeriods[..|before|] == before;
    }

    // lilt_event_hp_mark_active
    method MarkActive(now: nat) returns (newGeneration: nat)
      requires Valid()
      modifies this, counts
      ensures Valid() && active && generation == old(generation) + 1 == newGeneration
      ensures lastActiveNs == now && lastIdleNs == old(lastIdleNs)
      ensures ownerPid == old(ownerPid) && registrations == old(registrations) && registeredNs == old(registeredNs)
      ensures activePeriods == old(activePeriods)
      ensures idlePeriods == old(idlePeriods) + if 0 < old(lastIdleNs) < now then [now - old(lastIdleNs)] else []
      ensures if 0 < old(lastIdleNs) < now then AnEighthCloser(old(idleEwmaNs), now - old(lastIdleNs), idleEwmaNs)
              else idleEwmaNs == old(idleEwmaNs)
      ensures old(Telescopes()) && !old(active) && now >= old(lastIdleNs) ==> Telescopes()
    {
      if lastIdleNs != 0 && now > lastIdleNs {
        CountPeriod(now - lastIdleNs);
        assert idlePeriods[..|idlePeriods| - 1] == old(idlePeriods);
      }
      lastActiveNs := now;
      generation := generation + 1;
      active := true;
      newGeneration := generation;
    }

    method AddActivePeriod(period: nat)
      requires Valid() && period > 0
      modifies this`activePeriods, this`activeEwmaNs, this`activeSamples
      ensures Valid() && activePeriods == old(activePeriods) + [period]
      ensures AnEighthCloser(old(activeEwmaNs), period, activeEwmaNs)
    {
      EwmaGoesAnEighth(activeEwmaNs, period);
      ghost var before := activePeriods;
      activeEwmaNs := EwmaStep(activeEwmaNs, period);
      activeSamples := (activeSamples + 1) % UINT32;
      activePeriods := activePeriods + [period];
      assert activePeriods[..|before|] == before;
    }

    // lilt_event_hp_mark_idle
    method MarkIdle(now: nat)
      requires Valid()
      modifies this
      ensures Valid() && !active && generation == old(generation)
      ensures lastIdleNs == now && lastActiveNs == old(lastActiveNs)
      ensures ownerPid == old(ownerPid) && registrations == old(registrations) && registeredNs == old(registeredNs)
      ensures idlePeriods == old(idlePeriods)
      ensures activePeriods ==
        old(activePeriods) + if 0 < old(lastActiveNs) < now then [now - old(lastActiveNs)] else []
      ensures if 0 < old(lastActiveNs) < now
              then AnEighthCloser(old(activeEwmaNs), now - old(lastActiveNs), activeEwmaNs)
              else activeEwmaNs == old(activeEwmaNs)
      ensures old(Telescopes()) && old(active) && now >= old(lastActiveNs) ==> Telescopes()
    {
      if lastActiveNs != 0 && now > lastActiveNs {
        AddActivePeriod(now - lastActiveNs);
        assert activePeriods[..|activePeriods| - 1] == old(activePeriods);
      }
      lastIdleNs := now;
      active := false;
    }

    // lilt_event_hp_timing_snapshot, between two publications
    method TimingSnapshot() returns (timing: Timing)
      requires Valid()
      ensures Describes(timing, idlePeriods) && timing.active == active
      ensures timing.lastIdleNs == lastIdleNs && timing.idleEwmaNs == Ewma(idlePeriods)
      ensures timing.lastActiveNs == lastActiveNs && timing.activeEwmaNs == Ewma(activePeriods)
      ensures timing.generation == generation && timing.activeSamples == |activePeriods| % UINT32
    {
      return Timing(active, idleSamples, activeSamples, generation, lastActiveNs, lastIdleNs, idleEwmaNs, activeEwmaNs,
                    counts[..]);
    }

    // lilt_event_hp_owner; `alive` answers for the recorded owner.
    method Owner(alive: bool) returns (owner: nat)
      requires Valid()
      modifies this
      ensures Valid() && owner == ownerPid && idlePeriods == old(idlePeriods) && activePeriods == old(activePeriods)
      ensures old(ownerPid) == 0 || alive ==>
        ownerPid == old(ownerPid) && active == old(active) && registrations == old(registrations)
      ensures old(ownerPid) != 0 && !alive ==> ownerPid == 0 && !active && registrations == 0
    {
      if ownerPid != 0 && !alive {
        ownerPid, registrations, active := 0, 0, false;
      }
      owner := ownerPid;
    }

    // One turn of the loop in lilt_event_be_wait_until_idle. Only a dead owner's
    // ACTIVE is ever taken back by a BE process.
    method PollIdle(alive: bool) returns (r: Poll)
      requires Valid()
      modifies this
      ensures Valid() && idlePeriods == old(idlePeriods) && activePeriods == old(activePeriods)
      ensures r.IsIdle? <==> !old(active)
      ensures r.KeepWaiting? <==> old(active) && old(ownerPid) > 0 && alive
      ensures r.KeepWaiting? || r.IsIdle? ==> active == old(active) && ownerPid == old(ownerPid)
      ensures r.ReapedOwner? ==> !active && ownerPid == 0
      ensures registrations == old(registrations)
    {
      if !active {
        return IsIdle;
      }
      if ownerPid == 0 || !alive {
        active, ownerPid := false, 0;
        return ReapedOwner;
      }
      return KeepWaiting;
    }
  }
}
