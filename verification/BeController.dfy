// The admission controller of one best-effort process. The process lock is held
// from `Before` to `After`, so there is one current launch at a time.
module BeController {
  import opened ActivityTracker
  import A = BeAdmission
  import opened BeRing
  import opened Common
  import P = Profiles
  import S = Survival

  datatype Policy = Fixed | Blocks | Gap | Time | Survival | TimeSum

  datatype Config = Config(policy: Policy, blockBudget: nat, timeBudgetNs: nat, unknownKernelNs: nat,
                           gapFractionPct: nat, gapGuardNs: nat,
                           minSamples: nat, confidencePct: nat, promoteConfidencePct: nat,
                           coldStartNs: nat, contextNs: nat, internalWindow: nat, promotedWindow: nat,
                           internalBudgetNs: nat, promotedBudgetNs: nat)

  const SECOND_NS: nat := 1_000_000_000
  const GAP_MIN_SAMPLES: nat := 4

  // The ranges event_be_initialize_window accepts.
  predicate InRange(c: Config) {
    && 1 <= c.blockBudget < UINT64 && 1 <= c.timeBudgetNs <= SECOND_NS && 1 <= c.unknownKernelNs <= SECOND_NS
    && 1 <= c.gapFractionPct <= 100 && c.gapGuardNs <= SECOND_NS
    && 1 <= c.minSamples && 1 <= c.confidencePct <= 100 && 1 <= c.promoteConfidencePct <= 100
    && 1 <= c.coldStartNs <= SECOND_NS && c.contextNs <= SECOND_NS
    && 1 <= c.internalWindow <= A.WINDOW_MAX && 1 <= c.promotedWindow <= A.WINDOW_MAX
    && 1 <= c.internalBudgetNs <= SECOND_NS && 1 <= c.promotedBudgetNs <= SECOND_NS
  }

  predicate UsesTime(policy: Policy) {
    policy == Time || policy == TimeSum || policy == Survival
  }

  // The most predicted time a time-based policy lets into flight together.
  function TimeCap(c: Config): (cap: nat)
    ensures c.policy != Survival ==> cap == c.timeBudgetNs
    ensures c.policy == Survival ==>
      c.internalBudgetNs <= cap && c.promotedBudgetNs <= cap && (cap == c.internalBudgetNs || cap == c.promotedBudgetNs)
  {
    if c.policy == Survival then
      if c.internalBudgetNs >= c.promotedBudgetNs then c.internalBudgetNs else c.promotedBudgetNs
    else c.timeBudgetNs
  }

  // What every policy keeps about the queue of outstanding launches.
  ghost predicate InBudget(c: Config, queue: seq<A.Flight>) {
    && (UsesTime(c.policy) ==> A.TimeBounded(queue, TimeCap(c)) && A.OnlyHeadUnknown(queue))
    && (!UsesTime(c.policy) ==> forall i :: 0 <= i < |queue| ==> queue[i].predictedNs == 0)
    && (c.policy == Blocks || c.policy == Gap ==> A.GridBounded(queue, c.blockBudget))
  }

  lemma {:induction false} NothingPredicted(queue: seq<A.Flight>)
    requires forall i :: 0 <= i < |queue| ==> queue[i].predictedNs == 0
    ensures A.SumPredicted(queue) == 0
  {
    if queue != [] { NothingPredicted(queue[1..]); }
  }

  // The 64-bit sum of predictions never wraps.
  lemma PredictionsFit(c: Config, queue: seq<A.Flight>, f: A.Flight)
    requires InRange(c) && InBudget(c, queue + [f]) && f.predictedNs < UINT64
    ensures A.SumPredicted(queue) + f.predictedNs < UINT64
  {
    A.SumsAppend(queue, f, 0);
    if UsesTime(c.policy) {
      if |queue + [f]| <= 1 { assert queue == []; }
    } else {
      NothingPredicted(queue + [f]);
    }
  }

  lemma PopStaysInBudget(c: Config, queue: seq<A.Flight>)
    requires InBudget(c, queue) && queue != []
    ensures InBudget(c, queue[1..])
  {
    A.PopKeepsBounds(queue, TimeCap(c));
    A.PopKeepsBounds(queue, c.blockBudget);
  }

  // A flight as far as budgets are concerned.
  function Load(blocks: nat, predictedNs: nat, unknown: bool): A.Flight {
    A.Flight(blocks, predictedNs, unknown, false, 0, P.Key(0, 0))
  }

  lemma BudgetIgnoresSampling(c: Config, queue: seq<A.Flight>, f: A.Flight)
    requires InBudget(c, queue + [Load(f.blocks, f.predictedNs, f.unknown)])
    ensures InBudget(c, queue + [f])
  {
    var l := Load(f.blocks, f.predictedNs, f.unknown);
    A.SumsAppend(queue, f, 0);
    A.SumsAppend(queue, l, 0);
    assert forall i :: 0 <= i < |queue| ==> (queue + [f])[i] == (queue + [l])[i];
    assert (queue + [l])[|queue|] == l;
  }

  // What the admission loops leave has room for the launch they admit.
  lemma TimeFits(c: Config, queue: seq<A.Flight>, unknown: bool, blocks: nat, predictedNs: nat, window: nat,
                 budget: nat)
    requires InBudget(c, queue) && UsesTime(c.policy) && 1 <= window && budget <= TimeCap(c)
    requires !A.TimeBlocked(queue, unknown, predictedNs, window, budget)
    ensures |queue| < window && InBudget(c, queue + [Load(blocks, predictedNs, unknown)])
  {
    A.AdmittedTimeKeepsBounds(queue, Load(blocks, predictedNs, unknown), window, budget, TimeCap(c));
  }

  lemma GridFits(c: Config, queue: seq<A.Flight>, blocks: nat, window: nat, budget: nat)
    requires InBudget(c, queue) && !UsesTime(c.policy) && 1 <= window && budget <= c.blockBudget
    requires !A.GridBlocked(queue, blocks, window, c.policy != Fixed, budget)
    ensures |queue| < window && InBudget(c, queue + [Load(blocks, 0, false)])
  {
    if c.policy != Fixed {
      A.AdmittedGridKeepsBounds(queue, Load(blocks, 0, false), window, budget, c.blockBudget);
    }
  }

  // ----- sampling quota -----

  // Each profile's pending count is the in-flight samples plus the prepared one,
  // and no profile is ever measured more often than wanted.
  ghost predicate QuotaHolds(entries: seq<P.Profile>, queue: seq<A.Flight>, prepared: int) {
    && |entries| == P.TABLE_SIZE
    && (forall p :: 0 <= p < P.TABLE_SIZE ==>
          entries[p].pendingSamples == A.SampledCount(queue, p) + (if p == prepared then 1 else 0))
    && (forall p :: 0 <= p < P.TABLE_SIZE ==> entries[p].samples + entries[p].pendingSamples <= 3)
    && (forall p :: 0 <= p < P.TABLE_SIZE ==> entries[p].durationEwmaNs < UINT64)
    && (forall i :: 0 <= i < |queue| && queue[i].sampled ==>
          queue[i].profile < P.TABLE_SIZE && entries[queue[i].profile].occupied)
    && (prepared >= 0 ==> prepared < P.TABLE_SIZE && entries[prepared].occupied)
  }

  lemma QuotaOnPop(entries: seq<P.Profile>, queue: seq<A.Flight>, prepared: int)
    requires QuotaHolds(entries, queue, prepared) && queue != [] && !queue[0].sampled
    ensures QuotaHolds(entries, queue[1..], prepared)
  {
    assert forall p :: A.SampledCount(queue, p) == A.SampledCount(queue[1..], p);
  }

  // What the driver reports of a launch that has ended: whether waiting for it
  // worked, whether its duration could be read, and the duration.
  datatype Completion = Completion(syncOk: bool, elapsedOk: bool, durationNs: Word)

  function Measured(end: Completion): (ns: Word)
    ensures end.syncOk && end.elapsedOk ==> ns == end.durationNs
    ensures !end.syncOk || !end.elapsedOk ==> ns == 0
  {
    if end.syncOk && end.elapsedOk then end.durationNs else 0
  }

  // The table after the oldest launch of `queue` is retired.
  ghost function Retired(entries: seq<P.Profile>, queue: seq<A.Flight>, end: Completion): seq<P.Profile> {
    if queue != [] && queue[0].sampled && queue[0].profile < |entries|
    then entries[queue[0].profile := P.Credit(entries[queue[0].profile], Measured(end))]
    else entries
  }

  // What a retirement does to the table: the profile of a measured launch gets its
  // pending sample back and, if the duration could be read and is not zero, learns
  // from it; nothing else changes.
  ghost predicate RetiredRight(before: seq<P.Profile>, after: seq<P.Profile>, queue: seq<A.Flight>, end: Completion) {
    if queue == [] || !queue[0].sampled || queue[0].profile >= |before| then after == before
    else
      var i := queue[0].profile;
      && |after| == |before| && (forall k :: 0 <= k < |before| && k != i ==> after[k] == before[k])
      && after[i].key == before[i].key && after[i].pendingSamples + 1 == before[i].pendingSamples
      && if end.syncOk && end.elapsedOk && end.durationNs > 0
         then P.AQuarterCloser(before[i], end.durationNs, after[i])
         else after[i].samples == before[i].samples && after[i].durationEwmaNs == before[i].durationEwmaNs
  }

  lemma RetiredIsRight(entries: seq<P.Profile>, queue: seq<A.Flight>, prepared: int, end: Completion)
    requires QuotaHolds(entries, queue, prepared)
    ensures RetiredRight(entries, Retired(entries, queue, end), queue, end)
  {
    if queue != [] && queue[0].sampled {
      HeadIsCounted(entries, queue, prepared);
      P.LearnGoesAQuarter(entries[queue[0].profile], Measured(end));
    }
  }

  lemma QuotaOnSampledPop(entries: seq<P.Profile>, queue: seq<A.Flight>, prepared: int, durationNs: Word)
    requires QuotaHolds(entries, queue, prepared) && queue != [] && queue[0].sampled
    ensures QuotaHolds(entries[queue[0].profile := P.Credit(entries[queue[0].profile], durationNs)], queue[1..],
                       prepared)
  {
    HeadIsCounted(entries, queue, prepared);
    var p := entries[queue[0].profile];
    P.LearnStaysInRange(p, durationNs, 0, UINT64 - 1);
    QuotaOnCredit(entries, queue, prepared, P.Credit(p, durationNs));
  }

  lemma QuotaOnCredit(entries: seq<P.Profile>, queue: seq<A.Flight>, prepared: int, e: P.Profile)
    requires QuotaHolds(entries, queue, prepared) && queue != [] && queue[0].sampled
    requires var p := entries[queue[0].profile];
             && e.pendingSamples + 1 == p.pendingSamples && e.samples <= p.samples + 1
             && e.durationEwmaNs < UINT64 && e.occupied
    ensures QuotaHolds(entries[queue[0].profile := e], queue[1..], prepared)
  {
  }

  function Asked(p: P.Profile): (r: P.Profile)
    ensures r.(pendingSamples := p.pendingSamples) == p
  {
    p.(pendingSamples := p.pendingSamples + 1)
  }

  function Dropped(p: P.Profile): (r: P.Profile)
    ensures r.(pendingSamples := p.pendingSamples) == p
  {
    p.(pendingSamples := if p.pendingSamples > 0 then p.pendingSamples - 1 else 0)
  }

  // The table after a launch: a prepared measurement that does not join the queue
  // is given back.
  ghost function Settled(entries: seq<P.Profile>, prepared: int, recorded: bool): seq<P.Profile> {
    if 0 <= prepared < |entries| && !recorded then entries[prepared := Dropped(entries[prepared])] else entries
  }

  lemma QuotaOnPrepare(entries: seq<P.Profile>, queue: seq<A.Flight>, p: nat, e: P.Profile)
    requires QuotaHolds(entries, queue, -1) && p < P.TABLE_SIZE && entries[p].occupied
    requires entries[p].samples + entries[p].pendingSamples < P.SAMPLES_WANTED
    requires e == Asked(entries[p])
    ensures QuotaHolds(entries[p := e], queue, p)
  {
  }

  lemma PreparedIsCounted(entries: seq<P.Profile>, queue: seq<A.Flight>, p: nat)
    requires QuotaHolds(entries, queue, p)
    ensures p < P.TABLE_SIZE && entries[p].pendingSamples > 0
  {
  }

  lemma QuotaOnDrop(entries: seq<P.Profile>, queue: seq<A.Flight>, p: nat, e: P.Profile)
    requires QuotaHolds(entries, queue, p) && entries[p].pendingSamples > 0 && e == Dropped(entries[p])
    ensures QuotaHolds(entries[p := e], queue, -1)
  {
  }

  // A lookup changes no counts.
  lemma QuotaFrame(a: seq<P.Profile>, b: seq<P.Profile>, queue: seq<A.Flight>)
    requires QuotaHolds(a, queue, -1) && P.SameRecords(a, b)
    ensures QuotaHolds(b, queue, -1)
  {
    assert forall i :: 0 <= i < P.TABLE_SIZE ==> P.SameRecord(b[i], a[i]);
  }

  lemma HeadIsCounted(entries: seq<P.Profile>, queue: seq<A.Flight>, prepared: int)
    requires QuotaHolds(entries, queue, prepared) && queue != [] && queue[0].sampled
    ensures queue[0].profile < P.TABLE_SIZE && entries[queue[0].profile].occupied
    ensures entries[queue[0].profile].pendingSamples > 0 && entries[queue[0].profile].durationEwmaNs < UINT64
  {
    assert A.SampledCount(queue, queue[0].profile) >= 1;
  }

  lemma QuotaOnPush(entries: seq<P.Profile>, queue: seq<A.Flight>, prepared: int, f: A.Flight)
    requires QuotaHolds(entries, queue, prepared)
    requires f.sampled <==> prepared >= 0
    requires f.sampled ==> f.profile == prepared
    ensures QuotaHolds(entries, queue + [f], -1)
  {
    forall p | 0 <= p < P.TABLE_SIZE
      ensures entries[p].pendingSamples == A.SampledCount(queue + [f], p)
    {
      A.SumsAppend(queue, f, p);
    }
  }

  // All that a launch brings with it when it joins the queue.
  lemma PushKeeps(c: Config, entries: seq<P.Profile>, index: P.Index, queue: seq<A.Flight>, prepared: int, f: A.Flight)
    requires InRange(c) && InBudget(c, queue + [Load(f.blocks, f.predictedNs, f.unknown)]) && f.predictedNs < UINT64
    requires QuotaHolds(entries, queue, prepared) && KeyedBy(index, queue)
    requires f.sampled <==> prepared >= 0
    requires f.sampled ==> f.profile == prepared && KeyAt(index, f.key, f.profile)
    ensures InBudget(c, queue + [f]) && A.SumPredicted(queue) + f.predictedNs < UINT64
    ensures QuotaHolds(entries, queue + [f], -1) && KeyedBy(index, queue + [f])
  {
    BudgetIgnoresSampling(c, queue, f);
    PredictionsFit(c, queue, f);
    QuotaOnPush(entries, queue, prepared, f);
    KeyedOnPush(index, queue, f);
  }

  // ----- effective budgets -----

  // Idle time the moving average still promises, less the guard.
  function GapLeft(c: Config, timing: Timing, now: nat): (left: nat)
    ensures now >= timing.lastIdleNs ==>
      if left > 0 then now + c.gapGuardNs + left == timing.lastIdleNs + timing.idleEwmaNs
      else now + c.gapGuardNs >= timing.lastIdleNs + timing.idleEwmaNs
    ensures now < timing.lastIdleNs ==>
      if left > 0 then c.gapGuardNs + left == timing.idleEwmaNs else c.gapGuardNs >= timing.idleEwmaNs
  {
    var elapsed := if now > timing.lastIdleNs then now - timing.lastIdleNs else 0;
    var consumed := elapsed + c.gapGuardNs;
    if consumed < timing.idleEwmaNs then timing.idleEwmaNs - consumed else 0
  }

  predicate GapKnown(timing: Timing) {
    !timing.active && timing.idleSamples >= GAP_MIN_SAMPLES && timing.idleEwmaNs > 0 && timing.lastIdleNs > 0
  }

  // whole * part / all, rounded down.
  function Portion(whole: nat, part: nat, all: nat): (r: nat)
    requires part <= all && all > 0
    ensures r <= whole && r * all <= whole * part < (r + 1) * all
  {
    MulLe(part, all, whole, whole);
    DivLe(whole * part, whole, all);
    DivBounds(whole * part, all);
    whole * part / all
  }

  lemma DivBounds(a: nat, d: nat)
    requires d > 0
    ensures (a / d) * d <= a < (a / d + 1) * d
  {
    assert a == (a / d) * d + a % d;
    assert (a / d + 1) * d == (a / d) * d + d;
  }

  // The largest budget, up to the configured one, within the configured share of
  // what is left of the gap; one when there is none.
  ghost predicate LargestShare(budget: nat, cap: nat, pct: nat, left: nat) {
    && 1 <= budget <= cap
    && (budget > 1 ==> budget * 100 <= left * pct)
    && (budget < cap ==> left * pct < (budget + 1) * 100)
  }

  // event_be_effective_time_budget_locked: never above the configured budget,
  // and, when the gap can be foreseen, never above its share of it.
  function EffectiveTimeBudget(c: Config, timing: Timing, now: nat): (budget: nat)
    requires InRange(c)
    ensures
      c.policy == TimeSum || timing.active || timing.idleSamples < 4 || timing.idleEwmaNs == 0 || timing.lastIdleNs == 0
      ==> budget == c.timeBudgetNs
    ensures
      c.policy != TimeSum && !timing.active && timing.idleSamples >= 4 && timing.idleEwmaNs > 0 && timing.lastIdleNs > 0
      ==> LargestShare(budget, c.timeBudgetNs, c.gapFractionPct, GapLeft(c, timing, now))
  {
    if c.policy == TimeSum || !GapKnown(timing) then c.timeBudgetNs
    else
      var safe := Portion(GapLeft(c, timing, now), c.gapFractionPct, 100);
      SmallerFits(safe, c.timeBudgetNs, GapLeft(c, timing, now) * c.gapFractionPct);
      var budget := if safe < c.timeBudgetNs then safe else c.timeBudgetNs;
      if budget == 0 then 1 else budget
  }

  lemma SmallerFits(safe: nat, cap: nat, bound: nat)
    requires safe * 100 <= bound < (safe + 1) * 100 && cap >= 1
    ensures cap <= safe ==> cap * 100 <= bound
    ensures safe == 0 ==> bound < 200
  {
  }

  // The part of the block budget that goes with what is left of the gap.
  ghost predicate BlockShare(budget: nat, c: Config, timing: Timing, now: nat) {
    var left := GapLeft(c, timing, now) * c.gapFractionPct;
    && 1 <= budget <= c.blockBudget
    && (budget > 1 ==> budget * (timing.idleEwmaNs * 100) <= c.blockBudget * left)
    && c.blockBudget * left < (budget + 1) * (timing.idleEwmaNs * 100)
  }

  // event_be_effective_block_budget_locked
  function EffectiveBlockBudget(c: Config, timing: Timing, now: nat): (budget: nat)
    requires InRange(c)
    ensures
      c.policy != Gap || timing.active || timing.idleSamples < 4 || timing.idleEwmaNs == 0 || timing.lastIdleNs == 0
      ==> budget == c.blockBudget
    ensures
      c.policy == Gap && !timing.active && timing.idleSamples >= 4 && timing.idleEwmaNs > 0 && timing.lastIdleNs > 0
      ==> BlockShare(budget, c, timing, now)
  {
    if c.policy != Gap || !GapKnown(timing) then c.blockBudget
    else
      MulLe(GapLeft(c, timing, now), timing.idleEwmaNs, c.gapFractionPct, 100);
      var budget := Portion(c.blockBudget, GapLeft(c, timing, now) * c.gapFractionPct, timing.idleEwmaNs * 100);
      MulLe(1, 2, timing.idleEwmaNs * 100, timing.idleEwmaNs * 100);
      if budget == 0 then 1 else budget
  }

  lemma DivLe(a: nat, q: nat, d: nat)
    requires d > 0 && a <= q * d
    ensures a / d <= q
  {
    assert (a / d) * d <= a;
    MulCancel(a / d, q, d);
  }

  lemma MulCancel(x: nat, y: nat, d: nat)
    requires d > 0 && x * d <= y * d
    ensures x <= y
  {
    if x > y { MulLe(y + 1, x, d, d); }
  }

  // r is what is left of q after some launches, oldest first, have gone.
  ghost predicate Suffix(r: seq<A.Flight>, q: seq<A.Flight>) {
    |r| <= |q| && r == q[|q| - |r|..]
  }

  lemma SuffixStep(r: seq<A.Flight>, q: seq<A.Flight>)
    requires Suffix(r, q)
    ensures r != [] ==> Suffix(r[1..], q)
  {
  }

  datatype Turn = Admitted | RetiredOne | Sleep

  ghost predicate KeyAt(index: P.Index, key: P.Key, i: int) {
    key in index && index[key] == i
  }

  // Every measured launch is measured for the profile of its own kernel and grid.
  ghost predicate KeyedBy(index: P.Index, queue: seq<A.Flight>) {
    forall i :: 0 <= i < |queue| && queue[i].sampled ==> KeyAt(index, queue[i].key, queue[i].profile)
  }

  // The profile of a launch is the one of its key, and no other key has moved.
  ghost predicate Located(before: P.Index, after: P.Index, key: P.Key, profile: int) {
    P.Keeps(before, after) && (profile >= 0 ==> KeyAt(after, key, profile))
  }

  lemma KeyedOnPush(index: P.Index, queue: seq<A.Flight>, f: A.Flight)
    requires KeyedBy(index, queue) && (f.sampled ==> KeyAt(index, f.key, f.profile))
    ensures KeyedBy(index, queue + [f])
  {
  }

  lemma KeyedFrame(before: P.Index, after: P.Index, queue: seq<A.Flight>)
    requires KeyedBy(before, queue) && P.Keeps(before, after)
    ensures KeyedBy(after, queue)
  {
  }

  // What a retirement learns, it learns for the kernel that was measured: from now
  // on its prediction is the learned duration with its margin.
  lemma MeasuredKernelIsKnown(home: P.Home, entries: seq<P.Profile>, index: P.Index, queue: seq<A.Flight>,
                              prepared: int, end: Completion, unknownNs: nat, unknown: bool, ns: nat)
    requires P.Represents(home, entries, index) && QuotaHolds(entries, queue, prepared) && KeyedBy(index, queue)
    requires queue != [] && queue[0].sampled && end.syncOk && end.elapsedOk && end.durationNs > 0
    requires P.Forecast(Retired(entries, queue, end), index, queue[0].key, unknownNs, unknown, ns)
    ensures var i := index[queue[0].key];
            var after := Retired(entries, queue, end)[i];
            && P.AQuarterCloser(entries[i], end.durationNs, after) && after.durationEwmaNs < UINT64
            && !unknown && ns == P.WithMargin(after.durationEwmaNs)
  {
    HeadIsCounted(entries, queue, prepared);
    P.LearnGoesAQuarter(entries[queue[0].profile], end.durationNs);
    P.LearnStaysInRange(entries[queue[0].profile], Measured(end), 0, UINT64 - 1);
  }

  // One look at the shared state, with the history behind its histogram.
  datatype Observation = Observation(timing: Timing, now: nat, periods: seq<nat>)

  ghost predicate Truthful(o: Observation) {
    Describes(o.timing, o.periods) && S.InRange(o.periods) && o.now < UINT64
  }

  // The estimates for this observation are backed by the history: from the first
  // threshold on always, below it while the sample count holds.
  ghost predicate Trusted(o: Observation)
    requires Truthful(o)
  {
    Elapsed(o) >= THRESHOLDS_NS[0] || S.SampleCountHolds(o.timing, |o.periods|)
  }

  // The HP process has been idle for longer than every bucket.
  predicate VeryLong(o: Observation) {
    !o.timing.active && o.timing.lastIdleNs > 0 && o.now >= o.timing.lastIdleNs + 20_000_000
  }

  // One of the observations from lo up to hi is of a very long idle period.
  ghost predicate VeryLongAfter(observations: seq<Observation>, lo: nat, hi: nat)
    requires hi <= |observations|
  {
    exists i :: lo <= i < hi && VeryLong(observations[i])
  }

  lemma NotYetVeryLong(observations: seq<Observation>, lo: nat, i: nat)
    requires i < |observations| && !VeryLongAfter(observations, lo, i)
    requires lo <= i ==> !VeryLong(observations[i])
    ensures !VeryLongAfter(observations, lo, i + 1)
  {
  }

  function Left(n: nat, gone: nat): nat {
    if gone <= n then n - gone else 0
  }

  ghost predicate AllTruthful(observations: seq<Observation>) {
    forall i :: 0 <= i < |observations| ==> Truthful(observations[i])
  }

  // How long the HP process has been idle, on a clock that may read behind.
  function Elapsed(o: Observation): (ns: nat)
    ensures o.now >= o.timing.lastIdleNs ==> o.timing.lastIdleNs + ns == o.now
    ensures o.now < o.timing.lastIdleNs ==> ns == 0
  {
    if o.now > o.timing.lastIdleNs then o.now - o.timing.lastIdleNs else 0
  }

  lemma BackedByLess(pct: nat, conf: nat, periods: seq<nat>, elapsed: nat, summed: nat, ahead: nat)
    requires S.Backed(pct, periods, elapsed, summed) && conf <= pct && S.InRange(periods)
    requires summed == ahead || summed == UINT64 - 1 <= ahead
    ensures S.Backed(conf, periods, elapsed, ahead)
  {
    MulLe(conf, pct, LongerThan(periods, elapsed), LongerThan(periods, elapsed));
    if summed != ahead {
      S.NoneLonger(periods);
      LongerThanFalls(periods, UINT64 - 1, elapsed + summed);
    }
  }

  // The work ahead is summed with saturation; the answer speaks of the true sum.
  method Support(o: Observation, context: nat, outstanding: nat, incoming: nat, guard: nat, conf: nat)
    returns (enough: bool, denominator: nat)
    requires Truthful(o) && context < UINT64 && outstanding < UINT64 && incoming < UINT64 && guard < UINT64
    ensures enough && Trusted(o) ==> S.Backed(conf, o.periods, Elapsed(o), context + outstanding + incoming + guard)
    ensures enough <==> TableSays(o, AllAhead(context, outstanding, incoming, guard), conf, denominator)
    ensures denominator <= |o.periods| && IsDenominator(o, denominator)
  {
    var additional := AllAhead(context, outstanding, incoming, guard);
    var pct;
    pct, denominator := S.ProbabilityPct(o.timing, Elapsed(o), additional, o.periods);
    enough := pct >= conf;
    OneEstimate(o, additional, pct, denominator);
    if enough && Trusted(o) {
      BackedByLess(pct, conf, o.periods, Elapsed(o), additional, context + outstanding + incoming + guard);
    }
  }

  function AllAhead(context: nat, outstanding: nat, incoming: nat, guard: nat): (ns: nat)
    requires context < UINT64 && outstanding < UINT64 && incoming < UINT64 && guard < UINT64
    ensures ns == context + outstanding + incoming + guard
      || (ns == UINT64 - 1 < context + outstanding + incoming + guard)
  {
    S.AddSaturating(S.AddSaturating(context, S.AddSaturating(outstanding, incoming)), guard)
  }

  ghost predicate IsDenominator(o: Observation, denominator: nat)
    requires Truthful(o)
  {
    S.IsDenominator(THRESHOLDS_NS, o.timing.counts, o.timing.idleSamples, Elapsed(o), denominator)
  }

  // The histogram gives at least `conf` percent for `additional` more.
  ghost predicate TableSays(o: Observation, additional: nat, conf: nat, denominator: nat)
    requires Truthful(o) && additional < UINT64
  {
    exists pct: nat :: S.IsEstimate(o.timing, Elapsed(o), additional, pct, denominator) && pct >= conf
  }

  lemma OneEstimate(o: Observation, additional: nat, pct: nat, denominator: nat)
    requires Truthful(o) && additional < UINT64 && S.IsEstimate(o.timing, Elapsed(o), additional, pct, denominator)
    ensures forall other: nat :: S.IsEstimate(o.timing, Elapsed(o), additional, other, denominator) ==> other == pct
  {
    S.ThresholdsClimb();
  }

  datatype Verdict = Verdict(admitted: bool, promoted: bool, window: nat, budget: nat)

  // The rules of admission: a period longer than every bucket; enough waiting
  // while the histogram says too little; or a histogram that says enough.
  ghost predicate RuledRight(c: Config, o: Observation, context: nat, outstanding: nat, incoming: nat, ringWindow: nat,
                             denominator: nat, v: Verdict)
    requires InRange(c) && Truthful(o) && context <= SECOND_NS && outstanding < UINT64 && incoming < UINT64
  {
    var ready := o.timing.idleSamples >= c.minSamples && denominator >= c.minSamples;
    var veryLong := Elapsed(o) >= THRESHOLDS_NS[BUCKETS - 1];
    var whole := AllAhead(context, outstanding, c.promotedBudgetNs, 0);
    var ahead := AllAhead(context, outstanding, incoming, c.gapGuardNs);
    var promoted := veryLong || (ready && TableSays(o, whole, c.promoteConfidencePct, denominator));
    var chosen := if promoted then c.promotedWindow else c.internalWindow;
    && (v.admitted <==>
          veryLong || (!ready && Elapsed(o) >= c.coldStartNs)
          || (ready && TableSays(o, ahead, c.confidencePct, denominator)))
    && (v.admitted ==> v.promoted == promoted
                       && v.window == (if chosen <= ringWindow then chosen else ringWindow)
                       && v.budget == if promoted then c.promotedBudgetNs else c.internalBudgetNs)
  }

  // The rules, spelled out over the clock.
  lemma RulesSpelledOut(c: Config, o: Observation, context: nat, outstanding: nat, incoming: nat, ringWindow: nat,
                        denominator: nat, v: Verdict)
    requires InRange(c) && Truthful(o) && context <= SECOND_NS && outstanding < UINT64 && incoming < UINT64
    requires RuledRight(c, o, context, outstanding, incoming, ringWindow, denominator, v)
    requires o.now >= o.timing.lastIdleNs
    ensures o.now >= o.timing.lastIdleNs + 20_000_000 ==> v.admitted && v.promoted
    ensures var few := o.timing.idleSamples < c.minSamples || denominator < c.minSamples;
            o.now < o.timing.lastIdleNs + 20_000_000 && few ==>
              (v.admitted <==> o.now >= o.timing.lastIdleNs + c.coldStartNs) && (v.admitted ==> !v.promoted)
    ensures var few := o.timing.idleSamples < c.minSamples || denominator < c.minSamples;
            var ahead := AllAhead(context, outstanding, incoming, c.gapGuardNs);
            var whole := AllAhead(context, outstanding, c.promotedBudgetNs, 0);
            o.now < o.timing.lastIdleNs + 20_000_000 && !few ==>
              && (v.admitted <==> TableSays(o, ahead, c.confidencePct, denominator))
              && (v.admitted ==> (v.promoted <==> TableSays(o, whole, c.promoteConfidencePct, denominator)))
    ensures v.admitted && v.promoted ==> v.budget == c.promotedBudgetNs && v.window <= c.promotedWindow
    ensures v.admitted && !v.promoted ==> v.budget == c.internalBudgetNs && v.window <= c.internalWindow
    ensures v.admitted ==>
      v.window == ringWindow || v.window == if v.promoted then c.promotedWindow else c.internalWindow
    ensures v.admitted ==> v.window <= ringWindow
  {
    S.ThresholdsClimb();
  }

  // v is what the rules say of this observation.
  ghost predicate AnswerIs(c: Config, o: Observation, context: nat, outstanding: nat, incoming: nat, ringWindow: nat,
                           denominator: nat, v: Verdict)
    requires InRange(c) && Truthful(o) && context <= SECOND_NS && outstanding < UINT64 && incoming < UINT64
  {
    if o.timing.active || o.timing.lastIdleNs == 0 then !v.admitted
    else IsDenominator(o, denominator) && RuledRight(c, o, context, outstanding, incoming, ringWindow, denominator, v)
  }

  // What the histogram is asked for, and answers, is backed by the history: an
  // admission for all the work ahead, and a promotion for a whole promoted budget.
  ghost predicate BackedByHistory(c: Config, o: Observation, context: nat, outstanding: nat, incoming: nat,
                                  denominator: nat, v: Verdict)
    requires Truthful(o)
  {
    var idle := if o.now >= o.timing.lastIdleNs then o.now - o.timing.lastIdleNs else 0;
    var trusted := idle >= 20_000 || S.SampleCountHolds(o.timing, |o.periods|);
    var asked := idle < 20_000_000 && o.timing.idleSamples >= c.minSamples && denominator >= c.minSamples;
    && (v.admitted && trusted && asked ==>
          S.Backed(c.confidencePct, o.periods, idle, context + outstanding + incoming + c.gapGuardNs))
    && (v.admitted && v.promoted && trusted && idle < 20_000_000 ==>
          S.Backed(c.promoteConfidencePct, o.periods, idle, context + outstanding + c.promotedBudgetNs))
  }

  // One of the observations let the launch in, by the rules and with their backing.
  ghost predicate LetIn(c: Config, observations: seq<Observation>, outstanding: nat, incoming: nat, ringWindow: nat)
    requires InRange(c) && AllTruthful(observations) && outstanding < UINT64 && incoming < UINT64
  {
    exists i, context, denominator, v :: 0 <= i < |observations|
      && LetInBy(c, observations[i], context, outstanding, incoming, ringWindow, denominator, v)
  }

  ghost predicate LetInBy(c: Config, o: Observation, context: nat, outstanding: nat, incoming: nat, ringWindow: nat,
                          denominator: nat, v: Verdict)
    requires InRange(c) && Truthful(o) && outstanding < UINT64 && incoming < UINT64
  {
    && context <= SECOND_NS && v.admitted
    && AnswerIs(c, o, context, outstanding, incoming, ringWindow, denominator, v)
    && BackedByHistory(c, o, context, outstanding, incoming, denominator, v)
  }

  // How the survival loop ends. If it admits, one of the observations let the
  // launch in, and an unknown kernel goes alone. If not, no very long idle period
  // was seen once the `n` outstanding launches were retired.
  ghost predicate LoopEnd(c: Config, observations: seq<Observation>, n: nat, alone: bool, unknown: bool,
                          outstanding: nat, incoming: nat, ringWindow: nat, admitted: bool)
    requires InRange(c) && AllTruthful(observations) && outstanding < UINT64 && incoming < UINT64
  {
    if admitted then LetIn(c, observations, outstanding, incoming, ringWindow) && (unknown ==> alone)
    else !VeryLongAfter(observations, n, |observations|)
  }

  lemma ShowLetIn(c: Config, observations: seq<Observation>, i: nat, context: nat, outstanding: nat, incoming: nat,
                  ringWindow: nat, denominator: nat, v: Verdict)
    requires InRange(c) && AllTruthful(observations) && outstanding < UINT64 && incoming < UINT64 && i < |observations|
    requires LetInBy(c, observations[i], context, outstanding, incoming, ringWindow, denominator, v)
    ensures LetIn(c, observations, outstanding, incoming, ringWindow)
  {
  }

  // The decision of event_be_survival_admission_locked on its inputs. Whenever the
  // histogram decides, what it admits is backed by the history.
  method SurvivalDecision(c: Config, o: Observation, context: nat, outstanding: nat, incoming: nat, ringWindow: nat)
    returns (v: Verdict, ghost denominator: nat)
    requires InRange(c) && c.policy == Survival && Truthful(o) && ringWindow >= 1
    requires context <= SECOND_NS && outstanding < UINT64 && incoming < UINT64
    ensures v.admitted ==> 1 <= v.window <= ringWindow && v.budget <= TimeCap(c)
    ensures BackedByHistory(c, o, context, outstanding, incoming, denominator, v)
    ensures IsDenominator(o, denominator)
    ensures RuledRight(c, o, context, outstanding, incoming, ringWindow, denominator, v)
  {
    v := Verdict(false, false, 1, 1);
    var elapsed := Elapsed(o);
    var confident, observed := Support(o, context, outstanding, incoming, c.gapGuardNs, c.confidencePct);
    denominator := observed;
    var globalReady := o.timing.idleSamples >= c.minSamples;
    var ready := globalReady && observed >= c.minSamples;
    var veryLong := elapsed >= THRESHOLDS_NS[BUCKETS - 1];
    var cold := !globalReady && elapsed >= c.coldStartNs;
    var sparse := globalReady && !ready && elapsed >= c.coldStartNs;
    if !veryLong && !cold && !sparse && (!ready || !confident) {
      return;
    }
    var promotable, again := Support(o, context, outstanding, c.promotedBudgetNs, 0, c.promoteConfidencePct);
    SameDenominator(o, observed, again);
    var promoted := veryLong || (ready && promotable);
    var window := if promoted then c.promotedWindow else c.internalWindow;
    if window > ringWindow {
      window := ringWindow;
    }
    v := Verdict(true, promoted, window, if promoted then c.promotedBudgetNs else c.internalBudgetNs);
  }

  lemma SameDenominator(o: Observation, a: nat, b: nat)
    requires Truthful(o) && IsDenominator(o, a) && IsDenominator(o, b)
    ensures a == b
  {
    S.ThresholdsClimb();
  }

  class Controller {
    const config: Config
    const table: P.ProfileTable
    const ring: Ring
    var currentBlocks: nat
    var currentPredictedNs: nat
    var currentProfile: int
    var currentUnknown: bool
    var currentSample: bool
    var currentUsesWindow: bool
    ghost var currentKey: P.Key
    var episodeLastIdleNs: nat
    var episodeLaunches: nat

    // The launch between `Before` and `After`, as it would join the queue.
    ghost function CurrentFlight(): A.Flight
      reads this
    {
      A.Flight(currentBlocks, currentPredictedNs, currentUnknown, currentSample,
               if currentProfile >= 0 then currentProfile else 0, currentKey)
    }

    ghost function Prepared(): int
      reads this
    {
      if currentSample then currentProfile else -1
    }

    ghost predicate CurrentFits()
      reads this, ring
    {
      && |ring.queue| < ring.window
      && InBudget(config, ring.queue + [Load(currentBlocks, currentPredictedNs, currentUnknown)])
      && currentPredictedNs < UINT64 && currentBlocks < A.BLOCK_LIMIT
    }

    ghost predicate Valid()
      reads this, table, table.entries, ring, ring.slots
    {
      && InRange(config) && table.Valid() && ring.Valid()
      && InBudget(config, ring.queue)
      && QuotaHolds(table.entries[..], ring.queue, Prepared())
      && KeyedBy(table.index, ring.queue)
      && (currentProfile >= 0 ==> KeyAt(table.index, currentKey, currentProfile))
      && (currentUsesWindow ==> CurrentFits())
      && -1 <= currentProfile < P.TABLE_SIZE
      && (currentSample ==> currentProfile >= 0)
    }

    // Between launches, or before the current one is admitted.
    predicate Undecided()
      reads this
    {
      !currentUsesWindow && !currentSample
    }

    constructor (config: Config, window: nat)
      requires InRange(config) && 1 <= window <= A.WINDOW_MAX
      ensures Valid() && Undecided() && ring.queue == [] && this.config == config && ring.window == window
      ensures fresh(table) && fresh(table.entries) && fresh(ring) && fresh(ring.slots)
    {
      this.config := config;
      var t := new P.ProfileTable();
      var r := new Ring(window);
      table, ring := t, r;
      currentBlocks, currentPredictedNs, currentProfile := 0, 0, -1;
      currentUnknown, currentSample, currentUsesWindow := false, false, false;
      currentKey := P.Key(0, 0);
      episodeLastIdleNs, episodeLaunches := 0, 0;
    }

    // The profile half of event_be_retire_oldest_locked, for a measured launch.
    method CreditSample(i: nat, durationNs: nat)
      requires table.Valid() && i < P.TABLE_SIZE && table.entries[i].occupied && durationNs < UINT64
      requires table.entries[i].pendingSamples > 0
      modifies table.entries
      ensures table.Valid()
      ensures table.entries[..] == old(table.entries[..])[i := P.Credit(old(table.entries[i]), durationNs)]
    {
      var e := table.entries[i];
      table.Set(i, e.(pendingSamples := e.pendingSamples - 1));
      if durationNs > 0 {
        var _ := table.Update(i, durationNs);
      }
    }

    // event_be_retire_oldest_locked: first in, first out. A measured launch
    // teaches its profile what it took.
    method Retire(end: Completion)
      requires Valid() && Undecided()
      modifies ring, ring.slots, table.entries
      ensures Valid() && table.index == old(table.index)
      ensures ring.queue == if old(ring.queue) == [] then [] else old(ring.queue)[1..]
      ensures table.entries[..] == Retired(old(table.entries[..]), old(ring.queue), end)
      ensures RetiredRight(old(table.entries[..]), table.entries[..], old(ring.queue), end)
      ensures old(ring.queue) != [] && old(ring.queue)[0].sampled ==>
        KeyAt(table.index, old(ring.queue)[0].key, old(ring.queue)[0].profile)
    {
      if ring.outstanding == 0 {
        return;
      }
      ghost var queue, entries := ring.queue, table.entries[..];
      RetiredIsRight(entries, queue, -1, end);
      PopStaysInBudget(config, queue);
      var slot := ring.Pop();
      if slot.timingSample {
        HeadIsCounted(entries, queue, -1);
        QuotaOnSampledPop(entries, queue, -1, Measured(end));
        CreditSample(slot.profileIndex, Measured(end));
      } else {
        QuotaOnPop(entries, queue, -1);
      }
    }

    // What the driver says about a finished launch is left open.
    static method Completed() returns (end: Completion)
    {
      var syncOk: bool, elapsedOk: bool := *, *;
      var measured: int := *;
      end := Completion(syncOk, elapsedOk, if 0 <= measured < UINT64 then measured else 0);
    }

    // event_be_drain_window_locked
    method Drain()
      requires Valid() && Undecided()
      modifies ring, ring.slots, table.entries
      ensures Valid() && table.index == old(table.index) && ring.queue == []
    {
      while ring.outstanding > 0
        invariant Valid() && Undecided() && table.index == old(table.index)
        decreases ring.outstanding
      {
        var end := Completed();
        Retire(end);
      }
    }

    // ----- before the launch -----

    // The launch is now the current one, with nothing known about it yet.
    method Begin(key: P.Key)
      requires Valid() && Undecided() && key.blocks < A.BLOCK_LIMIT
      modifies this
      ensures Valid() && Undecided() && currentKey == key && currentBlocks == key.blocks
      ensures currentPredictedNs == 0 && currentProfile == -1 && !currentUnknown
    {
      currentBlocks, currentPredictedNs, currentProfile, currentUnknown := key.blocks, 0, -1, false;
      currentKey := key;
    }

    // event_be_predict_kernel_ns_locked
    method Predict(key: P.Key)
      requires Valid() && Undecided() && currentKey == key
      modifies this`currentProfile, this`currentUnknown, this`currentPredictedNs, table, table.entries
      ensures Valid() && Undecided() && currentPredictedNs < UINT64
      ensures P.Forecast(old(table.entries[..]), old(table.index), key, config.unknownKernelNs, currentUnknown,
                         currentPredictedNs)
      ensures currentKey == key && Located(old(table.index), table.index, key, currentProfile)
    {
      ghost var entries, index := table.entries[..], table.index;
      currentProfile, currentUnknown, currentPredictedNs := table.Predict(key, config.unknownKernelNs);
      QuotaFrame(entries, table.entries[..], ring.queue);
      KeyedFrame(index, table.index, ring.queue);
    }

    // The admission loop of the time and time-sum policies.
    method AdmitByTime(budget: nat)
      requires Valid() && Undecided() && currentPredictedNs < UINT64
      modifies ring, ring.slots, table.entries
      ensures Valid() && table.index == old(table.index)
      ensures ring.queue == A.TimeAdmit(old(ring.queue), currentUnknown, currentPredictedNs, ring.window, budget)
    {
      while ring.outstanding > 0
            && (currentUnknown || ring.outstanding >= ring.window
                || A.Exceeds(ring.outstandingPredictedNs, currentPredictedNs, budget))
        invariant Valid() && Undecided() && table.index == old(table.index)
        invariant A.TimeAdmit(ring.queue, currentUnknown, currentPredictedNs, ring.window, budget)
               == A.TimeAdmit(old(ring.queue), currentUnknown, currentPredictedNs, ring.window, budget)
        decreases ring.outstanding
      {
        var end := Completed();
        Retire(end);
      }
    }

    // The admission loop of the fixed, blocks and gap policies.
    method AdmitByGrid(budget: nat)
      requires Valid() && Undecided()
      modifies ring, ring.slots, table.entries
      ensures Valid() && table.index == old(table.index)
      ensures ring.queue == A.GridAdmit(old(ring.queue), currentBlocks, ring.window, config.policy != Fixed, budget)
    {
      ring.SumsAreExact();
      while ring.outstanding > 0
            && (ring.outstanding >= ring.window
                || (config.policy != Fixed && A.Exceeds(ring.outstandingBlocks, currentBlocks, budget)))
        invariant Valid() && Undecided() && table.index == old(table.index)
        invariant ring.outstandingBlocks == A.SumBlocks(ring.queue)
        invariant A.GridAdmit(ring.queue, currentBlocks, ring.window, config.policy != Fixed, budget)
               == A.GridAdmit(old(ring.queue), currentBlocks, ring.window, config.policy != Fixed, budget)
        decreases ring.outstanding
      {
        var end := Completed();
        Retire(end);
        ring.SumsAreExact();
      }
    }

    // The timing events of the slot the launch will use exist.
    method TimersReady(createOk: bool) returns (ok: bool)
      requires Valid() && Undecided() && ring.outstanding < ring.window
      modifies ring.slots
      ensures Valid() && ring.tail < A.WINDOW_MAX && !ring.slots[ring.tail].active
      ensures (createOk ==> ok) && (ok ==> ring.slots[ring.tail].timingCreated)
    {
      ring.TailIsFree();
      var slot := ring.slots[ring.tail];
      if !slot.timingCreated {
        if !createOk {
          return false;
        }
        ring.PrepareTail(slot.(timingCreated := true));
      }
      return true;
    }

    // event_be_prepare_timing_sample_locked
    method PrepareSample(calls: Calls)
      requires Valid() && Undecided() && ring.outstanding < ring.window
      requires currentProfile >= 0 && table.entries[currentProfile].occupied
      requires table.entries[currentProfile].samples + table.entries[currentProfile].pendingSamples < P.SAMPLES_WANTED
      modifies this`currentSample, ring.slots, table.entries
      ensures Valid() && !currentUsesWindow && SampledAsAsked(calls)
    {
      var ready := TimersReady(calls.createOk);
      if ready && calls.recordOk {
        ring.TailIsFree();
        ring.PrepareTail(ring.slots[ring.tail].(profileIndex := currentProfile));
        ClaimSample();
      }
    }

    method ClaimSample()
      requires Valid() && Undecided() && currentProfile >= 0 && table.entries[currentProfile].occupied
      requires table.entries[currentProfile].samples + table.entries[currentProfile].pendingSamples < P.SAMPLES_WANTED
      modifies this`currentSample, table.entries
      ensures Valid() && !currentUsesWindow && currentSample
      ensures table.entries[..] == old(table.entries[..])[currentProfile := Asked(old(table.entries[currentProfile]))]
    {
      var more := Asked(table.entries[currentProfile]);
      QuotaOnPrepare(table.entries[..], ring.queue, currentProfile, more);
      table.Set(currentProfile, more);
      currentSample := true;
    }

    // A profile that still wants samples gets one.
    method SampleIfWanted(calls: Calls)
      requires Valid() && Undecided() && CurrentFits()
      modifies this`currentSample, ring.slots, table.entries
      ensures Valid() && !currentUsesWindow && CurrentFits() && SampledAsAsked(calls)
    {
      if currentProfile >= 0 {
        var e := table.entries[currentProfile];
        if e.samples + e.pendingSamples < P.SAMPLES_WANTED {
          PrepareSample(calls);
        }
      }
    }

    // Unless a call fails, a launch goes unmeasured only when its profile has all
    // the samples it wants, taken or on their way.
    ghost predicate SampledAsAsked(calls: Calls)
      reads this, table, table.entries
    {
      && (!calls.recordOk ==> !currentSample)
      && (calls.createOk && calls.recordOk && !currentSample && 0 <= currentProfile < table.entries.Length ==>
            table.entries[currentProfile].samples + table.entries[currentProfile].pendingSamples >= 3)
    }

    // The launch is admitted to the window.
    method Commit()
      requires Valid() && CurrentFits()
      modifies this`currentUsesWindow
      ensures Valid() && currentUsesWindow
    {
      currentUsesWindow := true;
    }

    // Prepare a measurement if one is wanted, and admit the launch.
    method Enter(calls: Calls)
      requires Valid() && Undecided() && CurrentFits()
      modifies this`currentSample, this`currentUsesWindow, ring.slots, table.entries
      ensures Valid() && currentUsesWindow && SampledAsAsked(calls)
    {
      SampleIfWanted(calls);
      Commit();
    }

    // Retire until the predicted launch fits the window and the budget.
    method RoomByTime(budget: nat)
      requires Valid() && Undecided() && currentBlocks < A.BLOCK_LIMIT && currentPredictedNs < UINT64
      requires UsesTime(config.policy) && budget <= TimeCap(config)
      modifies ring, ring.slots, table.entries
      ensures Valid() && table.index == old(table.index) && CurrentFits()
      ensures ring.queue == A.TimeAdmit(old(ring.queue), currentUnknown, currentPredictedNs, ring.window, budget)
    {
      AdmitByTime(budget);
      A.TimeAdmitUnblocks(old(ring.queue), currentUnknown, currentPredictedNs, ring.window, budget);
      TimeFits(config, ring.queue, currentUnknown, currentBlocks, currentPredictedNs, ring.window, budget);
    }

    // Admission under the time and time-sum policies.
    method BeforeByTime(key: P.Key, calls: Calls, budget: nat)
      requires Valid() && Undecided() && currentBlocks < A.BLOCK_LIMIT && currentKey == key
      requires (config.policy == Time || config.policy == TimeSum) && budget <= config.timeBudgetNs
      modifies this, ring, ring.slots, table, table.entries
      ensures Valid() && currentUsesWindow && currentBlocks == old(currentBlocks) && SampledAsAsked(calls)
      ensures currentKey == key && Located(old(table.index), table.index, key, currentProfile)
      ensures P.Forecast(old(table.entries[..]), old(table.index), key, config.unknownKernelNs, currentUnknown,
                         currentPredictedNs)
      ensures ring.queue == A.TimeAdmit(old(ring.queue), currentUnknown, currentPredictedNs, ring.window, budget)
    {
      Predict(key);
      AdmitPredicted(calls, budget);
    }

    method AdmitPredicted(calls: Calls, budget: nat)
      requires Valid() && Undecided() && currentBlocks < A.BLOCK_LIMIT && currentPredictedNs < UINT64
      requires UsesTime(config.policy) && budget <= TimeCap(config)
      modifies this`currentSample, this`currentUsesWindow, ring, ring.slots, table.entries
      ensures table.index == old(table.index)
      ensures Valid() && currentUsesWindow && SampledAsAsked(calls)
      ensures ring.queue == A.TimeAdmit(old(ring.queue), currentUnknown, currentPredictedNs, ring.window, budget)
    {
      RoomByTime(budget);
      Enter(calls);
    }

    // Admission under the fixed, blocks and gap policies.
    method BeforeByGrid(budget: nat)
      requires Valid() && Undecided() && currentBlocks < A.BLOCK_LIMIT
      requires currentPredictedNs == 0 && currentProfile == -1 && !currentUnknown
      requires !UsesTime(config.policy) && budget <= config.blockBudget
      modifies this`currentUsesWindow, ring, ring.slots, table.entries
      ensures Valid() && currentUsesWindow && currentPredictedNs == 0 && !currentUnknown
      ensures ring.queue == A.GridAdmit(old(ring.queue), currentBlocks, ring.window, config.policy != Fixed, budget)
    {
      AdmitByGrid(budget);
      A.GridAdmitUnblocks(old(ring.queue), currentBlocks, ring.window, config.policy != Fixed, budget);
      GridFits(config, ring.queue, currentBlocks, ring.window, budget);
      Commit();
    }

    // event_be_before_launch, for every policy but survival, once the HP process
    // has been seen idle. Without an HP process nothing is tracked.
    method Before(key: P.Key, calls: Calls, ownerPresent: bool, timing: Timing, now: nat)
      requires Valid() && Undecided() && key.blocks < A.BLOCK_LIMIT && config.policy != Survival
      modifies this, ring, ring.slots, table, table.entries
      ensures Valid() && (currentUsesWindow <==> ownerPresent) && (currentSample ==> currentUsesWindow)
      ensures currentBlocks == key.blocks
      ensures currentKey == key && Located(old(table.index), table.index, key, currentProfile)
      ensures !ownerPresent ==> ring.queue == []
      ensures ownerPresent && (config.policy == Time || config.policy == TimeSum) ==>
        && SampledAsAsked(calls)
        && P.Forecast(old(table.entries[..]), old(table.index), key, config.unknownKernelNs, currentUnknown,
                      currentPredictedNs)
        && ring.queue == A.TimeAdmit(old(ring.queue), currentUnknown, currentPredictedNs, ring.window,
                                     EffectiveTimeBudget(config, timing, now))
      ensures ownerPresent && (config.policy == Fixed || config.policy == Blocks || config.policy == Gap) ==>
        && currentPredictedNs == 0 && !currentUnknown
        && ring.queue == A.GridAdmit(old(ring.queue), key.blocks, ring.window, config.policy != Fixed,
                                  EffectiveBlockBudget(config, timing, now))
    {
      Begin(key);
      if !ownerPresent {
        Drain();
      } else if UsesTime(config.policy) {
        BeforeByTime(key, calls, EffectiveTimeBudget(config, timing, now));
      } else {
        BeforeByGrid(EffectiveBlockBudget(config, timing, now));
      }
    }

    // ----- the survival policy -----

    // A new idle episode begins its count of launches anew; the first launch of
    // an episode also pays for switching contexts.
    method EnterEpisode(timing: Timing) returns (context: nat)
      requires Valid() && Undecided()
      modifies this`episodeLastIdleNs, this`episodeLaunches
      ensures Valid() && Undecided() && context <= SECOND_NS
      ensures context == if timing.lastIdleNs != old(episodeLastIdleNs) || old(episodeLaunches) == 0
                         then config.contextNs else 0
      ensures episodeLastIdleNs == timing.lastIdleNs
      ensures episodeLaunches == if timing.lastIdleNs == old(episodeLastIdleNs) then old(episodeLaunches) else 0
    {
      if timing.lastIdleNs != episodeLastIdleNs {
        episodeLastIdleNs, episodeLaunches := timing.lastIdleNs, 0;
      }
      context := if episodeLaunches == 0 then config.contextNs else 0;
    }

    // event_be_survival_admission_locked. An admission the histogram decides is
    // backed by the history: at least the configured share of the past idle
    // periods that lasted this long went on for all the work ahead.
    method SurvivalAdmission(o: Observation) returns (v: Verdict, ghost context: nat, ghost denominator: nat)
      requires Valid() && Undecided() && Truthful(o) && currentPredictedNs < UINT64 && config.policy == Survival
      modifies this`episodeLastIdleNs, this`episodeLaunches
      ensures Valid() && Undecided() && context <= SECOND_NS
      ensures context == if o.timing.lastIdleNs != old(episodeLastIdleNs) || old(episodeLaunches) == 0
                         then config.contextNs else 0
      ensures VeryLong(o) ==> v.admitted && v.promoted
      ensures o.timing.active || o.timing.lastIdleNs == 0 ==> !v.admitted
      ensures AnswerIs(config, o, context, ring.outstandingPredictedNs, currentPredictedNs, ring.window, denominator, v)
      ensures v.admitted ==> 1 <= v.window <= ring.window && v.budget <= TimeCap(config)
      ensures BackedByHistory(config, o, context, ring.outstandingPredictedNs, currentPredictedNs, denominator, v)
    {
      context := if o.timing.lastIdleNs != episodeLastIdleNs || episodeLaunches == 0 then config.contextNs else 0;
      if o.timing.active || o.timing.lastIdleNs == 0 {
        return Verdict(false, false, 1, 1), context, 0;
      }
      var contextNs := EnterEpisode(o.timing);
      v, denominator := SurvivalDecision(config, o, contextNs, ring.outstandingPredictedNs, currentPredictedNs,
                                         ring.window);
    }

    // One turn of the admission loop.
    method SurvivalTurn(o: Observation) returns (turn: Turn, v: Verdict, ghost context: nat, ghost denominator: nat)
      requires Valid() && Undecided() && Truthful(o) && currentPredictedNs < UINT64 && currentBlocks < A.BLOCK_LIMIT
      requires config.policy == Survival
      modifies this`episodeLastIdleNs, this`episodeLaunches, ring, ring.slots, table.entries
      ensures Valid() && Undecided() && table.index == old(table.index) && context <= SECOND_NS
      ensures context == if o.timing.lastIdleNs != old(episodeLastIdleNs) || old(episodeLaunches) == 0
                         then config.contextNs else 0
      ensures old(ring.outstandingPredictedNs) < UINT64
      ensures AnswerIs(config, o, context, old(ring.outstandingPredictedNs), currentPredictedNs, ring.window,
                       denominator, v)
      ensures turn == Admitted <==>
        && v.admitted
        && (old(ring.queue) == []
            || (!currentUnknown && |old(ring.queue)| < v.window
                && A.SumPredicted(old(ring.queue)) + currentPredictedNs <= v.budget))
      ensures BackedByHistory(config, o, context, old(ring.outstandingPredictedNs), currentPredictedNs, denominator, v)
      ensures VeryLong(o) && old(ring.queue) == [] ==> turn == Admitted
      ensures turn == Admitted ==> CurrentFits() && ring.queue == old(ring.queue)
      ensures turn == RetiredOne ==> old(ring.queue) != [] && ring.queue == old(ring.queue)[1..]
      ensures turn == Sleep ==> ring.queue == old(ring.queue) == []
    {
      v, context, denominator := SurvivalAdmission(o);
      turn := TakeTurn(v);
    }

    // What the loop does with a verdict.
    method TakeTurn(v: Verdict) returns (turn: Turn)
      requires Valid() && Undecided() && currentPredictedNs < UINT64 && currentBlocks < A.BLOCK_LIMIT
      requires config.policy == Survival && (v.admitted ==> 1 <= v.window <= ring.window && v.budget <= TimeCap(config))
      modifies ring, ring.slots, table.entries
      ensures Valid() && table.index == old(table.index)
      ensures turn == Admitted <==>
        && v.admitted
        && (old(ring.queue) == []
            || (!currentUnknown && |old(ring.queue)| < v.window
                && A.SumPredicted(old(ring.queue)) + currentPredictedNs <= v.budget))
      ensures turn == Admitted ==> CurrentFits() && ring.queue == old(ring.queue)
      ensures turn == RetiredOne ==> old(ring.queue) != [] && ring.queue == old(ring.queue)[1..]
      ensures turn == Sleep ==> ring.queue == old(ring.queue) == []
    {
      if !v.admitted {
        if ring.outstanding > 0 {
          var end := Completed();
          Retire(end);
          return RetiredOne;
        }
        return Sleep;
      }
      var episodeWindow := if currentUnknown then 1 else v.window;
      if ring.outstanding > 0
         && (ring.outstanding >= episodeWindow
             || A.Exceeds(ring.outstandingPredictedNs, currentPredictedNs, v.budget)) {
        var end := Completed();
        Retire(end);
        return RetiredOne;
      }
      TimeFits(config, ring.queue, currentUnknown, currentBlocks, currentPredictedNs, episodeWindow, v.budget);
      return Admitted;
    }

    // The admission loop, over the observations it makes before it is admitted,
    // or for as long as there are any. Every look that does not admit retires a
    // launch while there is one; after that, a very long idle period admits.
    method SurvivalLoop(observations: seq<Observation>) returns (admitted: bool)
      requires Valid() && Undecided() && currentPredictedNs < UINT64 && currentBlocks < A.BLOCK_LIMIT
      requires config.policy == Survival
      requires AllTruthful(observations)
      modifies this`episodeLastIdleNs, this`episodeLaunches, ring, ring.slots, table.entries
      ensures Valid() && Undecided() && table.index == old(table.index)
      ensures admitted ==> CurrentFits()
      ensures LoopEnd(config, observations, |old(ring.queue)|, ring.queue == [], currentUnknown,
                      ring.outstandingPredictedNs, currentPredictedNs, ring.window, admitted)
      ensures Suffix(ring.queue, old(ring.queue))
      ensures !admitted ==> |ring.queue| == Left(|old(ring.queue)|, |observations|)
    {
      for i := 0 to |observations|
        invariant Valid() && Undecided() && table.index == old(table.index)
        invariant Suffix(ring.queue, old(ring.queue)) && |ring.queue| == Left(|old(ring.queue)|, i)
        invariant !VeryLongAfter(observations, |old(ring.queue)|, i)
      {
        ghost var queue := ring.queue;
        var turn, v;
        ghost var context: nat, denominator: nat;
        turn, v, context, denominator := SurvivalTurn(observations[i]);
        if turn == Admitted {
          ShowLetIn(config, observations, i, context, ring.outstandingPredictedNs, currentPredictedNs, ring.window,
                    denominator, v);
          return true;
        }
        SuffixStep(queue, old(ring.queue));
        NotYetVeryLong(observations, |old(ring.queue)|, i);
      }
      return false;
    }

    method BeginPredicted(key: P.Key)
      requires Valid() && Undecided() && key.blocks < A.BLOCK_LIMIT
      modifies this, table, table.entries
      ensures Valid() && Undecided() && currentBlocks == key.blocks && currentPredictedNs < UINT64
      ensures P.Forecast(old(table.entries[..]), old(table.index), key, config.unknownKernelNs, currentUnknown,
                         currentPredictedNs)
      ensures currentKey == key && Located(old(table.index), table.index, key, currentProfile)
    {
      Begin(key);
      Predict(key);
    }

    // event_be_before_launch under the survival policy.
    method BeforeBySurvival(key: P.Key, calls: Calls, observations: seq<Observation>) returns (admitted: bool)
      requires Valid() && Undecided() && key.blocks < A.BLOCK_LIMIT && config.policy == Survival
      requires AllTruthful(observations)
      modifies this, ring, ring.slots, table, table.entries
      ensures Valid() && (currentUsesWindow <==> admitted) && (currentSample ==> currentUsesWindow)
      ensures currentBlocks == key.blocks && currentPredictedNs < UINT64
      ensures currentKey == key && Located(old(table.index), table.index, key, currentProfile)
      ensures P.Forecast(old(table.entries[..]), old(table.index), key, config.unknownKernelNs, currentUnknown,
                         currentPredictedNs)
      ensures Suffix(ring.queue, old(ring.queue)) && (admitted ==> SampledAsAsked(calls))
      ensures if admitted then currentUnknown ==> ring.queue == []
              else !VeryLongAfter(observations, |old(ring.queue)|, |observations|)
    {
      BeginPredicted(key);
      ghost var index, profile := table.index, currentProfile;
      admitted := AdmitBySurvival(calls, observations);
      assert table.index == index && currentProfile == profile;
    }

    method AdmitBySurvival(calls: Calls, observations: seq<Observation>) returns (admitted: bool)
      requires Valid() && Undecided() && currentPredictedNs < UINT64 && currentBlocks < A.BLOCK_LIMIT
      requires config.policy == Survival && AllTruthful(observations)
      modifies this`episodeLastIdleNs, this`episodeLaunches, this`currentSample, this`currentUsesWindow
      modifies ring, ring.slots, table.entries
      ensures table.index == old(table.index)
      ensures Valid() && (currentUsesWindow <==> admitted) && (currentSample ==> currentUsesWindow)
      ensures Suffix(ring.queue, old(ring.queue)) && (admitted ==> SampledAsAsked(calls))
      ensures if admitted then currentUnknown ==> ring.queue == []
              else !VeryLongAfter(observations, |old(ring.queue)|, |observations|)
    {
      admitted := SurvivalLoop(observations);
      if admitted {
        Enter(calls);
      }
    }

    // ----- after the launch -----

    // A prepared measurement that will not take place.
    method DropSample()
      requires Valid() && currentSample
      modifies table.entries, this`currentSample
      ensures Valid() && !currentSample && ring.queue == old(ring.queue)
      ensures table.entries[..] == old(table.entries[..])[currentProfile := Dropped(old(table.entries[currentProfile]))]
    {
      var e := table.entries[currentProfile];
      PreparedIsCounted(table.entries[..], ring.queue, currentProfile);
      if e.pendingSamples > 0 {
        var fewer := Dropped(e);
        QuotaOnDrop(table.entries[..], ring.queue, currentProfile, fewer);
        table.Set(currentProfile, fewer);
      }
      currentSample := false;
    }

    // The launch joins the ring with a recorded completion event.
    method Record(slot: BeSlot, stream: nat, perThread: bool)
      requires Valid() && currentUsesWindow
      modifies this`currentUsesWindow, this`currentSample, ring, ring.slots
      ensures Valid() && Undecided() && ring.queue == old(ring.queue) + [old(CurrentFlight())]
      ensures ring.slots[old(ring.tail)].stream == stream && ring.slots[old(ring.tail)].perThread == perThread
    {
      ghost var f := CurrentFlight();
      PushKeeps(config, table.entries[..], table.index, ring.queue, Prepared(), f);
      ring.Push(slot.(stream := stream, blocks := currentBlocks, predictedNs := currentPredictedNs,
                      profileIndex := if currentProfile >= 0 then currentProfile else 0,
                      perThread := perThread, timingSample := currentSample, active := true), f);
      currentUsesWindow, currentSample := false, false;
    }

    // The completion event of the slot the launch uses, made if it is missing.
    method EventReady(createOk: bool) returns (ready: bool)
      requires Valid() && currentUsesWindow
      modifies ring.slots
      ensures Valid() && ring.tail < A.WINDOW_MAX
      ensures createOk ==> ready
      ensures ready ==> currentSample || ring.slots[ring.tail].eventCreated
    {
      ring.TailIsFree();
      var slot := ring.slots[ring.tail];
      if !currentSample && !slot.eventCreated && createOk {
        slot := slot.(eventCreated := true);
        ring.PrepareTail(slot);
      }
      return currentSample || slot.eventCreated;
    }

    // A successful launch through the window. When no event can be recorded the
    // stream is synchronised and the launch never joins the queue.
    method Track(stream: nat, perThread: bool, calls: Calls) returns (recorded: bool)
      requires Valid() && currentUsesWindow
      modifies this`currentUsesWindow, this`currentSample, ring, ring.slots, table.entries
      ensures Valid() && !currentSample
      ensures ring.queue == old(ring.queue) + if recorded then [old(CurrentFlight())] else []
      ensures (recorded ==> calls.recordOk) && (calls.createOk && calls.recordOk ==> recorded)
      ensures table.entries[..] == Settled(old(table.entries[..]), old(Prepared()), recorded)
    {
      var ready := EventReady(calls.createOk);
      recorded := ready && calls.recordOk;
      if recorded {
        Record(ring.slots[ring.tail], stream, perThread);
      } else if currentSample {
        DropSample();
      }
    }

    method ClearCurrent(tracked: bool)
      requires Valid() && !currentSample
      modifies this
      ensures Valid() && Undecided()
      ensures episodeLastIdleNs == old(episodeLastIdleNs)
      ensures episodeLaunches == old(episodeLaunches) + if tracked && config.policy == Survival then 1 else 0
    {
      if tracked && config.policy == Survival {
        episodeLaunches := episodeLaunches + 1;
      }
      currentUsesWindow, currentBlocks, currentPredictedNs := false, 0, 0;
      currentProfile, currentUnknown, currentSample := -1, false, false;
    }

    // event_be_after_launch
    method After(stream: nat, perThread: bool, launchOk: bool, calls: Calls) returns (recorded: bool)
      requires Valid() && (currentSample ==> currentUsesWindow)
      modifies this, ring, ring.slots, table.entries
      ensures Valid() && Undecided()
      ensures recorded ==> launchOk && old(currentUsesWindow) && calls.recordOk
      ensures launchOk && old(currentUsesWindow) && calls.createOk && calls.recordOk ==> recorded
      ensures table.entries[..] == Settled(old(table.entries[..]), old(Prepared()), recorded)
      ensures ring.queue == old(ring.queue) + if recorded then [old(CurrentFlight())] else []
      ensures episodeLaunches ==
        old(episodeLaunches) + if launchOk && old(currentUsesWindow) && config.policy == Survival then 1 else 0
    {
      recorded := false;
      var tracked := launchOk && currentUsesWindow;
      if tracked {
        recorded := Track(stream, perThread, calls);
      } else if currentSample {
        DropSample();
      }
      ClearCurrent(tracked);
    }
  }
}
