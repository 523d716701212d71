// How likely the current idle period is to last: the survival estimate a BE
// process draws from the shared histogram, and why it is never too hopeful.
module Survival {
  import opened ActivityTracker
  import opened Common

  // event_be_add_saturating
  function AddSaturating(left: nat, right: nat): (r: nat)
    requires left < UINT64 && right < UINT64
    ensures r < UINT64 && r <= left + right
    ensures r < left + right ==> r == UINT64 - 1
  {
    if UINT64 - 1 - left < right then UINT64 - 1 else left + right
  }

  // ----- reading a bucket table -----

  ghost predicate Climbs(table: seq<nat>) {
    |table| > 0 && forall i, j :: 0 <= i < j < |table| ==> table[i] < table[j]
  }

  lemma ThresholdsClimb()
    ensures Climbs(THRESHOLDS_NS) && |THRESHOLDS_NS| == BUCKETS
    ensures forall i :: 0 <= i < BUCKETS ==> 0 < THRESHOLDS_NS[i] <= 20_000_000
  {
  }

  // i is the last threshold reached after t.
  ghost predicate LastReached(table: seq<nat>, i: nat, t: nat) {
    i < |table| && table[i] <= t && (i + 1 < |table| ==> t < table[i + 1])
  }

  // i is the first threshold not below t.
  ghost predicate FirstNotBelow(table: seq<nat>, i: nat, t: nat) {
    i < |table| && table[i] >= t && (i > 0 ==> table[i - 1] < t)
  }

  ghost predicate IsDenominator(table: seq<nat>, counts: seq<nat>, samples: nat, elapsedNs: nat, denominator: nat)
    requires |table| == |counts| > 0
  {
    || (denominator == samples && elapsedNs < table[0])
    || (exists i: nat :: LastReached(table, i, elapsedNs) && denominator == counts[i])
  }

  ghost predicate IsNumerator(table: seq<nat>, counts: seq<nat>, targetNs: nat, numerator: nat)
    requires |table| == |counts| > 0
  {
    || (numerator == 0 && targetNs > table[|table| - 1])
    || (exists i: nat :: FirstNotBelow(table, i, targetNs) && numerator == counts[i])
  }

  // event_be_survival_denominator
  method Denominator(timing: Timing, elapsedNs: nat) returns (denominator: nat)
    requires |timing.counts| == BUCKETS
    ensures IsDenominator(THRESHOLDS_NS, timing.counts, timing.idleSamples, elapsedNs, denominator)
  {
    ThresholdsClimb();
    denominator := timing.idleSamples;
    for i := 0 to BUCKETS
      invariant i == 0 ==> denominator == timing.idleSamples
      invariant i > 0 ==> denominator == timing.counts[i - 1] && THRESHOLDS_NS[i - 1] <= elapsedNs
    {
      var threshold := THRESHOLDS_NS[i];
      if threshold == 0 || threshold > elapsedNs {
        assert i > 0 ==> LastReached(THRESHOLDS_NS, i - 1, elapsedNs);
        return;
      }
      denominator := timing.counts[i];
    }
    assert LastReached(THRESHOLDS_NS, BUCKETS - 1, elapsedNs);
  }

  // event_be_survival_numerator
  method Numerator(timing: Timing, targetNs: nat) returns (numerator: nat)
    requires |timing.counts| == BUCKETS
    ensures IsNumerator(THRESHOLDS_NS, timing.counts, targetNs, numerator)
  {
    ThresholdsClimb();
    for i := 0 to BUCKETS
      invariant i > 0 ==> THRESHOLDS_NS[i - 1] < targetNs
    {
      var threshold := THRESHOLDS_NS[i];
      if threshold >= targetNs {
        assert FirstNotBelow(THRESHOLDS_NS, i, targetNs);
        return timing.counts[i];
      }
    }
    return 0;
  }

  // ----- against the true history -----

  ghost predicate Tallies(table: seq<nat>, counts: seq<nat>, periods: seq<nat>) {
    |counts| == |table| && forall i :: 0 <= i < |table| ==> counts[i] == LongerThan(periods, table[i])
  }

  ghost predicate InRange(periods: seq<nat>) {
    forall i :: 0 <= i < |periods| ==> periods[i] < UINT64
  }

  lemma {:induction false} NoneLonger(periods: seq<nat>)
    requires InRange(periods)
    ensures LongerThan(periods, UINT64 - 1) == 0
  {
    if periods != [] { NoneLonger(periods[..|periods| - 1]); }
  }

  // The denominator counts every period that outlived `elapsed`, and perhaps more;
  // below the first threshold only if the sample count is the true one.
  lemma DenominatorIsHigh(table: seq<nat>, counts: seq<nat>, periods: seq<nat>, samples: nat, elapsedNs: nat,
                          denominator: nat)
    requires |table| > 0 && Tallies(table, counts, periods) && samples <= |periods|
    requires IsDenominator(table, counts, samples, elapsedNs, denominator)
    ensures denominator <= |periods|
    ensures elapsedNs >= table[0] || samples == |periods| ==> LongerThan(periods, elapsedNs) <= denominator
  {
    LongerThanFalls(periods, elapsedNs, elapsedNs);
    if i: nat :| LastReached(table, i, elapsedNs) && denominator == counts[i] {
      LongerThanFalls(periods, table[i], elapsedNs);
    }
  }

  // The numerator counts only periods that outlived the target, and perhaps fewer.
  lemma NumeratorIsLow(table: seq<nat>, counts: seq<nat>, periods: seq<nat>, targetNs: nat, numerator: nat)
    requires |table| > 0 && Tallies(table, counts, periods)
    requires IsNumerator(table, counts, targetNs, numerator)
    ensures numerator <= LongerThan(periods, targetNs)
  {
    if i: nat :| FirstNotBelow(table, i, targetNs) && numerator == counts[i] {
      LongerThanFalls(periods, targetNs, table[i]);
    }
  }

  // On the grid of thresholds nothing is lost to the buckets.
  lemma ExactOnGrid(table: seq<nat>, counts: seq<nat>, periods: seq<nat>, samples: nat, elapsedNs: nat, targetNs: nat,
                    a: nat, b: nat, numerator: nat, denominator: nat)
    requires Climbs(table) && Tallies(table, counts, periods)
    requires a < |table| && table[a] == elapsedNs && b < |table| && table[b] == targetNs
    requires IsDenominator(table, counts, samples, elapsedNs, denominator)
    requires IsNumerator(table, counts, targetNs, numerator)
    ensures denominator == LongerThan(periods, elapsedNs) && numerator == LongerThan(periods, targetNs)
  {
    if i: nat :| LastReached(table, i, elapsedNs) && denominator == counts[i] {
      LastReachedOnGrid(table, a, i);
    }
    if i: nat :| FirstNotBelow(table, i, targetNs) && numerator == counts[i] {
      FirstNotBelowOnGrid(table, b, i);
    }
  }

  lemma LastReachedOnGrid(table: seq<nat>, a: nat, i: nat)
    requires Climbs(table) && a < |table| && LastReached(table, i, table[a])
    ensures i == a
  {
  }

  lemma FirstNotBelowOnGrid(table: seq<nat>, b: nat, i: nat)
    requires Climbs(table) && b < |table| && FirstNotBelow(table, i, table[b])
    ensures i == b
  {
  }

  // The quotient in percent, rounded down and capped.
  function PercentOf(n: nat, d: nat): (pct: nat)
    requires d > 0
    ensures pct <= 100
  {
    if 100 * n / d >= 100 then 100 else 100 * n / d
  }

  // A lower numerator over a higher denominator, rounded down, is never above.
  lemma PercentIsLow(n: nat, d: nat, trueN: nat, trueD: nat)
    requires n <= trueN && trueD <= d && d > 0
    ensures PercentOf(n, d) * trueD <= 100 * trueN
  {
    var pct := PercentOf(n, d);
    assert (100 * n / d) * d <= 100 * n;
    MulLe(pct, 100 * n / d, d, d);
    MulLe(trueD, d, pct, pct);
  }

  lemma PercentIsQuotient(n: nat, d: nat)
    requires n <= d && d > 0
    ensures PercentOf(n, d) == 100 * n / d
  {
    if 100 * n / d > 100 {
      assert (100 * n / d) * d <= 100 * n;
      MulLe(101, 100 * n / d, d, d);
    }
  }

  // The 32-bit sample count may have wrapped: the estimate stays a fraction on
  // every query exactly while that count still reaches the first bucket.
  ghost predicate AlwaysAFraction(timing: Timing)
    requires |timing.counts| == BUCKETS
  {
    forall elapsedNs: nat, targetNs: nat, n: nat, d: nat ::
      (elapsedNs <= targetNs
       && IsDenominator(THRESHOLDS_NS, timing.counts, timing.idleSamples, elapsedNs, d)
       && IsNumerator(THRESHOLDS_NS, timing.counts, targetNs, n)) ==> n <= d
  }

  lemma FractionIffCountReachesFirstBucket(timing: Timing, periods: seq<nat>)
    requires Describes(timing, periods)
    ensures AlwaysAFraction(timing) <==> timing.counts[0] <= timing.idleSamples
  {
    ThresholdsClimb();
    var table := THRESHOLDS_NS;
    if AlwaysAFraction(timing) {
      assert FirstNotBelow(table, 0, 1);
      assert IsDenominator(table, timing.counts, timing.idleSamples, 0, timing.idleSamples);
      assert IsNumerator(table, timing.counts, 1, timing.counts[0]);
    }
    if timing.counts[0] <= timing.idleSamples {
      forall elapsedNs: nat, targetNs: nat, n: nat, d: nat | elapsedNs <= targetNs
          && IsDenominator(table, timing.counts, timing.idleSamples, elapsedNs, d)
          && IsNumerator(table, timing.counts, targetNs, n)
        ensures n <= d
      {
        FractionHolds(table, timing.counts, periods, timing.idleSamples, elapsedNs, targetNs, n, d);
      }
    }
  }

  lemma FractionHolds(table: seq<nat>, counts: seq<nat>, periods: seq<nat>, samples: nat, elapsedNs: nat,
                      targetNs: nat, n: nat, d: nat)
    requires |table| > 0 && Tallies(table, counts, periods) && Climbs(table) && counts[0] <= samples
      && elapsedNs <= targetNs
    requires IsDenominator(table, counts, samples, elapsedNs, d) && IsNumerator(table, counts, targetNs, n)
    ensures n <= d
  {
    if i: nat :| FirstNotBelow(table, i, targetNs) && n == counts[i] {
      if j: nat :| LastReached(table, j, elapsedNs) && d == counts[j] {
        LongerThanFalls(periods, table[j], table[i]);
      } else {
        LongerThanFalls(periods, table[0], table[i]);
      }
    }
  }

  // After 2^32 idle periods of 30 microseconds the count reads zero.
  lemma {:induction false} WrappedCountBreaksFraction(timing: Timing, periods: seq<nat>)
    requires Describes(timing, periods) && |periods| == UINT32
    requires forall i :: 0 <= i < |periods| ==> periods[i] == 30_000
    ensures !AlwaysAFraction(timing)
  {
    LongerThanAll(periods, THRESHOLDS_NS[0]);
    FractionIffCountReachesFirstBucket(timing, periods);
  }

  lemma {:induction false} LongerThanAll(periods: seq<nat>, t: nat)
    requires forall i :: 0 <= i < |periods| ==> periods[i] > t
    ensures LongerThan(periods, t) == |periods|
  {
    if periods != [] { LongerThanAll(periods[..|periods| - 1], t); }
  }

  ghost predicate OnGrid(t: nat) {
    exists i :: 0 <= i < BUCKETS && THRESHOLDS_NS[i] == t
  }

  // Both counts, against the history the histogram was built from. The 32-bit
  // sample count matters only below the first threshold.
  lemma CountsAreCautious(timing: Timing, periods: seq<nat>, elapsedNs: nat, additionalNs: nat, n: nat, d: nat)
    requires elapsedNs < UINT64 && additionalNs < UINT64
    requires Describes(timing, periods) && InRange(periods)
    requires IsDenominator(THRESHOLDS_NS, timing.counts, timing.idleSamples, elapsedNs, d)
    requires IsNumerator(THRESHOLDS_NS, timing.counts, AddSaturating(elapsedNs, additionalNs), n)
    ensures n <= LongerThan(periods, elapsedNs + additionalNs) <= LongerThan(periods, elapsedNs) && d <= |periods|
    ensures elapsedNs >= THRESHOLDS_NS[0] || |periods| < UINT32 ==> LongerThan(periods, elapsedNs) <= d
    ensures OnGrid(elapsedNs) && OnGrid(elapsedNs + additionalNs) ==>
      d == LongerThan(periods, elapsedNs) && n == LongerThan(periods, elapsedNs + additionalNs)
  {
    ThresholdsClimb();
    var table, target := THRESHOLDS_NS, AddSaturating(elapsedNs, additionalNs);
    assert Tallies(table, timing.counts, periods);
    DenominatorIsHigh(table, timing.counts, periods, timing.idleSamples, elapsedNs, d);
    NumeratorIsLow(table, timing.counts, periods, target, n);
    NoneLonger(periods);
    LongerThanFalls(periods, elapsedNs, elapsedNs + additionalNs);
    if OnGrid(elapsedNs) && OnGrid(elapsedNs + additionalNs) {
      var a :| 0 <= a < BUCKETS && table[a] == elapsedNs;
      var b :| 0 <= b < BUCKETS && table[b] == elapsedNs + additionalNs;
      ExactOnGrid(table, timing.counts, periods, timing.idleSamples, elapsedNs, target, a, b, n, d);
    }
  }

  // ----- when the estimate can be trusted -----

  // At least pct percent of the past idle periods that lasted `elapsedNs` went on
  // for `aheadNs` more.
  ghost predicate Backed(pct: nat, periods: seq<nat>, elapsedNs: nat, aheadNs: nat) {
    pct * LongerThan(periods, elapsedNs) <= 100 * LongerThan(periods, elapsedNs + aheadNs)
  }

  // The answer to a query with these counts.
  function Answer(n: nat, d: nat): (pct: nat)
    ensures pct <= 100
  {
    if d == 0 then 0 else PercentOf(n, d)
  }

  // The answer the table gives for a period that has lasted `elapsedNs`.
  ghost predicate IsEstimate(timing: Timing, elapsedNs: nat, additionalNs: nat, pct: nat, denominator: nat)
    requires |timing.counts| == BUCKETS && elapsedNs < UINT64 && additionalNs < UINT64
  {
    && IsDenominator(THRESHOLDS_NS, timing.counts, timing.idleSamples, elapsedNs, denominator)
    && exists n: nat :: IsNumerator(THRESHOLDS_NS, timing.counts, AddSaturating(elapsedNs, additionalNs), n)
                        && pct == Answer(n, denominator)
  }

  // No query is answered with more than the history backs.
  ghost predicate Cautious(timing: Timing, periods: seq<nat>)
    requires |timing.counts| == BUCKETS
  {
    forall elapsedNs: nat, additionalNs: nat, pct: nat, d: nat ::
      elapsedNs < UINT64 && additionalNs < UINT64 && IsEstimate(timing, elapsedNs, additionalNs, pct, d)
      ==> Backed(pct, periods, elapsedNs, additionalNs)
  }

  // No bucket is a larger part of the 32-bit sample count than of the `total`
  // periods there were.
  ghost predicate SampleCountHolds(timing: Timing, total: nat)
    requires |timing.counts| == BUCKETS
  {
    timing.idleSamples == 0
    || forall i :: 0 <= i < BUCKETS ==>
         PercentOf(timing.counts[i], timing.idleSamples) * total <= 100 * timing.counts[i]
  }

  // As long as the sample count has not wrapped it holds.
  lemma ShortHistoryHolds(timing: Timing, periods: seq<nat>)
    requires Describes(timing, periods) && |periods| < UINT32
    ensures SampleCountHolds(timing, |periods|)
  {
    if periods != [] {
      forall i | 0 <= i < BUCKETS
        ensures PercentOf(timing.counts[i], timing.idleSamples) * |periods| <= 100 * timing.counts[i]
      {
        PercentIsLow(timing.counts[i], |periods|, timing.counts[i], |periods|);
      }
    }
  }

  // Past the first threshold the denominator is a 64-bit bucket and the answer is
  // always backed; below it, whenever the sample count holds.
  lemma EstimateIsBacked(timing: Timing, periods: seq<nat>, elapsedNs: nat, additionalNs: nat, n: nat, d: nat)
    requires Describes(timing, periods) && InRange(periods) && elapsedNs < UINT64 && additionalNs < UINT64
    requires IsDenominator(THRESHOLDS_NS, timing.counts, timing.idleSamples, elapsedNs, d)
    requires IsNumerator(THRESHOLDS_NS, timing.counts, AddSaturating(elapsedNs, additionalNs), n)
    requires elapsedNs >= THRESHOLDS_NS[0] || SampleCountHolds(timing, |periods|)
    ensures Backed(Answer(n, d), periods, elapsedNs, additionalNs)
  {
    CountsAreCautious(timing, periods, elapsedNs, additionalNs, n, d);
    if d > 0 {
      if elapsedNs >= THRESHOLDS_NS[0] {
        PercentIsLow(n, d, LongerThan(periods, elapsedNs + additionalNs), LongerThan(periods, elapsedNs));
      } else {
        BelowFirstThreshold(timing, elapsedNs, d);
        SampleCountIsBacked(timing, periods, elapsedNs, AddSaturating(elapsedNs, additionalNs), n);
      }
    }
  }

  lemma BelowFirstThreshold(timing: Timing, elapsedNs: nat, d: nat)
    requires |timing.counts| == BUCKETS && elapsedNs < THRESHOLDS_NS[0]
    requires IsDenominator(THRESHOLDS_NS, timing.counts, timing.idleSamples, elapsedNs, d)
    ensures d == timing.idleSamples
  {
    ThresholdsClimb();
  }

  lemma SampleCountIsBacked(timing: Timing, periods: seq<nat>, elapsedNs: nat, targetNs: nat, n: nat)
    requires Describes(timing, periods) && SampleCountHolds(timing, |periods|) && timing.idleSamples > 0
    requires IsNumerator(THRESHOLDS_NS, timing.counts, targetNs, n)
    ensures PercentOf(n, timing.idleSamples) * LongerThan(periods, elapsedNs) <= 100 * n
  {
    LongerThanFalls(periods, elapsedNs, elapsedNs);
    if i: nat :| FirstNotBelow(THRESHOLDS_NS, i, targetNs) && n == timing.counts[i] {
      ScaledWithin(PercentOf(n, timing.idleSamples), 100 * n, |periods|, LongerThan(periods, elapsedNs));
    }
  }

  lemma ScaledWithin(pct: nat, bound: nat, whole: nat, part: nat)
    requires pct * whole <= bound && part <= whole
    ensures pct * part <= bound
  {
    MulLe(pct, pct, part, whole);
  }

  // The exact condition: the sample count holds.
  lemma CautiousIffSampleCountHolds(timing: Timing, periods: seq<nat>)
    requires Describes(timing, periods) && InRange(periods) && Positive(periods)
    ensures Cautious(timing, periods) <==> SampleCountHolds(timing, |periods|)
  {
    if Cautious(timing, periods) && timing.idleSamples > 0 {
      forall i | 0 <= i < BUCKETS
        ensures PercentOf(timing.counts[i], timing.idleSamples) * |periods| <= 100 * timing.counts[i]
      {
        BucketIsAsked(timing, periods, i);
      }
    }
    if SampleCountHolds(timing, |periods|) {
      forall elapsedNs: nat, additionalNs: nat, pct: nat, d: nat | elapsedNs < UINT64 && additionalNs < UINT64
          && IsEstimate(timing, elapsedNs, additionalNs, pct, d)
        ensures Backed(pct, periods, elapsedNs, additionalNs)
      {
        var n: nat :| IsNumerator(THRESHOLDS_NS, timing.counts, AddSaturating(elapsedNs, additionalNs), n)
                      && pct == Answer(n, d);
        EstimateIsBacked(timing, periods, elapsedNs, additionalNs, n, d);
      }
    }
  }

  // The query that shows bucket i: nothing elapsed, its threshold ahead.
  lemma BucketIsAsked(timing: Timing, periods: seq<nat>, i: nat)
    requires Describes(timing, periods) && Positive(periods) && timing.idleSamples > 0 && i < BUCKETS
    ensures IsEstimate(timing, 0, THRESHOLDS_NS[i], PercentOf(timing.counts[i], timing.idleSamples), timing.idleSamples)
    ensures LongerThan(periods, 0) == |periods| && LongerThan(periods, 0 + THRESHOLDS_NS[i]) == timing.counts[i]
  {
    ThresholdsClimb();
    assert FirstNotBelow(THRESHOLDS_NS, i, THRESHOLDS_NS[i]);
    assert IsNumerator(THRESHOLDS_NS, timing.counts, AddSaturating(0, THRESHOLDS_NS[i]), timing.counts[i]);
    LongerThanAll(periods, 0);
  }

  // 2^32 idle periods of 10 microseconds and one of 30: the count reads one, every
  // answer is a fraction, and the answer for 20 more microseconds is 100 percent.
  lemma {:induction false} WrappedCountBreaksCaution(timing: Timing, periods: seq<nat>)
    requires Describes(timing, periods) && |periods| == UINT32 + 1 && periods[UINT32] == 30_000
    requires forall i :: 0 <= i < UINT32 ==> periods[i] == 10_000
    ensures AlwaysAFraction(timing) && IsEstimate(timing, 0, 20_000, 100, 1)
    ensures LongerThan(periods, 20_000) == 1 && !Backed(100, periods, 0, 20_000)
  {
    LongerThanNone(periods[..UINT32], THRESHOLDS_NS[0]);
    FractionIffCountReachesFirstBucket(timing, periods);
    BucketIsAsked(timing, periods, 0);
  }

  lemma {:induction false} LongerThanNone(periods: seq<nat>, t: nat)
    requires forall i :: 0 <= i < |periods| ==> periods[i] <= t
    ensures LongerThan(periods, t) == 0
  {
    if periods != [] { LongerThanNone(periods[..|periods| - 1], t); }
  }

  // event_be_survival_probability_pct: never above the true fraction of past
  // periods that outlived elapsed + additional among those that outlived elapsed,
  // from the first threshold on, and below it while the sample count holds.
  method ProbabilityPct(timing: Timing, elapsedNs: nat, additionalNs: nat, ghost periods: seq<nat>)
    returns (pct: nat, denominator: nat)
    requires elapsedNs < UINT64 && additionalNs < UINT64
    requires Describes(timing, periods) && InRange(periods)
    ensures pct <= 100 && denominator <= |periods| && (denominator == 0 ==> pct == 0)
    ensures elapsedNs >= THRESHOLDS_NS[0] || |periods| < UINT32 ==> LongerThan(periods, elapsedNs) <= denominator
    ensures elapsedNs >= THRESHOLDS_NS[0] || SampleCountHolds(timing, |periods|) ==>
      Backed(pct, periods, elapsedNs, additionalNs)
    ensures IsEstimate(timing, elapsedNs, additionalNs, pct, denominator)
    ensures OnGrid(elapsedNs) && OnGrid(elapsedNs + additionalNs) && denominator > 0 ==>
      && denominator == LongerThan(periods, elapsedNs)
      && pct == 100 * LongerThan(periods, elapsedNs + additionalNs) / denominator
  {
    denominator := Denominator(timing, elapsedNs);
    var numerator := Numerator(timing, AddSaturating(elapsedNs, additionalNs));
    CountsAreCautious(timing, periods, elapsedNs, additionalNs, numerator, denominator);
    pct := Answer(numerator, denominator);
    if elapsedNs >= THRESHOLDS_NS[0] || SampleCountHolds(timing, |periods|) {
      EstimateIsBacked(timing, periods, elapsedNs, additionalNs, numerator, denominator);
    }
    if denominator > 0 && numerator <= denominator {
      PercentIsQuotient(numerator, denominator);
    }
  }
}
