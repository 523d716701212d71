// What a best-effort process may have in flight: the queue of outstanding
// launches as a value, and the admission rules over it.
module BeAdmission {
  import opened Common
  import P = Profiles

  const WINDOW_MAX: nat := 64

  // Grid sizes are taken to stay below this, so that 64 of them fit in 64 bits.
  const BLOCK_LIMIT: nat := 0x400_0000_0000_0000

  // One outstanding launch, oldest first in a queue. A sampled one is measured
  // for the profile at position `profile`; `key` says what was launched.
  datatype Flight = Flight(blocks: nat, predictedNs: nat, unknown: bool, sampled: bool, profile: nat, key: P.Key)

  ghost function SumPredicted(queue: seq<Flight>): nat {
    if queue == [] then 0 else queue[0].predictedNs + SumPredicted(queue[1..])
  }

  ghost function SumBlocks(queue: seq<Flight>): nat {
    if queue == [] then 0 else queue[0].blocks + SumBlocks(queue[1..])
  }

  ghost function SampledCount(queue: seq<Flight>, profile: nat): nat {
    if queue == [] then 0
    else (if queue[0].sampled && queue[0].profile == profile then 1 else 0) + SampledCount(queue[1..], profile)
  }

  lemma {:induction false} SumsAppend(queue: seq<Flight>, f: Flight, profile: nat)
    ensures SumPredicted(queue + [f]) == SumPredicted(queue) + f.predictedNs
    ensures SumBlocks(queue + [f]) == SumBlocks(queue) + f.blocks
    ensures SampledCount(queue + [f], profile)
         == SampledCount(queue, profile) + (if f.sampled && f.profile == profile then 1 else 0)
  {
    if queue == [] {
      assert queue + [f] == [f];
    } else {
      assert (queue + [f])[1..] == queue[1..] + [f];
      SumsAppend(queue[1..], f, profile);
    }
  }

  lemma {:induction false} BlocksFit(queue: seq<Flight>)
    requires forall i :: 0 <= i < |queue| ==> queue[i].blocks < BLOCK_LIMIT
    ensures SumBlocks(queue) <= |queue| * (BLOCK_LIMIT - 1)
  {
    if queue != [] { BlocksFit(queue[1..]); }
  }

  // ----- the assertions of the retire path, with 64-bit wrap-around -----

  // The subtractions of a drain, oldest first, starting from a 64-bit counter:
  // every one passes its assertion.
  ghost predicate DrainPasses(counter: nat, queue: seq<Flight>) {
    queue == [] || (counter >= queue[0].blocks && DrainPasses(counter - queue[0].blocks, queue[1..]))
  }

  lemma {:induction false} DrainPassesIff(counter: nat, queue: seq<Flight>)
    ensures DrainPasses(counter, queue) <==> SumBlocks(queue) <= counter
  {
    if queue != [] && counter >= queue[0].blocks { DrainPassesIff(counter - queue[0].blocks, queue[1..]); }
  }

  // The counter holds the sum modulo 2^64: a drain passes all its assertions
  // exactly when the true sum fits in 64 bits.
  lemma {:induction false} AssertionsHoldIffSumFits(queue: seq<Flight>)
    ensures DrainPasses(SumBlocks(queue) % UINT64, queue) <==> SumBlocks(queue) < UINT64
  {
    DrainPassesIff(SumBlocks(queue) % UINT64, queue);
  }

  // The most blocks a launch can have: the driver's limits on the three
  // dimensions of a grid.
  const LARGEST_GRID: nat := 2_147_483_647 * 65_535 * 65_535

  // Three launches of the largest grid: the counter wraps and the first assertion fails.
  lemma {:induction false} ThreeLargestGridsFail(key: P.Key)
    ensures var f := Flight(LARGEST_GRID, 0, false, false, 0, key);
            !DrainPasses(SumBlocks([f, f, f]) % UINT64, [f, f, f])
  {
    var f := Flight(LARGEST_GRID, 0, false, false, 0, key);
    assert [f, f, f][1..] == [f, f] && [f, f][1..] == [f];
    assert SumBlocks([f, f, f]) == f.blocks + SumBlocks([f, f]);
    AssertionsHoldIffSumFits([f, f, f]);
  }

  // ----- admission -----

  // event_be_time_exceeds_budget and event_be_blocks_exceed_budget
  predicate Exceeds(outstanding: nat, incoming: nat, budget: nat) {
    incoming > budget || outstanding > budget - incoming
  }

  ghost predicate TimeBlocked(queue: seq<Flight>, unknown: bool, incoming: nat, window: nat, budget: nat) {
    queue != [] && (unknown || |queue| >= window || Exceeds(SumPredicted(queue), incoming, budget))
  }

  // The launches still outstanding when a time-budget admission loop ends.
  ghost function TimeAdmit(queue: seq<Flight>, unknown: bool, incoming: nat, window: nat, budget: nat): (r: seq<Flight>)
  {
    if TimeBlocked(queue, unknown, incoming, window, budget) then
      TimeAdmit(queue[1..], unknown, incoming, window, budget)
    else queue
  }

  // It retires the fewest, oldest first, that make room: an unknown launch needs an
  // empty queue, another one a free position and room for its prediction.
  lemma {:induction false} TimeAdmitRetiresFewest(queue: seq<Flight>, unknown: bool, incoming: nat, window: nat,
                                                  budget: nat)
    ensures var r := TimeAdmit(queue, unknown, incoming, window, budget);
            && |r| <= |queue| && r == queue[|queue| - |r|..]
            && (r == [] || (!unknown && |r| < window && SumPredicted(r) + incoming <= budget))
            && forall k :: 0 <= k < |queue| - |r| ==>
                 unknown || |queue[k..]| >= window || SumPredicted(queue[k..]) + incoming > budget
  {
    if TimeBlocked(queue, unknown, incoming, window, budget) {
      TimeAdmitRetiresFewest(queue[1..], unknown, incoming, window, budget);
      var r := TimeAdmit(queue[1..], unknown, incoming, window, budget);
      forall k | 0 <= k < |queue| - |r|
        ensures unknown || |queue[k..]| >= window || SumPredicted(queue[k..]) + incoming > budget
      {
        assert queue[0..] == queue;
        if k > 0 { assert queue[k..] == queue[1..][k - 1..]; }
      }
    }
  }

  lemma {:induction false} TimeAdmitUnblocks(queue: seq<Flight>, unknown: bool, incoming: nat, window: nat, budget: nat)
    ensures !TimeBlocked(TimeAdmit(queue, unknown, incoming, window, budget), unknown, incoming, window, budget)
  {
    if TimeBlocked(queue, unknown, incoming, window, budget) {
      TimeAdmitUnblocks(queue[1..], unknown, incoming, window, budget);
    }
  }

  ghost predicate GridBlocked(queue: seq<Flight>, blocks: nat, window: nat, limited: bool, budget: nat) {
    queue != [] && (|queue| >= window || (limited && Exceeds(SumBlocks(queue), blocks, budget)))
  }

  ghost function GridAdmit(queue: seq<Flight>, blocks: nat, window: nat, limited: bool, budget: nat): (r: seq<Flight>)
  {
    if GridBlocked(queue, blocks, window, limited, budget) then GridAdmit(queue[1..], blocks, window, limited, budget)
    else queue
  }

  lemma {:induction false} GridAdmitRetiresFewest(queue: seq<Flight>, blocks: nat, window: nat, limited: bool,
                                                  budget: nat)
    ensures var r := GridAdmit(queue, blocks, window, limited, budget);
            && |r| <= |queue| && r == queue[|queue| - |r|..]
            && (r == [] || (|r| < window && (limited ==> SumBlocks(r) + blocks <= budget)))
            && forall k :: 0 <= k < |queue| - |r| ==>
                 |queue[k..]| >= window || (limited && SumBlocks(queue[k..]) + blocks > budget)
  {
    if GridBlocked(queue, blocks, window, limited, budget) {
      GridAdmitRetiresFewest(queue[1..], blocks, window, limited, budget);
      var r := GridAdmit(queue[1..], blocks, window, limited, budget);
      forall k | 0 <= k < |queue| - |r|
        ensures |queue[k..]| >= window || (limited && SumBlocks(queue[k..]) + blocks > budget)
      {
        assert queue[0..] == queue;
        if k > 0 { assert queue[k..] == queue[1..][k - 1..]; }
      }
    }
  }

  lemma {:induction false} GridAdmitUnblocks(queue: seq<Flight>, blocks: nat, window: nat, limited: bool, budget: nat)
    ensures !GridBlocked(GridAdmit(queue, blocks, window, limited, budget), blocks, window, limited, budget)
  {
    if GridBlocked(queue, blocks, window, limited, budget) {
      GridAdmitUnblocks(queue[1..], blocks, window, limited, budget);
    }
  }

  // ----- what is kept over every run -----

  // The predicted time in flight is within the budget, or it is a single launch.
  ghost predicate TimeBounded(queue: seq<Flight>, budget: nat) {
    SumPredicted(queue) <= budget || |queue| <= 1
  }

  ghost predicate GridBounded(queue: seq<Flight>, budget: nat) {
    SumBlocks(queue) <= budget || |queue| <= 1
  }

  // Only the oldest launch may have gone in without a known prediction.
  ghost predicate OnlyHeadUnknown(queue: seq<Flight>) {
    forall i :: 0 < i < |queue| ==> !queue[i].unknown
  }

  lemma PopKeepsBounds(queue: seq<Flight>, budget: nat)
    requires queue != []
    ensures TimeBounded(queue, budget) ==> TimeBounded(queue[1..], budget)
    ensures GridBounded(queue, budget) ==> GridBounded(queue[1..], budget)
    ensures OnlyHeadUnknown(queue) ==> OnlyHeadUnknown(queue[1..])
  {
  }

  lemma AdmittedTimeKeepsBounds(queue: seq<Flight>, f: Flight, window: nat, effective: nat, budget: nat)
    requires !TimeBlocked(queue, f.unknown, f.predictedNs, window, effective) && effective <= budget
    requires OnlyHeadUnknown(queue) && window > 0
    ensures TimeBounded(queue + [f], budget) && OnlyHeadUnknown(queue + [f]) && |queue + [f]| <= window
  {
    SumsAppend(queue, f, 0);
    if queue == [] { assert queue + [f] == [f]; }
  }

  lemma AdmittedGridKeepsBounds(queue: seq<Flight>, f: Flight, window: nat, effective: nat, budget: nat)
    requires !GridBlocked(queue, f.blocks, window, true, effective) && effective <= budget && window > 0
    ensures GridBounded(queue + [f], budget) && |queue + [f]| <= window
  {
    SumsAppend(queue, f, 0);
    if queue == [] { assert queue + [f] == [f]; }
  }

  // ----- shares of a group -----

  // event_be_partition_budget and event_be_partition_window
  function Share(total: nat, count: nat): (share: nat)
    requires count > 0
    ensures share >= 1 && (total < count ==> share == 1)
  {
    if total / count == 0 then 1 else total / count
  }

  // The shares of `count` processes add up to no more than the total exactly
  // when there is at least one unit for each, and no larger share would do.
  lemma SharesFitIff(total: nat, count: nat)
    requires count > 0
    ensures count * Share(total, count) <= total <==> count <= total
    ensures total < count * (Share(total, count) + 1)
  {
    var q := total / count;
    assert total == q * count + total % count;
    assert count * (q + 1) == q * count + count;
    if q == 0 {
      assert count * 1 == count;
    } else {
      assert count <= q * count by { MulAtLeast(q, count); }
      assert count * q == q * count;
    }
  }

  lemma MulAtLeast(q: nat, count: nat)
    requires q >= 1
    ensures count <= q * count
  {
  }
}
