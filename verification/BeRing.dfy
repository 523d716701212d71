// The ring of in-flight launches with its running sums.
module BeRing {
  import opened BeAdmission
  import opened Common

  datatype BeSlot = BeSlot(stream: nat, blocks: nat, predictedNs: nat, profileIndex: nat, perThread: bool,
                           eventCreated: bool, timingCreated: bool, timingSample: bool, active: bool)

  const FREE_BE_SLOT: BeSlot := BeSlot(0, 0, 0, 0, false, false, false, false, false)

  // How far position k lies behind the head of a ring of `window` positions.
  function Offset(head: nat, k: nat, window: nat): (o: nat)
    requires head < window && k < window
    ensures o < window
  {
    if k >= head then k - head else k + window - head
  }

  ghost predicate Holds(slot: BeSlot, f: Flight) {
    slot.active && slot.blocks == f.blocks && slot.predictedNs == f.predictedNs
    && slot.timingSample == f.sampled && slot.profileIndex == f.profile
  }

  // The active slots are the |queue| positions from the head, in order.
  ghost predicate RingHolds(slots: seq<BeSlot>, window: nat, head: nat, tail: nat, queue: seq<Flight>) {
    && 1 <= window <= WINDOW_MAX == |slots| && head < window && tail < window
    && |queue| <= window
    && (if |queue| < window then Offset(head, tail, window) == |queue| else tail == head)
    && (forall k :: 0 <= k < window && Offset(head, k, window) < |queue| ==>
          Holds(slots[k], queue[Offset(head, k, window)]))
    && (forall k :: 0 <= k < window && Offset(head, k, window) >= |queue| ==> !slots[k].active)
    && (forall k :: window <= k < WINDOW_MAX ==> !slots[k].active)
  }

  lemma NextPosition(k: nat, window: nat)
    requires k < window
    ensures (k + 1) % window == if k + 1 == window then 0 else k + 1
  {
    if k + 1 < window { assert (k + 1) / window == 0; }
  }

  lemma PopHolds(slots: seq<BeSlot>, window: nat, head: nat, tail: nat, queue: seq<Flight>, slot: BeSlot)
    requires RingHolds(slots, window, head, tail, queue) && queue != [] && !slot.active
    ensures RingHolds(slots[head := slot], window, (head + 1) % window, tail, queue[1..])
  {
    NextPosition(head, window);
    var next := (head + 1) % window;
    forall k | 0 <= k < window && k != head
      ensures Offset(next, k, window) == Offset(head, k, window) - 1
    {
    }
    assert Offset(next, head, window) == window - 1;
  }

  lemma PushHolds(slots: seq<BeSlot>, window: nat, head: nat, tail: nat, queue: seq<Flight>, slot: BeSlot, f: Flight)
    requires RingHolds(slots, window, head, tail, queue) && |queue| < window && Holds(slot, f)
    ensures RingHolds(slots[tail := slot], window, head, (tail + 1) % window, queue + [f])
  {
    NextPosition(tail, window);
    forall k | 0 <= k < window && k != tail
      ensures Offset(head, k, window) != |queue|
    {
    }
  }

  class Ring {
    const window: nat
    const slots: array<BeSlot>
    var head: nat
    var tail: nat
    var outstanding: nat
    var outstandingBlocks: nat
    var outstandingPredictedNs: nat
    ghost var queue: seq<Flight>

    ghost predicate Valid()
      reads this, slots
    {
      && RingHolds(slots[..], window, head, tail, queue)
      && outstanding == |queue|
      && (forall i :: 0 <= i < |queue| ==> queue[i].blocks < BLOCK_LIMIT)
      && outstandingBlocks == SumBlocks(queue) % UINT64
      && outstandingPredictedNs == SumPredicted(queue) < UINT64
    }

    constructor (window: nat)
      requires 1 <= window <= WINDOW_MAX
      ensures Valid() && queue == [] && this.window == window && fresh(slots)
    {
      this.window := window;
      slots := new BeSlot[WINDOW_MAX](_ => FREE_BE_SLOT);
      head, tail, outstanding, outstandingBlocks, outstandingPredictedNs, queue := 0, 0, 0, 0, 0, [];
    }

    // The counters are the true sums: nothing has wrapped.
    lemma SumsAreExact()
      requires Valid()
      ensures outstandingBlocks == SumBlocks(queue) < UINT64
    {
      BlocksFit(queue);
      SmallProduct(|queue|);
    }

    lemma PushSums(f: Flight)
      requires Valid() && outstanding < window && f.blocks < BLOCK_LIMIT
      requires SumPredicted(queue) + f.predictedNs < UINT64
      ensures (outstandingBlocks + f.blocks) % UINT64 == SumBlocks(queue + [f]) % UINT64
      ensures (outstandingPredictedNs + f.predictedNs) % UINT64 == SumPredicted(queue + [f]) < UINT64
    {
      SumsAreExact();
      SumsAppend(queue, f, 0);
    }

    static lemma SmallProduct(n: nat)
      requires n <= WINDOW_MAX
      ensures n * (BLOCK_LIMIT - 1) < UINT64
    {
    }

    // The bookkeeping half of event_be_retire_oldest_locked. The three assertions
    // are the source's own.
    method Pop() returns (slot: BeSlot)
      requires Valid() && queue != []
      modifies this, slots
      ensures Valid() && queue == old(queue)[1..]
      ensures Holds(slot, old(queue)[0])
    {
      SumsAreExact();
      slot := slots[head];
      assert Offset(head, head, window) == 0;
      assert slot.active;
      assert outstandingBlocks >= slot.blocks;
      outstandingBlocks := outstandingBlocks - slot.blocks;
      assert outstandingPredictedNs >= slot.predictedNs;
      outstandingPredictedNs := outstandingPredictedNs - slot.predictedNs;
      var emptied := slot.(blocks := 0, predictedNs := 0, timingSample := false, active := false);
      PopHolds(slots[..], window, head, tail, queue, emptied);
      slots[head] := emptied;
      assert slots[..] == old(slots[..])[head := emptied];
      head := (head + 1) % window;
      outstanding := outstanding - 1;
      queue := queue[1..];
    }

    // The slot the next launch will use is free.
    lemma TailIsFree()
      requires Valid() && outstanding < window
      ensures tail < WINDOW_MAX && !slots[tail].active
    {
    }

    // Change the free slot at the tail without making it active.
    method PrepareTail(slot: BeSlot)
      requires Valid() && outstanding < window && !slot.active
      modifies slots
      ensures Valid() && slots[tail] == slot
    {
      slots[tail] := slot;
    }

    // The bookkeeping half of event_be_after_launch.
    method Push(slot: BeSlot, ghost f: Flight)
      requires Valid() && outstanding < window
      requires Holds(slot, f) && f.blocks < BLOCK_LIMIT
      requires SumPredicted(queue) + f.predictedNs < UINT64
      modifies this, slots
      ensures Valid() && queue == old(queue) + [f]
      ensures old(tail) < WINDOW_MAX && slots[old(tail)] == slot
    {
      PushHolds(slots[..], window, head, tail, queue, slot, f);
      PushSums(f);
      slots[tail] := slot;
      assert slots[..] == old(slots[..])[tail := slot];
      tail := (tail + 1) % window;
      outstanding := outstanding + 1;
      outstandingBlocks := (outstandingBlocks + slot.blocks) % UINT64;
      outstandingPredictedNs := (outstandingPredictedNs + slot.predictedNs) % UINT64;
      queue := queue + [f];
    }
  }
}
