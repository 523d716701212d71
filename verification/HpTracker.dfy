// The lock-held bodies of the high-priority proxy, on the slot array and the
// counters they share. Each one takes exactly the step HpProtocol names.
module HpTracker {
  import opened HpProtocol
  import opened ActivityTracker
  import opened Common

  // The stream runs dry: every submission to it completes, oldest first.
  ghost function FinishStream(s: Hp, stream: Stream, n: nat): (r: Hp)
    requires n <= |s.work|
    ensures |r.work| == |s.work| && r == s.(work := r.work)
    ensures forall k :: 0 <= k < |s.work| ==> r.work[k].stream == s.work[k].stream
  {
    if n == 0 then s
    else
      var r := FinishStream(s, stream, n - 1);
      if r.work[n - 1].stream == stream then Complete(r, n - 1) else r
  }

  lemma {:induction false} FinishStreamKeeps(s: Hp, stream: Stream, n: nat)
    requires Inv(s) && n <= |s.work|
    ensures Inv(FinishStream(s, stream, n)) && StreamDone(FinishStream(s, stream, n).work, stream, n)
  {
    if n > 0 {
      FinishStreamKeeps(s, stream, n - 1);
      var r := FinishStream(s, stream, n - 1);
      if r.work[n - 1].stream == stream { CompleteKeeps(r, n - 1); }
    }
  }

  ghost predicate HasRoom(slots: seq<Slot>) {
    exists i :: 0 <= i < |slots| && !slots[i].hasEvent
  }

  ghost predicate IsKnown(slots: seq<Slot>, stream: Stream) {
    exists i :: 0 <= i < |slots| && Matches(slots[i], stream)
  }

  // A slot can stand for the launch: the watcher runs, and its stream has a slot
  // or can get one.
  ghost predicate CanTrack(s: Hp, stream: Stream, createOk: bool) {
    s.started && (IsKnown(s.slots, stream) || (createOk && HasRoom(s.slots)))
  }

  // What becomes of a launch the driver accepted: it is counted out; its stream is
  // synchronised when no watcher runs, no slot can be had or the record fails;
  // otherwise its slot is armed, the record left to the watcher where that can make
  // it, and the count of records moves on.
  ghost predicate Outcome(s: Hp, s': Hp, stream: Stream, perThread: bool, slot: int, calls: Calls, synced: bool)
    requires Shaped(s) && Shaped(s')
  {
    var later := s.mode == Deferred && !(perThread && stream in {0, 2});
    && (synced <==>
          || !s.started
          || (!IsKnown(s.slots, stream) && !(calls.createOk && HasRoom(s.slots)))
          || (!later && !calls.recordOk))
    && (!synced ==>
          0 <= slot < MAX_STREAMS
          && s'.slots[slot] == Slot(true, stream, true, perThread, later, s.slots[slot].generation + 1))
    && (forall i :: 0 <= i < MAX_STREAMS && i != slot ==> s'.slots[i] == s.slots[i])
    && s'.inProgress == s.inProgress - 1
    && s'.recordGeneration == s.recordGeneration + (if synced then 0 else 1)
    && (synced ==> forall k :: 0 <= k < |s'.work| && s'.work[k].stream == stream ==> s'.work[k].done)
  }

  lemma SomeoneIsIn(s: Hp, t: Thread)
    requires Inv(s) && t in s.threads
    ensures s.inProgress > 0
  {
    assert t in s.threads.Keys && |s.threads.Keys| == |s.threads|;
  }

  lemma OutcomeOfLaunch(s: Hp, t: Thread, slot: int, calls: Calls, synced: bool)
    requires Inv(s) && t in s.threads && s.threads[t].Launched? && slot < MAX_STREAMS
    requires synced == !Arms(s, s.threads[t].stream, s.threads[t].perThread, slot, calls.recordOk)
    requires (slot >= 0) == CanTrack(s, s.threads[t].stream, calls.createOk)
    requires var m := if synced then FinishStream(s, s.threads[t].stream, |s.work|) else s;
             AfterEnabled(m, t, slot, calls.recordOk)
    ensures var m := if synced then FinishStream(s, s.threads[t].stream, |s.work|) else s;
            Outcome(s, AfterLaunch(m, t, slot, calls.recordOk), s.threads[t].stream, s.threads[t].perThread, slot,
                    calls, synced)
  {
    SomeoneIsIn(s, t);
    if synced {
      FinishStreamKeeps(s, s.threads[t].stream, |s.work|);
      OutcomeOfSync(s, FinishStream(s, s.threads[t].stream, |s.work|), t, slot, calls);
    } else {
      OutcomeOfArming(s, t, slot, calls);
    }
  }

  lemma OutcomeOfSync(s: Hp, m: Hp, t: Thread, slot: int, calls: Calls)
    requires Shaped(s) && s.inProgress > 0 && m == s.(work := m.work)
    requires t in s.threads && s.threads[t].Launched? && slot < MAX_STREAMS
    requires !Arms(s, s.threads[t].stream, s.threads[t].perThread, slot, calls.recordOk)
    requires (slot >= 0) == CanTrack(s, s.threads[t].stream, calls.createOk)
    requires StreamDone(m.work, s.threads[t].stream, |m.work|) && AfterEnabled(m, t, slot, calls.recordOk)
    ensures Outcome(s, AfterLaunch(m, t, slot, calls.recordOk), s.threads[t].stream, s.threads[t].perThread, slot,
                    calls, true)
  {
  }

  lemma OutcomeOfArming(s: Hp, t: Thread, slot: int, calls: Calls)
    requires Shaped(s) && s.inProgress > 0 && AfterEnabled(s, t, slot, calls.recordOk) && s.threads[t].Launched?
    requires Arms(s, s.threads[t].stream, s.threads[t].perThread, slot, calls.recordOk)
    requires (slot >= 0) == CanTrack(s, s.threads[t].stream, calls.createOk)
    ensures Outcome(s, AfterLaunch(s, t, slot, calls.recordOk), s.threads[t].stream, s.threads[t].perThread, slot,
                    calls, false)
  {
  }

  // Every active slot has a wait as the slot is now, and no other slot has one.
  ghost predicate OneWaitEach(slots: seq<Slot>, waits: seq<Wait>) {
    && (forall i :: 0 <= i < |slots| && slots[i].active ==>
          Wait(i, slots[i].stream, slots[i].perThread, slots[i].recordPending, slots[i].generation, Untouched) in waits)
    && (forall j :: 0 <= j < |waits| ==> waits[j].slot < |slots| && slots[waits[j].slot].active)
    && (forall j, k :: 0 <= j < k < |waits| ==> waits[j].slot < waits[k].slot)
  }

  lemma SnapshotIsOneEach(slots: seq<Slot>)
    ensures OneWaitEach(slots, Snapshot(slots, |slots|))
  {
    forall i | 0 <= i < |slots| && slots[i].active
      ensures Wait(i, slots[i].stream, slots[i].perThread, slots[i].recordPending, slots[i].generation, Untouched)
              in Snapshot(slots, |slots|)
    {
      SnapshotCovers(slots, |slots|, i);
    }
    forall j | 0 <= j < |Snapshot(slots, |slots|)|
      ensures Snapshot(slots, |slots|)[j].slot < |slots| && slots[Snapshot(slots, |slots|)[j].slot].active
    {
      SnapshotIsActive(slots, |slots|, j);
    }
    forall j, k | 0 <= j < k < |Snapshot(slots, |slots|)|
      ensures Snapshot(slots, |slots|)[j].slot < Snapshot(slots, |slots|)[k].slot
    {
      SnapshotInOrder(slots, |slots|, j, k);
    }
  }

  lemma {:induction false} SnapshotInOrder(slots: seq<Slot>, n: nat, j: nat, k: nat)
    requires n <= |slots| && j < k < |Snapshot(slots, n)|
    ensures Snapshot(slots, n)[j].slot < Snapshot(slots, n)[k].slot
  {
    SnapshotIsActive(slots, n - 1, j);
    if k < |Snapshot(slots, n - 1)| { SnapshotInOrder(slots, n - 1, j, k); }
  }

  class Tracker {
    const shared: SharedState
    const mode: Mode
    const slots: array<Slot>
    var launchesInProgress: nat
    var stateActive: bool
    var threadStarted: bool
    var recordGeneration: nat
    var stop: bool

    // The launcher threads, the watcher and the device.
    ghost var threads: map<Thread, Phase>
    ghost var watcher: Watcher
    ghost var work: seq<Work>
    ghost var cover: seq<nat>
    ghost var mark: seq<nat>

    ghost function View(): Hp
      reads this, slots, shared
    {
      Hp(mode, slots[..], launchesInProgress, stateActive, threadStarted, recordGeneration, stop, shared.active,
         threads, watcher, work, cover, mark)
    }

    ghost predicate Valid()
      reads this, slots, shared, shared.counts
    {
      && slots.Length == MAX_STREAMS
      && shared.Valid()
      && Inv(View())
    }

    constructor (shared: SharedState, mode: Mode)
      requires shared.Valid() && !shared.active
      ensures Valid() && Init(View()) && this.shared == shared && this.mode == mode && fresh(slots)
    {
      this.shared, this.mode := shared, mode;
      slots := new Slot[MAX_STREAMS](_ => FREE_SLOT);
      launchesInProgress, stateActive, threadStarted, recordGeneration, stop := 0, false, false, 0, false;
      threads, watcher, work := map[], NotStarted, [];
      cover, mark := seq(MAX_STREAMS, _ => 0), seq(MAX_STREAMS, _ => 0);
      new;
      assert slots[..] == seq(MAX_STREAMS, _ => FREE_SLOT);
      InitHolds(View());
    }

    // hp_any_active_event_locked
    method AnyActiveEvent() returns (r: bool)
      ensures r <==> AnyActive(slots[..])
    {
      for i := 0 to slots.Length
        invariant forall k :: 0 <= k < i ==> !slots[k].active
      {
        if slots[i].active {
          assert slots[..][i].active;
          return true;
        }
      }
      return false;
    }

    // hp_publish_idle_locked
    method PublishIfIdle(now: nat)
      requires shared.Valid() && shared.active == stateActive
      modifies this`stateActive, shared
      ensures shared.Valid() && View() == PublishIdle(old(View()))
      ensures old(shared.Telescopes()) && now >= old(shared.LastTransition()) ==> shared.Telescopes()
    {
      if stateActive && launchesInProgress == 0 {
        var any := AnyActiveEvent();
        if !any {
          shared.MarkIdle(now);
          stateActive := false;
        }
      }
    }

    method PublishActive(now: nat)
      requires shared.Valid() && shared.active == stateActive
      modifies this`stateActive, shared, shared.counts
      ensures shared.Valid() && stateActive && shared.active
      ensures old(shared.Telescopes()) && now >= old(shared.LastTransition()) ==> shared.Telescopes()
    {
      if !stateActive {
        var _ := shared.MarkActive(now);
        stateActive := true;
      }
    }

    // event_hp_before_launch
    method Before(ghost t: Thread, canStart: bool, now: nat)
      requires Valid() && t !in threads
      modifies this, shared, shared.counts
      ensures Valid() && View() == BeforeLaunch(old(View()), t, canStart)
      ensures launchesInProgress == old(launchesInProgress) + 1 && shared.active
      ensures threadStarted == (old(threadStarted) || canStart)
      ensures old(shared.Telescopes()) && now >= old(shared.LastTransition()) ==> shared.Telescopes()
    {
      BeforeKeeps(View(), t, canStart);
      if !threadStarted && canStart {
        threadStarted := true;
        watcher := Top;
      }
      launchesInProgress := launchesInProgress + 1;
      PublishActive(now);
      threads := threads[t := Entered];
    }

    // The driver accepts or refuses the launch.
    ghost method Launch(t: Thread, stream: Stream, perThread: bool, ok: bool)
      requires Valid() && t in threads && threads[t].Entered?
      modifies this`work, this`threads
      ensures Valid() && View() == Submit(old(View()), t, stream, perThread, ok)
    {
      SubmitKeeps(View(), t, stream, perThread, ok);
      if ok {
        threads := threads[t := Launched(stream, perThread, |work|)];
        work := work + [Work(stream, false)];
      } else {
        threads := threads[t := LaunchFailed];
      }
    }

    // hp_event_slot_locked; an event that does not exist yet may fail to be created.
    method SlotFor(stream: Stream, createOk: bool) returns (r: int, created: bool)
      requires slots.Length == MAX_STREAMS
      ensures -1 <= r < MAX_STREAMS
      ensures created ==> r >= 0 && !slots[r].hasEvent && forall i :: 0 <= i < r ==> slots[i].hasEvent
      ensures !created && r >= 0 ==> Matches(slots[r], stream)
      ensures created || r < 0 ==> forall i :: 0 <= i < MAX_STREAMS ==> !Matches(slots[i], stream)
      ensures r < 0 ==> !createOk || forall i :: 0 <= i < MAX_STREAMS ==> slots[i].hasEvent
      ensures created ==> createOk
    {
      var empty := -1;
      for i := 0 to slots.Length
        invariant -1 <= empty < i
        invariant forall k :: 0 <= k < i ==> !Matches(slots[k], stream)
        invariant empty < 0 ==> forall k :: 0 <= k < i ==> slots[k].hasEvent
        invariant empty >= 0 ==> !slots[empty].hasEvent && forall k :: 0 <= k < empty ==> slots[k].hasEvent
      {
        if slots[i].hasEvent && slots[i].stream == stream {
          return i, false;
        }
        if empty < 0 && !slots[i].hasEvent {
          empty := i;
        }
      }
      if empty < 0 || !createOk {
        return -1, false;
      }
      return empty, true;
    }

    // Look the slot up and record in it that the stream has new work; false when
    // the caller must synchronise the stream instead.
    method AccountFor(stream: Stream, perThread: bool, calls: Calls) returns (slot: int)
      requires Shaped(View()) && slots.Length == MAX_STREAMS
      modifies slots, this`recordGeneration, this`cover, this`mark
      ensures slot < MAX_STREAMS && SlotChoice(old(View()), stream, slot)
      ensures (slot >= 0) == CanTrack(old(View()), stream, calls.createOk)
      ensures View() == Account(old(View()), stream, perThread, slot, calls.recordOk)
    {
      ghost var s := View();
      slot := -1;
      var created := false;
      if threadStarted {
        slot, created := SlotFor(stream, calls.createOk);
        assert forall i :: 0 <= i < MAX_STREAMS ==> s.slots[i] == slots[i];
      }
      if slot < 0 {
        return;
      }
      var direct := RecordsAtLaunch(mode, stream, perThread);
      if !direct || calls.recordOk {
        ArmSlot(slot, stream, perThread);
      } else {
        slots[slot] := slots[slot].(hasEvent := true, stream := stream);
        assert slots[..] == s.slots[slot := s.slots[slot].(hasEvent := true, stream := stream)];
      }
    }

    method ArmSlot(slot: nat, stream: Stream, perThread: bool)
      requires Shaped(View()) && slots.Length == MAX_STREAMS && slot < MAX_STREAMS
      modifies slots, this`recordGeneration, this`cover, this`mark
      ensures View() == Arm(old(View()), stream, perThread, slot)
    {
      ghost var s := View();
      var direct := RecordsAtLaunch(mode, stream, perThread);
      slots[slot] := Slot(true, stream, true, perThread, !direct, slots[slot].generation + 1);
      recordGeneration := recordGeneration + 1;
      cover := cover[slot := |work|];
      mark := if direct then mark[slot := |work|] else mark;
      assert slots[..] == s.slots[slot := slots[slot]];
    }

    // Account for a launch by a slot or, failing that, by synchronising its stream
    // with the lock held.
    method AccountOrSync(ghost t: Thread, stream: Stream, perThread: bool, calls: Calls)
      returns (armed: bool, ghost slot: int)
      requires Valid() && t in threads && threads[t].Launched?
      requires threads[t].stream == stream && threads[t].perThread == perThread
      modifies slots, this`recordGeneration, this`cover, this`mark, this`work
      ensures shared.Valid() && slots.Length == MAX_STREAMS
      ensures var s := if armed then old(View()) else FinishStream(old(View()), stream, |old(work)|);
              && AfterEnabled(s, t, slot, calls.recordOk) && Inv(s)
              && armed == Arms(s, stream, perThread, slot, calls.recordOk)
              && View() == Account(s, stream, perThread, slot, calls.recordOk)
      ensures (slot >= 0) == CanTrack(old(View()), stream, calls.createOk)
    {
      ghost var s := View();
      var index := AccountFor(stream, perThread, calls);
      slot := index;
      armed := index >= 0 && (!RecordsAtLaunch(mode, stream, perThread) || calls.recordOk);
      if !armed {
        FinishStreamKeeps(s, stream, |s.work|);
        work := FinishStream(s, stream, |s.work|).work;
      }
    }

    // Count the thread out; publish IDLE if nothing is left.
    method Depart(ghost t: Thread, now: nat)
      requires shared.Valid() && shared.active == stateActive
      modifies this`launchesInProgress, this`threads, this`stateActive, shared
      ensures shared.Valid() && View() == Leave(old(View()), t)
      ensures old(shared.Telescopes()) && now >= old(shared.LastTransition()) ==> shared.Telescopes()
    {
      if launchesInProgress > 0 {
        launchesInProgress := launchesInProgress - 1;
      }
      threads := threads - {t};
      PublishIfIdle(now);
    }

    // Count the thread out, and wake the watcher if it has new work.
    method DepartAndSignal(ghost t: Thread, signal: bool, now: nat)
      requires shared.Valid() && shared.active == stateActive
      modifies this`launchesInProgress, this`threads, this`stateActive, this`watcher, shared
      ensures shared.Valid()
      ensures var l := Leave(old(View()), t); View() == if signal then l.(watcher := Signal(l.watcher)) else l
      ensures old(shared.Telescopes()) && now >= old(shared.LastTransition()) ==> shared.Telescopes()
    {
      Depart(t, now);
      if signal {
        watcher := Signal(watcher);
      }
    }

    // The end of the call for a launch the driver accepted.
    method AfterAccepted(ghost t: Thread, stream: Stream, perThread: bool, calls: Calls, now: nat)
      returns (ghost slot: int, ghost synced: bool)
      requires Valid() && t in threads && threads[t].Launched?
      requires threads[t].stream == stream && threads[t].perThread == perThread
      modifies this, slots, shared
      ensures Valid()
      ensures var s := if synced then FinishStream(old(View()), stream, |old(work)|) else old(View());
              && AfterEnabled(s, t, slot, calls.recordOk)
              && synced == !Arms(s, stream, perThread, slot, calls.recordOk)
              && View() == AfterLaunch(s, t, slot, calls.recordOk)
      ensures (slot >= 0) == CanTrack(old(View()), stream, calls.createOk)
      ensures old(shared.Telescopes()) && now >= old(shared.LastTransition()) ==> shared.Telescopes()
    {
      ghost var s := View();
      var hadActive := AnyActiveEvent();
      var armed;
      armed, slot := AccountOrSync(t, stream, perThread, calls);
      synced := !armed;
      if synced {
        s := FinishStream(s, stream, |s.work|);
      }
      AfterKeeps(s, t, slot, calls.recordOk);
      DepartAndSignal(t, armed && !hadActive, now);
    }

    // The end of the call for a launch the driver refused.
    method AfterRefused(ghost t: Thread, calls: Calls, now: nat)
      requires Valid() && t in threads && threads[t].LaunchFailed?
      modifies this, shared
      ensures Valid() && View() == AfterLaunch(old(View()), t, -1, calls.recordOk)
      ensures launchesInProgress == old(launchesInProgress) - 1
      ensures old(shared.Telescopes()) && now >= old(shared.LastTransition()) ==> shared.Telescopes()
    {
      SomeoneIsIn(View(), t);
      AfterKeeps(View(), t, -1, calls.recordOk);
      Depart(t, now);
    }

    // event_hp_after_launch
    method After(ghost t: Thread, stream: Stream, perThread: bool, launchOk: bool, calls: Calls, now: nat)
      returns (ghost slot: int, ghost synced: bool)
      requires Valid() && t in threads
      requires if launchOk then threads[t].Launched? && threads[t].stream == stream && threads[t].perThread == perThread
               else threads[t].LaunchFailed?
      modifies this, slots, shared
      ensures Valid()
      ensures var s := if synced then FinishStream(old(View()), stream, |old(work)|) else old(View());
              && AfterEnabled(s, t, slot, calls.recordOk)
              && View() == AfterLaunch(s, t, slot, calls.recordOk)
      ensures launchOk ==> (slot >= 0) == CanTrack(old(View()), stream, calls.createOk)
      ensures synced <==> launchOk && !Arms(old(View()), stream, perThread, slot, calls.recordOk)
      ensures !launchOk ==> launchesInProgress == old(launchesInProgress) - 1
      ensures launchOk ==> Outcome(old(View()), View(), stream, perThread, slot, calls, synced)
      ensures old(shared.Telescopes()) && now >= old(shared.LastTransition()) ==> shared.Telescopes()
    {
      if launchOk {
        ghost var s := View();
        slot, synced := AfterAccepted(t, stream, perThread, calls, now);
        OutcomeOfLaunch(s, t, slot, calls, synced);
      } else {
        slot, synced := -1, false;
        AfterRefused(t, calls, now);
      }
    }

    // The head of both watcher loops, up to the wait on the condition.
    method Check()
      requires Valid() && AtLoopHead(View())
      modifies this`watcher
      ensures Valid() && View() == CheckForWork(old(View()))
      ensures stop ==> watcher == Stopped
      ensures !stop && (exists i :: 0 <= i < MAX_STREAMS && slots[i].active) ==> watcher == Settling
      ensures !stop && !(exists i :: 0 <= i < MAX_STREAMS && slots[i].active) ==> watcher == Blocked(false)
    {
      CheckKeeps(View());
      var any := AnyActiveEvent();
      if stop {
        watcher := Stopped;
      } else if any {
        watcher := Settling;
      } else {
        watcher := Blocked(false);
      }
    }

    // The settled frontier is re-checked under the lock; if it still stands, take
    // a snapshot of the active slots (hp_snapshot_active_events_locked).
    method Collect(stable: nat) returns (snapshot: seq<Wait>)
      requires Valid() && watcher == Settled(stable)
      modifies this`watcher
      ensures Valid() && View() == TakeSnapshot(old(View()))
      ensures stop ==> watcher == Stopped
      ensures !stop && (recordGeneration != stable || launchesInProgress != 0) ==> watcher == Top
      ensures !stop && recordGeneration == stable && launchesInProgress == 0 ==>
        watcher == Collecting(snapshot, |work|) && OneWaitEach(slots[..], snapshot)
    {
      SnapshotKeeps(View());
      snapshot := [];
      if stop {
        watcher := Stopped;
        return;
      }
      if recordGeneration != stable || launchesInProgress != 0 {
        watcher := Top;
        return;
      }
      for i := 0 to slots.Length
        invariant snapshot == Snapshot(slots[..], i)
      {
        var x := slots[i];
        if x.active {
          snapshot := snapshot + [Wait(i, x.stream, x.perThread, x.recordPending, x.generation, Untouched)];
        }
      }
      watcher := Collecting(snapshot, |work|);
      SnapshotIsOneEach(slots[..]);
    }

    // Back under the lock after the waits: clear what has not been re-armed.
    method Harvest(snapshot: seq<Wait>, now: nat)
      requires Valid() && watcher.Collecting? && watcher.waits == snapshot
      requires WaitsFinished(snapshot, MAX_STREAMS)
      modifies this, slots, shared
      ensures Valid() && View() == Finish(old(View()))
      ensures forall i :: 0 <= i < MAX_STREAMS ==>
        (slots[i].active <==>
           && old(slots[i].active)
           && !exists j :: 0 <= j < |snapshot| && snapshot[j].slot == i && snapshot[j].progress.Succeeded?
                           && snapshot[j].generation == old(slots[i].generation))
      ensures launchesInProgress == 0 && (forall i :: 0 <= i < MAX_STREAMS ==> !slots[i].active) ==> !shared.active
      ensures old(shared.Telescopes()) && now >= old(shared.LastTransition()) ==> shared.Telescopes()
    {
      FinishKeeps(View());
      FinishFrees(View());
      ClearSlots(snapshot);
      watcher := Top;
      PublishIfIdle(now);
    }

    method ClearSlots(snapshot: seq<Wait>)
      requires slots.Length == MAX_STREAMS && WaitsFinished(snapshot, MAX_STREAMS)
      modifies slots
      ensures slots[..] == Clear(old(slots[..]), snapshot, |snapshot|)
    {
      for i := 0 to |snapshot|
        invariant slots[..] == Clear(old(slots[..]), snapshot, i)
      {
        var w := snapshot[i];
        var x := slots[w.slot];
        if w.progress.Succeeded? {
          if x.active && x.generation == w.generation {
            slots[w.slot] := x.(active := false, recordPending := false);
          }
        }
      }
    }

    // hp_event_query_watcher_loop: ask every active slot's event, under the lock.
    // answers[i] is what the driver says, at once or after a fallback wait, of
    // slot i's event; it says complete only of work that is.
    method Scan(answers: seq<bool>, now: nat) returns (ghost cleared: set<nat>)
      requires Valid() && mode == Query && AtLoopHead(View()) && !stop
      requires |answers| == MAX_STREAMS
      requires forall i :: 0 <= i < MAX_STREAMS && answers[i] && slots[i].active ==>
        StreamDone(work, slots[i].stream, mark[i])
      modifies this, slots, shared
      ensures Valid()
      ensures cleared == set i | 0 <= i < MAX_STREAMS && answers[i] && old(slots[i].active)
      ensures Answered(old(View()), cleared) && View() == QueryScan(old(View()), cleared)
      ensures forall i :: 0 <= i < MAX_STREAMS ==> slots[i].active == (old(slots[i].active) && !answers[i])
      ensures launchesInProgress == 0 && (forall i :: 0 <= i < MAX_STREAMS ==> !slots[i].active) ==> !shared.active
      ensures old(shared.Telescopes()) && now >= old(shared.LastTransition()) ==> shared.Telescopes()
    {
      ghost var s := View();
      cleared := set i | 0 <= i < MAX_STREAMS && answers[i] && slots[i].active;
      for i := 0 to slots.Length
        invariant slots[..] == ClearSet(s.slots, cleared, i)
        invariant View() == s.(slots := slots[..])
        modifies slots
      {
        if slots[i].active && answers[i] {
          slots[i] := slots[i].(active := false);
        }
      }
      ScanKeeps(s, cleared);
      watcher := Top;
      PublishIfDrained(now);
    }

    // The end of a query round.
    method PublishIfDrained(now: nat)
      requires shared.Valid() && shared.active == stateActive
      modifies this`stateActive, shared
      ensures shared.Valid() && View() == PublishIdle(old(View()))
      ensures old(shared.Telescopes()) && now >= old(shared.LastTransition()) ==> shared.Telescopes()
    {
      var stillActive := AnyActiveEvent();
      if !stillActive {
        PublishIfIdle(now);
      }
    }
  }
}
