// The high-priority process as a state machine: launcher threads, the watcher
// that waits outside the lock, and a GPU that finishes work when it likes.
// One step is one lock-held body, one driver call, or one completion.
module HpProtocol {

  type Stream = nat
  type Thread = nat

  const MAX_STREAMS: nat := 64

  datatype Mode = Blocking | Query | Deferred

  // hp_event_slot_t; hasEvent says that the slot's event has been created.
  datatype Slot = Slot(hasEvent: bool, stream: Stream, active: bool, perThread: bool, recordPending: bool,
                       generation: nat)

  const FREE_SLOT: Slot := Slot(false, 0, false, false, false, 0)

  // One submitted launch. Work on a stream is numbered by its place in the log.
  datatype Work = Work(stream: Stream, done: bool)

  // A thread between the two halves of the launch wrapper.
  datatype Phase =
    | Entered
    | Launched(stream: Stream, perThread: bool, item: nat)
    | LaunchFailed

  // Where the watcher is with one snapshot entry. Syncing(n) waits for an event
  // recorded after n submissions, StreamSyncing(n) for the stream after n.
  datatype Progress =
    Untouched | JustRecorded | Syncing(n: nat) | FallingBack | StreamSyncing(n: nat) | Succeeded | GaveUp

  datatype Wait = Wait(slot: nat, stream: Stream, perThread: bool, recordPending: bool, generation: nat,
                       progress: Progress)

  datatype Watcher =
    | NotStarted
    | Top
    | Blocked(signalled: bool)
    | Settling
    | Settled(stable: nat)
    | Collecting(waits: seq<Wait>, floor: nat)
    | Stopped

  // cover[i]: submissions made before slot i was last armed.
  // mark[i]: submissions made before slot i's event was last recorded.
  datatype Hp = Hp(mode: Mode, slots: seq<Slot>, inProgress: nat, stateActive: bool, started: bool,
                   recordGeneration: nat, stop: bool, published: bool,
                   threads: map<Thread, Phase>, watcher: Watcher, work: seq<Work>, cover: seq<nat>, mark: seq<nat>)

  // ----- reading a state -----

  ghost predicate AnyActive(slots: seq<Slot>) {
    exists i :: 0 <= i < |slots| && slots[i].active
  }

  // The first n submissions that went to a stream are complete.
  ghost predicate StreamDone(work: seq<Work>, stream: Stream, n: nat) {
    forall k :: 0 <= k < n && k < |work| && work[k].stream == stream ==> work[k].done
  }

  ghost predicate AllDone(work: seq<Work>) {
    forall k :: 0 <= k < |work| ==> work[k].done
  }

  ghost predicate HoldsItem(s: Hp, t: Thread, k: nat) {
    t in s.threads && s.threads[t].Launched? && s.threads[t].item == k
  }

  ghost predicate Covers(s: Hp, i: nat, k: nat)
    requires i < |s.slots| == |s.cover| && k < |s.work|
  {
    s.slots[i].active && s.slots[i].stream == s.work[k].stream && k < s.cover[i]
  }

  // A submission is complete, or its thread has yet to account for it, or a slot stands for it.
  ghost predicate Accounted(s: Hp, k: nat)
    requires |s.slots| == |s.cover| && k < |s.work|
  {
    || s.work[k].done
    || (exists t :: HoldsItem(s, t, k))
    || (exists i :: 0 <= i < |s.slots| && Covers(s, i, k))
  }

  // ----- the invariant -----

  ghost predicate Shaped(s: Hp) {
    |s.slots| == |s.cover| == |s.mark| == MAX_STREAMS
  }

  // At every lock release: ACTIVE exactly while a launch is in progress or a slot is active.
  ghost predicate StateExact(s: Hp) {
    && s.inProgress == |s.threads|
    && (s.stateActive <==> s.inProgress > 0 || AnyActive(s.slots))
    && s.published == s.stateActive
  }

  // A watcher asleep on the condition with something to do has been signalled.
  ghost predicate NoLostWakeup(s: Hp) {
    && (s.started <==> s.watcher != NotStarted) && (!s.started ==> !AnyActive(s.slots))
    && (s.watcher == Stopped ==> s.stop)
    && (s.watcher.Blocked? && !s.watcher.signalled ==> !AnyActive(s.slots) && !s.stop)
  }

  // The handle names the default stream of whichever thread uses it: only the
  // launching thread can record on it.
  predicate OwnDefaultStream(stream: Stream, perThread: bool) {
    perThread && (stream == 0 || stream == 2)
  }

  ghost predicate SlotOk(s: Hp, i: nat)
    requires Shaped(s) && i < MAX_STREAMS
  {
    && s.cover[i] <= |s.work| && s.mark[i] <= |s.work|
    && (s.slots[i].active || s.slots[i].recordPending ==> s.slots[i].hasEvent)
    && (s.slots[i].recordPending ==>
          s.mode == Deferred && !OwnDefaultStream(s.slots[i].stream, s.slots[i].perThread))
    && (s.slots[i].active && !s.slots[i].recordPending ==> s.cover[i] <= s.mark[i])
  }

  ghost predicate SlotsOk(s: Hp)
    requires Shaped(s)
  {
    && (forall i {:trigger SlotOk(s, i)} :: 0 <= i < MAX_STREAMS ==> SlotOk(s, i))
    && (forall i, j :: 0 <= i < j < MAX_STREAMS && s.slots[i].hasEvent && s.slots[j].hasEvent ==>
          s.slots[i].stream != s.slots[j].stream)
  }

  ghost predicate ThreadsOk(s: Hp) {
    forall t :: t in s.threads && s.threads[t].Launched? ==>
      s.threads[t].item < |s.work| && s.work[s.threads[t].item].stream == s.threads[t].stream
  }

  ghost predicate WorkCovered(s: Hp)
    requires Shaped(s)
  {
    forall k {:trigger Accounted(s, k)} :: 0 <= k < |s.work| ==> Accounted(s, k)
  }

  // A snapshot entry whose slot has not been re-armed since.
  predicate Current(s: Hp, w: Wait)
    requires w.slot < |s.slots|
  {
    s.slots[w.slot].generation == w.generation
  }

  ghost predicate WaitOk(s: Hp, w: Wait, floor: nat)
    requires Shaped(s)
  {
    && w.slot < MAX_STREAMS && s.slots[w.slot].hasEvent && s.slots[w.slot].stream == w.stream
    && w.generation <= s.slots[w.slot].generation
    && (w.recordPending ==> s.mode == Deferred && !OwnDefaultStream(w.stream, w.perThread))
    && (Current(s, w) ==>
          && s.slots[w.slot].active && s.slots[w.slot].recordPending == w.recordPending
          && s.cover[w.slot] <= floor
          && (w.progress.Syncing? ==> s.cover[w.slot] <= w.progress.n)
          && (w.progress.Succeeded? ==> StreamDone(s.work, w.stream, s.cover[w.slot])))
    && (w.progress.JustRecorded? ==> s.mark[w.slot] >= floor)
    && (w.progress.Untouched? && !w.recordPending && Current(s, w) ==> s.cover[w.slot] <= s.mark[w.slot])
    && (w.progress.StreamSyncing? ==> w.progress.n >= floor)
  }

  ghost predicate WaitsOk(s: Hp)
    requires Shaped(s)
  {
    s.watcher.Collecting? ==>
      && s.watcher.floor <= |s.work|
      && (forall j :: 0 <= j < |s.watcher.waits| ==> WaitOk(s, s.watcher.waits[j], s.watcher.floor))
  }

  ghost predicate Inv(s: Hp) {
    && Shaped(s) && StateExact(s) && NoLostWakeup(s) && SlotsOk(s) && ThreadsOk(s) && WorkCovered(s) && WaitsOk(s)
  }

  // ----- what the invariant is for -----

  // Whenever IDLE is published, everything that was submitted has completed.
  lemma IdleMeansDone(s: Hp)
    requires Inv(s) && !s.published
    ensures AllDone(s.work)
  {
    assert s.threads == map[] by {
      assert |s.threads.Keys| == |s.threads| == 0;
    }
    forall k | 0 <= k < |s.work|
      ensures s.work[k].done
    {
      assert Accounted(s, k);
      assert forall t :: !HoldsItem(s, t, k);
    }
  }

  // ----- the steps of the launcher threads -----

  // hp_publish_idle_locked
  ghost function PublishIdle(s: Hp): Hp {
    if s.stateActive && s.inProgress == 0 && !AnyActive(s.slots) then s.(stateActive := false, published := false)
    else s
  }

  // event_hp_before_launch; canStart says whether a missing watcher can be started now.
  ghost function BeforeLaunch(s: Hp, t: Thread, canStart: bool): Hp {
    s.(started := s.started || canStart,
       watcher := if !s.started && canStart then Top else s.watcher,
       inProgress := s.inProgress + 1,
       stateActive := true,
       published := if s.stateActive then s.published else true,
       threads := s.threads[t := Entered])
  }

  // The real launch, outside the lock.
  ghost function Submit(s: Hp, t: Thread, stream: Stream, perThread: bool, ok: bool): Hp {
    if ok then s.(work := s.work + [Work(stream, false)],
                  threads := s.threads[t := Launched(stream, perThread, |s.work|)])
    else s.(threads := s.threads[t := LaunchFailed])
  }

  // Streams whose completion a thread must record itself, even in deferred mode.
  predicate RecordsAtLaunch(mode: Mode, stream: Stream, perThread: bool) {
    mode != Deferred || OwnDefaultStream(stream, perThread)
  }

  predicate Matches(slot: Slot, stream: Stream) {
    slot.hasEvent && slot.stream == stream
  }

  // What hp_event_slot_locked may answer: the slot of the stream, else the first
  // slot without an event if an event can be created, else none.
  ghost predicate SlotChoice(s: Hp, stream: Stream, slot: int)
    requires Shaped(s)
  {
    if !s.started then slot == -1
    else if exists i :: 0 <= i < MAX_STREAMS && Matches(s.slots[i], stream) then
      0 <= slot < MAX_STREAMS && Matches(s.slots[slot], stream)
    else
      slot == -1
      || (0 <= slot < MAX_STREAMS && !s.slots[slot].hasEvent && forall i :: 0 <= i < slot ==> s.slots[i].hasEvent)
  }

  // The launch is now accounted for by a slot, and not by a synchronisation.
  predicate Arms(s: Hp, stream: Stream, perThread: bool, slot: int, recordOk: bool) {
    slot >= 0 && (!RecordsAtLaunch(s.mode, stream, perThread) || recordOk)
  }

  ghost function Arm(s: Hp, stream: Stream, perThread: bool, slot: nat): Hp
    requires Shaped(s) && slot < MAX_STREAMS
  {
    var direct := RecordsAtLaunch(s.mode, stream, perThread);
    s.(slots := s.slots[slot := Slot(true, stream, true, perThread, !direct, s.slots[slot].generation + 1)],
       recordGeneration := s.recordGeneration + 1,
       cover := s.cover[slot := |s.work|],
       mark := if direct then s.mark[slot := |s.work|] else s.mark)
  }

  ghost function Account(s: Hp, stream: Stream, perThread: bool, slot: int, recordOk: bool): Hp
    requires Shaped(s) && slot < MAX_STREAMS
  {
    if Arms(s, stream, perThread, slot, recordOk) then Arm(s, stream, perThread, slot)
    else if slot >= 0 then s.(slots := s.slots[slot := s.slots[slot].(hasEvent := true, stream := stream)])
    else s
  }

  // event_hp_after_launch. Without a slot or a record it returns only once the
  // stream has been synchronised.
  ghost predicate AfterEnabled(s: Hp, t: Thread, slot: int, recordOk: bool)
    requires Shaped(s)
  {
    && t in s.threads && !s.threads[t].Entered?
    && slot < MAX_STREAMS
    && (s.threads[t].Launched? ==>
          var p := s.threads[t];
          && SlotChoice(s, p.stream, slot)
          && (!Arms(s, p.stream, p.perThread, slot, recordOk) ==> StreamDone(s.work, p.stream, p.item + 1)))
  }

  ghost function Leave(s: Hp, t: Thread): Hp {
    PublishIdle(s.(inProgress := if s.inProgress > 0 then s.inProgress - 1 else 0, threads := s.threads - {t}))
  }

  function Signal(w: Watcher): Watcher {
    if w.Blocked? then Blocked(true) else w
  }

  ghost function AfterLaunch(s: Hp, t: Thread, slot: int, recordOk: bool): Hp
    requires Shaped(s) && AfterEnabled(s, t, slot, recordOk)
  {
    var p := s.threads[t];
    if !p.Launched? then Leave(s, t)
    else
      var after := Leave(Account(s, p.stream, p.perThread, slot, recordOk), t);
      if Arms(s, p.stream, p.perThread, slot, recordOk) && !AnyActive(s.slots) then
        after.(watcher := Signal(after.watcher))
      else after
  }

  // ----- the steps of the watcher -----

  predicate AtLoopHead(s: Hp) {
    s.watcher.Top? || s.watcher.Blocked?
  }

  // The wait on the condition: taken from Blocked too, for a wakeup of any kind.
  ghost function CheckForWork(s: Hp): Hp
  {
    if s.stop then s.(watcher := Stopped)
    else if AnyActive(s.slots) then s.(watcher := Settling)
    else s.(watcher := Blocked(false))
  }

  // hp_event_query_watcher_loop: the slots whose events answered that they are complete.
  ghost predicate Answered(s: Hp, cleared: set<nat>)
    requires Shaped(s)
  {
    forall i :: i in cleared ==>
      i < MAX_STREAMS && s.slots[i].active && StreamDone(s.work, s.slots[i].stream, s.mark[i])
  }

  ghost function ClearSet(slots: seq<Slot>, cleared: set<nat>, n: nat): (r: seq<Slot>)
    requires n <= |slots|
    ensures |r| == |slots|
    ensures forall i :: 0 <= i < |slots| ==>
      r[i] == if i < n && i in cleared then slots[i].(active := false) else slots[i]
  {
    if n == 0 then slots
    else
      var r := ClearSet(slots, cleared, n - 1);
      if n - 1 in cleared then r[n - 1 := slots[n - 1].(active := false)] else r
  }

  ghost function QueryScan(s: Hp, cleared: set<nat>): Hp {
    PublishIdle(s.(slots := ClearSet(s.slots, cleared, |s.slots|), watcher := Top))
  }

  // hp_snapshot_active_events_locked
  ghost function Snapshot(slots: seq<Slot>, n: nat): (waits: seq<Wait>)
    requires n <= |slots|
  {
    if n == 0 then []
    else if slots[n - 1].active then
      var x := slots[n - 1];
      Snapshot(slots, n - 1) + [Wait(n - 1, x.stream, x.perThread, x.recordPending, x.generation, Untouched)]
    else Snapshot(slots, n - 1)
  }

  ghost function TakeSnapshot(s: Hp): Hp
    requires s.watcher.Settled?
  {
    if s.stop then s.(watcher := Stopped)
    else if s.recordGeneration != s.watcher.stable || s.inProgress != 0 then s.(watcher := Top)
    else s.(watcher := Collecting(Snapshot(s.slots, |s.slots|), |s.work|))
  }

  ghost function SetProgress(s: Hp, j: nat, p: Progress): Hp
    requires s.watcher.Collecting? && j < |s.watcher.waits|
  {
    s.(watcher := Collecting(s.watcher.waits[j := s.watcher.waits[j].(progress := p)], s.watcher.floor))
  }

  // One call, or the return of one call, on behalf of snapshot entry j.
  ghost predicate WaitStep(s: Hp, j: nat, s': Hp)
    requires Shaped(s)
  {
    && s.watcher.Collecting? && j < |s.watcher.waits| && s.watcher.waits[j].slot < MAX_STREAMS
    && var w := s.watcher.waits[j];
       match w.progress
       case Untouched =>
         if s.mode == Deferred && w.recordPending then
           s' == SetProgress(s, j, FallingBack)
           || s' == SetProgress(s, j, JustRecorded).(mark := s.mark[w.slot := |s.work|])
         else s' == SetProgress(s, j, Syncing(s.mark[w.slot]))
       case JustRecorded => s' == SetProgress(s, j, Syncing(s.mark[w.slot]))
       case Syncing(n) =>
         s' == SetProgress(s, j, FallingBack)
         || (StreamDone(s.work, w.stream, n) && s' == SetProgress(s, j, Succeeded))
       case FallingBack => s' == SetProgress(s, j, StreamSyncing(|s.work|))
       case StreamSyncing(n) =>
         s' == SetProgress(s, j, GaveUp)
         || (StreamDone(s.work, w.stream, n) && s' == SetProgress(s, j, Succeeded))
       case Succeeded => false
       case GaveUp => false
  }

  // Clear a slot only if its wait succeeded and it was not re-armed meanwhile.
  function ClearOne(slots: seq<Slot>, w: Wait): (r: seq<Slot>)
    requires w.slot < |slots|
    ensures |r| == |slots|
  {
    if w.progress.Succeeded? && slots[w.slot].active && slots[w.slot].generation == w.generation then
      slots[w.slot := slots[w.slot].(active := false, recordPending := false)]
    else slots
  }

  ghost function Clear(slots: seq<Slot>, waits: seq<Wait>, n: nat): (r: seq<Slot>)
    requires n <= |waits| && forall j :: 0 <= j < |waits| ==> waits[j].slot < |slots|
    ensures |r| == |slots|
  {
    if n == 0 then slots else ClearOne(Clear(slots, waits, n - 1), waits[n - 1])
  }

  ghost predicate WaitsFinished(waits: seq<Wait>, n: nat) {
    forall j :: 0 <= j < |waits| ==> waits[j].slot < n && (waits[j].progress.Succeeded? || waits[j].progress.GaveUp?)
  }

  ghost function Finish(s: Hp): Hp
    requires s.watcher.Collecting? && WaitsFinished(s.watcher.waits, |s.slots|)
  {
    PublishIdle(s.(slots := Clear(s.slots, s.watcher.waits, |s.watcher.waits|), watcher := Top))
  }

  // ----- the environment -----

  function Complete(s: Hp, k: nat): Hp
    requires k < |s.work|
  {
    s.(work := s.work[k := s.work[k].(done := true)])
  }

  function RequestStop(s: Hp): Hp {
    s.(stop := true, watcher := Signal(s.watcher))
  }

  // ----- runs -----

  ghost predicate Init(s: Hp) {
    && s.slots == seq(MAX_STREAMS, _ => FREE_SLOT)
    && s.inProgress == 0 && !s.stateActive && !s.published && !s.started && !s.stop
    && s.threads == map[] && s.watcher == NotStarted && s.work == []
    && s.cover == s.mark == seq(MAX_STREAMS, _ => 0)
  }

  ghost predicate Next(s: Hp, s': Hp)
    requires Shaped(s)
  {
    || (exists t, canStart :: t !in s.threads && s' == BeforeLaunch(s, t, canStart))
    || (exists t, stream, perThread, ok :: t in s.threads && s.threads[t].Entered?
          && s' == Submit(s, t, stream, perThread, ok))
    || (exists t, slot, recordOk :: AfterEnabled(s, t, slot, recordOk) && s' == AfterLaunch(s, t, slot, recordOk))
    || (AtLoopHead(s) && (s.mode != Query || s.stop || !AnyActive(s.slots)) && s' == CheckForWork(s))
    || (exists cleared :: s.mode == Query && AtLoopHead(s) && !s.stop && Answered(s, cleared)
          && s' == QueryScan(s, cleared))
    || (s.watcher.Settling? && (s' == s.(watcher := Settled(s.recordGeneration))
                                  || (s.stop && s' == s.(watcher := Stopped))))
    || (s.watcher.Settled? && s' == TakeSnapshot(s))
    || (exists j :: WaitStep(s, j, s'))
    || (s.watcher.Collecting? && WaitsFinished(s.watcher.waits, |s.slots|) && s' == Finish(s))
    || (exists k: nat :: k < |s.work| && s' == Complete(s, k))
    || s' == RequestStop(s)
  }

  // ----- every step keeps the invariant -----

  lemma InitHolds(s: Hp)
    requires Init(s)
    ensures Inv(s)
  {
    assert forall i :: 0 <= i < MAX_STREAMS ==> SlotOk(s, i);
  }

  // How a step keeps one submission accounted for.
  lemma Carry(s: Hp, s': Hp, k: nat)
    requires |s.slots| == |s.cover| && |s'.slots| == |s'.cover| && k < |s.work| && k < |s'.work|
    requires Accounted(s, k)
    requires s.work[k].done ==> s'.work[k].done
    requires forall t :: HoldsItem(s, t, k) ==> Accounted(s', k)
    requires forall i :: 0 <= i < |s.slots| && Covers(s, i, k) ==> Accounted(s', k)
    ensures Accounted(s', k)
  {
  }

  // Slots, covers, marks and work unchanged.
  ghost predicate SameSlots(s: Hp, s': Hp) {
    s'.slots == s.slots && s'.cover == s.cover && s'.mark == s.mark && s'.work == s.work && s'.mode == s.mode
  }

  // A step that changes no slot and lets no thread go.
  lemma SameSlotsKeep(s: Hp, s': Hp)
    requires Shaped(s) && SlotsOk(s) && WorkCovered(s) && SameSlots(s, s')
    requires forall t :: t in s.threads && s.threads[t].Launched? ==> t in s'.threads && s'.threads[t] == s.threads[t]
    ensures Shaped(s') && SlotsOk(s') && WorkCovered(s')
  {
    forall i | 0 <= i < MAX_STREAMS
      ensures SlotOk(s', i)
    {
      assert SlotOk(s, i);
    }
    forall k | 0 <= k < |s'.work|
      ensures Accounted(s', k)
    {
      assert Accounted(s, k);
      forall t | HoldsItem(s, t, k)
        ensures Accounted(s', k)
      {
        assert HoldsItem(s', t, k);
      }
      forall i | 0 <= i < |s.slots| && Covers(s, i, k)
        ensures Accounted(s', k)
      {
        assert Covers(s', i, k);
      }
      Carry(s, s', k);
    }
  }

  // Snapshot entries survive a step that only completes, adds or re-marks.
  lemma WaitsSurvive(s: Hp, s': Hp)
    requires Shaped(s) && Shaped(s') && WaitsOk(s) && SlotsOk(s)
    requires s'.watcher == s.watcher && s'.slots == s.slots && s'.cover == s.cover && |s.work| <= |s'.work|
    requires s'.mode == s.mode
    requires forall i :: 0 <= i < MAX_STREAMS ==> s.mark[i] <= s'.mark[i]
    requires forall k :: 0 <= k < |s.work| ==>
      s'.work[k].stream == s.work[k].stream && (s.work[k].done ==> s'.work[k].done)
    ensures WaitsOk(s')
  {
    if s.watcher.Collecting? {
      forall j | 0 <= j < |s.watcher.waits|
        ensures WaitOk(s', s.watcher.waits[j], s.watcher.floor)
      {
        var w := s.watcher.waits[j];
        assert WaitOk(s, w, s.watcher.floor) && SlotOk(s, w.slot);
      }
    }
  }

  lemma BeforeKeeps(s: Hp, t: Thread, canStart: bool)
    requires Inv(s) && t !in s.threads
    ensures Inv(BeforeLaunch(s, t, canStart))
  {
    var s' := BeforeLaunch(s, t, canStart);
    assert s'.threads.Keys == s.threads.Keys + {t};
    SameSlotsKeep(s, s');
    if s.watcher == s'.watcher { WaitsSurvive(s, s'); }
  }

  lemma SubmitKeeps(s: Hp, t: Thread, stream: Stream, perThread: bool, ok: bool)
    requires Inv(s) && t in s.threads && s.threads[t].Entered?
    ensures Inv(Submit(s, t, stream, perThread, ok))
  {
    var s' := Submit(s, t, stream, perThread, ok);
    assert s'.threads.Keys == s.threads.Keys;
    forall i | 0 <= i < MAX_STREAMS
      ensures SlotOk(s', i)
    {
      assert SlotOk(s, i);
    }
    forall k | 0 <= k < |s'.work|
      ensures Accounted(s', k)
    {
      if k == |s.work| {
        assert HoldsItem(s', t, k);
      } else {
        assert Accounted(s, k);
        forall u | HoldsItem(s, u, k)
          ensures Accounted(s', k)
        {
          assert HoldsItem(s', u, k);
        }
        forall i | 0 <= i < |s.slots| && Covers(s, i, k)
          ensures Accounted(s', k)
        {
          assert Covers(s', i, k);
        }
        Carry(s, s', k);
      }
    }
    WaitsSurvive(s, s');
  }

  lemma CompleteKeeps(s: Hp, k: nat)
    requires Inv(s) && k < |s.work|
    ensures Inv(Complete(s, k))
  {
    var s' := Complete(s, k);
    forall i | 0 <= i < MAX_STREAMS
      ensures SlotOk(s', i)
    {
      assert SlotOk(s, i);
    }
    forall m | 0 <= m < |s'.work|
      ensures Accounted(s', m)
    {
      assert Accounted(s, m);
      forall u | HoldsItem(s, u, m)
        ensures Accounted(s', m)
      {
        assert HoldsItem(s', u, m);
      }
      forall i | 0 <= i < |s.slots| && Covers(s, i, m)
        ensures Accounted(s', m)
      {
        assert Covers(s', i, m);
      }
      Carry(s, s', m);
    }
    WaitsSurvive(s, s');
  }

  lemma CheckKeeps(s: Hp)
    requires Inv(s) && AtLoopHead(s)
    ensures Inv(CheckForWork(s))
  {
    SameSlotsKeep(s, CheckForWork(s));
  }

  lemma StopKeeps(s: Hp)
    requires Inv(s)
    ensures Inv(RequestStop(s))
  {
    SameSlotsKeep(s, RequestStop(s));
    if !s.watcher.Blocked? { WaitsSurvive(s, RequestStop(s)); }
  }

  // ----- leaving the launch wrapper -----

  // Accounted for even when thread t is gone.
  ghost predicate AccountedWithout(s: Hp, t: Thread, k: nat)
    requires |s.slots| == |s.cover| && k < |s.work|
  {
    || s.work[k].done
    || (exists u :: u != t && HoldsItem(s, u, k))
    || (exists i :: 0 <= i < |s.slots| && Covers(s, i, k))
  }

  lemma AccountWork(s: Hp, t: Thread, slot: int, recordOk: bool, k: nat)
    requires Inv(s) && AfterEnabled(s, t, slot, recordOk) && s.threads[t].Launched?
    requires k < |s.work|
    ensures AccountedWithout(Account(s, s.threads[t].stream, s.threads[t].perThread, slot, recordOk), t, k)
  {
    var p := s.threads[t];
    var m := Account(s, p.stream, p.perThread, slot, recordOk);
    assert Accounted(s, k);
    if HoldsItem(s, t, k) {
      if Arms(s, p.stream, p.perThread, slot, recordOk) { assert Covers(m, slot, k); }
    } else if u :| HoldsItem(s, u, k) {
      assert u != t && HoldsItem(m, u, k);
    } else if !s.work[k].done {
      var i :| 0 <= i < |s.slots| && Covers(s, i, k);
      assert SlotOk(s, i);
      assert Covers(m, i, k);
    }
  }

  lemma AccountSlots(s: Hp, t: Thread, slot: int, recordOk: bool)
    requires Inv(s) && AfterEnabled(s, t, slot, recordOk) && s.threads[t].Launched?
    ensures SlotsOk(Account(s, s.threads[t].stream, s.threads[t].perThread, slot, recordOk))
  {
    var p := s.threads[t];
    var m := Account(s, p.stream, p.perThread, slot, recordOk);
    forall i | 0 <= i < MAX_STREAMS
      ensures SlotOk(m, i)
    {
      assert SlotOk(s, i);
    }
  }

  lemma AccountWaits(s: Hp, t: Thread, slot: int, recordOk: bool)
    requires Inv(s) && AfterEnabled(s, t, slot, recordOk) && s.threads[t].Launched?
    ensures WaitsOk(Account(s, s.threads[t].stream, s.threads[t].perThread, slot, recordOk))
  {
    var p := s.threads[t];
    var m := Account(s, p.stream, p.perThread, slot, recordOk);
    if s.watcher.Collecting? {
      forall j | 0 <= j < |s.watcher.waits|
        ensures WaitOk(m, s.watcher.waits[j], s.watcher.floor)
      {
        var w := s.watcher.waits[j];
        assert WaitOk(s, w, s.watcher.floor) && SlotOk(s, w.slot);
      }
    }
  }

  lemma AccountActive(s: Hp, t: Thread, slot: int, recordOk: bool)
    requires Inv(s) && AfterEnabled(s, t, slot, recordOk) && s.threads[t].Launched?
    ensures var p := s.threads[t];
            AnyActive(Account(s, p.stream, p.perThread, slot, recordOk).slots)
            <==> AnyActive(s.slots) || Arms(s, p.stream, p.perThread, slot, recordOk)
  {
    var p := s.threads[t];
    var m := Account(s, p.stream, p.perThread, slot, recordOk);
    if Arms(s, p.stream, p.perThread, slot, recordOk) { assert m.slots[slot].active; }
    if i :| 0 <= i < |s.slots| && s.slots[i].active { assert m.slots[i].active; }
    if i :| 0 <= i < |m.slots| && m.slots[i].active {
      assert s.slots[i].active || Arms(s, p.stream, p.perThread, slot, recordOk);
    }
  }

  // Counting the thread out and publishing IDLE if nothing is left.
  lemma LeaveKeeps(m: Hp, t: Thread)
    requires Shaped(m) && SlotsOk(m) && WaitsOk(m) && ThreadsOk(m) && t in m.threads
    requires m.inProgress == |m.threads| && m.stateActive && m.published
    requires forall k :: 0 <= k < |m.work| ==> AccountedWithout(m, t, k)
    ensures var s' := Leave(m, t);
            Shaped(s') && StateExact(s') && SlotsOk(s') && ThreadsOk(s') && WorkCovered(s') && WaitsOk(s')
  {
    var s' := Leave(m, t);
    assert s'.threads.Keys == m.threads.Keys - {t};
    assert |m.threads.Keys| == |m.threads| && |s'.threads.Keys| == |s'.threads|;
    forall i | 0 <= i < MAX_STREAMS
      ensures SlotOk(s', i)
    {
      assert SlotOk(m, i);
    }
    forall k | 0 <= k < |s'.work|
      ensures Accounted(s', k)
    {
      assert AccountedWithout(m, t, k);
      if u :| u != t && HoldsItem(m, u, k) {
        assert HoldsItem(s', u, k);
      } else if i :| 0 <= i < |m.slots| && Covers(m, i, k) {
        assert Covers(s', i, k);
      }
    }
    WaitsSurvive(m, s');
  }

  lemma AfterKeeps(s: Hp, t: Thread, slot: int, recordOk: bool)
    requires Inv(s) && AfterEnabled(s, t, slot, recordOk)
    ensures Inv(AfterLaunch(s, t, slot, recordOk))
  {
    var p := s.threads[t];
    assert |s.threads.Keys| == |s.threads|;
    if p.Launched? {
      var m := Account(s, p.stream, p.perThread, slot, recordOk);
      AccountSlots(s, t, slot, recordOk);
      AccountWaits(s, t, slot, recordOk);
      AccountActive(s, t, slot, recordOk);
      forall k | 0 <= k < |m.work|
        ensures AccountedWithout(m, t, k)
      {
        AccountWork(s, t, slot, recordOk, k);
      }
      AfterLaunchKeeps(s, t, slot, recordOk, m);
    } else {
      forall k | 0 <= k < |s.work|
        ensures AccountedWithout(s, t, k)
      {
        assert Accounted(s, k);
        if u :| HoldsItem(s, u, k) { assert u != t; }
      }
      LeaveKeeps(s, t);
    }
  }

  lemma AfterLaunchKeeps(s: Hp, t: Thread, slot: int, recordOk: bool, m: Hp)
    requires Inv(s) && AfterEnabled(s, t, slot, recordOk) && s.threads[t].Launched?
    requires m == Account(s, s.threads[t].stream, s.threads[t].perThread, slot, recordOk)
    requires SlotsOk(m) && WaitsOk(m) && s.stateActive
    requires AnyActive(m.slots) <==>
      AnyActive(s.slots) || Arms(s, s.threads[t].stream, s.threads[t].perThread, slot, recordOk)
    requires forall k :: 0 <= k < |m.work| ==> AccountedWithout(m, t, k)
    ensures Inv(AfterLaunch(s, t, slot, recordOk))
  {
    LeaveKeeps(m, t);
    var l := Leave(m, t);
    var s' := AfterLaunch(s, t, slot, recordOk);
    SameSlotsKeep(l, s');
    if s'.watcher == l.watcher { WaitsSurvive(l, s'); }
  }

  // ----- the watcher -----

  lemma ScanKeeps(s: Hp, cleared: set<nat>)
    requires Inv(s) && s.mode == Query && AtLoopHead(s) && Answered(s, cleared)
    ensures Inv(QueryScan(s, cleared))
  {
    var s' := QueryScan(s, cleared);
    forall i | 0 <= i < MAX_STREAMS
      ensures SlotOk(s', i)
    {
      assert SlotOk(s, i);
    }
    forall k | 0 <= k < |s'.work|
      ensures Accounted(s', k)
    {
      assert Accounted(s, k);
      forall t | HoldsItem(s, t, k)
        ensures Accounted(s', k)
      {
        assert HoldsItem(s', t, k);
      }
      forall i | 0 <= i < |s.slots| && Covers(s, i, k)
        ensures Accounted(s', k)
      {
        assert SlotOk(s, i);
        if i !in cleared { assert Covers(s', i, k); }
      }
      Carry(s, s', k);
    }
    if i :| 0 <= i < |s'.slots| && s'.slots[i].active { assert s.slots[i].active; }
  }

  lemma {:induction false} SnapshotOk(s: Hp, n: nat, j: nat)
    requires Inv(s) && n <= MAX_STREAMS && j < |Snapshot(s.slots, n)|
    ensures WaitOk(s, Snapshot(s.slots, n)[j], |s.work|)
    ensures Snapshot(s.slots, n)[j].progress.Untouched?
  {
    assert SlotOk(s, n - 1);
    if j < |Snapshot(s.slots, n - 1)| { SnapshotOk(s, n - 1, j); }
  }

  // Every active slot is in the snapshot, as it is now, and only those are.
  lemma {:induction false} SnapshotCovers(slots: seq<Slot>, n: nat, i: nat)
    requires i < n <= |slots| && slots[i].active
    ensures exists j :: 0 <= j < |Snapshot(slots, n)| && Snapshot(slots, n)[j] == WaitFor(slots[i], i)
  {
    if i == n - 1 {
      assert Snapshot(slots, n)[|Snapshot(slots, n - 1)|] == WaitFor(slots[i], i);
    } else {
      SnapshotCovers(slots, n - 1, i);
      var j :| 0 <= j < |Snapshot(slots, n - 1)| && Snapshot(slots, n - 1)[j] == WaitFor(slots[i], i);
      assert Snapshot(slots, n)[j] == WaitFor(slots[i], i);
    }
  }

  lemma {:induction false} SnapshotIsActive(slots: seq<Slot>, n: nat, j: nat)
    requires n <= |slots| && j < |Snapshot(slots, n)|
    ensures var w := Snapshot(slots, n)[j]; w.slot < n && slots[w.slot].active && w == WaitFor(slots[w.slot], w.slot)
  {
    if j < |Snapshot(slots, n - 1)| { SnapshotIsActive(slots, n - 1, j); }
  }

  function WaitFor(slot: Slot, i: nat): Wait {
    Wait(i, slot.stream, slot.perThread, slot.recordPending, slot.generation, Untouched)
  }

  lemma SnapshotKeeps(s: Hp)
    requires Inv(s) && s.watcher.Settled?
    ensures Inv(TakeSnapshot(s))
  {
    var s' := TakeSnapshot(s);
    SameSlotsKeep(s, s');
    if s'.watcher.Collecting? {
      forall j | 0 <= j < |s'.watcher.waits|
        ensures WaitOk(s', s'.watcher.waits[j], s'.watcher.floor)
      {
        SnapshotOk(s, MAX_STREAMS, j);
      }
    }
  }

  // Moving one snapshot entry on, and perhaps re-recording an event later in its stream.
  lemma ProgressKeeps(s: Hp, j: nat, p: Progress, mark: seq<nat>)
    requires Inv(s) && s.watcher.Collecting? && j < |s.watcher.waits|
    requires |mark| == MAX_STREAMS && forall i :: 0 <= i < MAX_STREAMS ==> s.mark[i] <= mark[i] <= |s.work|
    requires WaitOk(s.(mark := mark), s.watcher.waits[j].(progress := p), s.watcher.floor)
    ensures Inv(SetProgress(s, j, p).(mark := mark))
  {
    var m := s.(mark := mark);
    var s' := SetProgress(s, j, p).(mark := mark);
    WaitsSurvive(s, m);
    forall i | 0 <= i < MAX_STREAMS
      ensures SlotOk(s', i)
    {
      assert SlotOk(s, i);
    }
    forall i | 0 <= i < |s'.watcher.waits|
      ensures WaitOk(s', s'.watcher.waits[i], s'.watcher.floor)
    {
      if i != j { assert WaitOk(m, s.watcher.waits[i], s.watcher.floor); }
    }
    forall k | 0 <= k < |s'.work|
      ensures Accounted(s', k)
    {
      assert Accounted(s, k);
      forall t | HoldsItem(s, t, k)
        ensures Accounted(s', k)
      {
        assert HoldsItem(s', t, k);
      }
      forall i | 0 <= i < |s.slots| && Covers(s, i, k)
        ensures Accounted(s', k)
      {
        assert Covers(s', i, k);
      }
      Carry(s, s', k);
    }
  }

  // The entry itself stays in order when its wait moves on.
  lemma EventMoves(s: Hp, j: nat, s': Hp)
    requires Inv(s) && WaitStep(s, j, s')
    requires !s.watcher.waits[j].progress.FallingBack? && !s.watcher.waits[j].progress.StreamSyncing?
    ensures s'.watcher.Collecting? && j < |s'.watcher.waits| && |s'.mark| == MAX_STREAMS
    ensures WaitOk(s.(mark := s'.mark), s.watcher.waits[j].(progress := s'.watcher.waits[j].progress), s.watcher.floor)
  {
    var w := s.watcher.waits[j];
    assert WaitOk(s, w, s.watcher.floor) && SlotOk(s, w.slot);
  }

  lemma StreamMoves(s: Hp, j: nat, s': Hp)
    requires Inv(s) && WaitStep(s, j, s')
    requires s.watcher.waits[j].progress.FallingBack? || s.watcher.waits[j].progress.StreamSyncing?
    ensures s'.watcher.Collecting? && j < |s'.watcher.waits| && |s'.mark| == MAX_STREAMS
    ensures WaitOk(s.(mark := s'.mark), s.watcher.waits[j].(progress := s'.watcher.waits[j].progress), s.watcher.floor)
  {
    var w := s.watcher.waits[j];
    assert WaitOk(s, w, s.watcher.floor) && SlotOk(s, w.slot);
  }

  lemma StepChangesOneEntry(s: Hp, j: nat, s': Hp)
    requires Inv(s) && WaitStep(s, j, s')
    ensures s'.watcher.Collecting? && j < |s'.watcher.waits| && |s'.mark| == MAX_STREAMS
    ensures s' == SetProgress(s, j, s'.watcher.waits[j].progress).(mark := s'.mark)
    ensures forall i :: 0 <= i < MAX_STREAMS ==> s.mark[i] <= s'.mark[i] <= |s.work|
  {
    MarksInWork(s);
  }

  lemma MarksInWork(s: Hp)
    requires Inv(s)
    ensures forall i :: 0 <= i < MAX_STREAMS ==> s.mark[i] <= |s.work|
  {
    forall i | 0 <= i < MAX_STREAMS
      ensures s.mark[i] <= |s.work|
    {
      assert SlotOk(s, i);
    }
  }

  // The watcher never records an event on a default stream of another thread.
  lemma WatcherRecordsItsOwn(s: Hp, j: nat, s': Hp)
    requires Inv(s) && WaitStep(s, j, s') && s'.watcher.waits[j].progress.JustRecorded?
    ensures s.mode == Deferred && !(s.watcher.waits[j].perThread && s.watcher.waits[j].stream in {0, 2})
  {
    assert WaitOk(s, s.watcher.waits[j], s.watcher.floor);
  }

  lemma WaitStepKeeps(s: Hp, j: nat, s': Hp)
    requires Inv(s) && WaitStep(s, j, s')
    ensures Inv(s')
  {
    var p := s.watcher.waits[j].progress;
    if p.FallingBack? || p.StreamSyncing? { StreamMoves(s, j, s'); } else { EventMoves(s, j, s'); }
    StepChangesOneEntry(s, j, s');
    ProgressKeeps(s, j, s'.watcher.waits[j].progress, s'.mark);
  }

  // ----- the end of a watcher round -----

  // Snapshot entries that are done, against slots some of which are cleared already.
  lemma {:induction false} ClearKeeps(s: Hp, n: nat, i: nat)
    requires Inv(s) && s.watcher.Collecting? && WaitsFinished(s.watcher.waits, MAX_STREAMS)
    requires n <= |s.watcher.waits| && i < MAX_STREAMS
    ensures var r := Clear(s.slots, s.watcher.waits, n)[i];
            && r.hasEvent == s.slots[i].hasEvent && r.stream == s.slots[i].stream
            && r.perThread == s.slots[i].perThread
            && r.generation == s.slots[i].generation && (r.active ==> s.slots[i].active)
            && (r.recordPending ==> s.slots[i].recordPending)
            && (r.active ==> r == s.slots[i])
            && (s.slots[i].active && !r.active ==> StreamDone(s.work, r.stream, s.cover[i]))
  {
    if n > 0 {
      ClearKeeps(s, n - 1, i);
      var w := s.watcher.waits[n - 1];
      assert WaitOk(s, w, s.watcher.floor);
    }
  }

  lemma FinishKeeps(s: Hp)
    requires Inv(s) && s.watcher.Collecting? && WaitsFinished(s.watcher.waits, MAX_STREAMS)
    ensures Inv(Finish(s))
  {
    var s' := Finish(s);
    var n := |s.watcher.waits|;
    forall i | 0 <= i < MAX_STREAMS
      ensures SlotOk(s', i) && s'.slots[i].hasEvent == s.slots[i].hasEvent && s'.slots[i].stream == s.slots[i].stream
      ensures s'.slots[i].active ==> s.slots[i].active
    {
      assert SlotOk(s, i);
      ClearKeeps(s, n, i);
    }
    forall k | 0 <= k < |s'.work|
      ensures Accounted(s', k)
    {
      FinishAccounts(s, k);
    }
    if i :| 0 <= i < |s'.slots| && s'.slots[i].active { assert s.slots[i].active; }
  }

  lemma FinishAccounts(s: Hp, k: nat)
    requires Inv(s) && s.watcher.Collecting? && WaitsFinished(s.watcher.waits, MAX_STREAMS) && k < |s.work|
    ensures Accounted(Finish(s), k)
  {
    var s' := Finish(s);
    assert Accounted(s, k);
    forall t | HoldsItem(s, t, k)
      ensures Accounted(s', k)
    {
      assert HoldsItem(s', t, k);
    }
    forall i | 0 <= i < |s.slots| && Covers(s, i, k)
      ensures Accounted(s', k)
    {
      ClearKeeps(s, |s.watcher.waits|, i);
      if s'.slots[i].active { assert Covers(s', i, k); }
    }
    Carry(s, s', k);
  }

  // The wait on slot i that frees it: it succeeded, and the slot has not been
  // re-armed since.
  ghost predicate Freed(waits: seq<Wait>, n: nat, slots: seq<Slot>, i: nat)
    requires n <= |waits| && i < |slots|
  {
    exists j :: 0 <= j < n && waits[j].slot == i && waits[j].progress.Succeeded?
                && waits[j].generation == slots[i].generation
  }

  // Clearing frees exactly those slots.
  lemma {:induction false} ClearFrees(slots: seq<Slot>, waits: seq<Wait>, n: nat, i: nat)
    requires n <= |waits| && (forall j :: 0 <= j < |waits| ==> waits[j].slot < |slots|) && i < |slots|
    ensures Clear(slots, waits, n)[i].generation == slots[i].generation
    ensures Clear(slots, waits, n)[i].active <==> slots[i].active && !Freed(waits, n, slots, i)
  {
    if n > 0 {
      ClearFrees(slots, waits, n - 1, i);
      if Freed(waits, n, slots, i) && !Freed(waits, n - 1, slots, i) {
        assert waits[n - 1].slot == i;
      }
    }
  }

  // At the end of a round exactly the freed slots are inactive, and when that
  // leaves nothing to wait for, IDLE is published.
  lemma FinishFrees(s: Hp)
    requires Inv(s) && s.watcher.Collecting? && WaitsFinished(s.watcher.waits, MAX_STREAMS)
    ensures forall i :: 0 <= i < MAX_STREAMS ==>
      (Finish(s).slots[i].active <==> s.slots[i].active && !Freed(s.watcher.waits, |s.watcher.waits|, s.slots, i))
    ensures s.inProgress == 0
      && (forall i :: 0 <= i < MAX_STREAMS && s.slots[i].active ==>
            Freed(s.watcher.waits, |s.watcher.waits|, s.slots, i))
      ==> !Finish(s).published
  {
    var n := |s.watcher.waits|;
    forall i | 0 <= i < MAX_STREAMS
      ensures Clear(s.slots, s.watcher.waits, n)[i].active <==>
        s.slots[i].active && !Freed(s.watcher.waits, n, s.slots, i)
    {
      ClearFrees(s.slots, s.watcher.waits, n, i);
    }
  }

  // Clearing passes over a slot whose waits are all of another generation.
  lemma {:induction false} ClearPassesOver(slots: seq<Slot>, waits: seq<Wait>, n: nat, i: nat)
    requires n <= |waits| && (forall j :: 0 <= j < |waits| ==> waits[j].slot < |slots|) && i < |slots|
    requires forall j :: 0 <= j < n && waits[j].slot == i ==>
      waits[j].generation != slots[i].generation || !waits[j].progress.Succeeded?
    ensures Clear(slots, waits, n)[i] == slots[i]
  {
    if n > 0 { ClearPassesOver(slots, waits, n - 1, i); }
  }

  // ----- a slot re-armed while the watcher waits -----

  // The slot is active, and every wait of the round that concerns it is older.
  ghost predicate Rearmed(s: Hp, i: nat) {
    && Shaped(s) && i < MAX_STREAMS && s.slots[i].active && s.watcher.Collecting?
    && forall j :: 0 <= j < |s.watcher.waits| && s.watcher.waits[j].slot == i ==>
         s.watcher.waits[j].generation < s.slots[i].generation
  }

  // A launch that is accounted for while the watcher waits re-arms its slot.
  lemma ArmingRearms(s: Hp, t: Thread, slot: int, recordOk: bool)
    requires Inv(s) && s.watcher.Collecting? && AfterEnabled(s, t, slot, recordOk) && s.threads[t].Launched?
    requires Arms(s, s.threads[t].stream, s.threads[t].perThread, slot, recordOk)
    ensures Rearmed(AfterLaunch(s, t, slot, recordOk), slot)
  {
    forall j | 0 <= j < |s.watcher.waits| && s.watcher.waits[j].slot == slot
      ensures s.watcher.waits[j].generation <= s.slots[slot].generation
    {
      assert WaitOk(s, s.watcher.waits[j], s.watcher.floor);
    }
  }

  // It stays so as long as the watcher waits.
  lemma StepKeepsRearmed(s: Hp, s': Hp, i: nat)
    requires Inv(s) && Next(s, s') && Shaped(s')
    ensures Rearmed(s, i) && s'.watcher.Collecting? ==> Rearmed(s', i)
  {
    if Rearmed(s, i) && s'.watcher.Collecting? {
      if t, slot, recordOk :| AfterEnabled(s, t, slot, recordOk) && s' == AfterLaunch(s, t, slot, recordOk) {
        AfterKeepsRearmed(s, t, slot, recordOk, i);
      } else if j :| WaitStep(s, j, s') {
        StepChangesOneEntry(s, j, s');
      } else {
        OtherStepsLeaveWaits(s, s');
      }
    }
  }

  lemma OtherStepsLeaveWaits(s: Hp, s': Hp)
    requires Inv(s) && Next(s, s') && s.watcher.Collecting? && Shaped(s') && s'.watcher.Collecting?
    requires !exists t, slot, recordOk :: AfterEnabled(s, t, slot, recordOk) && s' == AfterLaunch(s, t, slot, recordOk)
    requires !exists j :: WaitStep(s, j, s')
    ensures s'.slots == s.slots && s'.watcher == s.watcher
  {
  }

  lemma AfterKeepsRearmed(s: Hp, t: Thread, slot: int, recordOk: bool, i: nat)
    requires Inv(s) && AfterEnabled(s, t, slot, recordOk) && Rearmed(s, i)
    ensures Rearmed(AfterLaunch(s, t, slot, recordOk), i)
  {
  }

  // And the end of the round leaves the slot, and the published state, alone.
  lemma FinishSparesRearmed(s: Hp, i: nat)
    requires Inv(s) && Rearmed(s, i) && WaitsFinished(s.watcher.waits, MAX_STREAMS)
    ensures Finish(s).slots[i] == s.slots[i] && Finish(s).published
  {
    ClearPassesOver(s.slots, s.watcher.waits, |s.watcher.waits|, i);
    assert Clear(s.slots, s.watcher.waits, |s.watcher.waits|)[i].active;
  }

  // ----- whole runs -----

  lemma NextKeeps(s: Hp, s': Hp)
    requires Inv(s) && Next(s, s')
    ensures Inv(s')
  {
    if t, canStart :| t !in s.threads && s' == BeforeLaunch(s, t, canStart) {
      BeforeKeeps(s, t, canStart);
    } else if t, stream, perThread, ok :|
        t in s.threads && s.threads[t].Entered? && s' == Submit(s, t, stream, perThread, ok) {
      SubmitKeeps(s, t, stream, perThread, ok);
    } else if t, slot, recordOk :| AfterEnabled(s, t, slot, recordOk) && s' == AfterLaunch(s, t, slot, recordOk) {
      AfterKeeps(s, t, slot, recordOk);
    } else if cleared :|
        s.mode == Query && AtLoopHead(s) && !s.stop && Answered(s, cleared) && s' == QueryScan(s, cleared) {
      ScanKeeps(s, cleared);
    } else if j :| WaitStep(s, j, s') {
      WaitStepKeeps(s, j, s');
    } else if k: nat :| k < |s.work| && s' == Complete(s, k) {
      CompleteKeeps(s, k);
    } else {
      OtherStepsKeep(s, s');
    }
  }

  lemma OtherStepsKeep(s: Hp, s': Hp)
    requires Inv(s)
    requires
      || (AtLoopHead(s) && s' == CheckForWork(s))
      || (s.watcher.Settling? && s' == s.(watcher := Settled(s.recordGeneration)))
      || (s.watcher.Settling? && s.stop && s' == s.(watcher := Stopped))
      || (s.watcher.Settled? && s' == TakeSnapshot(s))
      || (s.watcher.Collecting? && WaitsFinished(s.watcher.waits, |s.slots|) && s' == Finish(s))
      || s' == RequestStop(s)
    ensures Inv(s')
  {
    if s' == RequestStop(s) {
      StopKeeps(s);
    } else if AtLoopHead(s) {
      CheckKeeps(s);
    } else if s.watcher.Settling? {
      SameSlotsKeep(s, s');
    } else if s.watcher.Settled? {
      SnapshotKeeps(s);
    } else {
      FinishKeeps(s);
    }
  }

  ghost predicate IsRun(run: seq<Hp>) {
    && |run| > 0 && Init(run[0])
    && (forall i :: 0 <= i < |run| ==> Shaped(run[i]))
    && (forall i {:trigger StepsAt(run, i)} :: 0 <= i < |run| - 1 ==> StepsAt(run, i))
  }

  ghost predicate StepsAt(run: seq<Hp>, i: nat)
    requires i + 1 < |run|
  {
    Shaped(run[i]) && Next(run[i], run[i + 1])
  }

  lemma {:induction false} RunsKeepInv(run: seq<Hp>, i: nat)
    requires IsRun(run) && i < |run|
    ensures Inv(run[i])
  {
    if i == 0 {
      InitHolds(run[0]);
    } else {
      RunsKeepInv(run, i - 1);
      assert StepsAt(run, i - 1);
      NextKeeps(run[i - 1], run[i]);
    }
  }

  // The watcher is at its waits in every state from lo to hi.
  ghost predicate WaitsThrough(run: seq<Hp>, lo: nat, hi: nat)
    requires hi < |run|
  {
    forall k :: lo <= k <= hi ==> run[k].watcher.Collecting?
  }

  lemma {:induction false} RunKeepsRearmed(run: seq<Hp>, lo: nat, hi: nat, i: nat)
    requires IsRun(run) && lo <= hi < |run| && WaitsThrough(run, lo, hi) && Rearmed(run[lo], i)
    ensures Rearmed(run[hi], i)
    decreases hi
  {
    if lo < hi {
      RunKeepsRearmed(run, lo, hi - 1, i);
      RunStepKeepsRearmed(run, hi - 1, i);
    }
  }

  lemma RunStepKeepsRearmed(run: seq<Hp>, k: nat, i: nat)
    requires IsRun(run) && k + 1 < |run| && Rearmed(run[k], i) && run[k + 1].watcher.Collecting?
    ensures Rearmed(run[k + 1], i)
  {
    RunsKeepInv(run, k);
    assert StepsAt(run, k);
    StepKeepsRearmed(run[k], run[k + 1], i);
  }

  // In every run: when a launch is accounted for during the waits of a round, the
  // end of that round does not clear its slot, whatever happens in between, and
  // ACTIVE stays published.
  lemma RearmedSurvives(run: seq<Hp>, a: nat, z: nat, t: Thread, slot: int, recordOk: bool)
    requires IsRun(run) && a + 1 <= z && z + 1 < |run| && WaitsThrough(run, a, z)
    requires AfterEnabled(run[a], t, slot, recordOk) && run[a].threads[t].Launched?
    requires Arms(run[a], run[a].threads[t].stream, run[a].threads[t].perThread, slot, recordOk)
    requires run[a + 1] == AfterLaunch(run[a], t, slot, recordOk)
    requires WaitsFinished(run[z].watcher.waits, MAX_STREAMS) && run[z + 1] == Finish(run[z])
    ensures run[z + 1].slots[slot] == run[z].slots[slot] && run[z + 1].slots[slot].active && run[z + 1].published
  {
    RunsKeepInv(run, a);
    RunsKeepInv(run, z);
    ArmingRearms(run[a], t, slot, recordOk);
    RunKeepsRearmed(run, a + 1, z, slot);
    FinishSparesRearmed(run[z], slot);
  }

  // Over every interleaving: IDLE is published only when all submitted work is
  // complete, the flag is exact, and no wakeup is lost.
  lemma IdleIsSafe(run: seq<Hp>, i: nat)
    requires IsRun(run) && i < |run|
    ensures !run[i].published ==> AllDone(run[i].work)
    ensures run[i].published <==> run[i].inProgress > 0 || AnyActive(run[i].slots)
    ensures run[i].watcher == Blocked(false) ==> !AnyActive(run[i].slots) && !run[i].stop
  {
    RunsKeepInv(run, i);
    if !run[i].published { IdleMeansDone(run[i]); }
  }
}
