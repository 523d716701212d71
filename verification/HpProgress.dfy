// That IDLE can always come back: once launches have stopped and the device has
// finished, the watcher's own steps lead to a state in which IDLE is published.
module HpProgress {
  import opened HpProtocol

  ghost predicate IsPath(path: seq<Hp>) {
    |path| > 0 && forall i {:trigger StepsAt(path, i)} :: 0 <= i < |path| - 1 ==> StepsAt(path, i)
  }

  // From a to b in some steps of the protocol.
  ghost predicate Leads(a: Hp, b: Hp) {
    exists path :: IsPath(path) && path[0] == a && path[|path| - 1] == b
  }

  lemma LeadsNowhere(a: Hp)
    ensures Leads(a, a)
  {
    assert IsPath([a]);
  }

  lemma LeadsOn(a: Hp, b: Hp, c: Hp)
    requires Leads(a, b) && Shaped(b) && Next(b, c)
    ensures Leads(a, c)
  {
    var path :| IsPath(path) && path[0] == a && path[|path| - 1] == b;
    var longer := path + [c];
    forall i | 0 <= i < |longer| - 1
      ensures StepsAt(longer, i)
    {
      if i < |path| - 1 { assert StepsAt(path, i); }
    }
    assert IsPath(longer);
  }

  // Nothing is being launched, the device has finished, and nobody shuts down.
  ghost predicate Quiet(s: Hp) {
    Inv(s) && s.inProgress == 0 && AllDone(s.work) && !s.stop
  }

  // ----- one wait -----

  // The same round, with every wait but the j-th as it was.
  ghost predicate SameRound(s: Hp, s': Hp, j: nat) {
    && s.watcher.Collecting? && s'.watcher.Collecting? && |s'.watcher.waits| == |s.watcher.waits|
    && s'.slots == s.slots && s'.published == s.published && s'.mode == s.mode
    && (forall i :: 0 <= i < |s.watcher.waits| && i != j ==> s'.watcher.waits[i] == s.watcher.waits[i])
  }

  predicate Final(p: Progress) {
    p.Succeeded? || p.GaveUp?
  }

  // How far a wait is from its end, when every call works.
  function StepsLeft(p: Progress): nat {
    match p
    case Untouched => 3
    case JustRecorded => 2
    case Syncing(_) => 1
    case FallingBack => 2
    case StreamSyncing(_) => 1
    case Succeeded => 0
    case GaveUp => 0
  }

  // The next step of a wait, when every call works.
  lemma WaitAdvances(s: Hp, j: nat) returns (s': Hp)
    requires Quiet(s) && s.watcher.Collecting? && j < |s.watcher.waits| && !Final(s.watcher.waits[j].progress)
    ensures WaitStep(s, j, s') && Quiet(s') && SameRound(s, s', j)
    ensures s'.watcher.waits[j] == s.watcher.waits[j].(progress := s'.watcher.waits[j].progress)
    ensures StepsLeft(s'.watcher.waits[j].progress) < StepsLeft(s.watcher.waits[j].progress)
    ensures !s'.watcher.waits[j].progress.GaveUp?
  {
    var w := s.watcher.waits[j];
    assert WaitOk(s, w, s.watcher.floor);
    match w.progress {
      case Untouched =>
        if s.mode == Deferred && w.recordPending {
          s' := SetProgress(s, j, JustRecorded).(mark := s.mark[w.slot := |s.work|]);
        } else {
          s' := SetProgress(s, j, Syncing(s.mark[w.slot]));
        }
      case JustRecorded => s' := SetProgress(s, j, Syncing(s.mark[w.slot]));
      case Syncing(n) => s' := SetProgress(s, j, Succeeded);
      case FallingBack => s' := SetProgress(s, j, StreamSyncing(|s.work|));
      case StreamSyncing(n) => s' := SetProgress(s, j, Succeeded);
    }
    WaitStepKeeps(s, j, s');
  }

  lemma {:induction false} WaitEnds(s0: Hp, s: Hp, j: nat) returns (s': Hp)
    requires Quiet(s) && s.watcher.Collecting? && j < |s.watcher.waits| && Leads(s0, s)
    ensures Leads(s0, s') && Quiet(s') && SameRound(s, s', j)
    ensures s'.watcher.waits[j] == s.watcher.waits[j].(progress := s'.watcher.waits[j].progress)
    ensures Final(s'.watcher.waits[j].progress)
    ensures !s.watcher.waits[j].progress.GaveUp? ==> s'.watcher.waits[j].progress.Succeeded?
    decreases StepsLeft(s.watcher.waits[j].progress)
  {
    s' := s;
    if !Final(s.watcher.waits[j].progress) {
      var m := WaitAdvances(s, j);
      LeadsOn(s0, s, m);
      s' := WaitEnds(s0, m, j);
    }
  }

  // ----- one round -----

  // The first n waits have ended, none of them in vain that was not already.
  ghost predicate Ended(s: Hp, s': Hp, n: nat) {
    && s.watcher.Collecting? && s'.watcher.Collecting? 
    && n <= |s.watcher.waits| == |s'.watcher.waits|
    && s'.slots == s.slots && s'.published == s.published && s'.mode == s.mode
    && (forall i :: 0 <= i < |s.watcher.waits| ==> EndedAs(s.watcher.waits[i], s'.watcher.waits[i], i < n))
  }

  ghost predicate EndedAs(w: Wait, w': Wait, ended: bool) {
    && w' == w.(progress := w'.progress)
    && (if ended then Final(w'.progress) && (!w.progress.GaveUp? ==> w'.progress.Succeeded?) else w' == w)
  }

  lemma {:induction false} RoundEnds(s0: Hp, s: Hp, n: nat) returns (s': Hp)
    requires Quiet(s) && s.watcher.Collecting? && n <= |s.watcher.waits| && Leads(s0, s)
    ensures Leads(s0, s') && Quiet(s') && Ended(s, s', n)
  {
    if n == 0 {
      s' := s;
    } else {
      var m := RoundEnds(s0, s, n - 1);
      s' := WaitEnds(s0, m, n - 1);
      EndOneMore(s, m, s', n);
    }
  }

  lemma EndOneMore(s: Hp, m: Hp, s': Hp, n: nat)
    requires n > 0 && Ended(s, m, n - 1) && n <= |s.watcher.waits| && SameRound(m, s', n - 1)
    requires s'.watcher.waits[n - 1] == m.watcher.waits[n - 1].(progress := s'.watcher.waits[n - 1].progress)
    requires Final(s'.watcher.waits[n - 1].progress)
    requires !m.watcher.waits[n - 1].progress.GaveUp? ==> s'.watcher.waits[n - 1].progress.Succeeded?
    ensures Ended(s, s', n)
  {
    forall i | 0 <= i < |s.watcher.waits|
      ensures EndedAs(s.watcher.waits[i], s'.watcher.waits[i], i < n)
    {
      assert EndedAs(s.watcher.waits[i], m.watcher.waits[i], i < n - 1);
    }
  }

  // A round goes to its end; the watcher is back at the head of its loop.
  lemma RoundFinishes(s0: Hp, s: Hp) returns (s': Hp)
    requires Quiet(s) && s.watcher.Collecting? && Leads(s0, s)
    ensures Leads(s0, s') && Quiet(s') && s'.watcher == Top && s'.mode == s.mode
    ensures FreshRound(s) ==> !s'.published
  {
    var m := RoundEnds(s0, s, |s.watcher.waits|);
    forall j | 0 <= j < |m.watcher.waits|
      ensures m.watcher.waits[j].slot < MAX_STREAMS && Final(m.watcher.waits[j].progress)
    {
      assert EndedAs(s.watcher.waits[j], m.watcher.waits[j], true) && WaitOk(m, m.watcher.waits[j], m.watcher.floor);
    }
    assert WaitsFinished(m.watcher.waits, MAX_STREAMS);
    s' := Finish(m);
    FinishKeeps(m);
    LeadsOn(s0, m, s');
    if FreshRound(s) { FreshRoundFrees(s, m); }
  }

  // The waits of a round just begun: one for every active slot, as it is now.
  ghost predicate FreshRound(s: Hp) {
    s.watcher.Collecting? && s.watcher.waits == Snapshot(s.slots, |s.slots|)
  }

  lemma FreshRoundFrees(s: Hp, m: Hp)
    requires Quiet(s) && FreshRound(s) && Ended(s, m, |s.watcher.waits|) && Quiet(m)
    requires WaitsFinished(m.watcher.waits, MAX_STREAMS)
    ensures !Finish(m).published
  {
    forall i | 0 <= i < MAX_STREAMS && m.slots[i].active
      ensures Freed(m.watcher.waits, |m.watcher.waits|, m.slots, i)
    {
      SnapshotCovers(s.slots, |s.slots|, i);
      var j :| 0 <= j < |s.watcher.waits| && s.watcher.waits[j] == WaitFor(s.slots[i], i);
      assert EndedAs(s.watcher.waits[j], m.watcher.waits[j], true);
    }
    FinishFrees(m);
  }

  // ----- from anywhere -----

  // At the head of the loop, with something to wait for.
  lemma FromTheTop(s0: Hp, s: Hp) returns (s': Hp)
    requires Quiet(s) && AtLoopHead(s) && s.published && Leads(s0, s)
    ensures Leads(s0, s') && !s'.published && Quiet(s')
  {
    if s.mode == Query {
      var all := set i: nat | i < MAX_STREAMS && s.slots[i].active;
      ScanKeeps(s, all);
      s' := QueryScan(s, all);
      LeadsOn(s0, s, s');
    } else {
      var settling := CheckForWork(s);
      CheckKeeps(s);
      LeadsOn(s0, s, settling);
      s' := FromSettling(s0, settling);
    }
  }

  lemma FromSettling(s0: Hp, s: Hp) returns (s': Hp)
    requires Quiet(s) && s.watcher.Settling? && Leads(s0, s)
    ensures Leads(s0, s') && !s'.published && Quiet(s')
  {
    var settled := s.(watcher := Settled(s.recordGeneration));
    SameSlotsKeep(s, settled);
    LeadsOn(s0, s, settled);
    var round := TakeSnapshot(settled);
    SnapshotKeeps(settled);
    LeadsOn(s0, settled, round);
    s' := RoundFinishes(s0, round);
  }

  // Wherever the watcher is, it can finish what it does and bring IDLE back.
  lemma IdleIsReachable(s: Hp) returns (s': Hp)
    requires Quiet(s)
    ensures Leads(s, s') && !s'.published && AllDone(s'.work)
  {
    LeadsNowhere(s);
    s' := s;
    if s.published {
      assert AnyActive(s.slots) && s.watcher != NotStarted && s.watcher != Stopped;
      if s.watcher.Settling? {
        s' := FromSettling(s, s);
      } else {
        var top := BackToTop(s);
        s' := top;
        if top.published { s' := FromTheTop(s, top); }
      }
    }
  }

  // From the middle of a round, back to the head of the loop.
  lemma BackToTop(s: Hp) returns (top: Hp)
    requires Quiet(s) && s.published && s.watcher != NotStarted && s.watcher != Stopped && !s.watcher.Settling?
    ensures Leads(s, top) && Quiet(top) && (AtLoopHead(top) || !top.published)
  {
    LeadsNowhere(s);
    top := s;
    if s.watcher.Settled? {
      var next := TakeSnapshot(s);
      SnapshotKeeps(s);
      LeadsOn(s, s, next);
      top := next;
    }
    if top.watcher.Collecting? {
      top := RoundFinishes(s, top);
    }
  }
}
