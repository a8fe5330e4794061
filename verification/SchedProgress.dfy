/** Nothing idle is forgotten: in every run of the scheduler, what is to be unloaded
    stays on its way to it. */
module SchedProgress {
  import opened Helpers
  import opened SchedState
  import opened SchedSafety
  import opened SchedRuns

  // ---------------------------------------------------------------- idle runners

  /** A runner that is idle is on its way out: an expired event is on its way or, as
      long as it may stay loaded, a timer is running or has gone off. */
  ghost predicate Leaving(s: State, r: Rid)
    requires r < |s.runners|
  {
    var x := s.runners[r];
    && (x.loading ==> x.refCount > 0)
    && (!x.closed && x.refCount == 0 ==>
          s.expired[r] > 0 || (x.duration > 0 && (x.timer || r in s.fired)))
  }

  ghost predicate AllLeaving(s: State) {
    forall r | 0 <= r < |s.runners| :: Leaving(s, r)
  }

  /** Only runner r changes, and no event gets lost. */
  ghost predicate Touches(s: State, t: State, r: Rid) {
    && r < |s.runners| == |t.runners|
    && (forall k | 0 <= k < |s.runners| && k != r :: t.runners[k] == s.runners[k])
    && (forall k | k != r :: t.expired[k] >= s.expired[k] && (k in s.fired ==> k in t.fired))
  }

  lemma TouchKeepsLeaving(s: State, t: State, r: Rid)
    requires AllLeaving(s) && Touches(s, t, r) && Leaving(t, r)
    ensures AllLeaving(t)
  {
    forall k | 0 <= k < |t.runners|
      ensures Leaving(t, k)
    {
      assert Leaving(s, k);
    }
  }

  lemma ExpiringLeaves(s: State, r: Rid)
    requires AllLeaving(s) && r < |s.runners|
    ensures AllLeaving(Expiring(s, r))
  {
    assert Leaving(s, r);
    TouchKeepsLeaving(s, Expiring(s, r), r);
  }

  lemma GrantedLeaves(s: State, q: Req, r: Rid)
    requires AllLeaving(s) && q in s.requests && r < |s.runners|
    ensures AllLeaving(Granted(s, q, r))
  {
    TouchKeepsLeaving(s, Granted(s, q, r), r);
  }

  lemma RunningLeaves(s: State, r: Rid)
    requires AllLeaving(s) && r < |s.runners|
    ensures AllLeaving(Running(s, r))
  {
    assert Leaving(s, r);
    TouchKeepsLeaving(s, Running(s, r), r);
  }

  lemma LoadFailedLeaves(s: State, r: Rid)
    requires AllLeaving(s) && r < |s.runners|
    ensures AllLeaving(LoadFailed(s, r))
  {
    TouchKeepsLeaving(s, LoadFailed(s, r), r);
  }

  lemma FireSentLeaves(s: State, r: Rid)
    requires AllLeaving(s) && r < |s.runners|
    ensures AllLeaving(FireSent(s, r))
  {
    assert Leaving(s, r);
    TouchKeepsLeaving(s, FireSent(s, r), r);
  }

  lemma UnloadedLeaves(s: State, r: Rid)
    requires AllLeaving(s) && r < |s.runners|
    ensures AllLeaving(Unloaded(s, r))
  {
    assert Leaving(s, r);
    TouchKeepsLeaving(s, Unloaded(s, r), r);
  }

  lemma FinishedLeaves(s: State, q: Req)
    requires AllLeaving(s) && q in s.requests
    requires s.requests[q].path in s.loaded ==> Free(s, s.loaded[s.requests[q].path])
    ensures AllLeaving(Finished(s, q))
  {
    var path := s.requests[q].path;
    var t := Finished(s, q);
    if path in s.loaded && s.loaded[path] < |s.runners| {
      TouchKeepsLeaving(s, t, s.loaded[path]);
    } else {
      forall r | 0 <= r < |t.runners|
        ensures Leaving(t, r)
      {
        assert Leaving(s, r);
      }
    }
  }

  /** A runner that is loaded is in use. */
  lemma LoadedLeaves(s: State, q: Req, numParallel: nat, duration: int)
    requires AllLeaving(s) && q in s.requests
    ensures AllLeaving(Loaded(s, q, numParallel, duration))
  {
    var t := Loaded(s, q, numParallel, duration);
    forall r | 0 <= r < |t.runners|
      ensures Leaving(t, r)
    {
      if r < |s.runners| {
        assert Leaving(s, r);
      }
    }
  }

  lemma QuietFires(s: State, e: Event)
    requires Quiet(e) && Apply(s, e).Some?
    ensures forall r | r in s.fired :: r in Apply(s, e).value.fired
  {
    hide NeedsReload, Granted, Loaded, Expiring, LoadFailed, Finished, Unloaded, Running, FireSent;
  }

  lemma QuietLeaving(s: State, e: Event)
    requires AllLeaving(s) && Quiet(e) && Apply(s, e).Some?
    ensures AllLeaving(Apply(s, e).value)
  {
    QuietLeaves(s, e);
    QuietFires(s, e);
    hide Apply;
    var t := Apply(s, e).value;
    forall r | 0 <= r < |t.runners|
      ensures Leaving(t, r)
    {
      assert Leaving(s, r);
    }
  }

  lemma SamePend(s: State, pend: Pending)
    requires AllLeaving(s)
    ensures AllLeaving(s.(pend := pend))
  {
    forall r | 0 <= r < |s.runners|
      ensures Leaving(s.(pend := pend), r)
    {
      assert Leaving(s, r);
    }
  }

  lemma LeavingStep(s: State, e: Event)
    requires AllLeaving(s) && Apply(s, e).Some?
    ensures AllLeaving(Apply(s, e).value)
  {
    hide AllLeaving, NeedsReload, Granted, Loaded, Expiring, LoadFailed, Finished, Unloaded, Running, FireSent;
    if Quiet(e) {
      QuietLeaving(s, e);
    } else {
      match e {
        case Grant => GrantedLeaves(s, s.pend.q, s.pend.r);
        case Load(n, d) => LoadedLeaves(s, s.pend.q, n, d);
        case Expire => ExpiringLeaves(s, s.pend.r); SamePend(Expiring(s, s.pend.r), Waiting(s.pend.q));
        case LoadDone(r) => RunningLeaves(s, r);
        case LoadFail(r) => LoadFailedLeaves(s, r);
        case Finish(q) => FinishedLeaves(s, q);
        case FireSend(r) => FireSentLeaves(s, r);
        case Unload(r) => UnloadedLeaves(s, r);
        case ExpireRunner(path) => ExpiringLeaves(s, s.loaded[path]);
        case _ =>
      }
    }
  }

  lemma {:induction false} RunLeaves(es: seq<Event>)
    requires Run(INIT, es).Some?
    ensures AllLeaving(Run(INIT, es).value)
  {
    hide Apply;
    if es != [] {
      var n := |es| - 1;
      RunLeaves(es[..n]);
      LeavingStep(Run(INIT, es[..n]).value, es[n]);
    }
  }

  /** At every point of every run, a loaded runner that nobody uses has an expired
      event on its way; only if it may stay for a while is it a timer instead, which
      is running or has gone off. */
  lemma IdleIsLeaving(es: seq<Event>, r: Rid)
    requires Run(INIT, es).Some? && r < |Run(INIT, es).value.runners|
    ensures var s := Run(INIT, es).value;
      var x := s.runners[r];
      !x.closed && x.refCount == 0 ==>
        !x.loading && (s.expired[r] > 0 || (x.duration > 0 && (x.timer || r in s.fired)))
  {
    hide Run;
    RunLeaves(es);
    assert Leaving(Run(INIT, es).value, r);
  }

  // ------------------------------------------------------- waiting for an unload

  /** Runner r is in use, and is to be unloaded when it is idle. */
  ghost predicate Dismissed(s: State, r: Rid) {
    r < |s.runners| && s.runners[r].refCount > 0 && s.runners[r].duration <= 0
  }

  /** An unload is on its way. */
  ghost predicate Outstanding(s: State) {
    s.unloads > 0 || (exists r :: r in s.expired) || exists r :: Dismissed(s, r)
  }

  ghost predicate WaitOk(s: State) {
    s.pend.Waiting? ==> Outstanding(s)
  }

  /** Nothing that is outstanding is called off. */
  ghost predicate Onward(s: State, t: State) {
    && t.unloads >= s.unloads
    && (forall r | r in s.expired :: r in t.expired || t.unloads > 0)
    && forall r | Dismissed(s, r) :: Dismissed(t, r) || r in t.expired
  }

  lemma OnwardKeeps(s: State, t: State)
    requires Outstanding(s) && Onward(s, t)
    ensures Outstanding(t)
  {
    if r :| r in s.expired {
      assert r in t.expired || t.unloads > 0;
    } else if r :| Dismissed(s, r) {
      assert Dismissed(t, r) || r in t.expired;
    }
  }

  lemma ExpiringOnward(s: State, r: Rid)
    requires r < |s.runners|
    ensures Onward(s, Expiring(s, r)) && Outstanding(Expiring(s, r))
  {
    var t := Expiring(s, r);
    if s.runners[r].refCount == 0 {
      assert r in t.expired;
    } else {
      assert Dismissed(t, r);
    }
  }

  lemma RunnersOnward(s: State, r: Rid)
    requires r < |s.runners|
    ensures Onward(s, Running(s, r)) && Onward(s, LoadFailed(s, r)) && Onward(s, FireSent(s, r))
  {
    assert r in LoadFailed(s, r).expired;
  }

  lemma UnloadedOnward(s: State, r: Rid)
    requires r < |s.runners|
    ensures Onward(s, Unloaded(s, r))
  {
  }

  lemma FinishedOnward(s: State, q: Req)
    requires q in s.requests
    ensures Onward(s, Finished(s, q))
  {
    var path := s.requests[q].path;
    if path in s.loaded && s.loaded[path] < |s.runners| {
      var r := s.loaded[path];
      assert Dismissed(s, r) ==> Dismissed(Finished(s, q), r) || r in Finished(s, q).expired;
    }
  }

  lemma OthersGoOnward(s: State, e: Event)
    requires Apply(s, e).Some? && !Pends(e)
    ensures Onward(s, Apply(s, e).value)
  {
    hide NeedsReload, Granted, Loaded, Expiring, LoadFailed, Finished, Unloaded, Running, FireSent;
    match e {
      case LoadDone(r) => RunnersOnward(s, r);
      case LoadFail(r) => RunnersOnward(s, r);
      case Finish(q) => FinishedOnward(s, q);
      case FireSend(r) => RunnersOnward(s, r);
      case Unload(r) => UnloadedOnward(s, r);
      case ExpireRunner(path) => ExpiringOnward(s, s.loaded[path]);
      case _ =>
    }
  }

  lemma PendsWait(s: State, e: Event)
    requires Apply(s, e).Some? && Pends(e)
    ensures WaitOk(Apply(s, e).value)
  {
    hide NeedsReload, Granted, Loaded, Expiring, LoadFailed, Finished, Unloaded, Running, FireSent, Outstanding;
    match e {
      case Expire =>
        ExpiringOnward(s, s.pend.r);
        OutstandingPend(Expiring(s, s.pend.r), Waiting(s.pend.q));
      case Grant => NotWaiting(s, s.pend.q, s.pend.r);
      case Load(n, d) => NotWaitingLoad(s, s.pend.q, n, d);
      case _ =>
    }
  }

  lemma NotWaiting(s: State, q: Req, r: Rid)
    requires q in s.requests && r < |s.runners|
    ensures Granted(s, q, r).pend.Idle?
  {
  }

  lemma NotWaitingLoad(s: State, q: Req, numParallel: nat, duration: int)
    requires q in s.requests
    ensures Loaded(s, q, numParallel, duration).pend.Idle?
  {
  }

  lemma OutstandingPend(s: State, pend: Pending)
    requires Outstanding(s)
    ensures Outstanding(s.(pend := pend))
  {
    var t := s.(pend := pend);
    if r :| Dismissed(s, r) {
      assert Dismissed(t, r);
    }
  }

  lemma WaitStep(s: State, e: Event)
    requires WaitOk(s) && Apply(s, e).Some?
    ensures WaitOk(Apply(s, e).value)
  {
    hide Apply, Outstanding, Onward;
    if Pends(e) {
      PendsWait(s, e);
    } else {
      OthersLeavePending(s, e);
      OthersGoOnward(s, e);
      if s.pend.Waiting? {
        OnwardKeeps(s, Apply(s, e).value);
      }
    }
  }

  lemma {:induction false} RunWaits(es: seq<Event>)
    requires Run(INIT, es).Some?
    ensures WaitOk(Run(INIT, es).value)
  {
    hide Apply, Outstanding;
    if es != [] {
      var n := |es| - 1;
      RunWaits(es[..n]);
      WaitStep(Run(INIT, es[..n]).value, es[n]);
    }
  }

  /** At every point of every run, a request that waits for an unload does not wait in
      vain: one has happened, or an expired event is on its way, or a runner in use is
      to be unloaded as soon as it is idle. In a run in which nothing goes wrong some
      request still holds that runner, and will finish. */
  lemma WaitingIsAnswered(es: seq<Event>)
    requires Run(INIT, es).Some? && Run(INIT, es).value.pend.Waiting?
    ensures var s := Run(INIT, es).value;
      || s.unloads > 0
      || (exists r :: r in s.expired)
      || exists r :: Dismissed(s, r) && (AllAllowed(INIT, es) ==> exists q :: q in s.held && s.held[q] == r)
  {
    hide Run, Dismissed;
    RunWaits(es);
    var s := Run(INIT, es).value;
    if r :| Dismissed(s, r) {
      if AllAllowed(INIT, es) {
        Held(es, r);
      }
    }
  }

  lemma Held(es: seq<Event>, r: Rid)
    requires Run(INIT, es).Some? && AllAllowed(INIT, es) && Dismissed(Run(INIT, es).value, r)
    ensures var s := Run(INIT, es).value;
      exists q :: q in s.held && s.held[q] == r
  {
    hide Run, Count, AllAllowed;
    RunKeepsInv(es);
    var s := Run(INIT, es).value;
    assert RunnerOk(s, r);
    if forall q | q in s.held :: s.held[q] != r {
      NoHolders(s, r);
    }
  }

  // -------------------------------------------------------------- how long they stay

  /** No runner's time changes. */
  ghost predicate SameTimes(s: State, t: State) {
    |t.runners| == |s.runners| && forall k | 0 <= k < |s.runners| :: t.runners[k].duration == s.runners[k].duration
  }

  lemma RunnerTimes(s: State, r: Rid)
    requires r < |s.runners|
    ensures SameTimes(s, Running(s, r)) && SameTimes(s, LoadFailed(s, r))
    ensures SameTimes(s, FireSent(s, r)) && SameTimes(s, Unloaded(s, r))
  {
  }

  lemma FinishedTimes(s: State, q: Req)
    requires q in s.requests
    ensures SameTimes(s, Finished(s, q))
  {
  }

  lemma OtherTimes(s: State, e: Event)
    requires Apply(s, e).Some? && !e.Grant? && !e.Load? && !e.Expire? && !e.ExpireRunner?
    ensures SameTimes(s, Apply(s, e).value)
  {
    hide NeedsReload, Granted, Loaded, Expiring, LoadFailed, Finished, Unloaded, Running, FireSent, SameTimes;
    if Quiet(e) {
      QuietLeaves(s, e);
      SameRunners(s, Apply(s, e).value);
    } else {
      match e {
        case LoadDone(r) => RunnerTimes(s, r);
        case LoadFail(r) => RunnerTimes(s, r);
        case Finish(q) => FinishedTimes(s, q);
        case FireSend(r) => RunnerTimes(s, r);
        case Unload(r) => RunnerTimes(s, r);
        case _ =>
      }
    }
  }

  lemma SameRunners(s: State, t: State)
    requires t.runners == s.runners
    ensures SameTimes(s, t)
  {
  }

  /** How long a runner stays is changed only by a request that is granted it and asks
      for a time of its own, or by being told to expire, which ends it. */
  lemma DurationChanges(s: State, e: Event, r: Rid)
    requires Apply(s, e).Some? && r < |s.runners|
    ensures var t := Apply(s, e).value;
      && r < |t.runners|
      && (t.runners[r].duration == s.runners[r].duration
          || (e.Grant? && s.pend.r == r && s.requests[s.pend.q].duration == Some(t.runners[r].duration))
          || (t.runners[r].duration == 0 &&
              ((e.Expire? && s.pend.r == r) || (e.ExpireRunner? && s.loaded[e.path] == r))))
  {
    hide NeedsReload, LoadFailed, Finished, Unloaded, Running, FireSent;
    if !e.Grant? && !e.Load? && !e.Expire? && !e.ExpireRunner? {
      OtherTimes(s, e);
      hide Apply;
    }
  }

  /** The runner stays as long as was asked for, or else as long as otherwise. */
  predicate Stays(x: Runner, asked: Option<int>, otherwise: int) {
    !x.timer && x.duration == if asked.Some? then asked.value else otherwise
  }

  /** A request that asks for a time of its own gets it, from the runner it is granted
      or that is loaded for it; a runner told to expire has none left. */
  lemma DurationIsKept(s: State, e: Event)
    requires Apply(s, e).Some?
    ensures var t := Apply(s, e).value;
      e.Grant? ==>
        && s.pend.r < |t.runners|
        && Stays(t.runners[s.pend.r], s.requests[s.pend.q].duration, s.runners[s.pend.r].duration)
    ensures var t := Apply(s, e).value;
      e.Load? ==>
        && |t.runners| == |s.runners| + 1
        && Stays(t.runners[|s.runners|], s.requests[s.pend.q].duration, e.duration)
    ensures var t := Apply(s, e).value;
      e.Expire? ==> s.pend.r < |t.runners| && Stays(t.runners[s.pend.r], Some(0), 0)
    ensures var t := Apply(s, e).value;
      e.ExpireRunner? ==> s.loaded[e.path] < |t.runners| && Stays(t.runners[s.loaded[e.path]], Some(0), 0)
  {
    hide NeedsReload, LoadFailed, Finished, Unloaded, Running, FireSent;
  }

  // --------------------------------------------------------------- timers

  /** A timer runs only for a runner that is idle, loaded, and may stay for a while. */
  ghost predicate TimerOk(x: Runner) {
    x.timer ==> x.refCount == 0 && x.duration > 0 && !x.closed && !x.loading
  }

  ghost predicate TimersOk(s: State) {
    forall r | 0 <= r < |s.runners| :: TimerOk(s.runners[r])
  }

  lemma RunnerKeepsTimers(s: State, r: Rid)
    requires TimersOk(s) && r < |s.runners|
    ensures TimersOk(Expiring(s, r)) && TimersOk(FireSent(s, r)) && TimersOk(Unloaded(s, r)) && TimersOk(Running(s, r))
    ensures s.runners[r].loading ==> TimersOk(LoadFailed(s, r))
    ensures forall q | q in s.requests :: TimersOk(Granted(s, q, r))
  {
    assert TimerOk(s.runners[r]);
  }

  lemma LoadedKeepsTimers(s: State, q: Req, numParallel: nat, duration: int)
    requires TimersOk(s) && q in s.requests
    ensures TimersOk(Loaded(s, q, numParallel, duration))
  {
  }

  lemma FinishedKeepsTimers(s: State, q: Req)
    requires Core(s) && TimersOk(s) && q in s.finishing && q in s.requests
    requires s.requests[q].path in s.loaded ==> Free(s, s.loaded[s.requests[q].path])
    ensures TimersOk(Finished(s, q))
  {
    hide Count;
    FinishesItsOwn(s, q);
    assert HeldOk(s, q);
    assert TimerOk(s.runners[s.held[q]]);
    hide Core;
  }

  lemma TimersStep(s: State, e: Event)
    requires Core(s) && TimersOk(s) && Apply(s, e).Some?
    ensures TimersOk(Apply(s, e).value)
  {
    hide Core, TimerOk, NeedsReload, Granted, Loaded, Expiring, LoadFailed, Finished, Unloaded, Running, FireSent;
    if Quiet(e) {
      QuietLeaves(s, e);
    } else {
      match e {
        case Grant => RunnerKeepsTimers(s, s.pend.r);
        case Load(n, d) => LoadedKeepsTimers(s, s.pend.q, n, d);
        case Expire => RunnerKeepsTimers(s, s.pend.r);
        case LoadDone(r) => RunnerKeepsTimers(s, r);
        case LoadFail(r) => RunnerKeepsTimers(s, r);
        case Finish(q) => FinishedKeepsTimers(s, q);
        case FireSend(r) => RunnerKeepsTimers(s, r);
        case Unload(r) => RunnerKeepsTimers(s, r);
        case ExpireRunner(path) => RunnerKeepsTimers(s, s.loaded[path]);
        case _ =>
      }
    }
  }

  /** In a run in which nothing goes wrong a timer runs only for a runner that is
      loaded, idle, and may stay for a while: never for one in use. */
  lemma {:induction false} TimersAreForIdle(es: seq<Event>)
    requires Run(INIT, es).Some? && AllAllowed(INIT, es)
    ensures TimersOk(Run(INIT, es).value)
  {
    hide Apply, Core, Allowed;
    if es != [] {
      var n := |es| - 1;
      TimersAreForIdle(es[..n]);
      RunKeepsInv(es[..n]);
      TimersStep(Run(INIT, es[..n]).value, es[n]);
    }
  }
}
