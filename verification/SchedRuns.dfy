/** What holds in every run of the scheduler, and what fails in some. */
module SchedRuns {
  import opened Helpers
  import opened SchedState
  import opened SchedSafety

  // ------------------------------------------------------------------ use safety

  /** What the other loops and the requests leave alone. */
  ghost predicate LeavesPending(s: State, t: State) {
    && t.pend == s.pend && t.delayed == s.delayed && t.requests == s.requests && t.maxRunners == s.maxRunners
    && t.held.Keys <= s.held.Keys && t.loaded.Keys <= s.loaded.Keys
    && |t.runners| == |s.runners| && forall k | 0 <= k < |s.runners| :: t.runners[k].path == s.runners[k].path
  }

  predicate Pends(e: Event) {
    e.Arrive? || e.Again? || e.Lookup? || e.Check? || e.Grant? || e.Full? || e.FullNone? || e.Room? ||
    e.Load? || e.MakeRoom? || e.MakeRoomNone? || e.Postpone? || e.GiveUp? || e.Expire? || e.Resume? || e.Ignore?
  }

  lemma RunnerStepsLeavePending(s: State, r: Rid)
    requires r < |s.runners|
    ensures LeavesPending(s, Expiring(s, r)) && Expiring(s, r).loaded == s.loaded
    ensures LeavesPending(s, Running(s, r)) && Running(s, r).loaded == s.loaded
    ensures LeavesPending(s, FireSent(s, r)) && FireSent(s, r).loaded == s.loaded
    ensures LeavesPending(s, LoadFailed(s, r)) && LoadFailed(s, r).loaded == s.loaded
    ensures LeavesPending(s, Unloaded(s, r)) && Unloaded(s, r).loaded == s.loaded - {s.runners[r].path}
  {
  }

  lemma FinishLeavesPending(s: State, q: Req)
    requires q in s.requests
    ensures LeavesPending(s, Finished(s, q)) && Finished(s, q).loaded == s.loaded
  {
  }

  lemma OthersLeavePending(s: State, e: Event)
    requires Apply(s, e).Some? && !Pends(e)
    ensures LeavesPending(s, Apply(s, e).value)
    ensures Apply(s, e).value.loaded == if e.Unload? then s.loaded - {s.runners[e.r].path} else s.loaded
  {
    hide Expiring, Running, FireSent, LoadFailed, Unloaded, Finished;
    match e {
      case LoadDone(r) => RunnerStepsLeavePending(s, r);
      case LoadFail(r) => RunnerStepsLeavePending(s, r);
      case FireSend(r) => RunnerStepsLeavePending(s, r);
      case Unload(r) => RunnerStepsLeavePending(s, r);
      case ExpireRunner(path) => RunnerStepsLeavePending(s, s.loaded[path]);
      case Finish(q) => FinishLeavesPending(s, q);
      case _ =>
    }
  }

  /** A runner that has been looked up stays loaded as long as it is not unloaded itself. */
  lemma StaysCurrent(s: State, e: Event, k: Rid)
    requires Core(s) && Apply(s, e).Some? && !Pends(e) && Current(s, k) && (e.Unload? ==> e.r != k)
    ensures Current(Apply(s, e).value, k)
  {
    OthersLeavePending(s, e);
    if e.Unload? {
      assert e.r in s.expired && RunnerOk(s, e.r);
    }
    hide Apply, Count;
  }

  lemma OthersKeepPendOk(s: State, e: Event)
    requires Inv(s) && Apply(s, e).Some? && Allowed(s, e) && !Pends(e)
    ensures PendOk(Apply(s, e).value)
  {
    OthersLeavePending(s, e);
    if s.pend.Found? || s.pend.Usable? {
      StaysCurrent(s, e, s.pend.r);
    }
    hide Apply, Core;
  }

  lemma LooksKeepPendOk(s: State, e: Event)
    requires Inv(s) && Apply(s, e).Some? && Pends(e) && !e.Grant? && !e.Load? && !e.Expire?
    ensures PendOk(Apply(s, e).value)
  {
    hide Core, NeedsReload, Count, Granted, Loaded, Expiring, LoadFailed, Finished, Unloaded, Running, FireSent;
    if e.Lookup? {
      LooksUpCurrent(s);
    }
    HeldAreRequests(s);
  }

  lemma GrantsKeepPendOk(s: State, e: Event)
    requires Inv(s) && Apply(s, e).Some? && (e.Grant? || e.Load? || e.Expire?)
    ensures PendOk(Apply(s, e).value)
  {
    hide Core, NeedsReload, Count;
  }

  lemma PendsKeepPendOk(s: State, e: Event)
    requires Inv(s) && Apply(s, e).Some? && Pends(e)
    ensures PendOk(Apply(s, e).value)
  {
    hide Core, PendOk, Apply;
    if e.Grant? || e.Load? || e.Expire? {
      GrantsKeepPendOk(s, e);
    } else {
      LooksKeepPendOk(s, e);
    }
  }

  lemma PendStep(s: State, e: Event)
    requires Inv(s) && Apply(s, e).Some? && Allowed(s, e)
    ensures PendOk(Apply(s, e).value)
  {
    hide Core, PendOk, Apply, Allowed;
    if Pends(e) {
      PendsKeepPendOk(s, e);
    } else {
      OthersKeepPendOk(s, e);
    }
  }

  lemma LooksUpCurrent(s: State)
    requires Core(s) && s.pend.Deciding? && s.pend.q in s.requests
    ensures var path := s.requests[s.pend.q].path;
      path in s.loaded ==> Current(s, s.loaded[path]) && s.runners[s.loaded[path]].path == path
  {
    var path := s.requests[s.pend.q].path;
    if path in s.loaded {
      assert PathOk(s, path);
    }
  }

  lemma {:induction false} RunKeepsInv(es: seq<Event>)
    requires Run(INIT, es).Some? && AllAllowed(INIT, es)
    ensures Inv(Run(INIT, es).value)
  {
    hide Core, PendOk, Allowed, Apply;
    if es == [] {
      InitInv();
    } else {
      var n := |es| - 1;
      RunKeepsInv(es[..n]);
      CoreStep(Run(INIT, es[..n]).value, es[n]);
      PendStep(Run(INIT, es[..n]).value, es[n]);
    }
  }

  lemma InitInv()
    ensures Inv(INIT)
  {
  }

  /** In every run in which no runner is queued to expire twice, and none is unloaded
      between being looked up and being granted, the reference count of a runner is
      the number of requests that hold it, and every request that holds a runner
      holds the one that is loaded for its model. */
  lemma CountsAreHolders(es: seq<Event>, r: Rid, q: Req)
    requires Run(INIT, es).Some? && AllAllowed(INIT, es)
    ensures var s := Run(INIT, es).value;
      && (r < |s.runners| ==> s.runners[r].refCount == Count(s, r))
      && (q in s.held ==> s.held[q] < |s.runners| && Current(s, s.held[q]) && !s.runners[s.held[q]].closed)
  {
    hide Apply, Count, Allowed;
    RunKeepsInv(es);
    var s := Run(INIT, es).value;
    if r < |s.runners| {
      assert RunnerOk(s, r);
    }
    if q in s.held {
      assert HeldOk(s, q) && RunnerOk(s, s.held[q]);
    }
  }

  lemma OnlyIdleIsUnloaded(s: State, r: Rid)
    requires Core(s) && Apply(s, Unload(r)).Some?
    ensures Count(s, r) == 0 && Current(s, r) && !s.runners[r].closed
  {
    hide Count;
    assert RunnerOk(s, r);
  }

  lemma OnlyFinishing(s: State, q: Req)
    requires Apply(s, Finish(q)).Some?
    ensures q in s.finishing
  {
  }

  /** In such a run, what is unloaded is a loaded runner that nobody holds, and a
      finish event counts for the runner its request holds, whose count is positive. */
  lemma NothingInUseIsUnloaded(es: seq<Event>, e: Event)
    requires Run(INIT, es).Some? && AllAllowed(INIT, es) && Apply(Run(INIT, es).value, e).Some?
    ensures var s := Run(INIT, es).value;
      && (e.Unload? ==> Count(s, e.r) == 0 && Current(s, e.r) && !s.runners[e.r].closed)
      && (e.Finish? ==>
            && e.q in s.held && s.requests[e.q].path in s.loaded
            && s.loaded[s.requests[e.q].path] == s.held[e.q] < |s.runners|
            && s.runners[s.held[e.q]].refCount > 0)
  {
    hide Count, Allowed, Apply, Run, Core;
    RunKeepsInv(es);
    var s := Run(INIT, es).value;
    if e.Unload? {
      OnlyIdleIsUnloaded(s, e.r);
    } else if e.Finish? {
      OnlyFinishing(s, e.q);
      FinishesItsOwn(s, e.q);
    }
  }

  // -------------------------------------------------------- the conditions matter

  lemma Next(s: State, es: seq<Event>, e: Event)
    requires Run(s, es).Some?
    ensures Run(s, es + [e]) == Apply(Run(s, es).value, e)
  {
    hide Apply;
    assert (es + [e])[..|es|] == es;
  }

  lemma Arrives(s: State, q: Req, x: Request)
    requires s.pend == Idle && q !in s.requests && x.origNumCtx == x.opts.numCtx
    ensures Apply(s, Arrive(q, x)) == Some(s.(requests := s.requests[q := x], pend := Deciding(q)))
  {
  }

  lemma HasRoom(s: State, q: Req, limit: nat)
    requires s.pend == Deciding(q) && q in s.requests && s.requests[q].path !in s.loaded
    requires s.maxRunners == 0 || |s.loaded| < s.maxRunners
    ensures Apply(s, Lookup) == Some(s.(pend := Missing(q, |s.loaded|)))
    ensures Apply(s.(pend := Missing(q, |s.loaded|)), Room(limit)) == Some(
      s.(pend := Placing(q), maxRunners := if s.maxRunners == 0 then limit else s.maxRunners))
  {
  }

  lemma Loads(s: State, q: Req)
    requires s.pend == Placing(q) && q in s.requests
    ensures Apply(s, Load(1, 0)) == Some(Loaded(s, q, 1, 0))
  {
    hide Loaded;
  }

  lemma Unloads(s: State, r: Rid)
    requires r in s.expired && Free(s, r) && s.runners[r].refCount == 0
    ensures Apply(s, Unload(r)) == Some(Unloaded(s, r))
  {
    hide Unloaded;
  }

  lemma StartsRunning(s: State, r: Rid)
    requires r < |s.runners| && s.runners[r].loading
    ensures Apply(s, LoadDone(r)) == Some(Running(s, r))
  {
    hide Running;
  }

  lemma IsUsable(s: State, q: Req)
    requires s.pend == Deciding(q) && q in s.requests && s.requests[q].path in s.loaded
    requires var r := s.loaded[s.requests[q].path];
      Free(s, r) && s.runners[r].numParallel > 0 && !NeedsReload(s.runners[r], s.requests[q], true)
    ensures var r := s.loaded[s.requests[q].path];
      && Apply(s, Lookup) == Some(s.(pend := Found(q, r)))
      && Apply(s.(pend := Found(q, r)), Check(true)) == Some(s.(pend := Usable(q, r)))
  {
    hide NeedsReload;
  }

  lemma Expires(s: State, path: Path)
    requires path in s.loaded && Free(s, s.loaded[path])
    ensures Apply(s, ExpireRunner(path)) == Some(Expiring(s, s.loaded[path]))
  {
    hide Expiring;
  }

  lemma Grants(s: State, q: Req, r: Rid)
    requires s.pend == Usable(q, r) && Free(s, r) && q in s.requests
    ensures Apply(s, Grant) == Some(Granted(s, q, r))
  {
    hide Granted;
  }

  /** What follows from a runner that is idle and queued to expire. */
  function Reloading(s: State, r: Rid, q: Req, x: Request): seq<Event> {
    [Unload(r)] + [Arrive(q, x)] + [Lookup] + [Room(1)] + [Load(1, 0)] + [LoadDone(|s.runners|)]
  }

  /** The state this leads to: r is unloaded, and another runner loaded and running. */
  function Reloaded(s: State, r: Rid, q: Req, x: Request): State
    requires r < |s.runners|
  {
    var t := Unloaded(s, r);
    var limit := if t.maxRunners == 0 then 1 else t.maxRunners;
    Running(Loaded(t.(requests := t.requests[q := x], pend := Placing(q), maxRunners := limit), q, 1, 0), |s.runners|)
  }

  lemma ReloadedIs(s: State, r: Rid, q: Req, x: Request)
    requires Free(s, r) && q !in s.held && x.path == s.runners[r].path
    ensures var t, n := Reloaded(s, r, q, x), |s.runners|;
      && |t.runners| == n + 1 && t.expired == s.expired - multiset{r} && Free(t, r)
      && t.runners[r].refCount == s.runners[r].refCount && t.runners[r].path == x.path
      && t.runners[n].path == x.path && t.runners[n].refCount == 1 && !t.runners[n].closed
      && Current(t, n) && q in t.held && t.held[q] == n
  {
  }

  /** An idle runner that is queued to expire is unloaded, and another one loaded in
      its place, for a request for the same model. */
  lemma ReloadsAnother(s: State, r: Rid, q: Req, x: Request)
    requires Free(s, r) && Current(s, r) && s.runners[r].refCount == 0 && r in s.expired && s.pend == Idle
    requires q !in s.requests && x.path == s.runners[r].path && x.origNumCtx == x.opts.numCtx
    requires s.maxRunners == 0 || |s.loaded| <= s.maxRunners
    ensures Run(s, Reloading(s, r, q, x)) == Some(Reloaded(s, r, q, x))
  {
    var n := |s.runners|;
    var s1 := Unloaded(s, r);
    var s2 := s1.(requests := s1.requests[q := x], pend := Deciding(q));
    var s3 := s2.(pend := Placing(q), maxRunners := if s2.maxRunners == 0 then 1 else s2.maxRunners);
    assert s.loaded.Keys == s1.loaded.Keys + {x.path};
    assert Loaded(s3, q, 1, 0).runners[n].loading;
    Next(s, [], Unload(r));
    assert [] + [Unload(r)] == [Unload(r)];
    hide Apply, Loaded, Running;
    Unloads(s, r);
    Arrives(s1, q, x);
    HasRoom(s2, q, 1);
    Loads(s3, q);
    StartsRunning(Loaded(s3, q, 1, 0), n);
    hide Unloaded, Run;
    Next(s, [Unload(r)], Arrive(q, x));
    Next(s, [Unload(r)] + [Arrive(q, x)], Lookup);
    Next(s, [Unload(r)] + [Arrive(q, x)] + [Lookup], Room(1));
    Next(s, [Unload(r)] + [Arrive(q, x)] + [Lookup] + [Room(1)], Load(1, 0));
    Next(s, [Unload(r)] + [Arrive(q, x)] + [Lookup] + [Room(1)] + [Load(1, 0)], LoadDone(n));
  }

  /** Where a runner is queued a second time, the first event unloads it, another one
      may be loaded in its place, and the second event then removes that one while
      it is in use. */
  lemma ExpiringTwice(s: State, r: Rid, q: Req, x: Request)
    requires Free(s, r) && Current(s, r) && s.runners[r].refCount == 0 && s.expired[r] > 1 && s.pend == Idle
    requires q !in s.requests && q !in s.held && x.path == s.runners[r].path && x.origNumCtx == x.opts.numCtx
    requires s.maxRunners == 0 || |s.loaded| <= s.maxRunners
    ensures Run(s, Reloading(s, r, q, x) + [Unload(r)]).Some?
    ensures var t, n := Run(s, Reloading(s, r, q, x) + [Unload(r)]).value, |s.runners|;
      && n < |t.runners| && q in t.held && t.held[q] == n
      && t.runners[n].refCount == 1 && !t.runners[n].closed && !Current(t, n)
  {
    hide Apply, Reloading, Reloaded;
    ReloadsAnother(s, r, q, x);
    ReloadedIs(s, r, q, x);
    Unloads(Reloaded(s, r, q, x), r);
    Next(s, Reloading(s, r, q, x), Unload(r));
  }

  /** Where a usable runner is idle, it may be unloaded between being looked up and
      being granted; the request is then handed a closed runner. */
  lemma GrantingClosed(s: State, r: Rid, q: Req)
    requires s.pend == Deciding(q) && q in s.requests && Current(s, r) && s.runners[r].path == s.requests[q].path
    requires Free(s, r) && s.runners[r].refCount == 0 && s.runners[r].numParallel > 0
    requires !NeedsReload(s.runners[r], s.requests[q], true)
    ensures var es := [Lookup] + [Check(true)] + [ExpireRunner(s.runners[r].path)] + [Unload(r)] + [Grant];
      Run(s, es).Some? &&
      var t := Run(s, es).value;
      q in t.held && t.held[q] == r < |t.runners| && t.runners[r].closed
  {
    hide Apply, NeedsReload;
    var p := s.runners[r].path;
    IsUsable(s, q);
    var s2 := s.(pend := Usable(q, r));
    Expires(s2, p);
    var s3 := Expiring(s2, r);
    Unloads(s3, r);
    var s4 := Unloaded(s3, r);
    Grants(s4, q, r);
    Next(s, [], Lookup);
    assert [] + [Lookup] == [Lookup];
    Next(s, [Lookup], Check(true));
    Next(s, [Lookup] + [Check(true)], ExpireRunner(p));
    Next(s, [Lookup] + [Check(true)] + [ExpireRunner(p)], Unload(r));
    Next(s, [Lookup] + [Check(true)] + [ExpireRunner(p)] + [Unload(r)], Grant);
  }

  // ----------------------------------------------------------- the limit on runners

  ghost predicate Within(s: State) {
    && (s.maxRunners == 0 ==> |s.loaded| == 0 && !s.pend.Placing?)
    && (s.maxRunners > 0 ==> |s.loaded| <= s.maxRunners)
    && (s.pend.Missing? ==> |s.loaded| <= s.pend.count)
    && (s.pend.Placing? ==> |s.loaded| < s.maxRunners)
  }

  lemma FewerPaths(m: map<Path, Rid>, p: Path)
    ensures |m - {p}| <= |m|
  {
    assert (m - {p}).Keys == m.Keys - {p};
    assert |(m - {p}).Keys| <= |m.Keys|;
  }

  lemma OneMorePath(m: map<Path, Rid>, p: Path, r: Rid)
    ensures |m[p := r]| <= |m| + 1
  {
    assert m[p := r].Keys == m.Keys + {p};
    assert |m[p := r].Keys| <= |m.Keys| + 1;
  }

  lemma WithinOthers(s: State, e: Event)
    requires Within(s) && Apply(s, e).Some? && !Pends(e)
    ensures Within(Apply(s, e).value)
  {
    OthersLeavePending(s, e);
    if e.Unload? {
      FewerPaths(s.loaded, s.runners[e.r].path);
    }
    hide Apply;
  }

  lemma WithinPends(s: State, e: Event)
    requires Within(s) && Apply(s, e).Some? && Pends(e) && (e.Room? ==> e.limit > 0)
    ensures Within(Apply(s, e).value)
  {
    hide NeedsReload, Expiring, Granted, Loaded, LoadFailed, Finished, Unloaded, Running, FireSent;
    match e {
      case Load(n, d) => LoadedWithin(s, s.pend.q, n, d);
      case Grant => GrantedWithin(s, s.pend.q, s.pend.r);
      case Expire => ExpiringWithin(s, s.pend.q, s.pend.r);
      case _ =>
    }
  }

  lemma LoadedWithin(s: State, q: Req, numParallel: nat, duration: int)
    requires Within(s) && s.pend.Placing? && q in s.requests
    ensures Within(Loaded(s, q, numParallel, duration))
  {
    OneMorePath(s.loaded, s.requests[q].path, |s.runners|);
  }

  lemma ExpiringWithin(s: State, q: Req, r: Rid)
    requires Within(s) && r < |s.runners|
    ensures Within(Expiring(s, r).(pend := Waiting(q)))
  {
    RunnerStepsLeavePending(s, r);
  }

  lemma GrantedWithin(s: State, q: Req, r: Rid)
    requires Within(s) && q in s.requests && r < |s.runners|
    ensures Within(Granted(s, q, r))
  {
  }

  lemma WithinStep(s: State, e: Event)
    requires Within(s) && Apply(s, e).Some? && (e.Room? ==> e.limit > 0)
    ensures Within(Apply(s, e).value)
  {
    hide Apply, Within;
    if Pends(e) {
      WithinPends(s, e);
    } else {
      WithinOthers(s, e);
    }
  }

  /** In every run, whatever expires when, there are never more runners loaded than
      the limit allows once it is set, as long as the limit is taken from a list of
      GPUs that is not empty. */
  lemma {:induction false} NeverBeyondTheLimit(es: seq<Event>)
    requires Run(INIT, es).Some? && forall i | 0 <= i < |es| && es[i].Room? :: es[i].limit > 0
    ensures Within(Run(INIT, es).value)
  {
    hide Apply;
    if es != [] {
      var n := |es| - 1;
      NeverBeyondTheLimit(es[..n]);
      WithinStep(Run(INIT, es[..n]).value, es[n]);
    }
  }

  // ------------------------------------------------------------------------- reuse

  /** A runner has the context its request asked for, once for each parallel sequence. */
  ghost predicate Scaled(x: Runner) {
    x.numParallel > 0 && x.opts.numCtx == x.origNumCtx * x.numParallel
  }

  ghost predicate AllScaled(s: State) {
    forall r | 0 <= r < |s.runners| :: Scaled(s.runners[r])
  }

  lemma ChangeKeepsScaled(s: State, r: Rid)
    requires AllScaled(s) && r < |s.runners|
    ensures AllScaled(Expiring(s, r)) && AllScaled(LoadFailed(s, r)) && AllScaled(Unloaded(s, r))
    ensures AllScaled(Running(s, r)) && AllScaled(FireSent(s, r))
    ensures forall q | q in s.requests :: AllScaled(Granted(s, q, r))
  {
    assert Scaled(s.runners[r]);
  }

  lemma FinishKeepsScaled(s: State, q: Req)
    requires AllScaled(s) && q in s.requests
    ensures AllScaled(Finished(s, q))
  {
    var path := s.requests[q].path;
    assert path in s.loaded && s.loaded[path] < |s.runners| ==> Scaled(s.runners[s.loaded[path]]);
  }

  lemma LoadScales(s: State, q: Req, numParallel: nat, duration: int)
    requires AllScaled(s) && q in s.requests && numParallel > 0
    ensures AllScaled(Loaded(s, q, numParallel, duration))
  {
  }

  lemma ScaledStep(s: State, e: Event)
    requires AllScaled(s) && Apply(s, e).Some?
    ensures AllScaled(Apply(s, e).value)
  {
    hide NeedsReload, Expiring, LoadFailed, Unloaded, Running, FireSent, Granted, Finished, Loaded, Scaled;
    match e {
      case Grant => ChangeKeepsScaled(s, s.pend.r);
      case Load(n, d) => LoadScales(s, s.pend.q, n, d);
      case Expire => ChangeKeepsScaled(s, s.pend.r);
      case LoadDone(r) => ChangeKeepsScaled(s, r);
      case LoadFail(r) => ChangeKeepsScaled(s, r);
      case Finish(q) => FinishKeepsScaled(s, q);
      case FireSend(r) => ChangeKeepsScaled(s, r);
      case Unload(r) => ChangeKeepsScaled(s, r);
      case ExpireRunner(path) => ChangeKeepsScaled(s, s.loaded[path]);
      case _ =>
    }
  }

  lemma {:induction false} RunnersAreScaled(es: seq<Event>)
    requires Run(INIT, es).Some?
    ensures AllScaled(Run(INIT, es).value)
  {
    hide Apply;
    if es != [] {
      var n := |es| - 1;
      RunnersAreScaled(es[..n]);
      ScaledStep(Run(INIT, es[..n]).value, es[n]);
    }
  }

  lemma ScaleDown(orig: nat, n: nat)
    requires n > 0
    ensures orig * n / n == orig
  {
    var x := orig * n;
    var d, rest := x / n, x % n;
    assert d * n + rest == x;
    if d > orig {
      Multiples(orig, d - orig, n);
    } else if d < orig {
      Multiples(d, orig - d, n);
    }
  }

  /** In every run, a runner is kept for a request exactly when it is not closed, is
      healthy, has the same adapters, projectors and options, and was loaded for the
      context size the request now asks for. For a request that has not been
      considered for loading before, that is the size it came with. */
  lemma KeptExactlyWhenEqual(es: seq<Event>, r: Rid, q: Request, healthy: bool)
    requires Run(INIT, es).Some?
    ensures r < |Run(INIT, es).value.runners| ==>
      var x := Run(INIT, es).value.runners[r];
      x.numParallel > 0 &&
      (!NeedsReload(x, q, healthy) <==>
         && !x.closed && healthy && x.files == q.files && x.opts.rest == q.opts.rest
         && (q.opts.numGPU < 0 || x.opts.numGPU == q.opts.numGPU)
         && x.origNumCtx == q.opts.numCtx)
  {
    hide Apply;
    RunnersAreScaled(es);
    if r < |Run(INIT, es).value.runners| {
      var x := Run(INIT, es).value.runners[r];
      assert Scaled(x);
      ScaleDown(x.origNumCtx, x.numParallel);
    }
  }

  /** A request that is postponed after trying more than one parallel sequence last
      asks for more context than it came with: it is told to reload a runner that
      was loaded, in the meantime, for an equal request. That takes a degree of
      parallelism that was set: left to itself the scheduler tries four and then
      one, and the request comes back with the context it came with. */
  lemma PostponedIsReloaded(es: seq<Event>, r: Rid, numParallel: nat, healthy: bool)
    requires Run(INIT, es).Some? && numParallel > 1
    ensures var s := Run(INIT, es).value;
      var t := Apply(s, Postpone(numParallel));
      t.Some? && r < |s.runners| && 0 < s.requests[s.pend.q].origNumCtx == s.runners[r].origNumCtx ==>
        s.runners[r].numParallel > 0 && NeedsReload(s.runners[r], t.value.requests[s.pend.q], healthy)
  {
    hide Run;
    var s := Run(INIT, es).value;
    var t := Apply(s, Postpone(numParallel));
    if t.Some? && r < |s.runners| && 0 < s.requests[s.pend.q].origNumCtx == s.runners[r].origNumCtx {
      var q := t.value.requests[s.pend.q];
      KeptExactlyWhenEqual(es, r, q, healthy);
      assert q.opts.numCtx == q.origNumCtx * numParallel;
      assert q.origNumCtx * numParallel >= q.origNumCtx * 2;
    }
  }
}
