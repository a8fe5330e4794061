/** When runners are safe from being unloaded in use. */
module SchedSafety {
  import opened SchedState

  function Holders(s: State, r: Rid): set<Req> {
    set q | q in s.held && s.held[q] == r
  }

  /** The requests that hold runner r: granted, their finish events not yet processed. */
  function Count(s: State, r: Rid): nat {
    |Holders(s, r)|
  }

  ghost predicate RunnerOk(s: State, r: Rid)
    requires r < |s.runners|
  {
    var x := s.runners[r];
    // a runner that is not closed is the one loaded under its path
    && (!x.closed ==> Current(s, r))
    // every reference is a request that holds it
    && x.refCount == Count(s, r)
    && (x.closed ==> x.refCount == 0)
    // it expires at most once, and is closed by that event
    && s.expired[r] + (if x.closed then 1 else 0) == s.queued[r] <= 1
    && (x.loading ==>
          && !x.closed && x.refCount == 1
          && x.loader in s.held && s.held[x.loader] == r && x.loader !in s.finishing)
  }

  ghost predicate HeldOk(s: State, q: Req)
    requires q in s.held
  {
    q in s.requests && s.held[q] < |s.runners| && !s.runners[s.held[q]].closed &&
    s.runners[s.held[q]].path == s.requests[q].path
  }

  ghost predicate PathOk(s: State, p: Path)
    requires p in s.loaded
  {
    s.loaded[p] < |s.runners| && s.runners[s.loaded[p]].path == p && !s.runners[s.loaded[p]].closed
  }

  ghost predicate Core(s: State) {
    && (forall r | 0 <= r < |s.runners| :: RunnerOk(s, r))
    && (forall q | q in s.held :: HeldOk(s, q))
    && (forall p | p in s.loaded :: PathOk(s, p))
    && s.finishing <= s.held.Keys
    && (forall r | r in s.queued :: r < |s.runners|)
    && (forall r | r in s.expired :: r < |s.runners|)
  }

  ghost predicate PendOk(s: State) {
    && (s.pend.Found? || s.pend.Usable? ==>
          Current(s, s.pend.r) && s.pend.q in s.requests && s.requests[s.pend.q].path == s.runners[s.pend.r].path)
    && ((s.pend.Missing? || s.pend.Placing?) && s.pend.q in s.requests ==> s.requests[s.pend.q].path !in s.loaded)
    && (!s.pend.Idle? ==> s.pend.q !in s.held && s.pend.q !in s.delayed)
    && (forall q | q in s.delayed :: q in s.requests && q !in s.held)
  }

  ghost predicate Inv(s: State) {
    Core(s) && PendOk(s)
  }

  /** The conditions on a run: no runner is queued to expire a second time, and none
      is unloaded between being looked up and being granted. */
  predicate Allowed(s: State, e: Event) {
    && (Apply(s, e).Some? ==> OnceEach(Apply(s, e).value))
    && (e.Unload? && (s.pend.Found? || s.pend.Usable?) ==> s.pend.r != e.r)
  }

  predicate OnceEach(s: State) {
    forall r | r in s.queued :: s.queued[r] <= 1
  }

  /** Every event of the run is allowed where it happens. */
  predicate AllAllowed(s: State, es: seq<Event>) {
    es == [] ||
    (AllAllowed(s, es[..|es| - 1]) &&
     (Run(s, es[..|es| - 1]).Some? ==> Allowed(Run(s, es[..|es| - 1]).value, es[|es| - 1])))
  }

  // ----------------------------------------------------------- counting holders

  lemma CountAdd(s: State, t: State, q: Req, k: Rid)
    requires q !in s.held && q in t.held && t.held == s.held[q := t.held[q]]
    ensures Count(t, k) == Count(s, k) + if k == t.held[q] then 1 else 0
  {
    if k == t.held[q] {
      assert Holders(t, k) == Holders(s, k) + {q};
    } else {
      assert Holders(t, k) == Holders(s, k);
    }
  }

  lemma CountRemove(s: State, t: State, q: Req, k: Rid)
    requires q in s.held && t.held == s.held - {q}
    ensures Count(s, k) == Count(t, k) + if k == s.held[q] then 1 else 0
  {
    if k == s.held[q] {
      assert Holders(s, k) == Holders(t, k) + {q};
    } else {
      assert Holders(s, k) == Holders(t, k);
    }
  }

  lemma CountSame(s: State, t: State, k: Rid)
    requires t.held == s.held
    ensures Count(t, k) == Count(s, k)
  {
    assert Holders(t, k) == Holders(s, k);
  }

  lemma NoHolders(s: State, r: Rid)
    requires forall q | q in s.held :: s.held[q] != r
    ensures Count(s, r) == 0
  {
    assert Holders(s, r) == {};
  }

  lemma HolderCounts(s: State, q: Req)
    requires q in s.held
    ensures Count(s, s.held[q]) > 0
  {
    assert q in Holders(s, s.held[q]);
  }

  // -------------------------------------------------------------- the events

  /** Nothing that matters has changed. */
  lemma CoreSame(s: State, t: State)
    requires Core(s)
    requires t.runners == s.runners && t.loaded == s.loaded && t.held == s.held
    requires t.expired == s.expired && t.queued == s.queued
    requires t.finishing <= t.held.Keys
    requires forall r | 0 <= r < |s.runners| && s.runners[r].loading :: s.runners[r].loader !in t.finishing
    requires forall q | q in s.requests :: q in t.requests && t.requests[q].path == s.requests[q].path
    ensures Core(t)
  {
    hide Count;
    forall r | 0 <= r < |t.runners|
      ensures RunnerOk(t, r)
    {
      assert RunnerOk(s, r);
      CountSame(s, t, r);
    }
    forall q | q in t.held
      ensures HeldOk(t, q)
    {
      assert HeldOk(s, q);
    }
    forall p | p in t.loaded
      ensures PathOk(t, p)
    {
      assert PathOk(s, p);
    }
  }

  /** One runner changes, but not where it is loaded, and who holds it only by as
      much as its count. */
  ghost predicate Changes(s: State, t: State, r: Rid) {
    && r < |s.runners| == |t.runners|
    && (forall k | 0 <= k < |s.runners| && k != r :: t.runners[k] == s.runners[k])
    && t.runners[r].path == s.runners[r].path && t.runners[r].closed == s.runners[r].closed
    && t.loaded == s.loaded && t.requests == s.requests
    && (forall k | k != r :: t.expired[k] == s.expired[k] && t.queued[k] == s.queued[k])
    && (forall k | 0 <= k < |s.runners| && k != r :: Count(t, k) == Count(s, k))
    && (forall q | q in t.held && q !in s.held :: t.held[q] == r && q !in t.finishing)
    && (forall q | q in t.held && q in s.held :: t.held[q] == s.held[q])
    && (forall q | q in s.held && q !in t.held :: s.held[q] == r)
    && t.finishing <= t.held.Keys && t.finishing <= s.finishing
  }

  lemma CoreChanges(s: State, t: State, r: Rid)
    requires Core(s) && Changes(s, t, r) && RunnerOk(t, r)
    requires forall q | q in t.held && q !in s.held :: HeldOk(t, q)
    ensures Core(t)
  {
    hide Count;
    forall k | 0 <= k < |t.runners|
      ensures RunnerOk(t, k)
    {
      assert RunnerOk(s, k);
    }
    forall q | q in t.held
      ensures HeldOk(t, q)
    {
      if q in s.held {
        assert HeldOk(s, q);
      }
    }
    forall p | p in t.loaded
      ensures PathOk(t, p)
    {
      assert PathOk(s, p);
    }
    forall k | k in t.queued
      ensures k < |t.runners|
    {
      assert k != r ==> k in s.queued;
    }
    forall k | k in t.expired
      ensures k < |t.runners|
    {
      assert k != r ==> k in s.expired;
    }
  }

  lemma GrantedCore(s: State, q: Req, r: Rid)
    requires Core(s) && q in s.requests && q !in s.held && Free(s, r) && Current(s, r)
    requires s.requests[q].path == s.runners[r].path
    ensures Core(Granted(s, q, r))
  {
    hide Count;
    var t := Granted(s, q, r);
    forall k | 0 <= k < |s.runners|
      ensures Count(t, k) == Count(s, k) + if k == r then 1 else 0
    {
      CountAdd(s, t, q, k);
    }
    assert RunnerOk(s, r) && PathOk(s, s.runners[r].path);
    assert RunnerOk(t, r) && HeldOk(t, q);
    CoreChanges(s, t, r);
  }

  lemma ExpiringCore(s: State, r: Rid)
    requires Core(s) && Free(s, r) && OnceEach(Expiring(s, r))
    ensures Core(Expiring(s, r))
  {
    hide Count;
    var t := Expiring(s, r);
    forall k | 0 <= k < |s.runners|
      ensures Count(t, k) == Count(s, k)
    {
      CountSame(s, t, k);
    }
    assert RunnerOk(s, r);
    QueueOnce(s, t, r);
    assert RunnerOk(t, r);
    CoreChanges(s, t, r);
  }

  /** What is queued under the conditions on a run had not been queued before. */
  lemma QueueOnce(s: State, t: State, r: Rid)
    requires r < |s.runners| && RunnerOk(s, r) && OnceEach(t)
    requires (t.queued == s.queued && t.expired == s.expired) ||
             (t.queued == s.queued + multiset{r} && t.expired == s.expired + multiset{r})
    ensures t.expired[r] + (if s.runners[r].closed then 1 else 0) == t.queued[r] <= 1
    ensures forall k | k != r :: t.expired[k] == s.expired[k] && t.queued[k] == s.queued[k]
  {
    hide Count;
    assert t.queued != s.queued ==> r in t.queued;
  }

  lemma FireSentCore(s: State, r: Rid)
    requires Core(s) && Free(s, r) && OnceEach(FireSent(s, r))
    ensures Core(FireSent(s, r))
  {
    hide Count;
    var t := FireSent(s, r);
    forall k | 0 <= k < |s.runners|
      ensures Count(t, k) == Count(s, k)
    {
      CountSame(s, t, k);
    }
    assert RunnerOk(s, r);
    QueueOnce(s, t, r);
    assert RunnerOk(t, r);
    CoreChanges(s, t, r);
  }

  lemma RunningCore(s: State, r: Rid)
    requires Core(s) && r < |s.runners| && s.runners[r].loading
    ensures Core(Running(s, r))
  {
    hide Count;
    var t := Running(s, r);
    forall k | 0 <= k < |s.runners|
      ensures Count(t, k) == Count(s, k)
    {
      CountSame(s, t, k);
    }
    assert RunnerOk(s, r);
    assert RunnerOk(t, r);
    CoreChanges(s, t, r);
  }

  lemma LoadFailedCore(s: State, r: Rid)
    requires Core(s) && r < |s.runners| && s.runners[r].loading && OnceEach(LoadFailed(s, r))
    ensures Core(LoadFailed(s, r))
  {
    hide Count;
    var t, q := LoadFailed(s, r), s.runners[r].loader;
    assert RunnerOk(s, r);
    forall k | 0 <= k < |s.runners|
      ensures Count(s, k) == Count(t, k) + if k == r then 1 else 0
    {
      CountRemove(s, t, q, k);
    }
    QueueOnce(s, t, r);
    assert RunnerOk(t, r);
    CoreChanges(s, t, r);
  }

  /** The runner a finish event counts for is the one its request holds. */
  lemma FinishesItsOwn(s: State, q: Req)
    requires Core(s) && q in s.finishing
    ensures q in s.requests && q in s.held && s.requests[q].path in s.loaded
    ensures s.loaded[s.requests[q].path] == s.held[q] < |s.runners|
    ensures s.runners[s.held[q]].refCount > 0
  {
    assert HeldOk(s, q);
    assert RunnerOk(s, s.held[q]);
    HolderCounts(s, q);
  }

  lemma FinishedCore(s: State, q: Req)
    requires Core(s) && q in s.finishing && q in s.requests && OnceEach(Finished(s, q))
    requires s.requests[q].path in s.loaded ==> Free(s, s.loaded[s.requests[q].path])
    ensures Core(Finished(s, q))
  {
    hide Count;
    FinishesItsOwn(s, q);
    var t, r := Finished(s, q), s.held[q];
    assert RunnerOk(s, r);
    forall k | 0 <= k < |s.runners|
      ensures Count(s, k) == Count(t, k) + if k == r then 1 else 0
    {
      CountRemove(s, t, q, k);
    }
    QueueOnce(s, t, r);
    assert RunnerOk(t, r);
    CoreChanges(s, t, r);
  }

  lemma LoadedCore(s: State, q: Req, numParallel: nat, duration: int)
    requires Core(s) && q in s.requests && q !in s.held && s.requests[q].path !in s.loaded
    ensures Core(Loaded(s, q, numParallel, duration))
  {
    hide Count;
    var t, n := Loaded(s, q, numParallel, duration), |s.runners|;
    forall k | 0 <= k <= n
      ensures Count(t, k) == Count(s, k) + if k == n then 1 else 0
    {
      CountAdd(s, t, q, k);
    }
    forall j | j in s.held
      ensures s.held[j] != n
    {
      assert HeldOk(s, j);
    }
    NoHolders(s, n);
    assert n !in s.queued && n !in s.expired && q !in s.finishing;
    assert RunnerOk(t, n) && HeldOk(t, q);
    forall k | 0 <= k < n
      ensures RunnerOk(t, k)
    {
      assert RunnerOk(s, k);
    }
    forall j | j in t.held && j != q
      ensures HeldOk(t, j)
    {
      assert HeldOk(s, j);
    }
    forall p | p in t.loaded && p in s.loaded
      ensures PathOk(t, p)
    {
      assert PathOk(s, p);
    }
  }

  lemma UnloadedCore(s: State, r: Rid)
    requires Core(s) && r in s.expired && Free(s, r) && s.runners[r].refCount == 0
    ensures !s.runners[r].closed && Core(Unloaded(s, r))
  {
    hide Count;
    var t := Unloaded(s, r);
    assert RunnerOk(s, r);
    forall k | 0 <= k < |s.runners|
      ensures RunnerOk(t, k)
    {
      assert RunnerOk(s, k);
      CountSame(s, t, k);
    }
    forall q | q in t.held
      ensures HeldOk(t, q)
    {
      assert HeldOk(s, q);
      HolderCounts(s, q);
    }
    forall p | p in t.loaded
      ensures PathOk(t, p)
    {
      assert PathOk(s, p);
    }
  }

  // ------------------------------------------------------------------ whole runs

  predicate Quiet(e: Event) {
    e.Arrive? || e.Again? || e.Lookup? || e.Check? || e.Full? || e.FullNone? || e.Room? ||
    e.MakeRoom? || e.MakeRoomNone? || e.Postpone? || e.GiveUp? || e.Resume? || e.Ignore? ||
    e.Cancel? || e.Fire? || e.Retry?
  }

  /** No runner, no path and no holder changes. */
  ghost predicate LeavesRunners(s: State, t: State) {
    && t.runners == s.runners && t.loaded == s.loaded && t.held == s.held
    && t.expired == s.expired && t.queued == s.queued
    && (forall q | q in s.requests :: q in t.requests && t.requests[q].path == s.requests[q].path)
  }

  lemma QuietLeaves(s: State, e: Event)
    requires Quiet(e) && Apply(s, e).Some?
    ensures LeavesRunners(s, Apply(s, e).value)
    ensures Apply(s, e).value.finishing ==
      if e.Cancel? then s.finishing + {e.q} else s.finishing
    ensures e.Cancel? ==> e.q in s.held && Free(s, s.held[e.q])
  {
    hide NeedsReload, Granted, Loaded, Expiring, LoadFailed, Finished, Unloaded, Running, FireSent;
  }

  lemma QuietKeeps(s: State, e: Event)
    requires Core(s) && Quiet(e) && Apply(s, e).Some?
    ensures Core(Apply(s, e).value)
  {
    hide Apply, RunnerOk, PathOk, HeldOk;
    QuietLeaves(s, e);
    LoadersNotFinishing(s);
    CoreSame(s, Apply(s, e).value);
  }

  lemma LoadersNotFinishing(s: State)
    requires Core(s)
    ensures forall r | 0 <= r < |s.runners| && s.runners[r].loading ::
      s.runners[r].loader !in s.finishing && s.runners[r].loader in s.held && s.held[s.runners[r].loader] == r
  {
    forall r | 0 <= r < |s.runners| && s.runners[r].loading
      ensures s.runners[r].loader !in s.finishing && s.runners[r].loader in s.held && s.held[s.runners[r].loader] == r
    {
      assert RunnerOk(s, r);
    }
  }

  lemma CoreStep(s: State, e: Event)
    requires Inv(s) && Apply(s, e).Some? && Allowed(s, e)
    ensures Core(Apply(s, e).value)
  {
    hide Core, OnceEach, Granted, Loaded, Expiring, LoadFailed, Finished, Unloaded, Running, FireSent;
    if Quiet(e) {
      QuietKeeps(s, e);
    } else {
      match e {
        case Grant => GrantedCore(s, s.pend.q, s.pend.r); PendDiffers(Granted(s, s.pend.q, s.pend.r), s.pend);
        case Load(n, d) => LoadedCore(s, s.pend.q, n, d);
        case Expire =>
          PendDiffers(Expiring(s, s.pend.r), Waiting(s.pend.q));
          ExpiringCore(s, s.pend.r);
        case LoadDone(r) => RunningCore(s, r);
        case LoadFail(r) => LoadFailedCore(s, r);
        case Finish(q) => FinishingIsHeld(s, q); FinishedCore(s, q);
        case FireSend(r) => FireSentCore(s, r);
        case Unload(r) => UnloadedCore(s, r);
        case ExpireRunner(path) => ExpiringCore(s, s.loaded[path]);
        case _ =>
      }
    }
  }

  lemma FinishingIsHeld(s: State, q: Req)
    requires Core(s) && q in s.finishing
    ensures q in s.requests
  {
    FinishesItsOwn(s, q);
  }

  lemma PendDiffers(s: State, pend: Pending)
    ensures OnceEach(s) == OnceEach(s.(pend := pend))
    ensures Core(s) ==> Core(s.(pend := pend))
  {
    if Core(s) {
      LoadersNotFinishing(s);
      HeldAreRequests(s);
      CoreSame(s, s.(pend := pend));
    }
  }

  lemma HeldAreRequests(s: State)
    requires Core(s)
    ensures forall q | q in s.held :: HeldOk(s, q)
  {
  }
}
