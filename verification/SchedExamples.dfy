/** Runs from the initial state, each of which breaks a promise. */
module SchedExamples {
  import opened Helpers
  import opened SchedState
  import opened SchedRuns

  /** A run can be followed state by state. */
  ghost predicate Trace(ss: seq<State>, es: seq<Event>) {
    |ss| == |es| + 1 && forall i | 0 <= i < |es| :: Apply(ss[i], es[i]) == Some(ss[i + 1])
  }

  lemma {:induction false} TraceIsRun(ss: seq<State>, es: seq<Event>)
    requires Trace(ss, es)
    ensures Run(ss[0], es) == Some(ss[|es|])
  {
    hide Apply;
    if es != [] {
      var n := |es| - 1;
      TraceIsRun(ss[..|es|], es[..n]);
    }
  }

  lemma {:induction false} RunConcat(s: State, es1: seq<Event>, es2: seq<Event>)
    requires Run(s, es1).Some? && Run(Run(s, es1).value, es2).Some?
    ensures Run(s, es1 + es2) == Run(Run(s, es1).value, es2)
  {
    hide Apply;
    if es2 == [] {
      assert es1 + [] == es1;
    } else {
      var n := |es2| - 1;
      RunConcat(s, es1, es2[..n]);
      Next(s, es1 + es2[..n], es2[n]);
      assert es1 + es2 == es1 + es2[..n] + [es2[n]];
    }
  }

  const OPTIONS := Options(2048, -1, 0)

  const FOR_M := Request("m", OPTIONS, 2048, 0, None)

  const FOR_N := Request("n", OPTIONS, 2048, 0, None)

  // ------------------------------------------------------------ an idle runner

  const LOADING_M: seq<Event> := [Arrive(0, FOR_M), Lookup, Room(1), Load(1, 5)]

  const SERVING_M: seq<Event> := [LoadDone(0), Cancel(0), Finish(0)]

  const IDLE_RUNNER := Runner("m", 0, false, false, 5, true, 1, OPTIONS, 0, 0, 2048)

  /** The first runner is being loaded. */
  const FIRST_LOADING := State(
    [IDLE_RUNNER.(refCount := 1, loading := true, timer := false)],
    map["m" := 0], map[0 := FOR_M], map[0 := 0], {}, {}, multiset{}, multiset{}, multiset{}, 0, Idle, 1)

  /** It has served its only request. */
  const AFTER_SERVED := State(
    [IDLE_RUNNER], map["m" := 0], map[0 := FOR_M], map[], {}, {}, multiset{}, multiset{}, multiset{}, 0, Idle, 1)

  lemma LoadingRuns()
    ensures Run(INIT, LOADING_M) == Some(FIRST_LOADING)
  {
    var s1 := INIT.(requests := map[0 := FOR_M], pend := Deciding(0));
    var s2 := s1.(pend := Missing(0, 0));
    var s3 := s1.(pend := Placing(0), maxRunners := 1);
    assert Loaded(s3, 0, 1, 5) == FIRST_LOADING;
    TraceIsRun([INIT, s1, s2, s3, FIRST_LOADING], LOADING_M);
  }

  lemma ServingRuns()
    ensures Run(FIRST_LOADING, SERVING_M) == Some(AFTER_SERVED)
  {
    var s1 := Running(FIRST_LOADING, 0);
    var s2 := s1.(finishing := s1.finishing + {0});
    assert Apply(FIRST_LOADING, SERVING_M[0]) == Some(s1);
    assert Apply(s1, SERVING_M[1]) == Some(s2);
    assert Finished(s2, 0) == AFTER_SERVED;
    assert Apply(s2, SERVING_M[2]) == Some(AFTER_SERVED);
    hide Apply;
    TraceIsRun([FIRST_LOADING, s1, s2, AFTER_SERVED], SERVING_M);
  }

  const SERVED := LOADING_M + SERVING_M

  lemma ServedRuns()
    ensures Run(INIT, SERVED) == Some(AFTER_SERVED)
  {
    hide Apply, Run;
    LoadingRuns();
    ServingRuns();
    RunConcat(INIT, LOADING_M, SERVING_M);
  }

  // ------------------------------------------------------- queued to expire twice

  const TWICE := [ExpireRunner("m"), ExpireRunner("m")]

  const EXPIRING_TWICE :=
    SERVED + TWICE +
    ([Unload(0)] + [Arrive(1, FOR_M)] + [Lookup] + [Room(1)] + [Load(1, 0)] + [LoadDone(1)] + [Unload(0)])

  /** The run on which ExpiringTwice starts. */
  lemma ToldTwice() returns (s: State)
    ensures Run(INIT, SERVED + TWICE) == Some(s)
    ensures |s.runners| == 1 && Free(s, 0) && Current(s, 0) && s.runners[0].refCount == 0 && s.expired[0] > 1
    ensures s.pend == Idle && 1 !in s.requests && 1 !in s.held && s.runners[0].path == "m"
    ensures |s.loaded| <= s.maxRunners
  {
    ServedRuns();
    var s1 := Expiring(AFTER_SERVED, 0);
    s := Expiring(s1, 0);
    Expires(AFTER_SERVED, "m");
    Expires(s1, "m");
    hide Apply, Run;
    TraceIsRun([AFTER_SERVED, s1, s], TWICE);
    RunConcat(INIT, SERVED, TWICE);
  }

  /** An idle runner is told twice to expire: the second event removes the runner
      that was loaded in its place, for the request that uses it. */
  lemma UnloadedInUse()
    ensures Run(INIT, EXPIRING_TWICE).Some?
    ensures var t := Run(INIT, EXPIRING_TWICE).value;
      && 1 < |t.runners| && 1 in t.held && t.held[1] == 1
      && t.runners[1].refCount == 1 && !t.runners[1].closed && !Current(t, 1)
  {
    hide Apply, Run;
    var s := ToldTwice();
    ExpiringTwice(s, 0, 1, FOR_M);
    RunConcat(INIT, SERVED + TWICE, Reloading(s, 0, 1, FOR_M) + [Unload(0)]);
  }

  // -------------------------------------------------------- granted when closed

  const GRANTING_CLOSED :=
    SERVED + [Arrive(1, FOR_M)] + ([Lookup] + [Check(true)] + [ExpireRunner("m")] + [Unload(0)] + [Grant])

  /** The run on which GrantingClosed starts. */
  lemma SecondArrives() returns (s: State)
    ensures Run(INIT, SERVED + [Arrive(1, FOR_M)]) == Some(s)
    ensures s.pend == Deciding(1) && 1 in s.requests && Current(s, 0) && s.runners[0].path == "m" == s.requests[1].path
    ensures Free(s, 0) && s.runners[0].refCount == 0 && s.runners[0].numParallel > 0
    ensures !NeedsReload(s.runners[0], s.requests[1], true)
  {
    ServedRuns();
    s := AFTER_SERVED.(requests := AFTER_SERVED.requests[1 := FOR_M], pend := Deciding(1));
    Arrives(AFTER_SERVED, 1, FOR_M);
    hide Apply, Run;
    Next(INIT, SERVED, Arrive(1, FOR_M));
  }

  /** A request is handed a runner that was unloaded after it had been looked up. */
  lemma GrantedClosed()
    ensures Run(INIT, GRANTING_CLOSED).Some?
    ensures var t := Run(INIT, GRANTING_CLOSED).value;
      0 < |t.runners| && 1 in t.held && t.held[1] == 0 && t.runners[0].closed
  {
    hide Apply, Run, NeedsReload;
    var s := SecondArrives();
    GrantingClosed(s, 0, 1);
    var rest := [Lookup] + [Check(true)] + [ExpireRunner("m")] + [Unload(0)] + [Grant];
    RunConcat(INIT, SERVED + [Arrive(1, FOR_M)], rest);
  }

  // ---------------------------------------------- postponed, and told to reload

  function ToPlace(q: Req, x: Request): seq<Event> {
    [Arrive(q, x), Lookup, Room(2)]
  }

  function Placed(s: State, q: Req, x: Request): State {
    s.(requests := s.requests[q := x], pend := Placing(q), maxRunners := if s.maxRunners == 0 then 2 else s.maxRunners)
  }

  lemma Places(s: State, q: Req, x: Request)
    requires s.pend == Idle && q !in s.requests && x.origNumCtx == x.opts.numCtx && x.path !in s.loaded
    requires s.maxRunners == 0 || |s.loaded| < s.maxRunners
    ensures Run(s, ToPlace(q, x)) == Some(Placed(s, q, x))
  {
    var s1 := s.(requests := s.requests[q := x], pend := Deciding(q));
    var s2 := s1.(pend := Missing(q, |s.loaded|));
    Arrives(s, q, x);
    HasRoom(s1, q, 2);
    hide Apply;
    TraceIsRun([s, s1, s2, Placed(s, q, x)], ToPlace(q, x));
  }

  lemma LoadsAfter(s: State, q: Req, x: Request, numParallel: nat)
    requires Run(s, ToPlace(q, x)) == Some(Placed(s, q, x)) && numParallel > 0
    ensures Run(s, ToPlace(q, x) + [Load(numParallel, 5)]) == Some(Loaded(Placed(s, q, x), q, numParallel, 5))
  {
    assert Apply(Placed(s, q, x), Load(numParallel, 5)) == Some(Loaded(Placed(s, q, x), q, numParallel, 5));
    hide Apply, Run;
    Next(s, ToPlace(q, x), Load(numParallel, 5));
  }

  const OTHER_LOADING := ToPlace(0, FOR_N) + [Load(1, 5)]

  lemma OtherLoads() returns (s: State)
    ensures Run(INIT, OTHER_LOADING) == Some(s)
    ensures |s.runners| == 1 && s.runners[0].loading && s.loaded == map["n" := 0] && s.held == map[0 := 0]
    ensures s.requests.Keys == {0} && s.delayed == {} && s.pend == Idle && s.maxRunners == 2
  {
    Places(INIT, 0, FOR_N);
    LoadsAfter(INIT, 0, FOR_N, 1);
    s := Loaded(Placed(INIT, 0, FOR_N), 0, 1, 5);
  }

  const POSTPONED_REQUEST := FOR_M.(opts := OPTIONS.(numCtx := 4096))

  lemma Postpones(s: State) returns (t: State)
    requires s.loaded == map["n" := 0] && s.requests.Keys == {0} && s.delayed == {}
    requires s.pend == Idle && s.maxRunners == 2
    ensures Run(s, ToPlace(1, FOR_M) + [Postpone(2)]) == Some(t)
    ensures t.runners == s.runners && t.loaded == s.loaded && t.held == s.held && t.pend == Idle && t.maxRunners == 2
    ensures t.requests.Keys == {0, 1} && t.requests[1] == POSTPONED_REQUEST && t.delayed == {1}
  {
    Places(s, 1, FOR_M);
    var placed := Placed(s, 1, FOR_M);
    t := Tries(placed, 1, 2).(pend := Idle, delayed := s.delayed + {1});
    assert Apply(placed, Postpone(2)) == Some(t);
    hide Apply, Run;
    Next(s, ToPlace(1, FOR_M), Postpone(2));
  }

  /** What a runner is like that was loaded for the request just as it came. */
  predicate LoadedFor(x: Runner, q: Request) {
    x.path == q.path && !x.closed && x.files == q.files && x.origNumCtx == q.opts.numCtx
    && x.opts.numGPU == q.opts.numGPU && x.opts.rest == q.opts.rest
  }

  lemma EqualLoads(s: State) returns (t: State)
    requires |s.runners| == 1 && s.runners[0].loading && s.loaded == map["n" := 0] && s.held == map[0 := 0]
    requires s.requests.Keys == {0, 1} && s.delayed == {1} && s.pend == Idle && s.maxRunners == 2
    ensures Run(s, [LoadDone(0)] + (ToPlace(2, FOR_M) + [Load(2, 5)])) == Some(t)
    ensures |t.runners| == 2 && t.runners[1].loading && LoadedFor(t.runners[1], FOR_M)
    ensures t.runners[1].numParallel == 2 && t.runners[1].opts.numCtx == 4096
    ensures "m" in t.loaded && t.loaded["m"] == 1 && 1 !in t.held && t.delayed == {1} && t.pend == Idle
    ensures 1 in t.requests && t.requests[1] == s.requests[1]
  {
    StartsRunning(s, 0);
    var running := Running(s, 0);
    Next(s, [], LoadDone(0));
    assert [] + [LoadDone(0)] == [LoadDone(0)];
    Places(running, 2, FOR_M);
    LoadsAfter(running, 2, FOR_M, 2);
    t := Loaded(Placed(running, 2, FOR_M), 2, 2, 5);
    hide Apply;
    RunConcat(s, [LoadDone(0)], ToPlace(2, FOR_M) + [Load(2, 5)]);
  }

  const COMING_BACK: seq<Event> := [LoadDone(1), Again(1), Lookup, Check(true)]

  lemma ComesBack(s: State) returns (t: State)
    requires |s.runners| == 2 && s.runners[1].loading && LoadedFor(s.runners[1], FOR_M)
    requires s.runners[1].numParallel == 2 && s.runners[1].opts.numCtx == 4096
    requires "m" in s.loaded && s.loaded["m"] == 1 && 1 !in s.held && s.delayed == {1} && s.pend == Idle
    requires 1 in s.requests && s.requests[1] == POSTPONED_REQUEST
    ensures Run(s, COMING_BACK) == Some(t)
    ensures t.pend == ToExpire(1, 1) && Current(t, 1) && LoadedFor(t.runners[1], FOR_M)
  {
    var s1 := Running(s, 1);
    var s2 := s1.(delayed := s1.delayed - {1}, pend := Deciding(1));
    var s3 := s2.(pend := Found(1, 1));
    t := s2.(pend := ToExpire(1, 1));
    assert Apply(s, COMING_BACK[0]) == Some(s1);
    assert Apply(s1, COMING_BACK[1]) == Some(s2);
    assert Apply(s2, COMING_BACK[2]) == Some(s3);
    assert s3.runners[1].opts.numCtx / s3.runners[1].numParallel == 2048;
    assert Apply(s3, COMING_BACK[3]) == Some(t);
    hide Apply;
    TraceIsRun([s, s1, s2, s3, t], COMING_BACK);
  }

  const POSTPONED :=
    OTHER_LOADING + (ToPlace(1, FOR_M) + [Postpone(2)])
    + ([LoadDone(0)] + (ToPlace(2, FOR_M) + [Load(2, 5)])) + COMING_BACK

  /** Two equal requests for a model: the first is postponed while another model is
      loading, the second is then loaded with the parallelism that both tried. When
      the first comes back, it is told to reload the runner, which is healthy and
      was loaded for a request like it. */
  lemma PostponedReloads()
    ensures Run(INIT, POSTPONED).Some?
    ensures var t := Run(INIT, POSTPONED).value;
      t.pend == ToExpire(1, 1) && Current(t, 1) && LoadedFor(t.runners[1], FOR_M)
  {
    hide Apply, Run;
    var s1 := OtherLoads();
    var s2 := Postpones(s1);
    var s3 := EqualLoads(s2);
    var s4 := ComesBack(s3);
    var es2 := ToPlace(1, FOR_M) + [Postpone(2)];
    var es3 := [LoadDone(0)] + (ToPlace(2, FOR_M) + [Load(2, 5)]);
    RunConcat(INIT, OTHER_LOADING, es2);
    RunConcat(INIT, OTHER_LOADING + es2, es3);
    RunConcat(INIT, OTHER_LOADING + es2 + es3, COMING_BACK);
  }
}
