/** The scheduler of model runners as a state machine. Its two loops, the timers and
    the requests take turns; a step is what one of them does under a lock, or
    between two operations on channels. */
module SchedState {
  import opened Helpers

  type Path = string
  type Rid = nat
  type Req = nat

  /** Everything but the size of the context and the number of GPU layers is one value. */
  datatype Options = Options(numCtx: nat, numGPU: int, rest: nat)

  /** What is asked for, with the context size first asked for. */
  datatype Request = Request(path: Path, opts: Options, origNumCtx: nat, files: nat, duration: Option<int>)

  datatype Runner = Runner(
    path: Path,
    refCount: nat,
    loading: bool,      // its lock is held until it is running
    closed: bool,       // unloaded
    duration: int,
    timer: bool,
    numParallel: nat,
    opts: Options,
    files: nat,
    loader: Req,        // the request it was loaded for, and what that asked for
    origNumCtx: nat)

  /** Where the loop that processes pending requests is. */
  datatype Pending =
    | Idle
    | Deciding(q: Req)
    | Found(q: Req, r: Rid)      // looked up, not yet checked
    | Usable(q: Req, r: Rid)     // checked, not yet granted
    | Missing(q: Req, count: nat) // not loaded, while so many others were
    | Placing(q: Req)            // below the limit on runners
    | ToExpire(q: Req, r: Rid)
    | Waiting(q: Req)

  datatype State = State(
    runners: seq<Runner>,        // all there have ever been
    loaded: map<Path, Rid>,
    requests: map<Req, Request>,
    held: map<Req, Rid>,         // granted, the finish event not yet processed
    finishing: set<Req>,         // those whose finish event is on its way
    delayed: set<Req>,
    expired: multiset<Rid>,      // expired events on their way
    fired: multiset<Rid>,        // timers that went off and have not sent their event
    queued: multiset<Rid>,       // all expired events that have been raised
    unloads: nat,                // unloaded events on their way
    pend: Pending,
    maxRunners: nat)             // 0: not determined

  const INIT: State :=
    State([], map[], map[], map[], {}, {}, multiset{}, multiset{}, multiset{}, 0, Idle, 0)

  datatype Event =
    | Arrive(q: Req, request: Request)
    | Again(q: Req)                       // a delayed request comes back
    | Lookup
    | Check(healthy: bool)
    | Grant
    | Full(r: Rid)
    | FullNone                            // there is no runner left to expire
    | Room(limit: nat)
    | Load(numParallel: nat, duration: int)
    | MakeRoom(numParallel: nat, r: Rid)
    | MakeRoomNone(numParallel: nat)
    | Postpone(numParallel: nat)
    | GiveUp
    | Expire
    | Resume
    | Ignore                              // an unload that nobody waits for
    | LoadDone(r: Rid)
    | LoadFail(r: Rid)
    | Cancel(q: Req)
    | Finish(q: Req)
    | Fire(r: Rid)
    | FireSend(r: Rid)
    | Retry(r: Rid)
    | Unload(r: Rid)
    | ExpireRunner(path: Path)

  const MAX_COUNT: nat := 0xFFFF_FFFF_FFFF_FFFF

  /** Reference counts are unsigned: below zero they wrap around. */
  function Decrement(n: nat): nat {
    if n == 0 then MAX_COUNT else n - 1
  }

  /** Runner r exists, and its lock is not held by a load. */
  predicate Free(s: State, r: Rid) {
    r < |s.runners| && !s.runners[r].loading
  }

  predicate Current(s: State, r: Rid) {
    r < |s.runners| && s.runners[r].path in s.loaded && s.loaded[s.runners[r].path] == r
  }

  function Queue(s: State, r: Rid): State {
    s.(expired := s.expired + multiset{r}, queued := s.queued + multiset{r})
  }

  /** Whether a runner has to be replaced to serve a request. */
  predicate NeedsReload(x: Runner, q: Request, healthy: bool)
    requires x.numParallel > 0
  {
    x.closed ||
    x.files != q.files ||
    x.opts.rest != q.opts.rest ||
    (q.opts.numGPU >= 0 && x.opts.numGPU != q.opts.numGPU) ||
    x.opts.numCtx / x.numParallel != q.opts.numCtx ||
    !healthy
  }

  /** The runner for a request, or how many there are for others. */
  function LookedUp(s: State, q: Req): State
    requires q in s.requests
  {
    var path := s.requests[q].path;
    s.(pend := if path in s.loaded then Found(q, s.loaded[path]) else Missing(q, |s.loaded|))
  }

  /** To be unloaded as soon as it is idle. */
  function Expiring(s: State, r: Rid): State
    requires r < |s.runners|
  {
    var t := s.(runners := s.runners[r := s.runners[r].(timer := false, duration := 0)]);
    if s.runners[r].refCount == 0 then Queue(t, r) else t
  }

  /** The request tries a degree of parallelism, which changes the context it asks for. */
  function Tries(s: State, q: Req, numParallel: nat): State
    requires q in s.requests
  {
    var x := s.requests[q];
    s.(requests := s.requests[q := x.(opts := x.opts.(numCtx := x.origNumCtx * numParallel))])
  }

  function Granted(s: State, q: Req, r: Rid): State
    requires q in s.requests && r < |s.runners|
  {
    var x := s.runners[r];
    var duration := if s.requests[q].duration.Some? then s.requests[q].duration.value else x.duration;
    s.(runners := s.runners[r := x.(refCount := x.refCount + 1, timer := false, duration := duration)],
       held := s.held[q := r], pend := Idle)
  }

  function Loaded(s: State, q: Req, numParallel: nat, duration: int): State
    requires q in s.requests
  {
    var t := Tries(s, q, numParallel);
    var x := t.requests[q];
    var d := if x.duration.Some? then x.duration.value else duration;
    var runner := Runner(x.path, 1, true, false, d, false, numParallel, x.opts, x.files, q, x.origNumCtx);
    t.(runners := t.runners + [runner], loaded := t.loaded[x.path := |t.runners|],
       held := t.held[q := |t.runners|], pend := Idle)
  }

  function LoadFailed(s: State, r: Rid): State
    requires r < |s.runners|
  {
    var x := s.runners[r];
    Queue(s.(runners := s.runners[r := x.(loading := false, refCount := Decrement(x.refCount))],
             held := s.held - {x.loader}), r)
  }

  /** A finish event counts for whatever runner is loaded under the path of the request. */
  function Finished(s: State, q: Req): State
    requires q in s.requests
  {
    var t := s.(held := s.held - {q}, finishing := s.finishing - {q});
    var path := s.requests[q].path;
    if path !in s.loaded || s.loaded[path] >= |s.runners| then t
    else
      var r := s.loaded[path];
      var x := s.runners[r].(refCount := Decrement(s.runners[r].refCount));
      if x.refCount > 0 then t.(runners := s.runners[r := x])
      else if x.duration <= 0 then Queue(t.(runners := s.runners[r := x.(timer := false)]), r)
      else t.(runners := s.runners[r := x.(timer := true)])
  }

  function Unloaded(s: State, r: Rid): State
    requires r < |s.runners|
  {
    var x := s.runners[r];
    s.(expired := s.expired - multiset{r}, loaded := s.loaded - {x.path},
       runners := s.runners[r := x.(closed := true, timer := false)], unloads := s.unloads + 1)
  }

  /** The load of a runner is over, and its lock is released. */
  function Running(s: State, r: Rid): State
    requires r < |s.runners|
  {
    s.(runners := s.runners[r := s.runners[r].(loading := false)])
  }

  /** A timer that went off sends its event. */
  function FireSent(s: State, r: Rid): State
    requires r < |s.runners|
  {
    Queue(s.(fired := s.fired - multiset{r}, runners := s.runners[r := s.runners[r].(timer := false)]), r)
  }

  /** The state after an event, if it can happen. */
  function Apply(s: State, e: Event): Option<State> {
    match e
    case Arrive(q, x) =>
      if s.pend == Idle && q !in s.requests && x.origNumCtx == x.opts.numCtx
      then Some(s.(requests := s.requests[q := x], pend := Deciding(q))) else None
    case Again(q) =>
      if s.pend == Idle && q in s.delayed && q in s.requests && q !in s.held
      then Some(s.(delayed := s.delayed - {q}, pend := Deciding(q))) else None
    case Lookup =>
      if s.pend.Deciding? && s.pend.q in s.requests then Some(LookedUp(s, s.pend.q)) else None
    case Check(healthy) =>
      if s.pend.Found? && Free(s, s.pend.r) && s.pend.q in s.requests && s.runners[s.pend.r].numParallel > 0
      then Some(s.(pend :=
        if NeedsReload(s.runners[s.pend.r], s.requests[s.pend.q], healthy)
        then ToExpire(s.pend.q, s.pend.r) else Usable(s.pend.q, s.pend.r))) else None
    case Grant =>
      if s.pend.Usable? && Free(s, s.pend.r) && s.pend.q in s.requests
      then Some(Granted(s, s.pend.q, s.pend.r)) else None
    case Full(r) =>
      if s.pend.Missing? && 0 < s.maxRunners <= s.pend.count && Current(s, r)
      then Some(s.(pend := ToExpire(s.pend.q, r))) else None
    case FullNone =>
      if s.pend.Missing? && 0 < s.maxRunners <= s.pend.count && s.loaded == map[]
      then Some(s.(pend := Deciding(s.pend.q))) else None
    case Room(limit) =>
      if s.pend.Missing? && (s.maxRunners == 0 || s.pend.count < s.maxRunners)
      then Some(s.(pend := Placing(s.pend.q), maxRunners := if s.maxRunners == 0 then limit else s.maxRunners))
      else None
    case Load(numParallel, duration) =>
      if s.pend.Placing? && s.pend.q in s.requests && numParallel > 0
      then Some(Loaded(s, s.pend.q, numParallel, duration)) else None
    case MakeRoom(numParallel, r) =>
      if s.pend.Placing? && s.pend.q in s.requests && numParallel > 0 && Current(s, r)
      then Some(Tries(s, s.pend.q, numParallel).(pend := ToExpire(s.pend.q, r))) else None
    case MakeRoomNone(numParallel) =>
      if s.pend.Placing? && s.pend.q in s.requests && numParallel > 0 && s.loaded == map[]
      then Some(Tries(s, s.pend.q, numParallel).(pend := Deciding(s.pend.q))) else None
    case Postpone(numParallel) =>
      if s.pend.Placing? && s.pend.q in s.requests && numParallel > 0
      then Some(Tries(s, s.pend.q, numParallel).(pend := Idle, delayed := s.delayed + {s.pend.q})) else None
    case GiveUp =>
      if s.pend.Placing? then Some(s.(pend := Idle)) else None
    case Expire =>
      if s.pend.ToExpire? && Free(s, s.pend.r)
      then Some(Expiring(s, s.pend.r).(pend := Waiting(s.pend.q))) else None
    case Resume =>
      if s.pend.Waiting? && s.unloads > 0
      then Some(s.(pend := Deciding(s.pend.q), unloads := s.unloads - 1)) else None
    case Ignore =>
      if s.pend == Idle && s.unloads > 0 then Some(s.(unloads := s.unloads - 1)) else None
    case LoadDone(r) =>
      if r < |s.runners| && s.runners[r].loading
      then Some(Running(s, r)) else None
    case LoadFail(r) =>
      if r < |s.runners| && s.runners[r].loading then Some(LoadFailed(s, r)) else None
    case Cancel(q) =>
      if q in s.held && q !in s.finishing && Free(s, s.held[q])
      then Some(s.(finishing := s.finishing + {q})) else None
    case Finish(q) =>
      if q in s.finishing && q in s.requests &&
         (s.requests[q].path in s.loaded ==> Free(s, s.loaded[s.requests[q].path]))
      then Some(Finished(s, q)) else None
    case Fire(r) =>
      if r < |s.runners| && s.runners[r].timer then Some(s.(fired := s.fired + multiset{r})) else None
    case FireSend(r) =>
      if r in s.fired && Free(s, r) then Some(FireSent(s, r)) else None
    case Retry(r) =>
      if r in s.expired && Free(s, r) && s.runners[r].refCount > 0 then Some(s) else None
    case Unload(r) =>
      if r in s.expired && Free(s, r) && s.runners[r].refCount == 0 then Some(Unloaded(s, r)) else None
    case ExpireRunner(path) =>
      if path in s.loaded && Free(s, s.loaded[path]) then Some(Expiring(s, s.loaded[path])) else None
  }

  /** The state after a run of events, if each can happen in its turn. */
  function Run(s: State, es: seq<Event>): Option<State> {
    if es == [] then Some(s)
    else
      match Run(s, es[..|es| - 1])
      case None => None
      case Some(t) => Apply(t, es[|es| - 1])
  }
}
