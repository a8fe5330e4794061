/** Choosing GPUs and a degree of parallelism for a model that is to be loaded. */
module SchedFit {
  import opened Helpers
  import opened GpuPlan
  import opened GpuFit

  const DEFAULT_PARALLEL: nat := 4

  /** A request while it is considered: trying a degree of parallelism changes the
      context it asks for. */
  class LlmRequest {
    const origNumCtx: nat
    var numCtx: nat

    constructor (numCtx: nat)
      ensures origNumCtx == numCtx && this.numCtx == numCtx
    {
      origNumCtx := numCtx;
      this.numCtx := numCtx;
    }
  }

  /** Whether a model fits on some GPUs with some context, and with how much memory. */
  type Prediction = (seq<Gpu>, nat) -> (bool, nat)

  predicate SortedByFree(gpus: seq<Gpu>) {
    |gpus| < 2 || (gpus[0].free >= gpus[1].free && SortedByFree(gpus[1..]))
  }

  function InsertByFree(gpus: seq<Gpu>, g: Gpu): (r: seq<Gpu>)
    ensures multiset(r) == multiset(gpus) + multiset{g}
  {
    if gpus == [] || gpus[0].free < g.free then [g] + gpus
    else
      assert gpus == [gpus[0]] + gpus[1..];
      [gpus[0]] + InsertByFree(gpus[1..], g)
  }

  lemma {:induction false} InsertSorted(gpus: seq<Gpu>, g: Gpu)
    requires SortedByFree(gpus)
    ensures SortedByFree(InsertByFree(gpus, g))
  {
    if gpus != [] && gpus[0].free >= g.free {
      var rest := InsertByFree(gpus[1..], g);
      InsertSorted(gpus[1..], g);
      assert InsertByFree(gpus, g)[1..] == rest;
    }
  }

  ghost predicate Descending(gpus: seq<Gpu>) {
    forall i, j | 0 <= i < j < |gpus| :: gpus[i].free >= gpus[j].free
  }

  /** No GPU comes before one with more free memory. */
  lemma {:induction false} SortedMeans(gpus: seq<Gpu>)
    ensures SortedByFree(gpus) <==> Descending(gpus)
  {
    if |gpus| < 2 {
      assert Descending(gpus);
    } else {
      hide Descending;
      SortedMeans(gpus[1..]);
      assert gpus == [gpus[0]] + gpus[1..];
      HeadDescends(gpus[0], gpus[1..]);
    }
  }

  lemma HeadDescends(g: Gpu, tail: seq<Gpu>)
    requires tail != []
    ensures Descending([g] + tail) <==> g.free >= tail[0].free && Descending(tail)
  {
    var all := [g] + tail;
    assert all[0] == g && forall i | 0 <= i < |tail| :: tail[i] == all[i + 1];
    if Descending(all) {
      assert all[1] == tail[0] && all[0].free >= all[1].free;
      forall i, j | 0 <= i < j < |tail|
        ensures tail[i].free >= tail[j].free
      {
        assert all[i + 1].free >= all[j + 1].free;
      }
    }
    if g.free >= tail[0].free && Descending(tail) {
      forall i, j | 0 <= i < j < |all|
        ensures all[i].free >= all[j].free
      {
        assert all[j] == tail[j - 1] && tail[0].free >= tail[j - 1].free;
      }
    }
  }

  /** Larger amounts of free memory first. */
  method SortByFree(gpus: seq<Gpu>) returns (sorted: seq<Gpu>)
    ensures multiset(sorted) == multiset(gpus) && SortedByFree(sorted)
  {
    hide InsertByFree, SortedByFree;
    sorted := [];
    EmptySorted();
    for i := 0 to |gpus|
      invariant multiset(sorted) == multiset(gpus[..i]) && SortedByFree(sorted)
    {
      assert gpus[..i + 1] == gpus[..i] + [gpus[i]];
      InsertSorted(sorted, gpus[i]);
      sorted := InsertByFree(sorted, gpus[i]);
    }
    assert gpus[..|gpus|] == gpus;
  }

  lemma EmptySorted()
    ensures SortedByFree([])
  {
  }

  /** The degrees of parallelism to try: the one given, or the default and then 1. */
  function ToTry(numParallel: int): (ps: seq<nat>)
    ensures ps != [] && forall i | 0 <= i < |ps| :: ps[i] > 0
  {
    if numParallel <= 0 then [DEFAULT_PARALLEL, 1] else [numParallel]
  }

  /** No way to place the model on one group fits with the first n degrees. */
  ghost predicate NoneSingle(gl: seq<Gpu>, orig: nat, ps: seq<nat>, n: nat, fits: Prediction)
    requires n <= |ps|
  {
    forall i, g | 0 <= i < n && g in gl :: !fits([g], orig * ps[i]).0
  }

  ghost predicate NoneWhole(gl: seq<Gpu>, orig: nat, ps: seq<nat>, n: nat, fits: Prediction)
    requires n <= |ps|
  {
    forall i | 0 <= i < n :: !fits(gl, orig * ps[i]).0
  }

  /** What a choice of GPUs from one group promises: the model fits on them, with the
      context for the chosen degree; a single GPU is preferred, and whatever is
      preferred to the choice does not fit. */
  ghost predicate Chosen(gl: seq<Gpu>, orig: nat, ps: seq<nat>, spread: bool, fits: Prediction, gs: seq<Gpu>, p: nat) {
    && fits(gs, orig * p).0
    && ((!spread && (exists k :: 0 <= k < |gl| && FirstSingle(gl, k, gs, orig * p, fits)) &&
         exists i :: 0 <= i < |ps| && ps[i] == p && NoneSingle(gl, orig, ps, i, fits))
        || (gs == gl && (spread || NoneSingle(gl, orig, ps, |ps|, fits)) &&
            exists i :: 0 <= i < |ps| && ps[i] == p && NoneWhole(gl, orig, ps, i, fits)))
  }

  /** The k-th GPU alone, none before it being large enough. */
  ghost predicate FirstSingle(gl: seq<Gpu>, k: nat, gs: seq<Gpu>, ctx: nat, fits: Prediction)
    requires k < |gl|
  {
    gs == [gl[k]] && forall j | 0 <= j < k :: !fits([gl[j]], ctx).0
  }

  ghost predicate NoFit(gl: seq<Gpu>, orig: nat, ps: seq<nat>, spread: bool, fits: Prediction) {
    (spread || NoneSingle(gl, orig, ps, |ps|, fits)) && NoneWhole(gl, orig, ps, |ps|, fits)
  }

  method PickFromGroup(req: LlmRequest, gl: seq<Gpu>, ps: seq<nat>, spread: bool, fits: Prediction)
    returns (gs: Option<seq<Gpu>>, p: nat)
    requires ps != []
    modifies req
    ensures gs.Some? ==>
      Chosen(gl, req.origNumCtx, ps, spread, fits, gs.value, p) && p in ps && req.numCtx == req.origNumCtx * p
    ensures gs.None? ==> NoFit(gl, req.origNumCtx, ps, spread, fits) && req.numCtx == req.origNumCtx * ps[|ps| - 1]
  {
    for i := 0 to |ps|
      invariant spread || NoneSingle(gl, req.origNumCtx, ps, i, fits)
    {
      req.numCtx := req.origNumCtx * ps[i];
      if !spread {
        for k := 0 to |gl|
          invariant forall j | 0 <= j < k :: !fits([gl[j]], req.numCtx).0
        {
          var (ok, _) := fits([gl[k]], req.numCtx);
          if ok {
            assert FirstSingle(gl, k, [gl[k]], req.origNumCtx * ps[i], fits);
            return Some([gl[k]]), ps[i];
          }
        }
      }
    }
    for i := 0 to |ps|
      invariant NoneWhole(gl, req.origNumCtx, ps, i, fits)
      invariant i > 0 ==> req.numCtx == req.origNumCtx * ps[i - 1]
    {
      req.numCtx := req.origNumCtx * ps[i];
      var (ok, _) := fits(gl, req.numCtx);
      if ok {
        return Some(gl), ps[i];
      }
    }
    return None, ps[|ps| - 1];
  }

  /** The groups, each sorted by free memory. */
  ghost predicate SortedGroups(gls: seq<seq<Gpu>>, gpus: seq<Gpu>, n: nat) {
    n <= |Groups(gpus)| && |gls| == n &&
    forall i | 0 <= i < n :: multiset(gls[i]) == multiset(Groups(gpus)[i]) && SortedByFree(gls[i])
  }

  ghost predicate NoneFit(gls: seq<seq<Gpu>>, n: int, orig: nat, ps: seq<nat>, spread: bool, fits: Prediction) {
    n <= |gls| && forall i | 0 <= i < n :: NoFit(gls[i], orig, ps, spread, fits)
  }

  lemma NoGroups(gpus: seq<Gpu>, orig: nat, ps: seq<nat>, spread: bool, fits: Prediction)
    ensures SortedGroups([], gpus, 0) && NoneFit([], 0, orig, ps, spread, fits)
  {
  }

  lemma OneMoreGroup(gls: seq<seq<Gpu>>, gl: seq<Gpu>, gpus: seq<Gpu>, n: nat)
    requires SortedGroups(gls, gpus, n) && n < |Groups(gpus)|
    requires multiset(gl) == multiset(Groups(gpus)[n]) && SortedByFree(gl)
    ensures |gls| == n && SortedGroups(gls + [gl], gpus, n + 1)
  {
    hide Groups, SortedByFree;
  }

  lemma OneMoreNone(gls: seq<seq<Gpu>>, gl: seq<Gpu>, n: nat, orig: nat, ps: seq<nat>, spread: bool, fits: Prediction)
    requires |gls| == n && NoneFit(gls, n, orig, ps, spread, fits)
    ensures NoneFit(gls + [gl], n, orig, ps, spread, fits)
    ensures NoFit(gl, orig, ps, spread, fits) ==> NoneFit(gls + [gl], n + 1, orig, ps, spread, fits)
  {
    hide NoFit;
  }

  /** The first group, in order, that can hold the whole model, and with what degree
      of parallelism; or none, and then no group can. */
  method PickBestFullFit(req: LlmRequest, gpus: seq<Gpu>, numParallel: int, spread: bool, fits: Prediction)
    returns (gs: Option<seq<Gpu>>, p: int, ghost gls: seq<seq<Gpu>>)
    modifies req
    ensures SortedGroups(gls, gpus, |gls|)
    ensures gs.Some? ==> p in ToTry(numParallel) && req.numCtx == req.origNumCtx * p && |gls| > 0
    ensures gs.Some? ==> Chosen(gls[|gls| - 1], req.origNumCtx, ToTry(numParallel), spread, fits, gs.value, p)
    ensures gs.Some? ==> NoneFit(gls, |gls| - 1, req.origNumCtx, ToTry(numParallel), spread, fits)
    ensures gs.None? ==> p == numParallel && |gls| == |Groups(gpus)|
    ensures gs.None? ==> NoneFit(gls, |gls|, req.origNumCtx, ToTry(numParallel), spread, fits)
    ensures gs.None? && gpus != [] ==> req.numCtx == req.origNumCtx * if numParallel <= 0 then 1 else numParallel
  {
    hide Groups, Chosen, NoFit, Kinds, OfKind, Flatten, SortedByFree, SortedGroups, NoneFit;
    NoGroups(gpus, req.origNumCtx, ToTry(numParallel), spread, fits);
    var groups := ByLibrary(gpus);
    GroupsPartition(gpus);
    var ps := ToTry(numParallel);
    gls := [];
    for n := 0 to |groups|
      invariant |gls| == n && SortedGroups(gls, gpus, n)
      invariant NoneFit(gls, n, req.origNumCtx, ps, spread, fits)
      invariant n > 0 ==> req.numCtx == req.origNumCtx * ps[|ps| - 1]
    {
      var sgl := SortByFree(groups[n]);
      OneMoreGroup(gls, sgl, gpus, n);
      OneMoreNone(gls, sgl, n, req.origNumCtx, ps, spread, fits);
      gls := gls + [sgl];
      var found, q := PickFromGroup(req, sgl, ps, spread, fits);
      if found.Some? {
        return found, q, gls;
      }
    }
    return None, numParallel, gls;
  }

  /** Without a full fit, the group for which the prediction reports the most memory. */
  method PickBestPartialFit(req: LlmRequest, gpus: seq<Gpu>, numParallel: int, fits: Prediction)
    returns (gs: seq<Gpu>, p: int)
    requires gpus != []
    modifies req
    ensures p == (if numParallel <= 0 then 1 else numParallel)
    ensures req.numCtx == if numParallel <= 0 then req.origNumCtx else old(req.numCtx)
    ensures |Groups(gpus)| <= 1 ==> gs == gpus
    ensures |Groups(gpus)| > 1 ==> gs in Groups(gpus)
    ensures |Groups(gpus)| > 1 ==> forall i | 0 <= i < |Groups(gpus)| ::
      fits(Groups(gpus)[i], req.numCtx).1 <= fits(gs, req.numCtx).1
  {
    hide Groups, Kinds, OfKind, Flatten;
    p := numParallel;
    if p <= 0 {
      p := 1;
      req.numCtx := req.origNumCtx;
    }
    var byLibrary := ByLibrary(gpus);
    if |byLibrary| <= 1 {
      return gpus, p;
    }
    var bestEstimate, bestFit := 0, 0;
    for i := 0 to |byLibrary|
      invariant bestFit < |byLibrary|
      invariant forall k | 0 <= k < i :: fits(byLibrary[k], req.numCtx).1 <= bestEstimate
      invariant bestEstimate <= fits(byLibrary[bestFit], req.numCtx).1
    {
      var (_, estimatedVRAM) := fits(byLibrary[i], req.numCtx);
      if estimatedVRAM > bestEstimate {
        bestEstimate, bestFit := estimatedVRAM, i;
      }
    }
    return byLibrary[bestFit], p;
  }

  /** However the first model is placed, the context it is loaded with is the one
      first asked for, once for each parallel sequence. */
  method PlaceFirst(req: LlmRequest, gpus: seq<Gpu>, numParallel: int, spread: bool, fits: Prediction)
    returns (gs: seq<Gpu>, p: int)
    requires gpus != []
    modifies req
    ensures p > 0 && req.numCtx == req.origNumCtx * p
    ensures numParallel > 0 ==> p == numParallel
  {
    hide Groups, Chosen, NoFit, NoneFit, SortedGroups;
    var full, q, gls := PickBestFullFit(req, gpus, numParallel, spread, fits);
    if full.Some? {
      return full.value, q;
    }
    gs, p := PickBestPartialFit(req, gpus, q, fits);
  }
}
