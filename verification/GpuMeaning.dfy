/** What an estimate says, told from the request and the GPUs alone. */
module GpuMeaning {
  import opened Helpers
  import opened GpuPlan
  import opened GpuProofs
  import opened GpuFit

  // ------------------------------------------------------- the sizes of the parts

  /** Block j is the last one up to block i whose size is known. */
  ghost predicate LastPresent(m: Model, i: nat, j: int) {
    0 <= j <= i && j in m.blocks && forall k | j < k <= i :: k !in m.blocks
  }

  /** Block i takes what the last known block takes, and its share of the cache. */
  ghost predicate IsBlock(m: Model, i: nat, size: nat)
    requires 0 < m.blockCount
  {
    if exists j :: LastPresent(m, i, j)
    then exists j :: LastPresent(m, i, j) && size == m.blocks[j] + m.kv / m.blockCount
    else size == m.kv / m.blockCount
  }

  ghost predicate HasProjector(q: Request) {
    exists i :: 0 <= i < |q.projectors| && (q.projectors[i].weights > 0 || q.projectors[i].graph > 0)
  }

  ghost function Requirements(ps: seq<Projector>): (r: seq<nat>)
    ensures |r| == |ps| && forall i | 0 <= i < |r| :: r[i] == ps[i].weights + ps[i].graph
  {
    seq(|ps|, i requires 0 <= i < |ps| => ps[i].weights + ps[i].graph)
  }

  /** The weights and graphs of all projectors; without any, of the vision part. */
  ghost function ProjectorBytes(q: Request): nat {
    if HasProjector(q)
    then Sum(Requirements(q.projectors))
    else q.m.visionWeights + q.m.visionGraph
  }

  ghost predicate IsPartialGraph(m: Model, size: nat) {
    (m.graphPartial > 0 ==> size == m.graphPartial) && (m.graphPartial == 0 ==> size == m.gqa * m.kv / 6)
  }

  ghost predicate IsFullGraph(m: Model, size: nat) {
    (m.graphFull > 0 ==> size == m.graphFull) && (m.graphFull == 0 ==> IsPartialGraph(m, size))
  }

  /** The graph of a partial and of a full offload; several GPUs always use the
      partial one, and on metal there is no difference to the full one. */
  ghost predicate AreGraphs(gpus: seq<Gpu>, m: Model, partial: nat, full: nat)
    requires gpus != []
  {
    if gpus[0].library == "metal" then IsFullGraph(m, partial) && full == partial
    else if |gpus| > 1 then IsPartialGraph(m, partial) && full == partial
    else IsPartialGraph(m, partial) && IsFullGraph(m, full)
  }

  /** The output layer: its norm, and its weights or else those of the embedding. */
  ghost predicate IsOutput(m: Model, size: nat) {
    var norm := if m.outputNorm.Some? then m.outputNorm.value else 0;
    && (m.output.Some? ==> size == norm + m.output.value)
    && (m.output.None? && m.tokenEmbd.Some? ==> size == norm + m.tokenEmbd.value)
    && (m.output.None? && m.tokenEmbd.None? ==> size == norm)
  }

  /** The sizes that an estimate depends on. */
  datatype Footprint = Footprint(first: nat, last: nat, projectors: nat, partial: nat, full: nat, output: nat)
  {
    function Graph(): nat {
      if partial > full then partial else full
    }
  }

  ghost predicate IsFootprint(gpus: seq<Gpu>, q: Request, f: Footprint)
    requires gpus != [] && 0 < q.m.blockCount
  {
    && IsBlock(q.m, 0, f.first) && IsBlock(q.m, q.m.blockCount - 1, f.last)
    && f.projectors == ProjectorBytes(q)
    && AreGraphs(gpus, q.m, f.partial, f.full)
    && IsOutput(q.m, f.output)
  }

  // ------------------------------------------------------------ what goes where

  /** The sizes of those layers that are on GPU g. */
  function SumOn(sizes: seq<nat>, placed: seq<nat>, g: nat): nat
    requires |sizes| == |placed|
  {
    if placed == [] then 0
    else
      var n := |placed| - 1;
      SumOn(sizes[..n], placed[..n], g) + if placed[n] == g then sizes[n] else 0
  }

  ghost predicate FirstIn(used: seq<nat>, g: nat) {
    forall h | h in used :: g <= h
  }

  /** The GPUs in use are those that have room for their minimum, the graph and two
      blocks; the first of them for the projectors as well. */
  ghost predicate AreUsed(gpus: seq<Gpu>, q: Request, f: Footprint, used: seq<nat>) {
    && (forall j, k | 0 <= j < k < |used| :: used[j] < used[k])
    && (forall g | g in used :: g < |gpus|)
    && forall g | 0 <= g < |gpus| :: g in used <==>
         gpus[g].free >= q.overhead + gpus[g].minimum + f.Graph() + 2 * f.first
                         + if FirstIn(used, g) then f.projectors else 0
  }

  /** The layers placed are the blocks in order, and behind all of them the output. */
  ghost predicate AreLayers(q: Request, f: Footprint, sizes: seq<nat>)
    requires 0 < q.m.blockCount
  {
    && |sizes| <= q.m.blockCount + 1
    && forall k | 0 <= k < |sizes| ::
         if k < q.m.blockCount then IsBlock(q.m, k, sizes[k]) else f.output > 0 && sizes[k] == f.output
  }

  /** Nothing is left to be placed. */
  ghost predicate IsFull(q: Request, f: Footprint, layers: nat) {
    layers == q.m.blockCount + 1 || (layers == q.m.blockCount && (f.output == 0 || q.numGPU == q.m.blockCount))
  }

  /** The estimate is that of placing layer k, of the size sizes[k], on GPU placed[k]. */
  ghost predicate IsEstimate(gpus: seq<Gpu>, q: Request, f: Footprint, used: seq<nat>,
                             placed: seq<nat>, sizes: seq<nat>, e: Estimate)
  {
    && e.layers == |placed| == |sizes|
    && (forall k | 0 <= k < |placed| :: placed[k] in used)
    && e.graph == (if IsFull(q, f, e.layers) then f.full else f.partial)
    && |e.gpuSizes| == |gpus|
    && (forall g | 0 <= g < |gpus| :: e.gpuSizes[g] ==
          if g !in used then 0
          else gpus[g].minimum + f.first + (if g == used[0] then f.projectors else 0)
               + SumOn(sizes, placed, g) + if g in placed then e.graph else 0)
    && (forall g | 0 <= g < |gpus| && g in used :: q.overhead + e.gpuSizes[g] <= gpus[g].free)
    && e.split == (if |gpus| > 1 then Counts(placed, |gpus|) else [])
  }

  // ------------------------------------------------------------------- the proof

  lemma {:induction false} BlockIs(p: Plan, i: nat)
    requires 0 < p.model.blockCount
    requires p.firstSize == (if 0 in p.model.blocks then p.model.blocks[0] else 0) + p.model.kv / p.model.blockCount
    ensures IsBlock(p.model, i, p.Size(i))
  {
    hide IsBlock;
    if i in p.model.blocks {
      KnownBlock(p.model, i);
    } else if i == 0 {
      NoneKnown(p.model);
    } else {
      BlockIs(p, i - 1);
      SameKnown(p.model, i, p.Size(i));
    }
  }

  lemma KnownBlock(m: Model, i: nat)
    requires 0 < m.blockCount && i in m.blocks
    ensures IsBlock(m, i, m.blocks[i] + m.kv / m.blockCount)
  {
    assert LastPresent(m, i, i);
  }

  lemma NoneKnown(m: Model)
    requires 0 < m.blockCount && 0 !in m.blocks
    ensures IsBlock(m, 0, m.kv / m.blockCount)
  {
  }

  lemma SameKnown(m: Model, i: nat, size: nat)
    requires 0 < m.blockCount && i > 0 && i !in m.blocks && IsBlock(m, i - 1, size)
    ensures IsBlock(m, i, size)
  {
    if j :| LastPresent(m, i - 1, j) && size == m.blocks[j] + m.kv / m.blockCount {
      assert LastPresent(m, i, j);
    } else {
      forall j
        ensures !LastPresent(m, i, j)
      {
        assert !LastPresent(m, i - 1, j);
      }
    }
  }

  lemma {:induction false} SumOfTwo(ps: seq<Projector>)
    ensures Sum(Requirements(ps)) == TotalWeights(ps) + TotalGraph(ps)
  {
    if ps != [] {
      var n := |ps| - 1;
      SumOfTwo(ps[..n]);
      assert Requirements(ps)[..n] == Requirements(ps[..n]);
    }
  }

  lemma {:induction false} NoProjectors(ps: seq<Projector>)
    ensures TotalWeights(ps) == 0 && TotalGraph(ps) == 0 <==>
      forall i | 0 <= i < |ps| :: ps[i].weights == 0 && ps[i].graph == 0
  {
    if ps != [] {
      var n := |ps| - 1;
      NoProjectors(ps[..n]);
      assert forall i | 0 <= i < n :: ps[..n][i] == ps[i];
    }
  }

  lemma ProjectorsAre(gpus: seq<Gpu>, q: Request)
    requires gpus != [] && 0 < q.m.blockCount
    ensures PlanFor(gpus, q).zeroOverhead == ProjectorBytes(q)
  {
    hide Sum, TotalWeights, TotalGraph;
    SumOfTwo(q.projectors);
    NoProjectors(q.projectors);
    if TotalWeights(q.projectors) == 0 && TotalGraph(q.projectors) == 0 {
      assert !HasProjector(q);
    } else {
      assert HasProjector(q);
    }
  }

  lemma GraphsAre(gpus: seq<Gpu>, q: Request)
    requires gpus != [] && 0 < q.m.blockCount
    ensures AreGraphs(gpus, q.m, PlanFor(gpus, q).partial, PlanFor(gpus, q).full)
  {
  }

  lemma OutputIs(gpus: seq<Gpu>, q: Request)
    requires gpus != [] && 0 < q.m.blockCount
    ensures IsOutput(q.m, PlanFor(gpus, q).output)
  {
  }

  ghost function FootprintOf(p: Plan): Footprint
    requires 0 < p.model.blockCount
  {
    Footprint(p.firstSize, p.Size(p.model.blockCount - 1), p.zeroOverhead, p.partial, p.full, p.output)
  }

  lemma PlanBlocks(gpus: seq<Gpu>, q: Request, i: nat)
    requires gpus != [] && 0 < q.m.blockCount
    ensures IsBlock(q.m, i, PlanFor(gpus, q).Size(i)) && PlanFor(gpus, q).Size(0) == PlanFor(gpus, q).firstSize
  {
    hide IsBlock;
    BlockIs(PlanFor(gpus, q), i);
  }

  /** The sizes that the estimate starts from are those of the request. */
  lemma PlanIsFootprint(gpus: seq<Gpu>, q: Request)
    requires gpus != [] && 0 < q.m.blockCount
    ensures IsFootprint(gpus, q, FootprintOf(PlanFor(gpus, q)))
  {
    hide MakePlan, IsBlock, AreGraphs, IsOutput, ProjectorBytes;
    ProjectorsAre(gpus, q);
    GraphsAre(gpus, q);
    OutputIs(gpus, q);
    PlanBlocks(gpus, q, 0);
    PlanBlocks(gpus, q, q.m.blockCount - 1);
  }

  lemma {:induction false} EligibleIff(gpus: seq<Gpu>, p: Plan, n: nat, g: nat)
    requires g < n <= |gpus|
    ensures var w := Eligible(gpus, p, n); g in w <==> HasRoom(gpus, p, g, FirstIn(w, g))
  {
    hide HasRoom, Eligible, FirstIn;
    var before := Eligible(gpus, p, n - 1);
    EligibleStep(gpus, p, n - 1);
    OneMoreIn(before, n - 1, g);
    if g < n - 1 {
      EligibleIff(gpus, p, n - 1, g);
    } else {
      NoneBefore(before, g);
    }
  }

  lemma EligibleStep(gpus: seq<Gpu>, p: Plan, n: nat)
    requires n < |gpus|
    ensures var w := Eligible(gpus, p, n);
      && (forall h | h in w :: h < n)
      && Eligible(gpus, p, n + 1) == if HasRoom(gpus, p, n, w == []) then w + [n] else w
  {
    hide HasRoom;
  }

  lemma OneMoreIn(w: seq<nat>, n: nat, g: nat)
    requires g <= n
    ensures g < n ==> (g in w + [n] <==> g in w)
    ensures FirstIn(w + [n], g) <==> FirstIn(w, g)
  {
    assert n in w + [n];
    assert forall h | h in w :: h in w + [n];
    assert forall h | h in w + [n] :: h in w || h == n;
  }

  lemma NoneBefore(w: seq<nat>, g: nat)
    requires forall h | h in w :: h < g
    ensures g !in w && (FirstIn(w, g) <==> w == [])
  {
    if w != [] {
      assert w[0] in w;
    }
  }

  lemma EligibleAreUsed(gpus: seq<Gpu>, q: Request)
    requires gpus != [] && 0 < q.m.blockCount
    ensures AreUsed(gpus, q, FootprintOf(PlanFor(gpus, q)), Eligible(gpus, PlanFor(gpus, q), |gpus|))
  {
    hide MakePlan, FirstIn;
    var p := PlanFor(gpus, q);
    forall g | 0 <= g < |gpus|
      ensures g in Eligible(gpus, p, |gpus|) <==> HasRoom(gpus, p, g, FirstIn(Eligible(gpus, p, |gpus|), g))
    {
      EligibleIff(gpus, p, |gpus|, g);
    }
  }

  ghost function SizesOf(p: Plan, n: nat): (sizes: seq<nat>)
    requires 0 < p.model.blockCount
    ensures |sizes| == n && forall k | 0 <= k < n :: sizes[k] == if k < p.model.blockCount then p.Size(k) else p.output
  {
    seq(n, k requires 0 <= k => if k < p.model.blockCount then p.Size(k) else p.output)
  }

  lemma {:induction false} LoadIsSum(p: Plan, placed: seq<nat>, g: nat)
    requires 0 < p.model.blockCount && |placed| <= p.model.blockCount
    ensures LoadOn(p, placed, g) == SumOn(SizesOf(p, |placed|), placed, g)
  {
    hide Plan.Size;
    if placed != [] {
      var n := |placed| - 1;
      LoadIsSum(p, placed[..n], g);
      assert SizesOf(p, |placed|)[..n] == SizesOf(p, n);
    }
  }

  lemma SumOnMore(sizes: seq<nat>, placed: seq<nat>, size: nat, to: nat, g: nat)
    requires |sizes| == |placed|
    ensures SumOn(sizes + [size], placed + [to], g) == SumOn(sizes, placed, g) + if to == g then size else 0
  {
    var n := |placed|;
    assert (sizes + [size])[..n] == sizes && (placed + [to])[..n] == placed;
  }

  /** What each GPU is asked for before the graph is added. */
  lemma AllocationsAre(gpus: seq<Gpu>, p: Plan, g: nat)
    requires 0 < p.model.blockCount && g < |gpus|
    ensures var all := PlaceOutput(gpus, p, PlaceBlocks(gpus, p, p.model.blockCount));
      var w := Eligible(gpus, p, |gpus|);
      && |all.placed| <= p.model.blockCount + 1
      && (forall k | 0 <= k < |all.placed| :: all.placed[k] in w)
      && all.alloc[g] == Reservation(gpus, p, w, g) + SumOn(SizesOf(p, |all.placed|), all.placed, g)
      && (|all.placed| == p.model.blockCount + 1 ==> p.output > 0)
  {
    hide Plan.Size, Eligible, PlaceBlocks, PlaceOutput, Reservation, Takes, SumOn, LoadOn;
    var n := p.model.blockCount;
    var s := PlaceBlocks(gpus, p, n);
    var all := PlaceOutput(gpus, p, s);
    BlocksPlaced(gpus, p, n);
    OutputComesLast(gpus, p);
    OutputWanted(gpus, p, s);
    LoadIsSum(p, s.placed, g);
    if all != s {
      var to := all.placed[n];
      SumOnMore(SizesOf(p, n), s.placed, p.output, to, g);
      assert SizesOf(p, n + 1) == SizesOf(p, n) + [p.output];
    }
  }

  lemma OutputWanted(gpus: seq<Gpu>, p: Plan, s: State)
    requires StateOk(gpus, s)
    ensures PlaceOutput(gpus, p, s) != s ==> WantsOutput(p, s)
  {
  }

  lemma FullMeans(gpus: seq<Gpu>, q: Request)
    requires gpus != [] && 0 < q.m.blockCount
    ensures var p := PlanFor(gpus, q);
      var s := PlaceBlocks(gpus, p, q.m.blockCount);
      var all := PlaceOutput(gpus, p, s);
      FullyLoaded(p, s, all) <==> IsFull(q, FootprintOf(p), |all.placed|)
  {
    hide MakePlan, Plan.Size, PlaceBlocks, PlaceOutput, Takes;
    var p := PlanFor(gpus, q);
    BlocksPlaced(gpus, p, q.m.blockCount);
    OutputComesLast(gpus, p);
    OutputWanted(gpus, p, PlaceBlocks(gpus, p, q.m.blockCount));
  }

  /** An estimate that places layers is what its request makes of the GPUs: the GPUs in
      use hold their minimum, one block as a buffer, on the first of them the
      projectors, the layers placed there and, with layers, the graph; and all that
      is within their free memory. What is not placed is counted beside it. */
  lemma EstimateMeans(gpus: seq<Gpu>, q: Request)
    returns (f: Footprint, used: seq<nat>, placed: seq<nat>, sizes: seq<nat>)
    requires gpus != [] && 0 < q.m.blockCount && EstimateFor(gpus, q).layers > 0
    ensures IsFootprint(gpus, q, f) && AreUsed(gpus, q, f, used) && AreLayers(q, f, sizes)
    ensures IsEstimate(gpus, q, f, used, placed, sizes, EstimateFor(gpus, q))
  {
    hide MakePlan, Plan.Size, Eligible, PlaceBlocks, PlaceOutput, IsFootprint, AreUsed, Takes;
    var p := PlanFor(gpus, q);
    var n := q.m.blockCount;
    var s := PlaceBlocks(gpus, p, n);
    var all := PlaceOutput(gpus, p, s);
    f, used, placed := FootprintOf(p), Eligible(gpus, p, |gpus|), all.placed;
    sizes := SizesOf(p, |placed|);
    PlanIsFootprint(gpus, q);
    EligibleAreUsed(gpus, q);
    AllocationsAre(gpus, p, 0);
    LayersAre(gpus, q, |placed|);
    FullMeans(gpus, q);
    SharesAre(gpus, q);
  }

  lemma LayersAre(gpus: seq<Gpu>, q: Request, n: nat)
    requires gpus != [] && 0 < q.m.blockCount && n <= q.m.blockCount + 1
    requires n == q.m.blockCount + 1 ==> PlanFor(gpus, q).output > 0
    ensures AreLayers(q, FootprintOf(PlanFor(gpus, q)), SizesOf(PlanFor(gpus, q), n))
  {
    hide MakePlan, Plan.Size, IsBlock;
    var p := PlanFor(gpus, q);
    forall k | 0 <= k < n && k < q.m.blockCount
      ensures IsBlock(q.m, k, SizesOf(p, n)[k])
    {
      PlanBlocks(gpus, q, k);
    }
  }

  lemma SharesAre(gpus: seq<Gpu>, q: Request)
    requires gpus != [] && 0 < q.m.blockCount && EstimateFor(gpus, q).layers > 0
    ensures var p := PlanFor(gpus, q);
      var e, used := EstimateFor(gpus, q), Eligible(gpus, p, |gpus|);
      var all := PlaceOutput(gpus, p, PlaceBlocks(gpus, p, q.m.blockCount));
      && e.layers == |all.placed| && |e.gpuSizes| == |gpus|
      && e.split == (if |gpus| > 1 then Counts(all.placed, |gpus|) else [])
      && (forall g | 0 <= g < |gpus| :: e.gpuSizes[g] ==
            if g !in used then 0
            else gpus[g].minimum + p.firstSize + (if g == used[0] then p.zeroOverhead else 0)
                 + SumOn(SizesOf(p, |all.placed|), all.placed, g) + if g in all.placed then e.graph else 0)
      && (forall g | 0 <= g < |gpus| && g in used :: q.overhead + e.gpuSizes[g] <= gpus[g].free)
  {
    hide MakePlan, Plan.Size, Eligible, PlaceBlocks, PlaceOutput, Takes, SumOn;
    var p := PlanFor(gpus, q);
    var e, used := EstimateFor(gpus, q), Eligible(gpus, p, |gpus|);
    var all := PlaceOutput(gpus, p, PlaceBlocks(gpus, p, q.m.blockCount));
    forall g | 0 <= g < |gpus|
      ensures e.gpuSizes[g] ==
        if g !in used then 0
        else gpus[g].minimum + p.firstSize + (if g == used[0] then p.zeroOverhead else 0)
             + SumOn(SizesOf(p, |all.placed|), all.placed, g) + if g in all.placed then e.graph else 0
      ensures g in used ==> q.overhead + e.gpuSizes[g] <= gpus[g].free
    {
      AllocationsAre(gpus, p, g);
      CountOnMember(all.placed, g);
      FinalFits(gpus, p, g);
      if g !in used {
        NothingSummed(SizesOf(p, |all.placed|), all.placed, g);
      }
      UsedFits(gpus, p, g);
    }
  }

  lemma {:induction false} NothingSummed(sizes: seq<nat>, placed: seq<nat>, g: nat)
    requires |sizes| == |placed| && g !in placed
    ensures SumOn(sizes, placed, g) == 0
  {
    if placed != [] {
      NothingSummed(sizes[..|placed| - 1], placed[..|placed| - 1], g);
    }
  }

  lemma UsedFits(gpus: seq<Gpu>, p: Plan, g: nat)
    requires 0 < p.model.blockCount && g < |gpus|
    ensures var s := PlaceBlocks(gpus, p, p.model.blockCount);
      var all := PlaceOutput(gpus, p, s);
      g in Eligible(gpus, p, |gpus|) ==>
        p.overhead + AddGraph(all.alloc, all.placed, GraphSize(p, s, all))[g] <= gpus[g].free
  {
    hide Plan.Size, Eligible, PlaceBlocks, PlaceOutput;
    BlocksPlaced(gpus, p, p.model.blockCount);
    OutputComesLast(gpus, p);
  }

  /** What was not placed: the blocks that are left, each taken to be as large as the
      last one, and the output layer if it is wanted. */
  lemma OverflowMeans(gpus: seq<Gpu>, q: Request)
    requires gpus != [] && 0 < q.m.blockCount && EstimateFor(gpus, q).layers > 0
    ensures var e, n := EstimateFor(gpus, q), q.m.blockCount;
      var f := FootprintOf(PlanFor(gpus, q));
      && IsFootprint(gpus, q, f)
      && e.vramSize == Sum(e.gpuSizes)
      && e.totalSize == e.vramSize
           + (if e.layers < n then (n - e.layers) * f.last else 0)
           + (if e.layers <= n && f.output > 0 && (q.numGPU < 0 || e.layers < q.numGPU) then f.output else 0)
  {
    hide MakePlan, Plan.Size, PlaceBlocks, PlaceOutput, IsFootprint, Takes, Sum;
    var p := PlanFor(gpus, q);
    PlanIsFootprint(gpus, q);
    BlocksPlaced(gpus, p, q.m.blockCount);
    OutputComesLast(gpus, p);
    OutputWanted(gpus, p, PlaceBlocks(gpus, p, q.m.blockCount));
  }

  /** Without layers, and on a CPU, nothing is reported but the total. */
  lemma NothingPlaced(gpus: seq<Gpu>, q: Request)
    requires gpus != [] && 0 < q.m.blockCount
    ensures var e := EstimateFor(gpus, q);
      e.layers == 0 || gpus[0].library == "cpu" ==>
        e == Estimate(0, 0, 0, e.totalSize, [], [])
  {
    hide MakePlan, PlaceBlocks, PlaceOutput;
  }

  /** The output layer goes to the first GPU that has room for it, of those tried: the
      places count modulo n, n - 1, ... of the n that are left. */
  lemma {:induction false} OutputGoesTo(gpus: seq<Gpu>, p: Plan, s: State, j: nat)
    requires |s.alloc| == |gpus| && Indices(s.w, |gpus|) && j <= |s.w|
    ensures var g := PickOutput(gpus, p, s, j);
      if g.None? then forall k | 1 <= k <= j :: !TakesAt(gpus, p, s, k)
      else exists k ::
        && 1 <= k <= j && TakesAt(gpus, p, s, k) && g.value == s.w[|s.placed| % k]
        && forall i | k < i <= j :: !TakesAt(gpus, p, s, i)
  {
    hide Takes;
    if j != 0 {
      assert Takes(gpus, p, s.alloc, s.w[|s.placed| % j], p.output) <==> TakesAt(gpus, p, s, j);
      if !TakesAt(gpus, p, s, j) {
        OutputGoesTo(gpus, p, s, j - 1);
      }
    }
  }

  /** Where no GPU has room for the projectors beside its minimum, the graph and two
      blocks, nothing is placed, whatever the other sizes. */
  lemma ProjectorsMustFit(gpus: seq<Gpu>, q: Request, first: nat, partial: nat, full: nat)
    requires gpus != [] && 0 < q.m.blockCount
    requires IsBlock(q.m, 0, first) && AreGraphs(gpus, q.m, partial, full)
    requires forall g | 0 <= g < |gpus| ::
      gpus[g].free < q.overhead + gpus[g].minimum + (if partial > full then partial else full) + 2 * first
                     + ProjectorBytes(q)
    ensures EstimateFor(gpus, q).layers == 0 && !FitsOn(gpus, q)
  {
    hide MakePlan, Estimated, IsFootprint;
    if EstimateFor(gpus, q).layers > 0 {
      var f, used, placed, sizes := EstimateMeans(gpus, q);
      FootprintUnique(gpus, q, f, first, partial, full);
      var g := SomeUsed(gpus, q, f, used, placed[0]);
    }
  }

  /** Some GPU has room for the projectors, if one is used at all. */
  lemma SomeUsed(gpus: seq<Gpu>, q: Request, f: Footprint, used: seq<nat>, some: nat) returns (g: nat)
    requires AreUsed(gpus, q, f, used) && some in used
    ensures g < |gpus|
    ensures gpus[g].free >= q.overhead + gpus[g].minimum + f.Graph() + 2 * f.first + f.projectors
  {
    g := used[0];
    assert g in used && FirstIn(used, g);
  }

  lemma FootprintUnique(gpus: seq<Gpu>, q: Request, f: Footprint, first: nat, partial: nat, full: nat)
    requires gpus != [] && 0 < q.m.blockCount && IsFootprint(gpus, q, f)
    requires IsBlock(q.m, 0, first) && AreGraphs(gpus, q.m, partial, full)
    ensures f.first == first && f.projectors == ProjectorBytes(q) && f.partial == partial && f.full == full
  {
    hide ProjectorBytes, IsOutput;
  }

  // ------------------------------------------------------------------ round robin

  /** As long as no GPU has been dropped, the blocks go round all the GPUs in use. */
  lemma {:induction false} RoundRobin(gpus: seq<Gpu>, p: Plan, n: nat)
    requires 0 < p.model.blockCount
    ensures var s, w := PlaceBlocks(gpus, p, n), Eligible(gpus, p, |gpus|);
      |s.w| <= |w| && (|s.w| == |w| > 0 ==> s.w == w && GoesRound(w, s.placed))
  {
    hide Eligible, Placed, PlaceBlock, GoesRound;
    var w := Eligible(gpus, p, |gpus|);
    if n == 0 {
      NothingGoesRound(w);
    } else {
      RoundRobin(gpus, p, n - 1);
      BlocksPlaced(gpus, p, n - 1);
      RoundStep(gpus, p, n - 1, PlaceBlocks(gpus, p, n - 1), w);
    }
  }

  lemma RoundStep(gpus: seq<Gpu>, p: Plan, n: nat, s: State, w: seq<nat>)
    requires 0 < p.model.blockCount && Placed(gpus, p, n, s) && |s.w| <= |w|
    requires |s.w| == |w| > 0 ==> s.w == w && GoesRound(w, s.placed)
    ensures StateOk(gpus, s)
    ensures var r := PlaceBlock(gpus, p, s, n);
      |r.w| <= |w| && (|r.w| == |w| > 0 ==> r.w == w && GoesRound(w, r.placed))
  {
    InStep(gpus, p, n, s);
    hide Takes, Placed, Pick, GoesRound, Plan.Size, Put;
    if !p.Enough(|s.placed|) {
      PickSize(gpus, p, s.alloc, s.w, n, p.Size(n));
      PutIs(s, p.Size(n));
      if s.w == w != [] {
        NextGoesRound(w, s, n, p.Size(n));
      }
    }
  }

  lemma PutIs(s: State, size: nat)
    ensures forall w: seq<nat>, g: nat | g < |s.alloc| :: Put(s.(w := w), g, size).w == w
  {
  }

  ghost predicate GoesRound(w: seq<nat>, placed: seq<nat>)
    requires w != []
  {
    forall k | 0 <= k < |placed| :: placed[k] == w[k % |w|]
  }

  lemma NothingGoesRound(w: seq<nat>)
    ensures w != [] ==> GoesRound(w, [])
  {
  }

  lemma NextGoesRound(w: seq<nat>, s: State, n: nat, size: nat)
    requires w != [] && GoesRound(w, s.placed) && |s.placed| == n && w[n % |w|] < |s.alloc|
    ensures GoesRound(w, Put(s.(w := w), w[n % |w|], size).placed)
  {
  }

  lemma InStep(gpus: seq<Gpu>, p: Plan, n: nat, s: State)
    requires 0 < p.model.blockCount && Placed(gpus, p, n, s)
    ensures StateOk(gpus, s) && (!p.Enough(|s.placed|) && s.w != [] ==> |s.placed| == n)
  {
  }

  lemma {:induction false} PickSize(gpus: seq<Gpu>, p: Plan, alloc: seq<nat>, w: seq<nat>, i: nat, size: nat)
    requires |alloc| == |gpus| && Indices(w, |gpus|)
    ensures var r := Pick(gpus, p, alloc, w, i, size);
      |r.0| <= |w| && (|r.0| == |w| > 0 ==> r.0 == w && r.1 == Some(w[i % |w|]))
    decreases |w|
  {
    if w != [] && !Takes(gpus, p, alloc, w[i % |w|], size) {
      PickSize(gpus, p, alloc, Without(w, i % |w|), i, size);
    }
  }

  // ---------------------------------------------------------------------- groups

  /** GPUs are of one kind exactly when library and variant agree, if the names of
      libraries have no underscore. */
  lemma KindMeans(a: Gpu, b: Gpu)
    requires '_' !in a.library && '_' !in b.library
    ensures Kind(a) == Kind(b) <==> a.library == b.library && a.variant == b.variant
  {
    FirstUnderscore(a);
    FirstUnderscore(b);
    if Kind(a) == Kind(b) {
      assert (a.variant == "") == (b.variant == "");
      if a.variant != "" {
        var k := Kind(a);
        SameCut(a.library, b.library, a.variant, b.variant, k);
      }
    }
  }

  lemma FirstUnderscore(g: Gpu)
    requires '_' !in g.library
    ensures '_' in Kind(g) <==> g.variant != ""
  {
    if g.variant != "" {
      assert Kind(g)[|g.library|] == '_';
    }
  }

  lemma SameCut(a: string, b: string, v: string, w: string, k: string)
    requires '_' !in a && '_' !in b && k == a + "_" + v == b + "_" + w
    ensures a == b && v == w
  {
    assert forall i | 0 <= i < |a| :: k[i] == a[i] != '_';
    assert forall i | 0 <= i < |b| :: k[i] == b[i] != '_';
    assert k[|a|] == '_' && k[|b|] == '_';
    assert a == k[..|a|] && b == k[..|b|] && v == k[|a| + 1..] && w == k[|b| + 1..];
  }

  lemma {:induction false} OfKindMeans(l: seq<Gpu>, kind: string, g: Gpu)
    ensures g in OfKind(l, kind) <==> g in l && Kind(g) == kind
  {
    if l != [] {
      OfKindMeans(l[..|l| - 1], kind, g);
      assert l == l[..|l| - 1] + [l[|l| - 1]];
    }
  }

  /** at[i] is the place where kind i appears first; the kinds are all there are. */
  ghost predicate Appear(l: seq<Gpu>, kinds: seq<string>, at: seq<nat>) {
    && |at| == |kinds|
    && (forall i | 0 <= i < |at| :: at[i] < |l| && Kind(l[at[i]]) == kinds[i])
    && (forall i, j | 0 <= i < |at| && 0 <= j < at[i] :: Kind(l[j]) != kinds[i])
    && (forall i, j | 0 <= i < j < |at| :: at[i] < at[j])
    && forall j | 0 <= j < |l| :: Kind(l[j]) in kinds
  }

  lemma NewAppears(l: seq<Gpu>, g: Gpu, kinds: seq<string>, at: seq<nat>)
    requires Appear(l, kinds, at) && Kind(g) !in kinds
    ensures Appear(l + [g], kinds + [Kind(g)], at + [|l|])
  {
    hide Kind;
  }

  lemma OldAppears(l: seq<Gpu>, g: Gpu, kinds: seq<string>, at: seq<nat>)
    requires Appear(l, kinds, at) && Kind(g) in kinds
    ensures Appear(l + [g], kinds, at)
  {
    hide Kind;
  }

  lemma NoneAppears()
    ensures Appear([], [], [])
  {
  }

  /** The kinds are listed as they first appear. */
  lemma {:induction false} KindsAppear(l: seq<Gpu>) returns (at: seq<nat>)
    ensures Appear(l, Kinds(l), at)
  {
    hide Kind, Appear;
    if l == [] {
      at := [];
      NoneAppears();
    } else {
      var n := |l| - 1;
      at := KindsAppear(l[..n]);
      assert l == l[..n] + [l[n]];
      if Kind(l[n]) in Kinds(l[..n]) {
        OldAppears(l[..n], l[n], Kinds(l[..n]), at);
      } else {
        NewAppears(l[..n], l[n], Kinds(l[..n]), at);
        at := at + [n];
      }
    }
  }

  /** A group holds just the GPUs of its kind, and the groups come in the order in
      which their kinds first appear. */
  lemma GroupsMean(l: seq<Gpu>) returns (at: seq<nat>)
    ensures |at| == |Groups(l)|
    ensures forall i | 0 <= i < |at| :: at[i] < |l|
    ensures forall i, j | 0 <= i < j < |at| :: at[i] < at[j] && Kind(l[at[i]]) != Kind(l[at[j]])
    ensures forall i, g | 0 <= i < |at| :: g in Groups(l)[i] <==> g in l && Kind(g) == Kind(l[at[i]])
    ensures forall g | g in l :: exists i :: 0 <= i < |at| && g in Groups(l)[i]
  {
    hide Kind, Kinds, OfKind;
    at := KindsAppear(l);
    forall i, g | 0 <= i < |at|
      ensures g in Groups(l)[i] <==> g in l && Kind(g) == Kind(l[at[i]])
    {
      OfKindMeans(l, Kinds(l)[i], g);
    }
    forall g | g in l
      ensures exists i :: 0 <= i < |at| && g in Groups(l)[i]
    {
      var j :| 0 <= j < |l| && l[j] == g;
      assert Kind(l[j]) in Kinds(l);
      var i :| 0 <= i < |Kinds(l)| && Kinds(l)[i] == Kind(g);
      OfKindMeans(l, Kinds(l)[i], g);
    }
  }
}
