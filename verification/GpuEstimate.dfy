/** The memory estimate as it is computed, in loops over the GPUs and the blocks. */
module GpuEstimate {
  import opened Helpers
  import opened GpuPlan
  import opened GpuProofs

  /** The quantities the estimate starts from. */
  method Prepare(gpus: seq<Gpu>, m: Model, projectors: seq<Projector>, numGPU: int, overhead: nat) returns (p: Plan)
    requires gpus != [] && 0 < m.blockCount
    ensures p == MakePlan(gpus, m, projectors, numGPU, overhead)
  {
    var projectorWeights, projectorGraph := 0, 0;
    for i := 0 to |projectors|
      invariant projectorWeights == TotalWeights(projectors[..i]) && projectorGraph == TotalGraph(projectors[..i])
    {
      assert projectors[..i + 1][..i] == projectors[..i];
      projectorWeights := projectorWeights + projectors[i].weights;
      projectorGraph := projectorGraph + projectors[i].graph;
    }
    assert projectors[..|projectors|] == projectors;
    if projectorWeights == 0 && projectorGraph == 0 {
      projectorWeights, projectorGraph := m.visionWeights, m.visionGraph;
    }
    var layerSize := 0;
    if 0 in m.blocks {
      layerSize := m.blocks[0];
    }
    layerSize := layerSize + m.kv / m.blockCount;
    var graphPartialOffload, graphFullOffload := m.graphPartial, m.graphFull;
    if graphPartialOffload == 0 {
      graphPartialOffload := m.gqa * m.kv / 6;
    }
    if graphFullOffload == 0 {
      graphFullOffload := graphPartialOffload;
    }
    if gpus[0].library == "metal" {
      graphPartialOffload := graphFullOffload;
    } else if |gpus| > 1 {
      graphFullOffload := graphPartialOffload;
    }
    var memoryLayerOutput := 0;
    if m.outputNorm.Some? {
      memoryLayerOutput := memoryLayerOutput + m.outputNorm.value;
    }
    if m.output.Some? {
      memoryLayerOutput := memoryLayerOutput + m.output.value;
    } else if m.tokenEmbd.Some? {
      memoryLayerOutput := memoryLayerOutput + m.tokenEmbd.value;
    }
    p := Plan(overhead, projectorWeights + projectorGraph, layerSize, graphPartialOffload, graphFullOffload,
              memoryLayerOutput, m, numGPU);
  }

  /** Sets memory aside on the GPUs that can hold at least one layer. */
  method Reserve(gpus: seq<Gpu>, p: Plan, gpuAllocations: array<nat>) returns (gpusWithSpace: seq<nat>)
    requires gpuAllocations.Length == |gpus| && forall i | 0 <= i < |gpus| :: gpuAllocations[i] == 0
    modifies gpuAllocations
    ensures gpusWithSpace == Eligible(gpus, p, |gpus|)
    ensures gpuAllocations[..] == Reservations(gpus, p, gpusWithSpace)
  {
    gpusWithSpace := ReserveEach(gpus, p, gpuAllocations);
    if |gpusWithSpace| > 0 {
      var gpuZeroID := gpusWithSpace[0];
      assert gpuZeroID in gpusWithSpace;
      gpuAllocations[gpuZeroID] := gpuAllocations[gpuZeroID] + p.zeroOverhead;
    }
  }

  method ReserveEach(gpus: seq<Gpu>, p: Plan, gpuAllocations: array<nat>) returns (gpusWithSpace: seq<nat>)
    requires gpuAllocations.Length == |gpus| && forall i | 0 <= i < |gpus| :: gpuAllocations[i] == 0
    modifies gpuAllocations
    ensures gpusWithSpace == Eligible(gpus, p, |gpus|)
    ensures forall j | 0 <= j < |gpus| ::
      gpuAllocations[j] == if j in gpusWithSpace then gpus[j].minimum + p.firstSize else 0
  {
    gpusWithSpace := [];
    for i := 0 to |gpus|
      invariant gpusWithSpace == Eligible(gpus, p, i)
      invariant forall j | 0 <= j < |gpus| ::
        gpuAllocations[j] == if j in gpusWithSpace then gpus[j].minimum + p.firstSize else 0
    {
      var gzo := 0;
      if |gpusWithSpace| == 0 {
        gzo := p.zeroOverhead;
      }
      if gpus[i].free < p.overhead + gzo + p.Graph() + gpus[i].minimum + 2 * p.firstSize {
        continue;
      }
      gpusWithSpace := gpusWithSpace + [i];
      gpuAllocations[i] := gpuAllocations[i] + gpus[i].minimum + p.firstSize;
    }
  }

  /** Finds a GPU for one block, dropping those that have no room for it. */
  method Distribute(gpus: seq<Gpu>, p: Plan, gpuAllocations: array<nat>, w: seq<nat>, i: nat, layerSize: nat)
    returns (gpusWithSpace: seq<nat>, g: Option<nat>)
    requires gpuAllocations.Length == |gpus| && Indices(w, |gpus|)
    ensures (gpusWithSpace, g) == Pick(gpus, p, gpuAllocations[..], w, i, layerSize)
  {
    gpusWithSpace := w;
    g := None;
    var j := |gpusWithSpace|;
    while j > 0
      invariant j == |gpusWithSpace| && Indices(gpusWithSpace, |gpus|)
      invariant Pick(gpus, p, gpuAllocations[..], w, i, layerSize)
             == Pick(gpus, p, gpuAllocations[..], gpusWithSpace, i, layerSize)
    {
      var c := gpusWithSpace[i % j];
      var used := gpuAllocations[c] + p.Graph();
      if gpus[c].free > p.overhead + used + layerSize {
        g := Some(c);
        return;
      }
      gpusWithSpace := Without(gpusWithSpace, i % j);
      j := j - 1;
    }
  }

  /** The arrays hold what the state says. */
  ghost predicate Mirrors(gpus: seq<Gpu>, s: State, alloc: seq<nat>, counts: seq<nat>) {
    && StateOk(gpus, s)
    && alloc == s.alloc
    && counts == Counts(s.placed, |gpus|)
  }

  lemma MirrorsPut(gpus: seq<Gpu>, s: State, w: seq<nat>, alloc: seq<nat>, counts: seq<nat>, g: nat, size: nat)
    requires Mirrors(gpus, s, alloc, counts) && g < |gpus| && Indices(w, |gpus|)
    ensures |alloc| == |counts| == |gpus|
    ensures Mirrors(gpus, Put(s.(w := w), g, size), alloc[g := alloc[g] + size], counts[g := counts[g] + 1])
  {
    var placed := s.placed + [g];
    assert placed[..|s.placed|] == s.placed;
    assert Counts(placed, |gpus|) == counts[g := counts[g] + 1];
  }

  /** Puts a layer on GPU g. */
  method PutOn(gpuAllocations: array<nat>, layerCounts: array<nat>, g: nat, size: nat)
    requires g < gpuAllocations.Length == layerCounts.Length && gpuAllocations != layerCounts
    modifies gpuAllocations, layerCounts
    ensures gpuAllocations[..] == old(gpuAllocations[..])[g := old(gpuAllocations[g]) + size]
    ensures layerCounts[..] == old(layerCounts[..])[g := old(layerCounts[g]) + 1]
  {
    gpuAllocations[g] := gpuAllocations[g] + size;
    layerCounts[g] := layerCounts[g] + 1;
  }

  /** Places the blocks of the model, one after the other. */
  method PlaceAll(gpus: seq<Gpu>, p: Plan, gpuAllocations: array<nat>, layerCounts: array<nat>, w: seq<nat>)
    returns (gpusWithSpace: seq<nat>, layerCount: nat, layerSize: nat)
    requires gpuAllocations.Length == layerCounts.Length == |gpus| && gpuAllocations != layerCounts
    requires 0 < p.model.blockCount && w == PlaceBlocks(gpus, p, 0).w
    requires Mirrors(gpus, PlaceBlocks(gpus, p, 0), gpuAllocations[..], layerCounts[..])
    modifies gpuAllocations, layerCounts
    ensures var s := PlaceBlocks(gpus, p, p.model.blockCount);
      && gpusWithSpace == s.w && layerCount == |s.placed| && Mirrors(gpus, s, gpuAllocations[..], layerCounts[..])
    ensures layerSize == p.Size(p.model.blockCount - 1)
  {
    hide PlaceBlocks, Pick, Counts, Takes;
    gpusWithSpace, layerCount, layerSize := w, 0, p.firstSize;
    NothingPlaced(gpus, p);
    for i := 0 to p.model.blockCount
      invariant layerSize == if i == 0 then p.firstSize else p.Size(i - 1)
      invariant gpusWithSpace == PlaceBlocks(gpus, p, i).w && layerCount == |PlaceBlocks(gpus, p, i).placed|
      invariant Mirrors(gpus, PlaceBlocks(gpus, p, i), gpuAllocations[..], layerCounts[..])
    {
      ghost var s := PlaceBlocks(gpus, p, i);
      NextBlock(gpus, p, i);
      if i in p.model.blocks {
        layerSize := p.model.blocks[i];
        layerSize := layerSize + p.model.kv / p.model.blockCount;
      }
      if p.numGPU >= 0 && layerCount >= p.numGPU {
        continue;
      }
      gpusWithSpace, layerCount :=
        PlaceOne(gpus, p, gpuAllocations, layerCounts, gpusWithSpace, layerCount, i, layerSize, s);
    }
  }

  /** Places one block on a GPU that has room for it, if there is one. */
  method PlaceOne(gpus: seq<Gpu>, p: Plan, gpuAllocations: array<nat>, layerCounts: array<nat>, w: seq<nat>,
                  count: nat, i: nat, layerSize: nat, ghost s: State)
    returns (gpusWithSpace: seq<nat>, layerCount: nat)
    requires gpuAllocations.Length == layerCounts.Length == |gpus| && gpuAllocations != layerCounts
    requires Mirrors(gpus, s, gpuAllocations[..], layerCounts[..]) && w == s.w && count == |s.placed|
    requires 0 < p.model.blockCount && layerSize == p.Size(i) && (p.numGPU >= 0 ==> count < p.numGPU)
    modifies gpuAllocations, layerCounts
    ensures var t := PlaceBlock(gpus, p, s, i);
      gpusWithSpace == t.w && layerCount == |t.placed| && Mirrors(gpus, t, gpuAllocations[..], layerCounts[..])
  {
    hide Pick, Counts, Takes;
    layerCount := count;
    var g;
    gpusWithSpace, g := Distribute(gpus, p, gpuAllocations, w, i, layerSize);
    if g.Some? {
      MirrorsPut(gpus, s, gpusWithSpace, gpuAllocations[..], layerCounts[..], g.value, layerSize);
      PutOn(gpuAllocations, layerCounts, g.value, layerSize);
      layerCount := layerCount + 1;
    }
  }

  lemma NothingPlaced(gpus: seq<Gpu>, p: Plan)
    requires 0 < p.model.blockCount
    ensures PlaceBlocks(gpus, p, 0).placed == []
  {
  }

  lemma NextBlock(gpus: seq<Gpu>, p: Plan, i: nat)
    requires 0 < p.model.blockCount
    ensures PlaceBlocks(gpus, p, i + 1) == PlaceBlock(gpus, p, PlaceBlocks(gpus, p, i), i)
  {
  }

  /** Looks for a GPU with room for the output layer. */
  method FindOutput(
      gpus: seq<Gpu>, p: Plan, gpuAllocations: array<nat>, gpusWithSpace: seq<nat>, layerCount: nat, ghost s: State)
    returns (g: Option<nat>)
    requires gpuAllocations.Length == |gpus| && StateOk(gpus, s) && gpuAllocations[..] == s.alloc
    requires gpusWithSpace == s.w && layerCount == |s.placed|
    ensures g == PickOutput(gpus, p, s, |s.w|)
  {
    for j := |gpusWithSpace| downto 0
      invariant PickOutput(gpus, p, s, j) == PickOutput(gpus, p, s, |s.w|)
    {
      var c := gpusWithSpace[layerCount % (j + 1)];
      var used := gpuAllocations[c] + p.Graph();
      if gpus[c].free > p.overhead + used + p.output {
        return Some(c);
      }
    }
    return None;
  }

  /** Adds the graph on every GPU in use. */
  method AddGraphs(gpuAllocations: array<nat>, layerCounts: array<nat>, graph: nat, ghost placed: seq<nat>)
    requires gpuAllocations.Length == layerCounts.Length && gpuAllocations != layerCounts
    requires layerCounts[..] == Counts(placed, layerCounts.Length)
    modifies gpuAllocations
    ensures gpuAllocations[..] == AddGraph(old(gpuAllocations[..]), placed, graph)
  {
    for i := 0 to gpuAllocations.Length
      invariant layerCounts[..] == Counts(placed, layerCounts.Length)
      invariant forall j | 0 <= j < gpuAllocations.Length ::
        gpuAllocations[j] == old(gpuAllocations[j]) + if j < i && CountOn(placed, j) > 0 then graph else 0
    {
      assert layerCounts[i] == layerCounts[..][i];
      if layerCounts[i] <= 0 {
        continue;
      }
      gpuAllocations[i] := gpuAllocations[i] + graph;
    }
  }

  method SumOf(xs: array<nat>) returns (sum: nat)
    ensures sum == Sum(xs[..])
  {
    sum := 0;
    for i := 0 to xs.Length
      invariant sum == Sum(xs[..i])
    {
      assert xs[..i + 1][..i] == xs[..i];
      sum := sum + xs[i];
    }
    assert xs[..xs.Length] == xs[..];
  }

  /** The layers left over, each taken to be as large as the last one. */
  method LeftOver(blockCount: nat, layerCount: nat, layerSize: nat) returns (overflow: nat)
    requires layerCount < blockCount
    ensures overflow == (blockCount - layerCount) * layerSize
  {
    overflow := 0;
    for i := layerCount to blockCount
      invariant overflow == (i - layerCount) * layerSize
    {
      assert (i + 1 - layerCount) * layerSize == (i - layerCount) * layerSize + layerSize;
      overflow := overflow + layerSize;
    }
  }

  /** Places the output layer, if there is room for it; the overflow is what could
      not be placed. */
  method Finish(gpus: seq<Gpu>, p: Plan, gpuAllocations: array<nat>, layerCounts: array<nat>,
                gpusWithSpace: seq<nat>, count: nat, layerSize: nat, ghost s: State)
    returns (layerCount: nat, fullyLoaded: bool, overflow: nat)
    requires gpuAllocations.Length == layerCounts.Length == |gpus| && gpuAllocations != layerCounts
    requires 0 < p.model.blockCount && layerSize == p.Size(p.model.blockCount - 1)
    requires Mirrors(gpus, s, gpuAllocations[..], layerCounts[..]) && gpusWithSpace == s.w && count == |s.placed|
    modifies gpuAllocations, layerCounts
    ensures var all := PlaceOutput(gpus, p, s);
      && Mirrors(gpus, all, gpuAllocations[..], layerCounts[..]) && layerCount == |all.placed|
      && fullyLoaded == FullyLoaded(p, s, all) && overflow == Overflow(p, s, all)
  {
    hide PickOutput, Plan.Size;
    layerCount, fullyLoaded, overflow := count, false, 0;
    if layerCount >= p.model.blockCount {
      fullyLoaded := true;
    } else {
      overflow := LeftOver(p.model.blockCount, layerCount, layerSize);
    }
    if p.output > 0 && (p.numGPU < 0 || layerCount < p.numGPU) {
      var g := FindOutput(gpus, p, gpuAllocations, gpusWithSpace, layerCount, s);
      if g.Some? {
        MirrorsPut(gpus, s, s.w, gpuAllocations[..], layerCounts[..], g.value, p.output);
        PutOn(gpuAllocations, layerCounts, g.value, p.output);
        layerCount := layerCount + 1;
      }
      if layerCount < p.model.blockCount + 1 {
        fullyLoaded := false;
        overflow := overflow + p.output;
      }
    }
  }

  /** Predicts how many layers of a model can be loaded onto GPUs of one library,
      and how much memory that takes. */
  method EstimateGPULayers(gpus: seq<Gpu>, m: Model, projectors: seq<Projector>, numGPU: int, overhead: nat)
    returns (e: Estimate)
    requires gpus != [] && 0 < m.blockCount
    ensures e == Estimated(gpus, MakePlan(gpus, m, projectors, numGPU, overhead))
  {
    hide PlaceBlocks, PlaceOutput, Overflow, FullyLoaded, Sum, AddGraph, Reservations, Eligible, MakePlan, Plan.Size;
    var p := Prepare(gpus, m, projectors, numGPU, overhead);
    PlanModel(gpus, m, projectors, numGPU, overhead);
    var layerCounts := new nat[|gpus|](_ => 0);
    var gpuAllocations := new nat[|gpus|](_ => 0);
    var gpusWithSpace := Reserve(gpus, p, gpuAllocations);
    StartMirrors(gpus, p, gpuAllocations[..], layerCounts[..]);
    var layerCount, layerSize, fullyLoaded, overflow;
    gpusWithSpace, layerCount, layerSize := PlaceAll(gpus, p, gpuAllocations, layerCounts, gpusWithSpace);
    ghost var s := PlaceBlocks(gpus, p, m.blockCount);
    layerCount, fullyLoaded, overflow :=
      Finish(gpus, p, gpuAllocations, layerCounts, gpusWithSpace, layerCount, layerSize, s);
    ghost var all := PlaceOutput(gpus, p, s);
    var graphOffload := if fullyLoaded then p.full else p.partial;
    AddGraphs(gpuAllocations, layerCounts, graphOffload, all.placed);
    var memoryRequiredPartial := SumOf(gpuAllocations);
    var memoryRequiredTotal := memoryRequiredPartial + overflow;
    if gpus[0].library == "cpu" || layerCount == 0 {
      return Estimate(0, 0, 0, memoryRequiredTotal, [], []);
    }
    return Estimate(layerCount, graphOffload, memoryRequiredPartial, memoryRequiredTotal,
                    if |gpus| > 1 then layerCounts[..] else [], gpuAllocations[..]);
  }

  lemma PlanModel(gpus: seq<Gpu>, m: Model, projectors: seq<Projector>, numGPU: int, overhead: nat)
    requires gpus != [] && 0 < m.blockCount
    ensures var p := MakePlan(gpus, m, projectors, numGPU, overhead); p.model == m && p.numGPU == numGPU
  {
  }

  lemma StartMirrors(gpus: seq<Gpu>, p: Plan, alloc: seq<nat>, counts: seq<nat>)
    requires 0 < p.model.blockCount
    requires alloc == Reservations(gpus, p, Eligible(gpus, p, |gpus|))
    requires |counts| == |gpus| && forall i | 0 <= i < |gpus| :: counts[i] == 0
    ensures PlaceBlocks(gpus, p, 0).w == Eligible(gpus, p, |gpus|)
    ensures Mirrors(gpus, PlaceBlocks(gpus, p, 0), alloc, counts)
  {
  }
}
