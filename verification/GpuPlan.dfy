/** The quantities a memory estimate starts from, and the placement of layers on
    GPUs as a function of them. Sizes are natural numbers: the estimate is taken
    to stay below the range of 64-bit words. */
module GpuPlan {
  import opened Helpers

  datatype Gpu = Gpu(free: nat, minimum: nat, library: string, variant: string)

  /** What the estimate needs to know of a model file. */
  datatype Model = Model(
    blockCount: nat,
    blocks: map<nat, nat>,        // the sizes of the layers "blk.0", "blk.1", ... that are present
    outputNorm: Option<nat>,
    output: Option<nat>,
    tokenEmbd: Option<nat>,
    kv: nat,                      // size of the key-value cache, proportional to the blocks
    graphPartial: nat,
    graphFull: nat,
    gqa: nat,
    visionWeights: nat,
    visionGraph: nat)

  datatype Projector = Projector(weights: nat, graph: nat)

  datatype Plan = Plan(
    overhead: nat,                // to be kept free on every GPU
    zeroOverhead: nat,            // projectors, loaded on the first GPU only
    firstSize: nat,               // one layer's worth of memory, kept as a buffer
    partial: nat,                 // graph size for a partial offload
    full: nat,                    // graph size when everything is offloaded
    output: nat,
    model: Model,
    numGPU: int)                  // the number of layers asked for, or -1
  {
    function Graph(): nat {
      if partial > full then partial else full
    }

    /** The size of block i; a missing block is taken to be as large as the last
        one that was present. */
    function Size(i: nat): nat
      requires 0 < model.blockCount
    {
      if i in model.blocks then model.blocks[i] + model.kv / model.blockCount
      else if i == 0 then firstSize
      else Size(i - 1)
    }

    /** No more layers are wanted. */
    predicate Enough(count: nat) {
      0 <= numGPU <= count
    }
  }

  function TotalWeights(ps: seq<Projector>): nat {
    if ps == [] then 0 else TotalWeights(ps[..|ps| - 1]) + ps[|ps| - 1].weights
  }

  function TotalGraph(ps: seq<Projector>): nat {
    if ps == [] then 0 else TotalGraph(ps[..|ps| - 1]) + ps[|ps| - 1].graph
  }

  function OrZero(x: Option<nat>): nat {
    if x.Some? then x.value else 0
  }

  function MakePlan(gpus: seq<Gpu>, m: Model, ps: seq<Projector>, numGPU: int, overhead: nat): Plan
    requires gpus != [] && 0 < m.blockCount
  {
    var vision := TotalWeights(ps) == 0 && TotalGraph(ps) == 0;
    var zeroOverhead := if vision then m.visionWeights + m.visionGraph else TotalWeights(ps) + TotalGraph(ps);
    var firstSize := (if 0 in m.blocks then m.blocks[0] else 0) + m.kv / m.blockCount;
    var partial := if m.graphPartial == 0 then m.gqa * m.kv / 6 else m.graphPartial;
    var full := if m.graphFull == 0 then partial else m.graphFull;
    var metal := gpus[0].library == "metal";
    var output := OrZero(m.outputNorm) + if m.output.Some? then m.output.value else OrZero(m.tokenEmbd);
    Plan(overhead, zeroOverhead, firstSize,
         if metal then full else partial,
         if !metal && |gpus| > 1 then partial else full,
         output, m, numGPU)
  }

  // --------------------------------------------------------------- reservations

  /** GPU i can hold the graph, its minimum, a buffer and at least one layer. */
  predicate HasRoom(gpus: seq<Gpu>, p: Plan, i: nat, first: bool)
    requires i < |gpus|
  {
    gpus[i].free >= p.overhead + (if first then p.zeroOverhead else 0) + p.Graph() + gpus[i].minimum + 2 * p.firstSize
  }

  /** Those of the first n GPUs that layers may be placed on. */
  function Eligible(gpus: seq<Gpu>, p: Plan, n: nat): (w: seq<nat>)
    requires n <= |gpus|
    ensures forall k | 0 <= k < |w| :: w[k] < n
    ensures forall j, k | 0 <= j < k < |w| :: w[j] < w[k]
  {
    if n == 0 then []
    else
      var w := Eligible(gpus, p, n - 1);
      if HasRoom(gpus, p, n - 1, w == []) then w + [n - 1] else w
  }

  function Reservation(gpus: seq<Gpu>, p: Plan, w: seq<nat>, i: nat): nat
    requires i < |gpus|
  {
    if i !in w then 0
    else gpus[i].minimum + p.firstSize + if i == w[0] then p.zeroOverhead else 0
  }

  function Reservations(gpus: seq<Gpu>, p: Plan, w: seq<nat>): (alloc: seq<nat>)
    ensures |alloc| == |gpus| && forall i | 0 <= i < |gpus| :: alloc[i] == Reservation(gpus, p, w, i)
  {
    seq(|gpus|, i requires 0 <= i < |gpus| => Reservation(gpus, p, w, i))
  }

  // ------------------------------------------------------------------ placement

  predicate Takes(gpus: seq<Gpu>, p: Plan, alloc: seq<nat>, g: nat, size: nat)
    requires g < |gpus| == |alloc|
  {
    gpus[g].free > p.overhead + (alloc[g] + p.Graph()) + size
  }

  predicate Indices(w: seq<nat>, n: nat) {
    forall k | 0 <= k < |w| :: w[k] < n
  }

  function Without(w: seq<nat>, k: nat): (r: seq<nat>)
    requires k < |w|
    ensures |r| == |w| - 1
    ensures forall j | 0 <= j < |r| :: r[j] in w
  {
    w[..k] + w[k + 1..]
  }

  /** Round robin: block i goes to GPU i modulo the number of GPUs left; a GPU that
      has no room for it is dropped, and the next one is tried. */
  function Pick(gpus: seq<Gpu>, p: Plan, alloc: seq<nat>, w: seq<nat>, i: nat, size: nat): (r: (seq<nat>, Option<nat>))
    requires |alloc| == |gpus| && Indices(w, |gpus|)
    ensures Indices(r.0, |gpus|)
    ensures r.1.Some? ==> r.1.value in r.0 && r.1.value < |gpus|
    ensures r.1.None? ==> r.0 == []
    decreases |w|
  {
    if w == [] then ([], None)
    else if Takes(gpus, p, alloc, w[i % |w|], size) then (w, Some(w[i % |w|]))
    else Pick(gpus, p, alloc, Without(w, i % |w|), i, size)
  }

  /** The GPUs still considered, the memory set aside on each GPU, and where each
      placed layer went. */
  datatype State = State(w: seq<nat>, alloc: seq<nat>, placed: seq<nat>)

  ghost predicate StateOk(gpus: seq<Gpu>, s: State) {
    |s.alloc| == |gpus| && Indices(s.w, |gpus|) && Indices(s.placed, |gpus|)
  }

  function Put(s: State, g: nat, size: nat): State
    requires g < |s.alloc|
  {
    State(s.w, s.alloc[g := s.alloc[g] + size], s.placed + [g])
  }

  function PlaceBlock(gpus: seq<Gpu>, p: Plan, s: State, i: nat): (r: State)
    requires |s.alloc| == |gpus| && Indices(s.w, |gpus|) && Indices(s.placed, |gpus|) && 0 < p.model.blockCount
    ensures |r.alloc| == |gpus| && Indices(r.w, |gpus|) && Indices(r.placed, |gpus|)
  {
    if p.Enough(|s.placed|) then s
    else
      var (w, g) := Pick(gpus, p, s.alloc, s.w, i, p.Size(i));
      if g.Some? then Put(s.(w := w), g.value, p.Size(i)) else s.(w := w)
  }

  /** The state after the first n blocks of the model have been considered. */
  function PlaceBlocks(gpus: seq<Gpu>, p: Plan, n: nat): (s: State)
    requires 0 < p.model.blockCount
    ensures |s.alloc| == |gpus| && Indices(s.w, |gpus|) && Indices(s.placed, |gpus|)
  {
    if n == 0 then
      var w := Eligible(gpus, p, |gpus|);
      State(w, Reservations(gpus, p, w), [])
    else PlaceBlock(gpus, p, PlaceBlocks(gpus, p, n - 1), n - 1)
  }

  /** The GPU for the output layer, trying with j, j - 1, ... candidates. */
  function PickOutput(gpus: seq<Gpu>, p: Plan, s: State, j: nat): (g: Option<nat>)
    requires |s.alloc| == |gpus| && Indices(s.w, |gpus|) && j <= |s.w|
    ensures g.Some? ==> g.value < |gpus| && g.value in s.w && Takes(gpus, p, s.alloc, g.value, p.output)
  {
    if j == 0 then None
    else
      var g := s.w[|s.placed| % j];
      if Takes(gpus, p, s.alloc, g, p.output) then Some(g) else PickOutput(gpus, p, s, j - 1)
  }

  /** The output layer is considered at all. */
  predicate WantsOutput(p: Plan, s: State) {
    p.output > 0 && !p.Enough(|s.placed|)
  }

  function PlaceOutput(gpus: seq<Gpu>, p: Plan, s: State): (r: State)
    requires |s.alloc| == |gpus| && Indices(s.w, |gpus|) && Indices(s.placed, |gpus|)
    ensures |r.alloc| == |gpus| && Indices(r.w, |gpus|) && Indices(r.placed, |gpus|)
  {
    var g := PickOutput(gpus, p, s, |s.w|);
    if WantsOutput(p, s) && g.Some? then Put(s, g.value, p.output) else s
  }

  function CountOn(placed: seq<nat>, g: nat): nat {
    if placed == [] then 0
    else CountOn(placed[..|placed| - 1], g) + if placed[|placed| - 1] == g then 1 else 0
  }

  /** Everything ended up on the GPUs. */
  predicate FullyLoaded(p: Plan, blocks: State, all: State) {
    && |blocks.placed| >= p.model.blockCount
    && (WantsOutput(p, blocks) ==> |all.placed| >= p.model.blockCount + 1)
  }

  /** Adds the graph to what is set aside on every GPU in use. */
  function AddGraph(alloc: seq<nat>, placed: seq<nat>, graph: nat): (r: seq<nat>)
    ensures |r| == |alloc|
    ensures forall i | 0 <= i < |alloc| :: r[i] == alloc[i] + if CountOn(placed, i) > 0 then graph else 0
  {
    seq(|alloc|, i requires 0 <= i < |alloc| => alloc[i] + if CountOn(placed, i) > 0 then graph else 0)
  }

  function GraphSize(p: Plan, blocks: State, all: State): nat {
    if FullyLoaded(p, blocks, all) then p.full else p.partial
  }

  function Overflow(p: Plan, blocks: State, all: State): nat
    requires 0 < p.model.blockCount
  {
    (if |blocks.placed| < p.model.blockCount
     then (p.model.blockCount - |blocks.placed|) * p.Size(p.model.blockCount - 1) else 0) +
    (if WantsOutput(p, blocks) && |all.placed| < p.model.blockCount + 1 then p.output else 0)
  }

  function Sum(xs: seq<nat>): nat {
    if xs == [] then 0 else Sum(xs[..|xs| - 1]) + xs[|xs| - 1]
  }

  datatype Estimate = Estimate(
    layers: nat, graph: nat, vramSize: nat, totalSize: nat, split: seq<nat>, gpuSizes: seq<nat>)

  /** The estimate for GPUs of one library. */
  function Estimated(gpus: seq<Gpu>, p: Plan): Estimate
    requires gpus != [] && 0 < p.model.blockCount
  {
    var blocks := PlaceBlocks(gpus, p, p.model.blockCount);
    var all := PlaceOutput(gpus, p, blocks);
    var alloc := AddGraph(all.alloc, all.placed, GraphSize(p, blocks, all));
    var total := Sum(alloc) + Overflow(p, blocks, all);
    if gpus[0].library == "cpu" || |all.placed| == 0 then Estimate(0, 0, 0, total, [], [])
    else Estimate(
        |all.placed|,
        GraphSize(p, blocks, all),
        Sum(alloc),
        total,
        if |gpus| > 1 then seq(|gpus|, i requires 0 <= i < |gpus| => CountOn(all.placed, i)) else [],
        alloc)
  }
}
