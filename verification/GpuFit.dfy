/** Whether a model fits on the GPUs of some library, without unloading others. */
module GpuFit {
  import opened Helpers
  import opened GpuPlan
  import opened GpuProofs
  import opened GpuEstimate

  // ------------------------------------------------------------------ grouping

  /** GPUs are grouped by library and variant. */
  function Kind(g: Gpu): string {
    if g.variant != "" then g.library + "_" + g.variant else g.library
  }

  /** The kinds of the GPUs, in order of first appearance. */
  function Kinds(l: seq<Gpu>): seq<string> {
    if l == [] then []
    else
      var kinds := Kinds(l[..|l| - 1]);
      var k := Kind(l[|l| - 1]);
      if k in kinds then kinds else kinds + [k]
  }

  /** The GPUs of one kind, in their original order. */
  function OfKind(l: seq<Gpu>, kind: string): seq<Gpu> {
    if l == [] then []
    else OfKind(l[..|l| - 1], kind) + if Kind(l[|l| - 1]) == kind then [l[|l| - 1]] else []
  }

  function Groups(l: seq<Gpu>): (groups: seq<seq<Gpu>>)
    ensures |groups| == |Kinds(l)| && forall i | 0 <= i < |groups| :: groups[i] == OfKind(l, Kinds(l)[i])
  {
    seq(|Kinds(l)|, i requires 0 <= i < |Kinds(l)| => OfKind(l, Kinds(l)[i]))
  }

  lemma {:induction false} OfKindEmpty(l: seq<Gpu>, kind: string)
    ensures OfKind(l, kind) == [] <==> kind !in Kinds(l)
  {
    if l != [] {
      OfKindEmpty(l[..|l| - 1], kind);
    }
  }

  /** No kind is listed twice. */
  lemma {:induction false} KindsDiffer(l: seq<Gpu>, i: nat, j: nat)
    requires i < j < |Kinds(l)|
    ensures Kinds(l)[i] != Kinds(l)[j]
  {
    hide Kind;
    if j < |Kinds(l[..|l| - 1])| {
      KindsDiffer(l[..|l| - 1], i, j);
    }
  }

  lemma KindsSnoc(l: seq<Gpu>, g: Gpu)
    ensures Kinds(l + [g]) == if Kind(g) in Kinds(l) then Kinds(l) else Kinds(l) + [Kind(g)]
  {
    hide Kind;
    assert (l + [g])[..|l|] == l;
  }

  lemma OfKindSnoc(l: seq<Gpu>, g: Gpu, kind: string)
    ensures OfKind(l + [g], kind) == OfKind(l, kind) + if Kind(g) == kind then [g] else []
  {
    hide Kind;
    assert (l + [g])[..|l|] == l;
  }

  /** One more GPU joins the group of its kind, or starts one. */
  lemma GroupsJoin(l: seq<Gpu>, g: Gpu, i: nat)
    requires i < |Kinds(l)| && Kinds(l)[i] == Kind(g)
    ensures Kinds(l + [g]) == Kinds(l)
    ensures Groups(l + [g]) == Groups(l)[i := Groups(l)[i] + [g]]
  {
    hide Kind, Kinds, OfKind;
    KindsSnoc(l, g);
    forall k | 0 <= k < |Kinds(l)|
      ensures Groups(l + [g])[k] == Groups(l)[i := Groups(l)[i] + [g]][k]
    {
      OfKindSnoc(l, g, Kinds(l)[k]);
      if k < i {
        KindsDiffer(l, k, i);
      } else if i < k {
        KindsDiffer(l, i, k);
      }
    }
  }

  lemma GroupsStart(l: seq<Gpu>, g: Gpu)
    requires Kind(g) !in Kinds(l)
    ensures Kinds(l + [g]) == Kinds(l) + [Kind(g)]
    ensures Groups(l + [g]) == Groups(l) + [[g]]
  {
    hide Kind, Kinds, OfKind;
    KindsSnoc(l, g);
    OfKindEmpty(l, Kind(g));
    forall k | 0 <= k < |Kinds(l)| + 1
      ensures Groups(l + [g])[k] == (Groups(l) + [[g]])[k]
    {
      OfKindSnoc(l, g, Kinds(l + [g])[k]);
    }
  }

  method ByLibrary(l: seq<Gpu>) returns (resp: seq<seq<Gpu>>)
    ensures resp == Groups(l)
  {
    hide OfKind, Kind;
    resp := [];
    var libs: seq<string> := [];
    for n := 0 to |l|
      invariant libs == Kinds(l[..n]) && resp == Groups(l[..n])
    {
      var i := IndexOf(libs, Kind(l[n]));
      assert l[..n + 1] == l[..n] + [l[n]];
      if i < |libs| {
        GroupsJoin(l[..n], l[n], i);
        resp := resp[i := resp[i] + [l[n]]];
      } else {
        GroupsStart(l[..n], l[n]);
        libs := libs + [Kind(l[n])];
        resp := resp + [[l[n]]];
      }
    }
    assert l[..|l|] == l;
  }

  method IndexOf(libs: seq<string>, requested: string) returns (i: nat)
    ensures i <= |libs| && (i < |libs| <==> requested in libs)
    ensures i < |libs| ==> libs[i] == requested
  {
    for n := 0 to |libs|
      invariant requested !in libs[..n]
    {
      if libs[n] == requested {
        return n;
      }
    }
    return |libs|;
  }

  function Flatten(groups: seq<seq<Gpu>>): multiset<Gpu> {
    if groups == [] then multiset{} else Flatten(groups[..|groups| - 1]) + multiset(groups[|groups| - 1])
  }

  lemma {:induction false} FlattenUpdate(groups: seq<seq<Gpu>>, i: nat, g: Gpu)
    requires i < |groups|
    ensures Flatten(groups[i := groups[i] + [g]]) == Flatten(groups) + multiset{g}
  {
    var n, r := |groups| - 1, groups[i := groups[i] + [g]];
    if i < n {
      FlattenUpdate(groups[..n], i, g);
      assert r[..n] == groups[..n][i := groups[i] + [g]];
    } else {
      assert r[..n] == groups[..n];
    }
  }

  ghost predicate NoneEmpty(groups: seq<seq<Gpu>>) {
    forall i | 0 <= i < |groups| :: groups[i] != []
  }

  lemma PartitionJoin(l: seq<Gpu>, g: Gpu, i: nat)
    requires Flatten(Groups(l)) == multiset(l) && NoneEmpty(Groups(l)) && i < |Kinds(l)| && Kinds(l)[i] == Kind(g)
    ensures Flatten(Groups(l + [g])) == multiset(l) + multiset{g}
    ensures NoneEmpty(Groups(l + [g])) && Groups(l + [g]) != []
  {
    hide Kinds, OfKind, Kind, Flatten;
    FlattenUpdate(Groups(l), i, g);
    GroupsJoin(l, g, i);
  }

  lemma PartitionStart(l: seq<Gpu>, g: Gpu)
    requires Flatten(Groups(l)) == multiset(l) && NoneEmpty(Groups(l)) && Kind(g) !in Kinds(l)
    ensures Flatten(Groups(l + [g])) == multiset(l) + multiset{g}
    ensures NoneEmpty(Groups(l + [g])) && Groups(l + [g]) != []
  {
    hide Kinds, OfKind, Kind;
    GroupsStart(l, g);
    assert (Groups(l) + [[g]])[..|Groups(l)|] == Groups(l);
  }

  lemma PartitionSnoc(l: seq<Gpu>, g: Gpu)
    requires Flatten(Groups(l)) == multiset(l) && NoneEmpty(Groups(l))
    ensures Flatten(Groups(l + [g])) == multiset(l) + multiset{g}
    ensures NoneEmpty(Groups(l + [g])) && Groups(l + [g]) != []
  {
    hide *;
    if Kind(g) in Kinds(l) {
      var i :| 0 <= i < |Kinds(l)| && Kinds(l)[i] == Kind(g);
      PartitionJoin(l, g, i);
    } else {
      PartitionStart(l, g);
    }
  }

  lemma NothingToGroup()
    ensures Groups([]) == [] && Flatten(Groups([])) == multiset{} && NoneEmpty(Groups([]))
  {
  }

  /** Grouping loses no GPU and duplicates none, and no group is empty. */
  lemma {:induction false} GroupsPartition(l: seq<Gpu>)
    ensures Flatten(Groups(l)) == multiset(l)
    ensures NoneEmpty(Groups(l)) && (l != [] ==> Groups(l) != [])
    decreases |l|
  {
    hide *;
    if l == [] {
      NothingToGroup();
    } else {
      var rest, g := l[..|l| - 1], l[|l| - 1];
      GroupsPartition(rest);
      PartitionSnoc(rest, g);
      assert l == rest + [g];
    }
  }

  // ----------------------------------------------------------------- prediction

  /** All that an estimate depends on apart from the GPUs. */
  datatype Request = Request(m: Model, projectors: seq<Projector>, numGPU: int, overhead: nat)
  {
    /** The number of layers that makes a complete fit. */
    function Target(): int {
      if numGPU < 0 then m.blockCount + 1 else numGPU
    }
  }

  function PlanFor(gpus: seq<Gpu>, q: Request): (p: Plan)
    requires gpus != [] && 0 < q.m.blockCount
    ensures p.model == q.m && p.numGPU == q.numGPU && p.overhead == q.overhead
  {
    MakePlan(gpus, q.m, q.projectors, q.numGPU, q.overhead)
  }

  function EstimateFor(gpus: seq<Gpu>, q: Request): Estimate
    requires gpus != [] && 0 < q.m.blockCount
  {
    Estimated(gpus, PlanFor(gpus, q))
  }

  predicate FitsOn(gpus: seq<Gpu>, q: Request)
    requires 0 < q.m.blockCount
  {
    && gpus != []
    && var layers := EstimateFor(gpus, q).layers;
       layers > 0 && layers >= q.Target()
  }

  /** None of the first n groups has room for the model. */
  ghost predicate NoneFits(groups: seq<seq<Gpu>>, n: nat, q: Request)
    requires n <= |groups| && 0 < q.m.blockCount
  {
    forall i | 0 <= i < n :: !FitsOn(groups[i], q)
  }

  /** The first fitting group decides; without one, the last estimate is reported. */
  ghost predicate Predicted(groups: seq<seq<Gpu>>, q: Request, fit: bool, estimatedVRAM: nat, at: nat)
    requires 0 < q.m.blockCount
  {
    if groups == [] then !fit && estimatedVRAM == 0
    else
      && at < |groups|
      && groups[at] != []
      && estimatedVRAM == EstimateFor(groups[at], q).vramSize
      && NoneFits(groups, at, q)
      && if fit then FitsOn(groups[at], q) else at == |groups| - 1 && NoneFits(groups, |groups|, q)
  }

  method PredictServerFit(allGpus: seq<Gpu>, q: Request) returns (fit: bool, estimatedVRAM: nat, ghost at: nat)
    requires 0 < q.m.blockCount
    ensures NoneEmpty(Groups(allGpus)) && Predicted(Groups(allGpus), q, fit, estimatedVRAM, at)
    ensures fit <==> !NoneFits(Groups(allGpus), |Groups(allGpus)|, q)
  {
    hide Groups, Kinds, OfKind, Flatten, EstimateFor, FitsOn;
    fit, estimatedVRAM, at := false, 0, 0;
    var groups := ByLibrary(allGpus);
    GroupsPartition(allGpus);
    for i := 0 to |groups|
      invariant NoneFits(groups, i, q) && !fit
      invariant if i == 0 then estimatedVRAM == 0
                else at == i - 1 && estimatedVRAM == EstimateFor(groups[at], q).vramSize
    {
      fit, estimatedVRAM := EstimateOn(groups[i], q);
      at := i;
      if fit {
        return;
      }
    }
  }

  /** A complete fit is looked for on one group. */
  method EstimateOn(gpus: seq<Gpu>, q: Request) returns (fit: bool, estimatedVRAM: nat)
    requires gpus != [] && 0 < q.m.blockCount
    ensures fit == FitsOn(gpus, q) && estimatedVRAM == EstimateFor(gpus, q).vramSize
  {
    hide Estimated, MakePlan;
    var estimate := EstimateGPULayers(gpus, q.m, q.projectors, q.numGPU, q.overhead);
    var layerCount := estimate.layers;
    estimatedVRAM := estimate.vramSize;
    if q.numGPU < 0 {
      fit := layerCount > 0 && layerCount >= q.m.blockCount + 1;
    } else {
      fit := layerCount > 0 && layerCount >= q.numGPU;
    }
  }

  // ------------------------------------------------------------- what a fit means

  /** A predicted fit can be kept: on the group found, exactly the layers asked
      for are placed, and every GPU of the group has the memory for its share. */
  lemma FitIsHosted(gpus: seq<Gpu>, q: Request, g: nat)
    requires gpus != [] && 0 < q.m.blockCount && g < |gpus| && FitsOn(gpus, q)
    ensures var e := EstimateFor(gpus, q);
      && e.layers == q.Target()
      && |e.gpuSizes| == |gpus|
      && (e.gpuSizes[g] > 0 ==> q.overhead + e.gpuSizes[g] <= gpus[g].free)
      && (|gpus| > 1 ==> Sum(e.split) == e.layers)
      && (q.numGPU < 0 ==> e.totalSize == e.vramSize)
  {
    hide Estimated, MakePlan;
    var p := PlanFor(gpus, q);
    NeverOvercommits(gpus, p, g);
    LayersAreCounted(gpus, p);
    MemoryIsAccounted(gpus, p);
  }

  // ------------------------------------------------------------- the output layer

  /** Some GPU that is tried for the output layer has room for it. Only the GPUs at
      the places count mod k are tried, which need not be all that are left. */
  ghost predicate OutputFits(gpus: seq<Gpu>, p: Plan, s: State, j: nat)
    requires |s.alloc| == |gpus| && Indices(s.w, |gpus|) && j <= |s.w|
  {
    exists k :: 1 <= k <= j && TakesAt(gpus, p, s, k)
  }

  ghost predicate TakesAt(gpus: seq<Gpu>, p: Plan, s: State, k: nat)
    requires |s.alloc| == |gpus| && Indices(s.w, |gpus|) && 1 <= k <= |s.w|
  {
    Takes(gpus, p, s.alloc, s.w[|s.placed| % k], p.output)
  }

  lemma {:induction false} PickOutputIff(gpus: seq<Gpu>, p: Plan, s: State, j: nat)
    requires |s.alloc| == |gpus| && Indices(s.w, |gpus|) && j <= |s.w|
    ensures PickOutput(gpus, p, s, j).Some? <==> OutputFits(gpus, p, s, j)
  {
    hide Takes;
    if j != 0 {
      PickOutputIff(gpus, p, s, j - 1);
      assert TakesAt(gpus, p, s, j) || !TakesAt(gpus, p, s, j);
    }
  }

  /** The output layer is placed exactly when it is wanted and some GPU that is
      tried for it has room. */
  lemma OutputPlacedIff(gpus: seq<Gpu>, p: Plan)
    requires 0 < p.model.blockCount
    ensures var s := PlaceBlocks(gpus, p, p.model.blockCount);
      |PlaceOutput(gpus, p, s).placed| > |s.placed| <==> WantsOutput(p, s) && OutputFits(gpus, p, s, |s.w|)
  {
    var s := PlaceBlocks(gpus, p, p.model.blockCount);
    hide PlaceBlocks, PickOutput, OutputFits, WantsOutput;
    PickOutputIff(gpus, p, s, |s.w|);
  }

  /** When a complete fit is predicted on GPUs that are no CPU: as many blocks are
      placed as are asked for, or all of them and the output layer too. */
  lemma FitsIff(gpus: seq<Gpu>, q: Request)
    requires gpus != [] && 0 < q.m.blockCount && gpus[0].library != "cpu"
    ensures var p := PlanFor(gpus, q);
      var s := PlaceBlocks(gpus, p, q.m.blockCount);
      FitsOn(gpus, q) <==>
        if q.numGPU == 0 || q.numGPU > q.m.blockCount + 1 then false
        else if q.Target() <= q.m.blockCount then |s.placed| == q.numGPU
        else |s.placed| == q.m.blockCount && p.output > 0 && OutputFits(gpus, p, s, |s.w|)
  {
    hide MakePlan, OutputFits, PickOutput, PlaceOutput, PlaceBlocks;
    var p := PlanFor(gpus, q);
    BlocksPlaced(gpus, p, q.m.blockCount);
    OutputComesLast(gpus, p);
    OutputPlacedIff(gpus, p);
    LayersAreCounted(gpus, p);
  }

  /** With blocks of one size, for any number of layers asked for: a fit is predicted
      exactly when the GPUs taken together have room for the blocks wanted, and, if
      the output layer is wanted too, some GPU that is tried for it has room. */
  lemma UniformFit(gpus: seq<Gpu>, q: Request, size: nat)
    requires gpus != [] && 0 < q.m.blockCount && gpus[0].library != "cpu"
    requires size > 0 && Uniform(PlanFor(gpus, q), size)
    ensures var p := PlanFor(gpus, q);
      var s := PlaceBlocks(gpus, p, q.m.blockCount);
      FitsOn(gpus, q) <==>
        && q.numGPU != 0 && q.numGPU <= q.m.blockCount + 1
        && (if q.Target() <= q.m.blockCount then q.numGPU <= Sum(Rooms(gpus, p, size))
            else q.m.blockCount <= Sum(Rooms(gpus, p, size)) && p.output > 0 && OutputFits(gpus, p, s, |s.w|))
  {
    hide MakePlan, Rooms, OutputFits, FitsOn, PlaceBlocks, Uniform;
    FitsIff(gpus, q);
    UniformIsOptimal(gpus, PlanFor(gpus, q), size);
  }

  // ------------------------------------------- an output layer that is not placed

  /** Two blocks of size 10 and an output layer of size 50, with all layers asked for. */
  const SMALL: Request :=
    Request(Model(2, map[0 := 10, 1 := 10], None, Some(50), None, 0, 1, 1, 0, 0, 0), [], -1, 0)

  const PAIR: seq<Gpu> := [Gpu(60, 0, "cuda", ""), Gpu(1000, 0, "cuda", "")]

  lemma PairPlan()
    ensures PlanFor(PAIR, SMALL) == Plan(0, 0, 10, 1, 1, 50, SMALL.m, -1)
  {
  }

  lemma PairEligible()
    ensures Eligible(PAIR, PlanFor(PAIR, SMALL), 2) == [0, 1]
    ensures Reservations(PAIR, PlanFor(PAIR, SMALL), [0, 1]) == [10, 10]
  {
    PairPlan();
    hide MakePlan;
    assert Eligible(PAIR, PlanFor(PAIR, SMALL), 1) == [0];
  }

  lemma PairPlaces()
    ensures PlaceBlocks(PAIR, PlanFor(PAIR, SMALL), 2) == State([0, 1], [20, 20], [0, 1])
  {
    PairPlan();
    PairEligible();
    hide MakePlan, Eligible, Reservations;
    var p := PlanFor(PAIR, SMALL);
    assert PlaceBlocks(PAIR, p, 0) == State([0, 1], [10, 10], []);
    assert [10, 10][0 := 20] == [20, 10] && [20, 10][1 := 20] == [20, 20];
    assert PlaceBlocks(PAIR, p, 1) == State([0, 1], [20, 10], [0]);
  }

  /** The second GPU has room for the output layer but is not tried: a model that
      would fit is predicted not to. */
  lemma OutputIsNotTried()
    ensures var p := PlanFor(PAIR, SMALL);
      var s := PlaceBlocks(PAIR, p, 2);
      |s.placed| == 2 && s.w == [0, 1] && Takes(PAIR, p, s.alloc, 1, p.output)
    ensures !FitsOn(PAIR, SMALL)
  {
    PairPlan();
    PairPlaces();
    hide MakePlan, PlaceBlocks, FitsOn;
    FitsIff(PAIR, SMALL);
    assert 2 % 1 == 0 && 2 % 2 == 0;
  }

  // ------------------------------------------------------- requests that never fit

  /** The size of the output layer, which does not depend on the GPUs. */
  function OutputSize(m: Model): nat {
    OrZero(m.outputNorm) + if m.output.Some? then m.output.value else OrZero(m.tokenEmbd)
  }

  /** Requests that nothing is predicted to fit: for no layers, for more layers than
      there are, or for an output layer that has no weights. */
  predicate Hopeless(q: Request) {
    q.numGPU == 0 || q.numGPU > q.m.blockCount + 1 || (OutputSize(q.m) == 0 && q.Target() == q.m.blockCount + 1)
  }

  lemma CpuNeverFits(gpus: seq<Gpu>, q: Request)
    requires gpus != [] && 0 < q.m.blockCount && gpus[0].library == "cpu"
    ensures !FitsOn(gpus, q)
  {
    hide MakePlan, PlaceBlocks, PlaceOutput;
  }

  /** With n blocks placed on a single GPU that is large enough for all of them. */
  ghost predicate Stacked(p: Plan, n: nat, s: State)
    requires 0 < p.model.blockCount
  {
    s.w == [0] && |s.alloc| == 1 && Indices(s.placed, 1)
    && s.alloc[0] <= p.firstSize + p.zeroOverhead + SizesTo(p, n)
    && |s.placed| == if 0 <= p.numGPU < n then p.numGPU else n
  }

  /** Memory for everything that could be placed. */
  function Ample(p: Plan): nat
    requires 0 < p.model.blockCount
  {
    p.overhead + p.zeroOverhead + p.Graph() + 2 * p.firstSize + SizesTo(p, p.model.blockCount) + p.output + 1
  }

  lemma {:induction false} SizesGrow(p: Plan, n: nat, m: nat)
    requires 0 < p.model.blockCount && n <= m
    ensures SizesTo(p, n) <= SizesTo(p, m)
  {
    if n < m {
      SizesGrow(p, n, m - 1);
    }
  }

  lemma {:induction false} AmpleStacks(gpus: seq<Gpu>, p: Plan, n: nat)
    requires 0 < p.model.blockCount && n <= p.model.blockCount
    requires |gpus| == 1 && gpus[0].minimum == 0 && gpus[0].free == Ample(p)
    ensures Stacked(p, n, PlaceBlocks(gpus, p, n))
  {
    if n == 0 {
      assert Eligible(gpus, p, 1) == [0];
    } else {
      hide Plan.Size;
      AmpleStacks(gpus, p, n - 1);
      SizesGrow(p, n, p.model.blockCount);
    }
  }

  /** Any other request fits on a single GPU that is large enough. */
  lemma AmpleFits(q: Request) returns (free: nat)
    requires 0 < q.m.blockCount && !Hopeless(q)
    ensures FitsOn([Gpu(free, 0, "cuda", "")], q)
  {
    var p := PlanFor([Gpu(0, 0, "cuda", "")], q);
    free := Ample(p);
    var gpus := [Gpu(free, 0, "cuda", "")];
    assert PlanFor(gpus, q) == p && p.output == OutputSize(q.m);
    hide MakePlan, Plan.Size, FitsOn;
    AmpleStacks(gpus, p, q.m.blockCount);
    FitsIff(gpus, q);
    var s := PlaceBlocks(gpus, p, q.m.blockCount);
    if q.Target() > q.m.blockCount {
      assert TakesAt(gpus, p, s, 1);
    }
  }

  /** A request is predicted to fit on no GPUs but CPUs, however large, exactly when
      it is one of those; and on a CPU it never is. */
  lemma NeverFits(q: Request)
    requires 0 < q.m.blockCount
    ensures (forall gpus: seq<Gpu> | gpus != [] && gpus[0].library != "cpu" :: !FitsOn(gpus, q)) <==> Hopeless(q)
    ensures forall gpus: seq<Gpu> | gpus != [] && gpus[0].library == "cpu" :: !FitsOn(gpus, q)
  {
    hide FitsOn, MakePlan;
    forall gpus: seq<Gpu> | gpus != []
      ensures gpus[0].library == "cpu" || Hopeless(q) ==> !FitsOn(gpus, q)
    {
      if gpus[0].library == "cpu" {
        CpuNeverFits(gpus, q);
      } else if Hopeless(q) {
        HopelessIsHopeless(gpus, q);
      }
    }
    if !Hopeless(q) {
      var free := AmpleFits(q);
      assert FitsOn([Gpu(free, 0, "cuda", "")], q);
    }
  }

  lemma HopelessIsHopeless(gpus: seq<Gpu>, q: Request)
    requires gpus != [] && 0 < q.m.blockCount && gpus[0].library != "cpu" && Hopeless(q)
    ensures !FitsOn(gpus, q)
  {
    assert PlanFor(gpus, q).output == OutputSize(q.m);
    hide MakePlan, FitsOn, PlaceBlocks;
    FitsIff(gpus, q);
  }
}
