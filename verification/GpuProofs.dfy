/** What the placement of layers on GPUs promises. */
module GpuProofs {
  import opened GpuPlan

  // ------------------------------------------------------------------ one pick

  /** A pick drops only GPUs that have no room for the block. */
  lemma {:induction false} PickDrops(gpus: seq<Gpu>, p: Plan, alloc: seq<nat>, w: seq<nat>, i: nat, size: nat)
    requires |alloc| == |gpus| && Indices(w, |gpus|)
    ensures var r := Pick(gpus, p, alloc, w, i, size);
      && (forall g | g in r.0 :: g in w)
      && (forall g | g in w && g !in r.0 :: g < |gpus| && !Takes(gpus, p, alloc, g, size))
      && (r.1.Some? ==> Takes(gpus, p, alloc, r.1.value, size))
    decreases |w|
  {
    if w != [] && !Takes(gpus, p, alloc, w[i % |w|], size) {
      var k := i % |w|;
      PickDrops(gpus, p, alloc, Without(w, k), i, size);
      assert forall g | g in w :: g == w[k] || g in Without(w, k) by {
        forall g | g in w
          ensures g == w[k] || g in Without(w, k)
        {
          var j :| 0 <= j < |w| && w[j] == g;
          assert j < k ==> Without(w, k)[j] == g;
          assert k < j ==> Without(w, k)[j - 1] == g;
        }
      }
    }
  }

  // ------------------------------------------------------------- one GPU's share

  /** What the blocks placed on GPU g add up to; the k-th layer placed is block k. */
  function LoadOn(p: Plan, placed: seq<nat>, g: nat): nat
    requires 0 < p.model.blockCount
  {
    if placed == [] then 0
    else
      var n := |placed| - 1;
      LoadOn(p, placed[..n], g) + if placed[n] == g then p.Size(n) else 0
  }

  ghost predicate Fits(gpus: seq<Gpu>, p: Plan, alloc: seq<nat>, g: nat)
    requires g < |gpus| == |alloc|
  {
    p.overhead + alloc[g] + p.Graph() <= gpus[g].free
  }

  /** The state after n blocks, in relation to the reservations it started from. */
  ghost predicate Placed(gpus: seq<Gpu>, p: Plan, n: nat, s: State)
    requires 0 < p.model.blockCount
  {
    var w := Eligible(gpus, p, |gpus|);
    && StateOk(gpus, s)
    && |s.placed| <= n
    && (0 <= p.numGPU ==> |s.placed| <= p.numGPU)
    // the placed layers are a prefix of the model's blocks
    && (|s.placed| == n || s.w == [] || p.Enough(|s.placed|))
    && (forall g | g in s.w :: g in w)
    && (forall g | g in s.placed :: g in w)
    // memory is set aside for exactly the reservation and the placed blocks
    && (forall g | 0 <= g < |gpus| :: s.alloc[g] == Reservation(gpus, p, w, g) + LoadOn(p, s.placed, g))
    // and it fits, the graph included
    && (forall g | 0 <= g < |gpus| && g in w :: Fits(gpus, p, s.alloc, g))
    // a GPU that was dropped has no room for some block
    && (forall g | 0 <= g < |gpus| && g in w && g !in s.w ::
          exists b :: 0 <= b < n && !Takes(gpus, p, s.alloc, g, p.Size(b)))
  }

  lemma {:induction false} EligibleHasRoom(gpus: seq<Gpu>, p: Plan, n: nat)
    requires n <= |gpus|
    ensures var w := Eligible(gpus, p, n);
      && (w != [] ==> HasRoom(gpus, p, w[0], true))
      && forall g | g in w :: g < |gpus| && HasRoom(gpus, p, g, false)
  {
    if n != 0 {
      EligibleHasRoom(gpus, p, n - 1);
    }
  }

  lemma StartPlaced(gpus: seq<Gpu>, p: Plan)
    requires 0 < p.model.blockCount
    ensures Placed(gpus, p, 0, PlaceBlocks(gpus, p, 0))
  {
    EligibleHasRoom(gpus, p, |gpus|);
  }

  lemma StepDropped(gpus: seq<Gpu>, p: Plan, n: nat, s: State, g: nat)
    requires 0 < p.model.blockCount && Placed(gpus, p, n, s)
    requires g < |gpus| && g in Eligible(gpus, p, |gpus|) && g !in PlaceBlock(gpus, p, s, n).w
    ensures exists b :: 0 <= b < n + 1 && !Takes(gpus, p, PlaceBlock(gpus, p, s, n).alloc, g, p.Size(b))
  {
    var r := PlaceBlock(gpus, p, s, n);
    if !p.Enough(|s.placed|) {
      PickDrops(gpus, p, s.alloc, s.w, n, p.Size(n));
    }
    if g in s.w {
      assert !Takes(gpus, p, r.alloc, g, p.Size(n));
    } else {
      var b :| 0 <= b < n && !Takes(gpus, p, s.alloc, g, p.Size(b));
      assert !Takes(gpus, p, r.alloc, g, p.Size(b));
    }
  }

  lemma StepPlaced(gpus: seq<Gpu>, p: Plan, n: nat, s: State)
    requires 0 < p.model.blockCount && Placed(gpus, p, n, s)
    ensures Placed(gpus, p, n + 1, PlaceBlock(gpus, p, s, n))
  {
    hide Takes;
    var w, r := Eligible(gpus, p, |gpus|), PlaceBlock(gpus, p, s, n);
    forall g | 0 <= g < |gpus| && g in w && g !in r.w
      ensures exists b :: 0 <= b < n + 1 && !Takes(gpus, p, r.alloc, g, p.Size(b))
    {
      StepDropped(gpus, p, n, s, g);
    }
    StepFits(gpus, p, n, s);
  }

  lemma StepFits(gpus: seq<Gpu>, p: Plan, n: nat, s: State)
    requires 0 < p.model.blockCount && Placed(gpus, p, n, s)
    ensures var w, r := Eligible(gpus, p, |gpus|), PlaceBlock(gpus, p, s, n);
      && |r.placed| <= n + 1
      && (0 <= p.numGPU ==> |r.placed| <= p.numGPU)
      && (|r.placed| == n + 1 || r.w == [] || p.Enough(|r.placed|))
      && (forall g | g in r.w :: g in w)
      && (forall g | g in r.placed :: g in w)
      && (forall g | 0 <= g < |gpus| :: r.alloc[g] == Reservation(gpus, p, w, g) + LoadOn(p, r.placed, g))
      && (forall g | 0 <= g < |gpus| && g in w :: Fits(gpus, p, r.alloc, g))
  {
    if !p.Enough(|s.placed|) {
      PickDrops(gpus, p, s.alloc, s.w, n, p.Size(n));
      var r := PlaceBlock(gpus, p, s, n);
      if r.placed != s.placed {
        assert |s.placed| == n && r.placed[..n] == s.placed;
      }
    }
  }

  lemma {:induction false} BlocksPlaced(gpus: seq<Gpu>, p: Plan, n: nat)
    requires 0 < p.model.blockCount
    ensures Placed(gpus, p, n, PlaceBlocks(gpus, p, n))
  {
    hide Placed, PlaceBlock;
    if n == 0 {
      StartPlaced(gpus, p);
    } else {
      BlocksPlaced(gpus, p, n - 1);
      StepPlaced(gpus, p, n - 1, PlaceBlocks(gpus, p, n - 1));
    }
  }

  // --------------------------------------------------------------- adding things up

  lemma {:induction false} SumUpdate(xs: seq<nat>, i: nat, d: nat)
    requires i < |xs|
    ensures Sum(xs[i := xs[i] + d]) == Sum(xs) + d
  {
    var n := |xs| - 1;
    if i < n {
      SumUpdate(xs[..n], i, d);
      assert xs[i := xs[i] + d][..n] == xs[..n][i := xs[i] + d];
    } else {
      assert xs[i := xs[i] + d][..n] == xs[..n];
    }
  }

  lemma {:induction false} SumLeq(xs: seq<nat>, ys: seq<nat>)
    requires |xs| == |ys| && forall i | 0 <= i < |xs| :: xs[i] <= ys[i]
    ensures Sum(xs) <= Sum(ys)
  {
    if xs != [] {
      var n := |xs| - 1;
      SumLeq(xs[..n], ys[..n]);
    }
  }

  lemma {:induction false} SumZero(xs: seq<nat>)
    requires forall i | 0 <= i < |xs| :: xs[i] == 0
    ensures Sum(xs) == 0
  {
    if xs != [] {
      SumZero(xs[..|xs| - 1]);
    }
  }

  function Counts(placed: seq<nat>, n: nat): (c: seq<nat>)
    ensures |c| == n && forall i | 0 <= i < n :: c[i] == CountOn(placed, i)
  {
    seq(n, i requires 0 <= i => CountOn(placed, i))
  }

  /** The counts of the GPUs add up to the number of layers placed. */
  lemma {:induction false} CountsSum(placed: seq<nat>, n: nat)
    requires Indices(placed, n)
    ensures Sum(Counts(placed, n)) == |placed|
  {
    if placed == [] {
      SumZero(Counts(placed, n));
    } else {
      var rest, g := placed[..|placed| - 1], placed[|placed| - 1];
      CountsSum(rest, n);
      SumUpdate(Counts(rest, n), g, 1);
      assert Counts(placed, n) == Counts(rest, n)[g := Counts(rest, n)[g] + 1];
    }
  }

  lemma {:induction false} CountOnMember(placed: seq<nat>, g: nat)
    ensures CountOn(placed, g) > 0 <==> g in placed
  {
    if placed != [] {
      var n := |placed| - 1;
      CountOnMember(placed[..n], g);
      assert placed == placed[..n] + [placed[n]];
    }
  }

  /** The sizes of the first n blocks. */
  function SizesTo(p: Plan, n: nat): nat
    requires 0 < p.model.blockCount
  {
    if n == 0 then 0 else SizesTo(p, n - 1) + p.Size(n - 1)
  }

  /** A block is placed, if at all, on an eligible GPU that has room for it, and
      only behind all the blocks before it. */
  lemma PlacedWhere(gpus: seq<Gpu>, p: Plan, n: nat, s: State)
    requires 0 < p.model.blockCount && Placed(gpus, p, n, s)
    ensures StateOk(gpus, s)
    ensures var r := PlaceBlock(gpus, p, s, n);
      (r.placed == s.placed && r.alloc == s.alloc) ||
      (|s.placed| == n && exists g :: 0 <= g < |gpus| && PlacesOn(gpus, p, s, r, n, g))
  {
    PickDrops(gpus, p, s.alloc, s.w, n, p.Size(n));
    var r := PlaceBlock(gpus, p, s, n);
    if r.placed != s.placed {
      assert PlacesOn(gpus, p, s, r, n, r.placed[|s.placed|]);
    }
  }

  ghost predicate PlacesOn(gpus: seq<Gpu>, p: Plan, s: State, r: State, n: nat, g: nat)
    requires 0 < p.model.blockCount && StateOk(gpus, s) && g < |gpus|
  {
    && g in Eligible(gpus, p, |gpus|)
    && Takes(gpus, p, s.alloc, g, p.Size(n))
    && r.placed == s.placed + [g]
    && r.alloc == s.alloc[g := s.alloc[g] + p.Size(n)]
  }

  lemma {:induction false} BlocksSum(gpus: seq<Gpu>, p: Plan, n: nat)
    requires 0 < p.model.blockCount
    ensures var s := PlaceBlocks(gpus, p, n);
      Sum(s.alloc) == Sum(Reservations(gpus, p, Eligible(gpus, p, |gpus|))) + SizesTo(p, |s.placed|)
  {
    hide Placed, PlaceBlock, Sum, Reservations, Eligible, Takes;
    if n != 0 {
      var m := n - 1;
      var s := PlaceBlocks(gpus, p, m);
      BlocksSum(gpus, p, m);
      BlocksPlaced(gpus, p, m);
      PlacedWhere(gpus, p, m, s);
      var r := PlaceBlock(gpus, p, s, m);
      if g :| 0 <= g < |gpus| && PlacesOn(gpus, p, s, r, m, g) {
        SumUpdate(s.alloc, g, p.Size(m));
      }
    }
  }

  /** How many GPUs hold some layer. */
  function Used(placed: seq<nat>, n: nat): nat {
    if n == 0 then 0 else Used(placed, n - 1) + if CountOn(placed, n - 1) > 0 then 1 else 0
  }

  lemma {:induction false} GraphSum(alloc: seq<nat>, placed: seq<nat>, graph: nat, n: nat)
    requires n <= |alloc|
    ensures Sum(AddGraph(alloc, placed, graph)[..n]) == Sum(alloc[..n]) + graph * Used(placed, n)
  {
    if n != 0 {
      GraphSum(alloc, placed, graph, n - 1);
      var r := AddGraph(alloc, placed, graph);
      assert r[..n][..n - 1] == r[..n - 1] && alloc[..n][..n - 1] == alloc[..n - 1];
      assert graph * (Used(placed, n - 1) + 1) == graph * Used(placed, n - 1) + graph;
    }
  }

  // ------------------------------------------------------------- the output layer

  /** The output layer is placed only behind a complete model. */
  lemma OutputComesLast(gpus: seq<Gpu>, p: Plan)
    requires 0 < p.model.blockCount
    ensures var s := PlaceBlocks(gpus, p, p.model.blockCount);
      var all := PlaceOutput(gpus, p, s);
      && (all == s || (|s.placed| == p.model.blockCount && all.placed == s.placed + [all.placed[|s.placed|]]))
      && (all != s ==> exists g ::
            0 <= g < |gpus| && g in s.w && Takes(gpus, p, s.alloc, g, p.output) && all == Put(s, g, p.output))
  {
    BlocksPlaced(gpus, p, p.model.blockCount);
  }

  lemma FinalFits(gpus: seq<Gpu>, p: Plan, g: nat)
    requires 0 < p.model.blockCount && g < |gpus|
    ensures var s := PlaceBlocks(gpus, p, p.model.blockCount);
      var all := PlaceOutput(gpus, p, s);
      var alloc := AddGraph(all.alloc, all.placed, GraphSize(p, s, all));
      alloc[g] > 0 ==> p.overhead + alloc[g] <= gpus[g].free
  {
    var n := p.model.blockCount;
    var s := PlaceBlocks(gpus, p, n);
    var all := PlaceOutput(gpus, p, s);
    BlocksPlaced(gpus, p, n);
    OutputComesLast(gpus, p);
    CountOnMember(all.placed, g);
    if g !in Eligible(gpus, p, |gpus|) {
      NothingOn(p, s.placed, g);
    }
  }

  lemma {:induction false} NothingOn(p: Plan, placed: seq<nat>, g: nat)
    requires 0 < p.model.blockCount && g !in placed
    ensures LoadOn(p, placed, g) == 0
  {
    if placed != [] {
      NothingOn(p, placed[..|placed| - 1], g);
    }
  }

  /** On metal, and on several GPUs, it makes no difference to the graph whether
      everything is offloaded; the buffer kept on each GPU is the size of block 0. */
  lemma GraphSizesAgree(gpus: seq<Gpu>, m: Model, ps: seq<Projector>, numGPU: int, overhead: nat)
    requires gpus != [] && 0 < m.blockCount
    ensures var p := MakePlan(gpus, m, ps, numGPU, overhead);
      && (gpus[0].library == "metal" || |gpus| > 1 ==> p.partial == p.full)
      && p.Size(0) == p.firstSize
      && (forall blocks, all :: GraphSize(p, blocks, all) <= p.Graph())
  {
  }

  // ------------------------------------------------------------- main results

  /** No GPU is asked for more than it has free: what an estimate puts on a GPU,
      with the overhead to be kept free, stays within the free memory. */
  lemma NeverOvercommits(gpus: seq<Gpu>, p: Plan, g: nat)
    requires gpus != [] && 0 < p.model.blockCount && g < |gpus|
    ensures var e := Estimated(gpus, p);
      e.layers > 0 ==> |e.gpuSizes| == |gpus| && (e.gpuSizes[g] > 0 ==> p.overhead + e.gpuSizes[g] <= gpus[g].free)
  {
    FinalFits(gpus, p, g);
  }

  /** The number of layers: never more than the model has or than were asked for,
      and the sum of what the GPUs hold. */
  lemma LayersAreCounted(gpus: seq<Gpu>, p: Plan)
    requires gpus != [] && 0 < p.model.blockCount
    ensures var e := Estimated(gpus, p);
      && e.layers <= p.model.blockCount + 1
      && (0 <= p.numGPU ==> e.layers <= p.numGPU)
      && (e.layers > 0 && |gpus| > 1 ==> Sum(e.split) == e.layers)
  {
    var n := p.model.blockCount;
    BlocksPlaced(gpus, p, n);
    OutputComesLast(gpus, p);
    var all := PlaceOutput(gpus, p, PlaceBlocks(gpus, p, n));
    CountsSum(all.placed, |gpus|);
    if |gpus| > 1 && Estimated(gpus, p).layers > 0 {
      assert Estimated(gpus, p).split == Counts(all.placed, |gpus|);
    }
  }

  lemma FinalSum(gpus: seq<Gpu>, p: Plan)
    requires 0 < p.model.blockCount
    ensures var s := PlaceBlocks(gpus, p, p.model.blockCount);
      var all := PlaceOutput(gpus, p, s);
      Sum(all.alloc) == Sum(Reservations(gpus, p, Eligible(gpus, p, |gpus|))) + SizesTo(p, |s.placed|)
        + (if |all.placed| > |s.placed| then p.output else 0)
  {
    hide PlaceBlocks, PlaceOutput, Sum, Reservations;
    var s := PlaceBlocks(gpus, p, p.model.blockCount);
    var all := PlaceOutput(gpus, p, s);
    BlocksSum(gpus, p, p.model.blockCount);
    OutputComesLast(gpus, p);
    if all != s {
      var g :| 0 <= g < |gpus| && g in s.w && Takes(gpus, p, s.alloc, g, p.output) && all == Put(s, g, p.output);
      SumUpdate(s.alloc, g, p.output);
    }
  }

  lemma WithGraphSum(alloc: seq<nat>, placed: seq<nat>, graph: nat)
    ensures Sum(AddGraph(alloc, placed, graph)) == Sum(alloc) + graph * Used(placed, |alloc|)
  {
    var r := AddGraph(alloc, placed, graph);
    GraphSum(alloc, placed, graph, |alloc|);
    assert alloc[..|alloc|] == alloc && r[..|alloc|] == r;
  }

  lemma NoOverflow(gpus: seq<Gpu>, p: Plan)
    requires 0 < p.model.blockCount
    ensures var s := PlaceBlocks(gpus, p, p.model.blockCount);
      var all := PlaceOutput(gpus, p, s);
      |all.placed| == p.model.blockCount + 1 ==> Overflow(p, s, all) == 0
  {
    hide PlaceBlocks, PlaceOutput;
    BlocksPlaced(gpus, p, p.model.blockCount);
    OutputComesLast(gpus, p);
  }

  /** The memory accounted for is what was reserved, the blocks that were placed,
      the output layer if it was, and the graph on each GPU in use. Everything
      that was not placed is overflow, so with everything placed there is none. */
  lemma MemoryIsAccounted(gpus: seq<Gpu>, p: Plan)
    requires gpus != [] && 0 < p.model.blockCount
    ensures var e := Estimated(gpus, p);
      var s := PlaceBlocks(gpus, p, p.model.blockCount);
      var all := PlaceOutput(gpus, p, s);
      && (e.layers > 0 ==>
            && e.vramSize == Sum(e.gpuSizes)
            && e.vramSize == Sum(Reservations(gpus, p, Eligible(gpus, p, |gpus|))) + SizesTo(p, |s.placed|)
                 + (if |all.placed| > |s.placed| then p.output else 0) + e.graph * Used(all.placed, |gpus|))
      && e.vramSize <= e.totalSize
      && (e.layers == p.model.blockCount + 1 ==> e.totalSize == e.vramSize)
  {
    hide PlaceBlocks, PlaceOutput, Sum, Reservations, AddGraph, Overflow, GraphSize, Used, SizesTo;
    var s := PlaceBlocks(gpus, p, p.model.blockCount);
    var all := PlaceOutput(gpus, p, s);
    FinalSum(gpus, p);
    WithGraphSum(all.alloc, all.placed, GraphSize(p, s, all));
    NoOverflow(gpus, p);
  }

  // --------------------------------------- blocks of one size: the greedy optimum

  /** How many blocks of the given size GPU g has room for beyond its reservation. */
  function Room(gpus: seq<Gpu>, p: Plan, size: nat, g: nat): nat
    requires g < |gpus| && size > 0
  {
    var base := p.overhead + Reservation(gpus, p, Eligible(gpus, p, |gpus|), g) + p.Graph();
    if g in Eligible(gpus, p, |gpus|) && gpus[g].free > base then (gpus[g].free - base - 1) / size else 0
  }

  function Rooms(gpus: seq<Gpu>, p: Plan, size: nat): (r: seq<nat>)
    requires size > 0
    ensures |r| == |gpus| && forall g | 0 <= g < |gpus| :: r[g] == Room(gpus, p, size, g)
  {
    seq(|gpus|, g requires 0 <= g < |gpus| => Room(gpus, p, size, g))
  }

  predicate Uniform(p: Plan, size: nat)
    requires 0 < p.model.blockCount
  {
    forall i | 0 <= i < p.model.blockCount :: p.Size(i) == size
  }

  lemma {:induction false} UniformLoad(p: Plan, size: nat, placed: seq<nat>, g: nat)
    requires 0 < p.model.blockCount && Uniform(p, size) && |placed| <= p.model.blockCount
    ensures LoadOn(p, placed, g) == CountOn(placed, g) * size
  {
    if placed != [] {
      var n := |placed| - 1;
      UniformLoad(p, size, placed[..n], g);
      assert (CountOn(placed[..n], g) + 1) * size == CountOn(placed[..n], g) * size + size;
    }
  }

  lemma DivRoom(avail: nat, size: nat, count: nat)
    requires size > 0
    ensures count * size <= avail <==> count <= avail / size
  {
    var q, r := avail / size, avail % size;
    assert avail == q * size + r;
    if count <= q {
      assert (q - count) * size >= 0;
      assert q * size - count * size == (q - count) * size;
    } else {
      assert (count - q - 1) * size >= 0;
      assert count * size == q * size + size + (count - q - 1) * size;
    }
  }

  lemma AllocIs(gpus: seq<Gpu>, p: Plan, size: nat, n: nat, s: State, g: nat)
    requires 0 < p.model.blockCount && Uniform(p, size) && n <= p.model.blockCount
    requires Placed(gpus, p, n, s) && g < |gpus|
    ensures |s.alloc| == |gpus|
    ensures s.alloc[g] == Reservation(gpus, p, Eligible(gpus, p, |gpus|), g) + CountOn(s.placed, g) * size
  {
    UniformLoad(p, size, s.placed, g);
  }

  lemma RoomArithmetic(free: nat, base: nat, size: nat, count: nat)
    requires size > 0
    ensures free > base + count * size + size <==> count + 1 <= (if free > base then (free - base - 1) / size else 0)
  {
    assert (count + 1) * size == count * size + size;
    assert count * size >= 0;
    if free > base {
      DivRoom(free - base - 1, size, count + 1);
    }
  }

  /** A GPU has room for another block exactly as long as it holds fewer than fit. */
  lemma TakesMeansRoom(gpus: seq<Gpu>, p: Plan, size: nat, n: nat, s: State, g: nat)
    requires 0 < p.model.blockCount && Uniform(p, size) && size > 0 && n <= p.model.blockCount
    requires Placed(gpus, p, n, s) && g < |gpus| && g in Eligible(gpus, p, |gpus|)
    ensures |s.alloc| == |gpus|
    ensures Takes(gpus, p, s.alloc, g, size) <==> CountOn(s.placed, g) + 1 <= Room(gpus, p, size, g)
  {
    hide Placed, Uniform, Reservation, CountOn;
    AllocIs(gpus, p, size, n, s, g);
    var base := p.overhead + Reservation(gpus, p, Eligible(gpus, p, |gpus|), g) + p.Graph();
    RoomArithmetic(gpus[g].free, base, size, CountOn(s.placed, g));
  }

  lemma {:induction false} UniformWithinRoom(gpus: seq<Gpu>, p: Plan, size: nat, n: nat, g: nat)
    requires 0 < p.model.blockCount && Uniform(p, size) && size > 0 && n <= p.model.blockCount
    requires g < |gpus|
    ensures CountOn(PlaceBlocks(gpus, p, n).placed, g) <= Room(gpus, p, size, g)
  {
    hide Placed, Room, Takes, Pick;
    if n != 0 {
      UniformWithinRoom(gpus, p, size, n - 1, g);
      BlocksPlaced(gpus, p, n - 1);
      PlacedWhere(gpus, p, n - 1, PlaceBlocks(gpus, p, n - 1));
      if g in Eligible(gpus, p, |gpus|) {
        TakesMeansRoom(gpus, p, size, n - 1, PlaceBlocks(gpus, p, n - 1), g);
      }
    }
  }

  /** A GPU that was dropped is as full as it can be. */
  lemma DroppedIsFull(gpus: seq<Gpu>, p: Plan, size: nat, n: nat, g: nat)
    requires 0 < p.model.blockCount && Uniform(p, size) && size > 0 && n <= p.model.blockCount
    requires g < |gpus| && g !in PlaceBlocks(gpus, p, n).w
    ensures CountOn(PlaceBlocks(gpus, p, n).placed, g) == Room(gpus, p, size, g)
  {
    var s := PlaceBlocks(gpus, p, n);
    BlocksPlaced(gpus, p, n);
    UniformWithinRoom(gpus, p, size, n, g);
    CountOnMember(s.placed, g);
    if g in Eligible(gpus, p, |gpus|) {
      TakesMeansRoom(gpus, p, size, n, s, g);
    }
  }

  /** With blocks of one size the round robin loses nothing: it places as many
      blocks as were asked for, or as many as there is room for on all the GPUs
      taken together, whichever is less. */
  lemma UniformIsOptimal(gpus: seq<Gpu>, p: Plan, size: nat)
    requires 0 < p.model.blockCount && Uniform(p, size) && size > 0
    ensures var limit := if 0 <= p.numGPU < p.model.blockCount then p.numGPU else p.model.blockCount;
      var room := Sum(Rooms(gpus, p, size));
      |PlaceBlocks(gpus, p, p.model.blockCount).placed| == if limit < room then limit else room
  {
    var n := p.model.blockCount;
    var s := PlaceBlocks(gpus, p, n);
    BlocksPlaced(gpus, p, n);
    CountsSum(s.placed, |gpus|);
    var counts, rooms := Counts(s.placed, |gpus|), Rooms(gpus, p, size);
    forall g | 0 <= g < |gpus|
      ensures counts[g] <= rooms[g] && (g !in s.w ==> counts[g] == rooms[g])
    {
      UniformWithinRoom(gpus, p, size, n, g);
      if g !in s.w {
        DroppedIsFull(gpus, p, size, n, g);
      }
    }
    SumLeq(counts, rooms);
    if s.w == [] {
      assert counts == rooms;
    }
  }
}
