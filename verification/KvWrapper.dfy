/** Several caches driven together, with the unwind of a forward pass that some
    cache had no room for. */
module KvWrapper {
  import opened KvCells
  import opened KvDefrag
  import opened KvOps
  import opened KvIndex
  import opened KvMask
  import opened KvCausal
  import opened KvUnwind

  /** The objects that make up a cache. */
  ghost function Own(c: Causal): set<object> {
    {c, c.cells, c.rows}
  }

  class WrapperCache {
    var caches: seq<Causal>
    var curType: nat

    ghost predicate Separate()
      reads this
    {
      && (forall i | 0 <= i < |caches| :: this !in Own(caches[i]))
      && (forall i, j | 0 <= i < |caches| && 0 <= j < |caches| && i != j :: Own(caches[i]) !! Own(caches[j]))
    }

    ghost function Parts(): set<object>
      reads this
    {
      (set i | 0 <= i < |caches| :: caches[i] as object) +
      (set i | 0 <= i < |caches| :: caches[i].cells as object) +
      (set i | 0 <= i < |caches| :: caches[i].rows as object)
    }

    ghost predicate Valid()
      reads this, Parts()
    {
      Separate() && forall i | 0 <= i < |caches| :: caches[i].Valid() && NoSentinel(caches[i].cells[..])
    }

    /** Every cache can be asked for room. */
    ghost predicate Ready(n: nat)
      reads this, Parts()
    {
      forall i | 0 <= i < |caches| :: caches[i].hasLayers || HasBlock(caches[i].cells[..], Wanted(n))
    }

    /** Reserves room for the batch in every cache; maskOks says for which of them a
        mask can be made. If one (failed) refuses, the caches after it are untouched,
        and those before it are compacted and hold what they held before exactly if
        the batch lay beyond it. The one that refused has at most been compacted if
        it was full; without a mask it keeps the batch. */
    method StartForward(positions: seq<Int32>, seqs: seq<int>, maskOks: seq<bool>)
      returns (r: Outcome, ghost failed: nat)
      requires Valid() && |positions| == |seqs| && |maskOks| == |caches| && Ready(|positions|)
      requires forall k | 0 <= k < |positions| :: positions[k] < MAX_INT32
      modifies this`curType, Parts()
      ensures Valid() && failed <= |caches|
      ensures FirstFailure(old(Snapshots()), |positions|, maskOks, r, failed)
      ensures r.Pass? ==> curType == 0 && AllHold(old(Snapshots()), positions, seqs)
      ensures r.Fail? ==> AllRestored(old(Snapshots()), Snapshots(), r, failed, positions, seqs)
    {
      hide FirstFailure, AllRestored, AllHold, Beyond, Idle, Loaded, Recovered, Settled;
      hide Causal.Valid, NoSentinel, HasBlock;
      ghost var before := Snapshots();
      AllIdle(|positions|);
      var stoppedAt;
      r, stoppedAt := LoadAll(positions, seqs, maskOks, before);
      failed := stoppedAt;
      if r.Pass? {
        AllLoaded(before, positions, seqs);
      } else {
        AllRecovered(before, r, failed, positions, seqs);
      }
    }

    /** Every cache, as it was before, now also holds the batch. */
    ghost predicate AllHold(before: seq<State>, positions: seq<Int32>, seqs: seq<int>)
      requires |positions| == |seqs|
      reads this, Parts()
    {
      && |before| == |caches|
      && forall i | 0 <= i < |caches| :: Holding(before[i], caches[i].Contents(), caches[i].curLoc, positions, seqs)
    }

    ghost function Snapshots(): (r: seq<State>)
      reads this, Parts()
      ensures |r| == |caches|
    {
      seq(|caches|, i requires 0 <= i < |caches| reads this, Parts() => caches[i].Contents())
    }

    lemma AllLoaded(before: seq<State>, positions: seq<Int32>, seqs: seq<int>)
      requires Separate() && |positions| == |seqs| && |before| == |caches|
      requires forall i | 0 <= i < |caches| :: Loaded(caches[i], before[i], positions, seqs)
      ensures Valid() && AllHold(before, positions, seqs)
    {
    }

    lemma AllRecovered(before: seq<State>, r: Outcome, failed: nat, positions: seq<Int32>, seqs: seq<int>)
      requires Separate() && |positions| == |seqs| && |before| == |caches| && failed < |caches|
      requires forall i | failed < i < |caches| :: Idle(caches[i], before[i], |positions|)
      requires Settled(caches[failed], before[failed], positions, seqs, r)
      requires forall i | 0 <= i < failed ::
        Recovered(caches[i], before[i], |positions|, Beyond(before[i].cells, positions, seqs))
      ensures Valid() && AllRestored(before, Snapshots(), r, failed, positions, seqs)
    {
      hide Restored, NoSentinel, Causal.Valid, Beyond, HasBlock, Holding;
    }

    lemma AllIdle(n: nat)
      requires Valid() && Ready(n)
      ensures forall i | 0 <= i < |caches| :: Idle(caches[i], Snapshots()[i], n)
    {
    }

    method LoadAll(positions: seq<Int32>, seqs: seq<int>, maskOks: seq<bool>, ghost before: seq<State>)
      returns (r: Outcome, failed: nat)
      requires Separate() && |positions| == |seqs| && |before| == |caches| == |maskOks|
      requires forall k | 0 <= k < |positions| :: positions[k] < MAX_INT32
      requires forall j | 0 <= j < |caches| :: Idle(caches[j], before[j], |positions|)
      modifies this`curType, Parts()
      ensures failed <= |caches| && FirstFailure(before, |positions|, maskOks, r, failed)
      ensures r.Pass? <==> failed == |caches|
      ensures r.Pass? ==> curType == 0 && forall j | 0 <= j < |caches| :: Loaded(caches[j], before[j], positions, seqs)
      ensures r.Fail? ==>
        && Settled(caches[failed], before[failed], positions, seqs, r)
        && (forall j | failed < j < |caches| :: Idle(caches[j], before[j], |positions|))
        && forall j | 0 <= j < failed ::
          Recovered(caches[j], before[j], |positions|, Beyond(before[j].cells, positions, seqs))
    {
      hide FirstFailure, Beyond, Loaded, Recovered, Idle, Settled;
      r, failed := LoadEach(positions, seqs, maskOks, before);
      if r.Pass? {
        curType := 0;
      } else {
        Undo(failed, positions, seqs, before, r);
      }
    }

    /** Asks one cache after the other, up to the first that refuses. */
    method LoadEach(positions: seq<Int32>, seqs: seq<int>, maskOks: seq<bool>, ghost before: seq<State>)
      returns (r: Outcome, failed: nat)
      requires Separate() && |positions| == |seqs| && |before| == |caches| == |maskOks|
      requires forall k | 0 <= k < |positions| :: positions[k] < MAX_INT32
      requires forall j | 0 <= j < |caches| :: Idle(caches[j], before[j], |positions|)
      modifies Parts()
      ensures failed <= |caches| && FirstFailure(before, |positions|, maskOks, r, failed)
      ensures r.Pass? <==> failed == |caches|
      ensures forall j | 0 <= j < failed :: Loaded(caches[j], before[j], positions, seqs)
      ensures r.Fail? ==> Settled(caches[failed], before[failed], positions, seqs, r)
      ensures forall j | failed < j < |caches| :: Idle(caches[j], before[j], |positions|)
    {
      hide Reply, Beyond, Loaded, Recovered, Idle, Settled;
      failed := 0;
      r := Pass;
      while failed < |caches| && r.Pass?
        invariant failed <= |caches| && (r.Fail? ==> failed < |caches|)
        invariant forall j | 0 <= j < failed :: Reply(before[j].cells, |positions|, maskOks[j]) == Pass
        invariant forall j | 0 <= j < failed :: Loaded(caches[j], before[j], positions, seqs)
        invariant forall j | failed < j < |caches| :: Idle(caches[j], before[j], |positions|)
        invariant failed < |caches| ==>
          if r.Pass? then Idle(caches[failed], before[failed], |positions|)
          else Settled(caches[failed], before[failed], positions, seqs, r)
               && r == Reply(before[failed].cells, |positions|, maskOks[failed])
        decreases |caches| - failed, r.Pass?
      {
        r := Load(caches[failed], positions, seqs, maskOks[failed], before[failed]);
        if r.Pass? {
          failed := failed + 1;
        }
      }
    }

    /** Takes the batch out of the first n caches again, last cache first; the one
        that refused it, and those after, stay as they are. */
    method Undo(n: nat, positions: seq<Int32>, seqs: seq<int>, ghost before: seq<State>, ghost r: Outcome)
      requires n < |caches| == |before| && Separate() && |positions| == |seqs|
      requires forall k | 0 <= k < |positions| :: positions[k] < MAX_INT32
      requires forall j | 0 <= j < n :: Loaded(caches[j], before[j], positions, seqs)
      requires Settled(caches[n], before[n], positions, seqs, r)
      requires forall j | n < j < |caches| :: Idle(caches[j], before[j], |positions|)
      modifies Parts()
      ensures Settled(caches[n], before[n], positions, seqs, r)
      ensures forall j | n < j < |caches| :: Idle(caches[j], before[j], |positions|)
      ensures forall j | 0 <= j < n ::
        Recovered(caches[j], before[j], |positions|, Beyond(before[j].cells, positions, seqs))
    {
      hide Beyond, Loaded, Recovered, Idle, Settled;
      for j := n downto 0
        invariant Settled(caches[n], before[n], positions, seqs, r)
        invariant forall i | n < i < |caches| :: Idle(caches[i], before[i], |positions|)
        invariant forall i | 0 <= i < j :: Loaded(caches[i], before[i], positions, seqs)
        invariant forall i | j <= i < n ::
          Recovered(caches[i], before[i], |positions|, Beyond(before[i].cells, positions, seqs))
      {
        UndoOne(caches[j], positions, seqs, before[j]);
      }
    }

    static method Load(c: Causal, positions: seq<Int32>, seqs: seq<int>, maskOk: bool, ghost before: State)
      returns (r: Outcome)
      requires Idle(c, before, |positions|) && |positions| == |seqs|
      requires forall k | 0 <= k < |positions| :: positions[k] < MAX_INT32
      modifies Own(c)
      ensures r == Reply(before.cells, |positions|, maskOk)
      ensures if r.Pass? then Loaded(c, before, positions, seqs) else Settled(c, before, positions, seqs, r)
    {
      hide BaseCells, BaseRows, KeepsRows, FreeBlock, Overlay, IndexOk, EmptyCount, Covers, MaskOk, Tokens, Positions;
      BaseSame(before, |positions|);
      r := c.StartForward(positions, seqs, maskOk);
      if r != Fail(CacheFull) {
        FirstIsFree(BaseCells(before.cells, |positions|), c.curLoc, |positions|);
        BatchNoSentinel(BaseCells(before.cells, |positions|), c.curLoc, positions, seqs);
      }
    }

    static method UndoOne(c: Causal, positions: seq<Int32>, seqs: seq<int>, ghost before: State)
      requires |positions| == |seqs| && Loaded(c, before, positions, seqs)
      requires forall k | 0 <= k < |positions| :: positions[k] < MAX_INT32
      modifies Own(c)
      ensures Recovered(c, before, |positions|, Beyond(before.cells, positions, seqs))
    {
      hide BaseCells, BaseRows, KeepsRows, FreeBlock, Overlay, Beyond, IndexOk, IndexOkExcept, Tokens, Positions;
      ghost var stored := c.cells[..];
      for k := 0 to |positions|
        invariant c.Valid() && c.cells[..] == Unwind(stored, positions, seqs, k)
        invariant c.curLoc == old(c.curLoc) && c.rows[..] == old(c.rows[..])
      {
        UnwindKeepsPositions(stored, positions, seqs, k);
        ghost var now := c.cells[..];
        IndexWeaken(now, c.cellRanges, seqs[k]);
        var err, stopped := c.Remove(seqs[k], positions[k], MAX_INT32, true);
        NeverBlocked(now, c.cells[..], seqs[k], positions[k], stopped);
      }
      UnwindKeepsPositions(stored, positions, seqs, |positions|);
      UndoneIs(before, c.Contents(), c.curLoc, positions, seqs);
    }
  }

  /** The cache is as it was before the batch, and can be asked for room. */
  ghost predicate Idle(c: Causal, before: State, n: nat)
    reads Own(c)
  {
    && c.Valid() && NoSentinel(before.cells) && c.Contents() == before
    && (c.hasLayers || HasBlock(before.cells, Wanted(n)))
  }

  ghost predicate Loaded(c: Causal, before: State, positions: seq<Int32>, seqs: seq<int>)
    requires |positions| == |seqs|
    reads Own(c)
  {
    c.Valid() && NoSentinel(c.cells[..]) && Holding(before, c.Contents(), c.curLoc, positions, seqs)
  }

  /** The cache is in order, without the batch. */
  ghost predicate Recovered(c: Causal, before: State, n: nat, condition: bool)
    reads Own(c)
  {
    c.Valid() && NoSentinel(c.cells[..]) && Restored(before, c.Contents(), n, condition)
  }

  /** The rows are those left by making room for n tokens. Every sequence has its
      positions back exactly when condition holds, and also the tokens at them
      if making room kept the rows with their cells. */
  ghost predicate Restored(before: State, after: State, n: nat, condition: bool) {
    && |before.cells| == |before.rows| == |after.cells|
    && after.rows == BaseRows(before.cells, before.rows, n)
    && (SamePositions(before.cells, after.cells) <==> condition)
    && (KeepsRows(before.cells, n) ==> (SameTokens(before.cells, before.rows, after.cells, after.rows) <==> condition))
  }

  /** The call fails as the first cache does that fails, and passes if none does. */
  ghost predicate FirstFailure(before: seq<State>, n: nat, maskOks: seq<bool>, r: Outcome, failed: nat)
    requires |maskOks| == |before| && failed <= |before|
  {
    && (forall i | 0 <= i < failed :: Reply(before[i].cells, n, maskOks[i]) == Pass)
    && if failed == |before| then r == Pass else r.Fail? && r == Reply(before[failed].cells, n, maskOks[failed])
  }

  /** The cache refused the batch with r. */
  ghost predicate Settled(c: Causal, before: State, positions: seq<Int32>, seqs: seq<int>, r: Outcome)
    requires |positions| == |seqs|
    reads Own(c)
  {
    if r == Fail(CacheFull) then Recovered(c, before, |positions|, true) else Loaded(c, before, positions, seqs)
  }

  ghost predicate Keeps(before: State, after: State, positions: seq<Int32>, seqs: seq<int>)
    requires |positions| == |seqs|
  {
    exists loc :: Holding(before, after, loc, positions, seqs)
  }

  /** The caches after the failed one are untouched; those before it are without the
      batch, and have everything back exactly if the batch lay beyond it. The failed
      one is without the batch if it was full, and keeps the batch if it has no mask. */
  ghost predicate AllRestored(before: seq<State>, after: seq<State>, r: Outcome, failed: nat,
                              positions: seq<Int32>, seqs: seq<int>)
    requires |positions| == |seqs|
  {
    && failed < |before| == |after|
    && (forall i | failed < i < |before| :: after[i] == before[i])
    && (if r == Fail(CacheFull) then Restored(before[failed], after[failed], |positions|, true)
        else Keeps(before[failed], after[failed], positions, seqs))
    && forall i | 0 <= i < failed ::
      Restored(before[i], after[i], |positions|, Beyond(before[i].cells, positions, seqs))
  }

  /** A cache that keeps a batch that is not empty has more positions than before. */
  lemma KeptIsMore(before: State, after: State, positions: seq<Int32>, seqs: seq<int>)
    requires |positions| == |seqs| && positions != [] && Keeps(before, after, positions, seqs)
    ensures !SamePositions(before.cells, after.cells)
  {
    hide Positions, Tokens, BaseCells, BaseRows, KeepsRows, NoSentinel, FreeBlock, Overlay;
    var loc :| Holding(before, after, loc, positions, seqs);
    var batch := BatchCells(positions, seqs);
    ForwardViews(before.cells, before.rows, positions, seqs, Blank(|positions|), loc);
    PositionHeld(batch, seqs[0], 0);
    assert Positions(after.cells, seqs[0]) == Positions(before.cells, seqs[0]) + Positions(batch, seqs[0]);
  }

  /** A pass that fails leaves every position as it was exactly if the cache that
      refused was full and the batch lay beyond what the caches before it held. */
  lemma AllOrNothingIff(before: seq<State>, after: seq<State>, r: Outcome, failed: nat,
                        positions: seq<Int32>, seqs: seq<int>)
    requires |positions| == |seqs| && positions != [] && AllRestored(before, after, r, failed, positions, seqs)
    ensures (forall i | 0 <= i < |before| :: SamePositions(before[i].cells, after[i].cells))
       <==> r == Fail(CacheFull) && forall i | 0 <= i < failed :: Beyond(before[i].cells, positions, seqs)
  {
    hide Beyond, Keeps, Positions, KeepsRows, BaseRows;
    if r != Fail(CacheFull) {
      KeptIsMore(before[failed], after[failed], positions, seqs);
    } else {
      forall i | 0 <= i < |before|
        ensures SamePositions(before[i].cells, after[i].cells) <==>
          (i < failed ==> Beyond(before[i].cells, positions, seqs))
      {
      }
    }
  }

  /** The cache that was as before now also holds the batch, in cells whose rows
      are still to be written. */
  ghost predicate Holding(before: State, after: State, loc: nat, positions: seq<Int32>, seqs: seq<int>)
    requires |positions| == |seqs|
  {
    && |before.cells| == |before.rows|
    && NoSentinel(BaseCells(before.cells, |positions|))
    && FreeBlock(BaseCells(before.cells, |positions|), loc, |positions|)
    && after.cells == Overlay(BaseCells(before.cells, |positions|), loc, BatchCells(positions, seqs))
    && after.rows == BaseRows(before.cells, before.rows, |positions|)
  }

  /** Making room for a batch changes no positions, and no tokens if it keeps the
      rows with their cells. */
  lemma BaseSame(before: State, n: nat)
    requires NoSentinel(before.cells) && |before.cells| == |before.rows|
    ensures NoSentinel(BaseCells(before.cells, n))
    ensures Restored(before, State(BaseCells(before.cells, n), BaseRows(before.cells, before.rows, n)), n, true)
  {
    hide Tokens, Positions, Compacted, BaseRows, KeepsRows;
    BaseViews(before.cells, before.rows, n);
    CompactedNoSentinel(before.cells);
  }

  lemma CompactedNoSentinel(cells: seq<Cell>)
    requires NoSentinel(cells)
    ensures NoSentinel(Compacted(cells))
  {
    var ms := Moves(cells);
    MoveListFillsHoles(cells, 0, |cells| - 1);
    forall i | 0 <= i < |cells|
      ensures Compacted(cells)[i].pos < MAX_INT32
    {
      if j :| 0 <= j < |ms| && (ms[j].dst == i || ms[j].src == i) {
        Moved(cells, ms, |ms|, j);
      } else {
        Unmoved(cells, ms, |ms|, i);
      }
    }
  }

  lemma UndoneIs(before: State, after: State, loc: nat, positions: seq<Int32>, seqs: seq<int>)
    requires |positions| == |seqs| && |before.cells| == |before.rows|
    requires NoSentinel(BaseCells(before.cells, |positions|))
    requires FreeBlock(BaseCells(before.cells, |positions|), loc, |positions|)
    requires forall k | 0 <= k < |positions| :: positions[k] < MAX_INT32
    requires after.cells == Undone(BaseCells(before.cells, |positions|), loc, positions, seqs)
    requires after.rows == BaseRows(before.cells, before.rows, |positions|)
    ensures Restored(before, after, |positions|, Beyond(before.cells, positions, seqs))
  {
    hide Tokens, Positions, BaseCells, BaseRows, KeepsRows, FreeBlock, NoSentinel, Beyond, Undone, SamePositions;
    hide SameTokens;
    UndoneRestores(before.cells, before.rows, loc, positions, seqs);
  }

  lemma BatchNoSentinel(base: seq<Cell>, loc: nat, positions: seq<Int32>, seqs: seq<int>)
    requires |positions| == |seqs| && loc + |positions| <= |base| && NoSentinel(base)
    requires forall k | 0 <= k < |positions| :: positions[k] < MAX_INT32
    ensures NoSentinel(Overlay(base, loc, BatchCells(positions, seqs)))
  {
  }

  lemma IndexWeaken(cells: seq<Cell>, ranges: map<int, Range>, s: int)
    requires IndexOk(cells, ranges)
    ensures IndexOkExcept(cells, ranges, s)
  {
  }

  /** Removing up to MaxInt32 does not fail. */
  lemma NeverBlocked(cells: seq<Cell>, cells': seq<Cell>, s: int, begin: Int32, stopped: nat)
    requires NoSentinel(cells) && RemovedTo(cells, cells', s, begin, MAX_INT32, stopped)
    requires stopped < |cells| ==> Blocked(cells[stopped], s, begin, MAX_INT32)
    ensures stopped == |cells| && cells' == Removed(cells, s, begin)
  {
  }
}
